/** The stored data of the training tracker, `{ menus, records }`, and the
    data-shaping halves of the two "add" operations: the field schema a new
    menu gets from its type, and the value bag of a new custom record. */
module TrainingData {
  import opened Common
  import opened JsText

  /** The two units that denote a duration: minutes and hours. */
  const Minute: string := "分"
  const Hour: string := "時間"

  /** The `type` tag of a menu or a custom record. */
  datatype Variant = Checkbox | Single | DistanceTime | WeightReps | CustomMulti

  /** One input of a menu: the key its value is stored under, a caption (the `label`), a unit. */
  datatype FieldSpec = FieldSpec(name: string, caption: string, unit: string)

  /** A recurring menu. `fields` is `None` for menus saved by older versions
      of the application, which had no field schema. */
  datatype Menu = Menu(id: string, name: string, variant: Variant, fields: Option<seq<FieldSpec>>)

  /** A value stored in a predefined entry: the checkbox state under
      `checked`, or a number under a field key. */
  datatype Value = Flag(b: bool) | Num(x: real)

  /** `records[date].predefined[menuId]`: an object from keys to values. */
  type Entry = map<string, Value>

  /** The `values` bag of a custom record, one shape per type; the units are
      stored beside the numbers, and an empty numeric input is `None` (null). */
  datatype CustomValues =
    | SingleValues(value: real, unit: string)
    | DistanceTimeValues(distance: Option<real>, distanceUnit: string, time: Option<real>, timeUnit: string)
    | WeightRepsValues(weight: Option<real>, weightUnit: string, reps: Option<int>, repsUnit: string)
    | CustomMultiValues(value1: Option<real>, unit1: string, value2: Option<real>, unit2: string)

  /** A custom record either carries a `values` bag (current format) or the
      flat `value`/`unit` pair of the oldest format (an absent unit is ""). */
  datatype CustomPayload = Shaped(values: CustomValues) | Flat(value: Option<real>, unit: string)

  datatype CustomEntry = CustomEntry(id: string, name: string, payload: CustomPayload, timestamp: string)

  /** Everything logged on one date. */
  datatype DayRecord = DayRecord(predefined: map<string, Entry>, custom: seq<CustomEntry>)

  /** `data.records`: date key to day record. */
  type Records = map<string, DayRecord>

  /** `data` as a whole. */
  datatype Store = Store(menus: seq<Menu>, records: Records)

  /** The two validation messages the add operations show instead of adding. */
  datatype Rejection = EmptyName | NoValue

  const EmptyDay := DayRecord(map[], [])

  function VariantOf(v: CustomValues): Variant {
    match v
    case SingleValues(_, _) => Single
    case DistanceTimeValues(_, _, _, _) => DistanceTime
    case WeightRepsValues(_, _, _, _) => WeightReps
    case CustomMultiValues(_, _, _, _) => CustomMulti
  }

  // ---------------------------------------------------------------- menus

  /** The text inputs of the menu form; `None` when the element is not on
      the page (the form only shows the inputs of the selected type). */
  datatype MenuForm = MenuForm(
    unit: Option<string>,
    distanceUnit: Option<string>, timeUnit: Option<string>,
    weightUnit: Option<string>, repsUnit: Option<string>,
    field1: Option<string>, unit1: Option<string>,
    field2: Option<string>, unit2: Option<string>)

  /** An input holding something other than white space. */
  predicate Filled(input: Option<string>) {
    input.Some? && Trim(input.value) != ""
  }

  /** `input?.value.trim() || fallback`. */
  function TrimmedOr(input: Option<string>, fallback: string): string {
    if Filled(input) then Trim(input.value) else fallback
  }

  /** The field schema each menu type has: no fields for a checkbox, the one
      key `value` for a single value, two fixed keys for distance/time and
      weight/reps, and up to two user-named keys `custom1`, `custom2`. */
  predicate FitsVariant(variant: Variant, fs: seq<FieldSpec>) {
    match variant
    case Checkbox => fs == []
    case Single => |fs| == 1 && fs[0].name == "value"
    case DistanceTime => |fs| == 2 && fs[0].name == "distance" && fs[1].name == "time"
    case WeightReps => |fs| == 2 && fs[0].name == "weight" && fs[1].name == "reps"
    case CustomMulti =>
      && |fs| <= 2
      && (forall i :: 0 <= i < |fs| ==> fs[i].name == "custom1" || fs[i].name == "custom2")
      && (|fs| == 2 ==> fs[0].name == "custom1" && fs[1].name == "custom2")
  }

  predicate HasField(fs: seq<FieldSpec>, name: string) {
    exists i :: 0 <= i < |fs| && fs[i].name == name
  }

  /** The field schema `addPredefinedMenu` derives from the type and the form. */
  function MenuFields(variant: Variant, form: MenuForm): (fs: seq<FieldSpec>)
    ensures FitsVariant(variant, fs)
  {
    match variant
    case Checkbox => []
    case Single => [FieldSpec("value", "値", TrimmedOr(form.unit, ""))]
    case DistanceTime =>
      [FieldSpec("distance", "距離", TrimmedOr(form.distanceUnit, "km")),
       FieldSpec("time", "時間", TrimmedOr(form.timeUnit, Minute))]
    case WeightReps =>
      [FieldSpec("weight", "重量", TrimmedOr(form.weightUnit, "kg")),
       FieldSpec("reps", "回数", TrimmedOr(form.repsUnit, "回"))]
    case CustomMulti => CustomFields(form)
  }

  /** The `custom1` and `custom2` fields, each present only when its name
      input is filled. */
  function CustomFields(form: MenuForm): seq<FieldSpec> {
    (if Filled(form.field1) then [FieldSpec("custom1", Trim(form.field1.value), TrimmedOr(form.unit1, ""))] else [])
    + (if Filled(form.field2) then [FieldSpec("custom2", Trim(form.field2.value), TrimmedOr(form.unit2, ""))] else [])
  }

  /** Each field takes its unit from its own input, trimmed, or the type's
      default when that input is blank or absent; a custom field takes its
      caption from its name input. */
  lemma MenuFieldsFollowForm(variant: Variant, form: MenuForm)
    ensures var fs := MenuFields(variant, form);
      && (variant == Single ==> fs[0].unit == TrimmedOr(form.unit, ""))
      && (variant == DistanceTime ==>
            fs[0].unit == TrimmedOr(form.distanceUnit, "km") && fs[1].unit == TrimmedOr(form.timeUnit, Minute))
      && (variant == WeightReps ==>
            fs[0].unit == TrimmedOr(form.weightUnit, "kg") && fs[1].unit == TrimmedOr(form.repsUnit, "回"))
      && (forall i :: 0 <= i < |fs| && variant == CustomMulti && fs[i].name == "custom1" ==>
            Filled(form.field1) && fs[i].caption == Trim(form.field1.value) && fs[i].unit == TrimmedOr(form.unit1, ""))
      && (forall i :: 0 <= i < |fs| && variant == CustomMulti && fs[i].name == "custom2" ==>
            Filled(form.field2) && fs[i].caption == Trim(form.field2.value) && fs[i].unit == TrimmedOr(form.unit2, ""))
  {
  }

  /** Every field of a new menu has a caption. */
  lemma MenuFieldsHaveCaptions(variant: Variant, form: MenuForm)
    ensures HasCaptions(MenuFields(variant, form))
  {
    if variant == CustomMulti {
      var first := if Filled(form.field1) then [FieldSpec("custom1", Trim(form.field1.value), TrimmedOr(form.unit1, ""))] else [];
      var second := if Filled(form.field2) then [FieldSpec("custom2", Trim(form.field2.value), TrimmedOr(form.unit2, ""))] else [];
      CaptionsConcat(first, second);
    }
  }

  /** A custom menu has the `custom1` field exactly when the first name input
      is filled, and the `custom2` field exactly when the second one is. */
  lemma CustomFieldsFollowInputs(form: MenuForm)
    ensures HasField(MenuFields(CustomMulti, form), "custom1") <==> Filled(form.field1)
    ensures HasField(MenuFields(CustomMulti, form), "custom2") <==> Filled(form.field2)
  {
    var f1 := FieldSpec("custom1", if Filled(form.field1) then Trim(form.field1.value) else "", TrimmedOr(form.unit1, ""));
    var f2 := FieldSpec("custom2", if Filled(form.field2) then Trim(form.field2.value) else "", TrimmedOr(form.unit2, ""));
    var first := if Filled(form.field1) then [f1] else [];
    var second := if Filled(form.field2) then [f2] else [];
    assert CustomFields(form) == first + second;
    OptionalField(Filled(form.field1), f1, "custom1");
    OptionalField(Filled(form.field1), f1, "custom2");
    OptionalField(Filled(form.field2), f2, "custom1");
    OptionalField(Filled(form.field2), f2, "custom2");
    HasFieldConcat(first, second, "custom1");
    HasFieldConcat(first, second, "custom2");
  }

  /** A distance/time menu with no time unit given measures its time in minutes. */
  lemma DistanceTimeDefaultsToMinutes(form: MenuForm)
    requires !Filled(form.timeUnit)
    ensures MenuFields(DistanceTime, form)[1] == FieldSpec("time", "時間", Minute)
  {
  }

  lemma OptionalField(present: bool, f: FieldSpec, name: string)
    ensures HasField(if present then [f] else [], name) <==> present && f.name == name
  {
    if present && f.name == name {
      assert [f][0].name == name;
    }
  }

  lemma HasFieldConcat(a: seq<FieldSpec>, b: seq<FieldSpec>, name: string)
    ensures HasField(a + b, name) <==> HasField(a, name) || HasField(b, name)
  {
    if HasField(a + b, name) {
      var i :| 0 <= i < |a + b| && (a + b)[i].name == name;
      if i >= |a| {
        assert b[i - |a|].name == name;
      }
    }
    if HasField(a, name) {
      var i :| 0 <= i < |a| && a[i].name == name;
      assert (a + b)[i].name == name;
    }
    if HasField(b, name) {
      var i :| 0 <= i < |b| && b[i].name == name;
      assert (a + b)[|a| + i].name == name;
    }
  }

  /** Every field has a caption to show beside its input. */
  predicate HasCaptions(fs: seq<FieldSpec>) {
    forall i :: 0 <= i < |fs| ==> fs[i].caption != ""
  }

  lemma CaptionsConcat(a: seq<FieldSpec>, b: seq<FieldSpec>)
    requires HasCaptions(a) && HasCaptions(b)
    ensures HasCaptions(a + b)
  {
    forall i | 0 <= i < |a + b| ensures (a + b)[i].caption != "" {
      if i >= |a| {
        assert (a + b)[i] == b[i - |a|];
      }
    }
  }

  /** The shape every menu created by the application has. */
  predicate WellFormedMenu(m: Menu) {
    && m.name != ""
    && Trim(m.name) == m.name
    && m.fields.Some?
    && FitsVariant(m.variant, m.fields.value)
  }

  /** The menu `addPredefinedMenu` appends, or the rejection it shows. */
  function NewMenu(name: string, variant: Variant, form: MenuForm, id: string): (r: Result<Menu, Rejection>)
    ensures r.Failure? <==> Trim(name) == ""
    ensures r.Failure? ==> r.error == EmptyName
    ensures r.Success? ==> WellFormedMenu(r.value)
    ensures r.Success? ==> r.value.id == id && r.value.name == Trim(name) && r.value.variant == variant
    ensures r.Success? ==> r.value.fields == Some(MenuFields(variant, form))
  {
    if Trim(name) == "" then Failure(EmptyName)
    else
      TrimIdempotent(name);
      Success(Menu(id, Trim(name), variant, Some(MenuFields(variant, form))))
  }

  // ------------------------------------------------------- custom records

  /** The inputs of the custom-record form. A numeric input is `None` when
      the element is absent or empty; otherwise it holds the number its
      text denotes. */
  datatype CustomForm = CustomForm(
    recordValue: Option<real>, recordUnit: Option<string>,
    distanceValue: Option<real>, timeValue: Option<real>,
    weightValue: Option<real>, repsValue: Option<real>,
    value1: Option<real>, unit1: Option<string>,
    value2: Option<real>, unit2: Option<string>)

  /** Whether the inputs of the chosen type hold at least one value
      (`hasValidValue`); no input of a checkbox type is ever read. */
  predicate HasValue(variant: Variant, form: CustomForm) {
    match variant
    case Checkbox => false
    case Single => form.recordValue.Some?
    case DistanceTime => form.distanceValue.Some? || form.timeValue.Some?
    case WeightReps => form.weightValue.Some? || form.repsValue.Some?
    case CustomMulti => form.value1.Some? || form.value2.Some?
  }

  /** `parseInt` of a decimal numeral: the integer part, truncated toward zero. */
  function TruncateToInt(x: real): (n: int)
    ensures x >= 0.0 ==> 0 <= n && n as real <= x < n as real + 1.0
    ensures x < 0.0 ==> n <= 0 && n as real - 1.0 < x <= n as real
  {
    if x >= 0.0 then x.Floor else -((-x).Floor)
  }

  /** The `values` bag `addCustomRecord` builds, when some input is filled. */
  function CustomValuesOf(variant: Variant, form: CustomForm): (r: Option<CustomValues>)
    ensures r.Some? <==> HasValue(variant, form)
    ensures r.Some? ==> VariantOf(r.value) == variant
    ensures r.Some? && variant == Single ==>
      r.value == SingleValues(form.recordValue.value, TrimmedOr(form.recordUnit, ""))
    ensures r.Some? && variant == DistanceTime ==>
      && r.value.distance == form.distanceValue && r.value.distanceUnit == "km"
      && r.value.time == form.timeValue && r.value.timeUnit == Minute
    ensures r.Some? && variant == WeightReps ==>
      && r.value.weight == form.weightValue && r.value.weightUnit == "kg"
      && (r.value.reps.Some? <==> form.repsValue.Some?)
      && (form.repsValue.Some? ==> r.value.reps.value == TruncateToInt(form.repsValue.value))
      && r.value.repsUnit == "回"
    ensures r.Some? && variant == CustomMulti ==>
      && r.value.value1 == form.value1 && r.value.unit1 == TrimmedOr(form.unit1, "")
      && r.value.value2 == form.value2 && r.value.unit2 == TrimmedOr(form.unit2, "")
  {
    match variant
    case Checkbox => None
    case Single =>
      if form.recordValue.Some? then Some(SingleValues(form.recordValue.value, TrimmedOr(form.recordUnit, "")))
      else None
    case DistanceTime =>
      if form.distanceValue.Some? || form.timeValue.Some?
      then Some(DistanceTimeValues(form.distanceValue, "km", form.timeValue, Minute))
      else None
    case WeightReps =>
      if form.weightValue.Some? || form.repsValue.Some?
      then
        var reps := if form.repsValue.Some? then Some(TruncateToInt(form.repsValue.value)) else None;
        Some(WeightRepsValues(form.weightValue, "kg", reps, "回"))
      else None
    case CustomMulti =>
      if form.value1.Some? || form.value2.Some?
      then Some(CustomMultiValues(form.value1, TrimmedOr(form.unit1, ""), form.value2, TrimmedOr(form.unit2, "")))
      else None
  }

  /** The record `addCustomRecord` appends, or the rejection it shows: a blank
      name is checked first, then the presence of a value. */
  function NewCustomEntry(name: string, variant: Variant, form: CustomForm, id: string, timestamp: string)
    : (r: Result<CustomEntry, Rejection>)
    ensures r == Failure(EmptyName) <==> Trim(name) == ""
    ensures r == Failure(NoValue) <==> Trim(name) != "" && !HasValue(variant, form)
    ensures r.Success? ==>
      && r.value.id == id && r.value.name == Trim(name) && r.value.name != ""
      && r.value.timestamp == timestamp
      && r.value.payload.Shaped? && VariantOf(r.value.payload.values) == variant
    ensures r.Success? ==> CustomValuesOf(variant, form).Some? && r.value.payload == Shaped(CustomValuesOf(variant, form).value)
  {
    if Trim(name) == "" then Failure(EmptyName)
    else match CustomValuesOf(variant, form)
      case None => Failure(NoValue)
      case Some(values) => Success(CustomEntry(id, Trim(name), Shaped(values), timestamp))
  }
}
