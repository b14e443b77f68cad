/** The scoring engine: the total training time of a date in minutes
    (`calculateTotalTrainingTime`) and the daily stamp
    (`calculateAchievement`), as functions of a snapshot of the store. */
module Scoring {
  import opened Common
  import opened TrainingData
  import opened RecordStore

  /** The daily stamp: none, ○, ◎ or 🌸. */
  datatype Rating = NoStamp | Circle | DoubleCircle | Hanamaru

  function Tier(r: Rating): nat {
    match r
    case NoStamp => 0
    case Circle => 1
    case DoubleCircle => 2
    case Hanamaru => 3
  }

  // ------------------------------------------------------------ completion

  /** A predefined entry is completed when its checkbox is `true`, or when a
      key other than `checked` holds something that is not 0 (`!== 0`). */
  predicate IsCompleted(e: Entry) {
    ("checked" in e && e["checked"] == Flag(true))
    || exists k :: k in e && k != "checked" && e[k] != Num(0.0)
  }

  /** The completed entries among `keys`. */
  function CompletedKeys(pre: map<string, Entry>, keys: set<string>): set<string> {
    set k | k in keys && k in pre && IsCompleted(pre[k])
  }

  /** `completedPredefined`. */
  function CompletedCount(pre: map<string, Entry>): (n: nat)
    ensures n <= |pre|
  {
    SubsetCardinality(CompletedKeys(pre, pre.Keys), pre.Keys);
    |CompletedKeys(pre, pre.Keys)|
  }

  lemma {:induction false} SubsetCardinality(a: set<string>, b: set<string>)
    requires a <= b
    ensures |a| <= |b|
    decreases |b|
  {
    if a != {} {
      var x :| x in a;
      SubsetCardinality(a - {x}, b - {x});
    }
  }

  /** Adding one key to the keys looked at adds one to the count exactly when
      that key's entry is completed. */
  lemma CompletedKeysAdd(pre: map<string, Entry>, keys: set<string>, k: string)
    requires k in pre && k !in keys
    ensures |CompletedKeys(pre, keys + {k})|
         == |CompletedKeys(pre, keys)| + (if IsCompleted(pre[k]) then 1 else 0)
  {
    if IsCompleted(pre[k]) {
      assert CompletedKeys(pre, keys + {k}) == CompletedKeys(pre, keys) + {k};
    } else {
      assert CompletedKeys(pre, keys + {k}) == CompletedKeys(pre, keys);
    }
  }

  // --------------------------------------------------------------- minutes

  /** JavaScript truthiness of a stored value. */
  predicate Truthy(v: Value) {
    match v
    case Flag(b) => b
    case Num(x) => x != 0.0
  }

  /** The number a stored value becomes in `+=` and `*=` (`true` is 1). */
  function AsNumber(v: Value): real {
    match v
    case Flag(b) => if b then 1.0 else 0.0
    case Num(x) => x
  }

  /** A menu field is read as a duration when its key is `time` or its unit
      is minutes or hours. */
  predicate CountsAsTime(f: FieldSpec) {
    f.name == "time" || f.unit == Minute || f.unit == Hour
  }

  /** What one field of a menu adds to the total for entry `e`: its truthy
      value, times 60 when the unit is hours, otherwise as it is. */
  function FieldMinutes(f: FieldSpec, e: Entry): real {
    if CountsAsTime(f) && f.name in e && Truthy(e[f.name])
    then (if f.unit == Hour then AsNumber(e[f.name]) * 60.0 else AsNumber(e[f.name]))
    else 0.0
  }

  /** The sum of `FieldMinutes` over the fields, in order. */
  function FieldsMinutes(fs: seq<FieldSpec>, e: Entry): real {
    if fs == [] then 0.0 else FieldsMinutes(fs[..|fs| - 1], e) + FieldMinutes(fs[|fs| - 1], e)
  }

  /** `menus.find(m => m.id === id)`: the first menu with that id. */
  function FindMenu(menus: seq<Menu>, id: string): (r: Option<Menu>)
    ensures r.None? <==> forall i :: 0 <= i < |menus| ==> menus[i].id != id
    ensures r.Some? ==> exists i :: 0 <= i < |menus| && menus[i] == r.value && r.value.id == id
                                    && forall j :: 0 <= j < i ==> menus[j].id != id
  {
    if menus == [] then None
    else if menus[0].id == id then Some(menus[0])
    else
      FindMenu(menus[1..], id)
  }

  /** What the entry of one menu adds: nothing when the menu is gone or has
      no field schema, otherwise the sum over its fields. */
  function EntryMinutes(menus: seq<Menu>, menuId: string, e: Entry): real {
    match FindMenu(menus, menuId)
    case None => 0.0
    case Some(m) => if m.fields.None? then 0.0 else FieldsMinutes(m.fields.value, e)
  }

  /** The sum of `EntryMinutes` over the entries whose keys are in `keys`
      (in no particular order; see `MinutesOverRemove`). */
  ghost function MinutesOver(menus: seq<Menu>, pre: map<string, Entry>, keys: set<string>): real
    requires keys <= pre.Keys
    decreases keys
  {
    if keys == {} then 0.0
    else
      var k :| k in keys;
      EntryMinutes(menus, k, pre[k]) + MinutesOver(menus, pre, keys - {k})
  }

  /** The sum does not depend on the order the entries are visited in: any
      key can be taken out first. */
  lemma {:induction false} MinutesOverRemove(menus: seq<Menu>, pre: map<string, Entry>, keys: set<string>, k: string)
    requires keys <= pre.Keys && k in keys
    ensures MinutesOver(menus, pre, keys) == EntryMinutes(menus, k, pre[k]) + MinutesOver(menus, pre, keys - {k})
    decreases |keys|
  {
    var j :| j in keys && MinutesOver(menus, pre, keys) == EntryMinutes(menus, j, pre[j]) + MinutesOver(menus, pre, keys - {j});
    if j != k {
      MinutesOverRemove(menus, pre, keys - {j}, k);
      MinutesOverRemove(menus, pre, keys - {k}, j);
      assert keys - {j} - {k} == keys - {k} - {j};
    }
  }

  /** Two maps that agree on `keys` have the same sum over `keys`. */
  lemma {:induction false} MinutesOverAgree(menus: seq<Menu>, pre1: map<string, Entry>, pre2: map<string, Entry>, keys: set<string>)
    requires keys <= pre1.Keys && keys <= pre2.Keys
    requires forall k :: k in keys ==> pre1[k] == pre2[k]
    ensures MinutesOver(menus, pre1, keys) == MinutesOver(menus, pre2, keys)
    decreases |keys|
  {
    if keys != {} {
      var k :| k in keys;
      MinutesOverRemove(menus, pre1, keys, k);
      MinutesOverRemove(menus, pre2, keys, k);
      MinutesOverAgree(menus, pre1, pre2, keys - {k});
    }
  }

  /** Entries that add nothing give a sum of nothing. */
  lemma {:induction false} MinutesOverZero(menus: seq<Menu>, pre: map<string, Entry>, keys: set<string>)
    requires keys <= pre.Keys
    requires forall k :: k in keys ==> EntryMinutes(menus, k, pre[k]) == 0.0
    ensures MinutesOver(menus, pre, keys) == 0.0
    decreases |keys|
  {
    if keys != {} {
      var k :| k in keys;
      MinutesOverRemove(menus, pre, keys, k);
      MinutesOverZero(menus, pre, keys - {k});
    }
  }

  /** The minutes of all predefined entries of a day. */
  ghost function PredefinedMinutes(menus: seq<Menu>, pre: map<string, Entry>): real {
    MinutesOver(menus, pre, pre.Keys)
  }

  /** A custom amount in minutes: minutes as they are, hours times 60, any
      other unit nothing. */
  function ToMinutes(amount: real, unit: string): real {
    if unit == Minute then amount else if unit == Hour then amount * 60.0 else 0.0
  }

  /** `x || 0` for an optional number. */
  function OrZero(x: Option<real>): real {
    if x.Some? then x.value else 0.0
  }

  /** What one custom record adds: the duration slot(s) of its shape, or the
      flat `value`/`unit` pair of the oldest format. */
  function CustomMinutes(c: CustomEntry): real {
    match c.payload
    case Shaped(SingleValues(v, u)) => ToMinutes(v, u)
    case Shaped(DistanceTimeValues(_, _, t, tu)) => ToMinutes(OrZero(t), tu)
    case Shaped(WeightRepsValues(_, _, _, _)) => 0.0
    case Shaped(CustomMultiValues(v1, u1, v2, u2)) => ToMinutes(OrZero(v1), u1) + ToMinutes(OrZero(v2), u2)
    case Flat(v, u) => ToMinutes(OrZero(v), u)
  }

  /** The sum of `CustomMinutes` over the list, in order. */
  function CustomListMinutes(cs: seq<CustomEntry>): real {
    if cs == [] then 0.0 else CustomListMinutes(cs[..|cs| - 1]) + CustomMinutes(cs[|cs| - 1])
  }

  /** `calculateTotalTrainingTime(date)`: 0 for a date without a record. */
  ghost function TotalTrainingTime(menus: seq<Menu>, rs: Records, date: string): real {
    if date !in rs then 0.0
    else PredefinedMinutes(menus, rs[date].predefined) + CustomListMinutes(rs[date].custom)
  }

  // ---------------------------------------------------------------- rating

  /** The rating rule, decided top to bottom. The `completedPredefined >= 3`
      and `completedPredefined >= 1` tests are subsumed by the menu totals. */
  function Rate(completed: nat, customCount: nat, minutes: real): (r: Rating)
    ensures r == Hanamaru <==> completed + customCount >= 5 || minutes >= 60.0
    ensures r == DoubleCircle <==> 3 <= completed + customCount < 5 && minutes < 60.0
    ensures r == Circle <==> 1 <= completed + customCount < 3 && minutes < 60.0
    ensures r == NoStamp <==> completed == 0 && customCount == 0 && minutes < 60.0
  {
    var totalMenus := completed + customCount;
    if totalMenus >= 5 || minutes >= 60.0 then Hanamaru
    else if completed >= 3 || totalMenus >= 3 then DoubleCircle
    else if completed >= 1 || customCount >= 1 then Circle
    else NoStamp
  }

  /** More completed menus, more custom records or more minutes never give
      a lower stamp. */
  lemma RateMonotonic(c1: nat, k1: nat, t1: real, c2: nat, k2: nat, t2: real)
    requires c1 <= c2 && k1 <= k2 && t1 <= t2
    ensures Tier(Rate(c1, k1, t1)) <= Tier(Rate(c2, k2, t2))
  {
  }

  /** `calculateAchievement(date)`: no stamp for a date without a record. */
  ghost function Achievement(menus: seq<Menu>, rs: Records, date: string): Rating {
    if date !in rs then NoStamp
    else Rate(CompletedCount(rs[date].predefined), |rs[date].custom|, TotalTrainingTime(menus, rs, date))
  }

  // ------------------------------------------------------------ properties

  /** The checkbox state alone decides completion of a checkbox entry. */
  lemma CheckboxEntryCompletion(b: bool)
    ensures IsCompleted(map["checked" := Flag(b)]) == b
  {
  }

  /** A stored 0 does not complete an entry; any other number does. */
  lemma ZeroValueNotCompleted(key: string, x: real)
    requires key != "checked"
    ensures IsCompleted(map[key := Num(x)]) <==> x != 0.0
  {
    if x != 0.0 {
      assert key in map[key := Num(x)];
    }
  }

  /** A field write of a number other than 0 completes the entry it writes. */
  lemma FieldWriteCompletes(rs: Records, date: string, menuId: string, fieldName: string, v: real)
    requires fieldName != "" && fieldName != "checked" && v != 0.0
    ensures var e := EntryAt(UpdatePredefined(rs, date, menuId, fieldName, Some(v), None), date, menuId);
            e.Some? && IsCompleted(e.value)
  {
    var e := EntryAt(UpdatePredefined(rs, date, menuId, fieldName, Some(v), None), date, menuId);
    assert fieldName in e.value;
  }

  /** The minutes `FieldsMinutes` reads from an entry that holds only
      `checked` are never negative. */
  lemma {:induction false} FlagOnlyMinutesNonNegative(fs: seq<FieldSpec>, b: bool)
    ensures FieldsMinutes(fs, map["checked" := Flag(b)]) >= 0.0
    decreases |fs|
  {
    if fs != [] {
      FlagOnlyMinutesNonNegative(fs[..|fs| - 1], b);
    }
  }

  /** A day record that is there, with at least as many completed menus,
      custom records and minutes, has at least as high a stamp. */
  lemma AchievementCompare(menus: seq<Menu>, rs: Records, rs': Records, date: string)
    requires date in rs ==> date in rs'
    requires date in rs ==> CompletedCount(rs[date].predefined) <= CompletedCount(rs'[date].predefined)
    requires date in rs ==> |rs[date].custom| <= |rs'[date].custom|
    requires date in rs ==> TotalTrainingTime(menus, rs, date) <= TotalTrainingTime(menus, rs', date)
    ensures Tier(Achievement(menus, rs, date)) <= Tier(Achievement(menus, rs', date))
  {
    if date in rs {
      RateMonotonic(CompletedCount(rs[date].predefined), |rs[date].custom|, TotalTrainingTime(menus, rs, date),
                    CompletedCount(rs'[date].predefined), |rs'[date].custom|, TotalTrainingTime(menus, rs', date));
    }
  }

  /** Ticking the checkbox of a menu that has no entry yet on `date` never
      lowers the stamp of `date`. */
  lemma CheckingNewMenuNeverLowers(menus: seq<Menu>, rs: Records, date: string, menuId: string,
                                   fieldName: string, value: Option<real>)
    requires EntryAt(rs, date, menuId) == None
    ensures Tier(Achievement(menus, rs, date))
         <= Tier(Achievement(menus, UpdatePredefined(rs, date, menuId, fieldName, value, Some(true)), date))
  {
    var rs' := UpdatePredefined(rs, date, menuId, fieldName, value, Some(true));
    var pre := DayOf(rs, date).predefined;
    var flagOnly := map["checked" := Flag(true)];
    var pre' := pre[menuId := flagOnly];
    assert menuId !in pre;
    assert rs'[date].predefined == pre';
    assert rs'[date].custom == DayOf(rs, date).custom;
    // one more completed entry
    assert IsCompleted(flagOnly) by { assert "checked" in flagOnly; }
    CompletedKeysAdd(pre', pre.Keys, menuId);
    assert CompletedKeys(pre', pre.Keys) == CompletedKeys(pre, pre.Keys);
    assert pre'.Keys == pre.Keys + {menuId};
    // at least as many minutes
    MinutesOverRemove(menus, pre', pre'.Keys, menuId);
    assert pre'.Keys - {menuId} == pre.Keys;
    MinutesOverAgree(menus, pre', pre, pre.Keys);
    assert EntryMinutes(menus, menuId, flagOnly) >= 0.0 by {
      var found := FindMenu(menus, menuId);
      if found.Some? && found.value.fields.Some? {
        FlagOnlyMinutesNonNegative(found.value.fields.value, true);
      }
    }
    AchievementCompare(menus, rs, rs', date);
  }

  /** Appending a custom record that adds no negative duration never lowers
      the stamp of its date. */
  lemma AddingCustomNeverLowers(menus: seq<Menu>, rs: Records, date: string, c: CustomEntry)
    requires CustomMinutes(c) >= 0.0
    ensures Tier(Achievement(menus, rs, date)) <= Tier(Achievement(menus, AddCustom(rs, date, c), date))
  {
    var rs' := AddCustom(rs, date, c);
    var cs := DayOf(rs, date).custom;
    assert rs'[date].custom == cs + [c];
    assert (cs + [c])[..|cs|] == cs;
    assert CustomListMinutes(cs + [c]) == CustomListMinutes(cs) + CustomMinutes(c);
    AchievementCompare(menus, rs, rs', date);
  }

  /** A number input accepts negative values, so a custom record with a negative
      duration can lower a stamp: here 🌸 (60 minutes) becomes ○ (50 minutes,
      two records). */
  lemma NegativeDurationCanLower()
    ensures var c := CustomEntry("2", "x", Shaped(SingleValues(-10.0, Minute)), "");
            var rs := map["d" := DayRecord(map[], [CustomEntry("1", "run", Shaped(SingleValues(60.0, Minute)), "")])];
            Achievement([], rs, "d") == Hanamaru && Achievement([], AddCustom(rs, "d", c), "d") == Circle
  {
    var c := CustomEntry("2", "x", Shaped(SingleValues(-10.0, Minute)), "");
    var c0 := CustomEntry("1", "run", Shaped(SingleValues(60.0, Minute)), "");
    var rs := map["d" := DayRecord(map[], [c0])];
    var rs' := AddCustom(rs, "d", c);
    EmptyDayScores([]);
    assert [c0][..0] == [];
    assert CustomListMinutes([c0]) == 60.0;
    assert TotalTrainingTime([], rs, "d") == 60.0;
    assert rs'["d"] == DayRecord(map[], [c0, c]);
    assert CustomListMinutes([c0, c]) == 50.0;
    assert TotalTrainingTime([], rs', "d") == 50.0;
    assert [c0, c][..1] == [c0];
    assert [c0][..0] == [];
    assert AddCustom(rs, "d", c)["d"].custom == [c0, c];
  }

  /** Orphaned entries of a deleted menu still count as completed, but add
      no minutes any more. */
  lemma DeletedMenuEntryAddsNoMinutes(menus: seq<Menu>, id: string, e: Entry)
    ensures EntryMinutes(DeleteMenu(menus, id), id, e) == 0.0
  {
    var r := DeleteMenu(menus, id);
    assert forall i :: 0 <= i < |r| ==> r[i].id != id;
  }

  /** A menu saved without a field schema makes its entries add no minutes,
      whatever they hold. */
  lemma LegacyMenuAddsNoMinutes(menus: seq<Menu>, id: string, e: Entry)
    requires FindMenu(menus, id).Some? && FindMenu(menus, id).value.fields.None?
    ensures EntryMinutes(menus, id, e) == 0.0
  {
  }

  /** A `time` field adds its value whatever its unit is; only hours are
      converted. */
  lemma TimeFieldAnyUnit(caption: string, unit: string, x: real)
    requires x != 0.0
    ensures FieldMinutes(FieldSpec("time", caption, unit), map["time" := Num(x)])
         == if unit == Hour then x * 60.0 else x
  {
  }

  /** A flat record of the oldest format `{ value, unit }` adds exactly what
      a current single-value record with the same value and unit adds. */
  lemma LegacyFlatMatchesSingle(id: string, name: string, v: real, unit: string, stamp: string)
    ensures CustomMinutes(CustomEntry(id, name, Flat(Some(v), unit), stamp))
         == CustomMinutes(CustomEntry(id, name, Shaped(SingleValues(v, unit)), stamp))
  {
  }

  /** What a freshly built custom record adds: its time input for a
      distance/time record, nothing for weight/reps. */
  lemma NewCustomEntryMinutes(name: string, variant: Variant, form: CustomForm, id: string, stamp: string)
    requires NewCustomEntry(name, variant, form, id, stamp).Success?
    ensures var c := NewCustomEntry(name, variant, form, id, stamp).value;
            && (variant == DistanceTime ==> CustomMinutes(c) == OrZero(form.timeValue))
            && (variant == WeightReps ==> CustomMinutes(c) == 0.0)
  {
  }

  /** The unit input of a new single-value menu decides whether its entries
      count as time: left blank, the entries add no minutes whatever they hold. */
  lemma UnitlessSingleAddsNoMinutes(form: MenuForm, e: Entry)
    requires !Filled(form.unit)
    ensures FieldsMinutes(MenuFields(Single, form), e) == 0.0
  {
    var fs := MenuFields(Single, form);
    assert fs[..0] == [];
  }

  /** Given 分 or 時間 as its unit, a single-value menu's entry adds its value,
      in minutes. */
  lemma TimedSingleAddsValue(form: MenuForm, x: real)
    requires TrimmedOr(form.unit, "") == Minute || TrimmedOr(form.unit, "") == Hour
    requires x != 0.0
    ensures FieldsMinutes(MenuFields(Single, form), map["value" := Num(x)])
         == if TrimmedOr(form.unit, "") == Hour then x * 60.0 else x
  {
    var fs := MenuFields(Single, form);
    assert fs[..0] == [];
  }

  // ------------------------------------------------------------- scenarios

  const CheckboxMenus := [Menu("a", "Push-ups", Checkbox, Some([])),
                          Menu("b", "Squats", Checkbox, Some([])),
                          Menu("c", "Plank", Checkbox, Some([]))]
  const Ticked: Entry := map["checked" := Flag(true)]

  /** A day without predefined entries has no completed menu and no minutes
      from predefined menus. */
  lemma EmptyDayScores(menus: seq<Menu>)
    ensures CompletedCount(map[]) == 0 && PredefinedMinutes(menus, map[]) == 0.0
  {
    var empty: map<string, Entry> := map[];
    assert empty.Keys == {};
    assert CompletedKeys(empty, empty.Keys) == {};
  }

  /** Entries of checkbox menus add no minutes: a checkbox menu has no
      field schema to read a duration through (or none at all, if saved by
      an older version). */
  lemma CheckboxMenusAddNoMinutes(menus: seq<Menu>, pre: map<string, Entry>)
    requires forall i :: 0 <= i < |menus| ==>
      menus[i].variant == Checkbox && (menus[i].fields.Some? ==> FitsVariant(Checkbox, menus[i].fields.value))
    ensures PredefinedMinutes(menus, pre) == 0.0
  {
    forall k | k in pre.Keys ensures EntryMinutes(menus, k, pre[k]) == 0.0 {
      var found := FindMenu(menus, k);
      if found.Some? {
        var i :| 0 <= i < |menus| && menus[i] == found.value;
      }
    }
    MinutesOverZero(menus, pre, pre.Keys);
  }

  /** One ticked checkbox menu and nothing else gives ○. */
  lemma ScenarioOneCheckbox()
    ensures Achievement(CheckboxMenus, map["d" := DayRecord(map["a" := Ticked], [])], "d") == Circle
  {
    var pre := map["a" := Ticked];
    CheckboxMenusAddNoMinutes(CheckboxMenus, pre);
    assert "checked" in Ticked;
    assert CompletedKeys(pre, pre.Keys) == {"a"};
  }

  /** Three ticked checkbox menus and one custom record give ◎. */
  lemma ScenarioThreeCheckboxesOneCustom(c: CustomEntry)
    requires CustomMinutes(c) < 60.0
    ensures Achievement(CheckboxMenus, map["d" := DayRecord(map["a" := Ticked, "b" := Ticked, "c" := Ticked], [c])], "d")
         == DoubleCircle
  {
    var pre := map["a" := Ticked, "b" := Ticked, "c" := Ticked];
    var rs := map["d" := DayRecord(pre, [c])];
    CheckboxMenusAddNoMinutes(CheckboxMenus, pre);
    assert "checked" in Ticked;
    assert CompletedKeys(pre, pre.Keys) == {"a", "b", "c"};
    assert CompletedCount(pre) == 3;
    assert [c][..0] == [];
    assert CustomListMinutes([c]) == CustomMinutes(c);
    assert TotalTrainingTime(CheckboxMenus, rs, "d") < 60.0;
  }

  /** A single distance/time custom record of 65 minutes gives 🌸 with no
      predefined menu completed. */
  lemma ScenarioLongRun(menus: seq<Menu>)
    ensures var c := CustomEntry("1", "run", Shaped(DistanceTimeValues(None, "km", Some(65.0), Minute)), "");
            Achievement(menus, map["d" := DayRecord(map[], [c])], "d") == Hanamaru
  {
    var c := CustomEntry("1", "run", Shaped(DistanceTimeValues(None, "km", Some(65.0), Minute)), "");
    var rs := map["d" := DayRecord(map[], [c])];
    EmptyDayScores(menus);
    assert [c][..0] == [];
    assert CustomMinutes(c) == 65.0;
    assert CustomListMinutes([c]) == 65.0;
    assert rs["d"].predefined == map[];
    assert TotalTrainingTime(menus, rs, "d") == 65.0;
  }

  /** A flat record `{ value: 10, unit: "分" }` of the oldest format adds 10 minutes. */
  lemma ScenarioLegacyTenMinutes()
    ensures CustomListMinutes([CustomEntry("1", "walk", Flat(Some(10.0), Minute), "")]) == 10.0
  {
    var cs := [CustomEntry("1", "walk", Flat(Some(10.0), Minute), "")];
    assert cs[..0] == [];
  }
}
