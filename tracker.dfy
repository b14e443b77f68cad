/** The `TrainingTracker` object: the stored data `{ menus, records }` as
    two fields, and the operations that change them in place or read them.
    Each method is proved to leave the state, or to return the value, that
    the functions of `RecordStore`, `TrainingData` and `Scoring` describe. */
module Tracker {
  import opened Common
  import opened JsText
  import opened TrainingData
  import opened RecordStore
  import opened Scoring
  import opened Calendar

  /** Every menu has the shape the application gives a new menu. */
  predicate AllWellFormed(menus: seq<Menu>) {
    forall i :: 0 <= i < |menus| ==> WellFormedMenu(menus[i])
  }

  /** `SetEntry` stores back the day record with its predefined map
      replaced by `pre`, the map with the entry put or removed. */
  lemma SetEntryWritesDay(rs: Records, date: string, menuId: string, e: Option<Entry>, pre: map<string, Entry>)
    requires pre == if e.Some? then DayOf(rs, date).predefined[menuId := e.value] else DayOf(rs, date).predefined - {menuId}
    ensures SetEntry(rs, date, menuId, e) == rs[date := DayOf(rs, date).(predefined := pre)]
  {
  }

  lemma UpdateSame(m: map<string, Entry>, k: string)
    requires k in m
    ensures m[k := m[k]] == m
  {
  }

  lemma UpdateTwice(m: map<string, Entry>, k: string, a: Entry, b: Entry)
    ensures m[k := a][k := b] == m[k := b]
  {
  }

  lemma RemoveAfterUpdate(m: map<string, Entry>, k: string, a: Entry)
    ensures m[k := a] - {k} == m - {k}
  {
  }

  /** The branch of `updatePredefinedRecord` that edits the entry (already
      created when absent): the checkbox write, the field write or the field
      clear; `None` when the clear leaves no key and the entry is deleted. */
  method NewEntryOf(entry: Entry, fieldName: string, value: Option<real>, isChecked: Option<bool>)
    returns (result: Option<Entry>)
    ensures result == NewEntry(Some(entry), fieldName, value, isChecked)
  {
    result := Some(entry);
    if isChecked.Some? {
      result := Some(map["checked" := Flag(isChecked.value)]);
    } else if fieldName != "" && value.Some? {
      result := Some(entry[fieldName := Num(value.value)]);
    } else if fieldName != "" {
      var rest := entry - {fieldName};
      if |rest| == 0 {
        result := None;
      } else {
        result := Some(rest);
      }
    }
  }

  /** The inner `forEach` of `calculateTotalTrainingTime` over the fields
      of one menu: adds what each field reads from the entry. */
  method AddFieldMinutes(total: real, fs: seq<FieldSpec>, entry: Entry) returns (total': real)
    ensures total' == total + FieldsMinutes(fs, entry)
  {
    total' := total;
    var i := 0;
    while i < |fs|
      invariant 0 <= i <= |fs|
      invariant total' == total + FieldsMinutes(fs[..i], entry)
    {
      var field := fs[i];
      if CountsAsTime(field) && field.name in entry && Truthy(entry[field.name]) {
        var time := AsNumber(entry[field.name]);
        if field.unit == Hour {
          time := time * 60.0;
        }
        total' := total' + time;
      }
      assert fs[..i + 1][..i] == fs[..i];
      i := i + 1;
    }
    assert fs[..i] == fs;
  }

  /** One step of the pass over the custom records: adds the duration of
      `record`, read by its shape (or as a flat record of the oldest format). */
  method AddCustomMinutes(total: real, record: CustomEntry) returns (total': real)
    ensures total' == total + CustomMinutes(record)
  {
    total' := total;
    match record.payload {
      case Shaped(SingleValues(v, u)) =>
        if u == Minute { total' := total' + v; }
        else if u == Hour { total' := total' + v * 60.0; }
      case Shaped(DistanceTimeValues(_, _, t, tu)) =>
        if tu == Minute { total' := total' + OrZero(t); }
        else if tu == Hour { total' := total' + OrZero(t) * 60.0; }
      case Shaped(WeightRepsValues(_, _, _, _)) =>
      case Shaped(CustomMultiValues(v1, u1, v2, u2)) =>
        if u1 == Minute { total' := total' + OrZero(v1); }
        else if u1 == Hour { total' := total' + OrZero(v1) * 60.0; }
        if u2 == Minute { total' := total' + OrZero(v2); }
        else if u2 == Hour { total' := total' + OrZero(v2) * 60.0; }
      case Flat(v, u) =>
        if u == Minute { total' := total' + OrZero(v); }
        else if u == Hour { total' := total' + OrZero(v) * 60.0; }
    }
  }

  class TrainingTracker {
    var menus: seq<Menu>
    var records: Records

    /** `constructor` followed by `loadData`: the saved store when there is
        one, otherwise no menus and no records. */
    constructor(saved: Option<Store>)
      ensures saved.None? ==> menus == [] && records == map[]
      ensures saved.Some? ==> menus == saved.value.menus && records == saved.value.records
    {
      menus := [];
      records := map[];
      if saved.Some? {
        menus := saved.value.menus;
        records := saved.value.records;
      }
    }

    // ---------------------------------------------------------- menus

    /** `addPredefinedMenu`: rejects a blank name, otherwise appends exactly
        one menu whose field schema follows its type. */
    method AddPredefinedMenu(name: string, variant: Variant, form: MenuForm, id: string)
      returns (rejected: Option<Rejection>)
      modifies this
      ensures rejected.Some? <==> NewMenu(name, variant, form, id).Failure?
      ensures rejected.Some? ==> rejected.value == EmptyName && menus == old(menus)
      ensures rejected.None? ==> menus == old(menus) + [NewMenu(name, variant, form, id).value]
      ensures records == old(records)
      ensures AllWellFormed(old(menus)) ==> AllWellFormed(menus)
    {
      var trimmed := Trim(name);
      if trimmed == "" {
        return Some(EmptyName);
      }
      var fields := MenuFields(variant, form);
      menus := menus + [Menu(id, trimmed, variant, Some(fields))];
      rejected := None;
    }

    /** `deletePredefinedMenu`: when confirmed, drops every menu with that
        id; the entries recorded for it stay in the records. */
    method DeletePredefinedMenu(menuId: string, confirmed: bool)
      modifies this
      ensures menus == if confirmed then DeleteMenu(old(menus), menuId) else old(menus)
      ensures records == old(records)
      ensures AllWellFormed(old(menus)) ==> AllWellFormed(menus)
    {
      if confirmed {
        menus := DeleteMenu(menus, menuId);
      }
    }

    // -------------------------------------------------- custom records

    /** `addCustomRecord` on date `today`: rejects a blank name, then an
        empty set of inputs; otherwise appends exactly one record. */
    method AddCustomRecord(today: string, name: string, variant: Variant, form: CustomForm,
                           id: string, timestamp: string)
      returns (rejected: Option<Rejection>)
      modifies this
      ensures var r := NewCustomEntry(name, variant, form, id, timestamp);
              && (rejected.Some? <==> r.Failure?)
              && (rejected.Some? ==> rejected.value == r.error && records == old(records))
              && (rejected.None? ==> records == AddCustom(old(records), today, r.value))
      ensures menus == old(menus)
      ensures NoEmptyEntries(old(records)) ==> NoEmptyEntries(records)
    {
      var trimmed := Trim(name);
      if trimmed == "" {
        return Some(EmptyName);
      }
      var values := CustomValuesOf(variant, form);
      if values.None? {
        return Some(NoValue);
      }
      var record := CustomEntry(id, trimmed, Shaped(values.value), timestamp);
      assert NewCustomEntry(name, variant, form, id, timestamp) == Success(record);
      var day := EmptyDay;
      if today in records {
        day := records[today];
      }
      records := records[today := day.(custom := day.custom + [record])];
      rejected := None;
      if NoEmptyEntries(old(records)) {
        AddCustomKeepsNoEmptyEntries(old(records), today, record);
      }
    }

    /** `deleteCustomRecord` (on `today`) and `deleteCustomRecordFromHistory`
        (on any date): drops the records of that date with that id. */
    method DeleteCustomRecord(date: string, recordId: string)
      modifies this
      ensures records == DeleteCustom(old(records), date, recordId)
      ensures menus == old(menus)
      ensures NoEmptyEntries(old(records)) ==> NoEmptyEntries(records)
    {
      if date in records {
        var day := records[date];
        records := records[date := day.(custom := WithoutId(day.custom, recordId))];
      }
      if NoEmptyEntries(old(records)) {
        DeleteCustomKeepsNoEmptyEntries(old(records), date, recordId);
      }
    }

    // ---------------------------------------------- predefined entries

    /** `updatePredefinedRecord` on date `today`, step by step: create the
        day record and the entry when absent, then apply the checkbox write,
        the field write or the field clear. The day record is updated in a
        local copy and stored once at the end. Whether the write keeps the
        store free of empty entries is `UpdateKeepsNoEmptyEntries`. */
    method UpdatePredefinedRecord(today: string, menuId: string, fieldName: string,
                                  value: Option<real>, isChecked: Option<bool>)
      modifies this
      ensures records == UpdatePredefined(old(records), today, menuId, fieldName, value, isChecked)
      ensures menus == old(menus)
    {
      ghost var pre0 := DayOf(records, today).predefined;
      ghost var before := EntryAt(records, today, menuId);
      var day := EmptyDay;
      if today in records {
        day := records[today];
      }
      var pre := day.predefined;
      if menuId !in pre {
        pre := pre[menuId := map[]];
      }
      var entry := pre[menuId];
      assert entry == OrEmpty(before);
      var result := NewEntryOf(entry, fieldName, value, isChecked);
      ghost var after := NewEntry(before, fieldName, value, isChecked);
      assert result == after;
      ghost var lazy := pre;
      if result.Some? {
        pre := pre[menuId := result.value];
      } else {
        pre := pre - {menuId};
      }
      assert pre == if after.Some? then pre0[menuId := after.value] else pre0 - {menuId} by {
        assert lazy == pre0[menuId := entry] by {
          if menuId in pre0 { UpdateSame(pre0, menuId); }
        }
        if after.Some? {
          UpdateTwice(pre0, menuId, entry, after.value);
        } else {
          RemoveAfterUpdate(pre0, menuId, entry);
        }
      }
      assert day == DayOf(old(records), today);
      SetEntryWritesDay(old(records), today, menuId, after, pre);
      records := records[today := day.(predefined := pre)];
    }

    /** `deletePredefinedRecord` (on `today`) and
        `deletePredefinedRecordFromHistory` (on any date): removes that
        entry when the date has one. */
    method DeletePredefinedRecord(date: string, menuId: string)
      modifies this
      ensures records == DeletePredefined(old(records), date, menuId)
      ensures menus == old(menus)
      ensures NoEmptyEntries(old(records)) ==> NoEmptyEntries(records)
    {
      if date in records && menuId in records[date].predefined {
        var day := records[date];
        records := records[date := day.(predefined := day.predefined - {menuId})];
      }
      if NoEmptyEntries(old(records)) {
        DeletePredefinedKeepsNoEmptyEntries(old(records), date, menuId);
      }
    }

    // ------------------------------------------------- whole-store ops

    /** `importData`: the parsed file replaces the data when the user
        confirms; an unreadable file (`None`) changes nothing. */
    method ImportData(parsed: Option<Store>, confirmed: bool)
      modifies this
      ensures parsed.Some? && confirmed ==> menus == parsed.value.menus && records == parsed.value.records
      ensures !(parsed.Some? && confirmed) ==> menus == old(menus) && records == old(records)
    {
      if parsed.Some? && confirmed {
        menus := parsed.value.menus;
        records := parsed.value.records;
      }
    }

    /** `clearAllData`: back to no menus and no records. */
    method ClearAllData()
      modifies this
      ensures menus == [] && records == map[]
    {
      menus := [];
      records := map[];
    }

    // ------------------------------------------------------- scoring

    /** `calculateTotalTrainingTime(date)`: one pass over the predefined
        entries of the date (and the fields of each entry's menu), then one
        pass over its custom records. */
    method CalculateTotalTrainingTime(date: string) returns (total: real)
      ensures total == TotalTrainingTime(menus, records, date)
    {
      if date !in records {
        return 0.0;
      }
      var day := records[date];
      var pre := day.predefined;
      total := 0.0;
      var pending := pre.Keys;
      while pending != {}
        invariant pending <= pre.Keys
        invariant total == MinutesOver(menus, pre, pre.Keys - pending)
        decreases |pending|
      {
        var menuId :| menuId in pending;
        var entry := pre[menuId];
        var menu := FindMenu(menus, menuId);
        if menu.Some? && menu.value.fields.Some? {
          total := AddFieldMinutes(total, menu.value.fields.value, entry);
        }
        ghost var done := pre.Keys - pending;
        MinutesOverRemove(menus, pre, done + {menuId}, menuId);
        assert done + {menuId} - {menuId} == done;
        pending := pending - {menuId};
        assert pre.Keys - pending == done + {menuId};
      }
      ghost var predefinedPart := total;
      assert pre.Keys - pending == pre.Keys;
      var cs := day.custom;
      var j := 0;
      while j < |cs|
        invariant 0 <= j <= |cs|
        invariant total == predefinedPart + CustomListMinutes(cs[..j])
      {
        total := AddCustomMinutes(total, cs[j]);
        assert cs[..j + 1][..j] == cs[..j];
        j := j + 1;
      }
      assert cs[..j] == cs;
    }

    /** `calculateAchievement(date)`: counts the completed predefined
        entries, then rates the date from that count, the number of custom
        records and the total time. */
    method CalculateAchievement(date: string) returns (r: Rating)
      ensures r == Achievement(menus, records, date)
    {
      if date !in records {
        return NoStamp;
      }
      var pre := records[date].predefined;
      var completedPredefined := 0;
      var pending := pre.Keys;
      while pending != {}
        invariant pending <= pre.Keys
        invariant completedPredefined == |CompletedKeys(pre, pre.Keys - pending)|
        decreases |pending|
      {
        var menuId :| menuId in pending;
        var entry := pre[menuId];
        var hasChecked := "checked" in entry && entry["checked"] == Flag(true);
        var hasValues := exists key :: key in entry && key != "checked" && entry[key] != Num(0.0);
        if hasChecked || hasValues {
          completedPredefined := completedPredefined + 1;
        }
        CompletedKeysAdd(pre, pre.Keys - pending, menuId);
        assert (pre.Keys - pending) + {menuId} == pre.Keys - (pending - {menuId});
        pending := pending - {menuId};
      }
      assert pre.Keys - pending == pre.Keys;
      var customCount := |records[date].custom|;
      var totalTrainingTime := CalculateTotalTrainingTime(date);
      var totalMenus := completedPredefined + customCount;
      if totalMenus >= 5 || totalTrainingTime >= 60.0 {
        r := Hanamaru;
      } else if completedPredefined >= 3 || totalMenus >= 3 {
        r := DoubleCircle;
      } else if completedPredefined >= 1 || customCount >= 1 {
        r := Circle;
      } else {
        r := NoStamp;
      }
    }

    /** The 42 cells of the month whose 1st is day number `first` and which
        has `monthLength` days; `dateOf` gives the date key of a day number
        and `today` is the key of the current date. */
    method CalendarGrid(first: int, monthLength: nat, dateOf: int -> string, today: string)
      returns (cells: seq<Cell>)
      ensures |cells| == GridCells
      ensures forall i :: 0 <= i < |cells| ==>
        var d := GridStart(first) + i;
        cells[i] == Cell(d, dateOf(d), InMonth(d, first, monthLength), dateOf(d) == today,
                         Achievement(menus, records, dateOf(d)))
    {
      var startDate := first - Weekday(first);
      cells := [];
      for i := 0 to GridCells
        invariant |cells| == i
        invariant forall k :: 0 <= k < i ==>
          var d := GridStart(first) + k;
          cells[k] == Cell(d, dateOf(d), InMonth(d, first, monthLength), dateOf(d) == today,
                           Achievement(menus, records, dateOf(d)))
      {
        var currentDate := startDate + i;
        var dateString := dateOf(currentDate);
        var isCurrentMonth := first <= currentDate < first + monthLength;
        var isToday := dateString == today;
        var achievement := CalculateAchievement(dateString);
        cells := cells + [Cell(currentDate, dateString, isCurrentMonth, isToday, achievement)];
      }
    }
  }
}
