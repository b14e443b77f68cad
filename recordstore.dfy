/** The record store as values: each edit `TrainingTracker` makes to
    `data.records` and `data.menus`, written as a function from the store
    before to the store after, with contracts that say which key changed
    and that nothing else did. */
module RecordStore {
  import opened Common
  import opened TrainingData

  /** The day record of `date`, or the empty record that is created lazily. */
  function DayOf(rs: Records, date: string): DayRecord {
    if date in rs then rs[date] else EmptyDay
  }

  /** `records[date]?.predefined[menuId]`. */
  function EntryAt(rs: Records, date: string, menuId: string): Option<Entry> {
    if date in rs && menuId in rs[date].predefined then Some(rs[date].predefined[menuId]) else None
  }

  function OrEmpty(e: Option<Entry>): Entry {
    if e.Some? then e.value else map[]
  }

  /** The two entries agree on key `k`: both lack it, or both hold the same value. */
  predicate SameAt(a: Entry, b: Entry, k: string) {
    (k in a <==> k in b) && (k in a ==> a[k] == b[k])
  }

  /** The entry `updatePredefinedRecord` leaves under `menuId`, given the one
      there before; `None` means the key is deleted. `fieldName == ""`
      stands for a missing field name and `value == None` for an
      `undefined` or empty input value. */
  function NewEntry(before: Option<Entry>, fieldName: string, value: Option<real>, isChecked: Option<bool>)
    : (after: Option<Entry>)
    // a checkbox write replaces the entry wholesale
    ensures isChecked.Some? ==> after == Some(map["checked" := Flag(isChecked.value)])
    // a field write sets that one key and keeps every other key
    ensures isChecked.None? && fieldName != "" && value.Some? ==>
      && after.Some? && fieldName in after.value && after.value[fieldName] == Num(value.value)
      && forall k :: k != fieldName ==> SameAt(after.value, OrEmpty(before), k)
    // a field clear removes that one key, and the entry once no key is left
    ensures isChecked.None? && fieldName != "" && value.None? ==>
      && (after.None? <==> OrEmpty(before).Keys <= {fieldName})
      && (after.Some? ==> fieldName !in after.value && forall k :: k != fieldName ==> SameAt(after.value, OrEmpty(before), k))
    // with neither a checkbox state nor a field name the entry is kept, or created empty
    ensures isChecked.None? && fieldName == "" ==> after == Some(OrEmpty(before))
    // the only path that leaves an empty entry behind
    ensures after == Some(map[]) ==> isChecked.None? && fieldName == "" && OrEmpty(before) == map[]
  {
    var e := OrEmpty(before);
    if isChecked.Some? then
      var flagOnly := map["checked" := Flag(isChecked.value)];
      assert "checked" in flagOnly;
      Some(flagOnly)
    else if fieldName != "" && value.Some? then Some(e[fieldName := Num(value.value)])
    else if fieldName != "" then
      var rest := e - {fieldName};
      assert rest.Keys == e.Keys - {fieldName};
      if |rest| == 0 then None else Some(rest)
    else Some(e)
  }

  /** Puts `e` under `(date, menuId)`, or deletes that key when `e` is
      `None`, creating the day record of `date` if it is absent. */
  function SetEntry(rs: Records, date: string, menuId: string, e: Option<Entry>): (rs': Records)
    ensures rs'.Keys == rs.Keys + {date}
    ensures forall d :: d in rs && d != date ==> rs'[d] == rs[d]
    ensures rs'[date].custom == DayOf(rs, date).custom
    ensures EntryAt(rs', date, menuId) == e
    ensures forall m :: m != menuId ==> EntryAt(rs', date, m) == EntryAt(rs, date, m)
  {
    var day := DayOf(rs, date);
    var pre := if e.Some? then day.predefined[menuId := e.value] else day.predefined - {menuId};
    rs[date := day.(predefined := pre)]
  }

  /** `updatePredefinedRecord(menuId, fieldName, value, isChecked)` on `date`. */
  function UpdatePredefined(rs: Records, date: string, menuId: string, fieldName: string,
                            value: Option<real>, isChecked: Option<bool>): Records
  {
    SetEntry(rs, date, menuId, NewEntry(EntryAt(rs, date, menuId), fieldName, value, isChecked))
  }

  /** `deletePredefinedRecord(FromHistory)`: removes `(date, menuId)` if it is there. */
  function DeletePredefined(rs: Records, date: string, menuId: string): (rs': Records)
    ensures rs'.Keys == rs.Keys
    ensures EntryAt(rs', date, menuId) == None
    ensures forall d, m :: (d != date || m != menuId) ==> EntryAt(rs', d, m) == EntryAt(rs, d, m)
    ensures forall d :: d in rs ==> rs'[d].custom == rs[d].custom
    ensures EntryAt(rs, date, menuId) == None ==> rs' == rs
  {
    if date in rs && menuId in rs[date].predefined
    then rs[date := rs[date].(predefined := rs[date].predefined - {menuId})]
    else rs
  }

  /** The custom records of a list whose id differs from `id`. */
  function WithoutId(cs: seq<CustomEntry>, id: string): seq<CustomEntry> {
    Filter(cs, (c: CustomEntry) => c.id != id)
  }

  /** Deleting by id keeps the survivors in their original order: whatever
      stands before a record stays before it. */
  lemma WithoutIdKeepsOrder(a: seq<CustomEntry>, c: CustomEntry, b: seq<CustomEntry>, id: string)
    ensures WithoutId(a + [c] + b, id) == WithoutId(a, id) + (if c.id != id then [c] else []) + WithoutId(b, id)
  {
    var keep := (x: CustomEntry) => x.id != id;
    FilterAppend(a + [c], b, keep);
    FilterAppend(a, [c], keep);
    assert Filter([c], keep) == (if c.id != id then [c] else []) by {
      assert [c][1..] == [];
    }
  }

  /** `deleteCustomRecord(FromHistory)`: drops every custom record of `date`
      whose id is `id`, keeping the others in order; no-op for a missing date. */
  function DeleteCustom(rs: Records, date: string, id: string): (rs': Records)
    ensures rs'.Keys == rs.Keys
    ensures forall d :: d in rs && d != date ==> rs'[d] == rs[d]
    ensures date in rs ==> rs'[date].predefined == rs[date].predefined
    ensures date in rs ==> rs'[date].custom == WithoutId(rs[date].custom, id)
    ensures date in rs ==>
      && (forall i :: 0 <= i < |rs'[date].custom| ==> rs'[date].custom[i].id != id && rs'[date].custom[i] in rs[date].custom)
      && (forall i :: 0 <= i < |rs[date].custom| && rs[date].custom[i].id != id ==> rs[date].custom[i] in rs'[date].custom)
    ensures (date in rs ==> forall i :: 0 <= i < |rs[date].custom| ==> rs[date].custom[i].id != id) ==> rs' == rs
  {
    if date in rs then rs[date := rs[date].(custom := WithoutId(rs[date].custom, id))] else rs
  }

  /** The custom-record half of `addCustomRecord`: appends `c` to the
      custom list of `date`, creating the day record if it is absent. */
  function AddCustom(rs: Records, date: string, c: CustomEntry): (rs': Records)
    ensures rs'.Keys == rs.Keys + {date}
    ensures forall d :: d in rs && d != date ==> rs'[d] == rs[d]
    ensures rs'[date].predefined == DayOf(rs, date).predefined
    ensures |rs'[date].custom| == |DayOf(rs, date).custom| + 1
    ensures rs'[date].custom[..|rs'[date].custom| - 1] == DayOf(rs, date).custom
    ensures rs'[date].custom[|rs'[date].custom| - 1] == c
  {
    var day := DayOf(rs, date);
    rs[date := day.(custom := day.custom + [c])]
  }

  /** `deletePredefinedMenu`: the menus whose id differs from `id`, in order. */
  function DeleteMenu(menus: seq<Menu>, id: string): (r: seq<Menu>)
    ensures forall i :: 0 <= i < |r| ==> r[i].id != id && r[i] in menus
    ensures forall i :: 0 <= i < |menus| && menus[i].id != id ==> menus[i] in r
  {
    Filter(menus, (m: Menu) => m.id != id)
  }

  /** Deleting a menu keeps the other menus in their original order. */
  lemma DeleteMenuKeepsOrder(a: seq<Menu>, m: Menu, b: seq<Menu>, id: string)
    ensures DeleteMenu(a + [m] + b, id) == DeleteMenu(a, id) + (if m.id != id then [m] else []) + DeleteMenu(b, id)
  {
    var keep := (x: Menu) => x.id != id;
    FilterAppend(a + [m], b, keep);
    FilterAppend(a, [m], keep);
    assert Filter([m], keep) == (if m.id != id then [m] else []) by {
      assert [m][1..] == [];
    }
  }

  // ------------------------------------------------------------ properties

  /** Checkbox and field writes exclude each other: after a checkbox write
      the entry is the same whatever was stored or requested before. */
  lemma CheckboxWriteForgetsValues(rs1: Records, rs2: Records, date: string, menuId: string,
                                   f1: string, f2: string, v1: Option<real>, v2: Option<real>, checked: bool)
    ensures EntryAt(UpdatePredefined(rs1, date, menuId, f1, v1, Some(checked)), date, menuId)
         == EntryAt(UpdatePredefined(rs2, date, menuId, f2, v2, Some(checked)), date, menuId)
         == Some(map["checked" := Flag(checked)])
  {
  }

  /** Writing a field into an entry that lacks it and then clearing the same
      field gives back the entry as it was, or no entry if there was none. */
  lemma {:induction false} ClearUndoesFieldWrite(before: Option<Entry>, fieldName: string, v: real)
    requires fieldName != "" && fieldName !in OrEmpty(before)
    requires before != Some(map[])
    ensures NewEntry(NewEntry(before, fieldName, Some(v), None), fieldName, None, None) == before
  {
    var e := OrEmpty(before);
    var written := e[fieldName := Num(v)];
    assert written - {fieldName} == e;
    if before.None? {
      assert written.Keys == {fieldName};
    } else {
      assert fieldName in written.Keys && written.Keys != {fieldName} by {
        var k :| k in e;
        assert k in written.Keys && k != fieldName;
      }
    }
  }

  /** At the level of the whole store: on a date that already has a record,
      writing a field of a menu with no entry and clearing it again restores
      the store exactly. */
  lemma ClearUndoesFieldWriteInStore(rs: Records, date: string, menuId: string, fieldName: string, v: real)
    requires date in rs && menuId !in rs[date].predefined && fieldName != ""
    ensures UpdatePredefined(UpdatePredefined(rs, date, menuId, fieldName, Some(v), None),
                             date, menuId, fieldName, None, None) == rs
  {
    var rs1 := UpdatePredefined(rs, date, menuId, fieldName, Some(v), None);
    ClearUndoesFieldWrite(None, fieldName, v);
    var rs2 := UpdatePredefined(rs1, date, menuId, fieldName, None, None);
    assert rs2[date].predefined == rs[date].predefined by {
      forall m ensures SameEntryAt(rs2, rs, date, m) {
        if m != menuId {
          assert EntryAt(rs2, date, m) == EntryAt(rs1, date, m) == EntryAt(rs, date, m);
        }
      }
    }
    assert rs2[date] == rs[date];
  }

  predicate SameEntryAt(a: Records, b: Records, date: string, m: string)
    requires date in a && date in b
  {
    (m in a[date].predefined <==> m in b[date].predefined)
    && (m in a[date].predefined ==> a[date].predefined[m] == b[date].predefined[m])
  }

  /** Deleting an entry erases whatever was written there before. */
  lemma DeleteErasesWrite(rs: Records, date: string, menuId: string, e: Option<Entry>)
    requires date in rs
    ensures DeletePredefined(SetEntry(rs, date, menuId, e), date, menuId) == DeletePredefined(rs, date, menuId)
  {
    var day := rs[date];
    var written := if e.Some? then day.predefined[menuId := e.value] else day.predefined - {menuId};
    var rs1 := rs[date := day.(predefined := written)];
    var target := rs[date := day.(predefined := day.predefined - {menuId})];
    assert SetEntry(rs, date, menuId, e) == rs1;
    assert written - {menuId} == day.predefined - {menuId};
    if menuId in written {
      assert rs1[date := rs1[date].(predefined := written - {menuId})] == target;
    } else {
      assert rs1 == target;
    }
    if menuId !in day.predefined {
      assert day.predefined - {menuId} == day.predefined;
      assert rs == target;
    }
  }

  /** Deleting a custom record by the id it was appended with undoes the
      append, when that id was not already in use on that date. */
  lemma DeleteCustomUndoesAdd(rs: Records, date: string, c: CustomEntry)
    requires date in rs
    requires forall i :: 0 <= i < |rs[date].custom| ==> rs[date].custom[i].id != c.id
    ensures DeleteCustom(AddCustom(rs, date, c), date, c.id) == rs
  {
    var keep := (x: CustomEntry) => x.id != c.id;
    FilterAppend(rs[date].custom, [c], keep);
    assert Filter([c], keep) == [];
    assert WithoutId(rs[date].custom + [c], c.id) == rs[date].custom;
  }

  /** No stored entry is empty (the application's own invariant for entries). */
  ghost predicate NoEmptyEntries(rs: Records) {
    forall d, m :: EntryAt(rs, d, m) != Some(map[])
  }

  /** Every write that names a checkbox state or a field keeps the store free
      of empty entries. */
  lemma UpdateKeepsNoEmptyEntries(rs: Records, date: string, menuId: string, fieldName: string,
                                  value: Option<real>, isChecked: Option<bool>)
    requires NoEmptyEntries(rs)
    requires isChecked.Some? || fieldName != ""
    ensures NoEmptyEntries(UpdatePredefined(rs, date, menuId, fieldName, value, isChecked))
  {
    var rs' := UpdatePredefined(rs, date, menuId, fieldName, value, isChecked);
    forall d, m ensures EntryAt(rs', d, m) != Some(map[]) {
      if d == date && m != menuId {
        assert EntryAt(rs', d, m) == EntryAt(rs, d, m);
      } else if d != date {
        assert EntryAt(rs', d, m) == EntryAt(rs, d, m);
      }
    }
  }

  /** A write with neither a checkbox state nor a field name leaves an empty
      entry behind when the menu had none. */
  lemma UpdateWithoutFieldLeavesEmptyEntry(rs: Records, date: string, menuId: string, value: Option<real>)
    requires EntryAt(rs, date, menuId) == None
    ensures !NoEmptyEntries(UpdatePredefined(rs, date, menuId, "", value, None))
  {
    assert EntryAt(UpdatePredefined(rs, date, menuId, "", value, None), date, menuId) == Some(map[]);
  }

  /** Deleting a predefined entry keeps the store free of empty entries. */
  lemma DeletePredefinedKeepsNoEmptyEntries(rs: Records, date: string, menuId: string)
    requires NoEmptyEntries(rs)
    ensures NoEmptyEntries(DeletePredefined(rs, date, menuId))
  {
  }

  /** Deleting custom records keeps the store free of empty entries. */
  lemma DeleteCustomKeepsNoEmptyEntries(rs: Records, date: string, id: string)
    requires NoEmptyEntries(rs)
    ensures NoEmptyEntries(DeleteCustom(rs, date, id))
  {
    var a := DeleteCustom(rs, date, id);
    forall d, m ensures EntryAt(a, d, m) != Some(map[]) {
      assert EntryAt(a, d, m) == EntryAt(rs, d, m);
    }
  }

  /** Appending a custom record keeps the store free of empty entries. */
  lemma AddCustomKeepsNoEmptyEntries(rs: Records, date: string, c: CustomEntry)
    requires NoEmptyEntries(rs)
    ensures NoEmptyEntries(AddCustom(rs, date, c))
  {
    var b := AddCustom(rs, date, c);
    forall d, m ensures EntryAt(b, d, m) != Some(map[]) {
      assert EntryAt(b, d, m) == EntryAt(rs, d, m);
    }
  }

  /** Deleting a menu keeps every remaining menu well formed. */
  lemma DeleteMenuKeepsWellFormed(menus: seq<Menu>, id: string)
    requires forall i :: 0 <= i < |menus| ==> WellFormedMenu(menus[i])
    ensures forall i :: 0 <= i < |DeleteMenu(menus, id)| ==> WellFormedMenu(DeleteMenu(menus, id)[i])
  {
  }
}
