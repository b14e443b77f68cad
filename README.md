# TrainingTracker core, modelled in Dafny

`app.js` is a browser application that logs daily training. It keeps one
object, `data = { menus, records }`:

- `menus` is a list of recurring *predefined menus*. Each has a type (checkbox, single value,
  distance/time, weight/reps, custom pair) and a field schema.
- `records` maps a `YYYY-MM-DD` date key to that day's *predefined
  entries*, each a small object keyed by field name or `checked`, and to
  its list of ad-hoc *custom records*.

From a day's records the application computes the day's total training time in minutes. From that time and the
counts it gives a stamp: none, ○, ◎ or 🌸. It shows the stamps in a six-week calendar grid.

This project models that core:

| module | file | what it holds |
|---|---|---|
| `Common` | `common.dfy` | `Option`, `Result`, and the order-preserving `Filter` used by the deletions |
| `JsText` | `jstext.dfy` | `trim`, `String(n)`, `padStart`, and the `YYYY-MM-DD` date key with its read-back |
| `TrainingData` | `trainingdata.dfy` | the stored data as datatypes; the field schema of a new menu; the `values` bag and validation of a new custom record |
| `RecordStore` | `recordstore.dfy` | the edits of `records` (entry writes and clears, deletions, the custom append) and the menu deletion, each as a function from the old value to the new, with frame contracts and the properties relating edits; the menu append and the whole-store replacements are stated by the `Tracker` methods themselves |
| `Scoring` | `scoring.dfy` | the completion test, the sum of minutes, the rating rule and its monotonicity, and worked scenarios |
| `Calendar` | `calendar.dfy` | weekday arithmetic over day numbers and the 42-cell grid layout |
| `Tracker` | `tracker.dfy` | class `TrainingTracker`, with `menus` and `records` as fields, and one method per operation |

The methods of `Tracker` work the way the source does:

- They change the fields in place.
- They create a missing day record or entry lazily.
- They loop over the entries and fields to sum and count.

Each method that reads or edits the records is proved to leave exactly the state given by a `RecordStore` function, or to return the value given by a `Scoring` function. The two add methods are proved against `TrainingData.NewMenu` and `TrainingData.NewCustomEntry`. The constructor, `ImportData` and `ClearAllData` state their new fields directly. The properties are proved about those functions.

Things the model takes as inputs, because they are I/O, clock or UI:

- DOM input values. A text input is `Option<string>`. A numeric input is `Option<real>`, where `None` means absent or empty.
- `confirm()` answers, as a `bool`.
- `Date.now()` ids and `toLocaleTimeString()` stamps.
- Today's date key.
- The store loaded from `localStorage`, or parsed from an imported file.

A custom record's `type` tag is represented by the shape of its `values` bag. For every record the application writes, the two agree.

Records saved by older versions of the application are read as the code reads them:

- A custom record of the oldest format carries a flat `{ value, unit }` pair instead of a `values` bag. It counts like a single-value record: `{ value: 10, unit: "分" }` adds 10 minutes (`Scoring.ScenarioLegacyTenMinutes`, `Scoring.LegacyFlatMatchesSingle`, app.js:673-678).
- A predefined entry of a menu saved without a `fields` array adds no minutes, whatever it holds (`Scoring.LegacyMenuAddsNoMinutes`, app.js:628).

## Model

| member | source | states |
|---|---|---|
| Common.Filter | app.js:446-448 | the kept elements are exactly the input's elements that pass the test; nothing is added; an all-passing list is returned unchanged |
| Common.FilterAppend | app.js:446-448 | filtering a concatenation is concatenating the filtered parts, so kept records keep their relative order |
| Common.FilterIdempotent | app.js:446-448 | deleting the records with an id twice is the same as deleting them once |
| JsText.LeadingSpaces | app.js:185 | counts exactly the white space before the first other character |
| JsText.TrailingSpaces | app.js:185 | counts exactly the white space after the last other character |
| JsText.Trim | app.js:185 | the result is the slice of the input between the leading and trailing white space, and begins and ends with something other than white space |
| JsText.TrimEmptyIff | app.js:185-191 | a name trims to "" exactly when it is all white space, which is when `if (!name)` rejects it |
| JsText.TrimIdempotent | app.js:185 | trimming a trimmed name changes nothing |
| JsText.DigitChar | app.js:36-37 | the character for a digit is the ASCII digit with that value |
| JsText.DecimalString | app.js:35-38 | `String(n)` is a non-empty string of digits, one digit long exactly when n < 10, with a leading zero only for 0 itself |
| JsText.ParseDecimalString | app.js:35-38 | reading the decimal digits of n gives back n |
| JsText.ParseLeadingZero | app.js:36-37 | a padding zero does not change the value of the digits |
| JsText.PadStart | app.js:36-37 | the result is the input preceded by fill characters up to the width, or the input itself when already that long |
| JsText.TwoDigitsValue | app.js:36-37 | a month or day number below 100 becomes exactly two digits that read back to it |
| JsText.ParseAssembledDate | app.js:38 | a key joined from a year part and two two-digit parts reads back into those three numbers |
| JsText.DateString | app.js:33-39 | the `YYYY-MM-DD` key: the year, then the two-digit month number and day |
| JsText.LocalDateString | app.js:42-50 | a string argument passes through unchanged; a calendar date becomes its key |
| JsText.DateStringRoundTrip | app.js:46-49 | the key of a calendar date reads back to its year, `getMonth() + 1` and day |
| JsText.DateStringInjective | app.js:33-39 | distinct calendar dates get distinct keys |
| TrainingData.MenuFields | app.js:193-228 | the schema has the keys its type fixes: none, `value`, `distance`/`time`, `weight`/`reps`, or at most `custom1` then `custom2` |
| TrainingData.MenuFieldsFollowForm | app.js:199-226 | each field's unit is its own input trimmed, or the type's default (`''`, `km`, `分`, `kg`, `回`, `''`) when that input is blank or absent; `custom1`/`custom2` take their caption from their filled name input |
| TrainingData.MenuFieldsHaveCaptions | app.js:195-228 | every field of a new menu has a caption |
| TrainingData.CustomFieldsFollowInputs | app.js:219-227 | a custom menu has `custom1` exactly when the first name input is filled, and `custom2` exactly when the second is |
| TrainingData.DistanceTimeDefaultsToMinutes | app.js:203-209 | a distance/time menu with no time unit given gets the `time` field in 分 |
| TrainingData.NewMenu | app.js:184-235 | rejected with the empty-name message exactly when the trimmed name is empty; otherwise a well-formed menu with the given id, the trimmed name, the type, and exactly the field schema `MenuFields` derives from the type and the form |
| TrainingData.TruncateToInt | app.js:346 | `parseInt` keeps the integer part, truncating toward zero on either side |
| TrainingData.HasValue | app.js:314-372 | `hasValidValue`: some input of the chosen type holds a number; never for the checkbox type, which has no case |
| TrainingData.CustomValuesOf | app.js:314-367 | a bag exists exactly when an input of the chosen type is filled; it has the chosen type's shape; a single-value bag is the number and the trimmed unit (or ""); the other bags copy the filled numbers, store an absent number as null, fix the units km/分 and kg/回, truncate `reps`, and carry the trimmed custom units |
| TrainingData.NewCustomEntry | app.js:305-385 | empty-name rejection exactly for a blank name; no-value rejection exactly for a named record with no filled input; otherwise a record with the given id and stamp, the trimmed non-empty name, and exactly the bag `CustomValuesOf` builds from the inputs |
| RecordStore.NewEntry | app.js:406-424 | a checkbox write gives exactly `{checked}`; a field write sets that key and keeps every other; a clear removes that key and deletes the entry exactly when no key is left; with no field name the entry is kept, or created empty |
| RecordStore.UpdatePredefined | app.js:398-429 | the store after `updatePredefinedRecord`: the entry `NewEntry` computes from the one there before, put or deleted by `SetEntry` |
| RecordStore.NoEmptyEntries | app.js:419-423 | the invariant the clear branch keeps: no date holds an entry with no keys |
| RecordStore.SetEntry | app.js:401-408 | only the entry under (date, menu) changes; the day record is created if absent; other dates, other menus and the custom list are untouched |
| RecordStore.DeletePredefined | app.js:432-440 | exactly the (date, menu) entry is gone; every other entry and every custom list is unchanged; no change when there was no such entry |
| RecordStore.WithoutIdKeepsOrder | app.js:446-448 | deleting by id keeps the surviving records in their original order: the result for `a + [c] + b` is the result for `a`, then `c` if it survives, then the result for `b` |
| RecordStore.DeleteCustom | app.js:443-448 | on that date the list becomes `WithoutId` of the old list: exactly the records with another id, drawn from the old list, in their order; other dates and the predefined entries are unchanged; no change for a missing date or an unused id |
| RecordStore.AddCustom | app.js:374-387 | exactly one record is appended to the date's list, which is created if absent; everything else is unchanged |
| RecordStore.DeleteMenu | app.js:248-250 | the remaining menus are exactly the old menus with another id |
| RecordStore.DeleteMenuKeepsOrder | app.js:248-250 | the remaining menus keep their original order: the result for `a + [m] + b` is the result for `a`, then `m` if it survives, then the result for `b` |
| RecordStore.CheckboxWriteForgetsValues | app.js:410-411 | after a checkbox write the entry is `{checked}`, whatever was stored or requested before |
| RecordStore.ClearUndoesFieldWrite | app.js:413-423 | writing a new field and clearing it again gives back the entry, or no entry when there was none |
| RecordStore.ClearUndoesFieldWriteInStore | app.js:398-429 | on a date that has a record, writing a field of an unrecorded menu and clearing it restores the whole store |
| RecordStore.DeleteErasesWrite | app.js:432-440 | deleting an entry erases whatever was written there before |
| RecordStore.DeleteCustomUndoesAdd | app.js:443-448 | deleting a custom record by the unused id it was appended with restores the store |
| RecordStore.UpdateKeepsNoEmptyEntries | app.js:410-423 | a checkbox write or a field write or clear never leaves an empty entry in the store |
| RecordStore.UpdateWithoutFieldLeavesEmptyEntry | app.js:406-408 | a call with neither a checkbox state nor a field name leaves an empty `{}` entry behind |
| RecordStore.DeletePredefinedKeepsNoEmptyEntries | app.js:432-440 | deleting an entry keeps the store free of empty entries |
| RecordStore.DeleteCustomKeepsNoEmptyEntries | app.js:443-448 | deleting custom records keeps the store free of empty entries |
| RecordStore.AddCustomKeepsNoEmptyEntries | app.js:374-387 | appending a custom record keeps the store free of empty entries |
| RecordStore.DeleteMenuKeepsWellFormed | app.js:248-250 | deleting a menu keeps every remaining menu well formed |
| Scoring.IsCompleted | app.js:697-706 | the completion test: `checked` is `true`, or some other key holds a value other than 0 |
| Scoring.CompletedCount | app.js:689-715 | the number of completed entries never exceeds the number of entries |
| Scoring.CompletedKeysAdd | app.js:706-710 | looking at one more entry adds one to the count exactly when that entry is completed |
| Scoring.FindMenu | app.js:627 | no result exactly when no menu has that id; otherwise the first menu with that id |
| Scoring.FieldMinutes | app.js:631-638 | one field's contribution: the truthy value of a `time` field or a field in 分 or 時間, times 60 for 時間, otherwise 0 |
| Scoring.FieldsMinutes | app.js:630-639 | the sum of the field contributions over a menu's schema, in order |
| Scoring.EntryMinutes | app.js:627-639 | one entry's contribution: 0 when its menu is gone or has no schema, otherwise the sum over the schema |
| Scoring.PredefinedMinutes | app.js:626-640 | the sum of the entry contributions over all predefined entries of a day |
| Scoring.ToMinutes | app.js:647-651 | a custom amount in minutes: as it is for 分, times 60 for 時間, nothing for any other unit |
| Scoring.CustomMinutes | app.js:643-679 | one custom record's contribution through its duration slots, or through the flat pair of the oldest format; weight/reps adds nothing |
| Scoring.CustomListMinutes | app.js:643-679 | the sum of the custom contributions, in list order |
| Scoring.TotalTrainingTime | app.js:619-682 | the total of a date: 0 without a record, otherwise predefined plus custom minutes |
| Scoring.MinutesOverRemove | app.js:626-640 | the sum over the entries does not depend on the order they are visited in |
| Scoring.MinutesOverAgree | app.js:626-640 | entries that agree give the same sum |
| Scoring.MinutesOverZero | app.js:626-640 | entries that each add nothing add nothing in total |
| Scoring.Rate | app.js:734-748 | 🌸 exactly for 5+ menus or 60+ minutes; ◎ exactly for 3 or 4 menus under 60 minutes; ○ exactly for 1 or 2; no stamp exactly for nothing recorded under 60 minutes |
| Scoring.Achievement | app.js:685-753 | the stamp of a date: none without a record, otherwise `Rate` of the completed count, the number of custom records and the total time |
| Scoring.RateMonotonic | app.js:737-748 | more completed menus, custom records or minutes never give a lower stamp |
| Scoring.CheckboxEntryCompletion | app.js:697-706 | a checkbox entry is completed exactly when it is ticked, so `{checked: false}` is not |
| Scoring.ZeroValueNotCompleted | app.js:700-704 | a single stored number completes an entry exactly when it is not 0 |
| Scoring.FieldWriteCompletes | app.js:700-706 | writing a number other than 0 into a field completes that entry |
| Scoring.FlagOnlyMinutesNonNegative | app.js:630-639 | an entry holding only `checked` adds no negative minutes through any schema |
| Scoring.AchievementCompare | app.js:737-748 | at least as many completed menus, custom records and minutes on a recorded date give at least as high a stamp |
| Scoring.CheckingNewMenuNeverLowers | app.js:685-753 | ticking the checkbox of a menu with no entry yet never lowers the stamp |
| Scoring.AddingCustomNeverLowers | app.js:717-724 | appending a custom record with a non-negative duration never lowers the stamp |
| Scoring.NegativeDurationCanLower | app.js:643-652 | a custom record with a negative duration can lower the stamp: 🌸 at 60 minutes becomes ○ at 50 |
| Scoring.DeletedMenuEntryAddsNoMinutes | app.js:627-628 | the entries left behind by a deleted menu add no minutes |
| Scoring.LegacyMenuAddsNoMinutes | app.js:628 | the entries of a menu with no field schema add no minutes |
| Scoring.TimeFieldAnyUnit | app.js:631-637 | a `time` field adds its value whatever its unit; only hours are multiplied by 60 |
| Scoring.LegacyFlatMatchesSingle | app.js:673-678 | a flat `{value, unit}` record of the oldest format adds what a current single-value record adds |
| Scoring.NewCustomEntryMinutes | app.js:653-659 | a new distance/time record adds its time input (or 0); a new weight/reps record adds nothing |
| Scoring.UnitlessSingleAddsNoMinutes | app.js:200-201 | a single-value menu created with a blank unit reads no minutes from any entry |
| Scoring.TimedSingleAddsValue | app.js:631-637 | a single-value menu created with unit 分 or 時間 reads its entry's value as minutes, times 60 for 時間 |
| Scoring.EmptyDayScores | app.js:626 | a day without predefined entries has no completed menu and no predefined minutes |
| Scoring.CheckboxMenusAddNoMinutes | app.js:626-640 | when every menu is a checkbox menu with an empty schema (or none), the predefined entries of any day add no minutes |
| Scoring.ScenarioOneCheckbox | app.js:743-745 | one ticked checkbox and nothing else gives ○ |
| Scoring.ScenarioThreeCheckboxesOneCustom | app.js:740-742 | three ticked checkboxes and one custom record under an hour give ◎ |
| Scoring.ScenarioLongRun | app.js:737-739 | one 65-minute distance/time record gives 🌸 |
| Scoring.ScenarioLegacyTenMinutes | app.js:673-675 | a flat `{ value: 10, unit: "分" }` record adds 10 minutes |
| Calendar.Weekday | app.js:794 | `getDay()` of a day number is between 0 (Sunday) and 6 |
| Calendar.GridStart | app.js:791-794 | the grid starts on a Sunday, at most six days before the 1st |
| Calendar.GridColumns | app.js:797-805 | cell i falls on weekday i mod 7, under the day-name header |
| Calendar.GridCoversMonth | app.js:803-807 | every day of a month of at most 31 days has a cell among the 42 |
| Tracker.NewEntryOf | app.js:410-424 | the branch taken on the lazily created entry leaves the entry `RecordStore.NewEntry` describes |
| Tracker.AddFieldMinutes | app.js:630-639 | the loop over one menu's fields adds exactly what the fields read from the entry |
| Tracker.AddCustomMinutes | app.js:644-678 | one custom record adds exactly its duration in minutes, read by its shape |
| Tracker.TrainingTracker.constructor | app.js:2-26 | the saved store, or no menus and no records when nothing is saved |
| Tracker.TrainingTracker.AddPredefinedMenu | app.js:184-245 | rejects a blank name and changes nothing; otherwise appends exactly the menu `NewMenu` builds; records untouched; menus stay well formed |
| Tracker.TrainingTracker.DeletePredefinedMenu | app.js:248-255 | when confirmed the menus are filtered by id, otherwise unchanged; records never change |
| Tracker.TrainingTracker.AddCustomRecord | app.js:305-395 | rejects exactly as `NewCustomEntry` does and then changes nothing; otherwise appends its record to today's list; menus untouched; no empty entry appears |
| Tracker.TrainingTracker.DeleteCustomRecord | app.js:443-459 | the store becomes `DeleteCustom` of the old store (also `deleteCustomRecordFromHistory`, app.js:970-984) |
| Tracker.TrainingTracker.UpdatePredefinedRecord | app.js:398-429 | the store becomes `UpdatePredefined` of the old store; menus untouched |
| Tracker.TrainingTracker.DeletePredefinedRecord | app.js:432-440 | the store becomes `DeletePredefined` of the old store (also `deletePredefinedRecordFromHistory`, app.js:955-967) |
| Tracker.TrainingTracker.ImportData | app.js:1001-1021 | a parsed, confirmed file replaces both fields; otherwise nothing changes |
| Tracker.TrainingTracker.ClearAllData | app.js:1024-1030 | no menus and no records remain |
| Tracker.TrainingTracker.CalculateTotalTrainingTime | app.js:619-682 | the loops return exactly `TotalTrainingTime`: predefined minutes through the menus' schemas plus custom minutes, 0 for an unrecorded date |
| Tracker.TrainingTracker.CalculateAchievement | app.js:685-753 | the counting loop and the tier chain return exactly `Achievement`: no stamp for an unrecorded date |
| Tracker.TrainingTracker.CalendarGrid | app.js:791-822 | 42 cells from the Sunday on or before the 1st, each with its date key, whether it is in the month, whether it is today, and its stamp |

## Left out

- Rendering, DOM access, tab switching and form wiring (`render*`, `setup*`, `updateMenuFieldsConfig`, `updateCustomValueInputs`, `showHistoryForDate`, `getStampClass`, `getTypeLabel`): they build HTML and have no effect on the data.
- `saveData`, `loadData` and the `localStorage` key: persistence is I/O; the constructor takes the loaded store as a parameter.
- `exportData`: it only serialises the data to a download.
- `importData`'s `FileReader` and `JSON.parse`: the parsed store (or `None` for an unreadable file) is a parameter. A parsed file of some other shape (no `predefined`, no `custom`, non-numeric values) cannot be represented.
- `alert`, `setTimeout` and `console.log`: they have no effect on the data.
- `confirm`: its answer is a parameter.
- `Date.now()`, `new Date()` and `toLocaleTimeString()`: ids, timestamps and today's key are parameters.
- `changeMonth` and JavaScript `Date` arithmetic: `CalendarGrid` takes the day number of the 1st, the month length, and a `dateOf` function from day numbers to keys.
- Negative years in `getLocalDateString`'s `Date` branch: years are natural numbers.
- IEEE floating point: amounts are exact reals. NaN from `parseFloat` of non-numeric text is not modelled, and neither is the rounding of repeated additions.
- `parseInt` of exponent forms such as `1e3` and of leading-dot numerals such as `.5` or `-.5` (NaN in JavaScript): `reps` is truncated from the real the input denotes, so `.5` is stored as 0.
- Custom records whose `type` tag disagrees with the shape of their `values`: the model represents the tag by the shape.
- The JavaScript iteration order of `Object.entries`: the sums and counts are over sets of keys, and `Scoring.MinutesOverRemove` shows the order does not matter.
- Tracker.TrainingTracker.UpdatePredefinedRecord: does not restate the no-empty-entries invariant in its own contract, because `RecordStore.UpdateKeepsNoEmptyEntries` proves it about the function the method's contract is stated against (and `RecordStore.UpdateWithoutFieldLeavesEmptyEntry` shows the one call that breaks it).
