/** The month grid of the history calendar (`renderCalendarView`), over day
    numbers instead of `Date` objects: day 0 is 1970-01-01, a Thursday. */
module Calendar {
  import opened Scoring

  /** `getDay()` of a day number: 0 is Sunday, 6 is Saturday. */
  function Weekday(day: int): (w: nat)
    ensures w < 7
  {
    (day + 4) % 7
  }

  /** The first cell of the grid: the Sunday on or before the 1st. */
  function GridStart(first: int): (s: int)
    ensures Weekday(s) == 0
    ensures s <= first < s + 7
  {
    first - Weekday(first)
  }

  /** The grid always has six weeks of cells. */
  const GridCells: nat := 42

  /** Cell `i` falls on weekday `i % 7`, so the columns run Sunday to
      Saturday under the day-name header. */
  lemma GridColumns(first: int, i: nat)
    ensures Weekday(GridStart(first) + i) == i % 7
  {
    var s := GridStart(first);
    assert (s + 4) % 7 == 0;
    assert s + i + 4 == (s + 4) + i;
  }

  /** Every day of a month of at most 31 days has a cell: the month starts
      in the first row and ends before the grid does. */
  lemma GridCoversMonth(first: int, monthLength: nat)
    requires monthLength <= 31
    ensures forall d :: InMonth(d, first, monthLength) ==> GridStart(first) <= d < GridStart(first) + GridCells
  {
  }

  /** A day belongs to the month shown (`getMonth() === month`). */
  predicate InMonth(d: int, first: int, monthLength: nat) {
    first <= d && d < first + monthLength
  }

  /** One cell of the grid: its day number, its date key, whether it belongs
      to the month shown, whether it is today, and its stamp. */
  datatype Cell = Cell(day: int, date: string, inMonth: bool, isToday: bool, rating: Rating)
}
