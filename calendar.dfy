/**
 * Calendar days as day numbers (0 is 1970-01-01, a Thursday) and
 * `get_week_start`: the Monday that starts a day's week.
 */
module Calendar {

  /** `date.weekday()`: Monday is 0, Sunday is 6. */
  function Weekday(day: int): (w: nat)
    ensures w < 7
  {
    (day + 3) % 7
  }

  /** `d - timedelta(days=d.weekday())`. */
  function WeekStart(day: int): (monday: int)
    ensures Weekday(monday) == 0
    ensures monday <= day <= monday + 6
  {
    day - Weekday(day)
  }

  /** The Monday on or before `day` is the only Monday in the six days before it. */
  lemma WeekStartUnique(day: int, monday: int)
    requires Weekday(monday) == 0 && monday <= day <= monday + 6
    ensures WeekStart(day) == monday
  {
    var k := day - monday;
    assert (monday + 3) % 7 == 0;
    assert day + 3 == (monday + 3) + k;
    assert (day + 3) % 7 == k;
  }

  /** Two days lie in the same Monday-to-Sunday week. */
  ghost predicate SameWeek(a: int, b: int) {
    exists monday :: Weekday(monday) == 0 && monday <= a <= monday + 6 && monday <= b <= monday + 6
  }

  /** Two days get the same week start exactly when they lie in the same week. */
  lemma SameWeekStartIff(a: int, b: int)
    ensures WeekStart(a) == WeekStart(b) <==> SameWeek(a, b)
  {
    if SameWeek(a, b) {
      var monday :| Weekday(monday) == 0 && monday <= a <= monday + 6 && monday <= b <= monday + 6;
      WeekStartUnique(a, monday);
      WeekStartUnique(b, monday);
    }
    if WeekStart(a) == WeekStart(b) {
      var monday := WeekStart(a);
      assert Weekday(monday) == 0 && monday <= a <= monday + 6 && monday <= b <= monday + 6;
    }
  }
}
