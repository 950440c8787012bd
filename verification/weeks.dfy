/**
  The week of the term, as parse_roll numbers the rows of one term in date order
  (receipt_roll/create_data_csv.py): the first row is in week 1, and a Monday row opens the
  next week when some row that is not a Monday came after the last week opened.
  A row's day is None when the row names no weekday.
*/
module Weeks {
  import opened Wrappers
  import opened Headings

  predicate IsMonday(d: Option<Weekday>) { d == Some(Monday) }

  /** Row `j` opens a new week: a Monday right after a row that is not a Monday. */
  predicate OpensWeek(days: seq<Option<Weekday>>, j: nat) {
    0 < j < |days| && IsMonday(days[j]) && !IsMonday(days[j - 1])
  }

  /** The number of rows in `1..i` that open a week. */
  function Openings(days: seq<Option<Weekday>>, i: nat): nat
    requires i < |days|
  {
    if i == 0 then 0 else Openings(days, i - 1) + (if OpensWeek(days, i) then 1 else 0)
  }

  /** The week of each row: one more than the weeks opened up to it. */
  function WeekNumbers(days: seq<Option<Weekday>>): (ws: seq<nat>)
    ensures |ws| == |days|
  {
    seq(|days|, i requires 0 <= i < |days| => 1 + Openings(days, i))
  }

  /**
    The loop of parse_roll: a counter and a flag that is raised by any row that is not a Monday
    and lowered when a Monday opens the next week.
  */
  method AssignWeeks(days: seq<Option<Weekday>>) returns (weeks: seq<nat>)
    ensures weeks == WeekNumbers(days)
  {
    weeks := [];
    var week := 1;
    var newWeekOnMonday := false;
    var i := 0;
    while i < |days|
      invariant 0 <= i <= |days|
      invariant weeks == WeekNumbers(days)[..i]
      invariant week == 1 + (if i == 0 then 0 else Openings(days, i - 1))
      invariant newWeekOnMonday <==> i > 0 && !IsMonday(days[i - 1])
    {
      if newWeekOnMonday && days[i] == Some(Monday) {
        newWeekOnMonday := false;
        week := week + 1;
      }
      if days[i] != Some(Monday) {
        newWeekOnMonday := true;
      }
      assert week == WeekNumbers(days)[i];
      assert WeekNumbers(days)[..i + 1] == WeekNumbers(days)[..i] + [WeekNumbers(days)[i]];
      weeks := weeks + [week];
      i := i + 1;
    }
    assert WeekNumbers(days)[..|days|] == WeekNumbers(days);
  }

  /** The first row is in week 1. */
  lemma FirstWeek(days: seq<Option<Weekday>>)
    requires |days| > 0
    ensures WeekNumbers(days)[0] == 1
  {
  }

  /** From one row to the next the week rises by one exactly when the next row opens a week. */
  lemma WeekStep(days: seq<Option<Weekday>>, i: nat)
    requires i + 1 < |days|
    ensures var ws := WeekNumbers(days);
      ws[i + 1] == ws[i] + (if OpensWeek(days, i + 1) then 1 else 0)
  {
  }

  /** The week never decreases. */
  lemma {:induction false} WeeksMonotone(days: seq<Option<Weekday>>, i: nat, j: nat)
    requires i <= j < |days|
    ensures WeekNumbers(days)[i] <= WeekNumbers(days)[j]
    decreases j - i
  {
    if i < j {
      WeekStep(days, j - 1);
      WeeksMonotone(days, i, j - 1);
    }
  }

  /** A week never has more rows' worth of rises than rows: week `ws[i]` is at most `i + 1`. */
  lemma {:induction false} WeekBound(days: seq<Option<Weekday>>, i: nat)
    requires i < |days|
    ensures 1 <= WeekNumbers(days)[i] <= i + 1
  {
    if i > 0 {
      WeekStep(days, i - 1);
      WeekBound(days, i - 1);
    }
  }

  /** Monday rows in a row share one week. */
  lemma MondaysShareWeek(days: seq<Option<Weekday>>, i: nat)
    requires i + 1 < |days| && IsMonday(days[i]) && IsMonday(days[i + 1])
    ensures WeekNumbers(days)[i + 1] == WeekNumbers(days)[i]
  {
    WeekStep(days, i);
  }

  /** Tuesday, Wednesday, Monday, Tuesday, Monday are in weeks 1, 1, 2, 2, 3. */
  lemma WeeksExample()
    ensures WeekNumbers([Some(Tuesday), Some(Wednesday), Some(Monday), Some(Tuesday), Some(Monday)])
      == [1, 1, 2, 2, 3]
  {
    var days := [Some(Tuesday), Some(Wednesday), Some(Monday), Some(Tuesday), Some(Monday)];
    assert !OpensWeek(days, 1) && OpensWeek(days, 2) && !OpensWeek(days, 3) && OpensWeek(days, 4);
  }
}
