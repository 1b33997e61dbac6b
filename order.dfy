/**
 * The two orders the views sort events by, written as the comparators are:
 * `localeCompare` is the three-way lexical `Compare`, and the dashboard's
 * `cmpDate || cmpTime` falls back to the start time only when the dates are
 * equal (a zero comparison is falsy).
 */
module EventOrder {
  import opened Records
  import opened Strings
  import Sorting

  /** `(a, b) => a.startTime.localeCompare(b.startTime)`, as "a may stand before b". */
  predicate ByStartTime(a: Event, b: Event) {
    Compare(a.startTime, b.startTime) <= 0
  }

  /** `(a, b) => a.date.localeCompare(b.date) || a.startTime.localeCompare(b.startTime)` */
  predicate ByDateThenStartTime(a: Event, b: Event) {
    var c := Compare(a.date, b.date);
    (if c != 0 then c else Compare(a.startTime, b.startTime)) <= 0
  }

  /** The dashboard's comparator is the lexicographic order on the pair (date, startTime). */
  lemma ByDateThenStartTimeIsLexicographic(a: Event, b: Event)
    ensures ByDateThenStartTime(a, b) <==>
              StrLess(a.date, b.date) || (a.date == b.date && StrLeq(a.startTime, b.startTime))
  {
    StrLeqReflexive(a.startTime);
  }

  lemma ByStartTimeIsTotalPreorder()
    ensures Sorting.TotalPreorder(ByStartTime)
  {
    forall x: Event, y: Event ensures ByStartTime(x, y) || ByStartTime(y, x) {
      StrLeqTotal(x.startTime, y.startTime);
    }
    forall x: Event, y: Event, z: Event | ByStartTime(x, y) && ByStartTime(y, z)
      ensures ByStartTime(x, z)
    {
      StrLeqTransitive(x.startTime, y.startTime, z.startTime);
    }
  }

  lemma ByDateThenStartTimeIsTotalPreorder()
    ensures Sorting.TotalPreorder(ByDateThenStartTime)
  {
    forall x: Event, y: Event ensures ByDateThenStartTime(x, y) || ByDateThenStartTime(y, x) {
      StrLeqTotal(x.date, y.date);
      StrLeqTotal(x.startTime, y.startTime);
    }
    forall x: Event, y: Event, z: Event | ByDateThenStartTime(x, y) && ByDateThenStartTime(y, z)
      ensures ByDateThenStartTime(x, z)
    {
      StrLeqTransitive(x.date, y.date, z.date);
      StrLeqTransitive(x.startTime, y.startTime, z.startTime);
      StrLeqAntisymmetric(x.date, y.date);
      StrLeqAntisymmetric(y.date, z.date);
      StrLeqAntisymmetric(x.date, z.date);
    }
  }
}
