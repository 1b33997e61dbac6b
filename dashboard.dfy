/**
 * The dashboard's figures, all computed from the collections on each render:
 * today's events, the pending/completed split of the tasks, the completion
 * percentage, the next five events, and the five-task pending quick list.
 */
module Dashboard {
  import opened Records
  import opened Strings
  import opened Collection
  import Sorting
  import EventOrder

  /** `tasks.filter(t => !t.completed)` */
  function PendingTasks(tasks: seq<Task>): (r: seq<Task>)
    ensures forall t :: t in r <==> t in tasks && !t.completed
    ensures IsSubsequence(r, tasks)
  {
    Filter(tasks, IsPending)
  }

  /** `tasks.filter(t => t.completed)` */
  function CompletedTasks(tasks: seq<Task>): (r: seq<Task>)
    ensures forall t :: t in r <==> t in tasks && t.completed
    ensures IsSubsequence(r, tasks)
  {
    Filter(tasks, IsCompleted)
  }

  /** Every task is in exactly one of the two lists. */
  lemma PendingCompletedPartition(tasks: seq<Task>)
    ensures |PendingTasks(tasks)| + |CompletedTasks(tasks)| == |tasks|
    ensures multiset(PendingTasks(tasks)) + multiset(CompletedTasks(tasks)) == multiset(tasks)
  {
    FilterPartition(tasks, IsPending, IsCompleted);
  }

  /**
   * `Math.round(completed / total * 100)`, or 0 without tasks, in exact arithmetic:
   * the integer nearest to 100 * completed / total, halves rounded up.
   */
  function CompletionRate(tasks: seq<Task>): (r: nat)
    ensures r <= 100
    ensures tasks == [] ==> r == 0
    ensures tasks != [] ==>
              var exact := 100.0 * (|CompletedTasks(tasks)| as real) / (|tasks| as real);
              (r as real) - 0.5 <= exact < (r as real) + 0.5
  {
    PendingCompletedPartition(tasks);
    var c, t := |CompletedTasks(tasks)|, |tasks|;
    if t > 0 then
      var r := (200 * c + t) / (2 * t);
      RoundHalfUp(c, t, r);
      r
    else 0
  }

  lemma RoundHalfUp(c: nat, t: nat, r: int)
    requires 0 < t && c <= t && r == (200 * c + t) / (2 * t)
    ensures 0 <= r <= 100
    ensures (r as real) - 0.5 <= 100.0 * (c as real) / (t as real) < (r as real) + 0.5
  {
    DivisionBounds(200 * c + t, 2 * t, r);
    assert r <= 100 by {
      if r > 100 {
        MulMonotone(2 * t, 101, r);
      }
    }
    NearestReal(c, t, r);
  }

  lemma DivisionBounds(n: int, d: int, q: int)
    requires 0 < d && q == n / d
    ensures d * q <= n < d * q + d
  {
    assert n == d * q + n % d;
  }

  lemma MulMonotone(a: nat, b: int, c: int)
    requires b <= c
    ensures a * b <= a * c
  {
  }

  lemma NearestReal(c: nat, t: nat, r: int)
    requires 0 < t && 2 * t * r <= 200 * c + t < 2 * t * r + 2 * t
    ensures (r as real) - 0.5 <= 100.0 * (c as real) / (t as real) < (r as real) + 0.5
  {
    var R, C, T := r as real, c as real, t as real;
    assert 2.0 * T * R <= 200.0 * C + T < 2.0 * T * R + 2.0 * T;
    var x := 100.0 * C / T;
    assert x * T == 100.0 * C;
    CancelFactor(R - 0.5, x, T);
    CancelFactorStrict(x, R + 0.5, T);
  }

  lemma CancelFactor(a: real, b: real, t: real)
    requires 0.0 < t && a * t <= b * t
    ensures a <= b
  {
  }

  lemma CancelFactorStrict(a: real, b: real, t: real)
    requires 0.0 < t && a * t < b * t
    ensures a < b
  {
  }

  /** `e.date >= todayStr && !e.completed` */
  predicate IsUpcoming(e: Event, todayStr: string) {
    !StrLess(e.date, todayStr) && !e.completed
  }

  /** The events the "upcoming" list chooses from, in collection order. */
  function UpcomingCandidates(events: seq<Event>, todayStr: string): (r: seq<Event>)
    ensures forall e :: e in r <==> e in events && IsUpcoming(e, todayStr)
  {
    Filter(events, (e: Event) => IsUpcoming(e, todayStr))
  }

  /**
   * `upcomingEvents`: the qualifying events sorted by (date, startTime), first five.
   * It holds min(5, #qualifying) of them, sorted, and no qualifying event it
   * leaves out sorts strictly before one it shows.
   */
  function UpcomingEvents(events: seq<Event>, todayStr: string): (r: seq<Event>)
    ensures |r| <= 5
    ensures forall e :: e in r ==> e in events && StrLeq(todayStr, e.date) && !e.completed
    ensures Sorting.SortedBy(r, EventOrder.ByDateThenStartTime)
    ensures |r| == if |UpcomingCandidates(events, todayStr)| < 5 then |UpcomingCandidates(events, todayStr)| else 5
    ensures multiset(r) <= multiset(UpcomingCandidates(events, todayStr))
    ensures forall x, y :: x in r && y in multiset(UpcomingCandidates(events, todayStr)) - multiset(r) ==>
              EventOrder.ByDateThenStartTime(x, y)
  {
    EventOrder.ByDateThenStartTimeIsTotalPreorder();
    var candidates := UpcomingCandidates(events, todayStr);
    var sorted := Sorting.Sort(candidates, EventOrder.ByDateThenStartTime);
    var r := Take(sorted, 5);
    Sorting.TakeSorted(candidates, sorted, r, EventOrder.ByDateThenStartTime);
    assert forall e :: e in r ==> e in candidates;
    UpcomingIsOnOrAfter(r, todayStr);
    r
  }

  lemma UpcomingIsOnOrAfter(r: seq<Event>, todayStr: string)
    requires forall e :: e in r ==> IsUpcoming(e, todayStr)
    ensures forall e :: e in r ==> StrLeq(todayStr, e.date)
  {
    forall e | e in r ensures StrLeq(todayStr, e.date) {
      StrLeqTotal(todayStr, e.date);
    }
  }

  /** `pendingTasks.slice(0, 5)`: the first five pending tasks, in collection order. */
  function QuickPendingTasks(tasks: seq<Task>): (r: seq<Task>)
    ensures |r| <= 5
    ensures forall t :: t in r ==> t in tasks && !t.completed
    ensures |r| == if |PendingTasks(tasks)| < 5 then |PendingTasks(tasks)| else 5
    ensures r == PendingTasks(tasks)[..|r|]
  {
    Take(PendingTasks(tasks), 5)
  }

  /** No tasks: 0%. One of two done: 50%. */
  lemma CompletionRateExamples(a: Task, b: Task)
    requires a.completed && !b.completed
    ensures CompletionRate([]) == 0
    ensures CompletionRate([a, b]) == 50
  {
    var s := [a, b];
    assert s[1..] == [b];
    assert CompletedTasks(s) == [a];
  }
}
