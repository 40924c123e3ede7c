/** The schedulers of sched/kern/sched.c: the loops as they run, and how long a RUNNABLE
    environment can wait. */
module Sched {
  import Smp

  const NULL: int := -1
  const BOOST_CYCLES: nat := 100
  const DEFAULT_PRIORITY: int := 5

  datatype Proc = Proc(status: Smp.Status, prio: int, boosted: nat)

  predicate CanRun(ps: seq<Proc>, x: int)
    requires 0 <= x < |ps|
  {
    ps[x].status == Smp.Runnable
  }

  // Neither RUNNABLE, RUNNING nor DYING.
  predicate Stopped(p: Proc) { p.status.Free? || p.status.NotRunnable? }

  // ---------------------------------------------------------------- round robin

  function Slot(start: nat, i: nat, n: nat): nat
    requires 0 < n
  {
    (start + i) % n
  }

  lemma Wrap(x: nat, n: nat)
    requires 0 < n && x < n + n
    ensures x % n == if x < n then x else x - n
  {
  }

  // The first RUNNABLE slot at `start + i` or after it, going round once.
  function RrFrom(ps: seq<Proc>, start: nat, i: nat): (next: int)
    requires 0 < |ps| && i <= |ps|
    ensures next == NULL || (0 <= next < |ps| && CanRun(ps, next))
    decreases |ps| - i
  {
    if i == |ps| then NULL
    else if CanRun(ps, Slot(start, i, |ps|)) then Slot(start, i, |ps|)
    else RrFrom(ps, start, i + 1)
  }

  function RrPick(ps: seq<Proc>, cur: int): int
    requires 0 < |ps| && NULL <= cur < |ps|
  {
    var next := RrFrom(ps, if cur == NULL then 0 else cur + 1, 0);
    if next == NULL && cur != NULL && ps[cur].status == Smp.Running then cur else next
  }

  // How many slots lie strictly between `cur` and `e`, going round.
  function Distance(cur: nat, e: nat, n: nat): nat
    requires cur < n && e < n
  {
    if cur < e then e - cur - 1 else n - 1 - (cur - e)
  }

  // The choice is no further round than any RUNNABLE slot.
  lemma {:induction false} RrFromNearest(ps: seq<Proc>, cur: nat, i: nat, e: nat)
    requires cur < |ps| && e < |ps| && i <= Distance(cur, e, |ps|) && CanRun(ps, e)
    ensures var next := RrFrom(ps, cur + 1, i);
      && 0 <= next < |ps| && CanRun(ps, next) && i <= Distance(cur, next, |ps|) <= Distance(cur, e, |ps|)
    decreases |ps| - i
  {
    Wrap(cur + 1 + i, |ps|);
    if !CanRun(ps, Slot(cur + 1, i, |ps|)) {
      RrFromNearest(ps, cur, i + 1, e);
    }
  }

  lemma Closer(cur: nat, next: nat, e: nat, n: nat)
    requires cur < n && next < n && e < n && next != e && Distance(cur, next, n) <= Distance(cur, e, n)
    ensures Distance(next, e, n) < Distance(cur, e, n)
  {
  }

  // The choice of the `i`th of successive decisions of one processor.
  function RrPickAt(views: seq<seq<Proc>>, cur: int, i: nat): int
    requires i < |views| && forall j :: 0 <= j < |views| ==> |views[j]| == |views[0]| > 0
    requires NULL <= cur < |views[0]|
    decreases i
  {
    var next := RrPick(views[0], cur);
    if i == 0 || !(NULL <= next < |views[0]|) then next else RrPickAt(views[1..], next, i - 1)
  }

  /** Round-robin fairness: on a processor that keeps an environment from each decision to
      the next, whatever the other environments do, one that is RUNNABLE at each decision is
      chosen after at most as many others as there are slots between. */
  lemma {:induction false} RrFair(views: seq<seq<Proc>>, cur: nat, e: nat)
    requires |views| > 0 && forall j :: 0 <= j < |views| ==> |views[j]| == |views[0]| > 0
    requires cur < |views[0]| && e < |views[0]| && Distance(cur, e, |views[0]|) < |views|
    requires forall j :: 0 <= j < |views| ==> CanRun(views[j], e)
    ensures exists i :: 0 <= i <= Distance(cur, e, |views[0]|) && RrPickAt(views, cur, i) == e
    decreases Distance(cur, e, |views[0]|)
  {
    var n := |views[0]|;
    RrFromNearest(views[0], cur, 0, e);
    var next := RrPick(views[0], cur);
    if next == e {
      assert RrPickAt(views, cur, 0) == e;
    } else {
      Closer(cur, next, e, n);
      RrFair(views[1..], next, e);
      var i :| 0 <= i <= Distance(next, e, n) && RrPickAt(views[1..], next, i) == e;
      assert RrPickAt(views, cur, i + 1) == e;
    }
  }

  // Within NENV decisions.
  lemma RrFairWithinNenv(views: seq<seq<Proc>>, cur: nat, e: nat)
    requires |views| > 0 && forall j :: 0 <= j < |views| ==> |views[j]| == |views[0]| > 0
    requires cur < |views[0]| && e < |views[0]| && |views[0]| <= |views|
    requires forall j :: 0 <= j < |views| ==> CanRun(views[j], e)
    ensures exists i :: 0 <= i < |views[0]| && RrPickAt(views, cur, i) == e
  {
    RrFair(views, cur, e);
    var i :| 0 <= i <= Distance(cur, e, |views[0]|) && RrPickAt(views, cur, i) == e;
  }

  // ---------------------------------------------------------------- priorities

  function BoostOne(p: Proc): Proc {
    if p.status == Smp.Runnable && p.prio < DEFAULT_PRIORITY then
      p.(prio := DEFAULT_PRIORITY, boosted := p.boosted + 1)
    else p
  }

  function Boost(ps: seq<Proc>): (r: seq<Proc>)
    ensures |r| == |ps|
  {
    seq(|ps|, i requires 0 <= i < |ps| => BoostOne(ps[i]))
  }

  // How many of the first `n` the boost raises.
  function Raised(ps: seq<Proc>, n: nat): nat
    requires n <= |ps|
  {
    if n == 0 then 0
    else Raised(ps, n - 1) + if ps[n - 1].status == Smp.Runnable && ps[n - 1].prio < DEFAULT_PRIORITY then 1 else 0
  }

  // What the call with counter `k` looks at.
  function Seen(ps: seq<Proc>, k: nat): (r: seq<Proc>)
    ensures |r| == |ps|
  {
    if k + 1 >= BOOST_CYCLES then Boost(ps) else ps
  }

  // The first of the RUNNABLE environments with the highest priority number.
  ghost predicate IsHighest(ps: seq<Proc>, h: int, n: nat)
    requires n <= |ps|
  {
    if h == NULL then forall x :: 0 <= x < n ==> !CanRun(ps, x)
    else
      && 0 <= h < n && CanRun(ps, h)
      && forall x :: 0 <= x < n && CanRun(ps, x) ==> ps[x].prio < ps[h].prio || (ps[x].prio == ps[h].prio && h <= x)
  }

  function Highest(ps: seq<Proc>, n: nat): (h: int)
    requires n <= |ps|
    ensures IsHighest(ps, h, n)
  {
    if n == 0 then NULL
    else
      var h := Highest(ps, n - 1);
      if CanRun(ps, n - 1) && (h == NULL || ps[n - 1].prio > ps[h].prio) then n - 1 else h
  }

  function PrioPick(ps: seq<Proc>, k: nat): (h: int)
    ensures NULL <= h < |ps|
  {
    Highest(Seen(ps, k), |ps|)
  }

  // The priorities after the call: the winner's goes down, unless it is 1 or less.
  function Lowered(ps: seq<Proc>, h: int): (r: seq<Proc>)
    requires h < |ps|
    ensures |r| == |ps|
  {
    if 0 <= h && ps[h].prio > 1 then ps[h := ps[h].(prio := ps[h].prio - 1)] else ps
  }

  /** Between two calls anything may happen to statuses and priorities, except that no
      environment is created, none gains priority (sys_set_priority only lowers), and `e`
      stays RUNNABLE and is not lowered. */
  ghost predicate Between(ps: seq<Proc>, qs: seq<Proc>, e: nat) {
    && |qs| == |ps| && e < |ps|
    && (forall x :: 0 <= x < |ps| && qs[x].status != Smp.Free ==> ps[x].status != Smp.Free && qs[x].prio <= ps[x].prio)
    && qs[e].prio == ps[e].prio && CanRun(qs, e)
  }

  // `views[i]` is what call number `i` finds; the first one finds the counter at `k`.
  ghost predicate PrioRun(views: seq<seq<Proc>>, k: nat, e: nat) {
    && (forall i :: 0 <= i < |views| ==> e < |views[i]| && CanRun(views[i], e))
    && (forall i :: 0 <= i < |views| - 1 ==>
          Between(Lowered(Seen(views[i], (k + i) % BOOST_CYCLES), PrioPick(views[i], (k + i) % BOOST_CYCLES)),
                  views[i + 1], e))
  }

  predicate AtMostDefault(ps: seq<Proc>) {
    forall x :: 0 <= x < |ps| && ps[x].status != Smp.Free ==> ps[x].prio <= DEFAULT_PRIORITY
  }

  ghost function Live(ps: seq<Proc>): set<int> {
    set x | 0 <= x < |ps| && ps[x].status != Smp.Free
  }

  // The other environments at DEFAULT_PRIORITY.
  ghost function Tops(ps: seq<Proc>, e: nat): set<int> {
    set x | 0 <= x < |ps| && x != e && ps[x].status != Smp.Free && ps[x].prio == DEFAULT_PRIORITY
  }

  lemma SubsetSize(a: set<int>, b: set<int>)
    requires a <= b
    ensures |a| <= |b|
  {
    assert b == a + (b - a);
  }

  // A call that does not choose `e` leaves fewer others at the top, and `e` where it is.
  lemma TopsDrop(ps: seq<Proc>, qs: seq<Proc>, k: nat, e: nat)
    requires e < |ps| && CanRun(ps, e) && AtMostDefault(ps) && PrioPick(ps, k) != e
    requires Seen(ps, k)[e].prio == DEFAULT_PRIORITY
    requires Between(Lowered(Seen(ps, k), PrioPick(ps, k)), qs, e)
    ensures AtMostDefault(qs) && qs[e].prio == DEFAULT_PRIORITY
    ensures |Tops(qs, e)| < |Tops(Seen(ps, k), e)|
  {
    var h, seen := PrioPick(ps, k), Seen(ps, k);
    assert CanRun(seen, e);
    assert h in Tops(seen, e);
    SubsetSize(Tops(qs, e), Tops(seen, e) - {h});
  }

  // `e` is at the top and no boost comes before every other one there has been chosen.
  lemma {:induction false} ChosenFromTop(views: seq<seq<Proc>>, k: nat, e: nat, i: nat)
    requires PrioRun(views, k, e) && i < |views| && AtMostDefault(views[i])
    requires Seen(views[i], (k + i) % BOOST_CYCLES)[e].prio == DEFAULT_PRIORITY
    requires (k + i) % BOOST_CYCLES + |Tops(views[i], e)| + 1 < BOOST_CYCLES && i + |Tops(views[i], e)| < |views|
    ensures exists j :: i <= j <= i + |Tops(views[i], e)| && PrioPick(views[j], (k + j) % BOOST_CYCLES) == e
    decreases |views| - i
  {
    if PrioPick(views[i], (k + i) % BOOST_CYCLES) != e {
      var c := (k + i) % BOOST_CYCLES;
      assert Seen(views[i], c) == views[i];
      ChosenIsTop(views[i], e);
      TopsDrop(views[i], views[i + 1], c, e);
      NextCounter(k, i);
      ChosenFromTop(views, k, e, i + 1);
    }
  }

  lemma ChosenIsTop(ps: seq<Proc>, e: nat)
    requires e < |ps| && CanRun(ps, e) && AtMostDefault(ps) && ps[e].prio == DEFAULT_PRIORITY
    ensures Highest(ps, |ps|) != e ==> Highest(ps, |ps|) in Tops(ps, e) && |Tops(ps, e)| > 0
  {
  }

  lemma NextCounter(k: nat, i: nat)
    requires (k + i) % BOOST_CYCLES + 1 < BOOST_CYCLES
    ensures (k + (i + 1)) % BOOST_CYCLES == (k + i) % BOOST_CYCLES + 1
  {
  }

  lemma PlainStep(ps: seq<Proc>, qs: seq<Proc>, k: nat, e: nat)
    requires AtMostDefault(ps) && e < |ps| && Between(Lowered(Seen(ps, k), PrioPick(ps, k)), qs, e)
    ensures AtMostDefault(qs) && |Live(qs)| <= |Live(ps)|
  {
    SubsetSize(Live(qs), Live(ps));
  }

  lemma BoostStep(ps: seq<Proc>, qs: seq<Proc>, e: nat)
    requires AtMostDefault(ps) && e < |ps| && CanRun(ps, e) && PrioPick(ps, BOOST_CYCLES - 1) != e
    requires Between(Lowered(Boost(ps), PrioPick(ps, BOOST_CYCLES - 1)), qs, e)
    ensures qs[e].prio == DEFAULT_PRIORITY && |Tops(qs, e)| + 1 < |Live(ps)|
  {
    TopsDrop(ps, qs, BOOST_CYCLES - 1, e);
    SubsetSize(Tops(Boost(ps), e), Live(ps) - {e as int});
  }

  // Up to the boost and through it.
  lemma {:induction false} ChosenAfterBoost(views: seq<seq<Proc>>, k: nat, e: nat, i: nat)
    requires PrioRun(views, k, e) && i + BOOST_CYCLES - 1 - (k + i) % BOOST_CYCLES + BOOST_CYCLES <= |views|
    requires AtMostDefault(views[i]) && |Live(views[i])| <= BOOST_CYCLES
    ensures exists j :: i <= j < |views| && PrioPick(views[j], (k + j) % BOOST_CYCLES) == e
    decreases BOOST_CYCLES - (k + i) % BOOST_CYCLES
  {
    hide Between, Lowered, AtMostDefault, Live, Tops, Boost, Highest;
    var c := (k + i) % BOOST_CYCLES;
    if PrioPick(views[i], c) != e {
      PlainStep(views[i], views[i + 1], c, e);
      if c + 1 < BOOST_CYCLES {
        NextCounter(k, i);
        ChosenAfterBoost(views, k, e, i + 1);
      } else {
        BoostStep(views[i], views[i + 1], e);
        Wrapped(k, i);
        ChosenFromTop(views, k, e, i + 1);
      }
    }
  }

  lemma Wrapped(k: nat, i: nat)
    requires (k + i) % BOOST_CYCLES == BOOST_CYCLES - 1
    ensures (k + (i + 1)) % BOOST_CYCLES == 0
  {
  }

  /** No starvation: with at most BOOST_CYCLES live environments, one that stays RUNNABLE and
      is not lowered is chosen within 2 * BOOST_CYCLES - 1 calls. */
  lemma PriorityFair(views: seq<seq<Proc>>, k: nat, e: nat)
    requires k < BOOST_CYCLES && |views| == 2 * BOOST_CYCLES - 1 && PrioRun(views, k, e)
    requires AtMostDefault(views[0]) && |Live(views[0])| <= BOOST_CYCLES
    ensures exists j :: 0 <= j < 2 * BOOST_CYCLES - 1 && PrioPick(views[j], (k + j) % BOOST_CYCLES) == e
  {
    ChosenAfterBoost(views, k, e, 0);
  }

  // One environment too many: all RUNNABLE, each of the first BOOST_CYCLES at the top again
  // before the last one's turn comes.
  function Crowd(i: nat): seq<Proc> {
    var m := i % BOOST_CYCLES;
    seq(BOOST_CYCLES + 1, x =>
      Proc(Smp.Runnable, if x < (if m == 0 && i > 0 then BOOST_CYCLES else m) then 4 else 5, 0))
  }

  lemma CrowdPick(i: nat)
    ensures PrioPick(Crowd(i), (BOOST_CYCLES - 1 + i) % BOOST_CYCLES) == i % BOOST_CYCLES
  {
    var m, k := i % BOOST_CYCLES, (BOOST_CYCLES - 1 + i) % BOOST_CYCLES;
    CrowdCounter(i);
    var seen := Seen(Crowd(i), k);
    var h := Highest(seen, |seen|);
    assert IsHighest(seen, h, |seen|);
    assert CanRun(seen, m);
  }

  lemma CrowdCounter(i: nat)
    ensures (BOOST_CYCLES - 1 + i) % BOOST_CYCLES ==
      if i % BOOST_CYCLES == 0 then BOOST_CYCLES - 1 else i % BOOST_CYCLES - 1
    ensures (i + 1) % BOOST_CYCLES == if i % BOOST_CYCLES == BOOST_CYCLES - 1 then 0 else i % BOOST_CYCLES + 1
  {
    var q, m := i / BOOST_CYCLES, i % BOOST_CYCLES;
    if m == 0 {
      CounterAt(q, BOOST_CYCLES - 1);
    } else {
      CounterAt(q + 1, m - 1);
    }
    if m == BOOST_CYCLES - 1 {
      CounterAt(q + 1, 0);
    } else {
      CounterAt(q, m + 1);
    }
  }

  lemma CounterAt(q: nat, m: nat)
    requires m < BOOST_CYCLES
    ensures (BOOST_CYCLES * q + m) % BOOST_CYCLES == m
  {
  }

  lemma CrowdStep(i: nat)
    ensures var k := (BOOST_CYCLES - 1 + i) % BOOST_CYCLES;
      Between(Lowered(Seen(Crowd(i), k), PrioPick(Crowd(i), k)), Crowd(i + 1), BOOST_CYCLES)
  {
    hide Highest;
    CrowdPick(i);
    CrowdCounter(i);
  }

  /** With BOOST_CYCLES + 1 environments a RUNNABLE one at DEFAULT_PRIORITY may never be
      chosen, however long the run. */
  lemma CrowdStarves(views: seq<seq<Proc>>)
    requires |views| > 0 && forall i :: 0 <= i < |views| ==> views[i] == Crowd(i)
    ensures PrioRun(views, BOOST_CYCLES - 1, BOOST_CYCLES)
    ensures AtMostDefault(views[0]) && |Live(views[0])| <= BOOST_CYCLES + 1
    ensures forall i :: 0 <= i < |views| ==> PrioPick(views[i], (BOOST_CYCLES - 1 + i) % BOOST_CYCLES) != BOOST_CYCLES
  {
    hide Between, Lowered, Seen;
    forall i | 0 <= i < |views|
      ensures PrioPick(views[i], (BOOST_CYCLES - 1 + i) % BOOST_CYCLES) != BOOST_CYCLES
      ensures i < |views| - 1 ==>
        Between(Lowered(Seen(views[i], (BOOST_CYCLES - 1 + i) % BOOST_CYCLES),
                        PrioPick(views[i], (BOOST_CYCLES - 1 + i) % BOOST_CYCLES)), views[i + 1], BOOST_CYCLES)
    {
      CrowdPick(i);
      CrowdStep(i);
    }
    LiveBound(views[0]);
  }

  // Every run that starts with at most `n` live environments chooses one that waits within
  // `calls` calls.
  ghost predicate FairFor(n: nat, calls: nat) {
    forall views: seq<seq<Proc>>, k: nat, e: nat ::
      k < BOOST_CYCLES && |views| == calls > 0 && PrioRun(views, k, e)
      && AtMostDefault(views[0]) && |Live(views[0])| <= n
      ==> exists j :: 0 <= j < calls && PrioPick(views[j], (k + j) % BOOST_CYCLES) == e
  }

  /** The scheduler is free of starvation exactly for up to BOOST_CYCLES live environments:
      then 2 * BOOST_CYCLES - 1 calls are enough, and beyond that no number of calls is. */
  lemma PriorityFairIff(n: nat, calls: nat)
    requires calls >= 2 * BOOST_CYCLES - 1
    ensures FairFor(n, calls) <==> n <= BOOST_CYCLES
  {
    hide PrioRun, AtMostDefault, Live, PrioPick;
    if n <= BOOST_CYCLES {
      forall views: seq<seq<Proc>>, k: nat, e: nat | k < BOOST_CYCLES && |views| == calls && PrioRun(views, k, e)
          && AtMostDefault(views[0]) && |Live(views[0])| <= n
        ensures exists j :: 0 <= j < calls && PrioPick(views[j], (k + j) % BOOST_CYCLES) == e
      {
        var first := views[..2 * BOOST_CYCLES - 1];
        ShorterRun(views, k, e, |first|);
        PriorityFair(first, k, e);
        var j :| 0 <= j < |first| && PrioPick(first[j], (k + j) % BOOST_CYCLES) == e;
        assert views[j] == first[j];
      }
    } else {
      var views := seq(calls, i requires 0 <= i => Crowd(i));
      CrowdStarves(views);
    }
  }

  lemma ShorterRun(views: seq<seq<Proc>>, k: nat, e: nat, m: nat)
    requires PrioRun(views, k, e) && m <= |views|
    ensures PrioRun(views[..m], k, e)
  {
    hide Between, Lowered, Seen, PrioPick;
  }

  // What the calls of a worst run find: everything RUNNABLE, priority 1 up to the boost.
  function Worst(i: nat): seq<Proc> {
    seq(BOOST_CYCLES, x =>
      if i < BOOST_CYCLES then Proc(Smp.Runnable, 1, 0)
      else Proc(Smp.Runnable, if x < i + 1 - BOOST_CYCLES then 4 else 5, 1))
  }

  lemma WorstPick(i: nat)
    requires i < 2 * BOOST_CYCLES - 2
    ensures PrioPick(Worst(i), i % BOOST_CYCLES) == if i + 1 < BOOST_CYCLES then 0 else i + 1 - BOOST_CYCLES
  {
    var k := i % BOOST_CYCLES;
    var seen := Seen(Worst(i), k);
    var h := Highest(seen, BOOST_CYCLES);
    assert IsHighest(seen, h, BOOST_CYCLES);
    assert CanRun(seen, 0);
    if BOOST_CYCLES <= i + 1 {
      assert CanRun(seen, i + 1 - BOOST_CYCLES);
    }
  }

  lemma WorstStep(i: nat)
    requires i + 1 < 2 * BOOST_CYCLES - 2
    ensures Between(Lowered(Seen(Worst(i), i % BOOST_CYCLES), PrioPick(Worst(i), i % BOOST_CYCLES)),
                    Worst(i + 1), BOOST_CYCLES - 1)
  {
    WorstPick(i);
  }

  /** The bound is exact: a run of one call less, from the same hypotheses, in which the
      environment is never chosen. */
  lemma PriorityBoundIsTight(views: seq<seq<Proc>>)
    requires |views| == 2 * BOOST_CYCLES - 2 && forall i :: 0 <= i < |views| ==> views[i] == Worst(i)
    ensures PrioRun(views, 0, BOOST_CYCLES - 1) && AtMostDefault(views[0]) && |Live(views[0])| <= BOOST_CYCLES
    ensures forall i :: 0 <= i < |views| ==> PrioPick(views[i], (0 + i) % BOOST_CYCLES) != BOOST_CYCLES - 1
  {
    forall i | 0 <= i < |views|
      ensures PrioPick(views[i], (0 + i) % BOOST_CYCLES) != BOOST_CYCLES - 1
      ensures CanRun(views[i], BOOST_CYCLES - 1)
      ensures i < |views| - 1 ==>
        Between(Lowered(Seen(views[i], (0 + i) % BOOST_CYCLES), PrioPick(views[i], (0 + i) % BOOST_CYCLES)),
                views[i + 1], BOOST_CYCLES - 1)
    {
      WorstPick(i);
      if i < |views| - 1 {
        WorstStep(i);
      }
    }
    LiveBound(views[0]);
  }

  lemma {:induction false} LiveBound(ps: seq<Proc>)
    ensures |Live(ps)| <= |ps|
  {
    if ps != [] {
      var n := |ps| - 1;
      LiveBound(ps[..n]);
      SubsetSize(Live(ps), Live(ps[..n]) + {n});
    } else {
      assert Live(ps) == {};
    }
  }

  // ---------------------------------------------------------------- what the processors rely on

  lemma {:induction false} FromStart(ps: seq<Proc>, i: nat)
    requires 0 < |ps| && i <= |ps|
    ensures RrFrom(ps, 0, i) == RrFrom(ps, |ps|, i)
    decreases |ps| - i
  {
    if i < |ps| {
      Wrap(0 + i, |ps|);
      Wrap(|ps| + i, |ps|);
      FromStart(ps, i + 1);
    }
  }

  // The environment a RUNNABLE one keeps round robin from missing.
  lemma RrFindsRunnable(ps: seq<Proc>, cur: int, x: nat)
    requires x < |ps| && NULL <= cur < |ps| && CanRun(ps, x)
    ensures 0 <= RrPick(ps, cur) < |ps| && CanRun(ps, RrPick(ps, cur))
  {
    FromStart(ps, 0);
    RrFromNearest(ps, if cur == NULL then |ps| - 1 else cur, 0, x);
  }

  /** Both schedulers choose what the processors of `Smp` may be given: never an environment
      that runs elsewhere, and to halt only when there is nothing to do. */
  lemma PicksAreAllowed(s: Smp.Machine, c: nat, ps: seq<Proc>, k: nat)
    requires c < |s.cpus| && 0 < |ps| == |s.envs| && Smp.NULL <= s.cpus[c].env < |s.envs|
    requires forall x :: 0 <= x < |ps| ==> ps[x].status == s.envs[x].status
    ensures var cur := s.cpus[c].env;
      && Smp.MayPick(s, c, RrPick(ps, cur))
      && Smp.MayPick(s, c, if PrioPick(ps, k) != NULL then PrioPick(ps, k)
                           else if cur != NULL && Seen(ps, k)[cur].status == Smp.Running then cur else NULL)
  {
    var cur, h := s.cpus[c].env, PrioPick(ps, k);
    assert forall x :: 0 <= x < |ps| ==> Seen(ps, k)[x].status == ps[x].status;
    assert IsHighest(Seen(ps, k), h, |ps|);
    if x :| 0 <= x < |ps| && s.envs[x].status == Smp.Runnable {
      RrFindsRunnable(ps, cur, x);
      assert CanRun(Seen(ps, k), x);
    }
  }

  // ---------------------------------------------------------------- the loops

  // What env_run does to the statuses.
  function Switched(ps: seq<Proc>, cur: int, e: nat): (r: seq<Proc>)
    requires NULL <= cur < |ps| && e < |ps|
    ensures |r| == |ps|
  {
    var qs := if cur != NULL && ps[cur].status == Smp.Running then ps[cur := ps[cur].(status := Smp.Runnable)] else ps;
    qs[e := qs[e].(status := Smp.Running)]
  }

  // What a call of a scheduler leaves: the environments, curenv and boost_counter.
  datatype Turn = Turn(ps: seq<Proc>, cur: int, k: nat)

  // sched_halt: curenv is cleared unless nothing is left and the monitor takes over.
  function Halted(ps: seq<Proc>, cur: int): int { if AllStopped(ps) then cur else NULL }

  predicate AllStopped(ps: seq<Proc>) { forall x :: 0 <= x < |ps| ==> Stopped(ps[x]) }

  // The boost changes no status, and who is chosen or goes on is not stopped.
  lemma SeenStopped(ps: seq<Proc>, cur: int, k: nat)
    requires NULL <= cur < |ps|
    ensures AllStopped(Seen(ps, k)) == AllStopped(ps)
    ensures PrioPick(ps, k) != NULL || (cur != NULL && Seen(ps, k)[cur].status == Smp.Running) ==> !AllStopped(ps)
  {
    assert forall x :: 0 <= x < |ps| ==> Seen(ps, k)[x].status == ps[x].status;
    assert IsHighest(Seen(ps, k), PrioPick(ps, k), |ps|);
  }

  function RrTurn(t: Turn): (r: Turn)
    requires 0 < |t.ps| && NULL <= t.cur < |t.ps|
    ensures |r.ps| == |t.ps| && NULL <= r.cur < |r.ps|
  {
    var pick := RrPick(t.ps, t.cur);
    if pick != NULL then Turn(Switched(t.ps, t.cur, pick), pick, t.k) else Turn(t.ps, Halted(t.ps, t.cur), t.k)
  }

  function PrioTurn(t: Turn): (r: Turn)
    requires 0 < |t.ps| && NULL <= t.cur < |t.ps|
    ensures |r.ps| == |t.ps| && NULL <= r.cur < |r.ps|
  {
    var seen, pick, k := Seen(t.ps, t.k), PrioPick(t.ps, t.k), (t.k + 1) % BOOST_CYCLES;
    if pick != NULL then Turn(Switched(Lowered(seen, pick), t.cur, pick), pick, k)
    else if t.cur != NULL && seen[t.cur].status == Smp.Running then Turn(Switched(seen, t.cur, t.cur), t.cur, k)
    else Turn(seen, Halted(seen, t.cur), k)
  }

  class Processor {
    const envs: array<Proc>
    var curenv: int
    var boostCounter: int
    var runsTotal: nat
    var timesBoosted: nat

    constructor (envs: array<Proc>)
      ensures this.envs == envs && curenv == NULL && boostCounter == 0
    {
      this.envs := envs;
      curenv, boostCounter, runsTotal, timesBoosted := NULL, 0, 0, 0;
    }

    ghost predicate Valid()
      reads this, envs
    {
      0 < envs.Length && NULL <= curenv < envs.Length && 0 <= boostCounter < BOOST_CYCLES
    }

    ghost function State(): Turn
      reads this, envs
      requires Valid()
    {
      Turn(envs[..], curenv, boostCounter)
    }

    method EnvRun(e: nat)
      requires Valid() && e < envs.Length
      modifies this`curenv, envs
      ensures Valid() && curenv == e && envs[..] == Switched(old(envs[..]), old(curenv), e)
    {
      if curenv != NULL && envs[curenv].status == Smp.Running {
        envs[curenv] := envs[curenv].(status := Smp.Runnable);
      }
      curenv := e;
      envs[curenv] := envs[curenv].(status := Smp.Running);
    }

    // True when no environment is left and the monitor takes over.
    method SchedHalt() returns (monitor: bool)
      requires Valid()
      modifies this`curenv
      ensures Valid() && curenv == Halted(envs[..], old(curenv))
      ensures monitor <==> AllStopped(envs[..])
    {
      var i := 0;
      while i < envs.Length
        invariant 0 <= i <= envs.Length
        invariant forall x :: 0 <= x < i ==> Stopped(envs[x])
      {
        if envs[i].status == Smp.Runnable || envs[i].status == Smp.Running || envs[i].status == Smp.Dying {
          break;
        }
        i := i + 1;
      }
      if i == envs.Length {
        return true;
      }
      curenv := NULL;
      return false;
    }

    method SchedRr() returns (monitor: bool)
      requires Valid()
      modifies this, envs
      ensures Valid() && State() == RrTurn(old(State())) && timesBoosted == old(timesBoosted)
      ensures monitor <==> AllStopped(old(envs[..]))
      ensures runsTotal == old(runsTotal) + if RrPick(old(envs[..]), old(curenv)) != NULL then 1 else 0
    {
      ghost var ps := envs[..];
      var start := if curenv != NULL then curenv + 1 else 0;
      for i := 0 to envs.Length
        invariant Valid() && envs[..] == ps && curenv == old(curenv) && boostCounter == old(boostCounter)
        invariant runsTotal == old(runsTotal) && timesBoosted == old(timesBoosted)
        invariant RrFrom(ps, start, i) == RrFrom(ps, start, 0)
      {
        var index := (start + i) % envs.Length;
        if envs[index].status == Smp.Runnable {
          runsTotal := runsTotal + 1;
          EnvRun(index);
          return false;
        }
      }
      if curenv != NULL && envs[curenv].status == Smp.Running {
        runsTotal := runsTotal + 1;
        EnvRun(curenv);
        return false;
      }
      monitor := SchedHalt();
    }

    // The boost loop of priority_sched.
    method BoostAll()
      requires Valid()
      modifies this`timesBoosted, envs
      ensures Valid() && envs[..] == Boost(old(envs[..]))
      ensures timesBoosted == old(timesBoosted) + Raised(old(envs[..]), envs.Length)
    {
      ghost var ps := envs[..];
      for i := 0 to envs.Length
        invariant timesBoosted == old(timesBoosted) + Raised(ps, i)
        invariant forall x :: 0 <= x < envs.Length ==> envs[x] == if x < i then BoostOne(ps[x]) else ps[x]
      {
        if envs[i].status == Smp.Runnable && envs[i].prio < DEFAULT_PRIORITY {
          envs[i] := envs[i].(prio := DEFAULT_PRIORITY, boosted := envs[i].boosted + 1);
          timesBoosted := timesBoosted + 1;
        }
      }
    }

    // Its search loop.
    method HighestRunnable() returns (highest: int)
      requires Valid()
      ensures highest == Highest(envs[..], envs.Length)
    {
      highest := NULL;
      for i := 0 to envs.Length
        invariant NULL <= highest < envs.Length && highest == Highest(envs[..], i)
      {
        if envs[i].status == Smp.Runnable {
          if highest == NULL || envs[i].prio > envs[highest].prio {
            highest := i;
          }
        }
      }
    }

    method PrioritySched() returns (monitor: bool)
      requires Valid()
      modifies this, envs
      ensures Valid() && State() == PrioTurn(old(State()))
      ensures monitor <==> AllStopped(old(envs[..]))
      ensures runsTotal == old(runsTotal) + if PrioPick(old(envs[..]), old(boostCounter)) != NULL then 1 else 0
      ensures timesBoosted == old(timesBoosted) +
        if old(boostCounter) + 1 >= BOOST_CYCLES then Raised(old(envs[..]), envs.Length) else 0
    {
      hide Boost, Switched, Raised, RrPick, AllStopped, IsHighest;
      var idle, highest := curenv, NULL;
      ghost var ps := envs[..];
      boostCounter := boostCounter + 1;
      if boostCounter >= BOOST_CYCLES {
        boostCounter := 0;
        BoostAll();
      }
      ghost var seen := envs[..];
      SeenStopped(ps, curenv, old(boostCounter));
      highest := HighestRunnable();
      if highest != NULL {
        if envs[highest].prio > 1 {
          envs[highest] := envs[highest].(prio := envs[highest].prio - 1);
        }
        assert envs[..] == Lowered(seen, highest);
        runsTotal := runsTotal + 1;
        EnvRun(highest);
        return false;
      }
      if idle != NULL && envs[idle].status == Smp.Running {
        EnvRun(idle);
        return false;
      }
      monitor := SchedHalt();
    }
  }
}
