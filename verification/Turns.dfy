/** The schedulers of sched/kern/sched.c in a closed loop: each call finds what the one
    before left, while the environments only compute. */
module Turns {
  import Smp
  import opened Sched

  // ---------------------------------------------------------------- env_run

  /** The switch is the one of the processors' model: it sets the status of the preempted
      environment back to RUNNABLE, that of the chosen one to RUNNING, and touches no other
      environment, no priority and no counter. */
  lemma SwitchIsEnvRun(s: Smp.Machine, c: nat, ps: seq<Proc>, e: nat)
    requires c < |s.cpus| && Agree(s, c, Turn(ps, s.cpus[c].env, 0)) && e < |ps|
    ensures forall x :: 0 <= x < |ps| ==>
      var was, now := ps[x], Switched(ps, s.cpus[c].env, e)[x];
      && now.status == Smp.EnvRun(s, c, e).envs[x].status
      && (x != e && x != s.cpus[c].env ==> now.status == was.status)
      && now.prio == was.prio && now.boosted == was.boosted
  {
  }

  // Processor `c` of the processors' model is the one whose scheduler runs.
  ghost predicate Agree(s: Smp.Machine, c: nat, t: Turn) {
    && c < |s.cpus| && s.cpus[c].env == t.cur && NULL <= t.cur < |t.ps| == |s.envs|
    && forall x :: 0 <= x < |t.ps| ==> t.ps[x].status == s.envs[x].status
  }

  // Whom a call of the priority scheduler runs, NULL to halt.
  function PrioChoice(t: Turn): int
    requires Fits(t)
  {
    var pick := PrioPick(t.ps, t.k);
    if pick == NULL && t.cur != NULL && t.ps[t.cur].status == Smp.Running then t.cur else pick
  }

  /** A call of either scheduler is a step of the processors' model: one it permits, with the
      same statuses and the same current environment afterwards, and the monitor entered in the
      same cases. */
  lemma TurnIsStep(s: Smp.Machine, c: nat, t: Turn)
    requires Agree(s, c, t) && Fits(t) && s.cpus[c].pc == Smp.Sched
    ensures Smp.Enabled(s, c, Smp.Pick(RrPick(t.ps, t.cur))) && Smp.Enabled(s, c, Smp.Pick(PrioChoice(t)))
    ensures SameStep(Smp.Step(s, c, Smp.Pick(RrPick(t.ps, t.cur))), c, RrTurn(t), AllStopped(t.ps))
    ensures SameStep(Smp.Step(s, c, Smp.Pick(PrioChoice(t))), c, PrioTurn(t), AllStopped(t.ps))
  {
    hide *;
    RrTurnIsStep(s, c, t);
    PrioTurnIsStep(s, c, t);
  }

  lemma RrTurnIsStep(s: Smp.Machine, c: nat, t: Turn)
    requires Agree(s, c, t) && Fits(t) && s.cpus[c].pc == Smp.Sched
    ensures Smp.Enabled(s, c, Smp.Pick(RrPick(t.ps, t.cur)))
    ensures SameStep(Smp.Step(s, c, Smp.Pick(RrPick(t.ps, t.cur))), c, RrTurn(t), AllStopped(t.ps))
  {
    PicksAreAllowed(s, c, t.ps, t.k);
    var pick := RrPick(t.ps, t.cur);
    hide RrPick, RrFrom, Smp.MayPick, PrioPick, Seen;
    if pick == NULL {
      HaltIsStep(s, c, t);
    } else {
      RunIsStep(s, c, t, pick);
    }
  }

  lemma PrioTurnIsStep(s: Smp.Machine, c: nat, t: Turn)
    requires Agree(s, c, t) && Fits(t) && s.cpus[c].pc == Smp.Sched
    ensures Smp.Enabled(s, c, Smp.Pick(PrioChoice(t)))
    ensures SameStep(Smp.Step(s, c, Smp.Pick(PrioChoice(t))), c, PrioTurn(t), AllStopped(t.ps))
  {
    SeenStatus(t.ps, t.k);
    PicksAreAllowed(s, c, t.ps, t.k);
    SeenStopped(t.ps, t.cur, t.k);
    hide RrPick, Smp.MayPick, PrioPick, Seen;
    var seen, pick := Seen(t.ps, t.k), PrioPick(t.ps, t.k);
    var u, k := Turn(seen, t.cur, t.k), (t.k + 1) % BOOST_CYCLES;
    assert Agree(s, c, u) && Fits(u);
    if pick != NULL {
      RunIsStep(s, c, Turn(Lowered(seen, pick), t.cur, t.k), pick);
    } else if t.cur != NULL && t.ps[t.cur].status == Smp.Running {
      RunIsStep(s, c, u, t.cur);
    } else {
      HaltIsStep(s, c, u);
    }
  }

  lemma SeenStatus(ps: seq<Proc>, k: nat)
    ensures forall x :: 0 <= x < |ps| ==> Seen(ps, k)[x].status == ps[x].status
  {
  }

  lemma RunIsStep(s: Smp.Machine, c: nat, t: Turn, e: nat)
    requires Agree(s, c, t) && Fits(t) && s.cpus[c].pc == Smp.Sched && e < |t.ps| && Smp.Enabled(s, c, Smp.Pick(e))
    requires CanRun(t.ps, e) || t.ps[e].status == Smp.Running
    ensures forall k: nat ::
      SameStep(Smp.Step(s, c, Smp.Pick(e)), c, Turn(Switched(t.ps, t.cur, e), e, k), AllStopped(t.ps))
  {
    hide Smp.MayPick;
    assert !AllStopped(t.ps);
  }

  lemma HaltIsStep(s: Smp.Machine, c: nat, t: Turn)
    requires Agree(s, c, t) && Fits(t) && s.cpus[c].pc == Smp.Sched && Smp.Enabled(s, c, Smp.Pick(NULL))
    ensures forall k: nat ::
      SameStep(Smp.Step(s, c, Smp.Pick(NULL)), c, Turn(t.ps, Halted(t.ps, t.cur), k), AllStopped(t.ps))
  {
    hide Smp.MayPick;
    assert forall x :: 0 <= x < |t.ps| ==> (Stopped(t.ps[x]) <==> s.envs[x].status in {Smp.Free, Smp.NotRunnable});
  }

  ghost predicate SameStep(s: Smp.Machine, c: nat, t: Turn, monitor: bool) {
    Agree(s, c, t) && (s.cpus[c].pc == Smp.Monitor <==> monitor)
  }

  // ---------------------------------------------------------------- round robin

  predicate Fits(t: Turn) { 0 < |t.ps| && NULL <= t.cur < |t.ps| }

  function RrTurns(t: Turn, n: nat): (r: Turn)
    requires Fits(t)
    ensures Fits(r)
    decreases n
  {
    if n == 0 then t else RrTurns(RrTurn(t), n - 1)
  }

  // The environments that `n` successive calls run.
  function Chosen(t: Turn, n: nat): seq<int>
    requires Fits(t)
    decreases n
  {
    if n == 0 then [] else [RrTurn(t).cur] + Chosen(RrTurn(t), n - 1)
  }

  // One processor: its environment is RUNNING, any other one is RUNNABLE or stopped.
  ghost predicate Turning(ps: seq<Proc>, cur: int) {
    0 <= cur < |ps| && ps[cur].status == Smp.Running
    && forall x :: 0 <= x < |ps| && x != cur ==> CanRun(ps, x) || Stopped(ps[x])
  }

  ghost function Going(ps: seq<Proc>): set<int> { set x | 0 <= x < |ps| && !Stopped(ps[x]) }

  // How far `x` lies after `cur`, going round.
  function Rank(cur: nat, x: nat, n: nat): nat
    requires cur < n && x < n
  {
    if cur <= x then x - cur else x - cur + n
  }

  // The environments whose turn comes after that of `c`, the first one's own turn excepted.
  ghost function Later(ps: seq<Proc>, cur: nat, c: nat): set<int>
    requires cur < |ps| && c < |ps|
  {
    set x | 0 <= x < |ps| && !Stopped(ps[x]) && x != cur && Rank(cur, x, |ps|) > Rank(cur, c, |ps|)
  }

  // The table with the processor given from `cur` to `c`.
  function Given(ps: seq<Proc>, cur: nat, c: nat): (r: seq<Proc>)
    requires cur < |ps| && c < |ps|
    ensures |r| == |ps|
  {
    var qs := ps[cur := ps[cur].(status := Smp.Runnable)];
    qs[c := qs[c].(status := Smp.Running)]
  }

  lemma NearerRank(cur: nat, c: nat, p: nat, x: nat, n: nat)
    requires cur < n && c < n && p < n && x < n && p != c && x != c && Distance(c, p, n) <= Distance(c, x, n)
    ensures Rank(cur, x, n) > Rank(cur, c, n) ==> Rank(cur, x, n) >= Rank(cur, p, n) > Rank(cur, c, n)
    ensures x == cur && p != cur ==> Rank(cur, p, n) > Rank(cur, c, n)
    ensures Rank(cur, x, n) == Rank(cur, p, n) ==> x == p
  {
  }

  // While anyone else is going, the nearest one is chosen, else the one that runs goes on.
  lemma Nearest(ps: seq<Proc>, cur: nat, c: nat)
    requires Turning(ps, cur) && c < |ps| && !Stopped(ps[c])
    ensures var p := RrPick(Given(ps, cur, c), c);
      && 0 <= p < |ps| && !Stopped(ps[p])
      && (forall x :: 0 <= x < |ps| && !Stopped(ps[x]) && x != c ==>
            p != c && Distance(c, p, |ps|) <= Distance(c, x, |ps|))
      && Switched(Given(ps, cur, c), c, p) == Given(ps, cur, p)
  {
    var qs := Given(ps, cur, c);
    assert forall x :: 0 <= x < |ps| ==> (CanRun(qs, x) <==> !Stopped(ps[x]) && x != c);
    var p := RrPick(qs, c);
    forall x | 0 <= x < |ps| && CanRun(qs, x)
      ensures 0 <= p < |ps| && CanRun(qs, p) && Distance(c, p, |ps|) <= Distance(c, x, |ps|)
    {
      RrFromNearest(qs, c, 0, x);
    }
    assert Switched(qs, c, p) == Given(ps, cur, p);
  }

  // After the last one it is the first one's turn again.
  lemma NextTurn(ps: seq<Proc>, cur: nat, c: nat, k: nat)
    requires Turning(ps, cur) && c < |ps| && !Stopped(ps[c])
    ensures var next := RrTurn(Turn(Given(ps, cur, c), c, k));
      && 0 <= next.cur < |ps| && next == Turn(Given(ps, cur, next.cur), next.cur, k) && !Stopped(ps[next.cur])
      && (Later(ps, cur, c) == {} ==> next.cur == cur)
      && (Later(ps, cur, c) != {} ==>
            (next.cur in Later(ps, cur, c) && Later(ps, cur, next.cur) == Later(ps, cur, c) - {next.cur}))
  {
    hide RrPick, Switched, Given, Distance, Rank;
    Nearest(ps, cur, c);
    var p := RrPick(Given(ps, cur, c), c);
    forall x | 0 <= x < |ps| && !Stopped(ps[x]) && x != c
      ensures Rank(cur, x, |ps|) > Rank(cur, c, |ps|) ==>
        Rank(cur, x, |ps|) >= Rank(cur, p, |ps|) > Rank(cur, c, |ps|)
      ensures x == cur && p != cur ==> Rank(cur, p, |ps|) > Rank(cur, c, |ps|)
      ensures Rank(cur, x, |ps|) == Rank(cur, p, |ps|) ==> x == p
    {
      NearerRank(cur, c, p, x, |ps|);
    }
    FirstRank(cur, c, |ps|);
    FirstRank(cur, p, |ps|);
    var later := Later(ps, cur, c);
    assert p != cur ==> p in later;
    if x :| x in later {
      assert p in later;
    }
  }

  lemma FirstRank(cur: nat, x: nat, n: nat)
    requires cur < n && x < n
    ensures Rank(cur, x, n) >= Rank(cur, cur, n) == 0 && (x != cur ==> Rank(cur, x, n) > 0)
  {
  }

  lemma {:induction false} RestOfRound(ps: seq<Proc>, cur: nat, c: nat, k: nat)
    requires Turning(ps, cur) && c < |ps| && !Stopped(ps[c])
    ensures var now, n := Turn(Given(ps, cur, c), c, k), |Later(ps, cur, c)| + 1;
      && RrTurns(now, n) == Turn(ps, cur, k)
      && multiset(Chosen(now, n)) == multiset(Later(ps, cur, c) + {cur})
    decreases |Later(ps, cur, c)|
  {
    BackToStart(ps, cur, c);
    hide *;
    NextTurn(ps, cur, c, k);
    var now, later := Turn(Given(ps, cur, c), c, k), Later(ps, cur, c);
    var next := RrTurn(now);
    FirstCall(now, |later|);
    if later == {} {
      NoCall(next);
    } else {
      RestOfRound(ps, cur, next.cur, k);
      OneOut(later, cur, next.cur);
    }
  }

  lemma BackToStart(ps: seq<Proc>, cur: nat, c: nat)
    requires Turning(ps, cur) && c < |ps|
    ensures Given(ps, cur, cur) == ps && cur !in Later(ps, cur, c)
  {
  }

  lemma OneOut(later: set<int>, cur: int, x: int)
    requires x in later && cur !in later
    ensures |later - {x}| + 1 == |later|
    ensures multiset(later + {cur}) == multiset{x} + multiset(later - {x} + {cur})
  {
  }

  lemma NoCall(t: Turn)
    requires Fits(t)
    ensures RrTurns(t, 0) == t && Chosen(t, 0) == []
  {
  }

  lemma FirstCall(t: Turn, n: nat)
    requires Fits(t)
    ensures RrTurns(t, n + 1) == RrTurns(RrTurn(t), n)
    ensures multiset(Chosen(t, n + 1)) == multiset{RrTurn(t).cur} + multiset(Chosen(RrTurn(t), n))
  {
  }

  /** Round robin is fair to the letter: with n environments going, n calls run each of them
      exactly once and leave everything as it was. */
  lemma RrRound(t: Turn)
    requires Turning(t.ps, t.cur)
    ensures multiset(Chosen(t, |Going(t.ps)|)) == multiset(Going(t.ps))
    ensures RrTurns(t, |Going(t.ps)|) == t
  {
    hide RrTurns, Chosen, Given;
    var later := Later(t.ps, t.cur, t.cur);
    BackToStart(t.ps, t.cur, t.cur);
    assert Going(t.ps) == later + {t.cur};
    RestOfRound(t.ps, t.cur, t.cur, t.k);
  }

  // ---------------------------------------------------------------- priorities

  function PrioTurns(t: Turn, n: nat): (r: Turn)
    requires Fits(t)
    ensures Fits(r)
    decreases n
  {
    if n == 0 then t else PrioTurns(PrioTurn(t), n - 1)
  }

  lemma {:induction false} OneMore(t: Turn, n: nat)
    requires Fits(t)
    ensures PrioTurns(t, n + 1) == PrioTurn(PrioTurns(t, n))
    decreases n
  {
    hide PrioTurn;
    if n > 0 {
      OneMore(PrioTurn(t), n - 1);
    }
  }

  /** What a call changes: the chosen environment goes one down, though never below 1, the
      boost lifts RUNNABLE ones to the default, no other priority changes, nothing is freed
      and nothing created. */
  lemma PrioTurnEffect(t: Turn)
    requires Fits(t) && AtMostDefault(t.ps)
    ensures var r, pick := PrioTurn(t), PrioPick(t.ps, t.k);
      && AtMostDefault(r.ps) && Live(r.ps) == Live(t.ps) && r.k == (t.k + 1) % BOOST_CYCLES
      && forall x :: 0 <= x < |t.ps| ==>
           var was := if t.k + 1 >= BOOST_CYCLES && CanRun(t.ps, x) then DEFAULT_PRIORITY else t.ps[x].prio;
           r.ps[x].prio == if x == pick && was > 1 then was - 1 else was
  {
    var seen, pick := Seen(t.ps, t.k), PrioPick(t.ps, t.k);
    assert IsHighest(seen, pick, |t.ps|);
  }

  // A call that does not choose a waiting environment is one that `PriorityFair` allows.
  lemma PassedOver(t: Turn, e: nat)
    requires Fits(t) && e < |t.ps| && CanRun(t.ps, e) && PrioPick(t.ps, t.k) != e
    ensures CanRun(PrioTurn(t).ps, e) && |PrioTurn(t).ps| == |t.ps|
    ensures Between(Lowered(Seen(t.ps, t.k), PrioPick(t.ps, t.k)), PrioTurn(t).ps, e)
  {
    var seen, pick := Seen(t.ps, t.k), PrioPick(t.ps, t.k);
    assert IsHighest(seen, pick, |t.ps|);
    assert CanRun(seen, e);
  }

  // The `j`th of the calls to come runs `e`.
  ghost predicate RunsAt(t: Turn, e: nat, j: nat)
    requires Fits(t)
  {
    PrioPick(PrioTurns(t, j).ps, PrioTurns(t, j).k) == e
  }

  lemma {:induction false} StillWaiting(t: Turn, e: nat, n: nat)
    requires Fits(t) && e < |t.ps| && CanRun(t.ps, e) && t.k < BOOST_CYCLES
    requires forall j :: 0 <= j < n ==> !RunsAt(t, e, j)
    ensures var r := PrioTurns(t, n); |r.ps| == |t.ps| && CanRun(r.ps, e) && r.k == (t.k + n) % BOOST_CYCLES
  {
    hide Between, PrioTurn, PrioPick;
    if n > 0 {
      StillWaiting(t, e, n - 1);
      OneMore(t, n - 1);
      assert !RunsAt(t, e, n - 1);
      PassedOver(PrioTurns(t, n - 1), e);
      NextCount(PrioTurns(t, n - 1), t.k, n - 1);
    }
  }

  lemma NextCount(t: Turn, k: nat, n: nat)
    requires Fits(t) && t.k == (k + n) % BOOST_CYCLES
    ensures PrioTurn(t).k == (k + n + 1) % BOOST_CYCLES
  {
    if t.k + 1 < BOOST_CYCLES {
      NextCounter(k, n);
    } else {
      Wrapped(k, n);
    }
  }

  lemma {:induction false} TurnsKeep(t: Turn, n: nat)
    requires Fits(t) && AtMostDefault(t.ps)
    ensures AtMostDefault(PrioTurns(t, n).ps) && Live(PrioTurns(t, n).ps) == Live(t.ps)
    decreases n
  {
    hide PrioTurn, AtMostDefault, Live;
    if n > 0 {
      PrioTurnEffect(t);
      TurnsKeep(PrioTurn(t), n - 1);
    }
  }

  /** The priority scheduler in a closed loop: with at most BOOST_CYCLES live environments,
      one that waits after any number of calls is run by one of the next
      2 * BOOST_CYCLES - 1. */
  lemma PrioTurnsFair(t: Turn, m: nat, e: nat)
    requires Fits(t) && t.k < BOOST_CYCLES && AtMostDefault(t.ps) && |Live(t.ps)| <= BOOST_CYCLES
    requires var now := PrioTurns(t, m); e < |now.ps| && CanRun(now.ps, e) && now.k < BOOST_CYCLES
    ensures exists j :: 0 < j < 2 * BOOST_CYCLES && PrioTurns(PrioTurns(t, m), j).cur == e
  {
    hide PrioTurn, PrioPick, AtMostDefault, Live, PrioRun, CanRun;
    var now := PrioTurns(t, m);
    TurnsKeep(t, m);
    var views := seq(2 * BOOST_CYCLES - 1, i requires 0 <= i => PrioTurns(now, i).ps);
    if j: nat :| j < |views| && RunsAt(now, e, j) {
      OneMore(now, j);
      PickedRuns(PrioTurns(now, j));
      assert PrioTurns(now, j + 1).cur == e;
    } else {
      NeverRun(now, e, views);
      PriorityFair(views, now.k, e);
    }
  }

  // The calls that pass a waiting environment over are a run that `PriorityFair` speaks of.
  lemma NeverRun(t: Turn, e: nat, views: seq<seq<Proc>>)
    requires Fits(t) && t.k < BOOST_CYCLES && e < |t.ps| && CanRun(t.ps, e)
    requires forall i :: 0 <= i < |views| ==> views[i] == PrioTurns(t, i).ps && !RunsAt(t, e, i)
    ensures PrioRun(views, t.k, e)
    ensures forall i :: 0 <= i < |views| ==> PrioPick(views[i], (t.k + i) % BOOST_CYCLES) != e
  {
    hide Between, PrioTurn, PrioPick, Lowered, Seen, CanRun, RunsAt, PrioTurns;
    forall i | 0 <= i < |views|
      ensures e < |views[i]| && CanRun(views[i], e) && PrioPick(views[i], (t.k + i) % BOOST_CYCLES) != e
      ensures i < |views| - 1 ==>
        Between(Lowered(Seen(views[i], (t.k + i) % BOOST_CYCLES), PrioPick(views[i], (t.k + i) % BOOST_CYCLES)),
                views[i + 1], e)
    {
      PassedOverAt(t, e, i);
    }
  }

  lemma PassedOverAt(t: Turn, e: nat, i: nat)
    requires Fits(t) && t.k < BOOST_CYCLES && e < |t.ps| && CanRun(t.ps, e)
    requires forall j :: 0 <= j <= i ==> !RunsAt(t, e, j)
    ensures var r, k := PrioTurns(t, i), (t.k + i) % BOOST_CYCLES;
      && e < |r.ps| && CanRun(r.ps, e) && PrioPick(r.ps, k) != e
      && Between(Lowered(Seen(r.ps, k), PrioPick(r.ps, k)), PrioTurns(t, i + 1).ps, e)
  {
    hide Between, PrioTurn, PrioPick, Lowered, Seen, CanRun;
    StillWaiting(t, e, i);
    OneMore(t, i);
    assert !RunsAt(t, e, i);
    PassedOver(PrioTurns(t, i), e);
  }

  lemma PickedRuns(t: Turn)
    requires Fits(t) && PrioPick(t.ps, t.k) != NULL
    ensures PrioTurn(t).cur == PrioPick(t.ps, t.k)
  {
  }

  // ---------------------------------------------------------------- the counters

  function TimesBoosted(ps: seq<Proc>): nat {
    if ps == [] then 0 else TimesBoosted(ps[..|ps| - 1]) + ps[|ps| - 1].boosted
  }

  lemma {:induction false} BoostCounts(ps: seq<Proc>, n: nat)
    requires n <= |ps|
    ensures TimesBoosted(Boost(ps)[..n]) == TimesBoosted(ps[..n]) + Raised(ps, n)
  {
    if n > 0 {
      BoostCounts(ps, n - 1);
      assert ps[..n][..n - 1] == ps[..n - 1] && Boost(ps)[..n][..n - 1] == Boost(ps)[..n - 1];
    }
  }

  lemma {:induction false} SameCounts(ps: seq<Proc>, qs: seq<Proc>)
    requires |ps| == |qs| && forall x :: 0 <= x < |ps| ==> ps[x].boosted == qs[x].boosted
    ensures TimesBoosted(ps) == TimesBoosted(qs)
  {
    if ps != [] {
      SameCounts(ps[..|ps| - 1], qs[..|ps| - 1]);
    }
  }

  /** The statistics agree: a call adds to the environments' own boost counters what it adds
      to the total. */
  lemma StatisticsAgree(t: Turn)
    requires Fits(t)
    ensures TimesBoosted(PrioTurn(t).ps) ==
      TimesBoosted(t.ps) + if t.k + 1 >= BOOST_CYCLES then Raised(t.ps, |t.ps|) else 0
  {
    var seen := Seen(t.ps, t.k);
    BoostCounts(t.ps, |t.ps|);
    assert t.ps[..|t.ps|] == t.ps && Boost(t.ps)[..|t.ps|] == Boost(t.ps);
    SameCounts(seen, PrioTurn(t).ps);
  }
}
