/** The process-chain prime sieve of lab/primes.c: a generator and filters connected by
    pipes, in every interleaving. */
module Sieve {

  // ---------------------------------------------------------------- streams of numbers

  // lo, lo + 1, .., hi
  function Range(lo: int, hi: int): seq<int>
    decreases hi - lo
  {
    if hi < lo then [] else Range(lo, hi - 1) + [hi]
  }

  // What a filter for `p` lets through.
  function Filter(s: seq<int>, p: int): seq<int>
    requires p != 0
  {
    if s == [] then []
    else Filter(s[..|s| - 1], p) + (if s[|s| - 1] % p != 0 then [s[|s| - 1]] else [])
  }

  predicate Positive(s: seq<int>) { forall i :: 0 <= i < |s| ==> s[i] >= 2 }

  // What the filter that reads `s` writes.
  function Sift(s: seq<int>): seq<int>
    requires Positive(s)
  {
    if s == [] then [] else Filter(s[1..], s[0])
  }

  lemma {:induction false} FilterPositive(s: seq<int>, p: int)
    requires Positive(s) && p != 0
    ensures Positive(Filter(s, p)) && |Filter(s, p)| <= |s|
  {
    if s != [] {
      FilterPositive(s[..|s| - 1], p);
    }
  }

  lemma {:induction false} RangePositive(hi: int)
    ensures Positive(Range(2, hi))
    decreases hi
  {
    if hi >= 2 {
      RangePositive(hi - 1);
    }
  }

  // What process number `k` writes in all: the generator for 0.
  function Stream(k: nat, n: int): (s: seq<int>)
    ensures Positive(s)
  {
    RangePositive(n);
    if k == 0 then Range(2, n)
    else
      var s := Stream(k - 1, n);
      if s != [] then FilterPositive(s[1..], s[0]); Sift(s) else []
  }

  // ---------------------------------------------------------------- processes

  datatype Pc =
    | Gen(next: int)               // main, before writing `next`
    | Forked                       // before close(fds[WRITE]) of the inherited end
    | First                        // before the first read
    | Got(prime: int)              // before printf
    | Printed(prime: int)          // before pipe and fork
    | Loop(prime: int)             // before read in the loop
    | Have(prime: int, num: int)   // after it
    | Closing(prime: int)          // before close(fds[WRITE])
    | Waiting                      // in wait
    | Exited

  // `taken` and `given` record what the process has read and written so far.
  datatype Proc = Proc(pc: Pc, taken: seq<int>, given: seq<int>)

  // `writers` counts the open copies of the write end.
  datatype Pipe = Pipe(queue: seq<int>, writers: nat)

  // Pipe number `k` leads from process `k` to process `k + 1`.
  datatype Chain = Chain(procs: seq<Proc>, pipes: seq<Pipe>, output: seq<int>)

  predicate Shaped(c: Chain) { |c.procs| == |c.pipes| + 1 }

  // read() does not block: there is a number, or no writer left.
  predicate CanRead(p: Pipe) { p.queue != [] || p.writers == 0 }

  /** Process `k` can take a step; pipes hold `cap` numbers, and a write to a full one
      blocks. */
  predicate Enabled(c: Chain, k: nat, n: int, cap: nat) {
    Shaped(c) && k < |c.procs| &&
    match c.procs[k].pc
    case Gen(i) => k < |c.pipes| && c.pipes[k].writers > 0 && (i <= n ==> |c.pipes[k].queue| < cap)
    case First => 0 < k && CanRead(c.pipes[k - 1])
    case Loop(p) => 0 < k && CanRead(c.pipes[k - 1]) && p != 0
    case Have(p, num) => p != 0 && k < |c.pipes| && (num % p != 0 ==> |c.pipes[k].queue| < cap)
    case Forked => 0 < k && c.pipes[k - 1].writers > 0
    case Closing(_) => k < |c.pipes| && c.pipes[k].writers > 0
    case Waiting => k + 1 < |c.procs| && c.procs[k + 1].pc == Exited
    case Got(_) => true
    case Printed(_) => k + 1 == |c.procs|
    case Exited => false
  }

  function SetProc(c: Chain, k: nat, p: Proc): Chain
    requires k < |c.procs|
  {
    c.(procs := c.procs[k := p])
  }

  function Put(c: Chain, k: nat, x: int): Chain
    requires k < |c.pipes|
  {
    c.(pipes := c.pipes[k := c.pipes[k].(queue := c.pipes[k].queue + [x])])
  }

  function Take(c: Chain, k: nat): Chain
    requires k < |c.pipes| && c.pipes[k].queue != []
  {
    c.(pipes := c.pipes[k := c.pipes[k].(queue := c.pipes[k].queue[1..])])
  }

  function Close(c: Chain, k: nat): Chain
    requires k < |c.pipes| && c.pipes[k].writers > 0
  {
    c.(pipes := c.pipes[k := c.pipes[k].(writers := c.pipes[k].writers - 1)])
  }

  function Step(c: Chain, k: nat, n: int, cap: nat): Chain
    requires Enabled(c, k, n, cap)
  {
    var me := c.procs[k];
    match me.pc
    case Gen(i) =>
      if i <= n then SetProc(Put(c, k, i), k, Proc(Gen(i + 1), me.taken, me.given + [i]))
      else SetProc(Close(c, k), k, me.(pc := Waiting))
    case Forked => SetProc(Close(c, k - 1), k, me.(pc := First))
    case First =>
      if c.pipes[k - 1].queue == [] then SetProc(c, k, me.(pc := Exited))
      else
        var x := c.pipes[k - 1].queue[0];
        SetProc(Take(c, k - 1), k, Proc(Got(x), me.taken + [x], me.given))
    case Got(p) => SetProc(c, k, me.(pc := Printed(p))).(output := c.output + [p])
    case Printed(p) =>
      SetProc(c, k, me.(pc := Loop(p))).(
        procs := c.procs[k := me.(pc := Loop(p))] + [Proc(Forked, [], [])],
        pipes := c.pipes + [Pipe([], 2)])
    case Loop(p) =>
      if c.pipes[k - 1].queue == [] then SetProc(c, k, me.(pc := Closing(p)))
      else
        var x := c.pipes[k - 1].queue[0];
        SetProc(Take(c, k - 1), k, Proc(Have(p, x), me.taken + [x], me.given))
    case Have(p, num) =>
      if num % p != 0 then SetProc(Put(c, k, num), k, Proc(Loop(p), me.taken, me.given + [num]))
      else SetProc(c, k, me.(pc := Loop(p)))
    case Closing(p) => SetProc(Close(c, k), k, me.(pc := Waiting))
    case Waiting => SetProc(c, k, me.(pc := Exited))
    case Exited => c
  }

  // ---------------------------------------------------------------- the invariant

  // Its write end is still open.
  predicate Open(pc: Pc) { pc.Gen? || pc.Loop? || pc.Have? || pc.Closing? }

  // It has forked the next process.
  predicate Parent(p: Proc) { Open(p.pc) || p.pc == Waiting || (p.pc == Exited && p.taken != []) }

  // The generator.
  predicate FirstOk(p: Proc, n: int) {
    p.taken == [] &&
    match p.pc
    case Gen(i) => 2 <= i && (i <= n + 1 || i == 2) && p.given == Range(2, i - 1)
    case Waiting => p.given == Range(2, n)
    case Exited => p.given == Range(2, n)
    case _ => false
  }

  // A filter whose whole input will be `s`.
  predicate FilterOk(p: Proc, s: seq<int>)
    requires Positive(s)
  {
    p.taken <= s &&
    match p.pc
    case Forked => p.taken == [] && p.given == []
    case First => p.taken == [] && p.given == []
    case Got(prime) => p.taken == [prime] && p.given == []
    case Printed(prime) => p.taken == [prime] && p.given == []
    case Loop(prime) => p.taken != [] && p.taken[0] == prime && p.given == Sift(p.taken)
    case Have(prime, num) =>
      && |p.taken| >= 2 && p.taken[0] == prime && p.taken[|p.taken| - 1] == num
      && p.given == Sift(p.taken[..|p.taken| - 1])
    case Closing(prime) => p.taken != [] && p.taken[0] == prime && p.taken == s && p.given == Sift(s)
    case Waiting => p.taken != [] && p.taken == s && p.given == Sift(s)
    case Exited => p.taken == s && p.given == Sift(s)
    case Gen(_) => false
  }

  // A pipe with the processes at its ends.
  predicate LinkOk(left: Proc, pipe: Pipe, right: Proc) {
    && right.taken + pipe.queue == left.given
    && pipe.writers == (if Open(left.pc) then 1 else 0) + (if right.pc == Forked then 1 else 0)
    && (right.pc == Exited || right.pc == Waiting || right.pc.Closing? ==> left.pc == Waiting || left.pc == Exited)
  }

  ghost predicate Inv(c: Chain, n: int) {
    && Shaped(c) && |c.procs| >= 2 && FirstOk(c.procs[0], n)
    && (forall k :: 1 <= k < |c.procs| ==> FilterOk(c.procs[k], Stream(k - 1, n)))
    && (forall k :: 0 <= k < |c.pipes| ==> LinkOk(c.procs[k], c.pipes[k], c.procs[k + 1]))
    && (forall k :: 1 <= k < |c.procs| - 1 ==> Parent(c.procs[k]) && c.procs[k].taken != [])
    && !Parent(c.procs[|c.procs| - 1])
    && OutputOk(c)
  }

  // Each filter that has a child, or is about to fork it, has printed its first number.
  predicate OutputOk(c: Chain)
    requires |c.procs| >= 2
  {
    var last := |c.procs| - 1;
    && |c.output| == last - 1 + (if c.procs[last].pc.Printed? then 1 else 0)
    && forall k :: 1 <= k <= |c.output| ==> c.procs[k].taken != [] && c.output[k - 1] == c.procs[k].taken[0]
  }

  predicate Start(c: Chain) {
    c == Chain([Proc(Gen(2), [], []), Proc(Forked, [], [])], [Pipe([], 2)], [])
  }

  lemma StartInv(c: Chain, n: int)
    requires Start(c)
    ensures Inv(c, n)
  {
    assert Range(2, 1) == [];
  }

  // ---------------------------------------------------------------- each step keeps it

  lemma {:induction false} RangePrefix(i: int, n: int)
    requires i <= n
    ensures Range(2, i) <= Range(2, n)
    decreases n - i
  {
    if i < n {
      RangePrefix(i, n - 1);
    }
  }

  lemma {:induction false} FilterPrefix(a: seq<int>, b: seq<int>, p: int)
    requires a <= b && p != 0
    ensures Filter(a, p) <= Filter(b, p)
    decreases |b|
  {
    if |a| < |b| {
      FilterPrefix(a, b[..|b| - 1], p);
    } else {
      assert a == b;
    }
  }

  lemma SiftPrefix(a: seq<int>, b: seq<int>)
    requires Positive(b) && a <= b
    ensures Positive(a) && Sift(a) <= Sift(b)
  {
    if a != [] {
      FilterPrefix(a[1..], b[1..], b[0]);
    }
  }

  lemma SiftSnoc(t: seq<int>, x: int)
    requires t != [] && Positive(t) && x >= 2
    ensures Positive(t + [x]) && Sift(t + [x]) == Sift(t) + if x % t[0] != 0 then [x] else []
  {
    assert (t + [x])[1..] == t[1..] + [x];
    assert (t[1..] + [x])[..|t[1..]|] == t[1..];
  }

  lemma StreamStep(k: nat, n: int)
    ensures Stream(0, n) == Range(2, n)
    ensures k > 0 ==> Stream(k, n) == Sift(Stream(k - 1, n))
  {
    hide Sift, Range;
    if k > 0 && Stream(k - 1, n) == [] {
      SiftNothing();
    }
  }

  lemma SiftNothing()
    ensures Sift([]) == []
  {
  }

  lemma FirstGiven(p: Proc, n: int)
    requires FirstOk(p, n)
    ensures p.given <= Range(2, n)
    ensures p.pc == Waiting || p.pc == Exited ==> p.given == Range(2, n)
  {
    if p.pc.Gen? && p.pc.next <= n + 1 {
      RangePrefix(p.pc.next - 1, n);
    }
  }

  lemma FilterGiven(p: Proc, s: seq<int>)
    requires Positive(s) && FilterOk(p, s)
    ensures p.given <= Sift(s)
    ensures p.pc == Waiting || p.pc == Exited ==> p.given == Sift(s)
  {
    hide Sift;
    SiftPrefix(p.taken, s);
    if p.pc.Have? {
      SiftPrefix(p.taken[..|p.taken| - 1], s);
    }
  }

  // What a process has written begins what it will write in all; the rest comes before it closes.
  lemma GivenPrefix(c: Chain, k: nat, n: int)
    requires Inv(c, n) && k < |c.procs|
    ensures c.procs[k].given <= Stream(k, n)
    ensures c.procs[k].pc == Waiting || c.procs[k].pc == Exited ==> c.procs[k].given == Stream(k, n)
  {
    hide FirstOk, FilterOk, LinkOk, Sift, OutputOk, Stream;
    StreamStep(k, n);
    if k == 0 {
      FirstGiven(c.procs[0], n);
    } else {
      FilterGiven(c.procs[k], Stream(k - 1, n));
    }
  }

  ghost predicate ProcOk(c: Chain, k: nat, n: int)
    requires k < |c.procs|
  {
    if k == 0 then FirstOk(c.procs[0], n) else FilterOk(c.procs[k], Stream(k - 1, n))
  }

  // A step of process `k` that leaves the other processes and pipes alone.
  ghost predicate Nearby(c: Chain, d: Chain, k: nat, n: int)
    requires Shaped(c) && k < |c.procs|
  {
    && Shaped(d) && |d.procs| == |c.procs| && ProcOk(d, k, n)
    && (forall j :: 0 <= j < |c.procs| && j != k ==> d.procs[j] == c.procs[j])
    && (forall j :: 0 <= j < |c.pipes| && j != k && j + 1 != k ==> d.pipes[j] == c.pipes[j])
    && (k > 0 ==> LinkOk(d.procs[k - 1], d.pipes[k - 1], d.procs[k]))
    && (k < |c.pipes| ==> LinkOk(d.procs[k], d.pipes[k], d.procs[k + 1]))
    && (k > 0 ==> (Parent(d.procs[k]) <==> Parent(c.procs[k]))) && c.procs[k].taken <= d.procs[k].taken
  }

  lemma NearbyLinks(c: Chain, d: Chain, k: nat, n: int)
    requires Inv(c, n) && k < |c.procs| && Nearby(c, d, k, n)
    ensures forall j :: 0 <= j < |d.pipes| ==> LinkOk(d.procs[j], d.pipes[j], d.procs[j + 1])
  {
    hide FilterOk, FirstOk, LinkOk, OutputOk, ProcOk;
    forall j | 0 <= j < |d.pipes|
      ensures LinkOk(d.procs[j], d.pipes[j], d.procs[j + 1])
    {
      assert LinkOk(c.procs[j], c.pipes[j], c.procs[j + 1]);
    }
  }

  lemma NearbyProcs(c: Chain, d: Chain, k: nat, n: int)
    requires Inv(c, n) && k < |c.procs| && Nearby(c, d, k, n)
    ensures FirstOk(d.procs[0], n)
    ensures forall j :: 1 <= j < |d.procs| ==> FilterOk(d.procs[j], Stream(j - 1, n))
    ensures forall j :: 1 <= j < |d.procs| - 1 ==> Parent(d.procs[j]) && d.procs[j].taken != []
    ensures !Parent(d.procs[|d.procs| - 1])
  {
    hide FilterOk, FirstOk, LinkOk, OutputOk, Parent;
    forall j | 1 <= j < |d.procs|
      ensures FilterOk(d.procs[j], Stream(j - 1, n))
      ensures j < |d.procs| - 1 ==> Parent(d.procs[j]) && d.procs[j].taken != []
    {
      assert FilterOk(c.procs[j], Stream(j - 1, n));
    }
  }

  lemma NearbyKeeps(c: Chain, d: Chain, k: nat, n: int)
    requires Inv(c, n) && k < |c.procs| && Nearby(c, d, k, n)
    requires d.output == c.output && (d.procs[k].pc.Printed? <==> c.procs[k].pc.Printed?)
    ensures Inv(d, n)
  {
    hide FilterOk, FirstOk, LinkOk, Parent, ProcOk, OutputOk;
    NearbyLinks(c, d, k, n);
    NearbyProcs(c, d, k, n);
    OutputStays(c, d, k);
  }

  lemma OutputStays(c: Chain, d: Chain, k: nat)
    requires |c.procs| == |d.procs| >= 2 && OutputOk(c) && k < |c.procs| && d.output == c.output
    requires forall j :: 0 <= j < |c.procs| && j != k ==> d.procs[j] == c.procs[j]
    requires (d.procs[k].pc.Printed? <==> c.procs[k].pc.Printed?) && c.procs[k].taken <= d.procs[k].taken
    ensures OutputOk(d)
  {
    forall j | 1 <= j <= |d.output|
      ensures d.procs[j].taken != [] && d.output[j - 1] == d.procs[j].taken[0]
    {
      assert c.procs[j].taken != [];
    }
  }

  lemma Here(c: Chain, k: nat, n: int)
    requires Inv(c, n) && k < |c.procs|
    ensures Shaped(c) && ProcOk(c, k, n)
    ensures k > 0 ==> LinkOk(c.procs[k - 1], c.pipes[k - 1], c.procs[k])
    ensures k < |c.pipes| ==> LinkOk(c.procs[k], c.pipes[k], c.procs[k + 1])
  {
    hide FilterOk, FirstOk, OutputOk;
    if k > 0 {
      assert LinkOk(c.procs[k - 1], c.pipes[k - 1], c.procs[k - 1 + 1]);
    }
  }

  // The next number in the pipe goes on with the input.
  lemma NextNumber(c: Chain, k: nat, n: int)
    requires Inv(c, n) && 0 < k < |c.procs| && Shaped(c) && c.pipes[k - 1].queue != []
    ensures var x, q := c.pipes[k - 1].queue[0], c.pipes[k - 1].queue;
      && c.procs[k].taken + [x] <= Stream(k - 1, n) && x >= 2
      && c.procs[k].taken + [x] + q[1..] == c.procs[k - 1].given
  {
    hide FilterOk, FirstOk, OutputOk, Stream;
    Here(c, k, n);
    GivenPrefix(c, k - 1, n);
    var t, q := c.procs[k].taken, c.pipes[k - 1].queue;
    assert t + q == t + [q[0]] + q[1..];
    assert (t + q)[|t|] == q[0] == Stream(k - 1, n)[|t|];
  }

  // At end of file the process has read everything.
  lemma EndOfFile(c: Chain, k: nat, n: int)
    requires Inv(c, n) && 0 < k < |c.procs| && Shaped(c)
    requires c.pipes[k - 1].queue == [] && c.pipes[k - 1].writers == 0
    ensures c.procs[k].taken == Stream(k - 1, n) == c.procs[k - 1].given
    ensures c.procs[k - 1].pc == Waiting || c.procs[k - 1].pc == Exited
  {
    hide FilterOk, OutputOk, Stream;
    Here(c, k, n);
    GivenPrefix(c, k - 1, n);
    hide FirstOk;
    assert !Open(c.procs[k - 1].pc);
    assert k - 1 > 0 ==> Parent(c.procs[k - 1]);
    assert k - 1 == 0 ==> FirstOk(c.procs[0], n);
    Generator(c.procs[0], n);
  }

  lemma Generator(p: Proc, n: int)
    requires FirstOk(p, n)
    ensures p.pc.Gen? || p.pc == Waiting || p.pc == Exited
    ensures p.taken == []
  {
  }

  // Process `k` and the pipes at its sides replaced.
  function Around(c: Chain, k: nat, p: Proc, left: Pipe, right: Pipe): Chain
    requires Shaped(c) && k < |c.procs|
  {
    var pipes := if k > 0 then c.pipes[k - 1 := left] else c.pipes;
    Chain(c.procs[k := p], if k < |pipes| then pipes[k := right] else pipes, c.output)
  }

  function LeftOf(c: Chain, k: nat): Pipe
    requires Shaped(c) && k < |c.procs|
  {
    if k > 0 then c.pipes[k - 1] else Pipe([], 0)
  }

  function RightOf(c: Chain, k: nat): Pipe
    requires Shaped(c) && k < |c.procs|
  {
    if k < |c.pipes| then c.pipes[k] else Pipe([], 0)
  }

  lemma AroundNearby(c: Chain, k: nat, p: Proc, left: Pipe, right: Pipe, n: int)
    requires Shaped(c) && k < |c.procs|
    requires if k == 0 then FirstOk(p, n) else FilterOk(p, Stream(k - 1, n))
    requires k > 0 ==> LinkOk(c.procs[k - 1], left, p)
    requires k < |c.pipes| ==> LinkOk(p, right, c.procs[k + 1])
    requires (k > 0 ==> (Parent(p) <==> Parent(c.procs[k]))) && c.procs[k].taken <= p.taken
    ensures Nearby(c, Around(c, k, p, left, right), k, n)
  {
    hide FirstOk, FilterOk, LinkOk, Parent, Stream;
  }

  lemma GenLocal(p: Proc, pipe: Pipe, right: Proc, n: int)
    requires FirstOk(p, n) && LinkOk(p, pipe, right) && p.pc.Gen?
    ensures var i := p.pc.next;
      var p' := if i <= n then Proc(Gen(i + 1), p.taken, p.given + [i]) else p.(pc := Waiting);
      && FirstOk(p', n)
      && (i <= n ==> LinkOk(p', pipe.(queue := pipe.queue + [i]), right))
      && (i > n && pipe.writers > 0 ==> LinkOk(p', pipe.(writers := pipe.writers - 1), right))
  {
    assert p.pc.next <= n ==> Range(2, p.pc.next) == Range(2, p.pc.next - 1) + [p.pc.next];
    assert p.pc.next > n ==> Range(2, p.pc.next - 1) == Range(2, n);
    assert right.taken + (pipe.queue + [p.pc.next]) == right.taken + pipe.queue + [p.pc.next];
  }

  lemma GenStep(c: Chain, n: int, cap: nat)
    requires Inv(c, n) && Enabled(c, 0, n, cap)
    ensures Nearby(c, Step(c, 0, n, cap), 0, n)
  {
    hide Inv, FirstOk, FilterOk, LinkOk, OutputOk, Stream, Nearby, Range;
    Here(c, 0, n);
    Generator(c.procs[0], n);
    var p, r := c.procs[0], c.pipes[0];
    if p.pc == Waiting {
      WaitLocal(p, r, c.procs[1], n);
      AroundNearby(c, 0, p.(pc := Exited), LeftOf(c, 0), r, n);
      assert Step(c, 0, n, cap) == Around(c, 0, p.(pc := Exited), LeftOf(c, 0), r);
    } else {
      GenLocal(p, r, c.procs[1], n);
      var i := p.pc.next;
      var p' := if i <= n then Proc(Gen(i + 1), p.taken, p.given + [i]) else p.(pc := Waiting);
      var r' := if i <= n then r.(queue := r.queue + [i]) else r.(writers := r.writers - 1);
      AroundNearby(c, 0, p', LeftOf(c, 0), r', n);
      assert Step(c, 0, n, cap) == Around(c, 0, p', LeftOf(c, 0), r');
    }
  }

  lemma WaitLocal(p: Proc, pipe: Pipe, right: Proc, n: int)
    requires FirstOk(p, n) && LinkOk(p, pipe, right) && p.pc == Waiting
    ensures FirstOk(p.(pc := Exited), n) && LinkOk(p.(pc := Exited), pipe, right)
  {
  }

  // A number read becomes part of the input, and of what is in hand.
  lemma TakeLocal(left: Proc, pipe: Pipe, p: Proc, s: seq<int>, pc: Pc)
    requires Positive(s) && FilterOk(p, s) && LinkOk(left, pipe, p) && pipe.queue != []
    requires p.taken + [pipe.queue[0]] <= s && p.taken + [pipe.queue[0]] + pipe.queue[1..] == left.given
    requires if p.pc == First then pc == Got(pipe.queue[0]) else p.pc.Loop? && pc == Have(p.pc.prime, pipe.queue[0])
    ensures var p' := Proc(pc, p.taken + [pipe.queue[0]], p.given);
      FilterOk(p', s) && LinkOk(left, pipe.(queue := pipe.queue[1..]), p') && (Parent(p') <==> Parent(p))
  {
    hide Sift;
    assert (p.taken + [pipe.queue[0]])[..|p.taken|] == p.taken;
  }

  lemma EofLocal(left: Proc, pipe: Pipe, p: Proc, s: seq<int>, pc: Pc)
    requires Positive(s) && FilterOk(p, s) && LinkOk(left, pipe, p) && p.taken == s
    requires left.pc == Waiting || left.pc == Exited
    requires if p.pc == First then pc == Exited else p.pc.Loop? && pc == Closing(p.pc.prime)
    ensures FilterOk(p.(pc := pc), s) && LinkOk(left, pipe, p.(pc := pc)) && (Parent(p.(pc := pc)) <==> Parent(p))
  {
    SiftNothing();
    hide Sift;
  }

  lemma ReadStep(c: Chain, k: nat, n: int, cap: nat)
    requires Inv(c, n) && Enabled(c, k, n, cap) && 0 < k && (c.procs[k].pc == First || c.procs[k].pc.Loop?)
    ensures Nearby(c, Step(c, k, n, cap), k, n)
  {
    hide FilterOk, FirstOk, OutputOk, Stream, Nearby, Inv, Parent;
    Here(c, k, n);
    var p, q := c.procs[k], c.pipes[k - 1].queue;
    if q != [] {
      NextNumber(c, k, n);
      var pc := if p.pc == First then Got(q[0]) else Have(p.pc.prime, q[0]);
      TakeLocal(c.procs[k - 1], c.pipes[k - 1], p, Stream(k - 1, n), pc);
      var p', l' := Proc(pc, p.taken + [q[0]], p.given), c.pipes[k - 1].(queue := q[1..]);
      SameRight(c, k, p');
      AroundNearby(c, k, p', l', RightOf(c, k), n);
      assert Step(c, k, n, cap) == Around(c, k, p', l', RightOf(c, k));
    } else {
      EndOfFile(c, k, n);
      var pc := if p.pc == First then Exited else Closing(p.pc.prime);
      EofLocal(c.procs[k - 1], c.pipes[k - 1], p, Stream(k - 1, n), pc);
      SameRight(c, k, p.(pc := pc));
      AroundNearby(c, k, p.(pc := pc), LeftOf(c, k), RightOf(c, k), n);
      assert Step(c, k, n, cap) == Around(c, k, p.(pc := pc), LeftOf(c, k), RightOf(c, k));
    }
  }

  // The pipe to the child does not see what its writer reads.
  lemma SameRight(c: Chain, k: nat, p: Proc)
    requires Shaped(c) && 0 < k < |c.procs| && p.given == c.procs[k].given
    requires (Open(p.pc) <==> Open(c.procs[k].pc)) && c.procs[k].pc != Waiting && c.procs[k].pc != Exited
    ensures k < |c.pipes| && LinkOk(c.procs[k], c.pipes[k], c.procs[k + 1]) ==> LinkOk(p, c.pipes[k], c.procs[k + 1])
  {
  }

  lemma HaveLocal(p: Proc, pipe: Pipe, right: Proc, s: seq<int>)
    requires Positive(s) && FilterOk(p, s) && LinkOk(p, pipe, right) && p.pc.Have?
    ensures p.pc.prime != 0
    ensures var prime, num := p.pc.prime, p.pc.num;
      if num % prime != 0
      then var p' := Proc(Loop(prime), p.taken, p.given + [num]);
        FilterOk(p', s) && LinkOk(p', pipe.(queue := pipe.queue + [num]), right)
      else FilterOk(p.(pc := Loop(prime)), s) && LinkOk(p.(pc := Loop(prime)), pipe, right)
  {
    hide Sift;
    var t := p.taken[..|p.taken| - 1];
    assert p.taken == t + [p.pc.num];
    SiftSnoc(t, p.pc.num);
  }

  lemma HaveStep(c: Chain, k: nat, n: int, cap: nat)
    requires Inv(c, n) && Enabled(c, k, n, cap) && 0 < k && c.procs[k].pc.Have?
    ensures Nearby(c, Step(c, k, n, cap), k, n)
  {
    hide FilterOk, FirstOk, OutputOk, Stream, Nearby, Inv;
    Here(c, k, n);
    var p, r := c.procs[k], c.pipes[k];
    HaveLocal(p, r, c.procs[k + 1], Stream(k - 1, n));
    var prime, num := p.pc.prime, p.pc.num;
    var p' := Proc(Loop(prime), p.taken, if num % prime != 0 then p.given + [num] else p.given);
    var r' := if num % prime != 0 then r.(queue := r.queue + [num]) else r;
    AroundNearby(c, k, p', LeftOf(c, k), r', n);
    assert Step(c, k, n, cap) == Around(c, k, p', LeftOf(c, k), r');
  }

  lemma EndStep(c: Chain, k: nat, n: int, cap: nat)
    requires Inv(c, n) && Enabled(c, k, n, cap) && 0 < k
    requires c.procs[k].pc == Forked || c.procs[k].pc.Closing? || c.procs[k].pc == Waiting
    ensures Nearby(c, Step(c, k, n, cap), k, n)
  {
    hide FirstOk, OutputOk, Stream, Nearby, Inv, Sift;
    Here(c, k, n);
    var p := c.procs[k];
    var p' := p.(pc := if p.pc == Forked then First else if p.pc == Waiting then Exited else Waiting);
    var l' := if p.pc == Forked then c.pipes[k - 1].(writers := c.pipes[k - 1].writers - 1) else c.pipes[k - 1];
    var r' := if p.pc.Closing? then c.pipes[k].(writers := c.pipes[k].writers - 1) else RightOf(c, k);
    assert LinkOk(c.procs[k - 1], l', p');
    AroundNearby(c, k, p', l', r', n);
    assert Step(c, k, n, cap) == Around(c, k, p', l', r');
  }

  // Printing and forking are done by the last process.
  lemma PrintStep(c: Chain, k: nat, n: int, cap: nat)
    requires Inv(c, n) && Enabled(c, k, n, cap) && c.procs[k].pc.Got?
    ensures Inv(Step(c, k, n, cap), n)
  {
    hide Stream, Sift, FirstOk;
    Here(c, k, n);
    Generator(c.procs[0], n);
    var d := SetProc(c, k, c.procs[k].(pc := Printed(c.procs[k].pc.prime)));
    assert d == Around(c, k, d.procs[k], LeftOf(c, k), RightOf(c, k));
    AroundNearby(c, k, d.procs[k], LeftOf(c, k), RightOf(c, k), n);
    hide FilterOk, LinkOk, OutputOk;
    NearbyLinks(c, d, k, n);
    NearbyProcs(c, d, k, n);
    Prints(c, k, Step(c, k, n, cap));
  }

  lemma Prints(c: Chain, k: nat, d: Chain)
    requires |c.procs| >= 2 && OutputOk(c) && k == |c.procs| - 1 && |d.procs| == |c.procs|
    requires c.procs[k].pc.Got? && c.procs[k].taken == [c.procs[k].pc.prime]
    requires d.procs[k] == c.procs[k].(pc := Printed(c.procs[k].pc.prime))
    requires d.output == c.output + [c.procs[k].pc.prime]
    requires forall j :: 0 <= j < k ==> d.procs[j] == c.procs[j]
    ensures OutputOk(d)
  {
    forall j | 1 <= j <= |d.output|
      ensures d.procs[j].taken != [] && d.output[j - 1] == d.procs[j].taken[0]
    {
      if j < k {
        assert c.procs[j].taken != [];
      }
    }
  }

  function WithChild(c: Chain, k: nat, p: Proc): Chain
    requires k < |c.procs|
  {
    Chain(c.procs[k := p] + [Proc(Forked, [], [])], c.pipes + [Pipe([], 2)], c.output)
  }

  lemma ForkProcs(c: Chain, k: nat, p: Proc, n: int)
    requires Inv(c, n) && 0 < k && k + 1 == |c.procs| && FilterOk(p, Stream(k - 1, n)) && Parent(p) && p.taken != []
    ensures var d := WithChild(c, k, p);
      && FirstOk(d.procs[0], n) && !Parent(d.procs[|d.procs| - 1])
      && (forall j :: 1 <= j < |d.procs| ==> FilterOk(d.procs[j], Stream(j - 1, n)))
      && (forall j :: 1 <= j < |d.procs| - 1 ==> Parent(d.procs[j]) && d.procs[j].taken != [])
  {
    hide FirstOk, LinkOk, OutputOk, Stream, Sift;
    var d := WithChild(c, k, p);
    forall j | 1 <= j < |d.procs|
      ensures FilterOk(d.procs[j], Stream(j - 1, n))
      ensures j < |d.procs| - 1 ==> Parent(d.procs[j]) && d.procs[j].taken != []
    {
      if j < k {
        assert FilterOk(c.procs[j], Stream(j - 1, n));
      }
    }
  }

  lemma ForkLinks(c: Chain, k: nat, p: Proc, n: int)
    requires Inv(c, n) && 0 < k && k + 1 == |c.procs| && Shaped(c) && LinkOk(c.procs[k - 1], c.pipes[k - 1], p)
    requires p.given == [] && Open(p.pc)
    ensures var d := WithChild(c, k, p);
      Shaped(d) && forall j :: 0 <= j < |d.pipes| ==> LinkOk(d.procs[j], d.pipes[j], d.procs[j + 1])
  {
    hide FirstOk, FilterOk, OutputOk, Stream, Sift;
    var d := WithChild(c, k, p);
    assert LinkOk(p, Pipe([], 2), Proc(Forked, [], []));
    hide LinkOk;
    forall j | 0 <= j < |d.pipes|
      ensures LinkOk(d.procs[j], d.pipes[j], d.procs[j + 1])
    {
      if j < k - 1 {
        assert LinkOk(c.procs[j], c.pipes[j], c.procs[j + 1]);
      }
    }
  }

  lemma ForkOutput(c: Chain, k: nat, p: Proc)
    requires |c.procs| >= 2 && OutputOk(c) && k + 1 == |c.procs|
    requires c.procs[k].pc.Printed? && p.taken == c.procs[k].taken
    ensures OutputOk(WithChild(c, k, p))
  {
    var d := WithChild(c, k, p);
    forall j | 1 <= j <= |d.output|
      ensures d.procs[j].taken != [] && d.output[j - 1] == d.procs[j].taken[0]
    {
      assert c.procs[j].taken != [];
    }
  }

  lemma ForkStep(c: Chain, k: nat, n: int, cap: nat)
    requires Inv(c, n) && Enabled(c, k, n, cap) && c.procs[k].pc.Printed?
    ensures Inv(Step(c, k, n, cap), n)
  {
    Here(c, k, n);
    Generator(c.procs[0], n);
    var p := c.procs[k].(pc := Loop(c.procs[k].pc.prime));
    assert k > 0;
    ForkLocal(c.procs[k - 1], c.pipes[k - 1], c.procs[k], Stream(k - 1, n));
    hide FirstOk, FilterOk, LinkOk, OutputOk, Stream, Sift;
    ForkProcs(c, k, p, n);
    ForkLinks(c, k, p, n);
    ForkOutput(c, k, p);
    assert Step(c, k, n, cap) == WithChild(c, k, p);
  }

  lemma ForkLocal(left: Proc, pipe: Pipe, p: Proc, s: seq<int>)
    requires Positive(s) && FilterOk(p, s) && LinkOk(left, pipe, p) && p.pc.Printed?
    ensures var p' := p.(pc := Loop(p.pc.prime));
      FilterOk(p', s) && LinkOk(left, pipe, p') && p'.taken != [] && p.given == [] && p.taken[0] == p.pc.prime
  {
  }

  lemma StepKeeps(c: Chain, k: nat, n: int, cap: nat)
    requires Inv(c, n) && Enabled(c, k, n, cap)
    ensures Inv(Step(c, k, n, cap), n)
  {
    hide Inv, Nearby, OutputOk;
    var pc := c.procs[k].pc;
    if pc.Got? {
      PrintStep(c, k, n, cap);
    } else if pc.Printed? {
      ForkStep(c, k, n, cap);
    } else {
      if k == 0 {
        GenStep(c, n, cap);
      } else if pc == First || pc.Loop? {
        ReadStep(c, k, n, cap);
      } else if pc.Have? {
        HaveStep(c, k, n, cap);
      } else {
        NotGen(c, k, n);
        EndStep(c, k, n, cap);
      }
      NearbyKeeps(c, Step(c, k, n, cap), k, n);
    }
  }

  lemma NotGen(c: Chain, k: nat, n: int)
    requires Inv(c, n) && 0 < k < |c.procs|
    ensures !c.procs[k].pc.Gen?
  {
    assert FilterOk(c.procs[k], Stream(k - 1, n));
  }

  // ---------------------------------------------------------------- what is printed

  predicate IsPrime(x: int) {
    x >= 2 && forall d :: 2 <= d < x ==> x % d != 0
  }

  // The primes in [lo, hi], increasing.
  function Primes(lo: int, hi: int): seq<int>
    decreases hi - lo
  {
    if hi < lo then [] else Primes(lo, hi - 1) + if IsPrime(hi) then [hi] else []
  }

  // No number from 2 up to `lo` divides x.
  predicate NoDivisor(x: int, lo: int) {
    forall d :: 2 <= d < lo ==> x % d != 0
  }

  // The numbers in [a, hi] that survive the primes below `lo`.
  function Rough(lo: int, a: int, hi: int): seq<int>
    decreases hi - a
  {
    if hi < a then [] else Rough(lo, a, hi - 1) + if NoDivisor(hi, lo) then [hi] else []
  }

  lemma {:induction false} RoughPositive(lo: int, a: int, hi: int)
    requires a >= 2
    ensures Positive(Rough(lo, a, hi))
    decreases hi - a
  {
    if a <= hi {
      RoughPositive(lo, a, hi - 1);
    }
  }

  lemma {:induction false} RoughFilter(lo: int, a: int, hi: int)
    requires 2 <= lo
    ensures Filter(Rough(lo, a, hi), lo) == Rough(lo + 1, a, hi)
    decreases hi - a
  {
    if a <= hi {
      RoughFilter(lo, a, hi - 1);
      var r := Rough(lo, a, hi - 1);
      if NoDivisor(hi, lo) {
        assert (r + [hi])[..|r|] == r;
        assert NoDivisor(hi, lo + 1) <==> hi % lo != 0;
      } else {
        assert r + [] == r;
      }
    }
  }

  lemma Multiple(x: int, a: int, d: int)
    requires 2 <= d && 2 <= a && x % a == 0 && a % d == 0
    ensures x % d == 0
  {
    var k, j := x / a, a / d;
    assert x == a * k && a == d * j;
    assert x == d * (j * k);
    TimesMod(d, j * k);
  }

  lemma TimesMod(d: int, k: int)
    requires d > 0
    ensures d * k % d == 0
  {
    var q, r := d * k / d, d * k % d;
    assert d * k == d * q + r;
    assert r == d * (k - q);
    Grows(d, k - q);
  }

  lemma Grows(d: int, m: int)
    requires d > 0
    ensures m >= 1 ==> d * m >= d
    ensures m <= -1 ==> d * m <= -d
  {
  }

  // A composite number leaves nothing more to sift.
  lemma {:induction false} RoughSkip(lo: int, a: int, hi: int)
    requires 2 <= lo && !NoDivisor(lo, lo)
    ensures Rough(lo, a, hi) == Rough(lo + 1, a, hi)
    decreases hi - a
  {
    if a <= hi {
      RoughSkip(lo, a, hi - 1);
      if NoDivisor(hi, lo) {
        var d :| 2 <= d < lo && lo % d == 0;
        if hi % lo == 0 {
          Multiple(hi, lo, d);
        }
        assert NoDivisor(hi, lo + 1);
      }
    }
  }

  lemma {:induction false} RoughHead(lo: int, a: int, hi: int)
    requires a <= hi
    ensures Rough(lo, a, hi) == (if NoDivisor(a, lo) then [a] else []) + Rough(lo, a + 1, hi)
    ensures Primes(a, hi) == (if IsPrime(a) then [a] else []) + Primes(a + 1, hi)
    decreases hi - a
  {
    if a < hi {
      RoughHead(lo, a, hi - 1);
    } else {
      assert Rough(lo, a, a - 1) == [] && Rough(lo, a + 1, hi) == [];
      assert Primes(a, a - 1) == [] && Primes(a + 1, hi) == [];
    }
  }

  // The first numbers of a stream and of what is sifted from it, over and over.
  function Heads(s: seq<int>): seq<int>
    requires Positive(s)
    decreases |s|
  {
    if s == [] then []
    else
      FilterPositive(s[1..], s[0]);
      [s[0]] + Heads(Sift(s))
  }

  lemma PrimeIff(x: int)
    requires x >= 2
    ensures IsPrime(x) <==> NoDivisor(x, x)
  {
  }

  lemma NothingAbove(lo: int, hi: int)
    ensures hi < lo ==> Rough(lo, lo, hi) == [] && Primes(lo, hi) == []
  {
  }

  lemma {:induction false} HeadsArePrimes(lo: int, hi: int)
    requires 2 <= lo
    ensures Positive(Rough(lo, lo, hi)) && Heads(Rough(lo, lo, hi)) == Primes(lo, hi)
    decreases hi - lo
  {
    hide IsPrime, NoDivisor, Filter, Rough, Primes;
    RoughPositive(lo, lo, hi);
    NothingAbove(lo, hi);
    if lo <= hi {
      RoughHead(lo, lo, hi);
      PrimeIff(lo);
      HeadsArePrimes(lo + 1, hi);
      var s := Rough(lo, lo, hi);
      if NoDivisor(lo, lo) {
        RoughFilter(lo, lo + 1, hi);
        assert s[1..] == Rough(lo, lo + 1, hi);
      } else {
        RoughSkip(lo, lo + 1, hi);
        assert s == Rough(lo, lo + 1, hi);
      }
    }
  }

  lemma {:induction false} RangeIsRough(hi: int)
    ensures Range(2, hi) == Rough(2, 2, hi)
    decreases hi
  {
    if hi >= 2 {
      RangeIsRough(hi - 1);
      assert NoDivisor(hi, 2);
    }
  }

  // Process number `k + 1` prints the `k`th prime, if there is one.
  lemma {:induction false} StreamHeads(k: nat, n: int)
    ensures k <= |Primes(2, n)| ==> Heads(Stream(k, n)) == Primes(2, n)[k..]
    ensures k >= |Primes(2, n)| ==> Stream(k, n) == []
    decreases k
  {
    StreamStep(k, n);
    if k == 0 {
      RangeIsRough(n);
      HeadsArePrimes(2, n);
    } else {
      StreamHeads(k - 1, n);
      StreamStep(k - 1, n);
      var s := Stream(k - 1, n);
      if k - 1 < |Primes(2, n)| {
        assert Heads(s) == [s[0]] + Heads(Sift(s));
        assert Heads(Stream(k, n)) == Primes(2, n)[k - 1..][1..];
      }
    }
  }

  lemma OnePrinted(c: Chain, n: int, j: nat)
    requires Inv(c, n) && 1 <= j <= |c.output|
    ensures j <= |Primes(2, n)| && c.output[j - 1] == Primes(2, n)[j - 1]
  {
    hide FirstOk, LinkOk, Stream, Sift;
    var s := Stream(j - 1, n);
    assert FilterOk(c.procs[j], s);
    assert c.procs[j].taken != [];
    StreamHeads(j - 1, n);
    assert Heads(s)[0] == s[0] == c.procs[j].taken[0];
  }

  lemma AllDone(c: Chain, n: int)
    requires Inv(c, n) && c.procs[|c.procs| - 1].pc == Exited
    ensures |Primes(2, n)| <= |c.output|
  {
    hide FirstOk, LinkOk, Stream, Sift;
    var last := |c.procs| - 1;
    assert FilterOk(c.procs[last], Stream(last - 1, n));
    StreamHeads(last - 1, n);
    assert Heads([]) == [];
  }

  /** Whatever the interleaving, what has been printed so far is the first primes, in order;
      once every process has exited it is all the primes up to n. */
  lemma PrintedPrimes(c: Chain, n: int)
    requires Inv(c, n)
    ensures c.output <= Primes(2, n)
    ensures (forall k :: 0 <= k < |c.procs| ==> c.procs[k].pc == Exited) ==> c.output == Primes(2, n)
  {
    if c.output != [] {
      OnePrinted(c, n, |c.output|);
    }
    forall j | 0 <= j < |c.output|
      ensures c.output[j] == Primes(2, n)[j]
    {
      OnePrinted(c, n, j + 1);
    }
    if forall k :: 0 <= k < |c.procs| ==> c.procs[k].pc == Exited {
      AllDone(c, n);
    }
  }

  // ---------------------------------------------------------------- no deadlock

  // A process that can still write, into a pipe with room, is not stuck for good.
  lemma {:induction false} SomeoneUpstream(c: Chain, k: nat, n: int, cap: nat) returns (j: nat)
    requires Inv(c, n) && Shaped(c) && 0 < cap && k < |c.pipes| && c.pipes[k].queue == [] && Open(c.procs[k].pc)
    ensures j <= k && Enabled(c, j, n, cap)
    decreases k
  {
    hide OutputOk, Stream, Sift;
    Here(c, k, n);
    j := k;
    if k > 0 {
      NonZero(c.procs[k], Stream(k - 1, n));
      if c.procs[k].pc.Loop? && !CanRead(c.pipes[k - 1]) {
        Here(c, k - 1, n);
        j := SomeoneUpstream(c, k - 1, n, cap);
      }
    }
  }

  lemma NonZero(p: Proc, s: seq<int>)
    requires Positive(s) && FilterOk(p, s)
    ensures p.pc.Loop? || p.pc.Have? ==> p.pc.prime != 0
    ensures !p.pc.Gen?
  {
  }

  // The youngest process still alive, its children gone.
  lemma {:induction false} Youngest(c: Chain, k: nat) returns (j: nat)
    requires k < |c.procs| && c.procs[k].pc != Exited
    ensures k <= j < |c.procs| && c.procs[j].pc != Exited
    ensures forall i :: j < i < |c.procs| ==> c.procs[i].pc == Exited
    decreases |c.procs| - k
  {
    if i :| k < i < |c.procs| && c.procs[i].pc != Exited {
      j := Youngest(c, i);
    } else {
      j := k;
    }
  }

  /** Until every process has exited one of them can go on, however small the pipes. */
  lemma NoDeadlock(c: Chain, k: nat, n: int, cap: nat) returns (j: nat)
    requires Inv(c, n) && 0 < cap && k < |c.procs| && c.procs[k].pc != Exited
    ensures Enabled(c, j, n, cap)
  {
    hide OutputOk, Stream, Sift;
    j := Youngest(c, k);
    Here(c, j, n);
    if j > 0 {
      NonZero(c.procs[j], Stream(j - 1, n));
    }
    if j == |c.procs| - 1 {
      if c.procs[j].pc == First && !CanRead(c.pipes[j - 1]) {
        j := SomeoneUpstream(c, j - 1, n, cap);
      }
    }
  }

  // ---------------------------------------------------------------- termination

  // Steps of a filter with input `s` from fork to exit.
  function Work(s: seq<int>): nat { if s == [] then 2 else 2 * |s| + 5 }

  // Steps a process has left.
  function Own(p: Proc, s: seq<int>, n: int): int {
    match p.pc
    case Gen(i) => if i <= n then n - i + 3 else 2
    case Forked => Work(s)
    case First => Work(s) - 1
    case Got(_) => 2 * |s| + 3
    case Printed(_) => 2 * |s| + 2
    case Loop(_) => 2 * (|s| - |p.taken|) + 3
    case Have(_, _) => 2 * (|s| - |p.taken|) + 4
    case Closing(_) => 2
    case Waiting => 1
    case Exited => 0
  }

  function Input(k: nat, n: int): seq<int> { if k == 0 then [] else Stream(k - 1, n) }

  // Steps of process `k` and those after it, when none of them has been forked yet.
  function Unborn(k: nat, n: int): nat
    requires k > 0
    decreases |Stream(k - 1, n)|
  {
    var s := Stream(k - 1, n);
    if s == [] then Work(s)
    else
      StreamStep(k, n);
      FilterPositive(s[1..], s[0]);
      Work(s) + Unborn(k + 1, n)
  }

  function OwnUpTo(c: Chain, k: nat, n: int): int
    requires k <= |c.procs|
  {
    if k == 0 then 0 else OwnUpTo(c, k - 1, n) + Own(c.procs[k - 1], Input(k - 1, n), n)
  }

  // Steps left for the whole chain.
  function StepsLeft(c: Chain, n: int): int
    requires |c.procs| > 0
  {
    OwnUpTo(c, |c.procs|, n) + if Input(|c.procs| - 1, n) != [] then Unborn(|c.procs|, n) else 0
  }

  lemma {:induction false} OwnChanges(c: Chain, d: Chain, k: nat, m: nat, n: int)
    requires k < |c.procs| == |d.procs| && m <= |c.procs|
    requires forall j :: 0 <= j < |c.procs| && j != k ==> d.procs[j] == c.procs[j]
    ensures OwnUpTo(d, m, n) == OwnUpTo(c, m, n) +
      if k < m then Own(d.procs[k], Input(k, n), n) - Own(c.procs[k], Input(k, n), n) else 0
  {
    hide Own, Input;
    if m > 0 {
      OwnChanges(c, d, k, m - 1, n);
    }
  }

  lemma {:induction false} OwnSame(c: Chain, d: Chain, m: nat, n: int)
    requires m <= |c.procs| && m <= |d.procs| && forall j :: 0 <= j < m ==> d.procs[j] == c.procs[j]
    ensures OwnUpTo(d, m, n) == OwnUpTo(c, m, n)
  {
    hide Own, Input;
    if m > 0 {
      OwnSame(c, d, m - 1, n);
    }
  }

  // What one step of process `k` does to it.
  function Advanced(p: Proc, left: Pipe, n: int): Proc
    requires p.pc.Have? ==> p.pc.prime != 0
  {
    match p.pc
    case Gen(i) => if i <= n then Proc(Gen(i + 1), p.taken, p.given + [i]) else p.(pc := Waiting)
    case Forked => p.(pc := First)
    case First =>
      if left.queue == [] then p.(pc := Exited) else Proc(Got(left.queue[0]), p.taken + [left.queue[0]], p.given)
    case Got(x) => p.(pc := Printed(x))
    case Printed(x) => p.(pc := Loop(x))
    case Loop(x) =>
      if left.queue == [] then p.(pc := Closing(x))
      else Proc(Have(x, left.queue[0]), p.taken + [left.queue[0]], p.given)
    case Have(x, num) => Proc(Loop(x), p.taken, if num % x != 0 then p.given + [num] else p.given)
    case Closing(_) => p.(pc := Waiting)
    case Waiting => p.(pc := Exited)
    case Exited => p
  }

  lemma Advances(c: Chain, k: nat, n: int, cap: nat)
    requires Enabled(c, k, n, cap)
    ensures var d := Step(c, k, n, cap);
      && d.procs[k] == Advanced(c.procs[k], LeftOf(c, k), n)
      && |d.procs| == |c.procs| + (if c.procs[k].pc.Printed? then 1 else 0)
      && forall j :: 0 <= j < |c.procs| && j != k ==> d.procs[j] == c.procs[j]
  {
  }

  // A process that steps has one step less to take.
  lemma OwnDrops(p: Proc, left: Pipe, s: seq<int>, n: int)
    requires p.pc != Exited && (p.pc.Have? ==> p.pc.prime != 0)
    requires p.pc.Gen? || (Positive(s) && FilterOk(p, s)) || p.pc == Waiting
    requires p.pc == First || p.pc.Loop? ==> if left.queue == [] then p.taken == s else p.taken + [left.queue[0]] <= s
    ensures Own(Advanced(p, left, n), s, n) == Own(p, s, n) - 1
  {
    hide Sift;
  }

  lemma OwnDropsHere(c: Chain, k: nat, n: int, cap: nat)
    requires Inv(c, n) && Enabled(c, k, n, cap)
    ensures Own(Advanced(c.procs[k], LeftOf(c, k), n), Input(k, n), n) == Own(c.procs[k], Input(k, n), n) - 1
  {
    hide FilterOk, FirstOk, LinkOk, OutputOk, Own, Stream, Advanced;
    Here(c, k, n);
    if k == 0 {
      Generator(c.procs[0], n);
    } else if c.procs[k].pc == First || c.procs[k].pc.Loop? {
      if c.pipes[k - 1].queue == [] {
        EndOfFile(c, k, n);
      } else {
        NextNumber(c, k, n);
      }
    }
    OwnDrops(c.procs[k], LeftOf(c, k), Input(k, n), n);
  }

  lemma UnbornStep(m: nat, n: int)
    requires m > 0
    ensures Unborn(m, n) == Work(Stream(m - 1, n)) + if Stream(m - 1, n) != [] then Unborn(m + 1, n) else 0
  {
  }

  // The work of the new process was counted before it was forked.
  lemma ForkCounts(c: Chain, d: Chain, k: nat, n: int)
    requires k + 1 == |c.procs| && |d.procs| == |c.procs| + 1 && Input(k, n) != []
    requires forall j :: 0 <= j < k ==> d.procs[j] == c.procs[j]
    requires Own(d.procs[k], Input(k, n), n) == Own(c.procs[k], Input(k, n), n) - 1
    requires d.procs[k + 1] == Proc(Forked, [], [])
    ensures StepsLeft(d, n) == StepsLeft(c, n) - 1
  {
    OwnSame(c, d, k, n);
    UnbornStep(k + 1, n);
    assert Own(d.procs[k + 1], Input(k + 1, n), n) == Work(Stream(k, n));
    hide Own, Unborn, Stream, Work;
    assert OwnUpTo(d, k + 2, n) == OwnUpTo(d, k + 1, n) + Own(d.procs[k + 1], Input(k + 1, n), n);
    assert OwnUpTo(d, k + 1, n) == OwnUpTo(d, k, n) + Own(d.procs[k], Input(k, n), n);
    assert OwnUpTo(c, k + 1, n) == OwnUpTo(c, k, n) + Own(c.procs[k], Input(k, n), n);
  }

  lemma Forks(c: Chain, k: nat, n: int, cap: nat)
    requires Inv(c, n) && Enabled(c, k, n, cap) && c.procs[k].pc.Printed?
    ensures var d := Step(c, k, n, cap);
      && k + 1 == |c.procs| && |d.procs| == |c.procs| + 1 && Input(k, n) != []
      && d.procs[k + 1] == Proc(Forked, [], [])
  {
    hide OutputOk, LinkOk, Stream, Sift;
    Generator(c.procs[0], n);
    Here(c, k, n);
    assert c.procs[k].taken <= Stream(k - 1, n);
  }

  /** Every step brings the end nearer by exactly one, whoever takes it. */
  lemma StepCounts(c: Chain, k: nat, n: int, cap: nat)
    requires Inv(c, n) && Enabled(c, k, n, cap)
    ensures |Step(c, k, n, cap).procs| > 0 && StepsLeft(Step(c, k, n, cap), n) == StepsLeft(c, n) - 1
  {
    hide Inv, Own, Unborn, Stream, Step, Enabled, Advanced, Input, OwnUpTo;
    var d := Step(c, k, n, cap);
    OwnDropsHere(c, k, n, cap);
    Advances(c, k, n, cap);
    Nonempty(c, k, n, cap);
    if c.procs[k].pc.Printed? {
      Forks(c, k, n, cap);
      ForkCounts(c, d, k, n);
    } else {
      OwnChanges(c, d, k, |c.procs|, n);
    }
  }

  lemma Nonempty(c: Chain, k: nat, n: int, cap: nat)
    requires Enabled(c, k, n, cap)
    ensures k < |c.procs|
  {
  }

  // ---------------------------------------------------------------- whole runs

  // Each move names the process that takes the next step.
  predicate Legal(c: Chain, moves: seq<nat>, n: int, cap: nat)
    decreases |moves|
  {
    moves == [] || (Enabled(c, moves[0], n, cap) && Legal(Step(c, moves[0], n, cap), moves[1..], n, cap))
  }

  function Run(c: Chain, moves: seq<nat>, n: int, cap: nat): Chain
    requires Legal(c, moves, n, cap)
    decreases |moves|
  {
    if moves == [] then c else Run(Step(c, moves[0], n, cap), moves[1..], n, cap)
  }

  lemma {:induction false} RunKeeps(c: Chain, moves: seq<nat>, n: int, cap: nat)
    requires Inv(c, n) && Legal(c, moves, n, cap) && |c.procs| > 0
    ensures Inv(Run(c, moves, n, cap), n) && |Run(c, moves, n, cap).procs| > 0
    ensures StepsLeft(Run(c, moves, n, cap), n) == StepsLeft(c, n) - |moves|
    decreases |moves|
  {
    hide Inv, Step, Enabled, StepsLeft;
    if moves != [] {
      StepKeeps(c, moves[0], n, cap);
      StepCounts(c, moves[0], n, cap);
      RunKeeps(Step(c, moves[0], n, cap), moves[1..], n, cap);
    }
  }

  /** The sieve: in every run from the start, under every interleaving and with pipes of any
      size, the output is at every moment the first primes in order; a run that cannot go on
      has printed all the primes up to n and every process has exited; and all such runs
      take the same number of steps, which no run exceeds. */
  lemma SievePrintsPrimes(c: Chain, moves: seq<nat>, n: int, cap: nat)
    requires Start(c) && |c.procs| > 0 && Legal(c, moves, n, cap) && 0 < cap
    ensures var d := Run(c, moves, n, cap);
      && d.output <= Primes(2, n)
      && ((forall k :: !Enabled(d, k, n, cap)) ==>
            d.output == Primes(2, n) && (forall k :: 0 <= k < |d.procs| ==> d.procs[k].pc == Exited)
            && |moves| == StepsLeft(c, n))
      && |moves| <= StepsLeft(c, n)
  {
    hide Inv, Enabled, Step, StepsLeft;
    StartInv(c, n);
    RunKeeps(c, moves, n, cap);
    var d := Run(c, moves, n, cap);
    PrintedPrimes(d, n);
    LeftBounds(d, n);
    if forall k :: !Enabled(d, k, n, cap) {
      forall k | 0 <= k < |d.procs|
        ensures d.procs[k].pc == Exited
      {
        if d.procs[k].pc != Exited {
          var j := NoDeadlock(d, k, n, cap);
        }
      }
    }
  }

  lemma {:induction false} OwnBounds(c: Chain, m: nat, n: int)
    requires Inv(c, n) && m <= |c.procs|
    ensures OwnUpTo(c, m, n) >= 0
    ensures (forall k :: 0 <= k < m ==> c.procs[k].pc == Exited) ==> OwnUpTo(c, m, n) == 0
  {
    hide LinkOk, OutputOk, Sift, Stream, FirstOk;
    if m > 0 {
      OwnBounds(c, m - 1, n);
      Here(c, m - 1, n);
      Generator(c.procs[0], n);
    }
  }

  lemma LeftBounds(c: Chain, n: int)
    requires Inv(c, n) && |c.procs| > 0
    ensures StepsLeft(c, n) >= 0
    ensures (forall k :: 0 <= k < |c.procs| ==> c.procs[k].pc == Exited) ==> StepsLeft(c, n) == 0
  {
    hide LinkOk, OutputOk, Sift, Stream, FirstOk, Own, Unborn;
    OwnBounds(c, |c.procs|, n);
    var last := |c.procs| - 1;
    assert FilterOk(c.procs[last], Stream(last - 1, n));
  }
}
