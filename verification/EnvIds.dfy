/** Environment identifiers (sched/kern/env.c): allocation of slots, the 32-bit generation
    counter, and `envid2env`. */
module EnvIds {
  import Paging
  import Smp
  import opened Kernel

  const NENV: nat := 1024
  const GEN: int := 4096                       // 1 << ENVGENSHIFT
  const GENERATIONS: nat := 0x8_0000 - 1       // positive multiples of GEN below 2^31
  const INT_LIMIT: int := 0x8000_0000
  const E_BAD_ENV: nat := 2
  const E_NO_FREE_ENV: nat := 5

  // The value of x as a 32-bit two's complement integer.
  function Wrap32(x: int): (r: int)
    ensures -INT_LIMIT <= r < INT_LIMIT
  {
    (x + INT_LIMIT) % (2 * INT_LIMIT) - INT_LIMIT
  }

  function Envx(id: int): nat { id % NENV }

  // The next generation number up, rounded down to a multiple of NENV; the first one when
  // that is not positive.
  function Generation(id: int): int {
    var sum := Wrap32(id + GEN);
    var generation := sum - sum % NENV;
    if generation <= 0 then GEN else generation
  }

  // The identifier of slot `s` after it has been allocated `k` times; env_init leaves 0.
  function IdAfter(s: nat, k: nat): int
    requires s < NENV
  {
    if k == 0 then 0 else Generation(IdAfter(s, k - 1)) + s
  }

  function Round(k: nat): (r: nat)
    requires 0 < k
    ensures r < GENERATIONS
  {
    (k - 1) % GENERATIONS
  }

  function GenerationOf(k: nat): (g: int)
    requires 0 < k
    ensures GEN <= g <= INT_LIMIT - GEN && g % NENV == 0
  {
    GEN * (Round(k) + 1)
  }

  // The identifier names its slot.
  lemma SlotOf(g: int, s: nat)
    requires s < NENV && g % NENV == 0
    ensures (g + s) % NENV == s
  {
  }

  lemma {:induction false} IdClosedForm(s: nat, k: nat)
    requires s < NENV && 0 < k
    ensures IdAfter(s, k) == GenerationOf(k) + s
    ensures 0 < IdAfter(s, k) < INT_LIMIT && Envx(IdAfter(s, k)) == s
  {
    hide Generation, GenerationOf, Round, Wrap32;
    if k > 1 {
      IdClosedForm(s, k - 1);
      NextGeneration(s, k - 1);
    } else {
      FirstGeneration();
      assert IdAfter(s, 0) == 0;
    }
    SlotOf(GenerationOf(k), s);
  }

  lemma FirstGeneration()
    ensures Generation(0) == GEN == GenerationOf(1)
  {
  }

  lemma NextRound(k: nat)
    requires 0 < k
    ensures Round(k + 1) == if Round(k) + 1 == GENERATIONS then 0 else Round(k) + 1
  {
  }

  lemma NextGeneration(s: nat, k: nat)
    requires s < NENV && 0 < k
    ensures Generation(GenerationOf(k) + s) == GenerationOf(k + 1)
  {
    NextRound(k);
    hide Round;
    var g := GEN * (Round(k) + 2);
    SlotOf(g, s);
    if Round(k) + 1 == GENERATIONS {
      assert Wrap32(g + s) == g + s - 2 * INT_LIMIT;
    } else {
      assert Wrap32(g + s) == g + s;
    }
  }

  lemma SameRoundIff(k: nat, j: nat)
    requires 0 < k
    ensures Round(k) == Round(k + j) <==> j % GENERATIONS == 0
  {
  }

  // Two allocations of a slot get the same identifier exactly when a whole number of rounds
  // of the generation counter lies between them.
  lemma SameIdIff(s: nat, k: nat, j: nat)
    requires s < NENV && 0 < k
    ensures IdAfter(s, k) == IdAfter(s, k + j) <==> j % GENERATIONS == 0
  {
    hide IdAfter;
    IdClosedForm(s, k);
    IdClosedForm(s, k + j);
    SameRoundIff(k, j);
    hide Round;
  }

  // ---------------------------------------------------------------- the table

  datatype Slot = Slot(id: int, status: Smp.Status, parent: int)

  // `free` is the chain starting at env_free_list.
  datatype Table = Table(slots: seq<Slot>, free: seq<nat>)

  datatype Lookup = BadEnv | Found(slot: int)

  function Alloc(t: Table, parent: int): Table
    requires t.free != [] && t.free[0] < |t.slots|
  {
    var e := t.free[0];
    Table(t.slots[e := Slot(Generation(t.slots[e].id) + e, Smp.Runnable, parent)], t.free[1..])
  }

  // sys_exofork: the child of slot `c` is not to run yet.
  function Fork(t: Table, c: nat): Table
    requires c < |t.slots| && t.free != [] && t.free[0] < |t.slots|
  {
    var u := Alloc(t, t.slots[c].id);
    u.(slots := u.slots[t.free[0] := u.slots[t.free[0]].(status := Smp.NotRunnable)])
  }

  function Release(t: Table, e: nat): Table
    requires e < |t.slots|
  {
    Table(t.slots[e := t.slots[e].(status := Smp.Free)], [e] + t.free)
  }

  // envid2env; `cur` is the slot of curenv or NULL.
  function FindEnv(t: Table, id: int, cur: int, checkperm: bool): Lookup
    requires |t.slots| == NENV && NULL <= cur < NENV && (checkperm ==> cur != NULL)
  {
    if id == 0 then Found(cur)
    else
      var e := Envx(id);
      if t.slots[e].status == Smp.Free || t.slots[e].id != id then BadEnv
      else if checkperm && e != cur && t.slots[e].parent != t.slots[cur].id then BadEnv
      else Found(e)
  }

  // Who created an environment: the kernel, or the `k`th tenant of slot `c`.
  datatype Birth = ByKernel | By(c: nat, k: nat)

  // How often each slot has been allocated, and who created its last tenant.
  datatype History = History(counts: seq<nat>, births: seq<Birth>)

  predicate InUse(t: Table, s: nat) { s < |t.slots| && t.slots[s].status != Smp.Free }

  ghost predicate IsParent(counts: seq<nat>, birth: Birth, parent: int) {
    match birth
    case ByKernel => parent == 0
    case By(c, k) => c < NENV && c < |counts| && 0 < k <= counts[c] && parent == IdAfter(c, k)
  }

  ghost predicate Inv(t: Table, h: History) {
    && |t.slots| == |h.counts| == |h.births| == NENV
    && (forall s :: 0 <= s < NENV ==> t.slots[s].id == IdAfter(s, h.counts[s]))
    && (forall s :: 0 <= s < NENV && InUse(t, s) ==>
          h.counts[s] > 0 && IsParent(h.counts, h.births[s], t.slots[s].parent))
    && (forall i, j :: 0 <= i < j < |t.free| ==> t.free[i] != t.free[j])
    && (forall i :: 0 <= i < |t.free| ==> t.free[i] < NENV)
    && (forall s :: 0 <= s < NENV ==> (s in t.free <==> t.slots[s].status == Smp.Free))
  }

  // env_create, sys_exofork by the environment in slot `c`, and env_free.
  datatype Event = Creates | Forks(c: nat) | Releases(e: nat)

  // Environments in use are freed once.
  ghost predicate Possible(t: Table, ev: Event) {
    match ev
    case Creates => t.free != []
    case Forks(c) => t.free != [] && InUse(t, c)
    case Releases(e) => InUse(t, e)
  }

  ghost function Next(t: Table, ev: Event): Table
    requires Possible(t, ev) && forall i :: 0 <= i < |t.free| ==> t.free[i] < |t.slots|
  {
    match ev
    case Creates => Alloc(t, 0)
    case Forks(c) => Fork(t, c)
    case Releases(e) => Release(t, e)
  }

  ghost function Born(h: History, s: nat, birth: Birth): History
    requires s < |h.counts| == |h.births|
  {
    History(h.counts[s := h.counts[s] + 1], h.births[s := birth])
  }

  ghost function Recorded(t: Table, h: History, ev: Event): History
    requires Inv(t, h) && Possible(t, ev)
  {
    match ev
    case Creates => Born(h, t.free[0], ByKernel)
    case Forks(c) => Born(h, t.free[0], By(c, h.counts[c]))
    case Releases(_) => h
  }

  lemma StepKeepsInv(t: Table, h: History, ev: Event)
    requires Inv(t, h) && Possible(t, ev)
    ensures Inv(Next(t, ev), Recorded(t, h, ev))
  {
    hide IdAfter;
    match ev {
      case Creates => AllocKeepsInv(t, h, ByKernel, 0);
      case Forks(c) =>
        AllocKeepsInv(t, h, By(c, h.counts[c]), t.slots[c].id);
        SameUse(Alloc(t, t.slots[c].id), Fork(t, c), Recorded(t, h, ev));
      case Releases(e) => ReleaseKeepsInv(t, h, e);
    }
  }

  lemma AllocKeepsInv(t: Table, h: History, birth: Birth, parent: int)
    requires Inv(t, h) && t.free != [] && IsParent(h.counts, birth, parent)
    ensures Inv(Alloc(t, parent), Born(h, t.free[0], birth))
  {
    hide Generation, IsParent;
    var e, u := t.free[0], Alloc(t, parent);
    assert e in t.free;
    assert u.slots[e].id == IdAfter(e, h.counts[e] + 1);
    hide IdAfter;
    assert h.counts[e] > 0 || !InUse(t, e);
    ListPops(t, u);
    forall s | 0 <= s < NENV && InUse(u, s)
      ensures IsParent(h.counts[e := h.counts[e] + 1], h.births[e := birth][s], u.slots[s].parent)
    {
      assert s == e || InUse(t, s);
      ParentStays(h.counts, e, h.births[e := birth][s], u.slots[s].parent);
    }
  }

  lemma ParentStays(counts: seq<nat>, e: nat, birth: Birth, parent: int)
    requires IsParent(counts, birth, parent) && e < |counts|
    ensures IsParent(counts[e := counts[e] + 1], birth, parent)
  {
  }

  lemma ListPops(t: Table, u: Table)
    requires t.free != [] && u.free == t.free[1..] && |t.slots| == |u.slots| == NENV && t.free[0] < NENV
    requires forall i, j :: 0 <= i < j < |t.free| ==> t.free[i] != t.free[j]
    requires forall s :: 0 <= s < NENV ==> (s in t.free <==> t.slots[s].status == Smp.Free)
    requires u.slots == t.slots[t.free[0] := u.slots[t.free[0]]] && InUse(u, t.free[0])
    ensures forall s :: 0 <= s < NENV ==> (s in u.free <==> u.slots[s].status == Smp.Free)
  {
    assert forall s :: s in u.free ==> s in t.free;
    forall s | 0 <= s < NENV
      ensures s in u.free <==> u.slots[s].status == Smp.Free
    {
      if s in t.free && s != t.free[0] {
        var i :| 0 <= i < |t.free| && t.free[i] == s;
        assert u.free[i - 1] == s;
      }
    }
  }

  lemma SameUse(t: Table, u: Table, h: History)
    requires Inv(t, h) && u.free == t.free && |u.slots| == NENV
    requires forall s :: 0 <= s < NENV ==>
      u.slots[s].id == t.slots[s].id && u.slots[s].parent == t.slots[s].parent && (InUse(u, s) <==> InUse(t, s))
    ensures Inv(u, h)
  {
    hide IdAfter, IsParent;
  }

  lemma ReleaseKeepsInv(t: Table, h: History, e: nat)
    requires Inv(t, h) && InUse(t, e)
    ensures Inv(Release(t, e), h)
  {
    hide IdAfter;
  }

  // The slots that env_init leaves: identifier 0, free, in order.
  ghost predicate Untouched(t: Table) {
    && |t.slots| == |t.free| == NENV
    && (forall s :: 0 <= s < NENV ==> t.slots[s].id == 0 && t.slots[s].status == Smp.Free && t.free[s] == s)
  }

  ghost predicate Legal(t: Table, h: History, evs: seq<Event>)
    requires Inv(t, h)
    decreases |evs|
  {
    evs == [] ||
    (Possible(t, evs[0]) && (StepKeepsInv(t, h, evs[0]); Legal(Next(t, evs[0]), Recorded(t, h, evs[0]), evs[1..])))
  }

  ghost function Run(t: Table, h: History, evs: seq<Event>): (r: (Table, History))
    requires Inv(t, h) && Legal(t, h, evs)
    ensures Inv(r.0, r.1)
    decreases |evs|
  {
    if evs == [] then (t, h)
    else
      StepKeepsInv(t, h, evs[0]);
      Run(Next(t, evs[0]), Recorded(t, h, evs[0]), evs[1..])
  }

  ghost function NoHistory(): (h: History)
    ensures |h.counts| == |h.births| == NENV
  {
    History(seq(NENV, _ => 0), seq(NENV, _ => ByKernel))
  }

  lemma FreshInv(t: Table)
    requires Untouched(t)
    ensures Inv(t, NoHistory())
  {
    assert forall s :: 0 <= s < NENV ==> t.free[s] in t.free;
  }

  /** In every run from env_init: live identifiers are positive, name their slot and differ
      from one another. */
  lemma LiveIdsDistinct(t: Table, evs: seq<Event>)
    requires Untouched(t) && Inv(t, NoHistory()) && Legal(t, NoHistory(), evs)
    ensures var u := Run(t, NoHistory(), evs).0;
      && (forall s :: 0 <= s < NENV && InUse(u, s) ==> 0 < u.slots[s].id < INT_LIMIT && Envx(u.slots[s].id) == s)
      && (forall s, r :: 0 <= s < r < NENV && InUse(u, s) && InUse(u, r) ==> u.slots[s].id != u.slots[r].id)
  {
    var r := Run(t, NoHistory(), evs);
    forall s | 0 <= s < NENV && InUse(r.0, s)
      ensures 0 < r.0.slots[s].id < INT_LIMIT && Envx(r.0.slots[s].id) == s
    {
      LiveId(r.0, r.1, s);
    }
  }

  lemma LiveId(t: Table, h: History, s: nat)
    requires Inv(t, h) && InUse(t, s)
    ensures 0 < t.slots[s].id < INT_LIMIT && Envx(t.slots[s].id) == s
  {
    IdClosedForm(s, h.counts[s]);
  }

  // ---------------------------------------------------------------- envid2env

  // The current environment may act on slot `s`: on itself and on its children.
  ghost predicate MayActOn(t: Table, cur: int, s: nat)
    requires |t.slots| == NENV && 0 <= cur < NENV && s < NENV
  {
    s == cur || t.slots[s].parent == t.slots[cur].id
  }

  // What envid2env is for: the environment in use that has the identifier, the caller for 0;
  // with `checkperm` only the caller and its children.
  ghost predicate Names(t: Table, id: int, cur: int, checkperm: bool, e: int)
    requires |t.slots| == NENV && 0 <= cur < NENV
  {
    && 0 <= e < NENV && InUse(t, e) && (if id == 0 then e == cur else t.slots[e].id == id)
    && (checkperm ==> MayActOn(t, cur, e))
  }

  /** For every identifier: envid2env finds what the identifier names and nothing else, and
      -E_BAD_ENV says that it names nothing; the caller goes by 0 and by its own identifier. */
  lemma LookupIff(t: Table, h: History, id: int, cur: nat, checkperm: bool)
    requires Inv(t, h) && InUse(t, cur)
    ensures forall e :: FindEnv(t, id, cur, checkperm) == Found(e) <==> Names(t, id, cur, checkperm, e)
    ensures FindEnv(t, id, cur, checkperm) == BadEnv <==> forall e :: !Names(t, id, cur, checkperm, e)
    ensures FindEnv(t, t.slots[cur].id, cur, checkperm) == FindEnv(t, 0, cur, checkperm) == Found(cur)
  {
    forall s: nat | InUse(t, s)
      ensures Envx(t.slots[s].id) == s && t.slots[s].id != 0
    {
      LiveId(t, h, s);
    }
    hide Inv;
    var r := FindEnv(t, id, cur, checkperm);
    assert r.Found? ==> Names(t, id, cur, checkperm, r.slot);
    forall e | Names(t, id, cur, checkperm, e)
      ensures r == Found(e)
    {
      assert InUse(t, e);
    }
  }

  /** Whom an environment may act on: itself and those that it created.  A later tenant of
      its slot may act on what an earlier one created only a whole number of rounds of the
      generation counter later. */
  lemma ChildrenIff(t: Table, h: History, cur: nat, e: nat)
    requires Inv(t, h) && InUse(t, cur) && InUse(t, e)
    ensures Names(t, t.slots[e].id, cur, true, e) <==>
      e == cur || (h.births[e].By? && h.births[e].c == cur
                   && (h.counts[cur] - h.births[e].k) % GENERATIONS == 0)
  {
    hide IdAfter;
    LiveId(t, h, cur);
    LiveId(t, h, e);
    var birth := h.births[e];
    assert IsParent(h.counts, birth, t.slots[e].parent);
    if birth.By? {
      IdClosedForm(birth.c, birth.k);
      SameIdIff(birth.c, birth.k, h.counts[birth.c] - birth.k);
    }
    hide GenerationOf;
  }

  /** envid2env on the identifier of the `k`th allocation of a slot finds the environment
      exactly while the slot is in use and a whole number of rounds later, so a stale
      identifier is rejected for the next 2^19 - 2 reuses; with `checkperm` it finds the
      caller and its children only. */
  lemma StaleIds(t: Table, h: History, s: nat, k: nat, cur: int, checkperm: bool)
    requires Inv(t, h) && s < NENV && 0 < k <= h.counts[s] && NULL <= cur < NENV
    requires checkperm ==> cur != NULL
    ensures FindEnv(t, IdAfter(s, k), cur, checkperm) ==
      if InUse(t, s) && (h.counts[s] - k) % GENERATIONS == 0 && (checkperm ==> MayActOn(t, cur, s))
      then Found(s) else BadEnv
    ensures k < h.counts[s] < k + GENERATIONS ==> FindEnv(t, IdAfter(s, k), cur, checkperm) == BadEnv
  {
    hide IdAfter;
    IdClosedForm(s, k);
    SameIdIff(s, k, h.counts[s] - k);
    hide GenerationOf;
  }

  /** The slot freed last is the first one taken again: its new tenant has its own parent, and
      the identifier of the old one finds nobody. */
  lemma ReusedAtOnce(t: Table, h: History, e: nat, parent: int, cur: int)
    requires Inv(t, h) && InUse(t, e) && NULL <= cur < NENV
    ensures var u := Alloc(Release(t, e), parent);
      && u.free == t.free && InUse(u, e) && u.slots[e].parent == parent
      && FindEnv(u, t.slots[e].id, cur, false) == BadEnv && FindEnv(u, u.slots[e].id, cur, false) == Found(e)
      && forall s :: 0 <= s < NENV && s != e ==> u.slots[s] == t.slots[s]
  {
    LiveId(t, h, e);
    SameIdIff(e, h.counts[e], 1);
    IdClosedForm(e, h.counts[e] + 1);
    assert IdAfter(e, h.counts[e] + 1) == Generation(t.slots[e].id) + e;
    hide Generation, GenerationOf;
  }

  // ---------------------------------------------------------------- the processors' model

  // The environments of the processors' model are those of the table.
  ghost predicate Agree(envs: seq<Smp.Env>, slots: seq<Slot>) {
    |envs| == |slots|
    && forall x :: 0 <= x < |envs| ==> Slot(envs[x].id, envs[x].status, envs[x].parent) == slots[x]
  }

  /** What the processors' model takes from this table: whom a caller may touch is what
      envid2env finds with `checkperm`, an exofork is the allocation of a slot, the destruction
      of an environment that does not run is its release. */
  lemma ProcessorsAgree(s: Smp.Machine, c: nat, t: Table, h: History, e: nat)
    requires c < |s.cpus| && 0 <= s.cpus[c].env < |s.envs| && Agree(s.envs, t.slots) && Inv(t, h) && e < NENV
    requires InUse(t, s.cpus[c].env)
    ensures Smp.MayTouch(s, c, e) <==> exists id :: Names(t, id, s.cpus[c].env, true, e)
    ensures t.free != [] ==> t.free[0] < NENV
    ensures t.free != [] && t.free[0] == e ==>
      var u := Fork(t, s.cpus[c].env);
      Agree(Smp.Apply(s, c, Smp.Exofork(e, u.slots[e].id)).envs, u.slots)
    ensures Smp.MayTouch(s, c, e) && (s.envs[e].status != Smp.Running || e == s.cpus[c].env) ==>
      Agree(Smp.Apply(s, c, Smp.Destroy(e)).envs, Release(t, e).slots)
  {
    hide IdAfter, Generation, IsParent;
    assert t.free != [] ==> t.free[0] in t.free;
    if InUse(t, e) {
      LiveId(t, h, e);
    }
    if Smp.MayTouch(s, c, e) {
      assert Names(t, t.slots[e].id, s.cpus[c].env, true, e);
    }
  }

  // ---------------------------------------------------------------- the bit operations

  // a & ~b on natural numbers
  function AndNot(a: nat, b: nat): (r: nat) {
    if a == 0 then 0 else (if a % 2 == 1 && b % 2 == 0 then 1 else 0) + 2 * AndNot(a / 2, b / 2)
  }

  // `n` ones
  function Ones(n: nat): nat { if n == 0 then 0 else 2 * Ones(n - 1) + 1 }

  function Cleared(a: nat, n: nat): nat { if n == 0 then a else 2 * Cleared(a / 2, n - 1) }

  lemma {:induction false} AndNotZero(a: nat)
    ensures AndNot(a, 0) == a
  {
    if a > 0 {
      AndNotZero(a / 2);
    }
  }

  lemma {:induction false} AndNotOnes(a: nat, n: nat)
    ensures AndNot(a, Ones(n)) == Cleared(a, n)
    decreases n
  {
    if n == 0 {
      AndNotZero(a);
    } else {
      AndNotOnes(a / 2, n - 1);
      if a == 0 {
        assert AndNot(0, Ones(n - 1)) == 0;
      }
    }
  }

  // x & ~(NENV - 1)
  lemma LowBitsCleared(a: nat)
    ensures AndNot(a, NENV - 1) == a - a % NENV
  {
    assert Ones(5) == 31 && Ones(10) == 1023;
    AndNotOnes(a, 10);
    ClearedTen(a);
  }

  lemma ClearedTen(a: nat)
    ensures Cleared(a, 10) == a - a % 1024
  {
    FiveMore(a, 5);
    FiveMore(a / 32, 0);
    assert Cleared(a / 32 / 32, 0) == a / 32 / 32;
    hide Cleared;
    assert a / 32 / 32 == a / 1024;
  }

  lemma FiveMore(a: nat, n: nat)
    ensures Cleared(a, n + 5) == 32 * Cleared(a / 32, n)
  {
    assert Cleared(a / 2, n + 4) == 2 * Cleared(a / 4, n + 3);
    assert Cleared(a / 4, n + 3) == 2 * Cleared(a / 8, n + 2);
    assert Cleared(a / 8, n + 2) == 2 * Cleared(a / 16, n + 1);
    assert Cleared(a / 16, n + 1) == 2 * Cleared(a / 32, n);
  }

  lemma MaskIsGeneration(id: int)
    ensures var g := Wrap32(AndNot((id + GEN) % (2 * INT_LIMIT), NENV - 1));
      && Generation(id) == (if g <= 0 then GEN else g) && g % NENV == 0
  {
    LowBitsCleared((id + GEN) % (2 * INT_LIMIT));
    hide AndNot;
    SameResidue(id + GEN);
  }

  // Clearing the low bits commutes with reading the word as a signed number.
  lemma SameResidue(x: int)
    ensures var u, w := x % (2 * INT_LIMIT), Wrap32(x);
      Wrap32(u - u % NENV) == w - w % NENV && (w - w % NENV) % NENV == 0
  {
    hide Wrap32;
    var u := x % (2 * INT_LIMIT);
    SignedWord(x);
    SignedWord(u - u % NENV);
    RoundedDown(u);
  }

  lemma RoundedDown(u: nat)
    requires u < 2 * INT_LIMIT
    ensures var v := u - u % NENV; 0 <= v == v % (2 * INT_LIMIT) && v % NENV == 0 && (v < INT_LIMIT <==> u < INT_LIMIT)
    ensures (u - 2 * INT_LIMIT) % NENV == u % NENV && (u - u % NENV - 2 * INT_LIMIT) % NENV == 0
  {
    var k := u / NENV;
    assert u - 2 * INT_LIMIT == NENV * (k - 2 * INT_LIMIT / NENV) + u % NENV;
  }

  lemma SignedWord(x: int)
    ensures var u := x % (2 * INT_LIMIT);
      Wrap32(x) == if u < INT_LIMIT then u else u - 2 * INT_LIMIT
  {
    var q := x / (2 * INT_LIMIT);
    assert x + INT_LIMIT == 2 * INT_LIMIT * q + (x % (2 * INT_LIMIT) + INT_LIMIT);
  }

  // generation | (e - envs)
  lemma OrSlot(g: int, s: nat)
    requires 0 <= g && g % NENV == 0 && s < NENV
    ensures Paging.BitOr(g, s) == g + s
  {
    assert Paging.Pow2(5) == 32 && Paging.Pow2(10) == NENV;
    Paging.BitOrShift(g / NENV, 0, s, 10);
    ShiftTen(g / NENV);
    ShiftTen(0);
  }

  lemma ShiftTen(a: nat)
    ensures Paging.Shift(a, 10) == 1024 * a
  {
    assert Paging.Shift(a, 1) == 2 * Paging.Shift(a, 0);
    assert Paging.Shift(a, 2) == 4 * a;
    assert Paging.Shift(a, 4) == 16 * a;
    assert Paging.Shift(a, 6) == 64 * a;
    assert Paging.Shift(a, 8) == 256 * a;
  }

  // ---------------------------------------------------------------- the code

  // `chain` is the list threaded through env_link from `head`.
  ghost predicate Linked(links: seq<int>, head: int, chain: seq<nat>) {
    && head == (if chain == [] then NULL else chain[0])
    && forall k :: 0 <= k < |chain| ==> chain[k] < |links| && links[chain[k]] == After(chain, k)
  }

  lemma LinkedPop(links: seq<int>, head: int, chain: seq<nat>)
    requires Linked(links, head, chain) && chain != []
    ensures head == chain[0] < |links| && Linked(links, links[chain[0]], chain[1..])
  {
    var rest := chain[1..];
    forall k | 0 <= k < |rest|
      ensures rest[k] < |links| && links[rest[k]] == After(rest, k)
    {
      assert rest[k] == chain[k + 1] && After(rest, k) == After(chain, k + 1);
    }
  }

  lemma LinkedPush(links: seq<int>, head: int, chain: seq<nat>, e: nat)
    requires Linked(links, head, chain) && e < |links| && e !in chain
    ensures Linked(links[e := head], e, [e] + chain)
  {
    var more, links' := [e] + chain, links[e := head];
    forall k | 0 <= k < |more|
      ensures more[k] < |links'| && links'[more[k]] == After(more, k)
    {
      if k > 0 {
        assert more[k] == chain[k - 1] && After(more, k) == After(chain, k - 1);
      }
    }
  }

  lemma LinkedInOrder(links: seq<int>)
    requires |links| == NENV && links[NENV - 1] == NULL && forall s :: 0 <= s < NENV - 1 ==> links[s] == s + 1
    ensures Linked(links, 0, seq(NENV, i => i))
  {
    var chain: seq<nat> := seq(NENV, i => i);
    assert forall k :: 0 <= k < NENV ==> After(chain, k) == links[chain[k]];
  }

  lemma LinkedEnd(links: seq<int>, head: int, chain: seq<nat>)
    requires Linked(links, head, chain)
    ensures head == NULL <==> chain == []
  {
  }

  class EnvTable {
    const envs: array<Slot>
    const links: array<int>
    var envFreeList: int
    ghost var free: seq<nat>

    constructor (envs: array<Slot>, links: array<int>)
      ensures this.envs == envs && this.links == links
    {
      this.envs, this.links := envs, links;
      envFreeList, free := NULL, [];
    }

    ghost predicate Valid()
      reads this, envs, links
    {
      envs.Length == links.Length == NENV && Linked(links[..], envFreeList, free)
    }

    ghost function Abs(): Table
      reads this, envs
    {
      Table(envs[..], free)
    }

    method EnvInit()
      requires envs.Length == links.Length == NENV
      modifies this, envs, links
      ensures Valid() && Untouched(Abs())
    {
      hide Linked;
      for i := 0 to NENV
        invariant forall s :: 0 <= s < i ==> envs[s].id == 0 && envs[s].status == Smp.Free && links[s] == s + 1
      {
        envs[i] := envs[i].(id := 0, status := Smp.Free);
        links[i] := i + 1;
      }
      links[NENV - 1] := NULL;
      LinkedInOrder(links[..]);
      envFreeList := 0;
      free := seq(NENV, i => i);
    }

    // 0 and the slot, or an error that changes nothing; `vm` is what env_setup_vm answers.
    method EnvAlloc(parent: int, vm: nat) returns (err: nat, e: int)
      requires Valid()
      modifies this, envs
      ensures Valid()
      ensures old(free) == [] ==> err == E_NO_FREE_ENV && Abs() == old(Abs())
      ensures old(free) != [] && vm != 0 ==> err == vm && Abs() == old(Abs())
      ensures old(free) != [] && vm == 0 ==>
        err == 0 && e == old(free)[0] && old(free)[0] < |old(Abs()).slots| && Abs() == Alloc(old(Abs()), parent)
    {
      hide Linked, Generation, Wrap32;
      LinkedEnd(links[..], envFreeList, free);
      e := envFreeList;
      if e == NULL {
        return E_NO_FREE_ENV, e;
      }
      if vm != 0 {
        return vm, e;
      }
      LinkedPop(links[..], envFreeList, free);
      var id := NextId(envs[e].id, e);
      envs[e] := Slot(id, Smp.Runnable, parent);
      envFreeList := links[e];
      free := free[1..];
      return 0, e;
    }

    // The identifier of slot `s` after the one it had, by the bit operations of the code.
    static method NextId(id: int, s: nat) returns (next: int)
      requires s < NENV
      ensures next == Generation(id) + s
      ensures forall k: nat :: id == IdAfter(s, k) ==> next == GenerationOf(k + 1) + s
    {
      var generation := Wrap32(AndNot((id + GEN) % (2 * INT_LIMIT), NENV - 1));
      if generation <= 0 {
        generation := GEN;
      }
      MaskIsGeneration(id);
      OrSlot(generation, s);
      forall k: nat | id == IdAfter(s, k)
        ensures Generation(id) == GenerationOf(k + 1)
      {
        IdClosedForm(s, k + 1);
      }
      return Paging.BitOr(generation, s);
    }

    // 0 and the slot, NULL where there is no current environment, or -E_BAD_ENV and NULL.
    method Envid2Env(id: int, cur: int, checkperm: bool) returns (err: nat, store: int)
      requires Valid() && NULL <= cur < NENV && (checkperm ==> cur != NULL)
      ensures FindEnv(Abs(), id, cur, checkperm) == if err == 0 then Found(store) else BadEnv
      ensures err in {0, E_BAD_ENV} && (err != 0 ==> store == NULL)
    {
      if id == 0 {
        return 0, cur;
      }
      var e := Envx(id);
      if envs[e].status == Smp.Free || envs[e].id != id {
        return E_BAD_ENV, NULL;
      }
      if checkperm && e != cur && envs[e].parent != envs[cur].id {
        return E_BAD_ENV, NULL;
      }
      return 0, e;
    }

    // sys_exofork up to the registers of the child: its identifier, or an error below 0.
    method SysExofork(cur: nat, vm: nat) returns (r: int)
      requires Valid() && cur < NENV
      modifies this, envs
      ensures Valid()
      ensures old(free) == [] ==> r == 0 - E_NO_FREE_ENV && Abs() == old(Abs())
      ensures old(free) != [] && vm != 0 ==> r == 0 - vm && Abs() == old(Abs())
      ensures old(free) != [] && vm == 0 ==>
        old(free)[0] < NENV && Abs() == Fork(old(Abs()), cur) && r == Abs().slots[old(free)[0]].id
    {
      hide Linked, Generation;
      var err, e := EnvAlloc(envs[cur].id, vm);
      if err != 0 {
        r := err;
        return -r;
      }
      envs[e] := envs[e].(status := Smp.NotRunnable);
      return envs[e].id;
    }

    // The end of env_free: the slot goes back to the list.
    method EnvRelease(e: nat)
      requires Valid() && e < NENV && e !in free
      modifies this, envs, links
      ensures Valid() && Abs() == Release(old(Abs()), e)
    {
      LinkedPush(links[..], envFreeList, free, e);
      envs[e] := envs[e].(status := Smp.Free);
      links[e] := envFreeList;
      envFreeList := e;
      free := [e] + free;
    }
  }
}
