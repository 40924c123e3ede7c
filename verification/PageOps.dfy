/** The page table operations of sched/kern/pmap.c and the address-space set-up of
    sched/kern/env.c, with what they do to the flat map from page numbers to entries. */
module PageOps {
  import opened Paging
  import opened PagingLaws

  // ---------------------------------------------------------------- pgdir_walk, creating

  datatype Walked = NoTable | Walked(p: Phys)

  ghost function WalkCreate(p: Phys, e: nat, v: nat): (w: Walked)
    requires Shape(p) && e in p.dirs && v < UVPNS
    ensures w.Walked? ==>
      && |w.p.refs| == |w.p.mem| == |p.mem| && w.p.dirs == p.dirs
      && FrameOf(w.p.mem[p.dirs[e]][v / 1024]) < |p.mem|
      && (FrameOf(Pte(p, e, v)) < |p.mem| ==>
            FrameOf(w.p.mem[FrameOf(w.p.mem[p.dirs[e]][v / 1024])][v % 1024]) < |p.mem|)
  {
    if Pde(p, e, v / 1024) != 0 then Walked(p)
    else
      match PageAlloc(p, true)
      case NoFrame => NoTable
      case Frame(p1, t) =>
        var q := NewTable(p1, e, v / 1024, t);
        assert q.mem[p.dirs[e]][v / 1024] == MakeEntry(t, 7);
        assert q.mem[t][v % 1024] == 0 || q.mem[t][v % 1024] == MakeEntry(t, 7);
        Walked(q)
  }

  // Point directory entry `i` at table `t` and count the reference.
  ghost function NewTable(p: Phys, e: nat, i: nat, t: nat): Phys
    requires Shape(p) && e in p.dirs && i < UPDES && t < |p.refs|
  {
    SetPde(IncRef(p, t), e, i, MakeEntry(t, 7))
  }

  lemma NewTableEffect(p: Phys, e: nat, i: nat, t: nat)
    requires Shape(p) && Unique(p) && Clean(p) && e in p.dirs && i < UPDES && Pde(p, e, i) == 0
    requires t < |p.refs| && (forall r :: !RefTo(p, r, t)) && (forall r :: !RefTo(p, r, p.kern))
    requires p.mem[t] == ZeroPage()
    ensures var q := NewTable(p, e, i, t);
      && Shape(q) && Clean(q)
      && (forall e1, v :: e1 in p.dirs && 0 <= v < UVPNS ==> Pte(q, e1, v) == Pte(p, e1, v))
      && OneMore(p, q, PdeRef(e, i), t)
  {
    var q := NewTable(p, e, i, t);
    var d := p.dirs[e];
    assert RefTo(p, EnvRef(e), d);
    forall e1, i1 | e1 in p.dirs && 0 <= i1 < UPDES
      ensures FrameOf(q.mem[p.dirs[e1]][i1]) < |q.mem|
      ensures q.mem[p.dirs[e1]][i1] == if e1 == e && i1 == i then MakeEntry(t, 7) else Pde(p, e1, i1)
    {
      assert RefTo(p, EnvRef(e1), p.dirs[e1]);
    }
    forall e1, v | e1 in p.dirs && 0 <= v < UVPNS
      ensures Pte(q, e1, v) == Pte(p, e1, v)
    {
      if Pde(p, e1, v / 1024) != 0 {
        assert RefTo(p, PdeRef(e1, v / 1024), FrameOf(Pde(p, e1, v / 1024)));
        assert FrameOf(Pde(p, e1, v / 1024)) != d;
      }
    }
    hide Unique;
    assert d != p.kern;
  }

  lemma NewTableKeeps(p: Phys, flight: set<nat>, held: multiset<nat>, e: nat, i: nat, t: nat)
    requires InvHeld(p, flight, held) && e in p.dirs && i < UPDES && Pde(p, e, i) == 0
    requires t in flight && t !in held && p.mem[t] == ZeroPage()
    ensures InvHeld(NewTable(p, e, i, t), flight - {t}, held)
    ensures forall e1, v :: e1 in p.dirs && 0 <= v < UVPNS ==> Pte(NewTable(p, e, i, t), e1, v) == Pte(p, e1, v)
    ensures OneMore(p, NewTable(p, e, i, t), PdeRef(e, i), t)
  {
    hide Pde, Pte, RefTo, Unique, Clean;
    var q := NewTable(p, e, i, t);
    Unreferenced(p, flight, held, t);
    InvParts(p, flight, held);
    NewTableEffect(p, e, i, t);
    CountMore(p, q, PdeRef(e, i), t);
    assert Counted(q, held);
    hide Counted, OneMore;
    UniqueMore(p, q, PdeRef(e, i), t);
  }

  // A walk that creates a table changes no mapping.
  lemma WalkLaw(p: Phys, flight: set<nat>, held: multiset<nat>, e: nat, v: nat)
    requires InvHeld(p, flight, held) && e in p.dirs && v < UVPNS
    ensures WalkCreate(p, e, v).NoTable? ==> p.free == [] && Pde(p, e, v / 1024) == 0
    ensures WalkCreate(p, e, v).Walked? ==>
      InvHeld(WalkCreate(p, e, v).p, flight, held) && WalkedLike(p, WalkCreate(p, e, v).p, e, v)
  {
    if Pde(p, e, v / 1024) == 0 && p.free != [] {
      WalkNew(p, flight, held, e, v);
    }
  }

  lemma WalkNew(p: Phys, flight: set<nat>, held: multiset<nat>, e: nat, v: nat)
    requires InvHeld(p, flight, held) && e in p.dirs && v < UVPNS && Pde(p, e, v / 1024) == 0 && p.free != []
    ensures InvHeld(WalkCreate(p, e, v).p, flight, held) && WalkedLike(p, WalkCreate(p, e, v).p, e, v)
  {
    hide InvHeld, Unique, Clean, Counted, FreeOk, WalkedLike, OneMore, SameTables, Pte;
    InvParts(p, flight, held);
    var i, a := v / 1024, PageAlloc(p, true);
    AllocKeeps(p, flight, held, true);
    PdeSame(p, a.p, e, i);
    NewTableKeeps(a.p, flight + {a.f}, held, e, i, a.f);
    assert flight + {a.f} - {a.f} == flight;
    assert WalkCreate(p, e, v).p == NewTable(a.p, e, i, a.f);
    InvParts(NewTable(a.p, e, i, a.f), flight, held);
    WalkedNew(p, a.p, e, v, a.f);
  }

  lemma PdeSame(p: Phys, q: Phys, e: nat, i: nat)
    requires Shape(p) && Shape(q) && SameTables(p, q) && e in p.dirs && i < UPDES
    ensures q.dirs == p.dirs && Pde(q, e, i) == Pde(p, e, i)
  {
  }

  lemma WalkedNew(p: Phys, a: Phys, e: nat, v: nat, t: nat)
    requires Shape(p) && e in p.dirs && v < UVPNS && p.free != [] && t == p.free[0]
    requires PageAlloc(p, true) == Frame(a, t) && Shape(a) && SameTables(p, a)
    requires Shape(NewTable(a, e, v / 1024, t)) && OneMore(a, NewTable(a, e, v / 1024, t), PdeRef(e, v / 1024), t)
    requires forall e1, v1 :: e1 in p.dirs && 0 <= v1 < UVPNS ==>
      Pte(NewTable(a, e, v / 1024, t), e1, v1) == Pte(a, e1, v1)
    ensures WalkedLike(p, NewTable(a, e, v / 1024, t), e, v)
  {
    var q := NewTable(a, e, v / 1024, t);
    SameKeeps(p, a);
    hide Unique, Clean;
    assert t in p.free;
    assert forall k :: 0 <= k < |q.free| ==> q.free[k] == p.free[k + 1];
    assert forall f :: f in q.free ==> f in p.free;
    assert RefTo(q, PdeRef(e, v / 1024), t);
  }

  // `q` is `p`, up to a table created for page number `v` of `e`.
  ghost predicate WalkedLike(p: Phys, q: Phys, e: nat, v: nat)
    requires Shape(p) && e in p.dirs && v < UVPNS
  {
    && Shape(q) && q.dirs == p.dirs && q.reserved == p.reserved && q.kern == p.kern && |q.mem| == |p.mem|
    && Pde(q, e, v / 1024) != 0
    && (forall e1, v1 :: e1 in p.dirs && 0 <= v1 < UVPNS ==> Pte(q, e1, v1) == Pte(p, e1, v1))
    && (forall r, f :: RefTo(p, r, f) ==> RefTo(q, r, f))
    && (forall r, f :: RefTo(q, r, f) ==> RefTo(p, r, f) || (f in p.free && r == PdeRef(e, v / 1024)))
    && (forall f :: 0 <= f < |p.refs| && f !in p.free ==> q.refs[f] == p.refs[f])
    && (forall f :: 0 <= f < |p.mem| && f !in p.free && f != p.dirs[e] ==> q.mem[f] == p.mem[f])
    && (forall f :: f in q.free ==> f in p.free)
  }

  // ---------------------------------------------------------------- page_remove, page_insert

  // Drop the mapping stored at word `j` of table `t`.
  ghost function RemoveAt(p: Phys, t: nat, j: nat): (q: Phys)
    requires |p.refs| == |p.mem| && t < |p.mem| && j < 1024 && FrameOf(p.mem[t][j]) < |p.refs|
    ensures |q.refs| == |q.mem| == |p.mem|
  {
    var w := p.mem[t][j];
    if w == 0 then p else DecRef(p, FrameOf(w)).(mem := p.mem[t := p.mem[t][j := 0]])
  }

  ghost function PageRemove(p: Phys, e: nat, v: nat): Phys
    requires Shape(p) && e in p.dirs && v < UVPNS && FrameOf(Pte(p, e, v)) < |p.refs|
  {
    if Pde(p, e, v / 1024) == 0 then p else RemoveAt(p, FrameOf(Pde(p, e, v / 1024)), v % 1024)
  }

  datatype Inserted = NoMem | Mapped(p: Phys)

  // page_insert after the walk: count a reference to `f`, drop the old mapping, store `w`.
  ghost function Store(p: Phys, e: nat, v: nat, f: nat, w: Word): Phys
    requires |p.refs| == |p.mem| && e in p.dirs && p.dirs[e] < |p.mem| && v < UVPNS && f < |p.refs|
    requires FrameOf(p.mem[p.dirs[e]][v / 1024]) < |p.mem|
    requires FrameOf(p.mem[FrameOf(p.mem[p.dirs[e]][v / 1024])][v % 1024]) < |p.mem|
  {
    var t := FrameOf(p.mem[p.dirs[e]][v / 1024]);
    var q := RemoveAt(IncRef(p, f), t, v % 1024);
    q.(mem := q.mem[t := q.mem[t][v % 1024 := w]])
  }

  // `perm` is any 32-bit word; nothing checks it here.
  ghost function PageInsert(p: Phys, e: nat, f: nat, v: nat, perm: Word): Inserted
    requires Shape(p) && e in p.dirs && v < UVPNS && FrameOf(Pte(p, e, v)) < |p.refs|
    requires f < |p.refs|
  {
    match WalkCreate(p, e, v)
    case NoTable => NoMem
    case Walked(q) => Mapped(Store(q, e, v, f, EntryWord(f, perm)))
  }

  // `q` differs from `p` in one mapping: page number `v` of `e` went from `Pte(p, e, v)` to `w`.
  ghost predicate OneMapping(p: Phys, q: Phys, e: nat, v: nat, w: Word)
    requires Shape(p) && e in p.dirs && v < UVPNS
  {
    && Shape(q) && q.dirs == p.dirs && q.reserved == p.reserved && q.kern == p.kern && |q.mem| == |p.mem|
    && (forall e1, v1 :: e1 in p.dirs && 0 <= v1 < UVPNS ==>
          Pte(q, e1, v1) == if e1 == e && v1 == v then w else Pte(p, e1, v1))
  }

  // What page_remove promises of the state `q` it leaves.
  ghost predicate RemovedLike(p: Phys, q: Phys, e: nat, v: nat)
    requires Shape(p) && e in p.dirs && v < UVPNS
  {
    && OneMapping(p, q, e, v, 0)
    && (forall e1, i :: e1 in p.dirs && 0 <= i < UPDES ==> Pde(q, e1, i) == Pde(p, e1, i))
    && (forall r, f :: RefTo(q, r, f) <==> RefTo(p, r, f) && r != PteRef(e, v))
    && (forall f :: 0 <= f < |p.mem| && NotTable(p, f) ==> q.mem[f] == p.mem[f])
  }

  // page_remove deletes one binding of the flat map and drops one reference.
  lemma RemoveLaw(p: Phys, flight: set<nat>, held: multiset<nat>, e: nat, v: nat)
    requires InvHeld(p, flight, held) && e in p.dirs && v < UVPNS
    ensures InvHeld(PageRemove(p, e, v), flight, held) && RemovedLike(p, PageRemove(p, e, v), e, v)
  {
    RemoveKeeps(p, flight, held, e, v);
    InvParts(p, flight, held);
    hide InvHeld;
    RemoveEffect(p, e, v);
  }

  lemma RemoveKeeps(p: Phys, flight: set<nat>, held: multiset<nat>, e: nat, v: nat)
    requires InvHeld(p, flight, held) && e in p.dirs && v < UVPNS
    ensures InvHeld(PageRemove(p, e, v), flight, held)
  {
    var w := Pte(p, e, v);
    if w != 0 {
      var f := FrameOf(w);
      ClearPte(p, flight, held, e, v);
      RemoveIsDec(p, e, v);
      hide InvHeld;
      assert held + multiset{f} - multiset{f} == held;
      DecKeeps(SetPte(p, e, v, 0), flight, held + multiset{f}, f);
    }
  }

  lemma RemoveEffect(p: Phys, e: nat, v: nat)
    requires Shape(p) && Unique(p) && Clean(p) && e in p.dirs && v < UVPNS
    requires forall r :: !RefTo(p, r, p.kern)
    ensures RemovedLike(p, PageRemove(p, e, v), e, v)
  {
    if Pte(p, e, v) != 0 {
      RemoveIsDec(p, e, v);
      ClearedEffect(p, e, v);
      hide Unique, Clean, PageRemove, RemovedLike, RefTo;
      DecIsInvisible(p, SetPte(p, e, v, 0), e, v, FrameOf(Pte(p, e, v)));
    }
  }

  lemma ClearedEffect(p: Phys, e: nat, v: nat)
    requires Shape(p) && Unique(p) && e in p.dirs && v < UVPNS && Pde(p, e, v / 1024) != 0
    requires forall r :: !RefTo(p, r, p.kern)
    ensures RemovedLike(p, SetPte(p, e, v, 0), e, v)
  {
    assert RefTo(p, PdeRef(e, v / 1024), FrameOf(Pde(p, e, v / 1024)));
    SetPteEffect(p, e, v, 0);
    hide Unique;
  }

  lemma DecIsInvisible(p: Phys, s: Phys, e: nat, v: nat, f: nat)
    requires Shape(p) && e in p.dirs && v < UVPNS && RemovedLike(p, s, e, v) && f < |s.refs| && |s.refs| == |s.mem|
    ensures RemovedLike(p, DecRef(s, f), e, v)
  {
    DecSame(s, f);
    SameKeeps(s, DecRef(s, f));
    hide Unique, Clean, RefTo, DecRef;
  }

  lemma DecSame(p: Phys, f: nat)
    requires Shape(p) && f < |p.refs|
    ensures Shape(DecRef(p, f)) && SameTables(p, DecRef(p, f)) && DecRef(p, f).mem == p.mem
  {
  }

  lemma RemoveIsDec(p: Phys, e: nat, v: nat)
    requires Shape(p) && e in p.dirs && v < UVPNS && Pte(p, e, v) != 0 && FrameOf(Pte(p, e, v)) < |p.refs|
    ensures PageRemove(p, e, v) == DecRef(SetPte(p, e, v, 0), FrameOf(Pte(p, e, v)))
  {
  }

  // A frame that may be mapped: allocated, not reserved, not a directory or table.
  ghost predicate Mappable(p: Phys, f: nat)
    requires Shape(p)
  {
    f < |p.refs| && NotTable(p, f) && f !in p.free && f !in p.reserved
  }

  // What page_insert promises of the state `q` it leaves.
  ghost predicate InsertedLike(p: Phys, q: Phys, e: nat, f: nat, v: nat, w: Word)
    requires Shape(p) && e in p.dirs && v < UVPNS
  {
    && OneMapping(p, q, e, v, w)
    && (forall r, g :: RefTo(q, r, g) && r == PteRef(e, v) ==> g == f)
    && (forall r, g :: RefTo(p, r, g) && r != PteRef(e, v) ==> RefTo(q, r, g))
    && (forall r, g :: RefTo(q, r, g) && r != PteRef(e, v) ==>
          RefTo(p, r, g) || (g in p.free && r == PdeRef(e, v / 1024)))
    && (forall g :: 0 <= g < |p.mem| && g !in p.free && NotTable(p, g) ==> q.mem[g] == p.mem[g])
  }

  // page_insert with permissions in the low twelve bits and room in the counter binds one
  // page number to (frame, permissions) and keeps every count exact.
  lemma InsertKeeps(p: Phys, flight: set<nat>, held: multiset<nat>, e: nat, f: nat, v: nat, perm: nat)
    requires InvHeld(p, flight, held) && e in p.dirs && v < UVPNS && perm < 4096
    requires Mappable(p, f) && p.refs[f] < 0xFFFF
    ensures match PageInsert(p, e, f, v, perm)
      case NoMem => p.free == [] && Pde(p, e, v / 1024) == 0
      case Mapped(q) => InvHeld(q, flight - {f}, held) && InsertedLike(p, q, e, f, v, MakeEntry(f, OrP(perm)))
  {
    hide InvHeld, Unique, Clean, Refs, StoredLike, InsertedLike;
    hide FreeOk, Counted, Store, WalkCreate, EntryWord, MakeEntry, BitOr;
    InvParts(p, flight, held);
    WalkLaw(p, flight, held, e, v);
    if WalkCreate(p, e, v).Walked? {
      var q := WalkCreate(p, e, v).p;
      var w := MakeEntry(f, OrP(perm));
      assert NotTable(q, f);
      InvParts(q, flight, held);
      StoreLaw(q, flight, held, e, v, w);
      WalkThenStore(p, q, Store(q, e, v, f, w), e, v, w);
    }
  }

  ghost predicate StoredLike(p: Phys, q: Phys, e: nat, v: nat, w: Word)
    requires Shape(p) && e in p.dirs && v < UVPNS
  {
    && OneMapping(p, q, e, v, w)
    && (forall r, g :: RefTo(q, r, g) <==> if r == PteRef(e, v) then g == FrameOf(w) else RefTo(p, r, g))
    && (forall g :: 0 <= g < |p.mem| && NotTable(p, g) ==> q.mem[g] == p.mem[g])
  }

  lemma StoreLaw(p: Phys, flight: set<nat>, held: multiset<nat>, e: nat, v: nat, w: Word)
    requires InvHeld(p, flight, held) && e in p.dirs && v < UVPNS && Pde(p, e, v / 1024) != 0
    requires Mappable(p, FrameOf(w)) && p.refs[FrameOf(w)] < 0xFFFF && HasP(PermOf(w))
    requires FrameOf(Pte(p, e, v)) < |p.mem|
    ensures InvHeld(Store(p, e, v, FrameOf(w), w), flight - {FrameOf(w)}, held)
    ensures StoredLike(p, Store(p, e, v, FrameOf(w), w), e, v, w)
  {
    hide InvHeld, Unique, Clean, Refs, RemovedLike, StoredLike, Store, PageRemove, FreeOk, Counted;
    InvParts(p, flight, held);
    var f := FrameOf(w);
    var q := IncRef(p, f);
    IncKeeps(p, flight, held, f);
    InvParts(q, flight - {f}, held + multiset{f});
    assert Pte(q, e, v) == Pte(p, e, v);
    RemoveLaw(q, flight - {f}, held + multiset{f}, e, v);
    var s := PageRemove(q, e, v);
    RemovedParts(p, q, s, e, v);
    StoreSteps(p, e, v, f, w);
    FillPte(s, flight - {f}, held + multiset{f}, e, v, w);
    assert held + multiset{f} - multiset{f} == held;
    InvParts(s, flight - {f}, held + multiset{f});
    FillEffect(p, s, e, v, w);
  }

  lemma RemovedParts(p: Phys, q: Phys, s: Phys, e: nat, v: nat)
    requires Shape(p) && Shape(q) && e in p.dirs && v < UVPNS
    requires q.mem == p.mem && q.dirs == p.dirs && q.reserved == p.reserved && q.kern == p.kern
    requires RemovedLike(q, s, e, v)
    ensures RemovedLike(p, s, e, v) && Shape(s) && s.dirs == p.dirs && s.kern == p.kern
    ensures Pde(s, e, v / 1024) == Pde(p, e, v / 1024) && Pte(s, e, v) == 0
  {
    SameWalks(p, q);
    hide Shape, RefTo, Pte, Pde, NotTable, PageRemove;
  }

  // The counts play no part in a walk.
  lemma SameWalks(p: Phys, q: Phys)
    requires Shape(p) && Shape(q) && q.mem == p.mem && q.dirs == p.dirs && q.reserved == p.reserved && q.kern == p.kern
    ensures forall e, i :: e in p.dirs && 0 <= i < UPDES ==> Pde(q, e, i) == Pde(p, e, i)
    ensures forall e, v :: e in p.dirs && 0 <= v < UVPNS ==> Pte(q, e, v) == Pte(p, e, v)
    ensures forall r, f :: RefTo(q, r, f) <==> RefTo(p, r, f)
    ensures forall f :: NotTable(p, f) <==> NotTable(q, f)
  {
    hide Unique, Clean, Refs;
    assert SameTables(p, q);
    SameKeeps(p, q);
  }

  lemma StoreSteps(p: Phys, e: nat, v: nat, f: nat, w: Word)
    requires Shape(p) && e in p.dirs && v < UVPNS && FrameOf(Pte(p, e, v)) < |p.mem|
    requires Pde(p, e, v / 1024) != 0 && f < |p.refs|
    requires Shape(IncRef(p, f))
    ensures var q := PageRemove(IncRef(p, f), e, v);
      Shape(q) && q.dirs == p.dirs && Pde(q, e, v / 1024) == Pde(p, e, v / 1024)
      ==> Store(p, e, v, f, w) == SetPte(q, e, v, w)
  {
  }

  lemma FillEffect(p: Phys, s: Phys, e: nat, v: nat, w: Word)
    requires Shape(p) && e in p.dirs && v < UVPNS && RemovedLike(p, s, e, v)
    requires Unique(s) && (forall r :: !RefTo(s, r, s.kern)) && Pde(s, e, v / 1024) != 0 && w != 0
    ensures StoredLike(p, SetPte(s, e, v, w), e, v, w)
  {
    var t := FrameOf(Pde(s, e, v / 1024));
    assert RefTo(s, PdeRef(e, v / 1024), t);
    SetPteEffect(s, e, v, w);
    hide Unique;
    assert RefTo(p, PdeRef(e, v / 1024), t);
  }

  lemma WalkThenStore(p: Phys, q: Phys, s: Phys, e: nat, v: nat, w: Word)
    requires Shape(p) && e in p.dirs && v < UVPNS && WalkedLike(p, q, e, v) && StoredLike(q, s, e, v, w)
    ensures InsertedLike(p, s, e, FrameOf(w), v, w)
  {
    forall g | 0 <= g < |p.mem| && g !in p.free && NotTable(p, g)
      ensures s.mem[g] == p.mem[g]
    {
      assert RefTo(p, EnvRef(e), p.dirs[e]);
      assert NotTable(q, g);
    }
  }
}
