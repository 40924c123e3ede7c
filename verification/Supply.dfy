/** What the memory system calls use up: when each of them succeeds, and how many frames and
    which counts it leaves. */
module Supply {
  import opened Paging
  import opened PagingLaws
  import opened PageOps
  import opened AddressSpace
  import opened PageCalls
  import opened RefCounts
  import opened UserCalls

  // A table is missing for page number `v` of `e`.
  ghost function TableCost(p: Phys, e: nat, v: nat): nat
    requires Shape(p) && e in p.dirs && v < UVPNS
  {
    if Pde(p, e, v / 1024) == 0 then 1 else 0
  }

  // `q` has the tables of `p` and one for page number `v` of `e`.
  ghost predicate OneTable(p: Phys, q: Phys, e: nat, v: nat)
    requires Shape(p) && Shape(q) && e in p.dirs && v < UVPNS
  {
    && q.dirs == p.dirs
    && forall e1, i :: e1 in p.dirs && 0 <= i < UPDES ==>
         (Pde(q, e1, i) == 0 <==> Pde(p, e1, i) == 0 && !(e1 == e && i == v / 1024))
  }

  // Counts of frames in use, `f` counted once more.
  ghost predicate Counted1(p: Phys, q: Phys, f: nat) {
    && |q.refs| == |p.refs|
    && forall g :: 0 <= g < |p.refs| && g !in p.free ==> q.refs[g] == p.refs[g] + if g == f then 1 else 0
  }

  // ---------------------------------------------------------------- page_insert

  lemma WalkUses(p: Phys, e: nat, v: nat)
    requires Shape(p) && e in p.dirs && v < UVPNS && WalkCreate(p, e, v).Walked?
    ensures var q := WalkCreate(p, e, v).p;
      && |q.refs| == |p.refs| && |q.free| == |p.free| - TableCost(p, e, v)
      && (forall g :: 0 <= g < |p.refs| && g !in p.free ==> q.refs[g] == p.refs[g])
      && (TableCost(p, e, v) == 0 ==> q == p) && (TableCost(p, e, v) == 1 ==> q.free == p.free[1..])
  {
    assert p.free != [] ==> p.free[0] in p.free;
  }

  // An insertion where nothing was mapped.
  lemma InsertUses(p: Phys, flight: set<nat>, e: nat, f: nat, v: nat, perm: Word)
    requires Inv(p, flight) && e in p.dirs && v < UVPNS && Mappable(p, f) && p.refs[f] < 0xFFFF && NamesFrame(f, perm)
    requires Pte(p, e, v) == 0 && FrameOf(Pte(p, e, v)) < |p.refs| && PageInsert(p, e, f, v, perm).Mapped?
    ensures var q := PageInsert(p, e, f, v, perm).p;
      && Shape(q) && |q.free| == |p.free| - TableCost(p, e, v) && Counted1(p, q, f)
      && (forall g :: g in q.free ==> g in p.free)
  {
    WalkUses(p, e, v);
    hide InvHeld, Unique, Clean, Counted, FreeOk, WalkCreate, EntryWord, RefTo, InsertedLike, Store, Pte, Pde;
    hide NotTable, ExactInsert, BitOr, WalkedLike, Mappable, TableCost, Counted1;
    WalkLaw(p, flight, multiset{}, e, v);
    InvParts(p, flight, multiset{});
    MappableParts(p, f);
    var q, w := WalkCreate(p, e, v).p, EntryWord(f, perm);
    WalkedParts(p, q, e, v);
    WalkedEmpty(p, q, e, v);
    EmptyStore(q, e, v, f, w);
    InsertLaw(p, flight, multiset{}, e, f, v, perm);
    InsertedShape(p, PageInsert(p, e, f, v, perm).p, e, v, w);
    CountedOnce(p, q, Store(q, e, v, f, w), f);
  }

  lemma MappableParts(p: Phys, f: nat)
    requires Shape(p) && Mappable(p, f)
    ensures f < |p.refs| && f !in p.free
  {
  }

  lemma WalkedEmpty(p: Phys, q: Phys, e: nat, v: nat)
    requires Shape(p) && e in p.dirs && v < UVPNS && WalkedLike(p, q, e, v)
    ensures Shape(q) && Pte(q, e, v) == Pte(p, e, v) && forall g :: g in q.free ==> g in p.free
  {
    hide Pte, Pde, RefTo;
  }

  lemma CountedOnce(p: Phys, q: Phys, s: Phys, f: nat)
    requires |q.refs| == |p.refs| && f < |p.refs| && f !in p.free && p.refs[f] < 0xFFFF
    requires forall g :: 0 <= g < |p.refs| && g !in p.free ==> q.refs[g] == p.refs[g]
    requires s.refs == q.refs[f := (q.refs[f] + 1) % 0x1_0000]
    ensures Counted1(p, s, f)
  {
  }

  lemma EmptyStore(p: Phys, e: nat, v: nat, f: nat, w: Word)
    requires Shape(p) && e in p.dirs && v < UVPNS && Pde(p, e, v / 1024) != 0 && Pte(p, e, v) == 0 && f < |p.refs|
    ensures FrameOf(Pte(p, e, v)) < |p.mem|
    ensures Store(p, e, v, f, w).free == p.free
    ensures Store(p, e, v, f, w).refs == p.refs[f := (p.refs[f] + 1) % 0x1_0000]
  {
  }

  lemma InsertTables(p: Phys, q: Phys, e: nat, f: nat, v: nat, w: Word)
    requires Shape(p) && e in p.dirs && v < UVPNS && InsertedLike(p, q, e, f, v, w) && w != 0
    ensures Shape(q) && OneTable(p, q, e, v)
  {
    assert Pte(q, e, v) == w;
    forall e1, i | e1 in p.dirs && 0 <= i < UPDES
      ensures Pde(q, e1, i) == 0 <==> Pde(p, e1, i) == 0 && !(e1 == e && i == v / 1024)
    {
      var r := PdeRef(e1, i);
      assert RefTo(p, r, FrameOf(Pde(p, e1, i))) <==> Pde(p, e1, i) != 0;
      assert RefTo(q, r, FrameOf(Pde(q, e1, i))) <==> Pde(q, e1, i) != 0;
    }
  }

  // ---------------------------------------------------------------- sys_page_alloc

  /** A zeroed page can be had exactly when the permissions are proper and the free list has
      a frame for the page and one for its table, if that is missing. */
  lemma AllocSucceedsIff(s: Sys, e: nat, v: nat, perm: nat)
    requires Good(s) && e in s.p.dirs && v < UVPNS && Shape(s.p)
    ensures AllocCall(s, e, v, perm).Some? <==> CheckPerm(OrP(OrU(perm))) && |s.p.free| >= 1 + TableCost(s.p, e, v)
  {
    var g := OrP(OrU(perm));
    hide InvHeld, Unique, Clean, PageInsert, InsertedLike, FreeOk, Counted, OrP, OrU;
    if CheckPerm(g) && s.p.free != [] {
      InvParts(s.p, s.lost, multiset{});
      AllocKeeps(s.p, s.lost, multiset{}, true);
      var a := PageAlloc(s.p, true);
      UsableFrame(a.p, s.lost + {a.f}, a.f);
      InvParts(a.p, s.lost + {a.f}, multiset{});
      EntryInMemory(a.p, e, v);
      NoMemIff(a.p, e, a.f, v, g);
      PdeSame(s.p, a.p, e, v / 1024);
    }
  }

  // What a page mapped where there was none uses up.
  lemma AllocUses(s: Sys, e: nat, v: nat, perm: nat)
    requires Good(s) && e in s.p.dirs && v < UVPNS && AllocCall(s, e, v, perm).Some? && Shape(s.p)
    requires Pte(s.p, e, v) == 0
    ensures var t := AllocCall(s, e, v, perm).value;
      && Shape(t.p) && |t.p.free| == |s.p.free| - 1 - TableCost(s.p, e, v) && OneTable(s.p, t.p, e, v)
      && |t.p.refs| == |s.p.refs| && FrameOf(Pte(t.p, e, v)) in s.p.free && FrameOf(Pte(t.p, e, v)) < |s.p.refs|
      && t.p.refs[FrameOf(Pte(t.p, e, v))] == 1
      && (forall g :: 0 <= g < |s.p.refs| && g !in s.p.free ==> t.p.refs[g] == s.p.refs[g])
      && (forall g :: g in t.p.free ==> g in s.p.free)
  {
    var g := OrP(OrU(perm));
    hide InvHeld, Unique, Clean, PageInsert, InsertedLike, FreeOk, Counted, OrP, OrU, OneTable, RefTo, BitOr, EntryWord;
    PageAllocLaw(s, e, v, g);
    InvParts(s.p, s.lost, multiset{});
    AllocKeeps(s.p, s.lost, multiset{}, true);
    var a := PageAlloc(s.p, true);
    UsableFrame(a.p, s.lost + {a.f}, a.f);
    InvParts(a.p, s.lost + {a.f}, multiset{});
    PdeSame(s.p, a.p, e, v / 1024);
    EntryInMemory(a.p, e, v);
    var t := AllocCall(s, e, v, perm).value;
    NewPageAt(s.p, t.p, e, v, g);
    LowNames(a.f, g);
    assert Pte(a.p, e, v) == Pte(s.p, e, v);
    InsertUses(a.p, s.lost + {a.f}, e, a.f, v, g);
    InsertTables(s.p, t.p, e, a.f, v, MakeEntry(a.f, OrP(g)));
    PoppedFree(s.p, a.p);
    hide PageAlloc;
  }

  lemma NewPageAt(p: Phys, q: Phys, e: nat, v: nat, perm: nat)
    requires Shape(p) && e in p.dirs && v < UVPNS && perm < 4096 && NewPage(p, q, e, v, perm)
    ensures p.free != [] && p.free[0] < MAXFRAMES
    ensures Shape(q) && q.dirs == p.dirs && FrameOf(Pte(q, e, v)) == p.free[0]
    ensures InsertedLike(p, q, e, p.free[0], v, MakeEntry(p.free[0], OrP(perm)))
    ensures HasP(OrP(perm)) && MakeEntry(p.free[0], OrP(perm)) != 0
  {
  }

  lemma LowNames(f: nat, perm: nat)
    requires perm < 4096
    ensures NamesFrame(f, perm)
  {
  }

  lemma PoppedFree(p: Phys, a: Phys)
    requires Shape(p) && p.free != [] && PageAlloc(p, true) == Frame(a, p.free[0])
    ensures |a.free| == |p.free| - 1 && a.refs == p.refs && p.free[0] in p.free
    ensures forall g :: g in a.free ==> g in p.free
  {
    assert forall k :: 0 <= k < |a.free| ==> a.free[k] == p.free[k + 1];
  }

  // ---------------------------------------------------------------- sys_page_map

  // A reference more fits the counter, or the entry refers to that frame already.
  ghost predicate HasRoom(s: Sys, src: nat, srcv: nat, dst: nat, dstv: nat)
    requires Good(s) && Page?(s, src, srcv) && dst in s.p.dirs && dstv < UVPNS && Shape(s.p)
  {
    var f := FrameOf(Pte(s.p, src, srcv));
    f < |s.p.refs| && (s.p.refs[f] < 0xFFFF || (Pte(s.p, dst, dstv) != 0 && FrameOf(Pte(s.p, dst, dstv)) == f))
  }

  /** A page is mapped exactly when it is there, may be granted, has room in its counter and
      its table is there or can be had. */
  lemma MapSucceedsIff(s: Sys, src: nat, srcv: nat, dst: nat, dstv: nat, perm: nat)
    requires Good(s) && src in s.p.dirs && dst in s.p.dirs && srcv < UVPNS && dstv < UVPNS && perm < 4096 && Shape(s.p)
    ensures MapCall(s, src, srcv, dst, dstv, perm).Some? <==>
      && Page?(s, src, srcv) && (HasW(OrUP(perm)) ==> HasW(PermAt(s, src, srcv)))
      && HasRoom(s, src, srcv, dst, dstv) && |s.p.free| >= TableCost(s.p, dst, dstv)
  {
    if Pte(s.p, src, srcv) != 0 {
      MappedIsMappable(s.p, s.lost, multiset{}, src, srcv);
      LowNames(FrameOf(Pte(s.p, src, srcv)), OrUP(perm));
    }
    hide InvHeld, Unique, Clean, FreeOk, Counted, EntryWord, InsertedLike, BitOr, EnvPageMap, OrUP, RefTo;
    PageMapLaw(s, src, srcv, dst, dstv, OrUP(perm));
    MapErrors(s, src, srcv, dst, dstv, OrUP(perm));
  }

  lemma MapCallIs(s: Sys, src: nat, srcv: nat, dst: nat, dstv: nat, perm: nat)
    requires Good(s) && src in s.p.dirs && dst in s.p.dirs && srcv < UVPNS && dstv < UVPNS && perm < 4096 && Shape(s.p)
    requires MapCall(s, src, srcv, dst, dstv, perm).Some?
    ensures var f := FrameOf(Pte(s.p, src, srcv));
      && Pte(s.p, src, srcv) != 0 && f < |s.p.refs| && FrameOf(Pte(s.p, dst, dstv)) < |s.p.refs|
      && NamesFrame(f, OrUP(perm))
      && Mappable(s.p, f) && 0 < s.p.refs[f] <= 0xFFFF
      && PageInsert(s.p, dst, f, dstv, OrUP(perm)) == Mapped(MapCall(s, src, srcv, dst, dstv, perm).value.p)
  {
    MappedIsMappable(s.p, s.lost, multiset{}, src, srcv);
    InvParts(s.p, s.lost, multiset{});
    EntryInMemory(s.p, dst, dstv);
    LowNames(FrameOf(Pte(s.p, src, srcv)), OrUP(perm));
    CountedBefore(s.p, s.lost, src, FrameOf(Pte(s.p, src, srcv)), srcv);
    hide InvHeld, Unique, Clean, FreeOk, Counted, EntryWord, InsertedLike, BitOr, OrUP, RefTo, PageInsert;
  }

  // A page mapped where there was none.
  lemma MapUses(s: Sys, src: nat, srcv: nat, dst: nat, dstv: nat, perm: nat)
    requires Good(s) && src in s.p.dirs && dst in s.p.dirs && srcv < UVPNS && dstv < UVPNS && perm < 4096 && Shape(s.p)
    requires MapCall(s, src, srcv, dst, dstv, perm).Some? && Pte(s.p, dst, dstv) == 0
    ensures var t, f := MapCall(s, src, srcv, dst, dstv, perm).value, FrameOf(Pte(s.p, src, srcv));
      && Shape(t.p) && |t.p.free| == |s.p.free| - TableCost(s.p, dst, dstv) && OneTable(s.p, t.p, dst, dstv)
      && f < |s.p.refs| && f !in s.p.free && Counted1(s.p, t.p, f) && (forall g :: g in t.p.free ==> g in s.p.free)
  {
    hide InvHeld, Unique, Clean, FreeOk, Counted, EntryWord, InsertedLike,
      BitOr, OrUP, RefTo, PageInsert, OneTable, Counted1;
    hide MapCall, Pte;
    MapCallIs(s, src, srcv, dst, dstv, perm);
    MapSucceedsIff(s, src, srcv, dst, dstv, perm);
    var f := FrameOf(Pte(s.p, src, srcv));
    MappableParts(s.p, f);
    InsertUses(s.p, s.lost, dst, f, dstv, OrUP(perm));
    InsertLaw(s.p, s.lost, multiset{}, dst, f, dstv, OrUP(perm));
    var w := EntryWord(f, OrUP(perm));
    InsertTables(s.p, MapCall(s, src, srcv, dst, dstv, perm).value.p, dst, FrameOf(w), dstv, w);
  }

  // A page mapped where it is: no frame, no table and no count changes.
  lemma RemapUses(s: Sys, e: nat, v: nat, perm: nat)
    requires Good(s) && e in s.p.dirs && v < UVPNS && perm < 4096 && Shape(s.p)
    requires MapCall(s, e, v, e, v, perm).Some?
    ensures var t := MapCall(s, e, v, e, v, perm).value;
      && Shape(t.p) && t.p.free == s.p.free && t.p.refs == s.p.refs && t.p.dirs == s.p.dirs
      && (forall e1, i :: e1 in s.p.dirs && 0 <= i < UPDES ==> Pde(t.p, e1, i) == Pde(s.p, e1, i))
  {
    hide InvHeld, FreeOk, Counted, EntryWord, InsertedLike, BitOr, OrUP, PageInsert, MapCall, RefTo, Mappable;
    MapCallIs(s, e, v, e, v, perm);
    InvParts(s.p, s.lost, multiset{});
    ReinsertIsSetPte(s.p, e, v, OrUP(perm));
    var w := EntryWord(FrameOf(Pte(s.p, e, v)), OrUP(perm));
    TableNotKernel(s.p, e, v);
    SetPteEffect(s.p, e, v, w);
  }

  lemma TableNotKernel(p: Phys, e: nat, v: nat)
    requires Shape(p) && e in p.dirs && v < UVPNS && Pte(p, e, v) != 0 && forall r :: !RefTo(p, r, p.kern)
    ensures Pde(p, e, v / 1024) != 0 && FrameOf(Pde(p, e, v / 1024)) != p.kern
  {
    assert RefTo(p, PdeRef(e, v / 1024), FrameOf(Pde(p, e, v / 1024)));
  }

  // ---------------------------------------------------------------- sys_page_unmap, stores, sys_exofork

  // A page unmapped that another entry maps too.
  lemma UnmapUses(s: Sys, e: nat, v: nat)
    requires Good(s) && e in s.p.dirs && v < UVPNS && Pte(s.p, e, v) != 0 && Shape(s.p)
    requires FrameOf(Pte(s.p, e, v)) < |s.p.refs| && 1 < s.p.refs[FrameOf(Pte(s.p, e, v))] <= 0xFFFF
    ensures var t, f := UnmapCall(s, e, v).p, FrameOf(Pte(s.p, e, v));
      && Shape(t) && t.free == s.p.free && t.refs == s.p.refs[f := s.p.refs[f] - 1] && t.dirs == s.p.dirs
      && (forall e1, i :: e1 in s.p.dirs && 0 <= i < UPDES ==> Pde(t, e1, i) == Pde(s.p, e1, i))
  {
    hide InvHeld, Unique, Clean, FreeOk, Counted, RefTo, PageRemove, RemovedLike, DecRef, Pte;
    var f := FrameOf(Pte(s.p, e, v));
    RemoveLaw(s.p, s.lost, multiset{}, e, v);
    RemoveIsDec(s.p, e, v);
    RemovedTables(s.p, PageRemove(s.p, e, v), e, v);
    InvParts(s.p, s.lost, multiset{});
    TableNotKernel(s.p, e, v);
    OneLess(SetPte(s.p, e, v, 0), f);
  }

  lemma RemovedTables(p: Phys, q: Phys, e: nat, v: nat)
    requires Shape(p) && e in p.dirs && v < UVPNS && RemovedLike(p, q, e, v)
    ensures Shape(q) && q.dirs == p.dirs
    ensures forall e1, i :: e1 in p.dirs && 0 <= i < UPDES ==> Pde(q, e1, i) == Pde(p, e1, i)
  {
    hide Pte, RefTo;
  }

  lemma OneLess(p: Phys, f: nat)
    requires f < |p.refs| && 1 < p.refs[f] <= 0xFFFF
    ensures DecRef(p, f).free == p.free && DecRef(p, f).refs == p.refs[f := p.refs[f] - 1]
  {
    assert (p.refs[f] + 0xFFFF) % 0x1_0000 == p.refs[f] - 1;
  }

  lemma FillUses(s: Sys, e: nat, v: nat, page: Page)
    requires Good(s) && Page?(s, e, v) && Shape(s.p)
    ensures var t := Fill(s, e, v, page).p;
      && Shape(t) && t.free == s.p.free && t.refs == s.p.refs && t.dirs == s.p.dirs
      && (forall e1, i :: e1 in s.p.dirs && 0 <= i < UPDES ==> Pde(t, e1, i) == Pde(s.p, e1, i))
  {
    MappedIsMappable(s.p, s.lost, multiset{}, e, v);
    DataWrite(s.p, FrameOf(Pte(s.p, e, v)), page);
    hide Unique, Clean, RefTo, Refs;
  }

  // An environment is created exactly when its slot is free and a frame is left.
  lemma NewEnvSucceedsIff(s: Sys, e: nat)
    requires Good(s) && Shape(s.p)
    ensures NewEnv(s, e).Some? <==> e !in s.p.dirs && s.p.free != []
  {
  }

  lemma NewEnvUses(s: Sys, e: nat)
    requires Good(s) && NewEnv(s, e).Some? && Shape(s.p)
    ensures var t := NewEnv(s, e).value.p;
      && Shape(t) && |t.free| == |s.p.free| - 1 && t.dirs.Keys == s.p.dirs.Keys + {e} && |t.refs| == |s.p.refs|
      && (forall g :: 0 <= g < |s.p.refs| && g !in s.p.free ==> t.refs[g] == s.p.refs[g])
      && (forall g :: g in t.free ==> g in s.p.free)
      && (forall i :: 0 <= i < UPDES ==> Pde(t, e, i) == 0)
      && (forall e1, i :: e1 in s.p.dirs && 0 <= i < UPDES ==> Pde(t, e1, i) == Pde(s.p, e1, i))
  {
    SetupLaw(s.p, s.lost, multiset{}, e);
    assert s.p.free[0] in s.p.free;
    InvParts(s.p, s.lost, multiset{});
    forall e1 | e1 in s.p.dirs
      ensures s.p.dirs[e1] != s.p.free[0]
    {
      assert RefTo(s.p, EnvRef(e1), s.p.dirs[e1]);
      Unreferenced(s.p, s.lost, multiset{}, s.p.free[0]);
    }
    hide Unique, Counted;
  }
}
