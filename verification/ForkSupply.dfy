/** When `fork`, `fork_v0` and the page-fault handler succeed (sched/lib/fork.c), from the free
    list, the tables and the counters alone. */
module ForkSupply {
  import opened Paging
  import opened PagingLaws
  import opened PageCalls
  import opened UserCalls
  import opened Cow
  import opened Eager
  import opened Supply
  import IpcPage

  // ---------------------------------------------------------------- one page

  /** `duppage` succeeds exactly on a present user page whose counter has room, with the
      child's table there or a frame for it. */
  lemma DupPageSucceedsIff(s: Sys, parent: nat, child: nat, v: nat)
    requires Good(s) && parent in s.p.dirs && child in s.p.dirs && parent != child && v < UVPNS && Shape(s.p)
    ensures DupPage(s, parent, child, v).Some? <==>
      && Page?(s, parent, v) && HasU(PermAt(s, parent, v))
      && HasRoom(s, parent, v, child, v) && |s.p.free| >= TableCost(s.p, child, v)
  {
    hide Good, MapCall, Kept, Shown, HasRoom, Pte, Pde;
    var perm := PermAt(s, parent, v);
    MappedIsPresent(s, parent, v);
    if HasP(perm) && HasU(perm) {
      var k := if Writable(perm) then Kept(perm) + PTE_COW else Kept(perm);
      KeptIsReadOnly(perm);
      MapSucceedsIff(s, parent, v, child, v, k);
      if Writable(perm) && MapCall(s, parent, v, child, v, k).Some? {
        MapEffect(s, parent, v, child, v, k);
        var s1 := MapCall(s, parent, v, child, v, k).value;
        ShownAt(s, parent, v);
        ShownAt(s1, parent, v);
        MapSucceedsIff(s1, parent, v, parent, v, k);
        RemapFits(s1, parent, v);
      }
    }
  }

  lemma MappedIsPresent(s: Sys, e: nat, v: nat)
    requires Good(s) && e in s.p.dirs && v < UVPNS
    ensures HasP(PermAt(s, e, v)) <==> Page?(s, e, v)
  {
    hide Unique, Counted, FreeOk;
  }

  lemma KeptIsReadOnly(perm: nat)
    ensures !HasW(OrUP(Kept(perm))) && !HasW(OrUP(Kept(perm) + PTE_COW))
  {
  }

  lemma RemapFits(s: Sys, e: nat, v: nat)
    requires Good(s) && Page?(s, e, v) && Shape(s.p)
    ensures HasRoom(s, e, v, e, v) && TableCost(s.p, e, v) == 0
  {
    MappedIsMappable(s.p, s.lost, multiset{}, e, v);
    hide Unique, Counted, FreeOk;
  }

  // What changes when `duppage` maps a page the child did not have.
  ghost predicate SharedOne(s: Sys, t: Sys, parent: nat, child: nat, v: nat)
    requires Good(s) && Good(t) && Page?(s, parent, v) && child in s.p.dirs && v < UVPNS && Shape(s.p) && Shape(t.p)
  {
    var f := FrameOf(Pte(s.p, parent, v));
    && |t.p.free| == |s.p.free| - TableCost(s.p, child, v) && OneTable(s.p, t.p, child, v)
    && f < |s.p.refs| && f !in s.p.free && Counted1(s.p, t.p, f) && (forall g :: g in t.p.free ==> g in s.p.free)
  }

  lemma DupPageUses(s: Sys, parent: nat, child: nat, v: nat)
    requires Good(s) && parent in s.p.dirs && child in s.p.dirs && parent != child && v < UVPNS && Shape(s.p)
    requires DupPage(s, parent, child, v).Some? && Pte(s.p, child, v) == 0
    ensures var t := DupPage(s, parent, child, v).value;
      && Good(t) && Shape(t.p) && t.p.dirs == s.p.dirs && Page?(s, parent, v) && SharedOne(s, t, parent, child, v)
      && (forall e1, v1 :: e1 in s.p.dirs && 0 <= v1 < UVPNS && v1 != v ==> Pte(t.p, e1, v1) == Pte(s.p, e1, v1))
  {
    hide Good, MapCall, Kept, Shown, OneTable, Counted1, Pte, Data, OrUP;
    var perm := PermAt(s, parent, v);
    if Writable(perm) {
      var k := Kept(perm) + PTE_COW;
      MapPointwise(s, parent, v, child, v, k);
      MapUses(s, parent, v, child, v, k);
      var s1 := MapCall(s, parent, v, child, v, k).value;
      MapPointwise(s1, parent, v, parent, v, k);
      RemapUses(s1, parent, v, k);
      RemapKeeps(s.p, s1.p, MapCall(s1, parent, v, parent, v, k).value.p, child, v, FrameOf(Pte(s.p, parent, v)));
    } else {
      MapPointwise(s, parent, v, child, v, Kept(perm));
      MapUses(s, parent, v, child, v, Kept(perm));
    }
  }

  lemma RemapKeeps(p: Phys, q: Phys, r: Phys, e: nat, v: nat, f: nat)
    requires Shape(p) && Shape(q) && Shape(r) && e in p.dirs && v < UVPNS && OneTable(p, q, e, v) && Counted1(p, q, f)
    requires r.dirs == q.dirs && r.refs == q.refs
    requires forall e1, i :: e1 in q.dirs && 0 <= i < UPDES ==> Pde(r, e1, i) == Pde(q, e1, i)
    ensures OneTable(p, r, e, v) && Counted1(p, r, f)
  {
  }

  // ---------------------------------------------------------------- the page-fault handler

  /** The handler gets its private copy exactly when the free list has a frame, and one more
      for the table of PFTEMP if that is missing. */
  lemma PrivateCopySucceedsIff(s: Sys, e: nat, v: nat, err: bv32)
    requires Good(s) && Page?(s, e, v) && v != PFTEMP && Shape(s.p)
    ensures PgFault(s, e, v, err).Some? <==> |s.p.free| >= 1 + TableCost(s.p, e, PFTEMP)
  {
    hide Good, AllocCall, MapCall, UnmapCall, Fill, Data, Shown, Pte, GuardFires;
    GuardNeverFires(err, PermAt(s, e, v));
    AllocSucceedsIff(s, e, PFTEMP, PTE_PUW);
    ProperPerms();
    var r := AllocCall(s, e, PFTEMP, PTE_PUW);
    if r.Some? {
      AllocEffect(s, e, PFTEMP, PTE_PUW);
      ShownAt(s, e, v);
      ShownAt(r.value, e, v);
      ShownAt(r.value, e, PFTEMP);
      FreshCount(s, e, PFTEMP, PTE_PUW);
      var page := Data(r.value, e, v);
      FillEffect(r.value, e, PFTEMP, page);
      FillUses(r.value, e, PFTEMP, page);
      FillPtes(r.value, e, PFTEMP, page);
      var s2 := Fill(r.value, e, PFTEMP, page);
      ShownAt(s2, e, v);
      ShownAt(s2, e, PFTEMP);
      RemapFits(s2, e, v);
      MapSucceedsIff(s2, e, PFTEMP, e, v, PTE_PUW);
    }
  }

  lemma ProperPerms()
    ensures OrP(OrU(PTE_PUW)) == PTE_PUW && CheckPerm(PTE_PUW) && OrP(OrU(2)) == PTE_PUW && HasW(PTE_PUW)
    ensures OrP(OrU(PTE_PU)) == PTE_PU && CheckPerm(PTE_PU)
  {
  }

  // The frame of a new page is counted once.
  lemma FreshCount(s: Sys, e: nat, v: nat, perm: nat)
    requires Good(s) && e in s.p.dirs && v < UVPNS && AllocCall(s, e, v, perm).Some?
    ensures var t := AllocCall(s, e, v, perm).value;
      && Good(t) && Shape(t.p) && t.p.dirs == s.p.dirs && FrameOf(Pte(t.p, e, v)) < |t.p.refs|
      && t.p.refs[FrameOf(Pte(t.p, e, v))] == 1
  {
    hide NewPage, InvHeld, EnvPageAlloc, OrP, OrU, Unique, Clean, RefTo;
    PageAllocLaw(s, e, v, OrP(OrU(perm)));
    InvParts(s.p, s.lost, multiset{});
    IpcPage.PlaceholderAlone(s, AllocCall(s, e, v, perm).value, e, v, OrP(OrU(perm)));
    NewPageAt(s.p, AllocCall(s, e, v, perm).value.p, e, v, OrP(OrU(perm)));
  }

  lemma FillPtes(s: Sys, e: nat, v: nat, page: Page)
    requires Good(s) && Page?(s, e, v) && Shape(s.p)
    ensures var t := Fill(s, e, v, page);
      && Good(t) && Shape(t.p) && t.p.dirs == s.p.dirs
      && forall e1, v1 :: e1 in s.p.dirs && 0 <= v1 < UVPNS ==> Pte(t.p, e1, v1) == Pte(s.p, e1, v1)
  {
    FillPointwise(s, e, v, page);
    FillUses(s, e, v, page);
  }

  // ---------------------------------------------------------------- what is left of a loop

  // The two loops over the address space.
  datatype Way = ByCow | ByCopy

  // The page is mapped in the child too ...
  ghost predicate Shares(p: Phys, way: Way, e: nat, v: nat)
    requires Shape(p) && e in p.dirs && v < UVPNS
  {
    var pte := Pte(p, e, v);
    pte != 0 && if way == ByCow then v != XSTK && HasU(PermOf(pte)) else !HasW(PermOf(pte)) || HasIo(PermOf(pte))
  }

  // ... or copied.
  ghost predicate Copies(p: Phys, way: Way, e: nat, v: nat)
    requires Shape(p) && e in p.dirs && v < UVPNS
  {
    var pte := Pte(p, e, v);
    pte != 0 && way == ByCopy && HasW(PermOf(pte)) && !HasIo(PermOf(pte))
  }

  // From page number `n` on: the tables the child lacks, ...
  ghost function Regions(p: Phys, way: Way, parent: nat, child: nat, n: nat): set<nat>
    requires Shape(p) && parent in p.dirs && child in p.dirs
  {
    set v: nat | n <= v < UVPNS && (Shares(p, way, parent, v) || Copies(p, way, parent, v))
      && Pde(p, child, v / 1024) == 0
      :: v / 1024
  }

  // ... the pages that share frame `f`, ...
  ghost function Sharers(p: Phys, way: Way, parent: nat, f: nat, n: nat): set<nat>
    requires Shape(p) && parent in p.dirs
  {
    set v: nat | n <= v < UVPNS && Shares(p, way, parent, v) && FrameOf(Pte(p, parent, v)) == f
  }

  // ... and the pages to copy.
  ghost function Copied(p: Phys, way: Way, parent: nat, n: nat): set<nat>
    requires Shape(p) && parent in p.dirs
  {
    set v: nat | n <= v < UVPNS && Copies(p, way, parent, v)
  }

  // The counters have room for all that is shared.
  ghost predicate Room(p: Phys, way: Way, parent: nat, n: nat)
    requires Shape(p) && parent in p.dirs
  {
    forall v: nat :: n <= v < UVPNS && Shares(p, way, parent, v) ==>
      RoomAt(p, way, parent, n, FrameOf(Pte(p, parent, v)))
  }

  ghost predicate RoomAt(p: Phys, way: Way, parent: nat, n: nat, f: nat)
    requires Shape(p) && parent in p.dirs
  {
    f < |p.refs| && p.refs[f] + |Sharers(p, way, parent, f, n)| <= 0xFFFF
  }

  // The frames it takes: tables, copies, and the table of UTEMP to make them through.
  ghost function Frames(p: Phys, way: Way, parent: nat, child: nat, n: nat): nat
    requires Shape(p) && parent in p.dirs && child in p.dirs
  {
    |Regions(p, way, parent, child, n)| + |Copied(p, way, parent, n)|
    + if Copied(p, way, parent, n) == {} then 0 else TableCost(p, parent, UTEMP)
  }

  // `q` maps what `p` maps, page number `n` apart, and its child has the table for `n`.
  ghost predicate Passed(p: Phys, q: Phys, parent: nat, child: nat, n: nat)
    requires Shape(p) && Shape(q) && parent in p.dirs && child in p.dirs && n < UVPNS
  {
    && q.dirs == p.dirs
    && (forall v: nat :: n < v < UVPNS ==>
          Pte(q, parent, v) == Pte(p, parent, v) && Pte(q, child, v) == Pte(p, child, v))
    && (forall i: nat :: i < UPDES ==> (Pde(q, child, i) == 0 <==> Pde(p, child, i) == 0 && i != n / 1024))
  }

  lemma RegionsPassed(p: Phys, q: Phys, way: Way, parent: nat, child: nat, n: nat)
    requires Shape(p) && Shape(q) && parent in p.dirs && child in p.dirs && n < UVPNS && Passed(p, q, parent, child, n)
    requires Shares(p, way, parent, n) || Copies(p, way, parent, n)
    ensures Regions(q, way, parent, child, n + 1) == Regions(p, way, parent, child, n) - {n / 1024}
    ensures n / 1024 in Regions(p, way, parent, child, n) <==> Pde(p, child, n / 1024) == 0
    ensures |Regions(p, way, parent, child, n)| == |Regions(q, way, parent, child, n + 1)| + TableCost(p, child, n)
  {
    hide Pte, Pde;
    var a, b := Regions(p, way, parent, child, n), Regions(q, way, parent, child, n + 1);
    forall i
      ensures i in b <==> i in a && i != n / 1024
    {
      if i in a && i != n / 1024 {
        var v: nat :| n <= v < UVPNS && (Shares(p, way, parent, v) || Copies(p, way, parent, v))
          && Pde(p, child, v / 1024) == 0 && i == v / 1024;
        assert Shares(q, way, parent, v) || Copies(q, way, parent, v);
      }
      if i in b {
        var v: nat :| n + 1 <= v < UVPNS && (Shares(q, way, parent, v) || Copies(q, way, parent, v))
          && Pde(q, child, v / 1024) == 0 && i == v / 1024;
        assert Shares(p, way, parent, v) || Copies(p, way, parent, v);
      }
    }
    assert b == a - {n / 1024};
  }

  lemma RegionsSkip(p: Phys, way: Way, parent: nat, child: nat, n: nat)
    requires Shape(p) && parent in p.dirs && child in p.dirs && n < UVPNS
    requires !Shares(p, way, parent, n) && !Copies(p, way, parent, n)
    ensures Regions(p, way, parent, child, n) == Regions(p, way, parent, child, n + 1)
    ensures Copied(p, way, parent, n) == Copied(p, way, parent, n + 1)
    ensures forall f :: Sharers(p, way, parent, f, n) == Sharers(p, way, parent, f, n + 1)
    ensures Frames(p, way, parent, child, n) == Frames(p, way, parent, child, n + 1)
    ensures Room(p, way, parent, n) <==> Room(p, way, parent, n + 1)
  {
    hide Shares, Copies, Pde, Pte;
    assert forall f, v :: v in Sharers(p, way, parent, f, n) <==> v in Sharers(p, way, parent, f, n + 1);
    assert forall f :: Sharers(p, way, parent, f, n) == Sharers(p, way, parent, f, n + 1);
    forall v: nat | n <= v < UVPNS && Shares(p, way, parent, v)
      ensures n + 1 <= v
      ensures RoomAt(p, way, parent, n, FrameOf(Pte(p, parent, v))) <==>
        RoomAt(p, way, parent, n + 1, FrameOf(Pte(p, parent, v)))
    {
    }
    hide Sharers, Regions, Copied;
  }

  lemma CopiedPassed(p: Phys, q: Phys, way: Way, parent: nat, child: nat, n: nat)
    requires Shape(p) && Shape(q) && parent in p.dirs && child in p.dirs && n < UVPNS && Passed(p, q, parent, child, n)
    ensures Copied(q, way, parent, n + 1) == Copied(p, way, parent, n) - {n}
    ensures n in Copied(p, way, parent, n) <==> Copies(p, way, parent, n)
    ensures forall f :: Sharers(q, way, parent, f, n + 1) == Sharers(p, way, parent, f, n) - {n}
    ensures forall f :: n in Sharers(p, way, parent, f, n) <==>
      Shares(p, way, parent, n) && FrameOf(Pte(p, parent, n)) == f
  {
    hide Pte, Pde;
    assert forall v: nat :: n < v < UVPNS ==> (Copies(q, way, parent, v) <==> Copies(p, way, parent, v));
    assert forall v: nat :: n < v < UVPNS ==> (Shares(q, way, parent, v) <==> Shares(p, way, parent, v));
    hide Copies, Shares;
    forall f
      ensures Sharers(q, way, parent, f, n + 1) == Sharers(p, way, parent, f, n) - {n}
    {
      assert forall v :: v in Sharers(q, way, parent, f, n + 1) <==> v in Sharers(p, way, parent, f, n) && v != n;
    }
  }

  // The pages map frames in use.
  ghost predicate InUse(p: Phys, e: nat)
    requires Shape(p) && e in p.dirs
  {
    forall v: nat :: v < UVPNS && Pte(p, e, v) != 0 ==>
      FrameOf(Pte(p, e, v)) < |p.refs| && FrameOf(Pte(p, e, v)) !in p.free
  }

  // What is counted for frame `f` and what is still to be.
  ghost function Load(p: Phys, way: Way, parent: nat, n: nat, f: nat): nat
    requires Shape(p) && parent in p.dirs && f < |p.refs|
  {
    p.refs[f] + |Sharers(p, way, parent, f, n)|
  }

  lemma RoomAtPassed(p: Phys, q: Phys, way: Way, parent: nat, n: nat, f: nat)
    requires Shape(p) && Shape(q) && parent in p.dirs && parent in q.dirs && f < |p.refs| == |q.refs|
    requires Load(p, way, parent, n, f) == Load(q, way, parent, n + 1, f)
    ensures RoomAt(p, way, parent, n, f) <==> RoomAt(q, way, parent, n + 1, f)
  {
  }

  lemma SharesPassed(p: Phys, q: Phys, way: Way, parent: nat, child: nat, n: nat, v: nat)
    requires Shape(p) && Shape(q) && parent in p.dirs && child in p.dirs
      && n < v < UVPNS && Passed(p, q, parent, child, n)
    ensures Shares(q, way, parent, v) <==> Shares(p, way, parent, v)
    ensures Pte(q, parent, v) == Pte(p, parent, v)
  {
    hide Pte, Pde;
  }

  lemma SharerInUse(p: Phys, way: Way, e: nat, v: nat)
    requires Shape(p) && e in p.dirs && v < UVPNS && InUse(p, e) && Shares(p, way, e, v)
    ensures FrameOf(Pte(p, e, v)) < |p.refs| && FrameOf(Pte(p, e, v)) !in p.free
  {
  }

  // Room for the pages after `n`, with all that is shared from `n` on.
  ghost predicate RoomBeyond(p: Phys, way: Way, parent: nat, n: nat)
    requires Shape(p) && parent in p.dirs
  {
    forall v: nat :: n < v < UVPNS && Shares(p, way, parent, v) ==>
      RoomAt(p, way, parent, n, FrameOf(Pte(p, parent, v)))
  }

  lemma RoomSplit(p: Phys, way: Way, parent: nat, n: nat)
    requires Shape(p) && parent in p.dirs && n < UVPNS
    ensures Room(p, way, parent, n) <==>
      (Shares(p, way, parent, n) ==> RoomAt(p, way, parent, n, FrameOf(Pte(p, parent, n))))
      && RoomBeyond(p, way, parent, n)
  {
    hide Shares, RoomAt, Pte;
  }

  // Room for the pages after `n` is room for them where the counts differ by what was shared.
  lemma RoomAfter(p: Phys, q: Phys, way: Way, parent: nat, child: nat, n: nat)
    requires Shape(p) && Shape(q) && parent in p.dirs && child in p.dirs && n < UVPNS && Passed(p, q, parent, child, n)
    requires InUse(p, parent) && |q.refs| == |p.refs| && q.dirs == p.dirs
    requires forall g :: 0 <= g < |p.refs| && g !in p.free ==>
      Load(q, way, parent, n + 1, g) == Load(p, way, parent, n, g)
    ensures Room(q, way, parent, n + 1) <==> RoomBeyond(p, way, parent, n)
  {
    hide Shares, Sharers, RoomAt, Pte, Passed, InUse, Load;
    forall v: nat | n < v < UVPNS
      ensures Shares(q, way, parent, v) <==> Shares(p, way, parent, v)
      ensures FrameOf(Pte(q, parent, v)) == FrameOf(Pte(p, parent, v))
      ensures Shares(p, way, parent, v) ==>
        (RoomAt(p, way, parent, n, FrameOf(Pte(p, parent, v))) <==>
         RoomAt(q, way, parent, n + 1, FrameOf(Pte(p, parent, v))))
    {
      SharesPassed(p, q, way, parent, child, n, v);
      if Shares(p, way, parent, v) {
        SharerInUse(p, way, parent, v);
        RoomAtPassed(p, q, way, parent, n, FrameOf(Pte(p, parent, v)));
      }
    }
  }

  // Sharing page number `n` takes its share of the room.
  lemma RoomShared(p: Phys, q: Phys, way: Way, parent: nat, child: nat, n: nat)
    requires Shape(p) && Shape(q) && parent in p.dirs && child in p.dirs && n < UVPNS && Passed(p, q, parent, child, n)
    requires Shares(p, way, parent, n) && Counted1(p, q, FrameOf(Pte(p, parent, n))) && InUse(p, parent)
    ensures FrameOf(Pte(p, parent, n)) < |p.refs|
    ensures Room(p, way, parent, n) <==>
      p.refs[FrameOf(Pte(p, parent, n))] < 0xFFFF && Room(q, way, parent, n + 1)
  {
    var f := FrameOf(Pte(p, parent, n));
    SharerInUse(p, way, parent, n);
    assert q.dirs == p.dirs;
    hide Shares, Sharers, Pte, Pde, Passed, InUse, Room, RoomBeyond, Load, RoomAt;
    forall g | 0 <= g < |p.refs| && g !in p.free
      ensures Load(q, way, parent, n + 1, g) == Load(p, way, parent, n, g)
    {
      LoadShared(p, q, way, parent, child, n, g);
    }
    RoomAfter(p, q, way, parent, child, n);
    RoomSplit(p, way, parent, n);
    LoadShared(p, q, way, parent, child, n, f);
    FirstShare(p, q, way, parent, child, n);
  }

  // Where the rest has room, so has the first one if its counter is not full.
  lemma FirstShare(p: Phys, q: Phys, way: Way, parent: nat, child: nat, n: nat)
    requires Shape(p) && Shape(q) && parent in p.dirs && child in p.dirs && n < UVPNS && Passed(p, q, parent, child, n)
    requires Shares(p, way, parent, n) && FrameOf(Pte(p, parent, n)) < |p.refs|
    requires |Sharers(p, way, parent, FrameOf(Pte(p, parent, n)), n)|
      == 1 + |Sharers(q, way, parent, FrameOf(Pte(p, parent, n)), n + 1)|
    ensures RoomAt(p, way, parent, n, FrameOf(Pte(p, parent, n))) ==> p.refs[FrameOf(Pte(p, parent, n))] < 0xFFFF
    ensures RoomBeyond(p, way, parent, n) && p.refs[FrameOf(Pte(p, parent, n))] < 0xFFFF ==>
      RoomAt(p, way, parent, n, FrameOf(Pte(p, parent, n)))
  {
    var f := FrameOf(Pte(p, parent, n));
    hide Shares, Sharers, Pte, Pde, Passed;
    if |Sharers(q, way, parent, f, n + 1)| > 0 {
      LaterSharer(p, q, way, parent, child, f, n);
    }
  }

  lemma LoadShared(p: Phys, q: Phys, way: Way, parent: nat, child: nat, n: nat, g: nat)
    requires Shape(p) && Shape(q) && parent in p.dirs && child in p.dirs && n < UVPNS && Passed(p, q, parent, child, n)
    requires Shares(p, way, parent, n) && Counted1(p, q, FrameOf(Pte(p, parent, n)))
    requires g < |p.refs| == |q.refs| && g !in p.free
    ensures parent in q.dirs && Load(q, way, parent, n + 1, g) == Load(p, way, parent, n, g)
    ensures |Sharers(p, way, parent, g, n)|
      == |Sharers(q, way, parent, g, n + 1)| + if g == FrameOf(Pte(p, parent, n)) then 1 else 0
  {
    CopiedPassed(p, q, way, parent, child, n);
    hide Shares, Pte, Pde;
    SizeWithoutOne(Sharers(p, way, parent, g, n), n);
    hide Sharers;
  }

  lemma SizeWithoutOne(a: set<nat>, x: nat)
    ensures |a| == |a - {x}| + if x in a then 1 else 0
  {
    if x in a {
      assert a == a - {x} + {x};
    } else {
      assert a == a - {x};
    }
  }

  lemma LaterSharer(p: Phys, q: Phys, way: Way, parent: nat, child: nat, f: nat, n: nat)
    requires Shape(p) && Shape(q) && parent in p.dirs && child in p.dirs && n < UVPNS && Passed(p, q, parent, child, n)
    requires |Sharers(q, way, parent, f, n + 1)| > 0
    ensures exists v: nat :: n < v < UVPNS && Shares(p, way, parent, v) && FrameOf(Pte(p, parent, v)) == f
  {
    var v: nat :| v in Sharers(q, way, parent, f, n + 1);
    SharesPassed(p, q, way, parent, child, n, v);
  }

  // Copying it takes none.
  lemma RoomCopied(p: Phys, q: Phys, way: Way, parent: nat, child: nat, n: nat)
    requires Shape(p) && Shape(q) && parent in p.dirs && child in p.dirs && n < UVPNS && Passed(p, q, parent, child, n)
    requires Copies(p, way, parent, n) && |q.refs| == |p.refs| && InUse(p, parent)
    requires forall g :: 0 <= g < |p.refs| && g !in p.free ==> q.refs[g] == p.refs[g]
    ensures Room(p, way, parent, n) <==> Room(q, way, parent, n + 1)
  {
    assert !Shares(p, way, parent, n) && q.dirs == p.dirs;
    hide Shares, Sharers, Pte, Pde, Passed, InUse, Copies, Room, RoomBeyond, Load, RoomAt;
    forall g | 0 <= g < |p.refs| && g !in p.free
      ensures Load(q, way, parent, n + 1, g) == Load(p, way, parent, n, g)
    {
      LoadCopied(p, q, way, parent, child, n, g);
    }
    RoomAfter(p, q, way, parent, child, n);
    RoomSplit(p, way, parent, n);
  }

  lemma LoadCopied(p: Phys, q: Phys, way: Way, parent: nat, child: nat, n: nat, g: nat)
    requires Shape(p) && Shape(q) && parent in p.dirs && child in p.dirs && n < UVPNS && Passed(p, q, parent, child, n)
    requires !Shares(p, way, parent, n) && g < |p.refs| == |q.refs| && q.refs[g] == p.refs[g]
    ensures parent in q.dirs && Load(q, way, parent, n + 1, g) == Load(p, way, parent, n, g)
  {
    CopiedPassed(p, q, way, parent, child, n);
    hide Shares, Pte, Pde;
    assert n !in Sharers(p, way, parent, g, n);
    assert Sharers(p, way, parent, g, n) - {n} == Sharers(p, way, parent, g, n);
    hide Sharers;
  }

  // ---------------------------------------------------------------- the loop of fork

  lemma PresentIff(s: Sys, e: nat, v: nat)
    requires Good(s) && e in s.p.dirs && v < UVPNS && Shape(s.p)
    ensures Shares(s.p, ByCow, e, v) <==> Present(s, e, v) && v != XSTK
    ensures Shares(s.p, ByCopy, e, v) || Copies(s.p, ByCopy, e, v) <==> !Skipped(s, e, v)
    ensures Pte(s.p, e, v) != 0 ==> Page?(s, e, v) && HasP(PermAt(s, e, v))
    ensures InUse(s.p, e)
  {
    forall w: nat | w < UVPNS && Pte(s.p, e, w) != 0
      ensures FrameOf(Pte(s.p, e, w)) < |s.p.refs| && FrameOf(Pte(s.p, e, w)) !in s.p.free
    {
      MappedIsMappable(s.p, s.lost, multiset{}, e, w);
    }
    hide Unique, FreeOk, Counted;
  }

  lemma NothingLeft(p: Phys, way: Way, parent: nat, child: nat)
    requires Shape(p) && parent in p.dirs && child in p.dirs
    ensures Regions(p, way, parent, child, UVPNS) == {} && Frames(p, way, parent, child, UVPNS) == 0
    ensures Room(p, way, parent, UVPNS)
  {
    assert Copied(p, way, parent, UVPNS) == {};
  }

  lemma NoRoom(p: Phys, way: Way, parent: nat, n: nat)
    requires Shape(p) && parent in p.dirs && n < UVPNS && Shares(p, way, parent, n)
    requires FrameOf(Pte(p, parent, n)) < |p.refs| && p.refs[FrameOf(Pte(p, parent, n))] >= 0xFFFF
    ensures !Room(p, way, parent, n)
  {
    hide Shares, Pte;
    RoomSplit(p, way, parent, n);
    assert n in Sharers(p, way, parent, FrameOf(Pte(p, parent, n)), n);
  }

  // No page from `n` on in the child.
  ghost predicate EmptyFrom(p: Phys, e: nat, n: nat)
    requires Shape(p) && e in p.dirs
  {
    forall v: nat :: n <= v < UVPNS ==> Pte(p, e, v) == 0
  }

  // The child's tables after the loop.
  ghost predicate TablesAfter(p: Phys, q: Phys, way: Way, parent: nat, child: nat, n: nat)
    requires Shape(p) && Shape(q) && parent in p.dirs && child in p.dirs
  {
    q.dirs == p.dirs && forall i: nat :: i < UPDES ==>
      (Pde(q, child, i) == 0 <==> Pde(p, child, i) == 0 && i !in Regions(p, way, parent, child, n))
  }

  lemma TablesStep(p: Phys, q: Phys, r: Phys, way: Way, parent: nat, child: nat, n: nat)
    requires Shape(p) && Shape(q) && Shape(r) && parent in p.dirs && child in p.dirs && n < UVPNS
    requires Passed(p, q, parent, child, n) && (Shares(p, way, parent, n) || Copies(p, way, parent, n))
    requires TablesAfter(q, r, way, parent, child, n + 1)
    ensures TablesAfter(p, r, way, parent, child, n)
  {
    RegionsPassed(p, q, way, parent, child, n);
    hide Regions, Pde, Shares, Copies;
  }

  lemma SharedIsPassed(s: Sys, t: Sys, parent: nat, child: nat, v: nat)
    requires Good(s) && Good(t) && Page?(s, parent, v) && child in s.p.dirs && v < UVPNS && Shape(s.p) && Shape(t.p)
    requires SharedOne(s, t, parent, child, v) && EmptyFrom(s.p, child, v)
    requires forall e1, v1 :: e1 in s.p.dirs && 0 <= v1 < UVPNS && v1 != v ==> Pte(t.p, e1, v1) == Pte(s.p, e1, v1)
    ensures Passed(s.p, t.p, parent, child, v) && EmptyFrom(t.p, child, v + 1)
  {
    hide Good, Pte, Pde;
  }

  /** The loop of fork goes through exactly when the free list has a frame for each table the
      child lacks and every counter has room for the pages that map its frame. */
  lemma {:induction false} DupAllSucceedsIff(s: Sys, parent: nat, child: nat, n: nat)
    requires Good(s) && Shape(s.p) && parent in s.p.dirs && child in s.p.dirs && parent != child && n <= UVPNS
    requires EmptyFrom(s.p, child, n)
    ensures DupAll(s, parent, child, n).Some? <==>
      |s.p.free| >= |Regions(s.p, ByCow, parent, child, n)| && Room(s.p, ByCow, parent, n)
    ensures DupAll(s, parent, child, n).Some? ==>
      && Shape(DupAll(s, parent, child, n).value.p)
      && |DupAll(s, parent, child, n).value.p.free| == |s.p.free| - |Regions(s.p, ByCow, parent, child, n)|
      && TablesAfter(s.p, DupAll(s, parent, child, n).value.p, ByCow, parent, child, n)
    decreases UVPNS - n
  {
    hide Good, Shape, DupPage, Present, Shares, Copies,
      Regions, Sharers, Room, TablesAfter, SharedOne, EmptyFrom, Pte, Pde;
    hide Passed, HasRoom, TableCost;
    if n == UVPNS {
      NothingLeft(s.p, ByCow, parent, child);
      NoTablesYet(s.p, ByCow, parent, child);
    } else {
      PresentIff(s, parent, n);
      if n == XSTK || !Present(s, parent, n) {
        NotCopied(s.p, parent, n);
        RegionsSkip(s.p, ByCow, parent, child, n);
        EmptyLater(s.p, child, n);
        DupAllSucceedsIff(s, parent, child, n + 1);
        if DupAll(s, parent, child, n + 1).Some? {
          TablesSame(s.p, DupAll(s, parent, child, n + 1).value.p, ByCow, parent, child, n);
        }
      } else {
        DupAllStepIff(s, parent, child, n);
        if DupPage(s, parent, child, n).Some? {
          var t := DupPage(s, parent, child, n).value;
          DupAllSucceedsIff(t, parent, child, n + 1);
          if DupAll(t, parent, child, n + 1).Some? {
            TablesStep(s.p, t.p, DupAll(t, parent, child, n + 1).value.p, ByCow, parent, child, n);
          }
        }
      }
    }
  }

  lemma NoTablesYet(p: Phys, way: Way, parent: nat, child: nat)
    requires Shape(p) && parent in p.dirs && child in p.dirs
    ensures TablesAfter(p, p, way, parent, child, UVPNS)
  {
    NothingLeft(p, way, parent, child);
  }

  lemma TablesSame(p: Phys, q: Phys, way: Way, parent: nat, child: nat, n: nat)
    requires Shape(p) && Shape(q) && parent in p.dirs && child in p.dirs && TablesAfter(p, q, way, parent, child, n + 1)
    requires Regions(p, way, parent, child, n) == Regions(p, way, parent, child, n + 1)
    ensures TablesAfter(p, q, way, parent, child, n)
  {
  }

  lemma NotCopied(p: Phys, parent: nat, v: nat)
    requires Shape(p) && parent in p.dirs && v < UVPNS
    ensures !Copies(p, ByCow, parent, v)
  {
  }

  lemma EmptyLater(p: Phys, e: nat, n: nat)
    requires Shape(p) && e in p.dirs && EmptyFrom(p, e, n)
    ensures EmptyFrom(p, e, n + 1) && (n < UVPNS ==> Pte(p, e, n) == 0)
  {
  }

  // One page of the loop: what it needs, and what it leaves to the rest.
  lemma DupAllStepIff(s: Sys, parent: nat, child: nat, n: nat)
    requires Good(s) && Shape(s.p) && parent in s.p.dirs && child in s.p.dirs && parent != child && n < UVPNS
    requires EmptyFrom(s.p, child, n) && Shares(s.p, ByCow, parent, n) && Present(s, parent, n)
    ensures match DupPage(s, parent, child, n)
      case None => !(|s.p.free| >= |Regions(s.p, ByCow, parent, child, n)| && Room(s.p, ByCow, parent, n))
      case Some(t) =>
        && Good(t) && Shape(t.p) && t.p.dirs == s.p.dirs && EmptyFrom(t.p, child, n + 1)
        && Passed(s.p, t.p, parent, child, n)
        && |t.p.free| - |Regions(t.p, ByCow, parent, child, n + 1)| ==
          |s.p.free| - |Regions(s.p, ByCow, parent, child, n)|
        && (Room(s.p, ByCow, parent, n) <==> Room(t.p, ByCow, parent, n + 1))
  {
    PresentIff(s, parent, n);
    EmptyLater(s.p, child, n);
    assert HasU(PermAt(s, parent, n));
    hide Good, DupPage, Present, Regions, Sharers, Room, SharedOne, EmptyFrom, Pte, Pde, Passed;
    DupPageSucceedsIff(s, parent, child, n);
    SharerInUse(s.p, ByCow, parent, n);
    if DupPage(s, parent, child, n).Some? {
      DupPageUses(s, parent, child, n);
      var t := DupPage(s, parent, child, n).value;
      SharedIsPassed(s, t, parent, child, n);
      SharedParts(s, t, parent, child, n);
      RegionsPassed(s.p, t.p, ByCow, parent, child, n);
      RoomShared(s.p, t.p, ByCow, parent, child, n);
    } else if s.p.refs[FrameOf(Pte(s.p, parent, n))] >= 0xFFFF {
      NoRoom(s.p, ByCow, parent, n);
    } else {
      RegionMissing(s.p, ByCow, parent, child, n);
    }
  }

  lemma SharedParts(s: Sys, t: Sys, parent: nat, child: nat, v: nat)
    requires Good(s) && Good(t) && Page?(s, parent, v) && child in s.p.dirs && v < UVPNS && Shape(s.p) && Shape(t.p)
    requires SharedOne(s, t, parent, child, v)
    ensures |t.p.free| == |s.p.free| - TableCost(s.p, child, v) && Counted1(s.p, t.p, FrameOf(Pte(s.p, parent, v)))
  {
    hide Good, Pte, Pde;
  }

  lemma RegionMissing(p: Phys, way: Way, parent: nat, child: nat, n: nat)
    requires Shape(p) && parent in p.dirs && child in p.dirs && n < UVPNS
    requires Shares(p, way, parent, n) || Copies(p, way, parent, n)
    ensures |Regions(p, way, parent, child, n)| >= TableCost(p, child, n)
  {
    hide Shares, Copies, Pde;
    if Pde(p, child, n / 1024) == 0 {
      assert n / 1024 in Regions(p, way, parent, child, n);
    }
  }

  // ---------------------------------------------------------------- fork

  // The 4 MB regions a child needs tables for, its exception stack's among them.
  ghost function ChildRegions(p: Phys, way: Way, parent: nat): set<nat>
    requires Shape(p) && parent in p.dirs
  {
    (set v: nat | v < UVPNS && (Shares(p, way, parent, v) || Copies(p, way, parent, v)) :: v / 1024)
    + if way == ByCow then {XSTK / 1024} else {}
  }

  // A new environment has no tables, and costs the others nothing but a frame.
  lemma ChildIsNew(s: Sys, way: Way, parent: nat, child: nat)
    requires Good(s) && Shape(s.p) && parent in s.p.dirs && NewEnv(s, child).Some?
    ensures var t := NewEnv(s, child).value;
      && Good(t) && Shape(t.p) && parent in t.p.dirs && child in t.p.dirs && child != parent && child !in s.p.dirs
      && |t.p.free| == |s.p.free| - 1 && EmptyFrom(t.p, child, 0)
      && (Room(t.p, way, parent, 0) <==> Room(s.p, way, parent, 0))
      && ChildRegions(s.p, way, parent) ==
          Regions(t.p, way, parent, child, 0) + (if way == ByCow then {XSTK / 1024} else {})
      && Copied(t.p, way, parent, 0) == Copied(s.p, way, parent, 0)
      && TableCost(t.p, parent, UTEMP) == TableCost(s.p, parent, UTEMP)
      && (forall i: nat :: i < UPDES ==> Pde(t.p, child, i) == 0)
  {
    hide Good, NewEnv, Pte, Pde;
    NewEnvPointwise(s, child);
    NewEnvUses(s, child);
    PresentIff(s, parent, 0);
    var t := NewEnv(s, child).value;
    SameEntries(s.p, t.p, way, parent);
    SamePages(s.p, t.p, way, parent);
    ChildTables(s.p, t.p, way, parent, child);
  }

  // The same pages are shared, from the same frames, and the same ones copied.
  ghost predicate SameWork(p: Phys, q: Phys, way: Way, e: nat)
    requires Shape(p) && Shape(q) && e in p.dirs && e in q.dirs
  {
    forall v: nat :: v < UVPNS ==>
      && (Shares(q, way, e, v) <==> Shares(p, way, e, v)) && (Copies(q, way, e, v) <==> Copies(p, way, e, v))
      && (Shares(p, way, e, v) ==> Pte(q, e, v) == Pte(p, e, v))
  }

  lemma SameEntries(p: Phys, q: Phys, way: Way, e: nat)
    requires Shape(p) && Shape(q) && e in p.dirs && e in q.dirs
    requires forall v: nat :: v < UVPNS && (v != XSTK || way == ByCopy) ==> Pte(q, e, v) == Pte(p, e, v)
    ensures SameWork(p, q, way, e)
  {
    hide Pte;
  }

  lemma SamePages(p: Phys, q: Phys, way: Way, e: nat)
    requires Shape(p) && Shape(q) && e in p.dirs && e in q.dirs && InUse(p, e) && |q.refs| == |p.refs|
    requires SameWork(p, q, way, e)
    requires forall g :: 0 <= g < |p.refs| && g !in p.free ==> q.refs[g] == p.refs[g]
    ensures Copied(q, way, e, 0) == Copied(p, way, e, 0)
    ensures ChildRegions(q, way, e) == ChildRegions(p, way, e)
    ensures Room(q, way, e, 0) <==> Room(p, way, e, 0)
  {
    hide Shares, Copies, Pte;
    assert Copied(q, way, e, 0) == Copied(p, way, e, 0);
    forall v: nat | v < UVPNS && Shares(p, way, e, v)
      ensures RoomAt(q, way, e, 0, FrameOf(Pte(p, e, v))) <==> RoomAt(p, way, e, 0, FrameOf(Pte(p, e, v)))
    {
      SharerInUse(p, way, e, v);
      SameSharers(p, q, way, e, FrameOf(Pte(p, e, v)));
    }
    hide RoomAt;
  }

  lemma SameSharers(p: Phys, q: Phys, way: Way, e: nat, f: nat)
    requires Shape(p) && Shape(q) && e in p.dirs && e in q.dirs && SameWork(p, q, way, e)
    ensures Sharers(q, way, e, f, 0) == Sharers(p, way, e, f, 0)
  {
    hide Pte, Shares, Copies;
  }

  lemma ChildTables(p: Phys, q: Phys, way: Way, parent: nat, child: nat)
    requires Shape(p) && Shape(q) && parent in p.dirs && parent in q.dirs && child in q.dirs
    requires SameWork(p, q, way, parent)
    requires forall i: nat :: i < UPDES ==> Pde(q, child, i) == 0
    ensures ChildRegions(p, way, parent) ==
      Regions(q, way, parent, child, 0) + (if way == ByCow then {XSTK / 1024} else {})
  {
    hide Shares, Copies, Pde, Pte;
    var a := set v: nat | v < UVPNS && (Shares(p, way, parent, v) || Copies(p, way, parent, v)) :: v / 1024;
    forall i
      ensures i in a <==> i in Regions(q, way, parent, child, 0)
    {
      if i in a {
        var v: nat :| v < UVPNS && (Shares(p, way, parent, v) || Copies(p, way, parent, v)) && i == v / 1024;
        assert Shares(q, way, parent, v) || Copies(q, way, parent, v);
      }
    }
    assert a == Regions(q, way, parent, child, 0);
  }

  // What fork starts from: the parent may need an exception stack first.
  ghost function Prepared(s: Sys, parent: nat, first: bool): Option<Sys>
    requires Good(s) && parent in s.p.dirs
  {
    if first then UserAlloc(s, parent, XSTK, true) else Some(s)
  }

  lemma PreparedIff(s: Sys, parent: nat, first: bool)
    requires Good(s) && parent in s.p.dirs && Shape(s.p)
    ensures Prepared(s, parent, first).Some? <==> first ==> |s.p.free| >= 1 + TableCost(s.p, parent, XSTK)
    ensures Prepared(s, parent, first).Some? ==>
      Good(Prepared(s, parent, first).value) && Shape(Prepared(s, parent, first).value.p)
      && Prepared(s, parent, first).value.p.dirs == s.p.dirs
  {
    hide Good, AllocCall, Shown, Pde;
    ProperPerms();
    AllocSucceedsIff(s, parent, XSTK, PTE_PUW);
    if first && AllocCall(s, parent, XSTK, PTE_PUW).Some? {
      AllocEffect(s, parent, XSTK, PTE_PUW);
      ShownAt(AllocCall(s, parent, XSTK, PTE_PUW).value, parent, XSTK);
    }
  }

  /** fork succeeds exactly when the parent's own exception stack can be had where it needs
      one; the slot is free; the free list then covers a directory, a table for each region
      the child needs and the child's exception stack; and every counter has room for the
      parent's pages once more. */
  lemma ForkSucceedsIff(s: Sys, parent: nat, child: nat, first: bool)
    requires Good(s) && Shape(s.p) && parent in s.p.dirs
    ensures Fork(s, parent, child, first).Some? <==>
      && Prepared(s, parent, first).Some? && child !in s.p.dirs
      && var s0 := Prepared(s, parent, first).value;
         Shape(s0.p) && parent in s0.p.dirs
         && |s0.p.free| >= 2 + |ChildRegions(s0.p, ByCow, parent)| && Room(s0.p, ByCow, parent, 0)
  {
    hide Good, Shape, DupAll, NewEnv, AllocCall, Regions, ChildRegions, Room,
      TablesAfter, EmptyFrom, Pde, Pte, Shown, Copied;
    PreparedIff(s, parent, first);
    if Prepared(s, parent, first).Some? {
      var s0 := Prepared(s, parent, first).value;
      NewEnvSucceedsIff(s0, child);
      if NewEnv(s0, child).Some? {
        ChildIsNew(s0, ByCow, parent, child);
        var s1 := NewEnv(s0, child).value;
        DupAllSucceedsIff(s1, parent, child, 0);
        LastStackIff(s1, parent, child);
      } else {
        assert |s0.p.free| == 0 || child in s0.p.dirs;
      }
    }
  }

  // After the loop the child's exception stack takes a frame, and a table if no page gave one.
  lemma LastStackIff(s: Sys, parent: nat, child: nat)
    requires Good(s) && Shape(s.p) && parent in s.p.dirs && child in s.p.dirs && parent != child
    requires EmptyFrom(s.p, child, 0) && forall i: nat :: i < UPDES ==> Pde(s.p, child, i) == 0
    ensures DupAll(s, parent, child, 0).Some? ==>
      (UserAlloc(DupAll(s, parent, child, 0).value, child, XSTK, true).Some?
       <==> |s.p.free| >= 1 + |Regions(s.p, ByCow, parent, child, 0) + {XSTK / 1024}|)
    ensures |Regions(s.p, ByCow, parent, child, 0)| <= |Regions(s.p, ByCow, parent, child, 0) + {XSTK / 1024}|
  {
    hide Good, Shape, DupAll, AllocCall, Regions, Room, EmptyFrom, Pte, Pde;
    var a := Regions(s.p, ByCow, parent, child, 0);
    SizeWithoutOne(a + {XSTK / 1024}, XSTK / 1024);
    SizeWithoutOne(a, XSTK / 1024);
    assert a + {XSTK / 1024} - {XSTK / 1024} == a - {XSTK / 1024};
    DupAllSucceedsIff(s, parent, child, 0);
    if DupAll(s, parent, child, 0).Some? {
      var t := DupAll(s, parent, child, 0).value;
      ProperPerms();
      AllocSucceedsIff(t, child, XSTK, PTE_PUW);
    }
  }

  /** The same from the state fork is called in, where the parent's first exception stack
      takes the place of nothing. */
  lemma ForkSucceedsFromHere(s: Sys, parent: nat, child: nat, first: bool)
    requires Good(s) && Shape(s.p) && parent in s.p.dirs && (first ==> Pte(s.p, parent, XSTK) == 0)
    ensures Fork(s, parent, child, first).Some? <==>
      && child !in s.p.dirs && Room(s.p, ByCow, parent, 0)
      && |s.p.free| >= 2 + |ChildRegions(s.p, ByCow, parent)| + if first then 1 + TableCost(s.p, parent, XSTK) else 0
  {
    hide Good, Shape, Fork, AllocCall, ChildRegions, Room, Pde, Pte, OneTable, Data, Shown;
    ForkSucceedsIff(s, parent, child, first);
    PreparedIff(s, parent, first);
    if first && Prepared(s, parent, first).Some? {
      var s0 := Prepared(s, parent, first).value;
      AllocUses(s, parent, XSTK, PTE_PUW);
      AllocPointwise(s, parent, XSTK, PTE_PUW);
      PresentIff(s, parent, 0);
      SameEntries(s.p, s0.p, ByCow, parent);
      SamePages(s.p, s0.p, ByCow, parent);
    }
  }

  // ---------------------------------------------------------------- fork_v0

  lemma GrantedIsProper(perm: nat)
    ensures HasW(OrUP(Granted(perm))) <==> HasW(perm)
    ensures HasW(perm) && !HasIo(perm) ==> OrP(OrU(Granted(perm))) == PTE_PUW && CheckPerm(OrP(OrU(Granted(perm))))
    ensures Granted(perm) < 4096
  {
  }

  /** A shared page takes what duppage takes; a copied one a frame, its table, and the table
      of UTEMP. */
  lemma DupOrShareSucceedsIff(s: Sys, parent: nat, child: nat, v: nat)
    requires Good(s) && Shape(s.p) && parent in s.p.dirs && child in s.p.dirs && parent != child && v < UVPNS
    requires v != UTEMP && Page?(s, parent, v) && Pte(s.p, child, v) == 0
    ensures Shares(s.p, ByCopy, parent, v) ==>
      (DupOrShare(s, parent, child, v).Some?
       <==> HasRoom(s, parent, v, child, v) && |s.p.free| >= TableCost(s.p, child, v))
    ensures Copies(s.p, ByCopy, parent, v) ==>
      (DupOrShare(s, parent, child, v).Some?
       <==> |s.p.free| >= 1 + TableCost(s.p, child, v) + TableCost(s.p, parent, UTEMP))
  {
    hide Good, MapCall, AllocCall, UnmapCall, Fill, Data, Granted, Shown, HasRoom, Pte, Pde, OneTable, OrUP, OrP, OrU;
    var perm := PermAt(s, parent, v);
    var g := Granted(perm);
    MappedIsPresent(s, parent, v);
    GrantedIsProper(perm);
    if !HasW(perm) || HasIo(perm) {
      MapSucceedsIff(s, parent, v, child, v, g);
    } else {
      AllocSucceedsIff(s, child, v, g);
      if AllocCall(s, child, v, g).Some? {
        CopySucceedsIff(s, parent, child, v, g);
      }
    }
  }

  lemma CopySucceedsIff(s: Sys, parent: nat, child: nat, v: nat, g: nat)
    requires Good(s) && Shape(s.p) && parent in s.p.dirs && child in s.p.dirs && parent != child && v < UVPNS
    requires v != UTEMP && Page?(s, parent, v) && Pte(s.p, child, v) == 0 && g < 4096 && OrP(OrU(g)) == PTE_PUW
    requires AllocCall(s, child, v, g).Some?
    ensures var s1 := AllocCall(s, child, v, g).value;
      && Good(s1) && s1.p.dirs == s.p.dirs && Place(parent, v) in Shown(s1)
      && (FillThrough(s1, parent, child, v, g).Some?
          <==> |s.p.free| >= 1 + TableCost(s.p, child, v) + TableCost(s.p, parent, UTEMP))
  {
    hide Good, MapCall, AllocCall, UnmapCall, Fill, Data, Shown, Pte, Pde, OneTable;
    AllocEffect(s, child, v, g);
    AllocUses(s, child, v, g);
    var s1 := AllocCall(s, child, v, g).value;
    ShownAt(s, parent, v);
    ShownAt(s1, child, v);
    ShownAt(s1, parent, v);
    ProperPerms();
    OtherTable(s.p, s1.p, child, v, parent, UTEMP);
    MapSucceedsIff(s1, child, v, parent, UTEMP, g);
  }

  // A table made for one environment is none for another.
  lemma OtherTable(p: Phys, q: Phys, e: nat, v: nat, e1: nat, v1: nat)
    requires Shape(p) && Shape(q) && e in p.dirs && e1 in p.dirs && e != e1 && v < UVPNS && v1 < UVPNS
    requires OneTable(p, q, e, v)
    ensures e1 in q.dirs && TableCost(q, e1, v1) == TableCost(p, e1, v1)
  {
  }

  // What copying one page leaves.
  ghost predicate CopiedOne(s: Sys, t: Sys, parent: nat, child: nat, v: nat)
    requires Good(s) && Good(t) && Shape(s.p) && Shape(t.p) && parent in s.p.dirs && child in s.p.dirs && v < UVPNS
  {
    && t.p.dirs == s.p.dirs && Passed(s.p, t.p, parent, child, v)
    && |t.p.free| == |s.p.free| - 1 - TableCost(s.p, child, v) - TableCost(s.p, parent, UTEMP)
    && TableCost(t.p, parent, UTEMP) == 0 && |t.p.refs| == |s.p.refs|
    && forall g :: 0 <= g < |s.p.refs| && g !in s.p.free ==> t.p.refs[g] == s.p.refs[g]
  }

  lemma DupOrShareUses(s: Sys, parent: nat, child: nat, v: nat)
    requires Good(s) && Shape(s.p) && parent in s.p.dirs && child in s.p.dirs && parent != child && v < UVPNS
    requires v != UTEMP && Page?(s, parent, v) && EmptyFrom(s.p, child, v) && Pte(s.p, parent, UTEMP) == 0
    requires DupOrShare(s, parent, child, v).Some?
    ensures var t := DupOrShare(s, parent, child, v).value;
      && Good(t) && Shape(t.p) && t.p.dirs == s.p.dirs && Passed(s.p, t.p, parent, child, v)
      && EmptyFrom(t.p, child, v + 1) && Pte(t.p, parent, UTEMP) == 0
      && (Shares(s.p, ByCopy, parent, v) ==>
            SharedOne(s, t, parent, child, v) && TableCost(t.p, parent, UTEMP) == TableCost(s.p, parent, UTEMP))
      && (Copies(s.p, ByCopy, parent, v) ==> CopiedOne(s, t, parent, child, v))
  {
    EmptyLater(s.p, child, v);
    MappedIsPresent(s, parent, v);
    hide Good, MapCall, AllocCall, Granted, Shown, Data, Pte, Pde, OneTable, OrUP, Passed, CopiedOne, Counted1;
    var perm := PermAt(s, parent, v);
    var g := Granted(perm);
    GrantedIsProper(perm);
    if !HasW(perm) || HasIo(perm) {
      MapPointwise(s, parent, v, child, v, g);
      MapUses(s, parent, v, child, v, g);
      var t := MapCall(s, parent, v, child, v, g).value;
      OtherTable(s.p, t.p, child, v, parent, UTEMP);
      SharedIsPassed(s, t, parent, child, v);
    } else {
      CopyUses(s, parent, child, v, g);
    }
  }

  lemma CopyUses(s: Sys, parent: nat, child: nat, v: nat, g: nat)
    requires Good(s) && Shape(s.p) && parent in s.p.dirs && child in s.p.dirs && parent != child && v < UVPNS
    requires v != UTEMP && Page?(s, parent, v) && EmptyFrom(s.p, child, v) && Pte(s.p, parent, UTEMP) == 0 && g < 4096
    requires AllocCall(s, child, v, g).Some? && Pte(s.p, child, v) == 0
    ensures var s1 := AllocCall(s, child, v, g).value;
      Good(s1) && s1.p.dirs == s.p.dirs && Place(parent, v) in Shown(s1)
    ensures var s1 := AllocCall(s, child, v, g).value;
      FillThrough(s1, parent, child, v, g).Some? ==>
        var t := FillThrough(s1, parent, child, v, g).value;
        && Good(t) && Shape(t.p) && t.p.dirs == s.p.dirs && Passed(s.p, t.p, parent, child, v)
        && EmptyFrom(t.p, child, v + 1) && Pte(t.p, parent, UTEMP) == 0 && CopiedOne(s, t, parent, child, v)
  {
    hide Good, MapCall, AllocCall, UnmapCall, Fill, Shown, Data, Pte, Pde,
      OneTable, OrUP, OrP, OrU, Counted1, Passed, EmptyFrom;
    AllocPointwise(s, child, v, g);
    AllocUses(s, child, v, g);
    AllocEffect(s, child, v, g);
    var s1 := AllocCall(s, child, v, g).value;
    ShownAt(s, parent, v);
    ShownAt(s1, parent, v);
    if FillThrough(s1, parent, child, v, g).Some? {
      OtherTable(s.p, s1.p, child, v, parent, UTEMP);
      MapPointwise(s1, child, v, parent, UTEMP, g);
      MapUses(s1, child, v, parent, UTEMP, g);
      var s2 := MapCall(s1, child, v, parent, UTEMP, g).value;
      ShownAt(s2, parent, v);
      ShownAt(s2, parent, UTEMP);
      var page := Data(s2, parent, v);
      FillPtes(s2, parent, UTEMP, page);
      FillUses(s2, parent, UTEMP, page);
      var s3 := Fill(s2, parent, UTEMP, page);
      TwiceCounted(s1.p, s2.p, FrameOf(Pte(s1.p, child, v)));
      UnmapUses(s3, parent, UTEMP);
      UnmapPointwise(s3, parent, UTEMP);
      CopyPassed(s, s1, s2, UnmapCall(s3, parent, UTEMP), parent, child, v);
    }
  }

  lemma TwiceCounted(p: Phys, q: Phys, f: nat)
    requires f < |p.refs| && f !in p.free && p.refs[f] == 1 && Counted1(p, q, f)
    ensures |q.refs| == |p.refs| && q.refs[f] == 2
  {
  }

  // The three states of the copy together.
  lemma CopyPassed(s: Sys, s1: Sys, s2: Sys, t: Sys, parent: nat, child: nat, v: nat)
    requires Good(s) && Good(s1) && Good(s2) && Good(t) && Shape(s.p) && Shape(s1.p) && Shape(s2.p) && Shape(t.p)
    requires parent in s.p.dirs && child in s.p.dirs && parent != child && v < UVPNS && v != UTEMP
    requires EmptyFrom(s.p, child, v) && Pte(s.p, parent, UTEMP) == 0
    requires OneTable(s.p, s1.p, child, v) && OneTable(s1.p, s2.p, parent, UTEMP) && t.p.dirs == s2.p.dirs
    requires FrameOf(Pte(s1.p, child, v)) in s.p.free && FrameOf(Pte(s1.p, child, v)) < |s.p.refs| == |s1.p.refs|
    requires forall g :: 0 <= g < |s.p.refs| && g !in s.p.free ==> s1.p.refs[g] == s.p.refs[g]
    requires forall g :: g in s1.p.free ==> g in s.p.free
    requires Counted1(s1.p, s2.p, FrameOf(Pte(s1.p, child, v)))
    requires |s2.p.refs| == |s1.p.refs| && t.p.refs == s2.p.refs[FrameOf(Pte(s1.p, child, v)) := 1]
    requires |t.p.free| == |s2.p.free| == |s1.p.free| - TableCost(s.p, parent, UTEMP)
    requires |s1.p.free| == |s.p.free| - 1 - TableCost(s.p, child, v)
    requires forall e1, i :: e1 in s.p.dirs && 0 <= i < UPDES ==> Pde(t.p, e1, i) == Pde(s2.p, e1, i)
    requires Pte(t.p, parent, UTEMP) == 0
    requires forall e1, v1 ::
      e1 in s.p.dirs && 0 <= v1 < UVPNS && !(e1 == child && v1 == v) && !(e1 == parent && v1 == UTEMP) ==>
        Pte(t.p, e1, v1) == Pte(s.p, e1, v1)
    ensures Passed(s.p, t.p, parent, child, v) && EmptyFrom(t.p, child, v + 1) && CopiedOne(s, t, parent, child, v)
  {
    hide Good, Pte, Pde;
    assert UTEMP / 1024 < UPDES;
  }

  // One page of the eager loop: what it needs, and what it leaves to the rest.
  ghost predicate StepIff(s: Sys, r: Option<Sys>, parent: nat, child: nat, n: nat)
    requires Good(s) && Shape(s.p) && parent in s.p.dirs && child in s.p.dirs && n < UVPNS
  {
    match r
    case None => !(|s.p.free| >= Frames(s.p, ByCopy, parent, child, n) && Room(s.p, ByCopy, parent, n))
    case Some(t) =>
      && Good(t) && Shape(t.p) && t.p.dirs == s.p.dirs && EmptyFrom(t.p, child, n + 1) && Pte(t.p, parent, UTEMP) == 0
      && |t.p.free| - Frames(t.p, ByCopy, parent, child, n + 1) == |s.p.free| - Frames(s.p, ByCopy, parent, child, n)
      && (Room(s.p, ByCopy, parent, n) <==> Room(t.p, ByCopy, parent, n + 1))
  }

  lemma ShareAllStepIff(s: Sys, parent: nat, child: nat, n: nat)
    requires Good(s) && Shape(s.p) && parent in s.p.dirs && child in s.p.dirs && parent != child && n < UVPNS
    requires EmptyFrom(s.p, child, n) && Pte(s.p, parent, UTEMP) == 0
    requires Shares(s.p, ByCopy, parent, n) || Copies(s.p, ByCopy, parent, n)
    ensures StepIff(s, DupOrShare(s, parent, child, n), parent, child, n)
  {
    OneOrOther(s.p, parent, n);
    hide Good, DupOrShare, StepIff, EmptyFrom, Pte, Pde, Shares, Copies;
    if Shares(s.p, ByCopy, parent, n) {
      SharedStepIff(s, parent, child, n);
    } else {
      CopiedStepIff(s, parent, child, n);
    }
  }

  // Sharing a page takes its table from what the loop needs, copying one a frame as well.
  lemma FramesPassed(p: Phys, q: Phys, parent: nat, child: nat, n: nat)
    requires Shape(p) && Shape(q) && parent in p.dirs && child in p.dirs && n < UVPNS && Passed(p, q, parent, child, n)
    requires parent in q.dirs && child in q.dirs
    ensures Shares(p, ByCopy, parent, n) && TableCost(q, parent, UTEMP) == TableCost(p, parent, UTEMP) ==>
      !Copies(p, ByCopy, parent, n)
      && Frames(p, ByCopy, parent, child, n) == Frames(q, ByCopy, parent, child, n + 1) + TableCost(p, child, n)
    ensures Copies(p, ByCopy, parent, n) && TableCost(q, parent, UTEMP) == 0 ==>
      Frames(p, ByCopy, parent, child, n)
      == Frames(q, ByCopy, parent, child, n + 1) + TableCost(p, child, n) + 1 + TableCost(p, parent, UTEMP)
  {
    CopiedPassed(p, q, ByCopy, parent, child, n);
    if Copies(p, ByCopy, parent, n) || Shares(p, ByCopy, parent, n) {
      RegionsPassed(p, q, ByCopy, parent, child, n);
    }
    var a := Copied(p, ByCopy, parent, n);
    SizeWithoutOne(a, n);
    assert n !in a ==> a - {n} == a;
    hide Copies, Shares, Regions, Copied, TableCost, Passed;
  }

  // What the loop needs at least.
  lemma FramesNeeded(p: Phys, parent: nat, child: nat, n: nat)
    requires Shape(p) && parent in p.dirs && child in p.dirs && n < UVPNS
    ensures Shares(p, ByCopy, parent, n) ==> Frames(p, ByCopy, parent, child, n) >= TableCost(p, child, n)
    ensures Copies(p, ByCopy, parent, n) ==>
      Frames(p, ByCopy, parent, child, n) >= TableCost(p, child, n) + 1 + TableCost(p, parent, UTEMP)
  {
    if Shares(p, ByCopy, parent, n) || Copies(p, ByCopy, parent, n) {
      RegionMissing(p, ByCopy, parent, child, n);
    }
    CopiedHas(p, ByCopy, parent, n);
    hide Copies, Shares, Regions, Copied, TableCost;
  }

  lemma SharedStepIff(s: Sys, parent: nat, child: nat, n: nat)
    requires Good(s) && Shape(s.p) && parent in s.p.dirs && child in s.p.dirs && parent != child && n < UVPNS
    requires EmptyFrom(s.p, child, n) && Pte(s.p, parent, UTEMP) == 0
    requires Shares(s.p, ByCopy, parent, n)
    ensures StepIff(s, DupOrShare(s, parent, child, n), parent, child, n)
  {
    PresentIff(s, parent, n);
    EmptyLater(s.p, child, n);
    OneOrOther(s.p, parent, n);
    hide Good, DupOrShare, Frames, Room, SharedOne, CopiedOne, EmptyFrom,
      Pte, Pde, Passed, Shares, Copies, TableCost, InUse;
    hide Counted1;
    DupOrShareSucceedsIff(s, parent, child, n);
    SharerInUse(s.p, ByCopy, parent, n);
    if DupOrShare(s, parent, child, n).Some? {
      DupOrShareUses(s, parent, child, n);
      var t := DupOrShare(s, parent, child, n).value;
      SharedParts(s, t, parent, child, n);
      FramesPassed(s.p, t.p, parent, child, n);
      RoomShared(s.p, t.p, ByCopy, parent, child, n);
    } else if s.p.refs[FrameOf(Pte(s.p, parent, n))] >= 0xFFFF {
      NoRoom(s.p, ByCopy, parent, n);
    } else {
      FramesNeeded(s.p, parent, child, n);
    }
  }

  lemma CopiedStepIff(s: Sys, parent: nat, child: nat, n: nat)
    requires Good(s) && Shape(s.p) && parent in s.p.dirs && child in s.p.dirs && parent != child && n < UVPNS
    requires EmptyFrom(s.p, child, n) && Pte(s.p, parent, UTEMP) == 0
    requires Copies(s.p, ByCopy, parent, n)
    ensures StepIff(s, DupOrShare(s, parent, child, n), parent, child, n)
  {
    PresentIff(s, parent, n);
    EmptyLater(s.p, child, n);
    OneOrOther(s.p, parent, n);
    hide Good, DupOrShare, Frames, Room, SharedOne, CopiedOne, EmptyFrom,
      Pte, Pde, Passed, Shares, Copies, TableCost, InUse;
    DupOrShareSucceedsIff(s, parent, child, n);
    if DupOrShare(s, parent, child, n).Some? {
      DupOrShareUses(s, parent, child, n);
      var t := DupOrShare(s, parent, child, n).value;
      CopiedParts(s, t, parent, child, n);
      FramesPassed(s.p, t.p, parent, child, n);
      RoomCopied(s.p, t.p, ByCopy, parent, child, n);
    } else {
      FramesNeeded(s.p, parent, child, n);
    }
  }

  lemma OneOrOther(p: Phys, e: nat, v: nat)
    requires Shape(p) && e in p.dirs && v < UVPNS && Pte(p, e, UTEMP) == 0
    ensures !(Shares(p, ByCopy, e, v) && Copies(p, ByCopy, e, v))
    ensures Shares(p, ByCopy, e, v) || Copies(p, ByCopy, e, v) ==> v != UTEMP && Pte(p, e, v) != 0
  {
  }

  lemma CopiedHas(p: Phys, way: Way, e: nat, n: nat)
    requires Shape(p) && e in p.dirs && n < UVPNS
    ensures Copies(p, way, e, n) ==> n in Copied(p, way, e, n) && |Copied(p, way, e, n)| >= 1
  {
    hide Copies;
  }

  lemma CopiedParts(s: Sys, t: Sys, parent: nat, child: nat, v: nat)
    requires Good(s) && Good(t) && Shape(s.p) && Shape(t.p) && parent in s.p.dirs && child in s.p.dirs && v < UVPNS
    requires CopiedOne(s, t, parent, child, v)
    ensures t.p.dirs == s.p.dirs
      && |t.p.free| == |s.p.free| - 1 - TableCost(s.p, child, v) - TableCost(s.p, parent, UTEMP)
    ensures TableCost(t.p, parent, UTEMP) == 0 && |t.p.refs| == |s.p.refs|
    ensures forall g :: 0 <= g < |s.p.refs| && g !in s.p.free ==> t.p.refs[g] == s.p.refs[g]
  {
    hide Good, Pte, Pde;
  }

  /** The loop of fork_v0 goes through exactly when the free list covers the child's tables,
      a frame for each page to copy and the table of UTEMP if any is copied, and every
      counter has room for the pages shared. */
  lemma {:induction false} ShareAllSucceedsIff(s: Sys, parent: nat, child: nat, n: nat)
    requires Good(s) && Shape(s.p) && parent in s.p.dirs && child in s.p.dirs && parent != child && n <= UVPNS
    requires EmptyFrom(s.p, child, n) && Pte(s.p, parent, UTEMP) == 0
    ensures ShareAll(s, parent, child, n).Some? <==>
      |s.p.free| >= Frames(s.p, ByCopy, parent, child, n) && Room(s.p, ByCopy, parent, n)
    decreases UVPNS - n
  {
    hide Good, Shape, DupOrShare, Skipped, Shares, Copies, Frames, Room, EmptyFrom, Pte, Pde;
    if n == UVPNS {
      NothingLeft(s.p, ByCopy, parent, child);
    } else {
      PresentIff(s, parent, n);
      if Skipped(s, parent, n) {
        RegionsSkip(s.p, ByCopy, parent, child, n);
        EmptyLater(s.p, child, n);
        ShareAllSucceedsIff(s, parent, child, n + 1);
      } else {
        ShareAllStepIff(s, parent, child, n);
        if DupOrShare(s, parent, child, n).Some? {
          ShareAllSucceedsIff(DupOrShare(s, parent, child, n).value, parent, child, n + 1);
        }
      }
    }
  }

  /** fork_v0 succeeds exactly when the slot is free, the free list covers a directory, the
      child's tables, a frame for each page to copy and the parent's table for UTEMP if any is
      copied, and every counter has room for the pages shared. */
  lemma ForkV0SucceedsIff(s: Sys, parent: nat, child: nat)
    requires Good(s) && Shape(s.p) && parent in s.p.dirs && Pte(s.p, parent, UTEMP) == 0
    ensures ForkV0(s, parent, child).Some? <==>
      && child !in s.p.dirs && Room(s.p, ByCopy, parent, 0)
      && |s.p.free| >= 1 + |ChildRegions(s.p, ByCopy, parent)| + |Copied(s.p, ByCopy, parent, 0)|
           + if Copied(s.p, ByCopy, parent, 0) == {} then 0 else TableCost(s.p, parent, UTEMP)
  {
    hide Good, ShareAll, NewEnv, Regions, ChildRegions, Room, EmptyFrom, Pde, Copied, Pte;
    NewEnvSucceedsIff(s, child);
    if NewEnv(s, child).Some? {
      ChildIsNew(s, ByCopy, parent, child);
      NewEnvPointwise(s, child);
      var t := NewEnv(s, child).value;
      assert Regions(t.p, ByCopy, parent, child, 0) + {} == Regions(t.p, ByCopy, parent, child, 0);
      ShareAllSucceedsIff(t, parent, child, 0);
    }
  }
}
