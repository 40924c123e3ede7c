/** The memory code of sched/kern/pmap.c and sched/kern/env.c as it runs: an array of page
    descriptors threaded into a free list, physical memory as an array of frames, and
    directories and tables changed in place. */
module Kernel {
  import opened Paging
  import opened PagingLaws
  import opened PageOps
  import opened AddressSpace
  import opened PageCalls

  const NULL: int := -1

  // struct PageInfo
  datatype PageInfo = PageInfo(link: int, ref: nat)

  // A pte_t pointer: a word of a frame.
  datatype Ptr = Null | At(frame: nat, index: nat)

  function Counts(s: seq<PageInfo>): (c: seq<nat>)
    ensures |c| == |s| && forall i :: 0 <= i < |s| ==> c[i] == s[i].ref
  {
    seq(|s|, i requires 0 <= i < |s| => s[i].ref)
  }

  // What follows position `k` of a list.
  function After(chain: seq<nat>, k: nat): int
    requires k < |chain|
  {
    if k + 1 < |chain| then chain[k + 1] else NULL
  }

  // `chain` is the list that starts at `head`; descriptors off the list have no link.
  ghost predicate Chain(s: seq<PageInfo>, head: int, chain: seq<nat>) {
    && head == (if chain == [] then NULL else chain[0])
    && (forall k :: 0 <= k < |chain| ==> chain[k] < |s|)
    && (forall k :: 0 <= k < |chain| ==>
          s[chain[k]].link == After(chain, k))
    && (forall f :: 0 <= f < |s| && f !in chain ==> s[f].link == NULL)
  }

  lemma ChainPop(s: seq<PageInfo>, head: int, chain: seq<nat>)
    requires Chain(s, head, chain) && NoDup(chain) && chain != []
    ensures NoDup(chain[1..])
    ensures Chain(s[chain[0] := s[chain[0]].(link := NULL)], s[chain[0]].link, chain[1..])
  {
    var f, rest := chain[0], chain[1..];
    var s1 := s[f := s[f].(link := NULL)];
    assert forall k :: 0 < k < |chain| ==> chain[k] == rest[k - 1] && chain[k] != f;
    hide NoDup;
    forall k | 0 <= k < |rest|
      ensures rest[k] < |s1| && s1[rest[k]].link == After(rest, k)
    {
      assert rest[k] == chain[k + 1] && After(rest, k) == After(chain, k + 1);
      assert s[chain[k + 1]].link == After(chain, k + 1);
    }
    assert s[f].link == After(chain, 0);
    forall g | 0 <= g < |s1| && g !in rest
      ensures s1[g].link == NULL
    {
      assert g == f || g !in chain;
    }
    assert forall k :: 0 <= k < |rest| ==> rest[k] < |s1|;
    assert Chain(s1, s[f].link, rest);
  }

  lemma NoDupNil()
    ensures NoDup([])
  {
  }

  lemma NoDupPush(chain: seq<nat>, f: nat)
    requires NoDup(chain) && f !in chain
    ensures NoDup([f] + chain)
  {
  }

  lemma ChainPush(s: seq<PageInfo>, head: int, chain: seq<nat>, f: nat)
    requires Chain(s, head, chain) && f < |s| && f !in chain
    ensures Chain(s[f := s[f].(link := head)], f, [f] + chain)
  {
    var more, s1 := [f] + chain, s[f := s[f].(link := head)];
    assert more[0] == f && After(more, 0) == head;
    forall k | 0 <= k < |more|
      ensures more[k] < |s| && s1[more[k]].link == After(more, k)
    {
      if k > 0 {
        assert more[k] == chain[k - 1] && chain[k - 1] != f;
        assert s[chain[k - 1]].link == After(chain, k - 1);
        assert After(more, k) == After(chain, k - 1);
      }
    }
    forall g | 0 <= g < |s1| && g !in more
      ensures s1[g].link == NULL
    {
      assert g !in chain && g != f;
    }
    assert forall k :: 0 <= k < |more| ==> more[k] < |s1|;
    assert Chain(s1, f, more);
  }

  // Only the last frame of the list has no link.
  lemma HasLinkIff(s: seq<PageInfo>, head: int, chain: seq<nat>, f: nat)
    requires Chain(s, head, chain) && NoDup(chain) && f < |s|
    ensures s[f].link != NULL <==> f in chain && f != chain[|chain| - 1]
  {
    if f in chain {
      var k :| 0 <= k < |chain| && chain[k] == f;
      assert s[chain[k]].link == After(chain, k);
    }
  }

  // The last frame pushed once more: no list starts there.
  lemma TailFreed(s: seq<PageInfo>, head: int, free: seq<nat>, f: nat, chain: seq<nat>)
    requires Chain(s, head, free) && f < |s| && f in free && s[f].link == NULL
    ensures !Chain(s[f := s[f].(link := head)], f, chain)
  {
    var s1 := s[f := s[f].(link := head)];
    if Chain(s1, f, chain) {
      StaysOnList(s, head, free, f, chain, |chain| - 1);
      assert false;
    }
  }

  lemma {:induction false} StaysOnList(s: seq<PageInfo>, head: int, free: seq<nat>, f: nat, chain: seq<nat>, k: nat)
    requires Chain(s, head, free) && f < |s| && f in free && s[f].link == NULL
    requires Chain(s[f := s[f].(link := head)], f, chain) && k < |chain|
    ensures chain[k] in free && s[f := s[f].(link := head)][chain[k]].link != NULL
  {
    var s1 := s[f := s[f].(link := head)];
    if k > 0 {
      StaysOnList(s, head, free, f, chain, k - 1);
      assert s1[chain[k - 1]].link == After(chain, k - 1);
    }
  }

  lemma ChainBounds(s: seq<PageInfo>, head: int, chain: seq<nat>)
    requires Chain(s, head, chain)
    ensures forall k :: 0 <= k < |chain| ==> chain[k] < |s|
  {
  }

  lemma ChainRef(s: seq<PageInfo>, head: int, chain: seq<nat>, f: nat, ref: nat)
    requires Chain(s, head, chain) && f < |s|
    ensures Chain(s[f := s[f].(ref := ref)], head, chain)
  {
    var s1 := s[f := s[f].(ref := ref)];
    assert forall g :: 0 <= g < |s| ==> s1[g].link == s[g].link;
  }

  // env_pgdir of each environment, 0 when it has none
  function DirMap(s: seq<nat>): map<nat, nat> {
    map e: nat | e < |s| && s[e] != 0 :: s[e]
  }

  lemma DirMapSet(s: seq<nat>, e: nat, f: nat)
    requires e < |s|
    ensures f != 0 ==> DirMap(s[e := f]) == DirMap(s)[e := f]
    ensures DirMap(s[e := 0]) == DirMap(s) - {e}
  {
  }

  lemma DirMapAt(s: seq<nat>, e: nat)
    requires e < |s|
    ensures e in DirMap(s) <==> s[e] != 0
    ensures s[e] != 0 ==> DirMap(s)[e] == s[e]
  {
  }

  class Memory {
    const pages: array<PageInfo>
    const mem: array<Page>
    const pgdir: array<nat>
    const kern: nat
    ghost const reserved: set<nat>
    var pageFreeList: int
    ghost var free: seq<nat>

    ghost predicate Valid()
      reads this, pages, mem, pgdir
    {
      && pages.Length == mem.Length
      && NoDup(free) && Chain(pages[..], pageFreeList, free)
    }

    ghost function Abs(): Phys
      reads this, pages, mem, pgdir
    {
      Phys(Counts(pages[..]), mem[..], free, DirMap(pgdir[..]), reserved, kern)
    }

    // ---------------------------------------------------------------- page_init

    // `kend` is the first frame after what the kernel allocated while booting.
    method PageInit(kend: nat)
      requires pages.Length == mem.Length <= MAXFRAMES && kern < mem.Length && kern in reserved
      requires reserved == set f | 0 <= f < pages.Length && InUse(f, kend)
      requires forall f :: 0 <= f < pages.Length ==> pages[f] == PageInfo(NULL, 0)
      requires pageFreeList == NULL && forall e :: 0 <= e < pgdir.Length ==> pgdir[e] == 0
      requires forall i :: 0 <= i < UPDES ==> mem[kern][i] == 0
      modifies this, pages
      ensures Valid() && Inv(Abs(), {})
      ensures forall f :: 0 <= f < pages.Length ==> (f in free <==> !InUse(f, kend))
    {
      free := [];
      assert Chain(pages[..], pageFreeList, free);
      hide Chain, NoDup, Shape, Inv;
      assert NoDup([]) by { NoDupNil(); }
      for i := 0 to pages.Length
        invariant NoDup(free) && Chain(pages[..], pageFreeList, free)
        invariant forall f :: 0 <= f < pages.Length ==> pages[f].ref == 0
        invariant forall f :: 0 <= f < pages.Length ==> (f in free <==> f < i && !InUse(f, kend))
      {
        ghost var s := pages[..];
        pages[i] := pages[i].(link := NULL);
        assert pages[..] == s;
        if InUse(i, kend) {
          continue;
        }
        ChainPush(pages[..], pageFreeList, free, i);
        NoDupPush(free, i);
        pages[i] := PageInfo(pageFreeList, 0);
        assert pages[..] == s[i := s[i].(link := pageFreeList)];
        pageFreeList := i;
        free := [i] + free;
      }
      ChainBounds(pages[..], pageFreeList, free);
      NoEnvsShape(Abs());
      NoReferences(Abs());
    }

    // ---------------------------------------------------------------- page_alloc .. page_decref

    method PageAlloc(zero: bool) returns (f: int)
      requires Valid() && Shape(Abs())
      modifies this, pages, mem
      ensures Valid()
      ensures match Paging.PageAlloc(old(Abs()), zero)
        case NoFrame => f == NULL && Abs() == old(Abs())
        case Frame(q, g) => f == g && Abs() == q
    {
      if pageFreeList == NULL {
        return NULL;
      }
      f := pageFreeList;
      ChainPop(pages[..], pageFreeList, free);
      pageFreeList := pages[f].link;
      pages[f] := pages[f].(link := NULL);
      free := free[1..];
      if zero {
        mem[f] := ZeroPage();
      }
      assert Abs().refs == old(Abs()).refs;
    }

    /** Panics when the frame is still referenced or linked.  A frame on the list has a link
        unless it is the last one: freed again, that one slips through and the list becomes
        a cycle. */
    method PageFree(f: nat) returns (panic: bool)
      requires Valid() && f < pages.Length
      modifies this, pages
      ensures panic <==> old(pages[f].ref) != 0 || (f in old(free) && f != old(free)[|old(free)| - 1])
      ensures panic ==> Valid() && Abs() == old(Abs())
      ensures !panic && f !in old(free) ==> Valid() && Abs() == old(Abs()).(free := [f] + old(free))
      ensures !panic && f in old(free) ==> forall chain :: !Chain(pages[..], pageFreeList, chain)
    {
      HasLinkIff(pages[..], pageFreeList, free, f);
      if pages[f].ref != 0 {
        return true;
      }
      if pages[f].link != NULL {
        return true;
      }
      ghost var s, head := pages[..], pageFreeList;
      pages[f] := pages[f].(link := pageFreeList);
      pageFreeList := f;
      assert pages[..] == s[f := s[f].(link := head)];
      assert Abs().refs == old(Abs()).refs;
      if f !in free {
        ChainPush(s, head, free, f);
        NoDupPush(free, f);
        free := [f] + free;
      } else {
        hide Chain, NoDup;
        forall chain
          ensures !Chain(pages[..], pageFreeList, chain)
        {
          TailFreed(s, head, free, f, chain);
        }
      }
      return false;
    }

    // pp_ref is assigned; links stay.
    method SetRef(f: nat, ref: nat)
      requires Valid() && f < pages.Length
      modifies pages
      ensures Valid() && Abs() == old(Abs()).(refs := old(Abs()).refs[f := ref])
      ensures pages[f] == old(pages[f]).(ref := ref)
    {
      ChainRef(pages[..], pageFreeList, free, f, ref);
      pages[f] := pages[f].(ref := ref);
      assert Abs().refs == old(Abs()).refs[f := ref];
    }

    // pp->pp_ref++
    method PageIncref(f: nat)
      requires Valid() && f < pages.Length
      modifies pages
      ensures Valid() && Abs() == IncRef(old(Abs()), f)
    {
      SetRef(f, (pages[f].ref + 1) % 0x1_0000);
    }

    method PageDecref(f: nat)
      requires Valid() && f < pages.Length && (f in free ==> pages[f].ref == 0)
      modifies this, pages
      ensures Valid() && Abs() == DecRef(old(Abs()), f)
    {
      hide Chain, NoDup;
      SetRef(f, (pages[f].ref + 0xFFFF) % 0x1_0000);
      if pages[f].ref == 0 {
        var panic := PageFree(f);
      }
    }

    // ---------------------------------------------------------------- pgdir_walk

    // A pointer to the entry for `va`; with `create`, the missing table is allocated.
    method PgdirWalk(e: nat, va: nat, create: bool) returns (ptr: Ptr)
      requires Valid() && Shape(Abs()) && e < pgdir.Length && pgdir[e] != 0 && va < UTOP
      modifies this, pages, mem
      ensures Valid() && pgdir[..] == old(pgdir[..])
      ensures !create ==> Abs() == old(Abs())
      ensures !create ==> ptr == WhereIs(old(Abs()), e, va / PGSIZE)
      ensures create ==>
        match WalkCreate(old(Abs()), e, va / PGSIZE)
        case NoTable => ptr == Null && Abs() == old(Abs())
        case Walked(q) => Abs() == q && ptr == At(FrameOf(q.mem[pgdir[e]][Pdx(va)]), Ptx(va))
    {
      hide Chain, NoDup;
      VaParts(va);
      var dir := pgdir[e];
      assert Abs().dirs[e] == dir;
      if mem[dir][Pdx(va)] == 0 && create {
        var page := PageAlloc(true);
        if page != NULL {
          ghost var p := Abs();
          PageIncref(page);
          mem[dir] := mem[dir][Pdx(va) := MakeEntry(page, 7)];
          assert Abs().mem == NewTable(p, e, Pdx(va), page).mem;
          assert mem[dir][Pdx(va)] == MakeEntry(page, 7);
        }
      }
      hide Shape, MakeEntry;
      if mem[dir][Pdx(va)] != 0 {
        return At(FrameOf(mem[dir][Pdx(va)]), Ptx(va));
      }
      return Null;
    }

    // ---------------------------------------------------------------- page_lookup .. page_insert

    // The frame mapped at `va` and where its entry is, or NULL, with `store` as it was.
    method PageLookup(e: nat, va: nat, store: Ptr) returns (f: int, ptr: Ptr)
      requires Valid() && Shape(Abs()) && e < pgdir.Length && pgdir[e] != 0 && va < UTOP
      requires va / PGSIZE < UVPNS && FrameOf(Pte(Abs(), e, va / PGSIZE)) < pages.Length
      modifies this, pages, mem
      ensures Valid() && Abs() == old(Abs()) && pgdir[..] == old(pgdir[..])
      ensures ptr == if Pte(old(Abs()), e, va / PGSIZE) == 0 then store else WhereIs(old(Abs()), e, va / PGSIZE)
      ensures f == if Pte(old(Abs()), e, va / PGSIZE) == 0 then NULL else FrameOf(Pte(old(Abs()), e, va / PGSIZE))
    {
      VaParts(va);
      ptr := PgdirWalk(e, va, false);
      if ptr == Null || mem[ptr.frame][ptr.index] == 0 {
        return NULL, store;
      }
      return FrameOf(mem[ptr.frame][ptr.index]), ptr;
    }

    method PageRemove(e: nat, va: nat)
      requires Valid() && Shape(Abs()) && e < pgdir.Length && pgdir[e] != 0 && va < UTOP
      requires va / PGSIZE < UVPNS && MappedInUse(Abs(), e, va / PGSIZE)
      modifies this, pages, mem
      ensures Valid() && Abs() == PageOps.PageRemove(old(Abs()), e, va / PGSIZE) && pgdir[..] == old(pgdir[..])
    {
      hide Chain, NoDup;
      VaParts(va);
      var ptr := PgdirWalk(e, va, false);
      var f;
      f, ptr := PageLookup(e, va, ptr);
      if ptr == Null || mem[ptr.frame][ptr.index] == 0 {
        return;
      }
      PageDecref(f);
      mem[ptr.frame] := mem[ptr.frame][ptr.index := 0];
    }

    // 0, or E_NO_MEM when the table needed cannot be allocated.
    method PageInsert(e: nat, f: nat, va: nat, perm: Word) returns (err: nat)
      requires Valid() && Sound(Abs()) && Shape(Abs()) && e < pgdir.Length && pgdir[e] != 0 && va < UTOP
      requires va / PGSIZE < UVPNS && FrameOf(Pte(Abs(), e, va / PGSIZE)) < pages.Length
      requires Mappable(Abs(), f)
      modifies this, pages, mem
      ensures Valid() && pgdir[..] == old(pgdir[..])
      ensures match PageOps.PageInsert(old(Abs()), e, f, va / PGSIZE, perm)
        case NoMem => err == E_NO_MEM && Abs() == old(Abs())
        case Mapped(q) => err == 0 && Abs() == q
    {
      hide Chain, NoDup;
      VaParts(va);
      ghost var v, p := va / PGSIZE, Abs();
      var ptr := PgdirWalk(e, va, true);
      if ptr == Null {
        return E_NO_MEM;
      }
      ghost var q := Abs();
      assert q == WalkCreate(p, e, v).p;
      CountedSound(p, q, e, f, v);
      hide Sound, Mappable, WalkCreate, EntryWord;
      PageIncref(f);
      PageRemove(e, va);
      mem[ptr.frame] := mem[ptr.frame][ptr.index := EntryWord(f, perm)];
      assert Abs().mem == Store(q, e, v, f, EntryWord(f, perm)).mem;
      return 0;
    }

    // ---------------------------------------------------------------- address spaces

    // 0, or E_NO_MEM when no frame is left for the directory.
    method EnvSetupVm(e: nat) returns (err: nat)
      requires Valid() && Shape(Abs()) && e < pgdir.Length && pgdir[e] == 0 && 0 !in free
      modifies this, pages, mem, pgdir
      ensures Valid()
      ensures match AddressSpace.EnvSetupVm(old(Abs()), e)
        case NoDir => err == E_NO_MEM && Abs() == old(Abs())
        case SetUp(q) => err == 0 && Abs() == q
    {
      hide Chain, NoDup, DirMap, MakeEntry;
      DirMapAt(pgdir[..], e);
      var p := PageAlloc(true);
      if p == NULL {
        return E_NO_MEM;
      }
      ghost var q := Abs();
      var page := mem[kern];
      mem[p] := page;
      PageIncref(p);
      DirMapSet(pgdir[..], e, p);
      pgdir[e] := p;
      mem[p] := mem[p][UVPT_PDX := MakeEntry(p, 5)];
      assert Abs().mem == AddDir(q, e, p).mem;
      assert Abs().dirs == q.dirs[e := p];
      return 0;
    }

    method EnvFree(e: nat)
      requires Valid() && Sound(Abs()) && Shape(Abs()) && e < pgdir.Length && pgdir[e] != 0
      modifies this, pages, mem, pgdir
      ensures Valid() && Abs() == AddressSpace.EnvFree(old(Abs()), e)
    {
      hide Chain, NoDup, Sound, FreeTables, FreePtes, DropTable, HasP;
      ghost var p := Abs();
      assert e in p.dirs;
      for pdeno := 0 to UPDES
        invariant Valid() && Sound(Abs()) && Abs().dirs == p.dirs && pgdir[..] == old(pgdir[..])
        invariant FreeTables(Abs(), e, pdeno) == FreeTables(p, e, 0)
      {
        SoundParts(Abs());
        FreeTablesStep(Abs(), e, pdeno);
        if !HasP(PermOf(mem[pgdir[e]][pdeno])) {
          continue;
        }
        FreeEnvTable(e, pdeno);
      }
      SoundParts(Abs());
      FreeTablesDone(Abs(), e);
      DirNotFree(Abs(), e);
      var dir := pgdir[e];
      ghost var q := Abs();
      pgdir[e] := 0;
      assert Abs() == q.(dirs := q.dirs - {e});
      PageDecref(dir);
    }

    // ---------------------------------------------------------------- env_page_alloc, env_page_map

    method EnvPageAlloc(e: nat, va: nat, perm: nat, ghost lost: set<nat>) returns (err: nat, ghost lost': set<nat>)
      requires Valid() && Good(Sys(Abs(), lost)) && e < pgdir.Length && pgdir[e] != 0 && va < UTOP
      modifies this, pages, mem
      ensures Valid() && va / PGSIZE < UVPNS
      ensures Outcome(Sys(Abs(), lost'), err)
           == PageCalls.EnvPageAlloc(Sys(old(Abs()), lost), e, va / PGSIZE, perm)
    {
      hide Chain, NoDup, InvHeld, Mappable, Sound;
      VaParts(va);
      ghost var p := Abs();
      assert e in p.dirs;
      InvParts(p, lost, multiset{});
      lost' := lost;
      if !CheckPerm(perm) {
        return E_INVAL, lost;
      }
      if free != [] {
        Fresh(p, lost, e, va / PGSIZE);
      }
      var f := PageAlloc(true);
      if f == NULL {
        return E_NO_MEM, lost;
      }
      err := PageInsert(e, f, va, perm);
      if err != 0 {
        lost' := lost + {f};
      }
    }

    method EnvPageMap(src: nat, srcva: nat, dst: nat, dstva: nat, perm: Word, ghost lost: set<nat>) returns (err: nat)
      requires Valid() && Good(Sys(Abs(), lost)) && src < pgdir.Length && pgdir[src] != 0 && srcva < UTOP
      requires dst < pgdir.Length && pgdir[dst] != 0 && dstva < UTOP
      requires srcva / PGSIZE < UVPNS && Shape(Abs()) && FrameOf(Pte(Abs(), src, srcva / PGSIZE)) < pages.Length
      modifies this, pages, mem
      ensures Valid() && dstva / PGSIZE < UVPNS
      ensures Outcome(Sys(Abs(), lost), err)
           == PageCalls.EnvPageMap(Sys(old(Abs()), lost), src, srcva / PGSIZE, dst, dstva / PGSIZE, perm)
    {
      hide Chain, NoDup, InvHeld, Mappable;
      VaParts(srcva);
      VaParts(dstva);
      ghost var p := Abs();
      InvParts(p, lost, multiset{});
      var page, srcpte := PageLookup(src, srcva, Null);
      if page == NULL {
        return E_INVAL;
      }
      if HasW(perm) && !HasW(PermOf(WordAt(srcpte))) {
        return E_INVAL;
      }
      MappedIsMappable(p, lost, multiset{}, src, srcva / PGSIZE);
      EntryFrame(p, dst, dstva / PGSIZE);
      assert Sound(p);
      err := PageInsert(dst, page, dstva, perm);
    }

    // ---------------------------------------------------------------- user_mem_check

    // 0 or E_FAULT; `bad` is what user_mem_check_addr is set to.
    method UserMemCheck(e: nat, va: Word, len: Word, perm: bv32) returns (err: nat, bad: nat)
      requires Valid() && Shape(Abs()) && e < pgdir.Length && pgdir[e] != 0
      modifies this, pages, mem
      ensures Valid() && Abs() == old(Abs())
      ensures RangeTop(va, len) > UTOP ==> err == E_FAULT && bad == va
      ensures err == 0 <==>
        RangeTop(va, len) <= UTOP && PagesAllowed(Abs(), e, va, RangeTop(va, len), perm)
      ensures 0 < len && va + len <= UTOP ==> (err == 0 <==> Accessible(Abs(), e, va, va + len, perm))
      ensures 0 < len && va + len <= UTOP && err != 0 ==>
        && err == E_FAULT && va <= bad < va + len && !ByteOk(Abs(), e, bad, perm)
        && Accessible(Abs(), e, va, bad, perm)
    {
      hide Chain, NoDup, Shape, Allowed, Accessible, ByteOk, PagesAllowed, RangeTop;
      assert Accessible(Abs(), e, va, va / PGSIZE * PGSIZE, perm) by { Nothing(Abs(), e, va, perm); }
      var lo, hi := va, RangeTop(va, len);
      RangeEnd(va, len);
      if hi > UTOP {
        return E_FAULT, lo;
      }
      var act := lo / PGSIZE * PGSIZE;
      NoPages(Abs(), e, lo, perm);
      while act < hi
        invariant Valid() && Abs() == old(Abs()) && pgdir[..] == old(pgdir[..])
        invariant act % PGSIZE == 0 && lo < act + PGSIZE && (act < hi ==> act < UTOP)
        invariant Accessible(Abs(), e, lo, act, perm) && PagesAllowed(Abs(), e, lo, act, perm)
      {
        OnePage(Abs(), e, lo, act, perm);
        NextPage(Abs(), e, lo, act, hi, perm);
        var ok := PageGrants(e, act, perm);
        if !ok {
          return E_FAULT, if act > lo then act else lo;
        }
        act := act + PGSIZE;
      }
      Shorter(Abs(), e, lo, act, va + len, perm);
      ShorterPages(Abs(), e, lo, act, hi, perm);
      return 0, 0;
    }

    // The test user_mem_check makes of one page.
    method PageGrants(e: nat, va: nat, perm: bv32) returns (ok: bool)
      requires Valid() && Shape(Abs()) && e < pgdir.Length && pgdir[e] != 0 && va < UTOP
      modifies this, pages, mem
      ensures Valid() && Abs() == old(Abs()) && pgdir[..] == old(pgdir[..])
      ensures va / PGSIZE < UVPNS && (ok <==> Allowed(Abs(), e, va / PGSIZE, perm))
    {
      hide Chain, NoDup, Shape, Grants;
      var ptr := PgdirWalk(e, va, false);
      VaParts(va);
      ok := ptr != Null && Grants(WordAt(ptr), perm);
    }

    function WordAt(ptr: Ptr): Word
      requires ptr.At? && ptr.frame < mem.Length && ptr.index < 1024
      reads mem
    {
      mem[ptr.frame][ptr.index]
    }

    // One turn of env_free's outer loop: unmap the table's entries, then drop the table.
    method FreeEnvTable(e: nat, pdeno: nat)
      requires Valid() && Sound(Abs()) && Shape(Abs()) && e < pgdir.Length && pgdir[e] != 0
      requires pdeno < UPDES && Pde(Abs(), e, pdeno) != 0
      modifies this, pages, mem
      ensures Valid() && pgdir[..] == old(pgdir[..])
      ensures Shape(FreePtes(old(Abs()), e, pdeno, 0))
      ensures Abs() == DropTable(FreePtes(old(Abs()), e, pdeno, 0), e, pdeno)
    {
      hide Chain, NoDup, Sound, FreePtes;
      ghost var p := Abs();
      var dir := pgdir[e];
      assert p.dirs[e] == dir;
      var pt := FrameOf(mem[dir][pdeno]);
      for pteno := 0 to 1024
        invariant Valid() && Sound(Abs()) && Shape(Abs()) && Abs().dirs == p.dirs && pgdir[..] == old(pgdir[..])
        invariant Pde(Abs(), e, pdeno) == Pde(p, e, pdeno)
        invariant FreePtes(Abs(), e, pdeno, pteno) == FreePtes(p, e, pdeno, 0)
      {
        FreePtesStep(Abs(), e, pdeno, pteno);
        KeepsPde(Abs(), e, Vpn(pdeno, pteno), pdeno);
        PresentIsMapped2(Abs(), e, Vpn(pdeno, pteno));
        SoundInUse(Abs(), e, Vpn(pdeno, pteno));
        if HasP(PermOf(mem[pt][pteno])) {
          PageRemove(e, Vpn(pdeno, pteno) * PGSIZE);
        }
      }
      FreePtesDone(Abs(), e, pdeno);
      TableNotFree(Abs(), e, pdeno);
      ghost var q := Abs();
      mem[dir] := mem[dir][pdeno := 0];
      assert Abs().mem == SetPde(q, e, pdeno, 0).mem;
      PageDecref(pt);
    }
  }

  const WORDS: nat := 0x1_0000_0000
  const E_FAULT: nat := 6

  // ROUNDUP(a, PGSIZE) on 32-bit words
  function RoundUp(a: Word): Word { (a + 4095) % WORDS / 4096 * 4096 }

  // va_hi of user_mem_check
  function RangeTop(va: Word, len: Word): Word { RoundUp((va + len) % WORDS) }

  lemma RangeEnd(va: Word, len: Word)
    ensures RangeTop(va, len) % PGSIZE == 0
    ensures 0 < len && va + len <= UTOP ==> RangeTop(va, len) - PGSIZE < va + len <= RangeTop(va, len) <= UTOP
  {
  }

  // (pte & (perm | PTE_P)) == (perm | PTE_P)
  predicate Grants(pte: Word, perm: bv32) {
    (pte as bv32) & (perm | 1) == perm | 1
  }

  // Page number `v` is mapped with the permissions asked for.
  ghost predicate Allowed(p: Phys, e: nat, v: nat, perm: bv32)
    requires Shape(p) && e in p.dirs && v < UVPNS
  {
    Pde(p, e, v / 1024) != 0 && Grants(Pte(p, e, v), perm)
  }

  ghost predicate ByteOk(p: Phys, e: nat, b: nat, perm: bv32)
    requires Shape(p) && e in p.dirs
  {
    b < UTOP && Allowed(p, e, b / PGSIZE, perm)
  }

  // Every byte of [lo, hi) lies in a page mapped with the permissions asked for.
  ghost predicate Accessible(p: Phys, e: nat, lo: nat, hi: nat, perm: bv32)
    requires Shape(p) && e in p.dirs
  {
    forall b :: lo <= b < hi ==> ByteOk(p, e, b, perm)
  }

  // The pages user_mem_check visits, from the one that holds `lo` up to `hi`.
  ghost predicate PagesAllowed(p: Phys, e: nat, lo: nat, hi: nat, perm: bv32)
    requires Shape(p) && e in p.dirs
  {
    forall v: nat :: lo / PGSIZE <= v && v * PGSIZE < hi ==> v < UVPNS && Allowed(p, e, v, perm)
  }

  lemma NoPages(p: Phys, e: nat, lo: nat, perm: bv32)
    requires Shape(p) && e in p.dirs
    ensures PagesAllowed(p, e, lo, lo / PGSIZE * PGSIZE, perm)
  {
  }

  lemma ShorterPages(p: Phys, e: nat, lo: nat, hi: nat, less: nat, perm: bv32)
    requires Shape(p) && e in p.dirs && PagesAllowed(p, e, lo, hi, perm) && less <= hi
    ensures PagesAllowed(p, e, lo, less, perm)
  {
    hide Shape, Allowed;
  }

  lemma NextPage(p: Phys, e: nat, lo: nat, act: nat, hi: nat, perm: bv32)
    requires Shape(p) && e in p.dirs && PagesAllowed(p, e, lo, act, perm)
    requires act % PGSIZE == 0 && lo < act + PGSIZE && act < UTOP && act < hi
    ensures Allowed(p, e, act / PGSIZE, perm) ==> PagesAllowed(p, e, lo, act + PGSIZE, perm)
    ensures !Allowed(p, e, act / PGSIZE, perm) ==> !PagesAllowed(p, e, lo, hi, perm)
  {
    hide Shape, Allowed;
    assert act / PGSIZE * PGSIZE == act;
  }

  lemma Nothing(p: Phys, e: nat, lo: nat, perm: bv32)
    requires Shape(p) && e in p.dirs
    ensures Accessible(p, e, lo, lo / PGSIZE * PGSIZE, perm)
  {
  }

  lemma Shorter(p: Phys, e: nat, lo: nat, hi: nat, less: nat, perm: bv32)
    requires Shape(p) && e in p.dirs && Accessible(p, e, lo, hi, perm)
    ensures less <= hi ==> Accessible(p, e, lo, less, perm)
  {
  }

  // The page at `act` decides for the bytes of it from `lo` on.
  lemma OnePage(p: Phys, e: nat, lo: nat, act: nat, perm: bv32)
    requires Shape(p) && e in p.dirs && act % PGSIZE == 0 && act < UTOP && lo < act + PGSIZE
    requires Accessible(p, e, lo, act, perm)
    ensures Allowed(p, e, act / PGSIZE, perm) ==> Accessible(p, e, lo, act + PGSIZE, perm)
    ensures var bad := if act > lo then act else lo;
      && Accessible(p, e, lo, bad, perm) && (Allowed(p, e, act / PGSIZE, perm) <==> ByteOk(p, e, bad, perm))
      && (!ByteOk(p, e, bad, perm) ==> forall hi :: bad < hi ==> !Accessible(p, e, lo, hi, perm))
  {
    hide Shape, Grants;
    assert forall b :: act <= b < act + PGSIZE ==> b / PGSIZE == act / PGSIZE;
  }

  // The frames page_init leaves out: frame 0, the other processors' start-up code at
  // MPENTRY_PADDR, the I/O hole, and what the kernel occupies above EXTPHYSMEM.
  predicate InUse(f: nat, kend: nat) {
    f == 0 || f == 7 || 160 <= f < 256 || 256 <= f < kend
  }

  lemma NoEnvsShape(p: Phys)
    requires |p.refs| == |p.mem| <= MAXFRAMES && p.kern < |p.mem| && p.dirs == map[]
    requires forall k :: 0 <= k < |p.free| ==> p.free[k] < |p.mem|
    ensures Shape(p)
  {
  }

  lemma NoReferences(p: Phys)
    requires Shape(p) && p.dirs == map[] && NoDup(p.free) && p.kern in p.reserved
    requires forall f :: 0 <= f < |p.refs| ==> p.refs[f] == 0
    requires forall f :: 0 <= f < |p.refs| ==> (f in p.free <==> f !in p.reserved)
    requires forall f :: f in p.reserved ==> f < |p.refs|
    requires forall i :: 0 <= i < UPDES ==> p.mem[p.kern][i] == 0
    ensures Inv(p, {})
  {
    assert forall r, f :: !RefTo(p, r, f);
    assert forall f :: Refs(p, f) == {};
  }

  lemma EntryFrame(p: Phys, e: nat, v: nat)
    requires Shape(p) && Clean(p) && e in p.dirs && v < UVPNS
    ensures FrameOf(Pte(p, e, v)) < |p.mem|
  {
  }

  // The frame page_alloc gives can be mapped at once.
  lemma Fresh(p: Phys, lost: set<nat>, e: nat, v: nat)
    requires Inv(p, lost) && p.free != [] && e in p.dirs && v < UVPNS
    ensures Shape(p)
    ensures var a := Paging.PageAlloc(p, true);
      && a.Frame? && Shape(a.p) && Sound(a.p) && Mappable(a.p, a.f) && a.p.refs[a.f] == 0
      && FrameOf(Pte(a.p, e, v)) < |a.p.refs|
  {
    hide InvHeld;
    InvParts(p, lost, multiset{});
    AllocKeeps(p, lost, multiset{}, true);
    var a := Paging.PageAlloc(p, true);
    UsableFrame(a.p, lost + {a.f}, a.f);
    InvParts(a.p, lost + {a.f}, multiset{});
    EntryFrame(a.p, e, v);
    assert InvHeld(a.p, lost + {a.f}, multiset{});
  }

  lemma KeepsPde(p: Phys, e: nat, v: nat, i: nat)
    requires Sound(p) && Shape(p) && e in p.dirs && v < UVPNS && i < UPDES && FrameOf(Pte(p, e, v)) < |p.mem|
    ensures Shape(PageOps.PageRemove(p, e, v)) && PageOps.PageRemove(p, e, v).dirs == p.dirs
    ensures Pde(PageOps.PageRemove(p, e, v), e, i) == Pde(p, e, i)
  {
    hide Sound;
    SoundParts(p);
    RemoveEffect(p, e, v);
  }

  lemma PresentIsMapped2(p: Phys, e: nat, v: nat)
    requires Sound(p) && Shape(p) && e in p.dirs && v < UVPNS
    ensures FrameOf(Pte(p, e, v)) < |p.mem|
    ensures HasP(PermOf(Pte(p, e, v))) || PageOps.PageRemove(p, e, v) == p
  {
    hide Sound;
    SoundParts(p);
    PresentIsMapped(p, e, v);
  }

  lemma FreePtesDone(p: Phys, e: nat, i: nat)
    requires Sound(p) && e in p.dirs && i < UPDES
    ensures FreePtes(p, e, i, 1024) == p
  {
    hide Sound;
  }

  lemma FreeTablesStep(p: Phys, e: nat, i: nat)
    requires Sound(p) && Shape(p) && e in p.dirs && i < UPDES
    ensures HasP(PermOf(Pde(p, e, i))) <==> Pde(p, e, i) != 0
    ensures Pde(p, e, i) == 0 ==> FreeTables(p, e, i) == FreeTables(p, e, i + 1)
    ensures Pde(p, e, i) != 0 ==> Shape(FreePtes(p, e, i, 0))
    ensures Pde(p, e, i) != 0 ==> Sound(DropTable(FreePtes(p, e, i, 0), e, i))
    ensures Pde(p, e, i) != 0 ==> FreeTables(p, e, i) == FreeTables(DropTable(FreePtes(p, e, i, 0), e, i), e, i + 1)
  {
    SoundParts(p);
    TablePresent(p, e, i);
    hide Sound, Unique, Clean, HasP;
    if Pde(p, e, i) != 0 {
      FreeTableSound(p, e, i);
    }
  }

  lemma FreeTablesDone(p: Phys, e: nat)
    requires Sound(p) && e in p.dirs
    ensures FreeTables(p, e, UPDES) == p
  {
    hide Sound;
  }

  lemma TableNotFree(p: Phys, e: nat, i: nat)
    requires Sound(p) && Shape(p) && e in p.dirs && i < UPDES && Pde(p, e, i) != 0
    ensures FrameOf(Pde(p, e, i)) !in p.free
  {
    assert RefTo(p, PdeRef(e, i), FrameOf(Pde(p, e, i)));
    ReferencedNotFree(p, PdeRef(e, i), FrameOf(Pde(p, e, i)));
  }

  lemma DirNotFree(p: Phys, e: nat)
    requires Sound(p) && Shape(p) && e in p.dirs
    ensures p.dirs[e] !in p.free
  {
    ReferencedNotFree(p, EnvRef(e), p.dirs[e]);
  }

  lemma ReferencedNotFree(p: Phys, r: Ref, f: nat)
    requires Sound(p) && Shape(p) && f < |p.refs| && RefTo(p, r, f)
    ensures f !in p.free
  {
    hide InvHeld, RefTo;
    var flight, held :| InvHeld(p, flight, held);
    if p.refs[f] == 0 {
      Unreferenced(p, flight, held, f);
    }
    CountedNotFree(p, flight, held, f);
  }

  lemma CountedNotFree(p: Phys, flight: set<nat>, held: multiset<nat>, f: nat)
    requires InvHeld(p, flight, held) && f < |p.refs| && p.refs[f] > 0
    ensures f !in p.free
  {
  }

  // What is mapped at page number `v` is not on the free list.
  ghost predicate MappedInUse(p: Phys, e: nat, v: nat)
    requires Shape(p) && e in p.dirs && v < UVPNS
  {
    FrameOf(Pte(p, e, v)) < |p.refs| && (Pte(p, e, v) != 0 ==> FrameOf(Pte(p, e, v)) !in p.free)
  }

  lemma SoundInUse(p: Phys, e: nat, v: nat)
    requires Sound(p) && Shape(p) && e in p.dirs && v < UVPNS
    ensures MappedInUse(p, e, v)
  {
    hide InvHeld;
    var flight, held :| InvHeld(p, flight, held);
    InvParts(p, flight, held);
    EntryFrame(p, e, v);
    if Pte(p, e, v) != 0 {
      MappedIsMappable(p, flight, held, e, v);
    }
  }

  // Between the walk and the store of page_insert.
  lemma CountedSound(p: Phys, q: Phys, e: nat, f: nat, v: nat)
    requires Sound(p) && Shape(p) && e in p.dirs && v < UVPNS && WalkCreate(p, e, v) == Walked(q)
    requires Mappable(p, f)
    ensures Shape(q) && f < |q.refs| && f !in q.free && q.dirs == p.dirs && Pde(q, e, v / 1024) != 0
    ensures Shape(IncRef(q, f)) && Pte(IncRef(q, f), e, v) == Pte(p, e, v) && MappedInUse(IncRef(q, f), e, v)
  {
    hide InvHeld;
    var flight, held :| InvHeld(p, flight, held);
    SoundInUse(p, e, v);
    WalkLaw(p, flight, held, e, v);
    InvParts(q, flight, held);
  }

  // The fields of a linear address.
  function Pdx(va: nat): nat { va / 0x40_0000 }

  function Ptx(va: nat): nat { va / 4096 % 1024 }

  lemma VaParts(va: nat)
    requires va < UTOP
    ensures va / PGSIZE < UVPNS && va / PGSIZE / 1024 == Pdx(va) < UPDES && va / PGSIZE % 1024 == Ptx(va) < 1024
  {
  }

  // Where the entry of page number `v` is stored.
  ghost function WhereIs(p: Phys, e: nat, v: nat): (ptr: Ptr)
    requires Shape(p) && e in p.dirs && v < UVPNS
    ensures ptr.At? ==> ptr.frame < |p.mem| && ptr.index < 1024 && p.mem[ptr.frame][ptr.index] == Pte(p, e, v)
  {
    if Pde(p, e, v / 1024) == 0 then Null else At(FrameOf(Pde(p, e, v / 1024)), v % 1024)
  }
}
