/** The memory system calls of sched/kern/syscall.c as steps, and what every run of them
    keeps. */
module PageCalls {
  import opened Paging
  import opened PagingLaws
  import opened PageOps
  import opened AddressSpace
  import opened RefCounts

  const UTOP: nat := 0xEEC0_0000
  const PGSIZE: nat := 4096
  const E_BAD_ENV: nat := 2
  const E_INVAL: nat := 3
  const E_NO_MEM: nat := 4

  /** The memory, with the frames that were allocated and lost: `env_page_alloc` does not
      give its frame back when `page_insert` fails. */
  datatype Sys = Sys(p: Phys, lost: set<nat>)

  // New state and error code, 0 for success.
  datatype Outcome = Outcome(s: Sys, err: nat)

  ghost predicate Good(s: Sys) {
    Inv(s.p, s.lost)
  }

  // What an entry maps may be mapped again.
  lemma MappedIsMappable(p: Phys, flight: set<nat>, held: multiset<nat>, e: nat, v: nat)
    requires InvHeld(p, flight, held) && e in p.dirs && v < UVPNS && Pte(p, e, v) != 0
    ensures Mappable(p, FrameOf(Pte(p, e, v))) && FrameOf(Pte(p, e, v)) !in flight
    ensures 0 < p.refs[FrameOf(Pte(p, e, v))] < 0x1_0000
  {
    var f := FrameOf(Pte(p, e, v));
    assert RefTo(p, PteRef(e, v), f);
    assert PteRef(e, v) in Refs(p, f);
  }

  // ---------------------------------------------------------------- env_page_alloc, env_page_map

  ghost function EnvPageAlloc(s: Sys, e: nat, v: nat, perm: nat): Outcome
    requires Good(s) && e in s.p.dirs && v < UVPNS
  {
    if !CheckPerm(perm) then Outcome(s, E_INVAL)
    else
      match PageAlloc(s.p, true)
      case NoFrame => Outcome(s, E_NO_MEM)
      case Frame(p1, f) =>
        AllocKeeps(s.p, s.lost, multiset{}, true);
        match PageInsert(p1, e, f, v, perm)
        case NoMem => Outcome(Sys(p1, s.lost + {f}), E_NO_MEM)
        case Mapped(q) => Outcome(Sys(q, s.lost), 0)
  }

  ghost function EnvPageMap(s: Sys, src: nat, srcv: nat, dst: nat, dstv: nat, perm: Word): Outcome
    requires Good(s) && src in s.p.dirs && dst in s.p.dirs && srcv < UVPNS && dstv < UVPNS
  {
    var pte := Pte(s.p, src, srcv);
    if pte == 0 then Outcome(s, E_INVAL)
    else if HasW(perm) && !HasW(PermOf(pte)) then Outcome(s, E_INVAL)
    else
      match PageInsert(s.p, dst, FrameOf(pte), dstv, perm)
      case NoMem => Outcome(s, E_NO_MEM)
      case Mapped(q) => Outcome(Sys(q, s.lost), 0)
  }

  // `q` is `p` with a zeroed frame off the free list mapped at page number `v` of `e`.
  ghost predicate NewPage(p: Phys, q: Phys, e: nat, v: nat, perm: nat)
    requires Shape(p) && e in p.dirs && v < UVPNS && perm < 4096
  {
    && p.free != [] && InsertedLike(p, q, e, p.free[0], v, MakeEntry(p.free[0], OrP(perm)))
    && q.mem[p.free[0]] == ZeroPage()
  }

  /** env_page_alloc maps a zeroed frame, or changes no mapping and no count; when the table
      it needs cannot be had, the frame it took is lost. */
  lemma PageAllocLaw(s: Sys, e: nat, v: nat, perm: nat)
    requires Good(s) && e in s.p.dirs && v < UVPNS
    ensures var o := EnvPageAlloc(s, e, v, perm);
      && Good(o.s)
      && (o.err == E_INVAL <==> !CheckPerm(perm))
      && (o.err == 0 ==> CheckPerm(perm) && NewPage(s.p, o.s.p, e, v, perm) && o.s.lost == s.lost)
      && (o.err != 0 ==> SameTables(s.p, o.s.p) && o.s.p.refs == s.p.refs)
      && (o.err == E_NO_MEM && s.p.free != [] ==> |s.p.free| == 1 && o.s.lost == s.lost + {s.p.free[0]})
  {
    hide InvHeld, Unique, Clean, PageInsert, InsertedLike, FreeOk, Counted;
    InvParts(s.p, s.lost, multiset{});
    if CheckPerm(perm) && s.p.free != [] {
      AllocKeeps(s.p, s.lost, multiset{}, true);
      var a := PageAlloc(s.p, true);
      UsableFrame(a.p, s.lost + {a.f}, a.f);
      InvParts(a.p, s.lost + {a.f}, multiset{});
      InsertKeeps(a.p, s.lost + {a.f}, multiset{}, e, a.f, v, perm);
      assert s.lost + {a.f} - {a.f} == s.lost;
      if PageInsert(a.p, e, a.f, v, perm).Mapped? {
        AllocThenInsert(s.p, a.p, PageInsert(a.p, e, a.f, v, perm).p, e, v, perm);
      }
    }
  }

  lemma UsableFrame(p: Phys, flight: set<nat>, f: nat)
    requires InvHeld(p, flight, multiset{}) && f in flight
    ensures Mappable(p, f) && p.refs[f] == 0
  {
    Unreferenced(p, flight, multiset{}, f);
  }

  lemma AllocThenInsert(p: Phys, a: Phys, q: Phys, e: nat, v: nat, perm: nat)
    requires Shape(p) && e in p.dirs && v < UVPNS && perm < 4096 && p.free != []
    requires PageAlloc(p, true) == Frame(a, p.free[0]) && Shape(a) && SameTables(p, a) && Mappable(a, p.free[0])
    requires InsertedLike(a, q, e, p.free[0], v, MakeEntry(p.free[0], OrP(perm)))
    ensures NewPage(p, q, e, v, perm)
  {
    AllocLeaves(p, a);
    hide SameTables, Mappable, PageAlloc, MakeEntry, RefTo, Pte, Pde, NotTable;
    assert q.mem[p.free[0]] == a.mem[p.free[0]] by { MappableIsData(a, p.free[0]); }
  }

  lemma MappableIsData(p: Phys, f: nat)
    requires Shape(p) && Mappable(p, f)
    ensures NotTable(p, f) && f !in p.free && f < |p.mem|
  {
  }

  // What page_alloc leaves alone, and the page it zeroes.
  lemma AllocLeaves(p: Phys, a: Phys)
    requires Shape(p) && p.free != [] && PageAlloc(p, true) == Frame(a, p.free[0]) && Shape(a) && SameTables(p, a)
    ensures a.dirs == p.dirs && a.reserved == p.reserved && a.kern == p.kern && |a.mem| == |p.mem|
    ensures p.free[0] in p.free && a.mem[p.free[0]] == ZeroPage()
    ensures forall g :: g in a.free ==> g in p.free
    ensures forall g :: 0 <= g < |p.mem| && g !in p.free ==> a.mem[g] == p.mem[g]
    ensures forall e, v :: e in p.dirs && 0 <= v < UVPNS ==> Pte(a, e, v) == Pte(p, e, v)
    ensures forall r, g :: RefTo(a, r, g) <==> RefTo(p, r, g)
    ensures forall g :: NotTable(a, g) <==> NotTable(p, g)
  {
    SameKeeps(p, a);
    hide Unique, Clean, RefTo, Pte, Pde;
    assert forall k :: 0 <= k < |a.free| ==> a.free[k] == p.free[k + 1];
  }

  /** When the frame is lost: the call asks for proper permissions, one frame is left, and
      the page needs a table. */
  lemma FrameLostIff(s: Sys, e: nat, v: nat, perm: nat)
    requires Good(s) && e in s.p.dirs && v < UVPNS && Shape(s.p)
    ensures EnvPageAlloc(s, e, v, perm).s.lost != s.lost
      <==> CheckPerm(perm) && |s.p.free| == 1 && Pde(s.p, e, v / 1024) == 0
  {
    hide InvHeld, Unique, Clean, PageInsert, InsertedLike, FreeOk, Counted;
    InvParts(s.p, s.lost, multiset{});
    if CheckPerm(perm) && s.p.free != [] {
      AllocKeeps(s.p, s.lost, multiset{}, true);
      var a := PageAlloc(s.p, true);
      UsableFrame(a.p, s.lost + {a.f}, a.f);
      InvParts(a.p, s.lost + {a.f}, multiset{});
      EntryInMemory(a.p, e, v);
      NoMemIff(a.p, e, a.f, v, perm);
      PdeSame(s.p, a.p, e, v / 1024);
      assert a.f in s.lost + {a.f} && a.f !in s.lost;
    }
  }

  lemma EntryInMemory(p: Phys, e: nat, v: nat)
    requires Shape(p) && Clean(p) && e in p.dirs && v < UVPNS
    ensures FrameOf(Pte(p, e, v)) < |p.refs|
  {
  }

  lemma NoMemIff(p: Phys, e: nat, f: nat, v: nat, perm: Word)
    requires Shape(p) && e in p.dirs && v < UVPNS && FrameOf(Pte(p, e, v)) < |p.refs| && f < |p.refs|
    ensures PageInsert(p, e, f, v, perm).NoMem? <==> p.free == [] && Pde(p, e, v / 1024) == 0
  {
    hide Store, EntryWord;
  }

  // env_page_map gets as far as page_insert.
  ghost predicate MapReaches(s: Sys, src: nat, srcv: nat, perm: Word)
    requires Shape(s.p) && src in s.p.dirs && srcv < UVPNS
  {
    Pte(s.p, src, srcv) != 0 && (HasW(perm) ==> HasW(PermOf(Pte(s.p, src, srcv))))
  }

  /** env_page_map, whose permission word nothing checks, stores one word at the destination,
      or changes nothing; it keeps every count exact where the word names the source's frame
      and the counter has room. */
  lemma PageMapLaw(s: Sys, src: nat, srcv: nat, dst: nat, dstv: nat, perm: Word)
    requires Good(s) && src in s.p.dirs && dst in s.p.dirs && srcv < UVPNS && dstv < UVPNS && Shape(s.p)
    ensures var o, pte := EnvPageMap(s, src, srcv, dst, dstv, perm), Pte(s.p, src, srcv);
      && o.s.lost == s.lost && (o.err != 0 ==> o.s == s)
      && (o.err == E_INVAL <==> !MapReaches(s, src, srcv, perm))
      && (o.err == E_NO_MEM <==>
            MapReaches(s, src, srcv, perm) && s.p.free == [] && Pde(s.p, dst, dstv / 1024) == 0)
      && (o.err == 0 ==> FrameOf(pte) < |s.p.refs| && var w := EntryWord(FrameOf(pte), perm);
            && InsertedLike(s.p, o.s.p, dst, FrameOf(w), dstv, w)
            && (ExactInsert(s.p, dst, FrameOf(pte), dstv, perm) ==> Good(o.s)))
  {
    var pte := Pte(s.p, src, srcv);
    InvParts(s.p, s.lost, multiset{});
    if pte != 0 {
      MappedIsMappable(s.p, s.lost, multiset{}, src, srcv);
      EntryInMemory(s.p, dst, dstv);
      hide InvHeld, Unique, Clean, PageInsert, InsertedLike, FreeOk, Counted, RefTo, EntryWord, ExactInsert;
      InsertLaw(s.p, s.lost, multiset{}, dst, FrameOf(pte), dstv, perm);
      NoMemIff(s.p, dst, FrameOf(pte), dstv, perm);
      assert s.lost - {FrameOf(pte)} == s.lost;
    }
  }

  lemma MapErrors(s: Sys, src: nat, srcv: nat, dst: nat, dstv: nat, perm: Word)
    requires Good(s) && src in s.p.dirs && dst in s.p.dirs && srcv < UVPNS && dstv < UVPNS
    ensures EnvPageMap(s, src, srcv, dst, dstv, perm).err in {0, E_INVAL, E_NO_MEM}
  {
    hide PageInsert;
  }

  /** After a successful call the counts are exact if and only if the word stored names the
      frame that was counted, and the counter had room or nothing to count. */
  lemma PageMapExactIff(s: Sys, src: nat, srcv: nat, dst: nat, dstv: nat, perm: Word)
    requires Good(s) && src in s.p.dirs && dst in s.p.dirs && srcv < UVPNS && dstv < UVPNS && Shape(s.p)
    requires EnvPageMap(s, src, srcv, dst, dstv, perm).err == 0
    ensures FrameOf(Pte(s.p, src, srcv)) < |s.p.refs|
    ensures (exists lost :: Good(Sys(EnvPageMap(s, src, srcv, dst, dstv, perm).s.p, lost)))
      <==> ExactInsert(s.p, dst, FrameOf(Pte(s.p, src, srcv)), dstv, perm)
  {
    var f, q := FrameOf(Pte(s.p, src, srcv)), EnvPageMap(s, src, srcv, dst, dstv, perm).s.p;
    InvParts(s.p, s.lost, multiset{});
    MappedIsMappable(s.p, s.lost, multiset{}, src, srcv);
    EntryInMemory(s.p, dst, dstv);
    hide InvHeld, Unique, Clean, FreeOk, Counted, RefTo, PageInsert, ExactInsert;
    InsertExactIff(s.p, s.lost, dst, f, dstv, perm);
    if flight :| Inv(q, flight) {
      assert Good(Sys(q, flight));
    }
    if lost :| Good(Sys(q, lost)) {
      assert Inv(q, lost);
    }
  }
}
