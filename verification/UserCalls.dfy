/** The memory system calls as user code sees them (sched/kern/syscall.c): what each does to
    the entry and the contents of every mapped page of every environment. */
module UserCalls {
  import opened Paging
  import opened PagingLaws
  import opened PageOps
  import opened AddressSpace
  import opened PageCalls
  import opened RefCounts

  datatype Option<T> = None | Some(value: T)

  // PTE_COW (0x800), one of the bits left to user programs
  predicate HasCow(perm: nat) { perm % 4096 >= 2048 }

  // PTE_PWT or PTE_PCD: memory-mapped I/O
  predicate HasIo(perm: nat) { perm / 8 % 4 != 0 }

  ghost predicate Page?(s: Sys, e: nat, v: nat)
    requires Good(s)
  {
    e in s.p.dirs && v < UVPNS && Pte(s.p, e, v) != 0
  }

  // The contents of a mapped page.
  ghost function Data(s: Sys, e: nat, v: nat): Page
    requires Good(s) && Page?(s, e, v)
  {
    s.p.mem[FrameOf(Pte(s.p, e, v))]
  }

  // The permission bits read through uvpt.
  ghost function PermAt(s: Sys, e: nat, v: nat): (r: nat)
    requires Good(s) && e in s.p.dirs && v < UVPNS
    ensures r < 4096 && (HasP(r) ==> Page?(s, e, v))
  {
    PermOf(Pte(s.p, e, v))
  }

  datatype Place = Place(env: nat, vpn: nat)

  datatype Seen = Seen(frame: nat, perm: nat, page: Page)

  // Every mapped page of every environment.
  ghost function Shown(s: Sys): imap<Place, Seen>
    requires Good(s)
  {
    imap a: Place | Page?(s, a.env, a.vpn) ::
      Seen(FrameOf(Pte(s.p, a.env, a.vpn)), PermOf(Pte(s.p, a.env, a.vpn)), Data(s, a.env, a.vpn))
  }

  ghost predicate Fresh(m: imap<Place, Seen>, f: nat) {
    forall a :: a in m ==> m[a].frame != f
  }

  // Places that show one frame show one page.
  ghost predicate Coherent(m: imap<Place, Seen>) {
    forall a, b :: a in m && b in m && m[a].frame == m[b].frame ==> m[a].page == m[b].page
  }

  lemma ShownIsCoherent(s: Sys)
    requires Good(s)
    ensures Coherent(Shown(s))
    ensures forall a :: a in Shown(s) ==> a.env in s.p.dirs && a.vpn < UVPNS && HasP(Shown(s)[a].perm)
  {
    hide Unique, Counted, FreeOk;
  }

  // Nothing mapped outside page number `v` of `e` changed.
  ghost predicate OnlyAt(s: Sys, t: Sys, e: nat, v: nat)
    requires Good(s) && Good(t)
  {
    && t.p.dirs == s.p.dirs
    && (forall e1, v1 :: e1 in s.p.dirs && 0 <= v1 < UVPNS && !(e1 == e && v1 == v) ==>
          Pte(t.p, e1, v1) == Pte(s.p, e1, v1))
    && (forall e1, v1 :: Page?(s, e1, v1) && !(e1 == e && v1 == v) ==> Data(t, e1, v1) == Data(s, e1, v1))
  }

  lemma ShownAt(s: Sys, e: nat, v: nat)
    requires Good(s) && e in s.p.dirs && v < UVPNS
    ensures Shape(s.p)
    ensures Page?(s, e, v) <==> Place(e, v) in Shown(s)
    ensures Pte(s.p, e, v) == 0 <==> Place(e, v) !in Shown(s)
    ensures Page?(s, e, v) ==>
      Shown(s)[Place(e, v)] == Seen(FrameOf(Pte(s.p, e, v)), PermAt(s, e, v), Data(s, e, v))
  {
    hide Pte, Data, Clean, FreeOk, Unique, Counted;
  }

  lemma ShownOnlyAt(s: Sys, t: Sys, e: nat, v: nat)
    requires Good(s) && Good(t) && OnlyAt(s, t, e, v)
    ensures t.p.dirs == s.p.dirs
    ensures var a := Place(e, v);
      Shown(t) == if a in Shown(t) then Shown(s)[a := Shown(t)[a]] else Shown(s) - {a}
  {
    hide Good, Pte, Data;
  }

  // ---------------------------------------------------------------- sys_page_alloc

  ghost function AllocCall(s: Sys, e: nat, v: nat, perm: nat): Option<Sys>
    requires Good(s) && e in s.p.dirs && v < UVPNS
  {
    var o := EnvPageAlloc(s, e, v, OrP(OrU(perm)));
    if o.err == 0 then Some(o.s) else None
  }

  lemma AllocPointwise(s: Sys, e: nat, v: nat, perm: nat)
    requires Good(s) && e in s.p.dirs && v < UVPNS && AllocCall(s, e, v, perm).Some?
    ensures OrP(OrU(perm)) < 4096
    ensures var t := AllocCall(s, e, v, perm).value;
      && Good(t) && OnlyAt(s, t, e, v) && Page?(t, e, v) && Data(t, e, v) == ZeroPage()
      && PermOf(Pte(t.p, e, v)) == OrP(OrU(perm)) && Fresh(Shown(s), FrameOf(Pte(t.p, e, v)))
  {
    PageAllocLaw(s, e, v, OrP(OrU(perm)));
    assert OrP(OrP(OrU(perm))) == OrP(OrU(perm));
    var t := AllocCall(s, e, v, perm).value;
    var a := s.p.free[0];
    assert a in s.p.free;
    hide Unique, Counted;
    forall e1, v1 | Page?(s, e1, v1)
      ensures FrameOf(Pte(s.p, e1, v1)) != a
      ensures Mappable(s.p, FrameOf(Pte(s.p, e1, v1)))
    {
      MappedIsMappable(s.p, s.lost, multiset{}, e1, v1);
    }
  }

  // A zeroed page on a frame nothing else shows.
  lemma AllocEffect(s: Sys, e: nat, v: nat, perm: nat)
    requires Good(s) && e in s.p.dirs && v < UVPNS && AllocCall(s, e, v, perm).Some?
    ensures var t, a := AllocCall(s, e, v, perm).value, Place(e, v);
      && Good(t) && t.p.dirs == s.p.dirs && a in Shown(t) && Shown(t) == Shown(s)[a := Shown(t)[a]]
      && Fresh(Shown(s), Shown(t)[a].frame)
      && Shown(t)[a].page == ZeroPage() && Shown(t)[a].perm == OrP(OrU(perm))
  {
    hide Good, AllocCall, OnlyAt, Fresh, Pte, Data, Page?;
    AllocPointwise(s, e, v, perm);
    ShownOnlyAt(s, AllocCall(s, e, v, perm).value, e, v);
  }

  // ---------------------------------------------------------------- sys_page_map

  /** None when the call fails, and for the calls that would leave a count inexact
      (`ExactInsert`). */
  ghost function MapCall(s: Sys, src: nat, srcv: nat, dst: nat, dstv: nat, perm: Word): Option<Sys>
    requires Good(s) && src in s.p.dirs && dst in s.p.dirs && srcv < UVPNS && dstv < UVPNS
  {
    if Pte(s.p, src, srcv) == 0 || !ExactInsert(s.p, dst, FrameOf(Pte(s.p, src, srcv)), dstv, OrUP(perm)) then None
    else
      var o := EnvPageMap(s, src, srcv, dst, dstv, OrUP(perm));
      if o.err == 0 then Some(o.s) else None
  }

  lemma MapPointwise(s: Sys, src: nat, srcv: nat, dst: nat, dstv: nat, perm: Word)
    requires Good(s) && src in s.p.dirs && dst in s.p.dirs && srcv < UVPNS && dstv < UVPNS
    requires MapCall(s, src, srcv, dst, dstv, perm).Some?
    ensures var t := MapCall(s, src, srcv, dst, dstv, perm).value;
      && Page?(s, src, srcv) && Good(t) && OnlyAt(s, t, dst, dstv) && Page?(t, dst, dstv)
      && Pte(t.p, dst, dstv) == MakeEntry(FrameOf(Pte(s.p, src, srcv)), OrUP(perm) % 4096)
      && Data(t, dst, dstv) == Data(s, src, srcv)
      && (HasW(OrUP(perm)) ==> HasW(PermOf(Pte(s.p, src, srcv))))
  {
    MappedIsMappable(s.p, s.lost, multiset{}, src, srcv);
    InvParts(s.p, s.lost, multiset{});
    hide EntryWord, BitOr, OrUP;
    PageMapLaw(s, src, srcv, dst, dstv, OrUP(perm));
    StoredWord(FrameOf(Pte(s.p, src, srcv)), perm);
    hide Unique, Counted;
    forall e1, v1 | Page?(s, e1, v1)
      ensures Mappable(s.p, FrameOf(Pte(s.p, e1, v1)))
    {
      MappedIsMappable(s.p, s.lost, multiset{}, e1, v1);
    }
  }

  lemma StoredWord(f: nat, perm: Word)
    requires f < MAXFRAMES && NamesFrame(f, OrUP(perm))
    ensures EntryWord(f, OrUP(perm)) == MakeEntry(f, OrUP(perm) % 4096)
  {
    hide BitOr, EntryWord, MakeEntry, OrP, OrU, OrUP, HasP;
    LowPart(f, OrUP(perm));
    LowIsPresent(OrUP(perm));
  }

  lemma LowIsPresent(g: nat)
    requires HasP(g)
    ensures OrP(g % 4096) == g % 4096
  {
    assert g == 4096 * (g / 4096) + g % 4096;
    assert g % 4096 % 2 == g % 2;
  }

  lemma LowPart(f: nat, g: Word)
    requires f < MAXFRAMES && NamesFrame(f, g)
    ensures EntryWord(f, g) == MakeEntry(f, OrP(g % 4096))
  {
  }

  // The destination shows the source's frame with the new permissions.
  lemma MapEffect(s: Sys, src: nat, srcv: nat, dst: nat, dstv: nat, perm: Word)
    requires Good(s) && src in s.p.dirs && dst in s.p.dirs && srcv < UVPNS && dstv < UVPNS
    requires MapCall(s, src, srcv, dst, dstv, perm).Some?
    ensures var t, a := MapCall(s, src, srcv, dst, dstv, perm).value, Place(src, srcv);
      && Good(t) && t.p.dirs == s.p.dirs && a in Shown(s)
      && Shown(t) == Shown(s)[Place(dst, dstv) := Shown(s)[a].(perm := OrUP(perm) % 4096)]
      && (HasW(OrUP(perm)) ==> HasW(Shown(s)[a].perm))
  {
    hide Good, MapCall, OnlyAt, Data, OrUP;
    MapPointwise(s, src, srcv, dst, dstv, perm);
    ShownOnlyAt(s, MapCall(s, src, srcv, dst, dstv, perm).value, dst, dstv);
  }

  // ---------------------------------------------------------------- sys_page_unmap

  ghost function UnmapCall(s: Sys, e: nat, v: nat): Sys
    requires Good(s) && e in s.p.dirs && v < UVPNS
  {
    s.(p := PageRemove(s.p, e, v))
  }

  lemma UnmapPointwise(s: Sys, e: nat, v: nat)
    requires Good(s) && e in s.p.dirs && v < UVPNS
    ensures var t := UnmapCall(s, e, v);
      Good(t) && OnlyAt(s, t, e, v) && Pte(t.p, e, v) == 0
  {
    RemoveLaw(s.p, s.lost, multiset{}, e, v);
    hide Unique, Counted;
    forall e1, v1 | Page?(s, e1, v1)
      ensures Mappable(s.p, FrameOf(Pte(s.p, e1, v1)))
    {
      MappedIsMappable(s.p, s.lost, multiset{}, e1, v1);
    }
  }

  lemma UnmapEffect(s: Sys, e: nat, v: nat)
    requires Good(s) && e in s.p.dirs && v < UVPNS
    ensures var t := UnmapCall(s, e, v);
      Good(t) && t.p.dirs == s.p.dirs && Shown(t) == Shown(s) - {Place(e, v)}
  {
    hide Good, UnmapCall, OnlyAt, Data, Pte;
    UnmapPointwise(s, e, v);
    ShownOnlyAt(s, UnmapCall(s, e, v), e, v);
  }

  // ---------------------------------------------------------------- stores by the program

  // The frame behind page number `v` of `e` gets new contents.
  ghost function Fill(s: Sys, e: nat, v: nat, page: Page): Sys
    requires Good(s) && Page?(s, e, v)
  {
    s.(p := s.p.(mem := s.p.mem[FrameOf(Pte(s.p, e, v)) := page]))
  }

  // The store shows wherever that frame is mapped, and nowhere else.
  lemma FillPointwise(s: Sys, e: nat, v: nat, page: Page)
    requires Good(s) && Page?(s, e, v)
    ensures var t, f := Fill(s, e, v, page), FrameOf(Pte(s.p, e, v));
      && Good(t) && t.p.dirs == s.p.dirs
      && (forall e1, v1 :: e1 in s.p.dirs && 0 <= v1 < UVPNS ==> Pte(t.p, e1, v1) == Pte(s.p, e1, v1))
      && (forall e1, v1 :: Page?(s, e1, v1) ==>
            Data(t, e1, v1) == if FrameOf(Pte(s.p, e1, v1)) == f then page else Data(s, e1, v1))
  {
    MappedIsMappable(s.p, s.lost, multiset{}, e, v);
    DataWrite(s.p, FrameOf(Pte(s.p, e, v)), page);
    SameKeeps(s.p, Fill(s, e, v, page).p);
    hide Unique, Clean, RefTo, Refs;
  }

  ghost function Stored(m: imap<Place, Seen>, f: nat, page: Page): imap<Place, Seen> {
    imap a | a in m :: if m[a].frame == f then m[a].(page := page) else m[a]
  }

  // The store shows wherever that frame is mapped, and nowhere else.
  lemma FillEffect(s: Sys, e: nat, v: nat, page: Page)
    requires Good(s) && Page?(s, e, v)
    ensures var t := Fill(s, e, v, page);
      && Good(t) && t.p.dirs == s.p.dirs && Place(e, v) in Shown(s)
      && Shown(t) == Stored(Shown(s), Shown(s)[Place(e, v)].frame, page)
  {
    hide Good, Fill, Pte, Data;
    FillPointwise(s, e, v, page);
  }

  // ---------------------------------------------------------------- creating and ending an environment

  // The part of sys_exofork that concerns memory.
  ghost function NewEnv(s: Sys, e: nat): Option<Sys>
    requires Good(s)
  {
    if e in s.p.dirs || EnvSetupVm(s.p, e).NoDir? then None else Some(s.(p := EnvSetupVm(s.p, e).p))
  }

  lemma NewEnvPointwise(s: Sys, e: nat)
    requires Good(s) && NewEnv(s, e).Some?
    ensures var t := NewEnv(s, e).value;
      && Good(t) && e !in s.p.dirs && t.p.dirs.Keys == s.p.dirs.Keys + {e}
      && (forall v :: 0 <= v < UVPNS ==> Pte(t.p, e, v) == 0)
      && (forall e1, v1 :: e1 in s.p.dirs && 0 <= v1 < UVPNS ==> Pte(t.p, e1, v1) == Pte(s.p, e1, v1))
      && (forall e1, v1 :: Page?(s, e1, v1) ==> Data(t, e1, v1) == Data(s, e1, v1))
  {
    SetupLaw(s.p, s.lost, multiset{}, e);
    assert s.p.free[0] in s.p.free;
    hide Unique, Counted;
    forall e1, v1 | Page?(s, e1, v1)
      ensures FrameOf(Pte(s.p, e1, v1)) != s.p.free[0]
    {
      MappedIsMappable(s.p, s.lost, multiset{}, e1, v1);
    }
  }

  lemma NewEnvEffect(s: Sys, e: nat)
    requires Good(s) && NewEnv(s, e).Some?
    ensures var t := NewEnv(s, e).value;
      Good(t) && e !in s.p.dirs && t.p.dirs.Keys == s.p.dirs.Keys + {e} && Shown(t) == Shown(s)
  {
    hide Good, NewEnv, Pte, Data;
    NewEnvPointwise(s, e);
  }

  ghost function EndEnv(s: Sys, e: nat): Option<Sys>
    requires Good(s)
  {
    if e !in s.p.dirs then None else assert Sound(s.p); Some(s.(p := EnvFree(s.p, e)))
  }

  lemma EndEnvPointwise(s: Sys, e: nat)
    requires Good(s) && EndEnv(s, e).Some?
    ensures var t := EndEnv(s, e).value;
      && Good(t) && t.p.dirs == s.p.dirs - {e}
      && (forall e1, v1 :: e1 in t.p.dirs && 0 <= v1 < UVPNS ==> Pte(t.p, e1, v1) == Pte(s.p, e1, v1))
      && (forall e1, v1 :: Page?(t, e1, v1) ==> Data(t, e1, v1) == Data(s, e1, v1))
  {
    EnvFreeLaw(s.p, s.lost, multiset{}, e);
    var t := EndEnv(s, e).value;
    hide Unique, Counted, EnvFree;
    forall e1, v1 | e1 in t.p.dirs && 0 <= v1 < UVPNS
      ensures Pte(t.p, e1, v1) == Pte(s.p, e1, v1)
      ensures Pte(s.p, e1, v1) != 0 ==> NotTable(s.p, FrameOf(Pte(s.p, e1, v1)))
    {
      assert !In(All(e), PteRef(e1, v1));
      if Pte(s.p, e1, v1) != 0 {
        MappedIsMappable(s.p, s.lost, multiset{}, e1, v1);
      }
    }
  }

  lemma EndEnvEffect(s: Sys, e: nat)
    requires Good(s) && EndEnv(s, e).Some?
    ensures var t := EndEnv(s, e).value;
      && Good(t) && t.p.dirs == s.p.dirs - {e}
      && Shown(t) == imap a | a in Shown(s) && a.env != e :: Shown(s)[a]
  {
    hide Good, EndEnv, Pte, Data;
    EndEnvPointwise(s, e);
  }
}
