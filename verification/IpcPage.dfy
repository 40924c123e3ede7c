/** Sending a page by IPC: sys_ipc_try_send (sched/kern/syscall.c) allocates a placeholder
    page in the receiver and then maps the sender's page over it. */
module IpcPage {
  import opened Paging
  import opened PagingLaws
  import opened PageOps
  import opened PageCalls
  import opened RefCounts

  // The tests before anything is allocated, on the word `*srcpte`.
  predicate Refused(pte: Word, perm: Word) {
    (pte != 0 && !HasP(PermOf(pte))) || (HasW(perm) && !HasW(PermOf(pte)))
  }

  // What `*srcpte` reads; where nothing is mapped page_lookup leaves the pointer unset, and
  // `stray` is what it happens to point at.
  ghost function SourceWord(s: Sys, src: nat, srcv: nat, stray: Word): Word
    requires Good(s) && src in s.p.dirs && srcv < UVPNS
  {
    if Pte(s.p, src, srcv) != 0 then Pte(s.p, src, srcv) else stray
  }

  /** The page part of sys_ipc_try_send, for a receiver that wants a page: the tests, the
      placeholder, the sender's page over it. */
  ghost function SendPage(s: Sys, src: nat, srcv: nat, dst: nat, dstv: nat, perm: Word, stray: Word): Outcome
    requires Good(s) && src in s.p.dirs && dst in s.p.dirs && srcv < UVPNS && dstv < UVPNS
  {
    if Refused(SourceWord(s, src, srcv, stray), perm) then Outcome(s, E_INVAL)
    else
      PageAllocLaw(s, dst, dstv, OrUP(perm));
      var o := EnvPageAlloc(s, dst, dstv, OrUP(perm));
      if o.err != 0 then o else EnvPageMap(o.s, src, srcv, dst, dstv, OrUP(perm))
  }

  function Swap(t: nat, u: nat, g: nat): nat {
    if g == t then u else if g == u then t else g
  }

  // The same mappings everywhere; the same counts and free frames, reading frame `t` as `u`.
  ghost predicate SameUpTo(q: Phys, q1: Phys, t: nat, u: nat)
    requires Shape(q) && Shape(q1)
  {
    && q1.dirs == q.dirs && |q1.refs| == |q.refs| && t < |q.refs| && u < |q.refs|
    && (forall e, v :: e in q.dirs && 0 <= v < UVPNS ==> Pte(q1, e, v) == Pte(q, e, v))
    && (forall g :: 0 <= g < |q.refs| ==> q1.refs[Swap(t, u, g)] == q.refs[g])
    && (forall g :: 0 <= g < |q.refs| ==> (Swap(t, u, g) in q1.free <==> g in q.free))
  }

  // One insertion in the receiver: what SendPage and page_insert have in common.
  ghost predicate Received(p: Phys, q: Phys, e: nat, v: nat, f: nat, w: Word)
    requires Shape(p) && e in p.dirs && v < UVPNS
  {
    && OneMapping(p, q, e, v, w)
    && (forall r, g :: r != PdeRef(e, v / 1024) && r != PteRef(e, v) ==> (RefTo(q, r, g) <==> RefTo(p, r, g)))
    && (forall g :: RefTo(p, PdeRef(e, v / 1024), g) ==> RefTo(q, PdeRef(e, v / 1024), g))
    && (forall g :: RefTo(q, PteRef(e, v), g) <==> g == f)
    && Pde(q, e, v / 1024) != 0
    && (Pde(p, e, v / 1024) == 0 ==> FrameOf(Pde(q, e, v / 1024)) in p.free)
  }

  lemma InsertReceives(p: Phys, q: Phys, e: nat, v: nat, f: nat, w: Word)
    requires Shape(p) && e in p.dirs && v < UVPNS && InsertedLike(p, q, e, f, v, w) && FrameOf(w) == f && w != 0
    ensures Received(p, q, e, v, f, w)
  {
    assert RefTo(q, PteRef(e, v), f);
    assert RefTo(q, PdeRef(e, v / 1024), FrameOf(Pde(q, e, v / 1024)));
  }

  // Mapping a frame over the placeholder hides that there was one.
  lemma ReceiveTwice(p: Phys, p1: Phys, q: Phys, e: nat, v: nat, a: nat, f: nat, w1: Word, w: Word)
    requires Shape(p) && e in p.dirs && v < UVPNS
    requires Received(p, p1, e, v, a, w1) && Received(p1, q, e, v, f, w)
    ensures Received(p, q, e, v, f, w)
  {
    assert RefTo(p1, PdeRef(e, v / 1024), FrameOf(Pde(p1, e, v / 1024)));
    assert RefTo(q, PdeRef(e, v / 1024), FrameOf(Pde(p1, e, v / 1024)));
  }

  lemma ReceivedAlike(p: Phys, q: Phys, q1: Phys, lost: set<nat>, e: nat, v: nat, f: nat, w: Word)
    requires Inv(p, lost) && Inv(q, lost) && Inv(q1, lost) && e in p.dirs && v < UVPNS
    requires Received(p, q, e, v, f, w) && Received(p, q1, e, v, f, w)
    ensures exists t, u :: SameUpTo(q, q1, t, u)
  {
    var r0, t, u := PdeRef(e, v / 1024), FrameOf(Pde(q, e, v / 1024)), FrameOf(Pde(q1, e, v / 1024));
    assert RefTo(q, r0, t) && RefTo(q1, r0, u);
    if Pde(p, e, v / 1024) != 0 {
      assert RefTo(p, r0, FrameOf(Pde(p, e, v / 1024)));
      assert t == u;
    }
    assert forall r, g :: r != r0 ==> (RefTo(q, r, g) <==> RefTo(q1, r, g));
    forall g | 0 <= g < |q.refs|
      ensures |Refs(q1, Swap(t, u, g))| == |Refs(q, g)|
    {
      SwappedRefs(q, q1, r0, t, u, g);
    }
    hide RefTo, Unique, Clean, Refs;
    assert SameUpTo(q, q1, t, u);
  }

  lemma SwappedRefs(q: Phys, q1: Phys, r0: Ref, t: nat, u: nat, g: nat)
    requires Shape(q) && Shape(q1) && Unique(q) && Unique(q1) && r0.PdeRef?
    requires RefTo(q, r0, t) && RefTo(q1, r0, u)
    requires forall r, g1 :: r != r0 ==> (RefTo(q, r, g1) <==> RefTo(q1, r, g1))
    ensures |Refs(q1, Swap(t, u, g))| == |Refs(q, g)|
  {
    var g1 := Swap(t, u, g);
    if g == t {
      assert Refs(q, t) == {r0};
      assert Refs(q1, u) == {r0};
    } else if g == u {
      assert Refs(q, u) == {};
      assert Refs(q1, t) == {};
    } else {
      assert Refs(q1, g) == Refs(q, g);
    }
  }

  // After the placeholder is in, the sender's mapping and its frame are still there; the
  // receiver's reference to that frame, if it had one, is gone.
  lemma PlaceholderIn(s: Sys, s1: Sys, src: nat, srcv: nat, dst: nat, dstv: nat, perm: nat)
    requires Good(s) && Good(s1) && src in s.p.dirs && dst in s.p.dirs && srcv < UVPNS && dstv < UVPNS && perm < 4096
    requires (src, srcv) != (dst, dstv) && HasP(perm) && NewPage(s.p, s1.p, dst, dstv, perm)
    requires Pte(s.p, src, srcv) != 0
    ensures Shape(s1.p) && s1.p.dirs == s.p.dirs && Pte(s1.p, src, srcv) == Pte(s.p, src, srcv) && s.p.free != []
    ensures Received(s.p, s1.p, dst, dstv, s.p.free[0], MakeEntry(s.p.free[0], OrP(perm)))
    ensures s1.p.refs[FrameOf(Pte(s.p, src, srcv))]
      == |Refs(s.p, FrameOf(Pte(s.p, src, srcv))) - {PteRef(dst, dstv)}|
    ensures FrameOf(Pte(s1.p, dst, dstv)) == s.p.free[0] != FrameOf(Pte(s.p, src, srcv))
  {
    var p, p1, f, w := s.p, s1.p, FrameOf(Pte(s.p, src, srcv)), MakeEntry(s.p.free[0], OrP(perm));
    MappedIsMappable(p, s.lost, multiset{}, src, srcv);
    InsertReceives(p, p1, dst, dstv, p.free[0], w);
    assert p.free[0] in p.free;
    ReceivedRefs(p, p1, dst, dstv, p.free[0], w, f);
    hide Unique, Clean, FreeOk, Received, RefTo;
    assert PermOf(w) == OrP(perm);
  }

  // Another frame in use loses the receiver's reference, if it had it, and no other.
  lemma ReceivedRefs(p: Phys, q: Phys, e: nat, v: nat, a: nat, w: Word, f: nat)
    requires Shape(p) && e in p.dirs && v < UVPNS && Received(p, q, e, v, a, w) && f !in p.free && f != a && Shape(q)
    ensures Refs(q, f) == Refs(p, f) - {PteRef(e, v)}
  {
    forall r
      ensures RefTo(q, r, f) <==> RefTo(p, r, f) && r != PteRef(e, v)
    {
      if r == PdeRef(e, v / 1024) {
        assert RefTo(q, r, FrameOf(Pde(q, e, v / 1024)));
        assert Pde(p, e, v / 1024) != 0 ==> RefTo(p, r, FrameOf(Pde(p, e, v / 1024)));
      }
    }
  }

  // The counter has room for the send's insertion exactly when it has for one of its own.
  lemma SendFits(s: Sys, s1: Sys, src: nat, srcv: nat, dst: nat, dstv: nat, perm: nat)
    requires Good(s) && Good(s1) && src in s.p.dirs && dst in s.p.dirs && srcv < UVPNS && dstv < UVPNS && perm < 4096
    requires HasP(perm) && NewPage(s.p, s1.p, dst, dstv, perm) && Pte(s.p, src, srcv) != 0
    ensures Shape(s1.p) && s1.p.dirs == s.p.dirs && Pte(s1.p, src, srcv) != 0 && Shape(s.p)
    ensures FrameOf(Pte(s.p, src, srcv)) < |s.p.refs| && FrameOf(Pte(s1.p, src, srcv)) < |s1.p.refs|
    ensures ExactInsert(s1.p, dst, FrameOf(Pte(s1.p, src, srcv)), dstv, perm)
      <==> ExactInsert(s.p, dst, FrameOf(Pte(s.p, src, srcv)), dstv, perm)
  {
    hide InvHeld, Unique, Clean, FreeOk, RefTo, NewPage, FrameOf, HasP, MakeEntry, EntryWord, BitOr;
    InvParts(s.p, s.lost, multiset{});
    InvParts(s1.p, s1.lost, multiset{});
    MappedIsMappable(s.p, s.lost, multiset{}, src, srcv);
    NamesLow(FrameOf(Pte(s.p, src, srcv)), perm);
    if (src, srcv) == (dst, dstv) {
      PlaceholderAlone(s, s1, dst, dstv, perm);
      NamesLow(s.p.free[0], perm);
    } else {
      var f := FrameOf(Pte(s.p, src, srcv));
      PlaceholderIn(s, s1, src, srcv, dst, dstv, perm);
      CountedBefore(s.p, s.lost, dst, f, dstv);
      RefAt(s.p, dst, dstv, f);
      SizeWithout(Refs(s.p, f), PteRef(dst, dstv));
    }
  }

  lemma NamesLow(f: nat, perm: nat)
    requires perm < 4096
    ensures NamesFrame(f, perm)
  {
  }

  /** A successful page send leaves what one page_insert of the sender's frame would leave,
      except that a table created on the way may sit in another frame; in particular the
      placeholder is free again.  The receiver may already map that frame there. */
  lemma SendPageIsInsert(s: Sys, src: nat, srcv: nat, dst: nat, dstv: nat, perm: Word, stray: Word)
    requires Good(s) && src in s.p.dirs && dst in s.p.dirs && srcv < UVPNS && dstv < UVPNS
    requires (src, srcv) != (dst, dstv) && Shape(s.p) && Pte(s.p, src, srcv) != 0
    requires FrameOf(Pte(s.p, src, srcv)) < |s.p.refs| && FrameOf(Pte(s.p, dst, dstv)) < |s.p.refs|
    requires ExactInsert(s.p, dst, FrameOf(Pte(s.p, src, srcv)), dstv, OrUP(perm))
    requires SendPage(s, src, srcv, dst, dstv, perm, stray).err == 0
    ensures SameOutcome(SendPage(s, src, srcv, dst, dstv, perm, stray),
                        PageInsert(s.p, dst, FrameOf(Pte(s.p, src, srcv)), dstv, OrUP(perm)), s.lost)
  {
    hide InvHeld, Unique, Clean, PageInsert, InsertedLike, RefTo, Received, SameUpTo, NewPage, SameTables, FrameOf;
    hide EntryWord, MakeEntry, OrUP, BitOr, HasW, HasP, Refused, ExactInsert;
    var g := OrUP(perm);
    PageAllocLaw(s, dst, dstv, g);
    var o := EnvPageAlloc(s, dst, dstv, g);
    LowWord(FrameOf(Pte(s.p, src, srcv)), g);
    var f, w := FrameOf(Pte(s.p, src, srcv)), MakeEntry(FrameOf(Pte(s.p, src, srcv)), OrP(g));
    PlaceholderIn(s, o.s, src, srcv, dst, dstv, g);
    SendFits(s, o.s, src, srcv, dst, dstv, g);
    MappedIsMappable(s.p, s.lost, multiset{}, src, srcv);
    PageMapLaw(o.s, src, srcv, dst, dstv, g);
    var q := SendPage(s, src, srcv, dst, dstv, perm, stray).s.p;
    InsertReceives(o.s.p, q, dst, dstv, f, w);
    ReceiveTwice(s.p, o.s.p, q, dst, dstv, s.p.free[0], f, MakeEntry(s.p.free[0], OrP(g)), w);
    InsertOnItsOwn(s, dst, f, dstv, g);
    var i := PageInsert(s.p, dst, f, dstv, g);
    InsertReceives(s.p, i.p, dst, dstv, f, w);
    ReceivedAlike(s.p, q, i.p, s.lost, dst, dstv, f, w);
    InvParts(q, s.lost, multiset{});
    InvParts(i.p, s.lost, multiset{});
    PlaceholderInserted(s.p, o.s.p, dst, dstv, g);
    ContentsAlike(s, o.s, q, i.p, src, srcv, dst, dstv, s.p.free[0], MakeEntry(s.p.free[0], OrP(g)), w);
  }

  // The insertion to compare with finds a frame for its table, as the placeholder did.
  lemma InsertOnItsOwn(s: Sys, dst: nat, f: nat, dstv: nat, perm: nat)
    requires Good(s) && Shape(s.p) && dst in s.p.dirs && dstv < UVPNS && perm < 4096 && HasP(perm) && s.p.free != []
    requires Mappable(s.p, f) && f !in s.lost && FrameOf(Pte(s.p, dst, dstv)) < |s.p.refs|
    requires ExactInsert(s.p, dst, f, dstv, perm)
    ensures PageInsert(s.p, dst, f, dstv, perm).Mapped? && Inv(PageInsert(s.p, dst, f, dstv, perm).p, s.lost)
    ensures var w := MakeEntry(f, OrP(perm)); InsertedLike(s.p, PageInsert(s.p, dst, f, dstv, perm).p, dst, f, dstv, w)
  {
    hide InvHeld, PageInsert, InsertedLike, ExactInsert, EntryWord, MakeEntry, BitOr;
    InsertLaw(s.p, s.lost, multiset{}, dst, f, dstv, perm);
    LowWord(f, perm);
    assert s.lost - {f} == s.lost;
  }

  // Permissions that pass check_perm have no high bits.
  lemma LowWord(f: nat, perm: Word)
    requires f < MAXFRAMES && perm < 4096 && HasP(perm)
    ensures NamesFrame(f, perm) && EntryWord(f, perm) == MakeEntry(f, OrP(perm))
    ensures FrameOf(MakeEntry(f, OrP(perm))) == f && MakeEntry(f, OrP(perm)) != 0
  {
  }

  ghost predicate Untouched(p: Phys, q: Phys)
    requires Shape(p)
  {
    Shape(q) && SameTables(p, q) && q.refs == p.refs
  }

  // The placeholder goes in.
  ghost predicate Placed(s: Sys, src: nat, srcv: nat, dst: nat, dstv: nat, perm: Word, stray: Word)
    requires Good(s) && src in s.p.dirs && dst in s.p.dirs && srcv < UVPNS && dstv < UVPNS
  {
    !Refused(SourceWord(s, src, srcv, stray), perm) && EnvPageAlloc(s, dst, dstv, OrUP(perm)).err == 0
  }

  /** A page send succeeds exactly when the placeholder goes in and the source is mapped, by
      the placeholder if need be.  The message is to go only when no error occurs: an error
      leaves every mapping, count and table as it was if and only if the placeholder did not
      go in. */
  lemma SendPageSucceedsIff(s: Sys, src: nat, srcv: nat, dst: nat, dstv: nat, perm: Word, stray: Word)
    requires Good(s) && src in s.p.dirs && dst in s.p.dirs && srcv < UVPNS && dstv < UVPNS && Shape(s.p)
    ensures SendPage(s, src, srcv, dst, dstv, perm, stray).err == 0
      <==> Placed(s, src, srcv, dst, dstv, perm, stray) && (Pte(s.p, src, srcv) != 0 || (src, srcv) == (dst, dstv))
    ensures SendPage(s, src, srcv, dst, dstv, perm, stray).err != 0 ==>
      (Untouched(s.p, SendPage(s, src, srcv, dst, dstv, perm, stray).s.p)
       <==> !Placed(s, src, srcv, dst, dstv, perm, stray))
  {
    hide InvHeld, Unique, Clean, PageInsert, InsertedLike, RefTo;
    hide NewPage, SameTables, FrameOf, HasP, EntryWord, MakeEntry;
    hide Refused;
    var g := OrUP(perm);
    PageAllocLaw(s, dst, dstv, g);
    var o := EnvPageAlloc(s, dst, dstv, g);
    InvParts(o.s.p, o.s.lost, multiset{});
    if Placed(s, src, srcv, dst, dstv, perm, stray) {
      SecondStep(s, o.s, src, srcv, dst, dstv, perm, stray);
      PlaceholderShows(s, o.s, dst, dstv, g);
    }
    hide EnvPageMap;
    SameItself(s.p);
  }

  // Mapping the source over the placeholder fails where nothing is mapped, and only there.
  lemma SecondStep(s: Sys, s1: Sys, src: nat, srcv: nat, dst: nat, dstv: nat, perm: Word, stray: Word)
    requires Good(s) && src in s.p.dirs && dst in s.p.dirs && srcv < UVPNS && dstv < UVPNS && Shape(s.p)
    requires Placed(s, src, srcv, dst, dstv, perm, stray) && Good(s1)
    requires OrUP(perm) < 4096 && HasP(OrUP(perm)) && NewPage(s.p, s1.p, dst, dstv, OrUP(perm))
    ensures Shape(s1.p) && s1.p.dirs == s.p.dirs
    ensures Pte(s1.p, src, srcv) != 0 <==> Pte(s.p, src, srcv) != 0 || (src, srcv) == (dst, dstv)
    ensures var o := EnvPageMap(s1, src, srcv, dst, dstv, OrUP(perm));
      && (o.err == 0 <==> Pte(s1.p, src, srcv) != 0) && (o.err != 0 ==> o.s == s1)
  {
    hide InvHeld, Unique, Clean, FreeOk, Counted, RefTo;
    hide NewPage, ExactInsert, EnvPageMap, InsertedLike, EntryWord, HasP;
    hide OrUP, EnvPageAlloc, Refused, HasW;
    InvParts(s1.p, s1.lost, multiset{});
    PlaceholderMapped(s.p, s1.p, src, srcv, dst, dstv, OrUP(perm));
    MayWrite(s, src, srcv, perm, stray);
    PageMapLaw(s1, src, srcv, dst, dstv, OrUP(perm));
    MapErrors(s1, src, srcv, dst, dstv, OrUP(perm));
  }

  lemma MayWrite(s: Sys, src: nat, srcv: nat, perm: Word, stray: Word)
    requires Good(s) && src in s.p.dirs && srcv < UVPNS && !Refused(SourceWord(s, src, srcv, stray), perm)
    ensures HasW(OrUP(perm)) <==> HasW(perm)
    ensures Pte(s.p, src, srcv) != 0 && HasW(perm) ==> HasW(PermOf(Pte(s.p, src, srcv)))
  {
    SameWrite(perm);
    hide OrUP;
  }

  // The receiver's tables are not what they were.
  lemma PlaceholderShows(s: Sys, s1: Sys, e: nat, v: nat, perm: nat)
    requires Good(s) && Shape(s.p) && e in s.p.dirs && v < UVPNS && perm < 4096 && NewPage(s.p, s1.p, e, v, perm)
    ensures !SameTables(s.p, s1.p)
  {
    assert s.p.free[0] in s.p.free;
    if Pte(s.p, e, v) != 0 {
      MappedIsMappable(s.p, s.lost, multiset{}, e, v);
    }
    assert Pte(s1.p, e, v) != Pte(s.p, e, v);
    if SameTables(s.p, s1.p) {
      SameKeeps(s.p, s1.p);
      assert false;
    }
  }

  lemma SameWrite(perm: Word)
    ensures HasW(OrUP(perm)) <==> HasW(perm)
  {
    var u := OrU(perm);
    assert (perm + 4) / 2 == perm / 2 + 2 && (u % 2 == 0 ==> (u + 1) / 2 == u / 2);
    assert HasW(u) <==> HasW(perm);
  }

  lemma SameItself(p: Phys)
    requires Shape(p)
    ensures SameTables(p, p)
  {
  }

  // The table is there now, and the source is what it was or the placeholder itself.
  lemma PlaceholderMapped(p: Phys, q: Phys, src: nat, srcv: nat, dst: nat, dstv: nat, perm: nat)
    requires Shape(p) && src in p.dirs && dst in p.dirs && srcv < UVPNS && dstv < UVPNS && perm < 4096 && HasP(perm)
    requires NewPage(p, q, dst, dstv, perm)
    ensures Shape(q) && q.dirs == p.dirs && Pde(q, dst, dstv / 1024) != 0 && Pte(q, dst, dstv) != 0
    ensures PermOf(Pte(q, dst, dstv)) == perm
    ensures (src, srcv) != (dst, dstv) ==> Pte(q, src, srcv) == Pte(p, src, srcv)
  {
    hide RefTo;
    assert p.free[0] < MAXFRAMES && OrP(perm) == perm;
    assert Pte(q, dst, dstv) == MakeEntry(p.free[0], perm);
  }

  /** Counts are exact after the send, for some set of lost frames, if and only if the send
      fails, its source was not mapped, or one insertion of the source's frame would keep
      them exact. */
  ghost predicate SendExact(s: Sys, src: nat, srcv: nat, dst: nat, dstv: nat, perm: Word, stray: Word)
    requires Good(s) && src in s.p.dirs && dst in s.p.dirs && srcv < UVPNS && dstv < UVPNS && Shape(s.p)
  {
    Placed(s, src, srcv, dst, dstv, perm, stray) && Pte(s.p, src, srcv) != 0
    && FrameOf(Pte(s.p, src, srcv)) < |s.p.refs|
    ==> ExactInsert(s.p, dst, FrameOf(Pte(s.p, src, srcv)), dstv, OrUP(perm))
  }

  lemma SendPageExactIff(s: Sys, src: nat, srcv: nat, dst: nat, dstv: nat, perm: Word, stray: Word)
    requires Good(s) && src in s.p.dirs && dst in s.p.dirs && srcv < UVPNS && dstv < UVPNS && Shape(s.p)
    ensures var o := SendPage(s, src, srcv, dst, dstv, perm, stray);
      && (SendExact(s, src, srcv, dst, dstv, perm, stray) ==> Good(o.s))
      && ((exists lost :: Good(Sys(o.s.p, lost))) <==> SendExact(s, src, srcv, dst, dstv, perm, stray))
  {
    hide InvHeld, Unique, Clean, FreeOk, Counted, RefTo;
    hide NewPage, ExactInsert, Refused, EnvPageMap, FrameOf, MakeEntry, HasP;
    var g := OrUP(perm);
    var o := SendPage(s, src, srcv, dst, dstv, perm, stray);
    PageAllocLaw(s, dst, dstv, g);
    if Placed(s, src, srcv, dst, dstv, perm, stray) {
      SendAfterPlaceholder(s, EnvPageAlloc(s, dst, dstv, g).s, src, srcv, dst, dstv, perm, stray);
    } else {
      assert Good(Sys(o.s.p, o.s.lost));
    }
  }

  lemma SendAfterPlaceholder(s: Sys, s1: Sys, src: nat, srcv: nat, dst: nat, dstv: nat, perm: Word, stray: Word)
    requires Good(s) && src in s.p.dirs && dst in s.p.dirs && srcv < UVPNS && dstv < UVPNS && Shape(s.p)
    requires Placed(s, src, srcv, dst, dstv, perm, stray) && Good(s1) && s1 == EnvPageAlloc(s, dst, dstv, OrUP(perm)).s
    requires OrUP(perm) < 4096 && HasP(OrUP(perm)) && NewPage(s.p, s1.p, dst, dstv, OrUP(perm))
    ensures Shape(s1.p) && s1.p.dirs == s.p.dirs
    ensures var o := EnvPageMap(s1, src, srcv, dst, dstv, OrUP(perm));
      && (SendExact(s, src, srcv, dst, dstv, perm, stray) ==> Good(o.s))
      && ((exists lost :: Good(Sys(o.s.p, lost))) <==> SendExact(s, src, srcv, dst, dstv, perm, stray))
  {
    hide InvHeld, Unique, Clean, FreeOk, Counted, RefTo;
    hide NewPage, ExactInsert, Refused, EnvPageMap, FrameOf, MakeEntry, HasP;
    hide OrUP, InsertedLike, EntryWord;
    var g := OrUP(perm);
    SecondStep(s, s1, src, srcv, dst, dstv, perm, stray);
    PageMapLaw(s1, src, srcv, dst, dstv, g);
    var o := EnvPageMap(s1, src, srcv, dst, dstv, g);
    if Pte(s.p, src, srcv) != 0 {
      SendFits(s, s1, src, srcv, dst, dstv, g);
      PageMapExactIff(s1, src, srcv, dst, dstv, g);
    } else {
      if (src, srcv) == (dst, dstv) {
        PlaceholderExact(s, s1, dst, dstv, g);
      }
      assert Good(Sys(o.s.p, o.s.lost));
    }
  }

  lemma PlaceholderExact(s: Sys, s1: Sys, e: nat, v: nat, perm: nat)
    requires Good(s) && Good(s1) && e in s.p.dirs && v < UVPNS
    requires perm < 4096 && HasP(perm) && NewPage(s.p, s1.p, e, v, perm)
    ensures Shape(s1.p) && s1.p.dirs == s.p.dirs && FrameOf(Pte(s1.p, e, v)) < |s1.p.refs|
    ensures ExactInsert(s1.p, e, FrameOf(Pte(s1.p, e, v)), v, perm)
  {
    hide InvHeld, Unique, Clean, FreeOk, RefTo, NewPage, BitOr;
    PlaceholderAlone(s, s1, e, v, perm);
    NamesLow(s.p.free[0], perm);
  }

  lemma PlaceholderInserted(p: Phys, q: Phys, e: nat, v: nat, perm: nat)
    requires Shape(p) && e in p.dirs && v < UVPNS && perm < 4096 && NewPage(p, q, e, v, perm)
    ensures p.free != [] && InsertedLike(p, q, e, p.free[0], v, MakeEntry(p.free[0], OrP(perm)))
  {
  }

  // Every mapped page holds the same in both.
  ghost predicate SameContents(q: Phys, q1: Phys)
    requires Shape(q) && Shape(q1)
  {
    forall e, v :: e in q.dirs && 0 <= v < UVPNS && Pte(q, e, v) != 0 ==>
      FrameOf(Pte(q, e, v)) < |q.mem| == |q1.mem| && q1.mem[FrameOf(Pte(q, e, v))] == q.mem[FrameOf(Pte(q, e, v))]
  }

  // An insertion leaves alone what a mapped page holds.
  lemma PageKept(s: Sys, q: Phys, e: nat, f: nat, v: nat, w: Word, e1: nat, v1: nat)
    requires Good(s) && e in s.p.dirs && v < UVPNS && InsertedLike(s.p, q, e, f, v, w)
    requires e1 in s.p.dirs && v1 < UVPNS && Pte(s.p, e1, v1) != 0
    ensures var g := FrameOf(Pte(s.p, e1, v1));
      g < |s.p.mem| == |q.mem| && q.mem[g] == s.p.mem[g]
    ensures Shape(q) && !(e1 == e && v1 == v) ==> Pte(q, e1, v1) == Pte(s.p, e1, v1)
  {
    hide Unique, Counted, FreeOk, RefTo;
    MappedIsMappable(s.p, s.lost, multiset{}, e1, v1);
  }

  lemma ContentsAlike(s: Sys, s1: Sys, q: Phys, q1: Phys, src: nat, srcv: nat, dst: nat, dstv: nat,
                      a: nat, w1: Word, w: Word)
    requires Good(s) && Good(s1) && src in s.p.dirs && dst in s.p.dirs && srcv < UVPNS && dstv < UVPNS
    requires (src, srcv) != (dst, dstv) && Shape(s.p) && Shape(s1.p) && s1.p.dirs == s.p.dirs
    requires Pte(s.p, src, srcv) != 0 && Pte(s1.p, src, srcv) == Pte(s.p, src, srcv)
    requires InsertedLike(s.p, s1.p, dst, a, dstv, w1) && Shape(q) && Shape(q1)
    requires InsertedLike(s1.p, q, dst, FrameOf(w), dstv, w) && InsertedLike(s.p, q1, dst, FrameOf(w), dstv, w)
    requires FrameOf(w) == FrameOf(Pte(s.p, src, srcv))
    ensures SameContents(q, q1)
  {
    hide Good, InsertedLike, FrameOf;
    InsertParts(s.p, s1.p, dst, a, dstv, w1);
    InsertParts(s1.p, q, dst, FrameOf(w), dstv, w);
    InsertParts(s.p, q1, dst, FrameOf(w), dstv, w);
    forall e, v | e in q.dirs && 0 <= v < UVPNS && Pte(q, e, v) != 0
      ensures FrameOf(Pte(q, e, v)) < |q.mem| == |q1.mem|
      ensures q1.mem[FrameOf(Pte(q, e, v))] == q.mem[FrameOf(Pte(q, e, v))]
    {
      var e1, v1 := if e == dst && v == dstv then src else e, if e == dst && v == dstv then srcv else v;
      PageKept(s, s1.p, dst, a, dstv, w1, e1, v1);
      PageKept(s1, q, dst, FrameOf(w), dstv, w, e1, v1);
      PageKept(s, q1, dst, FrameOf(w), dstv, w, e1, v1);
    }
  }

  lemma InsertParts(p: Phys, q: Phys, e: nat, f: nat, v: nat, w: Word)
    requires Shape(p) && e in p.dirs && v < UVPNS && InsertedLike(p, q, e, f, v, w)
    ensures Shape(q) && q.dirs == p.dirs && |q.mem| == |p.mem|
    ensures forall e1, v1 :: e1 in p.dirs && 0 <= v1 < UVPNS ==>
      Pte(q, e1, v1) == if e1 == e && v1 == v then w else Pte(p, e1, v1)
  {
  }

  ghost predicate SameOutcome(sent: Outcome, inserted: Inserted, lost: set<nat>) {
    && sent.err == 0 && sent.s.lost == lost && inserted.Mapped?
    && Good(sent.s) && Inv(inserted.p, lost)
    && Shape(sent.s.p) && Shape(inserted.p) && SameContents(sent.s.p, inserted.p)
    && exists t, u :: SameUpTo(sent.s.p, inserted.p, t, u)
  }

  /** Sending a page to the place it is mapped at loses it: the receiver ends up with the
      zeroed placeholder. */
  lemma SendPageOntoItself(s: Sys, e: nat, v: nat, perm: Word, stray: Word)
    requires Good(s) && e in s.p.dirs && v < UVPNS
    requires Shape(s.p) && Pte(s.p, e, v) != 0 && SendPage(s, e, v, e, v, perm, stray).err == 0
    ensures var q := SendPage(s, e, v, e, v, perm, stray).s.p;
      && Shape(q) && q.dirs == s.p.dirs && s.p.free != [] && s.p.free[0] != FrameOf(Pte(s.p, e, v))
      && FrameOf(Pte(q, e, v)) == s.p.free[0] && q.mem[s.p.free[0]] == ZeroPage()
  {
    hide Unique, Clean, PageInsert, FreeOk, Counted, RefTo, EntryWord, MakeEntry, OrUP;
    var g := OrUP(perm);
    PageAllocLaw(s, e, v, g);
    var o := EnvPageAlloc(s, e, v, g);
    var a := s.p.free[0];
    assert a in s.p.free;
    hide NewPage, InsertedLike, SameTables;
    PlaceholderAlone(s, o.s, e, v, g);
    LowWord(a, g);
    PageMapLaw(o.s, e, v, e, v, g);
    MappedIsMappable(s.p, s.lost, multiset{}, e, v);
    MappedIsMappable(o.s.p, s.lost, multiset{}, e, v);
    MapOverItself(o.s.p, SendPage(s, e, v, e, v, perm, stray).s.p, e, v, a, MakeEntry(a, OrP(g)));
  }

  lemma PlaceholderAlone(s: Sys, s1: Sys, e: nat, v: nat, perm: nat)
    requires Good(s) && Good(s1) && e in s.p.dirs && v < UVPNS && perm < 4096 && HasP(perm)
    requires NewPage(s.p, s1.p, e, v, perm)
    ensures Shape(s1.p) && s1.p.dirs == s.p.dirs && s.p.free != [] && s.p.free[0] < |s1.p.refs|
    ensures Pte(s1.p, e, v) == MakeEntry(s.p.free[0], OrP(perm)) && s1.p.refs[s.p.free[0]] == 1
    ensures s1.p.mem[s.p.free[0]] == ZeroPage()
  {
    var p, q, a := s.p, s1.p, s.p.free[0];
    assert a in p.free;
    Unreferenced(p, s.lost, multiset{}, a);
    assert RefTo(q, PteRef(e, v), a);
    MappedIsMappable(q, s1.lost, multiset{}, e, v);
    assert Refs(q, a) == {PteRef(e, v)};
  }

  lemma MapOverItself(p: Phys, q: Phys, e: nat, v: nat, a: nat, w: Word)
    requires Shape(p) && e in p.dirs && v < UVPNS && InsertedLike(p, q, e, a, v, w) && Mappable(p, a)
    ensures Shape(q) && q.dirs == p.dirs && Pte(q, e, v) == w && q.mem[a] == p.mem[a]
  {
  }
}
