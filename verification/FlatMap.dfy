/** The two-level tables refine a flat map from page numbers to (frame, permissions):
    page_insert, page_remove and page_lookup are update, delete and get. */
module FlatMap {
  import opened Paging
  import opened PagingLaws
  import opened PageOps
  import RefCounts
  import PageCalls

  // Environment `e` has address space `m`; every other one is as in `p`.
  ghost predicate OnlyFlat(p: Phys, q: Phys, e: nat, m: map<nat, Word>)
    requires Shape(p) && Shape(q)
  {
    && q.dirs == p.dirs && e in p.dirs && Flat(q, e) == m
    && forall e1 :: e1 in p.dirs && e1 != e ==> Flat(q, e1) == Flat(p, e1)
  }

  lemma FlatAt(p: Phys, e: nat, v: nat)
    requires Shape(p) && e in p.dirs && v < UVPNS
    ensures Pte(p, e, v) == if v in Flat(p, e) then Flat(p, e)[v] else 0
  {
    hide Pte;
  }

  lemma OneMappingIsFlat(p: Phys, q: Phys, e: nat, v: nat, w: Word)
    requires Shape(p) && e in p.dirs && v < UVPNS && OneMapping(p, q, e, v, w)
    ensures Shape(q) && OnlyFlat(p, q, e, if w == 0 then Flat(p, e) - {v} else Flat(p, e)[v := w])
  {
    hide Pte;
  }

  /** page_insert is an update of one address space at one key, with whatever word it stores;
      when it fails it changes nothing at all, and it fails exactly when a table is missing
      and no frame is free. */
  lemma InsertIsUpdate(p: Phys, flight: set<nat>, e: nat, f: nat, v: nat, perm: Word)
    requires Inv(p, flight) && e in p.dirs && v < UVPNS && Shape(p)
    requires Mappable(p, f) && FrameOf(Pte(p, e, v)) < |p.refs|
    ensures match PageInsert(p, e, f, v, perm)
      case NoMem => p.free == [] && Pde(p, e, v / 1024) == 0
      case Mapped(q) =>
        && !(p.free == [] && Pde(p, e, v / 1024) == 0)
        && Shape(q) && OnlyFlat(p, q, e, Flat(p, e)[v := EntryWord(f, perm)])
        && (RefCounts.ExactInsert(p, e, f, v, perm) ==> Inv(q, flight - {f}))
  {
    hide InvHeld, OneMapping, OnlyFlat, Flat, Pte, RefTo, PageInsert, EntryWord, RefCounts.ExactInsert;
    RefCounts.InsertLaw(p, flight, multiset{}, e, f, v, perm);
    PageCalls.NoMemIff(p, e, f, v, perm);
    if PageInsert(p, e, f, v, perm).Mapped? {
      OneMappingIsFlat(p, PageInsert(p, e, f, v, perm).p, e, v, EntryWord(f, perm));
    }
  }

  // page_remove deletes one key of one address space; where nothing is mapped it changes nothing.
  lemma RemoveIsDelete(p: Phys, flight: set<nat>, e: nat, v: nat)
    requires Inv(p, flight) && e in p.dirs && v < UVPNS && Shape(p) && FrameOf(Pte(p, e, v)) < |p.refs|
    ensures var q := PageRemove(p, e, v);
      && Inv(q, flight) && Shape(q) && OnlyFlat(p, q, e, Flat(p, e) - {v})
      && (v !in Flat(p, e) ==> q == p)
  {
    FlatAt(p, e, v);
    hide InvHeld, OneMapping, OnlyFlat, Flat, RefTo;
    RemoveLaw(p, flight, multiset{}, e, v);
    OneMappingIsFlat(p, PageRemove(p, e, v), e, v, 0);
  }

  // Inserting the frame already there changes its permissions; no count and no list moves.
  lemma ReinsertIsPermChange(p: Phys, flight: set<nat>, e: nat, v: nat, perm: Word)
    requires Inv(p, flight) && e in p.dirs && v < UVPNS && Shape(p) && v in Flat(p, e)
    ensures FrameOf(Flat(p, e)[v]) < |p.refs| && FrameOf(Pte(p, e, v)) < |p.refs|
    ensures var f := FrameOf(Flat(p, e)[v]);
      match PageInsert(p, e, f, v, perm)
      case NoMem => false
      case Mapped(q) =>
        && q.refs == p.refs && q.free == p.free && Shape(q)
        && OnlyFlat(p, q, e, Flat(p, e)[v := EntryWord(f, perm)])
  {
    FlatAt(p, e, v);
    InvParts(p, flight, multiset{});
    PresentRefs(p, flight, e, v);
    var f := FrameOf(Flat(p, e)[v]);
    var w := EntryWord(f, perm);
    hide InvHeld, OnlyFlat, Unique, Flat, EntryWord;
    RefCounts.ReinsertIsSetPte(p, e, v, perm);
    assert RefTo(p, PdeRef(e, v / 1024), FrameOf(Pde(p, e, v / 1024)));
    SetPteEffect(p, e, v, w);
    OneMappingIsFlat(p, SetPte(p, e, v, w), e, v, w);
  }

  lemma PresentRefs(p: Phys, flight: set<nat>, e: nat, v: nat)
    requires Inv(p, flight) && e in p.dirs && v < UVPNS && Pte(p, e, v) != 0
    ensures FrameOf(Pte(p, e, v)) < |p.refs| && 0 < p.refs[FrameOf(Pte(p, e, v))] < 0x1_0000
    ensures Pde(p, e, v / 1024) != 0
  {
    hide Unique, FreeOk;
    assert PteRef(e, v) in Refs(p, FrameOf(Pte(p, e, v)));
  }
}
