/** The eager `fork_v0` (sched/lib/fork.c): writable pages are copied at once, the others
    are shared. */
module Eager {
  import opened Paging
  import opened PageCalls
  import opened UserCalls
  import opened Cow

  // What the code of fork_v0 needs: user pages only, and nothing at UTEMP.
  ghost predicate Usual(s: Sys) { Good(s) && Plain(Shown(s), UTEMP) }

  // No page is marked copy-on-write.
  ghost predicate NoCow(m: imap<Place, Seen>) { forall a :: a in m ==> !HasCow(m[a].perm) }

  // Memory-mapped I/O is read-only.
  ghost predicate NoWritableIo(m: imap<Place, Seen>) {
    forall a :: a in m && HasW(m[a].perm) ==> !HasIo(m[a].perm)
  }

  ghost predicate EagerInv(s: Sys) { Fair(s, UTEMP) && NoCow(Shown(s)) && NoWritableIo(Shown(s)) }

  // (PTE_P | PTE_U | PTE_W) & pte & PTE_W, plus the I/O bits of the entry
  function Granted(perm: nat): (r: nat)
    ensures r < 2048 && OrUP(r) < 2048 && !HasCow(OrUP(r)) && (HasW(OrUP(r)) <==> HasW(perm)) && HasU(OrUP(r))
    ensures HasIo(OrUP(r)) <==> HasIo(perm)
  {
    (if HasW(perm) then 2 else 0) + (if HasIo(perm) then PTE_IO else 0)
  }

  lemma AllocKeepsPage(s: Sys, e: nat, v: nat, perm: nat, a: Place)
    requires Good(s) && e in s.p.dirs && v < UVPNS && AllocCall(s, e, v, perm).Some?
    requires a.env in s.p.dirs && a.vpn < UVPNS && HasP(PermAt(s, a.env, a.vpn))
    ensures Good(AllocCall(s, e, v, perm).value) && AllocCall(s, e, v, perm).value.p.dirs == s.p.dirs
    ensures a in Shown(AllocCall(s, e, v, perm).value)
  {
    hide Good, AllocCall, Pte, PermAt, Shown;
    ShownAt(s, a.env, a.vpn);
    AllocEffect(s, e, v, perm);
  }

  ghost function DupOrShare(s: Sys, parent: nat, child: nat, v: nat): Option<Sys>
    requires Good(s) && parent in s.p.dirs && child in s.p.dirs && v < UVPNS
  {
    var perm := PermAt(s, parent, v);
    if !HasP(perm) then Some(s)
    else if !HasW(perm) || HasIo(perm) then MapCall(s, parent, v, child, v, Granted(perm))
    else
      var r := AllocCall(s, child, v, Granted(perm));
      if r.None? then None
      else
        AllocKeepsPage(s, child, v, Granted(perm), Place(parent, v));
        FillThrough(r.value, parent, child, v, Granted(perm))
  }

  // Maps page `v` of the child at UTEMP of the parent, copies the parent's page there, unmaps it.
  ghost function FillThrough(s: Sys, parent: nat, child: nat, v: nat, perm: nat): Option<Sys>
    requires Good(s) && parent in s.p.dirs && child in s.p.dirs && v < UVPNS && perm < 4096
    requires Place(parent, v) in Shown(s)
  {
    var r := MapCall(s, child, v, parent, UTEMP, perm);
    if r.None? then None
    else
      MapEffect(s, child, v, parent, UTEMP, perm);
      ShownAt(r.value, parent, v);
      ShownAt(r.value, parent, UTEMP);
      FillEffect(r.value, parent, UTEMP, Data(r.value, parent, v));
      Some(UnmapCall(Fill(r.value, parent, UTEMP, Data(r.value, parent, v)), parent, UTEMP))
  }

  // `y` is what dup_or_share makes of `x`: the same frame when `x` is read-only or memory-mapped
  // I/O, a frame of its own otherwise.
  ghost predicate Handed(m: imap<Place, Seen>, x: Seen, y: Seen) {
    && y.page == x.page && (HasW(y.perm) <==> HasW(x.perm)) && (HasIo(y.perm) <==> HasIo(x.perm))
    && HasU(y.perm) && !HasCow(y.perm)
    && (if HasW(x.perm) && !HasIo(x.perm) then Fresh(m, y.frame) else y.frame == x.frame)
  }

  // Place `b` gets what `a` hands over; nothing else changes.
  ghost predicate SharedOrCopied(m: imap<Place, Seen>, n: imap<Place, Seen>, a: Place, b: Place) {
    a in m && b in n && n == m[b := n[b]] && Handed(m, m[a], n[b])
  }

  lemma DupOrShareEffect(s: Sys, parent: nat, child: nat, v: nat)
    requires Usual(s) && parent in s.p.dirs && child in s.p.dirs && parent != child && v < UVPNS
    requires v != UTEMP && Place(parent, v) in Shown(s) && DupOrShare(s, parent, child, v).Some?
    ensures var t := DupOrShare(s, parent, child, v).value;
      && Usual(t) && t.p.dirs == s.p.dirs
      && SharedOrCopied(Shown(s), Shown(t), Place(parent, v), Place(child, v))
  {
    hide Good, PermAt, Shown, DupOrShare, Fresh;
    ShownAt(s, parent, v);
    ShownIsCoherent(s);
    if HasW(PermAt(s, parent, v)) && !HasIo(PermAt(s, parent, v)) {
      CopyEffect(s, parent, child, v);
    } else {
      ShareEffect(s, parent, child, v);
    }
  }

  lemma ShareEffect(s: Sys, parent: nat, child: nat, v: nat)
    requires Good(s) && parent in s.p.dirs && child in s.p.dirs && v < UVPNS && v != UTEMP
    requires HasP(PermAt(s, parent, v)) && (!HasW(PermAt(s, parent, v)) || HasIo(PermAt(s, parent, v)))
    requires DupOrShare(s, parent, child, v).Some?
    ensures var t := DupOrShare(s, parent, child, v).value;
      && Good(t) && t.p.dirs == s.p.dirs
      && SharedOrCopied(Shown(s), Shown(t), Place(parent, v), Place(child, v))
  {
    hide Good, MapCall, PermAt, Pte, Data, Granted, Shown, Page?, OrUP, Fresh;
    ShownAt(s, parent, v);
    MapEffect(s, parent, v, child, v, Granted(PermAt(s, parent, v)));
  }

  lemma CopyEffect(s: Sys, parent: nat, child: nat, v: nat)
    requires Usual(s) && parent in s.p.dirs && child in s.p.dirs && parent != child && v < UVPNS && v != UTEMP
    requires Place(parent, v) in Shown(s) && HasP(PermAt(s, parent, v))
    requires HasW(PermAt(s, parent, v)) && !HasIo(PermAt(s, parent, v)) && DupOrShare(s, parent, child, v).Some?
    ensures var t := DupOrShare(s, parent, child, v).value;
      && Good(t) && t.p.dirs == s.p.dirs
      && SharedOrCopied(Shown(s), Shown(t), Place(parent, v), Place(child, v))
  {
    hide Good, AllocCall, MapCall, PermAt, Pte, Data, Granted, Shown, Page?, FillThrough, OrUP;
    ShownAt(s, parent, v);
    var g := Granted(PermAt(s, parent, v));
    AllocEffect(s, child, v, g);
    FillThroughEffect(AllocCall(s, child, v, g).value, parent, child, v, g);
  }

  lemma FillThroughEffect(s: Sys, parent: nat, child: nat, v: nat, perm: nat)
    requires Good(s) && parent in s.p.dirs && child in s.p.dirs
    requires parent != child && v < UVPNS && v != UTEMP && perm < 4096
    requires Place(parent, v) in Shown(s) && Place(child, v) in Shown(s) && Place(parent, UTEMP) !in Shown(s)
    requires forall a :: a in Shown(s) && Shown(s)[a].frame == Shown(s)[Place(child, v)].frame ==> a == Place(child, v)
    requires FillThrough(s, parent, child, v, perm).Some?
    ensures var t, b := FillThrough(s, parent, child, v, perm).value, Place(child, v);
      && Good(t) && t.p.dirs == s.p.dirs
      && Shown(t) == Shown(s)[b := Shown(s)[b].(page := Shown(s)[Place(parent, v)].page)]
  {
    hide Good, MapCall, PermAt, Pte, Data, Shown, Page?, Fill, UnmapCall, Stored, OrUP;
    MapEffect(s, child, v, parent, UTEMP, perm);
    var s2 := MapCall(s, child, v, parent, UTEMP, perm).value;
    ShownAt(s2, parent, v);
    ShownAt(s2, parent, UTEMP);
    FillEffect(s2, parent, UTEMP, Data(s2, parent, v));
    var s3 := Fill(s2, parent, UTEMP, Data(s2, parent, v));
    UnmapEffect(s3, parent, UTEMP);
    CopyThrough(Shown(s), Place(parent, v), Place(child, v), Place(parent, UTEMP), OrUP(perm) % 4096);
  }

  // Where memory-mapped I/O is read-only, nothing writable is shared.
  lemma HandedKeeps(m: imap<Place, Seen>, n: imap<Place, Seen>, a: Place, b: Place)
    requires SharedOrCopied(m, n, a, b)
    ensures NoCow(m) ==> NoCow(n)
    ensures NoWritableIo(m) ==> NoWritableIo(n)
    ensures Alone(m) && NoWritableIo(m) ==> Alone(n)
  {
    if Alone(m) && HasW(m[a].perm) && !HasIo(m[a].perm) {
      AloneFresh(m, b, n[b]);
    }
  }

  // The page at `b`, alone on its frame, also mapped at `tmp` and filled there, then unmapped from `tmp`.
  lemma CopyThrough(m: imap<Place, Seen>, a: Place, b: Place, tmp: Place, perm: nat)
    requires a in m && b in m && tmp !in m && a != b
    requires forall x :: x in m && m[x].frame == m[b].frame ==> x == b
    ensures var m2 := m[tmp := m[b].(perm := perm)];
      && m2[a].page == m[a].page
      && Stored(m2, m[b].frame, m[a].page) - {tmp} == m[b := m[b].(page := m[a].page)]
  {
  }

  // No table for the page, or no page in it.
  ghost predicate Skipped(s: Sys, e: nat, v: nat)
    requires Good(s) && e in s.p.dirs && v < UVPNS
  {
    || !HasP(PermOf(Pde(s.p, e, v / 1024))) || !HasU(PermOf(Pde(s.p, e, v / 1024)))
    || !HasP(PermAt(s, e, v))
  }

  lemma SkippedIsEmpty(s: Sys, e: nat, v: nat)
    requires Usual(s) && e in s.p.dirs && v < UVPNS
    ensures Skipped(s, e, v) <==> Place(e, v) !in Shown(s)
    ensures v == UTEMP ==> Skipped(s, e, v)
  {
    hide Unique, FreeOk, Counted, Shown, Data;
    PresentIsPage(s, e, v, UTEMP);
    ShownAt(s, e, v);
  }

  lemma DupOrShareKeeps(s: Sys, parent: nat, child: nat, v: nat)
    requires Good(s) && parent in s.p.dirs && child in s.p.dirs && v < UVPNS && DupOrShare(s, parent, child, v).Some?
    ensures Good(DupOrShare(s, parent, child, v).value) && DupOrShare(s, parent, child, v).value.p.dirs == s.p.dirs
  {
    hide Good, AllocCall, MapCall, PermAt, Pte, Granted, Shown, FillThrough;
    var perm := PermAt(s, parent, v);
    var g := Granted(perm);
    if HasP(perm) {
      if !HasW(perm) || HasIo(perm) {
        MapEffect(s, parent, v, child, v, g);
      } else {
        AllocEffect(s, child, v, g);
        AllocKeepsPage(s, child, v, g, Place(parent, v));
        FillThroughKeeps(AllocCall(s, child, v, g).value, parent, child, v, g);
      }
    }
  }

  lemma FillThroughKeeps(s: Sys, parent: nat, child: nat, v: nat, perm: nat)
    requires Good(s) && parent in s.p.dirs && child in s.p.dirs && v < UVPNS && perm < 4096
    requires Place(parent, v) in Shown(s) && FillThrough(s, parent, child, v, perm).Some?
    ensures var t := FillThrough(s, parent, child, v, perm).value; Good(t) && t.p.dirs == s.p.dirs
  {
    hide Good, MapCall, PermAt, Pte, Data, Shown, Page?, Fill, UnmapCall;
    MapEffect(s, child, v, parent, UTEMP, perm);
    var s2 := MapCall(s, child, v, parent, UTEMP, perm).value;
    ShownAt(s2, parent, v);
    ShownAt(s2, parent, UTEMP);
    FillEffect(s2, parent, UTEMP, Data(s2, parent, v));
    UnmapEffect(Fill(s2, parent, UTEMP, Data(s2, parent, v)), parent, UTEMP);
  }

  // dup_or_share on every page from page number `n` up whose table is present.
  ghost function ShareAll(s: Sys, parent: nat, child: nat, n: nat): (r: Option<Sys>)
    requires Good(s) && parent in s.p.dirs && child in s.p.dirs && n <= UVPNS
    ensures r.Some? ==> Good(r.value) && r.value.p.dirs == s.p.dirs
    decreases UVPNS - n
  {
    if n == UVPNS then Some(s)
    else if Skipped(s, parent, n) then ShareAll(s, parent, child, n + 1)
    else
      var r := DupOrShare(s, parent, child, n);
      if r.None? then None
      else
        DupOrShareKeeps(s, parent, child, n);
        ShareAll(r.value, parent, child, n + 1)
  }

  lemma {:induction false} ShareAllLaw(s: Sys, parent: nat, child: nat, n: nat)
    requires Usual(s) && NoCow(Shown(s)) && parent in s.p.dirs && child in s.p.dirs && parent != child && n <= UVPNS
    requires ShareAll(s, parent, child, n).Some?
    requires forall a :: a in Shown(s) && a.env == child ==> a.vpn < n
    ensures Usual(ShareAll(s, parent, child, n).value) && NoCow(Shown(ShareAll(s, parent, child, n).value))
    ensures EagerInv(s) ==> EagerInv(ShareAll(s, parent, child, n).value)
    ensures View(Shown(ShareAll(s, parent, child, n).value)) == Copy(View(Shown(s)), parent, child, n)
    decreases UVPNS - n
  {
    hide Good, Alone, Plain, NoCow, NoWritableIo, DupOrShare, Shown, SharedOrCopied, Copy, View, Skipped;
    ViewPlaces(s);
    if n == UVPNS {
      CopyNothing(View(Shown(s)), parent, child);
    } else {
      CopyStep(View(Shown(s)), parent, child, n);
      SkippedIsEmpty(s, parent, n);
      if Skipped(s, parent, n) {
        ShareAllLaw(s, parent, child, n + 1);
      } else {
        DupOrShareEffect(s, parent, child, n);
        var s1 := DupOrShare(s, parent, child, n).value;
        HandedKeeps(Shown(s), Shown(s1), Place(parent, n), Place(child, n));
        ViewCopied(Shown(s), Shown(s1), parent, child, n);
        ShareAllLaw(s1, parent, child, n + 1);
      }
    }
  }

  lemma ViewCopied(m: imap<Place, Seen>, n: imap<Place, Seen>, parent: nat, child: nat, v: nat)
    requires SharedOrCopied(m, n, Place(parent, v), Place(child, v)) && parent != child && NoCow(m)
    ensures v != XSTK ==> View(n) == View(m)[Place(child, v) := View(m)[Place(parent, v)]]
    ensures v == XSTK ==> View(n) == View(m)
    ensures forall a :: a in n ==> a in m || a == Place(child, v)
  {
  }

  ghost function ForkV0(s: Sys, parent: nat, child: nat): (r: Option<Sys>)
    requires Good(s) && parent in s.p.dirs
  {
    var r := NewEnv(s, child);
    if r.None? then None else NewEnvEffect(s, child); ShareAll(r.value, parent, child, 0)
  }

  // fork_v0 leaves two address spaces that look like independent copies.
  lemma ForkV0Law(s: Sys, parent: nat, child: nat)
    requires Usual(s) && NoCow(Shown(s)) && parent in s.p.dirs && ForkV0(s, parent, child).Some?
    ensures var t := ForkV0(s, parent, child).value;
      && Usual(t) && NoCow(Shown(t)) && (EagerInv(s) ==> EagerInv(t))
      && t.p.dirs.Keys == s.p.dirs.Keys + {child} && child !in s.p.dirs
      && View(Shown(t)) == Copy(View(Shown(s)), parent, child, 0)
  {
    hide Good, Alone, Plain, NoCow, NoWritableIo, NewEnv, ShareAll, Shown, Copy;
    NewEnvEffect(s, child);
    ShownIsCoherent(s);
    ShareAllLaw(NewEnv(s, child).value, parent, child, 0);
  }

  // ---------------------------------------------------------------- writable memory-mapped I/O

  // From page number `from` up the child has what the parent hands over; the rest is as it was.
  ghost predicate HandedFrom(m: imap<Place, Seen>, n: imap<Place, Seen>, parent: nat, child: nat, from: nat) {
    && (forall x: Place :: x.env != child || x.vpn < from ==> (x in n <==> x in m) && (x in m ==> n[x] == m[x]))
    && (forall v: nat :: v >= from ==> (Place(child, v) in n <==> Place(parent, v) in m))
    && (forall v: nat :: v >= from && Place(parent, v) in m ==> Handed(m, m[Place(parent, v)], n[Place(child, v)]))
  }

  lemma HandedStep(m: imap<Place, Seen>, m1: imap<Place, Seen>, n: imap<Place, Seen>, parent: nat, child: nat, v: nat)
    requires parent != child && HandedFrom(m1, n, parent, child, v + 1) && Place(child, v) !in m
    ensures m1 == m && Place(parent, v) !in m ==> HandedFrom(m, n, parent, child, v)
    ensures SharedOrCopied(m, m1, Place(parent, v), Place(child, v)) ==> HandedFrom(m, n, parent, child, v)
  {
  }

  lemma HandedNothing(m: imap<Place, Seen>, parent: nat, child: nat)
    requires forall a :: a in m ==> a.vpn < UVPNS
    ensures HandedFrom(m, m, parent, child, UVPNS)
  {
  }

  lemma {:induction false} ShareAllHands(s: Sys, parent: nat, child: nat, n: nat)
    requires Usual(s) && parent in s.p.dirs && child in s.p.dirs && parent != child && n <= UVPNS
    requires ShareAll(s, parent, child, n).Some?
    requires forall a :: a in Shown(s) && a.env == child ==> a.vpn < n
    ensures Usual(ShareAll(s, parent, child, n).value)
    ensures HandedFrom(Shown(s), Shown(ShareAll(s, parent, child, n).value), parent, child, n)
    decreases UVPNS - n
  {
    hide Good, Plain, DupOrShare, Shown, Skipped, HandedFrom, Handed;
    ShownIsCoherent(s);
    if n == UVPNS {
      HandedNothing(Shown(s), parent, child);
    } else {
      var t := ShareAll(s, parent, child, n).value;
      SkippedIsEmpty(s, parent, n);
      if Skipped(s, parent, n) {
        ShareAllHands(s, parent, child, n + 1);
        HandedStep(Shown(s), Shown(s), Shown(t), parent, child, n);
      } else {
        DupOrShareEffect(s, parent, child, n);
        var s1 := DupOrShare(s, parent, child, n).value;
        ShareAllHands(s1, parent, child, n + 1);
        HandedStep(Shown(s), Shown(s1), Shown(t), parent, child, n);
      }
    }
  }

  lemma ForkV0Hands(s: Sys, parent: nat, child: nat)
    requires Usual(s) && parent in s.p.dirs && ForkV0(s, parent, child).Some?
    ensures Usual(ForkV0(s, parent, child).value) && child !in s.p.dirs
    ensures forall a :: a in Shown(s) ==> a.env != child
    ensures HandedFrom(Shown(s), Shown(ForkV0(s, parent, child).value), parent, child, 0)
  {
    hide Good, Plain, NewEnv, ShareAll, Shown, HandedFrom;
    NewEnvEffect(s, child);
    ShownIsCoherent(s);
    ShareAllHands(NewEnv(s, child).value, parent, child, 0);
  }

  // A writable page of the parent that is memory-mapped I/O.
  ghost predicate WritesIo(m: imap<Place, Seen>, parent: nat, v: nat) {
    Place(parent, v) in m && HasW(m[Place(parent, v)].perm) && HasIo(m[Place(parent, v)].perm)
  }

  /** A successful fork_v0 leaves parent and child independent, neither seeing the other's
      stores, if and only if the parent has no writable memory-mapped I/O page. */
  lemma ForkV0IndependentIff(s: Sys, parent: nat, child: nat)
    requires Fair(s, UTEMP) && parent in s.p.dirs && ForkV0(s, parent, child).Some?
    ensures Good(ForkV0(s, parent, child).value)
    ensures Independent(Shown(ForkV0(s, parent, child).value), parent, child)
      <==> forall v: nat :: !WritesIo(Shown(s), parent, v)
  {
    hide Good, Plain, ForkV0, Shown, HandedFrom, Alone, Blind, WritesIo;
    ForkV0Hands(s, parent, child);
    var n := Shown(ForkV0(s, parent, child).value);
    if v: nat :| WritesIo(Shown(s), parent, v) {
      SharedIo(Shown(s), n, parent, child, v);
    } else {
      NothingShared(Shown(s), n, parent, child);
    }
  }

  lemma SharedIo(m: imap<Place, Seen>, n: imap<Place, Seen>, parent: nat, child: nat, v: nat)
    requires parent != child && HandedFrom(m, n, parent, child, 0) && WritesIo(m, parent, v)
    ensures !Blind(n, parent, child)
  {
    var a, b := Place(parent, v), Place(child, v);
    var page := n[b].page[0 := 1 - n[b].page[0] % 2];
    assert page[0] != n[b].page[0];
    assert Stored(n, n[a].frame, page)[b].page == page;
  }

  lemma NothingShared(m: imap<Place, Seen>, n: imap<Place, Seen>, parent: nat, child: nat)
    requires parent != child && HandedFrom(m, n, parent, child, 0) && Alone(m)
    requires forall v: nat :: !WritesIo(m, parent, v)
    ensures Independent(n, parent, child)
  {
    forall a, b | a in n && b in n && a.env == parent && b.env == child
      ensures HasW(n[a].perm) || HasW(n[b].perm) ==> n[a].frame != n[b].frame
    {
      var c := Place(parent, b.vpn);
      assert b == Place(child, b.vpn) && Handed(m, m[c], n[b]) && !WritesIo(m, parent, b.vpn);
    }
  }

  /** Where the parent has such a page, what it stores there appears in the child. */
  lemma ParentStoreAppears(s: Sys, parent: nat, child: nat, v: nat, page: Page)
    requires Usual(s) && parent in s.p.dirs && ForkV0(s, parent, child).Some? && WritesIo(Shown(s), parent, v)
    ensures var t := ForkV0(s, parent, child).value;
      && Usual(t) && Page?(t, parent, v) && Page?(t, child, v) && HasW(PermAt(t, parent, v))
      && var u := Fill(t, parent, v, page);
        Good(u) && Page?(u, child, v) && Data(u, child, v) == page
  {
    hide Good, Plain, ForkV0, Shown, Fill, Pte, Data, Page?, PermAt;
    ForkV0Hands(s, parent, child);
    var t := ForkV0(s, parent, child).value;
    ShownIsCoherent(s);
    ShownIsCoherent(t);
    assert Handed(Shown(s), Shown(s)[Place(parent, v)], Shown(t)[Place(child, v)]);
    ShownAt(t, parent, v);
    ShownAt(t, child, v);
    FillEffect(t, parent, v, page);
    ShownAt(Fill(t, parent, v, page), child, v);
  }
}
