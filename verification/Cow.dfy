/** Copy-on-write `fork` (sched/lib/fork.c): the page-fault handler, `duppage` and the loop
    over the address space, and what they leave for every environment to read. */
module Cow {
  import opened Paging
  import opened PageCalls
  import opened UserCalls

  const PFTEMP: nat := 2047        // page number of UTEMP + PTSIZE - PGSIZE
  const UTEMP: nat := 1024         // page number of PTSIZE
  const XSTK: nat := UVPNS - 1     // the page below UXSTACKTOP
  const PTE_PU: nat := 5           // PTE_P | PTE_U
  const PTE_PUW: nat := 7          // PTE_P | PTE_U | PTE_W
  const PTE_COW: nat := 0x800
  const PTE_IO: nat := 0x18        // PTE_PCD | PTE_PWT

  // ---------------------------------------------------------------- what programs see

  predicate Writable(perm: nat) { HasW(perm) || HasCow(perm) }

  // The contents of a page, and whether the program may write it.
  datatype Sight = Sight(page: Page, writable: bool)

  // What every environment sees, its exception stack apart.
  ghost function View(m: imap<Place, Seen>): imap<Place, Sight> {
    imap a | a in m && a.vpn != XSTK :: Sight(m[a].page, Writable(m[a].perm))
  }

  // A frame mapped twice is writable nowhere.
  ghost predicate Alone(m: imap<Place, Seen>) {
    forall a, b :: a in m && b in m && m[a].frame == m[b].frame && HasW(m[a].perm) ==> a == b
  }

  // Only user pages, and nothing at page number `tmp`.
  ghost predicate Plain(m: imap<Place, Seen>, tmp: nat) {
    forall a :: a in m ==> a.vpn != tmp && HasU(m[a].perm)
  }

  ghost predicate Fair(s: Sys, tmp: nat) {
    Good(s) && Alone(Shown(s)) && Plain(Shown(s), tmp)
  }

  ghost predicate CowInv(s: Sys) { Fair(s, PFTEMP) }

  // ---------------------------------------------------------------- pgfault

  const FEC_WR: bv32 := 2          // the fault was a write
  const WRITE_FAULT: bv32 := 7     // FEC_PR | FEC_WR | FEC_U

  // `!x` of C
  function Not(x: bv32): bv32 { if x == 0 then 1 else 0 }

  predicate IsWrite(err: bv32) { err & FEC_WR != 0 }

  // (err & FEC_WR) & !(fault_pte & PTE_COW), as the handler writes it
  predicate GuardFires(err: bv32, perm: nat) {
    (err & FEC_WR) & Not(if HasCow(perm) then 0x800 else 0) != 0
  }

  // A private copy of page `v`: a fresh page at PFTEMP, filled, moved to `v`.
  ghost function PrivateCopy(s: Sys, e: nat, v: nat): Option<Sys>
    requires Good(s) && Page?(s, e, v) && v != PFTEMP
  {
    var r := AllocCall(s, e, PFTEMP, PTE_PUW);
    if r.None? then None
    else
      AllocEffect(s, e, PFTEMP, PTE_PUW);
      assert Place(e, v) in Shown(r.value);
      FillEffect(r.value, e, PFTEMP, Data(r.value, e, v));
      var s2 := Fill(r.value, e, PFTEMP, Data(r.value, e, v));
      var r3 := MapCall(s2, e, PFTEMP, e, v, PTE_PUW);
      if r3.None? then None
      else MapEffect(s2, e, PFTEMP, e, v, PTE_PUW); Some(UnmapCall(r3.value, e, PFTEMP))
  }

  // None where the handler panics.
  ghost function PgFault(s: Sys, e: nat, v: nat, err: bv32): Option<Sys>
    requires Good(s) && Page?(s, e, v) && v != PFTEMP
  {
    if GuardFires(err, PermAt(s, e, v)) then None else PrivateCopy(s, e, v)
  }

  // What the panic message says: no write to a page that is not copy-on-write.
  ghost function IntendedPgFault(s: Sys, e: nat, v: nat, err: bv32): Option<Sys>
    requires Good(s) && Page?(s, e, v) && v != PFTEMP
  {
    if IsWrite(err) && !HasCow(PermAt(s, e, v)) then None else PrivateCopy(s, e, v)
  }

  // What the comment asks for: a write, to a copy-on-write page.
  ghost function DocumentedPgFault(s: Sys, e: nat, v: nat, err: bv32): Option<Sys>
    requires Good(s) && Page?(s, e, v) && v != PFTEMP
  {
    if IsWrite(err) && HasCow(PermAt(s, e, v)) then PrivateCopy(s, e, v) else None
  }

  lemma GuardNeverFires(err: bv32, perm: nat)
    ensures !GuardFires(err, perm)
  {
    assert (err & FEC_WR) & 1 == 0;
  }

  /** The handler meets the two descriptions exactly where their guards would let the fault
      through, or where a system call fails. */
  lemma GuardHoldsIff(s: Sys, e: nat, v: nat, err: bv32)
    requires Good(s) && Page?(s, e, v) && v != PFTEMP
    ensures PgFault(s, e, v, err) == PrivateCopy(s, e, v)
    ensures PrivateCopy(s, e, v).Some? ==>
      (PgFault(s, e, v, err) == IntendedPgFault(s, e, v, err) <==> !IsWrite(err) || HasCow(PermAt(s, e, v)))
    ensures PrivateCopy(s, e, v).Some? ==>
      (PgFault(s, e, v, err) == DocumentedPgFault(s, e, v, err) <==> IsWrite(err) && HasCow(PermAt(s, e, v)))
  {
    hide Good, PrivateCopy, PermAt, GuardFires;
    GuardNeverFires(err, PermAt(s, e, v));
  }

  // The page shows the same contents from a frame of its own, now writable.
  lemma PgFaultEffect(s: Sys, e: nat, v: nat, err: bv32)
    requires Good(s) && Page?(s, e, v) && v != PFTEMP && Place(e, PFTEMP) !in Shown(s)
    requires PgFault(s, e, v, err).Some?
    ensures var t, a := PgFault(s, e, v, err).value, Place(e, v);
      && Good(t) && t.p.dirs == s.p.dirs && a in Shown(s) && a in Shown(t)
      && Shown(t) == Shown(s)[a := Seen(Shown(t)[a].frame, PTE_PUW, Shown(s)[a].page)]
      && Fresh(Shown(s), Shown(t)[a].frame)
  {
    hide Good, AllocCall, MapCall, UnmapCall, Fill, Pte, Data, Shown, Stored, GuardFires;
    ShownAt(s, e, v);
    AllocEffect(s, e, PFTEMP, PTE_PUW);
    var s1 := AllocCall(s, e, PFTEMP, PTE_PUW).value;
    ShownAt(s1, e, v);
    ShownAt(s1, e, PFTEMP);
    var page := Data(s1, e, v);
    FillEffect(s1, e, PFTEMP, page);
    var s2 := Fill(s1, e, PFTEMP, page);
    MapEffect(s2, e, PFTEMP, e, v, PTE_PUW);
    UnmapEffect(MapCall(s2, e, PFTEMP, e, v, PTE_PUW).value, e, PFTEMP);
    MoveThrough(Shown(s), Place(e, v), Place(e, PFTEMP), Shown(s1)[Place(e, PFTEMP)]);
  }

  // A fresh page `x` at `tmp`, filled there, mapped at `a` too and unmapped from `tmp`.
  lemma MoveThrough(m: imap<Place, Seen>, a: Place, tmp: Place, x: Seen)
    requires a in m && tmp !in m && Fresh(m, x.frame)
    ensures m[tmp := x][a].page == m[a].page
    ensures var y := x.(page := m[a].page);
      && Stored(m[tmp := x], x.frame, m[a].page) == m[tmp := y]
      && m[tmp := y][a := y] - {tmp} == m[a := y]
  {
  }

  // A store to a page the program may write, through the handler when the page is read-only.
  ghost function Write(s: Sys, e: nat, v: nat, off: nat, w: Word): Option<Sys>
    requires Good(s) && Page?(s, e, v) && v != PFTEMP && Place(e, PFTEMP) !in Shown(s) && off < 1024
  {
    if HasW(PermAt(s, e, v)) then Some(Fill(s, e, v, Data(s, e, v)[off := w]))
    else
      var r := PgFault(s, e, v, WRITE_FAULT);
      if r.None? then None
      else PgFaultEffect(s, e, v, WRITE_FAULT); Some(Fill(r.value, e, v, Data(r.value, e, v)[off := w]))
  }

  // Place `a` gets contents `page`, writable, and nothing else changes.
  ghost predicate Wrote(m: imap<Place, Seen>, n: imap<Place, Seen>, a: Place, page: Page) {
    a in m && a in n && n == m[a := n[a]] && n[a].page == page && HasW(n[a].perm)
    && HasU(n[a].perm)
  }

  lemma WriteEffect(s: Sys, e: nat, v: nat, off: nat, w: Word)
    requires CowInv(s) && Page?(s, e, v) && v != PFTEMP && Place(e, PFTEMP) !in Shown(s) && off < 1024
    requires Write(s, e, v, off, w).Some?
    ensures var t := Write(s, e, v, off, w).value;
      && CowInv(t) && t.p.dirs == s.p.dirs
      && Wrote(Shown(s), Shown(t), Place(e, v), Data(s, e, v)[off := w])
  {
    hide Good, PgFault, Fill, Fresh, Pte, Data, Stored, Shown;
    var a, page := Place(e, v), Data(s, e, v)[off := w];
    ShownAt(s, e, v);
    if HasW(PermAt(s, e, v)) {
      FillEffect(s, e, v, page);
      AloneStored(Shown(s), a, page);
    } else {
      PgFaultEffect(s, e, v, WRITE_FAULT);
      var s1 := PgFault(s, e, v, WRITE_FAULT).value;
      ShownAt(s1, e, v);
      FillEffect(s1, e, v, page);
      AloneFresh(Shown(s), a, Shown(s1)[a]);
      AloneStored(Shown(s1), a, page);
    }
  }

  lemma AloneStored(m: imap<Place, Seen>, a: Place, page: Page)
    requires Alone(m) && a in m && HasW(m[a].perm)
    ensures Stored(m, m[a].frame, page) == m[a := m[a].(page := page)] && Alone(Stored(m, m[a].frame, page))
  {
  }

  lemma AloneFresh(m: imap<Place, Seen>, a: Place, x: Seen)
    requires Alone(m) && Fresh(m, x.frame)
    ensures Alone(m[a := x])
  {
  }

  // ---------------------------------------------------------------- duppage

  // What duppage keeps of the permissions: PTE_P, PTE_U and the I/O bits.
  function Kept(perm: nat): (r: nat)
    ensures r < 2048 && !Writable(r) && HasU(r) && HasP(r) && (HasIo(r) <==> HasIo(perm))
    ensures OrUP(r) % 4096 == r && OrUP(r + PTE_COW) % 4096 == r + PTE_COW
    ensures !HasW(r + PTE_COW) && HasCow(r + PTE_COW) && HasU(r + PTE_COW) && (HasIo(r + PTE_COW) <==> HasIo(perm))
  {
    if HasIo(perm) then PTE_PU + PTE_IO else PTE_PU
  }

  // None where duppage panics.
  ghost function DupPage(s: Sys, parent: nat, child: nat, v: nat): Option<Sys>
    requires Good(s) && parent in s.p.dirs && child in s.p.dirs && v < UVPNS
  {
    var perm := PermAt(s, parent, v);
    if !HasP(perm) || !HasU(perm) then None
    else if Writable(perm) then
      var r := MapCall(s, parent, v, child, v, Kept(perm) + PTE_COW);
      if r.None? then None
      else MapEffect(s, parent, v, child, v, Kept(perm) + PTE_COW);
           MapCall(r.value, parent, v, parent, v, Kept(perm) + PTE_COW)
    else MapCall(s, parent, v, child, v, Kept(perm))
  }

  lemma DupPageKeeps(s: Sys, parent: nat, child: nat, v: nat)
    requires Good(s) && parent in s.p.dirs && child in s.p.dirs && v < UVPNS && DupPage(s, parent, child, v).Some?
    ensures Good(DupPage(s, parent, child, v).value) && DupPage(s, parent, child, v).value.p.dirs == s.p.dirs
  {
    hide Good, MapCall, Pte, Kept, Shown;
    var perm := Kept(PermAt(s, parent, v));
    if Writable(PermAt(s, parent, v)) {
      MapEffect(s, parent, v, child, v, perm + PTE_COW);
      MapEffect(MapCall(s, parent, v, child, v, perm + PTE_COW).value, parent, v, parent, v, perm + PTE_COW);
    } else {
      MapEffect(s, parent, v, child, v, perm);
    }
  }

  // Both places show the page; who may write it did not change.
  ghost predicate Duplicated(m: imap<Place, Seen>, n: imap<Place, Seen>, a: Place, b: Place) {
    a in m && a in n && b in n && n == m[b := n[b]][a := n[a]]
    && n[b].page == n[a].page == m[a].page
    && Writable(n[b].perm) == Writable(n[a].perm) == Writable(m[a].perm)
    && HasU(n[a].perm) && HasU(n[b].perm)
    && (HasIo(n[a].perm) <==> HasIo(m[a].perm)) && (HasIo(n[b].perm) <==> HasIo(m[a].perm))
  }

  lemma DupPageEffect(s: Sys, parent: nat, child: nat, v: nat)
    requires CowInv(s) && v != PFTEMP && parent in s.p.dirs && child in s.p.dirs && v < UVPNS && parent != child
    requires DupPage(s, parent, child, v).Some?
    ensures var t := DupPage(s, parent, child, v).value;
      && CowInv(t) && t.p.dirs == s.p.dirs
      && Duplicated(Shown(s), Shown(t), Place(parent, v), Place(child, v))
  {
    hide Good, MapCall, Pte, Data, Kept, Shown, Page?;
    ShownAt(s, parent, v);
    var perm, a, b := PermAt(s, parent, v), Place(parent, v), Place(child, v);
    if Writable(perm) {
      MapEffect(s, parent, v, child, v, Kept(perm) + PTE_COW);
      var s1 := MapCall(s, parent, v, child, v, Kept(perm) + PTE_COW).value;
      MapEffect(s1, parent, v, parent, v, Kept(perm) + PTE_COW);
      AloneShared(Shown(s), a, b, Kept(perm) + PTE_COW);
    } else {
      MapEffect(s, parent, v, child, v, Kept(perm));
      AloneShared(Shown(s), a, b, Kept(perm));
    }
  }

  lemma AloneShared(m: imap<Place, Seen>, a: Place, b: Place, perm: nat)
    requires Alone(m) && a in m && !HasW(perm)
    ensures Alone(m[b := m[a].(perm := perm)][a := m[a].(perm := perm)])
    ensures !HasW(m[a].perm) ==> Alone(m[b := m[a].(perm := perm)])
  {
  }

  // ---------------------------------------------------------------- the loop over the address space

  // PTE_P and PTE_U in the directory entry and in the table entry, read through uvpd and uvpt.
  ghost predicate Present(s: Sys, e: nat, v: nat)
    requires Good(s) && e in s.p.dirs && v < UVPNS
  {
    var pde, pte := PermOf(Pde(s.p, e, v / 1024)), PermAt(s, e, v);
    HasP(pde) && HasU(pde) && HasP(pte) && HasU(pte)
  }

  lemma PresentIsPage(s: Sys, e: nat, v: nat, tmp: nat)
    requires Good(s) && Plain(Shown(s), tmp) && e in s.p.dirs && v < UVPNS
    ensures Present(s, e, v) <==> Place(e, v) in Shown(s)
    ensures Present(s, e, v) ==> v != tmp
  {
    hide Unique, FreeOk, Counted, Shown, Data;
    ShownAt(s, e, v);
    ShownIsCoherent(s);
  }

  // duppage on every user page from page number `n` up, the exception stack apart.
  ghost function DupAll(s: Sys, parent: nat, child: nat, n: nat): (r: Option<Sys>)
    requires Good(s) && parent in s.p.dirs && child in s.p.dirs && n <= UVPNS
    ensures r.Some? ==> Good(r.value) && r.value.p.dirs == s.p.dirs
    decreases UVPNS - n
  {
    if n == UVPNS then Some(s)
    else if n == XSTK || !Present(s, parent, n) then DupAll(s, parent, child, n + 1)
    else
      var r := DupPage(s, parent, child, n);
      if r.None? then None
      else
        DupPageKeeps(s, parent, child, n);
        DupAll(r.value, parent, child, n + 1)
  }

  // `child` gets its own copy of what `parent` has from page number `n` up.
  ghost function Copy(a: imap<Place, Sight>, parent: nat, child: nat, n: nat): imap<Place, Sight> {
    imap x: Place | (if x.env == child && x.vpn >= n then Place(parent, x.vpn) else x) in a ::
      a[if x.env == child && x.vpn >= n then Place(parent, x.vpn) else x]
  }

  lemma CopyStep(a: imap<Place, Sight>, parent: nat, child: nat, n: nat)
    requires parent != child && Place(child, n) !in a
    ensures Place(parent, n) !in a ==> Copy(a, parent, child, n + 1) == Copy(a, parent, child, n)
    ensures Place(parent, n) in a ==>
      Copy(a[Place(child, n) := a[Place(parent, n)]], parent, child, n + 1) == Copy(a, parent, child, n)
  {
    if Place(parent, n) in a {
      var b := a[Place(child, n) := a[Place(parent, n)]];
      assert forall x: Place :: x in Copy(b, parent, child, n + 1) <==> x in Copy(a, parent, child, n);
    }
  }

  // No exception stack changed.
  ghost predicate StacksSame(m: imap<Place, Seen>, n: imap<Place, Seen>) {
    forall e: nat :: (Place(e, XSTK) in n <==> Place(e, XSTK) in m)
      && (Place(e, XSTK) in m ==> n[Place(e, XSTK)] == m[Place(e, XSTK)])
  }

  // After the loop the child sees what the parent sees, and nobody else sees a change.
  lemma {:induction false} DupAllLaw(s: Sys, parent: nat, child: nat, n: nat)
    requires CowInv(s) && parent in s.p.dirs && child in s.p.dirs && parent != child && n <= UVPNS
    requires DupAll(s, parent, child, n).Some?
    requires forall a :: a in Shown(s) && a.env == child ==> a.vpn < n
    ensures CowInv(DupAll(s, parent, child, n).value)
    ensures View(Shown(DupAll(s, parent, child, n).value)) == Copy(View(Shown(s)), parent, child, n)
    ensures StacksSame(Shown(s), Shown(DupAll(s, parent, child, n).value))
    decreases UVPNS - n
  {
    hide Good, Alone, Plain, DupPage, Shown, Present, Duplicated, Copy, View;
    ViewPlaces(s);
    if n == UVPNS {
      CopyNothing(View(Shown(s)), parent, child);
    } else {
      CopyStep(View(Shown(s)), parent, child, n);
      PresentIsPage(s, parent, n, PFTEMP);
      if n == XSTK || !Present(s, parent, n) {
        DupAllLaw(s, parent, child, n + 1);
      } else {
        DupPageEffect(s, parent, child, n);
        var s1 := DupPage(s, parent, child, n).value;
        ViewDuplicated(Shown(s), Shown(s1), parent, child, n);
        DupAllLaw(s1, parent, child, n + 1);
      }
    }
  }

  lemma ViewPlaces(s: Sys)
    requires Good(s)
    ensures forall a :: a in View(Shown(s)) <==> a in Shown(s) && a.vpn != XSTK
    ensures forall a :: a in View(Shown(s)) ==> a.vpn < UVPNS
  {
    ShownIsCoherent(s);
  }

  lemma CopyNothing(a: imap<Place, Sight>, parent: nat, child: nat)
    requires forall x :: x in a ==> x.vpn < UVPNS
    ensures Copy(a, parent, child, UVPNS) == a
  {
  }

  lemma ViewDuplicated(m: imap<Place, Seen>, n: imap<Place, Seen>, parent: nat, child: nat, v: nat)
    requires Duplicated(m, n, Place(parent, v), Place(child, v)) && v != XSTK && parent != child
    ensures View(n) == View(m)[Place(child, v) := View(m)[Place(parent, v)]]
    ensures forall a :: a in n ==> a in m || a == Place(child, v)
    ensures StacksSame(m, n)
  {
  }

  // ---------------------------------------------------------------- independence

  // No store through a writable page of `e` changes what `f` sees.
  ghost predicate Blind(m: imap<Place, Seen>, e: nat, f: nat) {
    forall a, b :: a in m && b in m && a.env == e && b.env == f && HasW(m[a].perm) ==>
      forall page: Page :: Stored(m, m[a].frame, page)[b] == m[b]
  }

  ghost predicate Independent(m: imap<Place, Seen>, e: nat, f: nat) { Blind(m, e, f) && Blind(m, f, e) }

  lemma AloneIsIndependent(m: imap<Place, Seen>, e: nat, f: nat)
    requires Alone(m) && e != f
    ensures Independent(m, e, f)
  {
  }

  // ---------------------------------------------------------------- fork

  // sys_page_alloc by the program, writable or not.
  ghost function UserAlloc(s: Sys, e: nat, v: nat, writable: bool): Option<Sys>
    requires Good(s) && e in s.p.dirs && v < UVPNS
  {
    AllocCall(s, e, v, if writable then PTE_PUW else PTE_PU)
  }

  lemma UserAllocEffect(s: Sys, e: nat, v: nat, writable: bool, tmp: nat)
    requires Fair(s, tmp) && e in s.p.dirs && v < UVPNS && v != tmp && UserAlloc(s, e, v, writable).Some?
    ensures var t, a := UserAlloc(s, e, v, writable).value, Place(e, v);
      && Fair(t, tmp) && t.p.dirs == s.p.dirs && a in Shown(t) && Shown(t) == Shown(s)[a := Shown(t)[a]]
      && Shown(t)[a].page == ZeroPage() && Shown(t)[a].perm == if writable then PTE_PUW else PTE_PU
  {
    hide Good, AllocCall, Fresh, Shown, Alone;
    AllocEffect(s, e, v, if writable then PTE_PUW else PTE_PU);
    AloneFresh(Shown(s), Place(e, v), Shown(UserAlloc(s, e, v, writable).value)[Place(e, v)]);
  }

  /** fork by `parent` with the environment slot `child`; `first` when the parent has no
      handler yet.  None when a system call fails. */
  ghost function Fork(s: Sys, parent: nat, child: nat, first: bool): (r: Option<Sys>)
    requires Good(s) && parent in s.p.dirs
  {
    var r0 := if first then UserAlloc(s, parent, XSTK, true) else Some(s);
    if r0.None? then None
    else
      assert Good(r0.value) && r0.value.p.dirs == s.p.dirs by {
        if first { AllocEffect(s, parent, XSTK, PTE_PUW); }
      }
      var r1 := NewEnv(r0.value, child);
      if r1.None? then None
      else
        NewEnvEffect(r0.value, child);
        var r2 := DupAll(r1.value, parent, child, 0);
        if r2.None? then None else UserAlloc(r2.value, child, XSTK, true)
  }

  // A zeroed, writable page.
  predicate NewStack(x: Seen) { x.page == ZeroPage() && x.perm == PTE_PUW }

  // Fork leaves two address spaces that look like independent copies, the child with an
  // exception stack of its own.
  lemma ForkLaw(s: Sys, parent: nat, child: nat, first: bool)
    requires CowInv(s) && parent in s.p.dirs && Fork(s, parent, child, first).Some?
    ensures var t := Fork(s, parent, child, first).value;
      && CowInv(t) && t.p.dirs.Keys == s.p.dirs.Keys + {child} && child !in s.p.dirs
      && View(Shown(t)) == Copy(View(Shown(s)), parent, child, 0)
      && Place(child, XSTK) in Shown(t) && NewStack(Shown(t)[Place(child, XSTK)])
      && (if first then Place(parent, XSTK) in Shown(t) && NewStack(Shown(t)[Place(parent, XSTK)])
          else StacksSame(Shown(s), Shown(t) - {Place(child, XSTK)}))
  {
    hide Good, Alone, Plain, UserAlloc, NewEnv, DupAll, Shown, Copy;
    var s0 := if first then UserAlloc(s, parent, XSTK, true).value else s;
    if first {
      UserAllocEffect(s, parent, XSTK, true, PFTEMP);
    }
    assert View(Shown(s0)) == View(Shown(s));
    NewEnvEffect(s0, child);
    var s1 := NewEnv(s0, child).value;
    ShownIsCoherent(s0);
    DupAllLaw(s1, parent, child, 0);
    var s2 := DupAll(s1, parent, child, 0).value;
    UserAllocEffect(s2, child, XSTK, true, PFTEMP);
    assert View(Shown(UserAlloc(s2, child, XSTK, true).value)) == View(Shown(s2));
  }
}
