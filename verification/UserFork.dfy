/** sched/lib/fork.c in place: the library's code over the kernel's memory, proved against
    the functions of `Cow.dfy` and `Eager.dfy`.  Every method answers false where the library
    panics; the state is then of no further interest. */
module UserFork {
  import opened Paging
  import opened PageCalls
  import PageOps
  import opened UserCalls
  import opened Cow
  import opened Eager
  import Kernel
  import Window

  class Library {
    const m: Kernel.Memory
    ghost var lost: set<nat>

    constructor (m: Kernel.Memory, ghost lost: set<nat>)
      ensures this.m == m && this.lost == lost
    {
      this.m := m;
      this.lost := lost;
    }

    ghost function State(): Sys
      reads this, m, m.pages, m.mem, m.pgdir
    {
      Sys(m.Abs(), lost)
    }

    ghost predicate Ready()
      reads this, m, m.pages, m.mem, m.pgdir
    {
      m.Valid() && Good(State())
    }

    // ---------------------------------------------------------------- system calls

    method SysPageAlloc(e: nat, v: nat, perm: nat) returns (ok: bool)
      requires Ready() && e in State().p.dirs && v < UVPNS
      modifies this, m, m.pages, m.mem
      ensures ok == AllocCall(old(State()), e, v, perm).Some?
      ensures ok ==> Ready() && State() == AllocCall(old(State()), e, v, perm).value
    {
      hide Good, Shape, PageCalls.EnvPageAlloc, Kernel.Chain, NoDup;
      GoodAfterAlloc(State(), e, v, perm);
      var err;
      err, lost := m.EnvPageAlloc(e, v * PGSIZE, OrP(OrU(perm)), lost);
      ok := err == 0;
    }

    /** Also stops where a 16-bit count would wrap. */
    method SysPageMap(src: nat, srcv: nat, dst: nat, dstv: nat, perm: nat) returns (ok: bool)
      requires Ready() && src in State().p.dirs && dst in State().p.dirs
      requires srcv < UVPNS && dstv < UVPNS && perm < 4096
      modifies this, m, m.pages, m.mem
      ensures ok == MapCall(old(State()), src, srcv, dst, dstv, perm).Some?
      ensures ok ==> Ready() && State() == MapCall(old(State()), src, srcv, dst, dstv, perm).value
    {
      hide Good, Shape, Pte, OrUP, PageCalls.EnvPageMap, Kernel.Chain, NoDup;
      GoodAfterMap(State(), src, srcv, dst, dstv, perm);
      var f, ptr := m.PageLookup(src, srcv * PGSIZE, Kernel.Null);
      if f == Kernel.NULL {
        return false;
      }
      var there;
      there, ptr := m.PageLookup(dst, dstv * PGSIZE, Kernel.Null);
      if m.pages[f].ref == 0xFFFF && there != f {
        return false;
      }
      var err := m.EnvPageMap(src, srcv * PGSIZE, dst, dstv * PGSIZE, OrUP(perm), lost);
      ok := err == 0;
    }

    method SysPageUnmap(e: nat, v: nat)
      requires Ready() && e in State().p.dirs && v < UVPNS
      modifies m, m.pages, m.mem
      ensures Ready() && State() == UnmapCall(old(State()), e, v)
    {
      hide Shape, Pte, PageOps.PageRemove, Kernel.Chain, NoDup;
      GoodAfterUnmap(State(), e, v);
      m.PageRemove(e, v * PGSIZE);
    }

    // ---------------------------------------------------------------- the program's own accesses

    // A load by the program: the processor's walk, and the fault on a page not for users.
    method Load(e: nat, va: Word) returns (ok: bool, w: Word)
      requires Ready() && e in State().p.dirs
      ensures match Window.Walk(State().p.mem, State().p.dirs[e], va)
        case Faults => !ok
        case Reads(word, user, _) => ok == user && (ok ==> w == word)
    {
      hide Good, Kernel.Chain, NoDup;
      var dir := m.pgdir[e];
      assert State().p.dirs[e] == dir;
      ok, w := false, 0;
      if dir >= m.mem.Length {
        return;
      }
      var pde := m.mem[dir][va / Window.REGION];
      if !HasP(PermOf(pde)) || FrameOf(pde) >= m.mem.Length {
        return;
      }
      var pte := m.mem[FrameOf(pde)][va / 4096 % 1024];
      if !HasP(PermOf(pte)) || FrameOf(pte) >= m.mem.Length {
        return;
      }
      ok, w := HasU(PermOf(pde)) && HasU(PermOf(pte)), m.mem[FrameOf(pte)][va % 4096 / 4];
    }

    // uvpt[v], once the table is known to be there
    method Uvpt(e: nat, v: nat) returns (pte: Word)
      requires Ready() && e in State().p.dirs && v < UVPNS && Shape(State().p) && Pde(State().p, e, v / 1024) != 0
      ensures pte == Pte(State().p, e, v)
    {
      hide Good, Window.Walk, Kernel.Chain, NoDup;
      GoodIsClean(State());
      Window.UvptReads(State().p, e, v);
      var ok;
      ok, pte := Load(e, Window.UVPT + 4 * v);
    }

    // uvpd[v / 1024]
    method Uvpd(e: nat, v: nat) returns (pde: Word)
      requires Ready() && e in State().p.dirs && v < UVPNS
      ensures Shape(State().p) && pde == Pde(State().p, e, v / 1024)
    {
      hide Good, Window.Walk, Kernel.Chain, NoDup;
      GoodIsClean(State());
      Window.UvpdReads(State().p, e, v / 1024);
      var ok;
      ok, pde := Load(e, Window.UVPD + 4 * (v / 1024));
    }

    // memmove of the page at `src` over the page at `dst`
    method Memmove(e: nat, dst: nat, src: nat)
      requires Ready() && Page?(State(), e, dst) && Page?(State(), e, src)
      modifies m.mem
      ensures Ready() && State() == Fill(old(State()), e, dst, Data(old(State()), e, src))
    {
      hide Good, Kernel.Chain, NoDup;
      ghost var s := State();
      PagesAreFrames(s, e, dst);
      PagesAreFrames(s, e, src);
      UserCalls.FillEffect(s, e, dst, Data(s, e, src));
      var to := Uvpt(e, dst);
      var from := Uvpt(e, src);
      m.mem[FrameOf(to)] := m.mem[FrameOf(from)];
      assert State() == Fill(s, e, dst, Data(s, e, src));
    }

    // ---------------------------------------------------------------- pgfault

    method PgFault(e: nat, v: nat, err: bv32) returns (ok: bool)
      requires Ready() && Page?(State(), e, v) && v != PFTEMP
      modifies this, m, m.pages, m.mem
      ensures ok == Cow.PgFault(old(State()), e, v, err).Some?
      ensures ok ==> Ready() && State() == Cow.PgFault(old(State()), e, v, err).value
    {
      hide Good, AllocCall, MapCall, UnmapCall, Fill, Data, Kernel.Chain, NoDup, Pte, GuardFires;
      ghost var s := State();
      PagesAreFrames(s, e, v);
      var pte := Uvpt(e, v);
      if GuardFires(err, PermOf(pte)) {
        return false;
      }
      AllocKeepsMapped(s, e, v);
      ok := SysPageAlloc(e, PFTEMP, PTE_PUW);
      if !ok {
        return;
      }
      Memmove(e, PFTEMP, v);
      ok := SysPageMap(e, PFTEMP, e, v, PTE_PUW);
      if !ok {
        return;
      }
      SysPageUnmap(e, PFTEMP);
    }

    // ---------------------------------------------------------------- fork

    method DupPage(parent: nat, child: nat, v: nat) returns (ok: bool)
      requires Ready() && parent in State().p.dirs && child in State().p.dirs && v < UVPNS
      requires Shape(State().p) && Pde(State().p, parent, v / 1024) != 0
      modifies this, m, m.pages, m.mem
      ensures ok == Cow.DupPage(old(State()), parent, child, v).Some?
      ensures ok ==> Ready() && State() == Cow.DupPage(old(State()), parent, child, v).value
    {
      hide Good, MapCall, Kernel.Chain, NoDup, Pte, Pde, Kept, Shape, HasP, HasU, HasW, HasCow, HasIo;
      ghost var s := State();
      var pte := Uvpt(parent, v);
      if !HasP(PermOf(pte)) || !HasU(PermOf(pte)) {
        return false;
      }
      var perm := if HasIo(PermOf(pte)) then PTE_PU + PTE_IO else PTE_PU;
      assert perm == Kept(PermOf(pte)) by { KeptIs(PermOf(pte)); }
      if HasW(PermOf(pte)) || HasCow(PermOf(pte)) {
        MapKeepsDirs(s, parent, v, child, v, perm + PTE_COW);
        ok := SysPageMap(parent, v, child, v, perm + PTE_COW);
        if !ok {
          return;
        }
        ok := SysPageMap(parent, v, parent, v, perm + PTE_COW);
      } else {
        ok := SysPageMap(parent, v, child, v, perm);
      }
    }

    // The part of sys_exofork that concerns memory; `child` is the slot env_alloc took.
    method SysExofork(child: nat) returns (ok: bool)
      requires Ready() && child < m.pgdir.Length && 0 in m.reserved
      modifies m, m.pages, m.mem, m.pgdir
      ensures ok == NewEnv(old(State()), child).Some?
      ensures ok ==> Ready() && State() == NewEnv(old(State()), child).value
    {
      hide Kernel.Chain, NoDup, InvHeld;
      GoodAfterNewEnv(State(), child);
      if m.pgdir[child] != 0 {
        return false;
      }
      var err := m.EnvSetupVm(child);
      ok := err == 0;
    }

    // The loop of fork.
    method DupAllPages(parent: nat, child: nat) returns (ok: bool)
      requires Ready() && parent in State().p.dirs && child in State().p.dirs
      modifies this, m, m.pages, m.mem
      ensures ok == DupAll(old(State()), parent, child, 0).Some?
      ensures ok ==> Ready() && State() == DupAll(old(State()), parent, child, 0).value
    {
      hide Good, Kernel.Chain, NoDup, Cow.DupPage, DupAll, Shown, Pte, Pde;
      ghost var s := State();
      for pnum := 0 to UVPNS
        invariant Ready() && State().p.dirs == s.p.dirs
        invariant DupAll(State(), parent, child, pnum) == DupAll(s, parent, child, 0)
      {
        DupAllStep(State(), parent, child, pnum);
        if pnum == XSTK {
          continue;
        }
        var pde := Uvpd(parent, pnum);
        if !HasP(PermOf(pde)) || !HasU(PermOf(pde)) {
          continue;
        }
        var pte := Uvpt(parent, pnum);
        if !HasP(PermOf(pte)) || !HasU(PermOf(pte)) {
          continue;
        }
        ok := DupPage(parent, child, pnum);
        if !ok {
          return;
        }
      }
      DupAllDone(State(), parent, child);
      ok := true;
    }

    method Fork(parent: nat, child: nat, first: bool) returns (ok: bool)
      requires Ready() && parent in State().p.dirs && child < m.pgdir.Length && 0 in m.reserved
      modifies this, m, m.pages, m.mem, m.pgdir
      ensures ok == Cow.Fork(old(State()), parent, child, first).Some?
      ensures ok ==> Ready() && State() == Cow.Fork(old(State()), parent, child, first).value
    {
      hide Good, AllocCall, NewEnv, Kernel.Chain, NoDup, DupAll, Shown;
      ghost var s := State();
      if first {
        ok := SysPageAlloc(parent, XSTK, PTE_PUW);
        if !ok {
          return;
        }
        AllocEffect(s, parent, XSTK, PTE_PUW);
      }
      ghost var s0 := State();
      ok := SysExofork(child);
      if !ok {
        return;
      }
      NewEnvEffect(s0, child);
      ok := DupAllPages(parent, child);
      if !ok {
        return;
      }
      ok := SysPageAlloc(child, XSTK, PTE_PUW);
    }

    // ---------------------------------------------------------------- fork_v0

    method DupOrShare(parent: nat, child: nat, v: nat) returns (ok: bool)
      requires Ready() && parent in State().p.dirs && child in State().p.dirs && v < UVPNS
      requires Shape(State().p) && Pde(State().p, parent, v / 1024) != 0
      modifies this, m, m.pages, m.mem
      ensures ok == Eager.DupOrShare(old(State()), parent, child, v).Some?
      ensures ok ==> Ready() && State() == Eager.DupOrShare(old(State()), parent, child, v).value
    {
      hide Good, AllocCall, MapCall, UnmapCall, Kernel.Chain, NoDup, Pte, Pde, Granted, Shown, Shape, Data, Fill;
      ghost var s := State();
      var pte := Uvpt(parent, v);
      if !HasP(PermOf(pte)) {
        return true;
      }
      var perm := if HasW(PermOf(pte)) then 2 else 0;
      if HasIo(PermOf(pte)) {
        perm := perm + PTE_IO;
      }
      assert perm == Granted(PermOf(pte)) by { GrantedIs(PermOf(pte)); }
      if !HasW(PermOf(pte)) || HasIo(PermOf(pte)) {
        ok := SysPageMap(parent, v, child, v, perm);
      } else {
        ok := SysPageAlloc(child, v, perm);
        if !ok {
          return;
        }
        AllocKeepsPage(s, child, v, perm, Place(parent, v));
        ok := FillThroughTemp(parent, child, v, perm);
      }
    }

    method FillThroughTemp(parent: nat, child: nat, v: nat, perm: nat) returns (ok: bool)
      requires Ready() && parent in State().p.dirs && child in State().p.dirs && v < UVPNS && perm < 4096
      requires Place(parent, v) in Shown(State())
      modifies this, m, m.pages, m.mem
      ensures ok == FillThrough(old(State()), parent, child, v, perm).Some?
      ensures ok ==> Ready() && State() == FillThrough(old(State()), parent, child, v, perm).value
    {
      hide Good, MapCall, UnmapCall, Kernel.Chain, NoDup, Pte, Shown, Shape, Data, Fill;
      ghost var s := State();
      ok := SysPageMap(child, v, parent, UTEMP, perm);
      if !ok {
        return;
      }
      MapEffect(s, child, v, parent, UTEMP, perm);
      ShownAt(State(), parent, v);
      ShownAt(State(), parent, UTEMP);
      Memmove(parent, UTEMP, v);
      SysPageUnmap(parent, UTEMP);
    }

    method ForkV0(parent: nat, child: nat) returns (ok: bool)
      requires Ready() && parent in State().p.dirs && child < m.pgdir.Length && 0 in m.reserved
      modifies this, m, m.pages, m.mem, m.pgdir
      ensures ok == Eager.ForkV0(old(State()), parent, child).Some?
      ensures ok ==> Ready() && State() == Eager.ForkV0(old(State()), parent, child).value
    {
      hide Good, NewEnv, Kernel.Chain, NoDup, Eager.DupOrShare, ShareAll, Shown, Pte, Pde;
      ghost var s := State();
      ok := SysExofork(child);
      if !ok {
        return;
      }
      NewEnvEffect(s, child);
      ghost var s1 := State();
      for pnum := 0 to UVPNS
        invariant Ready() && State().p.dirs == s1.p.dirs
        invariant ShareAll(State(), parent, child, pnum) == ShareAll(s1, parent, child, 0)
      {
        ShareAllStep(State(), parent, child, pnum);
        var pde := Uvpd(parent, pnum);
        if !HasP(PermOf(pde)) || !HasU(PermOf(pde)) {
          continue;
        }
        ok := DupOrShare(parent, child, pnum);
        if !ok {
          return;
        }
      }
      ShareAllDone(State(), parent, child);
      ok := true;
    }
  }

  lemma GoodIsClean(s: Sys)
    requires Good(s)
    ensures Shape(s.p) && Clean(s.p)
  {
  }

  lemma KeptIs(perm: nat)
    ensures Kept(perm) == if HasIo(perm) then PTE_PU + PTE_IO else PTE_PU
  {
  }

  lemma MapKeepsDirs(s: Sys, src: nat, srcv: nat, dst: nat, dstv: nat, perm: nat)
    requires Good(s) && src in s.p.dirs && dst in s.p.dirs && srcv < UVPNS && dstv < UVPNS && perm < 4096
    ensures var r := MapCall(s, src, srcv, dst, dstv, perm);
      r.Some? ==> Good(r.value) && r.value.p.dirs == s.p.dirs
  {
    hide Good, MapCall, Shown;
    if MapCall(s, src, srcv, dst, dstv, perm).Some? {
      MapEffect(s, src, srcv, dst, dstv, perm);
    }
  }

  lemma GoodAfterNewEnv(s: Sys, e: nat)
    requires Good(s)
    ensures Shape(s.p) && (0 in s.p.reserved ==> 0 !in s.p.free)
    ensures NewEnv(s, e).Some? ==> Good(NewEnv(s, e).value)
  {
    if NewEnv(s, e).Some? {
      NewEnvEffect(s, e);
    }
  }

  lemma DupAllStep(s: Sys, parent: nat, child: nat, n: nat)
    requires Good(s) && parent in s.p.dirs && child in s.p.dirs && n < UVPNS
    ensures Shape(s.p)
    ensures
      var pde, pte := PermOf(Pde(s.p, parent, n / 1024)), PermOf(Pte(s.p, parent, n));
      if n == XSTK || !HasP(pde) || !HasU(pde) || !HasP(pte) || !HasU(pte)
      then DupAll(s, parent, child, n) == DupAll(s, parent, child, n + 1)
      else
        && Pde(s.p, parent, n / 1024) != 0
        && match Cow.DupPage(s, parent, child, n)
           case None => DupAll(s, parent, child, n).None?
           case Some(t) =>
             Good(t) && t.p.dirs == s.p.dirs && DupAll(s, parent, child, n) == DupAll(t, parent, child, n + 1)
  {
    hide Cow.DupPage, Shown, Pte, Pde;
    ShownAt(s, parent, n);
    if n != XSTK && Present(s, parent, n) && Cow.DupPage(s, parent, child, n).Some? {
      DupPageKeeps(s, parent, child, n);
    }
  }

  lemma GrantedIs(perm: nat)
    ensures Granted(perm) == (if HasW(perm) then 2 else 0) + (if HasIo(perm) then PTE_IO else 0)
  {
  }

  lemma ShareAllStep(s: Sys, parent: nat, child: nat, n: nat)
    requires Good(s) && parent in s.p.dirs && child in s.p.dirs && n < UVPNS
    ensures Shape(s.p)
    ensures
      var pde := PermOf(Pde(s.p, parent, n / 1024));
      if !HasP(pde) || !HasU(pde) then ShareAll(s, parent, child, n) == ShareAll(s, parent, child, n + 1)
      else
        match Eager.DupOrShare(s, parent, child, n)
        case None => ShareAll(s, parent, child, n).None?
        case Some(t) =>
          Good(t) && t.p.dirs == s.p.dirs && ShareAll(s, parent, child, n) == ShareAll(t, parent, child, n + 1)
  {
    hide Shown, Pte, Pde, MapCall, AllocCall, FillThrough;
    ShownAt(s, parent, n);
    if Eager.DupOrShare(s, parent, child, n).Some? {
      DupOrShareKeeps(s, parent, child, n);
    }
  }

  lemma ShareAllDone(s: Sys, parent: nat, child: nat)
    requires Good(s) && parent in s.p.dirs && child in s.p.dirs
    ensures ShareAll(s, parent, child, UVPNS) == Some(s)
  {
  }

  lemma DupAllDone(s: Sys, parent: nat, child: nat)
    requires Good(s) && parent in s.p.dirs && child in s.p.dirs
    ensures DupAll(s, parent, child, UVPNS) == Some(s)
  {
  }

  lemma GoodAfterUnmap(s: Sys, e: nat, v: nat)
    requires Good(s) && e in s.p.dirs && v < UVPNS
    ensures Good(UnmapCall(s, e, v)) && Shape(s.p) && Kernel.MappedInUse(s.p, e, v)
  {
    Kernel.SoundInUse(s.p, e, v);
    UnmapEffect(s, e, v);
  }

  lemma PagesAreFrames(s: Sys, e: nat, v: nat)
    requires Good(s) && Page?(s, e, v)
    ensures Shape(s.p) && Pde(s.p, e, v / 1024) != 0 && FrameOf(Pte(s.p, e, v)) < |s.p.mem|
  {
  }

  lemma AllocKeepsMapped(s: Sys, e: nat, v: nat)
    requires Good(s) && Page?(s, e, v) && v != PFTEMP
    ensures var r := AllocCall(s, e, PFTEMP, PTE_PUW);
      r.Some? ==> Good(r.value) && Page?(r.value, e, v) && Page?(r.value, e, PFTEMP) && r.value.p.dirs == s.p.dirs
  {
    hide Good, AllocCall, Shown, Pte;
    ShownAt(s, e, v);
    if AllocCall(s, e, PFTEMP, PTE_PUW).Some? {
      AllocEffect(s, e, PFTEMP, PTE_PUW);
      ShownAt(AllocCall(s, e, PFTEMP, PTE_PUW).value, e, v);
      ShownAt(AllocCall(s, e, PFTEMP, PTE_PUW).value, e, PFTEMP);
    }
  }

  lemma GoodAfterAlloc(s: Sys, e: nat, v: nat, perm: nat)
    requires Good(s) && e in s.p.dirs && v < UVPNS
    ensures AllocCall(s, e, v, perm).Some? ==> Good(AllocCall(s, e, v, perm).value)
  {
    if AllocCall(s, e, v, perm).Some? {
      AllocEffect(s, e, v, perm);
    }
  }

  lemma GoodAfterMap(s: Sys, src: nat, srcv: nat, dst: nat, dstv: nat, perm: nat)
    requires Good(s) && src in s.p.dirs && dst in s.p.dirs && srcv < UVPNS && dstv < UVPNS && perm < 4096
    ensures Shape(s.p) && FrameOf(Pte(s.p, dst, dstv)) < |s.p.refs|
    ensures FrameOf(Pte(s.p, src, srcv)) < |s.p.refs| && s.p.refs[FrameOf(Pte(s.p, src, srcv))] <= 0xFFFF
    ensures NamesFrame(FrameOf(Pte(s.p, src, srcv)), OrUP(perm))
    ensures var r := MapCall(s, src, srcv, dst, dstv, perm); r.Some? ==> Good(r.value)
  {
    if MapCall(s, src, srcv, dst, dstv, perm).Some? {
      MapEffect(s, src, srcv, dst, dstv, perm);
    }
  }
}
