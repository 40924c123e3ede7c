/** Every run of memory system calls, environment set-ups and tear-downs and user stores
    keeps reference counts exact (sched/kern/syscall.c, sched/kern/env.c, sched/kern/pmap.c). */
module MemoryRuns {
  import opened Paging
  import opened PagingLaws
  import opened PageOps
  import opened AddressSpace
  import opened RefCounts
  import opened PageCalls
  import opened IpcPage
  import Window

  datatype Step =
    | SysPageAlloc(env: nat, va: nat, perm: Word)
    | SysPageMap(env: nat, srcva: nat, dst: nat, dstva: nat, perm: Word)
    | SysPageUnmap(env: nat, va: nat)
    | SysIpcSend(env: nat, srcva: nat, dst: nat, dstva: nat, perm: Word, stray: Word)
    | SetUpEnv(env: nat)
    | FreeEnv(env: nat)
    | UserStore(env: nat, va: nat, w: Word)

  predicate BadAddress(va: nat) { va >= UTOP || va % PGSIZE != 0 }

  /** The one thing callers must respect: a sys_page_map that gets as far as storing an entry
      needs permission bits above the low twelve to be set in the frame's address already, and
      it and a page send need a counter that has room or nothing to count. */
  ghost predicate Fits(s: Sys, step: Step)
    requires Good(s)
  {
    MapFits(s, step) && (Sends(s, step) && Shape(s.p) ==>
      SendExact(s, step.env, step.srcva / PGSIZE, step.dst, step.dstva / PGSIZE, step.perm, step.stray))
  }

  // The receiver waits for a page at `dstva`, where 0 is no place, and is sent one.
  ghost predicate Sends(s: Sys, step: Step) {
    step.SysIpcSend? && step.env in s.p.dirs && step.dst in s.p.dirs && step.dstva != 0
    && !BadAddress(step.srcva) && !BadAddress(step.dstva)
  }

  ghost predicate MapFits(s: Sys, step: Step)
    requires Good(s)
  {
    step.SysPageMap? && !BadAddress(step.srcva) && !BadAddress(step.dstva)
    && step.env in s.p.dirs && step.dst in s.p.dirs ==>
      var srcv, dstv := step.srcva / PGSIZE, step.dstva / PGSIZE;
      MapReaches(s, step.env, srcv, OrUP(step.perm)) && !(s.p.free == [] && Pde(s.p, step.dst, dstv / 1024) == 0) ==>
        FrameOf(Pte(s.p, step.env, srcv)) < |s.p.refs| ==>
          ExactInsert(s.p, step.dst, FrameOf(Pte(s.p, step.env, srcv)), dstv, OrUP(step.perm))
  }

  ghost function Apply(s: Sys, step: Step): Outcome
    requires Good(s)
  {
    match step
    case SysPageAlloc(e, va, perm) =>
      if BadAddress(va) then Outcome(s, E_INVAL)
      else if e !in s.p.dirs then Outcome(s, E_BAD_ENV)
      else EnvPageAlloc(s, e, va / PGSIZE, OrUP(perm))
    case SysPageMap(src, srcva, dst, dstva, perm) =>
      if BadAddress(srcva) || BadAddress(dstva) then Outcome(s, E_INVAL)
      else if src !in s.p.dirs || dst !in s.p.dirs then Outcome(s, E_BAD_ENV)
      else EnvPageMap(s, src, srcva / PGSIZE, dst, dstva / PGSIZE, OrUP(perm))
    case SysPageUnmap(e, va) =>
      if BadAddress(va) then Outcome(s, E_INVAL)
      else if e !in s.p.dirs then Outcome(s, E_BAD_ENV)
      else Outcome(s.(p := PageRemove(s.p, e, va / PGSIZE)), 0)
    case SysIpcSend(src, srcva, dst, dstva, perm, stray) =>
      if src !in s.p.dirs || dst !in s.p.dirs then Outcome(s, E_BAD_ENV)
      else if srcva >= UTOP then Outcome(s, 0)
      else if srcva % PGSIZE != 0 then Outcome(s, E_INVAL)
      else if dstva == 0 || BadAddress(dstva) then
        Outcome(s, if Refused(SourceWord(s, src, srcva / PGSIZE, stray), perm) then E_INVAL else 0)
      else SendPage(s, src, srcva / PGSIZE, dst, dstva / PGSIZE, perm, stray)
    case SetUpEnv(e) =>
      if e in s.p.dirs then Outcome(s, E_BAD_ENV)
      else if EnvSetupVm(s.p, e).NoDir? then Outcome(s, E_NO_MEM)
      else Outcome(s.(p := EnvSetupVm(s.p, e).p), 0)
    case FreeEnv(e) =>
      if e !in s.p.dirs then Outcome(s, E_BAD_ENV)
      else assert Sound(s.p); Outcome(s.(p := EnvFree(s.p, e)), 0)
    case UserStore(e, va, w) =>
      if va >= UTOP || e !in s.p.dirs then Outcome(s, E_BAD_ENV)
      else if !HasW(PermOf(Pte(s.p, e, va / PGSIZE))) then Outcome(s, E_INVAL)
      else Outcome(s.(p := StoreWord(s.p, e, va, w)), 0)
  }

  // An aligned word store through the page tables.
  ghost function StoreWord(p: Phys, e: nat, va: nat, w: Word): Phys
    requires Shape(p) && e in p.dirs && va < UTOP && FrameOf(Pte(p, e, va / PGSIZE)) < |p.mem|
  {
    var f := FrameOf(Pte(p, e, va / PGSIZE));
    p.(mem := p.mem[f := p.mem[f][va % PGSIZE / 4 := w]])
  }

  lemma StoreKeeps(p: Phys, flight: set<nat>, e: nat, va: nat, w: Word)
    requires Inv(p, flight) && e in p.dirs && va < UTOP && Pte(p, e, va / PGSIZE) != 0
    ensures Inv(StoreWord(p, e, va, w), flight) && SameTables(p, StoreWord(p, e, va, w))
  {
    MappedIsMappable(p, flight, multiset{}, e, va / PGSIZE);
    var f := FrameOf(Pte(p, e, va / PGSIZE));
    DataWrite(p, f, p.mem[f][va % PGSIZE / 4 := w]);
    SameKeeps(p, StoreWord(p, e, va, w));
    hide Unique, Clean, RefTo, Refs;
  }

  lemma ApplyKeeps(s: Sys, step: Step)
    requires Good(s) && Fits(s, step)
    ensures Good(Apply(s, step).s)
  {
    hide InvHeld, Unique, Clean, FreeOk, Counted, InsertedLike;
    hide RemovedLike, Without, NewPage, EnvFree, RefTo, ExactInsert, EntryWord;
    hide SendPage, SendExact, Refused;
    InvParts(s.p, s.lost, multiset{});
    match step
    case SysPageAlloc(e, va, perm) =>
      if !BadAddress(va) && e in s.p.dirs {
        PageAllocLaw(s, e, va / PGSIZE, OrUP(perm));
      }
    case SysPageMap(src, srcva, dst, dstva, perm) =>
      if !BadAddress(srcva) && !BadAddress(dstva) && src in s.p.dirs && dst in s.p.dirs {
        CleanFrame(s.p, src, srcva / PGSIZE);
        PageMapLaw(s, src, srcva / PGSIZE, dst, dstva / PGSIZE, OrUP(perm));
      }
    case SysPageUnmap(e, va) =>
      if !BadAddress(va) && e in s.p.dirs {
        RemoveLaw(s.p, s.lost, multiset{}, e, va / PGSIZE);
      }
    case SysIpcSend(src, srcva, dst, dstva, perm, stray) =>
      if Sends(s, step) {
        SendPageExactIff(s, src, srcva / PGSIZE, dst, dstva / PGSIZE, perm, stray);
      }
    case SetUpEnv(e) =>
      if e !in s.p.dirs {
        SetupLaw(s.p, s.lost, multiset{}, e);
      }
    case FreeEnv(e) =>
      if e in s.p.dirs {
        EnvFreeLaw(s.p, s.lost, multiset{}, e);
      }
    case UserStore(e, va, w) =>
      if va < UTOP && e in s.p.dirs && HasW(PermOf(Pte(s.p, e, va / PGSIZE))) {
        StoreKeeps(s.p, s.lost, e, va, w);
      }
  }

  /** Counts and free list are exact after a step, for some set of lost frames, if and only
      if the step fits. */
  lemma ApplyKeepsIff(s: Sys, step: Step)
    requires Good(s)
    ensures (exists lost :: Good(Sys(Apply(s, step).s.p, lost))) <==> Fits(s, step)
  {
    hide InvHeld, Unique, Clean, FreeOk, Counted, RefTo, ExactInsert, EnvPageMap, SendPage, SendExact, Refused;
    if Fits(s, step) {
      ApplyKeeps(s, step);
      assert Good(Sys(Apply(s, step).s.p, Apply(s, step).s.lost));
    } else if step.SysIpcSend? {
      SendPageExactIff(s, step.env, step.srcva / PGSIZE, step.dst, step.dstva / PGSIZE, step.perm, step.stray);
    } else {
      InvParts(s.p, s.lost, multiset{});
      var srcv, dstv := step.srcva / PGSIZE, step.dstva / PGSIZE;
      PageMapLaw(s, step.env, srcv, step.dst, dstv, OrUP(step.perm));
      MapErrors(s, step.env, srcv, step.dst, dstv, OrUP(step.perm));
      PageMapExactIff(s, step.env, srcv, step.dst, dstv, OrUP(step.perm));
    }
  }

  /** One permission word that user code can pass: bit 12 set.  Mapping an even frame with it
      maps the next frame, and no count is right for both any more. */
  lemma BitTwelveBreaksCounts(s: Sys, src: nat, srcva: nat, dst: nat, dstva: nat)
    requires Good(s) && src in s.p.dirs && dst in s.p.dirs && !BadAddress(srcva) && !BadAddress(dstva) && Shape(s.p)
    requires Pte(s.p, src, srcva / PGSIZE) != 0 && HasW(PermOf(Pte(s.p, src, srcva / PGSIZE)))
    requires FrameOf(Pte(s.p, src, srcva / PGSIZE)) % 2 == 0
    requires Pde(s.p, dst, dstva / PGSIZE / 1024) != 0
    ensures forall lost :: !Good(Sys(Apply(s, SysPageMap(src, srcva, dst, dstva, 0x1007)).s.p, lost))
  {
    var step := SysPageMap(src, srcva, dst, dstva, 0x1007);
    var f := FrameOf(Pte(s.p, src, srcva / PGSIZE));
    hide InvHeld, Unique, Clean, Apply, BitOr;
    InvParts(s.p, s.lost, multiset{});
    CleanFrame(s.p, src, srcva / PGSIZE);
    BitTwelveNamesNext(f);
    assert OrUP(0x1007) == 0x1007;
    ApplyKeepsIff(s, step);
    assert !Fits(s, step);
  }

  lemma CleanFrame(p: Phys, e: nat, v: nat)
    requires Shape(p) && Clean(p) && e in p.dirs && v < UVPNS
    ensures FrameOf(Pte(p, e, v)) < |p.mem|
  {
  }

  ghost predicate Next(s: Sys, step: Step, t: Sys) {
    Good(s) ==> Fits(s, step) && t == Apply(s, step).s
  }

  /** In every state of every run the count of each frame is the number of table entries,
      directory entries and directory pointers to it, and the free list is exactly the
      frames with count 0 that are neither reserved nor lost, each once. */
  lemma {:induction false} CountsExactInEveryRun(ss: seq<Sys>, steps: seq<Step>, k: nat)
    requires |ss| == |steps| + 1 && k < |ss| && Good(ss[0])
    requires forall i :: 0 <= i < |steps| ==> Next(ss[i], steps[i], ss[i + 1])
    ensures Shape(ss[k].p) && NoDup(ss[k].p.free)
    ensures forall f :: 0 <= f < |ss[k].p.refs| ==> ss[k].p.refs[f] == |Refs(ss[k].p, f)|
    ensures forall f :: 0 <= f < |ss[k].p.refs| ==>
      (f in ss[k].p.free <==> ss[k].p.refs[f] == 0 && f !in ss[k].p.reserved && f !in ss[k].lost)
  {
    GoodInEveryRun(ss, steps, k);
    hide Unique, Clean;
  }

  lemma {:induction false} GoodInEveryRun(ss: seq<Sys>, steps: seq<Step>, k: nat)
    requires |ss| == |steps| + 1 && k < |ss| && Good(ss[0])
    requires forall i :: 0 <= i < |steps| ==> Next(ss[i], steps[i], ss[i + 1])
    ensures Good(ss[k])
  {
    hide Inv, Fits, Apply;
    if k > 0 {
      GoodInEveryRun(ss, steps, k - 1);
      assert Next(ss[k - 1], steps[k - 1], ss[k]);
      ApplyKeeps(ss[k - 1], steps[k - 1]);
    }
  }

  // No step touches the kernel's directory.
  lemma KernelDirStays(s: Sys, step: Step)
    requires Good(s) && Fits(s, step)
    ensures var t := Apply(s, step).s.p;
      t.kern == s.p.kern < |s.p.mem| == |t.mem| && t.mem[t.kern] == s.p.mem[s.p.kern]
  {
    hide InvHeld, Unique, Clean, FreeOk, Counted, EnvFree, ExactInsert,
      EntryWord, SendPage, SendExact, Refused, OneMapping;
    hide EnvPageAlloc, EnvPageMap, PageRemove, NewPage, InsertedLike, RemovedLike, Without;
    InvParts(s.p, s.lost, multiset{});
    KernelDirParts(s.p, s.lost);
    match step
    case SysPageAlloc(e, va, perm) =>
      if !BadAddress(va) && e in s.p.dirs {
        AllocKernel(s, e, va / PGSIZE, OrUP(perm));
      }
    case SysPageMap(src, srcva, dst, dstva, perm) =>
      if !BadAddress(srcva) && !BadAddress(dstva) && src in s.p.dirs && dst in s.p.dirs {
        MapKernel(s, src, srcva / PGSIZE, dst, dstva / PGSIZE, OrUP(perm));
      }
    case SysPageUnmap(e, va) =>
      if !BadAddress(va) && e in s.p.dirs {
        RemoveLaw(s.p, s.lost, multiset{}, e, va / PGSIZE);
        RemovedKernel(s.p, PageRemove(s.p, e, va / PGSIZE), e, va / PGSIZE);
      }
    case SysIpcSend(src, srcva, dst, dstva, perm, stray) =>
      if Sends(s, step) {
        SendKernel(s, src, srcva / PGSIZE, dst, dstva / PGSIZE, perm, stray);
      }
    case SetUpEnv(e) =>
      if e !in s.p.dirs {
        SetupLaw(s.p, s.lost, multiset{}, e);
      }
    case FreeEnv(e) =>
      if e in s.p.dirs {
        EnvFreeLaw(s.p, s.lost, multiset{}, e);
        FreedKernel(s.p, EnvFree(s.p, e), e);
      }
    case UserStore(e, va, w) =>
      if va < UTOP && e in s.p.dirs && HasW(PermOf(Pte(s.p, e, va / PGSIZE))) {
        MappedIsMappable(s.p, s.lost, multiset{}, e, va / PGSIZE);
      }
  }

  lemma KernelDirParts(p: Phys, lost: set<nat>)
    requires Inv(p, lost)
    ensures p.kern in p.reserved && p.kern !in p.free && Shape(p) && NotTable(p, p.kern)
  {
    InvParts(p, lost, multiset{});
  }

  // `q` has the kernel's directory of `p`.
  ghost predicate SameKernel(p: Phys, q: Phys)
    requires Shape(p)
  {
    q.kern == p.kern && |q.mem| == |p.mem| && q.mem[q.kern] == p.mem[p.kern]
  }

  lemma InsertedKernel(p: Phys, q: Phys, e: nat, f: nat, v: nat, w: Word)
    requires Shape(p) && e in p.dirs && v < UVPNS && InsertedLike(p, q, e, f, v, w)
    requires p.kern !in p.free && NotTable(p, p.kern)
    ensures SameKernel(p, q)
  {
    hide NotTable, RefTo;
  }

  lemma RemovedKernel(p: Phys, q: Phys, e: nat, v: nat)
    requires Shape(p) && e in p.dirs && v < UVPNS && RemovedLike(p, q, e, v) && NotTable(p, p.kern)
    ensures SameKernel(p, q)
  {
    hide NotTable, RefTo;
  }

  lemma FreedKernel(p: Phys, q: Phys, e: nat)
    requires Shape(p) && Without(p, q, All(e)) && NotTable(p, p.kern)
    ensures SameKernel(p, q)
  {
    hide NotTable, RefTo, In;
  }

  lemma AllocKernel(s: Sys, e: nat, v: nat, perm: nat)
    requires Good(s) && Shape(s.p) && e in s.p.dirs && v < UVPNS
    ensures SameKernel(s.p, EnvPageAlloc(s, e, v, perm).s.p)
  {
    hide InvHeld, Unique, Clean, FreeOk, Counted, InsertedLike, RefTo, EnvPageAlloc;
    KernelDirParts(s.p, s.lost);
    PageAllocLaw(s, e, v, perm);
    var o := EnvPageAlloc(s, e, v, perm);
    if o.err == 0 {
      InsertedKernel(s.p, o.s.p, e, s.p.free[0], v, MakeEntry(s.p.free[0], OrP(perm)));
    }
  }

  lemma MapKernel(s: Sys, src: nat, srcv: nat, dst: nat, dstv: nat, perm: Word)
    requires Good(s) && Shape(s.p) && src in s.p.dirs && dst in s.p.dirs && srcv < UVPNS && dstv < UVPNS
    ensures SameKernel(s.p, EnvPageMap(s, src, srcv, dst, dstv, perm).s.p)
  {
    hide InvHeld, Unique, Clean, FreeOk, Counted, InsertedLike, RefTo, EnvPageMap, ExactInsert, EntryWord;
    KernelDirParts(s.p, s.lost);
    PageMapLaw(s, src, srcv, dst, dstv, perm);
    var o := EnvPageMap(s, src, srcv, dst, dstv, perm);
    if o.err == 0 {
      var w := EntryWord(FrameOf(Pte(s.p, src, srcv)), perm);
      InsertedKernel(s.p, o.s.p, dst, FrameOf(w), dstv, w);
    }
  }

  lemma SendKernel(s: Sys, src: nat, srcv: nat, dst: nat, dstv: nat, perm: Word, stray: Word)
    requires Good(s) && Shape(s.p) && src in s.p.dirs && dst in s.p.dirs && srcv < UVPNS && dstv < UVPNS
    ensures SameKernel(s.p, SendPage(s, src, srcv, dst, dstv, perm, stray).s.p)
  {
    hide InvHeld, Unique, Clean, FreeOk, Counted, InsertedLike, RefTo, EnvPageMap, EnvPageAlloc, Refused, NewPage;
    PageAllocLaw(s, dst, dstv, OrUP(perm));
    AllocKernel(s, dst, dstv, OrUP(perm));
    var o := EnvPageAlloc(s, dst, dstv, OrUP(perm));
    if o.err == 0 {
      KernelDirParts(o.s.p, o.s.lost);
      DirsStay(s, dst, dstv, OrUP(perm));
      MapKernel(o.s, src, srcv, dst, dstv, OrUP(perm));
    }
  }

  lemma DirsStay(s: Sys, e: nat, v: nat, perm: nat)
    requires Good(s) && e in s.p.dirs && v < UVPNS
    ensures EnvPageAlloc(s, e, v, perm).s.p.dirs == s.p.dirs
  {
    hide InvHeld, EnvPageAlloc, Unique, Clean, RefTo;
    PageAllocLaw(s, e, v, perm);
  }

  /** In every state of every run each environment has the kernel's address space above UTOP,
      with the directory the kernel had at the start, and reads its own tables, and nothing
      else, through UVPT: the entry of page number `v` where its table is there. */
  lemma WindowInEveryRun(ss: seq<Sys>, steps: seq<Step>, k: nat, e: nat, v: nat, va: Word)
    requires |ss| == |steps| + 1 && k < |ss| && Good(ss[0]) && Shape(ss[0].p)
    requires forall i :: 0 <= i < |steps| ==> Next(ss[i], steps[i], ss[i + 1])
    requires e in ss[k].p.dirs && v < UVPNS
    ensures Shape(ss[k].p) && SameKernel(ss[0].p, ss[k].p)
    ensures Window.Walk(ss[k].p.mem, ss[k].p.dirs[e], Window.UVPT + 4 * v)
      == if Pde(ss[k].p, e, v / 1024) == 0 then Window.Faults else Window.Reads(Pte(ss[k].p, e, v), true, false)
    ensures UPDES <= va / Window.REGION && va / Window.REGION != UVPT_PDX ==>
      Window.Walk(ss[k].p.mem, ss[k].p.dirs[e], va) == Window.Walk(ss[k].p.mem, ss[k].p.kern, va)
  {
    GoodInEveryRun(ss, steps, k);
    KernelInEveryRun(ss, steps, k);
    InvParts(ss[k].p, ss[k].lost, multiset{});
    hide InvHeld, Unique, Clean, Window.Walk;
    Window.UvptReads(ss[k].p, e, v);
    if UPDES <= va / Window.REGION && va / Window.REGION != UVPT_PDX {
      Window.KernelHalfIsShared(ss[k].p, e, va);
    }
  }

  lemma {:induction false} KernelInEveryRun(ss: seq<Sys>, steps: seq<Step>, k: nat)
    requires |ss| == |steps| + 1 && k < |ss| && Good(ss[0]) && Shape(ss[0].p)
    requires forall i :: 0 <= i < |steps| ==> Next(ss[i], steps[i], ss[i + 1])
    ensures SameKernel(ss[0].p, ss[k].p)
  {
    hide Inv, Fits, Apply, Shape;
    if k > 0 {
      KernelInEveryRun(ss, steps, k - 1);
      GoodInEveryRun(ss, steps, k - 1);
      assert Next(ss[k - 1], steps[k - 1], ss[k]);
      KernelDirStays(ss[k - 1], steps[k - 1]);
    }
  }
}
