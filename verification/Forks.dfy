/** Runs of programs that fork and write.  Copy-on-write `fork` and the eager `fork_v0` both
    behave as if every environment had pages of its own. */
module Forks {
  import opened Paging
  import opened PageCalls
  import opened UserCalls
  import opened Cow
  import opened Eager
  import opened Supply
  import opened ForkSupply

  datatype Event =
    | Creates(env: nat)
    | Forks(parent: nat, child: nat, first: bool)
    | Stores(env: nat, vpn: nat, off: nat, w: Word)
    | Allocs(env: nat, vpn: nat, writable: bool)
    | Unmaps(env: nat, vpn: nat)
    | Ends(env: nat)

  // A page programs use: not a temporary address of the library, not the exception stack.
  predicate Usable(v: nat) { v < UVPNS && v != PFTEMP && v != UTEMP && v != XSTK }

  // Programs store to pages they may write.
  ghost predicate Allowed(s: Sys, ev: Event)
    requires Good(s)
  {
    match ev
    case Creates(_) => true
    case Forks(p, _, _) => p in s.p.dirs
    case Stores(e, v, off, _) =>
      Usable(v) && off < 1024 && Place(e, v) in Shown(s) && Writable(Shown(s)[Place(e, v)].perm)
    case Allocs(e, v, _) => e in s.p.dirs && Usable(v)
    case Unmaps(e, v) => e in s.p.dirs && Usable(v)
    case Ends(e) => e in s.p.dirs
  }

  // The reference: environments own their pages.
  ghost function Copies(a: imap<Place, Sight>, ev: Event): imap<Place, Sight> {
    match ev
    case Creates(_) => a
    case Forks(p, c, _) => Copy(a, p, c, 0)
    case Stores(e, v, off, w) =>
      if Place(e, v) in a && off < 1024 then a[Place(e, v) := Sight(a[Place(e, v)].page[off := w], true)] else a
    case Allocs(e, v, writable) => a[Place(e, v) := Sight(ZeroPage(), writable)]
    case Unmaps(e, v) => a - {Place(e, v)}
    case Ends(e) => imap x | x in a && x.env != e :: a[x]
  }

  // ---------------------------------------------------------------- one step

  ghost function CowStep(s: Sys, ev: Event): Option<Sys>
    requires CowInv(s)
  {
    if !Allowed(s, ev) then None
    else
      match ev
      case Creates(e) => NewEnv(s, e)
      case Forks(p, c, first) => Fork(s, p, c, first)
      case Stores(e, v, off, w) => Write(s, e, v, off, w)
      case Allocs(e, v, writable) => UserAlloc(s, e, v, writable)
      case Unmaps(e, v) => Some(UnmapCall(s, e, v))
      case Ends(e) => EndEnv(s, e)
  }

  ghost function EagerStep(s: Sys, ev: Event): Option<Sys>
    requires EagerInv(s)
  {
    if !Allowed(s, ev) then None
    else
      match ev
      case Creates(e) => NewEnv(s, e)
      case Forks(p, c, _) => ForkV0(s, p, c)
      case Stores(e, v, off, w) => Some(Fill(s, e, v, Data(s, e, v)[off := w]))
      case Allocs(e, v, writable) => UserAlloc(s, e, v, writable)
      case Unmaps(e, v) => Some(UnmapCall(s, e, v))
      case Ends(e) => EndEnv(s, e)
  }

  lemma ViewSet(m: imap<Place, Seen>, n: imap<Place, Seen>, a: Place)
    requires a in n && n == m[a := n[a]] && a.vpn != XSTK
    ensures View(n) == View(m)[a := Sight(n[a].page, Writable(n[a].perm))]
    ensures a in m ==> a in View(m) && View(m)[a] == Sight(m[a].page, Writable(m[a].perm))
  {
  }

  lemma ViewDrop(m: imap<Place, Seen>, a: Place, e: nat)
    ensures View(m - {a}) == View(m) - {a}
    ensures View(imap x | x in m && x.env != e :: m[x]) == imap x | x in View(m) && x.env != e :: View(m)[x]
  {
  }

  lemma CowStepLaw(s: Sys, ev: Event)
    requires CowInv(s) && CowStep(s, ev).Some?
    ensures CowInv(CowStep(s, ev).value)
    ensures View(Shown(CowStep(s, ev).value)) == Copies(View(Shown(s)), ev)
  {
    hide Good, Alone, Plain, Fork, NewEnv, Write, UserAlloc, UnmapCall, EndEnv, Shown, Copy, Data, View, PermAt, Pte;
    match ev {
      case Creates(e) => NewEnvEffect(s, e);
      case Forks(p, c, first) => ForkLaw(s, p, c, first);
      case Stores(e, v, off, w) =>
        SeenAt(s, Place(e, v));
        UnusedTemp(s, e);
        WriteEffect(s, e, v, off, w);
        ViewSet(Shown(s), Shown(Write(s, e, v, off, w).value), Place(e, v));
      case Allocs(e, v, writable) =>
        UserAllocEffect(s, e, v, writable, PFTEMP);
        ViewSet(Shown(s), Shown(UserAlloc(s, e, v, writable).value), Place(e, v));
      case Unmaps(e, v) =>
        UnmapKeeps(s, e, v, PFTEMP);
        ViewDrop(Shown(s), Place(e, v), e);
      case Ends(e) =>
        EndKeeps(s, e, PFTEMP);
        ViewDrop(Shown(s), Place(e, XSTK), e);
    }
  }

  lemma SeenAt(s: Sys, a: Place)
    requires Good(s) && a in Shown(s)
    ensures Page?(s, a.env, a.vpn) && Shape(s.p) && a.env in s.p.dirs && a.vpn < UVPNS
    ensures Shown(s)[a].page == Data(s, a.env, a.vpn) && Shown(s)[a].perm == PermAt(s, a.env, a.vpn)
  {
  }

  lemma UnusedTemp(s: Sys, e: nat)
    requires CowInv(s)
    ensures Place(e, PFTEMP) !in Shown(s)
  {
  }

  lemma UnmapKeeps(s: Sys, e: nat, v: nat, tmp: nat)
    requires Fair(s, tmp) && e in s.p.dirs && v < UVPNS
    ensures Fair(UnmapCall(s, e, v), tmp) && Shown(UnmapCall(s, e, v)) == Shown(s) - {Place(e, v)}
  {
    hide Good, UnmapCall, Shown;
    UnmapEffect(s, e, v);
  }

  lemma EndKeeps(s: Sys, e: nat, tmp: nat)
    requires Fair(s, tmp) && EndEnv(s, e).Some?
    ensures var t := EndEnv(s, e).value;
      Fair(t, tmp) && Shown(t) == imap a | a in Shown(s) && a.env != e :: Shown(s)[a]
  {
    hide Good, EndEnv, Shown;
    EndEnvEffect(s, e);
  }

  lemma EagerStoreLaw(s: Sys, e: nat, v: nat, off: nat, w: Word)
    requires EagerInv(s) && Allowed(s, Stores(e, v, off, w))
    ensures Page?(s, e, v) && EagerInv(Fill(s, e, v, Data(s, e, v)[off := w]))
    ensures View(Shown(Fill(s, e, v, Data(s, e, v)[off := w]))) == Copies(View(Shown(s)), Stores(e, v, off, w))
  {
    hide Good, Alone, Plain, NoCow, NoWritableIo, Fill, Shown, Data, View, PermAt, Pte;
    SeenAt(s, Place(e, v));
    var page := Data(s, e, v)[off := w];
    StoreKeeps(s, e, v, page);
    ViewSet(Shown(s), Shown(Fill(s, e, v, page)), Place(e, v));
  }

  lemma EagerAllocLaw(s: Sys, e: nat, v: nat, writable: bool)
    requires EagerInv(s) && Allowed(s, Allocs(e, v, writable)) && UserAlloc(s, e, v, writable).Some?
    ensures EagerInv(UserAlloc(s, e, v, writable).value)
    ensures View(Shown(UserAlloc(s, e, v, writable).value)) == Copies(View(Shown(s)), Allocs(e, v, writable))
  {
    hide Good, Alone, Plain, UserAlloc, Shown, View;
    UserAllocEffect(s, e, v, writable, UTEMP);
    ViewSet(Shown(s), Shown(UserAlloc(s, e, v, writable).value), Place(e, v));
  }

  lemma EagerStepLaw(s: Sys, ev: Event)
    requires EagerInv(s) && EagerStep(s, ev).Some?
    ensures EagerInv(EagerStep(s, ev).value)
    ensures View(Shown(EagerStep(s, ev).value)) == Copies(View(Shown(s)), ev)
  {
    hide Good, Alone, Plain, ForkV0, NewEnv, Fill, UserAlloc, UnmapCall, EndEnv, Shown, Copy, Data, View, PermAt, Pte;
    match ev {
      case Creates(e) => NewEnvEffect(s, e);
      case Forks(p, c, _) => ForkV0Law(s, p, c);
      case Stores(e, v, off, w) => EagerStoreLaw(s, e, v, off, w);
      case Allocs(e, v, writable) => EagerAllocLaw(s, e, v, writable);
      case Unmaps(e, v) =>
        UnmapKeeps(s, e, v, UTEMP);
        ViewDrop(Shown(s), Place(e, v), e);
      case Ends(e) =>
        EndKeeps(s, e, UTEMP);
        ViewDrop(Shown(s), Place(e, XSTK), e);
    }
  }

  lemma StoreKeeps(s: Sys, e: nat, v: nat, page: Page)
    requires EagerInv(s) && Page?(s, e, v) && Writable(PermAt(s, e, v))
    ensures var t, a := Fill(s, e, v, page), Place(e, v);
      && EagerInv(t) && a in Shown(s) && Data(s, e, v) == Shown(s)[a].page
      && Shown(t) == Shown(s)[a := Shown(s)[a].(page := page)]
  {
    hide Good, Fill, Shown, Pte, Data, Stored;
    ShownAt(s, e, v);
    FillEffect(s, e, v, page);
    AloneStored(Shown(s), Place(e, v), page);
  }

  // ---------------------------------------------------------------- whole runs

  ghost function CowRun(s: Sys, evs: seq<Event>): Option<Sys>
    requires CowInv(s)
    decreases |evs|
  {
    if evs == [] then Some(s)
    else
      var r := CowStep(s, evs[0]);
      if r.None? then None else CowStepLaw(s, evs[0]); CowRun(r.value, evs[1..])
  }

  ghost function EagerRun(s: Sys, evs: seq<Event>): Option<Sys>
    requires EagerInv(s)
    decreases |evs|
  {
    if evs == [] then Some(s)
    else
      var r := EagerStep(s, evs[0]);
      if r.None? then None else EagerStepLaw(s, evs[0]); EagerRun(r.value, evs[1..])
  }

  ghost function CopiesRun(a: imap<Place, Sight>, evs: seq<Event>): imap<Place, Sight>
    decreases |evs|
  {
    if evs == [] then a else CopiesRun(Copies(a, evs[0]), evs[1..])
  }

  // Copy-on-write: after any run every read gives what independent copies would give.
  lemma {:induction false} CowRefinesCopies(s: Sys, evs: seq<Event>)
    requires CowInv(s) && CowRun(s, evs).Some?
    ensures CowInv(CowRun(s, evs).value)
    ensures View(Shown(CowRun(s, evs).value)) == CopiesRun(View(Shown(s)), evs)
    decreases |evs|
  {
    hide CowInv, Good, CowStep, Copies, Shown, View;
    if evs != [] {
      CowStepLaw(s, evs[0]);
      CowRefinesCopies(CowStep(s, evs[0]).value, evs[1..]);
    }
  }

  lemma {:induction false} EagerRefinesCopies(s: Sys, evs: seq<Event>)
    requires EagerInv(s) && EagerRun(s, evs).Some?
    ensures EagerInv(EagerRun(s, evs).value)
    ensures View(Shown(EagerRun(s, evs).value)) == CopiesRun(View(Shown(s)), evs)
    decreases |evs|
  {
    hide EagerInv, Good, EagerStep, Copies, Shown, View;
    if evs != [] {
      EagerStepLaw(s, evs[0]);
      EagerRefinesCopies(EagerStep(s, evs[0]).value, evs[1..]);
    }
  }

  /** The fast form refines the eager form: started from states that look alike, the same
      run of forks, stores, allocations, unmappings and exits shows every environment the
      same pages, with the same right to write them. */
  lemma CowRefinesEager(s: Sys, t: Sys, evs: seq<Event>)
    requires CowInv(s) && EagerInv(t) && View(Shown(s)) == View(Shown(t))
    requires CowRun(s, evs).Some? && EagerRun(t, evs).Some?
    ensures CowInv(CowRun(s, evs).value) && EagerInv(EagerRun(t, evs).value)
    ensures View(Shown(CowRun(s, evs).value)) == View(Shown(EagerRun(t, evs).value))
  {
    hide CowInv, EagerInv, Good, CowRun, EagerRun, Shown, View;
    CowRefinesCopies(s, evs);
    EagerRefinesCopies(t, evs);
  }

  // Before the first environment is created both forms start from the same view.
  lemma BootIsFair(s: Sys)
    requires Good(s) && s.p.dirs == map[]
    ensures CowInv(s) && EagerInv(s) && View(Shown(s)) == imap[]
  {
    hide Good, Pte;
    assert Shown(s) == imap[];
  }

  // ---------------------------------------------------------------- when a run goes on

  // What a step under copy-on-write needs of slots, free frames, tables and counters.
  ghost predicate CowNeeds(s: Sys, ev: Event)
    requires CowInv(s) && Allowed(s, ev) && Shape(s.p)
  {
    match ev
    case Creates(e) => e !in s.p.dirs && s.p.free != []
    case Forks(parent, child, first) =>
      && child !in s.p.dirs && (first ==> |s.p.free| >= 1 + TableCost(s.p, parent, XSTK))
      && Prepared(s, parent, first).Some?
      && var s0 := Prepared(s, parent, first).value;
         && Shape(s0.p) && parent in s0.p.dirs && Room(s0.p, ByCow, parent, 0)
         && |s0.p.free| >= 2 + |ChildRegions(s0.p, ByCow, parent)|
    case Stores(e, v, _, _) => HasW(Shown(s)[Place(e, v)].perm) || |s.p.free| >= 1 + TableCost(s.p, e, PFTEMP)
    case Allocs(e, v, _) => |s.p.free| >= 1 + TableCost(s.p, e, v)
    case Unmaps(_, _) => true
    case Ends(_) => true
  }

  /** A step succeeds exactly when it has what it needs: a fork of pages that are copy-on-write
      already like any other. */
  lemma CowGoesOnIff(s: Sys, ev: Event)
    requires CowInv(s) && Shape(s.p)
    ensures CowStep(s, ev).Some? <==> Allowed(s, ev) && CowNeeds(s, ev)
  {
    hide Good, Alone, Plain, Fork, NewEnv, AllocCall, UnmapCall, EndEnv, Shown,
      Data, PermAt, Pte, Pde, Room, ChildRegions;
    hide PgFault, Prepared;
    if Allowed(s, ev) {
      match ev {
        case Creates(e) => NewEnvSucceedsIff(s, e);
        case Forks(parent, child, first) =>
          ForkSucceedsIff(s, parent, child, first);
          PreparedIff(s, parent, first);
        case Stores(e, v, off, w) =>
          SeenAt(s, Place(e, v));
          UnusedTemp(s, e);
          PrivateCopySucceedsIff(s, e, v, WRITE_FAULT);
        case Allocs(e, v, writable) =>
          ProperPerms();
          AllocSucceedsIff(s, e, v, if writable then PTE_PUW else PTE_PU);
        case Unmaps(_, _) =>
        case Ends(e) => EndsAlways(s, e);
      }
    }
  }

  lemma EndsAlways(s: Sys, e: nat)
    requires Good(s) && e in s.p.dirs
    ensures EndEnv(s, e).Some?
  {
  }

  // The same for the eager form.
  ghost predicate EagerNeeds(s: Sys, ev: Event)
    requires EagerInv(s) && Allowed(s, ev) && Shape(s.p)
  {
    match ev
    case Creates(e) => e !in s.p.dirs && s.p.free != []
    case Forks(parent, child, _) =>
      && child !in s.p.dirs && Room(s.p, ByCopy, parent, 0)
      && |s.p.free| >= 1 + |ChildRegions(s.p, ByCopy, parent)| + |Copied(s.p, ByCopy, parent, 0)|
           + if Copied(s.p, ByCopy, parent, 0) == {} then 0 else TableCost(s.p, parent, UTEMP)
    case Stores(_, _, _, _) => true
    case Allocs(e, v, _) => |s.p.free| >= 1 + TableCost(s.p, e, v)
    case Unmaps(_, _) => true
    case Ends(_) => true
  }

  lemma EagerGoesOnIff(s: Sys, ev: Event)
    requires EagerInv(s) && Shape(s.p)
    ensures EagerStep(s, ev).Some? <==> Allowed(s, ev) && EagerNeeds(s, ev)
  {
    hide Good, Alone, NoCow, NoWritableIo, ForkV0, NewEnv, AllocCall, UnmapCall, EndEnv, Data, PermAt, Pte, Pde, Room;
    hide ChildRegions, Copied, Fill, Shown;
    if Allowed(s, ev) {
      match ev {
        case Creates(e) => NewEnvSucceedsIff(s, e);
        case Forks(parent, child, _) =>
          ShownAt(s, parent, UTEMP);
          ForkV0SucceedsIff(s, parent, child);
        case Stores(_, _, _, _) =>
        case Allocs(e, v, writable) =>
          ProperPerms();
          AllocSucceedsIff(s, e, v, if writable then PTE_PUW else PTE_PU);
        case Unmaps(_, _) =>
        case Ends(e) => EndsAlways(s, e);
      }
    }
  }

  /** So a run of either form goes on by one more step exactly when that step has what it
      needs in the state reached. */
  lemma {:induction false} CowRunGoesOnIff(s: Sys, evs: seq<Event>, ev: Event)
    requires CowInv(s) && CowRun(s, evs).Some?
    ensures CowInv(CowRun(s, evs).value) && Shape(CowRun(s, evs).value.p)
    ensures CowRun(s, evs + [ev]).Some?
      <==> Allowed(CowRun(s, evs).value, ev) && CowNeeds(CowRun(s, evs).value, ev)
    decreases |evs|
  {
    if evs == [] {
      GoodShape(s);
      hide CowInv, CowStep, CowNeeds, Shape, Allowed;
      assert [] + [ev] == [ev] && [ev][1..] == [];
      CowGoesOnIff(s, ev);
      if CowStep(s, ev).Some? {
        CowStepLaw(s, ev);
        assert CowRun(CowStep(s, ev).value, [ev][1..]).Some?;
      }
    } else {
      hide CowInv, CowStep, CowNeeds, Shape, Allowed;
      assert (evs + [ev])[0] == evs[0] && (evs + [ev])[1..] == evs[1..] + [ev];
      CowStepLaw(s, evs[0]);
      CowRunGoesOnIff(CowStep(s, evs[0]).value, evs[1..], ev);
    }
  }

  lemma GoodShape(s: Sys)
    requires Good(s)
    ensures Shape(s.p)
  {
  }

  // ---------------------------------------------------------------- where they differ

  // The handler's guard never fires: a store to a read-only page gets a writable copy.
  lemma ReadOnlyBecomesWritable(s: Sys, e: nat, v: nat, err: bv32)
    requires CowInv(s) && Place(e, v) in Shown(s) && !Writable(Shown(s)[Place(e, v)].perm)
    requires Page?(s, e, v) && v != PFTEMP && Place(e, PFTEMP) !in Shown(s)
    requires PgFault(s, e, v, err).Some?
    ensures var t := PgFault(s, e, v, err).value;
      Good(t) && Place(e, v) in Shown(t) && Writable(Shown(t)[Place(e, v)].perm)
  {
    hide Good, PgFault, Shown;
    PgFaultEffect(s, e, v, err);
  }

  /** After any run of copy-on-write forks no two environments see each other's stores,
      memory-mapped I/O included; `Eager.ForkV0IndependentIff` says when fork_v0 gives that. */
  lemma CowRunIsIndependent(s: Sys, evs: seq<Event>, e: nat, f: nat)
    requires CowInv(s) && CowRun(s, evs).Some? && e != f
    ensures Good(CowRun(s, evs).value) && Independent(Shown(CowRun(s, evs).value), e, f)
  {
    CowRefinesCopies(s, evs);
    hide CowRun, Good, Shown, Plain, Independent;
    AloneIsIndependent(Shown(CowRun(s, evs).value), e, f);
  }
}
