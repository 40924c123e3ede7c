/** Creating and tearing down an address space (env_setup_vm and env_free of
    sched/kern/env.c). */
module AddressSpace {
  import opened Paging
  import opened PagingLaws
  import opened PageOps

  // ---------------------------------------------------------------- env_setup_vm

  datatype SetUp = NoDir | SetUp(p: Phys)

  // A zeroed frame becomes the directory of `e`: a copy of the kernel's directory whose
  // UVPT entry maps the directory itself, readable by the user.
  ghost function EnvSetupVm(p: Phys, e: nat): SetUp
    requires Shape(p) && e !in p.dirs
  {
    match PageAlloc(p, true)
    case NoFrame => NoDir
    case Frame(p1, f) => SetUp(AddDir(p1, e, f))
  }

  ghost function AddDir(p: Phys, e: nat, f: nat): Phys
    requires Shape(p) && f < |p.refs|
  {
    var page: Page := p.mem[p.kern][UVPT_PDX := MakeEntry(f, 5)];
    IncRef(p, f).(mem := p.mem[f := page], dirs := p.dirs[e := f])
  }

  lemma AddDirEffect(p: Phys, e: nat, f: nat)
    requires Shape(p) && Clean(p) && e !in p.dirs && f < |p.refs| && f != p.kern
    requires forall r :: !RefTo(p, r, f)
    ensures var q := AddDir(p, e, f);
      && Shape(q) && Clean(q) && OneMore(p, q, EnvRef(e), f)
      && (forall v :: 0 <= v < UVPNS ==> Pte(q, e, v) == 0)
      && (forall e1, v :: e1 in p.dirs && 0 <= v < UVPNS ==> Pte(q, e1, v) == Pte(p, e1, v))
  {
    var q := AddDir(p, e, f);
    forall e1 | e1 in p.dirs
      ensures p.dirs[e1] != f
    {
      assert RefTo(p, EnvRef(e1), p.dirs[e1]);
    }
    assert forall i :: 0 <= i < UPDES ==> q.mem[f][i] == 0;
    assert forall e1, i :: e1 in p.dirs && 0 <= i < UPDES ==> q.mem[q.dirs[e1]][i] == Pde(p, e1, i);
    forall e1, v | e1 in p.dirs && 0 <= v < UVPNS
      ensures Pte(q, e1, v) == Pte(p, e1, v)
    {
      if Pde(p, e1, v / 1024) != 0 {
        assert RefTo(p, PdeRef(e1, v / 1024), FrameOf(Pde(p, e1, v / 1024)));
      }
    }
  }

  // A new address space maps nothing below UTOP and disturbs no other.
  lemma SetupLaw(p: Phys, flight: set<nat>, held: multiset<nat>, e: nat)
    requires InvHeld(p, flight, held) && e !in p.dirs
    ensures match EnvSetupVm(p, e)
      case NoDir => p.free == []
      case SetUp(q) =>
        && InvHeld(q, flight, held) && p.free != [] && q.dirs == p.dirs[e := p.free[0]]
        && (forall v :: 0 <= v < UVPNS ==> Pte(q, e, v) == 0)
        && (forall e1, v :: e1 in p.dirs && 0 <= v < UVPNS ==> Pte(q, e1, v) == Pte(p, e1, v))
        && (forall g :: 0 <= g < |p.mem| && g != p.free[0] ==> q.mem[g] == p.mem[g])
        && (forall g :: g in q.free ==> g in p.free)
  {
    hide InvHeld, Unique, Clean, Counted, FreeOk;
    InvParts(p, flight, held);
    if p.free != [] {
      AllocKeeps(p, flight, held, true);
      var a := PageAlloc(p, true);
      AddDirKeeps(a.p, flight + {a.f}, held, e, a.f);
      assert flight + {a.f} - {a.f} == flight;
      assert forall k :: 0 <= k < |a.p.free| ==> a.p.free[k] == p.free[k + 1];
      assert forall g :: g in a.p.free ==> g in p.free;
    }
  }

  lemma FlightParts(p: Phys, flight: set<nat>, held: multiset<nat>, f: nat)
    requires InvHeld(p, flight, held) && f in flight
    ensures Shape(p) && FreeOk(p, flight) && Counted(p, held)
    ensures f < |p.refs| && p.refs[f] == 0 && f != p.kern
  {
  }

  lemma AddDirFree(p: Phys, e: nat, f: nat, flight: set<nat>)
    requires Shape(p) && FreeOk(p, flight) && f in flight
    ensures |AddDir(p, e, f).refs| == |AddDir(p, e, f).mem| == |p.refs|
    ensures Shape(AddDir(p, e, f)) ==> FreeOk(AddDir(p, e, f), flight - {f})
    ensures var q := AddDir(p, e, f);
      && q.refs == p.refs[f := (p.refs[f] + 1) % 0x1_0000] && q.free == p.free
      && q.reserved == p.reserved && q.kern == p.kern && q.dirs == p.dirs[e := f]
  {
  }

  lemma AddDirKeeps(p: Phys, flight: set<nat>, held: multiset<nat>, e: nat, f: nat)
    requires InvHeld(p, flight, held) && e !in p.dirs && f in flight && f !in held
    ensures InvHeld(AddDir(p, e, f), flight - {f}, held)
    ensures forall v :: 0 <= v < UVPNS ==> Pte(AddDir(p, e, f), e, v) == 0
    ensures forall e1, v :: e1 in p.dirs && 0 <= v < UVPNS ==> Pte(AddDir(p, e, f), e1, v) == Pte(p, e1, v)
  {
    FlightParts(p, flight, held, f);
    hide Pde, Pte, RefTo, Unique, Clean, FreeOk, AddDir, MakeEntry;
    var q := AddDir(p, e, f);
    AddDirFree(p, e, f, flight);
    Unreferenced(p, flight, held, f);
    InvParts(p, flight, held);
    AddDirEffect(p, e, f);
    CountMore(p, q, EnvRef(e), f);
    assert Counted(q, held);
    hide Counted, OneMore;
    UniqueMore(p, q, EnvRef(e), f);
  }

  // ---------------------------------------------------------------- env_free

  // A state the kernel can be in.
  ghost predicate Sound(p: Phys) {
    exists flight, held :: InvHeld(p, flight, held)
  }

  lemma SoundParts(p: Phys)
    requires Sound(p)
    ensures Shape(p) && Unique(p) && Clean(p) && forall r :: !RefTo(p, r, p.kern)
  {
    hide InvHeld;
    var flight, held :| InvHeld(p, flight, held);
    InvParts(p, flight, held);
  }

  lemma RemoveSound(p: Phys, e: nat, v: nat)
    requires Sound(p) && Shape(p) && e in p.dirs && v < UVPNS && FrameOf(Pte(p, e, v)) < |p.mem|
    ensures Sound(PageRemove(p, e, v)) && PageRemove(p, e, v).dirs == p.dirs
  {
    hide InvHeld, PageRemove;
    var flight, held :| InvHeld(p, flight, held);
    RemoveLaw(p, flight, held, e, v);
  }

  // The page number of PGADDR(i, j, 0).
  function Vpn(i: nat, j: nat): (v: nat)
    requires i < UPDES && j < 1024
    ensures v / 1024 == i && v % 1024 == j && v < UVPNS
  {
    i * 1024 + j
  }

  // Unmap what entries j.. of table `i` map.
  ghost function FreePtes(p: Phys, e: nat, i: nat, j: nat): (q: Phys)
    requires Sound(p) && e in p.dirs && i < UPDES && j <= 1024
    ensures Sound(q) && q.dirs == p.dirs
    decreases 1024 - j
  {
    if j == 1024 then p
    else
      SoundParts(p); RemoveSound(p, e, Vpn(i, j));
      FreePtes(if HasP(PermOf(Pte(p, e, Vpn(i, j)))) then PageRemove(p, e, Vpn(i, j)) else p, e, i, j + 1)
  }

  // Clear directory entry `i` and drop the table it pointed to.
  ghost function DropTable(p: Phys, e: nat, i: nat): Phys
    requires Shape(p) && e in p.dirs && i < UPDES
  {
    DecRef(SetPde(p, e, i, 0), FrameOf(Pde(p, e, i)))
  }

  /** References env_free drops: one entry; entries `j`.. of table `i`; one directory entry;
      tables `i`.. with their directory entries; all there is of an environment. */
  datatype Part = Entry(env: nat, v: nat) | Entries(env: nat, i: nat, j: nat) | Table(env: nat, i: nat)
                | Slot(env: nat, i: nat)                | Tables(env: nat, i: nat) | Dir(env: nat) | All(env: nat)

  ghost predicate In(part: Part, r: Ref) {
    r.env == part.env &&
    match part
    case Entry(_, v) => r == PteRef(r.env, v)
    case Entries(_, i, j) => r.PteRef? && r.vpn / 1024 == i && j <= r.vpn % 1024
    case Table(_, i) => r == PdeRef(r.env, i)
    case Slot(_, i) => r == PdeRef(r.env, i) || (r.PteRef? && r.vpn / 1024 == i)
    case Tables(_, i) => (r.PdeRef? && i <= r.pdx) || (r.PteRef? && i <= r.vpn / 1024)
    case Dir(_) => r.EnvRef?
    case All(_) => true
  }

  // `q` has the references of `p` outside `part`, its mappings and its data frames.
  ghost predicate Without(p: Phys, q: Phys, part: Part)
    requires Shape(p)
  {
    && Shape(q) && |q.mem| == |p.mem| && q.reserved == p.reserved && q.kern == p.kern
    && (forall e :: e in q.dirs ==> e in p.dirs && q.dirs[e] == p.dirs[e])
    && (forall e, v :: e in q.dirs && 0 <= v < UVPNS && !In(part, PteRef(e, v)) ==> Pte(q, e, v) == Pte(p, e, v))
    && (forall r, f :: RefTo(q, r, f) <==> RefTo(p, r, f) && !In(part, r))
    && (forall f :: 0 <= f < |p.mem| && NotTable(p, f) ==> q.mem[f] == p.mem[f])
  }

  lemma FreePtesStep(p: Phys, e: nat, i: nat, j: nat)
    requires Sound(p) && e in p.dirs && i < UPDES && j < 1024
    ensures Shape(p) && FrameOf(Pte(p, e, Vpn(i, j))) < |p.mem|
    ensures Sound(PageRemove(p, e, Vpn(i, j))) && PageRemove(p, e, Vpn(i, j)).dirs == p.dirs
    ensures FreePtes(p, e, i, j) == FreePtes(PageRemove(p, e, Vpn(i, j)), e, i, j + 1)
  {
    SoundParts(p);
    PresentIsMapped(p, e, Vpn(i, j));
    hide Pde, Pte, Unique, Clean, RefTo, PageRemove, Sound, HasP, Vpn, FrameOf, PermOf;
    RemoveSound(p, e, Vpn(i, j));
  }

  lemma PresentIsMapped(p: Phys, e: nat, v: nat)
    requires Shape(p) && Clean(p) && e in p.dirs && v < UVPNS
    ensures HasP(PermOf(Pte(p, e, v))) <==> Pte(p, e, v) != 0
    ensures FrameOf(Pte(p, e, v)) < |p.mem|
    ensures Pte(p, e, v) == 0 ==> PageRemove(p, e, v) == p
  {
  }

  lemma {:induction false} FreePtesLaw(p: Phys, flight: set<nat>, held: multiset<nat>, e: nat, i: nat, j: nat)
    requires InvHeld(p, flight, held) && e in p.dirs && i < UPDES && j <= 1024
    ensures InvHeld(FreePtes(p, e, i, j), flight, held) && Without(p, FreePtes(p, e, i, j), Entries(e, i, j))
    decreases 1024 - j
  {
    hide InvHeld, RemovedLike, Unique, Clean, Without, PageRemove, RefTo, In, HasP, FrameOf, FreePtes, Vpn;
    InvParts(p, flight, held);
    if j == 1024 {
      NoEntries(p, e, i);
    } else {
      hide Pde, Pte;
      var v := Vpn(i, j);
      RemoveLaw(p, flight, held, e, v);
      FreePtesStep(p, e, i, j);
      var p1 := PageRemove(p, e, v);
      RemovedWithout(p, p1, e, v);
      FreePtesLaw(p1, flight, held, e, i, j + 1);
      EntriesSplit(e, i, j, v);
      WithoutBoth(p, p1, FreePtes(p1, e, i, j + 1), Entry(e, v), Entries(e, i, j + 1), Entries(e, i, j));
    }
  }

  lemma EntriesSplit(e: nat, i: nat, j: nat, v: nat)
    requires v / 1024 == i && v % 1024 == j
    ensures forall r :: In(Entries(e, i, j), r) <==> In(Entry(e, v), r) || In(Entries(e, i, j + 1), r)
  {
  }

  lemma NoEntries(p: Phys, e: nat, i: nat)
    requires Shape(p) && Sound(p) && e in p.dirs && i < UPDES
    ensures FreePtes(p, e, i, 1024) == p && Without(p, p, Entries(e, i, 1024))
  {
    hide Sound;
  }

  lemma RemovedWithout(p: Phys, q: Phys, e: nat, v: nat)
    requires Shape(p) && e in p.dirs && v < UVPNS && RemovedLike(p, q, e, v)
    ensures Without(p, q, Entry(e, v)) && q.dirs == p.dirs
  {
  }

  lemma WithoutBoth(p: Phys, s: Phys, q: Phys, first: Part, second: Part, both: Part)
    requires Shape(p) && Without(p, s, first) && Without(s, q, second)
    requires forall r :: In(both, r) <==> In(first, r) || In(second, r)
    ensures Without(p, q, both)
  {
    hide In;
    forall f | 0 <= f < |p.mem| && NotTable(p, f)
      ensures q.mem[f] == p.mem[f]
    {
      assert NotTable(s, f);
    }
  }

  // ---------------------------------------------------------------- tables

  lemma SetPdeEffect(p: Phys, e: nat, i: nat)
    requires Shape(p) && Unique(p) && Clean(p) && e in p.dirs && i < UPDES && Pde(p, e, i) != 0
    requires forall r :: !RefTo(p, r, p.kern)
    requires forall r, f :: RefTo(p, r, f) ==> !In(Entries(e, i, 0), r)
    ensures var q := SetPde(p, e, i, 0);
      && Shape(q) && Clean(q) && OneMore(q, p, PdeRef(e, i), FrameOf(Pde(p, e, i)))
      && (forall e1, v :: e1 in p.dirs && 0 <= v < UVPNS ==> Pte(q, e1, v) == Pte(p, e1, v))
      && (forall f :: 0 <= f < |p.mem| && NotTable(p, f) ==> q.mem[f] == p.mem[f])
  {
    var q := SetPde(p, e, i, 0);
    var d := p.dirs[e];
    assert RefTo(p, EnvRef(e), d);
    assert d != p.kern;
    forall e1, i1 | e1 in p.dirs && 0 <= i1 < UPDES
      ensures q.mem[p.dirs[e1]][i1] == if e1 == e && i1 == i then 0 else Pde(p, e1, i1)
    {
      assert RefTo(p, EnvRef(e1), p.dirs[e1]);
    }
    forall e1, v | e1 in p.dirs && 0 <= v < UVPNS
      ensures Pte(q, e1, v) == Pte(p, e1, v)
    {
      if e1 == e && v / 1024 == i {
        assert !RefTo(p, PteRef(e, v), FrameOf(Pte(p, e, v)));
      } else if Pde(p, e1, v / 1024) != 0 {
        assert RefTo(p, PdeRef(e1, v / 1024), FrameOf(Pde(p, e1, v / 1024)));
        assert FrameOf(Pde(p, e1, v / 1024)) != d;
      }
    }
    assert RefTo(p, PdeRef(e, i), FrameOf(Pde(p, e, i)));
    hide Unique;
  }

  // With the directory entry cleared the kernel holds the reference to the table.
  lemma EntryCleared(p: Phys, flight: set<nat>, held: multiset<nat>, e: nat, i: nat)
    requires InvHeld(p, flight, held) && e in p.dirs && i < UPDES && Pde(p, e, i) != 0
    requires forall r, f :: RefTo(p, r, f) ==> !In(Entries(e, i, 0), r)
    ensures var s, t := SetPde(p, e, i, 0), FrameOf(Pde(p, e, i));
      && InvHeld(s, flight, held + multiset{t}) && Shape(s) && OneMore(s, p, PdeRef(e, i), t) && t < |p.refs|
      && (forall e1, v :: e1 in p.dirs && 0 <= v < UVPNS ==> Pte(s, e1, v) == Pte(p, e1, v))
      && (forall f :: 0 <= f < |p.mem| && NotTable(p, f) ==> s.mem[f] == p.mem[f])
  {
    assert FrameOf(Pde(p, e, i)) < |p.refs|;
    hide Unique, Clean, Counted, Pde, Pte, RefTo, In;
    InvParts(p, flight, held);
    var s, r0, t := SetPde(p, e, i, 0), PdeRef(e, i), FrameOf(Pde(p, e, i));
    SetPdeEffect(p, e, i);
    TableAlone(p, s, r0, t);
    UniqueFewer(p, s, r0, t);
    CountedFewer(p, s, held, r0, t);
  }

  lemma DropTableLaw(p: Phys, flight: set<nat>, held: multiset<nat>, e: nat, i: nat)
    requires InvHeld(p, flight, held) && e in p.dirs && i < UPDES && Pde(p, e, i) != 0
    requires forall r, f :: RefTo(p, r, f) ==> !In(Entries(e, i, 0), r)
    ensures InvHeld(DropTable(p, e, i), flight, held) && Without(p, DropTable(p, e, i), Table(e, i))
    ensures DropTable(p, e, i).dirs == p.dirs
  {
    hide InvHeld, Without, OneMore, Pte, RefTo, In, Unique, Clean;
    InvParts(p, flight, held);
    EntryCleared(p, flight, held, e, i);
    var s, t := SetPde(p, e, i, 0), FrameOf(Pde(p, e, i));
    DecKeeps(s, flight, held + multiset{t}, t);
    assert held + multiset{t} - multiset{t} == held;
    InvParts(DropTable(p, e, i), flight, held);
    DroppedWithout(p, s, e, i);
  }

  lemma TableAlone(p: Phys, q: Phys, r0: Ref, f0: nat)
    requires Shape(p) && Shape(q) && Unique(p) && OneMore(q, p, r0, f0) && !r0.PteRef?
    ensures forall r :: !RefTo(q, r, f0)
  {
    assert RefTo(p, r0, f0);
  }

  lemma DroppedWithout(p: Phys, s: Phys, e: nat, i: nat)
    requires Shape(p) && Shape(s) && e in p.dirs && i < UPDES && s == SetPde(p, e, i, 0)
    requires OneMore(s, p, PdeRef(e, i), FrameOf(Pde(p, e, i))) && FrameOf(Pde(p, e, i)) < |p.refs|
    requires Shape(DropTable(p, e, i))
    requires forall e1, v :: e1 in p.dirs && 0 <= v < UVPNS ==> Pte(s, e1, v) == Pte(p, e1, v)
    requires forall f :: 0 <= f < |p.mem| && NotTable(p, f) ==> s.mem[f] == p.mem[f]
    ensures Without(p, DropTable(p, e, i), Table(e, i))
  {
    var q := DropTable(p, e, i);
    assert SameTables(s, q);
    SameKeeps(s, q);
    hide Unique, Clean;
  }

  lemma FreeTableSound(p: Phys, e: nat, i: nat)
    requires Sound(p) && e in p.dirs && i < UPDES && Shape(p) && Pde(p, e, i) != 0
    ensures Shape(FreePtes(p, e, i, 0)) && Sound(DropTable(FreePtes(p, e, i, 0), e, i))
  {
    hide InvHeld, DropTable;
    var flight, held :| InvHeld(p, flight, held);
    FreeTableLaw(p, flight, held, e, i);
  }

  // One turn of the outer loop: unmap everything in table `i`, then drop the table.
  lemma FreeTableLaw(p: Phys, flight: set<nat>, held: multiset<nat>, e: nat, i: nat)
    requires InvHeld(p, flight, held) && e in p.dirs && i < UPDES && Pde(p, e, i) != 0
    ensures Sound(p) && Shape(FreePtes(p, e, i, 0))
    ensures var q := DropTable(FreePtes(p, e, i, 0), e, i);
      InvHeld(q, flight, held) && q.dirs == p.dirs && Without(p, q, Slot(e, i))
  {
    hide InvHeld, DropTable, Without;
    InvParts(p, flight, held);
    var s := FreePtes(p, e, i, 0);
    FreePtesLaw(p, flight, held, e, i, 0);
    InvParts(s, flight, held);
    EntriesGone(p, s, e, i);
    DropTableLaw(s, flight, held, e, i);
    WithoutBoth(p, s, DropTable(s, e, i), Entries(e, i, 0), Table(e, i), Slot(e, i));
  }

  lemma EntriesGone(p: Phys, s: Phys, e: nat, i: nat)
    requires Shape(p) && e in p.dirs && i < UPDES && Without(p, s, Entries(e, i, 0)) && s.dirs == p.dirs
    requires Pde(p, e, i) != 0
    ensures Shape(s) && Pde(s, e, i) != 0
    ensures forall r, f :: RefTo(s, r, f) ==> !In(Entries(e, i, 0), r)
  {
    assert RefTo(p, PdeRef(e, i), FrameOf(Pde(p, e, i)));
    assert RefTo(s, PdeRef(e, i), FrameOf(Pde(p, e, i)));
  }

  // The outer loop of env_free from directory entry `i` on.
  ghost function FreeTables(p: Phys, e: nat, i: nat): (q: Phys)
    requires Sound(p) && e in p.dirs && i <= UPDES
    ensures Sound(q) && q.dirs == p.dirs
    decreases UPDES - i
  {
    SoundParts(p);
    if i == UPDES then p
    else if !HasP(PermOf(Pde(p, e, i))) then FreeTables(p, e, i + 1)
    else FreeTableSound(p, e, i); FreeTables(DropTable(FreePtes(p, e, i, 0), e, i), e, i + 1)
  }

  lemma {:induction false} FreeTablesLaw(p: Phys, flight: set<nat>, held: multiset<nat>, e: nat, i: nat)
    requires InvHeld(p, flight, held) && e in p.dirs && i <= UPDES
    ensures InvHeld(FreeTables(p, e, i), flight, held) && Without(p, FreeTables(p, e, i), Tables(e, i))
    decreases UPDES - i
  {
    hide InvHeld, DropTable, Without, Unique, Clean, RefTo, FreePtes;
    InvParts(p, flight, held);
    TablePresent(p, e, i);
    if i == UPDES {
      NoTables(p, e, i);
    } else if Pde(p, e, i) == 0 {
      FreeTablesLaw(p, flight, held, e, i + 1);
      NoTables(p, e, i);
      WithoutBoth(p, p, FreeTables(p, e, i + 1), Slot(e, i), Tables(e, i + 1), Tables(e, i));
    } else {
      FreeTableLaw(p, flight, held, e, i);
      var s := DropTable(FreePtes(p, e, i, 0), e, i);
      FreeTablesLaw(s, flight, held, e, i + 1);
      WithoutBoth(p, s, FreeTables(s, e, i + 1), Slot(e, i), Tables(e, i + 1), Tables(e, i));
    }
  }

  lemma TablePresent(p: Phys, e: nat, i: nat)
    requires Shape(p) && Clean(p) && e in p.dirs && i <= UPDES
    ensures i < UPDES ==> (HasP(PermOf(Pde(p, e, i))) <==> Pde(p, e, i) != 0)
  {
  }

  lemma NoTables(p: Phys, e: nat, i: nat)
    requires Shape(p) && e in p.dirs && i <= UPDES && (i < UPDES ==> Pde(p, e, i) == 0)
    ensures i == UPDES ==> Without(p, p, Tables(e, i))
    ensures i < UPDES ==> Without(p, p, Slot(e, i))
  {
  }

  // ---------------------------------------------------------------- the directory

  ghost function EnvFree(p: Phys, e: nat): Phys
    requires Sound(p) && e in p.dirs
  {
    SoundParts(p);
    DropDir(FreeTables(p, e, 0), e)
  }

  // e->env_pgdir = 0 and page_decref of the directory
  ghost function DropDir(p: Phys, e: nat): Phys
    requires e in p.dirs && p.dirs[e] < |p.refs|
  {
    DecRef(p.(dirs := p.dirs - {e}), p.dirs[e])
  }

  lemma DropDirLaw(p: Phys, flight: set<nat>, held: multiset<nat>, e: nat)
    requires InvHeld(p, flight, held) && e in p.dirs
    requires forall r, f :: RefTo(p, r, f) ==> !In(Tables(e, 0), r)
    ensures InvHeld(DropDir(p, e), flight, held) && Without(p, DropDir(p, e), Dir(e))
  {
    hide Unique, Counted, RefTo, In;
    InvParts(p, flight, held);
    var s, d := p.(dirs := p.dirs - {e}), p.dirs[e];
    DirRefs(p, s, e);
    hide Clean, Pde, Pte;
    TableAlone(p, s, EnvRef(e), d);
    UniqueFewer(p, s, EnvRef(e), d);
    CountedFewer(p, s, held, EnvRef(e), d);
    DecKeeps(s, flight, held + multiset{d}, d);
    assert held + multiset{d} - multiset{d} == held;
    hide InvHeld;
    DirWithout(p, s, DropDir(p, e), e);
  }

  lemma DirRefs(p: Phys, s: Phys, e: nat)
    requires Shape(p) && Clean(p) && e in p.dirs && s == p.(dirs := p.dirs - {e})
    requires forall r, f :: RefTo(p, r, f) ==> !In(Tables(e, 0), r)
    ensures Shape(s) && Clean(s)
    ensures OneMore(s, p, EnvRef(e), p.dirs[e])
  {
    assert forall e1, i :: e1 in s.dirs && 0 <= i < UPDES ==> Pde(s, e1, i) == Pde(p, e1, i);
    assert forall e1, v :: e1 in s.dirs && 0 <= v < UVPNS ==> Pte(s, e1, v) == Pte(p, e1, v);
    assert RefTo(p, EnvRef(e), p.dirs[e]);
    var part := Tables(e, 0);
    forall r, f
      ensures RefTo(p, r, f) <==> RefTo(s, r, f) || (r == EnvRef(e) && f == p.dirs[e])
    {
      assert RefTo(p, r, f) && r.env == e ==> r.EnvRef? || In(part, r);
    }
  }

  lemma DirWithout(p: Phys, s: Phys, q: Phys, e: nat)
    requires Shape(p) && e in p.dirs && s == p.(dirs := p.dirs - {e}) && Shape(s)
    requires Shape(q) && q == DropDir(p, e) && OneMore(s, p, EnvRef(e), p.dirs[e])
    ensures Without(p, q, Dir(e))
  {
    assert SameTables(s, q);
    SameKeeps(s, q);
    hide Unique, Clean;
  }

  lemma EnvFreeLaw(p: Phys, flight: set<nat>, held: multiset<nat>, e: nat)
    requires InvHeld(p, flight, held) && e in p.dirs
    ensures InvHeld(EnvFree(p, e), flight, held) && EnvFree(p, e).dirs == p.dirs - {e}
    ensures Without(p, EnvFree(p, e), All(e))
  {
    hide InvHeld, Without, RefTo, FreeTables, Unique, Clean;
    InvParts(p, flight, held);
    FreeTablesLaw(p, flight, held, e, 0);
    var s := FreeTables(p, e, 0);
    InvParts(s, flight, held);
    TablesGone(p, s, e);
    DropDirLaw(s, flight, held, e);
    forall r: Ref
      ensures In(All(e), r) <==> In(Tables(e, 0), r) || In(Dir(e), r)
    {
    }
    WithoutBoth(p, s, DropDir(s, e), Tables(e, 0), Dir(e), All(e));
  }

  lemma TablesGone(p: Phys, s: Phys, e: nat)
    requires Shape(p) && Without(p, s, Tables(e, 0))
    ensures Shape(s)
    ensures forall r, f :: RefTo(s, r, f) ==> !In(Tables(e, 0), r)
  {
  }

  // The references to frame `f` that environment `e` holds.
  ghost function OwnRefs(p: Phys, e: nat, f: nat): set<Ref>
    requires Shape(p)
  {
    set r | r in Refs(p, f) && r.env == e
  }

  // Each count dropped by the references `e` held, exactly the frames only `e` referenced
  // joined the free list, and no other address space changed.
  ghost predicate Reclaimed(p: Phys, q: Phys, e: nat)
    requires Shape(p)
  {
    && Shape(q) && |q.refs| == |p.refs| && q.dirs == p.dirs - {e}
    && (forall f :: 0 <= f < |p.refs| ==> q.refs[f] == p.refs[f] - |OwnRefs(p, e, f)|)
    && (forall f :: 0 <= f < |p.refs| ==>
          (f in q.free <==> f in p.free || (OwnRefs(p, e, f) != {} && OwnRefs(p, e, f) == Refs(p, f))))
    && (forall e1 :: e1 in q.dirs ==> Flat(q, e1) == Flat(p, e1))
    && (forall f :: 0 <= f < |p.mem| && NotTable(p, f) ==> q.mem[f] == p.mem[f])
  }

  // env_free reclaims everything the environment held, and nothing else.
  lemma EnvFreeReclaims(p: Phys, flight: set<nat>, e: nat)
    requires Inv(p, flight) && e in p.dirs
    ensures Sound(p) && Shape(p)
    ensures Inv(EnvFree(p, e), flight) && Reclaimed(p, EnvFree(p, e), e)
  {
    hide Unique, Clean, RefTo, EnvFree, Flat;
    EnvFreeLaw(p, flight, multiset{}, e);
    var q := EnvFree(p, e);
    forall f | 0 <= f < |p.refs|
      ensures q.refs[f] == p.refs[f] - |OwnRefs(p, e, f)|
      ensures f in q.free <==> f in p.free || (OwnRefs(p, e, f) != {} && OwnRefs(p, e, f) == Refs(p, f))
    {
      OwnCount(p, q, e, f);
    }
    forall e1 | e1 in q.dirs
      ensures Flat(q, e1) == Flat(p, e1)
    {
      OtherFlat(p, q, e, e1);
    }
  }

  lemma OtherFlat(p: Phys, q: Phys, e: nat, e1: nat)
    requires Shape(p) && Without(p, q, All(e)) && e1 in q.dirs && e1 != e
    ensures Flat(q, e1) == Flat(p, e1)
  {
    assert forall v :: 0 <= v < UVPNS ==> !In(All(e), PteRef(e1, v));
  }

  lemma OwnCount(p: Phys, q: Phys, e: nat, f: nat)
    requires Shape(p) && Shape(q) && forall r :: RefTo(q, r, f) <==> RefTo(p, r, f) && r.env != e
    ensures |Refs(q, f)| == |Refs(p, f)| - |OwnRefs(p, e, f)|
    ensures |Refs(q, f)| == 0 <==> OwnRefs(p, e, f) == Refs(p, f)
  {
    assert Refs(p, f) == Refs(q, f) + OwnRefs(p, e, f);
    assert |Refs(q, f)| == 0 ==> Refs(q, f) == {};
  }
}
