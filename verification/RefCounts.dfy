/** The corner cases of page_insert (sched/kern/pmap.c): inserting a frame where it already
    is, and the 16-bit reference counter running over. */
module RefCounts {
  import opened Paging
  import opened PagingLaws
  import opened PageOps

  // Inserting a frame where it is already mapped changes the permissions and nothing else,
  // whatever the counter holds.
  lemma ReinsertIsSetPte(p: Phys, e: nat, v: nat, perm: Word)
    requires Shape(p) && Clean(p) && e in p.dirs && v < UVPNS && Pte(p, e, v) != 0
    requires 0 < p.refs[FrameOf(Pte(p, e, v))] < 0x1_0000
    ensures PageInsert(p, e, FrameOf(Pte(p, e, v)), v, perm)
         == Mapped(SetPte(p, e, v, EntryWord(FrameOf(Pte(p, e, v)), perm)))
  {
    var f := FrameOf(Pte(p, e, v));
    var t, j := FrameOf(Pde(p, e, v / 1024)), v % 1024;
    var q := RemoveAt(IncRef(p, f), t, j);
    assert ((p.refs[f] + 1) % 0x1_0000 + 0xFFFF) % 0x1_0000 == p.refs[f];
    assert q.refs == p.refs && q.free == p.free;
    var w := EntryWord(f, perm);
    hide EntryWord;
    assert q.mem[t][j := w] == p.mem[t][j := w];
    assert q.mem[t := q.mem[t][j := w]] == p.mem[t := p.mem[t][j := w]];
  }

  // Replacing an entry by another one for the same frame keeps every count.
  lemma ChangePermKeeps(p: Phys, flight: set<nat>, held: multiset<nat>, e: nat, v: nat, w: Word)
    requires InvHeld(p, flight, held) && e in p.dirs && v < UVPNS && Pte(p, e, v) != 0
    requires FrameOf(w) == FrameOf(Pte(p, e, v)) && w != 0 && HasP(PermOf(w))
    ensures InvHeld(SetPte(p, e, v, w), flight, held)
  {
    hide Unique;
    InvParts(p, flight, held);
    var q := SetPte(p, e, v, w);
    assert RefTo(p, PdeRef(e, v / 1024), FrameOf(Pde(p, e, v / 1024)));
    SetPteEffect(p, e, v, w);
    assert forall r, f :: RefTo(q, r, f) <==> RefTo(p, r, f);
    assert forall f :: Refs(q, f) == Refs(p, f) by {
      assert forall f, r :: r in Refs(q, f) <==> r in Refs(p, f);
    }
    UniqueSame(p, q);
    hide RefTo;
  }

  lemma UniqueSame(p: Phys, q: Phys)
    requires Shape(p) && Shape(q) && Unique(p) && forall r, f :: RefTo(q, r, f) <==> RefTo(p, r, f)
    ensures Unique(q)
  {
  }

  // The effect of storing an entry does not depend on the counters, nor on which frame it
  // was counted for.
  lemma StoreEffect(p: Phys, e: nat, v: nat, f: nat, w: Word)
    requires Shape(p) && Unique(p) && Clean(p) && (forall r :: !RefTo(p, r, p.kern))
    requires e in p.dirs && v < UVPNS && Pde(p, e, v / 1024) != 0 && w != 0 && f < |p.refs|
    requires FrameOf(Pte(p, e, v)) < |p.mem|
    ensures StoredLike(p, Store(p, e, v, f, w), e, v, w)
  {
    hide RemovedLike, StoredLike, Store, PageRemove;
    var q := IncRef(p, f);
    assert SameTables(p, q);
    SameKeeps(p, q);
    hide Unique, Clean, Refs, RefTo;
    RemoveEffect(q, e, v);
    var s := PageRemove(q, e, v);
    RemovedParts(p, q, s, e, v);
    StoreSteps(p, e, v, f, w);
    RemovedUnique(p, s, e, v);
    FillEffect(p, s, e, v, w);
  }

  lemma RemovedUnique(p: Phys, s: Phys, e: nat, v: nat)
    requires Shape(p) && e in p.dirs && v < UVPNS && RemovedLike(p, s, e, v) && Unique(p)
    requires s.kern == p.kern && forall r :: !RefTo(p, r, p.kern)
    ensures Unique(s) && forall r :: !RefTo(s, r, s.kern)
  {
    forall r1, r2, f | RefTo(s, r1, f) && RefTo(s, r2, f) && !r1.PteRef?
      ensures r1 == r2
    {
      assert RefTo(p, r1, f) && RefTo(p, r2, f);
    }
  }

  // What page_insert counts and what it stores, whatever the permission word.
  lemma InsertEffect(p: Phys, flight: set<nat>, held: multiset<nat>, e: nat, f: nat, v: nat, perm: Word)
    requires InvHeld(p, flight, held) && e in p.dirs && v < UVPNS && Mappable(p, f)
    requires FrameOf(Pte(p, e, v)) < |p.refs| && PageInsert(p, e, f, v, perm).Mapped?
    ensures var q, w := PageInsert(p, e, f, v, perm).p, EntryWord(f, perm);
      && InsertedLike(p, q, e, FrameOf(w), v, w) && Shape(q) && |q.refs| == |p.refs|
      && q.refs[f] == if Pte(p, e, v) != 0 && FrameOf(Pte(p, e, v)) == f
           then ((p.refs[f] + 1) % 0x1_0000 + 0xFFFF) % 0x1_0000
           else (p.refs[f] + 1) % 0x1_0000
  {
    hide RefTo, Refs, FrameOf, PermOf, HasP, EntryWord;
    hide InvHeld, Unique, Clean, WalkedLike, StoredLike, InsertedLike, FreeOk, Counted, WalkCreate, Store;
    InvParts(p, flight, held);
    WalkLaw(p, flight, held, e, v);
    var q, w := WalkCreate(p, e, v).p, EntryWord(f, perm);
    InvParts(q, flight, held);
    WalkedParts(p, q, e, v);
    StoreEffect(q, e, v, f, w);
    WalkThenStore(p, q, Store(q, e, v, f, w), e, v, w);
    InsertedShape(p, Store(q, e, v, f, w), e, v, w);
    CountAfter(p, q, e, f, v, w);
  }

  lemma InsertedShape(p: Phys, s: Phys, e: nat, v: nat, w: Word)
    requires Shape(p) && e in p.dirs && v < UVPNS && InsertedLike(p, s, e, FrameOf(w), v, w)
    ensures Shape(s) && |s.refs| == |p.refs|
  {
  }

  lemma RefAt(p: Phys, e: nat, v: nat, f: nat)
    requires Shape(p) && e in p.dirs && v < UVPNS
    ensures PteRef(e, v) in Refs(p, f) <==> Pte(p, e, v) != 0 && FrameOf(Pte(p, e, v)) == f
  {
  }

  lemma WalkedParts(p: Phys, q: Phys, e: nat, v: nat)
    requires Shape(p) && Clean(p) && e in p.dirs && v < UVPNS && WalkedLike(p, q, e, v)
    ensures Shape(q) && q.dirs == p.dirs && Pde(q, e, v / 1024) != 0
    ensures |q.refs| == |p.refs| && FrameOf(Pte(q, e, v)) < |q.mem|
  {
  }

  lemma CountAfter(p: Phys, q: Phys, e: nat, f: nat, v: nat, w: Word)
    requires Shape(p) && Shape(q) && e in p.dirs && v < UVPNS && WalkedLike(p, q, e, v)
    requires f < |p.refs| == |q.refs| && f !in p.free && FrameOf(Pte(q, e, v)) < |q.mem|
    ensures Store(q, e, v, f, w).refs[f] == if Pte(p, e, v) != 0 && FrameOf(Pte(p, e, v)) == f
      then ((p.refs[f] + 1) % 0x1_0000 + 0xFFFF) % 0x1_0000
      else (p.refs[f] + 1) % 0x1_0000
  {
    assert q.mem[q.dirs[e]][v / 1024] != 0;
    hide Clean, Unique, RefTo;
  }

  // How many pointers the frame has afterwards.
  lemma RefsAfter(p: Phys, s: Phys, e: nat, f: nat, v: nat, w: Word)
    requires Shape(p) && e in p.dirs && v < UVPNS && InsertedLike(p, s, e, FrameOf(w), v, w) && w != 0
    requires f !in p.free
    ensures Shape(s)
    ensures |Refs(s, f)| == |Refs(p, f)| + (if FrameOf(w) == f then 1 else 0)
      - (if Pte(p, e, v) != 0 && FrameOf(Pte(p, e, v)) == f then 1 else 0)
  {
    hide RefTo, Pte, Pde, InsertedLike, FrameOf;
    var r0 := PteRef(e, v);
    InsertedShape(p, s, e, v, w);
    NewEntry(p, s, e, v, w);
    RefAt(p, e, v, f);
    RefAt(s, e, v, f);
    RefsBut(p, s, e, f, v, w);
    SizeWithout(Refs(s, f), r0);
    SizeWithout(Refs(p, f), r0);
  }

  lemma SizeWithout(a: set<Ref>, r: Ref)
    ensures |a| == |a - {r}| + if r in a then 1 else 0
  {
    if r in a {
      assert a == a - {r} + {r};
    } else {
      assert a == a - {r};
    }
  }

  lemma NewEntry(p: Phys, s: Phys, e: nat, v: nat, w: Word)
    requires Shape(p) && e in p.dirs && v < UVPNS && InsertedLike(p, s, e, FrameOf(w), v, w)
    ensures Shape(s) && e in s.dirs && Pte(s, e, v) == w
  {
    hide Pte;
  }

  lemma RefsBut(p: Phys, s: Phys, e: nat, f: nat, v: nat, w: Word)
    requires Shape(p) && e in p.dirs && v < UVPNS && InsertedLike(p, s, e, FrameOf(w), v, w) && f !in p.free
    ensures Shape(s) && Refs(s, f) - {PteRef(e, v)} == Refs(p, f) - {PteRef(e, v)}
  {
    hide RefTo;
  }

  // One reference too many: the counter wraps to 0 while 65536 entries map the frame.
  lemma InsertOverflows(p: Phys, flight: set<nat>, e: nat, f: nat, v: nat, perm: Word)
    requires Inv(p, flight) && e in p.dirs && v < UVPNS && NamesFrame(f, perm) && Mappable(p, f)
    requires FrameOf(Pte(p, e, v)) < |p.refs|
    requires p.refs[f] == 0xFFFF && !(Pte(p, e, v) != 0 && FrameOf(Pte(p, e, v)) == f)
    requires PageInsert(p, e, f, v, perm).Mapped?
    ensures Shape(PageInsert(p, e, f, v, perm).p) && |PageInsert(p, e, f, v, perm).p.refs| == |p.refs|
    ensures |Refs(PageInsert(p, e, f, v, perm).p, f)| == 0x1_0000
    ensures PageInsert(p, e, f, v, perm).p.refs[f] == 0
  {
    hide InvHeld, Unique, Clean, InsertedLike, PageInsert, EntryWord, RefTo, Pte, Refs, FrameOf, BitOr;
    InvParts(p, flight, multiset{});
    CountedBefore(p, flight, e, f, v);
    InsertEffect(p, flight, multiset{}, e, f, v, perm);
    RefsAfter(p, PageInsert(p, e, f, v, perm).p, e, f, v, EntryWord(f, perm));
  }

  // The stored word names the frame, and the counter has room or nothing to count.
  ghost predicate ExactInsert(p: Phys, e: nat, f: nat, v: nat, perm: Word)
    requires Shape(p) && e in p.dirs && v < UVPNS && f < |p.refs|
  {
    NamesFrame(f, perm) && (p.refs[f] < 0xFFFF || (Pte(p, e, v) != 0 && FrameOf(Pte(p, e, v)) == f))
  }

  /** page_insert binds one page number to the word it stores and changes no other mapping;
      it fails, changing nothing, only when a table is needed and no frame is left; and it
      keeps every count exact where the word names the frame and the counter has room. */
  lemma InsertLaw(p: Phys, flight: set<nat>, held: multiset<nat>, e: nat, f: nat, v: nat, perm: Word)
    requires InvHeld(p, flight, held) && e in p.dirs && v < UVPNS && Mappable(p, f)
    requires FrameOf(Pte(p, e, v)) < |p.refs|
    ensures match PageInsert(p, e, f, v, perm)
      case NoMem => p.free == [] && Pde(p, e, v / 1024) == 0
      case Mapped(q) =>
        && InsertedLike(p, q, e, FrameOf(EntryWord(f, perm)), v, EntryWord(f, perm))
        && (ExactInsert(p, e, f, v, perm) ==> InvHeld(q, flight - {f}, held))
  {
    if PageInsert(p, e, f, v, perm).Mapped? {
      InsertEffect(p, flight, held, e, f, v, perm);
      if ExactInsert(p, e, f, v, perm) {
        ExactKeeps(p, flight, held, e, f, v, perm);
      }
    } else {
      hide InvHeld;
      WalkLaw(p, flight, held, e, v);
    }
  }

  lemma ExactKeeps(p: Phys, flight: set<nat>, held: multiset<nat>, e: nat, f: nat, v: nat, perm: Word)
    requires InvHeld(p, flight, held) && e in p.dirs && v < UVPNS && Mappable(p, f)
    requires FrameOf(Pte(p, e, v)) < |p.refs| && PageInsert(p, e, f, v, perm).Mapped?
    requires ExactInsert(p, e, f, v, perm)
    ensures InvHeld(PageInsert(p, e, f, v, perm).p, flight - {f}, held)
  {
    if p.refs[f] < 0xFFFF {
      hide InvHeld;
      LowPermIsEnough(p, e, f, v, perm);
      InsertKeeps(p, flight, held, e, f, v, perm % 4096);
    } else {
      assert 0 < p.refs[f] <= 0xFFFF && f !in flight;
      InvParts(p, flight, held);
      hide InvHeld, Unique, Clean, PageInsert, EntryWord;
      ReinsertIsSetPte(p, e, v, perm);
      ChangePermKeeps(p, flight, held, e, v, EntryWord(f, perm));
      assert flight - {f} == flight;
    }
  }

  lemma LowPermIsEnough(p: Phys, e: nat, f: nat, v: nat, perm: Word)
    requires Shape(p) && e in p.dirs && v < UVPNS && FrameOf(Pte(p, e, v)) < |p.refs| && f < |p.refs|
    requires NamesFrame(f, perm)
    ensures EntryWord(f, perm) == EntryWord(f, perm % 4096) == MakeEntry(f, OrP(perm % 4096))
    ensures PageInsert(p, e, f, v, perm) == PageInsert(p, e, f, v, perm % 4096)
  {
    hide PageInsert, BitOr;
    SameWord(p, e, f, v, perm);
  }

  lemma SameWord(p: Phys, e: nat, f: nat, v: nat, perm: Word)
    requires Shape(p) && e in p.dirs && v < UVPNS && FrameOf(Pte(p, e, v)) < |p.refs| && f < |p.refs|
    ensures EntryWord(f, perm) == EntryWord(f, perm % 4096) ==>
      PageInsert(p, e, f, v, perm) == PageInsert(p, e, f, v, perm % 4096)
  {
    hide EntryWord, WalkCreate, Store;
  }

  /** A successful page_insert leaves exact counts if and only if the word it stores names
      the frame it counted (the permission bits above the low twelve are set in the frame's
      address already) and the frame had fewer than 65535 references or was already mapped
      at that address. */
  lemma InsertExactIff(p: Phys, flight: set<nat>, e: nat, f: nat, v: nat, perm: Word)
    requires Inv(p, flight) && e in p.dirs && v < UVPNS && Mappable(p, f)
    requires FrameOf(Pte(p, e, v)) < |p.refs| && PageInsert(p, e, f, v, perm).Mapped?
    ensures (exists flight' :: Inv(PageInsert(p, e, f, v, perm).p, flight')) <==> ExactInsert(p, e, f, v, perm)
  {
    hide InvHeld, Unique, RefTo, PageInsert, FrameOf, PermOf, HasP;
    hide Pde, Pte, Clean, Refs, InsertedLike, EntryWord, BitOr;
    InvParts(p, flight, multiset{});
    var q := PageInsert(p, e, f, v, perm).p;
    if ExactInsert(p, e, f, v, perm) {
      ExactKeeps(p, flight, multiset{}, e, f, v, perm);
      assert Inv(q, flight - {f});
    } else {
      CountedBefore(p, flight, e, f, v);
      InsertEffect(p, flight, multiset{}, e, f, v, perm);
      RefsAfter(p, q, e, f, v, EntryWord(f, perm));
      forall flight'
        ensures !Inv(q, flight')
      {
        NotExact(q, flight', f);
      }
    }
  }

  lemma CountedBefore(p: Phys, flight: set<nat>, e: nat, f: nat, v: nat)
    requires Inv(p, flight) && e in p.dirs && v < UVPNS && f < |p.refs|
    ensures p.refs[f] == |Refs(p, f)| <= 0xFFFF
    ensures Pte(p, e, v) != 0 && FrameOf(Pte(p, e, v)) == f ==> p.refs[f] > 0
  {
    hide Unique, FreeOk;
    RefAt(p, e, v, f);
  }

  // Bit 12 set in the permissions of an even frame: the word names the next one.
  lemma BitTwelveNamesNext(f: nat)
    requires f < MAXFRAMES && f % 2 == 0
    ensures FrameOf(EntryWord(f, 0x1007)) == f + 1 && !NamesFrame(f, 0x1007)
  {
    assert BitOr(f, 1) == 1 + 2 * BitOr(f / 2, 0);
  }

  /** Such an insertion maps a frame whose count was not raised, whatever the counters hold. */
  lemma InsertWrongFrame(p: Phys, flight: set<nat>, e: nat, f: nat, v: nat)
    requires Inv(p, flight) && e in p.dirs && v < UVPNS && Mappable(p, f) && f % 2 == 0
    requires FrameOf(Pte(p, e, v)) < |p.refs| && PageInsert(p, e, f, v, 0x1007).Mapped?
    ensures var q := PageInsert(p, e, f, v, 0x1007).p;
      Shape(q) && e in q.dirs && FrameOf(Pte(q, e, v)) == f + 1 && forall flight' :: !Inv(q, flight')
  {
    hide InvHeld, InsertedLike, PageInsert, Mappable;
    InvParts(p, flight, multiset{});
    FrameInRange(p, f);
    BitTwelveNamesNext(f);
    InsertEffect(p, flight, multiset{}, e, f, v, 0x1007);
    NewEntry(p, PageInsert(p, e, f, v, 0x1007).p, e, v, EntryWord(f, 0x1007));
    InsertExactIff(p, flight, e, f, v, 0x1007);
  }

  lemma FrameInRange(p: Phys, f: nat)
    requires Shape(p) && Mappable(p, f)
    ensures f < |p.refs| <= MAXFRAMES
  {
  }

  lemma NotExact(q: Phys, flight: set<nat>, f: nat)
    requires Shape(q) && f < |q.refs| && q.refs[f] != |Refs(q, f)|
    ensures !Inv(q, flight)
  {
    hide Unique, Clean, FreeOk;
  }
}
