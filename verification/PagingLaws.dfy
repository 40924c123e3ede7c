/** What each single step on the memory keeps: the invariant `InvHeld` and, reference by
    reference, what the tables point to. */
module PagingLaws {
  import opened Paging

  // Nothing any walk can see differs.
  ghost predicate SameTables(p: Phys, q: Phys)
    requires Shape(p) && Shape(q)
  {
    && q.dirs == p.dirs && q.reserved == p.reserved && q.kern == p.kern && |q.mem| == |p.mem|
    && q.mem[q.kern] == p.mem[p.kern]
    && (forall e :: e in p.dirs ==> q.mem[p.dirs[e]] == p.mem[p.dirs[e]])
    && (forall e, i :: e in p.dirs && 0 <= i < UPDES ==> Pde(q, e, i) == Pde(p, e, i))
    && (forall e, v :: e in p.dirs && 0 <= v < UVPNS ==> Pte(q, e, v) == Pte(p, e, v))
  }

  ghost predicate NotTable(p: Phys, f: nat)
    requires Shape(p)
  {
    forall r :: RefTo(p, r, f) ==> r.PteRef?
  }

  lemma SameKeeps(p: Phys, q: Phys)
    requires Shape(p) && Shape(q) && SameTables(p, q)
    ensures forall r, f :: RefTo(q, r, f) <==> RefTo(p, r, f)
    ensures forall f :: Refs(q, f) == Refs(p, f)
    ensures Unique(p) ==> Unique(q)
    ensures Clean(p) ==> Clean(q)
  {
    assert forall r, f :: RefTo(q, r, f) <==> RefTo(p, r, f);
    assert forall f, r :: r in Refs(q, f) <==> r in Refs(p, f);
  }

  // Writing to a frame that is neither a directory nor a table is invisible to walks.
  lemma DataWrite(p: Phys, f: nat, page: Page)
    requires Shape(p) && f < |p.mem| && f != p.kern && NotTable(p, f)
    ensures Shape(p.(mem := p.mem[f := page])) && SameTables(p, p.(mem := p.mem[f := page]))
  {
    var q := p.(mem := p.mem[f := page]);
    forall e | e in p.dirs
      ensures p.dirs[e] != f
    {
      assert RefTo(p, EnvRef(e), p.dirs[e]);
    }
    forall e, v | e in p.dirs && 0 <= v < UVPNS
      ensures Pte(q, e, v) == Pte(p, e, v)
    {
      if Pde(p, e, v / 1024) != 0 {
        assert RefTo(p, PdeRef(e, v / 1024), FrameOf(Pde(p, e, v / 1024)));
      }
    }
  }

  // ---------------------------------------------------------------- one reference more or less

  // `q` has the references of `p` and one more, `r0` to `f0`.
  ghost predicate OneMore(p: Phys, q: Phys, r0: Ref, f0: nat)
    requires Shape(p) && Shape(q)
  {
    && !RefTo(p, r0, f0)
    && forall r, f :: RefTo(q, r, f) <==> RefTo(p, r, f) || (r == r0 && f == f0)
  }

  lemma CountMore(p: Phys, q: Phys, r0: Ref, f0: nat)
    requires Shape(p) && Shape(q) && OneMore(p, q, r0, f0)
    ensures forall f :: |Refs(q, f)| == |Refs(p, f)| + if f == f0 then 1 else 0
  {
    forall f
      ensures |Refs(q, f)| == |Refs(p, f)| + if f == f0 then 1 else 0
    {
      assert Refs(q, f) == Refs(p, f) + if f == f0 then {r0} else {};
    }
  }

  lemma UniqueFewer(p: Phys, q: Phys, r0: Ref, f0: nat)
    requires Shape(p) && Shape(q) && OneMore(q, p, r0, f0) && Unique(p)
    ensures Unique(q)
  {
    forall r1, r2, f | RefTo(q, r1, f) && RefTo(q, r2, f) && !r1.PteRef?
      ensures r1 == r2
    {
      assert RefTo(p, r1, f) && RefTo(p, r2, f);
    }
  }

  lemma UniqueMore(p: Phys, q: Phys, r0: Ref, f0: nat)
    requires Shape(p) && Shape(q) && OneMore(p, q, r0, f0) && Unique(p)
    requires if r0.PteRef? then NotTable(p, f0) else forall r :: !RefTo(p, r, f0)
    ensures Unique(q)
  {
    forall r1, r2, f | RefTo(q, r1, f) && RefTo(q, r2, f) && !r1.PteRef?
      ensures r1 == r2
    {
      assert (r1 == r0 && f == f0) || RefTo(p, r1, f);
    }
  }

  // Adding or dropping a table entry leaves tables and directories what they were.
  lemma CountedMore(p: Phys, q: Phys, held: multiset<nat>, r0: Ref, f0: nat)
    requires Shape(p) && Shape(q) && OneMore(p, q, r0, f0) && Counted(p, held) && q.refs == p.refs
    requires f0 in held && r0.PteRef?
    ensures Counted(q, held - multiset{f0})
  {
    CountMore(p, q, r0, f0);
    forall f, r | f in held - multiset{f0} && RefTo(q, r, f)
      ensures r.PteRef?
    {
      assert r == r0 || RefTo(p, r, f);
    }
  }

  lemma CountedFewer(p: Phys, q: Phys, held: multiset<nat>, r0: Ref, f0: nat)
    requires Shape(p) && Shape(q) && OneMore(q, p, r0, f0) && Counted(p, held) && q.refs == p.refs
    requires f0 < |p.refs| && forall r :: RefTo(q, r, f0) ==> r.PteRef?
    ensures Counted(q, held + multiset{f0})
  {
    CountMore(q, p, r0, f0);
    forall f, r | f in held + multiset{f0} && RefTo(q, r, f)
      ensures r.PteRef?
    {
      assert RefTo(p, r, f);
    }
  }

  lemma Unreferenced(p: Phys, flight: set<nat>, held: multiset<nat>, f: nat)
    requires InvHeld(p, flight, held) && f < |p.refs| && p.refs[f] == 0
    ensures held[f] == 0 && forall r :: !RefTo(p, r, f)
  {
    hide Unique, Clean, FreeOk;
    assert |Refs(p, f)| == 0;
    forall r
      ensures !RefTo(p, r, f)
    {
      assert r !in Refs(p, f);
    }
  }

  // The parts of the invariant that make the operations well defined.
  lemma InvParts(p: Phys, flight: set<nat>, held: multiset<nat>)
    requires InvHeld(p, flight, held)
    ensures Shape(p) && Unique(p) && Clean(p) && forall r :: !RefTo(p, r, p.kern)
  {
    assert p.refs[p.kern] == 0;
    Unreferenced(p, flight, held, p.kern);
  }

  // ---------------------------------------------------------------- table entries

  lemma SetPteEffect(p: Phys, e: nat, v: nat, w: Word)
    requires Shape(p) && Unique(p) && e in p.dirs && v < UVPNS && Pde(p, e, v / 1024) != 0
    requires FrameOf(Pde(p, e, v / 1024)) != p.kern
    ensures var q := SetPte(p, e, v, w);
      && Shape(q) && q.mem[q.kern] == p.mem[p.kern]
      && (forall e1 :: e1 in p.dirs ==> q.mem[p.dirs[e1]] == p.mem[p.dirs[e1]])
      && (forall e1, i :: e1 in p.dirs && 0 <= i < UPDES ==> Pde(q, e1, i) == Pde(p, e1, i))
      && (forall e1, v1 :: e1 in p.dirs && 0 <= v1 < UVPNS ==>
            Pte(q, e1, v1) == if e1 == e && v1 == v then w else Pte(p, e1, v1))
  {
    var q := SetPte(p, e, v, w);
    var t := FrameOf(Pde(p, e, v / 1024));
    assert RefTo(p, PdeRef(e, v / 1024), t);
    forall e1 | e1 in p.dirs
      ensures p.dirs[e1] != t
    {
      assert RefTo(p, EnvRef(e1), p.dirs[e1]);
    }
    forall e1, v1 | e1 in p.dirs && 0 <= v1 < UVPNS
      ensures Pte(q, e1, v1) == if e1 == e && v1 == v then w else Pte(p, e1, v1)
    {
      if Pde(p, e1, v1 / 1024) != 0 && FrameOf(Pde(p, e1, v1 / 1024)) == t {
        assert RefTo(p, PdeRef(e1, v1 / 1024), t);
      }
    }
  }

  // Storing `w` over `Pte(p, e, v)` when one of the two is 0 adds or drops one reference.
  lemma SetPteRefs(p: Phys, e: nat, v: nat, w: Word)
    requires Shape(p) && Unique(p) && Clean(p) && e in p.dirs && v < UVPNS && Pde(p, e, v / 1024) != 0
    requires (forall r :: !RefTo(p, r, p.kern)) && (w != 0 ==> HasP(PermOf(w)) && FrameOf(w) < |p.refs|)
    ensures Shape(SetPte(p, e, v, w)) && Clean(SetPte(p, e, v, w))
    ensures Pte(p, e, v) == 0 && w != 0 ==> OneMore(p, SetPte(p, e, v, w), PteRef(e, v), FrameOf(w))
    ensures Pte(p, e, v) != 0 && w == 0 ==> OneMore(SetPte(p, e, v, w), p, PteRef(e, v), FrameOf(Pte(p, e, v)))
  {
    assert RefTo(p, PdeRef(e, v / 1024), FrameOf(Pde(p, e, v / 1024)));
    SetPteEffect(p, e, v, w);
    hide Unique;
  }

  // Clearing an entry leaves its reference in the hands of the running code.
  lemma ClearPte(p: Phys, flight: set<nat>, held: multiset<nat>, e: nat, v: nat)
    requires InvHeld(p, flight, held) && e in p.dirs && v < UVPNS && Pte(p, e, v) != 0
    ensures InvHeld(SetPte(p, e, v, 0), flight, held + multiset{FrameOf(Pte(p, e, v))})
  {
    var q, r0, f0 := SetPte(p, e, v, 0), PteRef(e, v), FrameOf(Pte(p, e, v));
    InvParts(p, flight, held);
    SetPteRefs(p, e, v, 0);
    assert RefTo(p, r0, f0);
    assert NotTable(p, f0);
    assert NotTable(q, f0);
    hide Unique, Clean, Counted, OneMore;
    UniqueFewer(p, q, r0, f0);
    CountedFewer(p, q, held, r0, f0);
  }

  // Filling an empty entry hands a held reference over to it.
  lemma FillPte(p: Phys, flight: set<nat>, held: multiset<nat>, e: nat, v: nat, w: Word)
    requires InvHeld(p, flight, held) && e in p.dirs && v < UVPNS && Pde(p, e, v / 1024) != 0
    requires Pte(p, e, v) == 0 && w != 0 && HasP(PermOf(w)) && FrameOf(w) in held
    ensures InvHeld(SetPte(p, e, v, w), flight, held - multiset{FrameOf(w)})
  {
    var q, r0, f0 := SetPte(p, e, v, w), PteRef(e, v), FrameOf(w);
    InvParts(p, flight, held);
    SetPteRefs(p, e, v, w);
    assert NotTable(p, f0);
    hide Unique, Clean, Counted, OneMore;
    UniqueMore(p, q, r0, f0);
    CountedMore(p, q, held, r0, f0);
  }

  // ---------------------------------------------------------------- counts and the free list

  lemma IncKeeps(p: Phys, flight: set<nat>, held: multiset<nat>, f: nat)
    requires InvHeld(p, flight, held) && f < |p.refs| && NotTable(p, f)
    requires f !in p.free && f !in p.reserved && p.refs[f] < 0xFFFF
    ensures InvHeld(IncRef(p, f), flight - {f}, held + multiset{f})
  {
    var q := IncRef(p, f);
    assert SameTables(p, q);
    SameKeeps(p, q);
    hide Unique, Clean, RefTo;
    assert q.refs[f] == p.refs[f] + 1;
  }

  lemma DecKeeps(p: Phys, flight: set<nat>, held: multiset<nat>, f: nat)
    requires InvHeld(p, flight, held) && f in held
    ensures InvHeld(DecRef(p, f), flight, held - multiset{f})
  {
    var q := DecRef(p, f);
    assert f < |p.refs| && p.refs[f] > 0;
    assert SameTables(p, q);
    SameKeeps(p, q);
    hide Unique, Clean, RefTo;
    assert q.refs[f] == p.refs[f] - 1;
    assert Counted(q, held - multiset{f});
    assert f !in p.free;
    FreePush(p, q, flight, f);
  }

  lemma FreePush(p: Phys, q: Phys, flight: set<nat>, f: nat)
    requires Shape(p) && Shape(q) && FreeOk(p, flight) && f < |p.refs| && f !in p.free && p.refs[f] > 0
    requires q == DecRef(p, f) && q.refs[f] == p.refs[f] - 1
    ensures FreeOk(q, flight)
  {
    if q.refs[f] == 0 {
      assert forall k :: 0 < k < |q.free| ==> q.free[k] == p.free[k - 1];
      forall g | 0 <= g < |q.refs|
        ensures g in q.free <==> q.refs[g] == 0 && g !in q.reserved && g !in flight
      {
      }
    }
  }

  lemma FreePop(p: Phys, q: Phys, flight: set<nat>)
    requires Shape(p) && Shape(q) && FreeOk(p, flight) && p.free != [] && q.free == p.free[1..]
    requires q.refs == p.refs && q.reserved == p.reserved && q.kern == p.kern
    ensures FreeOk(q, flight + {p.free[0]}) && p.free[0] !in q.free && p.free[0] !in flight
  {
    var f := p.free[0];
    assert f in p.free;
    assert forall k :: 0 <= k < |q.free| ==> q.free[k] == p.free[k + 1];
    forall g | 0 <= g < |q.refs|
      ensures g in q.free <==> q.refs[g] == 0 && g !in q.reserved && g !in flight + {f}
    {
      if g in p.free && g != f {
        var k :| 0 <= k < |p.free| && p.free[k] == g;
        assert q.free[k - 1] == g;
      }
    }
  }

  // page_alloc takes an unreferenced frame off the list.
  lemma AllocKeeps(p: Phys, flight: set<nat>, held: multiset<nat>, zero: bool)
    requires InvHeld(p, flight, held) && p.free != []
    ensures var a := PageAlloc(p, zero);
      && a.Frame? && InvHeld(a.p, flight + {a.f}, held) && SameTables(p, a.p)
      && a.f !in flight && a.f !in held && a.f < |p.refs| && a.f !in p.reserved && a.f !in a.p.free
      && (forall r :: !RefTo(p, r, a.f))
      && (forall r, f :: RefTo(a.p, r, f) <==> RefTo(p, r, f))
      && a.p.refs == p.refs
  {
    var a := PageAlloc(p, zero);
    assert a.f in p.free;
    Unreferenced(p, flight, held, a.f);
    if zero {
      DataWrite(p, a.f, ZeroPage());
    }
    assert SameTables(p, a.p);
    SameKeeps(p, a.p);
    hide Unique, Clean, RefTo;
    FreePop(p, a.p, flight);
  }
}
