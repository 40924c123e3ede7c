/** Physical frames, their reference counts and free list, and the two-level page tables
    of the user half of each address space (sched/kern/pmap.c).

    A `Phys` is the whole memory state as a value.  The functions below are the
    specification of the C functions of the same name; `Kernel.dfy` holds the in-place
    code proved against them. */
module Paging {

  const NPTENTRIES: nat := 1024
  const UPDES: nat := 955                  // PDX(UTOP): directory entries below UTOP
  const UVPNS: nat := UPDES * NPTENTRIES   // page numbers below UTOP
  const UVPT_PDX: nat := 957               // PDX(UVPT)
  const MAXFRAMES: nat := 0x10_0000        // 32-bit physical addresses, 4 KB frames

  type Word = x: int | 0 <= x < 0x1_0000_0000
  type Page = s: seq<Word> | |s| == 1024 witness seq(1024, _ => 0)

  function ZeroPage(): Page { seq(1024, _ => 0) }

  // Permission bits of an entry (low twelve bits of the word).
  predicate HasP(e: nat) { e % 2 == 1 }

  predicate HasW(e: nat) { e / 2 % 2 == 1 }

  predicate HasU(e: nat) { e / 4 % 2 == 1 }

  // perm | PTE_P
  function OrP(perm: nat): (r: nat)
    ensures HasP(r) && r / 4096 == perm / 4096
  {
    if HasP(perm) then perm else perm + 1
  }

  // perm | PTE_U
  function OrU(perm: nat): (r: nat)
    ensures HasU(r) && r / 4096 == perm / 4096
  {
    if HasU(perm) then perm else perm + 4
  }

  // perm | PTE_U | PTE_P on a 32-bit word
  function OrUP(perm: Word): (r: Word)
    ensures r == OrP(OrU(perm)) && r / 4096 == perm / 4096
  {
    OrP(OrU(perm))
  }

  // Every bit lies in PTE_SYSCALL (0xE07) and both PTE_P and PTE_U are set.
  predicate CheckPerm(perm: nat) {
    perm < 4096 && perm / 8 % 64 == 0 && HasP(perm) && HasU(perm)
  }

  function FrameOf(e: Word): nat { e / 4096 }

  function PermOf(e: Word): nat { e % 4096 }

  function MakeEntry(f: nat, perm: nat): (w: Word)
    requires f < MAXFRAMES && perm < 4096
    ensures FrameOf(w) == f && PermOf(w) == perm && (HasP(perm) ==> w != 0)
  {
    f * 4096 + perm
  }

  // a | b on natural numbers
  function BitOr(a: nat, b: nat): (r: nat)
    ensures b == 0 ==> r == a
    decreases a + b
  {
    if a == 0 && b == 0 then 0
    else (if a % 2 == 1 || b % 2 == 1 then 1 else 0) + 2 * BitOr(a / 2, b / 2)
  }

  function Pow2(n: nat): (r: nat)
    ensures r > 0
  {
    if n == 0 then 1 else 2 * Pow2(n - 1)
  }

  lemma {:induction false} BitOrBound(a: nat, b: nat, n: nat)
    requires a < Pow2(n) && b < Pow2(n)
    ensures BitOr(a, b) < Pow2(n)
    decreases n
  {
    if n > 0 {
      BitOrBound(a / 2, b / 2, n - 1);
    }
  }

  lemma FrameLimit()
    ensures Pow2(20) == MAXFRAMES && Pow2(12) == 4096
  {
    assert Pow2(5) == 32;
    assert Pow2(10) == 1024;
    assert Pow2(12) == 4096;
    assert Pow2(15) == 32768;
  }

  /** page2pa(pp) | perm | PTE_P: permission bits above the low twelve go into the frame
      number. */
  function EntryWord(f: nat, perm: Word): (w: Word)
    requires f < MAXFRAMES
    ensures FrameOf(w) == BitOr(f, perm / 4096) && PermOf(w) == OrP(perm % 4096) && w != 0
    ensures perm < 4096 ==> w == MakeEntry(f, OrP(perm))
  {
    FrameLimit();
    BitOrBound(f, perm / 4096, 20);
    MakeEntry(BitOr(f, perm / 4096), OrP(perm % 4096))
  }

  // The entry names the frame: the high bits of `perm` are set in its address already.
  predicate NamesFrame(f: nat, perm: Word) { BitOr(f, perm / 4096) == f }

  lemma BitOrDouble(u: nat, v: nat, bit: nat)
    requires bit < 2
    ensures BitOr(2 * u, 2 * v + bit) == 2 * BitOr(u, v) + bit
  {
    assert (2 * u) / 2 == u && (2 * v + bit) / 2 == v && (2 * u) % 2 == 0 && (2 * v + bit) % 2 == bit;
  }

  // a << n
  function Shift(a: nat, n: nat): nat { if n == 0 then a else 2 * Shift(a, n - 1) }

  lemma PageShift(a: nat)
    ensures Shift(a, 12) == a * 4096
  {
    assert Shift(a, 1) == 2 * Shift(a, 0);
    assert Shift(a, 2) == 4 * a;
    assert Shift(a, 4) == 16 * a;
    assert Shift(a, 6) == 64 * a;
    assert Shift(a, 8) == 256 * a;
    assert Shift(a, 10) == 1024 * a;
  }

  // The low `n` bits of an or, where one side has none.
  lemma {:induction false} BitOrShift(a: nat, b: nat, low: nat, n: nat)
    requires low < Pow2(n)
    ensures BitOr(Shift(a, n), Shift(b, n) + low) == Shift(BitOr(a, b), n) + low
    decreases n
  {
    if n > 0 {
      hide BitOr;
      BitOrShift(a, b, low / 2, n - 1);
      BitOrDouble(Shift(a, n - 1), Shift(b, n - 1) + low / 2, low % 2);
    }
  }

  lemma BitOrOne(x: nat)
    ensures BitOr(x, 1) == if x % 2 == 1 then x else x + 1
  {
  }

  // So is `perm | PTE_U | PTE_P` of the calls that add them.
  lemma OrUPIsOr(perm: nat)
    ensures OrP(OrU(perm)) == BitOr(perm, 5)
  {
    hide BitOr, OrP, OrU;
    var x := perm / 2;
    BitOrStep(perm, 5);
    BitOrStep(x, 2);
    BitOrOne(x / 2);
    assert perm == 4 * (x / 2) + 2 * (x % 2) + perm % 2;
    OrUPSum(x / 2, x % 2, perm % 2);
  }

  lemma OrUPSum(q: nat, b: nat, c: nat)
    requires b < 2 && c < 2
    ensures OrP(OrU(4 * q + 2 * b + c)) == 4 * (if q % 2 == 1 then q else q + 1) + 2 * b + 1
  {
    var perm, u := 4 * q + 2 * b + c, 4 * (if q % 2 == 1 then q else q + 1) + 2 * b + c;
    assert perm / 4 == q && OrU(perm) == u;
    assert u % 2 == c;
  }

  lemma BitOrStep(a: nat, b: nat)
    requires b > 0
    ensures BitOr(a, b) == (if a % 2 == 1 || b % 2 == 1 then 1 else 0) + 2 * BitOr(a / 2, b / 2)
  {
  }

  // The definition above is the expression of the code.
  lemma EntryWordIsOr(f: nat, perm: Word)
    requires f < MAXFRAMES
    ensures EntryWord(f, perm) == BitOr(BitOr(f * 4096, perm), 1)
  {
    hide BitOr, Shift, Pow2;
    FrameLimit();
    BitOrShift(f, perm / 4096, perm % 4096, 12);
    PageShift(f);
    PageShift(perm / 4096);
    PageShift(BitOr(f, perm / 4096));
    BitOrOne(BitOr(f * 4096, perm));
    LowBit(BitOr(f, perm / 4096), perm % 4096);
  }

  lemma LowBit(f: nat, low: nat)
    ensures OrP(low) + f * 4096 == if (f * 4096 + low) % 2 == 1 then f * 4096 + low else f * 4096 + low + 1
  {
    EvenAdd(f * 2048, low);
  }

  lemma EvenAdd(k: nat, low: nat)
    ensures (2 * k + low) % 2 == low % 2
  {
  }

  /** `free` is the chain starting at `page_free_list`; `dirs` maps an environment slot to
      the frame of its page directory; `kern` is the frame of `kern_pgdir`. */
  datatype Phys = Phys(refs: seq<nat>, mem: seq<Page>, free: seq<nat>, dirs: map<nat, nat>,
                       reserved: set<nat>, kern: nat)

  ghost predicate Shape(p: Phys) {
    && |p.refs| == |p.mem| <= MAXFRAMES
    && p.kern < |p.mem|
    && (forall k :: 0 <= k < |p.free| ==> p.free[k] < |p.mem|)
    && (forall e :: e in p.dirs ==> p.dirs[e] < |p.mem|)
    && (forall e, i :: e in p.dirs && 0 <= i < UPDES ==> FrameOf(p.mem[p.dirs[e]][i]) < |p.mem|)
  }

  ghost function Pde(p: Phys, e: nat, i: nat): Word
    requires Shape(p) && e in p.dirs && i < UPDES
  {
    p.mem[p.dirs[e]][i]
  }

  // The page table entry of page number `v` of environment `e`, 0 when there is no table.
  ghost function Pte(p: Phys, e: nat, v: nat): Word
    requires Shape(p) && e in p.dirs && v < UVPNS
  {
    if Pde(p, e, v / 1024) == 0 then 0 else p.mem[FrameOf(Pde(p, e, v / 1024))][v % 1024]
  }

  // What page number `v` of `e` maps to; the whole address space as a finite map.
  ghost function Flat(p: Phys, e: nat): map<nat, Word>
    requires Shape(p) && e in p.dirs
  {
    map v | 0 <= v < UVPNS && Pte(p, e, v) != 0 :: Pte(p, e, v)
  }

  // ---------------------------------------------------------------- references

  datatype Ref = EnvRef(env: nat) | PdeRef(env: nat, pdx: nat) | PteRef(env: nat, vpn: nat)

  ghost predicate RefTo(p: Phys, r: Ref, f: nat)
    requires Shape(p)
  {
    r.env in p.dirs &&
    match r
    case EnvRef(e) => p.dirs[e] == f
    case PdeRef(e, i) => i < UPDES && Pde(p, e, i) != 0 && FrameOf(Pde(p, e, i)) == f
    case PteRef(e, v) => v < UVPNS && Pte(p, e, v) != 0 && FrameOf(Pte(p, e, v)) == f
  }

  // All the places a reference can be stored.
  ghost function Places(p: Phys): set<Ref> {
    (set e | e in p.dirs :: EnvRef(e))
    + (set e, i | e in p.dirs && 0 <= i < UPDES :: PdeRef(e, i))
    + (set e, v | e in p.dirs && 0 <= v < UVPNS :: PteRef(e, v))
  }

  // The pointers to frame `f`: directory pointers, directory entries and table entries.
  ghost function Refs(p: Phys, f: nat): (s: set<Ref>)
    requires Shape(p)
    ensures forall r :: r in s <==> RefTo(p, r, f)
  {
    set r | r in Places(p) && RefTo(p, r, f)
  }

  // ---------------------------------------------------------------- the invariant

  ghost predicate NoDup(s: seq<nat>) {
    forall i, j :: 0 <= i < j < |s| ==> s[i] != s[j]
  }

  // A frame used as a directory or as a table is pointed to from one place only.
  ghost predicate Unique(p: Phys)
    requires Shape(p)
  {
    forall r1, r2, f :: RefTo(p, r1, f) && RefTo(p, r2, f) && !r1.PteRef? ==> r1 == r2
  }

  // What an entry at or above UTOP holds in the directory at frame `d`: the kernel's entry, and
  // at UVPT the directory itself, readable by the user (PTE_P | PTE_U).
  ghost function UpperEntry(p: Phys, d: nat, i: nat): Word
    requires Shape(p) && d < |p.mem| && i < NPTENTRIES
  {
    if i == UVPT_PDX then MakeEntry(d, 5) else p.mem[p.kern][i]
  }

  // Entries have the permissions the kernel gives them; every directory agrees with the
  // kernel's at and above UTOP, the window at UVPT apart.
  ghost predicate Clean(p: Phys)
    requires Shape(p)
  {
    && (forall e, i :: e in p.dirs && UPDES <= i < NPTENTRIES ==> p.mem[p.dirs[e]][i] == UpperEntry(p, p.dirs[e], i))
    && (forall e, i :: e in p.dirs && 0 <= i < UPDES && Pde(p, e, i) != 0 ==> PermOf(Pde(p, e, i)) == 7)
    && (forall e, v :: e in p.dirs && 0 <= v < UVPNS && Pte(p, e, v) != 0 ==>
          HasP(PermOf(Pte(p, e, v))) && FrameOf(Pte(p, e, v)) < |p.mem|)
    && (forall i :: 0 <= i < UPDES ==> p.mem[p.kern][i] == 0)
  }

  // The free list holds, once each, exactly the frames with count 0 that are neither
  // reserved nor in flight (taken from the list and not yet mapped).
  ghost predicate FreeOk(p: Phys, flight: set<nat>)
    requires Shape(p)
  {
    && NoDup(p.free)
    && (forall f :: 0 <= f < |p.refs| ==>
          (f in p.free <==> p.refs[f] == 0 && f !in p.reserved && f !in flight))
    && (forall f :: f in flight ==> f < |p.refs| && p.refs[f] == 0 && f !in p.reserved)
    && (forall f :: f in p.reserved ==> f < |p.refs| && p.refs[f] == 0)
    && p.kern in p.reserved
  }

  // `held` counts references owned by kernel code in progress.
  ghost predicate Counted(p: Phys, held: multiset<nat>)
    requires Shape(p)
  {
    && (forall f :: 0 <= f < |p.refs| ==> p.refs[f] == |Refs(p, f)| + held[f] && p.refs[f] < 0x1_0000)
    && (forall f :: f in held ==> f < |p.refs| && forall r :: RefTo(p, r, f) ==> r.PteRef?)
  }

  ghost predicate InvHeld(p: Phys, flight: set<nat>, held: multiset<nat>) {
    Shape(p) && Unique(p) && Clean(p) && FreeOk(p, flight) && Counted(p, held)
  }

  // Reference counts are exact and the free list is right.
  ghost predicate Inv(p: Phys, flight: set<nat>) {
    InvHeld(p, flight, multiset{})
  }

  // ---------------------------------------------------------------- the operations

  datatype Allocated = NoFrame | Frame(p: Phys, f: nat)

  ghost function PageAlloc(p: Phys, zero: bool): Allocated
    requires Shape(p)
  {
    if p.free == [] then NoFrame
    else
      var f := p.free[0];
      Frame(p.(free := p.free[1..], mem := if zero then p.mem[f := ZeroPage()] else p.mem), f)
  }

  // pp->pp_ref++ on a 16-bit counter
  ghost function IncRef(p: Phys, f: nat): Phys
    requires f < |p.refs|
  {
    p.(refs := p.refs[f := (p.refs[f] + 1) % 0x1_0000])
  }

  // page_decref, with the page_free it may call
  ghost function DecRef(p: Phys, f: nat): Phys
    requires f < |p.refs|
  {
    var r := (p.refs[f] + 0xFFFF) % 0x1_0000;
    p.(refs := p.refs[f := r], free := if r == 0 then [f] + p.free else p.free)
  }

  ghost function SetPde(p: Phys, e: nat, i: nat, w: Word): Phys
    requires Shape(p) && e in p.dirs && i < UPDES
  {
    p.(mem := p.mem[p.dirs[e] := p.mem[p.dirs[e]][i := w]])
  }

  ghost function SetPte(p: Phys, e: nat, v: nat, w: Word): Phys
    requires Shape(p) && e in p.dirs && v < UVPNS && Pde(p, e, v / 1024) != 0
  {
    var t := FrameOf(Pde(p, e, v / 1024));
    p.(mem := p.mem[t := p.mem[t][v % 1024 := w]])
  }
}
