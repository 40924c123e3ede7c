/** What programs read through UVPT and UVPD (sched/inc/memlayout.h, sched/kern/env.c): the
    hardware's two-level walk over the directory that maps itself. */
module Window {
  import opened Paging
  import opened PagingLaws

  const REGION: nat := 0x40_0000               // bytes mapped by one directory entry
  const UVPT: nat := UVPT_PDX * REGION
  const UVPD: nat := UVPT + UVPT / 4096 * 4

  datatype Access = Faults | Reads(word: Word, user: bool, writable: bool)

  // The aligned word at linear address `va` under the directory at frame `dir`.
  function Walk(mem: seq<Page>, dir: nat, va: Word): Access {
    if dir >= |mem| then Faults
    else
      var pde := mem[dir][va / REGION];
      if !HasP(PermOf(pde)) || FrameOf(pde) >= |mem| then Faults
      else
        var pte := mem[FrameOf(pde)][va / 4096 % 1024];
        if !HasP(PermOf(pte)) || FrameOf(pte) >= |mem| then Faults
        else
          var u, w := HasU(PermOf(pde)) && HasU(PermOf(pte)), HasW(PermOf(pde)) && HasW(PermOf(pte));
          Reads(mem[FrameOf(pte)][va % 4096 / 4], u, w)
  }

  lemma UvptParts(v: nat)
    requires v < 0x10_0000
    ensures var va := UVPT + 4 * v;
      va < 0x1_0000_0000 && va / REGION == UVPT_PDX && va / 4096 % 1024 == v / 1024 && va % 4096 / 4 == v % 1024
  {
  }

  lemma UvpdParts(i: nat)
    requires i < NPTENTRIES
    ensures UVPD + 4 * i == UVPT + 4 * (UVPT_PDX * 1024 + i)
    ensures (UVPT_PDX * 1024 + i) / 1024 == UVPT_PDX && (UVPT_PDX * 1024 + i) % 1024 == i
  {
  }

  // The first level of the walk leads back to the directory.
  lemma SelfMap(p: Phys, e: nat)
    requires Shape(p) && Clean(p) && e in p.dirs
    ensures p.mem[p.dirs[e]][UVPT_PDX] == MakeEntry(p.dirs[e], 5)
  {
  }

  /** uvpt[v], read by the program, is the entry of page number `v` where the table is there
      and faults where it is not; the program can read it and not write it. */
  lemma UvptReads(p: Phys, e: nat, v: nat)
    requires Shape(p) && Clean(p) && e in p.dirs && v < UVPNS
    ensures Walk(p.mem, p.dirs[e], UVPT + 4 * v)
      == if Pde(p, e, v / 1024) == 0 then Faults else Reads(Pte(p, e, v), true, false)
  {
    UvptParts(v);
    SelfMap(p, e);
  }

  /** uvpd[i] is word `i` of the environment's own directory: its entries below UTOP, the
      window itself at UVPT, and the kernel's entries elsewhere. */
  lemma UvpdReads(p: Phys, e: nat, i: nat)
    requires Shape(p) && Clean(p) && e in p.dirs && i < NPTENTRIES
    ensures Walk(p.mem, p.dirs[e], UVPD + 4 * i)
      == Reads(if i < UPDES then Pde(p, e, i) else UpperEntry(p, p.dirs[e], i), true, false)
  {
    UvpdParts(i);
    UvptParts(UVPT_PDX * 1024 + i);
    SelfMap(p, e);
  }

  /** Above UTOP every environment has the kernel's address space: any walk there, the window
      apart, reads what it reads under kern_pgdir. */
  lemma KernelHalfIsShared(p: Phys, e: nat, va: Word)
    requires Shape(p) && Clean(p) && e in p.dirs && UPDES <= va / REGION && va / REGION != UVPT_PDX
    ensures Walk(p.mem, p.dirs[e], va) == Walk(p.mem, p.kern, va)
  {
    assert p.mem[p.dirs[e]][va / REGION] == UpperEntry(p, p.dirs[e], va / REGION);
  }
}
