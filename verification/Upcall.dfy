/** User page-fault upcalls: the frame `page_fault_handler` pushes (sched/kern/trap.c) and
    the code that unwinds it (sched/lib/pfentry.S), on byte-addressed memory. */
module Upcall {
  import opened Paging
  import opened UserCalls

  const WORDS: nat := 0x1_0000_0000
  const UXSTACKTOP: nat := 0xEEC0_0000
  const EXSTK: nat := UXSTACKTOP - 4096       // bottom of the exception stack
  const FRAME: nat := 52                      // sizeof(struct UTrapframe)

  const XPAGE: nat := UXSTACKTOP / 4096 - 1   // its page number

  type Byte = x: int | 0 <= x < 256
  type Mem = m: seq<Byte> | |m| == WORDS witness seq(WORDS, _ => 0)

  datatype Regs = Regs(edi: Word, esi: Word, ebp: Word, ebx: Word, edx: Word, ecx: Word, eax: Word)

  // `writable` holds the numbers of the pages the program may write, if they lie below UTOP.
  datatype State = State(mem: Mem, writable: set<nat>, regs: Regs, eip: Word, esp: Word, eflags: Word)

  // The word at `a` can be stored to without a fault; UXSTACKTOP is UTOP, and what lies
  // above it is read-only to programs.
  predicate CanStore(s: State, a: Word) {
    a + 4 <= UXSTACKTOP && a / 4096 in s.writable && (a + 3) / 4096 in s.writable
  }

  // ---------------------------------------------------------------- memory

  // Byte `k` of a word, and the word of four bytes.
  function Part(w: Word, k: nat): Byte
    requires k < 4
  {
    if k == 0 then w % 0x100
    else if k == 1 then w / 0x100 % 0x100
    else if k == 2 then w / 0x100 / 0x100 % 0x100
    else w / 0x100 / 0x100 / 0x100
  }

  function Join(b0: Byte, b1: Byte, b2: Byte, b3: Byte): Word {
    (b0 as int) + 0x100 * ((b1 as int) + 0x100 * ((b2 as int) + 0x100 * (b3 as int)))
  }

  lemma JoinParts(w: Word)
    ensures Join(Part(w, 0), Part(w, 1), Part(w, 2), Part(w, 3)) == w
  {
  }

  // The four bytes at `a`, little endian.
  function Load(m: Mem, a: nat): Word
    requires a + 4 <= WORDS
  {
    Join(m[a], m[a + 1], m[a + 2], m[a + 3])
  }

  function Store(m: Mem, a: nat, w: Word): Mem
    requires a + 4 <= WORDS
  {
    m[a := Part(w, 0)][a + 1 := Part(w, 1)][a + 2 := Part(w, 2)][a + 3 := Part(w, 3)]
  }

  lemma LoadStored(m: Mem, a: nat, w: Word)
    requires a + 4 <= WORDS
    ensures Load(Store(m, a, w), a) == w
  {
    JoinParts(w);
    hide Join, Part;
  }

  lemma StoreElsewhere(m: Mem, a: nat, w: Word)
    requires a + 4 <= WORDS
    ensures forall x :: 0 <= x < WORDS && !(a <= x < a + 4) ==> Store(m, a, w)[x] == m[x]
  {
  }

  lemma LoadSame(m: Mem, m': Mem, a: nat)
    requires a + 4 <= WORDS && forall x :: a <= x < a + 4 ==> m'[x] == m[x]
    ensures Load(m', a) == Load(m, a)
  {
  }

  lemma LoadElsewhere(m: Mem, a: nat, w: Word, b: nat)
    requires a + 4 <= WORDS && b + 4 <= WORDS && (b + 4 <= a || a + 4 <= b)
    ensures Load(Store(m, a, w), b) == Load(m, b)
  {
    StoreElsewhere(m, a, w);
    LoadSame(m, Store(m, a, w), b);
  }

  // The words of a frame, lowest address first.
  function Words(va: Word, err: Word, r: Regs, oesp: Word, eip: Word, eflags: Word, esp: Word): seq<Word> {
    [va, err, r.edi, r.esi, r.ebp, oesp, r.ebx, r.edx, r.ecx, r.eax, eip, eflags, esp]
  }

  function StoreAll(m: Mem, a: nat, ws: seq<Word>): Mem
    requires a + 4 * |ws| <= WORDS
    decreases |ws|
  {
    if ws == [] then m else StoreAll(Store(m, a, ws[0]), a + 4, ws[1..])
  }

  lemma {:induction false} StoredAll(m: Mem, a: nat, ws: seq<Word>)
    requires a + 4 * |ws| <= WORDS
    ensures forall i :: 0 <= i < |ws| ==> Load(StoreAll(m, a, ws), a + 4 * i) == ws[i]
    ensures forall x :: 0 <= x < WORDS && !(a <= x < a + 4 * |ws|) ==> StoreAll(m, a, ws)[x] == m[x]
    decreases |ws|
  {
    hide Load, Store;
    if ws != [] {
      var m1, rest := Store(m, a, ws[0]), ws[1..];
      StoredAll(m1, a + 4, rest);
      StoreElsewhere(m, a, ws[0]);
      LoadStored(m, a, ws[0]);
      LoadSame(m1, StoreAll(m, a, ws), a);
      forall i | 0 <= i < |ws|
        ensures Load(StoreAll(m, a, ws), a + 4 * i) == ws[i]
      {
        if i > 0 {
          assert Load(StoreAll(m1, a + 4, rest), a + 4 + 4 * (i - 1)) == rest[i - 1];
        }
      }
    }
  }

  // ---------------------------------------------------------------- the kernel's push

  datatype Fault = Fault(va: Word, err: Word, oesp: Word)

  predicate OnExceptionStack(esp: Word) { EXSTK <= esp <= UXSTACKTOP - 1 }

  // Where the frame goes: below the top byte, or a scratch word below the trap-time esp.
  function Base(esp: Word): int {
    if OnExceptionStack(esp) then esp - 4 - FRAME else UXSTACKTOP - 1 - FRAME
  }

  datatype Pushed = Destroyed | Panicked | Started(state: State)

  /** What becomes of the faulting environment: it is destroyed when it has no upcall or no
      writable exception stack, the kernel panics when that stack overflows, or the upcall
      starts. */
  function Push(s: State, f: Fault, upcall: Word): Pushed {
    var base := Base(s.esp);
    if upcall == 0 || XPAGE !in s.writable then Destroyed
    else if base < EXSTK then Panicked
    else
      var m := if OnExceptionStack(s.esp) then Store(s.mem, s.esp - 4, 0) else s.mem;
      var ws := Words(f.va, f.err, s.regs, f.oesp, s.eip, s.eflags, s.esp);
      Started(State(StoreAll(m, base, ws), s.writable, s.regs, upcall, base, s.eflags))
  }

  /** The source's comment promises that an environment whose exception stack overflows is
      destroyed.  Every such fault panics instead: those with the stack pointer in the lowest
      56 bytes of the exception stack, and no others. */
  lemma OverflowPanics(s: State, f: Fault, upcall: Word)
    ensures Push(s, f, upcall) == Panicked <==> upcall != 0 && XPAGE in s.writable && EXSTK <= s.esp < EXSTK + 4 + FRAME
    ensures Push(s, f, upcall) == Destroyed <==> upcall == 0 || XPAGE !in s.writable
  {
  }

  // ---------------------------------------------------------------- _pgfault_upcall

  // The frame at `base`: its word number `i`.
  function At(m: Mem, base: nat, i: nat): Word
    requires base + FRAME <= WORDS && i < 13
  {
    Load(m, base + 4 * i)
  }

  // The instructions before the store: eip in eax, the word below the trap-time esp in ebx.
  function AtStore(s: State): State
    requires s.esp + FRAME <= WORDS
  {
    var top: Word := (At(s.mem, s.esp, 12) + WORDS - 4) % WORDS;
    s.(regs := s.regs.(eax := At(s.mem, s.esp, 10), ebx := top), eip := STORE, eflags := AluFlags(top))
  }

  // From `movl %eax, 0(%ebx)`, which does not fault, to `ret`.
  function Finish(s: State): State
    requires s.esp + FRAME <= WORDS && CanStore(s, s.regs.ebx)
  {
    var base, top := s.esp, s.regs.ebx;
    var m := Store(Store(s.mem, top, s.regs.eax), base + 48, top);
    var regs := Regs(At(m, base, 2), At(m, base, 3), At(m, base, 4),
                     At(m, base, 6), At(m, base, 7), At(m, base, 8), At(m, base, 9));
    LoadStored(Store(s.mem, top, s.regs.eax), base + 48, top);
    State(m, s.writable, regs, Load(m, top), top + 4, At(m, base, 11))
  }

  // What an addition leaves in eflags; only the zero flag is told apart.
  function AluFlags(result: Word): Word { if result == 0 then 0x46 else 2 }

  // The frame holds what was interrupted.
  ghost predicate Saved(m: Mem, base: nat, s: State)
    requires base + FRAME <= WORDS
  {
    && At(m, base, 2) == s.regs.edi && At(m, base, 3) == s.regs.esi && At(m, base, 4) == s.regs.ebp
    && At(m, base, 6) == s.regs.ebx && At(m, base, 7) == s.regs.edx && At(m, base, 8) == s.regs.ecx
    && At(m, base, 9) == s.regs.eax && At(m, base, 10) == s.eip && At(m, base, 11) == s.eflags
    && At(m, base, 12) == s.esp
  }

  lemma PushSaves(s: State, f: Fault, upcall: Word)
    requires Push(s, f, upcall).Started?
    ensures var t := Push(s, f, upcall).state;
      && t.esp == Base(s.esp) && t.writable == s.writable && XPAGE in s.writable
      && EXSTK <= t.esp && t.esp + FRAME <= UXSTACKTOP - 1 && Saved(t.mem, t.esp, s)
      && At(t.mem, t.esp, 0) == f.va && At(t.mem, t.esp, 1) == f.err && At(t.mem, t.esp, 5) == f.oesp
      && t.eip == upcall && t.regs == s.regs && t.eflags == s.eflags
      && (OnExceptionStack(s.esp) ==> Load(t.mem, s.esp - 4) == 0)
      && forall x :: 0 <= x < WORDS && !(t.esp <= x < t.esp + FRAME + (if OnExceptionStack(s.esp) then 4 else 0)) ==>
           t.mem[x] == s.mem[x]
  {
    hide Load, Store, StoreAll;
    var base := Base(s.esp);
    var m := if OnExceptionStack(s.esp) then Store(s.mem, s.esp - 4, 0) else s.mem;
    if OnExceptionStack(s.esp) {
      StoreElsewhere(s.mem, s.esp - 4, 0);
      LoadStored(s.mem, s.esp - 4, 0);
    }
    var ws := Words(f.va, f.err, s.regs, f.oesp, s.eip, s.eflags, s.esp);
    StoredAll(m, base, ws);
    assert forall i :: 0 <= i < 13 ==> At(StoreAll(m, base, ws), base, i) == ws[i];
    if OnExceptionStack(s.esp) {
      LoadSame(m, StoreAll(m, base, ws), s.esp - 4);
    }
  }

  // The word below the trap-time esp lies clear of the frame.
  predicate Clear(esp: Word, base: nat) { 4 <= esp && (esp <= base || base + FRAME <= esp - 4) }

  lemma UnwindRestores(u: State, s: State)
    requires u.esp + FRAME <= WORDS && Saved(u.mem, u.esp, s) && Clear(s.esp, u.esp)
    requires u.regs.eax == s.eip && u.regs.ebx == s.esp - 4 && CanStore(u, u.regs.ebx)
    ensures var t := Finish(u);
      && t.regs == s.regs && t.eip == s.eip && t.esp == s.esp && t.eflags == s.eflags && t.writable == u.writable
      && (forall x :: 0 <= x < WORDS && !(s.esp - 4 <= x < s.esp) && !(u.esp <= x < u.esp + FRAME) ==>
           t.mem[x] == u.mem[x])
  {
    hide Load, Store, CanStore;
    var base, top := u.esp, s.esp - 4;
    var m1 := Store(u.mem, top, s.eip);
    var m := Store(m1, base + 48, top);
    StoreElsewhere(u.mem, top, s.eip);
    StoreElsewhere(m1, base + 48, top);
    forall i | 2 <= i < 12
      ensures At(m, base, i) == At(u.mem, base, i)
    {
      LoadElsewhere(u.mem, top, s.eip, base + 4 * i);
      LoadElsewhere(m1, base + 48, top, base + 4 * i);
    }
    LoadStored(u.mem, top, s.eip);
    LoadElsewhere(m1, base + 48, top, top);
  }

  // ---------------------------------------------------------------- handlers that fault themselves

  const UPCALL: Word := 0x80_0020     // _pgfault_upcall
  const RETADDR: Word := 0x80_0028    // the addl after its call
  const STORE: Word := 0x80_0036      // its movl %eax, 0(%ebx)
  const HANDLER: Word := 0x80_0100    // *_pgfault_handler

  /** What a handler does: compute, leaving some state, or fault again.  Such a fault is served
      by a handler that does `body`, and the store of the epilogue faults once for each of
      `push` before it goes through. */
  datatype Act = Runs(to: State) | Faults(f: Fault, body: seq<Act>, push: seq<Act>)

  // A handler keeps its stack pointer at or below its return address on the exception stack,
  // which stays writable, and writes nothing above it.
  ghost predicate KeepsFrame(s: State, t: State, base: nat) {
    && EXSTK <= t.esp && t.esp + 8 <= base && XPAGE in t.writable
    && forall x: nat :: base <= x + 8 && x < UXSTACKTOP ==> t.mem[x] == s.mem[x]
  }

  // pushl %esp; movl _pgfault_handler, %eax; call *%eax
  function Enter(s: State): State
    requires EXSTK + 8 <= s.esp
  {
    var m := Store(Store(s.mem, s.esp - 4, s.esp), s.esp - 8, RETADDR);
    s.(mem := m, regs := s.regs.(eax := HANDLER), eip := HANDLER, esp := s.esp - 8)
  }

  // A fault, from the kernel's push to the `ret`; None where the program gets no further.
  ghost function Serve(s: State, fault: Act): Option<State>
    requires fault.Faults?
    decreases fault, 1
  {
    var r := Push(s, fault.f, UPCALL);
    if !r.Started? || r.state.esp < EXSTK + 8 then None
    else
      var base := r.state.esp;
      var h := Exec(Enter(r.state), base, fault.body);
      // the handler's ret, then addl $4, %esp
      if h.None? || h.value.esp + 8 != base || Load(h.value.mem, base - 8) != RETADDR then None
      else
        var u := Retry(AtStore(h.value.(eip := RETADDR, esp := base)), fault.push);
        if u.Some? && u.value.esp == base && CanStore(u.value, u.value.regs.ebx) then Some(Finish(u.value)) else None
  }

  // The store of the epilogue, served and tried again until the word is writable.
  ghost function Retry(s: State, push: seq<Act>): Option<State>
    decreases push, 0
  {
    if push == [] then (if CanStore(s, s.regs.ebx) then Some(s) else None)
    else if push[0].Runs? || CanStore(s, s.regs.ebx) then None
    else
      var r := Serve(s, push[0]);
      if r.None? then None else Retry(r.value, push[1..])
  }

  // The handler that runs with its frame at `base`.
  ghost function Exec(s: State, base: nat, acts: seq<Act>): Option<State>
    decreases acts, 0
  {
    if acts == [] then Some(s)
    else
      match acts[0]
      case Runs(t) => if KeepsFrame(s, t, base) then Exec(t, base, acts[1..]) else None
      case Faults(_, _, _) =>
        var r := Serve(s, acts[0]);
        if r.None? then None else Exec(r.value, base, acts[1..])
  }

  lemma EnterKeeps(s: State)
    requires EXSTK + 8 <= s.esp <= UXSTACKTOP
    ensures forall x :: s.esp <= x < UXSTACKTOP ==> Enter(s).mem[x] == s.mem[x]
  {
    hide Store;
    StoreElsewhere(s.mem, s.esp - 4, s.esp);
    StoreElsewhere(Store(s.mem, s.esp - 4, s.esp), s.esp - 8, RETADDR);
  }

  lemma SavedStays(m: Mem, m': Mem, base: nat, s: State)
    requires base + FRAME <= WORDS && Saved(m, base, s) && forall x :: base <= x < base + FRAME ==> m'[x] == m[x]
    ensures Saved(m', base, s)
  {
    hide Load;
    forall i | 0 <= i < 13
      ensures At(m', base, i) == At(m, base, i)
    {
      LoadSame(m, m', base + 4 * i);
    }
  }

  // Where the store can be made the frame is out of its way, one stack pointer apart.
  lemma StoreIsClear(s: State, esp: Word)
    requires CanStore(s, (esp + WORDS - 4) % WORDS)
    ensures 4 <= esp <= UXSTACKTOP && (esp + WORDS - 4) % WORDS == esp - 4
    ensures esp != UXSTACKTOP && EXSTK <= Base(esp) ==> Clear(esp, Base(esp))
  {
  }

  // What is left of a fault once the handler has returned.
  lemma {:induction false} EpilogueLaw(s: State, u: State, push: seq<Act>)
    requires Base(s.esp) == u.esp && EXSTK + 8 <= u.esp && u.esp + FRAME < UXSTACKTOP && XPAGE in u.writable
    requires Saved(u.mem, u.esp, s) && s.esp != UXSTACKTOP && Retry(AtStore(u), push).Some?
    ensures var v := Retry(AtStore(u), push).value;
      && v.esp == u.esp && CanStore(v, v.regs.ebx) && XPAGE in v.writable
      && v.regs.eax == s.eip && v.regs.ebx == s.esp - 4 && Clear(s.esp, u.esp) && s.esp < UXSTACKTOP
      && Saved(v.mem, u.esp, s)
      && (forall x :: u.esp <= x < UXSTACKTOP ==> v.mem[x] == u.mem[x])
    decreases push, 1
  {
    hide Load, Saved, CanStore, Serve, AluFlags;
    RetryKeeps(AtStore(u), push);
    var v := Retry(AtStore(u), push).value;
    SavedStays(u.mem, v.mem, u.esp, s);
    assert At(u.mem, u.esp, 12) == s.esp && At(u.mem, u.esp, 10) == s.eip by { SavedParts(u.mem, u.esp, s); }
    StoreIsClear(v, s.esp);
  }

  lemma SavedParts(m: Mem, base: nat, s: State)
    requires base + FRAME <= WORDS && Saved(m, base, s)
    ensures At(m, base, 12) == s.esp && At(m, base, 10) == s.eip
  {
  }

  lemma {:induction false} RetryKeeps(s: State, push: seq<Act>)
    requires EXSTK <= s.esp < UXSTACKTOP && XPAGE in s.writable && Retry(s, push).Some?
    ensures var t := Retry(s, push).value;
      && t.regs == s.regs && t.esp == s.esp && CanStore(t, t.regs.ebx) && XPAGE in t.writable
      && (forall x :: s.esp <= x < UXSTACKTOP ==> t.mem[x] == s.mem[x])
    decreases push, 0
  {
    hide Serve, CanStore;
    if push != [] {
      FaultIsInvisible(s, push[0]);
      RetryKeeps(Serve(s, push[0]).value, push[1..]);
    }
  }

  /** The upcall is invisible: whatever the handler does and however deep it faults itself,
      and however often the epilogue faults where it pushes the return address, the
      interrupted code goes on at its eip with its registers, flags and stack pointer, and,
      when it ran on the exception stack, with all of that stack above its stack pointer. */
  lemma {:induction false} FaultIsInvisible(s: State, fault: Act)
    requires fault.Faults? && Serve(s, fault).Some? && s.esp != UXSTACKTOP
    ensures var t := Serve(s, fault).value;
      && t.regs == s.regs && t.eip == s.eip && t.esp == s.esp && t.eflags == s.eflags && XPAGE in t.writable
      && (OnExceptionStack(s.esp) ==> forall x :: s.esp <= x < UXSTACKTOP ==> t.mem[x] == s.mem[x])
    decreases fault, 1
  {
    hide Load, Store, Push, Saved, Finish, CanStore, Exec, Retry, AtStore;
    PushSaves(s, fault.f, UPCALL);
    var p := Push(s, fault.f, UPCALL).state;
    var base := p.esp;
    var e := Enter(p);
    EnterKeeps(p);
    HandlerKeepsFrame(e, base, fault.body);
    var h := Exec(e, base, fault.body).value;
    SavedStays(p.mem, h.mem, base, s);
    var u := h.(eip := RETADDR, esp := base);
    EpilogueLaw(s, u, fault.push);
    UnwindRestores(Retry(AtStore(u), fault.push).value, s);
  }

  lemma {:induction false} HandlerKeepsFrame(s: State, base: nat, acts: seq<Act>)
    requires Exec(s, base, acts).Some? && EXSTK <= s.esp && s.esp + 8 <= base && base + FRAME < UXSTACKTOP
    requires XPAGE in s.writable
    ensures KeepsFrame(s, Exec(s, base, acts).value, base)
    decreases acts, 0
  {
    hide Serve;
    if acts != [] {
      match acts[0]
      case Runs(t) => HandlerKeepsFrame(t, base, acts[1..]);
      case Faults(_, _, _) =>
        FaultIsInvisible(s, acts[0]);
        HandlerKeepsFrame(Serve(s, acts[0]).value, base, acts[1..]);
    }
  }

  // ---------------------------------------------------------------- the top of the stack

  // Some fault taken with this stack pointer is served to its end.
  ghost predicate Served(esp: Word) {
    exists s: State, fault: Act :: s.esp == esp && fault.Faults? && Serve(s, fault).Some?
  }

  // Every fault served resumes where it was.
  ghost predicate Resumes(esp: Word) {
    forall s: State, fault: Act ::
      s.esp == esp && fault.Faults? && Serve(s, fault).Some? ==> Serve(s, fault).value.eip == s.eip
  }

  // Where the upcall is once a handler that does nothing has returned.
  function AfterReturn(s: State, f: Fault): State
    requires Push(s, f, UPCALL).Started? && EXSTK + 8 <= Push(s, f, UPCALL).state.esp
  {
    var p := Push(s, f, UPCALL).state;
    Enter(p).(eip := RETADDR, esp := p.esp)
  }

  lemma AfterReturnSaved(s: State, f: Fault)
    requires XPAGE in s.writable && EXSTK + 8 <= Base(s.esp)
    ensures Push(s, f, UPCALL).Started? && EXSTK + 8 <= Push(s, f, UPCALL).state.esp
    ensures var u := AfterReturn(s, f);
      && u.esp == Base(s.esp) && u.esp + FRAME < UXSTACKTOP && u.writable == s.writable
      && Saved(u.mem, u.esp, s) && Load(u.mem, u.esp - 8) == RETADDR
  {
    PushSaves(s, f, UPCALL);
    hide StoreAll, Store, Load, Words, Push, Saved;
    var p := Push(s, f, UPCALL).state;
    EnterKeeps(p);
    LoadStored(Store(p.mem, p.esp - 4, p.esp), p.esp - 8, RETADDR);
    SavedStays(p.mem, Enter(p).mem, p.esp, s);
  }

  // A handler that returns at once, with a writable word below the trap-time esp.
  lemma SimpleFault(s: State, f: Fault)
    requires XPAGE in s.writable && EXSTK + 8 <= Base(s.esp) && 4 <= s.esp && CanStore(s, s.esp - 4)
    ensures Push(s, f, UPCALL).Started? && EXSTK + 8 <= Push(s, f, UPCALL).state.esp
    ensures var u := AfterReturn(s, f);
      && u.esp == Base(s.esp) && u.esp + FRAME < UXSTACKTOP
      && At(u.mem, u.esp, 10) == s.eip && AtStore(u).regs.ebx == s.esp - 4 && CanStore(AtStore(u), s.esp - 4)
      && Serve(s, Faults(f, [], [])) == Some(Finish(AtStore(u)))
  {
    hide Load, Push, Enter, Finish, Base, AluFlags;
    AfterReturnSaved(s, f);
    var u := AfterReturn(s, f);
    var p := Push(s, f, UPCALL).state;
    assert Exec(Enter(p), p.esp, []) == Some(Enter(p));
    assert Retry(AtStore(u), []) == Some(AtStore(u));
    assert Enter(p).esp + 8 == p.esp by { EnterAt(p); }
  }

  lemma EnterAt(s: State)
    requires EXSTK + 8 <= s.esp
    ensures Enter(s).esp + 8 == s.esp
  {
  }

  // At the very top the return address lands in the frame.
  lemma OverlapLosesEip(s: State, f: Fault)
    requires s.esp == UXSTACKTOP && s.eip == 0 && XPAGE in s.writable
    ensures Serve(s, Faults(f, [], [])).Some? && Serve(s, Faults(f, [], [])).value.eip != 0
  {
    hide Serve, Finish, AtStore, AfterReturn;
    SimpleFault(s, f);
    OverlapUnwinds(AfterReturn(s, f));
  }

  lemma TopParts(top: Word)
    requires UXSTACKTOP - 4 <= top < UXSTACKTOP
    ensures Part(top, 1) != 0 && Part(top, 2) != 0 && Part(top, 3) != 0
  {
  }

  lemma OverlapUnwinds(u: State)
    requires u.esp == UXSTACKTOP - 1 - FRAME && At(u.mem, u.esp, 10) == 0
    requires AtStore(u).regs.ebx == UXSTACKTOP - 4 && CanStore(AtStore(u), UXSTACKTOP - 4)
    ensures Finish(AtStore(u)).eip != 0
  {
    var base, top: Word := u.esp, UXSTACKTOP - 4;
    var m1 := Store(u.mem, top, 0);
    var m := Store(m1, base + 48, top);
    TopParts(top);
    hide Part;
    assert m[base + 51] == Part(top, 3);
    assert Load(m, top) == Join(m[top], m[top + 1], m[top + 2], m[top + 3]);
    assert m[top] != 0;
  }

  // A program at `esp` that may write the word below it.
  function Program(esp: Word): State {
    var pages: set<nat> := {XPAGE, (esp + WORDS - 4) % WORDS / 4096, (esp + WORDS - 1) % WORDS / 4096};
    State(seq(WORDS, _ => 0), pages, Regs(0, 0, 0, 0, 0, 0, 0), 0, esp, 0)
  }

  lemma ProgramParts(esp: Word)
    ensures Program(esp).esp == esp && Program(esp).eip == 0 && XPAGE in Program(esp).writable
    ensures 4 <= esp <= UXSTACKTOP ==> CanStore(Program(esp), esp - 4)
  {
  }

  lemma ServedIff(esp: Word)
    ensures Served(esp) <==> 4 <= esp <= UXSTACKTOP && !(EXSTK <= esp < EXSTK + 12 + FRAME)
  {
    hide Serve, Program, CanStore;
    ProgramParts(esp);
    if 4 <= esp <= UXSTACKTOP && EXSTK + 8 <= Base(esp) {
      SimpleFault(Program(esp), Fault(0, 0, 0));
    }
    forall s: State, fault: Act | s.esp == esp && fault.Faults? && Serve(s, fault).Some?
      ensures 4 <= esp <= UXSTACKTOP && EXSTK + 8 <= Base(esp)
    {
      ServedIsPossible(s, fault);
    }
  }

  /** Over all stack pointers: a fault can be served if and only if the word below lies under
      UTOP and the frame fits the exception stack; those that are served resume where they
      were if and only if the stack pointer is not UXSTACKTOP itself. */
  lemma ResumesIff(esp: Word)
    ensures Served(esp) <==> 4 <= esp <= UXSTACKTOP && !(EXSTK <= esp < EXSTK + 12 + FRAME)
    ensures Resumes(esp) <==> esp != UXSTACKTOP
  {
    hide Serve, Program, Served;
    ServedIff(esp);
    if esp == UXSTACKTOP {
      ProgramParts(esp);
      OverlapLosesEip(Program(esp), Fault(0, 0, 0));
    } else {
      forall s: State, fault: Act | s.esp == esp && fault.Faults? && Serve(s, fault).Some?
        ensures Serve(s, fault).value.eip == s.eip
      {
        FaultIsInvisible(s, fault);
      }
    }
  }

  lemma ServedIsPossible(s: State, fault: Act)
    requires fault.Faults? && Serve(s, fault).Some?
    ensures 4 <= s.esp <= UXSTACKTOP && EXSTK + 8 <= Base(s.esp)
  {
    hide Load, Store, Push, Saved, Finish, CanStore, Exec, Retry, AtStore;
    PushSaves(s, fault.f, UPCALL);
    var p := Push(s, fault.f, UPCALL).state;
    if s.esp != UXSTACKTOP {
      var base := p.esp;
      var e := Enter(p);
      EnterKeeps(p);
      HandlerKeepsFrame(e, base, fault.body);
      var h := Exec(e, base, fault.body).value;
      SavedStays(p.mem, h.mem, base, s);
      EpilogueLaw(s, h.(eip := RETADDR, esp := base), fault.push);
    }
  }

  // ---------------------------------------------------------------- the code

  datatype Ending = EnvDestroyed | KernelPanic | UpcallStarts

  class Processor {
    var mem: Mem
    var writable: set<nat>
    var edi: Word
    var esi: Word
    var ebp: Word
    var ebx: Word
    var edx: Word
    var ecx: Word
    var eax: Word
    var eip: Word
    var esp: Word
    var eflags: Word

    constructor (s: State)
      ensures Now() == s
    {
      mem, writable, eip, esp, eflags := s.mem, s.writable, s.eip, s.esp, s.eflags;
      edi, esi, ebp, ebx := s.regs.edi, s.regs.esi, s.regs.ebp, s.regs.ebx;
      edx, ecx, eax := s.regs.edx, s.regs.ecx, s.regs.eax;
    }

    function Now(): State
      reads this
    {
      State(mem, writable, Regs(edi, esi, ebp, ebx, edx, ecx, eax), eip, esp, eflags)
    }

    method Popl() returns (w: Word)
      requires esp + 4 < WORDS
      modifies this`esp
      ensures w == Load(mem, old(esp)) && esp == old(esp) + 4
    {
      w := Load(mem, esp);
      esp := esp + 4;
    }

    method Addl(n: nat)
      requires esp + n < WORDS
      modifies this`esp, this`eflags
      ensures esp == old(esp) + n
    {
      esp := esp + n;
      eflags := AluFlags(esp);
    }

    // popal skips the saved esp.
    method Popal()
      requires esp + 32 < WORDS
      modifies this`edi, this`esi, this`ebp, this`ebx, this`edx, this`ecx, this`eax, this`esp
      ensures esp == old(esp) + 32
      ensures edi == Load(mem, old(esp)) && esi == Load(mem, old(esp) + 4) && ebp == Load(mem, old(esp) + 8)
      ensures ebx == Load(mem, old(esp) + 16) && edx == Load(mem, old(esp) + 20)
      ensures ecx == Load(mem, old(esp) + 24) && eax == Load(mem, old(esp) + 28)
    {
      hide Load;
      edi := Popl();
      esi := Popl();
      ebp := Popl();
      var skipped := Popl();
      ebx := Popl();
      edx := Popl();
      ecx := Popl();
      eax := Popl();
    }

    // _pgfault_upcall after the call has returned and its argument is popped, up to the store.
    method ToStore()
      requires esp + FRAME < WORDS
      modifies this`eax, this`ebx, this`eflags, this`eip
      ensures Now() == AtStore(old(Now()))
    {
      hide Load, AluFlags;
      eax := Load(mem, esp + 40);
      ebx := Load(mem, esp + 48);
      ebx := (ebx + WORDS - 4) % WORDS;
      eflags := AluFlags(ebx);
      eip := STORE;
    }

    // The rest of it; the store faults, and nothing changes, where the word is not writable.
    method FromStore() returns (faulted: bool)
      requires esp + FRAME < WORDS
      modifies this
      ensures faulted <==> !CanStore(old(Now()), old(ebx))
      ensures Now() == if faulted then old(Now()) else Finish(old(Now()))
    {
      hide Load, Store;
      if !CanStore(Now(), ebx) {
        return true;
      }
      mem := Store(mem, ebx, eax);
      LoadStored(mem, esp + 48, ebx);
      mem := Store(mem, esp + 48, ebx);
      eax := Popl();
      eax := Popl();
      Popal();
      Addl(4);
      eflags := Popl();
      esp := Load(mem, esp);
      eip := Popl();
      return false;
    }

    // *(struct UTrapframe *) a = utf
    method StoreFrame(a: nat, ws: seq<Word>)
      requires a + 4 * |ws| <= WORDS
      modifies this`mem
      ensures mem == StoreAll(old(mem), a, ws)
    {
      hide Load, Store;
      var i := 0;
      while i < |ws|
        invariant 0 <= i <= |ws|
        invariant StoreAll(mem, a + 4 * i, ws[i..]) == StoreAll(old(mem), a, ws)
      {
        assert ws[i..][1..] == ws[i + 1..];
        mem := Store(mem, a + 4 * i, ws[i]);
        i := i + 1;
      }
    }

    // page_fault_handler of a fault in user mode, up to the start of the upcall.
    method PageFaultHandler(f: Fault, upcall: Word) returns (outcome: Ending)
      modifies this
      ensures match Push(old(Now()), f, upcall)
        case Destroyed => outcome == EnvDestroyed
        case Panicked => outcome == KernelPanic
        case Started(t) => outcome == UpcallStarts && Now() == t
    {
      hide Load, Store, StoreAll;
      if upcall == 0 {
        return EnvDestroyed;
      }
      if XPAGE !in writable {
        return EnvDestroyed;
      }
      var top := UXSTACKTOP - 1;
      var utf := Words(f.va, f.err, Regs(edi, esi, ebp, ebx, edx, ecx, eax), f.oesp, eip, eflags, esp);
      var tmp := esp;
      if esp < EXSTK || esp > top {
        tmp := top - FRAME;
      } else {
        tmp := tmp - 4;
        mem := Store(mem, tmp, 0);
        tmp := tmp - FRAME;
      }
      StoreFrame(tmp, utf);
      if tmp < EXSTK || tmp > top {
        return KernelPanic;
      }
      esp := tmp;
      eip := upcall;
      return UpcallStarts;
    }
  }
}
