/** Rendezvous messages (sched/kern/syscall.c, sched/lib/ipc.c): environments that send with
    `ipc_send` and receive with `ipc_recv`, in every interleaving of their system calls. */
module Ipc {
  import opened Paging
  import opened PageCalls

  const E_IPC_NOT_RECV: nat := 7

  // The fields of struct Env that messages use; `runnable` is ENV_RUNNABLE or ENV_RUNNING.
  datatype Mailbox = Mailbox(runnable: bool, recving: bool, dstva: Word, value: Word, from: int, perm: nat)

  // Where an environment is in the library's code.
  datatype Pc =
    | Idle
    | Sending(dst: nat, value: Word, srcva: Word, perm: nat)   // in ipc_send's loop
    | Blocked(pg: Word)                                       // in sys_ipc_recv
    | GotFrom(pg: Word, from: int)                            // ipc_recv has read env_ipc_from
    | GotPerm(pg: Word, from: int, perm: nat)                 // ... and env_ipc_perm
    | Panicked

  // `at` is where a page goes: for the kernel env_ipc_dstva, for the receiver what it asked for.
  datatype Message = Message(from: int, value: Word, perm: nat, at: Word)

  /** `sent[d]` records what the successful sends to `d` delivered, `received[d]` what `d`'s
      calls of ipc_recv asked for and returned. */
  datatype System = System(boxes: seq<Mailbox>, pcs: seq<Pc>, sent: seq<seq<Message>>, received: seq<seq<Message>>)

  // ---------------------------------------------------------------- system calls

  datatype Sent = Sent(boxes: seq<Mailbox>, err: nat)

  // perm | PTE_U | PTE_P
  function WithUP(perm: nat): (r: nat)
    ensures r > 0
  {
    OrP(OrU(perm))
  }

  /** sys_ipc_try_send by `e`.  `srcOk` says that the source page has the permissions asked
      for, `pageErr` is what mapping it at the receiver answers. */
  function TrySend(boxes: seq<Mailbox>, e: nat, dst: nat, value: Word, srcva: Word, perm: nat,
                   srcOk: bool, pageErr: nat): Sent {
    if dst >= |boxes| then Sent(boxes, E_BAD_ENV)
    else if !boxes[dst].recving then Sent(boxes, E_IPC_NOT_RECV)
    else if srcva >= UTOP then Sent(Deliver(boxes, e, dst, value, 0), 0)
    else if srcva % PGSIZE != 0 || !srcOk then Sent(boxes, E_INVAL)
    else if boxes[dst].dstva == 0 then Sent(Deliver(boxes, e, dst, value, boxes[dst].perm), 0)
    else if pageErr != 0 then Sent(boxes, pageErr)
    else Sent(Deliver(boxes, e, dst, value, WithUP(perm)), 0)
  }

  function Deliver(boxes: seq<Mailbox>, e: nat, dst: nat, value: Word, perm: nat): seq<Mailbox>
    requires dst < |boxes|
  {
    boxes[dst := boxes[dst].(from := e, recving := false, value := value, perm := perm, runnable := true)]
  }

  function Receive(boxes: seq<Mailbox>, e: nat, dstva: Word): Sent
    requires e < |boxes|
  {
    var boxes1 := boxes[e := boxes[e].(recving := true)];
    if dstva >= UTOP || dstva % PGSIZE != 0 then Sent(boxes1, E_INVAL)
    else Sent(boxes1[e := boxes1[e].(dstva := dstva, runnable := false)], 0)
  }

  // The message a mailbox holds.
  function Delivered(box: Mailbox): Message { Message(box.from, box.value, box.perm, box.dstva) }

  // ---------------------------------------------------------------- steps

  datatype Move =
    | CallSend(e: nat, dst: nat, value: Word, pg: Word, perm: nat)
    | CallRecv(e: nat, pg: Word)
    | Try(e: nat, srcOk: bool, pageErr: nat)
    | Read(e: nat)

  predicate Enabled(s: System, m: Move) {
    m.e < |s.pcs| == |s.boxes| == |s.sent| == |s.received| &&
    match m
    case CallSend(e, _, _, _, _) => s.pcs[e] == Idle
    case CallRecv(e, _) => s.pcs[e] == Idle
    case Try(e, _, pageErr) => s.pcs[e].Sending? && pageErr != E_IPC_NOT_RECV
    case Read(e) => (s.pcs[e].Blocked? && s.boxes[e].runnable) || s.pcs[e].GotFrom? || s.pcs[e].GotPerm?
  }

  function Step(s: System, m: Move): System
    requires Enabled(s, m)
  {
    match m
    case CallSend(e, dst, value, pg, perm) =>
      s.(pcs := s.pcs[e := Sending(dst, value, if pg == 0 then UTOP else pg, perm)])
    case CallRecv(e, pg) =>
      var r := Receive(s.boxes, e, pg);
      if r.err == 0 then s.(boxes := r.boxes, pcs := s.pcs[e := Blocked(pg)]) else s.(boxes := r.boxes)
    case Try(e, srcOk, pageErr) =>
      var pc := s.pcs[e];
      var r := TrySend(s.boxes, e, pc.dst, pc.value, pc.srcva, pc.perm, srcOk, pageErr);
      if r.err == E_IPC_NOT_RECV then s
      else if r.err != 0 then s.(pcs := s.pcs[e := Panicked])
      else s.(boxes := r.boxes, pcs := s.pcs[e := Idle],
              sent := if pc.dst < |s.sent| && pc.dst < |r.boxes|
                then s.sent[pc.dst := s.sent[pc.dst] + [Delivered(r.boxes[pc.dst])]] else s.sent)
    case Read(e) =>
      match s.pcs[e] {
        case Blocked(pg) => s.(pcs := s.pcs[e := GotFrom(pg, s.boxes[e].from)])
        case GotFrom(pg, from) => s.(pcs := s.pcs[e := GotPerm(pg, from, s.boxes[e].perm)])
        case GotPerm(pg, from, perm) =>
          s.(pcs := s.pcs[e := Idle],
             received := s.received[e := s.received[e] + [Message(from, s.boxes[e].value, perm, pg)]])
        case _ => s
      }
  }

  // ---------------------------------------------------------------- exactly once

  // What holds of one environment: its mailbox, its place in the code and its two records.
  ghost predicate BoxOk(box: Mailbox, pc: Pc, sent: seq<Message>, received: seq<Message>) {
    && (box.recving <==> pc.Blocked? && !box.runnable)
    && (!box.runnable ==> pc.Blocked?)
    && (if (pc.Blocked? && box.runnable) || pc.GotFrom? || pc.GotPerm?
        then sent == received + [Delivered(box)]
        else sent == received)
    && (pc.Blocked? || pc.GotFrom? || pc.GotPerm? ==> pc.pg == box.dstva)
    && (pc.GotFrom? || pc.GotPerm? ==> pc.from == box.from)
    && (pc.GotPerm? ==> pc.perm == box.perm)
  }

  ghost predicate Inv(s: System) {
    && |s.pcs| == |s.boxes| == |s.sent| == |s.received|
    && forall d :: 0 <= d < |s.boxes| ==> BoxOk(s.boxes[d], s.pcs[d], s.sent[d], s.received[d])
  }

  // Receives give a page boundary below UTOP.
  predicate Safe(m: Move) { m.CallRecv? ==> m.pg < UTOP && m.pg % PGSIZE == 0 }

  lemma SafeStepKeeps(s: System, m: Move)
    requires Inv(s) && Enabled(s, m) && Safe(m)
    ensures Inv(Step(s, m))
  {
    var t := Step(s, m);
    assert BoxOk(s.boxes[m.e], s.pcs[m.e], s.sent[m.e], s.received[m.e]);
    forall d | 0 <= d < |t.boxes|
      ensures BoxOk(t.boxes[d], t.pcs[d], t.sent[d], t.received[d])
    {
      assert BoxOk(s.boxes[d], s.pcs[d], s.sent[d], s.received[d]);
    }
  }

  lemma UnsafeStepBreaks(s: System, m: Move)
    requires Inv(s) && Enabled(s, m) && !Safe(m)
    ensures !Inv(Step(s, m))
  {
    var t := Step(s, m);
    assert !BoxOk(t.boxes[m.e], t.pcs[m.e], t.sent[m.e], t.received[m.e]);
  }

  /** A receive at a bad address is what breaks the protocol, and nothing else: the flag is
      set before the address is looked at. */
  lemma StepKeepsIffSafe(s: System, m: Move)
    requires Inv(s) && Enabled(s, m)
    ensures Inv(Step(s, m)) <==> Safe(m)
  {
    if Safe(m) {
      SafeStepKeeps(s, m);
    } else {
      UnsafeStepBreaks(s, m);
    }
  }

  predicate Start(s: System) {
    && |s.pcs| == |s.boxes| == |s.sent| == |s.received|
    && forall d :: 0 <= d < |s.boxes| ==>
         s.boxes[d].runnable && !s.boxes[d].recving && s.pcs[d] == Idle && s.sent[d] == [] && s.received[d] == []
  }

  predicate Possible(s: System, moves: seq<Move>)
    decreases |moves|
  {
    moves == [] || (Enabled(s, moves[0]) && Possible(Step(s, moves[0]), moves[1..]))
  }

  predicate Legal(s: System, moves: seq<Move>) {
    Possible(s, moves) && forall i :: 0 <= i < |moves| ==> Safe(moves[i])
  }

  function Run(s: System, moves: seq<Move>): System
    requires Possible(s, moves)
    decreases |moves|
  {
    if moves == [] then s else Run(Step(s, moves[0]), moves[1..])
  }

  lemma {:induction false} RunKeeps(s: System, moves: seq<Move>)
    requires Inv(s) && Legal(s, moves)
    ensures Inv(Run(s, moves))
    decreases |moves|
  {
    hide Inv, Step, Enabled;
    if moves != [] {
      SafeStepKeeps(s, moves[0]);
      RunKeeps(Step(s, moves[0]), moves[1..]);
    }
  }

  // What each receiver was given is, in order, what was sent to it, at most one message behind.
  ghost predicate InOrder(s: System) {
    |s.sent| == |s.received| && forall d :: 0 <= d < |s.sent| ==> Follows(s.received[d], s.sent[d])
  }

  predicate Follows(received: seq<Message>, sent: seq<Message>) {
    received <= sent && |sent| <= |received| + 1
  }

  lemma InvIsInOrder(s: System)
    requires Inv(s)
    ensures InOrder(s)
  {
    forall d | 0 <= d < |s.sent|
      ensures Follows(s.received[d], s.sent[d])
    {
      assert BoxOk(s.boxes[d], s.pcs[d], s.sent[d], s.received[d]);
    }
  }

  /** Exactly once, in every interleaving of any number of senders: what a receiver's calls
      returned is, in order, the value, sender and permissions of the successful sends to it,
      each of which had its page mapped where that call asked for it, and at most one send is
      ahead of the receives. */
  lemma ExactlyOnce(s: System, moves: seq<Move>, d: nat)
    requires Start(s) && Legal(s, moves) && d < |s.boxes|
    ensures var t := Run(s, moves);
      && d < |t.sent| == |t.received| && InOrder(t)
      && t.received[d] <= t.sent[d] && |t.sent[d]| <= |t.received[d]| + 1
  {
    RunKeeps(s, moves);
    SameSize(s, moves);
    InvIsInOrder(Run(s, moves));
    assert Follows(Run(s, moves).received[d], Run(s, moves).sent[d]);
  }

  lemma {:induction false} SameSize(s: System, moves: seq<Move>)
    requires Inv(s) && Legal(s, moves)
    ensures |Run(s, moves).boxes| == |s.boxes|
    decreases |moves|
  {
    if moves != [] {
      SafeStepKeeps(s, moves[0]);
      SameSize(Step(s, moves[0]), moves[1..]);
    }
  }

  // ---------------------------------------------------------------- a receive at a bad address

  // One successful send of `o` to `e`, which is waiting or seems to be.
  function SentTo(s: System, e: nat, o: nat, value: Word): System
    requires |s.boxes| == |s.pcs| == |s.sent| == |s.received| && e < |s.boxes| && o < |s.boxes|
  {
    s.(boxes := Deliver(s.boxes, o, e, value, 0),
       sent := s.sent[e := s.sent[e] + [Message(o, value, 0, s.boxes[e].dstva)]])
  }

  lemma SendGoesThrough(s: System, e: nat, o: nat, value: Word)
    requires |s.boxes| == |s.pcs| == |s.sent| == |s.received| && e < |s.boxes| && o < |s.boxes|
    requires s.pcs[o] == Idle && s.boxes[e].recving
    ensures Legal(s, [CallSend(o, e, value, UTOP, 0), Try(o, true, 0)])
    ensures Run(s, [CallSend(o, e, value, UTOP, 0), Try(o, true, 0)]) == SentTo(s, e, o, value)
  {
    var m0, m1 := CallSend(o, e, value, UTOP, 0), Try(o, true, 0);
    var s1 := Step(s, m0);
    assert Step(s1, m1).pcs == s.pcs;
    OneMove(s, m0);
    OneMove(s1, m1);
    Joined(s, [m0], [m1]);
    assert [m0, m1] == [m0] + [m1];
  }

  lemma OneMove(s: System, m: Move)
    requires Enabled(s, m) && Safe(m)
    ensures Legal(s, [m]) && Run(s, [m]) == Step(s, m)
  {
    hide Step, Enabled;
    assert [m][0] == m && [m][1..] == [];
    assert Possible(Step(s, m), [m][1..]);
  }

  lemma {:induction false} Joined(s: System, a: seq<Move>, b: seq<Move>)
    requires Legal(s, a) && Legal(Run(s, a), b)
    ensures Legal(s, a + b) && Run(s, a + b) == Run(Run(s, a), b)
    decreases |a|
  {
    if a == [] {
      assert a + b == b;
    } else {
      assert (a + b)[1..] == a[1..] + b;
      Joined(Step(s, a[0]), a[1..], b);
    }
  }

  // What becomes of the receiver `e` when `o` sends it `x`, it waits at a proper address, and
  // `o` sends it `y`.
  function Overtaken(s: System, e: nat, o: nat, x: Word, y: Word): System
    requires |s.boxes| == |s.pcs| == |s.sent| == |s.received| && e < |s.boxes| && o < |s.boxes|
    requires s.pcs[e] == s.pcs[o] == Idle
  {
    SentTo(Step(SentTo(s, e, o, x), CallRecv(e, PGSIZE)), e, o, y)
  }

  lemma SecondSendOvertakes(s: System, e: nat, o: nat, x: Word, y: Word) returns (moves: seq<Move>)
    requires |s.boxes| == |s.pcs| == |s.sent| == |s.received| && e < |s.boxes| && o < |s.boxes| && e != o
    requires s.pcs[e] == s.pcs[o] == Idle && s.boxes[e].recving
    ensures Legal(s, moves) && Run(s, moves) == Overtaken(s, e, o, x, y)
  {
    var a := [CallSend(o, e, x, UTOP, 0), Try(o, true, 0)];
    var b := [CallRecv(e, PGSIZE)];
    var c := [CallSend(o, e, y, UTOP, 0), Try(o, true, 0)];
    SendGoesThrough(s, e, o, x);
    var s1 := SentTo(s, e, o, x);
    var s2 := Step(s1, CallRecv(e, PGSIZE));
    OneMove(s1, CallRecv(e, PGSIZE));
    Joined(s, a, b);
    SendGoesThrough(s2, e, o, y);
    Joined(s, a + b, c);
    moves := a + b + c;
  }

  // Two messages were sent to `e`, and ipc_recv returned the second only.
  ghost predicate MessageLost(s: System, t: System, e: nat, x: Message, y: Message) {
    && e < |s.sent| && |t.sent| == |t.received| == |s.sent|
    && t.sent[e] == s.sent[e] + [x, y] && t.received[e] == s.sent[e] + [y]
  }

  /** After a receive at a bad address the mailbox takes messages nobody waits for: the first
      is overwritten by the second before it is read, and ipc_recv returns the second as if
      it were the first. */
  lemma BadReceiveLosesMessage(s: System, e: nat, pg: Word, o: nat, x: Word, y: Word)
    requires Inv(s) && e < |s.boxes| && o < |s.boxes| && e != o && s.pcs[e] == s.pcs[o] == Idle && x != y
    requires !Safe(CallRecv(e, pg))
    ensures Enabled(s, CallRecv(e, pg))
    ensures exists moves ::
      Legal(Step(s, CallRecv(e, pg)), moves) && !InOrder(Run(Step(s, CallRecv(e, pg)), moves))
      && MessageLost(s, Run(Step(s, CallRecv(e, pg)), moves), e,
                     Message(o, x, 0, s.boxes[e].dstva), Message(o, y, 0, PGSIZE))
  {
    assert BoxOk(s.boxes[e], s.pcs[e], s.sent[e], s.received[e]);
    var t := Step(s, CallRecv(e, pg));
    var moves := SecondSendOvertakes(t, e, o, x, y);
    var u := Overtaken(t, e, o, x, y);
    var back := ReadOut(u, e);
    Joined(t, moves, back);
    var all := moves + back;
    assert MessageLost(s, Run(t, all), e, Message(o, x, 0, s.boxes[e].dstva), Message(o, y, 0, PGSIZE));
    assert Run(t, all).received[e][|s.sent[e]|] != Run(t, all).sent[e][|s.sent[e]|];
    assert !Follows(Run(t, all).received[e], Run(t, all).sent[e]);
    assert Legal(t, all) && !InOrder(Run(t, all));
  }

  // The three reads of ipc_recv.
  lemma ReadOut(s: System, e: nat) returns (moves: seq<Move>)
    requires |s.boxes| == |s.pcs| == |s.sent| == |s.received| && e < |s.boxes|
    requires s.pcs[e].Blocked? && s.boxes[e].runnable
    ensures Legal(s, moves) && Run(s, moves).sent == s.sent
    ensures var box := s.boxes[e];
      Run(s, moves).received == s.received[e := s.received[e] + [Message(box.from, box.value, box.perm, s.pcs[e].pg)]]
  {
    moves := [Read(e), Read(e), Read(e)];
    var s1 := Step(s, Read(e));
    var s2 := Step(s1, Read(e));
    OneMove(s, Read(e));
    OneMove(s1, Read(e));
    OneMove(s2, Read(e));
    Joined(s, [Read(e)], [Read(e)]);
    Joined(s, [Read(e)] + [Read(e)], [Read(e)]);
    assert moves == [Read(e)] + [Read(e)] + [Read(e)];
  }

  /** With another environment free to send, a step is safe if and only if messages stay in
      order in everything that safe steps can lead to afterwards. */
  lemma InOrderIffSafe(s: System, m: Move, o: nat)
    requires Inv(s) && Enabled(s, m) && o < |s.boxes| && o != m.e && s.pcs[o] == Idle
    ensures Safe(m) <==> forall moves :: Legal(Step(s, m), moves) ==> InOrder(Run(Step(s, m), moves))
  {
    hide Inv, Step, InOrder, Possible, Run;
    if Safe(m) {
      SafeStepKeeps(s, m);
      forall moves | Legal(Step(s, m), moves)
        ensures InOrder(Run(Step(s, m), moves))
      {
        RunKeeps(Step(s, m), moves);
        InvIsInOrder(Run(Step(s, m), moves));
      }
    } else {
      BadReceiveLosesMessage(s, m.e, m.pg, o, 1, 2);
    }
  }

  /** While a message waits to be read no other send to its receiver succeeds, and the
      mailbox keeps what was delivered. */
  lemma UnreadIsKept(s: System, m: Move, d: nat)
    requires Inv(s) && Enabled(s, m) && Safe(m) && d < |s.boxes| && |s.sent[d]| == |s.received[d]| + 1
    ensures var t := Step(s, m);
      && d < |t.sent| == |t.boxes| && t.sent[d] == s.sent[d]
      && Delivered(t.boxes[d]) == Delivered(s.boxes[d])
  {
    assert BoxOk(s.boxes[d], s.pcs[d], s.sent[d], s.received[d]);
  }

  /** env_ipc_perm after a successful send: the permissions when a page was mapped and 0 when
      none was offered, as documented; offered to a receiver at address 0, which takes no
      page, it stays what the receiver's last message left. */
  lemma PermIsExactIff(boxes: seq<Mailbox>, e: nat, dst: nat, value: Word, srcva: Word, perm: nat,
                      srcOk: bool, pageErr: nat)
    requires TrySend(boxes, e, dst, value, srcva, perm, srcOk, pageErr).err == 0
    ensures dst < |boxes| && |TrySend(boxes, e, dst, value, srcva, perm, srcOk, pageErr).boxes| == |boxes|
    ensures var mapped := srcva < UTOP && boxes[dst].dstva != 0;
      TrySend(boxes, e, dst, value, srcva, perm, srcOk, pageErr).boxes[dst].perm == (if mapped then WithUP(perm) else 0)
      <==> (mapped || UTOP <= srcva || boxes[dst].perm == 0)
  {
  }

  /** sys_ipc_try_send succeeds exactly when the receiver waits and what is offered can be
      handed over; it then leaves the message, and any error leaves everything as it was. */
  lemma TrySendIff(boxes: seq<Mailbox>, e: nat, dst: nat, value: Word, srcva: Word, perm: nat,
                   srcOk: bool, pageErr: nat)
    ensures var r := TrySend(boxes, e, dst, value, srcva, perm, srcOk, pageErr);
      && (r.err == 0 <==>
            (dst < |boxes| && boxes[dst].recving
             && (srcva < UTOP ==> (srcva % PGSIZE == 0 && srcOk && (boxes[dst].dstva != 0 ==> pageErr == 0)))))
      && (r.err != 0 ==> r.boxes == boxes)
      && (r.err == 0 ==>
            |r.boxes| == |boxes| && r.boxes == boxes[dst := r.boxes[dst]]
            && Delivered(r.boxes[dst]) == Message(e, value, r.boxes[dst].perm, boxes[dst].dstva)
            && r.boxes[dst].runnable && !r.boxes[dst].recving)
    ensures WithUP(perm) == BitOr(perm, 5)
  {
    OrUPIsOr(perm);
  }

  // ---------------------------------------------------------------- the code

  class Boxes {
    const envs: array<Mailbox>

    constructor (envs: array<Mailbox>)
      ensures this.envs == envs
    {
      this.envs := envs;
    }

    method SysIpcTrySend(e: nat, dst: nat, value: Word, srcva: Word, perm: nat, srcOk: bool, pageErr: nat)
      returns (err: nat)
      modifies envs
      ensures Sent(envs[..], err) == TrySend(old(envs[..]), e, dst, value, srcva, perm, srcOk, pageErr)
    {
      if dst >= envs.Length {
        return E_BAD_ENV;
      }
      if !envs[dst].recving {
        return E_IPC_NOT_RECV;
      }
      if srcva >= UTOP {
        envs[dst] := envs[dst].(perm := 0);
      } else {
        if srcva % PGSIZE != 0 {
          return E_INVAL;
        }
        if !srcOk {
          return E_INVAL;
        }
        if envs[dst].dstva != 0 {
          if pageErr != 0 {
            return pageErr;
          }
          envs[dst] := envs[dst].(perm := WithUP(perm));
        }
      }
      envs[dst] := envs[dst].(from := e);
      envs[dst] := envs[dst].(recving := false);
      envs[dst] := envs[dst].(value := value);
      envs[dst] := envs[dst].(runnable := true);
      return 0;
    }

    method SysIpcRecv(e: nat, dstva: Word) returns (err: nat)
      requires e < envs.Length
      modifies envs
      ensures Sent(envs[..], err) == Receive(old(envs[..]), e, dstva)
    {
      envs[e] := envs[e].(recving := true);
      if dstva >= UTOP || dstva % PGSIZE != 0 {
        return E_INVAL;
      }
      envs[e] := envs[e].(dstva := dstva);
      envs[e] := envs[e].(runnable := false);
      return 0;
    }
  }
}
