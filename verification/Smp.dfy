/** The processors, the big kernel lock and the environment states (sched/kern/spinlock.c,
    trap.c, env.c, sched.c, syscall.c) as a step relation over interleavings.

    A processor is at a program counter between two shared-memory accesses; the kernel code
    that runs with the lock held and touches only what the lock protects is one step per
    branch. */
module Smp {

  datatype Status = Free | Dying | Runnable | Running | NotRunnable

  datatype Env = Env(status: Status, recving: bool, id: int, parent: int, cpunum: int)

  // What brought the processor into the kernel.
  datatype From = FromUser | FromHalt | FromBoot

  datatype Pc =
    | Off                              // not started yet
    | User                             // runs its environment
    | Idle                             // in hlt, interrupts on
    | Check(from: From, again: bool)   // spin_lock: tests holding(); `again`: another lock_kernel follows
    | Spin(from: From, again: bool)    // spin_lock: before the xchg
    | Got(from: From, again: bool)     // spin_lock: xchg gave 0, lk->cpu not set yet
    | Entry(from: From)                // trap(), lock taken
    | Dispatch                         // trap_dispatch on behalf of curenv
    | Return                           // the end of trap()
    | Sched                            // sched_yield
    | Unlock(toUser: bool)             // spin_unlock: tests holding(), clears lk->cpu
    | Release(toUser: bool)            // spin_unlock: before the xchg
    | After                            // env_run, lock released
    | Monitor                          // no environment left to run
    | Panic

  const NULL: int := -1

  // `env` is cpu_env, `halted` says that cpu_status is CPU_HALTED.
  datatype Cpu = Cpu(pc: Pc, env: int, halted: bool)

  datatype Lock = Lock(locked: bool, cpu: int)

  datatype Machine = Machine(cpus: seq<Cpu>, envs: seq<Env>, lock: Lock)

  // What an environment asks for; `Fault` is any exception that kills it.  A call that names
  // a bad address ends in env_destroy and is a `Destroy`: of the caller, or for
  // sys_env_set_pgfault_upcall, which checks the address in the target, of a child.
  datatype Event =
    | Nothing
    | Yield
    | Fault
    | Destroy(e: nat)
    | Exofork(e: nat, id: int)
    | SetStatus(e: nat, runnable: bool)
    | Recv(aligned: bool)
    | Send(e: nat)

  // The choices a step leaves open: the event, or the scheduler's pick (NULL to halt).
  datatype Act = Go | Call(ev: Event) | Pick(e: int)

  // ---------------------------------------------------------------- steps

  function SetPc(s: Machine, c: nat, pc: Pc): Machine
    requires c < |s.cpus|
  {
    s.(cpus := s.cpus[c := s.cpus[c].(pc := pc)])
  }

  function SetEnv(s: Machine, e: nat, x: Env): Machine
    requires e < |s.envs|
  {
    s.(envs := s.envs[e := x])
  }

  // env_run up to unlock_kernel
  function EnvRun(s: Machine, c: nat, e: nat): Machine
    requires c < |s.cpus| && s.cpus[c].env < |s.envs| && e < |s.envs|
  {
    var cur := s.cpus[c].env;
    var s1 := if 0 <= cur && s.envs[cur].status == Running then SetEnv(s, cur, s.envs[cur].(status := Runnable)) else s;
    var s2 := SetEnv(s1, e, s1.envs[e].(status := Running));
    s2.(cpus := s2.cpus[c := s2.cpus[c].(env := e, pc := Unlock(true))])
  }

  // env_free of the environment this processor runs, and curenv = NULL
  function FreeCur(s: Machine, c: nat): Machine
    requires c < |s.cpus| && 0 <= s.cpus[c].env < |s.envs|
  {
    var cur := s.cpus[c].env;
    SetEnv(s, cur, s.envs[cur].(status := Free)).(cpus := s.cpus[c := s.cpus[c].(env := NULL, pc := Sched)])
  }

  // envid2env with checkperm set
  predicate MayTouch(s: Machine, c: nat, e: nat)
    requires c < |s.cpus| && 0 <= s.cpus[c].env < |s.envs|
  {
    e < |s.envs| && s.envs[e].status != Free
    && (e == s.cpus[c].env || s.envs[e].parent == s.envs[s.cpus[c].env].id)
  }

  function Apply(s: Machine, c: nat, ev: Event): Machine
    requires c < |s.cpus| && 0 <= s.cpus[c].env < |s.envs|
  {
    var cur := s.cpus[c].env;
    match ev
    case Nothing => SetPc(s, c, Return)
    case Yield => SetPc(s, c, Sched)
    case Fault => FreeCur(s, c)
    case Destroy(e) =>
      if !MayTouch(s, c, e) then SetPc(s, c, Return)
      else if s.envs[e].status == Running && e != cur then
        SetPc(SetEnv(s, e, s.envs[e].(status := Dying)), c, Return)
      else if e == cur then FreeCur(s, c)
      else SetPc(SetEnv(s, e, s.envs[e].(status := Free)), c, Return)
    case Exofork(e, id) =>
      if e < |s.envs| && s.envs[e].status == Free then
        SetPc(SetEnv(s, e, Env(NotRunnable, false, id, s.envs[cur].id, s.envs[e].cpunum)), c, Return)
      else SetPc(s, c, Return)
    case SetStatus(e, runnable) =>
      if !MayTouch(s, c, e) then SetPc(s, c, Return)
      else SetPc(SetEnv(s, e, s.envs[e].(status := if runnable then Runnable else NotRunnable)), c, Return)
    case Recv(aligned) =>
      var x := s.envs[cur].(recving := true);
      if aligned then SetPc(SetEnv(s, cur, x.(status := NotRunnable)), c, Sched)
      else SetPc(SetEnv(s, cur, x), c, Return)
    case Send(e) =>
      if e < |s.envs| && s.envs[e].status != Free && s.envs[e].recving then
        SetPc(SetEnv(s, e, s.envs[e].(recving := false, status := Runnable)), c, Return)
      else SetPc(s, c, Return)
  }

  // What either scheduler may choose: a RUNNABLE environment when there is one, else to go
  // on with the current one, else to halt.
  predicate MayPick(s: Machine, c: nat, e: int)
    requires c < |s.cpus| && s.cpus[c].env < |s.envs|
  {
    if exists x :: 0 <= x < |s.envs| && s.envs[x].status == Runnable
    then 0 <= e < |s.envs| && s.envs[e].status == Runnable
    else if 0 <= s.cpus[c].env && s.envs[s.cpus[c].env].status == Running then e == s.cpus[c].env
    else e == NULL
  }

  predicate Enabled(s: Machine, c: nat, act: Act) {
    c < |s.cpus| && s.cpus[c].env < |s.envs| &&
    match s.cpus[c].pc
    case Dispatch => act.Call? && 0 <= s.cpus[c].env
    case Sched => act.Pick? && MayPick(s, c, act.e)
    case After => act == Go && 0 <= s.cpus[c].env
    case Monitor => false
    case Panic => false
    case _ => act == Go
  }

  function Step(s: Machine, c: nat, act: Act): Machine
    requires Enabled(s, c, act)
  {
    var me := s.cpus[c];
    match me.pc
    case Off => s.(cpus := s.cpus[c := me.(pc := Check(FromBoot, false), halted := false)])
    // xchg(&thiscpu->cpu_status, CPU_STARTED) decides whether to take the lock here
    case User => s.(cpus := s.cpus[c := me.(pc := Check(FromUser, me.halted), halted := false)])
    case Idle =>
      s.(cpus := s.cpus[c := me.(pc := if me.halted then Check(FromHalt, false) else Entry(FromHalt), halted := false)])
    case Check(from, again) =>
      if s.lock.locked && s.lock.cpu == c then SetPc(s, c, Panic) else SetPc(s, c, Spin(from, again))
    case Spin(from, again) =>
      if s.lock.locked then s else SetPc(s, c, Got(from, again)).(lock := s.lock.(locked := true))
    case Got(from, again) =>
      SetPc(s, c, if again then Check(from, false) else Entry(from)).(lock := s.lock.(cpu := c))
    case Entry(from) =>
      if from != FromUser then SetPc(s, c, Sched)
      else if me.env < 0 then SetPc(s, c, Panic)
      else if s.envs[me.env].status == Dying then FreeCur(s, c)
      else SetPc(s, c, Dispatch)
    case Dispatch => Apply(s, c, act.ev)
    case Return =>
      if 0 <= me.env && s.envs[me.env].status == Running then EnvRun(s, c, me.env) else SetPc(s, c, Sched)
    case Sched =>
      if 0 <= act.e then EnvRun(s, c, act.e)
      else if forall x :: 0 <= x < |s.envs| ==> s.envs[x].status.Free? || s.envs[x].status.NotRunnable?
      then SetPc(s, c, Monitor)
      else s.(cpus := s.cpus[c := Cpu(Unlock(false), NULL, true)])
    case Unlock(toUser) =>
      if s.lock.locked && s.lock.cpu == c then SetPc(s, c, Release(toUser)).(lock := s.lock.(cpu := NULL))
      else SetPc(s, c, Panic)
    case Release(toUser) =>
      SetPc(s, c, if toUser then After else Idle).(lock := s.lock.(locked := false))
    case After => SetPc(SetEnv(s, me.env, s.envs[me.env].(cpunum := c)), c, User)
    case Monitor => s
    case Panic => s
  }

  // ---------------------------------------------------------------- the invariant

  // Between the xchg of spin_lock and the xchg of spin_unlock.
  predicate Inside(pc: Pc) {
    pc.Got? || pc.Entry? || pc.Dispatch? || pc.Return? || pc.Sched? || pc.Unlock? || pc.Release? || pc.Monitor?
  }

  ghost predicate LockOk(s: Machine) {
    && (forall c, d ::
          0 <= c < |s.cpus| && 0 <= d < |s.cpus| && Inside(s.cpus[c].pc) && Inside(s.cpus[d].pc) ==> c == d)
    && (s.lock.locked <==> exists c :: 0 <= c < |s.cpus| && Inside(s.cpus[c].pc))
    && (forall c :: 0 <= c < |s.cpus| && Inside(s.cpus[c].pc) ==>
          s.lock.cpu == if s.cpus[c].pc.Got? || s.cpus[c].pc.Release? then NULL else c)
    && (!s.lock.locked ==> s.lock.cpu == NULL)
  }

  predicate Busy(x: Env) { x.status == Running || x.status == Dying }

  // What a processor's program counter says about its environment and status word.
  predicate CpuOk(me: Cpu, envs: seq<Env>) {
    && NULL <= me.env < |envs|
    && me.pc != Panic
    && (me.halted <==> me.pc in {Idle, Unlock(false), Release(false)})
    && (me.pc.Check? || me.pc.Spin? || me.pc.Got? ==> !me.pc.again)
    && match me.pc
       case User => me.env != NULL && Busy(envs[me.env])
       case Check(from, _) => if from == FromUser then me.env != NULL && Busy(envs[me.env]) else me.env == NULL
       case Spin(from, _) => if from == FromUser then me.env != NULL && Busy(envs[me.env]) else me.env == NULL
       case Got(from, _) => if from == FromUser then me.env != NULL && Busy(envs[me.env]) else me.env == NULL
       case Entry(from) => if from == FromUser then me.env != NULL && Busy(envs[me.env]) else me.env == NULL
       case Dispatch => me.env != NULL && envs[me.env].status == Running
       case Return => me.env != NULL && envs[me.env].status in {Running, Runnable, NotRunnable}
       case Sched => me.env != NULL ==> envs[me.env].status in {Running, Runnable, NotRunnable}
       case Unlock(toUser) => if toUser then me.env != NULL && envs[me.env].status == Running else me.env == NULL
       case Release(toUser) => if toUser then me.env != NULL && envs[me.env].status == Running else me.env == NULL
       case After => me.env != NULL && Busy(envs[me.env])
       case Monitor => forall x :: 0 <= x < |envs| ==> !Busy(envs[x])
       case _ => me.env == NULL
  }

  ghost predicate EnvOk(s: Machine) {
    && (forall c :: 0 <= c < |s.cpus| ==> CpuOk(s.cpus[c], s.envs))
    && (forall c, d :: 0 <= c < |s.cpus| && 0 <= d < |s.cpus| && s.cpus[c].env == s.cpus[d].env != NULL ==> c == d)
    && (forall e :: 0 <= e < |s.envs| && Busy(s.envs[e]) ==> exists c :: 0 <= c < |s.cpus| && s.cpus[c].env == e)
    && (forall e :: 0 <= e < |s.envs| && s.envs[e].recving ==> s.envs[e].status in {NotRunnable, Free})
  }

  ghost predicate Inv(s: Machine) { LockOk(s) && EnvOk(s) }

  // ---------------------------------------------------------------- each step keeps it

  /** The calls a program has to make with care: no second destroy of a dying environment, no
      change of status of an environment that runs elsewhere or is being received for, and a
      receive at a page boundary. */
  predicate Safe(s: Machine, c: nat, act: Act)
    requires Enabled(s, c, act)
  {
    (s.cpus[c].pc == Dispatch && act.ev.Destroy? && MayTouch(s, c, act.ev.e) ==>
       s.envs[act.ev.e].status != Dying)
    && (s.cpus[c].pc == Dispatch && act.ev.SetStatus? && MayTouch(s, c, act.ev.e) ==>
       act.ev.e == s.cpus[c].env
       || (!Busy(s.envs[act.ev.e]) && (act.ev.runnable ==> !s.envs[act.ev.e].recving)))
    && (s.cpus[c].pc == Dispatch && act.ev.Recv? ==> act.ev.aligned)
  }

  // Holding the lock with lk->cpu set.
  predicate Owner(pc: Pc) { Inside(pc) && !pc.Got? && !pc.Release? }

  // How a step of processor `c` may move its program counter and the lock.
  predicate LockMove(c: nat, pc: Pc, lock: Lock, pc': Pc, lock': Lock) {
    || (!Inside(pc) && !Inside(pc') && lock' == lock)
    || (pc.Spin? && !lock.locked && pc'.Got? && lock' == lock.(locked := true))
    || (pc.Got? && Owner(pc') && lock' == lock.(cpu := c))
    || (Owner(pc) && Owner(pc') && lock' == lock)
    || (Owner(pc) && pc'.Release? && lock' == lock.(cpu := NULL))
    || (pc.Release? && !Inside(pc') && lock' == lock.(locked := false))
  }

  lemma StepMoves(s: Machine, c: nat, act: Act)
    requires Enabled(s, c, act) && CpuOk(s.cpus[c], s.envs)
    requires Owner(s.cpus[c].pc) ==> s.lock == Lock(true, c)
    requires s.cpus[c].pc.Check? ==> s.lock.cpu != c
    ensures var t := Step(s, c, act);
      && |t.cpus| == |s.cpus| && |t.envs| == |s.envs|
      && (forall d :: 0 <= d < |s.cpus| && d != c ==> t.cpus[d] == s.cpus[d])
      && LockMove(c, s.cpus[c].pc, s.lock, t.cpus[c].pc, t.lock)
  {
  }

  lemma MoveKeepsLock(s: Machine, t: Machine, c: nat)
    requires LockOk(s) && c < |s.cpus| == |t.cpus|
    requires forall d :: 0 <= d < |s.cpus| && d != c ==> t.cpus[d] == s.cpus[d]
    requires LockMove(c, s.cpus[c].pc, s.lock, t.cpus[c].pc, t.lock)
    ensures LockOk(t)
  {
    if Inside(s.cpus[c].pc) {
      assert s.lock.locked;
      assert forall d :: 0 <= d < |s.cpus| && d != c ==> !Inside(t.cpus[d].pc);
    } else if Inside(t.cpus[c].pc) {
      assert !s.lock.locked;
      assert forall d :: 0 <= d < |s.cpus| ==> !Inside(s.cpus[d].pc);
    } else if s.lock.locked {
      var h :| 0 <= h < |s.cpus| && Inside(s.cpus[h].pc);
      assert Inside(t.cpus[h].pc);
    }
  }

  lemma LockStep(s: Machine, c: nat, act: Act)
    requires Inv(s) && Enabled(s, c, act)
    ensures |Step(s, c, act).cpus| == |s.cpus| && LockOk(Step(s, c, act))
  {
    hide Step, LockMove, CpuOk, MayPick;
    assert CpuOk(s.cpus[c], s.envs);
    StepMoves(s, c, act);
    MoveKeepsLock(s, Step(s, c, act), c);
  }

  // ---------------------------------------------------------------- environments

  // What processors that do not hold the lock need to know of an environment stays true.
  lemma OthersKeep(me: Cpu, envs: seq<Env>, envs': seq<Env>)
    requires CpuOk(me, envs) && |envs'| == |envs|
    requires me.env != NULL && Busy(envs[me.env]) ==> Busy(envs'[me.env])
    requires !Inside(me.pc) || forall x :: 0 <= x < |envs| ==> envs'[x].status == envs[x].status
    ensures CpuOk(me, envs')
  {
  }

  ghost predicate RecvOk(envs: seq<Env>) {
    forall e :: 0 <= e < |envs| && envs[e].recving ==> envs[e].status in {NotRunnable, Free}
  }

  /** A step of processor `c` that changes statuses only inside the lock, takes over only
      environments nobody runs, and leaves every busy environment with a processor. */
  ghost predicate EnvMove(s: Machine, t: Machine, c: nat)
    requires c < |s.cpus|
  {
    && |t.cpus| == |s.cpus| && |t.envs| == |s.envs|
    && (forall d :: 0 <= d < |s.cpus| && d != c ==> t.cpus[d] == s.cpus[d])
    && (Inside(s.cpus[c].pc) || forall x :: 0 <= x < |s.envs| ==> t.envs[x].status == s.envs[x].status)
    && CpuOk(t.cpus[c], t.envs)
    && (t.cpus[c].env == NULL || t.cpus[c].env == s.cpus[c].env
        || (Inside(s.cpus[c].pc) && !Busy(s.envs[t.cpus[c].env])))
    && (forall x :: 0 <= x < |s.envs| && x != s.cpus[c].env && Busy(s.envs[x]) ==> Busy(t.envs[x]))
    && (forall x :: 0 <= x < |s.envs| && Busy(t.envs[x]) ==>
          x == t.cpus[c].env || (Busy(s.envs[x]) && x != s.cpus[c].env))
    && RecvOk(t.envs)
  }

  lemma KeepsEnv(s: Machine, t: Machine, c: nat)
    requires EnvOk(s) && LockOk(s) && c < |s.cpus| && EnvMove(s, t, c)
    ensures EnvOk(t)
  {
    hide CpuOk;
    forall d | 0 <= d < |s.cpus|
      ensures CpuOk(t.cpus[d], t.envs)
      ensures d != c && s.cpus[d].env != NULL ==> 0 <= s.cpus[d].env < |s.envs|
      ensures d != c && t.cpus[d].env != NULL ==> t.cpus[d].env != t.cpus[c].env
    {
      if d != c {
        Elsewhere(s, c, d);
        OthersKeep(s.cpus[d], s.envs, t.envs);
      }
    }
    forall x | 0 <= x < |t.envs| && Busy(t.envs[x])
      ensures exists d :: 0 <= d < |t.cpus| && t.cpus[d].env == x
    {
      if x != t.cpus[c].env {
        var d :| 0 <= d < |s.cpus| && s.cpus[d].env == x;
        assert t.cpus[d].env == x;
      }
    }
  }

  // What another processor runs, seen from a processor that holds the lock or not.
  lemma Elsewhere(s: Machine, c: nat, d: nat)
    requires EnvOk(s) && LockOk(s) && c < |s.cpus| && d < |s.cpus| && c != d
    ensures CpuOk(s.cpus[d], s.envs) && NULL <= s.cpus[d].env < |s.envs|
    ensures s.cpus[d].env != NULL ==> s.cpus[d].env != s.cpus[c].env
    ensures Inside(s.cpus[c].pc) ==> !Inside(s.cpus[d].pc)
    ensures s.cpus[d].env != NULL && !Inside(s.cpus[d].pc) ==> Busy(s.envs[s.cpus[d].env])
  {
  }

  // What a step needs to know about the processor that makes it.
  ghost predicate Local(s: Machine, c: nat, act: Act) {
    && Enabled(s, c, act) && CpuOk(s.cpus[c], s.envs) && RecvOk(s.envs)
    && (Owner(s.cpus[c].pc) ==> s.lock == Lock(true, c))
    && (s.cpus[c].pc.Check? ==> s.lock.cpu != c)
  }

  // The steps that touch no environment's status.
  lemma QuietStep(s: Machine, c: nat, act: Act)
    requires Local(s, c, act)
    requires s.cpus[c].pc in {Off, User, Idle, After} || s.cpus[c].pc.Check? || s.cpus[c].pc.Spin?
      || s.cpus[c].pc.Got? || s.cpus[c].pc.Unlock? || s.cpus[c].pc.Release?
    ensures EnvMove(s, Step(s, c, act), c)
  {
    hide MayPick;
  }

  lemma RunMoves(s: Machine, c: nat, e: nat)
    requires c < |s.cpus| && CpuOk(s.cpus[c], s.envs) && RecvOk(s.envs) && e < |s.envs|
    requires Inside(s.cpus[c].pc) && !s.cpus[c].halted
    requires s.cpus[c].env != NULL ==> s.envs[s.cpus[c].env].status != Dying
    requires s.envs[e].status == Runnable || (e == s.cpus[c].env && s.envs[e].status == Running)
    ensures EnvMove(s, EnvRun(s, c, e), c)
  {
  }

  lemma FreeMoves(s: Machine, c: nat)
    requires c < |s.cpus| && CpuOk(s.cpus[c], s.envs) && RecvOk(s.envs) && s.cpus[c].env != NULL
    requires Inside(s.cpus[c].pc) && !s.cpus[c].halted
    ensures EnvMove(s, FreeCur(s, c), c)
  {
  }

  lemma LoudStep(s: Machine, c: nat, act: Act)
    requires Local(s, c, act) && (s.cpus[c].pc in {Return, Sched} || s.cpus[c].pc.Entry?)
    ensures EnvMove(s, Step(s, c, act), c)
  {
    var me := s.cpus[c];
    if me.pc.Entry? && me.pc.from == FromUser && s.envs[me.env].status == Dying {
      FreeMoves(s, c);
    } else if me.pc == Return && s.envs[me.env].status == Running {
      RunMoves(s, c, me.env);
    } else if me.pc == Sched && 0 <= act.e {
      RunMoves(s, c, act.e);
    }
  }

  lemma Here(s: Machine, c: nat, act: Act)
    requires Inv(s) && Enabled(s, c, act)
    ensures Local(s, c, act) && c < |s.cpus| && s.cpus[c].pc != Monitor && s.cpus[c].pc != Panic
  {
    assert CpuOk(s.cpus[c], s.envs);
    hide CpuOk, MayPick;
  }

  // A call that changes one environment: the current one, or another one no processor loses.
  lemma TouchMoves(s: Machine, c: nat, e: nat, x: Env, pc: Pc)
    requires c < |s.cpus| && CpuOk(s.cpus[c], s.envs) && RecvOk(s.envs) && e < |s.envs|
    requires s.cpus[c].pc == Dispatch && pc in {Return, Sched}
    requires e != s.cpus[c].env ==> (Busy(s.envs[e]) <==> Busy(x))
    requires e == s.cpus[c].env ==> x.status in {Running, Runnable, NotRunnable}
    requires x.recving ==> x.status in {NotRunnable, Free}
    ensures EnvMove(s, SetPc(SetEnv(s, e, x), c, pc), c)
  {
  }

  lemma PcMoves(s: Machine, c: nat, pc: Pc)
    requires c < |s.cpus| && CpuOk(s.cpus[c], s.envs) && RecvOk(s.envs)
    requires s.cpus[c].pc == Dispatch && pc in {Return, Sched}
    ensures EnvMove(s, SetPc(s, c, pc), c)
  {
  }

  lemma CallStep(s: Machine, c: nat, act: Act)
    requires Local(s, c, act) && s.cpus[c].pc == Dispatch && Safe(s, c, act)
    ensures EnvMove(s, Step(s, c, act), c)
  {
    var cur := s.cpus[c].env;
    assert 0 <= cur && s.envs[cur].status == Running;
    hide EnvMove, SetPc, SetEnv, FreeCur, CpuOk, MayPick, RecvOk;
    PcMoves(s, c, Return);
    PcMoves(s, c, Sched);
    FreeMoves(s, c);
    RecvAt(s.envs);
    match act.ev {
      case Destroy(e) =>
        if MayTouch(s, c, e) && e != cur {
          TouchMoves(s, c, e, s.envs[e].(status := if s.envs[e].status == Running then Dying else Free), Return);
        }
      case Exofork(e, id) =>
        if e < |s.envs| && s.envs[e].status == Free {
          TouchMoves(s, c, e, Env(NotRunnable, false, id, s.envs[cur].id, s.envs[e].cpunum), Return);
        }
      case SetStatus(e, runnable) =>
        if MayTouch(s, c, e) {
          TouchMoves(s, c, e, s.envs[e].(status := if runnable then Runnable else NotRunnable), Return);
        }
      case Recv(_) => TouchMoves(s, c, cur, s.envs[cur].(recving := true).(status := NotRunnable), Sched);
      case Send(e) =>
        if e < |s.envs| && s.envs[e].status != Free && s.envs[e].recving {
          TouchMoves(s, c, e, s.envs[e].(recving := false, status := Runnable), Return);
        }
      case _ =>
    }
  }

  lemma RecvAt(envs: seq<Env>)
    requires RecvOk(envs)
    ensures forall e :: 0 <= e < |envs| && envs[e].recving ==> envs[e].status in {NotRunnable, Free}
  {
  }

  lemma EnvStep(s: Machine, c: nat, act: Act)
    requires Inv(s) && Enabled(s, c, act) && Safe(s, c, act)
    ensures EnvOk(Step(s, c, act))
  {
    hide Step, Enabled, EnvMove, CpuOk, Safe, Local;
    Here(s, c, act);
    if s.cpus[c].pc in {Return, Sched} || s.cpus[c].pc.Entry? {
      LoudStep(s, c, act);
    } else if s.cpus[c].pc == Dispatch {
      CallStep(s, c, act);
    } else {
      QuietStep(s, c, act);
    }
    KeepsEnv(s, Step(s, c, act), c);
  }

  // An environment another processor runs cannot lose its busy status.
  lemma LostEnv(s: Machine, t: Machine, c: nat, e: nat)
    requires Inv(s) && c < |s.cpus| && Inside(s.cpus[c].pc) && e < |s.envs| && Busy(s.envs[e]) && e != s.cpus[c].env
    requires |t.cpus| == |s.cpus| && |t.envs| == |s.envs| && !Busy(t.envs[e])
    requires forall d :: 0 <= d < |s.cpus| && d != c ==> t.cpus[d] == s.cpus[d]
    ensures !EnvOk(t)
  {
    var d :| 0 <= d < |s.cpus| && s.cpus[d].env == e;
    Elsewhere(s, c, d);
    assert !CpuOk(t.cpus[d], t.envs);
  }

  lemma UnsafeCall(s: Machine, c: nat, act: Act)
    requires Inv(s) && Enabled(s, c, act) && !Safe(s, c, act)
    ensures !EnvOk(Step(s, c, act))
  {
    var t := Step(s, c, act);
    match act.ev {
      case Recv(_) => assert t.envs[s.cpus[c].env].recving;
      case Destroy(e) => DyingElsewhere(s, c); LostEnv(s, t, c, e);
      case SetStatus(e, _) =>
        if Busy(s.envs[e]) {
          LostEnv(s, t, c, e);
        } else {
          assert t.envs[e].recving;
        }
      case _ =>
    }
  }

  lemma DyingElsewhere(s: Machine, c: nat)
    requires Inv(s) && c < |s.cpus| && s.cpus[c].pc == Dispatch
    ensures 0 <= s.cpus[c].env < |s.envs| && s.envs[s.cpus[c].env].status == Running
  {
    assert CpuOk(s.cpus[c], s.envs);
  }

  /** One step of one processor: the invariant survives exactly the safe ones. */
  lemma StepKeepsExactlySafe(s: Machine, c: nat, act: Act)
    requires Inv(s) && Enabled(s, c, act)
    ensures Inv(Step(s, c, act)) <==> Safe(s, c, act)
  {
    hide Step, Enabled, EnvOk, LockOk, Safe;
    LockStep(s, c, act);
    if Safe(s, c, act) {
      EnvStep(s, c, act);
    } else {
      UnsafeCall(s, c, act);
    }
  }

  // ---------------------------------------------------------------- whole runs

  datatype Move = Move(cpu: nat, act: Act)

  // i386_init in the scheduler with the lock taken, the other processors not started.
  predicate Boot(s: Machine) {
    && 0 < |s.cpus| && s.lock == Lock(true, 0) && s.cpus[0] == Cpu(Sched, NULL, false)
    && (forall c :: 0 < c < |s.cpus| ==> s.cpus[c] == Cpu(Off, NULL, false))
    && (forall e :: 0 <= e < |s.envs| ==> s.envs[e].status in {Free, Runnable} && !s.envs[e].recving)
  }

  predicate Possible(s: Machine, moves: seq<Move>)
    decreases |moves|
  {
    moves == [] ||
    (Enabled(s, moves[0].cpu, moves[0].act) && Possible(Step(s, moves[0].cpu, moves[0].act), moves[1..]))
  }

  predicate AllSafe(s: Machine, moves: seq<Move>)
    requires Possible(s, moves)
    decreases |moves|
  {
    moves == [] ||
    (Safe(s, moves[0].cpu, moves[0].act) && AllSafe(Step(s, moves[0].cpu, moves[0].act), moves[1..]))
  }

  predicate Legal(s: Machine, moves: seq<Move>) { Possible(s, moves) && AllSafe(s, moves) }

  function Final(s: Machine, moves: seq<Move>): Machine
    requires Possible(s, moves)
    decreases |moves|
  {
    if moves == [] then s else Final(Step(s, moves[0].cpu, moves[0].act), moves[1..])
  }

  lemma BootInv(s: Machine)
    requires Boot(s)
    ensures Inv(s)
  {
    assert Inside(s.cpus[0].pc);
  }

  lemma {:induction false} RunKeepsInv(s: Machine, moves: seq<Move>)
    requires Inv(s) && Legal(s, moves)
    ensures Inv(Final(s, moves))
    decreases |moves|
  {
    hide Inv, Step, Enabled, Safe;
    if moves != [] {
      StepKeepsExactlySafe(s, moves[0].cpu, moves[0].act);
      RunKeepsInv(Step(s, moves[0].cpu, moves[0].act), moves[1..]);
    }
  }

  // The environments RUNNING or DYING are the ones in some cpu_env, each in one only.
  ghost predicate Owned(s: Machine) {
    && (forall e :: 0 <= e < |s.envs| ==>
          (Busy(s.envs[e]) <==> exists c :: 0 <= c < |s.cpus| && s.cpus[c].env == e))
    && (forall c, d :: 0 <= c < |s.cpus| && 0 <= d < |s.cpus| && s.cpus[c].env == s.cpus[d].env != NULL ==> c == d)
  }

  /** In every run from boot, over every interleaving: at most one processor is between lock
      and unlock, no processor panics over the lock or over curenv, and whenever the lock is
      free the RUNNING and DYING environments are exactly the non-null curenvs, no two
      processors sharing one. */
  lemma LockFreeMeansOwned(s: Machine, moves: seq<Move>)
    requires Boot(s) && Legal(s, moves)
    ensures var t := Final(s, moves);
      && (forall c, d ::
            0 <= c < |t.cpus| && 0 <= d < |t.cpus| && Inside(t.cpus[c].pc) && Inside(t.cpus[d].pc) ==> c == d)
      && (forall c :: 0 <= c < |t.cpus| ==> t.cpus[c].pc != Panic)
      && (!t.lock.locked ==> Owned(t))
      && (forall c, d :: 0 <= c < d < |t.cpus| && t.cpus[c].pc == t.cpus[d].pc == User ==>
            t.cpus[c].env != t.cpus[d].env)
  {
    BootInv(s);
    RunKeepsInv(s, moves);
    var t := Final(s, moves);
    InvMeansOwned(t);
  }

  lemma InvMeansOwned(t: Machine)
    requires Inv(t)
    ensures !t.lock.locked ==> Owned(t)
    ensures forall c :: 0 <= c < |t.cpus| ==> t.cpus[c].pc != Panic
    ensures forall c :: 0 <= c < |t.cpus| && t.cpus[c].pc == User ==> t.cpus[c].env != NULL
  {
    forall c | 0 <= c < |t.cpus|
      ensures t.cpus[c].pc != Panic
      ensures t.cpus[c].pc == User ==> t.cpus[c].env != NULL
      ensures !t.lock.locked && t.cpus[c].env != NULL ==> 0 <= t.cpus[c].env < |t.envs| && Busy(t.envs[t.cpus[c].env])
    {
      assert CpuOk(t.cpus[c], t.envs);
    }
    hide CpuOk;
  }

  /** A processor enters the kernel monitor for good only when no processor has anything
      left to run. */
  lemma MonitorMeansIdle(s: Machine, moves: seq<Move>, c: nat)
    requires Boot(s) && Legal(s, moves) && c < |Final(s, moves).cpus| && Final(s, moves).cpus[c].pc == Monitor
    ensures forall d :: 0 <= d < |Final(s, moves).cpus| && d != c ==> Final(s, moves).cpus[d].env == NULL
  {
    BootInv(s);
    RunKeepsInv(s, moves);
    var t := Final(s, moves);
    assert CpuOk(t.cpus[c], t.envs);
    forall d | 0 <= d < |t.cpus| && d != c
      ensures t.cpus[d].env == NULL
    {
      Elsewhere(t, c, d);
    }
  }

  // ---------------------------------------------------------------- what the excluded calls lead to

  // Whenever the lock is free, ownership is exact.
  ghost predicate OwnedWhenFree(s: Machine) { !s.lock.locked ==> Owned(s) }

  lemma OneMove(s: Machine, c: nat, act: Act)
    requires Enabled(s, c, act) && Safe(s, c, act)
    ensures Legal(s, [Move(c, act)]) && Final(s, [Move(c, act)]) == Step(s, c, act)
  {
    hide Step, Enabled, Safe;
    var moves := [Move(c, act)];
    assert moves[0].cpu == c && moves[0].act == act && moves[1..] == [];
    assert Possible(Step(s, c, act), moves[1..]);
    assert AllSafe(Step(s, c, act), moves[1..]);
  }

  lemma {:induction false} Joined(s: Machine, a: seq<Move>, b: seq<Move>)
    requires Legal(s, a) && Legal(Final(s, a), b)
    ensures Legal(s, a + b) && Final(s, a + b) == Final(Final(s, a), b)
    decreases |a|
  {
    hide Step, Enabled, Safe;
    if a == [] {
      assert a + b == b;
    } else {
      assert (a + b)[1..] == a[1..] + b && (a + b)[0] == a[0];
      Joined(Step(s, a[0].cpu, a[0].act), a[1..], b);
    }
  }

  // A run goes on by one more step.
  lemma Extend(s: Machine, a: seq<Move>, c: nat, act: Act) returns (b: seq<Move>)
    requires Legal(s, a) && Enabled(Final(s, a), c, act) && Safe(Final(s, a), c, act)
    ensures Legal(s, b) && Final(s, b) == Step(Final(s, a), c, act)
  {
    hide Step, Enabled, Safe;
    OneMove(Final(s, a), c, act);
    Joined(s, a, [Move(c, act)]);
    b := a + [Move(c, act)];
  }

  // Processor `c` back in its environment's hands, the lock free.
  function Left(s: Machine, c: nat): Machine
    requires c < |s.cpus|
  {
    Machine(s.cpus[c := s.cpus[c].(pc := After)], s.envs, Lock(false, NULL))
  }

  // Processor `c` in the kernel on behalf of its environment.
  function InKernel(s: Machine, c: nat): Machine
    requires c < |s.cpus|
  {
    Machine(s.cpus[c := s.cpus[c].(pc := Dispatch)], s.envs, Lock(true, c))
  }

  ghost predicate Runs(s: Machine, c: nat, pc: Pc) {
    && c < |s.cpus| && s.cpus[c].pc == pc && !s.cpus[c].halted
    && 0 <= s.cpus[c].env < |s.envs| && s.envs[s.cpus[c].env].status == Running
  }

  lemma Unlocks(s: Machine, c: nat) returns (moves: seq<Move>)
    requires Runs(s, c, Unlock(true)) && s.lock == Lock(true, c)
    ensures Legal(s, moves) && Final(s, moves) == Left(s, c)
  {
    OneMove(s, c, Go);
    moves := [Move(c, Go)];
    moves := Extend(s, moves, c, Go);
    assert Final(s, moves) == Left(s, c);
  }

  lemma Leaves(s: Machine, c: nat) returns (moves: seq<Move>)
    requires Runs(s, c, Return) && s.lock == Lock(true, c)
    ensures Legal(s, moves) && Final(s, moves) == Left(s, c)
  {
    OneMove(s, c, Go);
    var s1 := Step(s, c, Go);
    assert s1.envs == s.envs && s1.cpus == s.cpus[c := s.cpus[c].(pc := Unlock(true))];
    var rest := Unlocks(s1, c);
    Joined(s, [Move(c, Go)], rest);
    moves := [Move(c, Go)] + rest;
    assert Final(s, moves) == Left(s, c);
  }

  // The same machine with processor `c` at `pc`.
  function Now(s: Machine, c: nat, pc: Pc, lock: Lock): Machine
    requires c < |s.cpus|
  {
    Machine(s.cpus[c := s.cpus[c].(pc := pc)], s.envs, lock)
  }

  lemma Takes(s: Machine, c: nat) returns (moves: seq<Move>)
    requires Runs(s, c, User) && s.lock == Lock(false, NULL)
    ensures Legal(s, moves) && Final(s, moves) == Now(s, c, Got(FromUser, false), Lock(true, NULL))
  {
    OneMove(s, c, Go);
    moves := [Move(c, Go)];
    assert Final(s, moves) == Now(s, c, Check(FromUser, false), Lock(false, NULL));
    moves := Extend(s, moves, c, Go);
    assert Final(s, moves) == Now(s, c, Spin(FromUser, false), Lock(false, NULL));
    moves := Extend(s, moves, c, Go);
  }

  lemma Enters(s: Machine, c: nat) returns (moves: seq<Move>)
    requires Runs(s, c, User) && s.lock == Lock(false, NULL)
    ensures Legal(s, moves) && Final(s, moves) == InKernel(s, c)
  {
    moves := Takes(s, c);
    moves := Extend(s, moves, c, Go);
    assert Final(s, moves) == Now(s, c, Entry(FromUser), Lock(true, c));
    moves := Extend(s, moves, c, Go);
  }

  // `d`'s environment sends to `e`, which takes messages while it runs on `c`.
  lemma SentWhileRunning(s: Machine, c: nat, e: nat, d: nat) returns (moves: seq<Move>)
    requires Runs(s, d, User) && s.lock == Lock(false, NULL) && c < |s.cpus| && c != d && s.cpus[c].env == e < |s.envs|
    requires s.envs[e].recving && s.envs[e].status != Free && s.cpus[d].env != e
    ensures Legal(s, moves) && !OwnedWhenFree(Final(s, moves))
  {
    moves := Enters(s, d);
    var s1 := InKernel(s, d);
    moves := Extend(s, moves, d, Call(Send(e)));
    var s2 := Step(s1, d, Call(Send(e)));
    assert s2.envs[e].status == Runnable && s2.cpus[c].env == e;
    var rest := Leaves(s2, d);
    Joined(s, moves, rest);
    moves := moves + rest;
    assert Left(s2, d).cpus[c].env == e && !Busy(Left(s2, d).envs[e]);
  }

  // An environment that another processor runs is no longer busy once this one leaves.
  lemma LostLeadsOn(s: Machine, c: nat, e: nat, d: nat) returns (moves: seq<Move>)
    requires Runs(s, c, Return) && s.lock == Lock(true, c) && e < |s.envs| && !Busy(s.envs[e])
    requires d < |s.cpus| && d != c && s.cpus[d].env == e
    ensures Legal(s, moves) && !OwnedWhenFree(Final(s, moves))
  {
    moves := Leaves(s, c);
    assert Left(s, c).cpus[d].env == e;
  }

  // A blocked receiver that was woken is run here.
  lemma WokenRuns(s: Machine, c: nat, e: nat) returns (moves: seq<Move>, t: Machine)
    requires Runs(s, c, User) && s.lock == Lock(false, NULL) && e < |s.envs| && s.envs[e].status == Runnable
    requires s.envs[e].recving && s.cpus[c].env != e
    ensures Legal(s, moves) && Final(s, moves) == t && t.lock == Lock(false, NULL)
    ensures |t.cpus| == |s.cpus| && |t.envs| == |s.envs| && t.cpus[c].env == e
    ensures forall d :: 0 <= d < |s.cpus| && d != c ==> t.cpus[d] == s.cpus[d]
    ensures forall x :: 0 <= x < |s.envs| && x != e && x != s.cpus[c].env ==> t.envs[x] == s.envs[x]
    ensures t.envs[e] == s.envs[e].(status := Running)
  {
    moves := Enters(s, c);
    var s3 := InKernel(s, c);
    moves := Extend(s, moves, c, Call(Yield));
    var s4 := Step(s3, c, Call(Yield));
    assert s4.envs[e].status == Runnable;
    moves := Extend(s, moves, c, Pick(e));
    var s5 := Step(s4, c, Pick(e));
    var out5 := Unlocks(s5, c);
    Joined(s, moves, out5);
    moves := moves + out5;
    t := Left(s5, c);
  }

  // ... and takes a message while it runs.
  lemma WokenLeadsOn(s: Machine, c: nat, e: nat, d: nat) returns (moves: seq<Move>)
    requires Runs(s, c, Return) && s.lock == Lock(true, c) && Runs(s, d, User) && c != d
    requires e < |s.envs| && s.envs[e].status == Runnable && s.envs[e].recving && s.cpus[c].env != s.cpus[d].env
    ensures Legal(s, moves) && !OwnedWhenFree(Final(s, moves))
  {
    moves := Leaves(s, c);
    moves := Extend(s, moves, c, Go);
    var s2 := Step(Left(s, c), c, Go);
    var more, t := WokenRuns(s2, c, e);
    Joined(s, moves, more);
    moves := moves + more;
    var rest := SentWhileRunning(t, c, e, d);
    Joined(s, moves, rest);
    moves := moves + rest;
  }

  // What the invariant says of a processor that dispatches and of one in user mode.
  lemma TwoProcessors(s: Machine, c: nat, d: nat)
    requires Inv(s) && c < |s.cpus| && d < |s.cpus| && c != d && s.cpus[c].pc == Dispatch && s.cpus[d].pc == User
    ensures 0 <= s.cpus[c].env < |s.envs| && s.envs[s.cpus[c].env].status == Running && !s.cpus[c].halted
    ensures 0 <= s.cpus[d].env < |s.envs| && s.cpus[c].env != s.cpus[d].env && !s.cpus[d].halted
    ensures s.lock == Lock(true, c)
  {
    assert CpuOk(s.cpus[c], s.envs) && CpuOk(s.cpus[d], s.envs);
    hide CpuOk;
  }

  // Each excluded call leads, by safe steps, to a free lock and an environment in some
  // curenv that is neither RUNNING nor DYING.
  lemma UnsafeLosesOwnership(s: Machine, c: nat, act: Act, d: nat) returns (moves: seq<Move>)
    requires Inv(s) && Enabled(s, c, act) && !Safe(s, c, act) && c != d && Runs(s, d, User)
    ensures Legal(Step(s, c, act), moves) && !OwnedWhenFree(Final(Step(s, c, act), moves))
  {
    TwoProcessors(s, c, d);
    var t, cur := Step(s, c, act), s.cpus[c].env;
    match act.ev {
      case Recv(_) =>
        moves := Leaves(t, c);
        var rest := SentWhileRunning(Left(t, c), c, cur, d);
        Joined(t, moves, rest);
        moves := moves + rest;
      case Destroy(e) =>
        var x := BusyElsewhere(s, c, e);
        moves := LostLeadsOn(t, c, e, x);
      case SetStatus(e, runnable) => moves := UnsafeStatus(s, c, e, runnable, d);
      case _ =>
    }
  }

  lemma UnsafeStatus(s: Machine, c: nat, e: nat, runnable: bool, d: nat) returns (moves: seq<Move>)
    requires Inv(s) && Enabled(s, c, Call(SetStatus(e, runnable))) && c != d && Runs(s, d, User)
    requires s.cpus[c].pc == Dispatch && !Safe(s, c, Call(SetStatus(e, runnable)))
    ensures Legal(Step(s, c, Call(SetStatus(e, runnable))), moves)
    ensures !OwnedWhenFree(Final(Step(s, c, Call(SetStatus(e, runnable))), moves))
  {
    TwoProcessors(s, c, d);
    hide Inv;
    var t := Step(s, c, Call(SetStatus(e, runnable)));
    assert t.cpus == s.cpus[c := s.cpus[c].(pc := Return)];
    if Busy(s.envs[e]) {
      var x := BusyElsewhere(s, c, e);
      moves := LostLeadsOn(t, c, e, x);
    } else {
      moves := WokenLeadsOn(t, c, e, d);
    }
  }

  lemma BusyElsewhere(s: Machine, c: nat, e: nat) returns (d: nat)
    requires Inv(s) && c < |s.cpus| && e < |s.envs| && Busy(s.envs[e]) && s.cpus[c].env != e
    ensures d < |s.cpus| && d != c && s.cpus[d].env == e
  {
    hide CpuOk;
    d :| 0 <= d < |s.cpus| && s.cpus[d].env == e;
  }

  /** With another processor in user mode a step is safe if and only if ownership is exact,
      whenever the lock is free, in everything that safe steps can lead to afterwards. */
  lemma OwnedIffSafe(s: Machine, c: nat, act: Act, d: nat)
    requires Inv(s) && Enabled(s, c, act) && c != d && Runs(s, d, User)
    ensures Safe(s, c, act) <==>
      forall moves :: Legal(Step(s, c, act), moves) ==> OwnedWhenFree(Final(Step(s, c, act), moves))
  {
    hide Step, Enabled, Safe, Inv, Owned, Runs;
    if Safe(s, c, act) {
      StepKeepsExactlySafe(s, c, act);
      forall moves | Legal(Step(s, c, act), moves)
        ensures OwnedWhenFree(Final(Step(s, c, act), moves))
      {
        RunKeepsInv(Step(s, c, act), moves);
        InvMeansOwned(Final(Step(s, c, act), moves));
      }
    } else {
      var moves := UnsafeLosesOwnership(s, c, act, d);
    }
  }

  // ---------------------------------------------------------------- what becomes of an environment

  // The call that processor `c` makes in this step; Nothing when it makes none.
  function CallOf(s: Machine, c: nat, act: Act): Event
    requires Enabled(s, c, act)
  {
    if s.cpus[c].pc == Dispatch then act.ev else Nothing
  }

  // env_free: a fault of its own, a destroy that reaches it, or its processor's next entry
  // once it is dying.
  predicate EndsHere(s: Machine, c: nat, act: Act, x: nat)
    requires Enabled(s, c, act) && x < |s.envs|
  {
    var ev, cur := CallOf(s, c, act), s.cpus[c].env;
    || (ev == Fault && x == cur)
    || (ev == Destroy(x) && MayTouch(s, c, x) && (x == cur || s.envs[x].status != Running))
    || (s.cpus[c].pc == Entry(FromUser) && x == cur && s.envs[x].status == Dying)
  }

  predicate StopsHere(s: Machine, c: nat, act: Act, x: nat)
    requires Enabled(s, c, act) && x < |s.envs|
  {
    var ev := CallOf(s, c, act);
    || (ev == SetStatus(x, false) && MayTouch(s, c, x))
    || (ev == Recv(true) && x == s.cpus[c].env)
    || (ev.Exofork? && ev.e == x && s.envs[x].status == Free)
  }

  predicate WakesHere(s: Machine, c: nat, act: Act, x: nat)
    requires Enabled(s, c, act) && x < |s.envs|
  {
    var ev := CallOf(s, c, act);
    || (ev == SetStatus(x, true) && MayTouch(s, c, x))
    || (ev == Send(x) && s.envs[x].recving && s.envs[x].status != Free)
    || (s.cpus[c].pc == Sched && 0 <= act.e && act.e != x && x == s.cpus[c].env && s.envs[x].status == Running)
  }

  /** Every change of status there is: an environment becomes FREE exactly when it ends,
      DYING when it is destroyed while it runs elsewhere, NOT_RUNNABLE when it is created,
      receives or is stopped, RUNNABLE when it is started, gets a message or is preempted, and
      RUNNING when it is chosen. */
  lemma StatusChangesIff(s: Machine, c: nat, act: Act, x: nat)
    requires Inv(s) && Enabled(s, c, act) && x < |s.envs|
    ensures var u, v := s.envs[x].status, Step(s, c, act).envs[x].status;
      && |Step(s, c, act).envs| == |s.envs|
      && (u != Free ==> (v == Free <==> EndsHere(s, c, act, x)))
      && (u != Dying ==> (v == Dying <==>
            CallOf(s, c, act) == Destroy(x) && MayTouch(s, c, x) && x != s.cpus[c].env && u == Running))
      && (u != NotRunnable ==> (v == NotRunnable <==> StopsHere(s, c, act, x)))
      && (u != Runnable ==> (v == Runnable <==> WakesHere(s, c, act, x)))
      && (u != Running ==> (v == Running <==> s.cpus[c].pc == Sched && act.e == x))
  {
    assert CpuOk(s.cpus[c], s.envs);
    if s.cpus[c].pc == Dispatch {
      CallChanges(s, c, act, x);
    } else {
      OtherChanges(s, c, act, x);
    }
  }

  lemma CallChanges(s: Machine, c: nat, act: Act, x: nat)
    requires Enabled(s, c, act) && x < |s.envs| && s.cpus[c].pc == Dispatch && CpuOk(s.cpus[c], s.envs)
    ensures var u, v := s.envs[x].status, Step(s, c, act).envs[x].status;
      && |Step(s, c, act).envs| == |s.envs|
      && (u != Free ==> (v == Free <==> EndsHere(s, c, act, x)))
      && (u != Dying ==> (v == Dying <==>
            CallOf(s, c, act) == Destroy(x) && MayTouch(s, c, x) && x != s.cpus[c].env && u == Running))
      && (u != NotRunnable ==> (v == NotRunnable <==> StopsHere(s, c, act, x)))
      && (u != Runnable ==> (v == Runnable <==> WakesHere(s, c, act, x)))
      && (v == Running ==> u == Running)
  {
    hide MayPick;
  }

  lemma OtherChanges(s: Machine, c: nat, act: Act, x: nat)
    requires Enabled(s, c, act) && x < |s.envs| && s.cpus[c].pc != Dispatch && CpuOk(s.cpus[c], s.envs)
    ensures var u, v := s.envs[x].status, Step(s, c, act).envs[x].status;
      && |Step(s, c, act).envs| == |s.envs|
      && (u != Free ==> (v == Free <==> EndsHere(s, c, act, x)))
      && (u != Dying ==> v != Dying) && (u != NotRunnable ==> v != NotRunnable)
      && (u != Runnable ==> (v == Runnable <==> WakesHere(s, c, act, x)))
      && (u != Running ==> (v == Running <==> s.cpus[c].pc == Sched && act.e == x))
  {
  }

  /** A permitted destroy leaves the environment FREE, or DYING where it runs on another
      processor; the caller's own end leaves its processor with none. */
  lemma DestroyEnds(s: Machine, c: nat, e: nat)
    requires Inv(s) && Enabled(s, c, Call(Destroy(e))) && s.cpus[c].pc == Dispatch && MayTouch(s, c, e)
    requires Safe(s, c, Call(Destroy(e)))
    ensures var t := Step(s, c, Call(Destroy(e)));
      && |t.envs| == |s.envs| && |t.cpus| == |s.cpus|
      && t.envs[e].status == (if e != s.cpus[c].env && s.envs[e].status == Running then Dying else Free)
      && (t.envs[e].status == Dying ==> exists d :: 0 <= d < |s.cpus| && d != c && t.cpus[d].env == e)
      && (e == s.cpus[c].env ==> t.cpus[c].env == NULL)
  {
    StatusChangesIff(s, c, Call(Destroy(e)), e);
    var t := Step(s, c, Call(Destroy(e)));
    if t.envs[e].status == Dying {
      var d := BusyElsewhere(s, c, e);
      assert t.cpus[d].env == e;
    }
  }

  // Where the processor of a DYING environment can be, and how far from its end.
  function EndsIn(pc: Pc): nat {
    match pc
    case After => 6
    case User => 5
    case Check(_, _) => 4
    case Spin(_, _) => 3
    case Got(_, _) => 2
    case Entry(_) => 1
    case _ => 0
  }

  // Some processor has it, at none of the places where the kernel works for it.
  ghost predicate Doomed(s: Machine, x: nat)
    requires x < |s.envs|
  {
    && s.envs[x].status == Dying
    && (exists c :: 0 <= c < |s.cpus| && s.cpus[c].env == x)
    && forall c :: 0 <= c < |s.cpus| && s.cpus[c].env == x ==> EndsIn(s.cpus[c].pc) > 0
  }

  lemma DyingIsDoomed(s: Machine, x: nat)
    requires Inv(s) && x < |s.envs| && s.envs[x].status == Dying
    ensures Doomed(s, x)
  {
    forall c | 0 <= c < |s.cpus| && s.cpus[c].env == x
      ensures EndsIn(s.cpus[c].pc) > 0
    {
      assert CpuOk(s.cpus[c], s.envs);
    }
    hide CpuOk;
  }

  /** Once DYING an environment stays so, never dispatched and never chosen, until it is FREE. */
  lemma {:induction false} DyingUntilFree(s: Machine, moves: seq<Move>, x: nat)
    requires Inv(s) && Legal(s, moves) && x < |s.envs| && s.envs[x].status == Dying
    ensures |Final(s, moves).envs| == |s.envs|
    ensures Doomed(Final(s, moves), x) || FreedOnTheWay(s, moves, x)
    decreases |moves|
  {
    hide Inv, Step, Enabled, Safe, Doomed, EndsHere, StopsHere, WakesHere;
    SizesStay(s, moves);
    if moves == [] {
      DyingIsDoomed(s, x);
    } else {
      var c, act := moves[0].cpu, moves[0].act;
      StepKeepsExactlySafe(s, c, act);
      DyingStep(s, c, act, x);
      var t := Step(s, c, act);
      if t.envs[x].status == Dying {
        DyingUntilFree(t, moves[1..], x);
      }
    }
  }

  // Some state of the run has the slot free.
  ghost predicate FreedOnTheWay(s: Machine, moves: seq<Move>, x: nat)
    requires Possible(s, moves)
    decreases |moves|
  {
    moves != [] &&
    var t := Step(s, moves[0].cpu, moves[0].act);
    (x < |t.envs| && t.envs[x].status == Free) || FreedOnTheWay(t, moves[1..], x)
  }

  lemma DyingStep(s: Machine, c: nat, act: Act, x: nat)
    requires Inv(s) && Enabled(s, c, act) && Safe(s, c, act) && x < |s.envs| && s.envs[x].status == Dying
    ensures |Step(s, c, act).envs| == |s.envs| && Step(s, c, act).envs[x].status in {Dying, Free}
  {
    StatusChangesIff(s, c, act, x);
    assert CpuOk(s.cpus[c], s.envs);
    RecvAt(s.envs);
  }

  lemma {:induction false} SizesStay(s: Machine, moves: seq<Move>)
    requires Inv(s) && Legal(s, moves)
    ensures |Final(s, moves).envs| == |s.envs| && |Final(s, moves).cpus| == |s.cpus|
    decreases |moves|
  {
    hide Step, Enabled, Safe, CpuOk;
    if moves != [] {
      var c, act := moves[0].cpu, moves[0].act;
      StepSizes(s, c, act);
      StepKeepsExactlySafe(s, c, act);
      hide Inv;
      SizesStay(Step(s, c, act), moves[1..]);
    }
  }

  lemma StepSizes(s: Machine, c: nat, act: Act)
    requires Inv(s) && Enabled(s, c, act)
    ensures |Step(s, c, act).envs| == |s.envs| && |Step(s, c, act).cpus| == |s.cpus|
  {
    Here(s, c, act);
    hide CpuOk;
    StepMoves(s, c, act);
  }

  /** The processor that has a DYING environment comes nearer to its end with each of its own
      steps, waiting for the lock apart, and the sixth at the latest makes the slot FREE. */
  lemma DyingEndsSoon(s: Machine, c: nat, act: Act)
    requires Inv(s) && Enabled(s, c, act) && 0 <= s.cpus[c].env < |s.envs| && s.envs[s.cpus[c].env].status == Dying
    ensures var t, x := Step(s, c, act), s.cpus[c].env;
      && |t.envs| == |s.envs| && |t.cpus| == |s.cpus| && 0 < EndsIn(s.cpus[c].pc) <= 6
      && (if EndsIn(s.cpus[c].pc) == 1 then t.envs[x].status == Free && t.cpus[c].env == NULL
          else
            && t.envs[x].status == Dying && t.cpus[c].env == x
            && (EndsIn(t.cpus[c].pc) < EndsIn(s.cpus[c].pc) || (s.cpus[c].pc.Spin? && s.lock.locked && t == s)))
  {
    assert CpuOk(s.cpus[c], s.envs);
    hide MayPick;
    StepSizes(s, c, act);
    Here(s, c, act);
  }

  /** sys_exofork makes a child of the caller, which alone may act on it, stopped until
      then. */
  lemma ExoforkMakesChild(s: Machine, c: nat, e: nat, id: int, d: nat)
    requires Inv(s) && Enabled(s, c, Call(Exofork(e, id))) && s.cpus[c].pc == Dispatch
    requires e < |s.envs| && s.envs[e].status == Free && d < |s.cpus| && 0 <= s.cpus[d].env < |s.envs|
    ensures var t := Step(s, c, Call(Exofork(e, id)));
      && |t.envs| == |s.envs| && |t.cpus| == |s.cpus| && t.cpus[d].env == s.cpus[d].env
      && t.envs[e].status == NotRunnable && t.envs[e].id == id && !t.envs[e].recving && t.cpus[c].pc == Return
      && (s.cpus[d].env != e ==>
            (MayTouch(t, d, e) <==> s.envs[s.cpus[d].env].id == s.envs[s.cpus[c].env].id))
      && (forall x :: 0 <= x < |s.envs| && x != e ==> t.envs[x] == s.envs[x])
  {
  }

  // An environment in user mode has its processor's number in env_cpunum.
  ghost predicate KnowsCpu(s: Machine) {
    forall c :: 0 <= c < |s.cpus| && s.cpus[c].pc == User && 0 <= s.cpus[c].env < |s.envs| ==>
      s.envs[s.cpus[c].env].cpunum == c
  }

  lemma KnowsCpuStep(s: Machine, c: nat, act: Act)
    requires Inv(s) && Enabled(s, c, act) && KnowsCpu(s)
    ensures KnowsCpu(Step(s, c, act))
  {
    var t := Step(s, c, act);
    StepSizes(s, c, act);
    Here(s, c, act);
    forall d | 0 <= d < |t.cpus| && t.cpus[d].pc == User && 0 <= t.cpus[d].env < |t.envs|
      ensures t.envs[t.cpus[d].env].cpunum == d
    {
      if d != c {
        Elsewhere(s, c, d);
        OnlyItsOwnNumber(s, c, act, d);
      } else {
        ComesToUser(s, c, act);
      }
    }
  }

  lemma ComesToUser(s: Machine, c: nat, act: Act)
    requires Inv(s) && Enabled(s, c, act)
    ensures |Step(s, c, act).cpus| == |s.cpus| && |Step(s, c, act).envs| == |s.envs|
    ensures Step(s, c, act).cpus[c].pc == User ==> 0 <= s.cpus[c].env && Step(s, c, act).cpus[c].env == s.cpus[c].env
    ensures Step(s, c, act).cpus[c].pc == User ==> Step(s, c, act).envs[s.cpus[c].env].cpunum == c
  {
    StepSizes(s, c, act);
    hide MayPick;
  }

  lemma OnlyItsOwnNumber(s: Machine, c: nat, act: Act, d: nat)
    requires Inv(s) && Enabled(s, c, act) && d < |s.cpus| && d != c && 0 <= s.cpus[d].env < |s.envs|
    requires s.cpus[d].env != s.cpus[c].env
    ensures |Step(s, c, act).cpus| == |s.cpus| && |Step(s, c, act).envs| == |s.envs|
    ensures Step(s, c, act).cpus[d] == s.cpus[d]
    ensures Step(s, c, act).envs[s.cpus[d].env].cpunum == s.envs[s.cpus[d].env].cpunum
  {
    StepSizes(s, c, act);
    hide MayPick;
  }

  /** In every run from boot an environment in user mode has the number of its processor. */
  lemma {:induction false} RunKnowsCpu(s: Machine, moves: seq<Move>)
    requires Inv(s) && KnowsCpu(s) && Legal(s, moves)
    ensures KnowsCpu(Final(s, moves))
    decreases |moves|
  {
    hide Inv, Step, Enabled, Safe, KnowsCpu;
    if moves != [] {
      StepKeepsExactlySafe(s, moves[0].cpu, moves[0].act);
      KnowsCpuStep(s, moves[0].cpu, moves[0].act);
      RunKnowsCpu(Step(s, moves[0].cpu, moves[0].act), moves[1..]);
    }
  }

  // ---------------------------------------------------------------- one processor

  // What the only processor knows of its environment, and that no other one is busy.
  ghost predicate SoleEnv(s: Machine) {
    && |s.cpus| == 1 && CpuOk(s.cpus[0], s.envs)
    && forall e :: 0 <= e < |s.envs| && Busy(s.envs[e]) ==> s.cpus[0].env == e
  }

  ghost predicate Sole(s: Machine) { LockOk(s) && SoleEnv(s) }

  lemma SoleCall(s: Machine, c: nat, act: Act)
    requires SoleEnv(s) && Enabled(s, c, act) && s.cpus[c].pc == Dispatch
    ensures SoleEnv(Step(s, c, act))
  {
  }

  lemma SoleLoud(s: Machine, c: nat, act: Act)
    requires SoleEnv(s) && Enabled(s, c, act) && (s.cpus[c].pc in {Return, Sched} || s.cpus[c].pc.Entry?)
    ensures SoleEnv(Step(s, c, act))
  {
  }

  lemma SoleQuiet(s: Machine, c: nat, act: Act)
    requires SoleEnv(s) && Enabled(s, c, act)
    requires s.cpus[c].pc !in {Dispatch, Return, Sched} && !s.cpus[c].pc.Entry?
    requires (Owner(s.cpus[c].pc) ==> s.lock == Lock(true, c)) && (s.cpus[c].pc.Check? ==> s.lock.cpu != c)
    ensures SoleEnv(Step(s, c, act))
  {
    hide MayPick;
  }

  lemma SoleLock(s: Machine, c: nat)
    requires |s.cpus| == 1 && LockOk(s) && c < |s.cpus|
    ensures (Owner(s.cpus[c].pc) ==> s.lock == Lock(true, c)) && (s.cpus[c].pc.Check? ==> s.lock.cpu != c)
  {
  }

  lemma SoleStep(s: Machine, c: nat, act: Act)
    requires Sole(s) && Enabled(s, c, act)
    ensures Sole(Step(s, c, act))
  {
    hide LockMove, Step, LockOk, CpuOk, MayPick;
    SoleLock(s, c);
    StepMoves(s, c, act);
    MoveKeepsLock(s, Step(s, c, act), c);
    assert SoleEnv(s);
    if s.cpus[c].pc == Dispatch {
      SoleCall(s, c, act);
    } else if s.cpus[c].pc in {Return, Sched} || s.cpus[c].pc.Entry? {
      SoleLoud(s, c, act);
    } else {
      SoleQuiet(s, c, act);
    }
  }

  lemma {:induction false} SoleRun(s: Machine, moves: seq<Move>)
    requires Sole(s) && Possible(s, moves)
    ensures Sole(Final(s, moves))
    decreases |moves|
  {
    hide Sole, Step, Enabled;
    if moves != [] {
      SoleStep(s, moves[0].cpu, moves[0].act);
      SoleRun(Step(s, moves[0].cpu, moves[0].act), moves[1..]);
    }
  }

  /** With one processor no call at all, safe or not, costs it the exact ownership. */
  lemma OneProcessorIsOwned(s: Machine, moves: seq<Move>)
    requires Boot(s) && |s.cpus| == 1 && Possible(s, moves)
    ensures OwnedWhenFree(Final(s, moves))
  {
    BootInv(s);
    assert Sole(s);
    SoleRun(s, moves);
  }

  // ---------------------------------------------------------------- progress

  // How many of its own steps a processor is from giving the lock back, at most.
  function StepsLeft(pc: Pc): nat {
    match pc
    case Got(_, _) => 7
    case Entry(_) => 6
    case Dispatch => 5
    case Return => 4
    case Sched => 3
    case Unlock(_) => 2
    case Release(_) => 1
    case _ => 0
  }

  lemma SomePick(s: Machine, c: nat)
    requires c < |s.cpus| && s.cpus[c].env < |s.envs|
    ensures exists e :: MayPick(s, c, e)
  {
    if x :| 0 <= x < |s.envs| && s.envs[x].status == Runnable {
      assert MayPick(s, c, x);
    } else if 0 <= s.cpus[c].env && s.envs[s.cpus[c].env].status == Running {
      assert MayPick(s, c, s.cpus[c].env);
    } else {
      assert MayPick(s, c, NULL);
    }
  }

  // In a state that satisfies the invariant no processor is stuck, the monitor apart.
  lemma NobodyIsStuck(s: Machine, c: nat)
    requires Inv(s) && c < |s.cpus| && s.cpus[c].pc != Monitor
    ensures exists act :: Enabled(s, c, act) && Safe(s, c, act)
  {
    assert CpuOk(s.cpus[c], s.envs);
    SomePick(s, c);
    var e :| MayPick(s, c, e);
    hide MayPick;
    var act := if s.cpus[c].pc == Sched then Pick(e) else if s.cpus[c].pc == Dispatch then Call(Nothing) else Go;
    assert Enabled(s, c, act) && Safe(s, c, act);
  }

  lemma HolderMovesOn(s: Machine, c: nat, act: Act)
    requires Inv(s) && Enabled(s, c, act) && Safe(s, c, act) && Inside(s.cpus[c].pc)
    ensures |Step(s, c, act).cpus| == |s.cpus|
    ensures StepsLeft(Step(s, c, act).cpus[c].pc) < StepsLeft(s.cpus[c].pc)
  {
    hide MayPick;
    assert CpuOk(s.cpus[c], s.envs);
    StepMoves(s, c, act);
  }

  /** In every run from boot, every processor outside the monitor has a step to make that
      keeps the invariant, and a processor in the kernel gives the lock back, or stops in
      the monitor, within seven steps of its own. */
  lemma Progress(s: Machine, moves: seq<Move>, c: nat)
    requires Boot(s) && Legal(s, moves) && c < |Final(s, moves).cpus| && Final(s, moves).cpus[c].pc != Monitor
    ensures var t := Final(s, moves);
      && (exists act :: Enabled(t, c, act) && Safe(t, c, act))
      && (Inside(t.cpus[c].pc) ==> 0 < StepsLeft(t.cpus[c].pc) <= 7)
      && forall act :: Enabled(t, c, act) && Safe(t, c, act) && Inside(t.cpus[c].pc) ==>
           |Step(t, c, act).cpus| == |t.cpus| && StepsLeft(Step(t, c, act).cpus[c].pc) < StepsLeft(t.cpus[c].pc)
  {
    BootInv(s);
    RunKeepsInv(s, moves);
    var t := Final(s, moves);
    hide Inv, Step, Enabled, Safe, Boot, Final;
    NobodyIsStuck(t, c);
    forall act | Enabled(t, c, act) && Safe(t, c, act) && Inside(t.cpus[c].pc)
      ensures |Step(t, c, act).cpus| == |t.cpus| && StepsLeft(Step(t, c, act).cpus[c].pc) < StepsLeft(t.cpus[c].pc)
    {
      HolderMovesOn(t, c, act);
    }
  }
}
