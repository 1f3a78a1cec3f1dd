/**
 * The ptrace supervisor (ptracesandbox.c) and the process it traces. The kernel reports entry and exit of each system
 * call in turn, with signal stops anywhere between; every ptrace request may fail.
 */
module Supervisor {
  import opened Strings
  import opened SandboxPolicy

  const SIGKILL: int := 9
  const SIGCONT: int := 18
  const SIGSTOP: int := 19

  /** Where the traced process is: in its own code, stopped at the entry of a call, or let into the call. */
  datatype Phase = User | Entry(regs: Regs) | Body

  /** A waitpid status, or its failure. */
  datatype Stop = Died | Stopped(sig: int) | Odd | WaitFailed

  /** What was asked of the kernel, and whether it was granted. */
  datatype Request =
    | Resume(fine: bool)      // PTRACE_SYSCALL
    | ReadRegs(fine: bool)    // PTRACE_GETREGS
    | WriteRegs(fine: bool)   // PTRACE_SETREGS
    | Wait(stop: Stop)
    | Shoot                   // PTRACE_KILL and SIGKILL

  /** The requests of a kill. */
  function KillRequests(getOk: bool, setOk: bool): seq<Request> {
    if getOk then [ReadRegs(true), WriteRegs(setOk), Shoot] else [ReadRegs(false), Shoot]
  }

  /** A request that makes the supervisor give up. */
  predicate GoneWrong(r: Request) {
    match r
    case Resume(fine) => !fine
    case ReadRegs(fine) => !fine
    case WriteRegs(fine) => !fine
    case Wait(stop) => !stop.Died? && !(stop.Stopped? && 0 <= stop.sig <= 0xff)
    case Shoot => false
  }

  /** A system call stop: the kernel sets the bit above the signals (PTRACE_O_TRACESYSGOOD). */
  predicate IsTrap(stop: Stop) {
    stop.Stopped? && 0x80 <= stop.sig <= 0xff
  }

  /** The signal passed on for one that stopped the child. */
  function ToDeliver(sig: int): int {
    if sig == SIGSTOP || sig == SIGCONT then SIGKILL else sig
  }

  /** The signal a stop is resumed with: none after a system call stop. */
  function Passed(stop: Stop): int {
    if stop.Stopped? && !IsTrap(stop) then ToDeliver(stop.sig) else 0
  }

  /** The call that still executes when a process is killed: the one it is stopped at, rewritten or not. */
  function LastCall(phase: Phase, getOk: bool, setOk: bool): seq<Regs> {
    match phase
    case Entry(regs) => if getOk && setOk then [Forced(regs)] else [regs]
    case _ => []
  }

  /** Killing a process at a call that must not run is harmless exactly when its registers can be read and rewritten. */
  lemma {:induction false} KillIsSafeExactly(p: Policy, pid: int, getOk: bool, setOk: bool)
    requires p.Sized()
    ensures getOk && setOk <==>
      forall regs :: !Approved(p, pid, regs) ==>
        forall r | r in LastCall(Entry(regs), getOk, setOk) :: r.call == NR_EXIT_GROUP
  {
    var bad := Regs(0, 0, 0, 0, 0, 0, 0, 0);
    assert !Approved(p, pid, bad);
    if !(getOk && setOk) {
      assert LastCall(Entry(bad), getOk, setOk) == [bad];
      assert bad in LastCall(Entry(bad), getOk, setOk) && bad.call != NR_EXIT_GROUP;
    }
  }

  /**
   * A run, up to the kill if there was one: the calls let through, where the child then was, what had been asked, and
   * which register requests of the kill were granted.
   */
  datatype Run = Run(approved: seq<Regs>, last: Phase, asked: seq<Request>, getOk: bool, setOk: bool)

  /** No process is stopped or continued by a signal passed on. */
  predicate NeverStops(delivered: seq<int>) {
    forall i | 0 <= i < |delivered| :: delivered[i] != SIGSTOP && delivered[i] != SIGCONT
  }

  /**
   * The traced process, as far as ptrace and waitpid show it; asked is every request made, with its
   * answer, waits how many of them were for a stop.
   */
  class Child {
    var phase: Phase
    var executed: seq<Regs>
    var delivered: seq<int>
    var asked: seq<Request>
    var waits: nat

    constructor ()
      ensures phase == User && executed == [] && delivered == [] && asked == [] && waits == 0
    {
      phase, executed, delivered, asked, waits := User, [], [], [], 0;
    }

    /** PTRACE_SYSCALL */
    method Continue(sig: int) returns (fine: bool)
      modifies `phase, `executed, `delivered, `asked
      ensures asked == old(asked) + [Resume(fine)]
      ensures !fine ==> phase == old(phase) && executed == old(executed) && delivered == old(delivered)
      ensures fine ==>
        && delivered == old(delivered) + [sig]
        && phase == (if old(phase).Entry? then Body else old(phase))
        && executed == old(executed) + LastCall(old(phase), false, false)
    {
      fine := *;
      asked := asked + [Resume(fine)];
      if fine {
        delivered := delivered + [sig];
        if phase.Entry? {
          executed := executed + [phase.regs];
          phase := Body;
        }
      }
    }

    /** waitpid: the next stop of a running process; calls are entered and left in turn. */
    method NextStop() returns (stop: Stop)
      requires !phase.Entry?
      modifies `phase, `asked, `waits
      ensures asked == old(asked) + [Wait(stop)] && waits == old(waits) + 1
      ensures !IsTrap(stop) ==> phase == old(phase)
      ensures IsTrap(stop) ==> if old(phase).User? then phase.Entry? else phase.User?
    {
      stop := *;
      asked, waits := asked + [Wait(stop)], waits + 1;
      if IsTrap(stop) {
        if phase.User? {
          var regs: Regs := *;
          phase := Entry(regs);
        } else {
          phase := User;
        }
      }
    }

    /** PTRACE_GETREGS */
    method GetRegs() returns (fine: bool, regs: Regs)
      modifies `asked
      ensures asked == old(asked) + [ReadRegs(fine)]
      ensures fine && phase.Entry? ==> regs == phase.regs
    {
      fine, regs := *, *;
      asked := asked + [ReadRegs(fine)];
      if phase.Entry? {
        regs := phase.regs;
      }
    }

    /** PTRACE_SETREGS */
    method SetRegs(regs: Regs) returns (fine: bool)
      modifies `phase, `asked
      ensures asked == old(asked) + [WriteRegs(fine)]
      ensures phase == if fine && old(phase).Entry? then Entry(regs) else old(phase)
    {
      fine := *;
      asked := asked + [WriteRegs(fine)];
      if fine && phase.Entry? {
        phase := Entry(regs);
      }
    }

    /** PTRACE_KILL and SIGKILL: a call stopped at its entry still executes. */
    method Kill()
      modifies `phase, `executed, `asked
      ensures asked == old(asked) + [Shoot]
      ensures phase == User && executed == old(executed) + LastCall(old(phase), false, false)
    {
      asked := asked + [Shoot];
      if phase.Entry? {
        executed := executed + [phase.regs];
      }
      phase := User;
    }
  }

  /** struct pt_sandbox */
  class Sandbox {
    var pid: int
    var isExit: bool
    var regs: Regs
    const isAllowed: array<bool>
    const validator: array<Validator>
    const isSocketcallAllowed: array<bool>
    const socketcallValidator: array<Option<Check>>
    const child: Child

    /** The tables have their sizes and socketcall its validator. */
    ghost predicate Valid()
      reads isAllowed, validator, isSocketcallAllowed, socketcallValidator
    {
      && isAllowed.Length == MAX_SYSCALL && validator.Length == MAX_SYSCALL
      && isSocketcallAllowed.Length > 0 && socketcallValidator.Length == isSocketcallAllowed.Length
      && isAllowed != isSocketcallAllowed
      && Tables().SocketcallGuarded()
    }

    /** The policy the tables hold. */
    function Tables(): Policy
      reads isAllowed, validator, isSocketcallAllowed, socketcallValidator
    {
      Policy(isAllowed[..], validator[..], isSocketcallAllowed[..], socketcallValidator[..])
    }

    /** ptrace_sandbox_alloc: nothing is allowed; protocols is NPROTO. */
    constructor (child: Child, pid: int, protocols: nat)
      requires protocols > 0
      ensures Valid() && this.child == child && this.pid == pid && !isExit
      ensures fresh(isAllowed) && fresh(validator) && fresh(isSocketcallAllowed) && fresh(socketcallValidator)
      ensures forall i | 0 <= i < MAX_SYSCALL :: !Tables().allowed[i]
    {
      this.child, this.pid := child, pid;
      isExit := false;
      regs := Regs(0, 0, 0, 0, 0, 0, 0, 0);
      isAllowed := new bool[MAX_SYSCALL](_ => false);
      validator := new Validator[MAX_SYSCALL](_ => NoValidator);
      isSocketcallAllowed := new bool[protocols](_ => false);
      socketcallValidator := new Option<Check>[protocols](_ => None);
    }

    // ---------------------------------------------------------------- policy

    /** The permit functions for calls without a validator. */
    method Permit(call: nat)
      requires Valid() && call < MAX_SYSCALL && call != NR_SOCKETCALL
      modifies isAllowed
      ensures Valid() && Tables() == old(Tables()).(allowed := old(Tables().allowed)[call := true])
    {
      isAllowed[call] := true;
      assert isAllowed[..] == old(isAllowed[..])[call := true];
    }

    /** What the permit functions for calls with a validator do. */
    method PermitChecked(call: nat, v: Validator)
      requires Valid() && call < MAX_SYSCALL && call != NR_SOCKETCALL
      modifies isAllowed, validator
      ensures Valid() && Tables() == old(Tables()).(
        allowed := old(Tables().allowed)[call := true],
        validators := old(Tables().validators)[call := v])
    {
      isAllowed[call] := true;
      validator[call] := v;
      assert isAllowed[..] == old(isAllowed[..])[call := true];
      assert validator[..] == old(validator[..])[call := v];
    }

    /** ptrace_sandbox_permit_open: one validator or the other. */
    method PermitOpen(writeable: bool)
      requires Valid()
      modifies isAllowed, validator
      ensures Valid() && Tables() == old(Tables()).(
        allowed := old(Tables().allowed)[NR_OPEN := true],
        validators := old(Tables().validators)[NR_OPEN := if writeable then OpenDefault else OpenReadonly])
    {
      PermitChecked(NR_OPEN, if writeable then OpenDefault else OpenReadonly);
    }

    /** ptrace_sandbox_permit_mmap */
    method PermitMmap()
      requires Valid()
      modifies isAllowed, validator
      ensures Valid() && Tables() == old(Tables()).(
        allowed := old(Tables().allowed)[NR_MMAP2 := true],
        validators := old(Tables().validators)[NR_MMAP2 := Mmap2])
    {
      PermitChecked(NR_MMAP2, Mmap2);
    }

    /** ptrace_sandbox_permit_fcntl: both calls. */
    method PermitFcntl()
      requires Valid()
      modifies isAllowed, validator
      ensures Valid() && Tables() == old(Tables()).(
        allowed := old(Tables().allowed)[NR_FCNTL := true][NR_FCNTL64 := true],
        validators := old(Tables().validators)[NR_FCNTL := Fcntl][NR_FCNTL64 := Fcntl])
    {
      PermitChecked(NR_FCNTL, Fcntl);
      PermitChecked(NR_FCNTL64, Fcntl);
    }

    /** The permit functions for socket calls, through install_socketcall. */
    method PermitSocketcall(sub: nat)
      requires Valid() && sub < isSocketcallAllowed.Length
      modifies isAllowed, validator, isSocketcallAllowed
      ensures Valid() && Tables() == old(Tables()).(
        allowed := old(Tables().allowed)[NR_SOCKETCALL := true],
        validators := old(Tables().validators)[NR_SOCKETCALL := Socketcall],
        socketAllowed := old(Tables().socketAllowed)[sub := true])
    {
      isAllowed[NR_SOCKETCALL] := true;
      validator[NR_SOCKETCALL] := Socketcall;
      isSocketcallAllowed[sub] := true;
      assert isAllowed[..] == old(isAllowed[..])[NR_SOCKETCALL := true];
      assert validator[..] == old(validator[..])[NR_SOCKETCALL := Socketcall];
      assert isSocketcallAllowed[..] == old(isSocketcallAllowed[..])[sub := true];
    }

    // ---------------------------------------------------------------- events

    /** The sandbox knows whether the child is inside a system call. */
    predicate InPhase()
      reads this, child
    {
      isExit == !child.phase.User?
    }

    /** ptrace_sandbox_continue_process */
    method ContinueProcess(sig: int) returns (ret: int)
      modifies child
      ensures child.waits == old(child.waits)
      ensures child.asked == old(child.asked) + [Resume(ret == 0)]
      ensures ret == 0 || ret == ERR_PTRACE
      ensures ret != 0 ==>
        && child.phase == old(child.phase)
        && child.executed == old(child.executed)
        && child.delivered == old(child.delivered)
      ensures ret == 0 ==>
        && child.delivered == old(child.delivered) + [sig]
        && child.phase == (if old(child.phase).Entry? then Body else old(child.phase))
        && child.executed == old(child.executed) + LastCall(old(child.phase), false, false)
    {
      var fine := child.Continue(sig);
      ret := if fine then 0 else ERR_PTRACE;
    }

    /** get_action: the verdict on the call, unless the registers are refused; they are forgotten. */
    method GetAction() returns (action: int)
      requires Valid() && child.phase.Entry?
      modifies `regs, child`asked
      ensures child.asked == old(child.asked) + [ReadRegs(action != ERR_PTRACE)]
      ensures action == Verdict(Tables(), pid, child.phase.regs) || action == ERR_PTRACE
      ensures regs == old(regs) || regs.call == 0
    {
      VerdictIsApproval(Tables(), pid, child.phase.regs);
      var fine, now := child.GetRegs();
      if !fine {
        return ERR_PTRACE;
      }
      regs := now;
      if regs.cs != 0x73 && regs.cs != 0x23 {
        action := ERR_BAD_SYSCALL;
      } else if regs.call < 0 || regs.call >= MAX_SYSCALL {
        action := ERR_BAD_SYSCALL;
      } else if !isAllowed[regs.call] {
        action := ERR_POLICY_SYSCALL;
      } else if !SandboxPolicy.Valid(Tables(), pid, regs, validator[regs.call]) {
        action := ERR_POLICY_ARGS;
      } else {
        action := 0;
      }
      regs := Regs(0, 0, 0, 0, 0, 0, 0, 0);
    }

    /**
     * ptrace_sandbox_handle_event for what waitpid has just answered. A negative result is the verdict on a call, or
     * the last request was refused, or the status was odd.
     */
    method HandleEvent(status: Stop, ghost before: Phase) returns (ret: int)
      requires Valid() && !before.Entry? && isExit == !before.User? && !status.WaitFailed?
      requires !IsTrap(status) ==> child.phase == before
      requires IsTrap(status) ==> if before.User? then child.phase.Entry? else child.phase.User?
      modifies this, child
      ensures pid == if status.Died? then -1 else old(pid)
      ensures InPhase() && child.waits == old(child.waits)
      ensures ret == 1 <==> status.Died?
      ensures ret == 1 ==> child.asked == old(child.asked)
      ensures child.executed == old(child.executed) + if ret == 0 then LastCall(old(child.phase), false, false) else []
      ensures child.phase == if ret == 0 && old(child.phase).Entry? then Body else old(child.phase)
      ensures old(child.phase).Entry? && ret == 0 ==> Approved(Tables(), old(pid), old(child.phase.regs))
      ensures ret < 0 ==>
        || (GoneWrong(Wait(status)) && child.asked == old(child.asked))
        || (|child.asked| > |old(child.asked)| && GoneWrong(child.asked[|child.asked| - 1]))
        || (child.phase.Entry? && ret == Verdict(Tables(), pid, child.phase.regs))
      ensures old(child.asked) <= child.asked
      ensures ret == 0 ==> child.delivered == old(child.delivered) + [Passed(status)]
      ensures ret != 0 ==> child.delivered == old(child.delivered)
      ensures ret >= 0 ==> !child.phase.Entry?
    {
      if status.Died? {
        pid := -1;
        return 1;
      }
      if status.Odd? {
        return ERR_WAIT_STATUS;
      }
      var sig := status.sig;
      if 0 <= sig < 0x80 {
        ret := ContinueProcess(ToDeliver(sig));
        return;
      }
      if !IsTrap(status) {
        return ERR_WAIT_STATUS;
      }
      if isExit {
        isExit := false;
      } else {
        isExit := true;
        VerdictIsApproval(Tables(), pid, child.phase.regs);
        var action := GetAction();
        if action != 0 {
          return action;
        }
      }
      ret := ContinueProcess(0);
    }

    /**
     * ptrace_sandbox_kill_processes; the result says which of the two register requests were granted. Nothing is done
     * when there is no process.
     */
    method KillProcesses() returns (getOk: bool, setOk: bool)
      modifies this, child
      ensures pid == -1 && child.delivered == old(child.delivered) && child.waits == old(child.waits)
      ensures old(pid) == -1 ==>
        child.phase == old(child.phase) && child.asked == old(child.asked) && child.executed == old(child.executed)
      ensures old(pid) != -1 ==>
        && child.phase.User?
        && child.asked == old(child.asked) + KillRequests(getOk, setOk)
        && child.executed == old(child.executed) + LastCall(old(child.phase), getOk, setOk)
    {
      getOk, setOk := false, false;
      if pid == -1 {
        return;
      }
      pid := -1;
      var now;
      getOk, now := child.GetRegs();
      if getOk {
        setOk := child.SetRegs(Forced(now));
      }
      child.Kill();
    }

    /** One round of the loop: ptrace_sandbox_get_event and ptrace_sandbox_handle_event. */
    method AwaitEvent() returns (ret: int, ghost gained: seq<Regs>)
      requires Valid() && InPhase() && !child.phase.Entry? && pid != -1 && NeverStops(child.delivered)
      modifies this, child
      ensures InPhase() && NeverStops(child.delivered) && child.waits == old(child.waits) + 1
      ensures pid == if ret == 1 then -1 else old(pid)
      ensures child.executed == old(child.executed) + gained && AllApproved(gained, Tables(), old(pid))
      ensures child.asked != []
      ensures ret >= 0 ==> !child.phase.Entry?
      ensures ret < 0 ==>
        || GoneWrong(child.asked[|child.asked| - 1])
        || (child.phase.Entry? && !Approved(Tables(), old(pid), child.phase.regs))
      ensures ret == 1 ==> child.asked[|child.asked| - 1] == Wait(Died)
    {
      gained := [];
      ghost var before := child.phase;
      var status := child.NextStop();
      if status.WaitFailed? {
        return ERR_WAITPID, gained;
      }
      ghost var stopped := child.phase;
      ret := HandleEvent(status, before);
      if child.phase.Entry? {
        VerdictIsApproval(Tables(), pid, child.phase.regs);
      }
      if ret == 0 && stopped.Entry? {
        SubcallOfApproved(Tables(), pid, stopped.regs);
        gained := [stopped.regs];
      }
    }

    lemma AllApprovedConcat(a: seq<Regs>, b: seq<Regs>, p: Policy, pid: int)
      requires p.Sized() && AllApproved(a, p, pid) && AllApproved(b, p, pid)
      ensures AllApproved(a + b, p, pid)
    {
    }

    /** Calls let through: each one approved, and each socketcall for a sub-call that is allowed and accepted. */
    ghost predicate AllApproved(calls: seq<Regs>, p: Policy, pid: int)
      requires p.Sized()
    {
      forall i | 0 <= i < |calls| :: Approved(p, pid, calls[i]) && SubcallApproved(p, calls[i])
    }

    /**
     * ptrace_sandbox_run_processes, for up to so many events (2: still running). Every call that executes was
     * approved, but for at most one at the very end: the child is killed, because a call was rejected or the kernel
     * refused a request, and the call it is stopped at executes, turned into exit_group unless the kernel refuses.
     */
    method RunProcesses(events: nat) returns (ret: int, ghost run: Run)
      requires Valid() && InPhase() && child.phase.User? && pid != -1
      requires child.executed == [] && child.delivered == [] && child.asked == [] && child.waits == 0
      modifies this, child
      ensures Valid() && Tables() == old(Tables()) && ret in {0, -1, 2}
      ensures AllApproved(run.approved, Tables(), old(pid))
      ensures ret != -1 ==> child.executed == run.approved
      ensures ret == -1 ==>
        && child.executed == run.approved + LastCall(run.last, run.getOk, run.setOk)
        && child.asked == run.asked + KillRequests(run.getOk, run.setOk)
        && run.asked != []
        && (GoneWrong(run.asked[|run.asked| - 1])
            || (run.last.Entry? && !Approved(Tables(), old(pid), run.last.regs)))
      ensures ret == 0 ==> child.asked != [] && child.asked[|child.asked| - 1] == Wait(Died)
      ensures ret == 2 ==> InPhase() && pid == old(pid) && child.waits == events
      ensures child.waits <= events
      ensures ret != 2 ==> pid == -1
      ensures NeverStops(child.delivered)
    {
      run := Run([], child.phase, [], false, false);
      ret := ContinueProcess(0);
      if ret != 0 {
        ret, run := GiveUp([]);
        return;
      }
      for i := 0 to events
        invariant Valid() && Tables() == old(Tables()) && InPhase() && !child.phase.Entry?
        invariant pid == old(pid) && run.approved == child.executed && child.waits == i
        invariant AllApproved(run.approved, Tables(), pid)
        invariant NeverStops(child.delivered)
      {
        ghost var gained;
        ret, gained := AwaitEvent();
        AllApprovedConcat(run.approved, gained, Tables(), old(pid));
        if ret < 0 {
          ret, run := GiveUp(child.executed);
          return;
        }
        run := run.(approved := child.executed);
        if ret == 1 {
          return 0, run;
        }
      }
      ret := 2;
    }

    /** kill_out */
    method GiveUp(ghost approved: seq<Regs>) returns (ret: int, ghost run: Run)
      requires pid != -1 && child.executed == approved
      modifies this, child
      ensures ret == -1 && pid == -1 && child.delivered == old(child.delivered) && child.waits == old(child.waits)
      ensures run.approved == approved && run.last == old(child.phase) && run.asked == old(child.asked)
      ensures child.executed == approved + LastCall(run.last, run.getOk, run.setOk)
      ensures child.asked == run.asked + KillRequests(run.getOk, run.setOk)
    {
      run := Run(approved, child.phase, child.asked, false, false);
      var getOk, setOk := KillProcesses();
      run := run.(getOk := getOk, setOk := setOk);
      ret := -1;
    }
  }
}
