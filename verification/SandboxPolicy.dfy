/** What the ptrace supervisor (ptracesandbox.c) lets through: registers, policy tables and argument validators. */
module SandboxPolicy {
  import opened Strings

  const MAX_SYSCALL: nat := 300
  const NR_EXIT_GROUP: int := 252
  const NR_SOCKETCALL: int := 102
  const NR_MMAP2: int := 192
  const NR_OPEN: int := 5
  const NR_FCNTL: int := 55
  const NR_FCNTL64: int := 221
  const MAP_SHARED: bv32 := 0x1
  const O_ACCMODE: bv32 := 0x3
  const O_ASYNC: bv32 := 0x2000
  const O_DIRECT: bv32 := 0x4000
  const O_SYNC: bv32 := 0x101000
  const F_GETFD: bv32 := 1
  const F_SETFD: bv32 := 2
  const F_GETFL: bv32 := 3
  const F_SETFL: bv32 := 4
  const F_SETLK: bv32 := 6
  const F_SETLKW: bv32 := 7
  const F_SETOWN: bv32 := 8
  const F_SETLK64: bv32 := 13
  const F_SETLKW64: bv32 := 14

  /** user_regs_struct: the code segment, the call number as a signed int, and the six arguments. */
  datatype Regs = Regs(cs: int, call: int, ebx: bv32, ecx: bv32, edx: bv32, esi: bv32, edi: bv32, ebp: bv32)

  /** A validator given from outside: 0 accepts. */
  type Check = Regs -> int

  datatype Validator = NoValidator | Mmap2 | OpenDefault | OpenReadonly | Fcntl | Socketcall

  /** The tables of struct pt_sandbox. */
  datatype Policy = Policy(
    allowed: seq<bool>, validators: seq<Validator>,
    socketAllowed: seq<bool>, socketChecks: seq<Option<Check>>)
  {
    predicate Sized() {
      && |allowed| == MAX_SYSCALL && |validators| == MAX_SYSCALL
      && |socketAllowed| > 0 && |socketChecks| == |socketAllowed|
    }

    /** socketcall is never allowed without its validator. */
    predicate SocketcallGuarded()
      requires Sized()
    {
      allowed[NR_SOCKETCALL] ==> validators[NR_SOCKETCALL] == Socketcall
    }
  }

  /** ptrace_sandbox_get_arg: nothing outside a validated call, nor beyond six arguments. */
  function GetArg(regs: Regs, arg: int): Option<bv32> {
    if regs.call == 0 || arg < 0 || arg > 5 then None
    else Some(match arg
              case 0 => regs.ebx
              case 1 => regs.ecx
              case 2 => regs.edx
              case 3 => regs.esi
              case 4 => regs.edi
              case _ => regs.ebp)
  }

  predicate ValidMmap2(regs: Regs) {
    var arg4 := GetArg(regs, 3);
    arg4.Some? && arg4.value & MAP_SHARED == 0
  }

  predicate ValidOpenDefault(regs: Regs) {
    var arg2 := GetArg(regs, 1);
    arg2.Some? && arg2.value & (O_ASYNC | O_DIRECT | O_SYNC) == 0
  }

  predicate ValidOpenReadonly(regs: Regs) {
    var arg2 := GetArg(regs, 1);
    ValidOpenDefault(regs) && arg2.Some? && arg2.value & O_ACCMODE == 0
  }

  predicate ValidFcntl(regs: Regs, pid: int) {
    var arg2, arg3 := GetArg(regs, 1), GetArg(regs, 2);
    && arg2.Some? && arg3.Some?
    && arg2.value in [F_GETFL, F_SETFL, F_SETOWN, F_SETLK, F_SETLKW, F_SETLK64, F_SETLKW64, F_SETFD, F_GETFD]
    && !(arg2.value == F_SETFL && arg3.value & (O_ASYNC | O_DIRECT) != 0)
    && !(arg2.value == F_SETOWN && Signed(arg3.value) != pid)
  }

  /** (int) of an unsigned long on i386 */
  function Signed(v: bv32): int {
    if v < 0x8000_0000 then v as int else v as int - 0x1_0000_0000
  }

  predicate ValidSocketcall(p: Policy, regs: Regs)
    requires p.Sized()
  {
    var arg1 := GetArg(regs, 0);
    && arg1.Some? && 1 <= arg1.value as int < |p.socketAllowed|
    && p.socketAllowed[arg1.value]
    && (p.socketChecks[arg1.value].Some? ==> p.socketChecks[arg1.value].value(regs) == 0)
  }

  predicate Valid(p: Policy, pid: int, regs: Regs, v: Validator)
    requires p.Sized()
  {
    match v
    case NoValidator => true
    case Mmap2 => ValidMmap2(regs)
    case OpenDefault => ValidOpenDefault(regs)
    case OpenReadonly => ValidOpenReadonly(regs)
    case Fcntl => ValidFcntl(regs, pid)
    case Socketcall => ValidSocketcall(p, regs)
  }

  /** What a system call must satisfy to be let through. */
  predicate Approved(p: Policy, pid: int, regs: Regs)
    requires p.Sized()
  {
    && (regs.cs == 0x73 || regs.cs == 0x23)
    && 0 <= regs.call < MAX_SYSCALL
    && p.allowed[regs.call]
    && Valid(p, pid, regs, p.validators[regs.call])
  }

  const ERR_PTRACE: int := -2
  const ERR_WAITPID: int := -3
  const ERR_WAIT_STATUS: int := -4
  const ERR_POLICY_SYSCALL: int := -5
  const ERR_BAD_SYSCALL: int := -6
  const ERR_POLICY_ARGS: int := -7

  /** What get_action answers once it has the registers. */
  function Verdict(p: Policy, pid: int, regs: Regs): int
    requires p.Sized()
  {
    if regs.cs != 0x73 && regs.cs != 0x23 then ERR_BAD_SYSCALL
    else if regs.call < 0 || regs.call >= MAX_SYSCALL then ERR_BAD_SYSCALL
    else if !p.allowed[regs.call] then ERR_POLICY_SYSCALL
    else if !Valid(p, pid, regs, p.validators[regs.call]) then ERR_POLICY_ARGS
    else 0
  }

  lemma VerdictIsApproval(p: Policy, pid: int, regs: Regs)
    requires p.Sized()
    ensures Verdict(p, pid, regs) == 0 <==> Approved(p, pid, regs)
    ensures Verdict(p, pid, regs) in {0, ERR_BAD_SYSCALL, ERR_POLICY_SYSCALL, ERR_POLICY_ARGS}
  {
  }

  /** A socketcall is for a permitted sub-call, and its own check has accepted it. */
  predicate SubcallApproved(p: Policy, regs: Regs)
    requires p.Sized()
  {
    regs.call == NR_SOCKETCALL ==>
      && 1 <= regs.ebx as int < |p.socketAllowed| && p.socketAllowed[regs.ebx]
      && (p.socketChecks[regs.ebx].Some? ==> p.socketChecks[regs.ebx].value(regs) == 0)
  }

  lemma SubcallOfApproved(p: Policy, pid: int, regs: Regs)
    requires p.Sized() && p.SocketcallGuarded() && Approved(p, pid, regs)
    ensures SubcallApproved(p, regs)
  {
    hide ValidMmap2, ValidOpenDefault, ValidOpenReadonly, ValidFcntl;
    if regs.call == NR_SOCKETCALL {
      assert ValidSocketcall(p, regs);
    }
  }

  /** The registers of a call turned into exit_group, which no table has to allow. */
  function Forced(regs: Regs): Regs {
    regs.(call := NR_EXIT_GROUP)
  }
}
