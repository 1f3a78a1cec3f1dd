/**
 * The session after login: the command loop of postlogin.c with its data connections (ftpdataio.c), its listening
 * socket (privops.c) and its log entries (logging.c), in FTP mode, one process, without SSL.
 *
 * File system, network and clock answer as they please. Every observable step is appended to the trace; the
 * monitor of module Protocol runs alongside as a ghost and must never object.
 */
module Session {
  import opened Strings
  import opened Protocol
  import opened Alarms
  import opened DataPorts
  import opened Dispatch

  /** Whether the process goes on or has exited. */
  datatype Status = Running | Stopped {
    predicate IsFailure() { Stopped? }
    function PropagateFailure(): Status
      requires Stopped?
    {
      this
    }
  }

  /**
   * What signal handlers may do to the monitor, the ABOR flag and the alarm: report an ABOR, only while connected,
   * and a timeout, only while connected or under a data alarm.
   */
  predicate Interrupted(m: Monitor, abor: bool, handler: Handler,
                        m': Monitor, abor': bool, handler': Handler, connected: bool)
  {
    && m'.at == m.at && m'.ok == m.ok
    && (m.abor ==> m'.abor) && (m.timeout ==> m'.timeout)
    && (m.stalled ==> m'.stalled)
    && (!connected ==> m'.abor == m.abor && abor' == abor && m'.stalled == m.stalled)
    && (handler != DataHandler && !connected ==> handler' == handler && m'.timeout == m.timeout)
  }

  lemma InterruptedTwice(m: Monitor, abor: bool, handler: Handler, m': Monitor, abor': bool, handler': Handler,
                         m'': Monitor, abor'': bool, handler'': Handler, connected: bool)
    requires Interrupted(m, abor, handler, m', abor', handler', connected)
    requires Interrupted(m', abor', handler', m'', abor'', handler'', connected)
    ensures Interrupted(m, abor, handler, m'', abor'', handler'', connected)
  {
  }

  lemma Longer(a: seq<Event>, b: seq<Event>, c: seq<Event>)
    requires a <= b <= c
    ensures a <= c
  {
  }

  /** What the events of signal handlers change. */
  lemma HandlerEffects(m: Monitor)
    ensures Effect(m, AborSeen) == Monitor(m.at, true, m.timeout, m.stalled, m.ok)
    ensures Effect(m, TimeoutSeen) == Monitor(m.at, m.abor, true, m.stalled || m.at.conn, m.ok)
    ensures Effect(m, AsyncReply) == m
  {
  }

  /** Serving SIGALRM installs no other handler, and times out only under a data alarm. */
  lemma ServeFacts(a: Alarm, progress: bool, limits: Limits)
    ensures var s := Serve(a, progress, limits);
            && s.alarm.handler == a.handler
            && (s.timedOut ==> a.handler == DataHandler)
            && (s.alarm.pending || s.timedOut || s.idled ==> a.pending)
  {
  }

  /** The completion reply of a SITE command. */
  function SiteCode(word: SiteWord, op: OpAnswer, chmods: bool): nat {
    match word
    case CHMOD(hasFile) => if !chmods || !hasFile then 500 else if op.OpDone? then 200 else 550
    case UMASK => 200
    case SITEHELP => 214
    case UNKNOWN => 500
  }

  /** Lines that are ignored. */
  predicate IsBlank(verb: Verb, listed: bool) { listed && verb.BLANK? }

  /** The lines that are commands. */
  function Commands(lines: seq<(Verb, string, bool)>): nat {
    if lines == [] then 0
    else
      var (verb, _, listed) := lines[|lines| - 1];
      Commands(lines[..|lines| - 1]) + if IsBlank(verb, listed) then 0 else 1
  }

  /** Bytes left over in a buffer: nobody knows which. */
  method SomeBytes(count: nat) returns (bytes: seq<int>)
    ensures |bytes| == count
  {
    bytes := [];
    while |bytes| < count
      invariant |bytes| <= count
    {
      var byte: int := *;
      bytes := bytes + [byte];
    }
  }

  /** An out-of-band ABOR, behind four telnet characters. */
  predicate IsAbor(cmd: string) { |cmd| >= 4 && cmd[4..] == "ABOR" }

  /** The completion reply of a transfer that returned 0, -1 or -2. */
  function TransferCode(retval: int): nat {
    if retval == -1 then 451 else if retval == -2 then 426 else 226
  }

  /** The log entry fits the reply, if closed, or will when it is closed as failed. */
  predicate LogFits(s: Stage) {
    EntryFits(if s.log.Pending? then s.(log := Ended(LogFail)) else s)
  }

  /** What the file system answers to RETR. */
  datatype FileAnswer = Denied | CannotOpen | NotAFile(isDir: bool) | NotReadable | Sendable

  /** What it answers to STOR, APPE and STOU. */
  datatype UploadAnswer = Refused | CannotCreate | Writable

  /** What it answers to a listing. */
  datatype ListAnswer = Forbidden | NotFound | Unreadable | Listable

  /** What it answers to MKD, RMD, DELE, RNFR, RNTO and SITE CHMOD. */
  datatype OpAnswer = NotAllowed | OpFails | OpDone

  /** What the network answers: a descriptor or a negative number for the connection, and what the transfer returns. */
  datatype NetAnswer = NetAnswer(fd: int, copied: int) {
    predicate Valid() { -2 <= copied <= 0 }
  }

  datatype SiteWord = CHMOD(hasFile: bool) | UMASK | SITEHELP | UNKNOWN

  /** How a file transfer ends that got its connection; a timeout may leave the 426 out. */
  predicate FileTold(s: Stage, copied: int, timedOut: bool) {
    && s.marked && s.copied == (if copied == 0 then Good else Bad) && (s.clean ==> copied == 0)
    && s.log == (if s.clean then Ended(LogOk) else Pending)
    && if copied == 0 && !s.clean then Said(s, 426, timedOut)
       else if copied == -2 then Said(s, 426, timedOut)
       else s.reply == TransferCode(copied)
  }

  /** How a listing ends that got its connection; copied is None when there is nothing to list. */
  predicate ListTold(s: Stage, copied: Option<int>, timedOut: bool) {
    && s.marked && s.copied == (if copied.None? then Nothing else if copied.value == 0 then Good else Bad)
    && s.log.NoEntry?
    && if s.clean then s.reply == 226 && copied in {None, Some(0)} else Said(s, 426, timedOut)
  }

  predicate Said(s: Stage, code: nat, timedOut: bool) {
    s.reply == code || (timedOut && s.reply == 0)
  }

  /** How RETR ends once PORT or PASV and REST are in order. */
  predicate RetrTold(s: Stage, file: FileAnswer, net: NetAnswer, timedOut: bool) {
    if !file.Sendable? then
      s.reply == 550 && !s.marked && s.log == if file == NotAFile(true) then Ended(LogCleared) else Pending
    else if net.fd < 0 then s.reply == 425 && !s.marked && s.log.Pending?
    else FileTold(s, net.copied, timedOut)
  }

  /** How an upload ends once PORT or PASV is in order. */
  predicate UploadTold(s: Stage, file: UploadAnswer, net: NetAnswer, timedOut: bool) {
    if file.Refused? then s.reply == 550 && !s.marked && s.log.Pending?
    else if file.CannotCreate? then s.reply == 553 && !s.marked && s.log.Pending?
    else if net.fd < 0 then s.reply == 425 && !s.marked && s.log.Pending?
    else FileTold(s, net.copied, timedOut)
  }

  /** How LIST and NLST end once PORT or PASV is in order. */
  predicate ListingTold(s: Stage, dir: ListAnswer, net: NetAnswer, timedOut: bool) {
    if dir.Forbidden? then s.reply == 550 && !s.marked
    else if net.fd < 0 then s.reply == 425 && !s.marked
    else ListTold(s, if dir.Listable? then Some(net.copied) else None, timedOut)
  }

  /** The completion replies of each kind of command, as section 5.4 of RFC 959 groups them. */
  predicate CodeFits(a: Action, arg: string, ipv6: bool, code: nat) {
    match a
    case Answer(yes, no) => code == yes || code == no
    case Passive(isEpsv) => code == PasvReply(isEpsv, arg, ipv6)
    case Port => code == 200 || code == 500
    case Eprt => code == 200 || code == 500
    case Retr => code in [226, 425, 426, 451, 550]
    case Upload => code in [226, 425, 426, 451, 550, 553]
    case List(statCmd) => if statCmd then code == 213 || code == 550 else code in [226, 425, 426, 550]
    case Logged(yes) => code == yes || code == 550
    case Rnfr => code == 350 || code == 550
    case Rnto => code in [250, 503, 550]
    case SetType => code == 200 || code == 500
    case Rest => code == 350
    case Site => code in [200, 214, 500, 550]
    case Quit => false
    case Ignore => false
  }

  /** What a read of a command line brings. */
  datatype LineAnswer = GotLine | LineFailed | LongLine | NoMore

  /** What system calls find when they return: bytes moved on the data connection, SIGALRM, SIGURG with its command. */
  datatype Signals = Signals(moved: bool, rings: bool, urgent: bool, cmd: string)

  /** Kernel, file system, client and clock, as far as a session may lay its end at their door. */
  class World {
    var callFailed: bool
    var lineTooLong: bool
    var hungUp: bool
    var rang: bool

    constructor ()
      ensures !callFailed && !lineTooLong && !hungUp && !rang
    {
      callFailed, lineTooLong, hungUp, rang := false, false, false, false;
    }

    /** A system call whose failure is fatal. */
    method Call() returns (fine: bool)
      modifies `callFailed
      ensures callFailed == (old(callFailed) || !fine)
    {
      fine := *;
      if !fine {
        callFailed := true;
      }
    }

    /** ftp_getline */
    method Line() returns (got: LineAnswer)
      modifies `callFailed, `lineTooLong, `hungUp
      ensures callFailed == (old(callFailed) || got.LineFailed?)
      ensures lineTooLong == (old(lineTooLong) || got.LongLine?)
      ensures hungUp == (old(hungUp) || got.NoMore?)
    {
      got := *;
      match got {
        case GotLine =>
        case LineFailed => callFailed := true;
        case LongLine => lineTooLong := true;
        case NoMore => hungUp := true;
      }
    }

    /** The clock may have run out. */
    method Clock() returns (rings: bool)
      modifies `rang
      ensures rang == (old(rang) || rings)
    {
      rings := *;
      rang := rang || rings;
    }

    /** The return of a system call. */
    method Return() returns (got: Signals)
      modifies `rang
      ensures rang == (old(rang) || got.rings)
    {
      got := *;
      rang := rang || got.rings;
    }
  }

  class Session {
    const world: World
    const cfg: Config
    const remoteHost: seq<int>
    var pasvListenFd: int
    var portSockaddr: Option<PortAddr>
    var dataFd: int
    var ioHandler: bool
    var dataProgress: bool
    var dataTimeout: bool
    var idleTimeout: bool
    var aborReceived: bool
    var epsvAll: bool
    var isAscii: bool
    var restartPos: nat
    var haveRnfr: bool
    var logPending: bool
    var alarm: Alarm
    var trace: seq<Event>
    ghost var mon: Monitor
    ghost var taken: nat

    // ---------------------------------------------------------------- invariants

    /** The monitor has followed the trace and accepts it. */
    ghost predicate Tracked()
      reads `trace, `mon
    {
      mon == After(trace) && mon.ok
    }

    /** PORT and PASV are never both active. */
    predicate Exclusive()
      reads `pasvListenFd, `portSockaddr
    {
      pasvListenFd == -1 || portSockaddr.None?
    }

    /** The server connects only to the client's own host, and to no reserved port. */
    predicate PortChecked()
      reads `portSockaddr
    {
      portSockaddr.Some? ==> Permitted(portSockaddr.value, remoteHost, cfg.portPromiscuous)
    }

    /** Data connection, ABOR and timeout flags are what the trace says. */
    ghost predicate Synced()
      reads `dataFd, `ioHandler, `dataTimeout, `logPending, `aborReceived, `mon
    {
      && mon.at.conn == (dataFd != -1) == ioHandler
      && mon.timeout == dataTimeout
      && (mon.stalled ==> mon.timeout)
      && mon.at.log.Pending? == logPending
      && (mon.at.conn ==> mon.abor == aborReceived)
      && (aborReceived ==> mon.abor)
    }

    /** The process is running, and its fields agree with the trace. */
    ghost predicate Alive()
      reads `trace, `mon, `dataFd, `ioHandler, `dataTimeout, `logPending, `aborReceived
      reads `pasvListenFd, `portSockaddr, `alarm, `taken
    {
      Tracked() && mon.at.exit.None? && mon.at.taken == taken && Synced() && Exclusive() && Quiet()
    }

    /** What holds whenever the process is running: nothing has happened that it would have to exit for. */
    ghost predicate Inv()
      reads `trace, `mon, `dataFd, `ioHandler, `dataTimeout, `logPending, `aborReceived
      reads `pasvListenFd, `portSockaddr, `alarm, `taken, `idleTimeout, world
    {
      Alive() && Untroubled()
    }

    /** No call has failed; a line too long or a hang-up has been noted; no timeout without a SIGALRM. */
    ghost predicate Untroubled()
      reads `mon, `alarm, `dataTimeout, `idleTimeout, world
    {
      && !world.callFailed
      && (world.lineTooLong || world.hungUp ==> mon.at.trouble != NoTrouble)
      && (mon.at.trouble == LineTooLong ==> world.lineTooLong)
      && (mon.at.trouble == IdleExpired ==> world.rang)
      && (alarm.pending || idleTimeout || dataTimeout ==> world.rang)
    }

    /** Without data timeouts the data alarm is never installed. */
    ghost predicate Quiet()
      reads `alarm, `mon
    {
      cfg.limits.data == 0 ==> alarm.handler != DataHandler && !mon.timeout
    }

    /** Settings under which a data timeout cannot be lost inside the reading of a command line. */
    predicate TimeoutsAnswered() {
      !Losable(cfg.asyncAbor, cfg.limits)
    }

    /** No transfer has stalled; and under such settings no data alarm is installed and none has struck. */
    ghost predicate Calm()
      reads `alarm, `mon
    {
      !mon.stalled && (TimeoutsAnswered() ==> alarm.handler != DataHandler && !mon.timeout)
    }

    /** What has really happened when the process exits that way. */
    predicate Real(kind: ExitKind)
      reads `portSockaddr, world
    {
      match kind
      case Failed => world.callFailed
      case HungUp => world.hungUp
      case IllegalPort => portSockaddr.Some? && portSockaddr.value.port < IPPORT_RESERVED
      case Replied(code) => (code == 500 ==> world.lineTooLong) && (code == 421 ==> world.rang)
    }

    /** After these timeouts only a 421 will do, or the failure of a system call. */
    ghost predicate MustSay421()
      reads `mon
    {
      (mon.timeout && TimeoutsAnswered()) || (mon.stalled && !cfg.asyncAbor)
    }

    /**
     * The process has exited, for a real cause and in a way its settings allow. A transfer that stalled has been
     * answered with 421 unless asynchronous ABOR is on; outside the settings under which one can be lost, so has
     * every data timeout.
     */
    ghost predicate Halted()
      reads `trace, `mon, `portSockaddr, world
    {
      && Tracked() && mon.at.exit.Some? && Real(mon.at.exit.value)
      && (mon.at.exit.value == IllegalPort ==> cfg.portPromiscuous)
      && (MustSay421() ==> mon.at.exit.value == Replied(421) || mon.at.exit.value == Failed)
    }

    /** Since the monitor was at m, only signal handlers have run. */
    ghost predicate Since(m: Monitor, abor: bool, handler: Handler)
      reads `mon, `dataFd, `aborReceived, `alarm
    {
      Interrupted(m, abor, handler, mon, aborReceived, alarm.handler, dataFd != -1)
    }

    /** A session whose user has just logged in. */
    constructor (cfg: Config, remoteHost: seq<int>, alarm: Alarm, world: World)
      requires alarm.handler != DataHandler && (alarm.pending ==> world.rang)
      requires !world.callFailed && !world.lineTooLong && !world.hungUp
      ensures Idle() && this.cfg == cfg && this.world == world && this.alarm == alarm && trace == [] && taken == 0
    {
      this.cfg, this.remoteHost, this.alarm, this.world := cfg, remoteHost, alarm, world;
      pasvListenFd, portSockaddr, dataFd, ioHandler := -1, None, -1, false;
      dataProgress, dataTimeout, idleTimeout, aborReceived := false, false, false, false;
      epsvAll, isAscii, restartPos, haveRnfr, logPending := false, false, 0, false, false;
      trace, mon, taken := [], START, 0;
    }

    // ---------------------------------------------------------------- trace

    method Emit(e: Event)
      requires Tracked() && Allowed(mon, e)
      modifies `trace, `mon
      ensures Tracked() && mon == Effect(old(mon), e) && trace == old(trace) + [e]
    {
      AfterAppend(trace, e);
      hide After;
      trace := trace + [e];
      mon := Step(mon, e);
    }

    method Exit(kind: ExitKind) returns (r: Status)
      requires Tracked() && mon.at.exit.None? && Caused(mon, kind) && Real(kind)
      requires kind == IllegalPort ==> cfg.portPromiscuous
      requires MustSay421() ==> kind == Replied(421) || kind == Failed
      modifies `trace, `mon
      ensures r.Stopped? && Halted() && mon.at.exit == Some(kind) && old(trace) <= trace
    {
      hide After;
      Emit(Event.Exit(kind));
      r := Stopped;
    }

    /** A system call that may fail: die(). */
    method MayDie() returns (r: Status)
      requires Inv()
      modifies `trace, `mon, world
      ensures old(trace) <= trace
      ensures r.Running? ==> Inv() && trace == old(trace) && mon == old(mon)
      ensures r.Stopped? ==> Halted() && mon.at.exit == Some(Failed)
    {
      hide After;
      r := Running;
      var fine := world.Call();
      if !fine {
        Strike(CallFailed);
        r := Exit(Failed);
      }
    }

    /** A cause for an exit. */
    method Strike(what: Trouble)
      requires Alive() && what != NoTrouble
      modifies `trace, `mon
      ensures Alive() && mon == old(mon).(at := old(mon.at).(trouble := what)) && trace == old(trace) + [Struck(what)]
    {
      hide After, Exclusive;
      Emit(Struck(what));
    }

    // ---------------------------------------------------------------- signals

    /** SIGALRM in vsf_sysutil_check_pending_actions: handle_alarm_timeout or handle_sigalrm. */
    method HandleSigalrm()
      requires Inv()
      modifies `alarm, `dataTimeout, `dataProgress, `idleTimeout, `trace, `mon
      ensures Inv() && Since(old(mon), old(aborReceived), old(alarm.handler))
      ensures var served := Serve(old(alarm), old(dataProgress), cfg.limits);
              && alarm == served.alarm && dataProgress == served.progress
              && dataTimeout == (old(dataTimeout) || served.timedOut)
              && idleTimeout == (old(idleTimeout) || served.idled)
              && trace == old(trace) + if served.timedOut then [TimeoutSeen] else []
    {
      hide After, Serve, Effect, Exclusive;
      ServeFacts(alarm, dataProgress, cfg.limits);
      var served := Serve(alarm, dataProgress, cfg.limits);
      alarm, dataProgress := served.alarm, served.progress;
      if served.idled {
        idleTimeout := true;
      }
      if served.timedOut {
        TimeOut();
      }
    }

    /** The data connection has stalled. */
    method TimeOut()
      requires Inv() && alarm.handler == DataHandler && world.rang
      modifies `dataTimeout, `trace, `mon
      ensures Inv() && Since(old(mon), aborReceived, alarm.handler) && dataTimeout
      ensures trace == old(trace) + [TimeoutSeen]
    {
      hide After, Effect, Exclusive;
      HandlerEffects(mon);
      dataTimeout := true;
      Emit(TimeoutSeen);
    }

    /** handle_sigurg: an out-of-band command, served only while there is a data connection. */
    method HandleSigurg(cmd: string) returns (r: Status)
      requires Inv() && cfg.asyncAbor
      modifies `alarm, `dataTimeout, `dataProgress, `idleTimeout, `aborReceived, `trace, `mon, world
      ensures r.Running? ==> Inv() && Since(old(mon), old(aborReceived), old(alarm.handler))
      ensures r.Running? && dataFd != -1 && IsAbor(cmd) ==> aborReceived
      ensures old(trace) <= trace
      ensures r.Stopped? ==> Halted() && dataFd != -1
      decreases 0, 9, 0
    {
      hide After, Effect, Exclusive;
      if dataFd == -1 {
        return Running;
      }
      :- ReadLine(true);
      ghost var m, abor, handler := mon, aborReceived, alarm.handler;
      if IsAbor(cmd) {
        TakeAbor();
      } else {
        HandlerEffects(m);
        :- CmdioWrite(AsyncReply, true);
      }
      InterruptedTwice(old(mon), old(aborReceived), old(alarm.handler), m, abor, handler,
                       mon, aborReceived, alarm.handler, dataFd != -1);
      return Running;
    }

    /** An out-of-band ABOR has been read. */
    method TakeAbor()
      requires Inv() && dataFd != -1
      modifies `aborReceived, `trace, `mon
      ensures Inv() && Since(old(mon), old(aborReceived), alarm.handler) && aborReceived
      ensures trace == old(trace) + [AborSeen]
    {
      hide After, Effect, Exclusive;
      HandlerEffects(mon);
      aborReceived := true;
      Emit(AborSeen);
    }

    /**
     * vsf_sysutil_check_pending_actions after one system call; inUrg: from inside handle_sigurg. SIGALRM is served
     * first: a timeout is the first thing on the trace, and without an out-of-band command it is all there is.
     */
    method CheckPending(inUrg: bool) returns (r: Status, ghost got: Signals)
      requires Inv() && (inUrg ==> cfg.asyncAbor)
      modifies `alarm, `dataTimeout, `dataProgress, `idleTimeout, `aborReceived, `trace, `mon, world
      ensures r.Running? ==> Inv() && Since(old(mon), old(aborReceived), old(alarm.handler))
      ensures r.Stopped? ==> Halted() && dataFd != -1
      ensures old(trace) <= trace
      ensures var served := Serve(if got.rings then Rung(old(alarm)) else old(alarm),
                                  old(dataProgress) || (got.moved && ioHandler), cfg.limits);
              && old(trace) + (if served.timedOut then [TimeoutSeen] else []) <= trace
              && if got.urgent && cfg.asyncAbor && !inUrg then
                   r.Running? && dataFd != -1 && IsAbor(got.cmd) ==> aborReceived
                 else
                   && alarm == served.alarm && dataProgress == served.progress && aborReceived == old(aborReceived)
                   && dataTimeout == (old(dataTimeout) || served.timedOut)
                   && idleTimeout == (old(idleTimeout) || served.idled)
                   && trace == old(trace) + if served.timedOut then [TimeoutSeen] else []
      decreases if inUrg then 0 else 1, 0, 0
    {
      hide After, Inv, Halted, Interrupted, Serve, Rung;
      var signals := AlarmFirst();
      got := signals;
      r := Running;
      if signals.urgent && cfg.asyncAbor && !inUrg {
        ghost var m, abor, handler := mon, aborReceived, alarm.handler;
        :- HandleSigurg(signals.cmd);
        InterruptedTwice(old(mon), old(aborReceived), old(alarm.handler), m, abor, handler,
                         mon, aborReceived, alarm.handler, dataFd != -1);
      }
    }

    /** The I/O handler, and SIGALRM. */
    method AlarmFirst() returns (got: Signals)
      requires Inv()
      modifies `alarm, `dataTimeout, `dataProgress, `idleTimeout, `trace, `mon, world
      ensures Inv() && Since(old(mon), old(aborReceived), old(alarm.handler))
      ensures var served := Serve(if got.rings then Rung(old(alarm)) else old(alarm),
                                  old(dataProgress) || (got.moved && ioHandler), cfg.limits);
              && alarm == served.alarm && dataProgress == served.progress
              && dataTimeout == (old(dataTimeout) || served.timedOut)
              && idleTimeout == (old(idleTimeout) || served.idled)
              && trace == old(trace) + if served.timedOut then [TimeoutSeen] else []
    {
      hide After, Serve, Interrupted;
      got := world.Return();
      if got.moved && ioHandler {
        dataProgress := true;
      }
      if got.rings {
        alarm := Rung(alarm);
      }
      HandleSigalrm();
    }

    /** The system calls of one operation. */
    method IoPoint(inUrg: bool) returns (r: Status)
      requires Inv() && (inUrg ==> cfg.asyncAbor)
      modifies `alarm, `dataTimeout, `dataProgress, `idleTimeout, `aborReceived, `trace, `mon, world
      ensures r.Running? ==> Inv() && Since(old(mon), old(aborReceived), old(alarm.handler))
      ensures r.Stopped? ==> Halted() && dataFd != -1
      ensures old(trace) <= trace
      decreases if inUrg then 0 else 1, 0, 1
    {
      assert Since(mon, aborReceived, alarm.handler);
      hide After, Inv, Halted, Interrupted, Serve;
      var calls: nat :| true;
      r := Running;
      for i := 0 to calls
        invariant r.Running? && Inv() && Since(old(mon), old(aborReceived), old(alarm.handler))
        invariant old(trace) <= trace
      {
        ghost var m, abor, handler, t := mon, aborReceived, alarm.handler, trace;
        ghost var got;
        r, got := CheckPending(inUrg);
        Longer(old(trace), t, trace);
        if r.Stopped? {
          return;
        }
        InterruptedTwice(old(mon), old(aborReceived), old(alarm.handler), m, abor, handler,
                         mon, aborReceived, alarm.handler, dataFd != -1);
      }
    }

    // ---------------------------------------------------------------- control connection

    /** vsf_cmdio_write of a final reply line. */
    method CmdioWrite(e: Event, inUrg: bool) returns (r: Status)
      requires Inv() && (inUrg ==> cfg.asyncAbor)
      requires Allowed(mon, e) && (e.Mark? || e.Reply? || e.AborOk? || e.AsyncReply?)
      requires e.AborOk? ==> !aborReceived
      modifies `alarm, `dataTimeout, `dataProgress, `idleTimeout, `aborReceived, `trace, `mon, world
      ensures r.Running? ==> Inv() && Since(Effect(old(mon), e), old(aborReceived), old(alarm.handler))
      ensures old(trace) <= trace
      ensures r.Running? ==> old(trace) + [e] <= trace
      ensures r.Stopped? ==> Halted()
      decreases if inUrg then 0 else 1, 1, 0
    {
      hide After;
      :- MayDie();
      Emit(e);
      r := IoPoint(inUrg);
    }

    /** A hyphenated or raw line of a longer reply. */
    method WriteLine() returns (r: Status)
      requires Inv()
      modifies `alarm, `dataTimeout, `dataProgress, `idleTimeout, `aborReceived, `trace, `mon, world
      ensures r.Running? ==> Inv() && Since(old(mon), old(aborReceived), old(alarm.handler))
      ensures r.Stopped? ==> Halted()
    {
      hide After;
      :- IoPoint(false);
      r := MayDie();
    }

    /** control_getline, and what vsf_cmdio_get_cmd_and_arg does about timeouts and hang-ups. */
    method ReadLine(inUrg: bool) returns (r: Status)
      requires Inv() && (if inUrg then cfg.asyncAbor else dataFd == -1 && Calm())
      modifies `alarm, `dataTimeout, `dataProgress, `idleTimeout, `aborReceived, `trace, `mon, world
      ensures r.Running? ==> Inv() && Since(old(mon), old(aborReceived), old(alarm.handler))
      ensures r.Stopped? ==> Halted()
      ensures old(trace) <= trace
      decreases if inUrg then 0 else 1, 3, 0
    {
      hide After;
      :- IoPoint(inUrg);
      hide Interrupted;
      r := TakeLine(inUrg);
    }

    /** What the read brings. */
    method TakeLine(inUrg: bool) returns (r: Status)
      requires Inv() && (if inUrg then cfg.asyncAbor else dataFd == -1 && Calm())
      modifies `alarm, `dataTimeout, `dataProgress, `idleTimeout, `aborReceived, `trace, `mon, world
      ensures r.Running? ==>
        && Inv() && mon == old(mon) && aborReceived == old(aborReceived) && alarm == old(alarm) && trace == old(trace)
      ensures r.Stopped? ==> Halted()
      ensures old(trace) <= trace
      decreases if inUrg then 0 else 1, 2, 2
    {
      hide After;
      var got := world.Line();
      hide Halted;
      if got.LineFailed? {
        r := ExitFor(CallFailed, Failed);
      } else if got.LongLine? {
        r := GiveUp(LineTooLong, 500, inUrg);
      } else if idleTimeout {
        r := GiveUp(IdleExpired, 421, inUrg);
      } else if got.NoMore? {
        r := ExitFor(PeerGone, HungUp);
      } else {
        r := Running;
      }
    }

    /** Exit without a word. */
    method ExitFor(what: Trouble, kind: ExitKind) returns (r: Status)
      requires Alive() && Real(kind) && ((what == CallFailed && kind == Failed) || (what == PeerGone && kind == HungUp))
      requires MustSay421() ==> kind == Failed
      modifies `trace, `mon
      ensures r.Stopped? && Halted() && old(trace) <= trace
    {
      hide After;
      Strike(what);
      r := Exit(kind);
    }

    /** vsf_cmdio_write_exit for a line too long or an idle timeout. */
    method GiveUp(what: Trouble, code: nat, inUrg: bool) returns (r: Status)
      requires Alive() && (inUrg ==> cfg.asyncAbor) && Real(Replied(code))
      requires !world.callFailed && (alarm.pending || idleTimeout || dataTimeout ==> world.rang)
      requires (what == LineTooLong && code == 500) || (what == IdleExpired && code == 421)
      requires code == 421 || cfg.asyncAbor || (dataFd == -1 && Calm())
      modifies `alarm, `dataTimeout, `dataProgress, `idleTimeout, `aborReceived, `trace, `mon, world
      ensures r.Stopped? && Halted() && old(trace) <= trace
      decreases if inUrg then 0 else 1, 2, 1
    {
      hide After;
      Strike(what);
      r := WriteExit(code, inUrg);
    }

    /** vsf_cmdio_write_exit */
    method WriteExit(code: nat, inUrg: bool) returns (r: Status)
      requires Inv() && (inUrg ==> cfg.asyncAbor)
      requires code == 421 || cfg.asyncAbor || (dataFd == -1 && Calm())
      requires Caused(mon, Replied(code)) && Real(Replied(code))
      modifies `alarm, `dataTimeout, `dataProgress, `idleTimeout, `aborReceived, `trace, `mon, world
      ensures r.Stopped? && Halted() && old(trace) <= trace
      ensures old(dataFd) == -1 ==> mon.at.exit == Some(Replied(code)) || mon.at.exit == Some(Failed)
      decreases if inUrg then 0 else 1, 2, 0
    {
      hide After;
      :- IoPoint(inUrg);
      :- MayDie();
      r := Exit(Replied(code));
    }

    // ---------------------------------------------------------------- stages of a command

    /** Outside a data connection, at that stage; every ABOR seen is still to be answered. */
    ghost predicate At(s: Stage)
      reads `trace, `mon, `dataFd, `ioHandler, `dataTimeout, `logPending, `aborReceived
      reads `pasvListenFd, `portSockaddr, `alarm, `taken, `idleTimeout, world
    {
      Inv() && mon.at == s && !s.conn && mon.abor == aborReceived
    }

    /** What goes on outside a data connection leaves ABOR, calm and a timeout as they were. */
    ghost predicate Kept(abor: bool, calm: bool, timedOut: bool)
      reads `aborReceived, `dataTimeout, `alarm, `mon
    {
      aborReceived == abor && (calm ==> Calm()) && (timedOut ==> dataTimeout)
    }

    /** A command has been dealt with, but for its log entry. */
    ghost predicate Finished()
      reads `trace, `mon, `dataFd, `ioHandler, `dataTimeout, `logPending, `aborReceived
      reads `pasvListenFd, `portSockaddr, `alarm, `taken, `idleTimeout, world
    {
      && At(mon.at) && mon.at.busy && !aborReceived && !mon.at.file && PortChecked()
      && (mon.at.reply != 0 || dataTimeout)
      && (mon.at.log.Pending? && mon.at.marked ==> !mon.at.clean)
      && mon.at.trouble.NoTrouble? && (mon.at.reply != 0 ==> LogFits(mon.at))
    }

    /** A command has been taken up, and nothing has come of it yet. */
    ghost predicate Begun()
      reads `trace, `mon, `dataFd, `ioHandler, `dataTimeout, `logPending, `aborReceived
      reads `pasvListenFd, `portSockaddr, `alarm, `taken, `idleTimeout, world
    {
      At(BETWEEN.(busy := true, taken := taken)) && !aborReceived && Calm() && PortChecked()
    }

    /** Once the 150 has been sent, PORT and PASV have to be given again. */
    predicate ChannelsSpent()
      reads `pasvListenFd, `portSockaddr
    {
      pasvListenFd == -1 && portSockaddr.None?
    }

    /** Some system call outside a data connection. */
    method Pause()
      requires At(mon.at)
      modifies `alarm, `dataTimeout, `dataProgress, `idleTimeout, `aborReceived, `trace, `mon, world
      ensures At(old(mon.at)) && Kept(old(aborReceived), old(Calm()), old(dataTimeout))
    {
      hide After;
      var r := IoPoint(false);
    }

    /** vsf_cmdio_write of a completion reply. */
    method Reply(code: nat) returns (r: Status)
      requires At(mon.at) && mon.at.busy && mon.at.reply == 0
      requires 200 <= code && (code == 226 <==> mon.at.marked && mon.at.clean)
      modifies `alarm, `dataTimeout, `dataProgress, `idleTimeout, `aborReceived, `trace, `mon, world
      ensures r.Running? ==> At(old(mon.at).(reply := code)) && Kept(old(aborReceived), old(Calm()), old(dataTimeout))
      ensures r.Stopped? ==> Halted()
    {
      hide After;
      r := CmdioWrite(Event.Reply(code), false);
    }

    // ---------------------------------------------------------------- log entries and files

    /** vsf_log_start_entry */
    method LogStartEntry()
      requires At(mon.at) && mon.at.busy && mon.at.log.NoEntry?
      modifies `logPending, `trace, `mon
      ensures At(old(mon.at).(log := Pending)) && Kept(old(aborReceived), old(Calm()), old(dataTimeout))
    {
      hide After;
      if logPending {
        assert false;  // bug("non null log_type in vsf_log_start_entry")
      }
      logPending := true;
      Emit(LogStart);
    }

    /** vsf_log_do_log, or vsf_log_clear_entry */
    method LogDone(result: LogResult)
      requires At(mon.at) && mon.at.log.Pending? && (mon.at.marked ==> (result.LogOk? <==> mon.at.clean))
      modifies `logPending, `trace, `mon
      ensures At(old(mon.at).(log := Ended(result))) && Kept(old(aborReceived), old(Calm()), old(dataTimeout))
    {
      hide After;
      logPending := false;
      Emit(LogEnd(result));
    }

    /** A file or directory has been opened. */
    method NoteOpen()
      requires At(mon.at) && mon.at.busy && !mon.at.file
      modifies `trace, `mon
      ensures At(old(mon.at).(file := true)) && Kept(old(aborReceived), old(Calm()), old(dataTimeout))
    {
      hide After;
      Emit(FileOpen);
    }

    /** vsf_sysutil_close or vsf_sysutil_closedir */
    method CloseFile() returns (r: Status)
      requires At(mon.at) && mon.at.file
      modifies `alarm, `dataTimeout, `dataProgress, `idleTimeout, `aborReceived, `trace, `mon, world
      ensures r.Running? ==> At(old(mon.at).(file := false)) && Kept(old(aborReceived), old(Calm()), old(dataTimeout))
      ensures r.Stopped? ==> Halted()
    {
      hide After;
      Pause();
      :- MayDie();
      NoteClose();
      return Running;
    }

    method NoteClose()
      requires At(mon.at) && mon.at.file
      modifies `trace, `mon
      ensures At(old(mon.at).(file := false)) && Kept(aborReceived, old(Calm()), dataTimeout)
    {
      hide After;
      Emit(FileClose);
    }

    // ---------------------------------------------------------------- PORT and PASV

    /** vsf_privop_pasv_cleanup */
    method PasvCleanup() returns (r: Status)
      requires At(mon.at)
      modifies `alarm, `dataTimeout, `dataProgress, `idleTimeout, `aborReceived, `trace, `mon, world
      modifies `pasvListenFd
      ensures r.Running? ==> At(old(mon.at)) && Kept(old(aborReceived), old(Calm()), old(dataTimeout))
      ensures r.Running? ==> pasvListenFd == -1
      ensures r.Stopped? ==> Halted()
    {
      hide After;
      if pasvListenFd != -1 {
        Pause();
        :- MayDie();
        pasvListenFd := -1;
      }
      return Running;
    }

    /** port_cleanup */
    method PortCleanup()
      requires At(mon.at)
      modifies `portSockaddr
      ensures At(mon.at) && portSockaddr.None?
    {
      hide After;
      portSockaddr := None;
    }

    /** vsf_privop_pasv_listen: PasvPort models how the port is chosen. */
    method PasvListen() returns (r: Status, port: nat)
      requires At(mon.at) && portSockaddr.None? && pasvListenFd == -1
      modifies `alarm, `dataTimeout, `dataProgress, `idleTimeout, `aborReceived, `trace, `mon, world
      modifies `pasvListenFd
      ensures r.Running? ==> At(old(mon.at)) && Kept(old(aborReceived), old(Calm()), old(dataTimeout))
      ensures r.Running? ==> pasvListenFd != -1
      ensures r.Stopped? ==> Halted()
    {
      hide After;
      port := 0;
      if pasvListenFd != -1 {
        assert false;  // die("listed fd already active")
      }
      Pause();
      :- MayDie();
      var fd: int :| fd >= 0;
      pasvListenFd := fd;
      port :| 1024 <= port <= 65535;
      r := Running;
    }

    // ---------------------------------------------------------------- the data connection

    /** init_data_sock_params */
    method InitDataSockParams(fd: int)
      requires At(mon.at) && mon.at.busy && !mon.at.marked && mon.at.reply == 0 && !aborReceived && fd >= 0
      modifies `dataFd, `dataProgress, `ioHandler, `alarm, `trace, `mon
      ensures Inv() && mon.at == old(mon.at).(conn := true)
      ensures dataFd == fd && !dataProgress && alarm == StartData(old(alarm), cfg.limits)
    {
      hide After;
      if dataFd != -1 {
        assert false;  // bug("data descriptor still present in init_data_sock_params")
      }
      if ioHandler {
        assert false;  // bug("io_handler already registered") of vsf_sysutil_install_io_handler
      }
      dataFd := fd;
      dataProgress := false;
      ioHandler := true;
      Emit(Acquire);
      alarm := StartData(alarm, cfg.limits);
    }

    /** vsf_ftpdataio_dispose_transfer_fd */
    method DisposeTransferFd() returns (good: bool, ghost rang: bool)
      requires Inv() && mon.at.conn && !mon.at.copied.NotYet?
      modifies `dataFd, `ioHandler, `alarm, `trace, `mon, world
      ensures At(old(mon.at).(conn := false, clean := !old(mon.at.copied).Bad? && good))
      ensures good == (!aborReceived && !dataTimeout)
      ensures alarm == AfterClose(old(alarm), good, rang, cfg.limits)
    {
      assert mon.at.conn == (dataFd != -1) == ioHandler && mon.abor == aborReceived && mon.timeout == dataTimeout;
      assert cfg.limits.data == 0 ==> alarm.handler != DataHandler;
      hide After, Inv;
      if dataFd == -1 {
        assert false;  // bug("no data descriptor in vsf_ftpdataio_dispose_transfer_fd")
      }
      if !ioHandler {
        assert false;  // bug("no io_handler to unregister") of vsf_sysutil_uninstall_io_handler
      }
      if !aborReceived && !dataTimeout {
        WindAlarm(StartData(alarm, cfg.limits));
      }
      var rings := RingDuringClose();
      rang := rings;
      if rings {
        WindAlarm(Rung(alarm));
      }
      ReleaseDataFd();
      if cfg.limits.data > 0 {
        WindAlarm(Cleared(alarm));
      }
      good := !aborReceived && !dataTimeout;
    }

    /** The clock may run out during the close; the signal waits. */
    method RingDuringClose() returns (rings: bool)
      requires Inv()
      modifies world
      ensures Inv() && (rings ==> world.rang)
    {
      hide After;
      rings := world.Clock();
    }

    method WindAlarm(a: Alarm)
      requires Inv() && (cfg.limits.data == 0 ==> a.handler != DataHandler)
      requires a.pending ==> alarm.pending || world.rang
      modifies `alarm
      ensures Inv() && alarm == a
    {
      hide After;
      alarm := a;
    }

    /** The handler uninstalled, the socket closed: no signal is served in between. */
    method ReleaseDataFd()
      requires Inv() && mon.at.conn && !mon.at.copied.NotYet?
      modifies `dataFd, `ioHandler, `trace, `mon
      ensures At(old(mon.at).(conn := false, clean := !old(mon.at.copied).Bad? && !aborReceived && !dataTimeout))
    {
      hide After, Exclusive;
      ioHandler := false;
      dataFd := -1;
      Emit(Dispose);
    }

    /** port_active: terminates because PORT and PASV exclude each other. */
    method PortActive() returns (active: bool)
      requires Exclusive()
      ensures active <==> portSockaddr.Some?
      decreases if portSockaddr.Some? then 1 else 0
    {
      active := false;
      if portSockaddr.Some? {
        active := true;
        var both := PasvActive();
        if both {
          assert false;  // bug("port and pasv both active")
        }
      }
    }

    /** pasv_active */
    method PasvActive() returns (active: bool)
      requires Exclusive()
      ensures active <==> pasvListenFd != -1
      decreases if pasvListenFd != -1 then 1 else 0
    {
      active := pasvListenFd != -1;
      if active {
        var both := PortActive();
        if both {
          assert false;  // bug("pasv and port both active")
        }
      }
    }

    /** vsf_privop_accept_pasv: the answer of the network is a descriptor, or -1 or -2. */
    method AcceptPasv(answer: int) returns (fd: int)
      requires At(mon.at) && pasvListenFd != -1
      modifies `alarm, `dataTimeout, `dataProgress, `idleTimeout, `aborReceived, `trace, `mon, world
      ensures At(old(mon.at)) && Kept(old(aborReceived), old(Calm()), old(dataTimeout)) && fd == answer
    {
      hide After;
      if pasvListenFd == -1 {
        assert false;  // die("listed fd not active")
      }
      Pause();
      fd := answer;
    }

    /** vsf_privop_get_ftp_port_sock: the answer of the network is a descriptor, or -1. */
    method GetFtpPortSock(answer: int) returns (r: Status, fd: int)
      requires At(mon.at) && portSockaddr.Some? && Calm() && PortChecked()
      modifies `alarm, `dataTimeout, `dataProgress, `idleTimeout, `aborReceived, `trace, `mon, world
      ensures r.Running? ==> At(old(mon.at)) && Kept(old(aborReceived), old(Calm()), old(dataTimeout)) && fd == answer
      ensures portSockaddr.value.port < IPPORT_RESERVED ==> r.Stopped?
      ensures r.Stopped? ==> Halted()
    {
      hide After;
      fd := answer;
      if pasvListenFd != -1 {
        assert false;  // die("listed fd is active?")
      }
      if portSockaddr.value.port < IPPORT_RESERVED {
        Strike(ReservedPort);
        r := Exit(IllegalPort);
        return;
      }
      Pause();
      r := MayDie();
      if r.Running? {
        Pause();
      }
    }

    /** get_remote_transfer_fd */
    method GetRemoteTransferFd(answer: int) returns (r: Status, connected: bool)
      requires At(mon.at) && mon.at.busy && !mon.at.marked && mon.at.reply == 0 && !aborReceived && Calm()
      requires (pasvListenFd != -1 || portSockaddr.Some?) && PortChecked()
      modifies `alarm, `dataTimeout, `dataProgress, `idleTimeout, `aborReceived, `trace, `mon, world
      modifies `dataFd, `ioHandler
      ensures r.Running? ==> (connected <==> answer >= 0)
      ensures r.Running? && connected ==> Inv() && mon.at == old(mon.at).(conn := true, marked := true)
      ensures r.Running? && !connected ==> At(old(mon.at).(reply := 425)) && !aborReceived
      ensures r.Stopped? ==> Halted()
    {
      hide After;
      connected := false;
      var pasv := PasvActive();
      var port := PortActive();
      if !pasv && !port {
        assert false;  // bug("neither PORT nor PASV active in get_remote_transfer_fd")
      }
      aborReceived := false;
      var fd: int;
      if pasv {
        fd := AcceptPasv(answer);
      } else {
        r, fd := GetFtpPortSock(answer);
        if r.Stopped? {
          return;
        }
      }
      if fd < 0 {
        r := Reply(425);
        return;
      }
      InitDataSockParams(fd);
      r := WriteMark();
      connected := true;
    }

    /** The 150 reply. */
    method WriteMark() returns (r: Status)
      requires Inv() && mon.at.conn && !mon.at.marked
      modifies `alarm, `dataTimeout, `dataProgress, `idleTimeout, `aborReceived, `trace, `mon, world
      ensures r.Running? ==> Inv() && mon.at == old(mon.at).(marked := true)
      ensures r.Stopped? ==> Halted()
    {
      hide After;
      r := CmdioWrite(Mark, false);
    }

    /**
     * vsf_ftpdataio_transfer_file and vsf_ftpdataio_transfer_dir, as far as the session sees them: 0, or -1 or -2
     * for a local or a remote failure. DataTransfer and DirWriter model what is transferred.
     */
    method CopyData(answer: int) returns (r: Status, retval: int)
      requires Inv() && mon.at.conn && mon.at.marked && mon.at.copied.NotYet?
      modifies `alarm, `dataTimeout, `dataProgress, `idleTimeout, `aborReceived, `trace, `mon, world
      ensures r.Running? ==> Inv() && mon.at == old(mon.at).(copied := if retval == 0 then Good else Bad)
      ensures r.Running? ==> retval == answer
      ensures r.Stopped? ==> Halted()
    {
      hide After;
      retval := answer;
      r := MayDie();
      if r.Stopped? {
        return;
      }
      r := IoPoint(false);
      if r.Stopped? {
        return;
      }
      NoteCopied(retval == 0);
    }

    method NoteCopied(good: bool)
      requires Inv() && mon.at.conn && mon.at.marked && mon.at.copied.NotYet?
      modifies `trace, `mon
      ensures Inv() && mon.at == old(mon.at).(copied := if good then Good else Bad)
    {
      hide After, Exclusive;
      Emit(Copied(good));
    }

    /** A directory that could not be opened, or may not be read. */
    method NoteNothing()
      requires Inv() && mon.at.conn && mon.at.marked && mon.at.copied.NotYet?
      modifies `trace, `mon
      ensures Inv() && mon.at == old(mon.at).(copied := Nothing)
    {
      hide After, Exclusive;
      Emit(NoCopy);
    }

    /** check_abor */
    method CheckAbor() returns (r: Status)
      requires At(mon.at) && mon.at.busy && (mon.at.reply != 0 || dataTimeout)
      modifies `alarm, `dataTimeout, `dataProgress, `idleTimeout, `aborReceived, `trace, `mon, world
      ensures r.Running? ==> At(old(mon.at)) && !aborReceived && (old(dataTimeout) ==> dataTimeout)
      ensures r.Stopped? ==> Halted()
    {
      hide After;
      if aborReceived {
        aborReceived := false;
        r := CmdioWrite(AborOk, false);
      } else {
        r := Running;
      }
    }

    // ---------------------------------------------------------------- transfer commands

    /** data_transfer_checks_ok */
    method DataTransferChecksOk() returns (r: Status, fine: bool)
      requires Begun()
      modifies `alarm, `dataTimeout, `dataProgress, `idleTimeout, `aborReceived, `trace, `mon, world
      ensures r.Running? ==> (fine <==> !ChannelsSpent())
      ensures r.Running? && fine ==> Begun()
      ensures r.Running? && !fine ==> Finished() && !mon.at.marked && mon.at.log.NoEntry? && mon.at.reply == 425
      ensures r.Stopped? ==> Halted()
    {
      hide After;
      var pasv := PasvActive();
      var port := PortActive();
      fine := pasv || port;
      r := Running;
      if !fine {
        r := Reply(425);
      }
    }

    /** The transfer proper and the disposal of its connection; an ABOR or a timeout turns success into -2. */
    method RunTransfer(answer: int) returns (r: Status, retval: int)
      requires Inv() && mon.at.conn && mon.at.marked && mon.at.copied.NotYet? && -2 <= answer <= 0
      modifies `alarm, `dataTimeout, `dataProgress, `idleTimeout, `aborReceived, `trace, `mon, world
      modifies `dataFd, `ioHandler
      ensures r.Running? ==>
        At(old(mon.at).(conn := false, copied := if answer == 0 then Good else Bad, clean := retval == 0))
      ensures r.Running? ==> retval == answer || (answer == 0 && retval == -2)
      ensures r.Stopped? ==> Halted()
    {
      hide After, Inv, Halted;
      r, retval := CopyData(answer);
      if r.Stopped? {
        return;
      }
      var disposed, _ := DisposeTransferFd();
      if !disposed && retval == 0 {
        retval := -2;
      }
    }

    /** The completion reply of a transfer, left out after a timeout of the data connection. */
    method Announce(retval: int) returns (r: Status)
      requires At(mon.at) && mon.at.busy && mon.at.marked && mon.at.reply == 0
      requires (mon.at.clean <==> retval == 0) && -2 <= retval <= 0
      modifies `alarm, `dataTimeout, `dataProgress, `idleTimeout, `aborReceived, `trace, `mon, world
      ensures r.Running? ==> At(old(mon.at).(reply := mon.at.reply))
      ensures r.Running? ==> mon.at.reply == TransferCode(retval) || (retval == -2 && dataTimeout && mon.at.reply == 0)
      ensures r.Running? && old(dataTimeout) ==> dataTimeout
      ensures r.Stopped? ==> Halted()
    {
      hide After, Inv, Halted;
      if retval == -1 {
        r := Reply(451);
      } else if retval == -2 {
        r := Running;
        if !dataTimeout {
          r := Reply(426);
        }
      } else {
        r := Reply(226);
      }
    }

    /** What follows a transfer of a file: its log entry if it went well, its reply, the answer to an ABOR. */
    method ConcludeFile(retval: int) returns (r: Status)
      requires At(mon.at) && mon.at.busy && mon.at.marked && mon.at.reply == 0 && mon.at.log.Pending?
      requires (mon.at.clean <==> retval == 0) && -2 <= retval <= 0
      modifies `alarm, `dataTimeout, `dataProgress, `idleTimeout, `aborReceived, `trace, `mon, world
      modifies `logPending
      ensures r.Running? ==> !aborReceived
      ensures r.Running? ==>
        At(old(mon.at).(reply := mon.at.reply, log := if old(mon.at.clean) then Ended(LogOk) else Pending))
      ensures r.Running? ==> mon.at.reply == TransferCode(retval) || (retval == -2 && dataTimeout && mon.at.reply == 0)
      ensures r.Stopped? ==> Halted()
    {
      hide After, Inv, Halted;
      if retval == 0 {
        LogDone(LogOk);
      }
      :- Announce(retval);
      r := CheckAbor();
    }

    /** The data connection of a file transfer, from the 150 to the answer to an ABOR. */
    method TransferFile(net: NetAnswer) returns (r: Status)
      requires At(mon.at) && mon.at.busy && !mon.at.marked && mon.at.reply == 0 && !aborReceived && Calm()
      requires mon.at.log.Pending? && mon.at.copied.NotYet? && !ChannelsSpent() && PortChecked() && net.Valid()
      modifies `alarm, `dataTimeout, `dataProgress, `idleTimeout, `aborReceived, `trace, `mon, world
      modifies `pasvListenFd, `portSockaddr, `dataFd, `ioHandler, `logPending
      ensures r.Running? ==> At(mon.at) && mon.at.busy && mon.at.file == old(mon.at.file) && !aborReceived
      ensures r.Running? ==> mon.at.trouble == old(mon.at.trouble)
      ensures r.Running? ==> if net.fd < 0 then mon.at == old(mon.at).(reply := 425)
                             else FileTold(mon.at, net.copied, dataTimeout)
      ensures r.Running? ==> ChannelsSpent()
      ensures r.Stopped? ==> Halted()
    {
      hide After, Inv, Halted;
      var connected: bool, retval: int;
      r, connected := GetRemoteTransferFd(net.fd);
      if r.Stopped? {
        return;
      }
      if connected {
        r, retval := RunTransfer(net.copied);
        if r.Stopped? {
          return;
        }
        :- ConcludeFile(retval);
      }
      PortCleanup();
      r := PasvCleanup();
    }

    /** handle_retr */
    method HandleRetr(file: FileAnswer, net: NetAnswer) returns (r: Status)
      requires Begun() && net.Valid()
      modifies `alarm, `dataTimeout, `dataProgress, `idleTimeout, `aborReceived, `trace, `mon, world
      modifies `pasvListenFd, `portSockaddr, `dataFd, `ioHandler, `logPending, `restartPos
      ensures r.Running? ==> Finished() && (mon.at.marked ==> ChannelsSpent())
      ensures restartPos == 0
      ensures r.Running? && old(ChannelsSpent()) ==> mon.at.reply == 425 && !mon.at.marked && mon.at.log.NoEntry?
      ensures r.Running? && !old(ChannelsSpent()) && old(isAscii && restartPos != 0) ==>
        mon.at.reply == 550 && !mon.at.marked && mon.at.log.NoEntry?
      ensures r.Running? && !old(ChannelsSpent()) && !old(isAscii && restartPos != 0) ==>
        RetrTold(mon.at, file, net, dataTimeout)
      ensures r.Stopped? ==> Halted()
    {
      hide After, Inv, Halted;
      var offset := restartPos;
      restartPos := 0;
      var fine: bool;
      r, fine := DataTransferChecksOk();
      if r.Stopped? || !fine {
        return;
      }
      if isAscii && offset != 0 {
        r := Reply(550);
        return;
      }
      LogStartEntry();
      if file.Denied? || file.CannotOpen? {
        r := Reply(550);
        return;
      }
      NoteOpen();
      r := SendOpened(file, net);
    }

    /** The part of handle_retr that has a file to close. */
    method SendOpened(file: FileAnswer, net: NetAnswer) returns (r: Status)
      requires At(BETWEEN.(busy := true, taken := taken, file := true, log := Pending)) && !aborReceived && Calm()
      requires !ChannelsSpent() && PortChecked() && net.Valid() && !file.Denied? && !file.CannotOpen?
      modifies `alarm, `dataTimeout, `dataProgress, `idleTimeout, `aborReceived, `trace, `mon, world
      modifies `pasvListenFd, `portSockaddr, `dataFd, `ioHandler, `logPending
      ensures r.Running? ==> Finished() && (mon.at.marked ==> ChannelsSpent())
      ensures r.Running? ==> RetrTold(mon.at, file, net, dataTimeout)
      ensures r.Stopped? ==> Halted()
    {
      hide After, Inv, Halted;
      if file.NotAFile? {
        :- Reply(550);
        if file.isDir {
          LogDone(LogCleared);
        }
      } else if file.NotReadable? {
        :- Reply(550);
      } else {
        :- TransferFile(net);
      }
      r := CloseFile();
    }

    /** handle_upload_common, for STOR, APPE and STOU; what is done to the file itself is not part of this model. */
    method HandleUploadCommon(file: UploadAnswer, net: NetAnswer) returns (r: Status)
      requires Begun() && net.Valid()
      modifies `alarm, `dataTimeout, `dataProgress, `idleTimeout, `aborReceived, `trace, `mon, world
      modifies `pasvListenFd, `portSockaddr, `dataFd, `ioHandler, `logPending, `restartPos
      ensures r.Running? ==> Finished() && (mon.at.marked ==> ChannelsSpent())
      ensures restartPos == 0
      ensures r.Running? && old(ChannelsSpent()) ==> mon.at.reply == 425 && !mon.at.marked && mon.at.log.NoEntry?
      ensures r.Running? && !old(ChannelsSpent()) ==> UploadTold(mon.at, file, net, dataTimeout)
      ensures r.Stopped? ==> Halted()
    {
      hide After, Inv, Halted;
      restartPos := 0;
      var fine: bool;
      r, fine := DataTransferChecksOk();
      if r.Stopped? || !fine {
        return;
      }
      LogStartEntry();
      if file.Refused? {
        r := Reply(550);
        return;
      }
      if file.CannotCreate? {
        r := Reply(553);
        return;
      }
      NoteOpen();
      r := ReceiveOpened(net);
    }

    /** The part of handle_upload_common that has a file to close. */
    method ReceiveOpened(net: NetAnswer) returns (r: Status)
      requires At(BETWEEN.(busy := true, taken := taken, file := true, log := Pending)) && !aborReceived && Calm()
      requires !ChannelsSpent() && PortChecked() && net.Valid()
      modifies `alarm, `dataTimeout, `dataProgress, `idleTimeout, `aborReceived, `trace, `mon, world
      modifies `pasvListenFd, `portSockaddr, `dataFd, `ioHandler, `logPending
      ensures r.Running? ==> Finished() && (mon.at.marked ==> ChannelsSpent())
      ensures r.Running? ==> UploadTold(mon.at, Writable, net, dataTimeout)
      ensures r.Stopped? ==> Halted()
    {
      hide After, Inv, Halted;
      Pause();
      :- TransferFile(net);
      r := CloseFile();
    }

    /** The listing of a directory over the data connection: 0 or -1. */
    method RunDirTransfer(listable: bool, answer: int) returns (r: Status, retval: int)
      requires Inv() && mon.at.conn && mon.at.marked && mon.at.copied.NotYet?
      modifies `alarm, `dataTimeout, `dataProgress, `idleTimeout, `aborReceived, `trace, `mon, world
      modifies `dataFd, `ioHandler
      ensures r.Running? ==> -1 <= retval <= 0
      ensures r.Running? && retval == 0 && listable ==> answer == 0
      ensures r.Running? ==>
        At(old(mon.at).(conn := false, clean := retval == 0,
           copied := if !listable then Nothing else if answer == 0 then Good else Bad))
      ensures r.Stopped? ==> Halted()
    {
      hide After, Inv, Halted;
      retval := 0;
      if listable {
        r, retval := CopyData(answer);
        if r.Stopped? {
          return;
        }
        retval := if retval == 0 then 0 else -1;
      } else {
        NoteNothing();
        r := Running;
      }
      var disposed, _ := DisposeTransferFd();
      if !disposed && retval == 0 {
        retval := -1;
      }
    }

    /** The data connection of a listing, from the 150 to the answer to an ABOR. */
    method ListOverData(listable: bool, net: NetAnswer) returns (r: Status)
      requires At(mon.at) && mon.at.busy && !mon.at.marked && mon.at.reply == 0 && !aborReceived && Calm()
      requires mon.at.copied.NotYet? && mon.at.log.NoEntry? && !ChannelsSpent() && PortChecked()
      modifies `alarm, `dataTimeout, `dataProgress, `idleTimeout, `aborReceived, `trace, `mon, world
      modifies `dataFd, `ioHandler
      ensures r.Running? ==> At(mon.at) && mon.at.busy && mon.at.file == old(mon.at.file) && !aborReceived
      ensures r.Running? ==> mon.at.trouble == old(mon.at.trouble)
      ensures r.Running? ==> if net.fd < 0 then mon.at == old(mon.at).(reply := 425)
                             else ListTold(mon.at, if listable then Some(net.copied) else None, dataTimeout)
      ensures r.Stopped? ==> Halted()
    {
      hide After, Inv, Halted;
      var connected: bool, retval: int;
      r, connected := GetRemoteTransferFd(net.fd);
      if r.Stopped? || !connected {
        return;
      }
      r, retval := RunDirTransfer(listable, net.copied);
      if r.Stopped? {
        return;
      }
      :- Announce(if retval == 0 then 0 else -2);
      r := CheckAbor();
    }

    /** A listing over the control connection: STAT with an argument. */
    method ListOverControl() returns (r: Status)
      requires At(mon.at) && mon.at.busy && !mon.at.marked && mon.at.reply == 0 && !aborReceived
      modifies `alarm, `dataTimeout, `dataProgress, `idleTimeout, `aborReceived, `trace, `mon, world
      ensures r.Running? ==> At(old(mon.at).(reply := 213)) && !aborReceived
      ensures r.Stopped? ==> Halted()
    {
      hide After, Inv, Halted;
      :- WriteLines();
      :- Reply(213);
      r := CheckAbor();
    }

    method WriteLines() returns (r: Status)
      requires At(mon.at)
      modifies `alarm, `dataTimeout, `dataProgress, `idleTimeout, `aborReceived, `trace, `mon, world
      ensures r.Running? ==> At(old(mon.at)) && Kept(old(aborReceived), old(Calm()), old(dataTimeout))
      ensures r.Stopped? ==> Halted()
    {
      hide After;
      r := WriteLine();
    }

    /** handle_dir_common, for LIST, NLST and STAT */
    method HandleDirCommon(statCmd: bool, dir: ListAnswer, net: NetAnswer) returns (r: Status)
      requires Begun()
      modifies `alarm, `dataTimeout, `dataProgress, `idleTimeout, `aborReceived, `trace, `mon, world
      modifies `pasvListenFd, `portSockaddr, `dataFd, `ioHandler
      ensures r.Running? ==> Finished() && (mon.at.marked ==> ChannelsSpent())
      ensures statCmd ==> pasvListenFd == old(pasvListenFd) && portSockaddr == old(portSockaddr)
      ensures r.Running? && !statCmd && old(ChannelsSpent()) ==> mon.at.reply == 425 && !mon.at.marked
      ensures r.Running? && !statCmd && !old(ChannelsSpent()) ==> ListingTold(mon.at, dir, net, dataTimeout)
      ensures r.Running? && statCmd ==> mon.at.reply == (if dir.Forbidden? then 550 else 213) && !mon.at.marked
      ensures r.Stopped? ==> Halted()
    {
      hide After, Inv, Halted;
      if !statCmd {
        var fine: bool;
        r, fine := DataTransferChecksOk();
        if r.Stopped? || !fine {
          return;
        }
      }
      if dir.Forbidden? {
        r := Reply(550);
        return;
      }
      var found := !dir.NotFound?;
      if found {
        NoteOpen();
      }
      if statCmd {
        :- ListOverControl();
      } else {
        :- ListOverData(dir.Listable?, net);
      }
      if found {
        :- CloseFile();
      }
      r := Running;
      if !statCmd {
        PortCleanup();
        r := PasvCleanup();
      }
    }

    // ---------------------------------------------------------------- logged commands without a transfer

    /** MKD, RMD, DELE and SITE CHMOD: the entry is OK exactly when the operation is answered with its success code. */
    method HandleLogged(code: nat, op: OpAnswer) returns (r: Status)
      requires Begun() && 200 <= code < 400 && code != 226
      modifies `alarm, `dataTimeout, `dataProgress, `idleTimeout, `aborReceived, `trace, `mon, world
      modifies `logPending
      ensures r.Running? ==> Finished() && mon.at.reply == if op.OpDone? then code else 550
      ensures r.Running? ==> mon.at.log == if op.OpDone? then Ended(LogOk) else Pending
      ensures r.Stopped? ==> Halted()
    {
      hide After, Inv, Halted;
      LogStartEntry();
      if op.NotAllowed? || op.OpFails? {
        r := Reply(550);
        return;
      }
      LogDone(LogOk);
      r := Reply(code);
    }

    /** handle_rnfr */
    method HandleRnfr(op: OpAnswer) returns (r: Status)
      requires Begun()
      modifies `alarm, `dataTimeout, `dataProgress, `idleTimeout, `aborReceived, `trace, `mon, world
      modifies `logPending, `haveRnfr
      ensures haveRnfr <==> op.OpDone?
      ensures r.Running? ==> Finished() && mon.at.reply == if haveRnfr then 350 else 550
      ensures r.Running? ==> mon.at.log == if haveRnfr then NoEntry else Pending
      ensures r.Stopped? ==> Halted()
    {
      hide After, Inv, Halted;
      haveRnfr := false;
      if op.NotAllowed? || op.OpFails? {
        LogStartEntry();
        r := Reply(550);
        return;
      }
      haveRnfr := true;
      r := Reply(350);
    }

    /** handle_rnto: nothing is renamed without a RNFR, and a RNFR serves at most one attempt. */
    method HandleRnto(op: OpAnswer) returns (r: Status)
      requires Begun()
      modifies `alarm, `dataTimeout, `dataProgress, `idleTimeout, `aborReceived, `trace, `mon, world
      modifies `logPending, `haveRnfr
      ensures r.Running? ==> Finished() && (haveRnfr <==> old(haveRnfr) && op.NotAllowed?)
      ensures r.Running? ==> mon.at.reply == if !old(haveRnfr) then 503 else if op.OpDone? then 250 else 550
      ensures r.Running? ==>
        mon.at.log == if !old(haveRnfr) then NoEntry else if op.OpDone? then Ended(LogOk) else Pending
      ensures r.Stopped? ==> Halted()
    {
      hide After, Inv, Halted;
      if !haveRnfr {
        r := Reply(503);
        return;
      }
      LogStartEntry();
      if op.NotAllowed? {
        r := Reply(550);
        return;
      }
      haveRnfr := false;
      if op.OpFails? {
        r := Reply(550);
        return;
      }
      LogDone(LogOk);
      r := Reply(250);
    }

    // ---------------------------------------------------------------- data ports

    method CleanupBoth() returns (r: Status)
      requires Begun()
      modifies `alarm, `dataTimeout, `dataProgress, `idleTimeout, `aborReceived, `trace, `mon, world
      modifies `pasvListenFd, `portSockaddr
      ensures r.Running? ==> Begun() && ChannelsSpent()
      ensures r.Stopped? ==> Halted()
    {
      hide After, Inv, Halted;
      PortCleanup();
      r := PasvCleanup();
    }

    /** handle_pasv, for PASV and EPSV */
    method HandlePasv(isEpsv: bool, arg: string) returns (r: Status)
      requires Begun()
      modifies `alarm, `dataTimeout, `dataProgress, `idleTimeout, `aborReceived, `trace, `mon, world
      modifies `pasvListenFd, `portSockaddr, `epsvAll
      ensures r.Running? ==> Finished() && !mon.at.marked
      ensures epsvAll <==> old(epsvAll) || (isEpsv && Upper(arg) == "ALL")
      ensures r.Running? ==> mon.at.reply == PasvReply(isEpsv, arg, cfg.localIsIpv6)
      ensures r.Running? && mon.at.reply in {227, 229} ==> pasvListenFd != -1 && portSockaddr.None?
      ensures r.Running? && mon.at.reply !in {227, 229} ==>
        pasvListenFd == old(pasvListenFd) && portSockaddr == old(portSockaddr)
      ensures r.Stopped? ==> Halted()
    {
      hide After, Inv, Halted;
      if isEpsv && arg != "" {
        if Upper(arg) == "ALL" {
          epsvAll := true;
          r := Reply(200);
          return;
        }
        if BadEpsvProtocol(arg, cfg.localIsIpv6) {
          r := Reply(522);
          return;
        }
      }
      r := Listen(isEpsv);
    }

    method Listen(isEpsv: bool) returns (r: Status)
      requires Begun()
      modifies `alarm, `dataTimeout, `dataProgress, `idleTimeout, `aborReceived, `trace, `mon, world
      modifies `pasvListenFd, `portSockaddr
      ensures r.Running? ==> Finished() && !mon.at.marked && mon.at.reply == if isEpsv then 229 else 227
      ensures r.Running? ==> pasvListenFd != -1 && portSockaddr.None?
      ensures r.Stopped? ==> Halted()
    {
      hide After, Inv, Halted;
      :- CleanupBoth();
      var port: nat;
      r, port := PasvListen();
      if r.Stopped? {
        return;
      }
      if isEpsv {
        r := Reply(229);
        return;
      }
      :- DieUnlessAddress();
      r := Reply(227);
    }

    /** die("invalid pasv_address") */
    method DieUnlessAddress() returns (r: Status)
      requires At(mon.at)
      modifies `trace, `mon, world
      ensures r.Running? ==> At(mon.at) && mon == old(mon) && trace == old(trace)
      ensures r.Stopped? ==> Halted()
    {
      hide After;
      r := MayDie();
    }

    /** What PORT and EPRT do with a target: it stands exactly when it is permitted. */
    method TakeTarget(target: PortAddr) returns (r: Status)
      requires Begun() && ChannelsSpent()
      modifies `alarm, `dataTimeout, `dataProgress, `idleTimeout, `aborReceived, `trace, `mon, world
      modifies `portSockaddr
      ensures r.Running? ==> Finished() && !mon.at.marked
      ensures r.Running? ==> mon.at.reply == if Permitted(target, remoteHost, cfg.portPromiscuous) then 200 else 500
      ensures r.Running? ==>
        portSockaddr == if Permitted(target, remoteHost, cfg.portPromiscuous) then Some(target) else None
      ensures r.Stopped? ==> Halted()
    {
      SetPort(target);
      hide After, Inv, Halted, Permitted;
      if !Permitted(target, remoteHost, cfg.portPromiscuous) {
        :- Reply(500);
        PortCleanup();
        return Running;
      }
      r := Reply(200);
    }

    method SetPort(target: PortAddr)
      requires Begun() && ChannelsSpent()
      modifies `portSockaddr
      ensures At(mon.at) && portSockaddr == Some(target)
    {
      hide After;
      portSockaddr := Some(target);
    }

    /** handle_port */
    method HandlePort(arg: string) returns (r: Status)
      requires Begun()
      modifies `alarm, `dataTimeout, `dataProgress, `idleTimeout, `aborReceived, `trace, `mon, world
      modifies `pasvListenFd, `portSockaddr
      ensures r.Running? ==> Finished() && !mon.at.marked && pasvListenFd == -1
      ensures r.Running? ==>
        portSockaddr == PortChoice(PortTarget(arg, cfg.localIsIpv6), remoteHost, cfg.portPromiscuous)
      ensures r.Running? ==> mon.at.reply == if portSockaddr.Some? then 200 else 500
      ensures r.Stopped? ==> Halted()
    {
      hide After, Inv, Halted, Permitted, PortTarget;
      :- CleanupBoth();
      match PortTarget(arg, cfg.localIsIpv6) {
        case None => r := Reply(500);
        case Some(target) => r := TakeTarget(target);
      }
    }

    /** handle_eprt; rest is what the buffer holds behind an IPv6 text of fewer than 16 bytes. */
    method HandleEprt(arg: string, rest: seq<int>) returns (r: Status)
      requires Begun() && |rest| == Shortfall(ReadEprt(arg, cfg.localIsIpv6))
      modifies `alarm, `dataTimeout, `dataProgress, `idleTimeout, `aborReceived, `trace, `mon, world
      modifies `pasvListenFd, `portSockaddr
      ensures r.Running? ==> Finished() && !mon.at.marked && pasvListenFd == -1
      ensures r.Running? ==>
        var target := EprtTarget(ReadEprt(arg, cfg.localIsIpv6), rest, cfg.localIsIpv6);
        portSockaddr == PortChoice(target, remoteHost, cfg.portPromiscuous)
      ensures r.Running? ==> mon.at.reply == if portSockaddr.Some? then 200 else 500
      ensures r.Stopped? ==> Halted()
    {
      hide After, Inv, Halted, Permitted, ReadEprt, HostOf;
      :- CleanupBoth();
      match ReadEprt(arg, cfg.localIsIpv6) {
        case BadProtocol => r := Reply(500);
        case BadEprt => r := Reply(500);
        case Names(proto, raw, port) =>
          r := TakeTarget(PortAddr(if proto == 2 then raw + rest else HostOf(raw, cfg.localIsIpv6), port));
      }
    }

    // ---------------------------------------------------------------- other commands

    /** Commands that answer with one of two codes, perhaps after further lines. */
    method HandleAnswer(yes: nat, no: nat, op: OpAnswer) returns (r: Status)
      requires Begun() && 200 <= yes && 200 <= no && yes != 226 && no != 226
      modifies `alarm, `dataTimeout, `dataProgress, `idleTimeout, `aborReceived, `trace, `mon, world
      ensures r.Running? ==> Finished() && mon.at.reply == (if op.OpDone? then yes else no) && !mon.at.marked
      ensures r.Stopped? ==> Halted()
    {
      hide After, Inv, Halted;
      :- WriteLines();
      r := Reply(if op.OpDone? then yes else no);
    }

    /** handle_type */
    method HandleType(arg: string) returns (r: Status)
      requires Begun()
      modifies `alarm, `dataTimeout, `dataProgress, `idleTimeout, `aborReceived, `trace, `mon, world
      modifies `isAscii
      ensures r.Running? ==> Finished()
      ensures r.Running? ==>
        mon.at.reply == if Upper(arg) in ["I", "L8", "L 8", "A", "A N"] then 200 else 500
      ensures isAscii == if Upper(arg) in ["A", "A N"] then true
                         else if Upper(arg) in ["I", "L8", "L 8"] then false else old(isAscii)
      ensures r.Stopped? ==> Halted()
    {
      hide After, Inv, Halted, Upper;
      var mode := Upper(arg);
      if mode == "I" || mode == "L8" || mode == "L 8" {
        isAscii := false;
        r := Reply(200);
      } else if mode == "A" || mode == "A N" {
        isAscii := true;
        r := Reply(200);
      } else {
        r := Reply(500);
      }
    }

    /** handle_rest: val is what str_a_to_filesize_t makes of the argument. */
    method HandleRest(val: int) returns (r: Status)
      requires Begun()
      modifies `alarm, `dataTimeout, `dataProgress, `idleTimeout, `aborReceived, `trace, `mon, world
      modifies `restartPos
      ensures r.Running? ==> Finished() && mon.at.reply == 350
      ensures restartPos == if val < 0 then 0 else val
      ensures r.Stopped? ==> Halted()
    {
      hide After, Inv, Halted;
      restartPos := if val < 0 then 0 else val;
      r := Reply(350);
    }

    /** handle_site */
    method HandleSite(word: SiteWord, op: OpAnswer) returns (r: Status)
      requires Begun()
      modifies `alarm, `dataTimeout, `dataProgress, `idleTimeout, `aborReceived, `trace, `mon, world
      modifies `logPending
      ensures r.Running? ==> Finished()
      ensures r.Running? ==> mon.at.reply == SiteCode(word, op, cfg.writeEnable && cfg.chmodEnable)
      ensures r.Running? ==>
        mon.at.log == if !(cfg.writeEnable && cfg.chmodEnable && word == CHMOD(true)) then NoEntry
                      else if op.OpDone? then Ended(LogOk) else Pending
      ensures r.Stopped? ==> Halted()
    {
      hide After, Inv, Halted;
      if cfg.writeEnable && cfg.chmodEnable && word.CHMOD? {
        if word.hasFile {
          r := HandleLogged(200, op);
        } else {
          r := Reply(500);
        }
      } else {
        r := Reply(if word.UMASK? then 200 else if word.SITEHELP? then 214 else 500);
      }
    }

    // ---------------------------------------------------------------- the command loop

    /** At the top of the loop: nothing is open and nothing is due. */
    ghost predicate Idle()
      reads `trace, `mon, `dataFd, `ioHandler, `dataTimeout, `logPending, `aborReceived
      reads `pasvListenFd, `portSockaddr, `alarm, `taken, `idleTimeout, world
    {
      && At(mon.at) && !mon.at.busy && !mon.at.file && !mon.at.log.Pending?
      && !aborReceived && !dataTimeout && PortChecked() && mon.at.trouble.NoTrouble?
    }

    /** A command (or a blank line) has been dealt with, but for its log entry and a timeout. */
    ghost predicate Answered(blank: bool)
      reads `trace, `mon, `dataFd, `ioHandler, `dataTimeout, `logPending, `aborReceived
      reads `pasvListenFd, `portSockaddr, `alarm, `taken, `idleTimeout, world
    {
      if blank then
        && At(mon.at) && !mon.at.busy && !mon.at.file && !mon.at.log.Pending?
        && !aborReceived && PortChecked() && mon.at.trouble.NoTrouble?
      else Finished()
    }

    /** vsf_cmdio_get_cmd_and_arg */
    method GetCmd() returns (r: Status)
      requires Idle()
      modifies `alarm, `dataTimeout, `dataProgress, `idleTimeout, `aborReceived, `trace, `mon, world
      ensures r.Running? ==> At(old(mon.at)) && !aborReceived && Calm()
      ensures r.Stopped? ==> Halted()
    {
      hide After;
      alarm := StartIdle(alarm, cfg.limits);
      r := ReadLine(false);
    }

    /** A command other than a blank line. */
    method NoteCmd()
      requires At(mon.at) && !mon.at.busy && !mon.at.file && !mon.at.log.Pending? && !aborReceived
      requires Calm() && PortChecked() && mon.at.trouble.NoTrouble?
      modifies `trace, `mon, `taken
      ensures Begun() && taken == old(taken) + 1
    {
      hide After, Exclusive;
      taken := taken + 1;
      Emit(Cmd);
    }

    /** vsf_cmdio_write_exit from the command loop: 421 after a data timeout, 221 for QUIT. */
    method SayAndExit(code: nat) returns (r: Status)
      requires At(mon.at) && if code == 421 then dataTimeout else code == 221 && Begun()
      modifies `alarm, `dataTimeout, `dataProgress, `idleTimeout, `aborReceived, `trace, `mon, world
      ensures r.Stopped? && Halted() && (mon.at.exit == Some(Replied(code)) || mon.at.exit == Some(Failed))
    {
      hide After;
      r := WriteExit(code, false);
    }

    /** The handlers that move data, whatever file system and network answer. */
    method DispatchTransfer(action: Action, ghost arg: string) returns (r: Status)
      requires Begun() && (action.Retr? || action.Upload? || action.List?)
      modifies `alarm, `dataTimeout, `dataProgress, `idleTimeout, `aborReceived, `trace, `mon, world
      modifies `pasvListenFd, `portSockaddr, `dataFd, `ioHandler, `logPending, `restartPos
      ensures r.Running? ==> Finished() && (mon.at.marked ==> ChannelsSpent())
      ensures r.Running? && mon.at.reply != 0 ==> CodeFits(action, arg, cfg.localIsIpv6, mon.at.reply)
      ensures action.List? && action.statCmd ==> pasvListenFd == old(pasvListenFd) && portSockaddr == old(portSockaddr)
      ensures !action.List? ==> restartPos == 0
      ensures r.Stopped? ==> Halted()
    {
      hide After, Inv, Halted;
      var fd: int, copied: int :| -2 <= copied <= 0;
      var net := NetAnswer(fd, copied);
      match action {
        case Retr =>
          var file: FileAnswer := *;
          r := HandleRetr(file, net);
        case Upload =>
          var file: UploadAnswer := *;
          r := HandleUploadCommon(file, net);
        case List(statCmd) =>
          var dir: ListAnswer := *;
          r := HandleDirCommon(statCmd, dir, net);
      }
    }

    /** The handlers that set up data ports. */
    method DispatchPorts(action: Action, arg: string) returns (r: Status)
      requires Begun() && (action.Passive? || action.Port? || action.Eprt?)
      modifies `alarm, `dataTimeout, `dataProgress, `idleTimeout, `aborReceived, `trace, `mon, world
      modifies `pasvListenFd, `portSockaddr, `epsvAll
      ensures r.Running? ==> Finished() && !mon.at.marked
      ensures r.Running? ==> CodeFits(action, arg, cfg.localIsIpv6, mon.at.reply)
      ensures epsvAll <==> old(epsvAll) || (action == Passive(true) && Upper(arg) == "ALL")
      ensures r.Stopped? ==> Halted()
    {
      hide After, Inv, Halted;
      match action {
        case Passive(isEpsv) => r := HandlePasv(isEpsv, arg);
        case Port => r := HandlePort(arg);
        case Eprt =>
          ShortfallIsNat(arg, cfg.localIsIpv6);
          var rest := SomeBytes(Shortfall(ReadEprt(arg, cfg.localIsIpv6)));
          r := HandleEprt(arg, rest);
      }
    }

    /** All other handlers. */
    method DispatchOther(action: Action, arg: string) returns (r: Status)
      requires Begun() && !(action.Retr? || action.Upload? || action.List?)
      requires !(action.Passive? || action.Port? || action.Eprt?) && !action.Ignore?
      requires action.Answer? ==> PlainAnswer(action)
      requires action.Logged? ==> (action.code == 250 || action.code == 257)
      modifies `alarm, `dataTimeout, `dataProgress, `idleTimeout, `aborReceived, `trace, `mon, world
      modifies `logPending, `restartPos, `haveRnfr, `isAscii
      ensures r.Running? ==> Finished() && CodeFits(action, arg, cfg.localIsIpv6, mon.at.reply)
      ensures action.Quit? ==> r.Stopped? && (mon.at.exit == Some(Replied(221)) || mon.at.exit == Some(Failed))
      ensures r.Stopped? ==> Halted()
    {
      hide After, Inv, Halted;
      var op: OpAnswer := *;
      match action {
        case Quit => r := SayAndExit(221);
        case Answer(yes, no) => r := HandleAnswer(yes, no, op);
        case Logged(code) => r := HandleLogged(code, op);
        case Rnfr => r := HandleRnfr(op);
        case Rnto => r := HandleRnto(op);
        case SetType => r := HandleType(arg);
        case Rest =>
          var val: int := *;
          r := HandleRest(val);
        case Site =>
          var word: SiteWord := *;
          r := HandleSite(word, op);
      }
    }

    /** vsf_log_do_log(p_sess, 0) for an entry nobody has closed. */
    method LogPendingAsFailed(ghost blank: bool)
      requires Answered(blank) && logPending
      modifies `logPending, `trace, `mon
      ensures Answered(blank) && !logPending && mon.at == old(mon.at).(log := Ended(LogFail))
      ensures dataTimeout == mon.timeout
    {
      hide After, Exclusive;
      LogDone(LogFail);
    }

    method NoteEnd()
      requires Finished() && !mon.at.log.Pending? && !dataTimeout
      modifies `trace, `mon
      ensures Idle() && mon.at == old(mon.at).(busy := false)
    {
      hide After, Exclusive;
      Emit(End);
    }

    /**
     * The bottom of the loop: an entry still pending is logged as failed, and a data timeout ends the session
     * with 421.
     */
    method Bottom(blank: bool) returns (r: Status)
      requires Answered(blank)
      modifies `alarm, `dataTimeout, `dataProgress, `idleTimeout, `aborReceived, `trace, `mon, world
      modifies `logPending
      ensures r.Running? ==> Idle() && mon.at.reply == old(mon.at.reply)
      ensures r.Running? ==> mon.at.log == if old(logPending) then Ended(LogFail) else old(mon.at.log)
      ensures old(dataTimeout) ==> r.Stopped? && (mon.at.exit == Some(Replied(421)) || mon.at.exit == Some(Failed))
      ensures !old(dataTimeout) ==> r.Running?
      ensures r.Stopped? ==> Halted()
    {
      assert logPending == mon.at.log.Pending?;
      hide After, Inv, Halted;
      if logPending {
        LogPendingAsFailed(blank);
      }
      if dataTimeout {
        r := SayAndExit(421);
        return;
      }
      if !blank {
        NoteEnd();
      }
      r := Running;
    }

    /** Whatever handler the command calls for. */
    method RunHandler(action: Action, arg: string) returns (r: Status)
      requires Begun() && !action.Ignore?
      requires action.Answer? ==> PlainAnswer(action)
      requires action.Logged? ==> (action.code == 250 || action.code == 257)
      modifies `alarm, `dataTimeout, `dataProgress, `idleTimeout, `aborReceived, `trace, `mon, world
      modifies `pasvListenFd, `portSockaddr, `dataFd, `ioHandler, `logPending, `restartPos
      modifies `haveRnfr, `isAscii, `epsvAll
      ensures r.Running? ==> Finished()
      ensures r.Running? && mon.at.reply != 0 ==> CodeFits(action, arg, cfg.localIsIpv6, mon.at.reply)
      ensures action.Answer? || action.Logged? || action == List(true) ==>
        pasvListenFd == old(pasvListenFd) && portSockaddr == old(portSockaddr)
      ensures action.Quit? ==> r.Stopped? && (mon.at.exit == Some(Replied(221)) || mon.at.exit == Some(Failed))
      ensures old(epsvAll) ==> epsvAll
      ensures r.Stopped? ==> Halted()
    {
      hide After, Inv, Halted, CodeFits;
      if action.Retr? || action.Upload? || action.List? {
        r := DispatchTransfer(action, arg);
      } else if action.Passive? || action.Port? || action.Eprt? {
        r := DispatchPorts(action, arg);
      } else {
        r := DispatchOther(action, arg);
      }
    }

    /**
     * One turn of the loop of process_post_login, whatever the client sends: a command is taken up, answered with a
     * code of its kind and brought to its end, or the session exits; a blank line leaves no trace. Once EPSV ALL is
     * accepted it stays so, and PASV and PORT leave the data ports alone.
     */
    method Turn(verb: Verb, arg: string, listed: bool) returns (r: Status)
      requires Idle()
      modifies this, world
      ensures r.Running? ==> Idle() && taken == old(taken) + if IsBlank(verb, listed) then 0 else 1
      ensures listed && verb.QUIT? ==> r.Stopped?
      ensures r.Running? && !IsBlank(verb, listed) ==>
        CodeFits(Select(cfg, old(epsvAll), verb, arg == "", listed), arg, cfg.localIsIpv6, mon.at.reply)
      ensures old(epsvAll) ==> epsvAll
      ensures old(epsvAll) && (verb.PASV? || verb.PATSW? || verb.PORT?) ==>
        pasvListenFd == old(pasvListenFd) && portSockaddr == old(portSockaddr)
      ensures r.Stopped? ==> Halted()
    {
      hide After, Inv, Halted, Select, CodeFits;
      :- GetCmd();
      var action := Select(cfg, epsvAll, verb, arg == "", listed);
      SelectFacts(cfg, epsvAll, verb, arg == "", listed);
      if action.Ignore? {
        r := Bottom(true);
      } else {
        r := ServeCommand(action, arg);
      }
    }

    /** From the taking up of a command to the bottom of the loop. */
    method ServeCommand(action: Action, arg: string) returns (r: Status)
      requires At(mon.at) && !mon.at.busy && !mon.at.file && !mon.at.log.Pending? && !aborReceived
      requires Calm() && PortChecked() && mon.at.trouble.NoTrouble? && !action.Ignore?
      requires action.Answer? ==> PlainAnswer(action)
      requires action.Logged? ==> (action.code == 250 || action.code == 257)
      modifies this, world
      ensures r.Running? ==> Idle() && taken == old(taken) + 1
      ensures r.Running? ==> CodeFits(action, arg, cfg.localIsIpv6, mon.at.reply)
      ensures action.Answer? || action.Logged? || action == List(true) ==>
        pasvListenFd == old(pasvListenFd) && portSockaddr == old(portSockaddr)
      ensures action.Quit? ==> r.Stopped?
      ensures old(epsvAll) ==> epsvAll
      ensures r.Stopped? ==> Halted()
    {
      hide After, Inv, Halted, CodeFits;
      NoteCmd();
      :- RunHandler(action, arg);
      r := Bottom(false);
    }

    /**
     * process_post_login, for any number of commands; the login left no data alarm behind. Unless the session exits,
     * as many commands were taken up, answered and ended as the client sent lines that are not blank.
     */
    method ProcessPostLogin(commands: seq<(Verb, string, bool)>) returns (r: Status)
      requires Idle() && alarm.handler != DataHandler && trace == []
      modifies this, world
      ensures Accepted(trace)
      ensures r.Running? ==> Idle() && Count(trace, Cmd) == Commands(commands)
      ensures r.Running? ==> Replies(trace) == Commands(commands) && Count(trace, End) == Commands(commands)
      ensures r.Stopped? ==> Halted()
    {
      assert taken == 0;
      hide After;
      :- WriteLine();
      :- CommandLoop(commands);
      CommandCounts(trace);
      r := Running;
    }

    method CommandLoop(commands: seq<(Verb, string, bool)>) returns (r: Status)
      requires Idle()
      modifies this, world
      ensures r.Running? ==> Idle() && taken == old(taken) + Commands(commands)
      ensures r.Stopped? ==> Halted()
    {
      hide After, Inv, Halted, Select, CodeFits;
      assert commands[..|commands|] == commands;
      for i := 0 to |commands|
        invariant Idle() && taken == old(taken) + Commands(commands[..i])
      {
        var (verb, arg, listed) := commands[i];
        assert commands[..i + 1][..i] == commands[..i];
        :- Turn(verb, arg, listed);
      }
      r := Running;
    }
  }
}
