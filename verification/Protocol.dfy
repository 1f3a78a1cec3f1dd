/**
 * What a client and an administrator may observe of a session, and the rules it must follow: the reply discipline
 * of sections 4.1.3 and 5.4 of RFC 959, one close for every data connection and file, one end for every log entry.
 */
module Protocol {
  import opened Strings

  datatype ExitKind =
    | Replied(code: nat)    // a last reply, then exit
    | HungUp                // the control connection ended: no reply
    | Failed                // die() on an error of the environment
    | IllegalPort           // die() of vsf_privop_get_ftp_port_sock on a reserved port

  /** How the transfer proper went; Nothing: a directory that could not be opened, or may not be read, is listed. */
  datatype Copy = NotYet | Good | Bad | Nothing

  datatype LogResult = LogOk | LogFail | LogCleared

  /** The log entry of the current command. */
  datatype LogState = NoEntry | Pending | Ended(result: LogResult)

  /** What can make a session exit, but for QUIT and a timeout of the data connection. */
  datatype Trouble = NoTrouble | CallFailed | LineTooLong | PeerGone | IdleExpired | ReservedPort

  datatype Event =
    | Cmd                   // a non-empty command is taken up
    | Mark                  // 150
    | Reply(code: nat)      // a completion reply
    | AborOk                // 226 "ABOR successful"
    | AsyncReply            // 500 to an out-of-band command other than ABOR
    | Acquire               // data_fd set
    | Copied(good: bool)    // the transfer proper returned
    | NoCopy                // there was nothing to transfer
    | Dispose               // data_fd reset
    | AborSeen              // out-of-band ABOR taken in
    | TimeoutSeen           // the data connection timed out
    | FileOpen
    | FileClose
    | LogStart
    | LogEnd(result: LogResult)
    | End                   // bottom of the command loop
    | Struck(what: Trouble) // a system call failed for good, or the client left, or was too slow, or sent too much
    | Exit(kind: ExitKind)

  /**
   * What has happened since the last command (reply is 0 until its completion reply), what is open, how many commands
   * were taken up, and whether the process has exited.
   */
  datatype Stage = Stage(
    busy: bool, marked: bool, reply: nat, conn: bool, copied: Copy, clean: bool,
    file: bool, log: LogState, trouble: Trouble, taken: nat, exit: Option<ExitKind>)

  const BETWEEN := Stage(false, false, 0, false, NotYet, false, false, NoEntry, NoTrouble, 0, None)

  /**
   * The stage, an ABOR not yet answered, a timeout, and whether it struck during a transfer; ok turns false at the
   * first event that was not allowed.
   */
  datatype Monitor = Monitor(at: Stage, abor: bool, timeout: bool, stalled: bool, ok: bool)

  const START := Monitor(BETWEEN, false, false, false, true)

  /** Whether an event may come next. */
  predicate Allowed(m: Monitor, e: Event) {
    && m.at.exit.None?
    && match e
       case Cmd => !m.at.busy && !m.at.conn && !m.abor && !m.at.file && !m.at.log.Pending?
       case Acquire => m.at.busy && !m.at.conn && !m.at.marked && m.at.reply == 0
       case Mark => m.at.conn && !m.at.marked
       case Copied(_) => m.at.conn && m.at.marked && m.at.copied.NotYet?
       case NoCopy => m.at.conn && m.at.marked && m.at.copied.NotYet?
       case Dispose => m.at.conn && !m.at.copied.NotYet?
       case Reply(code) => m.at.busy && !m.at.conn && m.at.reply == 0 && 200 <= code
                           && (code == 226 <==> m.at.marked && m.at.clean)
       case AborOk => m.at.busy && !m.at.conn && m.abor && (m.at.reply != 0 || m.timeout)
       case AsyncReply => m.at.conn
       case AborSeen => m.at.conn
       case TimeoutSeen => true
       case FileOpen => m.at.busy && !m.at.file
       case FileClose => m.at.file
       case LogStart => m.at.busy && m.at.log.NoEntry?
       case LogEnd(result) => m.at.log.Pending? && !m.at.conn && (m.at.marked ==> (result.LogOk? <==> m.at.clean))
       case End => m.at.busy && !m.at.conn && !m.abor && !m.at.file && !m.at.log.Pending?
                  && m.at.reply != 0 && !m.timeout && EntryFits(m.at)
       case Struck(what) => what != NoTrouble
       case Exit(kind) => Caused(m, kind)
  }

  /** A log entry says of a command what its completion reply says; only a RETR of a directory clears it. */
  predicate EntryFits(s: Stage) {
    && (s.log == Ended(LogOk) ==> s.reply < 400)
    && (s.log == Ended(LogFail) ==> s.reply >= 400)
    && (s.log == Ended(LogCleared) ==> s.reply == 550 && !s.marked)
  }

  /** Every exit has its cause; 221 answers QUIT. */
  predicate Caused(m: Monitor, kind: ExitKind) {
    match kind
    case Failed => m.at.trouble == CallFailed
    case HungUp => m.at.trouble == PeerGone
    case IllegalPort => m.at.trouble == ReservedPort
    case Replied(code) =>
      || (code == 421 && (m.timeout || m.at.trouble == IdleExpired))
      || (code == 500 && m.at.trouble == LineTooLong)
      || (code == 221 && m.at.busy && m.at.reply == 0)
  }

  /** Flag by flag: what sets it, what resets it. */
  function Effect(m: Monitor, e: Event): Monitor {
    Monitor(
      at := StageAfter(m.at, e, m.abor || m.timeout),
      abor := e.AborSeen? || (m.abor && !e.AborOk?),
      timeout := m.timeout || e.TimeoutSeen?,
      stalled := m.stalled || (e.TimeoutSeen? && m.at.conn),
      ok := m.ok)
  }

  function StageAfter(s: Stage, e: Event, disturbed: bool): Stage {
    if HandlerEvent(e) then s
    else
      Stage(
        busy := e.Cmd? || (s.busy && !e.End?),
        marked := !e.Cmd? && (s.marked || e.Mark?),
        reply := if e.Cmd? then 0 else if e.Reply? then e.code else s.reply,
        conn := e.Acquire? || (s.conn && !e.Dispose?),
        copied := if e.Cmd? then NotYet
                  else if e.Copied? then (if e.good then Good else Bad)
                  else if e.NoCopy? then Nothing else s.copied,
        clean := !e.Cmd? && if e.Dispose? then (s.copied.Good? || s.copied.Nothing?) && !disturbed else s.clean,
        file := e.FileOpen? || (s.file && !e.FileClose?),
        log := if e.Cmd? then NoEntry
               else if e.LogStart? then Pending
               else if e.LogEnd? then Ended(e.result) else s.log,
        trouble := if e.Cmd? then NoTrouble else if e.Struck? then e.what else s.trouble,
        taken := if e.Cmd? then s.taken + 1 else s.taken,
        exit := if e.Exit? then Some(e.kind) else s.exit)
  }

  /** Events that leave the stage alone. */
  predicate HandlerEvent(e: Event) { e.AborSeen? || e.TimeoutSeen? || e.AborOk? || e.AsyncReply? }

  function Step(m: Monitor, e: Event): Monitor {
    if m.ok && Allowed(m, e) then Effect(m, e) else m.(ok := false)
  }

  /** The monitor after a trace. */
  function After(trace: seq<Event>): Monitor {
    if trace == [] then START else Step(After(trace[..|trace| - 1]), trace[|trace| - 1])
  }

  lemma AfterAppend(trace: seq<Event>, e: Event)
    ensures After(trace + [e]) == Step(After(trace), e)
  {
    assert (trace + [e])[..|trace|] == trace;
  }

  // ---------------------------------------------------------------- what an accepted trace looks like

  /** The trace satisfied the rules at every step. */
  predicate Accepted(trace: seq<Event>) {
    After(trace).ok
  }

  function Bit(b: bool): nat { if b then 1 else 0 }

  function Count(trace: seq<Event>, e: Event): nat {
    if trace == [] then 0 else Count(trace[..|trace| - 1], e) + Bit(trace[|trace| - 1] == e)
  }

  /** The completion replies in a trace. */
  function Replies(trace: seq<Event>): nat {
    if trace == [] then 0 else Replies(trace[..|trace| - 1]) + Bit(trace[|trace| - 1].Reply?)
  }

  /** The log entries brought to an end in a trace. */
  function LogEnds(trace: seq<Event>): nat {
    if trace == [] then 0 else LogEnds(trace[..|trace| - 1]) + Bit(trace[|trace| - 1].LogEnd?)
  }

  /** The events since the last command was taken up. */
  function Current(trace: seq<Event>): seq<Event> {
    if trace == [] || trace[|trace| - 1] == Cmd then []
    else Current(trace[..|trace| - 1]) + [trace[|trace| - 1]]
  }

  /**
   * The current command has closed its data connection after a good copy, or with nothing to copy, and with neither
   * ABOR nor timeout by then.
   */
  predicate CleanTransfer(trace: seq<Event>) {
    if trace == [] || trace[|trace| - 1] == Cmd then false
    else
      var past := trace[..|trace| - 1];
      if trace[|trace| - 1] == Dispose then
        && (Copied(true) in Current(past) || NoCopy in Current(past))
        && AborSeen !in Current(past) && TimeoutSeen !in past
      else CleanTransfer(past)
  }

  lemma {:induction false} AcceptedPrefix(trace: seq<Event>, k: nat)
    requires Accepted(trace) && k <= |trace|
    ensures Accepted(trace[..k])
    decreases |trace|
  {
    if k < |trace| {
      AcceptedPrefix(trace[..|trace| - 1], k);
      assert trace[..|trace| - 1][..k] == trace[..k];
    } else {
      assert trace[..k] == trace;
    }
  }

  /** Whatever is acquired, opened or started is given back exactly once, and never before. */
  lemma {:induction false} Balance(trace: seq<Event>)
    requires Accepted(trace)
    ensures Count(trace, Acquire) == Count(trace, Dispose) + Bit(After(trace).at.conn)
    ensures Count(trace, FileOpen) == Count(trace, FileClose) + Bit(After(trace).at.file)
    ensures Count(trace, LogStart) == LogEnds(trace) + Bit(After(trace).at.log.Pending?)
  {
    if trace != [] {
      var past, e := trace[..|trace| - 1], trace[|trace| - 1];
      Balance(past);
      BalanceStep(After(past), e);
      assert After(trace) == Step(After(past), e);
      hide Allowed, Effect, After;
    }
  }

  lemma BalanceStep(m: Monitor, e: Event)
    requires Step(m, e).ok
    ensures m.ok
    ensures Bit(m.at.conn) + Bit(e == Acquire) == Bit(e == Dispose) + Bit(Step(m, e).at.conn)
    ensures Bit(m.at.file) + Bit(e == FileOpen) == Bit(e == FileClose) + Bit(Step(m, e).at.file)
    ensures Bit(m.at.log.Pending?) + Bit(e == LogStart) == Bit(e.LogEnd?) + Bit(Step(m, e).at.log.Pending?)
  {
    assert (e.Acquire? ==> !m.at.conn) && (e.Dispose? ==> m.at.conn);
    assert (e.FileOpen? ==> !m.at.file) && (e.FileClose? ==> m.at.file);
    assert (e.LogStart? ==> m.at.log.NoEntry?) && (e.LogEnd? ==> m.at.log.Pending?);
    assert e.Cmd? ==> !m.at.log.Pending?;
    hide Allowed;
  }

  /** The events of the current command that matter to its replies. */
  datatype Tally = Tally(marks: nat, replies: nat, aborOks: nat, goodCopy: bool, aborSeen: bool)

  function TallyOf(current: seq<Event>): Tally {
    Tally(Count(current, Mark), Replies(current), Count(current, AborOk),
          Copied(true) in current || NoCopy in current, AborSeen in current)
  }

  /** The monitor's flags, read off that tally. */
  predicate Told(m: Monitor, t: Tally) {
    RepliesTold(m, t) && AborTold(m, t)
  }

  predicate RepliesTold(m: Monitor, t: Tally) {
    && t.marks == Bit(m.at.marked)
    && t.replies == Bit(m.at.reply != 0)
    && (m.at.copied.Good? || m.at.copied.Nothing? <==> t.goodCopy)
    && (!m.at.copied.NotYet? ==> m.at.marked)
  }

  predicate AborTold(m: Monitor, t: Tally) {
    && t.aborOks == Bit(t.aborSeen && !m.abor)
    && (m.abor ==> t.aborSeen)
    && (t.aborSeen ==> m.at.conn || !m.at.copied.NotYet?)
    && (m.at.conn ==> t.aborOks == 0)
  }

  lemma {:induction false} Discipline(trace: seq<Event>)
    requires Accepted(trace)
    ensures Told(After(trace), TallyOf(Current(trace)))
  {
    if trace != [] {
      var past, e := trace[..|trace| - 1], trace[|trace| - 1];
      assert After(trace) == Step(After(past), e);
      assert Current(trace) == if e == Cmd then [] else Current(past) + [e];
      hide After, Current, Told;
      Discipline(past);
      TallyStep(Current(past), e);
      AllowedRules(After(past), e);
      DisciplineStep(After(past), TallyOf(Current(past)), e);
    }
  }

  function Tallied(t: Tally, e: Event): Tally {
    if e.Cmd? then Tally(0, 0, 0, false, false)
    else
      Tally(t.marks + Bit(e.Mark?), t.replies + Bit(e.Reply?), t.aborOks + Bit(e.AborOk?),
            t.goodCopy || (e.Copied? && e.good) || e.NoCopy?, t.aborSeen || e.AborSeen?)
  }

  lemma TallyStep(current: seq<Event>, e: Event)
    ensures TallyOf(if e == Cmd then [] else current + [e]) == Tallied(TallyOf(current), e)
  {
    var next := current + [e];
    assert next[..|next| - 1] == current && next[|next| - 1] == e;
  }

  lemma DisciplineStep(m: Monitor, t: Tally, e: Event)
    requires Told(m, t) && Rules(m, e)
    ensures Told(Effect(m, e), Tallied(t, e))
  {
    RepliesStep(m, t, e);
    AborStep(m, t, e);
  }

  lemma RepliesStep(m: Monitor, t: Tally, e: Event)
    requires RepliesTold(m, t) && Rules(m, e)
    ensures RepliesTold(Effect(m, e), Tallied(t, e))
  {
  }

  lemma AborStep(m: Monitor, t: Tally, e: Event)
    requires RepliesTold(m, t) && AborTold(m, t) && Rules(m, e)
    ensures AborTold(Effect(m, e), Tallied(t, e))
  {
  }

  /** What Allowed says of the events Told is about. */
  predicate Rules(m: Monitor, e: Event) {
    && (e.Mark? ==> m.at.conn && !m.at.marked)
    && (e.Acquire? ==> !m.at.conn && !m.at.marked)
    && (e.Copied? ==> m.at.conn && m.at.marked && m.at.copied.NotYet?)
    && (e.NoCopy? ==> m.at.conn && m.at.marked && m.at.copied.NotYet?)
    && (e.Dispose? ==> !m.at.copied.NotYet?)
    && (e.Reply? ==> m.at.reply == 0 && e.code != 0)
    && (e.AborOk? ==> !m.at.conn && m.abor)
    && (e.AborSeen? ==> m.at.conn)
    && (e.Cmd? ==> !m.at.conn && !m.abor)
  }

  lemma AllowedRules(m: Monitor, e: Event)
    requires Allowed(m, e)
    ensures Rules(m, e)
  {
  }

  /**
   * By the bottom of the command loop every command has had exactly one completion reply, at most one 150 before,
   * and, if an ABOR came in, exactly one answer to it.
   */
  lemma {:induction false} EveryCommandIsAnswered(trace: seq<Event>)
    requires Accepted(trace + [End])
    ensures Replies(Current(trace)) == 1 && Count(Current(trace), Mark) <= 1
    ensures Count(Current(trace), AborOk) == Bit(AborSeen in Current(trace))
  {
    AfterAppend(trace, End);
    Discipline(trace);
  }

  /**
   * Over a whole run every command taken up is brought to its end, with one completion reply; between commands the
   * three counts agree.
   */
  lemma {:induction false} CommandCounts(trace: seq<Event>)
    requires Accepted(trace)
    ensures var s := After(trace).at;
            && Count(trace, Cmd) == s.taken
            && Count(trace, End) + Bit(s.busy) == s.taken
            && Replies(trace) == Count(trace, End) + Bit(s.busy && s.reply != 0)
  {
    if trace != [] {
      var past, e := trace[..|trace| - 1], trace[|trace| - 1];
      CommandCounts(past);
      assert After(trace) == Step(After(past), e);
      hide After;
      CommandStep(After(past), e);
    }
  }

  lemma CommandStep(m: Monitor, e: Event)
    requires Step(m, e).ok
    ensures m.ok
    ensures Step(m, e).at.taken == m.at.taken + Bit(e == Cmd)
    ensures Bit(e == End) + Bit(Step(m, e).at.busy) == Bit(m.at.busy) + Bit(e == Cmd)
    ensures Bit(e.Reply?) + Bit(m.at.busy && m.at.reply != 0)
         == Bit(e == End) + Bit(Step(m, e).at.busy && Step(m, e).at.reply != 0)
  {
    CommandRules(m, e);
    hide Allowed;
  }

  lemma CommandRules(m: Monitor, e: Event)
    requires Allowed(m, e)
    ensures e.Cmd? ==> !m.at.busy
    ensures e.End? ==> m.at.busy && m.at.reply != 0
    ensures e.Reply? ==> m.at.busy && m.at.reply == 0 && e.code != 0
  {
  }

  /** No exit without its cause in the trace: a failure, a hang-up, an idle or data timeout, a line too long, a QUIT. */
  lemma {:induction false} ExitsHaveCauses(trace: seq<Event>, kind: ExitKind)
    requires Accepted(trace + [Exit(kind)])
    ensures match kind
            case Failed => Struck(CallFailed) in trace
            case HungUp => Struck(PeerGone) in trace
            case IllegalPort => Struck(ReservedPort) in trace
            case Replied(code) =>
              || (code == 421 && (TimeoutSeen in trace || Struck(IdleExpired) in trace))
              || (code == 500 && Struck(LineTooLong) in trace)
              || (code == 221 && Count(trace, Cmd) == Replies(trace) + 1)
  {
    AfterAppend(trace, Exit(kind));
    TroubleStruck(trace);
    CleanMeans(trace);
    CommandCounts(trace);
  }

  lemma {:induction false} TroubleStruck(trace: seq<Event>)
    requires Accepted(trace)
    ensures var t := After(trace).at.trouble; t == NoTrouble || Struck(t) in trace
  {
    if trace != [] {
      var past, e := trace[..|trace| - 1], trace[|trace| - 1];
      TroubleStruck(past);
      assert After(trace) == Step(After(past), e);
      assert trace == past + [e];
      hide After, Allowed;
    }
  }

  /** A completion reply is 226 exactly when the command has made a clean transfer. */
  lemma {:induction false} SuccessIsJustified(trace: seq<Event>, code: nat)
    requires Accepted(trace + [Reply(code)])
    ensures code == 226 <==> CleanTransfer(trace)
  {
    AfterAppend(trace, Reply(code));
    CleanMeans(trace);
    CleanWasMarked(trace);
  }

  lemma {:induction false} CleanWasMarked(trace: seq<Event>)
    requires Accepted(trace)
    ensures After(trace).at.clean ==> After(trace).at.marked
  {
    if trace != [] {
      var past, e := trace[..|trace| - 1], trace[|trace| - 1];
      CleanWasMarked(past);
      Discipline(past);
    }
  }

  lemma {:induction false} CleanMeans(trace: seq<Event>)
    requires Accepted(trace)
    ensures After(trace).at.clean == CleanTransfer(trace)
    ensures After(trace).timeout <==> TimeoutSeen in trace
  {
    if trace != [] {
      var past, e := trace[..|trace| - 1], trace[|trace| - 1];
      assert trace == past + [e];
      assert After(trace) == Step(After(past), e);
      CleanMeans(past);
      Discipline(past);
    }
  }

  /** Once the data connection has timed out, the command under way is never brought to its end: the session exits. */
  lemma {:induction false} NothingEndsAfterTimeout(trace: seq<Event>, i: nat, j: nat)
    requires Accepted(trace) && i < j < |trace| && trace[i] == TimeoutSeen
    ensures trace[j] != End
  {
    AcceptedPrefix(trace, j);
    AcceptedPrefix(trace, j + 1);
    CleanMeans(trace[..j]);
    assert trace[..j][i] == TimeoutSeen;
    assert trace[..j + 1] == trace[..j] + [trace[j]];
    AfterAppend(trace[..j], trace[j]);
  }

  /** The log entry of every command brought to its end agrees with its reply. */
  lemma {:induction false} EntriesAgree(trace: seq<Event>, code: nat, result: LogResult)
    requires Accepted(trace + [End]) && Reply(code) in Current(trace) && LogEnd(result) in Current(trace)
    ensures match result
            case LogOk => code < 400
            case LogFail => code >= 400
            case LogCleared => code == 550 && Count(Current(trace), Mark) == 0
  {
    AfterAppend(trace, End);
    EndFits(After(trace));
    EntryTold(trace, code, result);
    MarkTold(trace);
    hide After, Step, Current;
  }

  lemma EndFits(m: Monitor)
    requires Step(m, End).ok
    ensures m.ok && EntryFits(m.at)
  {
  }

  lemma MarkTold(trace: seq<Event>)
    requires Accepted(trace)
    ensures Count(Current(trace), Mark) == Bit(After(trace).at.marked)
  {
    Discipline(trace);
    hide After, Current;
  }

  /** A command has at most one log entry and one reply, and the monitor knows them. */
  lemma {:induction false} EntryTold(trace: seq<Event>, code: nat, result: LogResult)
    requires Accepted(trace)
    ensures Reply(code) in Current(trace) ==> After(trace).at.reply == code
    ensures LogEnd(result) in Current(trace) ==> After(trace).at.log == Ended(result)
  {
    if trace != [] {
      var past, e := trace[..|trace| - 1], trace[|trace| - 1];
      assert After(trace) == Step(After(past), e);
      assert Current(trace) == if e == Cmd then [] else Current(past) + [e];
      EntryTold(past, code, result);
      Positive(past, code);
      hide After, Current;
      EntryStep(After(past), e);
    }
  }

  lemma EntryStep(m: Monitor, e: Event)
    requires Step(m, e).ok
    ensures m.ok
    ensures Step(m, e).at.reply == if e.Cmd? then 0 else if e.Reply? then e.code else m.at.reply
    ensures Step(m, e).at.log == if e.Cmd? then NoEntry
                                 else if e.LogStart? then Pending
                                 else if e.LogEnd? then Ended(e.result) else m.at.log
    ensures e.Reply? ==> m.at.reply == 0
    ensures e.LogStart? ==> m.at.log.NoEntry?
    ensures e.LogEnd? ==> m.at.log.Pending?
  {
    EntryRules(m, e);
    hide Allowed;
  }

  lemma EntryRules(m: Monitor, e: Event)
    requires Allowed(m, e)
    ensures e.Reply? ==> m.at.reply == 0
    ensures e.LogStart? ==> m.at.log.NoEntry?
    ensures e.LogEnd? ==> m.at.log.Pending?
  {
  }

  /** Completion replies have positive codes. */
  lemma {:induction false} Positive(trace: seq<Event>, code: nat)
    requires Accepted(trace)
    ensures Reply(code) in Current(trace) ==> code > 0
  {
    if trace != [] {
      var past, e := trace[..|trace| - 1], trace[|trace| - 1];
      assert After(trace) == Step(After(past), e);
      Positive(past, code);
      hide After;
      if Step(After(past), e).ok {
        CommandRules(After(past), e);
      }
    }
  }

  /** The data connection timed out while it was there. */
  predicate StalledTransfer(trace: seq<Event>) {
    trace != [] &&
    var past, e := trace[..|trace| - 1], trace[|trace| - 1];
    (e == TimeoutSeen && Count(past, Acquire) > Count(past, Dispose)) || StalledTransfer(past)
  }

  lemma {:induction false} StalledMeans(trace: seq<Event>)
    requires Accepted(trace)
    ensures After(trace).stalled == StalledTransfer(trace)
  {
    if trace != [] {
      var past, e := trace[..|trace| - 1], trace[|trace| - 1];
      assert After(trace) == Step(After(past), e);
      StalledMeans(past);
      Balance(past);
      hide After, Allowed, StageAfter;
    }
  }
}
