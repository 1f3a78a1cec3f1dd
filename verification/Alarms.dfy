/**
 * SIGALRM as sysutil.c, ftpcmdio.c and ftpdataio.c use it: one alarm clock and one handler slot shared by the idle
 * timeout and the data timeout, with handlers run only when a system call returns.
 */
module Alarms {

  datatype Handler = NoHandler | IdleHandler | DataHandler

  /** The handler installed, whether alarm() is counting, and whether a signal waits to be served. */
  datatype Alarm = Alarm(handler: Handler, armed: bool, pending: bool)

  /** idle_session_timeout and data_connection_timeout; 0 means never. */
  datatype Limits = Limits(idle: nat, data: nat)

  datatype Served = Served(alarm: Alarm, progress: bool, idled: bool, timedOut: bool)

  /** vsf_cmdio_set_alarm */
  function StartIdle(a: Alarm, limits: Limits): Alarm {
    if limits.idle > 0 then Alarm(IdleHandler, true, a.pending) else a
  }

  /** start_data_alarm */
  function StartData(a: Alarm, limits: Limits): Alarm {
    if limits.data > 0 then Alarm(DataHandler, true, a.pending)
    else if limits.idle > 0 then Cleared(a)
    else a
  }

  /** vsf_sysutil_clear_alarm: stops the clock, but not a signal already taken in. */
  function Cleared(a: Alarm): Alarm {
    a.(armed := false)
  }

  /** vsf_sysutil_common_sighandler: the clock has run out; it is wound up again until the signal is served. */
  function Rung(a: Alarm): Alarm {
    if a.armed then a.(pending := true) else a
  }

  /** vsf_sysutil_check_pending_actions for SIGALRM: handle_alarm_timeout or handle_sigalrm. */
  function Serve(a: Alarm, progress: bool, limits: Limits): Served {
    if !a.pending then Served(a, progress, false, false)
    else
      var quiet := a.(armed := false, pending := false);
      match a.handler
      case NoHandler => Served(quiet, progress, false, false)
      case IdleHandler => Served(quiet, progress, true, false)
      case DataHandler =>
        if !progress then Served(quiet, progress, false, true)
        else Served(StartData(quiet, limits), false, false, false)
  }

  /** The clock runs out before each of n system calls. */
  function Rings(a: Alarm, progress: bool, limits: Limits, n: nat): Served
    decreases n
  {
    if n == 0 then Served(a, progress, false, false)
    else
      var past := Rings(a, progress, limits, n - 1);
      var now := Serve(Rung(past.alarm), past.progress, limits);
      now.(idled := past.idled || now.idled, timedOut := past.timedOut || now.timedOut)
  }

  /**
   * vsf_ftpdataio_dispose_transfer_fd: the alarm is wound up for a close that lingers, may ring during the close, and
   * is cleared afterwards.
   */
  function AfterClose(a: Alarm, lingers: bool, rings: bool, limits: Limits): Alarm {
    var wound := if lingers then StartData(a, limits) else a;
    var rung := if rings then Rung(wound) else wound;
    if limits.data > 0 then Cleared(rung) else rung
  }

  /**
   * How a read of the control connection ends: handle_sigalrm shuts the connection for reading, so that the read
   * returns 0, and vsf_cmdio_get_cmd_and_arg exits without a word unless the idle timeout has struck.
   */
  predicate EndsSilently(read: Served) { read.timedOut && !read.idled }

  /**
   * A transfer ends with its close and calls further system calls, at least the one that writes the reply; if the data
   * timeout does not strike then, where a 421 answers it, the next command line is read.
   */
  ghost predicate LostAtNextCommand(a: Alarm, limits: Limits) {
    exists rings, progress, calls: nat, n: nat ::
      calls > 0 && Reading(a, limits, rings, progress, calls, n)
  }

  predicate Reading(a: Alarm, limits: Limits, rings: bool, progress: bool, calls: nat, n: nat) {
    var ended := Rings(AfterClose(a, true, rings, limits), progress, limits, calls);
    !ended.timedOut && EndsSilently(Rings(StartIdle(ended.alarm, limits), ended.progress, limits, n))
  }

  /** handle_sigurg reads a line in the middle of a transfer, under the alarm of the transfer. */
  ghost predicate LostAtUrgentRead(a: Alarm, limits: Limits) {
    exists progress, n: nat :: EndsSilently(Rings(StartData(a, limits), progress, limits, n))
  }

  /** Settings under which a data timeout can be lost inside the reading of a line. */
  predicate Losable(asyncAbor: bool, limits: Limits) {
    limits.data > 0 && (asyncAbor || limits.idle == 0)
  }

  /**
   * A data timeout can end the session without the promised 421 exactly when data timeouts are on and either idle
   * timeouts are off or asynchronous ABOR is on.
   */
  lemma {:induction false} LostTimeoutExactly(a: Alarm, asyncAbor: bool, limits: Limits)
    requires limits.data == 0 ==> a.handler != DataHandler
    ensures Losable(asyncAbor, limits) <==>
      LostAtNextCommand(a, limits) || (asyncAbor && LostAtUrgentRead(a, limits))
  {
    NextCommandExactly(a, limits);
    UrgentReadExactly(a, limits);
    hide LostAtNextCommand, LostAtUrgentRead;
  }

  /** While the next command is read: a SIGALRM of the lingering close, served after the reply, winds the alarm up. */
  lemma {:induction false} NextCommandExactly(a: Alarm, limits: Limits)
    requires limits.data == 0 ==> a.handler != DataHandler
    ensures LostAtNextCommand(a, limits) <==> limits.data > 0 && limits.idle == 0
  {
    if limits.data > 0 && limits.idle == 0 {
      var closed := AfterClose(a, true, true, limits);
      assert closed == Alarm(DataHandler, false, true);
      OneRing(closed, true, limits);
      var ended := Rings(closed, true, limits, 1);
      assert ended == Served(Alarm(DataHandler, true, false), false, false, false);
      OneRing(ended.alarm, false, limits);
      assert Reading(a, limits, true, true, 1, 1);
    } else {
      forall rings, progress, calls: nat, n: nat ensures !Reading(a, limits, rings, progress, calls, n) {
        var closed := AfterClose(a, true, rings, limits);
        var ended := Rings(closed, progress, limits, calls);
        if limits.idle == 0 {
          NeverTimesOut(closed, progress, limits, calls);
        }
        NeverTimesOut(StartIdle(ended.alarm, limits), ended.progress, limits, n);
      }
    }
  }

  /** While an urgent command is read: the alarm of the transfer itself. */
  lemma {:induction false} UrgentReadExactly(a: Alarm, limits: Limits)
    requires limits.data == 0 ==> a.handler != DataHandler
    ensures LostAtUrgentRead(a, limits) <==> limits.data > 0
  {
    var wound := StartData(a, limits);
    if limits.data > 0 {
      OneRing(wound, false, limits);
      assert EndsSilently(Rings(wound, false, limits, 1));
    } else {
      forall progress, n: nat ensures !EndsSilently(Rings(wound, progress, limits, n)) {
        NeverTimesOut(wound, progress, limits, n);
      }
    }
  }

  lemma OneRing(a: Alarm, progress: bool, limits: Limits)
    ensures Rings(a, progress, limits, 1) == Serve(Rung(a), progress, limits)
  {
    assert Rings(a, progress, limits, 0) == Served(a, progress, false, false);
  }

  lemma {:induction false} NeverTimesOut(a: Alarm, progress: bool, limits: Limits, n: nat)
    requires a.handler != DataHandler
    ensures var s := Rings(a, progress, limits, n);
            !s.timedOut && s.alarm.handler == a.handler
    decreases n
  {
    if n > 0 {
      NeverTimesOut(a, progress, limits, n - 1);
    }
  }
}
