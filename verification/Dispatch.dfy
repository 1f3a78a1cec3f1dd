/** Which handler the command loop of postlogin.c picks, by settings, EPSV ALL and command. */
module Dispatch {
  import opened Alarms

  /** The settings the modelled code reads. */
  datatype Config = Config(
    pasvEnable: bool, portEnable: bool, downloadEnable: bool, writeEnable: bool, dirlistEnable: bool,
    anonUpload: bool, anonMkdir: bool, anonOther: bool, isAnonymous: bool, chmodEnable: bool,
    asyncAbor: bool, portPromiscuous: bool, localIsIpv6: bool, limits: Limits)

  /** The command words compared against; PATSW is "P@SW", BLANK an empty line, OTHER any other word. */
  datatype Verb =
    | QUIT | PWD | XPWD | CWD | XCWD | CDUP | XCUP | PASV | PATSW | EPSV | RETR | NOOP | SYST | HELP | LIST | TYPE
    | PORT | STOR | MKD | XMKD | RMD | XRMD | DELE | REST | RNFR | RNTO | NLST | SIZE | SITE | ABOR | APPE | MDTM
    | EPRT | STRU | MODE | STOU | ALLO | REIN | ACCT | SMNT | FEAT | OPTS | STAT | PBSZ | PROT | USER | PASS
    | BLANK | OTHER

  datatype Action =
    | Quit
    | Answer(yes: nat, no: nat)       // one of two replies, and nothing else this model knows of
    | Passive(isEpsv: bool)
    | Port
    | Eprt
    | Retr
    | Upload
    | List(statCmd: bool)
    | Logged(code: nat)               // MKD, RMD and DELE
    | Rnfr
    | Rnto
    | SetType
    | Rest
    | Site
    | Ignore

  function Denied(): Action { Answer(550, 550) }

  /**
   * The chain of tests of process_post_login; listed: the command passed cmds_allowed and cmds_denied. A command whose
   * settings are against it reaches the list of known words at the end, and is denied.
   */
  function Select(cfg: Config, epsvAll: bool, verb: Verb, argEmpty: bool, listed: bool): Action {
    if !listed then Denied()
    else if SetsPorts(verb) then SelectPorts(cfg, epsvAll, verb)
    else if MovesData(verb) then SelectTransfer(cfg, verb, argEmpty)
    else if MakesChanges(verb) then SelectChange(cfg, verb)
    else SelectPlain(verb)
  }

  predicate SetsPorts(verb: Verb) { verb.PASV? || verb.PATSW? || verb.EPSV? || verb.PORT? || verb.EPRT? }

  predicate MovesData(verb: Verb) {
    verb.RETR? || verb.STOR? || verb.STOU? || verb.APPE? || verb.LIST? || verb.NLST? || verb.STAT?
  }

  predicate MakesChanges(verb: Verb) {
    || verb.MKD? || verb.XMKD? || verb.RMD? || verb.XRMD? || verb.DELE? || verb.RNFR? || verb.RNTO? || verb.SITE?
  }

  predicate Uploads(cfg: Config) { cfg.writeEnable && (cfg.anonUpload || !cfg.isAnonymous) }

  predicate Mkdirs(cfg: Config) { cfg.writeEnable && (cfg.anonMkdir || !cfg.isAnonymous) }

  predicate Others(cfg: Config) { cfg.writeEnable && (cfg.anonOther || !cfg.isAnonymous) }

  function SelectPorts(cfg: Config, epsvAll: bool, verb: Verb): Action
    requires SetsPorts(verb)
  {
    match verb
    case PASV => if cfg.pasvEnable && !epsvAll then Passive(false) else Denied()
    case PATSW => if cfg.pasvEnable && !epsvAll then Passive(false) else Answer(500, 500)
    case EPSV => if cfg.pasvEnable then Passive(true) else Denied()
    case PORT => if cfg.portEnable && !epsvAll then Port else Denied()
    case EPRT => if cfg.portEnable then Eprt else Denied()
  }

  function SelectTransfer(cfg: Config, verb: Verb, argEmpty: bool): Action
    requires MovesData(verb)
  {
    match verb
    case RETR => if cfg.downloadEnable then Retr else Denied()
    case STOR | STOU => if Uploads(cfg) then Upload else Denied()
    case APPE => if Others(cfg) then Upload else Denied()
    case LIST | NLST => if cfg.dirlistEnable then List(false) else Denied()
    case STAT => if argEmpty then Answer(211, 211) else if cfg.dirlistEnable then List(true) else Denied()
  }

  function SelectChange(cfg: Config, verb: Verb): Action
    requires MakesChanges(verb)
  {
    match verb
    case MKD | XMKD => if Mkdirs(cfg) then Logged(257) else Denied()
    case RMD | XRMD | DELE => if Others(cfg) then Logged(250) else Denied()
    case RNFR => if Others(cfg) then Rnfr else Denied()
    case RNTO => if Others(cfg) then Rnto else Denied()
    case SITE => if !cfg.isAnonymous then Site else Denied()
  }

  function SelectPlain(verb: Verb): Action {
    match verb
    case QUIT => Quit
    case PWD | XPWD => Answer(257, 257)
    case CWD | XCWD | CDUP | XCUP => Answer(250, 550)
    case NOOP => Answer(200, 200)
    case SYST => Answer(215, 215)
    case HELP => Answer(214, 214)
    case TYPE => SetType
    case REST => Rest
    case SIZE | MDTM => Answer(213, 550)
    case ABOR => Answer(225, 225)
    case STRU | MODE => Answer(200, 504)
    case ALLO => Answer(202, 202)
    case REIN | ACCT | SMNT => Answer(502, 502)
    case FEAT => Answer(211, 211)
    case OPTS => Answer(200, 501)
    case PBSZ | PROT => Denied()
    case USER => Answer(331, 530)
    case PASS => Answer(230, 230)
    case BLANK => Ignore
    case _ => Answer(500, 500)
  }

  /** An answer is a completion reply, and never the 226 of a transfer or of an ABOR. */
  predicate PlainAnswer(a: Action) {
    a.Answer? && 200 <= a.yes && 200 <= a.no && a.yes != 226 && a.no != 226
  }

  lemma PlainFacts(verb: Verb)
    ensures var a := SelectPlain(verb);
            && (PlainAnswer(a) || a.Quit? || a.SetType? || a.Rest? || a.Ignore?)
            && (a.Ignore? <==> verb.BLANK?) && (a.Quit? <==> verb.QUIT?)
  {
  }

  lemma PortFacts(cfg: Config, epsvAll: bool, verb: Verb)
    requires SetsPorts(verb)
    ensures var a := SelectPorts(cfg, epsvAll, verb);
            && (PlainAnswer(a) || a.Passive? || a.Port? || a.Eprt?)
            && (a.Eprt? <==> verb.EPRT? && cfg.portEnable)
            && (a.Port? <==> verb.PORT? && cfg.portEnable && !epsvAll)
            && (a == Passive(true) <==> verb.EPSV? && cfg.pasvEnable)
            && (a == Passive(false) <==> (verb.PASV? || verb.PATSW?) && cfg.pasvEnable && !epsvAll)
  {
  }

  lemma TransferFacts(cfg: Config, verb: Verb, argEmpty: bool)
    requires MovesData(verb)
    ensures var a := SelectTransfer(cfg, verb, argEmpty);
            && (PlainAnswer(a) || a.Retr? || a.Upload? || a.List?)
            && (a.Upload? ==> if verb.APPE? then Others(cfg) else Uploads(cfg))
  {
  }

  lemma ChangeFacts(cfg: Config, verb: Verb)
    requires MakesChanges(verb)
    ensures var a := SelectChange(cfg, verb);
            && (PlainAnswer(a) || a.Logged? || a.Rnfr? || a.Rnto? || a.Site?)
            && (a.Logged? ==> if a.code == 257 then Mkdirs(cfg) else a.code == 250 && Others(cfg))
            && (a.Rnfr? || a.Rnto? ==> Others(cfg))
            && (a.Site? ==> !cfg.isAnonymous)
  {
  }

  /** What holds of the action picked, all groups together. */
  lemma SelectFacts(cfg: Config, epsvAll: bool, verb: Verb, argEmpty: bool, listed: bool)
    ensures var a := Select(cfg, epsvAll, verb, argEmpty, listed);
            && (a.Answer? ==> PlainAnswer(a))
            && (a.Ignore? <==> listed && verb.BLANK?)
            && (a.Quit? <==> listed && verb.QUIT?)
            && (a.Logged? ==> a.code == 250 || a.code == 257)
            && (epsvAll && (verb.PASV? || verb.PATSW? || verb.PORT?) ==> a.Answer?)
  {
    if SetsPorts(verb) {
      PortFacts(cfg, epsvAll, verb);
    } else if MovesData(verb) {
      TransferFacts(cfg, verb, argEmpty);
    } else if MakesChanges(verb) {
      ChangeFacts(cfg, verb);
    } else {
      PlainFacts(verb);
    }
    hide SelectPorts, SelectTransfer, SelectChange, SelectPlain;
  }

  /**
   * After EPSV ALL no command but EPSV and EPRT reaches a handler that sets up a data port; section 3 of RFC 2428
   * wants EPRT refused as well, but it is accepted exactly when PORT is enabled at all.
   */
  lemma {:induction false} EpsvAllShutsOut(cfg: Config, verb: Verb, argEmpty: bool, listed: bool)
    ensures var a := Select(cfg, true, verb, argEmpty, listed);
            && !a.Port? && a != Passive(false)
            && (a == Passive(true) <==> listed && verb.EPSV? && cfg.pasvEnable)
            && (a.Eprt? <==> listed && verb.EPRT? && cfg.portEnable)
  {
    if SetsPorts(verb) {
      PortFacts(cfg, true, verb);
    } else if MovesData(verb) {
      TransferFacts(cfg, verb, argEmpty);
    } else if MakesChanges(verb) {
      ChangeFacts(cfg, verb);
    } else {
      PlainFacts(verb);
    }
    hide SelectPorts, SelectTransfer, SelectChange, SelectPlain;
  }

  /**
   * The settings read back, group by group: files are changed only with write_enable on and, by anonymous users, only
   * as far as their three settings go; SITE asks for neither, but shuts anonymous users out.
   */
  lemma {:induction false} ChangesAreEnabled(cfg: Config, epsvAll: bool, verb: Verb, argEmpty: bool, listed: bool)
    ensures var a := Select(cfg, epsvAll, verb, argEmpty, listed);
            && (a.Upload? || a.Logged? || a.Rnfr? || a.Rnto? ==>
                  listed && if a.Upload? && !verb.APPE? then Uploads(cfg)
                            else if a == Logged(257) then Mkdirs(cfg) else Others(cfg))
            && (a.Site? ==> listed && !cfg.isAnonymous)
  {
    if SetsPorts(verb) {
      PortFacts(cfg, epsvAll, verb);
    } else if MovesData(verb) {
      TransferFacts(cfg, verb, argEmpty);
    } else if MakesChanges(verb) {
      ChangeFacts(cfg, verb);
    } else {
      PlainFacts(verb);
    }
    hide SelectPorts, SelectTransfer, SelectChange, SelectPlain, Uploads, Others, Mkdirs;
  }
}
