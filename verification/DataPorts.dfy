/** What PORT, EPRT, PASV and EPSV say about data ports (postlogin.c), on values. */
module DataPorts {
  import opened Strings
  import AddrParse
  import Ipv6Parse

  /** A host as the bytes of its address in the family of the local address, and a port. */
  datatype PortAddr = PortAddr(host: seq<int>, port: int)

  /** vsf_sysutil_sockaddr_set_ipv4addr: on an IPv6 socket an IPv4 address is mapped. */
  function HostOf(raw: seq<int>, ipv6: bool): seq<int> {
    if ipv6 && |raw| == 4 then [0, 0, 0, 0, 0, 0, 0, 0, 0, 0, 255, 255] + raw else raw
  }

  /** The target of a PORT argument. */
  function PortTarget(arg: string, ipv6: bool): Option<PortAddr> {
    match AddrParse.ParseFields(arg, ',', 6)
    case None => None
    case Some(vals) =>
      ParsedCount(arg, ',', 6);
      Some(PortAddr(HostOf(vals[..4], ipv6), AddrParse.PortOf(vals)))
  }

  const IPPORT_RESERVED: int := 1024

  /** The two checks of handle_port and handle_eprt: the client's own host, and no reserved port. */
  predicate Permitted(target: PortAddr, remoteHost: seq<int>, promiscuous: bool) {
    promiscuous || (target.host == remoteHost && target.port >= IPPORT_RESERVED)
  }

  // ---------------------------------------------------------------- port_active and pasv_active

  /** port_active with so many calls to spend: None when they do not suffice. */
  function PortActiveIn(pasv: bool, port: bool, calls: nat): Option<bool> {
    if calls == 0 then None
    else if !port then Some(false)
    else if PasvActiveIn(pasv, port, calls - 1).None? then None
    else Some(true)
  }

  /** pasv_active, likewise */
  function PasvActiveIn(pasv: bool, port: bool, calls: nat): Option<bool> {
    if calls == 0 then None
    else if !pasv then Some(false)
    else if PortActiveIn(pasv, port, calls - 1).None? then None
    else Some(true)
  }

  /** The two call each other for ever exactly when PORT and PASV are both active. */
  lemma {:induction false} ActiveTerminatesExactly(pasv: bool, port: bool)
    ensures (exists calls: nat :: PortActiveIn(pasv, port, calls).Some? && PasvActiveIn(pasv, port, calls).Some?)
       <==> !(pasv && port)
  {
    if pasv && port {
      forall calls: nat ensures PortActiveIn(pasv, port, calls).None? {
        BothNeverReturn(calls);
      }
    } else {
      assert PortActiveIn(pasv, port, 1).None? <==> port;
      assert PasvActiveIn(pasv, port, 1).None? <==> pasv;
      assert PortActiveIn(pasv, port, 2) == Some(port) && PasvActiveIn(pasv, port, 2) == Some(pasv);
    }
  }

  lemma {:induction false} BothNeverReturn(calls: nat)
    ensures PortActiveIn(true, true, calls).None? && PasvActiveIn(true, true, calls).None?
  {
    if calls > 0 {
      BothNeverReturn(calls - 1);
    }
  }

  /** The port PORT leaves behind. */
  function PortChoice(target: Option<PortAddr>, remoteHost: seq<int>, promiscuous: bool): Option<PortAddr> {
    if target.Some? && Permitted(target.value, remoteHost, promiscuous) then target else None
  }

  /** str_upper */
  function Upper(s: string): string {
    if s == "" then "" else [if 'a' <= s[0] <= 'z' then s[0] - 'a' + 'A' else s[0]] + Upper(s[1..])
  }

  /** The protocol numbers EPSV turns down: section 3 of RFC 2428 knows 1 and 2. */
  predicate BadEpsvProtocol(arg: string, ipv6: bool) {
    var proto := AddrParse.Atoi(Upper(arg));
    proto < 1 || proto > 2 || (!ipv6 && proto == 2)
  }

  /** The answer to PASV or EPSV. */
  function PasvReply(isEpsv: bool, arg: string, ipv6: bool): nat {
    if !isEpsv then 227
    else if arg == "" then 229
    else if Upper(arg) == "ALL" then 200
    else if BadEpsvProtocol(arg, ipv6) then 522
    else 229
  }

  datatype EprtReading = BadProtocol | BadEprt | Names(proto: int, raw: seq<int>, port: int)

  /** The bytes of the address part, a scope cut off. */
  function AddrOf(proto: int, text: string): Option<seq<int>> {
    if proto == 2 then Ipv6Parse.Ipv6(SplitChar(text, '%').0) else AddrParse.ParseFields(text, '.', 4)
  }

  /** What handle_eprt reads in its argument; raw is what the address parser returned. */
  function ReadEprt(arg: string, ipv6: bool): EprtReading {
    var (front, afterBar) := SplitChar(arg, '|');
    var (protoText, afterProto) := SplitChar(afterBar, '|');
    var (addrText, afterAddr) := SplitChar(afterProto, '|');
    var (portText, tail) := SplitChar(afterAddr, '|');
    var proto := AddrParse.Atoi(protoText);
    var port := AddrParse.Atoi(portText);
    if front != "" then BadEprt
    else if proto < 1 || proto > 2 || (!ipv6 && proto == 2) then BadProtocol
    else
      match AddrOf(proto, addrText)
      case None => BadEprt
      case Some(raw) =>
        if tail != "" || portText == "" || port < 0 || port > 65535 then BadEprt else Names(proto, raw, port)
  }

  /** The bytes missing from an address of protocol 2. */
  function Shortfall(reading: EprtReading): int {
    if reading.Names? && reading.proto == 2 then 16 - |reading.raw| else 0
  }

  lemma ShortfallIsNat(arg: string, ipv6: bool)
    ensures Shortfall(ReadEprt(arg, ipv6)) >= 0
  {
    hide AddrParse.Atoi, AddrParse.ParseFields;
    var addrText := SplitChar(SplitChar(SplitChar(arg, '|').1, '|').1, '|').0;
    Ipv6Parse.AtMostSixteen(SplitChar(addrText, '%').0);
  }

  /** The target an EPRT argument names; rest is what stood behind a short IPv6 address in its buffer. */
  function EprtTarget(reading: EprtReading, rest: seq<int>, ipv6: bool): Option<PortAddr> {
    match reading
    case Names(proto, raw, port) => Some(PortAddr(if proto == 2 then raw + rest else HostOf(raw, ipv6), port))
    case _ => None
  }

  /** EPRT text as section 2 of RFC 2428 lays it out. */
  function EprtText(proto: nat, addr: string, port: nat): string {
    "|" + (AddrParse.Dec(proto) + "|" + (addr + "|" + (AddrParse.Dec(port) + "|")))
  }

  /** An accepted list has as many values as were asked for. */
  lemma {:induction false} ParsedCount(s: string, sep: char, items: nat)
    ensures var r := AddrParse.ParseFields(s, sep, items); r.Some? ==> |r.value| == items
    decreases items
  {
    hide AddrParse.FieldOk, AddrParse.Atoi;
    if items > 0 {
      ParsedCount(SplitChar(s, sep).1, sep, items - 1);
    }
  }

  /** A PASV reply, sent back as a PORT argument, names the same host and port. */
  lemma PortTargetOfPasv(a: nat, b: nat, c: nat, d: nat, port: nat, ipv6: bool)
    requires a < 256 && b < 256 && c < 256 && d < 256 && port < 65536
    ensures PortTarget(AddrParse.PasvNumbers(a, b, c, d, port), ipv6)
         == Some(PortAddr(HostOf([a, b, c, d], ipv6), port))
  {
    AddrParse.PortReadsPasv(a, b, c, d, port);
    hide *;
    var raw, ends := [a, b, c, d], [port / 256, port % 256];
    FourAndTwo(a, b, c, d, port / 256, port % 256);
    TargetOfValues(AddrParse.PasvNumbers(a, b, c, d, port), raw, ends, port, ipv6);
  }

  lemma FourAndTwo(a: int, b: int, c: int, d: int, e: int, f: int)
    ensures [a, b, c, d] + [e, f] == [a, b, c, d, e, f]
  {
  }

  lemma TargetOfValues(arg: string, raw: seq<int>, ends: seq<int>, port: int, ipv6: bool)
    requires |raw| == 4 && |ends| == 2
    requires AddrParse.ParseFields(arg, ',', 6) == Some(raw + ends) && AddrParse.PortOf(raw + ends) == port
    ensures PortTarget(arg, ipv6) == Some(PortAddr(HostOf(raw, ipv6), port))
  {
    hide AddrParse.ParseFields, AddrParse.PortOf, HostOf;
    assert (raw + ends)[..4] == raw;
  }

  /** The four parts of a well-formed EPRT argument are found. */
  lemma EprtParts(proto: string, addr: string, port: string, ipv6: bool)
    requires '|' !in proto && '|' !in addr && '|' !in port && port != ""
    requires 1 <= AddrParse.Atoi(proto) <= 2 && 0 <= AddrParse.Atoi(port) <= 65535
    requires AddrParse.Atoi(proto) == 2 ==> ipv6
    ensures ReadEprt("|" + (proto + "|" + (addr + "|" + (port + "|"))), ipv6)
         == match AddrOf(AddrParse.Atoi(proto), addr)
            case None => BadEprt
            case Some(raw) => Names(AddrParse.Atoi(proto), raw, AddrParse.Atoi(port))
  {
    EprtSplits(proto, addr, port);
    hide SplitChar, AddrParse.Atoi, AddrOf;
  }

  lemma EprtSplits(proto: string, addr: string, port: string)
    requires '|' !in proto && '|' !in addr && '|' !in port
    ensures var portPart := port + "|";
            var addrPart := addr + "|" + portPart;
            var protoPart := proto + "|" + addrPart;
            && SplitChar("|" + (proto + "|" + (addr + "|" + (port + "|"))), '|') == ("", protoPart)
            && SplitChar(protoPart, '|') == (proto, addrPart)
            && SplitChar(addrPart, '|') == (addr, portPart)
            && SplitChar(portPart, '|') == (port, "")
  {
    hide SplitChar;
    var bar := "|";
    var portPart := port + bar;
    var addrPart := addr + bar + portPart;
    var protoPart := proto + bar + addrPart;
    SplitCharAt("", '|', protoPart);
    SplitCharAt(proto, '|', addrPart);
    SplitCharAt(addr, '|', portPart);
    SplitCharAt(port, '|', "");
    assert addrPart == addr + (bar + portPart) && protoPart == proto + (bar + addrPart);
    assert portPart == port + bar + "" && bar + protoPart == "" + bar + protoPart;
  }

  lemma DecParts(n: nat)
    requires n < 65536
    ensures AddrParse.Dec(n) != "" && '|' !in AddrParse.Dec(n) && AddrParse.Atoi(AddrParse.Dec(n)) == n
  {
    AddrParse.AtoiDec(n);
  }

  /** Every IPv4 address and port survives the trip through an EPRT argument. */
  lemma EprtReadsV4(a: nat, b: nat, c: nat, d: nat, port: nat, ipv6: bool)
    requires a < 256 && b < 256 && c < 256 && d < 256 && port < 65536
    ensures ReadEprt(EprtText(1, AddrParse.DottedQuad(a, b, c, d), port), ipv6) == Names(1, [a, b, c, d], port)
  {
    AddrParse.DottedQuadReads(a, b, c, d);
    DecParts(1);
    DecParts(port);
    EprtParts(AddrParse.Dec(1), AddrParse.DottedQuad(a, b, c, d), AddrParse.Dec(port), ipv6);
  }

  /** Whatever text the IPv6 parser understands is understood inside an EPRT argument, with or without a scope. */
  lemma EprtReadsV6(text: string, scope: string, port: nat)
    requires port < 65536 && '|' !in text && '%' !in text && '|' !in scope && Ipv6Parse.Ipv6(text).Some?
    ensures ReadEprt(EprtText(2, text, port), true) == Names(2, Ipv6Parse.Ipv6(text).value, port)
    ensures ReadEprt(EprtText(2, text + "%" + scope, port), true) == Names(2, Ipv6Parse.Ipv6(text).value, port)
  {
    DecParts(2);
    DecParts(port);
    EprtParts(AddrParse.Dec(2), text, AddrParse.Dec(port), true);
    EprtParts(AddrParse.Dec(2), text + "%" + scope, AddrParse.Dec(port), true);
    hide AddrParse.Dec, AddrParse.Atoi, ReadEprt;
    SplitCharAt(text, '%', scope);
  }
}
