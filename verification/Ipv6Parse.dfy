/** Parsing of IPv6 texts: ipaddrparse.c, against section 2.2 of RFC 4291. Bytes are numbers below 256. */
module Ipv6Parse {
  import opened Strings
  import opened AddrParse

  // ---------------------------------------------------------------- hexadecimal groups

  predicate IsHex(c: char) { IsDigit(c) || 'A' <= c <= 'F' || 'a' <= c <= 'f' }

  predicate AllHex(s: string) { forall i | 0 <= i < |s| :: IsHex(s[i]) }

  function HexDigit(c: char): (d: nat)
    requires IsHex(c)
    ensures d < 16
  {
    if IsDigit(c) then c as int - '0' as int
    else if 'A' <= c <= 'F' then c as int - 'A' as int + 10
    else c as int - 'a' as int + 10
  }

  /** The number a hexadecimal string denotes, by position. */
  function HexValue(s: string): nat
    requires AllHex(s)
  {
    if s == "" then 0 else 16 * HexValue(s[..|s| - 1]) + HexDigit(s[|s| - 1])
  }

  /** The loop of ipv6_parse_hex, from the value read so far. */
  function HexFrom(s: string, val: nat): Option<nat> {
    if s == "" then Some(val)
    else if !IsHex(s[0]) then None
    else
      var v := 16 * val + HexDigit(s[0]);
      if v > 0xFFFF then None else HexFrom(s[1..], v)
  }

  function HexAcc(s: string, val: nat): (v: nat)
    requires AllHex(s)
    ensures v >= val
  {
    if s == "" then val else HexAcc(s[1..], 16 * val + HexDigit(s[0]))
  }

  lemma {:induction false} HexFromAcc(s: string, val: nat)
    requires val <= 0xFFFF
    ensures HexFrom(s, val) == if AllHex(s) && HexAcc(s, val) <= 0xFFFF then Some(HexAcc(s, val)) else None
    decreases |s|
  {
    if s != "" && IsHex(s[0]) {
      var v := 16 * val + HexDigit(s[0]);
      assert AllHex(s) <==> AllHex(s[1..]);
      if v <= 0xFFFF {
        HexFromAcc(s[1..], v);
      }
    }
  }

  lemma {:induction false} HexAccSnoc(s: string, c: char, val: nat)
    requires AllHex(s) && IsHex(c)
    ensures HexAcc(s + [c], val) == 16 * HexAcc(s, val) + HexDigit(c)
    decreases |s|
  {
    if s == "" {
      assert (s + [c])[1..] == "";
    } else {
      assert (s + [c])[1..] == s[1..] + [c];
      HexAccSnoc(s[1..], c, 16 * val + HexDigit(s[0]));
    }
  }

  lemma {:induction false} HexAccIsValue(s: string)
    requires AllHex(s)
    ensures HexAcc(s, 0) == HexValue(s)
    decreases |s|
  {
    if s != "" {
      var front := s[..|s| - 1];
      HexAccIsValue(front);
      HexAccSnoc(front, s[|s| - 1], 0);
      assert s == front + [s[|s| - 1]];
    }
  }

  /** A hexadecimal group is read exactly when it denotes a 16-bit number, whatever its leading zeros. */
  lemma HexMeaning(s: string)
    ensures HexFrom(s, 0) == if AllHex(s) && HexValue(s) <= 0xFFFF then Some(HexValue(s)) else None
  {
    HexFromAcc(s, 0);
    if AllHex(s) {
      HexAccIsValue(s);
    }
  }

  /** ipv6_parse_hex */
  method ParseHex(out: seq<nat>, s: string) returns (r: Option<seq<nat>>)
    ensures r == Prepend(out, Hex(s))
  {
    var val := 0;
    var i := 0;
    assert s[0..] == s;
    while i < |s|
      invariant i <= |s| && 0 <= val <= 0xFFFF
      invariant HexFrom(s, 0) == HexFrom(s[i..], val)
    {
      assert s[i..][1..] == s[i + 1..];
      if !IsHex(s[i]) {
        return None;
      }
      val := 16 * val + HexDigit(s[i]);
      if val > 0xFFFF {
        return None;
      }
      i := i + 1;
    }
    assert s[i..] == "";
    assert out + [val / 256] + [val % 256] == out + [val / 256, val % 256];
    return Some(out + [val / 256] + [val % 256]);
  }

  /** The two bytes of a hexadecimal group. */
  function Hex(s: string): Option<seq<nat>> {
    match HexFrom(s, 0)
    case None => None
    case Some(v) => Some([v / 256, v % 256])
  }

  // ---------------------------------------------------------------- dotted quads

  /** The loop of ipv4_parse_dotquad: the number being read, whether it has a digit, and the numbers before it. */
  function QuadFrom(s: string, val: nat, seen: bool, done: seq<nat>): Option<seq<nat>> {
    if s == "" then if |done| == 3 && seen then Some(done + [val]) else None
    else if s[0] == '.' then
      if !seen || |done| == 3 then None else QuadFrom(s[1..], 0, false, done + [val])
    else if IsDigit(s[0]) then
      var v := 10 * val + Digit(s[0]);
      if v > 255 then None else QuadFrom(s[1..], v, true, done)
    else None
  }

  function Quad(s: string): Option<seq<nat>> { QuadFrom(s, 0, false, []) }

  /** final_val: the finished numbers packed into one word. */
  function Pack(done: seq<nat>): nat {
    if done == [] then 0 else 256 * Pack(done[..|done| - 1]) + done[|done| - 1]
  }

  lemma PackSnoc(done: seq<nat>, val: nat)
    ensures Pack(done + [val]) == 256 * Pack(done) + val
  {
    assert (done + [val])[..|done|] == done;
  }

  lemma PackFour(a: nat, b: nat, c: nat, d: nat)
    ensures Pack([a, b, c, d]) == ((a * 256 + b) * 256 + c) * 256 + d
  {
    assert [a, b, c, d] == [a, b, c] + [d] && [a, b, c] == [a, b] + [c] && [a, b] == [a] + [b] && [a] == [] + [a];
    PackSnoc([], a); PackSnoc([a], b); PackSnoc([a, b], c); PackSnoc([a, b, c], d);
  }

  lemma UnpackFour(a: nat, b: nat, c: nat, d: nat, w: nat)
    requires a < 256 && b < 256 && c < 256 && d < 256
    requires w == ((a * 256 + b) * 256 + c) * 256 + d
    ensures w / 0x100_0000 == a && w / 0x1_0000 % 256 == b && w / 256 % 256 == c && w % 256 == d
  {
  }

  lemma PackNothing()
    ensures Pack([]) == 0
  {
  }

  /** ipv4_parse_dotquad */
  method ParseDotquad(out: seq<nat>, s: string) returns (r: Option<seq<nat>>)
    ensures r == Prepend(out, Quad(s))
  {
    hide Pack, WordBytes;
    var val, finalVal, seenChar, dots, i := 0, 0, false, 0, 0;
    PackNothing();
    ghost var done: seq<nat> := [];
    assert s[0..] == s;
    while i < |s|
      invariant i <= |s| && 0 <= val <= 255
      invariant dots == |done| <= 3 && finalVal == Pack(done) && forall v | v in done :: v < 256
      invariant Quad(s) == QuadFrom(s[i..], val, seenChar, done)
    {
      var ch := s[i];
      assert s[i..][1..] == s[i + 1..];
      if ch == '.' {
        if !seenChar || dots == 3 {
          return None;
        }
        seenChar := false;
        dots := dots + 1;
        PackSnoc(done, val);
        finalVal := finalVal * 256 + val;
        done := done + [val];
        val := 0;
      } else if '0' <= ch <= '9' {
        val := val * 10 + Digit(ch);
        if val > 255 {
          return None;
        }
        seenChar := true;
      } else {
        return None;
      }
      i := i + 1;
    }
    assert s[i..] == "";
    if dots != 3 || !seenChar {
      return None;
    }
    finalVal := finalVal * 256 + val;
    FinalWord(done, val, finalVal);
    return Some(out + WordBytes(finalVal));
  }

  /** The four bytes of a word, high byte first. */
  function WordBytes(w: nat): seq<nat> {
    [w / 0x100_0000, w / 0x1_0000 % 256, w / 256 % 256, w % 256]
  }

  lemma FinalWord(done: seq<nat>, val: nat, w: nat)
    requires |done| == 3 && val < 256 && w == Pack(done) * 256 + val && forall v | v in done :: v < 256
    ensures WordBytes(w) == done + [val]
  {
    PackSnoc(done, val);
    assert done[0] in done && done[1] in done && done[2] in done;
    assert done + [val] == [done[0], done[1], done[2], val];
    PackFour(done[0], done[1], done[2], val);
    UnpackFour(done[0], done[1], done[2], val, w);
  }

  /** A decimal text of a byte, with at least one digit. */
  predicate IsOctet(f: string) { f != "" && AllDigits(f) && DecValue(f) <= 255 }

  predicate AllOctets(fields: seq<string>) { forall f | f in fields :: IsOctet(f) }

  function OctetValues(fields: seq<string>): seq<nat>
    requires AllOctets(fields)
  {
    if fields == [] then []
    else
      assert IsOctet(fields[0]);
      [DecValue(fields[0])] + OctetValues(fields[1..])
  }

  lemma DecValueSnoc(p: string, c: char)
    requires AllDigits(p) && IsDigit(c)
    ensures AllDigits(p + [c]) && DecValue(p + [c]) == 10 * DecValue(p) + Digit(c)
  {
    assert (p + [c])[..|p|] == p;
  }

  lemma OctetOne(p: string)
    requires IsOctet(p)
    ensures AllOctets([p]) && OctetValues([p]) == [DecValue(p)] && Join([p], '.') == p
  {
  }

  lemma OctetCons(f: string, more: seq<string>)
    requires IsOctet(f) && AllOctets(more) && more != []
    ensures AllOctets([f] + more) && OctetValues([f] + more) == [DecValue(f)] + OctetValues(more)
    ensures Join([f] + more, '.') == f + "." + Join(more, '.')
  {
    assert ([f] + more)[1..] == more;
  }

  lemma Regroup<T>(a: seq<T>, b: seq<T>, c: seq<T>)
    ensures a + (b + c) == a + b + c
  {
  }

  /** A quad that is read is four octets joined by dots. */
  lemma {:induction false} QuadSound(s: string, p: string, done: seq<nat>) returns (fields: seq<string>)
    requires AllDigits(p) && DecValue(p) <= 255 && |done| <= 3
    requires QuadFrom(s, DecValue(p), p != "", done).Some?
    ensures fields != [] && |fields| == 4 - |done| && AllOctets(fields) && p + s == Join(fields, '.')
    ensures QuadFrom(s, DecValue(p), p != "", done) == Some(done + OctetValues(fields))
    decreases |s|
  {
    hide Join, OctetValues, DecValue, AllDigits, AllOctets;
    if s == "" {
      fields := [p];
      OctetOne(p);
      assert p + s == p;
    } else if s[0] == '.' {
      assert AllDigits("") && DecValue("") == 0 by { NoDigits(); }
      var more := QuadSound(s[1..], "", done + [DecValue(p)]);
      fields := [p] + more;
      OctetCons(p, more);
      assert "" + s[1..] == s[1..];
      assert s == "." + s[1..];
      Regroup(p, ".", s[1..]);
      Regroup(done, [DecValue(p)], OctetValues(more));
    } else {
      DecValueSnoc(p, s[0]);
      fields := QuadSound(s[1..], p + [s[0]], done);
      assert p + [s[0]] + s[1..] == p + s;
    }
  }

  lemma NoDigits()
    ensures AllDigits("") && DecValue("") == 0
  {
  }

  lemma {:induction false} DecValuePrefix(p: string, q: string)
    requires AllDigits(p + q)
    ensures AllDigits(p) && DecValue(p) <= DecValue(p + q)
    decreases |q|
  {
    assert forall i | 0 <= i < |p| :: p[i] == (p + q)[i];
    if q == "" {
      assert p + q == p;
    } else {
      var q' := q[..|q| - 1];
      assert (p + q)[..|p + q| - 1] == p + q';
      DecValuePrefix(p, q');
    }
  }

  /** What stands behind an octet: nothing, or a dot and the octets to come. */
  function Tail(more: seq<string>): string {
    if more == [] then "" else "." + Join(more, '.')
  }

  /** The digits of one octet are read to its end. */
  lemma {:induction false} OctetRead(p: string, q: string, tail: string, done: seq<nat>)
    requires AllDigits(p) && IsOctet(p + q)
    ensures QuadFrom(q + tail, DecValue(p), p != "", done) == QuadFrom(tail, DecValue(p + q), true, done)
    decreases |q|
  {
    if q == "" {
      assert p + q == p && q + tail == tail;
      assert p != "";
    } else {
      var p', q' := p + [q[0]], q[1..];
      assert p' + q' == p + q && q[0] == (p + q)[|p|];
      DecValueSnoc(p, q[0]);
      DecValuePrefix(p', q');
      hide DecValue, QuadFrom;
      DigitRead(q[0], q' + tail, DecValue(p), p != "", done);
      assert q + tail == [q[0]] + (q' + tail);
      OctetRead(p', q', tail, done);
    }
  }

  lemma DigitRead(c: char, s: string, val: nat, seen: bool, done: seq<nat>)
    requires IsDigit(c) && 10 * val + Digit(c) <= 255
    ensures QuadFrom([c] + s, val, seen, done) == QuadFrom(s, 10 * val + Digit(c), true, done)
  {
    assert ([c] + s)[1..] == s;
  }

  /** Four octets joined by dots are read as their values. */
  lemma {:induction false} QuadComplete(f: string, more: seq<string>, done: seq<nat>)
    requires IsOctet(f) && AllOctets(more) && |done| + 1 + |more| == 4
    ensures QuadFrom(f + Tail(more), 0, false, done) == Some(done + ([DecValue(f)] + OctetValues(more)))
    decreases |more|
  {
    NoDigits();
    assert "" + f == f;
    OctetRead("", f, Tail(more), done);
    hide DecValue, IsOctet;
    if more != [] {
      var next, rest := more[0], more[1..];
      assert IsOctet(next);
      QuadComplete(next, rest, done + [DecValue(f)]);
      assert Tail(more)[1..] == Join(more, '.') == next + Tail(rest) by { TailStep(more); }
      assert OctetValues(more) == [DecValue(next)] + OctetValues(rest);
      Regroup(done, [DecValue(f)], OctetValues(more));
    } else {
      assert [DecValue(f)] + OctetValues(more) == [DecValue(f)];
    }
  }

  lemma TailStep(more: seq<string>)
    requires more != []
    ensures Tail(more)[1..] == Join(more, '.') == more[0] + Tail(more[1..])
  {
    var rest := more[1..];
    assert more == [more[0]] + rest;
    assert Tail(more)[1..] == Join(more, '.');
    if rest != [] {
      JoinFirst(more[0], rest, '.');
      hide Join;
      Regroup(more[0], ".", Join(rest, '.'));
    } else {
      assert more[0] + "" == more[0];
    }
  }

  /** A dotted quad is read exactly when it is four octets joined by dots. */
  lemma QuadAccepts(fields: seq<string>)
    requires |fields| == 4 && AllOctets(fields)
    ensures Quad(Join(fields, '.')) == Some(OctetValues(fields))
  {
    assert IsOctet(fields[0]);
    QuadComplete(fields[0], fields[1..], []);
    TailStep(fields);
    assert [] + OctetValues(fields) == OctetValues(fields);
  }

  lemma QuadAccepted(s: string) returns (fields: seq<string>)
    requires Quad(s).Some?
    ensures |fields| == 4 && AllOctets(fields) && s == Join(fields, '.') && Quad(s) == Some(OctetValues(fields))
  {
    NoDigits();
    fields := QuadSound(s, "", []);
    assert "" + s == s && [] + OctetValues(fields) == OctetValues(fields);
  }

  // ---------------------------------------------------------------- colon-separated groups

  /** One group between colons: a dotted quad if it has a dot, else a hexadecimal number. */
  function Group(g: string): Option<seq<nat>> {
    if '.' in g then Quad(g) else Hex(g)
  }

  function Main(s: string): Option<seq<nat>>
    decreases |s|
  {
    if s == "" then Some([])
    else
      var (lhs, rest) := SplitChar(s, ':');
      if lhs == "" || Group(lhs).None? then None
      else Prepend(Group(lhs).value, Main(rest))
  }

  /** ipv6_parse_main */
  method ParseMain(s: string) returns (r: Option<seq<nat>>)
    ensures r == Main(s)
  {
    hide SplitChar, Group;
    var lhs, out: seq<nat> := s, [];
    PrependNothing(Main(s));
    while lhs != ""
      invariant Main(s) == Prepend(out, Main(lhs))
      decreases |lhs|
    {
      var split := SplitChar(lhs, ':');
      if split.0 == "" {
        return None;
      }
      assert Group(split.0) == if '.' in split.0 then Quad(split.0) else Hex(split.0) by { GroupBody(split.0); }
      ghost var before := out;
      var parsed;
      if '.' in split.0 {
        parsed := ParseDotquad(out, split.0);
      } else {
        parsed := ParseHex(out, split.0);
      }
      if parsed.None? {
        return None;
      }
      out := parsed.value;
      PrependConcat(before, Group(split.0).value, Main(split.1));
      lhs := split.1;
    }
    assert out + [] == out;
    return Some(out);
  }

  lemma GroupBody(g: string)
    ensures Group(g) == if '.' in g then Quad(g) else Hex(g)
  {
  }

  function Zeros(n: nat): (z: seq<nat>)
    ensures |z| == n && forall i | 0 <= i < n :: z[i] == 0
  {
    if n == 0 then [] else [0] + Zeros(n - 1)
  }

  /** What vsf_sysutil_parse_ipv6 returns: the text of its result string, which may be short of 16 bytes. */
  function Ipv6(s: string): Option<seq<nat>> {
    var (l, r) := SplitText(s, "::");
    match (Main(l), Main(r))
    case (Some(left), Some(right)) =>
      if |left| + |right| > 16 then None
      else if right == [] then Some(left)
      else Some(left + Zeros(16 - |left| - |right|) + right)
    case _ => None
  }

  lemma AtMostSixteen(s: string)
    ensures var r := Ipv6(s); r.Some? ==> |r.value| <= 16
  {
    hide Main, SplitText;
  }

  lemma ZerosSnoc(front: seq<nat>, n: nat)
    ensures front + Zeros(0) == front
    ensures front + Zeros(n) + [0] == front + Zeros(n + 1)
  {
    assert Zeros(n) + [0] == Zeros(n + 1);
  }

  /** vsf_sysutil_parse_ipv6 */
  method ParseIpv6(s: string) returns (r: Option<seq<nat>>)
    ensures r == Ipv6(s)
  {
    hide Main, SplitText;
    var split := SplitText(s, "::");
    var ret := ParseMain(split.0);
    if ret.None? {
      return None;
    }
    var rhsRet := ParseMain(split.1);
    if rhsRet.None? {
      return None;
    }
    var lhsLen, rhsLen, out := |ret.value|, |rhsRet.value|, ret.value;
    if lhsLen + rhsLen > 16 {
      return None;
    }
    if rhsLen > 0 {
      var addNulls := 16 - (lhsLen + rhsLen);
      ghost var n := 0;
      ZerosSnoc(out, 0);
      while addNulls > 0
        invariant 0 <= addNulls && n + addNulls == 16 - (lhsLen + rhsLen)
        invariant out == ret.value + Zeros(n)
      {
        ZerosSnoc(ret.value, n);
        addNulls := addNulls - 1;
        out := out + [0];
        n := n + 1;
      }
      out := out + rhsRet.value;
    }
    return Some(out);
  }

  // ---------------------------------------------------------------- what is accepted

  predicate IsGroup(g: string) { g != "" && ':' !in g && Group(g).Some? }

  predicate AllGroups(groups: seq<string>) { groups == [] || (IsGroup(groups[0]) && AllGroups(groups[1..])) }

  function Bytes(groups: seq<string>): seq<nat>
    requires AllGroups(groups)
  {
    if groups == [] then [] else Group(groups[0]).value + Bytes(groups[1..])
  }

  /** How a list of groups may be written on one side of "::": a colon behind it is tolerated. */
  predicate Writes(s: string, groups: seq<string>) {
    s == Join(groups, ':') || (groups != [] && s == Join(groups, ':') + ":")
  }

  lemma {:induction false} MainAccepts(s: string, groups: seq<string>)
    requires AllGroups(groups) && Writes(s, groups)
    ensures Main(s) == Some(Bytes(groups))
    decreases |groups|
  {
    if groups != [] {
      var g, more := groups[0], groups[1..];
      var rest := RestOfGroups(s, g, more);
      assert groups == [g] + more;
      GroupRead(s, g, rest);
      hide Main;
      MainAccepts(rest, more);
    }
  }

  lemma RestOfGroups(s: string, g: string, more: seq<string>) returns (rest: string)
    requires Writes(s, [g] + more)
    ensures Writes(rest, more) && (s == g + ":" + rest || (s == g && rest == ""))
  {
    if more == [] {
      assert [g] + more == [g];
      rest := "";
      assert g + ":" + "" == g + ":";
    } else {
      JoinFirst(g, more, ':');
      var j := Join(more, ':');
      hide Join;
      Regroup(g + ":", j, ":");
      rest := if s == g + ":" + j then j else j + ":";
    }
  }

  lemma GroupRead(s: string, g: string, rest: string)
    requires IsGroup(g) && (s == g + ":" + rest || (s == g && rest == ""))
    ensures Main(s) == Prepend(Group(g).value, Main(rest))
  {
    hide Group;
    if s == g {
      assert SplitChar(s, ':') == (g, "");
    } else {
      SplitCharAt(g, ':', rest);
    }
  }

  lemma {:induction false} MainAccepted(s: string) returns (groups: seq<string>)
    requires Main(s).Some?
    ensures AllGroups(groups) && Writes(s, groups) && Main(s) == Some(Bytes(groups))
    decreases |s|
  {
    if s == "" {
      groups := [];
    } else {
      var (g, rest) := SplitChar(s, ':');
      var more := MainAccepted(rest);
      groups := [g] + more;
      assert groups[1..] == more;
      GroupsPrepended(s, g, rest, more);
    }
  }

  lemma GroupsPrepended(s: string, g: string, rest: string, more: seq<string>)
    requires Writes(rest, more) && (s == g + ":" + rest || (s == g && rest == "" && more == []))
    ensures Writes(s, [g] + more)
  {
    if more == [] {
      assert [g] + more == [g];
      assert g + ":" + "" == g + ":";
    } else {
      JoinFirst(g, more, ':');
      Regroup(g + ":", Join(more, ':'), ":");
    }
  }

  // ---------------------------------------------------------------- the double colon

  predicate PairAt(s: string, i: nat) { i + 1 < |s| && s[i] == ':' && s[i + 1] == ':' }

  ghost predicate NoPair(s: string) { forall i: nat :: !PairAt(s, i) }

  predicate ColonEdge(s: string) { s != "" && (s[0] == ':' || s[|s| - 1] == ':') }

  lemma NoPairConcat(a: string, b: string)
    requires NoPair(a) && NoPair(b) && !(a != "" && a[|a| - 1] == ':' && b != "" && b[0] == ':')
    ensures NoPair(a + b)
  {
    forall i: nat ensures !PairAt(a + b, i) {
      assert !PairAt(a, i);
      if i >= |a| {
        assert !PairAt(b, i - |a|);
      }
    }
  }

  lemma NoColonNoPair(g: string)
    requires ':' !in g
    ensures NoPair(g) && !ColonEdge(g)
  {
    assert forall i | 0 <= i < |g| :: g[i] in g;
  }

  /** Joined groups have single colons, and none at the ends. */
  lemma {:induction false} JoinedGroups(groups: seq<string>)
    requires AllGroups(groups)
    ensures NoPair(Join(groups, ':')) && !ColonEdge(Join(groups, ':'))
    ensures groups != [] ==> Join(groups, ':') != ""
    decreases |groups|
  {
    hide Group;
    if groups != [] {
      var g, more := groups[0], groups[1..];
      NoColonNoPair(g);
      if more != [] {
        JoinedGroups(more);
        assert groups == [g] + more;
        JoinFirst(g, more, ':');
        NoPairConcat(g, ":");
        NoPairConcat(g + ":", Join(more, ':'));
      }
    }
  }

  lemma WrittenNoPair(s: string, groups: seq<string>)
    requires AllGroups(groups) && Writes(s, groups)
    ensures NoPair(s)
  {
    JoinedGroups(groups);
    NoPairConcat(Join(groups, ':'), ":");
  }

  /** "::" stands behind the left groups and nowhere before. */
  lemma SplitAtPair(left: string, right: string)
    requires NoPair(left) && !ColonEdge(left)
    ensures SplitText(left + "::" + right, "::") == (left, right)
  {
    var s := left + "::" + right;
    assert OccursAt(s, "::", |left|);
    var k := LocateText(s, "::").value;
    PairOccurs(s, k);
    assert !PairAt(left, k);
    assert k == |left|;
    assert s[..k] == left && s[k + 2..] == right;
  }

  lemma NoPairNoSplit(s: string)
    requires NoPair(s)
    ensures SplitText(s, "::") == (s, "")
  {
    var r := LocateText(s, "::");
    PairOccurs(s, if r.Some? then r.value else 0);
  }

  lemma PairOccurs(s: string, k: nat)
    ensures OccursAt(s, "::", k) ==> PairAt(s, k)
  {
    if OccursAt(s, "::", k) {
      assert s[k] == s[k..k + 2][0] && s[k + 1] == s[k..k + 2][1];
    }
  }

  /**
   * How an address may be spelt: groups joined by colons, or groups on both sides of one "::"; a colon behind the last
   * group is tolerated.
   */
  predicate Spelt(s: string, left: seq<string>, pair: bool, right: seq<string>) {
    if pair then
      || s == Join(left, ':') + "::" + Join(right, ':')
      || (right != [] && s == Join(left, ':') + "::" + (Join(right, ':') + ":"))
    else right == [] && Writes(s, left)
  }

  /** What a spelling stands for: "::" for as many zeros as are missing if some group follows it, else for nothing. */
  function Address(left: seq<string>, right: seq<string>): Option<seq<nat>>
    requires AllGroups(left) && AllGroups(right)
  {
    var missing := 16 - |Bytes(left)| - |Bytes(right)|;
    if missing < 0 then None
    else if right == [] then Some(Bytes(left))
    else Some(Bytes(left) + Zeros(missing) + Bytes(right))
  }

  /** Every spelling is read as what it stands for, and rejected when that is more than 16 bytes. */
  lemma {:induction false} Ipv6Accepts(s: string, left: seq<string>, pair: bool, right: seq<string>)
    requires AllGroups(left) && AllGroups(right) && Spelt(s, left, pair, right)
    ensures Ipv6(s) == Address(left, right)
  {
    hide Main, SplitText, Join;
    EmptyWrites();
    MainAccepts("", []);
    if pair {
      var tail := if s == Join(left, ':') + "::" + Join(right, ':') then Join(right, ':') else Join(right, ':') + ":";
      JoinedGroups(left);
      SplitAtPair(Join(left, ':'), tail);
      JoinWrites(left);
      MainAccepts(Join(left, ':'), left);
      MainAccepts(tail, right);
      if right != [] {
        GroupsNotEmpty(right);
      }
    } else {
      WrittenNoPair(s, left);
      NoPairNoSplit(s);
      MainAccepts(s, left);
    }
  }

  lemma EmptyWrites()
    ensures Writes("", [])
  {
  }

  lemma JoinWrites(groups: seq<string>)
    ensures Writes(Join(groups, ':'), groups)
  {
  }

  /** And nothing else is read: an accepted text is a spelling of at most 16 bytes. */
  lemma {:induction false} Ipv6Accepted(s: string) returns (left: seq<string>, pair: bool, right: seq<string>)
    requires Ipv6(s).Some?
    ensures AllGroups(left) && AllGroups(right) && Spelt(s, left, pair, right)
    ensures |Bytes(left)| + |Bytes(right)| <= 16 && Ipv6(s) == Address(left, right)
  {
    hide Main, Join;
    var (l, r) := SplitText(s, "::");
    left := MainAccepted(l);
    right := MainAccepted(r);
    pair := LocateText(s, "::").Some?;
    if pair {
      var k := LocateText(s, "::").value;
      assert s[k..k + 2] == "::";
      assert s == l + "::" + r;
      NoColonBeforePair(s, k);
      WrittenPlainly(l, left);
    } else {
      MainOfNothing();
      if right != [] {
        GroupsNotEmpty(right);
      }
    }
    hide SplitText, LocateText;
    Ipv6Accepts(s, left, pair, right);
    Sized(left, right);
  }

  lemma Sized(left: seq<string>, right: seq<string>)
    requires AllGroups(left) && AllGroups(right)
    ensures Address(left, right).Some? <==> |Bytes(left)| + |Bytes(right)| <= 16
  {
  }

  lemma MainOfNothing()
    ensures Main("") == Some([])
  {
  }

  /** The first "::" has no colon in front of it. */
  lemma NoColonBeforePair(s: string, k: nat)
    requires LocateText(s, "::") == Some(k)
    ensures k > 0 ==> s[k - 1] != ':'
  {
    assert s[k..k + 2] == "::";
    assert s[k] == s[k..k + 2][0];
    if k > 0 && s[k - 1] == ':' {
      assert s[k - 1..k + 1] == "::";
      assert OccursAt(s, "::", k - 1);
    }
  }

  lemma WrittenPlainly(s: string, groups: seq<string>)
    requires Writes(s, groups) && (s != "" ==> s[|s| - 1] != ':')
    ensures s == Join(groups, ':')
  {
  }

  /** Groups joined by colons are read in full, and rejected when they make more than 16 bytes. */
  lemma FullText(groups: seq<string>)
    requires AllGroups(groups)
    ensures Ipv6(Join(groups, ':')) == if |Bytes(groups)| <= 16 then Some(Bytes(groups)) else None
  {
    Ipv6Accepts(Join(groups, ':'), groups, false, []);
  }

  /** And so it is with groups on both sides of "::". */
  lemma CompressedText(left: seq<string>, right: seq<string>)
    requires AllGroups(left) && AllGroups(right)
    ensures Ipv6(Join(left, ':') + "::" + Join(right, ':')) == Address(left, right)
  {
    Ipv6Accepts(Join(left, ':') + "::" + Join(right, ':'), left, true, right);
  }

  lemma GroupsNotEmpty(groups: seq<string>)
    requires AllGroups(groups) && groups != []
    ensures Bytes(groups) != []
  {
    GroupBytes(groups[0]);
  }

  lemma GroupBytes(g: string)
    requires Group(g).Some?
    ensures |Group(g).value| >= 2
  {
    if '.' in g {
      var fields := QuadAccepted(g);
      OctetCount(fields);
    }
  }

  lemma {:induction false} OctetCount(fields: seq<string>)
    requires AllOctets(fields)
    ensures |OctetValues(fields)| == |fields|
    decreases |fields|
  {
    if fields != [] {
      OctetCount(fields[1..]);
    }
  }

  /** A text with a second "::" is rejected. */
  lemma SecondPairRejected(a: string, b: string, c: string)
    ensures Ipv6(a + "::" + b + "::" + c) == None
  {
    var s := a + "::" + b + "::" + c;
    assert OccursAt(s, "::", |a|);
    var k := LocateText(s, "::").value;
    var r := s[k + 2..];
    var at := |a| + |b| - k;
    assert r[at] == s[|a| + 2 + |b|] && r[at + 1] == s[|a| + 3 + |b|];
    assert PairAt(r, at);
    if Main(r).Some? {
      var groups := MainAccepted(r);
      WrittenNoPair(r, groups);
      assert false;
    }
  }

  // ---------------------------------------------------------------- printing and reading back

  /** Hexadecimal text of a number, without leading zeros. */
  function HexText(n: nat): (s: string)
    ensures s != "" && AllHex(s) && HexValue(s) == n
  {
    var last := [HexChar(n % 16)];
    if n < 16 then last
    else
      var s := HexText(n / 16) + last;
      assert s[..|s| - 1] == HexText(n / 16);
      s
  }

  function HexChar(d: nat): (c: char)
    requires d < 16
    ensures IsHex(c) && HexDigit(c) == d
  {
    if d < 10 then ('0' as int + d) as char else ('a' as int + d - 10) as char
  }

  predicate AllBytes(b: seq<nat>) { forall i | 0 <= i < |b| :: b[i] < 256 }

  /** The groups of an address text: two bytes each, the last four in dotted form if so wished. */
  function Groups(b: seq<nat>, dotted: bool): (groups: seq<string>)
    requires |b| % 2 == 0
  {
    if b == [] then []
    else if dotted && |b| == 4 then [DottedQuad(b[0], b[1], b[2], b[3])]
    else [HexText(b[0] * 256 + b[1])] + Groups(b[2..], dotted)
  }

  lemma HexGroup(hi: nat, lo: nat)
    requires hi < 256 && lo < 256
    ensures var g := HexText(hi * 256 + lo); IsGroup(g) && Group(g) == Some([hi, lo])
  {
    var g := HexText(hi * 256 + lo);
    HexMeaning(g);
    assert forall i | 0 <= i < |g| :: IsHex(g[i]);
    assert '.' !in g && ':' !in g;
  }

  lemma DottedGroup(a: nat, b: nat, c: nat, d: nat)
    requires a < 256 && b < 256 && c < 256 && d < 256
    ensures var g := DottedQuad(a, b, c, d); IsGroup(g) && Group(g) == Some([a, b, c, d])
  {
    var fields := [Dec(a), Dec(b), Dec(c), Dec(d)];
    OctetsOfFour(Dec(a), Dec(b), Dec(c), Dec(d));
    QuadAccepts(fields);
    NoColonIn(fields);
    JoinFour(Dec(a), Dec(b), Dec(c), Dec(d), '.');
    var g := DottedQuad(a, b, c, d);
    assert g[|Dec(a)|] == '.';
  }

  lemma OctetsOfFour(x: string, y: string, z: string, w: string)
    requires IsOctet(x) && IsOctet(y) && IsOctet(z) && IsOctet(w)
    ensures AllOctets([x, y, z, w])
    ensures OctetValues([x, y, z, w]) == [DecValue(x), DecValue(y), DecValue(z), DecValue(w)]
  {
    hide DecValue, AllDigits, OctetValues, AllOctets;
    OctetOne(w);
    OctetCons(z, [w]);
    assert [z] + [w] == [z, w];
    OctetCons(y, [z, w]);
    assert [y] + [z, w] == [y, z, w];
    OctetCons(x, [y, z, w]);
    assert [x] + [y, z, w] == [x, y, z, w];
  }

  lemma {:induction false} NoColonIn(fields: seq<string>)
    requires AllOctets(fields)
    ensures ':' !in Join(fields, '.')
    decreases |fields|
  {
    if fields != [] {
      assert IsOctet(fields[0]);
      NoColonIn(fields[1..]);
    }
  }

  lemma {:induction false} GroupsSpell(b: seq<nat>, dotted: bool)
    requires |b| % 2 == 0 && AllBytes(b)
    ensures AllGroups(Groups(b, dotted)) && Bytes(Groups(b, dotted)) == b
    ensures b != [] ==> Groups(b, dotted) != []
    decreases |b|
  {
    hide Group, IsGroup, HexText, DottedQuad;
    if b != [] {
      if dotted && |b| == 4 {
        DottedGroup(b[0], b[1], b[2], b[3]);
        assert b == [b[0], b[1], b[2], b[3]] + [];
      } else {
        HexGroup(b[0], b[1]);
        GroupsSpell(b[2..], dotted);
        assert b == [b[0], b[1]] + b[2..];
      }
    }
  }

  /** Every address is read back from its text in eight groups, or six and a dotted quad. */
  lemma FullRoundTrip(addr: seq<nat>, dotted: bool)
    requires |addr| == 16 && AllBytes(addr)
    ensures Ipv6(Join(Groups(addr, dotted), ':')) == Some(addr)
  {
    GroupsSpell(addr, dotted);
    FullText(Groups(addr, dotted));
  }

  /** And from its text with any run of zero groups, even none, written "::", as long as a group follows. */
  lemma CompressedRoundTrip(addr: seq<nat>, i: nat, j: nat, dotted: bool)
    requires |addr| == 16 && AllBytes(addr) && i <= j < 16 && i % 2 == 0 && j % 2 == 0
    requires forall k | i <= k < j :: addr[k] == 0
    ensures Ipv6(Join(Groups(addr[..i], false), ':') + "::" + Join(Groups(addr[j..], dotted), ':')) == Some(addr)
  {
    hide Ipv6, Groups, Bytes, Join, AllGroups;
    var front, back := addr[..i], addr[j..];
    GroupsSpell(front, false);
    GroupsSpell(back, dotted);
    CompressedText(Groups(front, false), Groups(back, dotted));
    ZeroRun(addr, i, j);
  }

  lemma ZeroRun(addr: seq<nat>, i: nat, j: nat)
    requires i <= j <= |addr| == 16 && forall k | i <= k < j :: addr[k] == 0
    ensures addr[..i] + Zeros(16 - |addr[..i]| - |addr[j..]|) + addr[j..] == addr
  {
  }
}
