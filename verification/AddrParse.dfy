/** Parsing of PORT arguments and network addresses: ipaddrparse.c. Bytes are numbers below 256. */
module AddrParse {
  import opened Strings

  // ---------------------------------------------------------------- numbers

  predicate IsDigit(c: char) { '0' <= c <= '9' }

  predicate AllDigits(s: string) { forall i | 0 <= i < |s| :: IsDigit(s[i]) }

  function Digit(c: char): nat
    requires IsDigit(c)
  {
    c as int - '0' as int
  }

  /** The number a digit string denotes, by position. */
  function DecValue(s: string): nat
    requires AllDigits(s)
  {
    if s == "" then 0 else 10 * DecValue(s[..|s| - 1]) + Digit(s[|s| - 1])
  }

  /** Decimal text of a number, as vsf_sysutil_ulong_to_str prints it. */
  function Dec(n: nat): (s: string)
    ensures s != "" && AllDigits(s) && DecValue(s) == n
  {
    var last := [('0' as int + n % 10) as char];
    if n < 10 then last
    else
      var s := Dec(n / 10) + last;
      assert s[..|s| - 1] == Dec(n / 10);
      s
  }

  predicate IsSpace(c: char) { c == ' ' || '\t' <= c <= '\r' }

  function SkipSpace(s: string): string {
    if s != "" && IsSpace(s[0]) then SkipSpace(s[1..]) else s
  }

  /** The value of the digits in front of s, continuing from acc. */
  function LeadingValue(s: string, acc: nat): nat {
    if s != "" && IsDigit(s[0]) then LeadingValue(s[1..], 10 * acc + Digit(s[0])) else acc
  }

  /** atoi on a machine with 64-bit long and 32-bit int: strtol's clamping, then truncation. */
  function Atoi(s: string): int {
    var t := SkipSpace(s);
    var negative := t != "" && t[0] == '-';
    var digits := if t != "" && (t[0] == '-' || t[0] == '+') then t[1..] else t;
    var magnitude: int := LeadingValue(digits, 0);
    var v := if negative then -magnitude else magnitude;
    var long := if v > 0x7fff_ffff_ffff_ffff then 0x7fff_ffff_ffff_ffff
                else if v < -0x8000_0000_0000_0000 then -0x8000_0000_0000_0000 else v;
    (long + 0x8000_0000) % 0x1_0000_0000 - 0x8000_0000
  }

  lemma {:induction false} LeadingValueSnoc(s: string, c: char, acc: nat)
    requires AllDigits(s) && IsDigit(c)
    ensures LeadingValue(s + [c], acc) == 10 * LeadingValue(s, acc) + Digit(c)
    decreases |s|
  {
    if s == "" {
      assert (s + [c])[1..] == "";
    } else {
      assert (s + [c])[1..] == s[1..] + [c];
      LeadingValueSnoc(s[1..], c, 10 * acc + Digit(s[0]));
    }
  }

  /** Reading digits from the left gives their positional value. */
  lemma {:induction false} LeadingValueOfDigits(s: string)
    requires AllDigits(s)
    ensures LeadingValue(s, 0) == DecValue(s)
    decreases |s|
  {
    if s != "" {
      var front := s[..|s| - 1];
      LeadingValueOfDigits(front);
      LeadingValueSnoc(front, s[|s| - 1], 0);
      assert s == front + [s[|s| - 1]];
    }
  }

  /** Numbers printed in decimal are read back. */
  lemma AtoiDec(n: nat)
    requires n < 0x8000_0000
    ensures Atoi(Dec(n)) == n
  {
    var s := Dec(n);
    assert IsDigit(s[0]);
    LeadingValueOfDigits(s);
  }

  // ---------------------------------------------------------------- separated numbers

  function Prepend<T>(front: seq<T>, more: Option<seq<T>>): Option<seq<T>> {
    if more.None? then None else Some(front + more.value)
  }

  lemma PrependConcat<T>(a: seq<T>, b: seq<T>, more: Option<seq<T>>)
    ensures Prepend(a, Prepend(b, more)) == Prepend(a + b, more)
  {
    if more.Some? {
      assert a + (b + more.value) == (a + b) + more.value;
    }
  }

  lemma PrependNothing<T>(more: Option<seq<T>>)
    ensures Prepend([], more) == more
  {
    if more.Some? {
      assert [] + more.value == more.value;
    }
  }

  /** One field of a list with that many items to go: present as far as it must be, and a number below 256. */
  predicate FieldOk(field: string, rest: string, items: nat) {
    (items > 1 ==> rest != "") && (items == 1 ==> rest == "") && 0 <= Atoi(field) <= 255
  }

  /** What vsf_sysutil_parse_uchar_string_sep makes of a text with that many items to go. */
  function ParseFields(s: string, sep: char, items: nat): Option<seq<int>>
    decreases items
  {
    if items == 0 then Some([])
    else
      var (field, rest) := SplitChar(s, sep);
      if !FieldOk(field, rest, items) then None
      else Prepend([Atoi(field)], ParseFields(rest, sep, items - 1))
  }

  /** vsf_sysutil_parse_uchar_string_sep */
  method ParseUcharStringSep(str: string, sep: char, items: nat) returns (r: Option<seq<int>>)
    ensures r == ParseFields(str, sep, items)
  {
    hide Atoi, SplitChar;
    var tmp, out: seq<int> := str, [];
    PrependNothing(ParseFields(str, sep, items));
    for i := 0 to items
      invariant ParseFields(str, sep, items) == Prepend(out, ParseFields(tmp, sep, items - i))
    {
      var split := SplitChar(tmp, sep);
      if (i < items - 1 && split.1 == "") || (i == items - 1 && split.1 != "") {
        return None;
      }
      var thisNumber := Atoi(split.0);
      if thisNumber < 0 || thisNumber > 255 {
        return None;
      }
      assert FieldOk(split.0, split.1, items - i);
      PrependConcat(out, [thisNumber], ParseFields(split.1, sep, items - i - 1));
      out := out + [thisNumber];
      tmp := split.1;
    }
    assert out + [] == out;
    return Some(out);
  }

  function Join(fields: seq<string>, sep: char): string {
    if fields == [] then ""
    else if |fields| == 1 then fields[0]
    else fields[0] + [sep] + Join(fields[1..], sep)
  }

  function Values(fields: seq<string>): seq<int> {
    if fields == [] then [] else [Atoi(fields[0])] + Values(fields[1..])
  }

  predicate IsField(f: string, sep: char) { sep !in f && 0 <= Atoi(f) <= 255 }

  /** How a list may be spelt: joined, with or without a separator behind it; an empty last field needs one. */
  predicate Spells(s: string, fields: seq<string>, sep: char)
    requires fields != []
  {
    || (s == Join(fields, sep) && (|fields| == 1 || fields[|fields| - 1] != ""))
    || s == Join(fields, sep) + [sep]
  }

  predicate AllFields(fields: seq<string>, sep: char) { forall f | f in fields :: IsField(f, sep) }

  lemma JoinFirst(field: string, more: seq<string>, sep: char)
    requires more != []
    ensures Join([field] + more, sep) == field + [sep] + Join(more, sep)
    ensures Values([field] + more) == [Atoi(field)] + Values(more)
  {
    assert ([field] + more)[1..] == more;
  }

  lemma LastOf(field: string, more: seq<string>)
    requires more != []
    ensures ([field] + more)[|more|] == more[|more| - 1]
  {
  }

  /** A text that is accepted spells a list of exactly as many fields, each a number below 256. */
  lemma {:induction false} AcceptedSpells(s: string, sep: char, items: nat) returns (fields: seq<string>)
    requires items > 0 && ParseFields(s, sep, items).Some?
    ensures |fields| == items && AllFields(fields, sep) && Spells(s, fields, sep)
    ensures ParseFields(s, sep, items) == Some(Values(fields))
    decreases items
  {
    hide Atoi, Join, Spells, SplitChar;
    var (field, rest) := SplitChar(s, sep);
    if items == 1 {
      fields := [field];
      SpellingOfOne(s, field, sep);
    } else {
      var more := AcceptedSpells(rest, sep, items - 1);
      fields := [field] + more;
      ConsFields(field, more, sep);
      SpellsMore(field, rest, more, sep);
    }
  }

  lemma ConsFields(field: string, more: seq<string>, sep: char)
    requires IsField(field, sep) && AllFields(more, sep) && more != []
    ensures AllFields([field] + more, sep)
    ensures Values([field] + more) == [Atoi(field)] + Values(more)
  {
    JoinFirst(field, more, sep);
  }

  lemma SpellsMore(field: string, rest: string, more: seq<string>, sep: char)
    requires more != [] && rest != "" && Spells(rest, more, sep)
    ensures Spells(field + [sep] + rest, [field] + more, sep)
  {
    JoinFirst(field, more, sep);
    LastOf(field, more);
    var j := Join(more, sep);
    assert field + [sep] + j + [sep] == field + [sep] + (j + [sep]);
  }

  /** And every such spelling is accepted with the values of its fields. */
  lemma {:induction false} SpellingAccepted(s: string, fields: seq<string>, sep: char)
    requires fields != [] && AllFields(fields, sep) && Spells(s, fields, sep)
    ensures ParseFields(s, sep, |fields|) == Some(Values(fields))
    decreases |fields|
  {
    hide Atoi, Join, Spells, ParseFields, Values;
    var field, more := fields[0], fields[1..];
    assert IsField(field, sep) && fields == [field] + more;
    if more == [] {
      assert fields == [field];
      ParseOne(s, field, sep);
    } else {
      var rest := RestOfSpelling(s, field, more, sep);
      SpellingAccepted(rest, more, sep);
      ParseStep(field, rest, more, sep);
    }
  }

  lemma ParseOne(s: string, field: string, sep: char)
    requires IsField(field, sep) && Spells(s, [field], sep)
    ensures ParseFields(s, sep, 1) == Some(Values([field]))
  {
    hide Atoi;
    SpellingOfOne(s, field, sep);
    SplitCharAt(field, sep, "");
    assert ParseFields("", sep, 0) == Some([]);
  }

  lemma ParseStep(field: string, rest: string, more: seq<string>, sep: char)
    requires IsField(field, sep) && more != [] && rest != ""
    requires ParseFields(rest, sep, |more|) == Some(Values(more))
    ensures ParseFields(field + [sep] + rest, sep, |[field] + more|) == Some(Values([field] + more))
  {
    hide Atoi, SplitChar;
    SplitCharAt(field, sep, rest);
    JoinFirst(field, more, sep);
  }

  lemma SpellingOfOne(s: string, field: string, sep: char)
    requires sep !in field
    ensures Spells(s, [field], sep) <==> s == field || s == field + [sep] + ""
    ensures SplitChar(field, sep) == (field, "")
  {
    assert field + [sep] + "" == field + [sep];
  }

  lemma RestOfSpelling(s: string, field: string, more: seq<string>, sep: char) returns (rest: string)
    requires more != [] && Spells(s, [field] + more, sep)
    ensures s == field + [sep] + rest && rest != "" && Spells(rest, more, sep)
  {
    JoinFirst(field, more, sep);
    LastOf(field, more);
    var j := Join(more, sep);
    assert field + [sep] + j + [sep] == field + [sep] + (j + [sep]);
    rest := if s == field + [sep] + (j + [sep]) then j + [sep] else j;
  }

  /** A separator too many at the end goes unnoticed. */
  lemma TrailingSeparatorUnnoticed(fields: seq<string>, sep: char)
    requires fields != [] && AllFields(fields, sep) && fields[|fields| - 1] != ""
    ensures ParseFields(Join(fields, sep) + [sep], sep, |fields|) == ParseFields(Join(fields, sep), sep, |fields|)
         == Some(Values(fields))
  {
    SpellingAccepted(Join(fields, sep), fields, sep);
    SpellingAccepted(Join(fields, sep) + [sep], fields, sep);
  }

  // ---------------------------------------------------------------- PASV replies as PORT arguments

  /** str_replace_char */
  function ReplaceChar(s: string, from: char, to: char): string {
    if s == "" then "" else [if s[0] == from then to else s[0]] + ReplaceChar(s[1..], from, to)
  }

  /** vsf_sysutil_inet_ntop of an IPv4 address */
  function DottedQuad(a: nat, b: nat, c: nat, d: nat): string {
    Join([Dec(a), Dec(b), Dec(c), Dec(d)], '.')
  }

  /** The six numbers handle_pasv prints. */
  function PasvNumbers(a: nat, b: nat, c: nat, d: nat, port: nat): string {
    ReplaceChar(DottedQuad(a, b, c, d), '.', ',') + "," + Dec(port / 256) + "," + Dec(port % 256)
  }

  /** The port handle_port makes of its last two values. */
  function PortOf(vals: seq<int>): int
    requires |vals| == 6
  {
    vals[4] * 256 + vals[5]
  }

  lemma {:induction false} ReplaceCharConcat(s: string, t: string, from: char, to: char)
    ensures ReplaceChar(s + t, from, to) == ReplaceChar(s, from, to) + ReplaceChar(t, from, to)
  {
    if s == "" {
      assert s + t == t;
    } else {
      assert (s + t)[1..] == s[1..] + t;
      ReplaceCharConcat(s[1..], t, from, to);
    }
  }

  lemma {:induction false} ReplaceCharAbsent(s: string, from: char, to: char)
    requires forall i | 0 <= i < |s| :: s[i] != from
    ensures ReplaceChar(s, from, to) == s
  {
    if s != "" {
      ReplaceCharAbsent(s[1..], from, to);
    }
  }

  lemma {:induction false} ReplaceSeparator(fields: seq<string>, from: char, to: char)
    requires forall f | f in fields :: from !in f
    ensures ReplaceChar(Join(fields, from), from, to) == Join(fields, to)
    decreases |fields|
  {
    if fields != [] {
      assert fields[0] in fields;
      ReplaceCharAbsent(fields[0], from, to);
      if |fields| > 1 {
        ReplaceSeparator(fields[1..], from, to);
        var rest := Join(fields[1..], from);
        ReplaceCharConcat(fields[0], [from] + rest, from, to);
        assert fields[0] + [from] + rest == fields[0] + ([from] + rest);
        assert ([from] + rest)[1..] == rest;
      }
    }
  }

  lemma DecField(n: nat, sep: char)
    requires n < 256 && !IsDigit(sep)
    ensures IsField(Dec(n), sep) && Atoi(Dec(n)) == n && sep !in Dec(n)
  {
    AtoiDec(n);
  }

  /** For every address and port, the numbers of a PASV reply are a PORT argument for that address and port. */
  lemma PortReadsPasv(a: nat, b: nat, c: nat, d: nat, port: nat)
    requires a < 256 && b < 256 && c < 256 && d < 256 && port < 65536
    ensures ParseFields(PasvNumbers(a, b, c, d, port), ',', 6) == Some([a, b, c, d, port / 256, port % 256])
    ensures PortOf([a, b, c, d, port / 256, port % 256]) == port
  {
    var hi, lo := port / 256, port % 256;
    DecField(a, ','); DecField(b, ','); DecField(c, ','); DecField(d, ','); DecField(hi, ','); DecField(lo, ',');
    DecField(a, '.'); DecField(b, '.'); DecField(c, '.'); DecField(d, '.');
    var quad := [Dec(a), Dec(b), Dec(c), Dec(d)];
    ReplaceSeparator(quad, '.', ',');
    JoinSix(Dec(a), Dec(b), Dec(c), Dec(d), Dec(hi), Dec(lo));
    var fields := [Dec(a), Dec(b), Dec(c), Dec(d), Dec(hi), Dec(lo)];
    hide Atoi, Dec, Join, ParseFields;
    assert AllFields(fields, ',');
    ValuesOfSix(fields);
    SpellingAccepted(PasvNumbers(a, b, c, d, port), fields, ',');
  }

  /** A dotted quad is read back, and holds no bar. */
  lemma DottedQuadReads(a: nat, b: nat, c: nat, d: nat)
    requires a < 256 && b < 256 && c < 256 && d < 256
    ensures ParseFields(DottedQuad(a, b, c, d), '.', 4) == Some([a, b, c, d])
    ensures '|' !in DottedQuad(a, b, c, d)
  {
    DecField(a, '.'); DecField(b, '.'); DecField(c, '.'); DecField(d, '.');
    DecField(a, '|'); DecField(b, '|'); DecField(c, '|'); DecField(d, '|');
    var quad := [Dec(a), Dec(b), Dec(c), Dec(d)];
    hide Atoi, Dec, ParseFields;
    assert AllFields(quad, '.');
    assert Values(quad) == [a, b, c, d] by { ValuesIndex(quad); }
    assert '|' !in DottedQuad(a, b, c, d) by { JoinFour(Dec(a), Dec(b), Dec(c), Dec(d), '.'); }
    hide Join, Values;
    SpellingAccepted(DottedQuad(a, b, c, d), quad, '.');
  }

  lemma JoinSix(a: string, b: string, c: string, d: string, e: string, f: string)
    ensures Join([a, b, c, d, e, f], ',') == Join([a, b, c, d], ',') + "," + e + "," + f
  {
    var four := [a, b, c, d];
    hide Join;
    JoinSnoc(four, e, ',');
    JoinSnoc(four + [e], f, ',');
    assert four + [e] + [f] == [a, b, c, d, e, f];
  }

  lemma {:induction false} JoinSnoc(fields: seq<string>, last: string, sep: char)
    requires fields != []
    ensures Join(fields + [last], sep) == Join(fields, sep) + [sep] + last
    decreases |fields|
  {
    var first, more := fields[0], fields[1..];
    assert fields + [last] == [first] + (more + [last]);
    if more == [] {
      assert more + [last] == [last];
      JoinFirst(first, [last], sep);
    } else {
      JoinSnoc(more, last, sep);
      JoinFirst(first, more + [last], sep);
      JoinFirst(first, more, sep);
      assert fields == [first] + more;
      hide Join;
      var j := Join(more, sep);
      assert first + [sep] + (j + [sep] + last) == (first + [sep] + j) + [sep] + last;
    }
  }

  lemma JoinFour(a: string, b: string, c: string, d: string, sep: char)
    ensures Join([a, b, c, d], sep) == a + [sep] + (b + [sep] + (c + [sep] + d))
  {
    JoinFirst(c, [d], sep); JoinFirst(b, [c, d], sep); JoinFirst(a, [b, c, d], sep);
    assert [a] + [b, c, d] == [a, b, c, d] && [b] + [c, d] == [b, c, d] && [c] + [d] == [c, d];
  }

  lemma ValuesOfSix(fields: seq<string>)
    requires |fields| == 6
    ensures Values(fields)
         == [Atoi(fields[0]), Atoi(fields[1]), Atoi(fields[2]), Atoi(fields[3]), Atoi(fields[4]), Atoi(fields[5])]
  {
    hide Atoi;
    ValuesIndex(fields);
  }

  lemma {:induction false} ValuesIndex(fields: seq<string>)
    ensures |Values(fields)| == |fields| && forall i | 0 <= i < |fields| :: Values(fields)[i] == Atoi(fields[i])
    decreases |fields|
  {
    hide Atoi;
    if fields != [] {
      ValuesIndex(fields[1..]);
    }
  }
}
