/** ASCII-mode line-end translation (ascii.c; section 3.1.1.1 of RFC 959) on whole byte streams. */
module AsciiCodec {

  const CR := '\r'
  const LF := '\n'

  /** Every CR immediately followed by LF is removed; nothing else changes. */
  function ToBin(s: string): string {
    if s == "" then ""
    else if s[0] == CR && |s| > 1 && s[1] == LF then ToBin(s[1..])
    else [s[0]] + ToBin(s[1..])
  }

  /** Every LF not preceded by CR gains one; the flag says whether a CR precedes the stream. */
  function ToAsciiAfter(s: string, prevCr: bool): string {
    if s == "" then ""
    else AsciiOf(s[0], prevCr) + ToAsciiAfter(s[1..], s[0] == CR)
  }

  function AsciiOf(c: char, prevCr: bool): string {
    if c == LF && !prevCr then [CR, LF] else [c]
  }

  function ToAscii(s: string): string { ToAsciiAfter(s, false) }

  predicate EndsInCr(s: string) { s != "" && s[|s| - 1] == CR }

  /** An LF without a CR in front of it. */
  predicate BareLfAt(s: string, i: nat, prevCr: bool) {
    i < |s| && s[i] == LF && (if i == 0 then !prevCr else s[i - 1] != CR)
  }

  ghost predicate NoBareLf(s: string, prevCr: bool) { forall i: nat :: !BareLfAt(s, i, prevCr) }

  predicate CrLfAt(s: string, i: nat) { i + 1 < |s| && s[i] == CR && s[i + 1] == LF }

  ghost predicate NoCrLf(s: string) { forall i: nat :: !CrLfAt(s, i) }

  predicate CrCrLfAt(s: string, i: nat) { i + 2 < |s| && s[i] == CR && s[i + 1] == CR && s[i + 2] == LF }

  ghost predicate NoCrCrLf(s: string) { forall i: nat :: !CrCrLfAt(s, i) }

  // ---------------------------------------------------------------- laws

  lemma {:induction false} BinOfAscii(s: string, prevCr: bool)
    ensures ToBin(ToAsciiAfter(s, prevCr)) == ToBin(s)
  {
    if s != "" {
      var rest := s[1..];
      BinOfAscii(rest, s[0] == CR);
      var t := ToAsciiAfter(rest, s[0] == CR);
      var a := ToAsciiAfter(s, prevCr);
      if s[0] == LF && !prevCr {
        assert a[1..] == [LF] + t && a[1..][1..] == t;
      } else {
        assert a[1..] == t;
      }
    }
  }

  lemma BareLfShift(s: string, prevCr: bool)
    requires s != ""
    ensures NoBareLf(s, prevCr) <==> !(s[0] == LF && !prevCr) && NoBareLf(s[1..], s[0] == CR)
  {
    assert BareLfAt(s, 0, prevCr) <==> s[0] == LF && !prevCr;
    var cr := s[0] == CR;
    assert forall i: nat :: BareLfAt(s[1..], i, cr) <==> BareLfAt(s, i + 1, prevCr);
    assert forall i: nat | i > 0 :: BareLfAt(s, i, prevCr) ==> BareLfAt(s[1..], i - 1, cr);
  }

  /** Text already free of bare line feeds, and only such text, goes through the download translation unchanged. */
  lemma {:induction false} AsciiFixed(s: string, prevCr: bool)
    ensures ToAsciiAfter(s, prevCr) == s <==> NoBareLf(s, prevCr)
  {
    if s != "" {
      BareLfShift(s, prevCr);
      AsciiFixed(s[1..], s[0] == CR);
      var t := ToAsciiAfter(s[1..], s[0] == CR);
      if !(s[0] == LF && !prevCr) {
        assert ToAsciiAfter(s, prevCr) == [s[0]] + t;
        assert ([s[0]] + t)[1..] == t && [s[0]] + s[1..] == s;
      }
    }
  }

  /** What a client receives never holds a bare line feed. */
  lemma {:induction false} AsciiHasNoBareLf(s: string, prevCr: bool)
    ensures NoBareLf(ToAsciiAfter(s, prevCr), prevCr)
  {
    if s != "" {
      AsciiHasNoBareLf(s[1..], s[0] == CR);
      var t := ToAsciiAfter(s[1..], s[0] == CR);
      var a := ToAsciiAfter(s, prevCr);
      BareLfShift(a, prevCr);
      if s[0] == LF && !prevCr {
        assert a[1..] == [LF] + t && a[1..][1..] == t;
        BareLfShift(a[1..], true);
      } else {
        assert a[1..] == t;
      }
    }
  }

  lemma AsciiIdempotent(s: string)
    ensures ToAscii(ToAscii(s)) == ToAscii(s)
  {
    AsciiHasNoBareLf(s, false);
    AsciiFixed(ToAscii(s), false);
  }

  /** The download translation at most doubles the data and never shrinks it. */
  lemma {:induction false} AsciiLength(s: string, prevCr: bool)
    ensures |s| <= |ToAsciiAfter(s, prevCr)| <= 2 * |s|
  {
    if s != "" {
      AsciiLength(s[1..], s[0] == CR);
    }
  }

  lemma CrLfShift(s: string)
    requires s != ""
    ensures NoCrLf(s) <==> !CrLfAt(s, 0) && NoCrLf(s[1..])
  {
    assert forall i: nat :: CrLfAt(s[1..], i) <==> CrLfAt(s, i + 1);
    assert forall i: nat | i > 0 :: CrLfAt(s, i) ==> CrLfAt(s[1..], i - 1);
  }

  /** The upload translation keeps exactly the streams without CR LF, and shortens all others. */
  lemma {:induction false} BinFixed(s: string)
    ensures |ToBin(s)| <= |s|
    ensures ToBin(s) == s <==> NoCrLf(s)
    ensures ToBin(s) == s <==> |ToBin(s)| == |s|
  {
    if s != "" {
      CrLfShift(s);
      BinFixed(s[1..]);
      if !CrLfAt(s, 0) {
        assert ToBin(s) == [s[0]] + ToBin(s[1..]) && s == [s[0]] + s[1..];
        assert ToBin(s)[1..] == ToBin(s[1..]);
      }
    }
  }

  /** A file downloaded and uploaded again in ASCII mode comes back as it was exactly when it holds no CR LF. */
  lemma DownloadThenUpload(file: string)
    ensures ToBin(ToAscii(file)) == file <==> NoCrLf(file)
  {
    BinOfAscii(file, false);
    BinFixed(file);
  }

  /** No CR CR LF in the stream, counting a CR that went before it. */
  ghost predicate NoDoubledCr(s: string, prevCr: bool) { NoCrCrLf(s) && !(prevCr && CrLfAt(s, 0)) }

  lemma DoubledCrShift(s: string, prevCr: bool)
    requires s != ""
    ensures NoDoubledCr(s, prevCr) <==> !(prevCr && CrLfAt(s, 0)) && NoDoubledCr(s[1..], s[0] == CR)
  {
    assert forall i: nat :: CrCrLfAt(s[1..], i) <==> CrCrLfAt(s, i + 1);
    assert forall i: nat | i > 0 :: CrCrLfAt(s, i) ==> CrCrLfAt(s[1..], i - 1);
    assert CrCrLfAt(s, 0) <==> s[0] == CR && CrLfAt(s[1..], 0);
  }

  lemma {:induction false} AsciiOfBin(s: string, prevCr: bool)
    ensures ToAsciiAfter(ToBin(s), prevCr) == s <==> NoBareLf(s, prevCr) && NoDoubledCr(s, prevCr)
    decreases |s|
  {
    if s != "" {
      BareLfShift(s, prevCr);
      DoubledCrShift(s, prevCr);
      var rest := s[1..];
      if CrLfAt(s, 0) {
        BareLfShift(rest, true);
        DoubledCrShift(rest, true);
        AsciiOfBin(rest[1..], false);
        var t := ToAsciiAfter(ToBin(rest[1..]), false);
        assert ToBin(s) == ToBin(rest) == [LF] + ToBin(rest[1..]);
        assert ToBin(s)[1..] == ToBin(rest[1..]);
        assert s == [CR, LF] + rest[1..];
        assert ([CR, LF] + t)[2..] == t;
      } else {
        AsciiOfBin(rest, s[0] == CR);
        assert ToBin(s)[1..] == ToBin(rest);
        var t := ToAsciiAfter(ToBin(rest), s[0] == CR);
        assert s == [s[0]] + rest && ([s[0]] + t)[1..] == t;
      }
    }
  }

  /** A stream uploaded and downloaded again comes back as sent exactly when it has no bare LF and no CR CR LF. */
  lemma UploadThenDownload(s: string)
    ensures ToAscii(ToBin(s)) == s <==> NoBareLf(s, false) && NoCrCrLf(s)
  {
    AsciiOfBin(s, false);
  }

  // ---------------------------------------------------------------- chunks

  lemma {:induction false} AsciiConcat(a: string, b: string, prevCr: bool)
    ensures ToAsciiAfter(a + b, prevCr)
         == ToAsciiAfter(a, prevCr) + ToAsciiAfter(b, if a == "" then prevCr else EndsInCr(a))
  {
    hide AsciiOf;
    if a == "" {
      assert a + b == b;
    } else {
      assert (a + b)[1..] == a[1..] + b;
      AsciiConcat(a[1..], b, a[0] == CR);
      assert a[1..] != "" ==> EndsInCr(a[1..]) == EndsInCr(a);
    }
  }

  /** The part of the translation of a stream that its next byte can no longer change. */
  function Settled(s: string): string {
    if EndsInCr(s) then ToBin(s[..|s| - 1]) else ToBin(s)
  }

  lemma {:induction false} BinConcat(a: string, b: string)
    requires !(EndsInCr(a) && b != "" && b[0] == LF)
    ensures ToBin(a + b) == ToBin(a) + ToBin(b)
  {
    if a == "" {
      assert a + b == b;
    } else {
      assert (a + b)[1..] == a[1..] + b;
      BinConcat(a[1..], b);
    }
  }

  lemma SettledStep(s: string)
    requires s != ""
    ensures Settled(s) == (if s[0] == CR && (|s| == 1 || s[1] == LF) then "" else [s[0]]) + Settled(s[1..])
  {
    if EndsInCr(s) && |s| > 1 {
      var t := s[..|s| - 1];
      assert t[1..] == s[1..][..|s[1..]| - 1];
    }
  }

  lemma FinalCr(s: string)
    ensures ToBin(s) == Settled(s) + (if EndsInCr(s) then [CR] else "")
  {
    if EndsInCr(s) {
      assert s == s[..|s| - 1] + [CR];
      BinConcat(s[..|s| - 1], [CR]);
    }
  }

  /** What the translation of one chunk adds, given whether a CR is held back from before it. */
  function ChunkOutput(chunk: string, heldCr: bool): string {
    (if heldCr && (chunk == "" || chunk[0] != LF) then [CR] else "") + Settled(chunk)
  }

  /** Translating chunk by chunk settles exactly what translating the whole stream settles. */
  lemma {:induction false} SettledConcat(a: string, chunk: string)
    requires chunk != ""
    ensures Settled(a + chunk) == Settled(a) + ChunkOutput(chunk, EndsInCr(a))
  {
    hide Settled;
    if a == "" {
      assert a + chunk == chunk;
      assert Settled("") == "" by { FinalCr(""); }
    } else {
      var rest := a[1..];
      assert (a + chunk)[1..] == rest + chunk;
      SettledStep(a);
      SettledStep(a + chunk);
      if rest == "" {
        assert rest + chunk == chunk;
        assert Settled(rest) == "" by { FinalCr(""); }
      } else {
        SettledConcat(rest, chunk);
      }
    }
  }
}
