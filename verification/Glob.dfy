/** The file-name filter of directory listings: vsf_filename_passes_filter in ls.c. */
module Glob {
  import opened Strings

  const MATCHITERS_MAX: nat := 1000

  // ---------------------------------------------------------------- meaning of a filter

  /** All the comma-separated pieces of a brace list, empty ones included. */
  function CommaPieces(list: string): (ps: seq<string>)
    ensures forall p | p in ps :: |p| <= |list|
    decreases |list|
  {
    if ',' !in list then [list]
    else var (p, rem) := SplitChar(list, ','); [p] + CommaPieces(rem)
  }

  /** What a filter denotes, one filter character at a time and without any search strategy. */
  predicate Matches(name: string, filter: string)
    decreases |filter|
  {
    if filter == "" then name == ""
    else
      var c, rest := filter[0], filter[1..];
      if c == '*' then exists k | 0 <= k <= |name| :: Matches(name[k..], rest)
      else if c == '?' then name != "" && Matches(name[1..], rest)
      else if c == '{' && '}' in rest then
        var (list, tail) := SplitChar(rest, '}');
        exists p | p in CommaPieces(list) :: Matches(name, p + tail)
      else name != "" && name[0] == c && Matches(name[1..], rest)
  }

  /** Some suffix of the name matches: the meaning of a filter standing behind a star. */
  predicate SomeSuffixMatches(name: string, filter: string) {
    exists k | 0 <= k <= |name| :: Matches(name[k..], filter)
  }

  predicate MatchesFrom(name: string, filter: string, afterStar: bool) {
    if afterStar then SomeSuffixMatches(name, filter) else Matches(name, filter)
  }

  // ---------------------------------------------------------------- the matcher on values

  predicate IsToken(c: char) { c == '*' || c == '?' || c == '{' }

  /** str_locate_chars(s, "*?{"), with |s| when there is none. */
  function LocateToken(s: string): (k: nat)
    ensures k <= |s|
    ensures forall i | 0 <= i < k :: !IsToken(s[i])
    ensures k < |s| ==> IsToken(s[k])
  {
    if s == "" || IsToken(s[0]) then 0 else LocateToken(s[1..]) + 1
  }

  /** Chop the literal text in front of a token off the name, at the start or at its first occurrence. */
  function ChopLiteral(name: string, literal: string, anchored: bool): (r: Option<string>)
    ensures r.Some? ==> |r.value| + |literal| <= |name|
  {
    if literal == "" then Some(name)
    else match LocateText(name, literal)
      case None => None
      case Some(i) => if anchored && i > 0 then None else Some(name[i + |literal|..])
  }

  datatype Verdict = Verdict(pass: bool, iters: nat)

  /** The text after the loop. */
  function Finish(name: string, lastWasStar: bool, iters: nat): Verdict {
    Verdict((name == "" || lastWasStar) && iters != MATCHITERS_MAX, iters)
  }

  /** One state of the matching loop, run to its verdict. */
  function Scan(name: string, filter: string, anchored: bool, lastWasStar: bool, iters: nat): (v: Verdict)
    requires iters <= MATCHITERS_MAX
    ensures iters <= v.iters <= MATCHITERS_MAX
    ensures v.pass ==> v.iters < MATCHITERS_MAX
    decreases |filter|, 0
  {
    if filter == "" || iters == MATCHITERS_MAX then Finish(name, lastWasStar, iters)
    else
      var k := LocateToken(filter);
      match ChopLiteral(name, filter[..k], anchored)
      case None => Verdict(false, iters + 1)
      case Some(rest) =>
        if k == |filter| then Scan(rest, "", false, false, iters + 1)
        else ScanToken(rest, filter[k], filter[k + 1..], iters + 1)
  }

  /** The treatment of the special character that ended the literal text. */
  function ScanToken(name: string, token: char, filter: string, iters: nat): (v: Verdict)
    requires iters <= MATCHITERS_MAX
    ensures iters <= v.iters <= MATCHITERS_MAX
    ensures v.pass ==> v.iters < MATCHITERS_MAX
    decreases |filter|, 2
  {
    if token == '?' then
      if name == "" then Verdict(false, iters) else Scan(name[1..], filter, true, false, iters)
    else if token == '{' then
      if '}' in filter then
        var (list, tail) := SplitChar(filter, '}');
        ScanPieces(name, list, tail, iters)
      else if name == "" || name[0] != '{' then Verdict(false, iters)
      else Scan(name[1..], filter, true, false, iters)
    else Scan(name, filter, false, true, iters)
  }

  /** The brace loop: try each piece followed by the tail, up to the first empty piece. */
  function ScanPieces(name: string, list: string, tail: string, iters: nat): (v: Verdict)
    requires iters <= MATCHITERS_MAX
    ensures iters <= v.iters <= MATCHITERS_MAX
    ensures v.pass ==> v.iters < MATCHITERS_MAX
    decreases |list| + |tail|, 1
  {
    var (p, rem) := SplitChar(list, ',');
    if p == "" then Verdict(false, iters)
    else
      var v := Scan(name, p + tail, true, false, iters);
      if v.pass then v
      else ScanPieces(name, rem, tail, v.iters)
  }

  /** The matcher as directory listings call it, with a fresh iteration counter. */
  predicate Passes(name: string, filter: string) {
    Scan(name, filter, true, false, 0).pass
  }

  // ---------------------------------------------------------------- the matcher as the code runs it

  /** vsf_filename_passes_filter; the counter behind the iters pointer is passed in and out. */
  method FilenamePassesFilter(filename: string, filter: string, iters: nat) returns (ret: bool, itersOut: nat)
    requires iters <= MATCHITERS_MAX
    ensures Verdict(ret, itersOut) == Scan(filename, filter, true, false, iters)
    decreases |filter|
  {
    hide LocateText, LocateToken, SplitChar;
    var filterRemain, nameRemain, lastToken := filter, filename, '\0';
    var mustMatchAtCurrentPos := true;
    ret, itersOut := false, iters;
    while filterRemain != "" && itersOut < MATCHITERS_MAX
      invariant itersOut <= MATCHITERS_MAX && !ret && |filterRemain| <= |filter|
      invariant Scan(filename, filter, true, false, iters)
             == Scan(nameRemain, filterRemain, mustMatchAtCurrentPos, lastToken == '*', itersOut)
      decreases |filterRemain|
    {
      var index := LocateToken(filterRemain);
      itersOut := itersOut + 1;
      var matchNeeded := filterRemain[..index];
      if index < |filterRemain| {
        lastToken := filterRemain[index];
        filterRemain := filterRemain[index + 1..];
      } else {
        lastToken := '\0';
        filterRemain := "";
      }
      if matchNeeded != "" {
        var located := LocateText(nameRemain, matchNeeded);
        if located.None? {
          return;
        }
        if mustMatchAtCurrentPos && located.value > 0 {
          return;
        }
        nameRemain := nameRemain[located.value + |matchNeeded|..];
      }
      if lastToken == '?' {
        if nameRemain == "" {
          return;
        }
        nameRemain := nameRemain[1..];
        mustMatchAtCurrentPos := true;
      } else if lastToken == '{' {
        mustMatchAtCurrentPos := true;
        if '}' in filterRemain {
          var (braceList, tail) := SplitChar(filterRemain, '}');
          var (piece, remaining) := SplitChar(braceList, ',');
          while piece != ""
            invariant itersOut <= MATCHITERS_MAX
            invariant |piece| + |remaining| + |tail| < |filter|
            invariant (piece, remaining) == SplitChar(braceList, ',')
            invariant Scan(filename, filter, true, false, iters) == ScanPieces(nameRemain, braceList, tail, itersOut)
            decreases |braceList|
          {
            ret, itersOut := FilenamePassesFilter(nameRemain, piece + tail, itersOut);
            if ret {
              return;
            }
            braceList := remaining;
            var split := SplitChar(braceList, ',');
            piece, remaining := split.0, split.1;
          }
          return;
        } else if nameRemain == "" || nameRemain[0] != '{' {
          return;
        } else {
          nameRemain := nameRemain[1..];
        }
      } else {
        mustMatchAtCurrentPos := false;
      }
    }
    if nameRemain != "" && lastToken != '*' {
      return;
    }
    ret := true;
    if itersOut == MATCHITERS_MAX {
      ret := false;
    }
  }
}
