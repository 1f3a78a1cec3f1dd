/** What the greedy matcher decides: sound for every filter, exact precisely on the greedy-safe ones. */
module GlobTheorems {
  import opened Strings
  import opened Glob

  predicate Plain(s: string) { forall i | 0 <= i < |s| :: !IsToken(s[i]) }

  /** Literal text in front of a filter is matched by being a prefix of the name. */
  lemma {:induction false} LiteralMatches(name: string, literal: string, filter: string)
    requires Plain(literal)
    ensures Matches(name, literal + filter) <==> literal <= name && Matches(name[|literal|..], filter)
  {
    if literal == "" {
      assert literal + filter == filter && name[0..] == name;
    } else {
      var f := literal + filter;
      assert f[1..] == literal[1..] + filter;
      if name != "" {
        LiteralMatches(name[1..], literal[1..], filter);
        assert literal <= name <==> literal[0] == name[0] && literal[1..] <= name[1..];
        if literal <= name {
          assert name[1..][|literal| - 1..] == name[|literal|..];
        }
      }
    }
  }

  // ---------------------------------------------------------------- soundness

  lemma PieceOfList(list: string)
    ensures SplitChar(list, ',').0 in CommaPieces(list)
    ensures ',' in list ==> forall p | p in CommaPieces(SplitChar(list, ',').1) :: p in CommaPieces(list)
  {
  }

  /** A name the matcher lets through is one the filter denotes, whatever the filter and the budget spent so far. */
  lemma {:induction false} ScanSound(name: string, filter: string, lastWasStar: bool, iters: nat)
    requires iters <= MATCHITERS_MAX
    ensures Scan(name, filter, !lastWasStar, lastWasStar, iters).pass ==> MatchesFrom(name, filter, lastWasStar)
    decreases |filter|, 0
  {
    if filter == "" {
      assert name[|name|..] == "";
    } else if Scan(name, filter, !lastWasStar, lastWasStar, iters).pass {
      var k := LocateToken(filter);
      var rest := ChopLiteral(name, filter[..k], !lastWasStar).value;
      if k < |filter| {
        assert filter[k..] == [filter[k]] + filter[k + 1..];
        TokenSound(rest, filter[k], filter[k + 1..], iters + 1);
      } else {
        assert filter[k..] == "";
        assert Scan(rest, "", false, false, iters + 1).pass;
        assert rest == "";
      }
      ChopSound(name, filter, lastWasStar);
    }
  }

  /** If what is left after chopping the literal text matches, so did the name. */
  lemma ChopSound(name: string, filter: string, lastWasStar: bool)
    requires ChopLiteral(name, filter[..LocateToken(filter)], !lastWasStar).Some?
    requires var k := LocateToken(filter);
             Matches(ChopLiteral(name, filter[..k], !lastWasStar).value, filter[k..])
    ensures MatchesFrom(name, filter, lastWasStar)
  {
    hide Matches, LocateToken;
    var k := LocateToken(filter);
    var literal := filter[..k];
    var at := if literal == "" then 0 else LocateText(name, literal).value;
    assert literal <= name[at..] && name[at..][k..] == ChopLiteral(name, literal, !lastWasStar).value;
    assert filter == literal + filter[k..];
    LiteralMatches(name[at..], literal, filter[k..]);
    assert name[0..] == name;
  }

  lemma {:induction false} TokenSound(name: string, token: char, filter: string, iters: nat)
    requires IsToken(token) && iters <= MATCHITERS_MAX
    ensures ScanToken(name, token, filter, iters).pass ==> Matches(name, [token] + filter)
    decreases |filter|, 2
  {
    assert ([token] + filter)[1..] == filter;
    if token == '*' {
      ScanSound(name, filter, true, iters);
    } else if token == '{' && '}' in filter {
      var (list, tail) := SplitChar(filter, '}');
      PiecesSound(name, list, tail, iters);
    } else if name != "" {
      ScanSound(name[1..], filter, false, iters);
    }
  }

  lemma {:induction false} PiecesSound(name: string, list: string, tail: string, iters: nat)
    requires iters <= MATCHITERS_MAX
    ensures ScanPieces(name, list, tail, iters).pass ==> exists p | p in CommaPieces(list) :: Matches(name, p + tail)
    decreases |list| + |tail|, 1
  {
    var (p, rem) := SplitChar(list, ',');
    PieceOfList(list);
    if p != "" {
      ScanSound(name, p + tail, false, iters);
      var v := Scan(name, p + tail, true, false, iters);
      if !v.pass {
        PiecesSound(name, rem, tail, v.iters);
        if rem == "" {
          assert SplitChar(rem, ',') == ("", "");
        }
      }
    }
  }

  /** Every file the filter lets through matches the filter. */
  lemma {:induction false} PassesImpliesMatches(name: string, filter: string)
    ensures Passes(name, filter) ==> Matches(name, filter)
  {
    ScanSound(name, filter, false, 0);
  }

  // ---------------------------------------------------------------- completeness on greedy-safe filters

  /** What may stand behind a star: no braces, a star at the end, and no literal directly after a '?'. */
  predicate TailSafe(t: string) {
    t == "" ||
    (&& t[0] != '{'
     && (t[0] != '*' ==> |t| > 1)
     && (t[0] == '?' ==> StartsWithWildcard(t[1..]))
     && TailSafe(t[1..]))
  }

  /** Filters on which searching greedily loses nothing. */
  predicate Safe(filter: string)
    decreases |filter|
  {
    filter == "" ||
    var c, rest := filter[0], filter[1..];
    if c == '*' then TailSafe(rest)
    else if c == '{' && '}' in rest then
      var (list, tail) := SplitChar(rest, '}');
      forall p | p in CommaPieces(list) :: p != "" && Safe(p + tail)
    else Safe(rest)
  }

  predicate StartsWithWildcard(filter: string) {
    filter != "" && (filter[0] == '?' || filter[0] == '*')
  }

  lemma {:induction false} TailSafeSuffix(t: string, k: nat)
    requires TailSafe(t) && k <= |t|
    ensures TailSafe(t[k..])
  {
    if k > 0 {
      TailSafeSuffix(t[1..], k - 1);
      assert t[1..][k - 1..] == t[k..];
    } else {
      assert t[0..] == t;
    }
  }

  /** A safe tail runs into a wildcard. */
  lemma {:induction false} TailSafeToken(t: string)
    requires TailSafe(t) && t != ""
    ensures StartsWithWildcard(t[LocateToken(t)..])
  {
    if IsToken(t[0]) {
      assert t[0..] == t;
    } else {
      TailSafeToken(t[1..]);
      assert t[1..][LocateToken(t) - 1..] == t[LocateToken(t)..];
    }
  }

  lemma {:induction false} TailSafeIsSafe(t: string)
    requires TailSafe(t) && StartsWithWildcard(t)
    ensures Safe(t)
    decreases |t|
  {
    if t[0] == '?' {
      TailSafeIsSafe(t[1..]);
    }
  }

  lemma {:induction false} SafeAfterLiteral(filter: string, k: nat)
    requires Safe(filter) && k <= |filter| && Plain(filter[..k])
    ensures Safe(filter[k..])
  {
    if k > 0 {
      assert filter[..k][0] == filter[0];
      assert filter[1..][..k - 1] == filter[..k][1..];
      SafeAfterLiteral(filter[1..], k - 1);
      assert filter[1..][k - 1..] == filter[k..];
    }
  }

  /** Behind a star, text that a wildcard-led tail matches may be extended to the left. */
  lemma {:induction false} TailMonotone(name: string, k: nat, tail: string)
    requires TailSafe(tail) && StartsWithWildcard(tail)
    requires k <= |name| && Matches(name[k..], tail)
    ensures Matches(name, tail)
    decreases |tail|
  {
    if tail[0] == '*' {
      var j :| 0 <= j <= |name[k..]| && Matches(name[k..][j..], tail[1..]);
      assert name[k..][j..] == name[k + j..];
    } else {
      assert name[k..][1..] == name[1..][k..];
      TailMonotone(name[1..], k, tail[1..]);
    }
  }

  /** Behind a star, the leftmost occurrence of the literal text is as good as any other. */
  lemma LeftmostSuffices(name: string, filter: string, k: nat)
    requires TailSafe(filter) && filter != "" && k == LocateToken(filter)
    requires SomeSuffixMatches(name, filter)
    ensures ChopLiteral(name, filter[..k], false).Some?
    ensures Matches(ChopLiteral(name, filter[..k], false).value, filter[k..])
  {
    hide Matches, LocateToken, Safe, TailSafe, LocateText;
    var literal, tail := filter[..k], filter[k..];
    TailSafeSuffix(filter, k);
    TailSafeToken(filter);
    var j :| 0 <= j <= |name| && Matches(name[j..], filter);
    assert literal <= name[j..] && Matches(name[j..][k..], tail) by {
      assert filter == literal + tail;
      LiteralMatches(name[j..], literal, tail);
    }
    assert name[j..][k..] == name[j + k..];
    var i := ChopAt(name, literal, j);
    assert name[i + k..][j - i..] == name[j + k..];
    TailMonotone(name[i + k..], j - i, tail);
  }

  /** An occurrence at j bounds where the unanchored search chops. */
  lemma ChopAt(name: string, literal: string, j: nat) returns (i: nat)
    requires j <= |name| && literal <= name[j..]
    ensures i <= j && ChopLiteral(name, literal, false) == Some(name[i + |literal|..])
  {
    if literal == "" {
      assert name[0..] == name;
      i := 0;
    } else {
      assert OccursAt(name, literal, j);
      i := LocateText(name, literal).value;
    }
  }

  lemma {:induction false} ScanComplete(name: string, filter: string, lastWasStar: bool, iters: nat)
    requires iters <= MATCHITERS_MAX
    requires if lastWasStar then TailSafe(filter) else Safe(filter)
    requires MatchesFrom(name, filter, lastWasStar)
    requires Scan(name, filter, !lastWasStar, lastWasStar, iters).iters < MATCHITERS_MAX
    ensures Scan(name, filter, !lastWasStar, lastWasStar, iters).pass
    decreases |filter|, 0
  {
    if filter != "" {
      var k := LocateToken(filter);
      ChopComplete(name, filter, lastWasStar);
      var rest := ChopLiteral(name, filter[..k], !lastWasStar).value;
      if k < |filter| {
        assert filter[k..] == [filter[k]] + filter[k + 1..];
        TokenComplete(rest, filter[k], filter[k + 1..], iters + 1);
      } else {
        assert filter[k..] == "";
      }
    }
  }

  /** On a safe filter, chopping the literal text leaves a rest that still matches. */
  lemma ChopComplete(name: string, filter: string, lastWasStar: bool)
    requires filter != "" && MatchesFrom(name, filter, lastWasStar)
    requires if lastWasStar then TailSafe(filter) else Safe(filter)
    ensures var k := LocateToken(filter);
      var rest := ChopLiteral(name, filter[..k], !lastWasStar);
      rest.Some? && Matches(rest.value, filter[k..]) && Safe(filter[k..])
  {
    hide Matches, Safe, TailSafe;
    var k := LocateToken(filter);
    if lastWasStar {
      LeftmostSuffices(name, filter, k);
      TailSafeSuffix(filter, k);
      TailSafeToken(filter);
      TailSafeIsSafe(filter[k..]);
    } else {
      assert filter == filter[..k] + filter[k..];
      LiteralMatches(name, filter[..k], filter[k..]);
      SafeAfterLiteral(filter, k);
      assert OccursAt(name, filter[..k], 0);
    }
  }

  lemma {:induction false} TokenComplete(name: string, token: char, filter: string, iters: nat)
    requires IsToken(token) && iters <= MATCHITERS_MAX
    requires Safe([token] + filter) && Matches(name, [token] + filter)
    requires ScanToken(name, token, filter, iters).iters < MATCHITERS_MAX
    ensures ScanToken(name, token, filter, iters).pass
    decreases |filter|, 2
  {
    assert ([token] + filter)[1..] == filter;
    if token == '*' {
      ScanComplete(name, filter, true, iters);
    } else if token == '{' && '}' in filter {
      var (list, tail) := SplitChar(filter, '}');
      PiecesComplete(name, list, tail, iters);
    } else {
      ScanComplete(name[1..], filter, false, iters);
    }
  }

  lemma {:induction false} PiecesComplete(name: string, list: string, tail: string, iters: nat)
    requires iters <= MATCHITERS_MAX
    requires forall p | p in CommaPieces(list) :: p != "" && Safe(p + tail)
    requires exists p | p in CommaPieces(list) :: Matches(name, p + tail)
    requires ScanPieces(name, list, tail, iters).iters < MATCHITERS_MAX
    ensures ScanPieces(name, list, tail, iters).pass
    decreases |list| + |tail|, 1
  {
    var (p, rem) := SplitChar(list, ',');
    PieceOfList(list);
    var v := Scan(name, p + tail, true, false, iters);
    if Matches(name, p + tail) {
      ScanComplete(name, p + tail, false, iters);
    } else {
      ScanSound(name, p + tail, false, iters);
      assert ',' in list;
      PiecesComplete(name, rem, tail, v.iters);
    }
  }

  /** On a greedy-safe filter, a run that stays under the cap decides the filter exactly. */
  lemma {:induction false} SafeFilterExact(name: string, filter: string)
    requires Safe(filter)
    requires Scan(name, filter, true, false, 0).iters < MATCHITERS_MAX
    ensures Passes(name, filter) <==> Matches(name, filter)
  {
    PassesImpliesMatches(name, filter);
    if Matches(name, filter) {
      ScanComplete(name, filter, false, 0);
    }
  }

  // ---------------------------------------------------------------- and on no others

  /**
   * Loop iterations a filter can use: one a wildcard, one for trailing literal text, and for a brace list one and those
   * of its alternatives up to the first empty one, each with the tail behind the list.
   */
  function Iterations(filter: string): nat
    decreases |filter|, 0
  {
    if filter == "" then 0
    else
      var k := LocateToken(filter);
      if k == |filter| then 1 else 1 + TokenIterations(filter[k], filter[k + 1..])
  }

  function TokenIterations(token: char, filter: string): nat
    decreases |filter|, 2
  {
    if token == '{' && '}' in filter then
      var (list, tail) := SplitChar(filter, '}');
      PieceIterations(list, tail)
    else Iterations(filter)
  }

  function PieceIterations(list: string, tail: string): nat
    decreases |list| + |tail|, 1
  {
    var (p, rem) := SplitChar(list, ',');
    if p == "" then 0 else Iterations(p + tail) + PieceIterations(rem, tail)
  }

  /** The name obtained from a brace-free filter by emptying its stars. */
  function Instance(filter: string): string {
    if filter == "" then ""
    else (if filter[0] == '*' then "" else if filter[0] == '?' then "x" else [filter[0]]) + Instance(filter[1..])
  }

  lemma StarMatchesNothing(name: string, filter: string)
    requires filter != "" && filter[0] == '*' && Matches(name, filter[1..])
    ensures Matches(name, filter)
  {
    assert name[0..] == name;
  }

  lemma CharMatches(name: string, filter: string)
    requires name != "" && filter != "" && filter[0] != '*' && filter[0] != '{'
    requires filter[0] == '?' || filter[0] == name[0]
    requires Matches(name[1..], filter[1..])
    ensures Matches(name, filter)
  {
  }

  lemma {:induction false} InstanceMatches(g: string, name: string, filter: string)
    requires '{' !in g && Matches(name, filter)
    ensures Matches(Instance(g) + name, g + filter)
  {
    if g == "" {
      assert Instance(g) + name == name && g + filter == filter;
    } else {
      InstanceMatches(g[1..], name, filter);
      InstanceMatchesStep(g, name, filter);
    }
  }

  lemma InstanceMatchesStep(g: string, name: string, filter: string)
    requires g != "" && g[0] != '{' && Matches(Instance(g[1..]) + name, g[1..] + filter)
    ensures Matches(Instance(g) + name, g + filter)
  {
    hide Matches;
    var i, i' := Instance(g), Instance(g[1..]);
    var f := g + filter;
    assert f[1..] == g[1..] + filter && f[0] == g[0];
    if g[0] == '*' {
      assert i == i';
      StarMatchesNothing(i + name, f);
    } else {
      assert i != "" && i[1..] == i' && (i[0] == 'x' || i[0] == g[0]);
      hide Instance;
      assert (i + name)[1..] == i[1..] + name;
      CharMatches(i + name, f);
    }
  }

  lemma {:induction false} InstanceOfLiteral(literal: string, rest: string)
    requires Plain(literal)
    ensures Instance(literal + rest) == literal + Instance(rest)
  {
    if literal == "" {
      assert literal + rest == rest;
    } else {
      assert (literal + rest)[1..] == literal[1..] + rest;
      InstanceOfLiteral(literal[1..], rest);
    }
  }

  lemma {:induction false} LocateTokenIn(literal: string, rest: string)
    requires Plain(literal) && (rest == "" || IsToken(rest[0]))
    ensures LocateToken(literal + rest) == |literal|
  {
    if literal == "" {
      assert literal + rest == rest;
    } else {
      assert (literal + rest)[1..] == literal[1..] + rest;
      LocateTokenIn(literal[1..], rest);
    }
  }

  lemma ChopPrefix(literal: string, rest: string, anchored: bool)
    ensures ChopLiteral(literal + rest, literal, anchored) == Some(rest)
  {
    if literal != "" {
      assert OccursAt(literal + rest, literal, 0);
      assert (literal + rest)[|literal|..] == rest;
    } else {
      assert literal + rest == rest;
    }
  }

  predicate Wildcard(c: char) { c == '*' || c == '?' }

  /** What a wildcard stands for in an instance. */
  function Filler(token: char): string { if token == '*' then "" else "x" }

  lemma InstanceStep(literal: string, token: char, rest: string)
    requires Plain(literal) && Wildcard(token)
    ensures Instance(literal + [token] + rest) == literal + Filler(token) + Instance(rest)
    ensures Iterations(literal + [token] + rest) == 1 + Iterations(rest)
  {
    var f := literal + [token] + rest;
    assert f == literal + ([token] + rest);
    InstanceOfLiteral(literal, [token] + rest);
    LocateTokenIn(literal, [token] + rest);
    assert ([token] + rest)[1..] == f[|literal| + 1..] == rest;
  }

  /** One turn of the loop on a name that starts with the literal text and what the wildcard needs. */
  lemma ScanStep(literal: string, token: char, name: string, filter: string, lastWasStar: bool, iters: nat)
    requires Plain(literal) && Wildcard(token) && iters < MATCHITERS_MAX
    ensures Scan(literal + Filler(token) + name, literal + [token] + filter, !lastWasStar, lastWasStar, iters)
         == Scan(name, filter, token == '?', token == '*', iters + 1)
  {
    var f, n := literal + [token] + filter, Filler(token) + name;
    assert literal + Filler(token) + name == literal + n;
    assert f == literal + ([token] + filter);
    LocateTokenIn(literal, [token] + filter);
    assert f[..|literal|] == literal && f[|literal| + 1..] == filter;
    ChopPrefix(literal, n, !lastWasStar);
    assert token == '?' ==> n[1..] == name;
    assert token == '*' ==> n == name;
  }

  predicate EndsInWildcard(g: string) { g != "" && Wildcard(g[|g| - 1]) }

  /** Scanning a name that starts with the instance of the filter's own front consumes exactly that instance. */
  lemma {:induction false} ScanInstance(g: string, filter: string, name: string, lastWasStar: bool, iters: nat)
    requires '{' !in g && EndsInWildcard(g) && iters <= MATCHITERS_MAX
    ensures var v := Scan(Instance(g) + name, g + filter, !lastWasStar, lastWasStar, iters);
            var star := g[|g| - 1] == '*';
      if iters + Iterations(g) <= MATCHITERS_MAX
      then v == Scan(name, filter, !star, star, iters + Iterations(g))
      else !v.pass
    decreases |g|
  {
    hide Scan;
    if iters == MATCHITERS_MAX {
      NoPassAtCap(Instance(g) + name, g + filter, lastWasStar);
      assert Iterations(g) > 0;
    } else {
      var token, rest := ScanFirstStep(g, filter, name, lastWasStar, iters);
      hide Iterations, Instance;
      if rest != "" {
        ScanInstance(rest, filter, name, token == '*', iters + 1);
      } else {
        NothingLeft(name);
        assert rest + filter == filter;
      }
    }
  }

  lemma NothingLeft(name: string)
    ensures Instance("") + name == name && Iterations("") == 0
  {
  }

  lemma NoPassAtCap(name: string, filter: string, lastWasStar: bool)
    ensures !Scan(name, filter, !lastWasStar, lastWasStar, MATCHITERS_MAX).pass
  {
  }

  lemma Regroup(a: string, b: string, c: string, d: string)
    ensures (a + b + c) + d == a + b + (c + d)
  {
  }

  lemma ScanFirstStep(g: string, filter: string, name: string, lastWasStar: bool, iters: nat)
    returns (token: char, rest: string)
    requires '{' !in g && EndsInWildcard(g) && iters < MATCHITERS_MAX
    ensures Wildcard(token) && |rest| < |g| && rest == g[|g| - |rest|..] && g[|g| - |rest| - 1] == token
    ensures Iterations(g) == 1 + Iterations(rest)
    ensures Scan(Instance(g) + name, g + filter, !lastWasStar, lastWasStar, iters)
         == Scan(Instance(rest) + name, rest + filter, token == '?', token == '*', iters + 1)
  {
    var k := LocateToken(g);
    var literal := g[..k];
    token, rest := g[k], g[k + 1..];
    assert g == literal + [token] + rest;
    assert forall i | 0 <= i < k :: !IsToken(literal[i]);
    hide LocateToken, Scan;
    InstanceStep(literal, token, rest);
    hide Instance, Iterations;
    Regroup(literal, Filler(token), Instance(rest), name);
    Regroup(literal, [token], rest, filter);
    ScanStep(literal, token, Instance(rest) + name, rest + filter, lastWasStar, iters);
  }

  /** No name makes a filter use more iterations than that. */
  lemma {:induction false} IterationsBound(name: string, filter: string, lastWasStar: bool, iters: nat)
    requires iters <= MATCHITERS_MAX
    ensures Scan(name, filter, !lastWasStar, lastWasStar, iters).iters <= iters + Iterations(filter)
    decreases |filter|, 0
  {
    if filter != "" && iters < MATCHITERS_MAX {
      var k := LocateToken(filter);
      var chopped := ChopLiteral(name, filter[..k], !lastWasStar);
      if k < |filter| && chopped.Some? {
        TokenBound(chopped.value, filter[k], filter[k + 1..], iters + 1);
        hide LocateToken, ChopLiteral, ScanToken, TokenIterations;
      }
    }
  }

  lemma {:induction false} TokenBound(name: string, token: char, filter: string, iters: nat)
    requires iters <= MATCHITERS_MAX
    ensures ScanToken(name, token, filter, iters).iters <= iters + TokenIterations(token, filter)
    decreases |filter|, 2
  {
    hide SplitChar, Scan, Iterations;
    if token == '{' && '}' in filter {
      var (list, tail) := SplitChar(filter, '}');
      PiecesBound(name, list, tail, iters);
    } else {
      IterationsBound(if name == "" || token == '*' then name else name[1..], filter, token == '*', iters);
      if token != '?' && token != '{' {
        IterationsBound(name, filter, true, iters);
      }
    }
  }

  lemma {:induction false} PiecesBound(name: string, list: string, tail: string, iters: nat)
    requires iters <= MATCHITERS_MAX
    ensures ScanPieces(name, list, tail, iters).iters <= iters + PieceIterations(list, tail)
    decreases |list| + |tail|, 1
  {
    hide SplitChar, Scan, Iterations;
    var (p, rem) := SplitChar(list, ',');
    if p != "" {
      IterationsBound(name, p + tail, false, iters);
      var v := Scan(name, p + tail, true, false, iters);
      if !v.pass {
        PiecesBound(name, rem, tail, v.iters);
      }
    }
  }

  /**
   * A greedy-safe filter, with or without braces, that cannot need as many iterations as the cap lets through exactly
   * the names it denotes.
   */
  lemma {:induction false} SafeFilterDecides(filter: string)
    requires Safe(filter) && Iterations(filter) < MATCHITERS_MAX
    ensures forall name :: Passes(name, filter) <==> Matches(name, filter)
  {
    forall name ensures Passes(name, filter) <==> Matches(name, filter) {
      IterationsBound(name, filter, false, 0);
      SafeFilterExact(name, filter);
    }
  }

  /** The instance of a brace-free filter is let through unless the cap is hit. */
  lemma {:induction false} ScanOwnInstance(filter: string, lastWasStar: bool, iters: nat)
    requires '{' !in filter && iters <= MATCHITERS_MAX
    ensures Scan(Instance(filter), filter, !lastWasStar, lastWasStar, iters).pass
       <==> iters + Iterations(filter) < MATCHITERS_MAX
    decreases |filter|
  {
    if filter != "" && iters < MATCHITERS_MAX {
      var k := LocateToken(filter);
      var literal := filter[..k];
      if k == |filter| {
        InstanceOfLiteral(literal, "");
        assert literal + "" == literal == filter;
        ChopPrefix(literal, "", !lastWasStar);
      } else {
        var token, rest := filter[k], filter[k + 1..];
        assert filter == literal + [token] + rest;
        InstanceStep(literal, token, rest);
        ScanStep(literal, token, Instance(rest), rest, lastWasStar, iters);
        ScanOwnInstance(rest, token == '*', iters + 1);
      }
    }
  }

  /** Length of the leading literal text and the '?' that follow it. */
  function SegmentLength(t: string): (s: nat)
    ensures LocateToken(t) <= s <= |t|
    ensures forall i | LocateToken(t) <= i < s :: t[i] == '?'
    ensures s < |t| ==> t[s] != '?'
  {
    LocateToken(t) + Questions(t[LocateToken(t)..])
  }

  function Questions(t: string): (m: nat)
    ensures m <= |t|
    ensures forall i | 0 <= i < m :: t[i] == '?'
    ensures m < |t| ==> t[m] != '?'
  {
    if t == "" || t[0] != '?' then 0 else 1 + Questions(t[1..])
  }

  function Other(c: char): char { if c == 'x' then 'y' else 'x' }

  /** A segment's instance followed by a character that cannot continue it. */
  function WrongTurn(tail: string): string {
    var s := SegmentLength(tail);
    Instance(tail[..s]) + [if s == |tail| then 'x' else Other(tail[s])]
  }

  /** A name that an unsafe tail behind a star denotes and the greedy search misses. */
  function MissedBy(tail: string): string
    decreases |tail|
  {
    var s := SegmentLength(tail);
    if StarAfterSegment(tail) then Instance(tail[..s]) + MissedBy(tail[s + 1..])
    else WrongTurn(tail) + Instance(tail)
  }

  predicate StarAfterSegment(tail: string) {
    SegmentLength(tail) < |tail| && tail[SegmentLength(tail)] == '*'
  }

  /** Putting a segment and a star in front of a safe tail keeps it safe. */
  lemma {:induction false} SafeBehindSegment(tail: string, i: nat)
    requires '{' !in tail && StarAfterSegment(tail) && i <= SegmentLength(tail)
    requires TailSafe(tail[SegmentLength(tail) + 1..])
    ensures TailSafe(tail[i..])
    decreases |tail| - i
  {
    var s := SegmentLength(tail);
    var t := tail[i..];
    assert t[1..] == tail[i + 1..];
    if i < s {
      SafeBehindSegment(tail, i + 1);
      assert t[0] == tail[i] && t[1] == tail[i + 1];
    }
  }

  lemma {:induction false} MissedIsMatched(tail: string)
    requires '{' !in tail && !TailSafe(tail)
    ensures SomeSuffixMatches(MissedBy(tail), tail)
    decreases |tail|
  {
    hide Matches;
    if StarAfterSegment(tail) {
      var segment, rest := SplitAtStar(tail);
      MissedIsMatched(rest);
      MatchedBehindSegment(segment, rest, MissedBy(rest));
    } else {
      InstanceAtEnd(WrongTurn(tail), tail);
    }
  }

  lemma {:induction false} SplitAtStar(tail: string) returns (segment: string, rest: string)
    requires '{' !in tail && !TailSafe(tail) && StarAfterSegment(tail)
    ensures tail == segment + "*" + rest && '{' !in segment && '{' !in rest && !TailSafe(rest)
    ensures MissedBy(tail) == Instance(segment) + MissedBy(rest)
  {
    var s := SegmentLength(tail);
    segment, rest := tail[..s], tail[s + 1..];
    SafeTailBehindSegment(tail);
  }

  lemma SafeTailBehindSegment(tail: string)
    requires '{' !in tail && StarAfterSegment(tail)
    ensures TailSafe(tail[SegmentLength(tail) + 1..]) ==> TailSafe(tail)
  {
    if TailSafe(tail[SegmentLength(tail) + 1..]) {
      SafeBehindSegment(tail, 0);
      assert tail[0..] == tail;
    }
  }

  lemma MatchedBehindSegment(segment: string, tail: string, name: string)
    requires '{' !in segment && SomeSuffixMatches(name, tail)
    ensures SomeSuffixMatches(Instance(segment) + name, segment + "*" + tail)
  {
    MatchedFromFront(segment, tail, name);
    var n := Instance(segment) + name;
    assert n[0..] == n;
  }

  lemma InstanceAtEnd(front: string, filter: string)
    requires '{' !in filter
    ensures SomeSuffixMatches(front + Instance(filter), filter)
  {
    InstanceMatches(filter, "", "");
    assert Instance(filter) + "" == Instance(filter) && filter + "" == filter;
    assert (front + Instance(filter))[|front|..] == Instance(filter);
  }

  lemma {:induction false} MissedIsMissed(tail: string, iters: nat)
    requires '{' !in tail && !TailSafe(tail) && iters <= MATCHITERS_MAX
    ensures !Scan(MissedBy(tail), tail, false, true, iters).pass
    decreases |tail|
  {
    if StarAfterSegment(tail) {
      var segment, rest := SplitAtStar(tail);
      var next := PastStar(segment, rest, MissedBy(rest), true, iters);
      if next.Some? {
        MissedIsMissed(rest, next.value);
      }
    } else {
      MissedAtMismatch(tail, iters);
    }
  }

  lemma MissedAtMismatch(tail: string, iters: nat)
    requires '{' !in tail && tail != "" && !StarAfterSegment(tail) && iters <= MATCHITERS_MAX
    ensures !Scan(MissedBy(tail), tail, false, true, iters).pass
  {
    hide Scan;
    var s := SegmentLength(tail);
    var segment, rest := tail[..s], tail[s..];
    assert tail == segment + rest;
    var wrong := [if s == |tail| then 'x' else Other(tail[s])] + Instance(tail);
    assert MissedBy(tail) == Instance(segment) + wrong;
    if LocateToken(tail) < s {
      assert segment[s - 1] == '?';
      ScanInstance(segment, rest, wrong, true, iters);
      if iters + Iterations(segment) <= MATCHITERS_MAX {
        WrongStart(wrong, rest, iters + Iterations(segment));
      }
    } else {
      assert s == |tail|;
      assert segment == tail;
      LiteralTooLong(tail, wrong, iters);
    }
  }

  /** Literal text behind a star is found at once, and what follows it in the name is left over. */
  lemma LiteralTooLong(literal: string, extra: string, iters: nat)
    requires Plain(literal) && literal != "" && extra != "" && iters <= MATCHITERS_MAX
    ensures !Scan(Instance(literal) + extra, literal, false, true, iters).pass
  {
    InstanceOfLiteral(literal, "");
    LocateTokenIn(literal, "");
    assert literal + "" == literal == literal[..|literal|];
    ChopPrefix(literal, extra, false);
  }

  /** Scanning past the instance of a starred segment; None when the cap is hit on the way. */
  lemma PastStar(segment: string, tail: string, name: string, lastWasStar: bool, iters: nat) returns (next: Option<nat>)
    requires '{' !in segment && iters <= MATCHITERS_MAX
    ensures next.Some? ==> next.value <= MATCHITERS_MAX
    ensures var v := Scan(Instance(segment) + name, segment + "*" + tail, !lastWasStar, lastWasStar, iters);
      if next.Some? then v == Scan(name, tail, false, true, next.value) else !v.pass
  {
    var g := segment + "*";
    InstanceMonoid(segment, "*");
    assert Instance(g) == Instance(segment);
    ScanInstance(g, tail, name, lastWasStar, iters);
    next := if iters + Iterations(g) <= MATCHITERS_MAX then Some(iters + Iterations(g)) else None;
  }

  lemma {:induction false} InstanceMonoid(a: string, b: string)
    ensures Instance(a + b) == Instance(a) + Instance(b)
  {
    if a == "" {
      assert a + b == b;
    } else {
      assert (a + b)[1..] == a[1..] + b;
      InstanceMonoid(a[1..], b);
    }
  }

  /** An anchored scan gives up on a name that is not empty or does not start with the filter's literal. */
  lemma WrongStart(name: string, filter: string, iters: nat)
    requires iters <= MATCHITERS_MAX && name != ""
    requires filter != "" ==> !IsToken(filter[0]) && filter[0] != name[0]
    ensures !Scan(name, filter, true, false, iters).pass
  {
    if filter != "" {
      var k := LocateToken(filter);
      assert filter[..k][0] == filter[0];
    }
  }

  lemma {:induction false} UnsafeSplits(filter: string) returns (front: string, tail: string)
    requires '{' !in filter && !Safe(filter)
    ensures filter == front + "*" + tail && !TailSafe(tail)
    decreases |filter|
  {
    if filter[0] == '*' {
      front, tail := "", filter[1..];
    } else {
      var f, t := UnsafeSplits(filter[1..]);
      front, tail := [filter[0]] + f, t;
    }
  }

  /** An unsafe brace-free filter denotes some name that the matcher rejects. */
  lemma UnsafeMissesAName(filter: string) returns (name: string)
    requires '{' !in filter && !Safe(filter)
    ensures Matches(name, filter) && !Passes(name, filter)
  {
    var front, tail := UnsafeSplits(filter);
    assert '{' !in tail by { assert forall i | 0 <= i < |tail| :: tail[i] == filter[|front| + 1 + i]; }
    assert '{' !in front by { assert forall i | 0 <= i < |front| :: front[i] == filter[i]; }
    var missed := MissedBy(tail);
    name := Instance(front) + missed;
    MissedIsMatched(tail);
    MatchedFromFront(front, tail, missed);
    var next := PastStar(front, tail, missed, false, 0);
    if next.Some? {
      MissedIsMissed(tail, next.value);
    }
  }

  lemma MatchedFromFront(front: string, tail: string, name: string)
    requires '{' !in front && SomeSuffixMatches(name, tail)
    ensures Matches(Instance(front) + name, front + "*" + tail)
  {
    var starred := "*" + tail;
    assert starred[1..] == tail;
    InstanceMatches(front, name, starred);
    assert front + starred == front + "*" + tail;
  }

  /**
   * The matcher decides a brace-free filter correctly on every name exactly when no search choice is lost
   * behind a star and the filter needs fewer loop iterations than the cap.
   */
  lemma {:induction false} BraceFreeExactness(filter: string)
    requires '{' !in filter
    ensures (forall name :: Passes(name, filter) <==> Matches(name, filter))
       <==> Safe(filter) && Iterations(filter) < MATCHITERS_MAX
  {
    var own := Instance(filter);
    assert Matches(own, filter) by {
      InstanceMatches(filter, "", "");
      assert own + "" == own && filter + "" == filter;
    }
    ScanOwnInstance(filter, false, 0);
    if !Safe(filter) {
      var missed := UnsafeMissesAName(filter);
    } else if Iterations(filter) < MATCHITERS_MAX {
      SafeFilterDecides(filter);
    }
  }

  /**
   * An empty alternative ends a brace list: a filter that starts with one rejects every name, though it denotes
   * what its tail and its other alternatives denote.
   */
  lemma EmptyPieceEndsList(name: string, list: string, tail: string)
    requires '}' !in list
    ensures !Passes(name, "{" + ("," + list + "}" + tail))
    ensures Matches(name, "{" + ("," + list + "}" + tail)) <==>
      Matches(name, tail) || exists p | p in CommaPieces(list) :: Matches(name, p + tail)
  {
    var pieces := "," + list;
    var rest := pieces + "}" + tail;
    var filter := "{" + rest;
    SplitCharAt(pieces, '}', tail);
    SplitCharAt("", ',', list);
    assert pieces == "" + "," + list;
    assert filter[0] == '{' && filter[1..] == rest && filter[..0] == "" && rest[|pieces|] == '}';
    assert "" + tail == tail;
    hide SplitChar;
    assert CommaPieces(pieces) == [""] + CommaPieces(list);
    EmptyPieceRejects(name, filter, pieces, tail);
    EmptyPieceDenotes(name, filter, list, tail);
  }

  lemma EmptyPieceRejects(name: string, filter: string, pieces: string, tail: string)
    requires filter != "" && filter[0] == '{' && filter[..0] == "" && '}' in filter[1..]
    requires SplitChar(filter[1..], '}') == (pieces, tail) && SplitChar(pieces, ',').0 == ""
    ensures !Passes(name, filter)
  {
    assert LocateToken(filter) == 0;
    assert ScanPieces(name, pieces, tail, 1) == Verdict(false, 1);
    assert ScanToken(name, '{', filter[1..], 1) == Verdict(false, 1);
  }

  lemma EmptyPieceDenotes(name: string, filter: string, list: string, tail: string)
    requires filter != "" && filter[0] == '{' && '}' in filter[1..] && "" + tail == tail
    requires SplitChar(filter[1..], '}') == ("," + list, tail)
    requires CommaPieces("," + list) == [""] + CommaPieces(list)
    ensures Matches(name, filter) <==>
      Matches(name, tail) || exists p | p in CommaPieces(list) :: Matches(name, p + tail)
  {
    var pieces := [""] + CommaPieces(list);
    assert forall p :: p in pieces <==> p == "" || p in CommaPieces(list);
    assert Matches(name, filter) <==> exists p | p in pieces :: Matches(name, p + tail);
  }
}
