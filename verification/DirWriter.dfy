/** The coalesced output of directory listings: write_dir_list of ftpdataio.c. */
module DirWriter {

  const DIR_BUFSIZE: nat := 16384

  function Concat(entries: seq<string>): string {
    if entries == [] then "" else Concat(entries[..|entries| - 1]) + entries[|entries| - 1]
  }

  /** The bytes in entries[i..j]. */
  function Bytes(entries: seq<string>, i: nat, j: nat): nat
    requires i <= j <= |entries|
    decreases j
  {
    if i == j then 0 else Bytes(entries, i, j - 1) + |entries[j - 1]|
  }

  /** Entries i to j may share a write: they fit the buffer, or there is only one. */
  predicate Fits(entries: seq<string>, i: nat, j: nat)
    requires i < j <= |entries|
  {
    j == i + 1 || Bytes(entries, i, j) <= DIR_BUFSIZE
  }

  /** Where the write that starts with entry i ends, with entries up to j already in the buffer. */
  function EndFrom(entries: seq<string>, i: nat, j: nat): (end: nat)
    requires i < j <= |entries|
    ensures j <= end <= |entries|
    decreases |entries| - j
  {
    if j == |entries| || Bytes(entries, i, j + 1) > DIR_BUFSIZE then j else EndFrom(entries, i, j + 1)
  }

  /** The cuts of write_dir_list from entry i on: the index behind the last entry of every write. */
  function Cuts(entries: seq<string>, i: nat): (cuts: seq<nat>)
    requires i <= |entries|
    decreases |entries| - i
  {
    if i == |entries| then []
    else
      var end := EndFrom(entries, i, i + 1);
      [end] + Cuts(entries, end)
  }

  /** The texts between the cuts. */
  function Texts(entries: seq<string>, i: nat, cuts: seq<nat>): seq<string>
    requires Packs(entries, i, cuts)
    decreases cuts
  {
    if cuts == [] then [] else [Concat(entries[i..cuts[0]])] + Texts(entries, cuts[0], cuts[1..])
  }

  /** Cuts that divide entries[i..] into writes that all fit. */
  predicate Packs(entries: seq<string>, i: nat, cuts: seq<nat>)
    decreases cuts
  {
    if cuts == [] then i == |entries|
    else i < cuts[0] <= |entries| && Fits(entries, i, cuts[0]) && Packs(entries, cuts[0], cuts[1..])
  }

  // ---------------------------------------------------------------- bytes

  lemma {:induction false} BytesSplit(entries: seq<string>, i: nat, k: nat, j: nat)
    requires i <= k <= j <= |entries|
    ensures Bytes(entries, i, j) == Bytes(entries, i, k) + Bytes(entries, k, j)
    decreases j
  {
    if k < j {
      BytesSplit(entries, i, k, j - 1);
    }
  }

  lemma {:induction false} BytesAreConcat(entries: seq<string>, i: nat, j: nat)
    requires i <= j <= |entries|
    ensures |Concat(entries[i..j])| == Bytes(entries, i, j)
    decreases j
  {
    if i < j {
      BytesAreConcat(entries, i, j - 1);
      ConcatSnoc(entries, i, j);
    }
  }

  lemma ConcatSnoc(entries: seq<string>, i: nat, j: nat)
    requires i < j <= |entries|
    ensures Concat(entries[i..j]) == Concat(entries[i..j - 1]) + entries[j - 1]
  {
    assert entries[i..j][..j - i - 1] == entries[i..j - 1];
  }

  lemma {:induction false} ConcatAppend(a: seq<string>, b: seq<string>)
    ensures Concat(a + b) == Concat(a) + Concat(b)
    decreases |b|
  {
    if b == [] {
      assert a + b == a;
    } else {
      var front := b[..|b| - 1];
      ConcatAppend(a, front);
      assert (a + b)[..|a + b| - 1] == a + front;
    }
  }

  // ---------------------------------------------------------------- what the cuts are good for

  /** Whatever fits divides the listing without losing, adding or moving anything. */
  lemma {:induction false} TextsConcat(entries: seq<string>, i: nat, cuts: seq<nat>)
    requires i <= |entries| && Packs(entries, i, cuts)
    ensures Concat(Texts(entries, i, cuts)) == Concat(entries[i..])
    decreases cuts
  {
    if cuts == [] {
      assert entries[i..] == [];
    } else {
      var j := cuts[0];
      TextsConcat(entries, j, cuts[1..]);
      var head := Concat(entries[i..j]);
      ConcatAppend([head], Texts(entries, j, cuts[1..]));
      assert [head][..0] == [] && Concat([head]) == head;
      ConcatAppend(entries[i..j], entries[j..]);
      assert entries[i..] == entries[i..j] + entries[j..];
    }
  }

  lemma {:induction false} EndFromFits(entries: seq<string>, i: nat, j: nat)
    requires i < j <= |entries| && Fits(entries, i, j)
    ensures var end := EndFrom(entries, i, j);
            && Fits(entries, i, end)
            && (end == |entries| || Bytes(entries, i, end + 1) > DIR_BUFSIZE)
    decreases |entries| - j
  {
    if !(j == |entries| || Bytes(entries, i, j + 1) > DIR_BUFSIZE) {
      EndFromFits(entries, i, j + 1);
    }
  }

  /** The cuts made pack the entries: every write fits the buffer or is a single entry. */
  lemma {:induction false} CutsPack(entries: seq<string>, i: nat)
    requires i <= |entries|
    ensures Packs(entries, i, Cuts(entries, i))
    decreases |entries| - i
  {
    if i < |entries| {
      var end := EndFrom(entries, i, i + 1);
      EndFromFits(entries, i, i + 1);
      CutsPack(entries, end);
      assert Cuts(entries, i)[1..] == Cuts(entries, end);
    }
  }

  /** Nothing that fits ends later than the first write made. */
  lemma {:induction false} EndIsFurthest(entries: seq<string>, i: nat, j: nat)
    requires i < j <= |entries| && Fits(entries, i, j)
    ensures j <= EndFrom(entries, i, i + 1)
  {
    var end := EndFrom(entries, i, i + 1);
    EndFromFits(entries, i, i + 1);
    if end < j {
      BytesSplit(entries, i, end + 1, j);
    }
  }

  /** Starting later never ends earlier. */
  lemma {:induction false} EndMonotone(entries: seq<string>, i: nat, k: nat)
    requires i <= k < |entries|
    ensures EndFrom(entries, i, i + 1) <= EndFrom(entries, k, k + 1)
  {
    var end := EndFrom(entries, i, i + 1);
    EndFromFits(entries, i, i + 1);
    if k + 1 < end {
      BytesSplit(entries, i, k, end);
      EndIsFurthest(entries, k, end);
    }
  }

  lemma {:induction false} CutsMonotone(entries: seq<string>, i: nat, k: nat)
    requires i <= k <= |entries|
    ensures |Cuts(entries, k)| <= |Cuts(entries, i)|
    decreases |entries| - i
  {
    if k < |entries| {
      EndMonotone(entries, i, k);
      CutsMonotone(entries, EndFrom(entries, i, i + 1), EndFrom(entries, k, k + 1));
    }
  }

  /** No way of dividing the listing into writes that fit needs fewer writes. */
  lemma {:induction false} CutsAreFewest(entries: seq<string>, i: nat, cuts: seq<nat>)
    requires i <= |entries| && Packs(entries, i, cuts)
    ensures |Cuts(entries, i)| <= |cuts|
    decreases cuts
  {
    if cuts != [] {
      EndIsFurthest(entries, i, cuts[0]);
      CutsMonotone(entries, cuts[0], EndFrom(entries, i, i + 1));
      CutsAreFewest(entries, cuts[0], cuts[1..]);
    }
  }

  /** The bytes of a listing reach the client in order and complete. */
  lemma {:induction false} WritesConcat(entries: seq<string>)
    ensures Concat(Writes(entries, 0)) == Concat(entries)
  {
    CutsPack(entries, 0);
    TextsConcat(entries, 0, Cuts(entries, 0));
    assert entries[0..] == entries;
  }

  // ---------------------------------------------------------------- the loop

  /** The connection: what was written, and how many writes have failed. */
  class Target {
    var written: seq<string>
    var failures: nat

    constructor ()
      ensures written == [] && failures == 0
    {
      written, failures := [], 0;
    }

    /** ftp_write_str; entries are never all empty, which str_netfd_write would take for a bug. */
    method FtpWriteStr(s: string) returns (fine: bool)
      requires s != ""
      modifies this
      ensures written == if fine then old(written) + [s] else old(written)
      ensures failures == old(failures) + if fine then 0 else 1
    {
      fine := *;
      if fine {
        written := written + [s];
      } else {
        failures := failures + 1;
      }
    }
  }

  /** The writes of a listing from entry i on. */
  function Writes(entries: seq<string>, i: nat): seq<string>
    requires i <= |entries|
  {
    CutsPack(entries, i);
    Texts(entries, i, Cuts(entries, i))
  }

  lemma WritesStep(entries: seq<string>, i: nat)
    requires i < |entries|
    ensures var end := EndFrom(entries, i, i + 1);
            Writes(entries, i) == [Concat(entries[i..end])] + Writes(entries, end)
  {
    var end := EndFrom(entries, i, i + 1);
    CutsPack(entries, i);
    CutsPack(entries, end);
    assert Cuts(entries, i)[1..] == Cuts(entries, end);
  }

  lemma NoMoreWrites(entries: seq<string>)
    ensures Writes(entries, |entries|) == []
  {
  }

  /** The flush test of the loop is the end of a write. */
  lemma FlushTest(entries: seq<string>, start: nat, i: nat)
    requires start <= i < |entries|
    ensures var full := i == |entries| - 1
              || |Concat(entries[start..i + 1])| + |entries[i + 1]| > DIR_BUFSIZE;
            && (full ==> EndFrom(entries, start, i + 1) == i + 1)
            && (!full ==> EndFrom(entries, start, i + 1) == EndFrom(entries, start, i + 2))
  {
    BytesAreConcat(entries, start, i + 1);
  }

  lemma NotEmpty(entries: seq<string>, start: nat, i: nat)
    requires start <= i < |entries| && entries[i] != ""
    ensures Concat(entries[start..i + 1]) == Concat(entries[start..i]) + entries[i] != ""
    ensures Concat(entries[i + 1..i + 1]) == ""
  {
    ConcatSnoc(entries, start, i + 1);
  }

  lemma Regroup(done: seq<string>, s: string, rest: seq<string>)
    ensures done + ([s] + rest) == (done + [s]) + rest
  {
  }

  /** write_dir_list: 0 when everything was written, 1 after the first failure. */
  method WriteDirList(entries: seq<string>, target: Target) returns (retval: int)
    requires forall i | 0 <= i < |entries| :: entries[i] != ""
    modifies target
    ensures retval == if target.failures > old(target.failures) then 1 else 0
    ensures target.failures <= old(target.failures) + 1
    ensures retval == 0 ==> target.written == old(target.written) + Writes(entries, 0)
    ensures retval == 1 ==>
      exists k | 0 <= k < |Writes(entries, 0)| :: target.written == old(target.written) + Writes(entries, 0)[..k]
  {
    hide Writes, Concat, EndFrom;
    retval := 0;
    var buf := "";
    ghost var start, done: seq<string> := 0, [];
    NoMoreWrites(entries);
    assert buf == Concat(entries[0..0]) by { ConcatNothing(entries); }
    var i := 0;
    while i < |entries|
      invariant 0 <= start <= i <= |entries|
      invariant if i == |entries| then start == i
                else EndFrom(entries, start, start + 1) == EndFrom(entries, start, i + 1)
      invariant buf == Concat(entries[start..i])
      invariant target.written == old(target.written) + done && target.failures == old(target.failures)
      invariant Writes(entries, 0) == done + Writes(entries, start)
    {
      NotEmpty(entries, start, i);
      FlushTest(entries, start, i);
      buf := buf + entries[i];
      if i == |entries| - 1 || |buf| + |entries[i + 1]| > DIR_BUFSIZE {
        WritesStep(entries, start);
        Regroup(done, buf, Writes(entries, i + 1));
        var fine := target.FtpWriteStr(buf);
        if !fine {
          retval := 1;
          assert Writes(entries, 0)[..|done|] == done;
          return;
        }
        done := done + [buf];
        buf := "";
        start := i + 1;
      }
      i := i + 1;
    }
  }

  lemma ConcatNothing(entries: seq<string>)
    ensures Concat(entries[0..0]) == ""
  {
  }
}
