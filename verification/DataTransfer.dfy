/** The read-translate-write loops of a data transfer: ascii.c on buffers, and ftpdataio.c around it. */
module DataTransfer {
  import opened AsciiCodec

  const DATA_BUFSIZE: nat := 65536

  /** A descriptor that is read: rest is what reads have not delivered yet, failures counts the reads that failed. */
  class Source {
    var rest: string
    var failures: nat

    /** One read(): an error, end of file, or any non-empty front of at most n bytes, as the system pleases. */
    method Read(buf: array<char>, at: nat, n: nat) returns (ret: int)
      requires at + n <= buf.Length && n > 0
      modifies this, buf
      ensures -1 <= ret <= n
      ensures failures == old(failures) + if ret < 0 then 1 else 0
      ensures ret == 0 ==> old(rest) == ""
      ensures ret <= 0 ==> rest == old(rest) && buf[..] == old(buf[..])
      ensures ret > 0 ==> ret <= |old(rest)| && buf[at..at + ret] == old(rest)[..ret] && rest == old(rest)[ret..]
    {
      var fails: bool := *;
      if fails {
        failures := failures + 1;
        return -1;
      }
      if rest == "" {
        return 0;
      }
      var k: nat :| 0 < k <= n && k <= |rest|;
      forall i | 0 <= i < k { buf[at + i] := rest[i]; }
      rest := rest[k..];
      ret := k;
    }
  }

  /** A descriptor that is written: written is everything it has taken, failures counts the writes cut short. */
  class Sink {
    var written: string
    var failures: nat

    /** vsf_sysutil_write_loop: all n bytes, or an error or a short count after some front of them. */
    method WriteLoop(buf: array<char>, at: nat, n: nat) returns (ret: int)
      requires at + n <= buf.Length
      modifies this
      ensures -1 <= ret <= n
      ensures failures == old(failures) + if ret != n then 1 else 0
      ensures ret == n ==> written == old(written) + buf[at..at + n]
      ensures 0 <= ret ==> written == old(written) + buf[at..at + ret]
      ensures old(written) <= written <= old(written) + buf[at..at + n]
    {
      var k: nat :| k <= n;
      written := written + buf[at..at + k];
      var fails: bool := *;
      ret := if fails && k < n then -1 else k;
      if ret != n {
        failures := failures + 1;
      }
    }
  }

  datatype TransferRet = TransferRet(retval: int, transferred: nat)

  /** get_chunk_size */
  function GetChunkSize(transChunkSize: nat): (r: nat)
    ensures 4096 <= r <= DATA_BUFSIZE
    ensures 4096 <= transChunkSize <= DATA_BUFSIZE ==> r == transChunkSize
  {
    if 0 < transChunkSize < DATA_BUFSIZE then
      if transChunkSize < 4096 then 4096 else transChunkSize
    else DATA_BUFSIZE
  }

  /**
   * vsf_ascii_ascii_to_bin: the chunk lies in buf[1..inLen + 1] and is rewritten in place; buf[0] is the room
   * for a CR held back from the chunk before. The result starts at the returned offset.
   */
  method AsciiToBin(buf: array<char>, inLen: nat, prevCr: bool) returns (start: nat, stored: nat, lastWasCr: bool)
    requires inLen + 1 <= buf.Length
    modifies buf
    ensures start + stored <= inLen + 1
    ensures buf[start..start + stored] == ChunkOutput(old(buf[1..inLen + 1]), prevCr)
    ensures lastWasCr == EndsInCr(old(buf[1..inLen + 1]))
    ensures forall k | inLen < k < buf.Length :: buf[k] == old(buf[k])
  {
    hide Settled, ChunkOutput, EndsInCr;
    ghost var chunk := buf[1..inLen + 1];
    EndOf(chunk);
    start, stored := CarriedCr(buf, inLen, prevCr);
    var index, out := 0, 1;
    lastWasCr := false;
    ghost var emitted := buf[start..out];
    assert chunk[0..] == chunk;
    while index < inLen
      invariant index <= inLen && start <= out == start + stored <= index + 1
      invariant forall k | index < k <= inLen :: buf[k] == chunk[k - 1]
      invariant forall k | inLen < k < buf.Length :: buf[k] == old(buf[k])
      invariant buf[start..out] == emitted
      invariant emitted + Settled(chunk[index..]) == ChunkOutput(chunk, prevCr)
      invariant lastWasCr == (index == inLen > 0 && chunk[inLen - 1] == CR)
    {
      var theChar := buf[index + 1];
      SettledAt(chunk, index, emitted);
      ghost var kept := Kept(chunk, index);
      if theChar != CR {
        buf[out] := theChar;
        out := out + 1;
        stored := stored + 1;
      } else if index == inLen - 1 {
        lastWasCr := true;
      } else if buf[index + 2] != LF {
        buf[out] := theChar;
        out := out + 1;
        stored := stored + 1;
      }
      emitted := if kept then emitted + [theChar] else emitted;
      hide Kept;
      index := index + 1;
    }
    NothingSettled(emitted);
    assert chunk[index..] == "";
  }

  /** The start of vsf_ascii_ascii_to_bin: the carried CR, if it is due, goes into the headroom. */
  method CarriedCr(buf: array<char>, inLen: nat, prevCr: bool) returns (start: nat, stored: nat)
    requires inLen + 1 <= buf.Length
    modifies buf
    ensures start + stored == 1
    ensures buf[start..1] + Settled(old(buf[1..inLen + 1])) == ChunkOutput(old(buf[1..inLen + 1]), prevCr)
    ensures forall k | 1 <= k < buf.Length :: buf[k] == old(buf[k])
  {
    hide Settled;
    ghost var chunk := buf[1..inLen + 1];
    start, stored := 1, 0;
    if prevCr && (inLen == 0 || buf[1] != LF) {
      buf[0] := CR;
      start, stored := 0, 1;
    }
    HeadStarts(chunk, prevCr, buf[start..1]);
  }

  lemma EndOf(chunk: string)
    ensures EndsInCr(chunk) <==> chunk != "" && chunk[|chunk| - 1] == CR
  {
  }

  lemma HeadStarts(chunk: string, prevCr: bool, head: string)
    requires head == if prevCr && (chunk == "" || chunk[0] != LF) then [CR] else ""
    ensures head + Settled(chunk) == ChunkOutput(chunk, prevCr)
  {
    hide Settled;
  }

  lemma NothingSettled(emitted: string)
    ensures emitted + Settled("") == emitted
  {
    FinalCr("");
    NothingToBin();
  }

  /** Whether the byte at index survives the translation of the chunk, a CR at its end being held back. */
  predicate Kept(chunk: string, index: nat)
    requires index < |chunk|
  {
    !(chunk[index] == CR && (index == |chunk| - 1 || chunk[index + 1] == LF))
  }

  lemma SettledAt(chunk: string, index: nat, emitted: string)
    requires index < |chunk|
    ensures emitted + Settled(chunk[index..])
         == (if Kept(chunk, index) then emitted + [chunk[index]] else emitted) + Settled(chunk[index + 1..])
  {
    SettledStep(chunk[index..]);
    assert chunk[index..][1..] == chunk[index + 1..];
    hide Settled;
    assert forall t: string :: emitted + ([chunk[index]] + t) == (emitted + [chunk[index]]) + t;
  }

  /** vsf_ascii_bin_to_ascii: translate pIn[..inLen] into pOut, which must hold twice as much. */
  method BinToAscii(pIn: array<char>, pOut: array<char>, inLen: nat, prevCr: bool)
    returns (stored: nat, lastWasCr: bool)
    requires pIn != pOut && inLen <= pIn.Length && 2 * inLen <= pOut.Length
    modifies pOut
    ensures stored <= 2 * inLen
    ensures pOut[..stored] == ToAsciiAfter(pIn[..inLen], prevCr)
    ensures lastWasCr == if inLen == 0 then prevCr else EndsInCr(pIn[..inLen])
  {
    hide ToAsciiAfter, AsciiOf;
    ghost var chunk, emitted := pIn[..inLen], "";
    var index := 0;
    stored := 0;
    var lastChar := '\0';
    lastWasCr := false;
    if prevCr {
      lastChar := CR;
      lastWasCr := true;
    }
    assert chunk[0..] == chunk;
    while index < inLen
      invariant index <= inLen && stored <= 2 * index
      invariant lastWasCr == (lastChar == CR) == (if index == 0 then prevCr else pIn[index - 1] == CR)
      invariant pOut[..stored] == emitted
      invariant emitted + ToAsciiAfter(chunk[index..], lastWasCr) == ToAsciiAfter(chunk, prevCr)
    {
      var theChar := pIn[index];
      AsciiAt(chunk, index, emitted, lastWasCr);
      if theChar == LF && lastChar != CR {
        pOut[stored] := CR;
        stored := stored + 1;
        emitted := emitted + [CR];
      }
      pOut[stored] := theChar;
      stored := stored + 1;
      emitted := emitted + [theChar];
      index := index + 1;
      lastChar := theChar;
      if theChar == CR {
        lastWasCr := true;
      } else {
        lastWasCr := false;
      }
    }
    assert chunk[index..] == "" && emitted + ToAsciiAfter("", lastWasCr) == emitted by { AsciiLength("", lastWasCr); }
  }

  lemma AsciiAt(chunk: string, index: nat, emitted: string, prevCr: bool)
    requires index < |chunk|
    ensures emitted + ToAsciiAfter(chunk[index..], prevCr)
         == (if chunk[index] == LF && !prevCr then emitted + [CR] + [LF] else emitted + [chunk[index]])
            + ToAsciiAfter(chunk[index + 1..], chunk[index] == CR)
  {
    assert chunk[index..][1..] == chunk[index + 1..];
    var t := ToAsciiAfter(chunk[index + 1..], chunk[index] == CR);
    assert ToAsciiAfter(chunk[index..], prevCr) == AsciiOf(chunk[index], prevCr) + t;
    hide ToAsciiAfter;
    assert emitted + (AsciiOf(chunk[index], prevCr) + t) == (emitted + AsciiOf(chunk[index], prevCr)) + t;
    assert emitted + [CR] + [LF] == emitted + [CR, LF];
  }

  /** What the file must hold for the bytes received. */
  function Decoded(received: string, isAscii: bool): string {
    if isAscii then ToBin(received) else received
  }

  /** What has been written while a CR may still be held back. */
  function DecodedSoFar(received: string, isAscii: bool): string {
    if isAscii then Settled(received) else received
  }

  /** What the network must carry for the bytes of the file. */
  function Encoded(content: string, isAscii: bool): string {
    if isAscii then ToAscii(content) else content
  }

  /** What the file holds for the bytes received: with or without the CR that may be held back. */
  function Stored(received: string, isAscii: bool, flushed: bool): string {
    if flushed then Decoded(received, isAscii) else DecodedSoFar(received, isAscii)
  }

  predicate HoldsCr(received: string, isAscii: bool) { isAscii && EndsInCr(received) }

  /** The buffer contents written out for one chunk. */
  function Output(chunk: string, isAscii: bool, heldCr: bool): string {
    if isAscii then ChunkOutput(chunk, heldCr) else chunk
  }

  lemma Regroup(a: string, b: string, c: string)
    ensures a + (b + c) == a + b + c
  {
  }

  lemma NothingReceived(isAscii: bool)
    ensures Stored("", isAscii, false) == "" && !HoldsCr("", isAscii)
  {
  }

  /** One round of the receive loop, the flush of a held CR at end of file included. */
  lemma ReceiveStep(received: string, chunk: string, isAscii: bool)
    requires chunk != "" || HoldsCr(received, isAscii)
    ensures Stored(received, isAscii, false) + Output(chunk, isAscii, HoldsCr(received, isAscii))
         == Stored(received + chunk, isAscii, chunk == "")
    ensures HoldsCr(received + chunk, isAscii) == if chunk == "" then true else HoldsCr(chunk, isAscii)
  {
    hide ToBin, ToAscii;
    if chunk == "" {
      assert received + chunk == received;
      FinalCr(received);
      assert Settled(chunk) == "" by { FinalCr(chunk); NothingToBin(); }
      hide Settled;
    } else {
      hide Settled, ChunkOutput;
      SettledConcat(received, chunk);
      assert (received + chunk)[|received + chunk| - 1] == chunk[|chunk| - 1];
    }
  }

  lemma NothingToBin()
    ensures ToBin("") == ""
  {
  }

  lemma StoredBounds(received: string, isAscii: bool, flushed: bool)
    ensures Stored(received, isAscii, false) <= Stored(received, isAscii, flushed) <= Decoded(received, isAscii)
    ensures flushed || !HoldsCr(received, isAscii) ==> Stored(received, isAscii, flushed) == Decoded(received, isAscii)
  {
    FinalCr(received);
  }

  /**
   * do_file_recv. However the network slices the stream, an upload in which no read and no write fails stores the
   * translation of the whole stream and counts the bytes received; -2 tells of a failed read, -1 of a failed write,
   * and then a front of the translation has been stored.
   */
  method DoFileRecv(net: Source, file: Sink, isAscii: bool, transChunkSize: nat)
    returns (ret: TransferRet, ghost received: string)
    modifies net, file
    ensures old(net.rest) == received + net.rest
    ensures ret.transferred == |received|
    ensures ret.retval in {0, -1, -2}
    ensures ret.retval == -2 <==> net.failures > old(net.failures)
    ensures ret.retval == -1 <==> file.failures > old(file.failures)
    ensures ret.retval == 0 ==> net.rest == "" && file.written == old(file.written) + Decoded(received, isAscii)
    ensures ret.retval == -2 ==> old(file.written) + Stored(received, isAscii, false) <= file.written
    ensures old(file.written) <= file.written <= old(file.written) + Decoded(received, isAscii)
  {
    hide Stored, Decoded, HoldsCr, Output;
    var chunkSize := GetChunkSize(transChunkSize);
    var recvBuf := new char[DATA_BUFSIZE + 1];
    var prevCr, transferred := false, 0;
    received := "";
    ghost var flushed, before := false, file.written;
    NothingReceived(isAscii);
    while true
      invariant fresh(recvBuf) && net.failures == old(net.failures) && file.failures == old(file.failures)
      invariant old(net.rest) == received + net.rest
      invariant transferred == |received|
      invariant flushed ==> net.rest == ""
      invariant prevCr == (!flushed && HoldsCr(received, isAscii))
      invariant file.written == before + Stored(received, isAscii, flushed)
      decreases |net.rest|, prevCr
    {
      StoredBounds(received, isAscii, flushed);
      var n := net.Read(recvBuf, 1, chunkSize);
      if n < 0 {
        return TransferRet(-2, transferred), received;
      } else if n == 0 && !prevCr {
        return TransferRet(0, transferred), received;
      }
      ghost var chunk := recvBuf[1..n + 1];
      ReceiveStep(received, chunk, isAscii);
      Regroup(received, chunk, net.rest);
      Regroup(before, Stored(received, isAscii, false), Output(chunk, isAscii, prevCr));
      var writeAt, numToWrite;
      transferred := transferred + n;
      writeAt, numToWrite, prevCr := Translate(recvBuf, n, isAscii, prevCr);
      received := received + chunk;
      flushed := n == 0;
      StoredBounds(received, isAscii, flushed);
      var w := file.WriteLoop(recvBuf, writeAt, numToWrite);
      if w < 0 || w != numToWrite {
        return TransferRet(-1, transferred), received;
      }
    }
  }

  /** The optional ASCII step of the receive loop. */
  method Translate(recvBuf: array<char>, n: nat, isAscii: bool, prevCr: bool)
    returns (writeAt: nat, numToWrite: nat, heldCr: bool)
    requires n + 1 <= recvBuf.Length
    modifies recvBuf
    ensures writeAt + numToWrite <= n + 1
    ensures recvBuf[writeAt..writeAt + numToWrite] == Output(old(recvBuf[1..n + 1]), isAscii, prevCr)
    ensures heldCr == HoldsCr(old(recvBuf[1..n + 1]), isAscii)
  {
    writeAt, numToWrite, heldCr := 1, n, false;
    if isAscii {
      writeAt, numToWrite, heldCr := AsciiToBin(recvBuf, numToWrite, prevCr);
    }
  }

  /** One round of the send loop. */
  lemma SendStep(content: string, chunk: string, isAscii: bool)
    requires chunk != ""
    ensures Encoded(content + chunk, isAscii)
         == Encoded(content, isAscii) + (if isAscii then ToAsciiAfter(chunk, HoldsCr(content, isAscii)) else chunk)
    ensures HoldsCr(content + chunk, isAscii) == HoldsCr(chunk, isAscii) == (isAscii && EndsInCr(chunk))
    ensures !isAscii ==> !HoldsCr(content, isAscii)
  {
    AsciiConcat(content, chunk, false);
    assert (content + chunk)[|content + chunk| - 1] == chunk[|chunk| - 1];
    hide ToAsciiAfter;
  }

  /**
   * do_file_send_rwloop. However the reads slice the file, a download in which no read and no write fails sends the
   * translation of the whole file and counts the bytes sent; -1 tells of a failed read, -2 of a failed write, and then
   * a front of the translation has been sent.
   */
  method DoFileSendRwloop(file: Source, net: Sink, isAscii: bool, transChunkSize: nat)
    returns (ret: TransferRet, ghost content: string)
    modifies file, net
    ensures old(file.rest) == content + file.rest
    ensures ret.retval in {0, -1, -2}
    ensures ret.retval == -1 <==> file.failures > old(file.failures)
    ensures ret.retval == -2 <==> net.failures > old(net.failures)
    ensures ret.retval == 0 ==> file.rest == ""
    ensures ret.retval != -2 ==> net.written == old(net.written) + Encoded(content, isAscii)
    ensures ret.retval != -2 ==> ret.transferred == |Encoded(content, isAscii)|
    ensures old(net.written) <= net.written <= old(net.written) + Encoded(content, isAscii)
    ensures ret.transferred <= |net.written| - |old(net.written)|
  {
    hide Encoded, HoldsCr;
    var chunkSize := GetChunkSize(transChunkSize);
    var readBuf := new char[DATA_BUFSIZE];
    var asciiBuf := new char[2 * DATA_BUFSIZE];
    var prevCr, transferred := false, 0;
    content := "";
    ghost var before := net.written;
    assert Encoded("", isAscii) == "" && !HoldsCr("", isAscii) by { NothingSent(isAscii); }
    while true
      invariant fresh(readBuf) && fresh(asciiBuf) && readBuf != asciiBuf
      invariant net.failures == old(net.failures) && file.failures == old(file.failures)
      invariant old(file.rest) == content + file.rest
      invariant net.written == before + Encoded(content, isAscii)
      invariant transferred == |Encoded(content, isAscii)|
      invariant prevCr == HoldsCr(content, isAscii)
      decreases |file.rest|
    {
      var n := file.Read(readBuf, 0, chunkSize);
      if n < 0 {
        return TransferRet(-1, transferred), content;
      } else if n == 0 {
        return TransferRet(0, transferred), content;
      }
      ghost var chunk := readBuf[..n];
      assert readBuf[0..n] == chunk;
      SendStep(content, chunk, isAscii);
      ghost var output := if isAscii then ToAsciiAfter(chunk, prevCr) else chunk;
      Regroup(content, chunk, file.rest);
      Regroup(before, Encoded(content, isAscii), output);
      hide ToAsciiAfter, EndsInCr;
      content := content + chunk;
      var w, numToWrite;
      w, numToWrite, prevCr := SendChunk(net, readBuf, asciiBuf, n, isAscii, prevCr);
      if w >= 0 {
        transferred := transferred + w;
      }
      if w < 0 || w != numToWrite {
        return TransferRet(-2, transferred), content;
      }
    }
  }

  /** The optional ASCII step of the send loop, and its write. */
  method SendChunk(net: Sink, readBuf: array<char>, asciiBuf: array<char>, n: nat, isAscii: bool, prevCr: bool)
    returns (w: int, numToWrite: nat, heldCr: bool)
    requires 0 < n <= readBuf.Length && 2 * n <= asciiBuf.Length && readBuf != asciiBuf
    modifies net, asciiBuf
    ensures var output := if isAscii then ToAsciiAfter(readBuf[..n], prevCr) else readBuf[..n];
            && numToWrite == |output| && -1 <= w <= numToWrite
            && (0 <= w ==> net.written == old(net.written) + output[..w])
            && old(net.written) <= net.written <= old(net.written) + output
    ensures heldCr == if isAscii then EndsInCr(readBuf[..n]) else prevCr
    ensures net.failures == old(net.failures) + if w != numToWrite then 1 else 0
  {
    hide ToAsciiAfter, EndsInCr;
    heldCr, numToWrite := prevCr, n;
    if isAscii {
      numToWrite, heldCr := BinToAscii(readBuf, asciiBuf, n, prevCr);
      assert asciiBuf[0..numToWrite] == asciiBuf[..numToWrite];
      w := net.WriteLoop(asciiBuf, 0, numToWrite);
      if w >= 0 {
        assert asciiBuf[0..w] == asciiBuf[..numToWrite][..w];
      }
    } else {
      assert readBuf[0..n] == readBuf[..n];
      w := net.WriteLoop(readBuf, 0, numToWrite);
      if w >= 0 {
        assert readBuf[0..w] == readBuf[..n][..w];
      }
    }
  }

  lemma NothingSent(isAscii: bool)
    ensures Encoded("", isAscii) == "" && !HoldsCr("", isAscii)
  {
  }
}
