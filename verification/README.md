# A verified model of vsftpd 3.0.2

This project models the parts of vsftpd that do more than pass data on, and proves what they promise, for all inputs
and all runs. Check it with `dafny verify dfyconfig.toml` (Dafny 4.11). The files follow the program:

- `Strings`: the string helpers of `str.c` that the other modules need.
- `Glob`, `GlobTheorems`: the file-name filter of directory listings, against a meaning of filters that knows no
  search strategy.
- `AsciiCodec`, `DataTransfer`: the two ASCII translations on whole streams, and the loops that apply them in place,
  chunk by chunk.
- `HashTable`: the chained hash table over the heap, against a finite map.
- `LineReader`: the peek-then-consume reader of command lines.
- `AddrParse`, `Ipv6Parse`, `DataPorts`: the address parsers, and what PORT, EPRT, PASV and EPSV make of them.
- `Protocol`, `Alarms`, `Dispatch`, `Session`: the session after login. `Session` is the long-lived object with its
  command loop; SIGALRM and SIGURG handlers run at every point where the code looks for them, and file system,
  network and clock answer as they please. What they may be blamed for is kept in an object of its own, `World`, and
  a session exits only for what has happened there. Each observable step is appended to a trace. `Protocol` holds the
  rules for traces, and what any trace that keeps them is like; every `Session` method proves that they are kept.
  Where the code calls `bug()`, or `die()` for a resource that is already there, the model asserts that the branch
  cannot be reached.
- `SandboxPolicy`, `Supervisor`: the ptrace supervisor, its policy tables, and the traced process under a kernel that
  reports entry and exit of system calls in turn.
- `PasvPort`, `RateLimit`, `DirWriter`, `SecBuf`: the choice of the passive port, the bandwidth limit in exact
  arithmetic, the coalesced output of listings, and buffers between guard pages.

Some promises fail for some inputs; each is stated with the exact condition under which it holds:

- The filter matcher is greedy. Without braces it is right on all names exactly for the filters called `Safe` that fit
  the iteration cap (`GlobTheorems.BraceFreeExactness`); with braces it is right on all names for those
  (`GlobTheorems.SafeFilterDecides`).
- A data timeout ends the session with a 421 unless it strikes while a line is read. That can happen exactly when data
  timeouts are on and either idle timeouts are off or asynchronous ABOR is on (`Alarms.LostTimeoutExactly`): the
  handler shuts the connection that is being read, and the read ends as if the client had left. Under all other
  settings every session that sees a data timeout exits with 421, unless a system call fails; and with asynchronous ABOR
  off so does, under all settings, every session with a transfer that stalled (`Session.Halted`).
- A rejected system call is turned into an exit exactly when both register requests of the kill succeed
  (`Supervisor.KillIsSafeExactly`).
- With a clock that has advanced, the bandwidth limit holds exactly for windows of fewer than 2^32 bytes a second, as
  the rate is kept in 32 bits (`RateLimit.WindowBoundExactly`); 65536 bytes in ten microseconds are too many.
- Guard pages sit at the ends of a buffer exactly when its mapped length fits 32 bits (`SecBuf.EndsAtGuardExactly`).
- Texts of numbers may end in a separator, and an IPv6 text that ends in a double colon yields fewer than 16 bytes;
  both follow the code rather than section 2.2 of RFC 4291.
- EPRT is still served after EPSV ALL, against section 3 of RFC 2428 (`Dispatch.EpsvAllShutsOut`).

System calls that can fail in the code can fail in the model. Numbers are unbounded except where the code's width
shows: `atoi` clamps to a 64-bit long and truncates to a 32-bit int, mapped lengths and rates wrap at 32 bits, system
call arguments are 32-bit words.

## Model

| member | source | states |
|---|---|---|
| Glob.Scan | vsftpd/vsftpd-3.0.2/ls.c:252-361 | over all recursive calls together the shared counter only grows and never passes 1000, and a pass leaves it below 1000: a run that reaches the cap rejects |
| Glob.FilenamePassesFilter | vsftpd/vsftpd-3.0.2/ls.c:222-369 | the loop with its strings, position flag, nested brace loop and recursive calls returns the verdict of the matcher on values and leaves its iteration count in the shared counter |
| GlobTheorems.ScanSound | vsftpd/vsftpd-3.0.2/ls.c:252-361 | in every state of the loop, for every name, filter and counter, a pass implies that the filter denotes the name (after a star: some suffix of it) |
| GlobTheorems.PassesImpliesMatches | vsftpd/vsftpd-3.0.2/ls.c:222-369 | whatever the filter, with any braces, closed or not: every name let through is one the filter denotes |
| GlobTheorems.SafeFilterExact | vsftpd/vsftpd-3.0.2/ls.c:222-369 | on every greedy-safe filter (behind a star: no brace, a star at the end, no literal directly after '?'; no empty brace alternative) any run that stays below the cap decides the name exactly, in both directions |
| GlobTheorems.SafeFilterDecides | vsftpd/vsftpd-3.0.2/ls.c:222-369 | a greedy-safe filter, with or without braces, that by its own text cannot need 1000 iterations lets through exactly the names it denotes |
| GlobTheorems.BraceFreeExactness | vsftpd/vsftpd-3.0.2/ls.c:222-369 | for every filter without '{': the matcher is right on all names if and only if the filter is greedy-safe and needs fewer than 1000 iterations |
| GlobTheorems.UnsafeMissesAName | vsftpd/vsftpd-3.0.2/ls.c:252-361 | every other brace-free filter denotes a name that the matcher rejects, and the lemma builds it (as aba for *a) |
| GlobTheorems.ScanOwnInstance | vsftpd/vsftpd-3.0.2/ls.c:252-361 | the shortest name a brace-free filter denotes is let through if and only if the filter's wildcards and trailing literal fit the iterations left |
| GlobTheorems.IterationsBound | vsftpd/vsftpd-3.0.2/ls.c:252-361 | no name makes a filter use more iterations than are read off its text: one for each wildcard, one for trailing literal text, and for a brace list one and those of its alternatives, each with the tail, up to the first empty one |
| GlobTheorems.EmptyPieceEndsList | vsftpd/vsftpd-3.0.2/ls.c:307-332 | a brace list that starts with an empty alternative rejects every name, although the filter denotes what its tail and its other alternatives denote |
| AsciiCodec.BinOfAscii | vsftpd/vsftpd-3.0.2/ascii.c:12-98 | uploading undoes downloading: toBin(toAscii(s)) = toBin(s) for all s, with a CR before the stream or not |
| AsciiCodec.DownloadThenUpload | vsftpd/vsftpd-3.0.2/ascii.c:12-98 | a file downloaded and uploaded again comes back as it was if and only if it holds no CR LF |
| AsciiCodec.UploadThenDownload | vsftpd/vsftpd-3.0.2/ascii.c:12-98 | toAscii(toBin(s)) = s if and only if s has no bare LF and no CR CR LF |
| AsciiCodec.AsciiHasNoBareLf | vsftpd/vsftpd-3.0.2/ascii.c:56-98 | no download output holds an LF without a CR in front of it |
| AsciiCodec.AsciiFixed | vsftpd/vsftpd-3.0.2/ascii.c:56-98 | the download translation leaves a text alone if and only if it has no bare LF |
| AsciiCodec.AsciiIdempotent | vsftpd/vsftpd-3.0.2/ascii.c:56-98 | translating twice is translating once |
| AsciiCodec.AsciiLength | vsftpd/vsftpd-3.0.2/ascii.c:56-98 | the output is no shorter than the input and at most twice as long, so the send buffer suffices |
| AsciiCodec.BinFixed | vsftpd/vsftpd-3.0.2/ascii.c:12-54 | the upload translation keeps exactly the streams without CR LF and shortens all others |
| AsciiCodec.SettledConcat | vsftpd/vsftpd-3.0.2/ascii.c:12-54 | what one call adds for a chunk, given the one bit carried over, is what the whole-stream translation settles by then: chunk boundaries do not show |
| AsciiCodec.AsciiConcat | vsftpd/vsftpd-3.0.2/ascii.c:56-98 | the download translation of a concatenation is the concatenation of the translations, one bit carried over |
| DataTransfer.AsciiToBin | vsftpd/vsftpd-3.0.2/ascii.c:12-54 | the in-place loop, one byte of headroom before the chunk, leaves exactly the chunk's translation at the returned offset, touches nothing behind the chunk and never writes over bytes it has still to read |
| DataTransfer.BinToAscii | vsftpd/vsftpd-3.0.2/ascii.c:56-98 | the loop fills the output buffer with the translation of the chunk, within twice its length, and reports the carry |
| DataTransfer.DoFileRecv | vsftpd/vsftpd-3.0.2/ftpdataio.c:591-644 | however the network slices the stream, an upload in which no read and no write fails stores the translation of the whole stream, CR LF split between chunks and a final CR included, and counts the bytes received; -2 is returned exactly for a failed read, -1 exactly for a failed write, and then a front of the translation is stored |
| DataTransfer.DoFileSendRwloop | vsftpd/vsftpd-3.0.2/ftpdataio.c:466-534 | however reads slice the file, a download in which no read and no write fails sends the translation of the whole file and counts the bytes sent; -1 is returned exactly for a failed read, -2 exactly for a failed write, and then a front of the translation is sent |
| HashTable.Hash.constructor | vsftpd/vsftpd-3.0.2/hash.c:35-49 | a new table represents the empty map |
| HashTable.Hash.GetNodeByKey | vsftpd/vsftpd-3.0.2/hash.c:131-146 | the walk along a chain finds a node exactly for the keys of the map, with the map's value |
| HashTable.Hash.LookupEntry | vsftpd/vsftpd-3.0.2/hash.c:51-60 | lookup is lookup in the map; bug() exactly when the hash function leaves the bucket range |
| HashTable.Hash.AddEntry | vsftpd/vsftpd-3.0.2/hash.c:62-90 | adding a fresh key adds it to the map and keeps every chain linked; bug() exactly for a present key or a bad bucket, the map unchanged |
| HashTable.Hash.FreeEntry | vsftpd/vsftpd-3.0.2/hash.c:92-118 | removing a present key removes it from the map and nothing else; bug() exactly when it is absent |
| HashTable.Slot.PushFront | vsftpd/vsftpd-3.0.2/hash.c:74-89 | a new head node, linked both ways, adds its entry to the slot's map |
| HashTable.Slot.Remove | vsftpd/vsftpd-3.0.2/hash.c:101-117 | unlinking a head, middle or tail node leaves a well-linked chain that holds all other entries |
| LineReader.StrNetfdAlloc | vsftpd/vsftpd-3.0.2/netstr.c:18-89 | for every slicing of the stream into peeks: the bytes before the first terminator, consumed exactly through it; -1 exactly when the first maxlen bytes hold none; 0 exactly at an earlier end of file; no bug() is reached, and buffer position and space left stay in step |
| LineReader.TakeLine | vsftpd/vsftpd-3.0.2/netstr.c:51-71 | once a chunk shows the terminator, exactly the bytes through it are consumed and the text in front of it returned |
| LineReader.LinesRejoin | vsftpd/vsftpd-3.0.2/netstr.c:18-89 | over repeated calls the lines with their terminators, and the remainder, concatenate to the stream |
| LineReader.LinesOfJoin | vsftpd/vsftpd-3.0.2/netstr.c:18-89 | whatever lines are sent, each shorter than the limit and without terminator, are the lines read |
| AddrParse.ParseUcharStringSep | vsftpd/vsftpd-3.0.2/ipaddrparse.c:68-101 | the loop accepts and returns what the parser on values does |
| AddrParse.AcceptedSpells | vsftpd/vsftpd-3.0.2/ipaddrparse.c:68-101 | an accepted text spells exactly the asked number of fields, each 0 to 255 by atoi |
| AddrParse.SpellingAccepted | vsftpd/vsftpd-3.0.2/ipaddrparse.c:68-101 | conversely every such spelling is accepted and read as the values of its fields |
| AddrParse.TrailingSeparatorUnnoticed | vsftpd/vsftpd-3.0.2/ipaddrparse.c:83-96 | a separator behind the last field goes unnoticed, for every list of fields |
| AddrParse.AtoiDec | vsftpd/vsftpd-3.0.2/ipaddrparse.c:88-92 | atoi reads back every printed int |
| AddrParse.PortReadsPasv | vsftpd/vsftpd-3.0.2/postlogin.c:614-637 | for every address and port the six numbers of a PASV reply, given to PORT, parse to the same four bytes and the same port |
| AddrParse.DottedQuadReads | vsftpd/vsftpd-3.0.2/ipaddrparse.c:61-66 | every dotted quad is read back |
| Ipv6Parse.ParseHex | vsftpd/vsftpd-3.0.2/ipaddrparse.c:134-166 | the loop appends the two bytes of a hexadecimal group, or rejects it |
| Ipv6Parse.HexMeaning | vsftpd/vsftpd-3.0.2/ipaddrparse.c:134-166 | a group is read if and only if it denotes a 16-bit number in hexadecimal, whatever its leading zeros |
| Ipv6Parse.ParseDotquad | vsftpd/vsftpd-3.0.2/ipaddrparse.c:168-219 | the loop appends the four bytes of a dotted quad, or rejects it |
| Ipv6Parse.QuadAccepts | vsftpd/vsftpd-3.0.2/ipaddrparse.c:168-219 | four octets joined by dots are read as their values |
| Ipv6Parse.QuadAccepted | vsftpd/vsftpd-3.0.2/ipaddrparse.c:168-219 | and nothing else is accepted |
| Ipv6Parse.ParseMain | vsftpd/vsftpd-3.0.2/ipaddrparse.c:103-132 | the loop over the groups of one side of the double colon returns the bytes of all groups or rejects |
| Ipv6Parse.MainAccepts | vsftpd/vsftpd-3.0.2/ipaddrparse.c:103-132 | groups joined by colons, a colon behind them tolerated, are read as their bytes |
| Ipv6Parse.MainAccepted | vsftpd/vsftpd-3.0.2/ipaddrparse.c:103-132 | and nothing else is accepted |
| Ipv6Parse.ParseIpv6 | vsftpd/vsftpd-3.0.2/ipaddrparse.c:22-59 | the parser's result is that of the parser on values: split at the first double colon, both sides read, 16 bytes at most, zeros put in if a right side follows |
| Ipv6Parse.CompressedText | vsftpd/vsftpd-3.0.2/ipaddrparse.c:44-57 | groups on both sides of a double colon: it stands for as many zero bytes as are missing provided a group follows it, and for none otherwise, as the code has it and section 2.2 of RFC 4291 does not; more than 16 bytes are rejected |
| Ipv6Parse.Ipv6Accepts | vsftpd/vsftpd-3.0.2/ipaddrparse.c:22-59 | every spelling, groups joined by colons or groups on both sides of one double colon, a colon behind the last group tolerated, is read as what it stands for, and rejected when that is more than 16 bytes |
| Ipv6Parse.Ipv6Accepted | vsftpd/vsftpd-3.0.2/ipaddrparse.c:22-59 | and nothing else is accepted: a text that is read is such a spelling, of at most 16 bytes |
| Ipv6Parse.FullText | vsftpd/vsftpd-3.0.2/ipaddrparse.c:44-57 | any list of groups joined by colons is read in full if it makes at most 16 bytes, else rejected |
| Ipv6Parse.SecondPairRejected | vsftpd/vsftpd-3.0.2/ipaddrparse.c:22-59 | every text with a second double colon is rejected |
| Ipv6Parse.FullRoundTrip | vsftpd/vsftpd-3.0.2/ipaddrparse.c:22-59 | every 16-byte address, written as eight groups or six and a dotted quad (section 2.2 of RFC 4291), is read back |
| Ipv6Parse.CompressedRoundTrip | vsftpd/vsftpd-3.0.2/ipaddrparse.c:22-59 | and so it is with any run of zero groups written as a double colon, as long as a group follows |
| DataPorts.PortTargetOfPasv | vsftpd/vsftpd-3.0.2/postlogin.c:970-980 | a PASV reply, sent back as PORT argument, names the same host, mapped on an IPv6 socket, and port |
| DataPorts.EprtReadsV4 | vsftpd/vsftpd-3.0.2/postlogin.c:1682-1730 | every IPv4 address and port survives the trip through an EPRT argument of section 2 of RFC 2428 |
| DataPorts.EprtReadsV6 | vsftpd/vsftpd-3.0.2/postlogin.c:1682-1730 | any IPv6 text the parser understands is understood in an EPRT argument, with or without a scope |
| DataPorts.ActiveTerminatesExactly | vsftpd/vsftpd-3.0.2/postlogin.c:503-537 | port_active and pasv_active, which call each other, return if and only if PORT and PASV are not both active |
| Alarms.LostTimeoutExactly | vsftpd/vsftpd-3.0.2/ftpdataio.c:197-230 | a data timeout can end the session without the promised 421 exactly when data timeouts are on and either idle timeouts are off or asynchronous ABOR is on |
| Alarms.NextCommandExactly | vsftpd/vsftpd-3.0.2/ftpcmdio.c:162-180 | while the next command is read: a SIGALRM that came in during the lingering close and is served after the reply winds the data alarm up again, which no idle alarm replaces, exactly when data timeouts are on and idle timeouts are off |
| Alarms.UrgentReadExactly | vsftpd/vsftpd-3.0.2/postlogin.c:1375-1390 | while an urgent command is read in mid-transfer: the alarm of the transfer shuts the connection that is being read, exactly when data timeouts are on |
| Alarms.NeverTimesOut | vsftpd/vsftpd-3.0.2/ftpcmdio.c:149-160 | under any other handler than the data alarm no number of alarms times the data connection out |
| Dispatch.EpsvAllShutsOut | vsftpd/vsftpd-3.0.2/postlogin.c:204-326 | after EPSV ALL no command but EPSV and EPRT reaches a handler that sets up a data port; EPRT does exactly when PORT is enabled, which section 3 of RFC 2428 forbids |
| Dispatch.ChangesAreEnabled | vsftpd/vsftpd-3.0.2/postlogin.c:247-346 | (reads the settings back) uploads, logged changes and renames are picked only for listed commands, with write_enable on and, for anonymous users, the setting that covers them on; SITE only for listed commands, never for anonymous users, and whether or not write_enable is on |
| Protocol.Balance | vsftpd/vsftpd-3.0.2/ftpdataio.c:56-106 | in every accepted run data connections are acquired as often as disposed, plus the one open; the same for files and for log entries: each is closed exactly once, as OK, FAIL or cleared |
| Protocol.EveryCommandIsAnswered | vsftpd/vsftpd-3.0.2/postlogin.c:446-454 | a command brought to its end had exactly one completion reply, at most one 150, and exactly one answer to an ABOR if one came in |
| Protocol.CommandCounts | vsftpd/vsftpd-3.0.2/postlogin.c:116-455 | over any accepted run, as many commands are taken up as brought to their end and as completion replies are sent, but for the command under way |
| Protocol.ExitsHaveCauses | vsftpd/vsftpd-3.0.2/ftpcmdio.c:79-92 | the trace of a session that exits names the cause: a failed call, a hang-up, an idle or data timeout, a line too long, a reserved port, or a command answered by 221 (Session.Halted says that it is a real one) |
| Protocol.SuccessIsJustified | vsftpd/vsftpd-3.0.2/postlogin.c:742-777 | a completion reply is 226 if and only if the copy went well, or there was no directory to list, and neither ABOR nor timeout was seen by the time the data connection was reset |
| Protocol.EntriesAgree | vsftpd/vsftpd-3.0.2/logging.c:80-128 | when a command is brought to its end, its log entry agrees with its completion reply: OK only with a code below 400, FAIL only with one of 400 or more, cleared only with a 550 and without a 150 |
| Protocol.NothingEndsAfterTimeout | vsftpd/vsftpd-3.0.2/postlogin.c:450-454 | once the data connection has timed out, no command is brought to its end any more: the session exits |
| Protocol.StalledMeans | vsftpd/vsftpd-3.0.2/ftpdataio.c:197-213 | the flag for a stalled transfer is set exactly by a timeout between the acquisition and the disposal of a data connection |
| Protocol.Discipline | vsftpd/vsftpd-3.0.2/postlogin.c:742-777 | the flags the rules go by are the counts of 150s, completion replies and ABOR answers since the last command |
| Session.Session.ProcessPostLogin | vsftpd/vsftpd-3.0.2/postlogin.c:83-456 | whatever lines come, however handlers interrupt and system calls fail, every run is accepted by the rules of Protocol and no bug() and no die() on a resource already there is reached; unless the session exits, exactly as many commands are taken up, answered by one completion reply and ended as there are lines that are not blank, and no data connection, file, log entry or ABOR is left open; if it exits, then because a call did fail, the client did hang up or send too long a line, SIGALRM did come in, or by QUIT or on a reserved port; a transfer that stalled has been answered with 421 unless asynchronous ABOR is on, and so has every data timeout outside the settings under which one can be lost |
| Session.Session.Turn | vsftpd/vsftpd-3.0.2/postlogin.c:116-455 | a line that is not blank raises the number of commands taken up by one and is answered with a completion reply of its kind (section 5.4 of RFC 959), or the session exits for a real cause; a blank line raises nothing; QUIT exits; EPSV ALL stays in force, and under it PASV and PORT leave listening socket and target alone |
| Session.Session.Bottom | vsftpd/vsftpd-3.0.2/postlogin.c:446-454 | a pending log entry is closed as failed, and a data timeout ends the session with 421, unless writing fails, and nothing else does; the reply given stands |
| Session.Session.HandleSigalrm | vsftpd/vsftpd-3.0.2/ftpdataio.c:197-213 | the alarm handler, idle or data, serves a waiting alarm as the handler in place prescribes, changing alarm, progress, timeout and idle flags and nothing else; a timeout is noted only under the data alarm |
| Session.Session.HandleSigurg | vsftpd/vsftpd-3.0.2/postlogin.c:1375-1416 | an out-of-band command is read only while there is a data connection; an ABOR is always taken in; nothing but an ABOR, a timeout or an extra 500 can be added |
| Session.Session.CheckPending | vsftpd/vsftpd-3.0.2/sysutil.c:149-180 | after any system call handle_sigalrm is served first: a timeout is the first thing on the trace; then handle_sigurg, not inside itself and only if urgent data came in, without which alarm, flags and trace are exactly those handle_sigalrm leaves; without a data connection the handlers cannot end the session |
| Session.Session.CmdioWrite | vsftpd/vsftpd-3.0.2/ftpcmdio.c:48-53 | the reply is the next thing seen, or the process dies because the write failed; handlers may follow |
| Session.Session.ReadLine | vsftpd/vsftpd-3.0.2/ftpcmdio.c:162-180 | the session ends here only by a read that failed, a line that was too long, an idle timeout that struck or a client that hung up; outside the settings under which it can be lost never with a data timeout unanswered |
| Session.Session.PortActive | vsftpd/vsftpd-3.0.2/postlogin.c:503-516 | terminates, because PORT and PASV exclude each other, and tells whether PORT is active |
| Session.Session.PasvActive | vsftpd/vsftpd-3.0.2/postlogin.c:518-538 | terminates, likewise, and tells whether PASV is active |
| Session.Session.InitDataSockParams | vsftpd/vsftpd-3.0.2/ftpdataio.c:232-247 | takes over a connection only when there is none, with no I/O handler installed, progress cleared and the data alarm started |
| Session.Session.DisposeTransferFd | vsftpd/vsftpd-3.0.2/ftpdataio.c:55-107 | closes a connection that is there and reports success if and only if there was neither ABOR nor timeout; the alarm is wound up only for a close that lingers, and cleared afterwards |
| Session.Session.GetFtpPortSock | vsftpd/vsftpd-3.0.2/privops.c:34-97 | no listening socket is open; the process exits on a reserved port, which it can meet only under port_promiscuous; else it passes on what connecting returned |
| Session.Session.GetRemoteTransferFd | vsftpd/vsftpd-3.0.2/postlogin.c:1418-1446 | needs exactly one of PORT and PASV, as its callers have checked; sends 150 exactly when a connection came about, else answers 425 |
| Session.Session.CheckAbor | vsftpd/vsftpd-3.0.2/postlogin.c:1448-1457 | answers an ABOR, once, after the completion reply |
| Session.Session.DataTransferChecksOk | vsftpd/vsftpd-3.0.2/postlogin.c:1888-1894 | passes if and only if PORT or PASV is active, else answers 425 |
| Session.Session.Announce | vsftpd/vsftpd-3.0.2/postlogin.c:754-774 | 451, 426 or 226 as the transfer returned -1, -2 or 0; only the 426 may be left out, after a timeout |
| Session.Session.HandleRetr | vsftpd/vsftpd-3.0.2/postlogin.c:640-783 | refuses without PORT or PASV, and any restart of an ASCII transfer, before a log entry is made; then reply, 150 and log entry are those of what file system and network answered: 550, 425, or the transfer's code, OK in the log exactly for a clean one, cleared for a directory; after a 150 PORT and PASV are both spent; REST is used up |
| Session.Session.HandleUploadCommon | vsftpd/vsftpd-3.0.2/postlogin.c:1006-1164 | STOR, APPE and STOU: the same, with 550 or 553 when the file cannot be had |
| Session.Session.HandleDirCommon | vsftpd/vsftpd-3.0.2/postlogin.c:791-937 | LIST and NLST: the same without a log entry, with 226 also when there is no directory to list; STAT of a path is answered 550 if forbidden, else 213, on the control connection, and leaves PORT and PASV alone |
| Session.Session.HandleLogged | vsftpd/vsftpd-3.0.2/postlogin.c:1166-1254 | MKD, RMD, DELE (and SITE CHMOD): the success code and an entry closed as OK exactly when the operation was allowed and went well, else 550 and an entry left for failure |
| Session.Session.HandleRnfr | vsftpd/vsftpd-3.0.2/postlogin.c:1271-1302 | a name is remembered, without an entry, and 350 sent exactly when it may be used and exists; else 550 and an entry left for failure |
| Session.Session.HandleRnto | vsftpd/vsftpd-3.0.2/postlogin.c:1304-1344 | 503 without a RNFR; else 250 and an entry closed as OK exactly when the rename went well; the name is used up unless the target was not allowed |
| Session.Session.HandlePasv | vsftpd/vsftpd-3.0.2/postlogin.c:559-637 | the reply code is determined by the argument; 227 and 229 mean a listening socket and no PORT target, other replies leave both as they were; EPSV ALL sets its flag for good |
| Session.Session.HandlePort | vsftpd/vsftpd-3.0.2/postlogin.c:962-998 | the target kept is the one the argument spells if it is the client's own host and no reserved port (or port_promiscuous is on), else none; 200 exactly when one is kept; PASV is off |
| Session.Session.HandleEprt | vsftpd/vsftpd-3.0.2/postlogin.c:1668-1748 | the target kept is the one read from the EPRT argument, on the same conditions, else none; 200 exactly when one is kept; PASV is off |
| Session.Session.HandleType | vsftpd/vsftpd-3.0.2/postlogin.c:939-960 | 200 exactly for the known types, which set the mode; 500 for all others, which leave it |
| Session.Session.HandleRest | vsftpd/vsftpd-3.0.2/postlogin.c:1255-1269 | the position kept is the one given, or 0 for a negative one |
| Session.Session.HandleSite | vsftpd/vsftpd-3.0.2/postlogin.c:1489-1522 | each word has its code; a log entry is made only for a CHMOD with a file name under write_enable and chmod_enable, and closed as OK exactly when the operation was allowed and went well, else left for failure |
| SandboxPolicy.VerdictIsApproval | vsftpd/vsftpd-3.0.2/ptracesandbox.c:593-657 | get_action's tests let a call through if and only if it has a 32-bit code segment, a number in range that is allowed, and an accepting validator |
| Supervisor.Sandbox.PermitOpen | vsftpd/vsftpd-3.0.2/ptracesandbox.c:762-774 | open is allowed with the validator for reading or for writing, and nothing else changes |
| Supervisor.Sandbox.PermitFcntl | vsftpd/vsftpd-3.0.2/ptracesandbox.c:827-834 | both fcntl calls are allowed with their validator, and nothing else changes |
| Supervisor.Sandbox.PermitSocketcall | vsftpd/vsftpd-3.0.2/ptracesandbox.c:935-947 | permitting a sub-call installs the socketcall validator with it, changes nothing else, and so keeps the tables guarded |
| Supervisor.Sandbox.GetAction | vsftpd/vsftpd-3.0.2/ptracesandbox.c:593-657 | the answer is the verdict on the call the child is stopped at, or, exactly when PTRACE_GETREGS was refused, an error; the copy of the registers is wiped |
| Supervisor.Sandbox.HandleEvent | vsftpd/vsftpd-3.0.2/ptracesandbox.c:345-393 | the entry/exit bit stays in phase with the child; a call is resumed only if approved; a negative answer means a rejected call, a refused request or an odd status; SIGSTOP and SIGCONT become SIGKILL, other signals pass |
| Supervisor.Sandbox.KillProcesses | vsftpd/vsftpd-3.0.2/ptracesandbox.c:426-471 | both register requests are made, the second if the first is granted, before the child is shot; the call the child is stopped at still executes, as exit_group if both were granted and as it was if not |
| Supervisor.Sandbox.RunProcesses | vsftpd/vsftpd-3.0.2/ptracesandbox.c:395-424 | over the whole run every executed call was approved, a socketcall for an allowed and accepted sub-call, but for at most one after them: the one the child is killed at, which is exit_group unless the kernel refused a register request; the child is killed only after a rejected call, a refused request, a failed wait or an odd status, and watched as long as none of these comes; no SIGSTOP or SIGCONT reaches it |
| Supervisor.KillIsSafeExactly | vsftpd/vsftpd-3.0.2/ptracesandbox.c:436-458 | the forced exit is certain, whatever call was rejected, if and only if both register requests succeed |
| Supervisor.Child.NextStop | vsftpd/vsftpd-3.0.2/ptracesandbox.c:374-391 | the assumption on the kernel: entry and exit stops alternate, other stops leave the phase alone |
| PasvPort.RangeIsSound | vsftpd/vsftpd-3.0.2/privops.c:124-142 | legal settings are followed exactly, and for every setting 1024 <= min <= max <= 65535 |
| PasvPort.ScaledIsQuotient | vsftpd/vsftpd-3.0.2/privops.c:148-154 | the real-number scaling is integer division |
| PasvPort.ScaledInRange | vsftpd/vsftpd-3.0.2/privops.c:148-154 | every 16-bit draw lands in the range |
| PasvPort.DrawsAreEven | vsftpd/vsftpd-3.0.2/privops.c:148-154 | every port of a range of w ports is drawn by 65536/w draws, rounded down or up |
| PasvPort.Listener.PasvListen | vsftpd/vsftpd-3.0.2/privops.c:119-189 | gives up only after nine attempts or an error other than a port in use or forbidden; every retried socket is closed; on return exactly one socket is open, listening on the port returned, which the last draw made |
| RateLimit.Bandwidth.HandleIo | vsftpd/vsftpd-3.0.2/ftpdataio.c:249-294 | the window start moves as the closed form says, and progress is noted exactly for bytes moved on the data connection |
| RateLimit.RateIsTrue | vsftpd/vsftpd-3.0.2/ftpdataio.c:269-279 | the truncated rate times the time is at most the bytes, and one more is above |
| RateLimit.WindowBound | vsftpd/vsftpd-3.0.2/ftpdataio.c:268-293 | below 2^32 bytes a second (a premise that WindowBoundExactly shows to be needed) every window moves less than (limit + 1) times its time, however long it is overslept, and a stretched one that is not overslept at least the limit times its time |
| RateLimit.RunBound | vsftpd/vsftpd-3.0.2/ftpdataio.c:249-294 | the bytes of any run of consecutive such windows stay below (limit + 1) times the whole time |
| RateLimit.WindowBoundExactly | vsftpd/vsftpd-3.0.2/ftpdataio.c:249-294 | with a clock that has advanced, a window moves less than (limit + 1) times its time, however long it is overslept, if and only if fewer than 2^32 bytes a second were moved |
| RateLimit.RunBoundExactly | vsftpd/vsftpd-3.0.2/ftpdataio.c:249-294 | with a clock that advances and pauses of the length asked for, every run of consecutive windows is within the limit if and only if every single window is below 2^32 bytes a second |
| RateLimit.FullBufferOver | vsftpd/vsftpd-3.0.2/ftpdataio.c:268-279 | a full buffer of 65536 bytes moved in ten microseconds is over every limit |
| RateLimit.StalledClock | vsftpd/vsftpd-3.0.2/ftpdataio.c:272-284 | with a clock that has not advanced, no call that is not slowed down is within any limit |
| DirWriter.WriteDirList | vsftpd/vsftpd-3.0.2/ftpdataio.c:406-440 | the loop makes exactly the writes the greedy cuts prescribe, in order, and returns 0, or a front of them and returns 1 exactly when a write failed |
| DirWriter.WritesConcat | vsftpd/vsftpd-3.0.2/ftpdataio.c:406-440 | the writes concatenate to the entries in order |
| DirWriter.CutsPack | vsftpd/vsftpd-3.0.2/ftpdataio.c:420-424 | every write fits the buffer of 16384 bytes or is a single entry |
| DirWriter.EndFromFits | vsftpd/vsftpd-3.0.2/ftpdataio.c:420-424 | a write ends only at the last entry or where the next one would not fit |
| DirWriter.CutsAreFewest | vsftpd/vsftpd-3.0.2/ftpdataio.c:406-440 | no way of dividing the listing into writes that fit needs fewer writes |
| SecBuf.EndsAtGuardExactly | vsftpd/vsftpd-3.0.2/secbuf.c:28-59 | the buffer starts behind the first guard page and ends exactly at the last one if and only if the length does not wrap in 32 bits |
| SecBuf.BaseRecovered | vsftpd/vsftpd-3.0.2/secbuf.c:75-81 | for every size, 0 included, the mapping is recovered from the buffer's address alone |
| SecBuf.Memory.Alloc | vsftpd/vsftpd-3.0.2/secbuf.c:17-61 | frees what was there, and leaves a mapping of its own with inaccessible first and last page and the buffer ending at the last; other mappings stay as they are; dies exactly when the system refuses the mapping |
| SecBuf.Memory.Free | vsftpd/vsftpd-3.0.2/secbuf.c:64-88 | unmaps exactly the mapping made for the buffer, by the length noted in it, and nothing else |

## Left out

- GlobTheorems.BraceFreeExactness: says nothing of filters with braces; for those soundness holds throughout, and
  exactness on the filters called Safe, because what an empty alternative or a greedy choice inside a list loses
  depends on the names.
- HashTable.Hash.LookupEntry: returns the value; the code returns a pointer through which callers may change it.
- HashTable.Hash.constructor: the hash function is a pure function, as ip_hash and pid_hash of the code are.
- LineReader.StrNetfdAlloc: counts bytes as the code does, within the last chunk, not over the whole line.
- DataTransfer.DoFileRecv: one call to `recv` is any non-empty front of what the network still has to deliver.
- Session.Session.HandleUploadCommon: opening mode, chown, locking, truncation, seeking and deletion of failed uploads
  are not part of the model, only that one file is opened and closed.
- Session.Session.HandleRetr: what is sent is the business of DataTransfer; the session sees its return value only.
- Session.Session.CopyData: sendfile is not modelled beyond its return value.
- Session.Session.Turn: which of its codes a command gets depends on what file system and network answer; the handlers'
  contracts take these answers as arguments.
- Session.Session.HandleEprt: the bytes that a short IPv6 text leaves unset are an argument.
- Session.Session.PasvListen: any port from 1024; PasvPort models the choice.
- Session.Session.ProcessPostLogin: runs for a given number of commands, any number; the code loops for ever.
- Supervisor.Sandbox.RunProcesses: handles a given number of events, any number; a SIGKILL from outside, which lets a
  call that is stopped at its entry execute, is not modelled except as part of the supervisor's own kill.
- Supervisor.Child.NextStop: fork, vfork and clone events count as the signal stops they look like to the code.
- SandboxPolicy.Valid: validators given from outside are functions of the registers; they do not read the child's
  memory.
- PasvPort.Listener.PasvListen: a failing socket() ends the process and is not shown.
- RateLimit.WindowBoundExactly: the first window of a transfer starts with the session; clocks that stand still are left
  to StalledClock; double rounding is not modelled.
- RateLimit.RunBoundExactly: its exact form takes pauses of the length asked for, since oversleeping can make up for a
  window that is over the limit.
- DirWriter.WriteDirList: entries are not empty, as each line of a listing ends in CR LF; the code would take a write
  of nothing for a bug.
- SecBuf.Memory.Alloc: sizes that wrap are excluded; EndsAtGuardExactly says what happens to them.
- cmds_allowed and cmds_denied: their verdict on a command is an input.
- SSL, which builddefs.h switches off, and with it PBSZ, PROT and the handshake after the 150.
- HTTP, login, PAM, credentials, capabilities and the seccomp sandbox.
- The two-process model: the privileged parent's services are taken as the one-process calls they mirror.
- Message texts, banners, log line formats, `ls -l` formats, process titles, the configuration parser.
- ptrace_sandbox_get_buf, and launching the child.
- The other programs of the repository: USB, PHY, I2C and backlight tools are ioctl and libusb plumbing.
