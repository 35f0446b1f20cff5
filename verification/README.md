# Prometeo: a verified model

Prometeo is a modular proxy. This project models the part of it that parses, keeps and schedules, and
proves what that code is for: what every step keeps, and what whole runs, whatever their order, end in.

| component | values and theorems | fields and loops |
|---|---|---|
| chunked transfer coding, header lines | `ChunkedTransfer`, `ChunkDecoder`, `ChunkStreams`, `HeaderSplit` | `Http` |
| intrusive lists, string hash | `HashTable` | `LinkedList`, `StrHash` |
| DNS cache | `DnsTable`, `DnsLedger` | `DnsCache` |
| descriptor dispatch | first half of `IODispatcher` | second half of `IODispatcher` |
| write-behind files, socket sends | `WriteBehind`, `Socket` | `File`, `Socket` |
| worker processes | `ProcessQueue`, `ProcessLedger` | `ProcessGroup` |
| HTTP object cache and its index | `CacheTable`, `CacheRefs`, `IndexFile` | `Cache` |
| MD5, URLs, Base64 | `Md5Words`, `Md5Laws`, `Md5Spec`, `Md5Transform`, `Md5Stream`, `Md5Vector`, `UrlCodec`, `Base64` | `Md5`, `Url`, `CBuffer`, `Base64`, `Bits` |

Each component is written twice. A class or method has the fields, branches and loops of the original and
is proved to compute a function of its old state; the theorems are about that function. What a kernel call
returns, the clock, and what a callback does are parameters over which every theorem quantifies. `Bytes` and
`CString` hold what the codecs share. `dafny verify dfyconfig.toml` checks everything.

## What the code does that its callers may not expect

Each is a theorem, with the exact condition or a concrete input.

- The footer scan does not step past the line feed of a line that is not empty, so a transfer with trailers
  is reported done at the first of them, however it is cut, with its payload whole
  (`FragmentationIndependence`, `ClosedEarlyIff`, `TrailerStopsEarly`).
- Offset + len is a 32-bit sum; where it wraps, the end of a chunk is missed. The data is right after every
  fragment if and only if it never does, and with chunks of at most 2^31 bytes it never does
  (`RightIffUnwrapped`, `ShortIsUnwrapped`, `WrapMissesChunkEnd`).
- The fast form of Dispatch looks at a byte of the ready set only as far as MaxFD reaches when it gets there
  and can miss what a handler registers meanwhile. It agrees with the plain loop for every handler if and
  only if no ready descriptor can be missed so: with all of them below MaxFD, if and only if no registered one
  precedes a byte with two (`FastIsPlainIff`, `FastIsPlainBelowIff`, `RaisingHandlerIsMissed`). A handler that
  registers only descriptors that are not ready is never affected, however far it raises MaxFD (`FastIsPlain`).
- Registering a fresh descriptor without flags breaks the table (`AddKeepsInvIff`, `AddedWithoutFlags`).
- When several callers wait for one host, only the address of the last to register is filled in
  (`AddressesFilledIff`, `SecondWaiterNotFilled`).
- A socket forgets that it is sending when a connection is made, or fails, with bytes queued, and on a read
  error; the next AsyncSend then throws away what is left in the buffer. So do a timeout and a failed send(),
  and nothing else does (`RunConservesIff`, `StrandedIff`, `QueuedBeforeConnectedIsLost`, `ReadErrorLosesIff`).
- FlushWriteBuffers writes from the tail: with two or more buffers waiting the order can be lost
  (`BackwardsKeepsOrderIff`), and one deferred write is enough for it (`FlushAfterDeferredWrite`); without
  deferred or failed writes there never are two (`RunKeepsInv`).
- Two things leave a worker process busy for ever: an error on its socket, and a signal that interrupts a
  read made at once, after a hand-out or a piece of an answer, and not on an event. A busy worker is never
  read from again exactly when one of them was the last thing read from it (`CutIff`, `ComesFreeIff`,
  `FailureIsForGood`, `InterruptedIsForGood`, `OneFailureBlocks`). A request
  that was handed out has been called back unless its worker crashed, was cut short by a signal, or is still
  read from (`EveryRequestAccounted`).
- An object created under an id that is there already is counted and listed, but not found by the id
  (`CreateKeepsUniqueIff`).
- A port of more than six characters, which decoding lets in, overruns the buffer it is printed into; port 0 is
  not printed; and a host part with an @ survives encoding only behind a user (`RoundTripIff` in `UrlCodec`,
  `LongPortOverruns`, `PortZeroIsLost`).
- Base64Decode with a size of zero or less has no limit at all (`EnoughRoom`).

## Model

| member | source | states |
|---|---|---|
| ChunkDecoder.Refines | src/mod_http/http.cpp:774-896 | on any well-formed stream, with chunks of up to 2^32 - 1 bytes and with trailers or without, one call, whatever the fragment holds and as long as Offset + len does not wrap, adds exactly the payload bytes of the reference automaton to Data and says done exactly when the automaton is at its end or past the first trailer line |
| ChunkDecoder.PassRefines | src/mod_http/http.cpp:787-893 | one pass over any fragment of a well-formed stream that does not wrap Offset + len consumes a prefix of it just as the byte-at-a-time coding does |
| ChunkDecoder.SizeLineRead | src/mod_http/http.cpp:862-877 | a size line is read right, up to 2^32 - 1, although the buffer also holds the bytes after it and the line end before it |
| ChunkStreams.FragmentationIndependence | src/mod_http/http.cpp:774-896 | any cut of a well-formed stream into non-empty fragments, none of which wraps Offset + len, yields the same payload, and done comes in the fragment with the line feed that closes the transfer: that of the last line, or of the first trailer line if there is one |
| ChunkStreams.ClosedEarlyIff | src/mod_http/http.cpp:820-858 | a complete transfer is closed before its last byte if and only if it has trailers |
| ChunkStreams.NotDoneBefore | src/mod_http/http.cpp:774-896 | when all but the last byte of a stream do not close the transfer, no earlier run of fragments does |
| ChunkStreams.RoundTrip | src/mod_http/http.cpp:707-734 | what is sent piece by piece and closed by an empty piece decodes, under any cut, to the concatenation of the pieces |
| ChunkStreams.SizedRoundTrip | src/mod_http/http.cpp:774-896 | the same for any size lines that denote the lengths of the pieces, in digits of either case, with leading zeros or not |
| ChunkStreams.EitherCase | src/mod_http/http.cpp:868-872 | size lines that are what "%x" prints but for the case of their digits denote the lengths |
| ChunkStreams.EncodeReads | src/mod_http/http.cpp:707-734 | the reference automaton reads the encoded pieces as their concatenation and ends just on the final line feed |
| ChunkStreams.DoneOnLastByteIffNoTrailers | src/mod_http/http.cpp:820-858 | a complete transfer fed byte by byte is reported done by its last byte if and only if it has no trailer line, and its payload is whole either way |
| ChunkStreams.TrailerStopsEarly | src/mod_http/http.cpp:820-858 | a transfer of ten bytes with one trailer line is reported done after eight |
| ChunkStreams.RightIffUnwrapped | src/mod_http/http.cpp:774-896 | for any stream with chunks that 32 bits can count, and any cut of it: the data is right after every fragment if and only if no fragment arrives in a chunk with Offset + len at 2^32 or more |
| ChunkDecoder.RefinesIff | src/mod_http/http.cpp:787-811 | the same for one call |
| ChunkStreams.ShortIsUnwrapped | src/mod_http/http.cpp:787-811 | no cut of a stream whose chunks are of at most 2^31 bytes has such a fragment |
| ChunkStreams.WrapMissesChunkEnd | src/mod_http/http.cpp:787-811 | a size line of eight F, and three bytes when one is due: all three are taken for data |
| Bytes.ScanHexReads | src/mod_http/http.cpp:868-872 | scanning hexadecimal digits after white space gives their number, whatever follows them |
| Bytes.DigitValue | src/mod_http/http.cpp:868-872 | the digits 0 to 9, A to F and a to f have the values 0 to 15 |
| Bytes.OnlyDigits | src/mod_http/http.cpp:868-872 | and there are no others |
| Bytes.HexPositions | src/mod_http/http.cpp:868-872 | a digit is worth 16 to the number of digits after it |
| Bytes.ScanHexAnyCase | src/mod_http/http.cpp:868-872 | what "%x" prints, with its digits in either case, reads as the number again, whatever is around it |
| Bytes.ScanHexSigned | src/mod_http/http.cpp:868-872 | a sign and a 0x before the digits are read too, and a minus sign counts modulo 2^32 |
| Bytes.PrintHex | src/mod_http/http.cpp:707-712 | what "%x" prints: only hexadecimal digits, with no leading zero, whose number is the argument |
| Bytes.PrintedDigit | src/mod_http/http.cpp:707-712 | digit k from the right is the lower-case digit of n / 16^k modulo 16 |
| Bytes.PutDigit | src/prometeo/file.cpp:183-208 | byte i of a stored number is n / 256^i modulo 256 |
| Http.HTTP.DecodeChunkedData | src/mod_http/http.cpp:774-896 | one call leaves in Data, TmpBuf, Size, Offset and the flags what the decoder that Refines is about leaves, recursion and all, and ends on shorter data |
| Http.HTTP.DecodeBody | src/mod_http/http.cpp:787-811 | the branch for chunk data |
| Http.HTTP.DecodeFooter | src/mod_http/http.cpp:813-856 | the branch that looks for an empty line |
| Http.HTTP.DecodeSizeLine | src/mod_http/http.cpp:858-893 | the branch for a size line |
| Http.FindEmptyLine | src/mod_http/http.cpp:824-856 | the scan finds the first line feed, and counts it twice when its line is not empty |
| Http.HTTP.SendBodyData | src/mod_http/http.cpp:663-734 | without filters and compression a piece leaves as one chunk, or as it is before HTTP/1.1 |
| Http.HTTP.SendBody | src/mod_http/http.cpp:663-734 | pieces and a final empty piece leave as the encoded body |
| HeaderSplit.SplitIndependence | src/mod_http/http.cpp:129-186 | any cut of the input hands the same lines to the parsers, and Data with the unfed fragments is what follows the header |
| HeaderSplit.AddHeaderReads | src/mod_http/http.cpp:129-186 | one call reads its fragment as the byte-at-a-time splitter does |
| HeaderSplit.HeaderReads | src/mod_http/http.cpp:143-176 | a header written line by line, each ended by CR LF or LF, hands exactly its lines over, in order and without their ends, and leaves what follows its empty line |
| HeaderSplit.UnknownMethodReads | src/mod_http/http.cpp:152-158 | a first line with no known method ends the header, alone |
| HeaderSplit.ParseMethodReads | src/mod_http/http.cpp:188-242 | a first line that starts with HTTP/ is a response, and otherwise the method is one of the known ones exactly when that is its first word |
| Http.HTTP.AddHeaderData | src/mod_http/http.cpp:129-186 | one call leaves in TmpBuf and Data what the splitter of SplitIndependence leaves, and passes the same lines on |
| Http.HTTP.EndOfLine | src/mod_http/http.cpp:143-176 | a whole line goes to the parser it is for, without its carriage return |
| LinkedLists.LinkedListNode.Unlink | src/include/linkedlist.h:37-44 | a node takes itself out of its neighbours and is free |
| LinkedLists.LinkedList.AddHead | src/prometeo/linkedlist.cpp:42-52 | in any well-formed ring: the node is first, once, the others keep their order, and the list it was in, this one or another, has lost it |
| LinkedLists.LinkedList.AddTail | src/prometeo/linkedlist.cpp:54-64 | the node is last, once, and the list it was in has lost it |
| LinkedLists.LinkedList.Leave | src/include/linkedlist.h:37-44 | a node leaves a ring without knowing which |
| LinkedLists.LinkedList.RemHead | src/prometeo/linkedlist.cpp:66-78 | the first node leaves; null if and only if there is none |
| LinkedLists.LinkedList.RemTail | src/prometeo/linkedlist.cpp:80-92 | the last node leaves; null if and only if there is none |
| LinkedLists.LinkedList.Detach | src/include/linkedlist.h:37-44 | unlinking any node of the list keeps the ring well formed and the others in order |
| LinkedLists.LinkedList.Count | src/prometeo/linkedlist.cpp:94-106 | the number of nodes |
| LinkedLists.RingCut | src/include/linkedlist.h:37-44 | a ring without one node is a ring |
| HashTables.HashIgnoresCase | src/prometeo/strhash.cpp:58-66 | keys equal but for case have the same hash modulo 2^32 |
| HashTables.CodeIs | src/prometeo/strhash.cpp:58-66 | the code of a string is its folded characters as digits to the base 32, modulo 2^32 |
| CStrings.FoldsLetters | src/prometeo/strhash.cpp:58-66 | A to Z fold to a to z, and nothing else folds |
| HashTables.RunRefines | src/prometeo/strhash.cpp:82-138 | after any run of Add, Replace and Remove the table finds exactly what a map with case-folded keys holds |
| HashTables.ApplyRefines | src/prometeo/strhash.cpp:82-127 | each operation refines that of the map |
| HashTables.FindAfter | src/prometeo/strhash.cpp:68-127 | what is found for every key after each operation |
| HashTables.CountAfter | src/prometeo/strhash.cpp:82-127 | NumItems grows by one for a new key and shrinks by one for a removed one |
| HashTables.EnumerationDistinct | src/prometeo/strhash.cpp:140-166 | GetData over 0..NumItems-1 meets no key twice |
| HashTables.EnumerationIsMap | src/prometeo/strhash.cpp:140-166 | GetData over 0..NumItems-1 meets exactly the entries of the map, NumItems of them |
| HashTables.Locate | src/prometeo/strhash.cpp:140-166 | where entry number i sits, without leaving the array of lists |
| HashTables.RemoveKeepsInv | src/prometeo/strhash.cpp:112-127 | every item stays in the bucket of its hash and no key is doubled |
| StrHashes.StrHash.ComputeHash | src/prometeo/strhash.cpp:58-66 | the loop computes the hash function |
| StrHashes.StrHash.Find | src/prometeo/strhash.cpp:68-80 | the node of the key, or null |
| StrHashes.StrHash.FindData | src/prometeo/strhash.cpp:129-138 | the data of the key |
| StrHashes.StrHash.Add | src/prometeo/strhash.cpp:82-99 | on the heap: rings stay well formed and disjoint, the table changes as Add says, true only for a new key |
| StrHashes.StrHash.Replace | src/prometeo/strhash.cpp:101-110 | a known key has its data replaced in place, a new one is added |
| StrHashes.StrHash.Remove | src/prometeo/strhash.cpp:112-127 | the item of the key, if any, leaves its ring |
| StrHashes.StrHash.GetData | src/prometeo/strhash.cpp:140-166 | the entry of that number in the enumeration |
| DnsTables.ReachedIsSound | src/prometeo/dnscache.cpp:125-292 | in every reachable state, with callbacks interleaved with anything: slots and hash agree, no host is cached and pending, a hit is the last answer, and each waiter registered = fired + cancelled + waiting |
| DnsTables.ApplyKeepsInv | src/prometeo/dnscache.cpp:125-389 | every operation keeps the agreement of slots, hash and waiters |
| DnsTables.ApplyConserves | src/prometeo/dnscache.cpp:161-292 | every operation keeps registered = fired + cancelled + waiting, for every waiter |
| DnsTables.ResizeKeepsInv | src/prometeo/dnscache.cpp:349-376 | moving the slots into a ring of another size keeps the agreement |
| DnsTables.HitIsLastAnswer | src/prometeo/dnscache.cpp:137-151 | in every reachable state a hit returns the last answer stored for the host |
| DnsTables.HostsDistinct | src/prometeo/dnscache.cpp:125-159 | in every reachable state no two slots hold the same host |
| DnsTables.FoundAfterCache | src/prometeo/dnscache.cpp:125-135 | after an answer its host is found, and only the host of the reused slot is lost |
| DnsTables.FoundAfterFlush | src/prometeo/dnscache.cpp:381-389 | flushing loses exactly the expired hosts |
| DnsTables.FoundAfterResize | src/prometeo/dnscache.cpp:349-376 | resizing keeps exactly the hosts in slots that still exist |
| DnsTables.AnswerFiresChain | src/prometeo/dnscache.cpp:249-292 | an answer calls each waiter of its host once, in chain order |
| DnsTables.CancelConserves | src/prometeo/dnscache.cpp:220-247 | a cancel takes exactly one matching waiter out, wherever it is in the chain |
| DnsTables.AddressesFilledIff | src/prometeo/dnscache.cpp:262-286 | in what an answer adds to the log, all waiters of its host have the address filled in if and only if they want it in the same place |
| DnsTables.SecondWaiterNotFilled | src/prometeo/dnscache.cpp:262-286 | two waiters with different places: both are called, only one place is filled |
| DnsLedger.ResolveDoes | src/prometeo/dnscache.cpp:161-193 | in every reachable state: a host in some slot is answered at once with the last answer stored for it, the empty name with zeros, and any other waits and is asked for unless somebody waits for it already |
| DnsLedger.RequestsAreExact | src/prometeo/dnscache.cpp:161-292 | in every run a resolver is asked for a host as often as somebody was the first to wait for it, which is as often as that ended, and once more while somebody waits |
| DnsLedger.ExpiresIff | src/prometeo/dnscache.cpp:381-389 | an answer is flushed if and only if its time to live is over |
| DnsLedger.RingKeeps | src/prometeo/dnscache.cpp:125-135 | as many answers in a row as there are slots go to one slot each, round the ring, with their addresses and expiry times |
| DnsLedger.AllFound | src/prometeo/dnscache.cpp:125-135 | and all of them are found |
| DnsLedger.TTLIsLast | src/prometeo/dnscache.cpp:318-320 | the time to live is the one that was set last |
| DnsLedger.ResizedTurn | src/prometeo/dnscache.cpp:349-376 | after a resize the next answer evicts nobody while a slot is free |
| DnsCaching.DNSCache.Cache | src/prometeo/dnscache.cpp:125-135 | the slot of the ring is reused, its old host leaves the hash and the new one enters, FreeSlot moves on round the ring |
| DnsCaching.DNSCache.Remove | src/prometeo/dnscache.cpp:153-159 | a slot and its hash entry go together |
| DnsCaching.DNSCache.FindCached | src/prometeo/dnscache.cpp:137-151 | the cached address of the host |
| DnsCaching.DNSCache.AsyncResolve | src/prometeo/dnscache.cpp:161-193 | an empty host name or a hit is answered at once, anything else is queued |
| DnsCaching.DNSCache.AddPendingRequest | src/prometeo/dnscache.cpp:195-218 | a request is sent for the first waiter of a host only |
| DnsCaching.DNSCache.CancelRequest | src/prometeo/dnscache.cpp:220-247 | the chain loses the waiter it is asked for |
| DnsCaching.DNSCache.IPCAnswer | src/prometeo/dnscache.cpp:249-292 | the answer is entered, then the whole chain is called |
| DnsCaching.DNSCache.Flush | src/prometeo/dnscache.cpp:381-389 | exactly the expired slots lose their host |
| DnsCaching.DNSCache.Resize | src/prometeo/dnscache.cpp:349-376 | the slots that fit are moved together into the new ring with their hash entries, the others dropped |
| IODispatching.FastIsPlainIff | src/libprom/iodispatcher.cpp:135-233 | for any table, set of ready descriptors and flag: the word and byte skipping form and the plain loop call the same handlers in the same order and leave the same table, for every handler, if and only if no ready descriptor can be missed; which can is read off the ready set and MaxFD before the call |
| IODispatching.FastIsPlainBelowIff | src/libprom/iodispatcher.cpp:135-233 | when no ready bit is at or above MaxFD: if and only if no descriptor that is ready and registered precedes a byte with two ready ones |
| IODispatching.FastIsPlain | src/libprom/iodispatcher.cpp:135-233 | and on any ready set for a handler that never raises MaxFD, or never registers a descriptor among the ready ones, as one that accepts a connection |
| IODispatching.RaisingHandlerIsMissed | src/libprom/iodispatcher.cpp:167-208 | 0, 8 and 10 are ready: a handler of 0 that removes 10 and one of 8 that registers it again make the two forms differ |
| IODispatching.SomeHandlerDiffers | src/libprom/iodispatcher.cpp:167-208 | wherever a descriptor can be missed there is a handler for which it is |
| IODispatching.PlainCallsInOrder | src/libprom/iodispatcher.cpp:211-231 | each handler runs at most once, in descriptor order, for ready descriptors only |
| IODispatching.PlainCallsIff | src/libprom/iodispatcher.cpp:211-231 | a descriptor that the handlers leave alone is called if and only if it is ready and registered for the flag |
| IODispatching.AddKeepsInvIff | src/libprom/iodispatcher.cpp:40-60 | registering keeps the bit sets equal to the flags and MaxFD tight if and only if flags are given, or the descriptor has some, or is not valid |
| IODispatching.AddedWithoutFlags | src/libprom/iodispatcher.cpp:40-60 | a fresh descriptor added without flags to an empty table breaks it |
| IODispatching.RemKeepsInv | src/libprom/iodispatcher.cpp:62-93 | deregistering keeps them, and never raises MaxFD |
| IODispatching.RunInv | src/libprom/iodispatcher.cpp:40-93 | so does every sequence of both |
| IODispatching.RemovalsOnly | src/libprom/iodispatcher.cpp:62-93 | any number of removals only lowers MaxFD |
| IODispatching.AddGives | src/libprom/iodispatcher.cpp:40-60 | AddFD gives the flags to its descriptor, in table and bit sets, and changes no other |
| IODispatching.RemTakes | src/libprom/iodispatcher.cpp:62-93 | RemFD takes just the flags it is given, the descriptor stays while it has one left, and no other changes |
| IODispatching.FlagsFollowEvents | src/libprom/iodispatcher.cpp:40-93 | in every run a descriptor has a flag if and only if the last event that counts for it was an AddFD, and belongs to the Fd that registered it last |
| IODispatching.IODispatcher.AddFD | src/libprom/iodispatcher.cpp:40-60 | the given flags are added to the descriptor and to no other, in table, bit sets and MaxFD, an invalid descriptor changes nothing, and the table is in step after it just when AddKeepsInvIff says so |
| IODispatching.IODispatcher.RemFD | src/libprom/iodispatcher.cpp:62-93 | just the given flags go, the slot with the last of them, no other descriptor changes, and MaxFD is searched downwards to the highest slot left |
| IODispatching.IODispatcher.Dispatch | src/libprom/iodispatcher.cpp:135-233 | calls the handlers of the plain loop, in order, whenever no ready descriptor can be missed, and whenever no handler raises MaxFD or registers a ready descriptor |
| IODispatching.IODispatcher.DispatchFast | src/libprom/iodispatcher.cpp:167-208 | the pointer loops over words and bytes |
| IODispatching.IODispatcher.DispatchPlain | src/libprom/iodispatcher.cpp:211-231 | the plain loop |
| WriteBehind.RunKeepsInv | src/prometeo/file.cpp:168-355 | over any run of writes, events, resumes and closes, whatever the kernel answers: bytes on disk followed by bytes queued are the bytes submitted, all buffers but the last are full, and unless a write is deferred or failed at most one is waiting |
| WriteBehind.EnqueueAdds | src/prometeo/file.cpp:210-234 | queueing adds exactly the bytes, and reports a full buffer exactly when it leaves more than one and more than before |
| WriteBehind.DrainMoves | src/prometeo/file.cpp:293-323 | the loop moves bytes in order, and without an error leaves nothing when flushing, else at most one buffer, not full |
| WriteBehind.FlushCompletes | src/prometeo/file.cpp:58-74 | after a run with no deferred or failed write, a flush whose writes are complete leaves on disk all that was submitted |
| WriteBehind.BackwardsKeepsOrderIff | src/prometeo/file.cpp:58-74 | flushing from the tail keeps the order of every queue of n buffers if and only if n <= 1 |
| WriteBehind.FlushAfterDeferredWrite | src/prometeo/file.cpp:58-74 | from an empty file, one deferred write of a buffer and a byte, and then a flush: the last byte is first on disk |
| WriteBehind.CloseCompletes | src/prometeo/file.cpp:112-137 | after any run a close with bytes waiting ends with all that was submitted on disk, once the kernel takes as much |
| WriteBehind.CloseEmpty | src/prometeo/file.cpp:112-137 | with nothing waiting all of it is there already |
| WriteBehind.ResumeDrains | src/prometeo/file.cpp:293-355 | resuming, or the event a write was deferred for, leaves at most one buffer, not full, and none when flushing, once the kernel takes as much |
| Files.FileBuf.Append | src/prometeo/file.cpp:363-379 | the buffer takes what fits, after what it has |
| Files.FileBuf.Processed | src/include/file.h:105 | more of the buffer is done; true when all is |
| Files.File.EnqueueData | src/prometeo/file.cpp:210-234 | on the heap: the chain of buffers becomes the queue |
| Files.File.Write | src/prometeo/file.cpp:168-181 | a write is queued, and written when a buffer was full and none is deferred |
| Files.File.HandleWrite | src/prometeo/file.cpp:293-349 | the loop over the head buffer, and what is waited for next |
| Files.File.ResumeWrite | src/prometeo/file.cpp:351-355 | tries again when something is queued |
| Files.File.Close | src/prometeo/file.cpp:112-137 | closes when nothing is queued, else starts to flush |
| Files.File.FlushWriteBuffers | src/prometeo/file.cpp:58-74 | takes the buffers from the tail, one write each, looking at no result |
| Sockets.RunConservesIff | src/libprom/socket.cpp:203-514 | over any run of connects, sends, writable events, read errors and timeouts: wire followed by buffer is what was submitted if and only if no event of the run throws bytes away: a failed send(), a timeout, or an AsyncSend on a socket that is not sending but has bytes left |
| Sockets.MissingIsDiscarded | src/libprom/socket.cpp:242-500 | the number of bytes missing after any run is what its events threw away, no more and no less |
| Sockets.StrandedIff | src/libprom/socket.cpp:427-514 | over any run: bytes are left in the buffer with nobody waiting to send them if and only if a connection was completed, or failed, with bytes waiting and nothing was sent, connected or timed out since |
| Sockets.ReadErrorLosesIff | src/libprom/socket.cpp:502-514 | after a read error with bytes queued, the next send or writable event loses some if and only if it is an AsyncSend or a failed send() |
| Sockets.QueuedBeforeConnectedIsLost | src/libprom/socket.cpp:427-445 | bytes queued while connecting are stranded when the connection is completed, and the next AsyncSend replaces them |
| Sockets.Socket.AsyncConnect | src/libprom/socket.cpp:203-240 | waits for the connection, or clears the flags when it is refused |
| Sockets.Socket.HandleTimeout | src/libprom/socket.cpp:485-500 | clears the buffer and all that was waited for |
| Sockets.Socket.AsyncSend | src/libprom/socket.cpp:242-271 | bytes follow those already queued, or replace what is left from before when nothing is being sent |
| Sockets.Socket.HandleWrite | src/libprom/socket.cpp:427-480 | what the kernel takes leaves from the front, a refusal keeps everything, an error or a completed connection ends the sending |
| ProcessQueue.FirstComeFirstServed | src/prometeo/processgroup.cpp:52-125 | in every run, with replies and callbacks arriving inside the hand-out, the requests handed out are the first ones submitted, and if any waits no running worker is idle |
| ProcessLedger.EveryRequestAccounted | src/prometeo/process.cpp:132-230 | in every run the requests handed out are, each once, those called back, those lost in a crash, and those that a worker holds; a worker holds one exactly when it is read from or was cut short by a signal |
| ProcessLedger.AtMostOnce | src/prometeo/process.cpp:132-168 | no request is called back more often than it was handed out |
| ProcessQueue.ApplyKeeps | src/prometeo/process.cpp:132-230 | every event keeps that, and leaves every busy worker alone but the one it is for |
| ProcessQueue.RunQueueKeeps | src/prometeo/processgroup.cpp:114-125 | the loop keeps it although each turn can be re-entered |
| ProcessQueue.SocketEventKeeps | src/prometeo/process.cpp:132-198 | an answer, a crash or an error keeps it, with whatever the callback submits |
| ProcessQueue.SubmitKeeps | src/prometeo/processgroup.cpp:79-87 | a request goes straight to an idle worker only when no other waits |
| ProcessQueue.CutIff | src/prometeo/process.cpp:132-168 | in every run: a worker is busy without a read if and only if the last reply read from it was an error, or a signal that interrupted a read made at once and not on an event |
| ProcessQueue.CutByReplyIff | src/prometeo/process.cpp:132-168 | the same for one arrival, whatever is read on the way |
| ProcessQueue.CutByHandOutIff | src/prometeo/process.cpp:209-230 | the same for one hand-out |
| ProcessQueue.ComesFreeIff | src/prometeo/process.cpp:132-168 | a busy worker can still come free, in some run, if and only if a read from it is outstanding |
| ProcessQueue.Stuck | src/prometeo/process.cpp:132-168 | a busy worker without a read outstanding stays as it is in every run |
| ProcessQueue.FailureIsForGood | src/prometeo/process.cpp:150-156 | a socket error leaves a worker busy for ever |
| ProcessQueue.InterruptedIsForGood | src/prometeo/process.cpp:132-168 | so does a signal that interrupts the read made by a hand-out |
| ProcessQueue.OneFailureBlocks | src/prometeo/process.cpp:150-156 | one worker, one request, one error, and the next request waits though nobody works |
| ProcessQueue.CompleteIffWhole | src/prometeo/process.cpp:200-207 | an answer is complete if and only if all of it has come |
| ProcessQueue.AnswerInPieces | src/prometeo/process.cpp:175-198 | however an answer is cut, and whatever other events come between the pieces, the worker is busy with the same request until the last piece, and the event that brings it calls the callback of that request with the whole payload |
| ProcessQueue.LastPiece | src/prometeo/process.cpp:175-198 | the reply that completes an answer logs the callback with its request and payload |
| ProcessGroups.ProcessGroup.SendRequest | src/prometeo/processgroup.cpp:79-87 | a request goes to the first idle worker or to the end of the queue, and the worker objects stay in step with the queue that FirstComeFirstServed is about |
| ProcessGroups.ProcessGroup.RunQueue | src/prometeo/processgroup.cpp:114-125 | hands out from the head of the queue while a worker is idle, though each hand-out may end in callbacks, crashes or further hand-outs |
| ProcessGroups.ProcessGroup.FindIdleProcess | src/prometeo/processgroup.cpp:89-101 | the first running worker that is idle |
| ProcessGroups.ProcessGroup.AddChild | src/prometeo/processgroup.cpp:52-59 | a new worker is given what waits |
| ProcessGroups.ProcessGroup.SocketEvent | src/prometeo/process.cpp:132-168 | an answer goes to the callback of its own request, a crash frees the worker without a callback, an error calls back and frees nothing |
| ProcessGroups.ProcessGroup.Dispatch | src/prometeo/process.cpp:209-230 | a worker is busy with the request and reads its answer |
| ProcessGroups.Process.ReadAnswer | src/prometeo/process.cpp:175-198 | what arrives is appended, and the buffer grows when it is full |
| CacheTables.ApplyKeepsGood | src/mod_http/cache.cpp:44-178 | every operation, with any id and a write with any operations of its listeners inside it included, keeps the store equal to the sizes of the objects that are not deleted, the list in access order, and the hash free of deleted objects |
| CacheTables.ApplyAllKeepsGood | src/mod_http/cache.cpp:44-178 | so does every run |
| CacheTables.WriteIsCounted | src/mod_http/cacheobj.cpp:65-77 | every write that returns is counted right, in the store and in the object, whatever its listeners do |
| CacheTables.SizesAreExact | src/prometeo/storeobj.cpp:135-153 | in every run from an empty cache, each object that is not deleted counts exactly the bytes its store object was given, fewer than 2^31, and the store is their sum |
| CacheTables.DeletedDuringItsWrite | src/prometeo/storeobj.cpp:135-153 | an object deleted by a listener in its own write: the old size comes off the store and the new data is not counted |
| CacheTables.DeleteCounts | src/mod_http/cache.cpp:111-124 | deleting never takes more off the store than is on it |
| CacheTables.DeleteKeepsInv | src/mod_http/cache.cpp:111-124 | deleting keeps list, hash and store |
| CacheTables.ReleaseKeepsInv | src/mod_http/cacheobj.cpp:160-186 | releasing keeps them, and frees a deleted object with its last reference |
| CacheReferences.ReferencesAreExact | src/mod_http/cacheobj.cpp:160-223 | in every run from an empty cache an object has the references that Create, Find and Acquire took and Release gave back, can be evicted if and only if all are back and it is not deleted, is freed if and only if all are back and it is deleted, and has its store object open until the first time all are back |
| CacheReferences.CountAllIsDifference | src/mod_http/cacheobj.cpp:160-186 | as long as nobody gives back what was not taken, that is those taken less those released |
| CacheReferences.RunKeepsRecords | src/mod_http/cache.cpp:44-178 | in every run an object keeps what it was created with, but for its size, and once deleted stays so |
| CacheTables.DeleteMarks | src/mod_http/cache.cpp:111-124 | deleting marks one object and takes it off the store and out of the hash; no other changes |
| CacheReferences.ModifiedAfter | src/mod_http/cache.cpp:44-259 | what sets and clears the mark that the index is out of date: a create or a deletion sets it, and writing the index clears it just when every object in the list went into it |
| CacheTables.FoundKeepsInv | src/mod_http/cache.cpp:86-101 | a found object becomes the last in access order |
| CacheTables.CreateKeepsInv | src/mod_http/cache.cpp:44-84 | a new object is the last in access order, whether or not its id is known |
| CacheTables.CreateKeepsUniqueIff | src/mod_http/cache.cpp:44-84 | after a create every object that is not deleted is found by its id if and only if the id was not there |
| CacheTables.ApplyAllKeepsUnique | src/mod_http/cache.cpp:44-178 | in every run that creates no id that is there, the hash finds every object that is not deleted |
| CacheTables.PruneEvictsLeast | src/mod_http/cache.cpp:126-178 | pruning evicts, in access order, the fewest objects not in use that bring the store to its maximum, or all of them, and changes no other object |
| CacheTables.PruneFromDeletes | src/mod_http/cache.cpp:134-156 | the loop deletes just those |
| CacheTables.NeededIsLeast | src/mod_http/cache.cpp:134-156 | their number is the least that suffices |
| CacheTables.IndexReadsBack | src/mod_http/cache.cpp:180-259 | the index of any cache, read back, is what was written |
| CacheTables.RestartRestores | src/mod_http/cache.cpp:180-213 | loading it into an empty cache restores every complete object that was not deleted, in order, and counts exactly their sizes |
| IndexFile.RoundTripIff | src/mod_http/cache.cpp:180-259 | an index is restored exactly if and only if no string in it holds a NUL |
| IndexFile.LoadSavedIndex | src/mod_http/cache.cpp:180-259 | what is restored otherwise: every string cut at its first NUL |
| IndexFile.LoadSaved | src/mod_http/cacheobj.cpp:225-265 | one object, saved and loaded |
| IndexFile.TakePutString | src/prometeo/file.cpp:183-208 | one string, saved and loaded |
| IndexFile.RecordLayout | src/mod_http/cacheobj.cpp:245-265 | an object is its five strings, each behind its length, its size and its four times, in that order |
| Caches.Cache.Create | src/mod_http/cache.cpp:44-84 | a new object, last in the list and found by its id unless that is there already; list, hash and handles on the heap stay in step |
| Caches.Cache.Find | src/mod_http/cache.cpp:86-101 | the object of the id, if any, has one reference more and is the last in the list; no other object changes |
| Caches.Cache.Delete | src/mod_http/cache.cpp:111-124 | only an object that is not deleted: its size comes off the store, it leaves the hash, stops writing, and is freed when nobody refers to it |
| Caches.Cache.DeleteId | src/mod_http/cache.cpp:103-109 | the same for the object of the id, nothing when there is none |
| Caches.Cache.Prune | src/mod_http/cache.cpp:126-178 | the two nested loops leave the cache that PruneEvictsLeast describes |
| Caches.Cache.Write | src/mod_http/cacheobj.cpp:65-77 | the listeners, which may do anything to the cache, come first; only then are store and object, if it is still not deleted, counted up |
| Caches.Cache.Release | src/mod_http/cacheobj.cpp:160-186 | one reference less; with the last one the store object is let go of, and a deleted object leaves the list |
| Caches.CacheObj.Delete | src/mod_http/cacheobj.cpp:212-223 | marks the object and its store object under a reference of its own |
| Caches.Cache.LoadIndex | src/mod_http/cache.cpp:180-213 | each entry read becomes an object nobody refers to, in order, and its size is added to the store |
| Caches.Cache.WriteIndex | src/mod_http/cache.cpp:215-259 | both loops: the file is the saved index, and the store ends as it was |
| MD5Transforming.MD5Transform | src/mod_http/md5.c:191-287 | the unrolled transform is the 64 indexed steps of section 3.4 of RFC 1321 |
| MD5Laws.ByTwo | src/mod_http/md5.c:66-72 | bits are read by dividing by two |
| MD5Laws.FBits | src/mod_http/md5.c:66 | F takes each bit from y where x has a one, and from z elsewhere |
| MD5Laws.GBits | src/mod_http/md5.c:67 | G takes each bit from x where z has a one, and from y elsewhere |
| MD5Laws.HBits | src/mod_http/md5.c:68 | H is the parity of the three bits |
| MD5Laws.IBits | src/mod_http/md5.c:69 | I is y where x has a zero and z a one, and its complement elsewhere |
| MD5Laws.SumIsModulo | src/mod_http/md5.c:76-80 | addition of words is addition of their numbers modulo 2^32 |
| MD5Laws.RotationIs | src/mod_http/md5.c:72 | rotating by n is x * 2^n modulo 2^32, and x / 2^(32 - n) |
| MD5Laws.WordOfIs | src/mod_http/md5.c:138-142 | four bytes, shifted and joined, are the number they stand for, low-order byte first |
| MD5Laws.BytesOfIs | src/mod_http/md5.c:179-184 | the bytes of a word are its number again |
| MD5Vector.AbcDigest | src/mod_http/md5.c:290-297 | the digest of "abc" is the one in appendix A.5 of RFC 1321, through all 64 steps |
| MD5Stream.AddCountCounts | src/mod_http/md5.c:124-129 | the two-word counter, with its carry, is 8 times the length modulo 2^64 |
| MD5Stream.ProgressDetermined | src/mod_http/md5.c:116-150 | registers and pending bytes depend on the message alone, not on its fragments |
| MD5Stream.Pad | src/mod_http/md5.c:152-170 | the padded message of sections 3.1 and 3.2 of RFC 1321 fills whole blocks |
| MD5Stream.Position | src/mod_http/md5.c:122-124 | the low word of the counter tells the place in the buffer |
| MD5Digest.MD5_CTX.MD5Update | src/mod_http/md5.c:116-150 | the context is that of the message so far followed by the data |
| MD5Digest.MD5_CTX.MD5Final | src/mod_http/md5.c:152-185 | the digest is the hash of the padded message |
| MD5Digest.CalcMD5 | src/mod_http/md5.c:290-297 | the digest of one piece of data, in the arithmetic that FBits to RotationIs are about |
| MD5Digest.DigestFragments | src/mod_http/md5.c:116-185 | any fragments of a message give the digest of the message |
| UrlCodec.RoundTripIff | src/mod_http/url.cpp:51-144 | for every URL: encoding fits and decoding it gives the URL back if and only if no part holds what would end it, the port is not 0 and fits its buffer, and without a user there is no password and no @ in the host; or there is no host and nothing but a rest that names no scheme |
| UrlCodec.SpelledReads | src/mod_http/url.cpp:51-109 | with or without scheme, user, password, port and rest the parts are read as they are written; a port left out is 80 and a rest left out is a slash |
| UrlCodec.SpaceEnds | src/mod_http/url.cpp:63-64 | nothing after a space is read |
| UrlCodec.PortFitsIff | src/mod_http/url.cpp:131-138 | the ports that fit the buffer are those between -100000 and 1000000 |
| UrlCodec.LongPortOverruns | src/mod_http/url.cpp:98-135 | h:10000000/ is decoded to a URL whose port overruns the buffer |
| UrlCodec.PortZeroIsLost | src/mod_http/url.cpp:132-138 | no URL with port 0 and a host is given back |
| UrlCodec.DecodedIsClean | src/mod_http/url.cpp:51-109 | whatever is decoded, no part holds what would end it |
| UrlCodec.AtoiPrint | src/mod_http/url.cpp:97-132 | atoi undoes "%d" |
| UrlCodec.HostLosesUser | src/mod_http/url.cpp:80-92 | without a user, an @ in the host cuts it |
| Urls.URL.Decode | src/mod_http/url.cpp:51-109 | a copy of the string is cut in place by NULs, and the strings at the pointers into it are the parts that RoundTripIff is about |
| CBuffers.Cut | src/mod_http/url.cpp:63-104 | a NUL over the first such character leaves what is before it at the old pointer and what is after it at the next place |
| Urls.URL.Encode | src/mod_http/url.cpp:111-144 | the parts joined with their delimiters, the port printed into eight characters; nothing can be said when it does not fit |
| Base64.NoisyRoundTrip | src/mod_cfg/base64.cpp:27-72 | the encoding of section 4 of RFC 4648, with any other characters strewn in, decodes to the data as far as there is room |
| Base64.DecodeEncoded | src/mod_cfg/base64.cpp:27-72 | the same without them |
| Base64.StripDecodes | src/mod_cfg/base64.cpp:34-36 | characters outside the alphabet change nothing |
| Base64.SymbolIs | src/mod_cfg/base64.cpp:24-24 | the 64 symbols in the order of the table |
| Base64.GroupIs | src/mod_cfg/base64.cpp:40-60 | four symbols are the 24 bits of three bytes |
| Base64.AddBits | src/mod_cfg/base64.cpp:48-60 | the masked and shifted bits of a character, joined to those kept, are the byte of the model |
| Base64.KeepBits | src/mod_cfg/base64.cpp:43-55 | the bits that are kept for the next byte, likewise |
| Base64.EnoughRoom | src/mod_cfg/base64.cpp:27-36 | all the data arrives when size is above its length, and also when size is zero or less |
| Base64.Base64Decode | src/mod_cfg/base64.cpp:27-72 | for any size, the array holds the decoded bytes, then NUL, and is unchanged after it: with a size of at least one nothing is written at or past it, with a smaller one there is no limit |

## Left out

- ChunkDecoder.Refines: a size line of 2^32 or more makes a stream malformed for the reference automaton; what a fragment that wraps Offset + len does is the subject of RefinesIff and RightIffUnwrapped.
- ChunkDecoder.SizeLineRead: takes chunk sizes below 2^32; more digits than an unsigned int holds are undefined for sscanf, and the model reads such a number modulo 2^32.
- IODispatching.FastIsPlainIff: byte k of a set is taken to hold descriptors 8k to 8k+7, as on little-endian machines, and descriptors are below FD_SETSIZE.
- HashTables.RunRefines: does not include Clear, which leaves NumItems as it was; characters fold as in the C locale.
- DnsTables.ReachedIsSound: the two hashes are maps here, their refinement by StrHash being proved separately; a ring has at least one slot; only the IPv4 form of an address is modelled.
- WriteBehind.RunKeepsInv: write() returns a count, "later" or an error; a file that has been closed is not told apart from an open one.
- Sockets.RunConservesIff: the callback of an event counts as the next event, as it is the last thing an event does; a dispatcher is always there, and setting the descriptor non-blocking does not fail.
- ProcessQueue.FirstComeFirstServed: callbacks submit requests but do not add or remove workers, and Flush, which removes idle ones, is not modelled; Spawn, signals and the worker's own side are not part of this model.
- CacheTables.ApplyKeepsGood: assumes no disk errors (CacheObj::WriteError bypasses Cache::Delete), that lengths are not negative, and that who writes an object keeps its reference. A write that would bring the data of an object to 2^31 bytes throws in Buffer::Resize; the state after that is not modelled; GetStoreObj, which reopens an object for reading, is not modelled. Ids compare without regard to case, as StrHash does.
- Caches.Cache.Write: the store object is its flags, the amount of data it was given and its share of the store; what that data is and the order of the listeners are not modelled.
- CacheTables.IndexReadsBack: which objects IsComplete() finds complete is a parameter; numbers are little-endian and a time_t has eight bytes; NetDate is not part of this model.
- Caches.Cache.LoadIndex: the file holds as much as it says; where it does not, the original goes on with uninitialised memory.
- MD5Digest.MD5_CTX.MD5Update: UINT4 is 32 bits wide, as md5.h intends; the two words of the bit counter are numbers, cast to words when they are hashed.
- UrlCodec.RoundTripIff: what is encoded after the port has overrun its buffer is not modelled, and neither is an overflow in atoi; GetHostPort is left out.
- DnsCaching.DNSCache.Resize: at least one slot; with none the original would write past an empty array at the next answer.
- Base64.Base64Decode: the array is as long as what is written needs.
- Filters, gzip and the HTTP connection life cycle (mod_http): tied to callbacks and libraries.
- System calls, select, SSL, PAM, expat, the registry, configuration pages and the other protocols: outside the model.
- Buffer is its contents: reallocation and its failure are not modelled; lists owned by File, ProcessGroup and Cache are sequences of objects, the pointer form being proved in LinkedList.
