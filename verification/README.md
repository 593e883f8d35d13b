# Verified model of the device-control C modules

A Dafny model of five groups of modules of the repository, with proofs. Verify with

    dafny verify dfyconfig.toml

| files | what they model |
|---|---|
| `Reactor.dfy`, `Trace.dfy` | the select-based fd event reactor: an intrusive circular list, a growable table, three interest sets and the select bound, under callbacks that call back, and the record of who is called when |
| `Bits.dfy`, `Sha1.dfy`, `Base64.dfy`, `MailBase64.dfy`, `WebSocket.dfy` | streaming SHA-1 against FIPS 180-4, four base64 encoders and a decoder against one definition, the WebSocket handshake and framing |
| `BitVectors.dfy`, `Sha1OnBits.dfy`, `Sha1Examples.dfy`, `AcceptExample.dfy`, `ZeroExample.dfy`, `FrameExamples.dfy` | published examples computed through: SHA-1 on bit vectors, proved to be the same function, and with it the digest of "abc", the accept key of RFC 6455, and a key that the server answers wrongly |
| `Wav.dfy` | the chunk parser with its look-ahead buffer against a plain walk over the file |
| `Blob.dfy`, `Sll.dfy`, `AddressList.dfy`, `Ring.dfy`, `Commas.dfy` | the cursor blob, the linked list, the tokenizer and the list it feeds, the interrupt ring buffer, comma grouping |
| `Smtp.dfy`, `SmtpSyntax.dfy`, `DateZone.dfy` | the mail dialogue against an arbitrary server, its commands as a server reads them, and the zone in the Date header |
| `Common.dfy` | options, sequences and numbers in either byte order, shared by the others |

Code that changes things in place is a class with methods, or a method over an array; each is proved against
functions on values (`Sha1Spec`, `Base64Spec`, `FrameSpec`, `WavSpec`, `BlobSpec`, `SllSpec`, `TokenSpec`, `SmtpSpec`,
`Calendar`, `Trace`, `ByteOrder`), and what the program promises is proved of those functions. What they compute is tied
to what is written down elsewhere: published test vectors, tables and examples. What differs from the text of the source:

- Bytes and words are bounded integers; `&`, `|`, `^` are the functions of `Bits`, and wrap-around is written out.
- The event bits come from a header (FDE_READ and so on) that is not in the repository; a mask is the set of its
  bits. `select` returns any subset of its inputs and their number, or an error. A handler is any finite sequence of
  interface calls. Its installs are those that abort and those that `Installable` describes, which by `Install` are
  exactly the ones that leave the reactor consistent; `Create` needs a free slot for the same reason.
- Line 451 of `module/input/in_event.c` clears `sizeof(int)` bytes per new slot; it is modelled as clearing all of
  them, as it does where pointers and ints have the same size.
- Line 647 of the same file clears with `~events`, against the comment above it. The model follows the code; `Set`
  says exactly when the comment is true of a queued fdevent, and that a change of the watched events drops what is
  still wanted. `UnwatchedReadStaysQueued` and `WatchedReadIsLost` are runs that show both.
- The macros around the ring buffer that should disable interrupts are empty, so the model interleaves single loads,
  stores and index moves. C orders the producer's store and index move only at the end of the buffer (`buf[e++] = a`
  elsewhere leaves it open); `OrderedExactlyWhen` says when every run is in order, and `MovingFirstLosesBytes` shows
  one that is not.
- `unsigned long` has 32 bits in the blob and 64 bits in `analyData`, where eight bytes are copied into one.
- Reading too little of a field from the blob leaves the rest of the reader's own buffer as it happened to be; the
  readers promise nothing about the value in that case.
- A mail server is an arbitrary sequence of lines and failed reads; a turn of the log is a command with the lines read
  before the next one. What sending the message body returns is a parameter.
- A WAV stream delivers any nonempty part of what is asked, and may fail if it is of the kind that fails.

## Model

| member | source | states |
|---|---|---|
| `Reactor.Reactor.PlistRemove` | module/input/in_event.c:485-491 | unlinking keeps the circular shape and removes exactly that node, wherever it stands |
| `Reactor.Reactor.Install` | module/input/in_event.c:594-610 | the call looks at neither the fdevent nor the slot; the whole invariant holds afterwards if and only if the fdevent was not queued and its descriptor was free, or the one it held already without watching it |
| `Reactor.Reactor.Register` | module/input/in_event.c:429-455 | aborts exactly for negative descriptors and those above 32000 beyond the table; the table starts at 256 and doubles no further than it must, keeping all entries |
| `Reactor.Reactor.InstallVerdict` | module/input/in_event.c:594-610 | both directions of that equivalence, for a new, an idle, an active and a queued fdevent alike |
| `Reactor.Reactor.InstallBreaks` | module/input/in_event.c:594-610 | what breaks: a queued fdevent is torn out of the list, one active elsewhere leaves a wrong table entry, a watched one stays watched unseen, a foreign slot loses its occupant |
| `Reactor.Reactor.Create` | module/input/in_event.c:576-583 | a fresh fdevent in its slot, blank and marked as created, for every descriptor in range; the reactor stays consistent if and only if the slot was free |
| `Reactor.Reactor.Remove` | module/input/in_event.c:612-626 | never aborts; keeps the invariant; the fdevent ends blank, unregistered, unwatched and off the list |
| `Reactor.Reactor.Set` | module/input/in_event.c:629-653 | keeps the invariant; for a queued fdevent the comment above line 647 (nothing unwanted stays queued) holds exactly when all queued events are wanted anew; and when the watched events change at all, the queued events that are still wanted are dropped, so that they survive only when there are none |
| `Reactor.UnwatchedReadStaysQueued` | module/input/in_event.c:643-647 | a run on a new reactor in which the comment is false: after del of the only watched event, its read is still queued |
| `Reactor.WatchedReadIsLost` | module/input/in_event.c:643-647 | a run in which adding a write drops a queued read that is watched before and after |
| `Reactor.Reactor.MarkAll` | module/input/in_event.c:405-424 | if n is the number of ready bits, the early exit at n = 0 misses nothing: every ready descriptor has been dealt with, none twice |
| `Reactor.Reactor.Process` | module/input/in_event.c:366-425 | "missing fde" is unreachable; every ready fdevent gets exactly its ready events, and new ones are queued behind the old |
| `Reactor.NewlyReadyAscends` | module/input/in_event.c:405-424 | they are queued in ascending descriptor order, each once |
| `Reactor.ReadyFdsAreAll` | module/input/in_event.c:405-424 | and they are exactly the ready ones that were not queued |
| `Reactor.Reactor.CallFdFunc` | module/input/in_event.c:508-516 | dispatch from the one state in which PENDING and "on the list" differ: the handler of the fdevent is given all queued events and the fdevent holds none; a user handler reads no notification and never ends in PipeRead; the notification handler with a read reads the next one directly behind the call, or there is none and it aborts; and the list only loses elements |
| `Reactor.Reactor.Invoke` | module/input/in_event.c:515 | the call through the function pointer: which of the two handlers ran can be told from the record, and the notification handler without a read has only watched for reads again |
| `Reactor.Reactor.Perform` | module/input/in_event.c:576-665 | any one call of the public interface keeps the invariant, calls no handler and never lengthens the list |
| `Reactor.Reactor.SubprocEvent` | module/input/in_event.c:518-574 | the notification handler watches its descriptor again, consumes one notification exactly when readable, may re-enter dispatch, keeps the invariant, terminates and reaches no consistency abort |
| `Reactor.Reactor.ReadNotice` | module/input/in_event.c:526-573 | a notification is read from the front, and the handler of the fdevent at its descriptor runs at once exactly when that is registered, not queued, and nothing is left to read |
| `Trace.RunsAgainExactlyWhen` | module/input/in_event.c:508-572 | in the record of a run, an fdevent is called again exactly when a notification just read forces it and names the descriptor of one already called |
| `Trace.QuietAmongUsers` | module/input/in_event.c:518-574 | a stretch of the loop in which only user handlers are called reads no notification and leaves none missing |
| `Reactor.Reactor.Drain` | module/input/in_event.c:692-694 | terminates with an empty list; the fdevents dequeued by the loop are the queued ones in order without the cancelled, none twice; its calls are exactly the turns in the record, every other call there answers a notification, and the notifications are those read, in order; each is read directly behind a call of the notification handler with a read, and behind every such call; among user handlers alone none is read and there is no PipeRead, however the drain ends |
| `Reactor.ShrunkBehind` | module/input/in_event.c:692-694 | what has been dispatched and what is left always make up the original list without the cancelled fdevents |
| `Reactor.Reactor.Round` | module/input/in_event.c:682-695 | one round from an empty list: the loop dispatches the ready fdevents in ascending order without the cancelled, each with events that are ready or that a notification added, the first with exactly its ready ones; the account of notifications is that of the drain |
| `Reactor.Reactor.Loop` | module/input/in_event.c:667-696 | over any finite run the reactor is consistent with nothing pending after every round; only three named aborts remain reachable; and in the whole run, aborted or not, a notification is read directly behind a call of the notification handler with a read, and nowhere else |
| `Bits.XorTwice` | module/sockect/websocket/sha1.h:100-118 | masking twice with the same number is the identity (also used by frames and by string reversal) |
| `Bits.ChoiceForms` | module/sockect/websocket/sha1.h:108-110 | the choice function by OR equals the choice function by XOR |
| `Bits.MajorityForms` | module/sockect/websocket/sha1.h:126-128 | the majority function by OR equals the majority function by XOR |
| `Sha1.TurnIsStep` | module/sockect/websocket/sha1.h:108-143 | one turn of each of the four loops, with its own order of summands, is the step of FIPS 180-4, section 6.1.2 |
| `Sha1.Sha1Context.ProcessMessageBlock` | module/sockect/websocket/sha1.h:86-150 | the digest words become the compression of the block |
| `Sha1.Sha1Context.CountByte` | module/sockect/websocket/sha1.h:70-77 | the two-word counter is 8 times the bytes consumed; the corrupted flag is raised exactly at 2^64 bits |
| `Sha1.Sha1Context.Input` | module/sockect/websocket/sha1.h:59-84 | what has been consumed grows by the piece; exactly when the context is corrupted |
| `Sha1.Sha1Context.PadMessage` | module/sockect/websocket/sha1.h:152-172 | the digest words are the digest of everything consumed |
| `Sha1.Sha1Context.Result` | module/sockect/websocket/sha1.h:47-56 | the digest of everything consumed; a second call changes nothing |
| `Sha1Spec.HashBlocksConcat` | module/sockect/websocket/sha1.h:79-81 | hashing block after block is hashing the concatenation |
| `Sha1Spec.PaddingInOne` | module/sockect/websocket/sha1.h:158-169 | padding when the rest of the message leaves room for the length |
| `Sha1Spec.PaddingInTwo` | module/sockect/websocket/sha1.h:153-157 | padding when it does not, and a block of padding follows |
| `Sha1.HashPieces` | module/sockect/websocket/sha1.h:47-84 | reset, any split of the message into calls, and result yield the FIPS 180-4 digest of the whole message |
| `Sha1.Sha1Hash` | module/sockect/websocket/sha1.h:196-216 | the forty digits are the digest of the string, five words as %08X; of a string of 2^32 bytes or more only the length modulo 2^32 is hashed |
| `Sha1Examples.DigestOfAbc` | module/sockect/websocket/sha1.h:86-172 | the digest of "abc" is A9993E36 4706816A BA3E2571 7850C26C 9CD0D89D, as published, through padding, schedule and eighty turns |
| `Sha1Examples.HashOfAbc` | module/sockect/websocket/sha1.h:196-216 | the call prints it so |
| `Sha1OnBits.StepIs` | module/sockect/websocket/sha1.h:108-143 | one turn on bit vectors is the step of the standard on their numbers |
| `Sha1OnBits.SlidShows` | module/sockect/websocket/sha1.h:100 | sliding the window of sixteen words by one gives the next word of the schedule, its rotation included |
| `Sha1OnBits.NumberOfSum` | module/sockect/websocket/sha1.h:108-143 | addition of bit vectors is addition modulo 2^32 of their numbers |
| `Sha1OnBits.NumberOfTurned` | module/sockect/websocket/sha1.h:26 | turning a bit vector by one is the rotation of its number |
| `MailBase64.EncodeBase64` | mail/libs/libmutils/mutils.c:1508-1567 | exactly the precomputed length for every input (the length-mismatch branch is dead); the output is the standard encoding broken after 60 columns |
| `MailBase64.EncodeNoFormat` | mail/libs/libmutils/mutils.c:1594-1640 | null exactly for no input; otherwise exactly the standard encoding, in a buffer of the precomputed length |
| `MailBase64.EncodeStream` | mail/libs/libmutils/mutils_mime.c:77-119 | the standard encoding broken after 72 columns |
| `MailBase64.DecodeBase64` | mail/libs/libmutils/mutils.c:1657-1758 | all writes stay within 4 + srcl*3/4 bytes; the result is that of the decoding function, null when it fails |
| `Base64Spec.UnwrapWrap` | mail/libs/libmutils/mutils.c:1533-1558 | deleting the line breaks gives the unbroken encoding back: all encoders agree |
| `Base64Spec.LinesWithin76` | mail/libs/libmutils/mutils.c:1533-1537 | no line of the first form exceeds 60 characters and none of the second 72, so neither exceeds the 76 of section 6.8 of RFC 2045 |
| `Base64Spec.DecodeEncode` | mail/libs/libmutils/mutils.c:1692-1757 | decoding inverts encoding for every byte string, both padding lengths included |
| `Base64Spec.AlphabetIs` | mail/libs/libmutils/mutils.c:1515 | the letters are those of the alphabet string of the encoders, place by place |
| `Base64Spec.TableIs` | mail/libs/libmutils/mutils.c:1664-1681 | the values are those of the decoding table, written out, for all 256 bytes |
| `Base64Spec.Vectors` | mail/libs/libmutils/mutils.c:1527-1532 | the test vectors of section 10 of RFC 4648 |
| `Base64Spec.WrapByLines` | mail/libs/libmutils/mutils_mime.c:104-110 | lines of exactly the given width, each ended by CR LF, and a shorter last one |
| `Base64Spec.DecodeWrapped` | mail/libs/libmutils/mutils.c:1692-1757 | decoding inverts both broken forms |
| `Base64Spec.DecodeStrewn` | mail/libs/libmutils/mutils.c:1716-1753 | with junk strewn anywhere the decoder succeeds if and only if two padding characters stand together |
| `Base64Spec.LoosePadsFail` | mail/libs/libmutils/mutils.c:1747-1752 | junk between the two padding characters makes it fail |
| `WebSocketHandshake.Base64Encode` | module/sockect/websocket/base64.h:14-78 | the standard encoding with a final NUL, in a buffer of exactly that size |
| `WebSocketHandshake.FetchSecKey` | module/sockect/websocket/main.c:30-62 | null exactly when the flag stands nowhere in the request; otherwise its value, zeroes behind it: for every request made of anything without the flag, the flag, a key without line ends, CR LF and anything, that key |
| `WebSocketHandshake.Find` | module/sockect/websocket/main.c:44 | the first match of all, and none exactly when there is none |
| `WebSocketHandshake.KeyCarried` | module/sockect/websocket/main.c:44-58 | of such a request, the value found is the key it was made with |
| `WebSocketHandshake.Htoi` | module/sockect/websocket/intLib.h:15-47 | the value of the run of hexadecimal digits, limited to len, after an optional prefix |
| `WebSocketHandshake.HexOfDigest` | module/sockect/websocket/main.c:91-101 | printing five words and reading pairs of digits gives the big-endian bytes of the digest |
| `WebSocketHandshake.ReadHex` | module/sockect/websocket/main.c:92-101 | the buffer holds the twenty bytes of the digest and a zero |
| `WebSocketHandshake.ComputeAcceptKey` | module/sockect/websocket/main.c:64-106 | null exactly when the flag stands nowhere; otherwise the accept key of section 4.2.2 of RFC 6455 if and only if no byte of the digest is zero |
| `WebSocketHandshake.Answer` | module/sockect/websocket/main.c:64-106 | whatever stands around a key, it is answered by the base64 of the digest of key and GUID up to its first zero byte |
| `AcceptExample.DigestOfKey` | module/sockect/websocket/main.c:64-90 | the digest of the key of section 1.3 of RFC 6455 with the GUID, computed through two blocks |
| `AcceptExample.AnswerToExample` | module/sockect/websocket/main.c:64-106 | every request with that key is answered s3pPLMBiTxaQ9kYGzzhZRbK+xOo= |
| `ZeroExample.AnswerToShort` | module/sockect/websocket/main.c:103 | a key whose digest begins with a zero byte is answered by the empty string |
| `ZeroExample.NothingLeft` | module/sockect/websocket/main.c:103 | which is not its accept key |
| `WebSocketHandshake.AcceptKeyExactlyWhen` | module/sockect/websocket/main.c:103 | cutting the digest off at a zero byte changes the encoding, and nothing else does |
| `WebSocketHandshake.EncodeInjective` | module/sockect/websocket/base64.h:14-78 | different byte strings have different encodings |
| `WebSocketFrames.AnalyData` | module/sockect/websocket/main.c:134-200 | for every final masked frame that the buffer holds, the payload as section 5.2 of RFC 6455 defines it; null exactly for the others |
| `WebSocketFrames.Unmask` | module/sockect/websocket/main.c:193-196 | the loop in place is the masking of section 5.3 |
| `WebSocketFrames.PackData` | module/sockect/websocket/main.c:202-237 | the frame parses to the message, in the shortest form; nothing exactly from 65535 bytes on |
| `FrameSpec.ParseBuild` | module/sockect/websocket/main.c:134-237 | parsing inverts building for all three length forms, masked or not |
| `FrameSpec.MaskTwice` | module/sockect/websocket/main.c:193-196 | unmasking inverts masking |
| `FrameSpec.MaskOfZeros` | module/sockect/websocket/main.c:193-196 | zeros are masked to the key itself |
| `FrameSpec.MaskInParts` | module/sockect/websocket/main.c:193-196 | the key starts anew after every four bytes |
| `FrameExamples.MaskedHello` | module/sockect/websocket/main.c:134-237 | the masked frame of section 5.7 of RFC 6455, byte by byte |
| `FrameExamples.UnmaskedHello` | module/sockect/websocket/main.c:202-237 | the unmasked one |
| `FrameExamples.LongFrames` | module/sockect/websocket/main.c:202-237 | and the headers of its longer frames |
| `Wav.SafeRead` | module/audio/audio.c:135-149 | however the reads are cut up: which bytes are stored and where the stream stands, also when it ends or fails before all have come |
| `Wav.ToFmt` | module/audio/audio.c:633-650 | the loop finds what the plain walk finds; what is ahead is the termination measure |
| `Wav.Player.SetParams` | module/audio/audio.c:659-758 | the parameters or the first failure, in the order of the code |
| `Wav.Player.TestWavefile` | module/audio/audio.c:605-794 | refines the walk over the whole file: not a wave file, the same failure, or the parameters of the first fmt chunk with the bytes left over and the unread stream being the data; the byte count is lowered only to a smaller length |
| `WavSpec.ReadBuilt` | module/audio/audio.c:605-794 | a file laid out chunk by chunk, with any fmt body, is read as its fmt body says, whatever other chunks stand before and between |
| `WavSpec.ParsePlain` | module/audio/audio.c:659-758 | a 16-byte body, whatever follows it, yields the fields put into it |
| `WavSpec.ParseExtensible` | module/audio/audio.c:661-673 | a 40-byte extensible body yields the fields put into it, with the tag from its extension |
| `WavSpec.FieldsMean` | module/audio/audio.c:673-758 | which headers can be played and why the others not; the format has the bits of the header, the byte order of the file beyond one byte, floats for 32 bits with that tag alone, and the width the header says for 24 bits |
| `Wav.Player.PlayBuilt` | module/audio/audio.c:605-794 | a file built chunk by chunk is played with exactly that format, channels, rate and data, and is not played exactly when its header makes no sense |
| `WavSpec.Example` | module/audio/audio.c:605-794 | a RIFF file of one channel and 16 bits, byte by byte: S16_LE at 44100 |
| `WavSpec.ExampleHighFirst` | module/audio/audio.c:605-794 | its RIFX counterpart: S16_BE |
| `WavSpec.SkipToFmt` | module/audio/audio.c:633-650 | chunks of other kinds, odd lengths padded, make no difference |
| `WavSpec.SkipToData` | module/audio/audio.c:764-790 | likewise before the data chunk |
| `WavSpec.RoundedIsPadding` | module/audio/audio.c:639 | the rounding is the even padding of the format exactly for lengths other than 0xFFFFFFFF |
| `Blob.Blob.Read` | mail/libs/libmutils/mutils_blob.c:274-299 | as many bytes as there are, from the cursor, which moves behind them |
| `Blob.Blob.Write` | mail/libs/libmutils/mutils_blob.c:538-570 | the bytes laid over the contents at the cursor, the length growing by exactly the shortfall |
| `Blob.Blob.WriteLsbLong` | mail/libs/libmutils/mutils_blob.c:592-607 | at the cursor stand the four bytes of the value, lowest first |
| `Blob.Blob.WriteMsbLong` | mail/libs/libmutils/mutils_blob.c:630-646 | at the cursor stand the four bytes of the value, highest first |
| `Blob.Blob.WriteLsbShort` | mail/libs/libmutils/mutils_blob.c:612-625 | two bytes, lowest first |
| `Blob.Blob.WriteMsbShort` | mail/libs/libmutils/mutils_blob.c:651-663 | two bytes, highest first |
| `Blob.Blob.ReadMsbLong` | mail/libs/libmutils/mutils_blob.c:385-422 | the number the four bytes stand for, highest first; all ones with the error number set exactly when nothing could be read |
| `BlobSpec.DecodeEncode` | mail/libs/libmutils/mutils_blob.c:327-663 | a field reads back as its value truncated to its width, in either byte order, negative values included |
| `BlobSpec.DecodeAllEncodeAll` | mail/libs/libmutils/mutils_blob.c:327-663 | so does a list of fields, in order, whatever follows |
| `BlobSpec.SpliceTwice` | mail/libs/libmutils/mutils_blob.c:562-565 | two writes in a row are one write of both |
| `Blob.WriteAll` | mail/libs/libmutils/mutils_blob.c:538-663 | writing field after field lays their bytes over the contents as one string |
| `Blob.StoreAndLoad` | mail/libs/libmutils/mutils_blob.c:53-58 | write any list of fields, rewind, read the same kinds: the same values at their widths |
| `Sll.List.AppendNodeSorted` | mail/libs/libsll/sll.c:128-155 | exactly the new node, before the first that compares greater; the list stays acyclic |
| `Sll.List.DelNode` | mail/libs/libsll/sll.c:225-243 | exactly the given node is unlinked and the rest keeps its order; nothing happens if it is absent |
| `Sll.List.DestroyNodes` | mail/libs/libsll/sll.c:372-384 | terminates with an empty list, every node released once and in order |
| `SllSpec.InsertedSorted` | mail/libs/libsll/sll.c:128-155 | under a total preorder the result is sorted if and only if the list was |
| `SllSpec.InsertedStable` | mail/libs/libsll/sll.c:145-151 | the new element comes after all that compare equal |
| `SllSpec.InsertAllSortsStably` | mail/libs/libsll/sll.c:128-155 | a list filled by sorted insertion is sorted and keeps the order of equal elements |
| `SllSpec.InsertAllPermutes` | mail/libs/libsll/sll.c:128-155 | and holds exactly what was put in |
| `Sll.FillSorted` | mail/libs/libsll/sll.c:128-155 | a list filled by sorted insertion holds what was put in, no element with comp above zero against a later one, equal ones in their order |
| `AddressList.TakeToken` | mail/libs/libmutils/string.c:449-470 | the token is the first piece, cut off in place, and what follows has the other pieces |
| `AddressList.Tokenizer.Strtok` | mail/libs/libmutils/string.c:414-473 | each call yields the next maximal nonempty run without delimiters, and null exactly when there is none |
| `TokenSpec.PiecesOfJoined` | mail/libs/libmutils/string.c:414-473 | taking apart inverts joining |
| `TokenSpec.PiecesAreRuns` | mail/libs/libmutils/string.c:414-473 | the pieces are nonempty, free of delimiters, and hold all other characters in order |
| `AddressList.Recipients.AddAddressToList` | mail/setget.c:531-593 | the list becomes the old list and one node per nonempty comma-separated piece, with the label or "To"; -1 exactly for no string |
| `Ring.Cycle.Add` | module/buffer/bufferstack.cpp:20-27 | appends the byte, or drops it exactly when 127 wait |
| `Ring.Cycle.Get` | module/buffer/bufferstack.cpp:29-38 | the oldest byte, or 0 when none waits |
| `Ring.StepKeepsOrder` | module/buffer/bufferstack.cpp:20-38 | store first: each test, load, store and index move of either side keeps accepted = delivered, in flight, waiting |
| `Ring.StepKeepsSettled` | module/buffer/bufferstack.cpp:20-38 | interrupts disabled: so does each step of the producer in either order |
| `Ring.StoreIsApart` | module/buffer/bufferstack.cpp:11-12 | the store overwrites neither a waiting byte nor one being taken |
| `Ring.EveryInterleavingIsOrdered` | module/buffer/bufferstack.cpp:20-38 | with the store first, or with interrupts disabled around store and move, the delivered bytes are a prefix of the accepted ones in every interleaving, and at most 127 wait |
| `Ring.OrderedExactlyWhen` | module/buffer/bufferstack.cpp:11-38 | and only then: as C leaves the order of the two open, some interleaving delivers a wrong byte |
| `Ring.RefusedExactlyWhenFull` | module/buffer/bufferstack.cpp:15-16 | a byte is refused only when 127 wait, and none is found only when all accepted ones are delivered |
| `Ring.MovingFirstLosesBytes` | module/buffer/bufferstack.cpp:11 | a run in which moving the end index before the store delivers a wrong byte |
| `Commas.XorExchanges` | mail/libs/libmutils/string.c:37-39 | three exclusive ORs exchange two characters |
| `Commas.ReverseString` | mail/libs/libmutils/string.c:26-42 | the string is reversed in place, and nothing behind it changes |
| `Commas.HowmanyCommas` | mail/libs/libmutils/mutils.c:290-310 | the number of commas that grouping adds |
| `Commas.Commaize` | mail/libs/libmutils/mutils.c:340-367 | for every string the buffer ends up with the string grouped by threes from the right |
| `Commas.PunctuatedReversed` | mail/libs/libmutils/mutils.c:356-366 | punctuating from the left between two reversals is grouping from the right |
| `Commas.DeleteGrouped` | mail/libs/libmutils/mutils.c:340-367 | deleting the commas gives the string back |
| `Commas.CommasAt` | mail/libs/libmutils/mutils.c:358-362 | counted from the right, exactly every fourth character is a comma, and none leads |
| `Commas.GroupedExamples` | mail/libs/libmutils/mutils.c:340-367 | 1,234,567 and 123,456 |
| `DateZone.Offset` | mail/utils.c:523-535 | the clock difference corrected by a day in the direction of the later date |
| `DateZone.DifferenceIs` | mail/utils.c:523-535 | for every instant and every whole-minute zone, however large: the zone less the days beyond the first |
| `DateZone.OffsetIsRightExactlyWhen` | mail/utils.c:523-535 | the true zone if and only if the dates are at most a day apart, so for every zone within one day, across midnight and the new year |
| `DateZone.FormatZone` | mail/utils.c:506-552 | which zone text is printed: its sign, and two digits each for hours and minutes by their codes; how it reads; and when the call fails |
| `DateZone.PrintedReads` | mail/utils.c:548-549 | the printed text read back: the sign is lost between -59 and -1 minutes |
| `DateZone.ZoneReadsBackExactlyWhen` | mail/utils.c:520-549 | the header reads back as the true zone under section 3.3 of RFC 5322 if and only if it is not less than one hour west |
| `Smtp.Session.ReadSmtpLine` | mail/smtp.c:108-155 | one line is read; the code, the separator and the text, or -1 below five characters |
| `Smtp.Session.ReadSmtpMultiLines` | mail/smtp.c:74-99 | further lines as long as one announces another, at most 100 |
| `Smtp.Session.ReadGreetings` | mail/smtp.c:1319-1368 | accepted exactly for a complete greeting with 220 within the limit; ESMTP in any of its lines is noticed |
| `Smtp.Session.SayHelo` | mail/smtp.c:211-247 | one command; more lines are read only after 250, up to the limit |
| `Smtp.Session.SmtpRcptTo` | mail/smtp.c:291-347 | one command per address in list order; the first refusal is followed by RSET and ends the call |
| `Smtp.Session.SendTheMail` | mail/smtp.c:1458-1508 | the refusals before anything is sent, and then the whole conversation |
| `Smtp.Session.Converse` | mail/smtp.c:1508-1821 | for every server: the commands are a prefix of the script (or end in RSET after a refused recipient), no stage is entered unless the one before allowed it, and 0 is returned exactly after QUIT |
| `SmtpSpec.InStepExactlyWhen` | mail/smtp.c:108-395 | with complete replies within the limits, every turn holds exactly the reply to its own command if and only if the commands after HELO are answered by one line each |
| `Smtp.SessionInStepExactlyWhen` | mail/smtp.c:1508-1821 | the same of every session, however it ends |
| `Smtp.SuccessMeans` | mail/smtp.c:1800-1821 | a session that returns 0: the commands of section 4.1.4 of RFC 5321 in order, one RCPT per address in list order, and the server itself replied 220, 250, 250 to every recipient, 354 and 250 |
| `SmtpSyntax.ScriptUnderstood` | mail/smtp.c:211-395 | a server that takes lines apart as in section 4.1.1 of RFC 5321 understands the script as greeting, sender, one recipient per address, data and quit |
| `SmtpSyntax.MailFromUnderstood` | mail/smtp.c:255 | the sender comes through exactly when it holds no closing bracket; the blank after the colon is not in the grammar |
| `SmtpSyntax.RcptToUnderstood` | mail/smtp.c:327 | likewise the recipient |
| `SmtpSyntax.NotifiedNotUnderstood` | mail/smtp.c:322-323 | with NOTIFY_RCPT the path lacks its brackets and is not understood |
| `SmtpSyntax.BracketedUnderstood` | mail/smtp.c:322-323 | unless the address brings them itself |
| `Smtp.CodeExamples` | mail/smtp.c:108-155 | some lines, and the code and separator taken from them |

## Left out

- The epoll branch of `module/input/in_event.c`, the real select, fcntl and close calls, debug output and FDE_DONT_CLOSE.
- `base64_decode` and `find_pos` of the WebSocket code: padded input gives one extra zero byte, and nothing calls them.
- AUTH, STARTTLS and SSL paths of `send_the_mail`; the list of server capabilities that HELO fills for them.
- The message body (`smtpMail`): MIME parts, attachments and headers; only its place in the dialogue is modelled.
- Line lengths beyond BUFSIZ in the mail dialogue, and the bytes of a line below the level of lines.
- `rfc822_date` beyond the zone: the day and time text come from strftime.
- Allocation failure, logging and verbose printing; NULL passed for a blob, a list or a string where the code returns at once.
- `mutils_read_blob_string`, `mutils_write_blob_string` and the file helpers of the blob.
- Playback of the samples, the other audio formats, capture, serial ports, sockets and HID devices.
- `destroyNode`, which only frees the data before `delNode`; use of a node after it has been freed.
- Reactor.Reactor.Perform: installs and creates that `Install` and `Create` show to break the reactor are outside the runs, and calls on fdevents never installed; what the code does after such a call is not modelled.
- Reactor.Reactor.Loop: the slot of the notification descriptor must be free, because `fdevent_create` would otherwise evict its occupant, as `Create` states.
- WebSocketHandshake.FetchSecKey: the key line must be terminated and fit the key buffer, because the code copies without looking at either limit.
- WebSocketHandshake.ComputeAcceptKey: the key line must leave room for the GUID besides; the code appends without looking.
- WebSocketHandshake.Htoi: runs of at most seven digits, beyond which the int of the code may overflow; the only caller asks for two.
- WebSocketFrames.AnalyData: the buffer must hold the frame that its header announces, because the code compares only the first two bytes with the buffer length. The loop counter is an int against an unsigned long (line 193), so payloads of 2^31 bytes or more, which the code does not unmask fully, are not modelled.
- MailBase64.EncodeNoFormat: lengths are unbounded integers, while the code computes them as int.
- WebSocketHandshake.Base64Encode: likewise.
