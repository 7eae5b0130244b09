# Verified models of the crawl and tool code

Dafny models of the parts of the repository that compute something, with proofs of what those parts are for.
`dafny verify dfyconfig.toml` checks the whole project.

| files | part of the repository |
|---|---|
| `Basics` | what several modules share |
| `Machine`, `Rfc1321`, `Rfc1321Laws`, `Md5Rounds`, `Md5`, `Md5Streaming` | the streaming MD5 class: its fields, its unrolled rounds, RFC 1321 (sections 3.1 to 3.5) as the reference, and what the parts of the reference do to bits |
| `UrlCodec`, `UrlLaws`, `UrlBuffers` | `URLEncoder`: a recursive meaning of decoding and encoding, what it does with every digit and byte, and the four methods that work on buffers |
| `Queues`, `Dispatch`, `Pipeline`, `PipelineSafety`, `PipelineTheorems`, `PipelineScans`, `PipelineDownScans`, `PipelineFailures` | the two queues, the two scans of the seed file, and the whole task as a state machine over atomic steps: its invariant, its promises, what one scan of each dispatcher does in a run, and what a failed open does |
| `Text`, `Paths`, `SeedFile`, `SeedWriter`, `Crawl` | trimming, splitting and percent coding; the page and item paths; the seed file from the writer to every reader; what a finished crawl leaves on disk |
| `SqlText`, `SqlMeaning`, `SqlLaws` | the SQL text builder, what a server reads in a built statement, and which rows its conditions select |
| `FileList`, `StringSort`, `ByteSplit` | the list of files ordered by time, the quicksort with a moving hole, the byte splitter |
| `IpIndex`, `IpFile`, `Cookie` | the address database with its index and cache, and its format as a writer lays it out; the session cookie's printer and reader |

Code that works on fields, arrays or linked nodes is modelled by classes and methods with those fields, arrays and
nodes. Each is proved against a function or predicate on values, and the promises are lemmas about those.

## How to read the models

* Words are integers with an explicit range; sums wrap through `Machine.Wrap`, and the count of bits is kept modulo
  2^64 as the two count words keep it. `size_t` lengths given to `update` are bounded only where the code needs it:
  `Md5.IndexFits` is the condition under which the 32-bit block index does not wrap, and
  `Md5Streaming.BlockLoopEndsIff` shows that the block loop never ends otherwise. Every length up to 2^32 - 64 fits
  (`Md5Streaming.LengthFits`).
* `digest` raises the finished flag, but the calls of `update` inside `final` lower it again, so the flag never
  saves a second computation. `Md5.Digested` follows the code.
* `final` restores state and count but not the buffer. With 56 to 63 pending bytes these are overwritten by padding,
  and the hasher goes on as one that was fed another message (`Md5Streaming.Resumed`).
* The header comments of the encoders promise -1 on an error. The code cuts the output short and returns the length
  that fitted; the model follows the code. The length-based decoder answers an empty source with 0 and leaves the
  destination alone, while the NUL-terminated one writes the terminator; they agree on every other input.
* The queues' waits on condition variables are guards: an add takes place when there is room. One locked section is
  one step. (The comment beside the timed wait says three seconds where the code sets one; no property depends on it.)
* `Pipeline` takes one program point of a dispatcher or worker at a time, so the two reads of a worker's exit test,
  and of the dispatcher's drain loop and exit flag, are separate steps. Remote services and the disk act through the
  parameters of an action; item files appear at any time and never disappear. Seed lines are the well-formed ones.
* When the parse dispatcher cannot open the seed file its scan returns 0, which ends its loop with items missing; when
  the download dispatcher cannot, it declares its queue finished and goes on filling it. Both are steps of the model
  and the exceptions that `PipelineTheorems` names. `PipelineFailures` says exactly when they bite: a run can stop with
  an item missing in just the configurations with a seed line, from every point where the parse dispatcher opens the
  file; a worker can leave a batch behind in just those with a seed line and a download host; and work left by all
  workers is never taken up again, so the task never ends.
* `trim` and `rtrim` on a text of trimmed characters only read before the text; the methods ask for a kept character
  exactly where the code does not stop by itself.
* A map given to the SQL builder is the sequence of its entries in map order. A pattern condition puts its
  placeholder between quotes, so its parameter has no placeholder and the count test refuses the statement:
  `SqlMeaning.UpdateMeans` gives the exact condition for the count. A name may hold backticks as long as reading it
  ends inside its own pair again (`SqlMeaning.IsName`, exact by `SqlMeaning.AssignFillsIff`). An update whose conditions all lack values has no `WHERE`.
* A seed line keeps a query exactly when the query is not blank at its end and has no tab or line end
  (`SeedFile.ReadBackIff`).
* In the address database a row is examined only in front of `offset - 1028`, as the code has it. A file whose slices
  are too short to unpack makes a lookup raise, which is an outcome of the model; the cache keeps no entry for it.
* A parse worker compares a page's length without sign, so a negative page limit is larger than any page there; the
  download dispatcher compares file sizes with sign.
* A scan of either dispatcher is a stretch of a run that begins with opening the seed file; `PipelineScans` and
  `PipelineDownScans` say what it let go, in which batches, while workers and the disk go on around it.
* `Rfc1321Laws`, `UrlLaws` and `SqlLaws`, and the members that spell out a format or an alphabet, state what the small
  functions mean that a method and its specification share: on bits, on digits and bytes, and on the rows a condition
  selects. How a column compares two texts is a parameter there (`SqlLaws.Order`).
* The repository only reads the address database. `IpFile` lays a file out in the format the lookup expects and shows
  that lookups in it give the texts that were written.

## Model

| member | source | states |
|---|---|---|
| Rfc1321Laws.FChooses | down_parse_client/utils/MD5.cpp:34-34 | F takes y's bit where x has a 1 and z's bit where it has a 0 |
| Rfc1321Laws.GChooses | down_parse_client/utils/MD5.cpp:35-35 | G takes x's bit where z has a 1 and y's bit where it has a 0 |
| Rfc1321Laws.GIsF | down_parse_client/utils/MD5.cpp:35-35 | G is F with its arguments turned |
| Rfc1321Laws.HKeeps | down_parse_client/utils/MD5.cpp:36-36 | H keeps x's bit where y and z both have a 1 |
| Rfc1321Laws.HKeepsToo | down_parse_client/utils/MD5.cpp:36-36 | and where both have a 0 |
| Rfc1321Laws.HFlips | down_parse_client/utils/MD5.cpp:36-36 | H flips x's bit where only y has a 1 |
| Rfc1321Laws.HFlipsToo | down_parse_client/utils/MD5.cpp:36-36 | and where only z has |
| Rfc1321Laws.IFlips | down_parse_client/utils/MD5.cpp:37-37 | I flips y's bit where x has a 1 or z a 0 |
| Rfc1321Laws.IKeeps | down_parse_client/utils/MD5.cpp:37-37 | and keeps it elsewhere |
| Rfc1321Laws.TurnBy7 | down_parse_client/utils/MD5.cpp:41-41 | a rotation by 7 moves the low 25 bits up and brings the high 7 in at the bottom |
| Rfc1321Laws.TurnBy12 | down_parse_client/utils/MD5.cpp:41-41 | a rotation by 12 moves the low 20 bits up and brings the high 12 in at the bottom |
| Rfc1321Laws.TurnBy17 | down_parse_client/utils/MD5.cpp:41-41 | a rotation by 17 moves the low 15 bits up and brings the high 17 in at the bottom |
| Rfc1321Laws.TurnBy22 | down_parse_client/utils/MD5.cpp:41-41 | a rotation by 22 moves the low 10 bits up and brings the high 22 in at the bottom |
| Rfc1321Laws.TurnBy5 | down_parse_client/utils/MD5.cpp:41-41 | a rotation by 5 moves the low 27 bits up and brings the high 5 in at the bottom |
| Rfc1321Laws.TurnBy9 | down_parse_client/utils/MD5.cpp:41-41 | a rotation by 9 moves the low 23 bits up and brings the high 9 in at the bottom |
| Rfc1321Laws.TurnBy14 | down_parse_client/utils/MD5.cpp:41-41 | a rotation by 14 moves the low 18 bits up and brings the high 14 in at the bottom |
| Rfc1321Laws.TurnBy20 | down_parse_client/utils/MD5.cpp:41-41 | a rotation by 20 moves the low 12 bits up and brings the high 20 in at the bottom |
| Rfc1321Laws.TurnBy4 | down_parse_client/utils/MD5.cpp:41-41 | a rotation by 4 moves the low 28 bits up and brings the high 4 in at the bottom |
| Rfc1321Laws.TurnBy11 | down_parse_client/utils/MD5.cpp:41-41 | a rotation by 11 moves the low 21 bits up and brings the high 11 in at the bottom |
| Rfc1321Laws.TurnBy16 | down_parse_client/utils/MD5.cpp:41-41 | a rotation by 16 moves the low 16 bits up and brings the high 16 in at the bottom |
| Rfc1321Laws.TurnBy23 | down_parse_client/utils/MD5.cpp:41-41 | a rotation by 23 moves the low 9 bits up and brings the high 23 in at the bottom |
| Rfc1321Laws.TurnBy6 | down_parse_client/utils/MD5.cpp:41-41 | a rotation by 6 moves the low 26 bits up and brings the high 6 in at the bottom |
| Rfc1321Laws.TurnBy10 | down_parse_client/utils/MD5.cpp:41-41 | a rotation by 10 moves the low 22 bits up and brings the high 10 in at the bottom |
| Rfc1321Laws.TurnBy15 | down_parse_client/utils/MD5.cpp:41-41 | a rotation by 15 moves the low 17 bits up and brings the high 15 in at the bottom |
| Rfc1321Laws.TurnBy21 | down_parse_client/utils/MD5.cpp:41-41 | a rotation by 21 moves the low 11 bits up and brings the high 21 in at the bottom |
| Rfc1321Laws.ShiftsAre | down_parse_client/utils/MD5.cpp:16-31 | the four rotation amounts of each round |
| Rfc1321Laws.WordOfBytes | down_parse_client/utils/MD5.cpp:322-328 | four bytes are a word, low byte first |
| Rfc1321Laws.BytesOfWord | down_parse_client/utils/MD5.cpp:309-317 | a word is stored as the four bytes that stand for it |
| Rfc1321Laws.PaddingIs | down_parse_client/utils/MD5.cpp:202-211 | a one bit, zeros, and the bit count modulo 2^64 in eight bytes, low byte first, up to a whole block |
| Rfc1321Laws.InitialBytes | down_parse_client/utils/MD5.cpp:117-120 | the initial registers are the bytes 01 23 45 67 89 ab cd ef fe dc ba 98 76 54 32 10 |
| Rfc1321Laws.StepOfRound1 | down_parse_client/utils/MD5.cpp:46-50 | a step of round 1 out of a digest in the test suite of RFC 1321, word for word |
| Rfc1321Laws.StepOfRound2 | down_parse_client/utils/MD5.cpp:51-55 | a step of round 2 of the same digest |
| Rfc1321Laws.StepOfRound3 | down_parse_client/utils/MD5.cpp:56-60 | a step of round 3 |
| Rfc1321Laws.StepOfRound4 | down_parse_client/utils/MD5.cpp:61-65 | a step of round 4 |
| Md5Rounds.StepIsOp | down_parse_client/utils/MD5.cpp:43-67 | one table step of RFC 1321 is one macro of its round, with the registers turned by one place |
| Md5Rounds.FourSteps | down_parse_client/utils/MD5.cpp:229-232 | four macro lines, each with the registers named one place further, are four consecutive table steps |
| Md5Rounds.Round1 | down_parse_client/utils/MD5.cpp:228-244 | the unrolled round 1 does table steps 0 to 15: word order i |
| Md5Rounds.Round2 | down_parse_client/utils/MD5.cpp:246-262 | the unrolled round 2 does table steps 16 to 31: word order 5i+1 mod 16 |
| Md5Rounds.Round3 | down_parse_client/utils/MD5.cpp:264-280 | the unrolled round 3 does table steps 32 to 47: word order 3i+5 mod 16 |
| Md5Rounds.Round4 | down_parse_client/utils/MD5.cpp:282-298 | the unrolled round 4 does table steps 48 to 63: word order 7i mod 16 |
| Md5.MD5.constructor | down_parse_client/utils/MD5.cpp:78-87 | a new hasher is a reset one |
| Md5.MD5.ResetState | down_parse_client/utils/MD5.cpp:111-121 | registers, count and flag are as RFC 1321 starts; buffer and digest stay |
| Md5.MD5.PendingIndex | down_parse_client/utils/MD5.cpp:161-161 | the low count word alone gives the number of pending bytes |
| Md5.MD5.Update | down_parse_client/utils/MD5.cpp:154-186 | the whole new state: all full blocks of pending bytes and input are folded in, the rest is pending, the rest of the buffer stale |
| Md5.MD5.Keep | down_parse_client/utils/MD5.cpp:184-185 | the copied bytes are in place and the others as before |
| Md5.MD5.Absorb | down_parse_client/utils/MD5.cpp:168-178 | the buffered block and the input's blocks are compressed in order, and the index stops at the last boundary |
| Md5.MD5.CountBits | down_parse_client/utils/MD5.cpp:163-166 | the two count words grow by eight times the length modulo 2^64 |
| Md5.CarriedCount | down_parse_client/utils/MD5.cpp:163-166 | the carry taken from the wrapped low word is the carry of the 64-bit sum, for every length |
| Md5.MD5.Transform | down_parse_client/utils/MD5.cpp:222-304 | the registers become RFC 1321's compression of the block |
| Md5.MD5.Encode | down_parse_client/utils/MD5.cpp:309-317 | words become bytes, low byte first; bytes behind stay |
| Md5.MD5.Decode | down_parse_client/utils/MD5.cpp:322-328 | bytes become words, low byte first |
| Md5.MD5.Final | down_parse_client/utils/MD5.cpp:191-219 | pads and hashes, stores the digest, restores registers and count, and leaves the buffer as padding left it |
| Md5.MD5.CountOut | down_parse_client/utils/MD5.cpp:202-203 | the length bytes are the 64-bit count, low byte first |
| Md5.MD5.Restore | down_parse_client/utils/MD5.cpp:216-218 | registers and count are the saved ones |
| Md5.MD5.Digest | down_parse_client/utils/MD5.cpp:102-108 | computes unless the flag is up, and hands out the stored digest |
| Md5.MD5.BytesToHexString | down_parse_client/utils/MD5.cpp:331-342 | two digits a byte, high digit first |
| Md5.MD5.ToString | down_parse_client/utils/MD5.cpp:345-347 | the digest in hex, with the effect of computing it |
| Md5Streaming.UpdateHolds | down_parse_client/utils/MD5.cpp:154-186 | after any message so far, one more update gives the fold of the longer message, its tail and its bit count |
| Md5Streaming.ChunksHold | down_parse_client/utils/MD5.cpp:154-186 | a reset hasher fed any chunks holds their concatenation |
| Md5Streaming.ChunkingNeverMatters | down_parse_client/utils/MD5.cpp:154-186 | two hashers fed the same bytes in different chunks have the same registers, count, pending bytes and digest |
| Md5Streaming.PaddedHolds | down_parse_client/utils/MD5.cpp:205-211 | the two padding updates feed exactly the padding of RFC 1321 sections 3.1 and 3.2 |
| Md5Streaming.DigestIsRfc1321 | down_parse_client/utils/MD5.cpp:191-219 | the digest is RFC 1321's digest of the message held, for every message |
| Md5Streaming.DigestResumes | down_parse_client/utils/MD5.cpp:191-219 | after a digest the hasher holds the same message, or with 56 or more pending bytes the one with the padding's leftover in their place |
| Md5Streaming.DigestKeepsMessageIff | down_parse_client/utils/MD5.cpp:191-219 | a digest leaves the pending bytes exactly when fewer than 56 are pending, or the overwritten ones happen to be equal |
| Md5Streaming.DigestAfterDigest | down_parse_client/utils/MD5.cpp:102-108 | what a digest, or more input and a digest, gives after a digest: below the bound as if the first had not been asked for |
| Md5Streaming.DigestLosesPending | down_parse_client/utils/MD5.cpp:206-208 | a message with 56 pending bytes whose digest changes what is pending |
| Md5Streaming.BlockLoopEndsIff | down_parse_client/utils/MD5.cpp:176-177 | the block loop ends exactly when its 32-bit index stays clear of 2^32 - 63 |
| Md5Streaming.BlockLoopRunsOn | down_parse_client/utils/MD5.cpp:176-177 | one pending byte and 2^32 - 1 bytes of input: the guard holds in every round |
| Md5Streaming.LengthFits | down_parse_client/utils/MD5.cpp:176-177 | every length up to 2^32 - 64 is safe, whatever is pending |
| Md5Streaming.HexIsLowerCase | down_parse_client/utils/MD5.cpp:331-342 | two characters a byte, all lower-case hex digits |
| Md5Streaming.HexSpells | down_parse_client/utils/MD5.cpp:331-342 | the digits of a byte are the characters at its high and its low half in "0123456789abcdef" |
| Md5Streaming.HexIsInjective | down_parse_client/utils/MD5.cpp:331-342 | different bytes print differently |
| Md5Streaming.UpdateFromFile | down_parse_client/utils/MD5.cpp:134-148 | reading a file in buffers feeds its whole content |
| Md5Streaming.HexDigestOf | down_parse_client/clientConfig.cpp:272-297 | one hasher, reset for each query, prints the query's RFC 1321 digest |
| UrlCodec.DecodeIsPrintable | down_parse_client/utils/URLEncoder.cpp:125-329 | no decoding has a byte at or below 0x20 |
| UrlCodec.EscapeSurvives | down_parse_client/utils/URLEncoder.cpp:44-81 | encoding keeps a raw '%' and the bytes behind it, so it opens an escape afterwards exactly when it did before |
| UrlCodec.EncodedByteDecodes | down_parse_client/utils/URLEncoder.cpp:44-81 | the coded form of a byte decodes to its normal form, whatever follows |
| UrlCodec.DecodeEncode | down_parse_client/utils/URLEncoder.cpp:19-329 | decoding an encoding gives the normal form without an escape in the input, and something shorter with one |
| UrlCodec.RoundTripIsNormalIff | down_parse_client/utils/URLEncoder.cpp:19-329 | it is the normal form exactly when the input has no escape |
| UrlCodec.RawEscapeIsLost | down_parse_client/utils/URLEncoder.cpp:19-329 | "%41" does not return as its normal form |
| UrlCodec.NormalIsIdentityIff | down_parse_client/utils/URLEncoder.cpp:19-329 | the normal form is the input exactly when every byte is above 0x20 and no backslash comes before ';' or '?' |
| UrlCodec.RoundTripIsIdentityIff | down_parse_client/utils/URLEncoder.cpp:19-329 | the round trip is the identity exactly on those inputs that also have no escape |
| UrlLaws.CaseIsIgnored | down_parse_client/utils/URLEncoder.cpp:228-243 | a digit has the same value in either case: its place in "0123456789ABCDEF" |
| UrlLaws.EscapeSpellsItsByte | down_parse_client/utils/URLEncoder.cpp:225-307 | "%XY" in any mixture of cases is the byte it spells when that is above 0x20, and stays as it is otherwise |
| UrlLaws.DecodeIgnoresCase | down_parse_client/utils/URLEncoder.cpp:225-307 | an escape decodes as the one with its digits in upper case |
| UrlLaws.OneByteDecodes | down_parse_client/utils/URLEncoder.cpp:151-224 | outside an escape: tabs and line ends go, other bytes up to the blank are spelled out, '\\' becomes '/' in front of the first ';' or '?', the rest stays |
| UrlLaws.EncodedByteIs | down_parse_client/utils/URLEncoder.cpp:19-41 | printable ASCII but the back quote stays, a blank becomes '+', anything else is spelled out |
| UrlLaws.EncodeIsAscii | down_parse_client/utils/URLEncoder.cpp:44-81 | whatever the source, the encoder puts out printable ASCII only |
| UrlBuffers.Decoding | down_parse_client/utils/URLEncoder.cpp:125-329 | ends on every input, gives the reference's bytes and length exactly when these are below destsize - 4 and -1 otherwise, and writes nothing behind its reach |
| UrlBuffers.DecodingString | down_parse_client/utils/URLEncoder.cpp:333-537 | the same for a NUL-terminated source |
| UrlBuffers.CommonByte | down_parse_client/utils/URLEncoder.cpp:149-224 | one byte outside an escape: taken, dropped, or the start of an attempt |
| UrlBuffers.FirstDigit | down_parse_client/utils/URLEncoder.cpp:225-268 | which first digits open an escape, and their value |
| UrlBuffers.LastDigit | down_parse_client/utils/URLEncoder.cpp:269-307 | a second digit closes the escape into one byte; anything else sends the scan back to the '%' |
| UrlBuffers.Encoding | down_parse_client/utils/URLEncoder.cpp:44-81 | writes the encoding of the longest run of bytes that fits, and its terminator |
| UrlBuffers.EncodingString | down_parse_client/utils/URLEncoder.cpp:85-121 | the same for a NUL-terminated source |
| UrlBuffers.DecodersAgree | down_parse_client/utils/URLEncoder.cpp:125-537 | both decoders return the same length and bytes on every non-empty text without a NUL |
| UrlBuffers.DecodeBothWays | down_parse_client/utils/URLEncoder.cpp:125-537 | calling both decoders on the same non-empty text gives the same result and the same bytes |
| UrlBuffers.EncodeThenDecode | down_parse_client/utils/URLEncoder.cpp:44-329 | calling the encoder and the decoder one after the other leaves the normal form exactly when the source has no escape |
| UrlBuffers.RoundTripThroughBuffers | down_parse_client/utils/URLEncoder.cpp:44-329 | encoding into one buffer and decoding from it into another gives the normal form |
| Queues.TakeCountDelivers | down_parse_client/parse_client/parse_queue.cpp:83-92 | a get on a non-empty queue takes all of it or one fewer than asked, so something exactly when two or more were asked or one line waits |
| Queues.ParseQueue.AddQueue | down_parse_client/parse_client/parse_queue.cpp:40-59 | the lines go in front of the queue and leave the caller's list; none is lost and the bound of 50 holds |
| Queues.ParseQueue.GetQueue | down_parse_client/parse_client/parse_queue.cpp:64-101 | takes the first lines, keeps the others in order, loses none |
| Queues.FirstBatchWins | down_parse_client/down_client/down_queue.cpp:80-88 | a merged map has the proxies of all batches, each with the lines of the first batch that has it |
| Queues.DownQueue.AddQueue | down_parse_client/down_client/down_queue.cpp:38-59 | a batch goes to the end; an empty one is refused |
| Queues.DownQueue.GetQueue | down_parse_client/down_client/down_queue.cpp:64-95 | empties the queue into the first-wins merge |
| Dispatch.SendParse | down_parse_client/parse_client/parse_func.cpp:89-154 | the batches are exactly the lines without item file, in order, one alone and then 20 at a time; the count is theirs |
| Dispatch.SendDown | down_parse_client/down_client/down_func.cpp:87-173 | the same for missing or too small pages, with the batch size from the configuration, and exactly the small pages are removed |
| Dispatch.NothingMissing | down_parse_client/parse_client/parse_func.cpp:124-127 | a scan counts nothing exactly when every item was there |
| Dispatch.MissingTogether | down_parse_client/parse_client/parse_func.cpp:100-140 | what a scan misses in two stretches of lines is what it misses in the one and then in the other |
| PipelineSafety.InitInv | down_parse_client/task_server_thrift/down_parse_client_serviceHandler.cpp:78-86 | the invariant holds before anything has started |
| PipelineSafety.StepKeeps | down_parse_client/task_server_thrift/down_parse_client_serviceHandler.cpp:78-103 | every step of task, dispatcher, worker or environment keeps the invariant |
| PipelineSafety.ParserKeeps | down_parse_client/parse_client/parse_func.cpp:47-62 | every step of the parse dispatcher does |
| PipelineSafety.ParseWorkerKeeps | down_parse_client/parse_client/send_parse.cpp:49-69 | every step of a parse worker does |
| PipelineSafety.DownerKeeps | down_parse_client/down_client/down_func.cpp:46-61 | every step of the download dispatcher does |
| PipelineSafety.DownWorkerKeeps | down_parse_client/down_client/send_request.cpp:47-75 | every step of a download worker does |
| PipelineSafety.Always | down_parse_client/task_server_thrift/down_parse_client_serviceHandler.cpp:78-103 | the invariant holds in every state of every run |
| PipelineTheorems.ExitMeansAllItems | down_parse_client/parse_client/parse_func.cpp:47-62 | in every run, once the exit flag is up every seed line has its item file, unless the last scan could not open the seed file |
| PipelineTheorems.DownloadStaysInLoop | down_parse_client/down_client/down_func.cpp:46-57 | while an item is missing the download dispatcher is in its loop and decides to stay |
| PipelineTheorems.RunIsMonotone | down_parse_client/task_server_thrift/down_parse_client_serviceHandler.cpp:78-103 | flags stay up and item files stay there over any stretch of a run |
| PipelineTheorems.FinishedParseQueueStaysEmpty | down_parse_client/parse_client/parse_func.cpp:48-62 | from the finish flag on the parse queue is empty for good |
| PipelineTheorems.FinishedDownQueueStaysEmpty | down_parse_client/down_client/down_func.cpp:48-61 | the same for the download queue, as long as no open has failed |
| PipelineTheorems.ParseWorkerLeavesNoWork | down_parse_client/parse_client/send_parse.cpp:52-57 | a worker whose two reads were separate steps leaves with nothing queued then or later |
| PipelineTheorems.DownWorkerLeavesNoWork | down_parse_client/down_client/send_request.cpp:47-52 | the same for a download worker |
| PipelineTheorems.LinesAreConserved | down_parse_client/parse_client/parse_queue.cpp:40-101 | in every state the lines ever added are those queued, in hand and worked off, and both queues keep their bounds |
| PipelineTheorems.NothingIsLost | down_parse_client/parse_client/parse_func.cpp:58-62 | when the parse dispatcher has joined its workers, every line it queued has been worked off |
| PipelineTheorems.OfferFitsEmptyQueue | down_parse_client/parse_client/parse_queue.cpp:48-51 | no batch is ever too big for an empty queue, so no add waits for ever on its own size |
| PipelineTheorems.CrawledMeansAllEnded | down_parse_client/task_server_thrift/down_parse_client_serviceHandler.cpp:81-100 | status "3" means both dispatchers and all workers have ended |
| PipelineTheorems.CrawledMeansAllItems | down_parse_client/task_server_thrift/down_parse_client_serviceHandler.cpp:81-100 | and every item is there, unless neither side ran or the last scan could not open the seed file |
| PipelineTheorems.WorkBringsItem | down_parse_client/parse_client/send_parse.cpp:79-190 | what working off a line does: nothing without its page or with its item there; a page below the limit goes; an answer brings the item |
| PipelineTheorems.ItemNeedsPage | down_parse_client/parse_client/send_parse.cpp:79-190 | in every run a new item comes from outside, or from a worker that works off its line and found a page that is large enough |
| PipelineScans.EveryScanBegins | down_parse_client/parse_client/parse_func.cpp:89-97 | wherever a run finds the parse dispatcher in a scan, that scan began with opening the file |
| PipelineScans.LookIs | down_parse_client/parse_client/parse_func.cpp:124-140 | a line whose item is there is passed over; any other joins those in hand, or fills the batch when the count is a multiple of 20 |
| PipelineScans.ScanQueuesMissing | down_parse_client/parse_client/parse_func.cpp:89-154 | all through a scan of a run, the batches it queued, the one on offer and the lines in hand are, in order, the lines whose item was not there when they were looked at, and it counts them |
| PipelineScans.ScanAddsWhatItMissed | down_parse_client/parse_client/parse_func.cpp:89-154 | a finished scan has looked at every line, queued exactly the missing ones in order, one alone and then twenty at a time, and returns their number |
| PipelineDownScans.EveryDownScanBegins | down_parse_client/down_client/down_func.cpp:101-113 | wherever a run finds the download dispatcher in a scan, that scan began with opening the file |
| PipelineDownScans.DownLookIs | down_parse_client/down_client/down_func.cpp:136-161 | a line with a good page is passed over; any other joins those in hand, or goes on offer with them when the count is a multiple of the batch size above 0 |
| PipelineDownScans.DownScanQueuesMissing | down_parse_client/down_client/down_func.cpp:87-173 | all through a scan of a run, the batches it offered, the one on offer and the lines in hand are, in order, the lines whose page was absent or at most the limit when they were looked at, and it counts them |
| PipelineDownScans.DownScanOffersWhatItMissed | down_parse_client/down_client/down_func.cpp:87-173 | a finished scan has looked at every line, offered exactly those lines in order, in batches of the asked size with one line more in the first, and returns their number |
| PipelineDownScans.LookRemovesSmallPage | down_parse_client/down_client/down_func.cpp:136-146 | looking at a line removes its page exactly when that is there and at most the limit, and no other |
| PipelineDownScans.QueueHoldsOffers | down_parse_client/down_client/down_queue.cpp:38-95 | in every state of a run the queue holds exactly the batches offered since it was last emptied |
| PipelineDownScans.WorkerGetsOffers | down_parse_client/down_client/down_queue.cpp:64-95 | a worker that empties it gets for each proxy the first batch offered since then |
| PipelineFailures.FailedOpenRaisesExit | down_parse_client/parse_client/parse_func.cpp:47-62 | from every reachable point where the parse dispatcher opens the file, one failed open leads to the exit flag with disk and download side unchanged |
| PipelineFailures.ExitWithoutItemIff | down_parse_client/parse_client/parse_func.cpp:91-95 | a run can raise the exit flag with an item missing exactly in the configurations with a seed line |
| PipelineFailures.ExitWithoutItemIsFailedOpen | down_parse_client/parse_client/parse_func.cpp:91-95 | and every such state comes from a scan that could not open the file |
| PipelineFailures.FailedOpenStrandsBatch | down_parse_client/down_client/down_func.cpp:102-107 | in every configuration with a seed line a failed open lets all workers leave before a batch is queued |
| PipelineFailures.FinishedWithWorkIff | down_parse_client/down_client/down_func.cpp:102-107 | a queue can be declared finished with work in it exactly when there is a seed line |
| PipelineFailures.WorkerLeavesWorkIff | down_parse_client/down_client/send_request.cpp:47-52 | a worker can leave a batch behind exactly when there is a seed line and a host |
| PipelineFailures.StrandedForGood | down_parse_client/down_client/down_func.cpp:49-55 | work left by all workers stays queued in every continuation, the dispatcher never ends and the task is never reported as crawled |
| StringSort.StrcmpFlips | wendao/utils.c:21-30 | the comparison is antisymmetric and zero only for equal strings |
| StringSort.StrcmpIsBefore | wendao/utils.c:21-21 | negative exactly when, at the first place where the two differ, the first has ended or has the smaller byte |
| StringSort.HoleMoves | wendao/utils.c:24-32 | overwriting the hole with a cell moves the hole there and keeps the strings, the pivot counted in the hole |
| StringSort.ScanLeft | wendao/utils.c:21-23 | skips, from the right, exactly strings that are not below the pivot |
| StringSort.ScanRight | wendao/utils.c:27-29 | skips, from the left, exactly strings below the pivot |
| StringSort.Partition | wendao/utils.c:18-34 | ends, puts the pivot between smaller strings and the rest, and only rearranges the range |
| StringSort.QsortString | wendao/utils.c:14-37 | ends with no string of the range behind one that it comes before, a permutation of what it was, and everything else untouched |
| FileList.FileLinkHeader.Find | tranFiles/file_list.c:59-69 | walks the nodes and finds the name exactly when it is listed |
| FileList.FileLinkHeader.Place | tranFiles/file_list.c:78-84 | stops behind the last node that is strictly older |
| FileList.FileLinkHeader.Link | tranFiles/file_list.c:85-95 | relinks the nodes with the new one in its place and counts it |
| FileList.FileLinkHeader.Add | tranFiles/file_list.c:45-99 | the list becomes the one with the file inserted before equally old files, or stays if it was sent or is listed |
| FileList.FileLinkHeader.Delete | tranFiles/file_list.c:102-131 | hands out and unlinks the first file if its name fits; the abnormal exit is never taken |
| FileList.PositionIs | tranFiles/file_list.c:78-84 | the place is fixed by what is strictly older before it and not older behind it |
| FileList.CallKeepsOrder | tranFiles/file_list.c:45-131 | one call keeps the list ordered, without a name twice, and every entry accounted for |
| FileList.RunsKeepOrder | tranFiles/file_list.c:45-131 | so does every run of calls |
| FileList.OldestGoesFirst | tranFiles/file_list.c:110-120 | what a call hands out after any run is at least as old as every file that waits |
| FileList.DeleteDelivers | tranFiles/file_list.c:102-131 | the first name goes out unless there is none, the 32-bit count is zero, or the name does not fit; then nothing changes |
| FileList.AddDelivers | tranFiles/file_list.c:45-99 | a file that was sent or is listed changes nothing; any other goes behind all strictly older files and before the rest |
| FileList.DeletesHandOut | tranFiles/file_list.c:102-131 | with a long enough buffer n deletes hand out the first n files in order |
| FileList.EverythingIsSent | tranFiles/file_list.c:45-131 | after any run the list can be emptied, and every file taken in has then gone out once |
| Text.TrimRightOf | down_parse_client/utils/Utils.cpp:79-89 | trimming takes a tail of listed characters and stops at a kept one |
| Text.Rtrim | down_parse_client/utils/Utils.cpp:79-89 | the loop computes that, and ends when some character is kept |
| Text.Trim | down_parse_client/utils/Utils.cpp:46-63 | both sides, for every text |
| Text.TrimChar | down_parse_client/utils/Utils.cpp:31-44 | both sides, for one character |
| Text.Explode | down_parse_client/utils/Utils.cpp:93-123 | appends the pieces; none for an empty text, the characters for an empty delimiter |
| Text.JoinPieces | down_parse_client/utils/Utils.cpp:93-123 | joining the pieces gives the text back |
| Text.JoinExploded | down_parse_client/utils/Utils.cpp:93-123 | so it does for every text and every delimiter, the empty one too |
| Text.PiecesAvoid | down_parse_client/utils/Utils.cpp:93-123 | no piece contains the delimiter |
| Text.PiecesAround | down_parse_client/utils/Utils.cpp:93-123 | splitting at a character splits both sides of it, for any texts |
| Text.ToHex | down_parse_client/utils/Utils.cpp:164-166 | an upper-case digit that `FromHex` takes back |
| Text.UrlEncode | down_parse_client/utils/Utils.cpp:187-202 | appends the encoding |
| Text.UrlDecode | down_parse_client/utils/Utils.cpp:205-221 | appends the decoding, or fails exactly where an assertion would |
| Text.UrlRoundTrip | down_parse_client/utils/Utils.cpp:187-221 | decoding an encoded byte string gives it back, and no assertion fails |
| Text.UrlEncodeIsInjective | down_parse_client/utils/Utils.cpp:187-202 | different byte strings have different encodings |
| Text.UrlEncodeAlphabet | down_parse_client/utils/Utils.cpp:187-202 | only unreserved characters, '+', and '%' with two upper-case digits |
| Text.CodedIsOneField | down_parse_client/clientConfig.cpp:268-298 | so no tab or line end, and the url stays one field |
| Text.UnreservedAre | down_parse_client/utils/Utils.cpp:190-190 | the characters kept are the unreserved ones of section 2.3 of RFC 3986, one by one |
| Text.EncodedCharIs | down_parse_client/utils/Utils.cpp:187-202 | they stay, a blank becomes '+', and any other byte is '%' and two digits |
| Text.ReservedStayInside | down_parse_client/utils/Utils.cpp:187-202 | no reserved character comes out of an encoding |
| Text.FromHexIgnoresCase | down_parse_client/utils/Utils.cpp:169-184 | a digit's value is its place in the row of digits, in either case |
| Paths.GetEngineItem | down_parse_client/clientConfig.cpp:321-346 | engine and item path, or both left alone when the path has too few parts or its directory not two names |
| Paths.PathFormats | down_parse_client/clientConfig.cpp:276-298 | a page path and an item path, spelled out |
| Paths.PathsAgreeIff | down_parse_client/clientConfig.cpp:276-346 | for every query the page path leads back to the engine and the item path printed elsewhere exactly when neither name has '/' or '_' |
| Paths.UnderscoreLosesThePath | down_parse_client/clientConfig.cpp:321-346 | a task id with an underscore: the path does not lead back |
| Paths.ItemPathIsInjective | down_parse_client/clientConfig.cpp:419-422 | pages of different engines or digests have different items |
| Paths.CheckParseFail | down_parse_client/clientConfig.cpp:410-427 | removes exactly the items of the failed queries under all engines |
| Paths.FailedPagesAreParsedAgain | down_parse_client/clientConfig.cpp:410-427 | afterwards the scan misses the item of a page exactly when its query's digest is that of a failed one |
| SeedFile.ReadSeeds | down_parse_client/parse_client/parse_func.cpp:98-118 | the reading loop gives the fields of every line that has three |
| SeedFile.BlanksAre | down_parse_client/parse_client/parse_func.cpp:106-106 | the trimmed characters are tab, line feed, carriage return and space |
| SeedFile.LineLengthIs | down_parse_client/parse_client/parse_func.cpp:101-101 | a read stops behind the first line end, or at the end of the buffer or of the text |
| SeedFile.ReadBack | down_parse_client/clientConfig.cpp:295-299 | printed pages come back in order and unchanged |
| SeedFile.ReadBackIff | down_parse_client/clientConfig.cpp:295-299 | a page comes back exactly when its query is not empty, ends in no blank, and has no tab or line end |
| SeedFile.BlankEndDoesNotComeBack | down_parse_client/clientConfig.cpp:295-299 | a query with one blank at its end does not come back |
| SeedFile.QueriesReadArePlain | down_parse_client/parse_client/parse_func.cpp:101-118 | whatever the file, no query read has a tab or a line end |
| SeedWriter.GenerateSeeds | down_parse_client/clientConfig.cpp:256-303 | writes one line for each query under each engine, and `page_counter` counts them |
| SeedWriter.UrlForIs | down_parse_client/clientConfig.cpp:268-270 | the coded query stands where the first "__QUERY__" was |
| SeedWriter.AllPagesAre | down_parse_client/clientConfig.cpp:261-301 | those pages and no others |
| SeedWriter.AllPagesCount | down_parse_client/clientConfig.cpp:261-301 | queries times engines |
| SeedWriter.ScansSeeEveryPage | down_parse_client/clientConfig.cpp:256-346 | every scan of the generated file sees each page, and finds the engine and item path that retry and import print |
| Crawl.EveryItemHasALine | down_parse_client/clientConfig.cpp:256-346 | each query under each engine has a seed line whose item is the path printed elsewhere |
| Crawl.CrawlBringsEveryItem | down_parse_client/task_server_thrift/down_parse_client_serviceHandler.cpp:81-98 | in every run on a generated seed file, once the exit flag is up and the last scan could read the file, every query under every engine has its item on disk |
| SqlText.FormatSql | down_parse_client/mysql/DB.cpp:259-277 | assignments with commas between, values in the same order; -1 and nothing touched for an empty map |
| SqlText.TrimTakesLast | down_parse_client/mysql/DB.cpp:369-369 | trimming by a set of characters takes exactly the last separator when the last piece ends in a kept one |
| SqlText.AppendMember | down_parse_client/mysql/DB.cpp:328-338 | a mark and a value for each element of an `IN` list |
| SqlText.AppendCondition | down_parse_client/mysql/DB.cpp:308-367 | one entry's text and values by its operator |
| SqlText.FormatWhereCond | down_parse_client/mysql/DB.cpp:290-371 | the conditions of the entries with values, " AND " between each two, and all their values behind those already there |
| SqlText.Update | down_parse_client/mysql/DB.cpp:186-207 | the statement, with the assigned values before the compared ones |
| SqlText.InsertUpdate | down_parse_client/mysql/DB.cpp:231-254 | the statement, or none for an empty map |
| SqlMeaning.Concatenated | down_parse_client/mysql/DB.cpp:376-423 | reading a text from any quoting state is reading its parts one after the other, placeholders and values in step |
| SqlMeaning.AssignFillsIff | down_parse_client/mysql/DB.cpp:271-274 | an assignment is read as one exactly when its column name ends inside its own backticks and hides no placeholder |
| SqlMeaning.WhereFills | down_parse_client/mysql/DB.cpp:290-371 | filled in order, the where text says the conditions, each column compared with its own values |
| SqlMeaning.LikeFills | down_parse_client/mysql/DB.cpp:339-356 | a pattern's '?' is between quotes and takes no value |
| SqlMeaning.BoundIff | down_parse_client/mysql/DB.cpp:376-399 | every parameter finds a placeholder exactly when there is no pattern |
| SqlMeaning.UpdateMeans | down_parse_client/mysql/DB.cpp:186-207 | placeholders and parameters are as many exactly when there is no pattern; then each column gets and is compared with its own value |
| SqlMeaning.PatternHasNoHole | down_parse_client/mysql/DB.cpp:347-351 | one pattern condition makes the counts differ |
| SqlMeaning.InsertUpdateMeans | down_parse_client/mysql/DB.cpp:231-254 | as many always, and each column gets its own value in both halves |
| SqlLaws.CompareSelects | down_parse_client/mysql/DB.cpp:307-366 | read back by a server, "column:lt" selects exactly the rows below the value, ":gt" those above, ":lte" and ":gte" with the equal ones, ":neq" the different ones, and an unknown name the equal ones |
| SqlLaws.BareKeySelects | down_parse_client/mysql/DB.cpp:304-320 | a key without a name, or with the colon in front, selects the equal rows |
| SqlLaws.MemberSelects | down_parse_client/mysql/DB.cpp:326-338 | "column:in" selects the rows that hold one of the values |
| SqlLaws.InSetSelects | down_parse_client/mysql/DB.cpp:357-361 | "column:find" selects the rows whose list has the value as an element |
| SqlLaws.PatternSelects | down_parse_client/mysql/DB.cpp:339-356 | with the value in place of its '?', the pattern of ":llike" selects what begins with it, ":like" what contains it, ":rlike" what ends with it; as built, the '?' itself is the value |
| SqlLaws.EveryEntryRestricts | down_parse_client/mysql/DB.cpp:295-371 | a row is selected exactly when the condition of every entry with values selects it |
| ByteSplit.SubNameIsInjective | wendao/cmd_general/cmd_split.c:133-133 | different counters print different names |
| ByteSplit.SubNameIs | wendao/cmd_general/cmd_split.c:133-133 | a name is the file's, the suffix and the counter in six digits, more only from a million on |
| ByteSplit.NamesSort | wendao/cmd_general/cmd_split.c:133-133 | names sort as their counters below a million |
| ByteSplit.FreeName | wendao/cmd_general/cmd_split.c:132-137 | the first free name from the counter on; the search ends |
| ByteSplit.OpenNext | wendao/cmd_general/cmd_split.c:130-148 | a new empty output behind a full one, with the counter still printable |
| ByteSplit.SplitByBytes | wendao/cmd_general/cmd_split.c:117-170 | ends with size / split + 1 new files under the first free names in ascending order, the i-th holding its stretch of bytes, and every old file as it was |
| ByteSplit.OpenForEver | wendao/cmd_general/cmd_split.c:128-157 | with a split size of 0 any number of passes opens as many outputs and reads nothing |
| ByteSplit.OutputsAreTheInput | wendao/cmd_general/cmd_split.c:117-170 | together they are the input; the last is empty exactly for a multiple of the split size |
| ByteSplit.OutputsSort | wendao/cmd_general/cmd_split.c:128-157 | the names of a split sort as its outputs follow each other |
| IpIndex.AtLeastIsNumeric | crond_ad_stat/IP/ip.py:47-47 | comparing packed addresses byte by byte is comparing their numbers |
| IpIndex.SliceIs | crond_ad_stat/IP/ip.py:41-49 | a slice has what stands there and is cut short at the end of the text |
| IpIndex.FindIp | crond_ad_stat/IP/ip.py:37-61 | the text of the first row from the octet's start that is not below the address, none, or an exception where a slice is too short |
| IpIndex.DatabaseNeverRaises | crond_ad_stat/IP/ip.py:17-19 | a file as long as its header says, with a full index, never makes a lookup raise |
| IpIndex.FirstIsNotBefore | crond_ad_stat/IP/ip.py:46-55 | that row is at least the address, and every row passed over is below it |
| IpIndex.IndexIsExactIff | crond_ad_stat/IP/ip.py:40-55 | starting at an octet's entry equals a scan of the whole table for all its addresses exactly when the rows passed over are of smaller octets |
| IpIndex.LookupFindsTheRange | crond_ad_stat/IP/ip.py:37-61 | in a sorted, well indexed file the lookup gives the one row whose range holds the address, or none above all rows |
| IpFile.HeaderReads | crond_ad_stat/IP/ip.py:16-19 | of a file in the database's format, the header and the index are read as written |
| IpFile.StartReads | crond_ad_stat/IP/ip.py:40-44 | so is the start of each first octet |
| IpFile.AddressReads | crond_ad_stat/IP/ip.py:45-47 | and the address of each row, and there are as many rows as ranges |
| IpFile.TextReads | crond_ad_stat/IP/ip.py:48-61 | and the text it points at |
| IpFile.WrittenIsFound | crond_ad_stat/IP/ip.py:37-61 | in a written file a lookup gives the text written for the range that holds the address |
| IpFile.WrittenHasNone | crond_ad_stat/IP/ip.py:57-58 | and none above all ranges |
| IpIndex.Memo.Call | crond_ad_stat/IP/ip.py:22-33 | gives what the plain lookup gives and remembers it, unless that raises |
| IpIndex.Memo.CallAll | crond_ad_stat/IP/ip.py:22-33 | so over any sequence of calls |
| Cookie.GetJsonCookieStr | mod_newpassport/newpassport/response_tool.c:94-95 | the printed cookie |
| Cookie.GetCookie | mod_newpassport/newpassport/response_tool.c:30-74 | the text behind the first occurrence of the name, cut at the separator, or -1 |
| Cookie.NoFieldIff | mod_newpassport/newpassport/response_tool.c:43-57 | there is no field exactly without the cookie's key, or without the name (and something behind it) after the key |
| Cookie.FieldIs | mod_newpassport/newpassport/response_tool.c:43-73 | a value is what stands one character behind the first such name, up to the separator or the end |
| Cookie.MissingCookie | mod_newpassport/newpassport/response_tool.c:43-57 | without the key or the name the answer is -1 |
| Cookie.FindAcross | mod_newpassport/newpassport/response_tool.c:51-51 | a name is first found on the left of a character it does not have, else on the right |
| Cookie.PastFieldIff | mod_newpassport/newpassport/response_tool.c:51-51 | a search goes past another field exactly when that field's value does not have the name |
| Cookie.UsernameIff | mod_newpassport/newpassport/response_tool.c:43-73 | the user name comes back exactly when it has no comma |
| Cookie.NotBeforeIff | mod_newpassport/newpassport/response_tool.c:43-73 | behind a user name without the field's name, the time comes back exactly when it has no comma |
| Cookie.NotAfterIff | mod_newpassport/newpassport/response_tool.c:43-73 | the same behind two fields |
| Cookie.SignIff | mod_newpassport/newpassport/response_tool.c:43-73 | the same for the sign and the closing brace |
| Cookie.LoginComesBack | mod_newpassport/newpassport/response_tool.c:43-95 | all four fields of every login of the intended kind come back, whatever stands behind the cookie, and whatever cookies stand before it that do not have its name |

## Left out

- Network, thrift, curl, MySQL, Apache, JSON, zlib and the file system calls: they are parameters, maps of files, or
  actions of the environment.
- Liveness of the task: workers may fail to connect and leave, so only safety is stated.
- Timed waits: a wait that ends by its timeout tests its condition again, so only the test is modelled; `sleep` is not.
- Reads of flags outside the mutex are atomic steps; the memory model of the processor is not modelled.
- Download conservation: the download queue keeps only the first batch of a proxy, and the next scan offers the
  others again; the queue is modelled by that merge.
- PipelineTheorems.WorkBringsItem: a page's length is its file's size; reading it through a NUL-terminated buffer is
  not modelled.
- UrlBuffers.Decoding: source and destination do not overlap, and both are as long as the caller says.
- Md5.MD5.Update: the length is one whose 32-bit index fits; `BlockLoopEndsIff` says what happens otherwise.
- FileList.FileLinkHeader.Add: the file's time is a parameter, so a failed `stat`, which leaves it undefined, is not modelled; a name fits the node's buffer.
- FileList.FileLinkHeader.Delete: a name exactly as long as the buffer is handed out, but the NUL written behind the buffer is not modelled.
- StringSort.QsortString: strings are values behind the pointers; two pointers to one string are not told apart.
- Text.Trim: a NUL is in no set of characters to trim, so the read of the terminator of an emptied text ends the loop.
- SeedWriter.GenerateSeeds: creating and removing directories, and paging through the query table, are not modelled.
- SeedFile.ReadSeeds: the text has no NUL, which would end a line for `strlen`.
- Paths.CheckParseFail: the two queries to the database are parameters.
- SqlText.Update: the map type's order of keys and its unique keys are not used; entries are taken in the order given.
- SqlMeaning.UpdateMeans: names whose backticks or placeholders break out of their own pair are excluded, and whether the
  server accepts an update without assignments is not modelled; only the counts and the reading are.
- SqlLaws.PatternSelects: escapes in patterns, collations and wildcards in the value are not modelled.
- ByteSplit.SplitByBytes: an existing file that cannot be read counts as absent for the original and is not modelled; names fit their buffer.
- ByteSplit.SplitByBytes: a split size of 0, with which the loop has no end, is excluded; `OpenForEver` says what it does.
- IpIndex.FindIp: resolving a host name, parsing the dotted form, and decoding and stripping the text are not modelled.
- IpIndex.Memo.Call: the key is the address itself and not its printed argument list.
- Cookie.GetCookie: a name at the very end of the header, behind which the original reads on, is excluded.
- Cookie.GetJsonCookieStr: compressing the sign, and the expiry text of the header, are not modelled.
- `import_db`, proxy lists, configuration readers, statistics scripts, `split_file_by_line`, `cmd_uniq`, `cmd_sort`, `cp` and the
  identical copies of MD5, URLEncoder and the sort: they would add no harder property.
