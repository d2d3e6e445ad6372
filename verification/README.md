# A Dafny model of mua's core

mua is a coding agent written in C. This project models the parts of it that carry state across callbacks, reads and
crashes, and proves what they promise. A source file has up to four kinds of modules here: `…Spec`, the behaviour as
functions; `…Laws`, what is proved about those functions for all inputs and all runs; `…Written`, `…Endings`, `…Answers`
and their like, what inputs mean and what callbacks do in the words of a writer or a reader, with the functions proved to
agree exactly; and a class or methods in the source's own form (buffers, loops, explicit stacks, callbacks), each proved
to compute what the functions say.

| part | source | modules |
|---|---|---|
| Server-sent events | `src/mua/sse.c` | SseSpec, SseMachine, SseLaws, SseWritten, Sse |
| MessagePack | `src/mua/msgpack.c` | MsgpackSpec, MsgpackLaws, MsgpackWritten, Msgpack, MsgpackReader, MsgpackTree, MsgpackDecoder |
| Message channel over stdio | `src/mua/rpc.c` | RpcSpec, RpcLaws, RpcAnswers, Rpc |
| JSON text | `src/cjson/cJSON.c` | CJsonSpec, CJsonLaws, CJsonText, CJsonGrammar, CJsonReading, CJsonWritten, CJsonLayout, CJson, CJsonPrint |
| Session log | `src/mua/session.c` | SessionSpec, SessionLaws, SessionFile, Session |
| Agent turns, whole sessions, crash and repair | `src/mua/agent.c` | AgentSpec, AgentLaws, AgentEndings, AgentSession, AgentRepair, AgentAnswers, AgentRecovery, AgentLives, Agent |
| Provider stream | `src/mua/provider/openrouter.c` | ProviderSpec, ProviderLaws, ProviderMessage, ProviderCalls, ProviderEndings, Provider |
| Object trees on the heap | `src/mua/api/private/helpers.c` | TreeSpec, TreeLaws, Heap |
| cJSON to Object and back | `src/mua/json.c` | JsonSpec, JsonLaws, JsonMeaning, Json |
| bash, read and edit tools | `src/mua/tools.c` | BashSpec, BashLaws, BashEndings, Bash, ToolsSpec, Tools |
| Markdown renderer | `src/mua/render.c` | RenderSpec, RenderLaws, RenderWritten, Renderer |
| Shared | `src/mua/memory.c` | Bytes, Memory |

What the outside does arrives as arguments: which bytes a read returns, how many bytes a write takes, whether a timer
can be armed, what a tool, the gate or a callback answers, what the clock and the random numbers are. A run is a
sequence of such events in any order that the state allows. `dafny verify dfyconfig.toml` checks the whole project.

## Findings

Places where the code does not keep what its comments say, each with the exact condition.

- After a full byte-order mark the end-of-stream verdict is always "truncated", also behind a complete event:
  `SseLaws.VerdictExactly`, `SseLaws.MarkedStreamIsCalledTruncated` (src/mua/sse.c:124-129, 274).
- The encoder's "smallest header" does not hold for strings, exactly from 32 to 255 bytes: `MsgpackLaws.StrCodeIsShortest`
  (src/mua/msgpack.c:12, 91-110).
- A message of more than 16 MiB + 1 but no more than 16 MiB + 64 KiB is served or closes the channel depending on where
  the reads fall: `RpcLaws.ChunkingIsInvisible`, `RpcLaws.TippingFrameIsCut` (src/mua/rpc.c:174-199).
- A blank first line uses up line 1, and the header is never checked: a file that loads has a checked header exactly when
  it does not start with a line feed: `SessionLaws.HeaderCheckedIff`; the input is in
  `SessionLaws.BlankFirstLineHidesTheHeader` (src/mua/session.c:241-244, 253).
- A header whose version is any number that is cut to 1, such as 1.5, loads as version 1: `SessionSpec.ReadsAsOne`,
  `CJsonLaws.OneAndAHalfCutsToOne` (src/mua/json.c:67-75, src/mua/session.c:218-233).
- Appending behind a torn last line makes every later load fail: `SessionLaws.AppendAfterTornTailIsFatal`. The repair of a
  resumed session appends, so a repair that has something to answer after a crash inside a line holds in memory only:
  `AgentRecovery.RepairLastsIff`, `AgentRecovery.TornCrashThenRepairIsFatal` (src/mua/session.c:102-107, 245-249;
  src/mua/agent.c:554-577).
- A tool answer refused only for its size ends the turn with its call open in a session that still takes messages, and
  the next prompt breaks the conversation: `AgentLaws.OversizedAnswerLeavesTheRoundOpen`,
  `AgentSession.PromptBreaksIff` (src/mua/session.c:459-465).
- Repair completes an open round exactly when as many open calls repeat an id of the round as answered calls have none,
  and only empty ids right behind the answered calls are repeated: `AgentRepair.RepairCompletesTheRound`. Without empty
  ids: when every answered call has an id and no open call repeats one: `AgentRepair.CompletableIff`, with the two ways to
  fail in `AgentRepair.NotCompletable`. It leaves a complete conversation alone exactly when every call of its last round
  has an id: `AgentRepair.CompleteNeedsNoRepair` (src/mua/agent.c:539-577).
- A message nested more than 64 deep, or whose text passes 2 GiB, is acknowledged but cannot be loaded again:
  `SessionLaws.AppendStaysInSync` (src/mua/session.c:437-475).
- A number that rounds to an infinite double is read but written as `null`: `CJsonLaws.InfinityIsWrittenAsNull`, with
  `1e999` in `CJsonLaws.SuchANumber`. Printing and parsing keep a parsed value exactly when every number that is no 32-bit
  integer is finite and written with the token it was read from: `CJsonLaws.ReprintingKeepsTheMeaning`
  (src/cjson/cJSON.c:553-620).
- Converting cJSON to an Object and back turns a negative zero into a plain one, and keeps everything else:
  `JsonLaws.ConversionRoundTrip` (src/mua/json.c:184-190).
- A response whose error or result fills the whole depth cap cannot be decoded by a peer with the same cap:
  `RpcSpec.ResponseReadsBack` (src/mua/rpc.c:54-66).

## Model

| member | source | states |
|---|---|---|
| SseMachine.DecodeIsRun | src/mua/sse.c:121-199 | for every stream, limits and callback, the byte-at-a-time machine ends where reading the whole document ends: strip the mark, split at CR, LF or CR LF, interpret line by line (sections 9.2.5 and 9.2.6 of the HTML Standard, with caps) |
| SseMachine.DecodeContinues | src/mua/sse.c:240-266 | reading more input continues from the state reached, at any cut, also inside the mark or a CR LF |
| SseMachine.SplitSnoc | src/mua/sse.c:143-199 | one more byte changes the lines of a text in exactly one of four ways; a line feed behind a carriage return is no new line |
| Sse.Parser.Feed | src/mua/sse.c:240-266 | the parser object with its carry buffer, deferred line feed, mark counter and zero-copy path ends, after any feeds, in the document reading of all bytes fed; its answer and error are that state's |
| Sse.Parser.ScanLine | src/mua/sse.c:157-199 | one line taken from the span or completed from the carry leaves the outcome of the rest of the stream unchanged |
| Sse.Parser.BomStep | src/mua/sse.c:121-141 | a partial mark that breaks off becomes content without changing the outcome |
| Sse.Parser.ProcessField | src/mua/sse.c:66-88 | one field changes data, type or id as the standard says, with the caps' failures |
| Sse.Parser.Finish | src/mua/sse.c:269-278 | the verdict is a function of the bytes fed alone |
| Sse.Parser.Reset | src/mua/sse.c:280-291 | a reset parser is one that has been fed nothing |
| SseLaws.FeedChunks | src/mua/sse.c:240-278 | one parser fed any list of chunks, empty ones included: events, failure, answer and end-of-stream verdict are those of the joined stream |
| SseLaws.ChunkingIsInvisible | src/mua/sse.c:240-266 | the same for the byte machine without the object |
| SseLaws.DeliveredEventsAreFinal | src/mua/sse.c:240-266 | later input only adds events, and a failure is final |
| SseLaws.RefusalIsLast | src/mua/sse.c:43-64 | the callback is asked once per event and never again after it refuses |
| SseLaws.VerdictExactly | src/mua/sse.c:269-278 | without a mark the verdict is the documented one; behind a mark it is always "truncated" |
| SseLaws.MarkedStreamIsCalledTruncated | src/mua/sse.c:124-129 | a mark and one complete event: the event is delivered, nothing is pending, and the verdict is "truncated" |
| SseLaws.WrittenStreamReadsBack | src/mua/sse.c:66-119 | messages written as event streams with any one line terminator and cut anywhere come back as the same events, cleanly |
| SseWritten.StreamMeans | src/mua/sse.c:66-278 | for every list of lines written as blanks, comments, fields with a space, without one or without a colon, in any mix of line ends, with or without a mark, with any unended rest and in any chunks: the events, the failure and the verdict are those that a reader of the lines works out, block by block |
| SseWritten.IgnoredLinesAreInvisible | src/mua/sse.c:66-119 | comments, fields of other names and ids with a NUL, put in anywhere within the line cap, change neither events nor failure |
| SseWritten.LinesMean | src/mua/sse.c:90-119 | a list of lines is its blocks: data joined by line feeds, the last type, the last id, an event at each blank line with data, the first cap passed |
| SseWritten.EveryLineIsWritten | src/mua/sse.c:90-119 | every line is written in one of those five ways |
| MsgpackLaws.RoundTrip | src/mua/msgpack.c:118-195 | every tree of at most 32 nested containers, with any bytes behind its code, decodes to itself (session handles as nil) and consumes exactly its code |
| MsgpackLaws.TooDeepIsRejected | src/mua/msgpack.c:253-278 | every deeper tree's code is rejected as too deep |
| MsgpackLaws.VerdictStable | src/mua/msgpack.c:214-276 | a value or an error stays what it is whatever bytes follow, although counts are compared with the whole buffer |
| MsgpackLaws.CodeIsSelfContained | src/mua/msgpack.c:457-494 | the decoded prefix alone gives the same value, and each of its proper prefixes is incomplete |
| MsgpackLaws.PrefixFree | src/mua/msgpack.c:457-494 | no accepted code is a proper prefix of another |
| MsgpackLaws.EncodingIsUnambiguous | src/mua/msgpack.c:118-195 | equal bytes come from equal trees (up to session handles), also inside a longer stream |
| MsgpackLaws.IntCodeIsShortest | src/mua/msgpack.c:56-89 | no accepted code of an integer is shorter than the one written |
| MsgpackLaws.ContainerHeaderIsShortest | src/mua/msgpack.c:91-116 | no accepted header of an array or map is shorter than the one written |
| MsgpackLaws.StrCodeIsShortest | src/mua/msgpack.c:91-110 | for strings a shorter code exists exactly from 32 to 255 bytes |
| MsgpackWritten.DecodesIff | src/mua/msgpack.c:203-457 | a buffer decodes to an object of n bytes exactly when its first n bytes are a code of that object in any supported formats of the MessagePack table, shortest or not, with at most 32 containers open: every format's byte, width, sign and length |
| MsgpackWritten.RefusedIff | src/mua/msgpack.c:253-457 | it is refused, and with which fault, exactly when it begins with the beginning of a code that breaks: an unsupported format, a container too deep, a key that is no string, every open container having as many bytes left as elements |
| Msgpack.MsgpackBuffer.Encode | src/mua/msgpack.c:166-195 | the explicit-stack walk appends exactly the recursive encoding to the growing buffer |
| Msgpack.MsgpackBuffer.EmitInt | src/mua/msgpack.c:56-89 | the branches over 64-bit words write the integer's code |
| Msgpack.MsgpackBuffer.Reserve | src/mua/msgpack.c:20-31 | growing keeps the contents and makes room |
| MsgpackReader.ReadInto | src/mua/msgpack.c:384-425 | one value's header read byte by byte is what the format table says: a scalar, a container to fill, incomplete, or the fault |
| MsgpackTree.LaidIsCopy | src/mua/msgpack.c:226-278 | between any two steps of the decoder, memory and root are those of a fresh copy of the partly decoded tree: the values so far, the open child, a key whose value is awaited, Nil for the rest |
| MsgpackTree.DecodedSoFarIsHeld | src/mua/msgpack.c:457-494 | so wherever decoding fails: the root holds that tree, which owns exactly what was allocated, each block once, and is at most 32 deep; releasing it restores the heap |
| MsgpackDecoder.MsgpackToObject | src/mua/msgpack.c:457-494 | the explicit-stack decoder on the heap: verdict and bytes consumed are those of the recursive reading; a value is an object in storage of its own, and every failure leaves the heap as it was |
| RpcLaws.ServeIsGreedy | src/mua/rpc.c:174-220 | for every list of reads of at most 64 KiB of a stream without a tipping frame, frames, calls, responses and closing are those of greedy decoding of the whole stream |
| RpcLaws.ChunkingIsInvisible | src/mua/rpc.c:174-220 | what the server does is the same for all ways of reading a stream exactly when no frame in it can be completed past the cap by a single read |
| RpcLaws.TippingFrameIsCut | src/mua/rpc.c:174-220 | otherwise two lists of real reads of that stream end differently |
| RpcSpec.BufferBound | src/mua/rpc.c:159-199 | during a read the buffer holds at most 16 MiB and one read |
| RpcSpec.EveryRequestIsAnsweredOnce | src/mua/rpc.c:75-98 | over every run, one response per well-formed request, with its id, in request order |
| RpcAnswers.EveryAnswerIsItsCalls | src/mua/rpc.c:75-110 | over every run: the responses are, request by request, the error and the result that the API gives for the calls made by the frames before, or the validation error with its text and nil; the calls made are those of the well-formed frames with known methods |
| RpcAnswers.EveryStreamIsServed | src/mua/rpc.c:174-220 | over every list of reads without a tipping frame: the frames handled are those that the bytes decode to one after the other, and the channel closes exactly on a bad code, a bad frame or a frame past the cap |
| RpcSpec.ResponseBytesAreItsCode | src/mua/rpc.c:54-66 | a response written part by part is the code of one array of four |
| RpcSpec.ResponseReadsBack | src/mua/rpc.c:54-66 | a peer decodes it exactly when neither part fills the depth cap, and rejects it as too deep otherwise |
| Rpc.RpcServer.Read | src/mua/rpc.c:209-220 | the server object with its block, compaction and queued writes is, after every read, where its reads put it |
| Rpc.RpcServer.DrainBuffer | src/mua/rpc.c:174-199 | the loop with its memmove takes exactly the frames of the buffer and leaves the rest in front |
| Rpc.RpcServer.Append | src/mua/rpc.c:159-171 | doubling growth keeps the pending bytes and adds the read |
| CJsonLaws.PrintedTextReadsBack | src/cjson/cJSON.c:1325-1843 | parsing undoes printing, formatted or not, for every tree of at most 64 nested containers: child order, repeated keys and all string bytes but NUL |
| CJsonLaws.PrintedTextParsesIff | src/cjson/cJSON.c:1325-1843 | a printed tree parses, and to itself, exactly when it is nested at most 64 deep |
| CJsonLaws.ReprintingKeepsTheMeaning | src/cjson/cJSON.c:553-620 | for every text that parses, printing and parsing again gives the value with its numbers as they are written, and the value itself exactly when each of them is finite and its token reproduced |
| CJsonLaws.InfinityIsWrittenAsNull | src/cjson/cJSON.c:568-572 | every number whose decimal value rounds past the doubles parses, and comes back as null, whatever printf does |
| CJsonLaws.SuchANumber | src/cjson/cJSON.c:308-378 | `1e999` is one |
| CJsonLaws.OneAndAHalfCutsToOne | src/mua/json.c:67-75 | `1.5` is read as a version 1 |
| CJsonLaws.UnformattedIsOneLine | src/cjson/cJSON.c:1269-1272 | unformatted output holds no line feed |
| CJsonLaws.PrefixOfPrintedFails | src/cjson/cJSON.c:1104-1182 | no proper prefix of a printed object or array parses |
| CJsonReading.WrittenTextParses | src/cjson/cJSON.c:1325-1730 | every text as others write it, any blanks around any token, each string byte plain or in any of its escapes, any spelling of a number, at most 64 levels, parses to the tree it writes |
| CJsonWritten.ParsedTextIsWritten | src/cjson/cJSON.c:1325-1730 | whatever parses is such a text of the tree it parses to |
| CJsonWritten.ParsesIff | src/mua/json.c:19-60 | both directions: a document parses to a tree exactly when it fits the size limit and some text of the grammar is it and writes that tree |
| CJsonLayout.PrintedIsLaid | src/cjson/cJSON.c:1380-1830 | every byte of the printer's layout, formatted or not: blanks only where the layout has them, a byte escaped only if it must be and then in its short form, integers without leading zeros |
| CJsonText.EscapedScalarReads | src/cjson/cJSON.c:660-777 | every code point escaped as in section 7 of RFC 8259, surrogate pairs included, reads as its UTF-8 encoding |
| CJsonText.AcceptedEscapeIsWellFormed | src/cjson/cJSON.c:660-777 | whatever an accepted escape yields is one code point in the syntax of section 4 of RFC 3629, and which one |
| CJsonText.Utf8IsWellFormed | src/cjson/cJSON.c:730-770 | the bytes written for a code point mean that code point |
| CJsonText.EscapedSize | src/cjson/cJSON.c:934-960 | the printer's estimate of an escaped string is exact |
| CJson.ParseBuffer.ParseString | src/cjson/cJSON.c:781-908 | both passes: every write of the second lies in the buffer that the first has sized, for every input, and the bytes are the unescaped string |
| CJson.ParseBuffer.Utf16LiteralToUtf8 | src/cjson/cJSON.c:660-777 | the bytes of one escape written in place, or a refusal that writes nothing |
| CJson.ParseBuffer.ParseArray | src/cjson/cJSON.c:1454-1550 | the loop with its step back before the first element parses what the recursive reading does |
| CJson.ParseBuffer.ParseObject | src/cjson/cJSON.c:1614-1730 | the same for members, keys and colons |
| CJson.ParseText | src/mua/json.c:19-60 | a document is one value with blanks, or one NUL, behind it, of at most the given size |
| CJsonPrint.PrintBuffer.PrintStringPtr | src/cjson/cJSON.c:911-1030 | the escaped string is written in place, and refused exactly when text and terminator would pass INT_MAX |
| CJsonPrint.PrintBuffer.Ensure | src/cjson/cJSON.c:447-530 | growing keeps the text and makes the room asked for, or refuses and changes nothing |
| CJsonPrint.PrintJson | src/cjson/cJSON.c:1196-1262 | the printer writes exactly the text, and fails exactly when it passes INT_MAX |
| SessionLaws.LoadIsItsLines | src/mua/session.c:239-286 | a file of whole lines loads as its lines consumed one after the other |
| SessionLaws.ChunkingIsInvisible | src/mua/session.c:290-338 | a file loads the same in whatever pieces the kernel returns it |
| SessionLaws.CrashInsideAppend | src/mua/session.c:100-127 | a crash after any byte of an append's write: the file loads to the conversation without the message, or with it exactly when at most its line feed is missing |
| SessionLaws.NothingAcknowledgedIsLost | src/mua/session.c:437-475 | over every run of appends with short and failing writes, the file loads to exactly the acknowledged messages, or those and the one in flight |
| SessionLaws.PoisonBlocks | src/mua/session.c:100-127 | after a short write nothing is written or acknowledged any more |
| SessionLaws.AppendStaysInSync | src/mua/session.c:437-475 | an append that the disk takes whole leaves file and memory in step exactly when the message is nested at most 64 deep and its text fits |
| SessionLaws.AppendAfterTornTailIsFatal | src/mua/session.c:245-249 | an append behind a torn last line: every later load fails and names that line, whatever follows |
| SessionLaws.ReopenedIsInSync | src/mua/session.c:340-387 | a reopened session is in step with its file exactly when no torn line is pending; a complete line without its line feed heals |
| SessionLaws.HeaderLoads | src/mua/session.c:129-143 | a new session's header alone loads as an empty conversation with its id |
| SessionLaws.HeaderCheckedIff | src/mua/session.c:239-286 | for every file that loads: it starts with a line feed and has no id, or its first line is a version-1 header and the id is that header's |
| SessionLaws.BlankFirstLineHidesTheHeader | src/mua/session.c:241-244 | the input: any message alone loads behind a blank line, and without it is refused unless it is a header |
| SessionFile.LoadReads | src/mua/session.c:213-330 | for every file: it loads to the messages of its lines behind the header, blank lines and other records left out, up to a bad last line, or is refused for the first line that stops it, and why: too long, no header, another version, behind a bad line, one message too many |
| SessionFile.AppendAcknowledgedIff | src/mua/session.c:437-475 | an append is acknowledged exactly when the message has a role, the session is neither poisoned nor full, the line fits and the write takes all of it; otherwise memory is unchanged and the file has at most a prefix of the record more |
| Session.LoadSession | src/mua/session.c:340-387 | the chunked load with its line buffer gives the session, or the error, of the whole file |
| Session.SessionState.Append | src/mua/session.c:437-475 | the object's file, messages, count, poison and heal flag after an append are those of the specification |
| AgentLaws.EveryStepKeeps | src/mua/agent.c:141-515 | every callback that can fire keeps the turn's invariant: shape of the conversation, one wakeup, one ending |
| AgentLaws.EveryRunKeeps | src/mua/agent.c:141-515 | over every run of a turn, cancels at any callback and failing appends included: never broken, on_finish at most once, an unfinished turn has exactly one wakeup, at most the step cap's requests, at most one tool started after a cancel |
| AgentLaws.CanceledStaysQuiet | src/mua/agent.c:452-515 | nothing undoes a cancel, and a canceled turn issues no request and starts no tool |
| AgentLaws.EveryWakeupGoesOn | src/mua/agent.c:276-318 | every callback but text and cancels lowers a rank that is never negative while the turn lasts |
| AgentLaws.FittingAnswersLeaveNothingOpen | src/mua/agent.c:276-318 | if answers fit their lines, a turn ends with every call answered or in a session that takes nothing more |
| AgentLaws.OversizedAnswerLeavesTheRoundOpen | src/mua/agent.c:181-196 | an answer that is too long, and only that, ends the turn with its call open; any message then breaks the conversation |
| AgentEndings.DoneDoes | src/mua/agent.c:369-406 | a finished stream ends the turn as done exactly when its message is stored and has no calls, as failed when it is refused, as interrupted, capped or out of context when that is due, and else starts the round |
| AgentEndings.RoundIsAnswered | src/mua/agent.c:276-318 | a round's answers in order with their ids and contents, which tools ran, where it stops and why, and how it leaves the turn |
| AgentEndings.ToolDoes | src/mua/agent.c:181-217 | a tool's completion answers its call and goes on with the rest of the round |
| AgentEndings.OthersDo | src/mua/agent.c:320-515 | text, stream errors, the step timer and cancels: exactly what each changes and when it ends the turn |
| AgentEndings.EveryEndingIsDue | src/mua/agent.c:141-515 | an ending is reported exactly when its cause is there: done, failed, interrupted, step cap, context limit |
| AgentEndings.EveryRunEndsDuly | src/mua/agent.c:141-515 | the same at every callback of every run |
| AgentEndings.ToolMessageReads | src/mua/agent.c:165-179 | an answer as a provider reads it: role, call id and content, and the text of an interrupted one |
| AgentSession.EverySessionKeeps | src/mua/agent.c:579-623 | over whole sessions of prompts, turns and cancels: the conversation is never broken, is open exactly at the running turn's call, and between turns every call is answered or the session is closed |
| AgentSession.PromptBreaksIff | src/mua/agent.c:579-597 | a prompt breaks the conversation exactly when the last turn left a call open and the user's message is stored |
| AgentSession.UserMessageReads | src/mua/agent.c:579-597 | a prompt as a provider reads it: the role user and the text up to its first NUL |
| AgentRepair.RepairCompletesTheRound | src/mua/agent.c:554-577 | repair of any open round whose appends succeed, calls without ids included, completes it exactly when the round is completable: as many open calls repeat an id as answered ones have none, and only empty ids right behind the answered calls are repeated |
| AgentRepair.CompletableIff | src/mua/agent.c:564-570 | when no id is empty, a round is completable exactly when every answered call has an id and no open call repeats one |
| AgentRepair.NotCompletable | src/mua/agent.c:564-570 | the two inputs: an answered call without an id, or an open call whose id is taken |
| AgentRepair.RepairCompletes | src/mua/agent.c:554-577 | an unbroken conversation, open or complete, is complete after a repair exactly when its open round is completable or the calls of its complete one have ids |
| AgentRepair.RepairIsIdleIff | src/mua/agent.c:539-577 | repair writes nothing exactly when every call of the last round counts as answered |
| AgentRepair.CompleteNeedsNoRepair | src/mua/agent.c:539-577 | a complete conversation is left alone exactly when every call of its last round has an id |
| AgentRepair.RoundTail | src/mua/agent.c:517-537 | in an unbroken conversation, what follows the last round is the answers to its calls in order |
| AgentAnswers.RepairAnswers | src/mua/agent.c:520-577 | for any conversation and disk: what repair adds answers calls of the last round in order, each as interrupted, under its own id and only if nothing has answered that id before; unless an append is refused every call with an id is then answered and every call without one has been |
| AgentRecovery.EverySessionRecovers | src/mua/session.c:437-475 | whenever the process dies in any session, between callbacks or inside a write, the file loads to the conversation in memory, or that and the message in flight, and it is unbroken |
| AgentRecovery.CrashedSessionIsRepaired | src/mua/agent.c:554-577 | from the bytes: what a cut after any byte reloads to, when repair completes it, that file and memory are then in step exactly when the cut is not inside the line, and that the file loads to the repaired conversation exactly then or when nothing was to be answered |
| AgentRecovery.RepairLastsIff | src/mua/agent.c:554-577 | the same for whatever any session left behind |
| AgentRecovery.TornCrashThenRepairIsFatal | src/mua/session.c:245-249 | a cut inside the line with a call to answer: after the repair every load fails |
| AgentRecovery.CutIsTorn | src/mua/session.c:100-127 | which cuts tear a line: behind the healing line feed, and before the last byte of the line |
| AgentLives.EveryLifeRecovers | src/mua/agent.c:554-623 | over any number of lives, each ending in a death at any point and resumed by load and repair without a torn line: the conversation is sound, no message that was ever in it is dropped, changed or moved, and the file loads, unbroken, to at least all of them |
| AgentLives.NewSessionIsWhole | src/mua/session.c:129-143 | a new session is where the first life can start |
| AgentLives.SessionKeeps | src/mua/agent.c:579-623 | a session's conversation only grows |
| Agent.AgentTurn.Step | src/mua/agent.c:141-515 | the turn object: any callback or cancel does what the state machine says and keeps its invariant |
| Agent.AgentTurn.RunTools | src/mua/agent.c:297-310 | the trampoline with inline completions runs the calls one after the other without re-entering itself |
| Agent.AgentTurn.FinishWithSynthetics | src/mua/agent.c:276-293 | every open call is answered until an append fails |
| Agent.AgentTurnStart | src/mua/agent.c:579-623 | the user's message is stored before the turn exists, and there is no turn when that or the timer fails |
| Agent.RepairSession | src/mua/agent.c:554-577 | the scan for the last round and the loop over its calls do what the repair function says |
| ProviderLaws.AccumulateIsPerIndex | src/mua/provider/openrouter.c:171-217 | accumulation succeeds exactly when every index's own fragments fold, and gives each slot its fold |
| ProviderLaws.FoldedMeans | src/mua/provider/openrouter.c:171-217 | a folded call has the first non-empty id and name and all arguments concatenated |
| ProviderLaws.InterleavingIsInvisible | src/mua/provider/openrouter.c:171-217 | two interleavings of the same per-index fragments accumulate alike, or are both refused |
| ProviderLaws.TakeItemsAccumulates | src/mua/provider/openrouter.c:171-217 | an event's items are accepted exactly when there are at most 64, all are well formed, and they fit |
| ProviderMessage.ReportedMessage | src/mua/provider/openrouter.c:108-168 | over every run with retries: a reported message has the texts of its attempt's events concatenated and per index the fold of that index's fragments, by ascending index |
| ProviderMessage.InterleavingGivesOneMessage | src/mua/provider/openrouter.c:219-289 | two runs whose attempts carry the same text and per index the same fragments report the same message |
| ProviderLaws.AssembledReads | src/mua/provider/openrouter.c:108-142 | an assembled message reads as an assistant's, with its content and its calls |
| ProviderCalls.ReportedCalls | src/mua/provider/openrouter.c:108-217 | over every run, a reader of a reported message finds the assistant's role, the texts of the events, and per index that some item names, ascending, the id, the type, the name and the arguments put together from that index's items |
| ProviderEndings.EventIsDone | src/mua/provider/openrouter.c:171-289 | what one event does, said of its bytes: the end sentinel, no JSON, an error object, text past the cap, items that do not fit, or text, calls, reason and usage taken in |
| ProviderEndings.StepDoes | src/mua/provider/openrouter.c:298-525 | what each callback does, exactly: when a transfer's end is a result, an error or a retry, how long the retry waits, what an attempt resets, what a cancel does |
| ProviderEndings.EveryStreamDoes | src/mua/provider/openrouter.c:298-525 | the same at every point of every run: whatever happens next does what is due and no more |
| ProviderEndings.FirstDoes | src/mua/provider/openrouter.c:478-525 | how a stream starts: its first attempt is under way, or an error is reported and it is gone |
| ProviderLaws.EveryStreamKeeps | src/mua/provider/openrouter.c:426-525 | over every run: one result or error, reported before the one release; a transfer or a timer pending until then; at most five attempts, a further one only if nothing was delivered; the message holds exactly the text passed on |
| ProviderLaws.StreamEnds | src/mua/provider/openrouter.c:426-476 | each end of a transfer and each retry lowers a rank of at most nine, which is zero exactly at the release |
| ProviderLaws.DelayBounds | src/mua/provider/openrouter.c:370-391 | a retry waits at least half the backoff and Retry-After's seconds, and at most a minute |
| Provider.OpenrouterStream.Step | src/mua/provider/openrouter.c:291-525 | the stream object: status, chunk, end of transfer, retry and cancel do what the state machine says and keep its invariant |
| Provider.OpenrouterStream.AccumulateToolCalls | src/mua/provider/openrouter.c:171-217 | the loop over an event's items, stopping at the first bad one, with the array of slots updated in place |
| Provider.OpenrouterStream.AssembleMessage | src/mua/provider/openrouter.c:108-142 | the loop over the slots up to the highest one touched builds the message |
| TreeLaws.CopyIsFresh | src/mua/api/private/helpers.c:112-155 | a copy holds the same tree; its blocks, each owned once, are exactly the new ones of the heap; no older block is touched |
| TreeLaws.CopiesAreIndependent | src/mua/api/private/helpers.c:112-205 | releasing a copy leaves its source whole, and the other way round |
| TreeLaws.CopyThenFree | src/mua/api/private/helpers.c:112-205 | copying and releasing leaves the heap as it was |
| TreeLaws.HoldsOneTree | src/mua/api/private/helpers.c:112-155 | a cell holds at most one tree, so equal trees mean equal contents throughout |
| Heap.ObjectHeap.CopyObject | src/mua/api/private/helpers.c:112-155 | the explicit-stack copy, never more than 32 frames deep, leaves the memory of the recursive copy |
| Heap.ObjectHeap.FreeObject | src/mua/api/private/helpers.c:158-205 | the explicit-stack release frees exactly what a tree owns, partly built trees included, each block live when its turn comes |
| JsonLaws.ConversionRoundTrip | src/mua/json.c:224-335 | a cJSON tree converts exactly when at most 32 containers are nested; object_to_cjson gives it back, infinities and NaN included, exactly when it holds no negative zero, and otherwise with plain zeros |
| JsonLaws.BuildHolds | src/mua/json.c:224-263 | whole or rejected half way, what is built is held by the root, owns exactly the new blocks, and releasing it restores the heap |
| JsonMeaning.ConvertsIff | src/mua/json.c:180-263 | a cJSON tree converts to an object exactly when at most 32 containers are nested and the object is the one it stands for; a number is an integer exactly when it is whole and has at most 53 bits |
| JsonMeaning.BackIs | src/mua/json.c:266-335 | the cJSON tree that an object is written as: strings and keys up to their first NUL, sessions as null |
| JsonMeaning.ObjectRoundTrip | src/mua/json.c:180-335 | an object comes back from cJSON as itself exactly when at most 32 containers are nested and it holds no session, no integer past 53 bits, no double that is such an integer, no NUL and no string without data |
| Json.CjsonToObject | src/mua/json.c:224-263 | the explicit-stack conversion: the object in storage of its own, or a rejection that leaves the heap as it was |
| Json.ObjectToCjson | src/mua/json.c:297-335 | the explicit-stack walk gives the recursive conversion and only reads the heap |
| BashLaws.EveryRunKeeps | src/mua/tools.c:600-735 | under every order of exit, end of output, timeout, grace, cancel and closings: each handle closed at most once, at most one result, and exactly one of each at the release |
| BashLaws.EveryCommandKeeps | src/mua/tools.c:600-735 | the same from the moment that the command runs and its pipe and timeout are armed |
| BashLaws.EveryStepKeeps | src/mua/tools.c:600-735 | every callback keeps the join; each uv_close is of an open handle |
| BashLaws.EveryCallbackGoesOn | src/mua/tools.c:600-735 | every callback but a cancel that changes nothing lowers a rank |
| BashLaws.ReleasedAtZero | src/mua/tools.c:600-620 | the struct is freed exactly at rank zero |
| BashLaws.NeverStuck | src/mua/tools.c:622-648 | until the release a child, a closing handle or the grace timer is pending |
| BashLaws.NeverReopens | src/mua/tools.c:600-735 | a closed handle stays closed, and nothing happens to a freed struct |
| BashEndings.EveryCommandDoes | src/mua/tools.c:600-735 | at every point of every run, what the next callback does, exactly: which handles it closes, what it arms, what it marks |
| BashEndings.FlagsAreMeant | src/mua/tools.c:600-735 | what the result's flags mean over a whole run: exited, canceled, timed out before the exit, the grace ended with the pipe open |
| BashEndings.ArmDoes | src/mua/tools.c:767-791 | how a command starts, and what a failure to read or to time it reports |
| BashEndings.OutputMeans | src/mua/tools.c:678-698 | the first 64 KiB without NUL bytes are kept, and the dropped and the NUL bytes are counted |
| Bash.ToolExec.Step | src/mua/tools.c:600-735 | the object: any callback in any order keeps the join and its promises |
| Bash.Captured.AppendOutput | src/mua/tools.c:678-698 | whatever the chunks, the first 64 KiB of the stream without its NUL bytes are kept and the rest is counted |
| Bash.OutputAddsUp | src/mua/tools.c:678-698 | kept, dropped and NUL bytes add up to the bytes read |
| ToolsSpec.WindowIsTheRange | src/mua/tools.c:121-151 | a scan's window is the requested lines of the file cut at its cap, and the full flag says whether it was cut |
| ToolsSpec.ReadShowsTheLines | src/mua/tools.c:121-151 | a read shows the lines asked for, what follows the last line feed being one more, cut at the cap, and the flag says whether it was |
| Tools.ReadScan.Feed | src/mua/tools.c:121-151 | the segment-wise scan gives that window after any chunks |
| Tools.CountOccurrences | src/mua/tools.c:351-380 | jumping between first bytes counts all matches, overlapping ones included, up to 100, and finds the first |
| Tools.EditFile | src/mua/tools.c:480-516 | the file changes only when the old text occurs exactly once, and then exactly there |
| ToolsSpec.SpliceBack | src/mua/tools.c:503-508 | replacing back restores the file |
| RenderLaws.RunConcat | src/mua/render.c:204-239 | the output does not depend on how the input is chunked |
| RenderLaws.OutputShowsTheInput | src/mua/render.c:184-253 | for a renderer that serves any turns, fed in pieces and flushed when each ends, without escape characters: a terminal shows part of the input with every line feed and is left with no style on |
| RenderLaws.LineLength | src/mua/render.c:158-194 | a line of n bytes comes out as at most 5n + 10, and as nothing only if it is empty |
| RenderLaws.EndedNewlineIsExact | src/mua/render.c:204-253 | after any such turns the flag holds exactly when the output is empty or ends in a line feed |
| RenderWritten.LineLooks | src/mua/render.c:40-194 | a line comes out one way, exactly: a fence dim, fenced text as code, a heading bold, other text as its marker and its pieces, each escape, code span, emphasis or unclosed mark as itself, with the terminal's codes |
| RenderWritten.PiecesShow | src/mua/render.c:40-111 | however a text is written in pieces, it comes out as their looks |
| RenderWritten.EveryTextIsWritten | src/mua/render.c:40-111 | every text is written in such pieces |
| RenderWritten.TurnLooks | src/mua/render.c:196-253 | a turn after any others, in any chunks: its lines come out as they look, fenced or not by the fences before them, longer ones unchanged, and so does an unended last line |
| Renderer.MarkdownRenderer.Feed | src/mua/render.c:204-239 | the renderer appends exactly that output, or fails exactly when it does not fit and leaves a prefix of it |
| Renderer.MarkdownRenderer.Finish | src/mua/render.c:241-253 | the flush likewise |
| Renderer.InlinePass | src/mua/render.c:75-111 | the cursor loop over escapes, code spans and emphasis gives the spans of the line |
| Memory.Buf.Append | src/mua/memory.c:118-144 | all of the bytes or none, none exactly when the cap would be passed, and growth keeps the contents |

## Left out

- CJsonSpec.Print: a Real is written as its text; which text printf chooses for a finite double, and the locale's decimal point, are a parameter of `ReprintingKeepsTheMeaning` only.
- CJsonSpec.ParseDocument: error offsets and messages, and numbers as doubles.
- CJsonWritten.ParsesIff: for documents in which four hex digits follow every `\u`; the code takes other digits for a zero, which no text of the grammar writes.
- MsgpackSpec.Decode: a 32-bit float and an unsigned integer beyond 63 bits become tokens for the double they convert to.
- MsgpackDecoder.MsgpackToObject: which number a decoded double is, is an argument; the read of the channel uses the recursive reading that it is proved equal to.
- JsonSpec.Back: an integer past 2 to the 53 becomes that number, where the code rounds it to a double.
- Json.ObjectToCjson: a container is attached to its parent when it is filled rather than when it is created.
- AgentLaws.FittingAnswersLeaveNothingOpen: assumes that answers fit a line, which the code does not check beforehand; the other case is `OversizedAnswerLeavesTheRoundOpen`.
- AgentRecovery.EverySessionRecovers: assumes that messages hold 32-bit integers only, are nested at most 64 deep and print to less than 2 GiB, as the messages built here do.
- AgentLives.EveryLifeRecovers: assumes that each repair's appends succeed, that no line is torn and that the round is completable; what happens otherwise is the subject of `RepairLastsIff` and `RepairCompletes`.
- ProviderSpec.OnChunk: takes the chunk's events as a list; that a chunk parses into these is the subject of the Sse modules. HTTP, curl codes, error bodies and headers are a record of what they come to.
- ProviderSpec.GetInt: the cut of a double to an integer is an argument.
- RpcSpec.Dispatch: the API's functions are an arbitrary function of the calls so far; a failing uv_write, the end of input and the closing of handles are left out.
- BashSpec.Next: spawning, process kill, the result's notes and the data callback's buffer are left out.
- ToolsSpec.Scan: the 8 MiB scan bound and the check for NUL bytes, which does depend on chunking.
- Tools.EditFile: reading and rewriting the file.
- Session loading: path discovery, open and fstat errors, EINTR retries.
- Agent turns: texts of errors, tool lookup, the gate's policy and the system prompt; what becomes of a call is an argument.
- cJSON beyond printing and parsing: hooks, locale, Minify, Compare, Duplicate, reference items and the linking of child lists, which appear here as sequences.
- Allocation failure, which aborts the process.
- Lua, the event loop, HTTP client, command line, paths, options, variables, autocommands and model cache: foreign calls and small tables.
