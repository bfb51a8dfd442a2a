# Ousagi: a verified model

Ousagi is a cache server that speaks the memcached text protocol. This project models three parts of
it and joins them end to end:

* **the stream**: an incremental reader with a carry-over buffer, which switches between lines,
  length-prefixed data blocks and two ways of discarding, and a buffered writer
  (`Connection.dfy`), against a one-pass decoder of the whole byte stream (`Framing.dfy`) and a
  function that says where the reads cut it and which lines are refused (`Reading.dfy`);
* **the protocol**: the tokenizer and the parser (`Tokens.dfy`, `Parser.dfy`), the response encoder
  (`Responses.dfy`), and the session loop (`Session.dfy`), against a printer of commands
  (`Printer.dfy`), a grammar of the lines that are accepted and of what the others are told
  (`Grammar.dfy`), a decoder of responses, and an interpreter of byte streams; and what clients can
  tell from the bytes they receive (`Clients.dfy`), with a session in which a reply is held back
  (`Overlong.dfy`);
* **the store**: lazy expiry, delayed flushes, tokens and arithmetic for one caller at a time
  (`Items.dfy`, `Store.dfy`), with the exact answer and effect of every command told from the items
  alone (`Answers.dfy`) and of which data is a number (`Numbers.dfy`), against a reference map that forgets expired items by itself
  (`Eager.dfy`), and the same store under concurrent callers as a transition system
  (`Interleaving.dfy`), with what every history of key actions guarantees (`History.dfy`), runs in
  which a flushed item is still returned, or a later one missed (`StaleHits.dfy`), the counters (`Counting.dfy`, `Tallies.dfy`), and the proof that the store of one caller is one of the
  interleavings (`Schedules.dfy`).

The classes `Tokenizer`, `Reader`, `Writer`, `Connection` and `Store` are updated in place as in the
source; every method is proved against a function of the old state. Bytes are characters below 256,
so that protocol words are string literals. `hide` statements only narrow what a proof looks at.
`dafny verify dfyconfig.toml` checks everything.

## How the pieces fit

`Reader.sizes` says how the network will cut the input into reads. It is arbitrary, so what is proved
for a reader is proved for every chunking. `Framing.NextFrame` gives the first command or error
reply of a whole stream; `Framing.CanYield` adds the one liberty the code has, to refuse a line whose
newline lies at index 8192 or beyond. `Readings.Taken` says which of the two happens for given read
sizes. `Connection.ReadCommand` is proved to take exactly these frames and to wait exactly at the
positions of `Readings.FrameReads`, and `Sessions.Process` to write exactly the encoded replies of
`Sessions.Conduct`, the interpreter for given read sizes, which for short lines is `Sessions.Serve`,
the interpreter of the stream alone. `Sessions.Due` is what is owed at a position of the stream.

`Items.Act` is the entry action of each store operation on one key, given the clock reading, the
cutoff and the token the caller holds. The methods of `Store` are proved to perform it one caller at
a time; `Interleavings.Step` performs it with any number of callers, evictions and flushes in
between. `Histories.Sound` is what every such run satisfies, and the results about concurrency are
lemmas about sound histories.

## What turned out not to hold

Each of these is a promise the code does not keep, with the exact condition under which it does.

* *How the input is cut into reads does not matter.* `Chunking.ChunkingShows`: it matters for a line
  if and only if less than 8192 bytes of it are buffered and its newline is at index 8192 or later,
  but within one read of the last position below that.
* *Every reply is delivered.* `quit` ends the session without a flush. `Sessions.Process` delivers all
  it has written if and only if `Sessions.QuitDelivers`: the last read outside an overlong line found
  no more to come than follows the last request with a reply, which is a function of the stream and
  of the sizes of its reads. `Sessions.PatientClientIsAnswered` is a client that meets it, one that
  sends `quit` when it has been answered; `Sessions.QuitDropsReplies` one that receives nothing, with
  everything in one read and replies that fit the writer's buffer.
* *Whoever waits has been answered.* The reads that skip an overlong line do not flush. At such a wait
  the client has been sent all that is due if and only if nothing was written since the last flush
  (`Connection.Tells`, a promise of `Sessions.Process`). `Overlong.OverlongWithholds` is a session in
  which a reply is held back. At every other wait all that is due has been delivered.
* *A rejected storage command takes its data block along.* The byte count may be so large that adding
  two wraps around in a release build. `Framing.StorageLineConsumes`: the block is gone if and only if
  the sum stays below 2^64, or no more bytes follow than it wraps to. `Printer.BlockRunsAsCommand` is
  the line `set k 0 0 18446744073709551615`, after which the block is run as commands.
* *A flushed item stays flushed.* A delayed flush replaces a cutoff that has already come due, and
  items that the old cutoff had hidden, but that nobody had asked for since, come back.
  `Eager.DelayedFlushExact` and `Eager.ResurrectionShows` say exactly when,
  `Eager.LateFlushResurrects` is a run in which it happens.
* *After the cutoff nothing older is returned.* `Interleavings.StaleExactly`: an older item that is
  not past its own expiry is returned if and only if the call had read its clock before the cutoff was
  due, or had read another cutoff, before this one was set, that does not hide the item from it.
  `StaleHits.SlowClockRun` and `StaleHits.EarlyCutoffRun` are a run for each.
* *Nothing written after the cutoff is hidden.* Items carry the clock reading of the call that stored
  them, which may be older than the write. `Interleavings.MissedExactly`: a call that reads clock and
  cutoff after the flush is due misses an item that is not past its own expiry if and only if the call
  that stored it had read its clock before the cutoff, however late it stored it.
  `StaleHits.LateWriteRun` is such a run.

The statistics have counters for `gat` of their own (`cmd_gat`, `gat_hits`, `gat_misses`), but the code
counts `gat` under `cmd_get`, `get_hits` and `get_misses`; the model follows the code.

## Model

| member | source | states |
|---|---|---|
| Sessions.Process | src/session.rs:7-20 | for every stream and all read sizes, the bytes written are the in-order encodings of the replies of Conduct, and of the interpreter of the stream alone when no line is overlong; at every wait, the last one included, exactly the replies due by then had been written, and all there are at a wait after the end of the stream was seen; they had been delivered too, except in an overlong line, where they had been if and only if nothing was written since the last flush; everything is delivered at the end unless the client quit, and then if and only if QuitDelivers holds of the stream and the read sizes |
| Sessions.ServingIsUnique | src/session.rs:7-20 | below the line limit every way the reader can go through a stream leads to the replies, the store and the ending of the interpreter |
| Sessions.DueNext | src/session.rs:11-17 | the replies due when part of a stream has arrived are those of the requests that lie wholly in that part, in order |
| Sessions.ConductShort | src/session.rs:7-20 | below the line limit the session is what the interpreter makes of the stream, whatever the read sizes |
| Sessions.ConductServes | src/session.rs:7-20 | for all read sizes the session is one of the ways to serve the stream |
| Sessions.PipelineServed | src/session.rs:11-17 | a printed list of well-formed commands is answered as the list itself run on the store, noreply commands silently, and what follows it is served from the state they leave |
| Sessions.QuitOutcome | src/connection.rs:146-149 | for a session that has read what the stream and the read sizes determine, overlong lines included, the writer's buffer is empty at `quit` if and only if the last read outside such a line found no more to come than follows the last replied request, or there was none and nothing was replied or left over |
| Sessions.PatientClientIsAnswered | src/connection.rs:146-149 | a client whose `quit` is still to come at some read of the session receives every reply |
| Sessions.QuitDropsReplies | src/connection.rs:146-149 | commands and a `quit` that arrive in one read are all answered into the writer, and none of it reaches the client when it fits the writer's buffer |
| Overlong.OverlongWithholds | src/connection.rs:242-254 | a session that waits in an overlong line while the reply to an earlier command is due and not delivered |
| Sessions.DueIsFirst | src/session.rs:11-17 | the replies due at a point of the stream come first among all replies, and are all of them if and only if no replied request ends later |
| Sessions.ServingExists | src/session.rs:7-20 | what the interpreter says is one of the ways to serve a stream |
| Sessions.Answer | src/session.rs:11-17 | the store moves on by the command, and its response is written if and only if a reply is wanted |
| Clients.LineIsAnswered | src/session.rs:11-17 | a command is answered exactly once, unless it is no retrieval and its line ends in the word `noreply` that is not the key of a delete: then not at all |
| Clients.PrintedIsAnswered | src/session.rs:11-17 | serving one printed command sends no reply if and only if its last word says so, and otherwise one |
| Clients.ServedIsClean | src/session.rs:11-17 | every reply of every session, whatever the chunking and the length of the lines, can be told apart on the wire, and none is the complaint about a missing cas token |
| Clients.ClientsCanTell | src/connection.rs:156-226 | any two sessions that write the same bytes gave the same replies, whatever bytes the stored data holds |
| Printer.AcceptedIsProper | src/parser.rs:132-393 | every accepted line gives a command with valid keys, data within 1 MiB and a token exactly for `cas` |
| Printer.AcceptedPrintsBack | src/parser.rs:132-393 | printing an accepted command and parsing it again gives the same header, however it had been written |
| Framing.DecodingIsUnique | src/connection.rs:52-154 | below the line limit all readings of a stream up to its next command agree with the one-pass decoder |
| Readings.HeardDecodes | src/connection.rs:109-154 | what is decoded up to the next command is a possible reading of the stream, for all read sizes |
| Readings.TakenYields | src/connection.rs:52-72 | the frame taken is one the stream can yield: a refused line has its newline at index 8192 or later |
| Readings.ShortIsTaken | src/connection.rs:64-66 | a line with its newline below index 8192 is taken as the decoder takes it, for all read sizes |
| Readings.ReadsDescend | src/connection.rs:52-107 | every wait finds fewer bytes unread than the one before, and never none before the last frame |
| Framing.StorageLineConsumes | src/parser.rs:248-296 | an accepted storage line whose block is cut short ends the session; any other with a readable byte count leaves the stream after its block, or at its end, if and only if the count plus two stays below 2^64 or no more bytes follow than it wraps to; one without a count takes only itself |
| Framing.Resynchronises | src/connection.rs:99-145 | after a storage line and its block the stream decodes as if both were absent, whatever became of the command |
| Framing.WrappedSkip | src/parser.rs:259-262 | for both counts whose sum wraps around, no byte or one is skipped and the data block is left in the stream |
| Printer.BlockRunsAsCommand | src/parser.rs:259-262 | after `set k 0 0 18446744073709551615`, any byte and a printed command, the command is run |
| Framing.StoreErrorSkips | src/parser.rs:259-285 | every rejection of a storage command skips its block exactly when the byte count could be read |
| Framing.DecodesNext | src/connection.rs:109-154 | the one-pass decoding is always among the possible readings |
| Connections.Connection.ReadCommand | src/connection.rs:109-154 | the outcome, the replies written and the bytes left are those the stream and the read sizes determine, the decoder's own when lines are short; nothing is lost, doubled or reordered; at each wait exactly the error replies due by then had been written, and all of them once the end of the stream is known; the waits come where the stream and the read sizes put them, and the writer's buffer is empty exactly when nothing was written since the last flush |
| Connections.Connection.ReadFrame | src/connection.rs:109-154 | one turn of the loop takes the frame that the stream and the read sizes determine, leaves exactly the bytes after it, and makes no wait beyond what the frame needs |
| Connections.Connection.FinishFrame | src/connection.rs:123-152 | after the line, command, error reply, data block and discard follow the decoder |
| Connections.Connection.Reject | src/connection.rs:123-131 | the block a rejected command announces is gone before the error is answered |
| Connections.Connection.FinishStore | src/connection.rs:135-145 | a whole block makes a command, a bad terminator an error reply, a short one ends the session |
| Connections.Connection.ReadLine | src/connection.rs:52-72 | returns the first line without its line ends, or refuses only with 8192 bytes buffered and no newline among them, or finds the end of the stream; it waits exactly until one of these is so |
| Connections.Connection.TakeLine | src/connection.rs:54-62 | a newline in the buffer is the first of the whole stream |
| Connections.Connection.ReadPayload | src/connection.rs:74-107 | delivers exactly the announced bytes, however they are split between buffer and socket, tells a bad terminator from a good one, and fails only when the stream ends early |
| Connections.Connection.FillBlock | src/connection.rs:75-99 | the data and two more bytes are there unless the stream ends first, and the reads stop where the block does |
| Connections.Connection.FillData | src/connection.rs:81-90 | data read past the buffer continues the buffered data without a gap |
| Connections.Connection.Refuse | src/connection.rs:113-118 | an overlong line is gone through its newline, and the complaint is written after it |
| Connections.Connection.FillTerminator | src/connection.rs:92-99 | two bytes get buffered unless the stream holds fewer |
| Connections.Connection.DiscardExact | src/connection.rs:228-240 | exactly the first n bytes of the stream are gone, fewer only if it ends |
| Connections.Connection.CopyToSink | src/connection.rs:235-236 | reading past the empty buffer discards exactly the rest of the count |
| Connections.Connection.DiscardUntilNewline | src/connection.rs:242-254 | the stream goes on after its next newline, or is at its end; nothing is flushed, and it waits only while the newline is not there |
| Connections.Connection.FillBuffer | src/connection.rs:256-260 | everything written is delivered before the socket is read, and what is read goes behind the buffer |
| Connections.Connection.WriteResponse | src/connection.rs:156-226 | appends the wire form of the response to what was written |
| Connections.Connection.WriteValues | src/connection.rs:184-208 | appends a block for each value, in order |
| Connections.Connection.ValueHeader | src/connection.rs:189-201 | the header built piece by piece is the words key, flags, size and token, separated by single spaces |
| Connections.Connection.constructor | src/connection.rs:44-50 | a new connection has an empty buffer and has not waited |
| Connections.Writer.WriteAll | src/connection.rs:156-226 | what is written comes after what was written; what fits the buffer stays in it |
| Connections.Writer.Flush | src/connection.rs:256-257 | everything written is delivered |
| Chunking.ChunkingShows | src/connection.rs:52-67 | whatever is buffered, the outcome of reading a line depends on the chunking if and only if less than 8192 bytes are buffered and the newline is at index 8192 or later and at most 8190 plus the largest read |
| Chunking.RunRefuses | src/connection.rs:52-72 | the line loop refuses exactly the lines that Readings.Refused names, by where the reads come |
| Chunking.ShortLineRun | src/connection.rs:52-72 | a line with its newline below index 8192 is read the same way under every chunking |
| Chunking.FarLineRun | src/connection.rs:64-66 | a newline farther off than any single read can reach past the limit means refusal under every chunking |
| Chunking.SlowRun | src/connection.rs:64-66 | read a byte at a time, a line that reaches the limit is refused |
| Chunking.JumpRun | src/connection.rs:54-62 | the same line is accepted when one read jumps from below the limit past its newline |
| Tokens.Tokenizer.Next | src/parser.rs:112-129 | returns the first field of what remains and leaves the others; a token is a non-empty slice without spaces cut out after spaces only, and the rest shrinks |
| Tokens.FieldsAreTokens | src/parser.rs:112-129 | every field of a line is non-empty, free of spaces and no longer than the line |
| Tokens.ExtraSpace | src/parser.rs:108-129 | a space anywhere separates the fields before it from those after it, so a second one changes nothing |
| Tokens.FieldsOfSpaced | src/parser.rs:108-129 | tokens joined by spaces are found again as they were |
| Parser.ParseCommandLine | src/parser.rs:132-160 | the result is a function of the list of fields of the line alone |
| Parser.ParseGet | src/parser.rs:206-219 | accepts exactly one or more valid keys |
| Parser.ParseGetAndTouch | src/parser.rs:221-246 | accepts exactly an expiration time and one or more valid keys |
| Parser.ParseKeys | src/parser.rs:212-216 | collects all remaining tokens in order if and only if each is a valid key |
| Parser.ParseStore | src/parser.rs:248-296 | accepts or rejects by the fields, with the block to skip attached to every rejection after the byte count |
| Parser.ParseStoreTail | src/parser.rs:274-285 | a token is demanded for `cas` and only for it, then `noreply` or nothing |
| Parser.ParseDelete | src/parser.rs:298-308 | accepts exactly a valid key and an optional `noreply` |
| Parser.ParseArithmetic | src/parser.rs:310-330 | tells a bad key, a bad delta and trailing words apart |
| Parser.ParseTouch | src/parser.rs:332-347 | accepts exactly a valid key, an expiration time and an optional `noreply` |
| Parser.ParseFlushAll | src/parser.rs:349-368 | reads a lone `noreply` as no delay, and a bad delay as an invalid numeric delay |
| Parser.ParseVerbosity | src/parser.rs:375-387 | demands a level |
| Parser.ParseBare | src/parser.rs:370-393 | accepts nothing after the verb |
| Parser.ParseNoReply | src/parser.rs:195-204 | accepts exactly the empty rest or a final `noreply` |
| Parser.ExpectEnd | src/parser.rs:187-192 | succeeds if and only if no field remains |
| Parser.ParseField | src/parser.rs:177-184 | an accepted number lies in the range of its type |
| Grammar.AcceptedExactly | src/parser.rs:132-393 | a list of tokens is accepted if and only if it begins with `quit` or asks for a command with valid keys, data within 1 MiB and a token exactly for `cas`, word by word, with any way of writing its numbers |
| Grammar.AcceptedIsSpelled | src/parser.rs:132-393 | the command accepted is the one the tokens ask for |
| Grammar.SpelledIsAccepted | src/parser.rs:132-393 | tokens that ask for a proper command are parsed as it, zeros and signs in its numbers included |
| Grammar.RejectedSays | src/parser.rs:10-50 | every rejected line is answered with the text its tokens call for: unknown or incomplete, malformed, bad delta, bad delay, or too large |
| Grammar.KeyIsValid | src/parser.rs:163-173 | a key is valid if and only if it has 1 to 250 bytes and none of them is a control character, a space or DEL |
| Grammar.NoReplyIsWritten | src/commands.rs:69-83 | a command that is no retrieval asks for no reply if and only if the last word of its line is `noreply` and is not the key of a delete |
| Grammar.TrimsLineEnds | src/connection.rs:57-59 | exactly the carriage returns and newlines at the end of a line are removed |
| Grammar.BlockIsTaken | src/connection.rs:99-144 | a block becomes the data of the command if CR LF follows it, and is answered with `bad data chunk` otherwise |
| Grammar.TooLongIsSaid | src/connection.rs:64-119 | 8192 bytes without a newline are answered with `line too long` |
| Printer.FieldAccepts | src/parser.rs:177-184 | a token is accepted if and only if it is the decimal form of a number in range, behind an optional sign and any zeros, or has no digits and stands for zero |
| Printer.PipelineRoundTrip | src/parser.rs:132-160 | decoding the concatenation of any printed well-formed commands gives the same list, and then what follows it |
| Printer.CommandRoundTrip | src/connection.rs:109-154 | one printed command is decoded as itself, data of any bytes included, whatever follows |
| Printer.WordsRoundTrip | src/parser.rs:132-160 | parsing the words of a well-formed command gives it back up to its data block |
| Printer.StoreHeaderRoundTrip | src/parser.rs:248-296 | the words of a storage command parse to the same key, flags, expiration time, size, token and reply wish |
| Printer.RetrievalRoundTrip | src/parser.rs:206-246 | the words of a retrieval parse to the same keys, expiration time and token wish |
| Printer.KeyedRoundTrip | src/parser.rs:298-347 | the words of delete, incr, decr and touch parse back |
| Printer.AdminRoundTrip | src/parser.rs:349-393 | the words of flush_all, version, verbosity and stats parse back |
| Printer.FieldRoundTrip | src/parser.rs:177-184 | the decimal form of a number in range, signed or not, is read back as that number |
| Printer.LineRoundTrip | src/connection.rs:57-59 | a printed line survives the removal of its line end and splits into the words it was made of |
| Responses.UniquelyDecodable | src/connection.rs:156-226 | two lists of responses with the same bytes are the same list |
| Responses.WordsOnTheWire | src/connection.rs:156-183 | the bytes of every response that is one line |
| Responses.ValueOnTheWire | src/connection.rs:184-208 | a value goes out with its own key, flags, size and, if asked for, token, and then its data |
| Responses.ReplyRoundTrip | src/connection.rs:156-226 | an encoded response is decoded as itself whatever follows, even when its data holds line ends, `VALUE ` or `END` |
| Responses.ValuesRoundTrip | src/connection.rs:184-208 | value blocks, with or without a token, are recovered in order |
| Responses.ValueRoundTrip | src/connection.rs:189-206 | the four or five words of a header and the size they announce give back the value, so a token is never confused with its absence |
| Responses.StatsRoundTrip | src/connection.rs:211-220 | the report is recovered entry by entry and is not mistaken for a retrieval |
| Responses.ReplyLineRoundTrip | src/connection.rs:158-183 | the lines of all other responses are told apart from one another and from blocks |
| Items.NumberRoundTrip | src/store.rs:413-431 | the decimal stored by incr or decr is read back as the number that was returned |
| Numbers.NumberIsWritten | src/store.rs:413-421 | data is the number n if and only if n is below 2^64 and the data is white space, an optional plus sign, any zeros, the decimal of n, white space, all the white space characters of Unicode included |
| Items.ArithmeticComposes | src/store.rs:423-426 | any number of incrs is one addition modulo 2^64, any number of decrs one subtraction that stops at zero |
| Histories.WorthIsPieces | src/store.rs:300-330 | in any history the value of a key is the prepends since its last base write in reverse, the base, the appends in order |
| Interleavings.HitsShowPieces | src/store.rs:300-330 | in every interleaving that is what a hit returns |
| Items.ExpiryMeaning | src/store.rs:30-47 | a stored item is out of time never for 0, at once below 0, that many seconds later up to 2592000, at that date above |
| Stores.Store.constructor | src/store.rs:113-131 | a new store is empty, its next token is 1 and there is no cutoff |
| Stores.Store.Get | src/store.rs:166-200 | the loop over the keys gives the values, the counters and the removals of one key action after the other |
| Stores.Store.GetAndTouch | src/store.rs:202-238 | the same, each hit with a token of its own and a new expiration time |
| Stores.Store.GetKey | src/store.rs:174-196 | a live item is shown and kept, an expired one removed and missed |
| Stores.Store.TouchKey | src/store.rs:210-234 | a live item is shown with its new token, an expired one removed and missed without taking a token |
| Stores.Store.Put | src/store.rs:240-370 | the whole new state and the answer are those of the operation with the token taken beforehand, which is used up whatever happens |
| Stores.Store.PutEntry | src/store.rs:247-369 | the action on the entry of the key, for each of the six operations |
| Stores.Store.Delete | src/store.rs:372-391 | the key is gone in any case, and DELETED is said only of a live item |
| Stores.Store.Arithmetic | src/store.rs:393-449 | the whole new state, the counters and the answer for a missing, an expired, a non-numeric and a numeric item |
| Stores.Store.AdjustEntry | src/store.rs:408-432 | the number is replaced by its adjusted decimal with a new token, anything else is left alone |
| Stores.Store.Touch | src/store.rs:451-483 | a live item keeps its data and gets a new expiration time and token |
| Stores.Store.Flush | src/store.rs:485-499 | no delay or a delay of zero empties the store, any other sets the cutoff over an earlier one |
| Stores.Store.NextCas | src/store.rs:133-135 | tokens are handed out one after the other |
| Stores.Handle | src/handler.rs:12-29 | every command reaches its operation with its own arguments, and the rest of the state stays |
| Answers.SetAnswers | src/store.rs:248-253 | set stores the item with the next token and says STORED, whatever was there |
| Answers.AddAnswers | src/store.rs:254-281 | add stores and says STORED if and only if the key is not alive |
| Answers.ReplaceAnswers | src/store.rs:282-299 | replace stores and says STORED if and only if the key is alive |
| Answers.AppendAnswers | src/store.rs:300-330 | append puts its data behind that of a live item, keeps the rest, and says STORED; else NOT_STORED |
| Answers.PrependAnswers | src/store.rs:300-330 | prepend puts its data in front of that of a live item, keeps the rest, and says STORED; else NOT_STORED |
| Answers.CasAnswers | src/store.rs:332-368 | cas is answered by the token held: STORED and replaced, EXISTS and kept, NOT_FOUND if not alive |
| Answers.DeleteAnswers | src/store.rs:372-391 | the key is gone, and DELETED is said if and only if it was alive |
| Answers.TouchAnswers | src/store.rs:451-483 | a live item gets a new expiry and token and TOUCHED is said, else NOT_FOUND |
| Answers.IncrAnswers | src/store.rs:393-449 | a live item that holds the number n holds n plus the delta modulo 2^64, which is the answer |
| Answers.DecrAnswers | src/store.rs:393-449 | a live item that holds the number n holds n less the delta, not below zero, which is the answer |
| Answers.TextAnswers | src/store.rs:413-421 | a live item whose data is written as no number is kept, and the error is answered |
| Answers.NothingAnswers | src/store.rs:440-443 | incr and decr of a key that is not alive answer NOT_FOUND |
| Answers.GetShows | src/store.rs:166-200 | the values are, in order, one for each key that is alive, with that item's own flags and data, and its token exactly when asked for; only items that are not alive go |
| Answers.GatShows | src/store.rs:202-238 | for distinct keys the same, with the new expiry and a new token, the one the store then holds |
| Answers.GatStep | src/store.rs:202-238 | for any keys, each one is shown as those before it have left it |
| Answers.FlushAnswers | src/store.rs:485-499 | a delay above zero sets the cutoff that many seconds ahead, anything else empties the store |
| Answers.OtherAnswers | src/handler.rs:26-29 | the version, the answer to verbosity, and the entries of the report |
| Answers.SetGetsCas | src/store.rs:166-368 | after a set, gets shows its flags, data and token, and a cas is stored if and only if it names that token |
| Answers.StorageCounts | src/store.rs:240-370 | the counters of a storage command by what it found |
| Answers.RetrievalCounts | src/store.rs:166-238 | hits count the values shown, misses the other keys |
| Answers.ArithmeticCounts | src/store.rs:393-449 | hits count numbers, misses keys that are not alive |
| Eager.LazyRefinesEager | src/store.rs:69-81 | under a clock that never goes back every run that brings nothing back to life is answered as by the reference map |
| Eager.LazyRefinesEagerFromStart | src/store.rs:166-499 | from an empty store that is so whenever no delayed flush comes after an earlier cutoff is due |
| Eager.ActIsPlain | src/store.rs:166-483 | on what can be seen, each lazy operation does what a map without expired items would do |
| Eager.DelayedFlushExact | src/store.rs:148-151 | a delayed flush keeps store and reference in step if and only if no item is hidden by a due cutoff alone |
| Eager.ResurrectionShows | src/store.rs:148-151 | if and only if one is, some retrieval right after the flush tells store and reference apart |
| Eager.LateFlushResurrects | src/store.rs:148-151 | a run of four commands after which a flushed item is returned again |
| Eager.CutoffAfter | src/store.rs:485-499 | no command but a delayed flush moves the cutoff |
| Eager.NoLateFlushIsSafe | src/store.rs:148-151 | a run without late delayed flushes brings nothing back, from any state |
| Counting.BalanceKept | src/store.rs:166-483 | for one caller, in every run hits and misses add up to calls, and total_items to the STORED replies given |
| Counting.Answers | src/handler.rs:12-29 | the only answers each command can get |
| Tallies.CountersSettle | src/store.rs:166-483 | for any number of callers, in every interleaving in which all calls are done, hits, misses and failures add up to calls, total_items to the STORED replies, and cas results do not exceed cmd_set |
| Tallies.RunBalances | src/store.rs:166-483 | at every moment the calls counted are the actions done and those under way |
| Tallies.SameTally | src/store.rs:240-483 | what concurrent calls count is what the store of one caller counts |
| Histories.ContentIsWorth | src/store.rs:247-369 | what a key holds is what its clients can work out from their own stored writes, whatever was evicted |
| Histories.HitIsFresh | src/store.rs:166-200 | every hit in a sound history shows the last base write with the later appends, prepends and arithmetic results applied, and no removal, eviction or expiry of the key has come since that write |
| Histories.HeldSinceBase | src/store.rs:166-391 | what a key holds has been there, in one form or another, since its last base write |
| Histories.WorthKept | src/store.rs:202-483 | each action either writes a new base or keeps flags and storage time and changes the data only as its reply says |
| Histories.RetrievalSees | src/store.rs:69-81 | a retrieval of a held key hits if and only if the item is not past its own expiry and the cutoff the call read is not due by its clock reading or not later than the last base write |
| Histories.ItemHasOrigin | src/store.rs:133-135 | an item in the cache was put there by the call that took its token and has stayed since |
| Histories.SameTokenSameItem | src/store.rs:133-135 | no ABA: the same token at two moments means the same key, the same item, and no change in between |
| Histories.CasReplacesWhatWasRead | src/store.rs:332-368 | a cas that is stored replaces, under the same key, the very item the retrieval of its token saw |
| Histories.ArithmeticConserved | src/store.rs:393-449 | from a number on, until another stored write, a removal or expiry, every incr and decr by any caller succeeds, and its reply is the initial number with the changes up to its own action applied |
| Histories.IncrementsConserved | src/store.rs:393-449 | the number held is the initial one plus the sum of the deltas modulo 2^64, and the replies are the partial sums |
| Histories.DecrementsConserved | src/store.rs:393-449 | the number held is the initial one less the sum of the deltas, not below zero, and so are the replies |
| Histories.AddIsExclusive | src/store.rs:254-281 | between two removals of a key, whatever else is done to it, at most one add, superseded ones included, is answered STORED |
| Interleavings.EveryRun | src/store.rs:166-499 | every interleaving of split calls, evictions and flushes keeps the history faithful and the tokens apart |
| Interleavings.StepKeeps | src/store.rs:166-499 | one step of any kind keeps that invariant |
| Interleavings.InsertKeeps | src/store.rs:271-279 | the insertion through a reservation keeps it, whether the reservation still stands or is superseded |
| Interleavings.TokensAreUnique | src/store.rs:133-135 | in every interleaving no two writes install the same token, and all are below the next one |
| Interleavings.HeldTokens | src/store.rs:133-135 | no two keys hold the same token |
| Interleavings.HitsAreFresh | src/store.rs:166-238 | in every interleaving with arbitrary evictions a hit is what the clients last wrote, with nothing removed since |
| Interleavings.NoLostUpdate | src/store.rs:332-368 | in every interleaving a stored cas replaces exactly the item its token was read from, untouched since |
| Interleavings.ArithmeticSucceeds | src/store.rs:393-449 | in every interleaving arithmetic on a number goes on succeeding until another write, a removal or expiry, with the replies in the order of the actions |
| Interleavings.IncrementsAddUp | src/store.rs:393-449 | in every interleaving of incrs on a number it grows by the sum of the deltas modulo 2^64, and the replies are the partial sums |
| Interleavings.DecrementsAddUp | src/store.rs:393-449 | in every interleaving of decrs on a number it falls by the sum of the deltas, down to zero, and the replies are the partial results |
| Interleavings.AddsAreExclusive | src/store.rs:254-281 | in every interleaving, the split path of a vacant key and other operations included, at most one add is stored between two removals |
| Interleavings.SupersededIsNotStored | src/store.rs:271-279 | in every interleaving an add that lost its reservation is answered NOT_STORED |
| Interleavings.DelayedFlushHolds | src/store.rs:485-499 | once a delayed flush has set the cutoff and none follows, every value returned descends from a set, add, replace or cas done at or after the cutoff, or went to a call whose clock reading is before it or which had read another cutoff before it was set |
| Interleavings.StaleExactly | src/store.rs:69-81 | in such a run an older item not past its own expiry is returned if and only if the call's clock reading is before the cutoff, or the call had read another cutoff before, which does not hide the item |
| Interleavings.MissedExactly | src/store.rs:69-81 | in such a run a call that reads its clock at or after the cutoff, and its cutoff after the flush, misses an item not past its own expiry if and only if the clock reading of its last base write is before the cutoff, however late the write was done |
| Interleavings.NothingNewerHidden | src/store.rs:69-81 | in such a run a call that reads its cutoff after the flush misses an item whose last base write read its clock at or after the cutoff only past the item's own expiry |
| StaleHits.LateWriteRun | src/store.rs:240-253 | an interleaving in which an item without an expiry, stored at 150, is missed by a call that begins at 150, because its writer had read the clock at 100 and the cutoff is 110 |
| StaleHits.SlowClockRun | src/store.rs:166-173 | an interleaving in which a call that read its clock at 100 and the cutoff 110 returns, at 150, an item stored at 100 |
| StaleHits.EarlyCutoffRun | src/store.rs:148-173 | an interleaving in which a call that read its clock at 120, before the cutoff 110 was set, returns an item stored at 100 |
| Interleavings.SinceFlushRun | src/store.rs:141-151 | every later call reads that cutoff |
| Schedules.SequentialIsAnInterleaving | src/store.rs:166-499 | every run of the store of one caller is an interleaving of the concurrent one, with the same items, tokens and responses |
| Schedules.CommandAlone | src/handler.rs:12-29 | so is every single command, from any state in which no key is reserved, with other calls standing still |

## Left out

- Stores.Report: six of the entries of the statistics report; the others are of the same form.
- Parser.ParseField: a lone sign is read as zero; what the `atoi` crate makes of it is not part of this model, and only Printer.FieldAccepts speaks of it.
- Interleavings.DelayedFlushHolds: excepts calls that had read their clock or another cutoff before, because the code lets them use it; Interleavings.StaleExactly says which.
- Tallies.CountersSettle: an increment that follows an action is made with it, so the report of statistics in between is not modelled.
- Connections.Connection.DiscardUntilNewline: reads without a flush, so at waits inside an overlong line replies are not promised to have been delivered; Connection.Tells says when they have been.
- Connections.Connection.FillBuffer: a read may take any number of bytes, not only as many as the reserved capacity; this only adds chunkings.
- Connections.Connection.FillData: takes `BytesMut::with_capacity(len)` to leave exactly `len` spare bytes, so that no byte of the terminator is read as data.
- Connections.Writer.WriteAll: a write as large as the buffer is taken whole by the socket; partial writes and write errors are not modelled.
- Errors of the socket other than its end, cancellation, and the sharing of memory between buffers, lines and values.
- The cache library: sharding, weights, capacity and the choice of victims; eviction is a step that may remove any key at any time, an entry action is atomic, and a removal may or may not cancel a reservation.
- The clock task: time is a number that never decreases; 64-bit overflow of the clock and of the token counter is not modelled.
- The order in which relaxed atomic operations of different variables become visible; each step reads the current value.
- The counters of connections, bytes, evictions and expired retrievals.
- The accept loop, the connection limit, shutdown, the command line and tracing.
- What memcached does and this server does not, such as `stats` with arguments or padding after `decr`.
