# A Dafny model of the PostgreSQL-compatible server

This project models four connected parts of the server and proves what they promise, for all inputs and over whole
runs.

- **Wire codec and peekable reader.** `Inputs.dfy` and `PeekReader.dfy` are the byte source and the reader with its peek
  buffer, `Frontend.dfy` the frontend messages of section 55.7 of the PostgreSQL 16 documentation, `Requests.dfy` what the
  parsers make of them, `MessageLaws.dfy` their round trips, `MalformedLaws.dfy` what goes wrong, `StartupMessage.dfy`, `CopyFrames.dfy` and `BindLookup.dfy`
  the smaller formats, `Parsers.dfy` the parsers as they pull field after field from the shared reader. `Writers.dfy`,
  `Framing.dfy`, `RowFormat.dfy`, `ResultSets.dfy` and `SelectLaws.dfy` are the way back.
- **Session.** `Session.dfy` gives every handler, the statement loop, the dispatch loop and the greeting as functions
  from state to state; `Server.dfy` has the mutable connection and server objects, each method proved against its
  function. `MessageServer.dfy` is the reference: the server as a client sees it that thinks in messages, without bytes,
  peeks or segments. `ConversationLaws.dfy` proves that the byte-level loop refines it, and
  `ConnectionLaws.dfy` that the whole connection does, from its first byte. `GreetingLaws.dfy` and `HandlerLaws.dfy` say
  what is answered, response by response, in literal bytes. `OutputLaws.dfy`, `ReadyLaws.dfy`,
  `QueryLaws.dfy` and `TransactionLaws.dfy` hold the other laws of whole runs. `PreparedTable.dfy` has the prepared
  statements and portals of all connections as flat tables, `PreparedMaps.dfy` the two-level maps that refine them, and
  `PreparedLaws.dfy` what the handlers do to them over whole runs.
- **COPY.** `CopyLaws.dfy` has the stream and its loop, `CopyStatements.dfy` the statement in its query, `CopyRows.dfy` the
  rows that reach the executor.
- **In-memory table.** `StoreRow.dfy`, `SliceShift.dfy`, `DeleteLaws.dfy`, `DeleteAll.dfy`, `Store.dfy`; for statements
  that interleave `Interleaving.dfy` and `InterleavingLaws.dfy`; `StoreSteps.dfy` ties the two models of the table
  together.

What the server calls but does not define (SQL parser, executors, check of passwords, arrival of input, failure of
writes) is the record
`Session.Env` of arbitrary functions. The theorems about whole runs hold for every such record; one that is about an
environment of some kind (a text that holds a COPY, writes that succeed) says so in its `requires`, and always for the
one text or portal it is about. A Go panic or fatal runtime error is the error `Crash`. The byte source delivers its
bytes in arbitrary segments, which is what one raw read can see of them.

Bind values are read by one raw read each, so the theorems about conversations carry the hypothesis that no segment
ends inside a Bind value; `MessageLaws.BindPrefix` shows that Bind fails exactly otherwise.

## Where the code and its documentation part

The model follows the code.

- One format code in Bind stands, in section 55.7, for every parameter; the code applies it to the first
  (`MessageLaws.FormatRuleIff` says exactly when this shows).
- The length field of a message that has a parser of its own is not looked at (`MalformedLaws.QueryLengthIsIgnored`), and
  a negative count in Parse or Bind is a panic (`MalformedLaws.BindOfNegativeCount`).
- Section 55.2 has one ReadyForQuery for every Query and every Sync and none for any other message. The code sends one at
  the end of every turn unless a next message is waiting (`ReadyLaws.RunsDocumentedIff` and `ReadyLaws.ReadyAgreesIff` say
  exactly when the two agree, `ReadyLaws.ParseIsReadyQueryIsNot` shows both ways to differ).
- Where section 55.2 ends the startup, a client whose password is not accepted, or who names no user, is answered with an
  ErrorResponse without fields, and the greeting goes on (`GreetingLaws.GreetingSays`).
- A COPY without data, CopyDone being sent at once, is not answered with "COPY 0": nothing but the CopyIn response is
  written, and the CopyDone is refused afterwards as an unsupported message (`CopyStatements.CopyEntersIff` says exactly
  when, `CopyStatements.EmptyCopyIsRefused` follows the bytes).
- A COPY ended by CopyFail, or by any other message, is answered as if the client had sent CopyDone
  (`CopyStatements.CopyFailIsTakenForSuccess`).
- An empty line, or a line of dots and backslashes, ends the data of a COPY, and the lines behind it stay unread
  (`CopyLaws.AllDataOfferedIff` says exactly when, `CopyStatements.MarkerEndsCopy` what is answered).
- A connection lost between two CopyData frames, behind a type byte or behind a length counts as the end of the data and
  is answered with success (`CopyLaws.CopyLoopReads`, `CopyLaws.CopyCutShort`).
- COMMIT or ROLLBACK outside a transaction unlocks a free mutex, which is fatal (`TransactionLaws.EndQueryCrashesIff`).
- An error an executor returns together with responses is lost (`QueryLaws.PerformsCall` in
  `QueryLaws.QueryPerformsPrefix`).
- DELETE without a condition removes only some rows of a table of three or more
  (`DeleteAll.UnconditionalDeleteEmptiesIff`; `DeleteAll.DeleteSharedIsPasses` and `DeleteAll.UnequalDeleteAll` say
  which), and DELETE panics when the last
  row matches and an earlier row equals it (`Store.Table.Delete`).
- A value that does not convert is left out of its row, which then has fewer columns than its description
  (`ResultSets.RowCompleteIff`, `SelectLaws.SelectReadsBack`).

## Model

| member | source | states |
|---|---|---|
| Inputs.Take | postgresql/protocol/reader.go:74-91 | A read of n bytes succeeds exactly when n bytes are left; it returns the first n of the stream (peek buffer, then source) and leaves the rest; a failed read has used everything up |
| Inputs.Peek | postgresql/protocol/reader.go:104-115 | A peek returns the first n bytes of the stream and keeps the number of bytes left |
| Inputs.PeekKeepsStream | postgresql/protocol/reader.go:104-115 | If at most n bytes are buffered, a peek of n leaves the stream exactly as it was |
| Inputs.PeekHarmlessIff | postgresql/protocol/reader.go:104-115 | A peek keeps the stream if and only if at most n bytes are buffered or the buffer is its own rotation by n |
| Inputs.ShortPeekRotates | postgresql/protocol/reader.go:113-114 | Witness: with two bytes buffered, a one-byte peek swaps them |
| Inputs.Segment | postgresql/protocol/bind.go:126-132 | How far one raw read of a segmented source gets: never past the segment, never nothing while something is left |
| Inputs.RawRead | postgresql/protocol/bind.go:126-132 | The raw read never returns more than asked for and makes progress or fails |
| Inputs.FullReadIff | postgresql/protocol/bind.go:126-132 | With an empty peek buffer a raw read returns all n bytes if and only if no segment of the source ends inside them |
| Inputs.Until | postgresql/protocol/reader.go:153-166 | The bytes returned hold no delimiter, and they and one delimiter are exactly what is consumed |
| Inputs.Str | postgresql/protocol/reader.go:169-175 | A string read is zero-free and consumes its bytes and one terminator |
| Inputs.StrPrefix | postgresql/protocol/reader.go:153-175 | Any zero-free string, encoded with its terminator and followed by anything, is read back and nothing more is consumed |
| Inputs.Int16Prefix | postgresql/protocol/reader.go:140-150 | Any int16 on the stream is read back, and exactly two bytes are consumed |
| Inputs.Int32Prefix | postgresql/protocol/reader.go:127-137 | Any int32 on the stream is read back, part of it buffered or not, and exactly four bytes are consumed |
| Inputs.Int16sPrefix | postgresql/protocol/bind.go:91-98 | Every list of int16 codes is read back by the counted loop |
| Inputs.Int32sPrefix | postgresql/protocol/parse.go:33-75 | Every list of int32 type ids is read back by the counted loop |
| PeekReader.Reader.ReadBytes | postgresql/protocol/reader.go:74-91 | The mutable reader: result, buffer contents, count on failure and new state are those of Inputs.Take |
| PeekReader.Reader.Read | postgresql/protocol/bind.go:126-126 | The embedded raw read ignores the peek buffer; result and state are those of Inputs.RawRead |
| PeekReader.Reader.PeekBytes | postgresql/protocol/reader.go:104-115 | Read, then put back at the end of the peek buffer: Inputs.Peek |
| PeekReader.Reader.PeekInt32 | postgresql/protocol/reader.go:118-124 | Peeks four bytes as a signed big-endian number |
| PeekReader.Reader.ReadInt32 | postgresql/protocol/reader.go:127-137 | Reads a signed big-endian int32 |
| PeekReader.Reader.ReadInt16 | postgresql/protocol/reader.go:140-150 | Reads a signed big-endian int16 |
| PeekReader.Reader.ReadBytesUntil | postgresql/protocol/reader.go:153-166 | The byte-by-byte loop computes Inputs.Until |
| PeekReader.Reader.ReadString | postgresql/protocol/reader.go:169-175 | Reads up to and including the next zero byte |
| BigEndian.Int16RoundTrip | postgresql/encoding/bytes/int.go:64-75 | Encoding any integer and decoding it gives the value an int16 would hold |
| BigEndian.Int32RoundTrip | postgresql/encoding/bytes/int.go:45-61 | The same for int32 |
| BigEndian.Int32Injective | postgresql/encoding/bytes/int.go:45-61 | Decoding four bytes and encoding again gives the bytes back |
| BigEndian.Int32ToBytes | postgresql/encoding/bytes/int.go:54-61 | The fresh four-byte array holds the big-endian bytes |
| BigEndian.Int16ToBytes | postgresql/encoding/bytes/int.go:70-75 | The fresh two-byte array holds the big-endian bytes |
| BigEndian.Int64ToBytes | postgresql/encoding/bytes/int.go:31-42 | The fresh eight-byte array holds the big-endian bytes |
| Requests.Dispatch | postgresql/protocol/server_impl.go:319-381 | On any input, whichever parser the peeked type selects consumes at least a byte if there is one, never leaves a byte in the peek buffer, and fails only with a read error |
| MessageLaws.HeaderPrefix | postgresql/protocol/message.go:39-53 | Type byte and length of any frame are read back; the data length is the length of the body |
| MessageLaws.DataPrefix | postgresql/protocol/message.go:71-82 | The payload read takes exactly Length-4 bytes |
| MessageLaws.TargetPrefix | postgresql/protocol/describe.go:31-57 | Kind and name of Describe and Close are read back |
| MessageLaws.ValuePrefix | postgresql/protocol/bind.go:106-135 | One Bind value is read back if its bytes arrive in one segment, and fails with a short message otherwise; NULL and empty need no bytes |
| MessageLaws.ValuesPrefix | postgresql/protocol/bind.go:106-135 | All Bind values are read back if and only if no segment of the source ends inside one of them |
| MessageLaws.ParsePrefix | postgresql/protocol/parse.go:33-75 | Every well-formed Parse is decoded to itself and consumed exactly |
| MessageLaws.BindPrefix | postgresql/protocol/bind.go:65-182 | Bind is decoded to its meaning and consumed exactly if and only if its values are unsplit; otherwise it fails with a short message |
| MessageLaws.ExecutePrefix | postgresql/protocol/execute.go:31-53 | Every well-formed Execute is decoded to itself and consumed exactly |
| MessageLaws.OtherPrefix | postgresql/protocol/conn_impl.go:240-250 | Describe, Close, Query, Sync, Flush, Terminate are decoded exactly; an unsupported message is skipped whole |
| MessageLaws.FrameLength | postgresql/protocol/message.go:66-68 | The length field counts everything behind the type byte |
| MessageLaws.PeekedType | postgresql/protocol/message_reader.go:65-71 | Peeking the type byte between messages gives the type and moves nothing |
| MessageLaws.DispatchDecodes | postgresql/protocol/server_impl.go:304-381 | For every well-formed message and every continuation: the peeked type is its type, the parser returns its meaning, and exactly 1+Length bytes are consumed |
| MessageLaws.ParamsMean | postgresql/protocol/bind.go:153-175 | What each value of Bind means: format 0 text, with NULL and empty alike, 1 binary, any other nothing; text when the codes are used up |
| MessageLaws.FormatRuleIff | postgresql/protocol/bind.go:153-175 | The parameter formats agree with the documented rule if and only if there is not a single non-text code for several parameters |
| MalformedLaws.WrongKind | postgresql/protocol/describe.go:31-57 | Describe and Close of a kind other than 'S' and 'P' are refused, naming the byte, once the name has been read |
| MalformedLaws.ShortLength | postgresql/protocol/message.go:66-82 | A message of an unsupported type whose length is less than four is refused with the length left, and nothing more is read |
| MalformedLaws.QueryLengthIsIgnored | postgresql/protocol/query.go:37-56 | A Query is read whatever its length field says |
| MalformedLaws.WrongValueLength | postgresql/protocol/bind.go:106-135 | A Bind value of a length below -1 is refused with that length |
| MalformedLaws.BindOfNegativeCount | postgresql/protocol/bind.go:91-98 | A Bind with a negative number of format codes ends in the panic of make |
| MalformedLaws.WrongSslCode | postgresql/protocol/ssl_request.go:31-46 | Eight bytes with another code are refused, naming the code |
| BindLookup.FindsNumbered | postgresql/protocol/bind.go:38-50 | "$" and a number, with or without a sign or zeros in front, finds the parameter of that number; above the count or outside 64 bits it does not exist; zero and negative numbers index out of range |
| BindLookup.OnlyNumbersAreFound | postgresql/protocol/bind.go:38-50 | Every name that is not "$" and such a number does not exist |
| Parsers.PeekTypeNonBlocking | postgresql/protocol/message_reader.go:74-87 | Without a buffered or arriving byte it times out and changes nothing |
| Parsers.NewMessageWithReader | postgresql/protocol/message.go:39-53 | Reads type and length off the shared reader |
| Parsers.ReadMessageData | postgresql/protocol/message.go:71-82 | Reads Length-4 bytes, or reports a negative length |
| Parsers.NewParseWithReader | postgresql/protocol/parse.go:33-75 | The parser object computes Requests.ParseRequest, errors and reader state included |
| Parsers.ReadValue | postgresql/protocol/bind.go:107-134 | One turn of the value loop, with its raw read |
| Parsers.ReadValues | postgresql/protocol/bind.go:106-135 | The value loop over any count; a negative count is the panic of make |
| Parsers.PairParams | postgresql/protocol/bind.go:153-174 | The last loop gives parameter i format code i, or text when the codes are used up; NULL and empty text are both the empty string |
| Parsers.NewBindWithReader | postgresql/protocol/bind.go:65-182 | The four counted loops in sequence compute Requests.BindRequest |
| Parsers.ReadTarget | postgresql/protocol/close.go:31-57 | The name is read before the kind is checked |
| Parsers.NewDescribeWithReader | postgresql/protocol/describe.go:31-57 | Computes Requests.DescribeRequest |
| Parsers.NewCloseWithReader | postgresql/protocol/close.go:31-57 | Computes Requests.CloseRequest |
| Parsers.NewQueryWithReader | postgresql/protocol/query.go:37-56 | Computes Requests.QueryRequest |
| Parsers.NewExecuteWithReader | postgresql/protocol/execute.go:31-53 | Computes Requests.ExecuteRequest |
| Parsers.SkipMessage | postgresql/protocol/conn_impl.go:240-250 | Reads and drops a whole message |
| Parsers.NewRequestWithReader | postgresql/protocol/server_impl.go:319-381 | The switch of the loop computes Requests.Dispatch |
| StartupMessage.PairBound | postgresql/protocol/startup.go:39-82 | On any input the pairs returned number at most a third of the counted length, rounded up |
| StartupMessage.PairsPrefix | postgresql/protocol/startup.go:39-82 | The pair loop reads back any list of pairs and stops at the terminator |
| StartupMessage.StartupRoundTrip | postgresql/protocol/startup.go:39-82 | Every zero-free parameter map with non-empty keys, listed in any order, and every version are read back, and exactly the message length is consumed |
| StartupMessage.SslRoundTrip | postgresql/protocol/ssl_request.go:31-46 | An SSLRequest is recognised and its eight bytes are consumed |
| StartupMessage.PasswordRoundTrip | postgresql/protocol/password.go:25-40 | Every password is read back, and its message is consumed exactly |
| Parsers.NewSslRequestWithReader | postgresql/protocol/ssl_request.go:31-46 | Computes StartupMessage.SslRequest |
| Parsers.NewPasswordWithReader | postgresql/protocol/password.go:25-40 | Computes StartupMessage.PasswordRequest |
| Parsers.ReadPairs | postgresql/protocol/startup.go:39-82 | The loop terminates on any input and computes StartupMessage.Pairs |
| Parsers.NewStartupWithReader | postgresql/protocol/startup.go:39-82 | Computes StartupMessage.StartupRequest |
| CopyFrames.TrimIsMaximal | postgresql/protocol/copy_data.go:60-60 | Trimming removes exactly the maximal trailing run of CR and LF |
| CopyFrames.SplitFields | postgresql/protocol/copy_data.go:75-75 | Fields hold no tab and number one more than the tabs |
| CopyFrames.SplitJoin | postgresql/protocol/copy_data.go:75-75 | Joining the fields by tabs gives the line back |
| CopyFrames.JoinSplit | postgresql/protocol/copy_data.go:75-75 | Every list of tab-free fields is the split of its own line |
| CopyFrames.LineLaw | postgresql/protocol/copy_data.go:43-81 | For every payload that is no end marker: tab-free fields, one more than the tabs, which join to the payload without its line end |
| CopyFrames.CopyDataPrefix | postgresql/protocol/copy_data.go:43-81 | A CopyData frame is consumed exactly, end marker or not |
| CopyFrames.Next | postgresql/copy_stream.go:37-77 | On any input the stream keeps the reader in order, and every line it delivers uses up bytes |
| Parsers.IsEOFData | postgresql/protocol/copy_data.go:62-69 | The loop decides the end marker: only backslashes and dots, or nothing |
| Parsers.NewCopyDataWithReader | postgresql/protocol/copy_data.go:43-81 | Computes CopyFrames.CopyData |
| Parsers.NextCopyData | postgresql/copy_stream.go:37-77 | Computes CopyFrames.Next, with both ways to end |
| CopyLaws.NextIsLine | postgresql/copy_stream.go:48-52 | Before any further messages: a line frame is delivered and consumed |
| CopyLaws.NextIsEnd | postgresql/copy_stream.go:37-77 | Whatever is next but a line, the end of the input included, ends the stream without an error of its own: CopyDone is consumed, an end marker with or without a CopyDone behind it, and any other message stays |
| CopyLaws.CopyLoopLines | postgresql/copy.go:98-108 | In front of anything, any number of lines: all are offered in order, those of the right width inserted, each counted once, and the loop goes on behind them |
| CopyLaws.CopyLoopReads | postgresql/copy.go:80-119 | For every list of messages: the loop offers exactly the lines in front, gives its verdict on the counts, and leaves exactly the messages the stream leaves |
| CopyLaws.AllDataOfferedIff | postgresql/protocol/copy_data.go:60-69 | For every list of messages: all the CopyData in front are offered if and only if none of them trims to an end marker; never more |
| CopyLaws.MarkersMark | postgresql/protocol/copy_data.go:60-69 | Witness: an empty line and a line of dots are end markers |
| CopyLaws.CopyAnswersAllOrNothing | postgresql/copy.go:80-119 | For every list of messages with k lines in front: the answer is "COPY k" if and only if all k lines were inserted; otherwise an error with both counts |
| CopyLaws.FrameCutShort | postgresql/copy_stream.go:37-77 | A frame of which only n bytes arrive: an error, except that behind the type byte or behind the length it passes for the end of the data |
| CopyLaws.CopyCutShort | postgresql/copy.go:80-119 | A COPY whose connection is lost inside a frame answers success if and only if it is lost at one of those two places and every line before was inserted |
| CopyStatements.CopyEntersIff | postgresql/server_query_handler.go:233-249 | Behind the CopyIn response the stream is entered, and something is answered, if and only if a CopyData is next; otherwise the query goes on with nothing said and the message unread |
| CopyStatements.CopyStatementRuns | postgresql/server_query_handler.go:233-249 | The whole COPY statement over every list of messages that begins with CopyData, an end marker at once included: what is written, what is inserted, the verdict, where the reader stands, and that nothing else changes |
| CopyRows.RowsAreInserted | postgresql/copy.go:56-77 | From the bytes of COPY data to the executor's calls: one row for each line that has as many fields as there are columns, in order; entry j names column j and holds field j of the line cut at its tabs, the text NULL exactly where that is empty |
| CopyRows.LinesAreCuts | postgresql/protocol/copy_data.go:43-81 | The lines are the payloads in front, without CR and LF at their ends, cut at every tab, up to the first of backslashes and dots only |
| CopyStatements.CopyFailIsTakenForSuccess | postgresql/server_query_handler.go:233-249 | One or more lines and then CopyFail: the statement answers "COPY k" if and only if all k lines were inserted, and leaves the CopyFail unread |
| CopyStatements.MarkerEndsCopy | postgresql/server_query_handler.go:233-249 | An end marker in the data: the statement answers for the lines before it, "COPY k" if and only if all were inserted, and leaves everything behind it unread |
| CopyStatements.EmptyCopyIsRefused | postgresql/server_query_handler.go:243-246 | From bytes to responses: a Query with a COPY and CopyDone at once is answered with the CopyIn response alone, and the next turn refuses the CopyDone as unsupported |
| Responses.CopyCompleteInjective | postgresql/protocol/command_complete.go:71-74 | The tag tells the number of copied lines |
| Session.WriteAll | postgresql/protocol/conn_impl.go:209-220 | Writing only adds to the log, keeps lock and transaction in step, and fails with a write error only |
| Session.StatementStep | postgresql/server_query_handler.go:251-319 | Every statement keeps lock and executors' transaction in step, unless it is the fatal unlock, and takes nothing back |
| Session.Handle | postgresql/protocol/server_impl.go:319-381 | Every handler keeps the reader in order, the log growing, and lock and transaction in step |
| Session.TakeTurn | postgresql/protocol/server_impl.go:317-417 | Every turn uses up input and reports its status truthfully; a crash by unlocking shows in the executors' calls |
| TransactionLaws.OpenMeans | postgresql/protocol/conn_impl.go:170-191 | "In a transaction" in plain terms: some BEGIN reached an executor and nothing ended it since |
| TransactionLaws.BracketedMeans | postgresql/protocol/conn_impl.go:170-191 | "Bracketed" in plain terms: no BEGIN inside, no COMMIT or ROLLBACK outside a transaction |
| TransactionLaws.EndQueryCrashesIff | postgresql/server_query_handler.go:262-269 | From bytes to the crash: a Query whose text is a COMMIT or ROLLBACK kills the server by unlocking a free mutex if and only if the lock is free; the executor has been called either way |
| TransactionLaws.RunsAreTransactionSafe | postgresql/protocol/conn_impl.go:170-191 | Over every run on any input: the mutex is unlocked while free if and only if a COMMIT or ROLLBACK came outside a transaction; otherwise lock held iff the last effective transaction statement was an accepted BEGIN; every ReadyForQuery says 'T' exactly then |
| TransactionLaws.RunsKeepReaderTidy | postgresql/protocol/server_impl.go:304-417 | Over every run on any input: at most the peeked type byte is buffered between turns, no peek finds more than it asks for, no raw read finds anything buffered, and nothing written or performed is taken back |
| TransactionLaws.HelloIsTidy | postgresql/protocol/server_impl.go:228-287 | The four-byte peek before startup is harmless too |
| QueryLaws.WriteAllPrefix | postgresql/protocol/conn_impl.go:209-220 | What was written of a list of responses is a prefix of it, all of it unless a write failed |
| QueryLaws.QueryPerformsPrefix | postgresql/server_query_handler.go:251-332 | A query, COPY statements included, is a chain of states, each reached by exactly what its statement may do (its calls, its responses, its lock): all statements if there is no error, else a prefix up to the first in error, and nothing later runs |
| QueryLaws.CopyPerforms | postgresql/server_query_handler.go:233-249 | COPY on any input, well-formed or not: its executor first, then inserts only, and "COPY n" at the end only for n inserts made |
| ConversationLaws.HandleAlike | postgresql/protocol/server_impl.go:319-381 | Every handler on bytes is the handler of the message-level server: same state, responses, error, and exactly the messages left that it leaves; COPY included |
| ConversationLaws.TurnAnswers | postgresql/protocol/server_impl.go:304-417 | One turn on the bytes of some messages is one exchange about the messages: the first is decoded and consumed exactly, a COPY takes exactly its messages, and the rest of the stream is untouched |
| ConversationLaws.ConversationRefines | postgresql/protocol/server_impl.go:304-417 | For every list of sound messages, every executor and parser, every oracle of pending input, every failing write and every split of the bytes that keeps Bind values whole: the turns of the loop are, one by one, the exchanges of the message-level server; requests, replies, states, log, phase and messages left are the same |
| ConversationLaws.EachMessageIsHeard | postgresql/protocol/server_impl.go:304-417 | In a conversation whose requests run no COPY when their turn comes, exchange k hears exactly message k as long as the conversation lasts |
| ConversationLaws.SessionRefines | postgresql/protocol/server_impl.go:304-420 | The same for a whole session ending in Terminate, whatever bytes follow it |
| ConnectionLaws.HelloAlike | postgresql/protocol/server_impl.go:221-287 | The greeting on the bytes of any opening (SSLRequest or not, startup message, password if a user is named) is the greeting of the message-level server, and leaves the reader in front of what follows |
| ConnectionLaws.ConnectionRefines | postgresql/protocol/server_impl.go:221-420 | From the first byte of a connection to its end, for every opening, every list of sound messages, every environment and every split that keeps Bind values whole: greeting and conversation are those of the message-level server, turn by turn, down to the final state and the bytes left |
| GreetingLaws.GreetingSays | postgresql/protocol/server_impl.go:145-287 | On the bytes of any opening, writes succeeding: the exact responses: 'N' to an SSLRequest, the request for a password to a named user, AuthenticationOk for a granted one, an ErrorResponse without fields for a denied one or for no user, the error alone and the end for one that could not be verified; then statuses, key data and ReadyForQuery, or their error |
| GreetingLaws.AuthenticatedIff | postgresql/protocol/server_impl.go:170-181 | AuthenticationOk is written if and only if the client names its user and its password was granted |
| GreetingLaws.GreetingFails | postgresql/protocol/server_impl.go:145-287 | On any input, writes succeeding: what cannot be read of an opening is answered with its error behind what was written so far, and ends the connection |
| OutputLaws.IterateSpeaks | postgresql/protocol/server_impl.go:385-414 | Every turn on any input adds its responses, then at most one ErrorResponse, then ReadyForQuery exactly when nothing is waiting; it is cut short if and only if one of its writes failed, and then the loop ends |
| OutputLaws.RunsSpeakInOrder | postgresql/protocol/server_impl.go:304-417 | Over every run on any input, every oracle of pending input and whatever writes fail, the log is the concatenation of such turns and nothing else |
| HandlerLaws.ParseAnswers | postgresql/server_query_handler.go:45-51 | Over every run of a fresh connection, on any input, writes succeeding: Parse is answered '1' if and only if its text holds one statement, else with the error that says why not |
| HandlerLaws.BindAnswers | postgresql/server_query_handler.go:54-71 | Bind is answered '2' if and only if its statement was defined by a Parse and not closed since, as the history of what was heard decides; else with an error |
| HandlerLaws.DescribeStatementAnswers | postgresql/server_query_handler.go:141-161 | Describe of a statement is answered 't' with the object ids and then 'n', if it was defined and not closed since; else with an error |
| HandlerLaws.DescribePortalAnswers | postgresql/server_query_handler.go:162-168 | Describe of a portal is answered 'n' alone if and only if a Bind made it and it was not closed since; else with an error |
| HandlerLaws.OthersAnswer | postgresql/server_query_handler.go:183-215 | Close is always answered '3', Sync and Flush with nothing, a message of any other type with an error naming the type |
| HandlerLaws.QueryAnswers | postgresql/server_query_handler.go:217-333 | A query of no statement is answered "EMPTY", one that is not SQL by the error handler or its error, any other by what its statements write one after another |
| HandlerLaws.ExecuteAnswers | postgresql/server_query_handler.go:173-180 | Execute is answered as the query of the Parse that defined the statement at the last Bind, with that Bind's parameters |
| HandlerLaws.ExecuteOfNothing | postgresql/server_query_handler.go:173-180 | Without such a Bind, or after Close, with an error, and nothing is performed |
| HandlerLaws.TerminateAnswers | postgresql/protocol/server_impl.go:368-374 | Terminate is answered with nothing and ends the loop |
| HandlerLaws.MalformedAnswers | postgresql/protocol/server_impl.go:304-399 | A message that cannot be read is answered with its error alone, and the end of the input ends the loop with it |
| ReadyLaws.RunsDocumentedIff | postgresql/protocol/server_impl.go:401-414 | Over every run on any input: ReadyForQuery goes out as section 55.2 has it, after Query and Sync only, if and only if at the end of every turn something is waiting exactly when the turn heard neither |
| ReadyLaws.ReadyAgreesIff | postgresql/protocol/server_impl.go:401-414 | For a conversation that runs no COPY: it is as documented if and only if the client has its next message under way behind everything but Query and Sync, and nothing behind those |
| ReadyLaws.ParseIsReadyQueryIsNot | postgresql/protocol/server_impl.go:401-414 | Witnesses of both differences: a lone Parse is followed by ReadyForQuery, a Query with a message behind it is not |
| Server.Conn.LockTransaction | postgresql/protocol/conn_impl.go:170-175 | Locks, or refuses without change |
| Server.Conn.UnlockTransaction | postgresql/protocol/conn_impl.go:178-181 | Unlocks; on a free mutex the fault is the fatal one |
| Server.Conn.TransactionStatus | postgresql/protocol/conn_impl.go:184-191 | 'T' if held, 'I' if free, and the lock is as before |
| Server.Server.ResponseMessages | postgresql/protocol/conn_impl.go:209-220 | The loop computes Session.WriteAll |
| Server.Server.ResponseError | postgresql/protocol/conn_impl.go:223-237 | Writes one ErrorResponse with the error's text |
| Server.Server.ReadyForMessage | postgresql/protocol/conn_impl.go:253-263 | Writes ReadyForQuery with the lock's status |
| Server.Server.OfferCopiedLine | postgresql/copy.go:56-77 | A line of the wrong width never reaches the executor; otherwise each field goes to its column, empty ones as NULL |
| Server.Server.RunCopy | postgresql/copy.go:80-119 | The counting loop computes Session.CopyLoop |
| Server.Server.HandleCopyQuery | postgresql/server_query_handler.go:233-249 | The hand-off computes Session.CopyStep |
| Server.Server.RunStatement | postgresql/server_query_handler.go:251-319 | The switch on the statement type computes Session.StatementStep |
| Server.Server.EndWith | postgresql/server_query_handler.go:262-269 | The executor is called first, then the lock is released |
| Server.Server.RunStatements | postgresql/server_query_handler.go:251-330 | The statement loop computes Session.StatementsStep |
| Server.Server.Query | postgresql/server_query_handler.go:217-333 | Computes Session.QueryStep |
| Server.Server.PortalsAreSnapshots | postgresql/stmt/prepared_manager.go:66-91 | The shared two-level maps, after any history of requests of all connections: what is held for a portal is what the Parse and the Bind of its own connection made of it |
| Server.Server.Parse | postgresql/server_query_handler.go:45-51 | Computes Session.ParseStep on the shared maps, which go on showing the flat tables after the history with this request |
| Server.Server.Bind | postgresql/server_query_handler.go:54-71 | Computes Session.BindStep: the portal stores a copy; the maps go on showing the flat tables |
| Server.Server.Describe | postgresql/server_query_handler.go:74-170 | Computes Session.DescribeStep |
| Server.Server.Execute | postgresql/server_query_handler.go:173-180 | Computes Session.ExecuteStep; the maps go on showing the flat tables |
| Server.Server.Close | postgresql/server_query_handler.go:183-197 | Computes Session.CloseStep; closing nothing succeeds; the maps go on showing the flat tables |
| Server.Server.HandleRequest | postgresql/protocol/server_impl.go:319-381 | Computes Session.Handle and adds the request to the history the maps show |
| Server.Server.RespondTo | postgresql/protocol/server_impl.go:385-399 | Responses first, then the error |
| Server.Server.ReadyUnlessPending | postgresql/protocol/server_impl.go:401-414 | ReadyForQuery unless the next type byte is there |
| Server.Server.ServeRequest | postgresql/protocol/server_impl.go:319-381 | Parses and handles one request |
| Server.Server.TakeTurn | postgresql/protocol/server_impl.go:317-417 | The part of a turn behind the peek computes Session.TakeTurn |
| Server.Server.Turn | postgresql/protocol/server_impl.go:304-417 | One turn of the loop computes Session.Iterate |
| Server.Server.RunLoop | postgresql/protocol/server_impl.go:304-417 | The loop computes Session.Loop, and the maps end up showing the flat tables after the history of all its turns |
| Server.Server.Authenticate | postgresql/protocol/server_impl.go:145-181 | Asks for a password if a user is named, reads it and has it checked: Session.Authenticate |
| Server.Server.Admit | postgresql/protocol/server_impl.go:183-219 | Verdict, parameter statuses and key data, ReadyForQuery, or the error: Session.Admit |
| Server.Server.Greet | postgresql/protocol/server_impl.go:275-287 | Startup message, password and greeting |
| Server.Server.Hello | postgresql/protocol/server_impl.go:226-287 | SSLRequest, if any, then startup |
| Server.Server.Receive | postgresql/protocol/server_impl.go:221-420 | Greeting and loop terminate on every finite input and end in the state, phase and history Session.Receive gives |
| PreparedTable.StatementIsLastParse | postgresql/stmt/prepared_stmt.go:44-78 | Over every history a statement name stands for the text of the last accepted Parse not closed since, and for nothing if there is none |
| PreparedTable.CreatesNow | postgresql/server_query_handler.go:54-71 | Bind makes a portal if and only if its statement exists at that moment |
| PreparedTable.PortalIsSnapshot | postgresql/server_query_handler.go:54-71 | Over every history: a portal holds the text of the Parse that defined the statement when it was last bound, with that Bind's parameters, whatever happened to the statement since; without such a Bind, or after Close, there is none |
| PreparedLaws.HandleApplies | postgresql/protocol/server_impl.go:319-381 | Every handler, those that run queries included, changes its connection's maps exactly as the flat operation of its request does |
| PreparedLaws.RunApplies | postgresql/protocol/server_impl.go:304-417 | Over every run on any input: before every turn the connection's maps are its part of the flat tables after the history of what it has heard |
| PreparedLaws.ExecuteRunsSnapshot | postgresql/server_query_handler.go:173-180 | Over every run on any input: the turn that hears Execute of a portal runs the query of the Parse that defined the statement at the last Bind of the portal, with that Bind's parameters |
| PreparedLaws.ExecuteNeedsPortal | postgresql/server_query_handler.go:173-180 | Without such a Bind, or once the portal is closed, it runs nothing and says that the portal does not exist |
| PreparedTable.ConnectionsAreIsolated | postgresql/stmt/prepared_manager.go:38-91 | Over every history, what a connection finds depends on its own requests alone |
| PreparedTable.CloseIdempotent | postgresql/stmt/prepared_stmt.go:71-114 | Over every history: closing again what was closed and not made again changes nothing, whatever all connections do in between |
| PreparedMaps.StatementMap.Set | postgresql/stmt/prepared_stmt.go:53-68 | A text that does not hold exactly one statement changes nothing and says why |
| PreparedMaps.StatementMap.Remove | postgresql/stmt/prepared_stmt.go:71-78 | Removes, or reports that there was nothing |
| PreparedMaps.PortalMap.Remove | postgresql/stmt/prepared_stmt.go:107-114 | Removes, or reports that there was nothing |
| PreparedMaps.PreparedManager.constructor | postgresql/stmt/prepared_manager.go:30-35 | Starts out showing the empty flat table |
| PreparedMaps.PreparedManager.SetStatement | postgresql/stmt/prepared_manager.go:47-54 | The two-level maps do what the flat map keyed by (connection, name) does, and no other connection sees a change |
| PreparedMaps.PreparedManager.RemoveStatement | postgresql/stmt/prepared_manager.go:57-63 | The same for removal |
| PreparedMaps.PreparedManager.SetPortal | postgresql/stmt/prepared_manager.go:75-82 | The same refinement for portals |
| PreparedMaps.PreparedManager.RemovePortal | postgresql/stmt/prepared_manager.go:85-91 | The same for removal |
| Framing.FrameLayout | postgresql/protocol/response_message.go:54-66 | Where type, length and payload of a frame stand; the length is what an int32 makes of payload size plus four |
| Framing.WireCutsIff | postgresql/protocol/response_message.go:54-66 | Cutting the output of any list of typed responses by type and length gives that list back if and only if every payload is at most 2^31-5 bytes |
| Framing.WireInjective | postgresql/protocol/conn_impl.go:194-220 | No two such lists look the same on the connection |
| RowFormat.RowReadsIff | postgresql/protocol/data_row.go:144-223 | Reading a DataRow payload by section 55.7 of the PostgreSQL 16 documentation gives its columns back, NULL as length -1, if and only if there are fewer than 32768 and none is longer than an int32 tells |
| RowFormat.CellFieldMeans | postgresql/protocol/data_row.go:150-220 | What a client finds for each Go type: text and bytes as they are, integers big-endian in their own width, floats by their bits, nil as NULL; other types are refused |
| RowFormat.RowInjective | postgresql/protocol/data_row.go:144-223 | So encoding rows is injective |
| RowFormat.RowFieldPrefix | postgresql/protocol/row_field.go:107-130 | Every field of a row description is read back |
| RowFormat.DescriptionReadsIff | postgresql/protocol/row_description.go:50-59 | A description is read back field by field if and only if it has fewer than 32768 fields, no name holds a zero byte and every number fits its width |
| RowFormat.DescriptionInjective | postgresql/protocol/row_description.go:50-59 | So encoding descriptions is injective |
| Writers.Writer.Bytes | postgresql/protocol/writer.go:97-103 | Flushes and shows everything written, and forgets nothing |
| Writers.ResponseMessage.Bytes | postgresql/protocol/response_message.go:54-66 | Frames what the writer holds |
| Writers.DataRow.WriteCell | postgresql/protocol/data_row.go:150-220 | One column: length and bytes by its Go type; an unknown type is refused with nothing written |
| Writers.DataRow.Bytes | postgresql/protocol/data_row.go:144-223 | The frame holds the column count and every column in order, behind whatever an earlier call left in the writer |
| Writers.RowDescription.AppendField | postgresql/protocol/row_description.go:40-42 | Appends a field behind those before it |
| Writers.RowDescription.WriteField | postgresql/protocol/row_field.go:107-130 | Writes the seven parts of a field in order |
| Writers.RowDescription.Bytes | postgresql/protocol/row_description.go:50-59 | The frame holds the field count and every field in order |
| ResultSets.FieldsFor | postgresql/query/row_field.go:23-37 | There is a description if and only if the schema knows every selector; field k is made from selector k |
| ResultSets.RowKeeps | postgresql/query/data_row.go:28-41 | A row's cells are, in order, the conversions of exactly those selectors' values that convert: the row's own value where it has the column, nil where it has not |
| ResultSets.RowCompleteIff | postgresql/query/data_row.go:28-41 | A row has one column per selector, in order, if and only if every such conversion succeeds |
| ResultSets.FieldsDescribe | postgresql/query/row_field.go:23-37 | Each field has its selector's name and the type, size and format the schema gives the column; fields are numbered from 1 up to 32767 |
| ResultSets.NewDataRowForSelectors | postgresql/query/data_row.go:28-41 | The loop computes ResultSets.CellsFor |
| ResultSets.NewRowDescription | postgresql/query/resultset.go:35-42 | The loop computes ResultSets.FieldsFor or fails |
| ResultSets.NewResponseFromResultSet | postgresql/query/resultset.go:23-69 | One description, then every row in order, then "SELECT n"; an unknown selector or an undelivered row is an error instead |
| SelectLaws.SelectReadsBack | postgresql/query/resultset.go:23-69 | From result set to bytes and back: a client cutting and reading the bytes gets the m columns, the n rows and the tag "SELECT n"; what it reads of row k are the conversions of that row's own values, selector by selector, nil for a column it does not have; a value that does not convert is left out, and the row has m columns if and only if none is |
| StoreRow.MatchedMeans | examples/go-postgresqld/server/store/row.go:95-124 | EQ holds of a row that has the column with an equal value, NEQ of every other row, any other operator of none, any other expression of all |
| StoreRow.SameRowMeans | examples/go-postgresqld/server/store/row.go:150-162 | Two rows are equal if and only if they hold the same and no not-a-number |
| StoreRow.SameRowIsKey | examples/go-postgresqld/server/store/row.go:150-162 | Row equality is equality of contents for rows without a not-a-number; a row with one equals nothing, itself included |
| StoreRow.UpdateKeepsOthers | examples/go-postgresqld/server/store/row.go:127-147 | Columns no assignment names are untouched |
| StoreRow.LiteralsHold | examples/go-postgresqld/server/store/row.go:128-133 | After the first loop a column holds the last literal it was set to, or what it held |
| StoreRow.UpdateRuns | examples/go-postgresqld/server/store/row.go:127-147 | UPDATE of a row, assignment by assignment: literals first, then each function in turn on the row as the ones before it left it, its value going to its own column; the first that fails ends it there |
| StoreRow.UpdateSetsLiteral | examples/go-postgresqld/server/store/row.go:128-133 | A column set to a literal, and not again behind it nor by a function, holds it |
| StoreRow.LiteralsComeFirst | examples/go-postgresqld/server/store/row.go:127-147 | An assignment list means its literals, then its functions in order on the running row, wherever the literals stand |
| StoreRow.NewContentIff | examples/go-postgresqld/server/store/row.go:46-92 | A new row exists if and only if the schema has every column and its cast takes the column's literal, or NULL where there is none |
| StoreRow.NewContentColumns | examples/go-postgresqld/server/store/row.go:46-92 | It has exactly the listed columns |
| StoreRow.NewContentHolds | examples/go-postgresqld/server/store/row.go:46-92 | Each column holds the cast of its last entry's literal, or of NULL; NULL where the conversion does not list the type |
| StoreRow.InsertedIsPrefix | examples/go-postgresqld/server/store/store.go:182-204 | The rows INSERT makes are those of the longest prefix that can be built, in order |
| StoreRow.NewRowFromColumns | examples/go-postgresqld/server/store/row.go:46-92 | The loop makes a fresh row or stops at the first column it cannot store |
| StoreRow.Row.Update | examples/go-postgresqld/server/store/row.go:127-147 | Both loops on the shared row; a failing function stops it and keeps what was written |
| Store.Table.ChosenMean | examples/go-postgresqld/server/store/table.go:43-59 | What a clause chooses, by the rows' own columns: for EQ exactly the rows with such a value in the column, for NEQ exactly the others, for other operators none, for other expressions all; in table order, each once |
| Store.Table.Select | examples/go-postgresqld/server/store/table.go:43-59 | A list of exactly those rows, in table order; without a condition the table's own slice |
| Store.Table.Append | examples/go-postgresqld/server/store/table.go:69-69 | In place while there is room, else into a new array; no two slots share a row |
| Store.Table.Insert | examples/go-postgresqld/server/store/table.go:62-71 | One fresh row at the end, or no change |
| Store.Table.InsertAll | examples/go-postgresqld/server/store/store.go:182-204 | The rows before the first that cannot be built are appended in order, the rest are not |
| Store.UpdateEach | examples/go-postgresqld/server/store/table.go:83-87 | Each of a list of distinct rows is updated once |
| Store.Table.Update | examples/go-postgresqld/server/store/table.go:74-88 | For EQ exactly the rows whose column held such a value before any change are updated, for NEQ exactly the others, each from its old content; for other operators none, else all; the number chosen is returned |
| SliceShift.GapFacts | examples/go-postgresqld/server/store/table.go:105-105 | What append(rows[:n], rows[n+1:]...) does to every slot of the shared array |
| SliceShift.SweepKeepsLast | examples/go-postgresqld/server/store/table.go:101-106 | While the last element does not equal the row, the inner loop drops each equal element and skips the one behind it |
| SliceShift.SweepPanics | examples/go-postgresqld/server/store/table.go:101-106 | Once something was removed and the last element is equal too, the loop runs into a stale slot and panics |
| SliceShift.SweepLaw | examples/go-postgresqld/server/store/table.go:101-106 | The inner loop, for every slice: it panics if and only if the last element is one of several equal to the row; otherwise exactly what it leaves, in place |
| Store.Table.RemoveAt | examples/go-postgresqld/server/store/table.go:105-105 | The shift in the array, slot by slot |
| Store.Table.RemoveEqual | examples/go-postgresqld/server/store/table.go:101-106 | The inner loop over the old header and the live array computes SliceShift.Sweep |
| Store.Table.RemoveEach | examples/go-postgresqld/server/store/table.go:100-107 | The outer loop, over a list of its own or over the very array being shifted |
| Store.Table.RemoveMatching | examples/go-postgresqld/server/store/table.go:91-110 | Select and remove: Store.Outcome, and the count of selected rows |
| Store.Table.RemovalMeans | examples/go-postgresqld/server/store/table.go:91-110 | What a DELETE removes and when it panics, by the rows' own columns |
| Store.Table.Delete | examples/go-postgresqld/server/store/table.go:91-110 | Panics if and only if the last row is chosen and an earlier row equals it; otherwise for EQ exactly the rows with such a value in the column go, for NEQ exactly the others (in both, rows unequal to themselves stay), for other operators none; order and distinct slots are kept; without a condition, of pairwise unequal rows, those passed over stay |
| Store.OutcomeKeepsDistinct | examples/go-postgresqld/server/store/table.go:91-110 | Whatever DELETE ranges over, no two slots come to share a row |
| DeleteLaws.DeleteListedIsThinAll | examples/go-postgresqld/server/store/table.go:100-107 | The passes over the array are passes over the list of rows |
| DeleteLaws.ConditionalDelete | examples/go-postgresqld/server/store/table.go:91-110 | The law of conditional DELETE for every table, rows equal or not: when it panics, and what is left |
| DeleteLaws.CountIsRemovedIff | examples/go-postgresqld/server/store/table.go:109-109 | The returned count is the number of rows removed if and only if every matched row equals itself |
| DeleteAll.DeleteAllPanicsIff | examples/go-postgresqld/server/store/table.go:100-107 | DELETE without a condition, for every table: it panics if and only if a row before the last equals it |
| DeleteAll.DeleteSharedIsPasses | examples/go-postgresqld/server/store/table.go:100-107 | DELETE without a condition, for every table, equal rows or not, and a selection of any length: it panics, or leaves what one pass over the list for each selected slot leaves, the slot holding the row that is there by then, or what is left behind the end |
| DeleteAll.TwinStays | examples/go-postgresqld/server/store/table.go:100-107 | Witness: of two equal rows in front, and two different ones behind, one of the equal ones stays |
| DeleteAll.UnequalDeleteAll | examples/go-postgresqld/server/store/table.go:100-107 | On pairwise unequal rows it never panics and leaves exactly the survivors, also when the table has grown since it selected |
| DeleteAll.SurvivorsAt | examples/go-postgresqld/server/store/table.go:100-107 | Of rows that equal themselves the survivors are those at odd positions but the last; of a table grown to at least twice the selected n rows, the odd positions below 2n and everything behind |
| DeleteAll.UnconditionalDeleteEmptiesIff | examples/go-postgresqld/server/store/table.go:47-49 | DELETE without a condition empties the table if and only if it has at most two rows, each equal to itself and not to the other |
| DeleteAll.SharedNeverEmpties | examples/go-postgresqld/server/store/table.go:100-107 | With three or more rows at least one survives |
| DeleteAll.ThreeRowsLeaveOne | examples/go-postgresqld/server/store/table.go:100-107 | Witness: of three different rows the middle one survives |
| DeleteLaws.UnequalDelete | examples/go-postgresqld/server/store/table.go:100-107 | While no two rows are equal, rows selected at any earlier time remove exactly the rows equal to one of them, and nothing panics |
| InterleavingLaws.RowsStayInInsertionOrder | examples/go-postgresqld/server/store/table.go:43-110 | Over every interleaving of INSERT, two-phase UPDATE and two-phase DELETE: slots hold distinct row objects in insertion order |
| InterleavingLaws.MissingRowsWereRemoved | examples/go-postgresqld/server/store/table.go:91-110 | Over every interleaving: a missing row was removed by a DELETE that had selected a row of equal content, or by one that was clearing the table's own array |
| InterleavingLaws.RemovedRowsStayAway | examples/go-postgresqld/server/store/table.go:91-110 | A removed row never returns and is removed at most once |
| InterleavingLaws.EveryRowIsAccountedFor | examples/go-postgresqld/server/store/table.go:43-110 | From the empty table: a row ever inserted is present at the end if and only if no DELETE removed it |
| InterleavingLaws.LateDelete | examples/go-postgresqld/server/store/table.go:91-110 | A late DELETE with a condition leaves exactly the rows equal to none of its selection, if rows are pairwise unequal then |
| InterleavingLaws.LatePasses | examples/go-postgresqld/server/store/table.go:91-110 | A late DELETE without a condition that still holds the table's array, whatever it finds there, the table longer or shorter than its selection: the panic and the rows left are those of the passes |
| InterleavingLaws.LateDeleteAll | examples/go-postgresqld/server/store/table.go:91-110 | If the rows are pairwise unequal then and no fewer than it had selected, it leaves exactly the survivors, whichever of them it had selected |
| InterleavingLaws.LaterRowIsRemoved | examples/go-postgresqld/server/store/table.go:91-110 | For any three unequal rows: such a DELETE removes a row inserted after it selected and keeps one it selected |
| InterleavingLaws.UnequalRunsNeverPanic | examples/go-postgresqld/server/store/table.go:100-107 | A run whose DELETEs find pairwise unequal rows never panics |
| InterleavingLaws.LateTwinPanics | examples/go-postgresqld/server/store/table.go:91-110 | For every matching row: inserting an equal one between the two steps of a DELETE makes it panic |
| InterleavingLaws.UpdateTouchesOnlySelected | examples/go-postgresqld/server/store/table.go:74-88 | UPDATE changes only rows its selection names, each exactly once |
| StoreSteps.NumberingExists | examples/go-postgresqld/server/store/table.go:24-41 | Every table has a numbering of its rows, in order, as the interleaving model has it |
| StoreSteps.InsertNumbers | examples/go-postgresqld/server/store/table.go:62-71 | INSERT in both models keeps the numbering |
| StoreSteps.DeleteIsTwoSteps | examples/go-postgresqld/server/store/table.go:91-110 | Selecting and deleting with nothing between is what Store.Table.Delete does: the same panic, the same rows left, slot by slot |
| StoreSteps.UpdateIsTwoSteps | examples/go-postgresqld/server/store/table.go:74-88 | Selecting and updating with nothing between is what Store.Table.Update does to each row |

## Left out

- ConversationLaws.ConversationRefines: for bytes whose Bind values each arrive in one segment; `MessageLaws.BindPrefix` says what happens otherwise. A CopyDone with a body, which section 55.7 does not allow, is not among its messages.
- Server.Server.Describe: the catalogue query behind the parameter types of a prepared SELECT is the arbitrary function `oids` of `Session.Env`.
- Server.Server.Hello: for a server without TLS; with it the SSLRequest is answered by a handshake, a foreign call.
- Server.Server.Receive: adding the connection to the registry of running connections and taking it out again is not modelled, nor is the TLS branch; a call handles one connection from start to end, and only the shared maps carry over to the next.
- Inputs.RawRead: the buffering inside the connection's own reader appears only as the segments it delivers.
- ResultSets.Conversion: the casts of `AppendData` are an arbitrary partial function.
- DeleteAll.UnequalDeleteAll: the positions of the rows left are given for pairwise unequal rows; for all others `DeleteAll.DeleteSharedIsPasses` gives the passes over the list.
- Store.Table.Append: the growth of a full array is doubling; the interleaving model leaves it arbitrary.
- Server.Server.Authenticate: whether a user's password is right is the arbitrary function `verify` of `Session.Env`.
- Certificates, and the content of the parameter status and key data messages: foreign calls, or fixed lists.
- Session.QueryStep: putting bind parameters into a statement is part of the arbitrary function `bound`; only the lookup of one parameter by name is modelled.
- SQL parser, casting library, aggregates, tracing and logging: not part of this model.
- Default executors and the OID and type tables: they hold fixed answers and constants. The remaining response constructors put a type byte before a fixed or given text.
- Cancellation of running connections, and the listener.
- Data races on the Go maps of the prepared manager: each handler call is atomic.
- Row values: one kind of number, one of real and one of text stand for Go's several widths and for times.
- CREATE, ALTER and DROP of tables and databases: plain map updates.
- Floating-point encoding: a float column is given by its bits.
