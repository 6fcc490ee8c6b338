# A verified model of Ekanite

Ekanite is a syslog server with text search. This project models its core in Dafny and proves what the core is for.
Check it with `dafny verify dfyconfig.toml`.

| file | models |
|---|---|
| `QueryTokens.dfy`, `QueryLexer.dfy` | tokens and the query lexer |
| `QueryGrammar.dfy`, `QueryReading.dfy`, `QueryErrors.dfy`, `QueryParser.dfy` | the query grammar, reading a text token by token, which error is returned, and the recursive-descent parser with one token of pushback |
| `QueryPrecedence.dfy`, `QueryMeaning.dfy`, `QueryPrint.dfy` | which tree the parser's root rotation builds, what it means, and printing it back |
| `SyslogDelimiter.dfy`, `Rfc5424Delimiter.dfy`, `Rfc5424Reference.dfy`, `NetstrDelimiter.dfy` | the three stream framers, and a reference for the RFC 5424 one that looks at the text alone |
| `Batcher.dfy` | the batcher: an event and timer loop in front of the indexer |
| `DocIds.dfy`, `Windows.dfy`, `Store.dfy`, `EventStore.dfy` | document IDs, time windows, sharded storage, and the store as a whole |
| `IndexObjects.dfy`, `EngineObject.dfy`, `EngineTexts.dfy` | the index and engine objects, and what a call does to the texts held |
| `EngineSteps.dfy`, `EngineInvariant.dfy`, `EngineRuns.dfy`, `EngineAlone.dfy` | every interleaving of concurrent Index calls with retention passes: the steps, what each keeps, what follows, and how the steps relate to the engine object |
| `Reopen.dfy`, `ReopenStore.dfy` | closing an index or the whole engine and opening it again |
| `Wrappers.dfy`, `Bytes.dfy`, `Sequences.dfy` | shared definitions and sequence facts |

Objects that the program updates in place are classes here. Each of their methods is proved against a function of the
old state, and the theorems are lemmas about those functions over all inputs, streams and runs. Overlapping calls of the
engine are steps of a state machine; `EngineAlone` proves that a call on its own, and a retention pass, lead there to
what the engine object's methods compute.

## Main results

- **Search.** Of each index behind the last that fails to be searched exactly as many hits are sent as can be read,
  those that sort first, each once and with the text stored under its ID; if no index fails and all can be read, that is
  every hit. After every interleaving of Index calls and retention passes from an empty engine, whatever a search finds
  comes back in the order in which the messages occurred, over all windows and shards, if no two events fall into one
  window but stand on different sides of 1970 (or, at one time, of sequence number 0). Once all calls are done, and if
  all events were within the retention period at every pass, the order is right if and only if that is so. With sequence
  numbers that are not negative, the order can fail exactly for index durations that have no boundary at the beginning
  of 1970: never for the default of 24 hours, but for a week it does.
- **Windows.** For every interleaving, windows stay aligned, disjoint and newest first, each event's window contains its
  reference time, the lock upgrade cannot deadlock although a waiting writer keeps new readers out, every call ends
  after finitely many steps of its own, and from every state all calls can be run to their end. For any window list at
  all, the window created for a time contains it, in spite of the shifted start.
- **Store.** The shards agree with one flat map in which the last write wins; a call on its own leaves under each ID the
  last text it gave. For every interleaving, no event that was within the retention period at every pass is lost, every
  text sent back is that of an event handed in under its ID, and the engine's total is the number of different event
  IDs. A retention pass removes exactly the indexes that have aged out when the clock is read. An engine that holds
  something is the same after it is closed and opened again if and only if the duration of an index is a number of whole
  minutes.
- **Parser.** Parse reads every text as a function of its tokens says, and on texts without NUL accepts exactly the
  grammar. Its one-step rotation builds the precedence tree if and only if no chain has an AND directly before a NOT
  after an OR; whatever the shape, the tree means the same. Printed as the code does it and parsed again, the tree comes
  back if and only if it holds no parentheses; printed with parentheses, it always does. A query fails to parse exactly
  if a scan from left to right that counts parentheses finds something missing, and with the same error.
- **Framers.** All three agree, on every stream, with a one-shot split or decode that looks at the whole text. For the
  RFC 5424 framer it is shown on exactly which streams every line begins with a header, and exactly which headers begin
  a line. Messages come back as they were sent, for the syslog and RFC 5424 framers under conditions that are shown to
  be exact.
- **Batcher.** First in, first out and nothing lost, also when the indexer fails. Pending events can go out by their age
  alone unless they are stranded, and exactly those runs strand them that have a refused send which leaves neither a
  timer nor a tick, and no full batch taken since. Stranded events wait for a full batch, and past the size they wait
  for ever. An empty batch is sent exactly in the runs that take a stale tick while nothing is pending.

## Where the code differs from its description

- `query/parser.go:21-43` gives expressions a printed form, but a parenthesised one has no String method. It prints as
  `&{...}`, so `(a)` comes back as a field and a term with braces in them. `PrintedComesBackIff` gives the exact
  condition, `GroupComesBackAsField` what comes back instead.
- `rfc5424/delimiter.go:24-27` promises lines that begin with a header and end before the next one. Neither holds of all
  streams. `EveryLineBeginsWithHeaderIff` says on exactly which streams every line begins with a header: the stream must
  begin with one, and no PRI part may hold a byte of junk, which does not stop the machine but makes it cut too late
  (`JunkInPri`). `HeaderBeginsLineIff` says of a header anywhere in a stream exactly when it begins a line: when there
  has been a newline and no attempt at another header is going on, such as directly behind another `<` (`HiddenHeader`).
  For framed messages, whatever their bodies hold, `RoundTripIff` gives the exact condition for getting them back. The
  machine takes a PRI part of four digits, which section 6.2.1 of RFC 5424 does not have.
- `input/delimiter_netstrings.go:54` promises that Reset restores the initial state. `ResetRestoresIff` says exactly
  when it does: it leaves length digits, the broken mode and the number of bytes due, and makes a result of a value cut
  short. `ResetStartsAfreshIff` says exactly when later streams are answered as by a new machine.
- `engine.go:36-39` says that a batch is sent once it is large enough or old enough. The timer is armed by the first event
  of a batch only, so after a refused send that leaves no tick nothing sends the batch by its age any more:
  `OldEventStrands` is a run where that happens, `StrandedIff` says in which runs it does. After a refused full batch
  the size is passed as well, and nothing is sent any more; `DeliverableIffNotStuck` gives the exact condition.
- `query/token.go:68-79` gives three levels of precedence. The parser does not always build the tree they call for;
  `ParseTreeIsReferenceIff` gives the exact condition.
- `README.md:10` promises results in the order of occurrence. Times are compared as unsigned words, so events from before
  1970 sort after later ones of the same window; `SearchIsChronologicalIff` and `EverySearchIsChronologicalIff` give the
  exact condition, and `OrderCanFail` a run.
- The end-of-input rune of the query lexer is U+0000. A NUL in a query reads as the end, and reading goes on behind it;
  `LosslessIffNulFree` says what that loses, and `EmptyGroupIff` when it makes a group without an expression.
- `engine.go:261-263` says that two indexes cannot have the same start time, as they would have the same path. The path
  has the start time to the minute only; `DirectoriesDiffer` shows that it is enough for durations of a minute or more,
  and `DirectoriesCanClash` has a run where it is not, for every duration of half a minute or less.

## Modelling choices

- Times are integer nanoseconds since 1970. Truncation counts from the first of January of year 1.
- A shard of the search library is a map from document ID to source; what the library finds is an arbitrary list of
  different documents that the index holds, or an error.
- Locks: each step of `EngineSteps` runs under the lock the code holds there. A step under the write lock needs that no
  call holds the read lock; one writer at a time may be waiting for that, and while it waits no call gets the read lock.
  Each shard of a sub-batch is written in a step of its own. A search reads one snapshot.
- Binary NOT is read as "and not".
- A parenthesised expression is printed as a pointer to a structure, as `fmt` does it; directly inside another one it is
  printed as a complaint about the format with an address in it, for which the model takes any text.
- The timer's channel holds one tick, and stopping or resetting the timer leaves a waiting tick there.
- Sorting in the standard library is taken as the only sorted arrangement, which is proved to be unique for windows,
  shard names and document IDs.

## Model

| member | source | states |
|---|---|---|
| QueryLexer.Lexer.Read | query/lexer.go:21-29 | the next rune and the cursor one further, or the end rune and the cursor where it was |
| QueryLexer.Lexer.Unread | query/lexer.go:31-32 | one step back, only directly after a rune was read |
| QueryLexer.Lexer.LexWhitespace | query/lexer.go:63-83 | the longest run of whitespace; a NUL that ends it is swallowed |
| QueryLexer.Lexer.LexString | query/lexer.go:85-107 | the longest run of string characters; a NUL that ends it is swallowed |
| QueryLexer.Lexer.Lex | query/lexer.go:34-61 | the token, its text and the text left over are those of the reference step, for every text |
| QueryTokens.KeywordsIff | query/token.go:44-87 | exactly `and`, `or` and `not` are keywords, in whatever case each letter is |
| QueryLexer.HeadOfBlanks | query/lexer.go:38-42 | blanks, tabs and line ends that reach as far as they can are one token; a NUL behind them goes with them |
| QueryLexer.HeadOfWord | query/lexer.go:53-60 | so is a word: what holds no blank, colon, parenthesis or NUL; it is an operator if it is a keyword |
| QueryLexer.HeadOfSign | query/lexer.go:43-51 | a parenthesis or colon is a token of its own, and NUL is the end of the input |
| QueryLexer.LosslessIffNulFree | query/lexer.go:9-107 | token texts spell out the input if and only if it holds no NUL |
| QueryLexer.LexAllCanonical | query/lexer.go:34-107 | on NUL-free text no two neighbours are both whitespace or both string-like, and every text fits its token |
| QueryLexer.NulSplitsWhitespace | query/lexer.go:69-80 | every run of blanks with a NUL inside it lexes as two whitespace tokens side by side, so the tokens are not canonical |
| QueryLexer.Relex | query/lexer.go:34-107 | every canonical token sequence, written out, lexes back to itself |
| QueryGrammar.CompleteExpr | query/parser.go:106-182 | every derivation, followed by the end or a closing parenthesis, is parsed to the tree it derives, and parsing stops right there |
| QueryGrammar.SoundExpr | query/parser.go:106-182 | everything parsed has a derivation of exactly the tokens used, and what is left starts with a closing parenthesis or is empty |
| QueryGrammar.ParseAcceptsExactlyTheGrammar | query/parser.go:106-182 | an expression is returned if and only if a prefix is an Expr before the end or a closing parenthesis; no expression and no error only on the empty input; the result is unique |
| QueryReading.ReadingIsParsing | query/parser.go:76-182 | without NUL, skipping at most one blank before each token, with pushback, is parsing the significant tokens: same tree or error, same tokens left |
| QueryReading.EmptyGroupIff | query/parser.go:150-163 | for any tokens: an operand is a group without an expression if and only if an Eof stands between its parentheses |
| QueryReading.NulMakesEmptyGroup | query/parser.go:150-163 | `(`, U+0000, `)` is read as such a group |
| QueryReading.EmptyGroupNeedsNul | query/parser.go:150-163 | only a text with a NUL can lead to one |
| QueryReading.ThreeBlanksHideGroup | query/parser.go:97-163 | two blanks in a row are skipped in front of a group, three are not: reading fails at the parenthesis |
| QueryErrors.ErrorIsScanned | query/parser.go:106-182 | for every text without NUL: reading fails if and only if a scan from left to right with a counter of open parentheses finds something missing, with the same error about the same token; otherwise the same tokens are left |
| QueryParser.Parser.Lex | query/parser.go:76-92 | the first pending token, for every text: the one pushed back, else the lexer's next; the others stay pending |
| QueryParser.Parser.Unlex | query/parser.go:94-95 | the last token is pending again |
| QueryParser.Parser.LexIgnoreWhitespace | query/parser.go:97-104 | the first pending token after at most one blank, and what is pending before and after it is pushed back |
| QueryParser.Parser.Parse | query/parser.go:106-148 | for every text: result, error and pending tokens are those of reading the pending tokens; it terminates |
| QueryParser.Parser.ParseFieldExpr | query/parser.go:150-182 | the same for an operand |
| QueryParser.ParseQuery | query/parser.go:71-148 | a new parser reads every text as the reading function says; without NUL that is parsing the significant tokens |
| QueryPrecedence.RespectfulTreesAreUnique | query/token.go:68-79 | a tree in which no operator binds more loosely than its parent, nor as loosely on the right, is determined by its in-order yield |
| QueryPrecedence.FoldYield | query/parser.go:120-147 | the rotation never reorders operands or operators |
| QueryPrecedence.BuildYield | query/parser.go:120-147 | the tree's in-order yield is the query's operands and operators, with AND where none is written |
| QueryPrecedence.RotationIsReferenceIff | query/parser.go:137-146 | the rotation builds the left-associative precedence tree if and only if no AND directly before a NOT follows an OR, for chains of any length |
| QueryPrecedence.TwoLevelsSuffice | query/parser.go:137-146 | chains with at most two of the three operators always get the precedence tree |
| QueryPrecedence.ThreeLevelsDepart | query/parser.go:137-146 | what `a OR b AND c NOT d` is built to, and the precedence tree, which differs |
| QueryPrecedence.ParseTreeIsReferenceIff | query/parser.go:106-182 | the same condition for whole queries, at every level of parentheses |
| QueryMeaning.SomeGroupLeftToRight | query/token.go:56-79 | the disjunction over groups between ORs of the conjunction of signed operands, computed from left to right |
| QueryMeaning.FoldMeansSomeGroup | query/parser.go:137-146 | the tree of any chain evaluates to that disjunction |
| QueryMeaning.BuildKeepsMeaning | query/parser.go:106-182 | the tree of any query, with any nesting, means what the query means |
| QueryMeaning.DeparturesAreHarmless | query/parser.go:137-146 | the parser's tree and the precedence tree select the same events, always |
| QueryPrint.PrintThenParse | query/parser.go:21-36 | printed with groups in parentheses, every query that parses gives the identical tree when parsed again and leaves nothing over |
| QueryPrint.ParsedIsWellLexed | query/parser.go:165-182 | if the default field is a word the lexer reads as one STRING, so are all fields and terms of a parsed tree |
| QueryPrint.PrintedComesBackIff | query/parser.go:21-43 | printed as the code does it, the tree of a query that parses comes back if and only if it holds no group |
| QueryPrint.SomethingIsPrinted | query/parser.go:21-43 | every such tree has a printed text |
| QueryPrint.OperatorsArePrinted | query/parser.go:34-36 | between its operands an operator is printed as `AND`, `OR` or `NOT`, with a blank on each side |
| QueryPrint.GroupComesBackAsField | query/parser.go:34-43 | a single term in parentheses prints as `&{field:term}` and comes back as a field and a term with braces in them |
| SyslogDelimiter.Delimiter.PushByte | input/delimiter_syslog.go:37-57 | new state, message and flag are those of the reference step; keeps the invariant |
| SyslogDelimiter.Delimiter.TakeVestige | input/delimiter_syslog.go:59-71 | the rest of the buffer, trimmed, if it holds a PRI part; the buffer is emptied |
| SyslogDelimiter.PriAtIff | input/delimiter_syslog.go:8-21 | a PRI part is `<`, one to three digits and `>`, byte by byte |
| SyslogDelimiter.DispatchTrims | input/delimiter_syslog.go:54-56 | what is dispatched is the piece without the carriage returns at its end |
| SyslogDelimiter.VestigeTrims | input/delimiter_syslog.go:59-71 | the buffer is given back without the line feeds and carriage returns at its end if a PRI part stands anywhere in it, and nothing otherwise |
| SyslogDelimiter.StreamingIsSplitting | input/delimiter_syslog.go:39-57 | for every byte stream, what is dispatched byte by byte is the one-shot split of the stream from its first PRI part on, and the buffer is the open piece |
| SyslogDelimiter.VestigeNeedsRunMode | input/delimiter_syslog.go:39-71 | after any sequence of calls, Vestige yields nothing in start mode |
| SyslogDelimiter.VestigeSucceedsIff | input/delimiter_syslog.go:59-71 | after any stream, Vestige yields a message if and only if the stream holds a PRI part |
| SyslogDelimiter.RecoveredIff | input/delimiter_syslog.go:39-71 | messages joined by newlines are all recovered if and only if none holds a newline before a PRI part or ends in CR, and the last does not end in LF |
| Rfc5424Delimiter.AdvanceKeepsSafe | rfc5424/delimiter.go:34-94 | every state keeps enough bytes in the buffer for the header to be cut off |
| Rfc5424Delimiter.CutIsInRange | rfc5424/delimiter.go:98-113 | after any stream the cut position is in range and the cut leaves exactly priLen + 4 bytes |
| Rfc5424Delimiter.LinesBeginWithHeaderIff | rfc5424/delimiter.go:24-113 | on every stream, all lines after the first begin with a header if and only if whatever the machine takes for a PRI part consists of digits |
| Rfc5424Delimiter.EveryLineBeginsWithHeaderIff | rfc5424/delimiter.go:24-113 | every line does if and only if, moreover, the stream begins with a header |
| Rfc5424Delimiter.JunkInPri | rfc5424/delimiter.go:53-73 | a stream with one byte of junk after the digit of a PRI part, where they do not |
| Rfc5424Reference.MachineIsReference | rfc5424/delimiter.go:24-113 | on every stream the machine cuts exactly where a reference on the text alone does: from the first newline on, attempts at a header begin at `<`, and go on behind whatever breaks them off |
| Rfc5424Reference.HeaderBeginsLineIff | rfc5424/delimiter.go:36-113 | on every stream, a header anywhere in it begins a line of its own if and only if the text before it, by the reference, holds a newline and no attempt at a header goes on at its end |
| Rfc5424Reference.HiddenHeader | rfc5424/delimiter.go:41-52 | a `<` directly in front of a header, after a newline, hides it |
| Rfc5424Delimiter.NothingLost | rfc5424/delimiter.go:28-113 | on every stream the untrimmed lines and the buffer are together exactly the bytes read |
| Rfc5424Delimiter.LinesAreTrimmedCuts | rfc5424/delimiter.go:98-113 | the lines returned are those cuts, right-trimmed of CR and LF |
| Rfc5424Delimiter.LinesHaveNoEnds | rfc5424/delimiter.go:98-113 | trimming takes away the line feeds and carriage returns at the end and nothing else |
| Rfc5424Reference.RoundTripIff | rfc5424/delimiter.go:24-113 | a list of messages with any bodies comes back exactly if and only if the reference finds no header in the first frame, nor behind the header of any other, and, but for the last frame, no attempt at one goes on at the end |
| Rfc5424Reference.PlainRoundTripIff | rfc5424/delimiter.go:24-113 | for bodies without `<`: if and only if there is one message or a newline comes in or right after the first |
| Rfc5424Delimiter.Delimiter.Consume | rfc5424/delimiter.go:36-94 | one byte moves the nine-state machine as the reference step says |
| Rfc5424Delimiter.Delimiter.Line | rfc5424/delimiter.go:98-113 | what is cut off, trimmed, and what stays in the buffer |
| Rfc5424Delimiter.Delimiter.ReadByte | rfc5424/delimiter.go:30-34 | one byte read, and the line in front of the header if it completes one |
| Rfc5424Delimiter.Delimiter.ReadLine | rfc5424/delimiter.go:24-96 | the next of the lines that the rest of the stream holds, or the last one together with the end |
| Rfc5424Delimiter.ReadAll | rfc5424/delimiter.go:28-96 | reading to the end returns exactly the lines of the stream |
| NetstrDelimiter.ItoaIsDecimal | input/delimiter_netstrings.go:128-138 | decimal formatting and conversion are a round trip |
| NetstrDelimiter.DecimalIsPositional | input/delimiter_netstrings.go:128-138 | the leading digit counts as many tens as there are digits behind it |
| NetstrDelimiter.ItoaHasNoLeadingZero | input/delimiter_netstrings.go:128-138 | a number is written without leading zeros |
| NetstrDelimiter.LengthIsTakenIff | input/delimiter_netstrings.go:128-138 | a length is taken if and only if it has a digit and is at most 9223372036854775807 |
| NetstrDelimiter.MachineDecodes | input/delimiter_netstrings.go:45-138 | on every stream the machine reports what a recursive decoder says and ends where it says; in value mode the bytes read and the bytes to come add up to the declared length |
| NetstrDelimiter.BrokenIsAbsorbing | input/delimiter_netstrings.go:47-52 | once broken, the state never changes and every byte is answered with an error |
| NetstrDelimiter.RoundTrip | input/delimiter_netstrings.go:45-138 | every list of texts of representable length comes back, one result each, no error, and the machine is ready again |
| NetstrDelimiter.QuietUntilTerminator | input/delimiter_netstrings.go:96-114 | nothing is reported before the terminator byte |
| NetstrDelimiter.ResetRestoresIff | input/delimiter_netstrings.go:54-59 | Reset leads to the initial state if and only if no length was started, nothing of a value was read or is due, and the machine is not broken; what it leaves otherwise |
| NetstrDelimiter.ResetKeepsPartOfValue | input/delimiter_netstrings.go:116-126 | Reset in the middle of a value makes a result of what was read, and keeps the number of bytes due |
| NetstrDelimiter.ResetStartsAfreshIff | input/delimiter_netstrings.go:54-59 | after Reset every later stream is answered as by a new machine if and only if no length was started and the machine is not broken |
| NetstrDelimiter.Delimiter.PushByte | input/delimiter_netstrings.go:45-52 | state, flag and error are those of the reference step |
| NetstrDelimiter.Delimiter.ProcessByte | input/delimiter_netstrings.go:61-67 | the step in the current mode |
| NetstrDelimiter.Delimiter.ProcessLenByte | input/delimiter_netstrings.go:69-84 | the step in length mode |
| NetstrDelimiter.Delimiter.CheckLenByte | input/delimiter_netstrings.go:86-94 | the loop over ten digits finds exactly the digits |
| NetstrDelimiter.Delimiter.ProcessValByte | input/delimiter_netstrings.go:96-114 | the step in value mode |
| NetstrDelimiter.Delimiter.UseLenBuff | input/delimiter_netstrings.go:116-126 | the value becomes the result and length mode is on |
| NetstrDelimiter.Delimiter.UseValBuff | input/delimiter_netstrings.go:128-138 | the length is converted and value mode is on, or the machine is broken |
| Batcher.NothingLost | engine.go:60-99 | on every run, with any failures, batches taken plus pending events are the events received, in order |
| Batcher.ConservedFromStart | engine.go:60-99 | the same from the start |
| Batcher.NeverStrandedFromStart | engine.go:80-97 | if the indexer never fails, batches have at most size events, fewer are pending, and pending events have a timer running or a tick waiting, also with stale ticks |
| Batcher.TimerRunsIff | engine.go:60-99 | exactly in these runs the timer runs at the end: some event was the first of a batch without filling it, and since then neither has the timer fired nor has a batch become full |
| Batcher.StepSendsIff | engine.go:66-97 | a step sends if and only if the indexer takes it, and a tick is taken or the event fills the batch; then it sends all that is pending, and otherwise that stays |
| Batcher.NoEmptyBatchIfPrompt | engine.go:60-99 | from a start without a tick, if every tick is taken directly, the timer runs only while events are pending and no empty batch is sent |
| Batcher.EmptyBatchIff | engine.go:94-97 | exactly the runs that take a stale tick while nothing is pending send an empty batch |
| Batcher.DeliverableByAgeIffNotStranded | engine.go:80-97 | pending events can be sent without more events coming if and only if a timer runs or a tick waits |
| Batcher.StrandedIff | engine.go:60-99 | exactly these runs end with pending events, no timer and no tick: a refused send left neither, and no full batch has been taken since |
| Batcher.OldEventStrands | engine.go:87-97 | a run where one event grows old, is refused once and is then left alone, far below the size |
| Batcher.StrandedWaitForSize | engine.go:82-93 | stranded events are sent no sooner than enough events have come to fill the batch |
| Batcher.StuckForGood | engine.go:66-97 | once the size is reached or passed with no timer and no tick, nothing is ever sent again |
| Batcher.DeliverableIffNotStuck | engine.go:66-97 | some continuation delivers the pending events if and only if the batcher is not in such a state |
| Batcher.FailureAtSizeSticks | engine.go:90-93 | a refused full batch leads there unless a stale tick waits |
| Batcher.Batcher.SendBatch | engine.go:66-78 | the batch goes to the indexer, or stays pending if that fails |
| Batcher.Batcher.OnEvent | engine.go:82-93 | the step on an event |
| Batcher.Batcher.OnTick | engine.go:94-97 | the step on a tick |
| Batcher.Batcher.Start | engine.go:60-99 | the loop, under any schedule, is the run of that schedule |
| DocIds.WordParses | event.go:19-23 | formatting a 64-bit word in 16 digits and parsing it is a round trip |
| DocIds.HexAt | event.go:19-23 | the digit at each place counts as many sixteens as there are digits behind it |
| DocIds.WrittenDigit | event.go:19-23 | digits are written in lower case |
| DocIds.ReadDigitIff | index.go:43-49 | they are read in either case, and nothing else is |
| DocIds.SplitEventId | index.go:39-60 | comparing splits an event ID into exactly its two words |
| DocIds.EventIdInjective | event.go:19-23 | different times or sequence numbers give different IDs |
| DocIds.IdOrderIsTimeOrderIff | index.go:39-60 | ID order is time order, then sequence order, if and only if both events stand on the same side of 1970 and of sequence number 0 |
| Windows.RequestedWindowContains | engine.go:258-294 | for any window list: if none contains t, the assertion holds and the created window contains t |
| Windows.DurationMustBePositive | engine.go:288-294 | with a duration that is not positive the created window never contains t |
| Windows.AlignedRequest | engine.go:258-294 | on an aligned, disjoint list the created window is the aligned one and is disjoint from all |
| Windows.CreatedWindow | engine.go:258-286 | for any list: without an index of the same start the window is as requested; the first one of the same start shifts the start to its end, and the assertion fails if that is behind the requested end |
| Windows.SharedWindowIff | engine.go:288-294 | times from before and after the beginning of 1970 share a window if and only if no window starts there |
| Windows.DaysMeetAt1970WeeksDoNot | engine.go:19-21 | a window of the default duration starts there, one of a week does not |
| Windows.SortedIsDescending | index.go:83-93 | on disjoint windows, sorted by the code's order means newest first |
| Windows.DescendingIsUnique | engine.go:280-281 | there is only one such arrangement, so the sorting algorithm does not matter |
| Windows.RetainedIff | engine.go:226-245 | an element stays if and only if its end with the period added is not before the reading of the clock for it |
| Windows.RetentionKeepsPrefix | engine.go:226-245 | with a clock that does not run backwards, retention keeps exactly a prefix |
| Windows.RetentionKeepsTiled | engine.go:226-245 | retention keeps windows aligned, disjoint and ordered |
| Windows.RetentionIsSafe | engine.go:226-245 | no window is dropped that contains a time within the retention period |
| Windows.FilterInPlace | engine.go:230-243 | the in-place filter overwrites nothing unread and leaves exactly the kept elements, in order |
| Store.ShardedIsFlat | index.go:249-268 | writing a batch over shards is writing it to one flat map, for every ID |
| Store.LastWriteWins | index.go:365-376 | the source held under an ID is that of the last document written with it |
| Store.OthersStay | index.go:365-376 | an ID that is not written keeps what it had |
| Store.RouteIsFnv1a | index.go:314-320 | a document goes where the remainder of its hash says: 32-bit FNV-1a, with offset, prime and bitwise exclusive or spelt out |
| Store.TotalCountsIds | index.go:230-241 | shard sizes add up to the number of different documents |
| Store.BatchesAreFlat | index.go:230-320 | after any batches, lookup is flat lookup and the total is the number of different IDs |
| Store.WriteOnIds | index.go:258-267 | writing the part of one shard adds exactly the IDs of the batch that belong there |
| IndexObjects.WriteShard | index.go:365-376 | the documents written one after the other, in which the last write wins |
| IndexObjects.IndexObject.Demultiplex | index.go:252-256 | each shard gets its documents, in order |
| IndexObjects.IndexObject.IndexDocuments | index.go:249-268 | the new shards are the batch written over shards, whatever order they run in |
| IndexObjects.IndexObject.Document | index.go:289-296 | the source on the document's shard |
| IndexObjects.IndexObject.Total | index.go:230-241 | the number of documents |
| EventStore.CreateKeepsInv | engine.go:258-294 | creating a window keeps the store's invariant |
| EventStore.FileKeepsSound | index.go:249-268 | filing documents of the window keeps an index sound and adds exactly their IDs |
| EventStore.SortSorts | index.go:281-286 | hits are returned as an ascending permutation |
| EventStore.AscendingIsUnique | index.go:281-286 | there is only one such arrangement, so the sorting algorithm does not matter |
| EventStore.PageChronologicalIff | index.go:270-287 | one index's hits are in the order of events if and only if all stand on the same side |
| EventStore.EmittedInOrderIff | engine.go:358-374 | for given hits, the results are in the order of events if and only if no page mixes the sides |
| EventStore.SearchIsChronologicalIff | engine.go:346-379 | whatever is found comes back in the order of events if and only if no index holds two documents on different sides |
| EventStore.ResultsAreHeld | engine.go:358-374 | each text sent back is the one stored under the ID at its place |
| EventStore.SearchSendsExactly | engine.go:358-374 | of each index behind the last that fails exactly those hits are sent that have fewer hits in front of them than can be read, each once; older indexes first, and within one in the order of IDs |
| EventStore.EveryHitComesBack | engine.go:358-374 | if no index fails and every hit can be read, the documents sent are together exactly the hits |
| EventStore.TotalCountsHeld | engine.go:194-208 | index totals add up to the number of different documents |
| EngineObject.SortIndexes | engine.go:280-281 | a permutation; newest first on disjoint windows |
| EngineObject.Engine.IndexForReferenceTime | engine.go:247-256 | the first index whose window contains t, or none |
| EngineObject.Engine.CreateIndex | engine.go:258-286 | a new empty index with the requested window, sorted into the list |
| EngineObject.Engine.CreateIndexForReferenceTime | engine.go:288-294 | the new window contains t, is apart from all others and sits where it belongs |
| EngineObject.Engine.IndexFor | engine.go:307-326 | the index that contains the event's time, created if missing |
| EngineObject.Engine.Demultiplex | engine.go:303-332 | each index gets exactly the events in its window, in order |
| EngineObject.Engine.WriteSubBatches | engine.go:334-342 | all sub-batches are written, whatever order they run in |
| EngineObject.Engine.IndexEvents | engine.go:296-344 | the new store is the old one with missing windows created and every event filed in its window; keeps the invariant |
| EngineTexts.TextsAfterCall | engine.go:296-344 | after a call on its own, under each ID it hands in exactly the last text given is held, whatever comes how often, and under every other ID what was held before |
| EngineObject.Engine.Total | engine.go:194-208 | the number of different documents held |
| EngineObject.Engine.Unexpired | engine.go:228-243 | the in-place loop keeps what is due, reading the clock once for each index |
| EngineObject.Engine.EnforceRetention | engine.go:225-245 | an index stays if and only if the end of its window with the period added is not before the reading of the clock; a prefix stays, with every index that holds a time within the period |
| EngineObject.KeptAtOneTime | engine.go:225-245 | if the clock stands still, exactly the indexes stay that have not aged out at that time |
| EngineObject.Engine.Walk | engine.go:358-374 | pages from oldest to newest, up to the first index that cannot be searched; what they hold is said of Search |
| EngineObject.Engine.Search | engine.go:346-379 | exactly the readable hits that sort first, of each index behind the last that fails, each once with the text stored under its ID, older indexes first; every hit if none fails and all can be read; in the order of events exactly if every page stands on one side, and always if every index does |
| EngineInvariant.StepKeepsInv | engine.go:225-344 | every step of every caller and of retention keeps the invariant |
| EngineRuns.EveryInterleavingIsSafe | engine.go:225-344 | for every interleaving: windows aligned, disjoint, newest first; chosen windows contain their events' times; under the read lock chosen indexes stay |
| EngineRuns.NothingWithinThePeriodIsLost | engine.go:225-344 | for every interleaving, once all calls are done, every event within the retention period at every pass is stored |
| EngineRuns.RetainRemovesAgedOut | engine.go:225-245 | on every run a retention pass removes exactly the indexes whose window with the period added ended before the reading of the clock, so none stays that ended before the first |
| EngineRuns.TotalCountsDistinctEvents | engine.go:194-208 | once all calls are done, if all events were within the period at every pass, the total is the number of different event IDs handed in |
| EngineRuns.AlikeEventsSearchChronologically | engine.go:346-379 | for every interleaving, at every moment, the order is right if no two events share a window and stand on different sides |
| EngineRuns.EverySearchIsChronologicalIff | engine.go:346-379 | once all calls are done and nothing was out of the period, if and only if |
| EngineRuns.OrdinaryEventsSearchChronologically | engine.go:346-379 | with sequence numbers that are not negative the order is always right if a window starts with 1970, or if all events are from 1970 on |
| EngineRuns.OrderCanFail | engine.go:346-379 | for every duration without a window that starts with 1970, a run in which the order fails |
| EngineRuns.DefaultIsSafeWeekIsNot | engine.go:19-21 | the default duration is of the first kind, a week of the second |
| EngineRuns.TextsSentBackWereSent | engine.go:346-379 | after every interleaving, each text sent back is that of an event handed to Index, under the ID that gives it its place |
| EngineRuns.NeverDeadlocked | engine.go:296-344 | while a call runs or a retention pass waits, some step can be taken, although a waiting writer keeps new readers out |
| EngineRuns.EveryStepAdvances | engine.go:296-344 | every step of a call leaves it less to do and leaves the other calls alone |
| EngineRuns.EveryCallCanFinish | engine.go:296-344 | from every state of every run, all calls can be run to their end without a new one |
| EngineAlone.OneCallIsIndexEvents | engine.go:296-344 | every run of one call on its own, from a state without calls, ends with the indexes that IndexEvents computes |
| EngineAlone.RetainIsEnforceRetention | engine.go:225-245 | the retention step leaves the indexes that EnforceRetention leaves |
| Reopen.ShardNameOrder | index.go:126-134 | four-digit names are in alphabetical order exactly as their numbers are |
| Reopen.ShardNameText | index.go:126-134 | the name of a shard is its number in four decimal digits |
| Reopen.ListShards | index.go:392-417 | each directory listed whose name does not start with a dot, as often as it is listed, and nothing else, in alphabetical order; for the listing of an index, files and hidden directories included, the names of its shards in order |
| Reopen.ListingRestoresOrder | index.go:392-417 | however the directory is listed, with the file of the end time and anything that is a file or hidden, shard n comes back at position n |
| Reopen.OpenShards | index.go:184-197 | shards are opened in the order of their names |
| Reopen.ReopenKeepsDocuments | index.go:152-213 | after reopening from such a listing, the shards are the same at the same positions and every lookup gives the same |
| Reopen.WindowRestoredIff | index.go:162-182 | start and end are restored if and only if they are whole minutes |
| Reopen.AlignedRestoredIff | index.go:162-182 | so are the engine's windows if and only if the duration is a number of whole minutes |
| ReopenStore.OpenIndex | index.go:151-213 | the window to the minute, and the shards in the order of their names |
| ReopenStore.StoreComesBackIff | engine.go:135-171 | however the directories are listed and the indexes sorted, a store comes back with the same windows, order and documents if and only if the duration is a number of whole minutes |
| ReopenStore.EngineComesBackIff | engine.go:135-171 | the same after every interleaving |
| ReopenStore.DirectoriesDiffer | index.go:97-100 | for durations of a minute or more no two indexes share a directory, after every interleaving |
| ReopenStore.DirectoriesCanClash | index.go:97-100 | for every duration of half a minute or less, a run where two do |

## Left out

- QueryPrint.PrintThenParse: for trees whose fields are words the lexer reads as one STRING, as otherwise a printed field
  does not lex back; and for texts without U+0000.
- QueryPrint.PrintedComesBackIff: for such trees and texts, too.
- DocIds.SplitEventId: for times and sequence numbers that fit in 64 bits. The UnixNano of a time before 1678 or after
  2262 does not, and its value is not defined; such events are left out throughout, although the program takes any year.
- DocIds.EventIdInjective: the same restriction.
- DocIds.IdOrderIsTimeOrderIff: the same restriction.
- EngineObject.Engine.Search: the hits of the search library are given, and its limit of 10000 hits for each index is not
  modelled, so that all matching documents are found is not claimed.
- EngineObject.Engine.IndexEvents: one call at a time; overlapping calls are in EngineRuns, and EngineAlone connects the
  two.
- ReopenStore.DirectoriesCanClash: what becomes of two indexes that share a directory is not modelled.
- EngineRuns.EveryInterleavingIsSafe: does not say that an index chosen before the read lock was given up is still there
  for an event out of the retention period; the code does not ensure that.
- Reopen.WindowRestoredIff: the date layout of index names is taken as an exact codec of whole minutes; calendar
  arithmetic is not modelled.
- Text search itself: analysis, index mapping and evaluation of query strings in the search library.
- The file system: creating, deleting and failing to open directories and files.
- Write errors of the netstring framer's buffers, and with them its ignore mode: the buffer type never reports one.
- Parsing of header fields with regular expressions, and the choice of reference time from them.
- Collectors, servers, encryption, flags, diagnostics and logging.
- The Statement type of the query package, which nothing uses.
