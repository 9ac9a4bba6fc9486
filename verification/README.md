# Two Redis clients, verified

This project models the two clients of the repository and proves what they promise:
hiredis (a resumable reply parser, command formatters, an asynchronous engine, a hash
table and a string library, in C) and r3c (a cluster client with its own SHA-1, CRC-16
and decimal codecs, in C++).

Each imperative part of the sources is an imperative Dafny class or method with the same
branches, and is proved against a specification written independently of it. Further
lemmas are about those specifications.

- **Resp, RespTheorems, RespText, Reader.** The reply protocol is a recursive grammar
  (`ParseReply`). A pure machine (`Step`, `Run`) has an explicit stack of open aggregates.
  The reader class has the buffer, the cursor, the nine task slots and mutable reply
  objects. The class refines the machine, the machine refines the grammar, the grammar
  inverts the encoder, and no cut of the input into chunks can be observed. RespText says
  what is read for every line a server may send, in bytes.
- **Command, FormatText.** Three formatters of one wire form, the walker that reads a formatted
  command back, and what the words of a format are, as text.
- **Classify.** How the asynchronous engine tells the special commands from their bytes.
- **CallbackList, Script, Async.** The asynchronous engine as a class that owns a linked
  callback queue and a reader. Socket outcomes and the behaviour of user callbacks are
  parameters; a script records everything done to the context, and views record what each
  event changed.
- **PubSub.** A client, a server and two FIFO channels as a state machine, with regular
  commands sent before and while the client is subscribed; the client's
  two subscription dictionaries refine its table.
- **Hashing, Dict.** The chained hash table, with relinking on expansion, and its iterator.
- **Sds, Quote, Decimal, DecimalPrinters.** The string library: headers of variable width,
  the quoting printer and its parser, the decimal printers and the strict decimal parser.
- **Sha1Block, Sha1, Crc16.** The fast forms against FIPS 180-4 and against long division
  over GF(2).
- **Cluster, Retry, RetryRuns.** The refresh of the slot, master and id tables, the loop that
  runs one command with redirections, refreshes and bounded retries, and sessions of many
  commands; with concrete runs.

`dafny verify dfyconfig.toml` checks everything.

## Where the code departs from the ideal

These are results about the code as it is; the lemmas and contracts named state exactly
when the ideal holds.

- A listed live master is not always found by its listed id after a refresh. From tables in
  good order it is found if and only if it was neither renamed nor moved
  (`Cluster.FoundUnlessMovedOrRenamed`; for any tables at all `Cluster.FoundByListedId`). A
  master that changes its address is in the master table but its id is erased with the old
  address (`Cluster.MovedMasterIsLost`); one that changes its id is still found by the old id
  only (`Cluster.RenamedMasterIsLost`).
- An id entry that dangles before a refresh may still dangle after it
  (`Cluster.DanglingEntrySurvives`); none does exactly if each is given to an added master or
  goes with a departing one (`Cluster.IdsValidIffRepaired`). The refreshes themselves never
  create one (`Cluster.IdsStayValid`).
- `redisFormatCommandArgv` counts the bytes it needs in an int: it writes the command if and
  only if its length and a terminator fit an int (`Command.FormatCommandArgv`); the same holds
  of the commands built from a format (`Command.FormatCommand`). Otherwise it allocates
  nothing, or, once the count has come round to a positive one, too little.
- `redisFormatSdsCommandArgv` prints argument lengths with `%u`: what it writes is the wire form
  exactly when every argument is shorter than 2^32 bytes (`Command.SdsIsWireIffShort`). So the
  two write the same command exactly when it and a terminator fit an int
  (`Command.FormattersAgreeIff`); one argument of 2^31 bytes is written only by the second
  (`Command.OnlySdsWrites`).
- A write that would block returns -1 without recording an error, and the engine takes it
  for a failure: it disconnects and, if callbacks are pending, its own assertion fails
  (`Async.AsyncContext.HandleWrite`, and a run in `Async.WouldBlockAborts`).
- A reply, other than an error, that no command asked for makes the dispatcher's assertion
  fail. With the case above these are all the ways to fail one (`Async.FailsExactly` per event,
  `Async.Drive` over runs).
- On a context made not to be freed with its connection, a timeout whose callback asks for it to
  be freed leaves it there (a run in `Async.FreeIsForgotten`). Otherwise a context is freed when
  somebody asks for it: `Async.Drive` over runs, `Async.ReadCarriesOut` for callbacks of replies.
- A regular command sent while subscribed is called back with its answer if that is no error; an
  error closes the connection instead (`PubSub.TableAgreement`). One sent after the last channel
  has been asked to be left, and before that is confirmed, fails the dispatcher's assertion when
  it is answered (`PubSub.LateRegularFails`).
- A range whose second end is negative and lies before the beginning of the string keeps the
  first byte if the first end does too, or is 0 (`Sds.RangeKeeps`).
- The two bytes behind a bulk string are skipped whatever they are (`RespText.BulksRead`).
- In single quotes a string that ends in a backslash cannot be written: the backslash escapes the
  closing quote (`Quote.BackslashAtEnd`); every other string without a NUL can
  (`Quote.SingleQuotedRound`).
- An ASK redirection is followed only to an address in the master table; otherwise ASKING
  and the command go to some other master (`Retry.Routed` says where an attempt goes,
  `Retry.AskIsObeyed`, and a run in `RetryRuns.AskGoesElsewhere`).
- A connection error other than of input, output or end of file, on a command or on CLUSTER
  NODES, leaves the connection open and in error. From then on every command for a slot of
  that master fails at once, whatever the servers would answer, and changes nothing, until a
  refresh for some other slot drops the master from the tables: a master is in this state
  exactly if it was at first, or an attempt broke its connection since, and every listing since
  then kept it (`Retry.StuckIff`, and over commands for any slots `Retry.Condemned`). A run that
  drops it and has it back is in `RetryRuns.Recovers`.
- `nextArgument` casts the length of an argument to int: walking a command returns its
  arguments if and only if each is shorter than 2^31 bytes (`Command.WalkReturnsArguments`).
- The engine compares a command's name together with the CRLF behind it and no further: a first
  argument that goes on after a name and CRLF is taken for that command
  (`Classify.KindIsThatOfArguments`).
- The comment on the nesting limit speaks of depth above 7; eight nested aggregates are
  accepted and the ninth is refused (`RespTheorems.RoundTrip`).
- The infinity test for doubles sees the text behind the type byte but compares it with a
  text that starts with a comma, so only a second comma makes it succeed. The verdict on a
  double is that of strtod if and only if the text is not one of these, or strtod takes it
  (`Resp.DoubleTestIsRight`); a reply read against strtod is in
  `RespTheorems.SecondCommaIsRead`.

## What the model supposes

- The count of an aggregate, doubled for a map, is kept in an int (hiredis/read.h:74). The
  model stores it through the same narrowing; the allocator is supposed to refuse arrays of
  more than 2^31 - 1 elements, so that no stored count differs from the announced one
  (`Resp.Env.limit`). With an allocator that grants more, a count of 2^32 + 1 would be stored
  as 1.
- Sizes computed in size_t do not wrap around, additions of int and the negation of the
  smallest 64-bit number are those of two's complement, and the allocator refuses a negative
  number of bytes.
- The types long and unsigned long have 64 bits (hiredis/read.c:352, hiredis/async.c:618-630).
  On Windows, for which the repository also has a build, they have 32.
- A connection in error reports the same error to every later call (hiredis/hiredis.c:854-872,
  hiredis/hiredis.c:890-894), and no complete reply is left unread in it.

## Model

| member | source | states |
|---|---|---|
| Decimal.String2ll | hiredis/read.c:159-220 | the digit loop accepts exactly the canonical decimals of signed 64-bit numbers and returns the number: no plus sign, no "-0", no leading zero, no overflow |
| Decimal.DecInjective | hiredis/read.c:145-158 | two numbers with the same canonical text are equal, so the parser has at most one answer |
| Decimal.ParseIntOfDec | hiredis/read.c:145-158 | the parser inverts the canonical form on every signed 64-bit number |
| Decimal.NotCanonical | hiredis/read.c:175-196 | text with a leading zero, or with something other than a sign and digits, is the canonical form of no number |
| Decimal.CanonicalRange | hiredis/read.c:198-218 | canonical digits are accepted exactly if the signed value is in range |
| Decimal.TooLong | hiredis/read.c:198-207 | once the digits read exceed an unsigned word, no continuation is in range, so giving up at the overflow test is right |
| DecimalPrinters.CountDigits | hiredis/hiredis.c:266-277 | the digit count by repeated division by 10000 is the length of the printed number |
| DecimalPrinters.Digits10Correct | r3c/utils.cpp:812-830 | the comparison tree and its recursion by twelve digits give the length of the printed number, for every 64-bit number |
| DecimalPrinters.PutDigitsReversed | hiredis/sds.c:438-446 | the remainder loop writes the digits of the number backwards |
| DecimalPrinters.ReverseInPlace | hiredis/sds.c:448-458 | the swapping loop reverses the bytes written and nothing else |
| DecimalPrinters.Sdsull2str | hiredis/sds.c:464-491 | the buffer holds the canonical form and a terminator, within 21 bytes |
| DecimalPrinters.Sdsll2str | hiredis/sds.c:432-461 | the same for signed numbers, including the most negative one, which has no positive counterpart |
| DecimalPrinters.PutDigits | r3c/utils.cpp:875-893 | writing two digits at a time from the pair table, right to left, produces the digits of the number |
| DecimalPrinters.Ll2string | r3c/utils.cpp:845-898 | the canonical form and a terminator are written exactly if they fit in the destination; otherwise 0 is returned and nothing is written |
| DecimalPrinters.PrintThenParse | hiredis/sds.c:432-461 | for every signed 64-bit number either printer followed by the strict parser gives the number back |
| Resp.DeliverGood | hiredis/read.c:237-262 | handing a finished reply to the open aggregates keeps every open aggregate short of its count and the depth within the task stack |
| Resp.StepGood | hiredis/read.c:489-556 | each pass keeps the machine in a good state, and a finished top-level reply leaves it in the initial one |
| Resp.DoubleTestIsRight | hiredis/read.c:287-312 | the test on doubles agrees with strtod's verdict if and only if the text is not a second comma followed by a spelling of infinity, or strtod takes it |
| Resp.ParseReply | hiredis/read.c:264-487 | the grammar consumes at least one byte per reply, which bounds the reader's loop |
| Resp.Step | hiredis/read.c:489-556 | a successful pass strictly shrinks the unread bytes |
| RespTheorems.ItemExtends | hiredis/read.c:346-409 | more input never changes an item that was already decided |
| RespTheorems.StepExtends | hiredis/read.c:489-556 | a pass that succeeded or failed does the same on a longer input |
| RespTheorems.StepResumes | hiredis/read.c:489-556 | a pass that ran out of input can be repeated later from what it kept, the type byte of the item, with the result of an uninterrupted one |
| RespTheorems.RunSplits | hiredis/read.c:618-669 | running on a concatenation is running on the first part and continuing with the second |
| RespTheorems.FeedAllFrom | hiredis/read.c:586-669 | feeding chunk after chunk continues the first run with the concatenated chunks |
| RespTheorems.StuckStaysStuck | hiredis/read.c:618-669 | asking for a reply again without new input changes nothing |
| RespTheorems.ChunkIndependence | hiredis/read.c:586-669 | for every cut of the input into chunks the replies and the final error are those of feeding it at once |
| RespTheorems.MachineParses | hiredis/read.c:411-487 | from any good stack, the machine reads one reply exactly where the grammar finds one and hands it to the aggregates below |
| RespTheorems.MachineParsesMany | hiredis/read.c:237-262 | with an aggregate open, the machine reads the elements it still lacks and completes it |
| RespTheorems.MachineRefinesGrammar | hiredis/read.c:489-556 | on every byte string the machine emits the replies the grammar finds and fails exactly when, and with the error with which, the grammar fails |
| RespTheorems.RoundTrip | hiredis/read.c:264-487 | an encoded reply followed by any bytes is read back as that tree, leaving exactly those bytes; it is refused as too deep exactly when it nests beyond the stack |
| RespTheorems.RoundTripMany | hiredis/read.c:411-487 | the same for the elements of an aggregate |
| RespTheorems.StreamRoundTrip | hiredis/read.c:618-669 | a stream of encoded replies comes back reply by reply and leaves the reader in its initial state |
| RespTheorems.SecondCommaIsRead | hiredis/read.c:301-312 | a concrete reply that is read as a double although strtod takes nothing |
| RespText.LinesRead | hiredis/read.c:316-344 | behind + and - the line is read as it is, behind _ as a nil, behind # as true if it starts with t or T |
| RespText.IntegersRead | hiredis/read.c:269-280 | behind a colon the canonical form of every signed 64-bit number is read as that number |
| RespText.NoNumberIsRefused | hiredis/read.c:346-440 | behind the five markers that announce a number any other line is refused, each with its error |
| RespText.BulksRead | hiredis/read.c:346-409 | behind a dollar, for every 64-bit number: -1 is a nil, a smaller one is refused, any other takes that many bytes and two more |
| RespText.AggregatesRead | hiredis/read.c:411-487 | behind *, % and ~ below the nesting limit: -1 is a nil, a smaller number is refused, any other takes that many elements, twice as many behind % |
| RespText.NilsRead | hiredis/read.c:372-377 | the four ways to write a nil as a count of -1, in bytes |
| RespText.NinthIsRefused | hiredis/read.c:417-422 | with eight aggregates open another one is refused, whatever follows |
| RespText.OtherMarkersAreRefused | hiredis/read.c:489-533 | any byte but the ten markers is refused |
| RespText.UnfinishedLineWaits | hiredis/read.c:264-487 | without the end of the line nothing is decided |
| RespText.DoublesRead | hiredis/read.c:282-312 | behind a comma: the length limit, and what counts as a number, for every line |
| Reader.TreeIsUnique | hiredis/hiredis.c:116-262 | the linked reply objects determine the tree they show |
| Reader.Reader.CreateObject | hiredis/hiredis.c:116-262 | the new object carries the item's type and content, has only empty elements, and is stored in bounds in the element of its parent |
| Reader.Reader.CloseTop | hiredis/read.c:246-253 | a full aggregate becomes a finished object that shows its kind and all its elements in order |
| Reader.Reader.MoveToNextTask | hiredis/read.c:237-262 | the loop over full aggregates does to the task stack and the objects what delivering the reply does to the machine |
| Reader.Reader.ProcessLineItem | hiredis/read.c:264-344 | on its item the pass does what the machine does: integers, doubles, nulls, booleans, errors and statuses |
| Reader.Reader.ProcessBulkItem | hiredis/read.c:346-409 | the same for bulk strings; an incomplete one moves nothing |
| Reader.Reader.TakeBulk | hiredis/read.c:371-406 | a nil or a complete string is taken in one piece, and otherwise nothing |
| Reader.Reader.ProcessAggregateItem | hiredis/read.c:411-487 | the same for arrays, maps and sets, including the nesting limit, the count limit and empty aggregates |
| Reader.Reader.PushTask | hiredis/read.c:459-474 | opening an aggregate, its count narrowed to int, is the machine's push of a frame |
| Reader.Reader.ReadType | hiredis/read.c:489-533 | the type byte is taken once, remembered in the task, and an unknown one fails the reader |
| Reader.Reader.ProcessItem | hiredis/read.c:489-556 | one pass is one step of the machine on the unread bytes, and keeps the task stack in bounds |
| Reader.Reader.Feed | hiredis/read.c:586-616 | the chunk is appended to the unread bytes unless the reader has failed |
| Reader.Reader.ProcessItems | hiredis/read.c:637-641 | the loop terminates and stops where the machine's run stops |
| Reader.Reader.Compact | hiredis/read.c:647-656 | dropping consumed bytes changes neither the unread bytes nor the state |
| Reader.Reader.GetReply | hiredis/read.c:618-669 | one call returns the first reply of the machine's run on the unread bytes as a freshly built object tree, or nothing, or its error, and the rest of the run is still to come |
| Reader.TakeAll | hiredis/read.c:618-669 | draining returns all replies of the run, in order, as separate trees later calls do not touch |
| Reader.ParseChunks | hiredis/read.c:586-669 | however the input is cut, the objects handed out show the replies the grammar finds in the concatenation, and the error is the grammar's |
| Reader.SeekNewline | hiredis/read.c:121-143 | the two nested scans find the first CRLF |
| Command.BulkLen | hiredis/hiredis.c:279-281 | the length formula is the length of the printed bulk |
| Command.PrintArguments | hiredis/hiredis.c:621-631 | the printing loop writes the bulks of the arguments, in order and within bounds |
| Command.IntLength | hiredis/hiredis.c:609-614 | the sum of the formulas, narrowed to int at every addition, is the length of the wire form cut to an int, and the length itself exactly up to 2^31 - 1 |
| Command.TotalLength | hiredis/hiredis.c:557-562 | the sum of the formulas is the length of the wire form |
| Command.Build | hiredis/hiredis.c:616-634 | a command is written exactly if its length and a terminator fit an int, and is refused exactly if the count is negative |
| Command.FormatCommandArgv | hiredis/hiredis.c:599-635 | the buffer holds the wire form of the arguments and a terminator, and the length computed in advance is what is written, exactly if that and the terminator fit an int; when it is refused |
| Command.FormatSdsCommandArgv | hiredis/hiredis.c:546-588 | what the sds variant writes, when its final assertion on the length holds, and that its result is the length cut to an int |
| Command.SdsIsWireIffShort | hiredis/hiredis.c:546-588 | the sds variant writes the wire form if and only if every argument is shorter than 2^32 bytes |
| Command.FormattersAgreeIff | hiredis/hiredis.c:546-635 | the two formatters write the same command if and only if its length and a terminator fit an int |
| Command.OnlySdsWrites | hiredis/hiredis.c:599-635 | one argument of 2^31 bytes is written by the sds variant and refused by the other |
| Command.WireIsEncoding | hiredis/hiredis.c:599-635 | the wire form of the arguments is the protocol encoding of an array of bulk strings |
| Command.FormatParseRoundTrip | hiredis/hiredis.c:599-635 | reading a formatted command yields exactly the array of its arguments, for arbitrary binary arguments, and leaves what follows it; for the grammar and for the machine |
| Command.ScanFormat | hiredis/hiredis.c:304-490 | the scan over the format splits it at literal spaces only and counts the bytes needed, in an int |
| Command.FormatCommand | hiredis/hiredis.c:283-524 | the command built from a format and its values is the wire form of the format's words, exactly if that and a terminator fit an int; when it is refused |
| Command.BinaryFormatKeepsValues | hiredis/hiredis.c:304-490 | n conversions `%b` separated by spaces give exactly the n values as arguments, whatever bytes they hold, empty ones included |
| FormatText.FormatReads | hiredis/hiredis.c:304-490 | for every format of plain bytes, `%s`, `%b` and `%%`, with any spaces before, between and behind its words: the arguments are those words, put together from their parts |
| FormatText.PercentAtEnd | hiredis/hiredis.c:304-306 | a percent sign at the end of a format is an ordinary byte |
| Command.NextIsBulk | hiredis/async.c:618-630 | one step of the walk finds where the argument at the cursor starts and its length cut to an int, which is its length exactly below 2^31 bytes |
| Command.WalkReturnsArguments | hiredis/async.c:618-630 | walking a formatted command returns exactly its arguments and then stops, even when they contain dollar signs, CR, LF or NUL, if and only if each is shorter than 2^31 bytes |
| Classify.KindIsThatOfArguments | hiredis/async.c:655-690 | a formatted command is taken for a subscription, an unsubscription or MONITOR exactly if its first argument, in any case and perhaps behind a p, is that name or begins with it and CRLF, a subscription only if there are further arguments; and the assertion on its first argument holds |
| Classify.ChannelsAreArguments | hiredis/async.c:664-680 | the channels walked over are exactly the arguments behind the first, if and only if each is shorter than 2^31 bytes |
| CallbackList.CallbackList.Push | hiredis/async.c:214-234 | the callback is appended to the queue |
| CallbackList.CallbackList.Shift | hiredis/async.c:236-250 | the oldest callback is removed and returned, or the queue is empty |
| CallbackList.CallbackList.HeadTells | hiredis/async.c:236-250 | the head pointer is null exactly if the queue is empty |
| Script.ObeysCommand | hiredis/async.c:645-653 | a command adds its callback and its bytes exactly if nothing has closed the connection before |
| Script.ObeysClosing | hiredis/async.c:310-359 | a disconnect, a free or an error closes it, and changes neither callbacks nor bytes |
| Script.PlayedNext | hiredis/async.c:252-260 | the k-th call of a user function does what the k-th entry of the program says |
| Script.FlagsTell | hiredis/async.c:310-359 | the closing and freeing flags of a context are set exactly if somebody asked for it, or the engine closed the connection |
| Async.ExactlyOnceInOrder | hiredis/async.c:252-347 | when nothing is pending, each accepted command with a callback was called back exactly once, one without never, in the order of acceptance, the k-th with the k-th reply or none |
| Async.SoundConsume | hiredis/async.c:421-499 | taking the oldest callback for the next reply, or for none, keeps the queue and the log in step |
| Async.AsyncContext.AsyncCommand | hiredis/async.c:635-713 | a regular command is refused while disconnecting or freeing; otherwise its callback joins the queue and its bytes the output buffer |
| Async.AsyncContext.RunCallback | hiredis/async.c:252-260 | the user function is called once and does what the program says; what it issues is accepted up to its first disconnect or free, and nothing else changes |
| Async.AsyncContext.FreeNow | hiredis/async.c:262-307 | every pending callback runs once with no reply, then the context is gone |
| Async.AsyncContext.AsyncFree | hiredis/async.c:310-315 | inside a callback freeing is deferred, outside it happens at once |
| Async.AsyncContext.DisconnectNow | hiredis/async.c:318-347 | a clean disconnect with callbacks pending fails the assertion; an error makes later commands refused; the context is freed unless it is not to be |
| Async.AsyncContext.AsyncDisconnect | hiredis/async.c:351-359 | a disconnect is immediate only if nothing is pending and no callback is running |
| Async.AsyncContext.HandleReply | hiredis/async.c:444-489 | a reply goes to the oldest callback; without one an error reply closes the connection and any other fails the assertion |
| Async.AsyncContext.ProcessCallbacks | hiredis/async.c:421-499 | all replies that have arrived are dispatched in order; it ends when a callback freed the context, on an error with its code, or when no reply is left, and then a requested disconnect is carried out exactly if nothing is left to send or to answer |
| Async.AsyncContext.NoReply | hiredis/async.c:427-443 | with no further reply: the reader's failure becomes an error and ends the connection, and a requested disconnect is carried out |
| Async.AsyncContext.Surplus | hiredis/async.c:446-474 | a reply without a callback closes the connection if it is an error and fails the assertion otherwise |
| Async.AsyncContext.Answer | hiredis/async.c:476-489 | the callback of a reply runs once; if it asked for the context to be freed the teardown follows and no further reply is handed out |
| Async.AsyncContext.HandleConnect | hiredis/async.c:504-521 | a completed connection changes nothing else, one in progress nothing at all, and a refused one tears the context down with an error |
| Async.AsyncContext.HandleRead | hiredis/async.c:523-548 | the bytes received are taken in exactly if the connection is made and without an error, all replies they complete are dispatched, end of file and failure set their error, and nothing is sent |
| Async.AsyncContext.HandleWrite | hiredis/async.c:553-583 | what the socket takes is moved from the front of the buffer to the sent bytes; the assertion fails exactly for a would-block write with callbacks pending and no error |
| Async.AsyncContext.HandleTimeout | hiredis/async.c:588-613 | an idle connected context is left exactly as it was; otherwise the timeout is recorded unless there is an error already, every pending callback runs without a reply, and no assertion fails |
| Async.Handle | hiredis/async.c:310-713 | one event changes what can be told of the context as its kind prescribes: the user's deeds, the bytes received and sent, the error, the callbacks pending, exactly when it is freed and when an assertion fails |
| Async.FailsExactly | hiredis/async.c:310-713 | an event fails an assertion if and only if it is a write that would block with bytes to send, callbacks pending and no error, or a read after which a reply, not an error, has no command |
| Async.ReadCarriesOut | hiredis/async.c:421-499 | after a read without an error the context is freed if somebody asked for that, and if a disconnect was asked for and nothing is left to send or to answer; and otherwise it is not |
| Async.RecordTells | hiredis/async.c:310-713 | over a run the user's deeds are those of the events, in order, and the bytes received are the chunks delivered while the connection was made and without an error |
| Async.WouldBlockAborts | hiredis/async.c:553-569 | a run of one command and a first write that would block ends in the failed assertion |
| Async.FreeIsForgotten | hiredis/async.c:588-613 | a run in which a callback asks for the context to be freed and it is not |
| Async.Drive | hiredis/async.c:214-713 | over every sequence of calls and socket events: every event is handled in turn with its prescribed effect until the context ends, the commands accepted are those issued before anything closed the connection, callbacks do what the program says, sent and buffered bytes are those of the accepted commands, the replies dispatched are the first the grammar finds in the bytes received, and all of them while there is no error, an assertion fails exactly when the last event handled is a write that blocks with callbacks pending or a read that brings a reply nobody asked for, a callback that asks for the context to be freed is the last one to get a reply and the context is then gone but for the case described above, errors of the protocol are those of the grammar, and once the context is freed every accepted command was called back exactly once and in order |
| PubSub.Context.Command | hiredis/async.c:655-706 | the two dictionaries, the flag and the two queues change as the client of the protocol does when it sends, regular commands while subscribed included |
| PubSub.Context.Dispatch | hiredis/async.c:361-499 | the same for a received reply, to whom it is given, and when the connection is closed or an assertion fails |
| PubSub.AskKeeps | hiredis/async.c:655-706 | sending keeps the invariant, and what the client may send is not refused, regular commands while subscribed included |
| PubSub.ServeKeeps | hiredis/async.c:361-419 | the server's processing of a request keeps the invariant |
| PubSub.PublishKeeps | hiredis/async.c:361-419 | a published message for a subscribed channel keeps the invariant |
| PubSub.DeliverKeeps | hiredis/async.c:361-499 | receiving keeps the invariant and finds the addressee: the answer to a regular command that command, whether it was sent before or while subscribed, everything else the entry of its channel |
| PubSub.EveryStateAgrees | hiredis/async.c:361-419 | the invariant holds in every state of every run |
| PubSub.TableAgreement | hiredis/async.c:361-499 | in every reachable state the pending count of each channel is the number of its unconfirmed subscribes, a pipelined re-subscribe keeps its entry, every reply and message is given to its addressee, and an error that answers a command sent while subscribed closes the connection |
| PubSub.AgreementWhenQuiet | hiredis/async.c:361-419 | with nothing in flight the table, the server's set and the client's wishes coincide, nothing is pending, and the flag tells whether the set is empty |
| PubSub.LateRegularFails | hiredis/async.c:470-475 | from every state in which every channel has been asked to be left and the flag is still set, a regular command sent then leads to the failed assertion |
| Hashing.MaskIsMod | hiredis/dict.c:249 | masking with a power of two less one is the remainder |
| Hashing.HashIsPolynomial | hiredis/dict.c:54-60 | the hash of a key is the polynomial in 33 with its bytes as coefficients, to 32 bits |
| Hashing.BucketInRange | hiredis/dict.c:321-338 | the masked hash is an index of the table |
| Dict.Dict.Find | hiredis/dict.c:244-257 | the entry of the key is found exactly if the map has it, with the map's value |
| Dict.Dict.Add | hiredis/dict.c:136-155 | a new key is added, an existing one refused, as in a map; other keys are untouched |
| Dict.Dict.Replace | hiredis/dict.c:161-180 | the key gets the value whether or not it was there, and the result tells which |
| Dict.Dict.Delete | hiredis/dict.c:183-211 | the key is removed exactly if it was there |
| Dict.Dict.Unlink | hiredis/dict.c:190-205 | taking an entry out of its list leaves the other entries linked in order |
| Dict.Dict.Expand | hiredis/dict.c:89-133 | relinking every entry into the new buckets keeps the map, and the size is the least power of two that is large enough |
| Dict.Dict.MoveOne | hiredis/dict.c:114-127 | moving one entry keeps every other entry in exactly one list |
| Dict.Dict.ExpandIfNeeded | hiredis/dict.c:296-304 | afterwards there is room for one more entry and the map is unchanged; an empty table gets four buckets, a full one twice as many, any other keeps its size |
| Dict.Dict.KeyIndex | hiredis/dict.c:321-338 | the bucket of a new key, or none if the key exists |
| Dict.NextPower | hiredis/dict.c:307-316 | the smallest power of two that is at least the size and at least the initial size |
| Dict.RunAll | hiredis/dict.c:136-257 | any run of add, replace, delete and find, however long, answers as a finite map does and leaves the same map, as long as the table never holds 2^31 keys |
| Dict.DictIterator.Next | hiredis/dict.c:269-287 | the next entry is one not yet visited, and only that one leaves the set to visit |
| Dict.DeleteBehindIterator | hiredis/dict.c:269-287 | deleting the entry returned last takes nothing else out of the set to visit |
| Dict.VisitAll | hiredis/dict.c:259-287 | a walk returns every entry exactly once, even when any of the entries returned are deleted on the way, and exactly those are gone |
| Sds.Sds.constructor | hiredis/sds.c:81-135 | a new string holds the bytes given, in the smallest header, and never an empty one in the smallest type |
| Sds.HeadersBySize | hiredis/sds.c:57-75 | up to which sizes each header type is chosen, and the ranges of its fields |
| Sds.Sds.SetLen | hiredis/sds.h:132-154 | the length is stored as the header's field truncates it |
| Sds.Sds.SetType | hiredis/sds.c:233-238 | the new header byte and length field give the type and the length |
| Sds.Sds.Resize | hiredis/sds.c:221-240 | a change of header or allocation keeps the text and its terminator |
| Sds.Sds.MakeRoomFor | hiredis/sds.c:194-241 | the requested room is there, the text is unchanged; what is allocated is twice what is needed, or a mebibyte more, and the header is the smallest that holds it but never of the smallest type |
| Sds.Sds.RemoveFreeSpace | hiredis/sds.c:248-273 | no free space is left and the text is unchanged |
| Sds.Sds.CatLen | hiredis/sds.c:379-388 | the bytes are appended to the text |
| Sds.Sds.CpyLen | hiredis/sds.c:408-417 | the text is replaced by the bytes |
| Sds.Sds.Clear | hiredis/sds.c:183-186 | the text is empty and the buffer kept |
| Sds.Sds.Range | hiredis/sds.c:723-749 | the text becomes the range of positions asked for |
| Sds.Bounds | hiredis/sds.c:723-746 | the index arithmetic selects exactly that range |
| Sds.RangeKeeps | hiredis/sds.c:704-746 | a byte is kept, and at the right place, exactly if its position lies between the two ends, counted from the end of the string when negative, or is 0 when the second end lies before the beginning |
| Sds.RangeDrops | hiredis/hiredis.c:907 | the range from n to -1 drops the first n bytes |
| Sds.Run | hiredis/sds.c:81-417 | any run of operations, up to the widest header, keeps length within allocation, allocation within the header's width, a terminator behind the text, and the text equal to the plain byte sequence |
| Sds.BufferWrite | hiredis/hiredis.c:890-913 | what was sent followed by what is left is what was buffered, for any partial write |
| Sds.Transmit | hiredis/hiredis.c:890-976 | under any mix of appends and partial writes, over any length of time, bytes sent and then bytes buffered are the commands appended; only what is buffered at one moment has to fit an int |
| Quote.CatRepr | hiredis/sds.c:867-890 | the loop appends the quoted form |
| Quote.SplitArgs | hiredis/sds.c:942-1058 | the pointer-walking loops compute the recursive splitter, including its refusals |
| Quote.ScanToken | hiredis/sds.c:950-1032 | the inner loop with its quoting flags scans one token |
| Quote.EscapeRound | hiredis/sds.c:960-986 | an escaped byte is read back as that byte whatever follows it |
| Quote.QuotedRound | hiredis/sds.c:960-998 | a quoted string is read back whole; it is refused exactly when something other than a blank touches its closing quote |
| Quote.SplitRepr | hiredis/sds.c:942-1058 | a line that starts with a quoted string has it as its first argument, or is refused for the reason above |
| Quote.LayoutRoundTrip | hiredis/sds.c:942-1058 | quoted strings separated by any blanks split into exactly those strings |
| Quote.ReprRoundTrip | hiredis/sds.c:919-941 | printing any list of byte strings joined by spaces and splitting the line gives the list back: empty strings, NULs, quotes and texts that look like escapes included |
| Quote.BytesPrint | hiredis/sds.c:869-887 | what the printer makes of each byte |
| Quote.ReprIsPrintable | hiredis/sds.c:857-864 | a printed string holds printable characters only |
| Quote.HexDigitsMean | hiredis/sds.c:894-917 | which characters are hexadecimal digits, and what they mean, in both cases |
| Quote.HexIsRead | hiredis/sds.c:960-970 | within double quotes two hexadecimal digits behind `\x` are the byte they spell |
| Quote.EscapesAreRead | hiredis/sds.c:971-986 | any other escape is a control character or the byte itself |
| Quote.SingleQuotedRound | hiredis/sds.c:993-1009 | every string without a NUL and without a backslash at its end can be written in single quotes and is read back |
| Quote.BareRound | hiredis/sds.c:1009-1035 | a run of bytes that are neither blank, quote nor NUL is read as it is |
| Quote.OneByteLine | hiredis/sds.c:942-1058 | what a line of one byte splits into, for each byte |
| Sha1Block.LoadIsBigEndian | r3c/sha1.cpp:29-35 | the two rotations and masks turn a little-endian load into the big-endian word of the standard |
| Sha1Block.MacroRolRotates | r3c/sha1.cpp:29 | the macro of shifts is the rotation of the standard, for each distance used |
| Sha1Block.ConstantsAreRoots | r3c/sha1.cpp:45-49 | the four constants are 2^30 times the square roots of 2, 3, 5 and 10 |
| Sha1Block.MacroFIsF | r3c/sha1.cpp:44-48 | the rewritten choice and majority functions are those of the standard, for each of the four round ranges |
| Sha1Block.Fetch | r3c/sha1.cpp:29-38 | the 16-word circular block yields the word of the 80-word schedule, round after round |
| Sha1Block.Five | r3c/sha1.cpp:79-98 | five rounds with rotated variable roles are five rounds of the standard |
| Sha1Block.SHA1Transform | r3c/sha1.cpp:54-110 | one block updates the state as the compression function of section 6.1.2 of FIPS 180-4 |
| Sha1.PadIsWhole | r3c/sha1.cpp:153-190 | the padded message of section 5.1.1 of FIPS 180-4 is a whole number of blocks, with the fewest zeros |
| Sha1.InitialBytes | r3c/sha1.cpp:115-124 | the initial state is the byte pattern of the standard |
| Sha1.DigitsJoin | r3c/sha1.cpp:176-179 | the eight bytes of the length make up the number |
| Sha1.WordBytesJoin | r3c/sha1.cpp:188-191 | the bytes of the digest make up the words of the state |
| Sha1.CounterAdds | r3c/sha1.cpp:133-137 | adding a length to the two 32-bit counters with the carry test keeps them equal to the bit count modulo 2^64 |
| Sha1.CountsExact | r3c/sha1.cpp:133-137 | below 2^64 bits the counters are the exact bit count |
| Sha1.Context.Count | r3c/sha1.cpp:133-138 | the counters advance by the data, and the buffer index is the count of buffered bytes |
| Sha1.Context.Absorb | r3c/sha1.cpp:139-145 | completing the buffered block and compressing whole blocks folds exactly the message so far |
| Sha1.Context.Update | r3c/sha1.cpp:129-148 | after any update the state is the fold over the whole blocks of everything given, and the buffer holds the rest |
| Sha1.CounterBytes | r3c/sha1.cpp:176-179 | the eight bytes taken from the two counters are the big-endian 64-bit count |
| Sha1.Context.PadBlock | r3c/sha1.cpp:181-186 | the padding loop terminates and appends a one bit and exactly the zeros of the standard |
| Sha1.Context.Final | r3c/sha1.cpp:153-195 | the digest is that of everything given to the updates |
| Sha1.DigestPieces | r3c/sha1.cpp:129-195 | for any message in any pieces the digest is that of the one-shot padded message |
| Crc16.TableIsShifts | r3c/utils.cpp:321-354 | each of the 256 table entries is its index after eight shift steps |
| Crc16.TimesIsLinear | r3c/utils.cpp:358-364 | one shift step is linear over GF(2) |
| Crc16.BytesAreBits | r3c/utils.cpp:362 | the table step on a byte is eight steps of the bit-serial register |
| Crc16.DirectDivides | r3c/utils.cpp:310-319 | the bit-serial register computes the remainder of the message times x^16 under long division, plus what its initial contents leave |
| Crc16.Crc16 | r3c/utils.cpp:358-364 | the table loop returns the remainder of the message's polynomial times x^16 divided by x^16 + x^12 + x^5 + 1, for every byte string |
| Crc16.ChecksumCancels | r3c/utils.cpp:358-364 | a message followed by its own checksum leaves remainder zero |
| Cluster.Client.UpdateSlots | r3c/r3c.cpp:5027-5035 | exactly the slots inside the node's segments are given to the node |
| Cluster.Client.AddMasterNode | r3c/r3c.cpp:5163-5177 | the node joins the master table and its id the id table, whether or not it could be connected |
| Cluster.Client.ClearInvalidMasterNodes | r3c/r3c.cpp:5133-5161 | exactly the masters not listed go, with their ids, in whatever order the table is walked |
| Cluster.Client.ClearAndUpdateMasterNodes | r3c/r3c.cpp:5090-5131 | the loop over the listing and the clearing compute the refresh of the three tables, and the live replicas are returned in order |
| Cluster.MastersAreLiveNodes | r3c/r3c.cpp:5090-5161 | after a refresh, from any tables at all, the master table's keys are exactly the listed live masters, and masters already known are kept |
| Cluster.MasterIffListed | r3c/r3c.cpp:5110-5161 | after a refresh, from any tables at all, a node is a master if and only if some entry lists it as a master and not as failed |
| Cluster.ReplicasAreListed | r3c/r3c.cpp:5124-5127 | the replicas returned are the entries listed as a replica and neither as failed nor as a master, each once and in order |
| Cluster.IdsValidIffRepaired | r3c/r3c.cpp:5133-5177 | from any tables at all, every id leads to a present master carrying it afterwards if and only if each dangling entry is given to an added master or goes with a departing one |
| Cluster.DanglingEntrySurvives | r3c/r3c.cpp:5133-5161 | a concrete refresh that leaves a dangling entry dangling |
| Cluster.IdsStayValid | r3c/r3c.cpp:5133-5177 | if every id leads to a present master that was added under it, so it does after a refresh |
| Cluster.EntriesAreListedIff | r3c/r3c.cpp:5133-5177 | after a refresh every entry of the id table names a live master listed with that id if and only if so do the old entries neither given anew nor taken along |
| Cluster.GivenIfAssigned | r3c/r3c.cpp:5105-5123 | an id is given to an added master exactly if some entry of the listing adds a master under it |
| Cluster.LookUpAfter | r3c/r3c.cpp:5452-5464 | for any tables and listing, where an id leads after a refresh |
| Cluster.FoundByListedId | r3c/r3c.cpp:5006-5025 | a listed live master is found by its listed id if and only if no departing master carries the id and the listing gives the id last to this master, or to none and it led there before |
| Cluster.FoundUnlessMovedOrRenamed | r3c/r3c.cpp:5006-5025 | from tables in good order and a listing without repetitions: found if and only if it was neither renamed nor moved |
| Cluster.FoundByIdUnlessMoved | r3c/r3c.cpp:5133-5177 | from complete tables, a present master is found by the id it was added under if and only if no departing master carries the same id |
| Cluster.MovedMasterIsLost | r3c/r3c.cpp:5133-5177 | a concrete refresh after which a present master cannot be found by its id |
| Cluster.RenamedMasterIsLost | r3c/r3c.cpp:5133-5177 | a concrete refresh after which a present master is found by its old id and not by its listed one |
| Cluster.SlotsLeadToMasters | r3c/r3c.cpp:5027-5035 | every slot inside a listed live segment leads to a present master, the last one listed with it, and every other slot is as before |
| Cluster.SlotGoesToLast | r3c/r3c.cpp:5027-5035 | the same in the fields of the listing: the last unfailed master with a segment around the slot gets it, and without one it stays |
| Retry.RunsAreBounded | r3c/r3c.cpp:4535-4706 | whatever the outcomes, a command is tried at most max(2, num_retries) + 2 times, may have run at most num_retries + 1 times, and is never repeated after success |
| RetryRuns.BoundsAreReached | r3c/r3c.cpp:4535-4706 | runs that attain both bounds, for every number of retries |
| Retry.TriedAgain | r3c/r3c.cpp:4607-4688 | after which outcomes, and how often, a command is tried again |
| Retry.AttemptsMeetServers | r3c/r3c.cpp:4537-4603 | an attempt goes to a known master, the first one to the owner of the slot, and what comes back is the server's answer, no connection, or the error of a broken one |
| Retry.CountIsFailures | r3c/r3c.cpp:339-354 | the error count of a master is the number of its failures since it answered last |
| Retry.CountAfter | r3c/r3c.cpp:4714-4857 | what each outcome does to the count: failures add one, MOVED sets 2019, other answers reset it |
| Retry.RefreshIffDue | r3c/r3c.cpp:4697-4705 | between two attempts the other masters are asked for the layout if and only if the count is 6, 9, 12 and so on, or beyond 2018, and the tables are refreshed from what one tells |
| Retry.RefreshAfterFailures | r3c/r3c.cpp:357-360 | with every attempt failing at one master, that is after the sixth, the ninth and every third attempt, and after no other up to number 2018 |
| RetryRuns.FailoverIsNoticed | r3c/r3c.cpp:4697-4705 | a run in which the owner of the slot has died and the seventh attempt reaches the promoted node |
| Retry.NewMastersAreConnected | r3c/r3c.cpp:5163-5177 | a master that a refresh adds has no failures, and a connection exactly if it accepts one |
| Retry.AskIsObeyed | r3c/r3c.cpp:4637-4663 | ASKING is sent exactly behind an ASK refusal, to the address it gave if that is a known master |
| Retry.MovedRefreshes | r3c/r3c.cpp:4697-4705 | a MOVED refusal that is not the end refreshes the tables from what some known master tells, or no master that can be asked tells anything |
| Retry.RefreshedOwnerIsNext | r3c/r3c.cpp:4697-4705 | a refresh that lists an owner of the slot sends the next attempt to the last such owner, without ASKING |
| Retry.BrokenEnds | r3c/r3c.cpp:4769-4785 | an attempt at a master with a stuck connection is the last of its command and fails |
| Retry.StuckAfter | r3c/r3c.cpp:4535-4706 | an attempt leaves a master stuck exactly if it was stuck or is broken by it, and no listing drops it |
| Retry.StuckIff | r3c/r3c.cpp:4535-4706 | over any run a master is stuck afterwards if and only if it was stuck before and every listing keeps it, or some attempt breaks its connection and every listing from then on keeps it |
| Retry.Condemned | r3c/r3c.cpp:4769-4785 | over any commands for any slots, exactly when a master is stuck before a command; and that a command for a slot of a stuck master then fails at once, whatever the servers would answer, and leaves every table as it was |
| RetryRuns.Recovers | r3c/r3c.cpp:5133-5177 | a session in which a stuck master fails a command, commands for another slot drop it and list it again, and the same command then succeeds |
| Retry.IdsKept | r3c/r3c.cpp:5133-5177 | no run of attempts, whatever happens, makes an entry of the id table dangle |
| Retry.Connect | r3c/r3c.cpp:308-322 | a missing connection is tried, and a failure counts as one more error of the node |
| Retry.GetRedisNode | r3c/r3c.cpp:5363-5450 | the node wanted if it is known, any known master otherwise, none if there is none; only its connection changes |
| Retry.HandleReply | r3c/r3c.cpp:4714-4857 | what is to be done for each reply or error, the node's error count afterwards, and whether its connection is left broken |
| Retry.Execute | r3c/r3c.cpp:4590-4633 | a command over a connection: on a broken one nothing is sent and its error is reported again; one with an error of input or output is closed |
| Retry.Try | r3c/r3c.cpp:4537-4633 | one attempt: where it goes, whether behind ASKING, what it meets there, and what becomes of that node and of nothing else |
| Retry.ListClusterNodes | r3c/r3c.cpp:5062-5074 | a master is asked over its connection or a new one; what it tells, and that a failure leaves the connection broken |
| Retry.RefreshMasterNodeTable | r3c/r3c.cpp:5040-5088 | the other masters are asked in some order up to the first that tells the layout, from which the tables are refreshed; if none does, only connections change |
| Retry.Turn | r3c/r3c.cpp:4535-4706 | one turn is an attempt as described, refreshes exactly when the node's errors call for it, and goes on exactly under the conditions of the loop |
| Retry.RedisCommand | r3c/r3c.cpp:4535-4706 | over every behaviour of the servers the loop terminates within the bounds, its log is a run as described, the tables afterwards are those its attempts make, and it succeeds exactly if the last attempt does |
| Retry.RunSession | r3c/r3c.cpp:4535-4706 | commands given one after the other make a session as described |
| RetryRuns.AskGoesElsewhere | r3c/r3c.cpp:5402-5417 | a run in which an ASK to an address outside the table sends the command back to the master that refused it |

## Left out

- Retry.GetRedisNode: an emptied master table makes the source run its cluster initialisation again; here such an attempt ends without a node. Replicas are never chosen (the read policy that uses only masters).
- Retry.RedisCommand: sleeping between attempts, logging, exceptions and the command monitor are not modelled.
- Retry.Connect: what a connection attempt does on the network (timeouts, AUTH, READONLY) is one yes-or-no parameter.
- Cluster.Client.UpdateSlots: segments are required to lie inside the slot table; the source does not check what it parsed.
- Cluster.Client.ClearAndUpdateMasterNodes: the text that lists all nodes, the parsing of CLUSTER NODES, and attaching replicas to masters are not modelled.
- Command.ScanFormat: the conversions delegated to the C library's printf are not modelled; formats use `%s`, `%b`, `%%` and literal text, are complete and match their values. The format is its text before the terminator; one with a NUL inside, which no C string has, is scanned like any other.
- Command.FormatCommand: as for ScanFormat.
- Command.FormatCommandArgv: the variant that takes lengths from strlen is not modelled.
- Reader.SeekNewline: the scan's cursor is an unbounded integer, where the source has an int; it matters only beyond 2^31 unread bytes.
- Reader.Reader.CreateObject: a double is kept as its text; of strtod only the verdict "all of it is a number" is a parameter. Other out-of-memory paths than the element array of an aggregate are not modelled, and arrays beyond the limit parameter are refused as out of memory.
- Reader.Reader.Feed: the capacity of the input buffer and the freeing of an oversized idle one are not modelled.
- Async.AsyncContext.AsyncCommand: commands are those that Classify takes for regular ones; MONITOR is not modelled further, and PubSub starts from subscriptions already told apart. Bytes without any argument, for which the source asserts, are not commands.
- Async.AsyncContext.FreeNow: the callbacks of the subscription tables, those of commands sent while subscribed, and the disconnect callback are not run.
- Async.AsyncContext.HandleReply: the branches for a subscribed or monitoring context are not modelled here; the subscribed one is PubSub.Context.Dispatch.
- Async.AsyncContext.ProcessCallbacks: as for HandleReply.
- Async.AsyncContext.HandleTimeout: the connect callback is not called.
- Async.AsyncContext.RunCallback: what callbacks do is a finite list of actions per call, so runs in which callbacks issue commands forever are not covered. User code does not free the context inside connect or disconnect callbacks, which are not modelled, and neither are event-loop hooks and timers.
- Async.Drive: runs without subscriptions and MONITOR; subscriptions are in PubSub.
- PubSub.TableAgreement: one channel per command, unsubscribes only of what the last command on the channel subscribed, and a server that answers in order.
- PubSub.Context.Dispatch: the answer to a regular command is not an array; an array would be taken for a message.
- Dict.Dict.Expand: tables have at most 2^31 buckets, because the index of a bucket is returned as an int; the same bound is in Add, Replace, ExpandIfNeeded and KeyIndex. Destructors and duplicators of keys and values are not modelled.
- Dict.DictIterator.Next: tables have fewer than 2^31 buckets, because the source casts the size to an int before comparing it with the index.
- Sds.Sds.MakeRoomFor: allocation succeeds, and sizes computed in size_t do not wrap around.
- Sds.Sds.Range: strings and indices fit in an int, as the source's arguments do; the length of a range from 0 to the largest int, one more than an int holds, is not wrapped around. Formatting into strings, trimming, joining and case mapping are not modelled.
- Sha1.Context.Update: each call takes fewer than 2^32 - 63 bytes, beyond which the source's 32-bit sum wraps around. The context is not wiped afterwards.
- Sha1Block.SHA1Transform: the eighty macro lines are folded into sixteen repetitions of their five-line pattern; the machine is little-endian, for which the source is written.
- Decimal.String2ll: r3c has a copy of the same parser (r3c/utils.cpp:913-977), which is not modelled a second time.
- Sockets, TLS, name resolution, the event-loop adapters, crc64, the hexadecimal digest, the per-command wrappers of r3c, and the demonstration programs.
