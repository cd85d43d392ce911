# Verified models of node-rdkafka's protocols and of cpplint's delimiter engine

This project models two groups of code from the node-rdkafka repository and proves what they promise,
for all inputs, all runs and all interleavings.

**The delimiter and nesting engine of `cpplint.py`.** Two bracket matchers walk a file line by line in
opposite directions, carrying a stack and treating `<` and `>` as brackets until later text disproves
it. A third matcher works on one string. `NestingState` keeps checkpoints at `#if` and `#else` lines, and
a cleaning pass blanks multi-line comments in place.

- `Lexical.dfy`: character classes and the look-back tests written as regular expressions in the source.
- `Dyck.dfy`: balanced text as a grammar, and the plain three-bracket matcher in both directions.
- `Lines.dfy`: the joined text of a file and the map between its offsets and (line, column).
- `Forward.dfy`, `Reverse.dfy`, `TextInside.dfy`: the three matchers.
- `AngleLaws.dfy`: what each character does to the two matchers, in plain words, and what an arrow means for a
  whole search.
- `Angles.dfy`: the forward and the backward matcher against each other on angle brackets.
- `Preprocessor.dfy`, `NestingState.dfy`: the checkpoints on values, and the same on heap objects that
  are changed in place and deep-copied.
- `Comments.dfy`: the removal of multi-line comments.

**The protocols of the Kafka wrapper.**

- `DeliveryReports.dfy`: the delivery-report dispatcher as a state machine of threads, and its class.
- `ConsumeBatch.dfy`: the bounded consume loop, the split into two arrays and the merge in JavaScript.
- `Assignments.dfy`: the consumer's assignment list and the ownership of the objects in it.
- `StreamWriter.dfy`: the stream writer that retries when the local queue is full.
- `RefCounter.dfy`, `HighLevelProducer.dfy`: callbacks tied to message ids, and counted polling.
- `OneCall.dfy`: one produce call with serializers of any kind, also those that throw or call back at once.
- `AdminPoll.dfy`: the admin poller's time-out slices and the life of its events.

Code that works step by step is an imperative method or a class whose `ensures` equates the new state
with a specification function of the old one; the theorems are lemmas about those functions. Calls into
librdkafka and libuv are parameters: what a poll finds, whether a call succeeds, what `produce` throws.
Logs (`destroyed`, `deleted`, `callbacks`, `slices`, `attempts`) record what was handed to them.

Where the code and the words around it disagree, the model follows the code:

- `src/kafka-consumer.cc:192-194` says that the list is destroyed or used, but the early returns at lines
  178, 223 and 243 do neither. `Assignments.OwnedOnceExactly` gives the exact condition, and
  `Assignments.DroppedExample` the smallest case that fails.
- `cpplint.py:1440` says that the forward search ignores operator functions. Its look-back at line 1442 stops one
  character early, so it ignores the `>` of `operator >` and not that of `operator>` (`AngleLaws.OperatorCloses`);
  `AngleLaws.ForwardGreater` says exactly which `>` it ignores.
- `lib/producer/high-level-producer.js:73` says that the reference count tells whether there are outgoing
  produces. A call whose serializer failed or whose produce was refused never gives its count back, and
  polling then stays on for good (`HighLevel.EndedPollsOn`; `HighLevel.RefusedPollsOn` is the smallest
  case). `HighLevel.PollsForOutgoing` gives the exact condition for the words to hold, and
  `HighLevel.PollsExactly` what polling means in every case.
- `cpplint.py:1236` takes only comments that go beyond their line. The line `/*/` is taken, and the search
  for the end then stops at that same line. `Comments.StartsAndEnds` shows that no other line does this,
  `Comments.OneLineComment` that the scan closes a comment on its first line only there, and
  `Comments.TextIsLeft` that the text of such a comment stays.

The rest of `Update` is an arbitrary step in the model; `Nesting.NestingState.UpdateStack` lets it change
every block of the stack in place, whatever `cpplint.py:2388-2392` says of the stack. `writev` never calls
its callback for an empty list of chunks, which `StreamWriter.Stream.WriteAll` states.

## Model

| member | source | states |
|---|---|---|
| `Forward.FindEndOfExpressionInLine` | cpplint.py:1387-1462 | the loop with its three kinds of result is the recursive scan of the line, for any start, stack and text |
| `Forward.PopWhile` | cpplint.py:1424-1425 | the inner loop drops exactly the top run of angle brackets |
| `Forward.CloseExpression` | cpplint.py:1465-1506 | the loop over lines returns the line, number and position past the end that the specification `Close` finds, and the number of lines with -1 when it finds none |
| `Forward.CloseIsJoined` | cpplint.py:1465-1506 | matching line by line with a carried stack equals matching once over the joined text with look-back cut at line starts, with the offset mapped back to line and column, for every start bracket that is pushed |
| `Forward.StepIsPlain` | cpplint.py:1402-1459 | with its `<` entries erased, a stack that starts at ( [ { moves on every character exactly as the plain three-bracket matcher does, in success, mismatch and end |
| `Forward.JoinedIsPlain` | cpplint.py:1400-1462 | over a whole text, the matcher with tentative `<` gives the result of the plain matcher, whatever angle brackets, arrows, shifts and semicolons occur |
| `Forward.CloseIsGroup` | cpplint.py:1465-1506 | from ( [ {, the end is past position s if and only if the joined text from the start to s is a bracket pair around text of the balanced grammar |
| `Forward.CloseFails` | cpplint.py:1505-1506 | a search from ( [ { fails if and only if no balanced group starts there |
| `Forward.JoinedIsAngleRun` | cpplint.py:1405-1459 | from open `<` brackets, the stack matcher is a count of open `<` that jumps over balanced groups |
| `Forward.CloseIsAngleRun` | cpplint.py:1488-1506 | a search from a pushed `<` is that count over the joined text, in success and failure |
| `Forward.CloseFromAngle` | cpplint.py:1405-1459 | a successful search from a pushed `<` ends just past a `>`, the text between is balanced in ( [ { } ] ) and no semicolon stands outside those brackets |
| `Lexical.OperatorBeforeForm` | cpplint.py:1413 | the look-back holds exactly of texts that end in the whole word operator and white space |
| `Lexical.SpacedForm` | cpplint.py:1537 | the look-around holds exactly of `>=` between two white-space characters |
| `AngleLaws.ForwardLess` | cpplint.py:1405-1418 | `<` after `<` takes the one before back, `<` after the word operator does nothing, and any other `<` is pushed |
| `AngleLaws.ForwardGreater` | cpplint.py:1437-1451 | `>` after `-`, or one character after the word operator, does nothing; any other closes a `<` on top of the stack and nothing else |
| `AngleLaws.ForwardOther` | cpplint.py:1402-1461 | brackets of the three kinds, a semicolon and all other characters, whatever `<` are open |
| `AngleLaws.ForwardStarts` | cpplint.py:1488-1506 | a search starts at ( [ { and at a `<` that does not begin `<<` or `<=`, and nowhere else |
| `AngleLaws.ShiftLeft` | cpplint.py:1405-1418 | `<<` leaves a nonempty stack as it was |
| `AngleLaws.OperatorCloses` | cpplint.py:1440-1451 | the `>` right after the word operator closes an open `<` |
| `AngleLaws.ArrowsAreNoBrackets` | cpplint.py:1437-1443 | in any file, with any ignored `>` replaced by full stops, every forward search ends as before |
| `AngleLaws.SearchesWithoutArrows` | cpplint.py:1437-1583 | in every file, with the head of each `->` replaced, every forward search ends as before, and so does every backward search that does not start at one |
| `AngleLaws.BackwardGreater` | cpplint.py:1531-1541 | `>` after `-`, in a spaced `>=` or after the word operator does nothing and takes the character before with it; any other is pushed |
| `AngleLaws.BackwardLess` | cpplint.py:1542-1553 | `<<` is passed over, and any other `<` closes a `>` on top of the stack and nothing else |
| `AngleLaws.BackwardOther` | cpplint.py:1528-1581 | brackets, semicolons and all other characters, in the mirror image |
| `AngleLaws.BackwardStarts` | cpplint.py:1603-1621 | a backward search starts at ) ] } and `>`, and nowhere else |
| `AngleLaws.BackwardArrowsAreNoBrackets` | cpplint.py:1531-1541 | in any file, with any ignored `>` replaced by full stops, every backward search that does not start there ends as before |
| `Dyck.RunIsGroup` | cpplint.py:1400-1462 | the plain matcher, run forwards, accepts exactly the bracket pairs around words of the balanced grammar |
| `Dyck.BackRunIsGroup` | cpplint.py:1525-1583 | the plain matcher, run backwards, accepts exactly the same pairs |
| `Lines.CellAt` | cpplint.py:1497-1503 | the map from offsets to line and column inverts the offset of every line and column, and the characters agree |
| `Lines.CellOffset` | cpplint.py:1497-1503 | every offset of the joined text is that of exactly the line and column the map gives, so the two maps are inverse both ways |
| `Reverse.FindStartOfExpressionInLine` | cpplint.py:1509-1583 | the backward loop, with its extra steps over the character before an operator, is the recursive scan |
| `Reverse.ReverseCloseExpression` | cpplint.py:1586-1621 | the loop over lines returns the line, number and position that the specification `Open` finds, and 0 with -1 when it finds none |
| `Reverse.OpenIsJoined` | cpplint.py:1586-1621 | matching backwards line by line equals matching once over the joined text, for every bracket that is pushed |
| `Reverse.SkippedIsPlain` | cpplint.py:1535-1546 | the character skipped by an extra step is never one of ( [ { } ] ) and never a semicolon |
| `Reverse.StepIsPlain` | cpplint.py:1527-1579 | with its `>` entries erased, a stack that starts at ) ] } moves as the plain backward matcher |
| `Reverse.JoinedIsPlain` | cpplint.py:1525-1583 | over a whole text, the backward matcher gives the result of the plain one, the skipped characters included |
| `Reverse.OpenIsGroup` | cpplint.py:1586-1621 | from ) ] }, the start found is s if and only if the joined text between is a balanced group |
| `Reverse.OpenFails` | cpplint.py:1620-1621 | a search from ) ] } fails if and only if no balanced group ends there |
| `Reverse.JoinedIsAngleRun` | cpplint.py:1531-1579 | from open `>` brackets, the backward stack matcher with its skips is a count of open `>` that jumps over balanced groups |
| `Reverse.OpenIsAngleRun` | cpplint.py:1603-1621 | a backward search from a pushed `>` is that count over the joined text, in success and failure |
| `Reverse.OpenFromAngle` | cpplint.py:1531-1579 | a successful backward search from a pushed `>` ends at a `<`, with balanced text and no outer semicolon between |
| `Reverse.CloseAndOpenAreInverse` | cpplint.py:1465-1621 | the forward matcher goes from one position past another if and only if the backward matcher goes back, for all pairs of positions in all files |
| `Reverse.CloseThenOpen` | cpplint.py:1465-1621 | when CloseExpression resolves a ( [ {, ReverseCloseExpression from one before the result returns the start |
| `Reverse.OpenThenClose` | cpplint.py:1465-1621 | when ReverseCloseExpression resolves a ) ] }, CloseExpression from the result returns one past it |
| `Reverse.EveryGroupIsFound` | cpplint.py:1465-1621 | every balanced group of the joined text is found from either end: from the spot of its opening bracket CloseExpression returns one past its closing one, and back |
| `Angles.AnglesAreInverse` | cpplint.py:1400-1583 | from a `<` and a `>` with no operator look-alike on the way, the forward search ends past the `>` if and only if the `<` is a candidate and the backward search ends at the `<` |
| `Angles.ForwardThenBack` | cpplint.py:1405-1459 | on clear text, the backward count passes every place of the forward count at the same depth |
| `Angles.SpacedIsOneWay` | cpplint.py:1535-1541 | without that condition it fails: in `a < b >= c` the forward search closes the `<` and the backward one ignores the `>` |
| `TextInside.GetTextInside` | cpplint.py:4708-4734 | a pattern not found gives None, a match that does not end in an opening bracket fails the assertion, and otherwise the loop over expected closers returns what the recursive scan finds |
| `TextInside.ScanIsRun` | cpplint.py:4721-4732 | stacking expected closers is the plain matcher that stacks openers |
| `TextInside.AgreesWithFindEnd` | cpplint.py:4708-4734 | from the same ( [ {, this matcher and FindEndOfExpressionInLine succeed together on every text, and the result is exactly the text between the bracket and the returned end |
| `Preprocessor.DirectiveForm` | cpplint.py:2341-2360 | white space, a hash, white space, a whole word and anything after it is the directive of that word |
| `Preprocessor.DirectiveHasForm` | cpplint.py:2341-2360 | every line taken for a directive has that form |
| `Preprocessor.Directives` | cpplint.py:2341-2360 | written out: if, ifdef and ifndef, and only these words, begin a conditional; else and elif another branch; endif ends it |
| `Preprocessor.OrdinaryIsText` | cpplint.py:2341-2360 | every line written otherwise is text |
| `Preprocessor.UpdateAsWritten` | cpplint.py:2320-2399 | for every file put together from ordinary lines and conditionals as they are written, nested to any depth, the stack ends as if only the lines outside #else and #elif branches had been there, and pp_stack as it was |
| `Preprocessor.WrittenFile` | cpplint.py:2330-2336 | every such file is well nested and keeps exactly those lines |
| `Preprocessor.TwoHeads` | cpplint.py:2323-2328 | the docstring's example: of the two heads of a struct, only the first counts |
| `Preprocessor.BranchStartsBefore` | cpplint.py:2355-2356 | inside any #else or #elif branch the stack is the one before the #if with the branch's own lines on it, whatever the branches before did |
| `Preprocessor.WellNestedLines` | cpplint.py:2320-2399 | well-nested lines leave pp_stack as it was, and the stack as if only the lines outside #else and #elif branches had been stepped, for every per-line step and from every state |
| `Preprocessor.AnyFile` | cpplint.py:2320-2399 | on any file, stray #else and #endif included, the live stack or the outermost saved one is that of the kept lines alone |
| `Preprocessor.RunFrame` | cpplint.py:2341-2374 | lines that close what they open never touch the checkpoints below |
| `Preprocessor.KeptOfConditional` | cpplint.py:2330-2336 | of a conditional with any number of #else and #elif branches, the kept lines are the #if line, what the first branch keeps, and the #endif line |
| `Preprocessor.KeptAppend` | cpplint.py:2330-2336 | what is kept of two pieces of a file is what is kept of each, given the conditionals open at the seam |
| `Preprocessor.KeptInside` | cpplint.py:2330-2336 | a well-nested piece keeps in a live context what it keeps alone, and nothing in a dead one |
| `Nesting.DeepCopy` | cpplint.py:2344-2356 | the copy is made of new, distinct objects that hold the same values |
| `Nesting.NestingState.OnIf` | cpplint.py:2341-2344 | on heap objects an #if does what it does on values, and keeps all blocks of checkpoints apart from the stack |
| `Nesting.NestingState.PutAway` | cpplint.py:2348-2353 | given new blocks that copy the stack, the first #else saves them in the top checkpoint, and nothing else changes |
| `Nesting.NestingState.Restore` | cpplint.py:2355-2356 | the stack becomes a copy of the one before the #if, which stays saved |
| `Nesting.NestingState.OnElse` | cpplint.py:2345-2359 | first, later and stray #else and #elif lines do on heap objects what they do on values |
| `Nesting.NestingState.OnEndif` | cpplint.py:2360-2374 | an #endif brings back what #else put away, without a copy, and drops the checkpoint |
| `Nesting.NestingState.UpdatePreprocessor` | cpplint.py:2320-2374 | the directive of the line decides between the three, and the value of the state follows the model |
| `Nesting.NestingState.UpdateStack` | cpplint.py:2401-2539 | any step, even one that overwrites every block that stays on the stack, leaves every checkpoint unchanged |
| `Nesting.NestingState.Update` | cpplint.py:2377-2539 | one update on heap objects is one update on values, and every block and checkpoint it adds is a new object |
| `Nesting.NestingState.UpdateLines` | cpplint.py:2377-2539 | updates on all lines of a piece are the run on values; if it is well nested, the checkpoints end as they were and the heap stack holds what the kept lines alone make of it |
| `Nesting.UpdateFile` | cpplint.py:2204-2225 | from a new state over a whole well-nested file, and over every file as written, no checkpoint is left and the heap stack holds what the lines that count alone make |
| `Comments.FindNextMultiLineCommentStart` | cpplint.py:1232-1240 | the first line from the given one on that starts a comment it does not close, or the number of lines |
| `Comments.FindNextMultiLineCommentEnd` | cpplint.py:1243-1249 | the first line from the given one on that ends a comment, or the number of lines |
| `Comments.RemoveMultiLineCommentsFromRange` | cpplint.py:1252-1257 | exactly the lines of the range are blanked |
| `Comments.RemoveMultiLineComments` | cpplint.py:1260-1273 | in place, the lines become those of a two-state scan: comment lines before the first unclosed comment are blanked, all others stay, and the line reported is that comment's |
| `Comments.StartsMeans` | cpplint.py:1235-1238 | a line starts a comment exactly when it is white space, the opening mark and text without the closing mark |
| `Comments.EndsMeans` | cpplint.py:1246 | a line ends a comment exactly when it is some text, the closing mark and white space |
| `Comments.CleanedIs` | cpplint.py:1252-1273 | each line stays, or becomes `/**/` if it is a comment line before the unclosed comment |
| `Comments.CoveredMeans` | cpplint.py:1263-1272 | a comment line is one from a start outside comments up to the first end |
| `Comments.UnclosedMeans` | cpplint.py:1267-1271 | the comment reported starts outside comments and no later line ends it |
| `Comments.StartsAndEnds` | cpplint.py:1235-1246 | a line both starts and ends a comment if and only if, stripped, it is `/*/` |
| `Comments.OneLineComment` | cpplint.py:1263-1273 | outside comments, a comment that starts is closed on its own line if and only if that line is `/*/` |
| `Comments.TextIsLeft` | cpplint.py:1260-1273 | after the line `/*/`, any text that starts no comment stays, and so does the end below it |
| `Comments.CleanedTwice` | cpplint.py:1260-1273 | a second pass changes nothing and reports the same |
| `DeliveryReports.StepKeepsWakeup` | src/callbacks.cc:272-294 | no action of any thread, taken in any reachable state, loses a wakeup |
| `DeliveryReports.StepKeepsOrder` | src/callbacks.cc:278-369 | every action keeps dispatched, in flight and queued reports equal to those added, in order |
| `DeliveryReports.EveryRunFromStart` | src/callbacks.cc:272-369 | in every interleaving of adders and the flusher a nonempty queue has a wakeup pending, being served or promised, reports keep their order, and a batch has at most 100 |
| `DeliveryReports.QuietMeansDelivered` | src/callbacks.cc:442-451 | when nothing is left to do, every report added was dispatched, in order |
| `DeliveryReports.WithoutAddsItStops` | src/callbacks.cc:278-369 | without new reports every schedule stops within a computed number of actions |
| `DeliveryReports.DrainsInBatches` | src/callbacks.cc:287-288 | with no further adds, no adder active and one wakeup pending, n reports drain in exactly ceil(n / 100) flushes on every schedule |
| `DeliveryReports.FlushesAtLeast` | src/callbacks.cc:287-294 | from any state and on any schedule without adds, the queue shrinks by at most 100 for each flush |
| `DeliveryReports.FlushesAtMost` | src/callbacks.cc:366-368 | from any state and on any schedule without adds, there are at most as many flushes as wakeups pending, served or promised, and batches after the first |
| `DeliveryReports.FlushesLetOut` | src/callbacks.cc:287-294 | on every schedule, adds included, k flushes let out at least the first min(size, 100 k) reports |
| `DeliveryReports.FirstInFirstOut` | src/callbacks.cc:278-369 | and those are out in order right after what was out before, so no later report overtakes |
| `DeliveryReports.DrainsWithin` | src/callbacks.cc:278-369 | from any state without a lost wakeup, adders in mid-flight included, everything drains, in at least ceil(n / 100) flushes and at most that bound |
| `DeliveryReports.FlushAlone` | src/callbacks.cc:278-369 | from any state just woken, the steps of one flush lead to the batch dispatched and the loop signalled if reports remain |
| `DeliveryReports.AddAlone` | src/callbacks.cc:442-451 | from any state with a resting thread, its steps lead to the report queued and the loop signalled if the queue was empty |
| `DeliveryReports.DeliveryReportDispatcher.Activate` | src/callbacks.cc:67-74 | activates once, and a second call leaves a pending signal alone |
| `DeliveryReports.DeliveryReportDispatcher.Execute` | src/callbacks.cc:88-92 | signals if and only if active |
| `DeliveryReports.DeliveryReportDispatcher.Push` | src/callbacks.cc:272-276 | appends and returns the size under the lock |
| `DeliveryReports.DeliveryReportDispatcher.DrCb` | src/callbacks.cc:442-451 | without callbacks nothing changes; otherwise the report is queued, and the loop is signalled exactly when the queue was empty; while active this is a run of the state machine |
| `DeliveryReports.DeliveryReportDispatcher.TakeBatch` | src/callbacks.cc:283-294 | takes the first min(size, 100) reports and leaves the others |
| `DeliveryReports.DeliveryReportDispatcher.Flush` | src/callbacks.cc:278-369 | dispatches that batch in order and signals again exactly when reports were left behind; while active this is a run of the state machine from the wakeup on |
| `ConsumeBatch.Consume` | src/kafka-consumer.cc:487-513 | inside a message only no error, partition EOF and the two time-outs escape, so the default arm of the switch is dead |
| `ConsumeBatch.Consumed` | src/kafka-consumer.cc:487-513 | without a connection ERR__STATE, for the four codes the message, and for any other code that code |
| `ConsumeBatch.TimeoutsAre` | src/workers.cc:816-826 | each call waits the given time-out, until a data message and after it an EOF were taken, and 1 from then on |
| `ConsumeBatch.CountIsNumber` | src/workers.cc:839-841 | the count of data messages is the number of messages without an error |
| `ConsumeBatch.KafkaConsumerConsumeNum.Execute` | src/workers.cc:808-858 | the messages are the longest prefix of what arrives before a stop, an error is set only when no data was taken, the time-out drops to 1 once an EOF follows data, and every message object handed over is kept or deleted |
| `ConsumeBatch.ExecutedIsUnique` | src/workers.cc:808-858 | messages, error and time-outs are determined by what arrives |
| `ConsumeBatch.EndsBeforeSilence` | src/workers.cc:814-857 | the loop is over before silence if and only if there is a stop among the polls or data enough |
| `ConsumeBatch.LaterPollsUnseen` | src/workers.cc:814-857 | what would arrive after the loop is over makes no difference |
| `ConsumeBatch.EndsExactly` | src/workers.cc:814-857 | over a feed without end, the loop comes to an end if and only if some poll is not collected or the polls hold the requested number of data messages |
| `ConsumeBatch.EndsOnce` | src/workers.cc:814-857 | over a feed without end there is at most one outcome |
| `ConsumeBatch.AtMostMax` | src/workers.cc:808-858 | what is collected is a prefix of what arrives before the first stop: all of it, or as much as holds exactly the requested number of data messages |
| `ConsumeBatch.ErrorLosesNoData` | src/workers.cc:842-856 | an error is reported if and only if the loop stopped at one with only EOF events collected, and it is the error of the stop |
| `ConsumeBatch.KafkaConsumerConsumeNum.HandleOKCallback` | src/workers.cc:860-910 | every data message is in the one array at the place given by the data messages before it, every EOF in the other with its own topic, partition and offset and the index of the last data message before it, and every message is deleted |
| `ConsumeBatch.KafkaConsumerConsumeNum.HandleErrorCallback` | src/workers.cc:912-927 | reports the error and deletes every message |
| `ConsumeBatch.ConsumeNumCallback` | lib/kafka-consumer.js:505-542 | the loops over the two arrays emit their merge |
| `ConsumeBatch.EmitEofEventsFor` | lib/kafka-consumer.js:519-525 | emits exactly the run of events with the index, and leaves the later ones untouched |
| `ConsumeBatch.SplitThenMerge` | src/workers.cc:860-910 | splitting into two arrays and merging by messageIndex is the identity: every event once, in the order collected |
| `ConsumeBatch.RunWorker` | lib/kafka-consumer.js:505-542 | from end to end, JavaScript emits for each collected message, in order, that message or an EOF with its topic, partition and offset and no index, and calls back with the data messages; on an error it emits nothing and calls back with the error; every message object is deleted exactly once |
| `Assignments.StepConserves` | src/kafka-consumer.cc:177-273 | every call, on any link and with librdkafka succeeding or failing, moves each object handed over to one place |
| `Assignments.RunConserves` | src/kafka-consumer.cc:177-273 | after any calls, the objects in slots, destroyed and dropped are exactly those handed over, with multiplicity |
| `Assignments.OwnedOnceExactly` | src/kafka-consumer.cc:177-273 | every object handed over is in one slot or was destroyed once, if and only if no call with a nonempty list met the missing connection it checks for |
| `Assignments.NeverTwice` | src/kafka-consumer.cc:177-273 | no object is ever destroyed twice, or destroyed while it is in a slot |
| `Assignments.DroppedExample` | src/kafka-consumer.cc:177-180 | an Assign on a disconnected consumer drops its list |
| `Assignments.HoldsTheAssignment` | src/kafka-consumer.cc:177-541 | after any calls the keys held are those of librdkafka's assignment, kept independently: replaced, emptied, added to or reduced by the calls that get through and succeed |
| `Assignments.KeysApart` | src/kafka-consumer.cc:257-258 | two partitions have one key exactly if topic and partition agree |
| `Assignments.UnassignReduces` | src/kafka-consumer.cc:254-270 | what leaves the list is destroyed together with the objects given, and nothing else is |
| `Assignments.RemoveAllIsSurvivors` | src/kafka-consumer.cc:254-266 | the nested loops equal one pass over the list with a budget of keys |
| `Assignments.UnassignIsDifference` | src/kafka-consumer.cc:242-273 | what is left is the truncated multiset difference of keys, in the old order |
| `Assignments.AssignThenUnassign` | src/kafka-consumer.cc:222-273 | incremental assign and then unassign of the same keys, in any order, restores the multiset |
| `Assignments.KafkaConsumer.Destroy` | src/kafka-consumer.cc:192-195 | every object of the list is freed once, in order, and the list is cleared |
| `Assignments.KafkaConsumer.Assign` | src/kafka-consumer.cc:177-198 | on success the list given is held and the old one destroyed, on failure the list given is destroyed, and without a connection neither list is touched; the count is the list's length |
| `Assignments.KafkaConsumer.Unassign` | src/kafka-consumer.cc:200-220 | also while closing, the old list is destroyed exactly on success |
| `Assignments.KafkaConsumer.IncrementalAssign` | src/kafka-consumer.cc:222-240 | appends the list or destroys it, and adds its length to the count |
| `Assignments.KafkaConsumer.EraseFirst` | src/kafka-consumer.cc:256-264 | the inner loop takes out the first slot with the key, if there is one |
| `Assignments.KafkaConsumer.IncrementalUnassign` | src/kafka-consumer.cc:242-273 | on success the keys are reduced by those given and the removed and given objects are destroyed; on failure only the given ones are; without a client nothing is touched |
| `Assignments.KafkaConsumer.RefreshAssignments` | src/kafka-consumer.cc:515-541 | on success the list becomes librdkafka's and the old one is destroyed; otherwise nothing changes |
| `StreamWriter.MessagesAre` | lib/producer-stream.js:232-236 | a buffer goes to the stream's topic with nothing else, and an object as it says |
| `StreamWriter.EndMeaning` | lib/producer-stream.js:228-246 | writing fails with the first fatal error, and is complete exactly when all chunks were accepted before one |
| `StreamWriter.Stream.Writev` | lib/producer-stream.js:200-248 | one call accepts a prefix in order and then fires the callback once, or polls and leaves exactly the rest for the timer |
| `StreamWriter.Stream.WriteAll` | lib/producer-stream.js:217-226 | with every retry, the accepted messages are a prefix of the chunks without a duplicate, and for nonempty chunks the callback fires exactly once, with null exactly when all were accepted and otherwise with the first fatal error; for no chunks it never fires |
| `RefCounting.RunConsistent` | lib/tools/ref-counter.js:32-52 | after any increments and decrements, isRunning holds iff the count is positive, and the two callbacks alternate |
| `RefCounting.RefCounter.Increment` | lib/tools/ref-counter.js:32-40 | counts up and runs onActive only when it was not running |
| `RefCounting.RefCounter.Decrement` | lib/tools/ref-counter.js:45-52 | counts down and runs onPassive only when it was running |
| `HighLevel.OtherCall` | lib/producer/high-level-producer.js:171-257 | a settlement, report or immediate of one call changes nothing of any other call |
| `HighLevel.StepKeepsInvariant` | lib/producer/high-level-producer.js:163-301 | every event keeps every call in one of five phases that fix its closure, attempts, listener, report and answers, and keeps the polling count right |
| `HighLevel.AtMostOnce` | lib/producer/high-level-producer.js:185-241 | in any order of events a call is produced at most once, with the value and key its own serializers gave, and its callback gets at most one answer |
| `HighLevel.AcceptedIsAnswered` | lib/producer/high-level-producer.js:187-200 | an accepted message is unanswered, listening and polled for until its report; then its callback gets exactly one answer, with the error of a report delivered for it and its offset unless negative |
| `HighLevel.StepAttempts` | lib/producer/high-level-producer.js:185-204 | a step adds at most one produce; what it meets decides between a listener and an answer with the error alone |
| `HighLevel.SuppliedIs` | lib/producer/high-level-producer.js:260-289 | what a call was given was returned when it was made, or its own serializer settled with it |
| `HighLevel.FirstRejectionIs` | lib/producer/high-level-producer.js:229-241 | the first rejection is the error of the first step that rejects one of the call's own serializers |
| `HighLevel.FailedIsAnswered` | lib/producer/high-level-producer.js:201-241 | a call that ended without being accepted, its other serializer settled or not, got exactly one answer: the first rejection of its own serializers, or else the error with which its one produce was refused |
| `HighLevel.FailsExactly` | lib/producer/high-level-producer.js:229-241 | in every run, a call has called back on its own account if and only if one of its serializers was rejected |
| `HighLevel.EndedUnlessAccepted` | lib/producer/high-level-producer.js:185-241 | a call whose serializers have both settled has ended, unless its message was accepted |
| `HighLevel.PollsExactly` | lib/producer/high-level-producer.js:107-122 | polling is on if and only if some call has had no report |
| `HighLevel.PollsForOutgoing` | lib/producer/high-level-producer.js:73 | polling stands for outgoing calls if and only if there is an outgoing call or no call ever ended without being accepted |
| `HighLevel.EndedPollsOn` | lib/producer/high-level-producer.js:175-241 | once a call has ended without being accepted, polling is on after every further run |
| `HighLevel.RefusedPollsOn` | lib/producer/high-level-producer.js:175-203 | one refused produce answers with its error and leaves no listener, no immediate, and polling on |
| `HighLevel.RunFromSerializers` | lib/producer/high-level-producer.js:213-227 | whatever a closure holds is what the call's own serializer gave in the course of the run |
| `HighLevel.HighLevelProducer.ModifiedProduce` | lib/producer/high-level-producer.js:163-301 | takes the next message id, counts polling up, stores what the serializers returned, and produces if both are there |
| `HighLevel.HighLevelProducer.ProduceIfCompleted` | lib/producer/high-level-producer.js:206-210 | produces exactly when value and key are both there |
| `HighLevel.HighLevelProducer.DoProduce` | lib/producer/high-level-producer.js:185-204 | listens for the report, or answers with the error that was thrown |
| `HighLevel.HighLevelProducer.FinishSerializedValue` | lib/producer/high-level-producer.js:213-218 | stores the value and goes on, unless the call has failed |
| `HighLevel.HighLevelProducer.FinishSerializedKey` | lib/producer/high-level-producer.js:221-227 | stores the key in any case, and goes on unless the call has failed |
| `HighLevel.HighLevelProducer.FailSerializedValue` | lib/producer/high-level-producer.js:229-234 | only the first failure answers |
| `HighLevel.HighLevelProducer.FailSerializedKey` | lib/producer/high-level-producer.js:236-241 | only the first failure answers |
| `HighLevel.HighLevelProducer.DeliveryReport` | lib/producer/high-level-producer.js:128-132 | a report reaches the listener of its message id, once, counts polling down and queues the answer; other reports do nothing |
| `HighLevel.HighLevelProducer.RunImmediate` | lib/producer/high-level-producer.js:193-197 | immediates run in order and give the callback its answer |
| `OneCall.ModifiedProduce` | lib/producer/high-level-producer.js:259-300 | with serializers that return, call back at once, settle later, throw or give undefined, the branches leave the closure as specified |
| `OneCall.Counts` | lib/producer/high-level-producer.js:179-300 | for any serializers and any order of later turns, the exact number of produces, the exact errors given to the callback in their order, and every produce has the two values given |
| `OneCall.OnceExactly` | lib/producer/high-level-producer.js:179-300 | a call is produced twice if and only if its key comes at once by callback after the value is there; it has exactly one outcome if and only if that is not so, its key serializer does not throw after a failed value, and no undefined is left without a failure |
| `AdminPoll.PollForEvent` | src/admin.cc:171-208 | slices double from the first one and number at most the attempts, polling stops at the first event of the type, that event or null is returned, and every event polled is destroyed once, in order, or returned |
| `AdminPoll.PollMeans` | src/admin.cc:187-207 | each event found is destroyed or returned as often as it was found; a response is the last event found and of the type; without one no event of the type was found; and only the type, or null where type 0 is asked for, ends the polling early |
| `AdminPoll.SlicesMean` | src/admin.cc:176-194 | up to 2000 ms there is one slice, the whole time-out; above, the slices double and fit the time-out |
| `AdminPoll.SlicesFillTimeout` | src/admin.cc:176-194 | for every nonnegative time-out the slices sum to at most the time-out, and all of them fall short by less than 2^attempts - 1, also with fewer attempts than the exact logarithm gives |
| `AdminPoll.FirstSliceIsLong` | src/admin.cc:178-183 | above 2000 ms the first slice is at least 500 ms |
| `AdminPoll.FirstSliceIsShort` | src/admin.cc:178-183 | above 2000 ms, with the exact logarithm, it is at most 1333 ms |

## Left out

- Conversion to and from V8 values, argument checks of NAN methods, configuration parsing and header generation: wrappers over libraries that are not part of this model.
- librdkafka and libuv: contracts only. `uv_async_send` sets a flag that is cleared before the callback starts, and `TopicPartition::destroy` frees every element and clears the vector.
- The style checks of cpplint.py that are regular-expression heuristics, `CleanseRawStrings` and `_CollapseStrings`: no specification beyond the expressions.
- TextInside.GetTextInside: the search for the start pattern (cpplint.py:4709) is a regular-expression search; where its match ends is a parameter.
- Preprocessor.WellNestedLines: the rest of Update (cpplint.py:2401-2539) is an arbitrary function of the line number and the stack; `previous_stack_top`, `_ClassInfo.last_line` and emitted messages look across branches and are not in the state.
- Nesting.DeepCopy: a block is a value in one object, so the copying of nested objects is not shown.
- DeliveryReports.EveryRunFromStart: one dispatcher that stays active with a callback registered; deactivating it while reports are queued, and the payload fields of a report, are not modelled.
- EventDispatcher, RebalanceDispatcher, OffsetCommitDispatcher and MessageWorker: they signal on every add and swap the whole queue, which would add only easier copies of the same protocol.
- ConsumeBatch.KafkaConsumerConsumeNum.Execute: what arrives is a finite list followed by silence, since a method must end. `ConsumeBatch.EndsExactly` says when the loop ends on a feed without end.
- Assignments.KafkaConsumer.Assign: `m_partition_cnt` is taken to start at 0, which the source's constructor does not set; the destructor, which does not free the last list, is not an operation.
- StreamWriter.Stream.WriteAll: the queue is full only finitely often, chunks after a failure are not offered, and exceptions from `poll` or from the user's callback are not modelled.
- HighLevel.AtMostOnce: serializers return defined values or settle exactly once in a later turn, do not throw and do not call back at once. Other serializers are modelled for one call alone (`OneCall.OnceExactly`), where the delivery of what was produced is not. Values are opaque; topic, partition, timestamp and headers pass through unchanged and are not in the state.
- HighLevel.HighLevelProducer.ModifiedProduce: the catch branch for a serializer that throws (lib/producer/high-level-producer.js:295-300) and serializers that call back before they return are in `OneCall.ModifiedProduce`, not here.
- OneCall.ModifiedProduce: a serializer calls back or settles at most once, and does not throw after it has called back.
- AdminPoll.PollForEvent: the floating-point quotient of logarithms is the exact whole part, and integers are unbounded: the doubling after the last poll, which the source computes and never uses, can pass 32 bits.
- The interval timer behind polling, client connect and disconnect timers, and the buffering of the consumer stream.
