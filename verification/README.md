# Verified model of the load clients, gate scripts and sample protocol code

The repository around the AsynGyanis C++ server ships Python load clients, source gates that decide whether a change
may be merged, and C++ samples with hand-written protocol readers. This project models the code in them whose
correctness is not visible from reading one function, and proves what it is for.

* **HTTP/2 load client** (`Bytes`, `Frames`, `ReaderState`, `FrameReaders`, `FlowControl`, `Completion`, `Requests`,
  `Sessions`). The frame reader is a class with a byte buffer, counters and two levels of window credit, proved equal to functions
  on values. It is then composed with a server that obeys sections 5.2 and 6.9 of RFC 9113 and a network that
  delivers octets in arbitrary pieces; requests come in whenever the client sends them. In every reachable state the
  flow-control octets are conserved and no window leaves its range. For every client that sends on once it has been
  answered, the pipelined one among them, the system is never stuck while a body is incomplete, every run is bounded,
  and a run that cannot go on has sent every request and delivered every body. Joined to the send-and-wait loop this
  says that every wait of the loop ends and the loop sends all it was asked for.
* **Source scanners of the gates** (`CommentStripping`, `InlineBraces`, `Declarations`, `FunctionBodies`,
  `CommentBudget`). Loops over text are proved against automata and one-pass forms; the theorems are refinement,
  idempotence, independence of what is skipped, tiling, and an exact description of what is reported.
* **Decisions of the gates** (`Sorting`, `DuplicatePlaces`, `DuplicateScan`, `Ratchet`, `Verdict`). Greedy selection is
  a maximum, a copied block is reported once whatever else is duplicated, the positional ratchet is a statement about
  all thresholds, and the median verdict is monotone and independent of the order of the runs.
* **Wire formats** (`WebSocket`, `HttpResponses`). Decoders written from RFC 6455 and renderers written from RFC 9112
  are the partners of the encoders and readers in the repository.

`Options` and `Sequences` hold what several modules share. Loops of the source are methods with loops here; what they
compute is a function, and the lemmas are about that function. Regular expressions, number parsing and white-space
tests are parameters (`Rules`, `Patterns`, `Library`), so every statement holds whatever they answer, within the stated
assumptions (`Sensible`, `ReadsDecimals`). Digests are modelled by the window they digest, that is, as injective.

## What the proofs found

* `encode_frame` accepts anything `struct` can pack, but only frames with a payload below 2^24 octets and a stream
  identifier below 2^31 come back as they were (`Frames.FrameRoundTrip`, an equivalence).
* `makeClientFrame` writes a 16-bit length whatever the length is: its frames decode to their payload exactly up to
  65535 octets (`WebSocket.ClientFrameRoundTrip`, an equivalence). The Python encoders are right up to 2^63 - 1.
* `readResponse` applies a negative Content-Length to what happens to be buffered, so its result depends on where the
  chunks end, unless so few octets follow the head that nothing is left (`HttpResponses.NegativeLengthRaces`, an
  equivalence).
* On a response cut short the two HTTP readers differ: the whole-buffer parser reports the part of the body it has, the
  chunk reader reports nothing (`HttpResponses.TruncationKeepsEarlier`).
* Whatever a head says about its length, once, several times or never, they agree exactly when the first Content-Length
  and the last take the same number of octets from what has arrived; without any they agree on an empty rest only
  (`HttpResponses.AgreeIff`, `NoLengthAgreeIff`).
* `splitDeclarations` gives what a scan that finishes declarations at closing braces gives exactly when nothing that
  makes a declaration is pending at any closing brace it meets, at whatever depth (`Declarations.LosesNothingIff`, an
  equivalence over every text). The gate's documentation promises every declaration of a public header. Enumerators
  break that, as no semicolon finishes them (`ScopeBodyLost`, `EnumWitness`), and so do members behind a literal with a
  parenthesis, which keeps the depth above 0 (`LiteralWitness`); a braced value in an enumerator is recorded up to the
  brace (`BracedValueKept`, `BracedWitness`). A brace in a literal is taken for the start of a body, so that what stands
  behind it is skipped like one (`BraceLiteralWitness`; what is skipped never matters, `BodyIrrelevant`).
* In CMake files a line of a comment block starts afresh when it opens a bracket comment or follows the end of one. Of
  four adjacent comment lines the fourth escapes the limit of three exactly when that happens among the last three
  (`CommentBudget.EscapesIffRestart`, `CMakePassesIff`), so any number of adjacent lines can pass
  (`CommentBudget.BracketsNeverReported`). Files whose bracket comments stand apart, and shell files, are held to the
  limit exactly (`ApartPassesIff`, `ShellPassesIff`).
* Splitting one long function into two long ones fails the complexity gate unless the record allows more functions over
  the floor than the file had (`Ratchet.SplitFails`); with room in the record a split can pass, and `SplitPassesIff` says
  exactly when (`SplitWithinRecord` is an instance). Shortening or removing functions never turns a pass into a failure
  (`Ratchet.ImprovementPasses`).

## Model

| member | source | states |
|---|---|---|
| Frames.FrameRoundTrip | benchmarks/soak_h2c.py:60-63 | one encoded frame decodes to itself with nothing left over exactly when its length fits 24 bits and its stream identifier 31 (section 4.1 of RFC 9113) |
| Frames.DecodeEncoded | benchmarks/soak_h2c.py:138-147 | what the reader takes off any packable frame, header bits cut off included |
| Frames.StreamRoundTrip | benchmarks/soak_h2c.py:138-147 | concatenated well-formed frames are parsed back in order, in front of whatever follows them |
| Frames.ParseAppend | benchmarks/soak_h2c.py:138-147 | parsing may be interrupted at any octet and resumed with the left-over bytes |
| Frames.LeftoverBound | benchmarks/soak_h2c.py:139-142 | what is left in the buffer is a proper prefix of one frame, below 9 + 2^24 octets |
| ReaderState.CountersMeaning | benchmarks/soak_h2c.py:148-161 | GOAWAY, RST_STREAM, frame and DATA-frame counts and `status_ok` are what the list of frames defines, the last header block winning |
| ReaderState.TallyMeaning | benchmarks/soak_h2c.py:159-171 | `data_length` is the DATA octets of the stream; `end_stream` has exactly the streams whose END_STREAM was seen on DATA or HEADERS |
| ReaderState.ChargeMeaning | benchmarks/soak_h2c.py:162-165 | every DATA octet is charged once to its stream and once to the connection |
| ReaderState.ChunkInvariance | benchmarks/soak_h2c.py:103-115 | however the octets are cut into reads, counters and left-over buffer are those of one parse of them all |
| ReaderState.FeedRests | benchmarks/soak_h2c.py:112-133 | after every successful read no whole frame is buffered and no credit reaches the threshold |
| ReaderState.OwedBound | benchmarks/soak_h2c.py:107-133 | whatever the peer sends, credit after one read stays below 2^31 |
| ReaderState.UpdatesAreLegal | benchmarks/soak_h2c.py:123-133 | every WINDOW_UPDATE is a legal frame with an increment between 4096 and 2^31 - 1 (section 6.9 of RFC 9113) |
| ReaderState.AnswersDecode | benchmarks/soak_h2c.py:134-136 | the octets written back parse as exactly the updates due |
| FrameReaders.FrameReader.constructor | benchmarks/soak_h2c.py:89-101 | a new reader is empty and at rest |
| FrameReaders.FrameReader.FeedMore | benchmarks/soak_h2c.py:103-115 | one read: nothing changes on an empty one; otherwise the whole new state and the octets sent are those of the value-level step |
| FrameReaders.FrameReader.Parse | benchmarks/soak_h2c.py:138-171 | the loop consumes exactly the whole frames of the buffer and books each of them |
| FrameReaders.FrameReader.Record | benchmarks/soak_h2c.py:148-171 | the bookkeeping of one frame: all counters and credits after it |
| FrameReaders.FrameReader.RecordData | benchmarks/soak_h2c.py:159-165 | the DATA branch: lengths and frame counts always, credit only for octets |
| FrameReaders.FrameReader.ReturnConsumedWindow | benchmarks/soak_h2c.py:117-136 | one update per due stream in some order, then the connection's; what is kept back, what is dropped, how many are counted |
| FrameReaders.FrameReader.ReturnStreams | benchmarks/soak_h2c.py:123-130 | the loop over the streams: which get an update, which are kept back, which are dropped |
| FlowControl.ReturningBalances | benchmarks/soak_h2c.py:117-133 | returning moves credit onto the wire: nothing is lost on the connection nor on a stream that may still carry data |
| FlowControl.InitialInvariant | benchmarks/soak_h2c.py:89-101 | the balances hold before anything is sent |
| FlowControl.OpenKeeps | benchmarks/soak_h2c.py:206-211 | a request coming in keeps both balances and every body's account |
| FlowControl.SendKeeps | benchmarks/soak_h2c.py:117-122 | any frame a server may send under section 6.9.1 of RFC 9113 keeps both balances and every body's account |
| FlowControl.ReceiveKeeps | benchmarks/soak_h2c.py:123-136 | so does the server reading a WINDOW_UPDATE |
| FlowControl.DeliverInTransit | benchmarks/soak_h2c.py:103-115 | delivering a chunk moves a prefix of the frames in transit to the client and loses none |
| FlowControl.DeliverCounts | benchmarks/soak_h2c.py:117-171 | what one delivery does to every account of every stream and of the connection |
| FlowControl.DeliverKeeps | benchmarks/soak_h2c.py:103-171 | delivering any chunk in any size keeps the invariant |
| FlowControl.StepKeeps | benchmarks/soak_h2c.py:103-171 | every step of the system keeps the invariant |
| Completion.RunKeeps | benchmarks/soak_h2c.py:103-171 | the invariant holds in every state of every run |
| Completion.WindowsStayInRange | benchmarks/soak_h2c.py:51-53 | in every reachable state: window + in transit + owed + coming back is 65535 for the connection and each open stream, at most that for an ended one, and no window is negative or above it |
| Completion.QuietWindows | benchmarks/soak_h2c.py:51-53 | with nothing in flight every open window is above 65535 - 4096: kept-back credit cannot block the server |
| Completion.NoStall | benchmarks/soak_h2c.py:117-122 | while a body is incomplete some step is possible, under any order of requests that goes on once every request out is answered |
| Completion.PipelineIsPatient | benchmarks/soak_h2c.py:203-221 | the batched client, which waits for the last stream of a full batch, is such an order for every pipeline length |
| Completion.StepDrops | benchmarks/soak_h2c.py:103-171 | every step lowers a measure |
| Completion.RunLength | benchmarks/soak_h2c.py:103-171 | so no run is longer than the measure of its first state |
| Completion.MaximalRunDelivers | benchmarks/soak_h2c.py:117-122 | a run that cannot go on under such an order has delivered every body in full with its END_STREAM, whatever the sizes |
| Completion.CanDeliver | benchmarks/soak_h2c.py:117-122 | from every state that keeps the invariant such a run exists and follows the order |
| Requests.RunOnConnection | benchmarks/soak_h2c.py:199-225 | stream identifiers are 1, 3, 5, ... without gaps; each is recorded once or pending, recorded exactly when a finished round saw it end; where the loop gives up, and that it sends everything exactly when every wait ends |
| Requests.Record | benchmarks/soak_h2c.py:222-225 | recording moves exactly the ended streams from pending to recorded |
| Sessions.BatchesInOrder | benchmarks/soak_h2c.py:203-221 | in every state of a run in the client's order, a request is out only if the last stream of the batch before its own has ended |
| Sessions.SessionCompletes | benchmarks/soak_h2c.py:199-231 | at the end of such a run every wait of the loop has ended, so the loop sends every request; every body is complete; and enough streams have ended for the draining loop to stop |
| CommentStripping.StripByDeleting | scripts/check-duplicate-code.py:65-109 | the deleting loop returns the text without what the automaton marks as comment |
| CommentStripping.StripByMasking | scripts/check-platform-boundary.py:169-217 | the in-place loop returns the text with the same marks overwritten by spaces |
| CommentStripping.DeleteRefinesMask | scripts/check-duplicate-code.py:65-109 | deleting is masking with the masked positions taken out: one automaton, two outputs |
| CommentStripping.MaskKeepsLayout | scripts/check-platform-boundary.py:169-217 | masking keeps the length and every line break's position and writes nothing but spaces |
| CommentStripping.LineCountKept | scripts/check-duplicate-code.py:87-99 | both outputs have the text's line breaks |
| CommentStripping.DeleteIdempotent | scripts/check-duplicate-code.py:65-109 | deleting comments never creates one: twice is once |
| CommentStripping.MaskIdempotent | scripts/check-platform-boundary.py:169-217 | nor does masking |
| CommentStripping.MarksAppend | scripts/check-duplicate-code.py:70-108 | a text that does not end inside a two-character step can be scanned on its own |
| CommentStripping.LineCommentDeleted | scripts/check-duplicate-code.py:73-91 | in code state a line comment goes, its line break stays |
| CommentStripping.BlockCommentDeleted | scripts/check-duplicate-code.py:77-99 | in code state a block comment goes up to the first closer, its line breaks stay |
| CommentStripping.LiteralKept | scripts/check-duplicate-code.py:81-108 | a literal stays whatever it holds, comment openers and escaped quotes included |
| InlineBraces.StripInlineBraces | scripts/check-complexity-baseline.py:63-69 | rewriting to a fixpoint ends and equals one stack pass; closing braces come first in the result |
| InlineBraces.FoldSub | scripts/check-complexity-baseline.py:60-68 | one substitution does not change what the stack pass sees |
| InlineBraces.StableShape | scripts/check-complexity-baseline.py:66-69 | at the fixpoint no closing brace follows an opening one |
| InlineBraces.OnePassKeepsSurplus | scripts/check-complexity-baseline.py:63-69 | the surplus of opening over closing braces is kept |
| InlineBraces.RemovalInvisible | scripts/check-complexity-baseline.py:60-68 | taking out any innermost group anywhere does not change the result |
| InlineBraces.AnyOrderAgrees | scripts/check-complexity-baseline.py:63-69 | groups taken out in any order lead to the same text |
| Declarations.SkipBraceGroup | scripts/check-api-baseline.py:105-118 | the cursor loop stops where the recursive form says |
| Declarations.SkipStops | scripts/check-api-baseline.py:108-118 | one past a closing brace with a balanced body before it, or at the end if there is none |
| Declarations.SkipIsTheGroup | scripts/check-api-baseline.py:105-118 | what is skipped is the brace group at the start, in both directions |
| Declarations.SplitDeclarations | scripts/check-api-baseline.py:89-155 | the loop over six variables computes the scan |
| Declarations.ScanAppend | scripts/check-api-baseline.py:120-150 | a complete prefix can be scanned on its own |
| Declarations.BodyIrrelevant | scripts/check-api-baseline.py:126-133 | a skipped body can be replaced by any balanced text without changing the result |
| Declarations.ScopeTailInvisible | scripts/check-api-baseline.py:134-150 | what a scope body holds behind its last finished declaration, parentheses and brackets included, never reaches the result |
| Declarations.ScanAdds | scripts/check-api-baseline.py:120-155 | the scan only adds declarations behind those it has, whatever these are |
| Declarations.PendingForgotten | scripts/check-api-baseline.py:134-140 | two texts that leave the same depth in front of a closing brace give the same result exactly when they have finished the same declarations |
| Declarations.LosesNothingIff | scripts/check-api-baseline.py:120-155 | the whole text: nothing is lost exactly when at every closing brace the scan meets, at any depth, what is pending makes no declaration |
| Declarations.ScanBeside | scripts/check-api-baseline.py:120-150 | the scan and the one that finishes declarations at closing braces stay at the same point, and the second has more declarations as soon as something was pending |
| Declarations.LostAtClose | scripts/check-api-baseline.py:122-140 | one closing brace: a semicolon in front of it changes the result exactly when it would finish a declaration, which takes depth 0 |
| Declarations.EndsClosed | scripts/check-api-baseline.py:126-140 | behind a closing brace nothing is pending |
| Declarations.ScopeBodyLost | scripts/check-api-baseline.py:126-140 | of a scope whose body has no braces and no semicolon that splits, enumerators without braces for one, only the header is recorded |
| Declarations.BracedValueKept | scripts/check-api-baseline.py:126-140 | a braced value in such a body finishes what stands in front of it; that is recorded, the rest is not |
| Declarations.EnumWitness | scripts/check-api-baseline.py:126-140 | two different enumerations with the same record |
| Declarations.LiteralWitness | scripts/check-api-baseline.py:134-148 | a class that loses both members behind a parenthesis in a literal |
| Declarations.BraceLiteralWitness | scripts/check-api-baseline.py:126-131 | a class whose second member is skipped behind a brace in a literal |
| Declarations.BracedWitness | scripts/check-api-baseline.py:126-140 | an enumeration of which one enumerator is recorded up to its braced value |
| Sorting.SortIsSorted | scripts/check-complexity-baseline.py:202 | `sorted` for a total order: ordered, same elements |
| Sorting.SortedUnique | scripts/check-duplicate-code.py:57 | a sorted list is determined by its elements |
| Sorting.SortKeepsPointwise | benchmarks/check-baseline.py:42-48 | sorting preserves domination position by position |
| Sorting.CountsGiveAhead | scripts/check-complexity-baseline.py:264-269 | counts at every element imply domination by position |
| DuplicatePlaces.CollapsePlaces | scripts/check-duplicate-code.py:54-62 | the loop with its dictionary computes the greedy selection on the sorted places |
| DuplicatePlaces.CollapseKeeps | scripts/check-duplicate-code.py:54-62 | kept places are input places, sorted, a window apart per file, and every place lies within a window behind a kept one |
| DuplicatePlaces.CollapseIsMaximum | scripts/check-duplicate-code.py:54-62 | no selection of places a window apart keeps more places in any one file |
| DuplicatePlaces.CollapseIsMaximumOverall | scripts/check-duplicate-code.py:54-62 | nor does any such selection keep more over all files |
| DuplicatePlaces.CollapseOrderFree | scripts/check-duplicate-code.py:57 | the order of the hits does not matter |
| DuplicatePlaces.CollapseIdempotent | scripts/check-duplicate-code.py:54-62 | collapsing twice is collapsing once |
| DuplicatePlaces.SameGroupIffTranslates | scripts/check-duplicate-code.py:195-198 | two candidates share a grouping key exactly when one is the other moved by a number of lines |
| DuplicatePlaces.CopiedBlockIsOneGroup | scripts/check-duplicate-code.py:180-198 | collapsing commutes with moving, and moved hits share their key |
| DuplicateScan.CollectOccurrences | scripts/check-duplicate-code.py:139-151 | the nested loops collect, for every surviving window, all its places in order and nothing else |
| DuplicateScan.PlacesMeaning | scripts/check-duplicate-code.py:142-151 | the places of a window are exactly where it stands, lines counted from 1 |
| DuplicateScan.SelectCandidates | scripts/check-duplicate-code.py:178-192 | the candidates are the collapsed places in two files or at least 20 lines apart in one |
| DuplicateScan.CandidatesSeparate | scripts/check-duplicate-code.py:178-192 | candidates are sorted, not empty, and no two share a place |
| DuplicateScan.GroupCandidates | scripts/check-duplicate-code.py:194-198 | every candidate is in the group of its key and in no other |
| DuplicateScan.ChooseMember | scripts/check-duplicate-code.py:202-205 | the earliest member and the greatest number of places of a group |
| DuplicateScan.Represent | scripts/check-duplicate-code.py:200-208 | the clusters are the candidates that no member of their group precedes, with their own places and count |
| DuplicateScan.RepresentativeIsUnique | scripts/check-duplicate-code.py:202 | a group has one earliest member, so the order of a group never decides |
| DuplicateScan.OccurrencesUnique | scripts/check-duplicate-code.py:139-151 | the project and the window filter determine what is collected |
| DuplicateScan.Scan | scripts/check-duplicate-code.py:128-210 | the four passes together compute those clusters, and no others |
| DuplicateScan.OneClusterEach | scripts/check-duplicate-code.py:194-208 | every candidate is a translate of one reported cluster, and of one only |
| DuplicateScan.BlockIsOneCluster | scripts/check-duplicate-code.py:139-208 | a block that stands at several places, however long and whatever else is duplicated: its windows are candidates exactly if they survive the filters and the places are kept, and exactly one cluster, or none, stands for all of them |
| DuplicateScan.PairKept | scripts/check-duplicate-code.py:180-186 | two copies are kept exactly when they are in two files or at least 20 lines apart |
| DuplicateScan.CopyIsOneCluster | scripts/check-duplicate-code.py:139-208 | corollary for a project whose only duplication is one block copied once: the gate reports one cluster or none |
| Ratchet.CompareFile | scripts/check-complexity-baseline.py:257-269 | the loop reports the listed violations in order |
| Ratchet.ReportEmpty | scripts/check-complexity-baseline.py:264-269 | no violation: no longer list, and no greater size at any position |
| Ratchet.RatchetIsThresholds | scripts/check-complexity-baseline.py:262-269 | for sorted lists: exactly when no threshold from the floor up has more long functions than recorded |
| Ratchet.PassesIffThresholds | scripts/check-complexity-baseline.py:202-269 | the same about the functions of two versions of a file, in any order |
| Ratchet.RatchetTransitive | scripts/check-complexity-baseline.py:257-269 | the gate is reflexive and transitive |
| Ratchet.ImprovementPasses | scripts/check-complexity-baseline.py:262-269 | removing or shortening a function keeps a pass |
| Ratchet.SplitFails | scripts/check-complexity-baseline.py:267-269 | a long function split into two long ones fails against every record with no more functions over the floor than the file had |
| Ratchet.SplitPassesIff | scripts/check-complexity-baseline.py:262-269 | any split against any record: it passes exactly when every threshold from the floor up has room for the parts |
| Ratchet.SplitWithinRecord | scripts/check-complexity-baseline.py:262-269 | a file below its record whose split passes |
| Ratchet.Gate | scripts/check-complexity-baseline.py:249-285 | the exit code: 2 for nothing measured, 0 exactly when every file is recorded and within its record |
| Verdict.MedianHalves | benchmarks/check-baseline.py:42-48 | at least half of the samples lie on either side of the median |
| Verdict.MedianMonotone | benchmarks/check-baseline.py:42-48 | raising samples never lowers it |
| Verdict.MedianOrderFree | benchmarks/check-baseline.py:42-48 | the order of the samples does not matter |
| Verdict.AccumulateMeasurement | benchmarks/check-baseline.py:51-63 | each run's gauged readings are appended to their samples |
| Verdict.CompareMeasurement | benchmarks/check-baseline.py:119-184 | the violations of one item in order, for sweep, pointwise and latency items |
| Verdict.VerdictMonotone | benchmarks/check-baseline.py:88-184 | better readings never turn a pass into a failure |
| Verdict.VerdictOrderFree | benchmarks/check-baseline.py:51-184 | the order of the measured files does not change the violations |
| WebSocket.ProbeFramesRoundTrip | scripts/h3_acceptance.py:148-178 | both encoders are undone by a decoder that refuses non-minimal lengths, for every payload below 2^63 octets |
| WebSocket.FrameDecodes | scripts/h3_acceptance.py:153-162 | so is any frame with the three length forms and any key (sections 5.2 and 5.3 of RFC 6455) |
| WebSocket.FramesArePrefixFree | scripts/h3_acceptance.py:148-178 | the first frame of a stream is determined by its octets, and masked frames are never confused with unmasked ones |
| WebSocket.StreamDecodes | scripts/h3_acceptance.py:148-178 | the concatenated frames of any list of messages, masked or not, decode to that list |
| WebSocket.StreamSplitsOneWay | scripts/h3_acceptance.py:148-178 | two lists of messages with the same octets are the same list |
| WebSocket.MaskTwice | scripts/h3_acceptance.py:151-152 | masking is its own inverse |
| WebSocket.MakeClientFrame | samples/Net/Http.cpp:264-285 | the loop writes the frame with the sample's key and two length forms |
| WebSocket.ClientFrameRoundTrip | samples/Net/Http.cpp:264-285 | it decodes to its payload exactly up to 65535 octets |
| CommentBudget.ShellCommentIndex | scripts/check-comment-budget.py:79-98 | the first unquoted, unescaped `#` at the start of a word |
| CommentBudget.CMakeCommentIndex | scripts/check-comment-budget.py:146-161 | the first unquoted, unescaped `#` |
| CommentBudget.ShellHeredocTerminator | scripts/check-comment-budget.py:101-143 | the loop finds the here-document the recursive scan finds |
| CommentBudget.HeredocNeedsOperator | scripts/check-comment-budget.py:101-143 | a here-document has its operator before the comment |
| CommentBudget.HeredocLineBreaks | scripts/check-comment-budget.py:259-286 | so the line that opens one ends any block, and the counter is 0 inside |
| CommentBudget.CheckPlain | scripts/check-comment-budget.py:231-295 | the line loop reports exactly the lines the block definition gives |
| CommentBudget.ReportedIffFourTogether | scripts/check-comment-budget.py:290-292 | a line is reported exactly when it and the three before it are lines of one block |
| CommentBudget.ReportsAreExcess | scripts/check-comment-budget.py:249-292 | the number of reports is the sum over the blocks of what they have beyond three, and every counted line is in one block |
| CommentBudget.ShellPassesIff | scripts/check-comment-budget.py:259-295 | a shell file passes exactly when no four counted lines are adjacent |
| CommentBudget.EscapesIffRestart | scripts/check-comment-budget.py:244-281 | the fourth of four adjacent counted lines goes unreported exactly when one of the last three opens a bracket comment or follows the end of one |
| CommentBudget.CMakePassesIff | scripts/check-comment-budget.py:231-295 | a CMake file passes exactly when every four adjacent counted lines have such a restart |
| CommentBudget.ApartPassesIff | scripts/check-comment-budget.py:231-295 | if its bracket comments touch no other counted line it passes exactly when no four counted lines are adjacent |
| CommentBudget.BracketsNeverReported | scripts/check-comment-budget.py:244-281 | for every n there are 3n adjacent comment lines that pass |
| CommentBudget.BracketStartsAfresh | scripts/check-comment-budget.py:273-281 | six adjacent comment lines of two kinds that pass |
| FunctionBodies.CodeOnly | scripts/check-complexity-baseline.py:94-150 | the loop with its set of open modes computes the code of a line, and at most one mode is open |
| FunctionBodies.CodeIsQuoteFree | scripts/check-complexity-baseline.py:94-150 | code is a subsequence of the line without quotes |
| FunctionBodies.CleanLines | scripts/check-complexity-baseline.py:158-163 | the open mode is carried from line to line |
| FunctionBodies.FindBodyEnd | scripts/check-complexity-baseline.py:186-201 | the first line at whose end no brace is open |
| FunctionBodies.BodiesAboveFloor | scripts/check-complexity-baseline.py:153-202 | the scan returns the sizes of the functions over the floor, longest first |
| FunctionBodies.FunctionsTile | scripts/check-complexity-baseline.py:164-201 | functions lie in the file in order without overlap |
| FunctionBodies.ReportedSizesFit | scripts/check-complexity-baseline.py:153-202 | reported sizes add up to at most the lines of the file, so there are at most lines/101 of them |
| HttpResponses.ParseFields | samples/Net/Http.cpp:138-159 | the header loop takes the fields of the head's lines |
| HttpResponses.SplitResponses | samples/Net/Http.cpp:187-202 | the loop over the remaining octets computes the split |
| HttpResponses.ReadResponse | benchmarks/soak.py:198-224 | one response from a buffer and chunks; the result is a function of the octets alone unless the length is negative |
| HttpResponses.NegativeLengthRaces | benchmarks/soak.py:218-224 | exactly when a negative length makes the result depend on the chunks |
| HttpResponses.CppParsesHead | samples/Net/Http.cpp:117-180 | on a well-formed head: status, the announced body or what there is of it, octets consumed |
| HttpResponses.PyParsesHead | benchmarks/soak.py:198-224 | on a well-formed head: status and body, or more octets wanted |
| HttpResponses.BothParseRendered | samples/Net/Http.cpp:117-180 | both readers take exactly one well-formed response off a stream |
| HttpResponses.SplitRecovers | samples/Net/Http.cpp:187-202 | splitting recovers statuses and bodies in order, in front of whatever follows |
| HttpResponses.TruncationKeepsEarlier | samples/Net/Http.cpp:160-202 | cutting the last response leaves the earlier ones; what each reader makes of the cut one |
| HttpResponses.CppParsesAny | samples/Net/Http.cpp:117-180 | on any plain head, whatever its fields say about the length: what is taken, by the first Content-Length |
| HttpResponses.PyParsesAny | benchmarks/soak.py:210-224 | the same for the chunk reader, by the last |
| HttpResponses.AgreeIff | samples/Net/Http.cpp:117-180 | the readers agree exactly when both lengths take the same number of octets from what there is |
| HttpResponses.NoLengthAgreeIff | samples/Net/Http.cpp:163-179 | without a length they agree on an empty rest only |
| HttpResponses.ReadResponses | benchmarks/soak.py:198-224 | repeated chunk reading under any cutting gives the list that splitting the whole stream gives, and leaves the rest unread |

## Left out

- Sockets, threads, time-outs and clocks: a read is an arbitrary non-empty chunk of at most 65536 octets, or none. The
  times in `end_stream` and the latencies themselves are not kept, only which streams have one.
- The order of a Python dictionary: streams with credit are visited in any order (`order`), which covers the actual one.
- The server is an environment written from RFC 9113, not the repository's C++ engine, which is not part of this model:
  it sends DATA on requested unfinished streams only (never on stream 0), frames carry at most 16384 octets, padding
  counts as body, and it does not abort a stream whose body it still owes. Requests reach it one by one; HPACK and the
  octets of the request header blocks are not modelled.
- The wait for the first SETTINGS frame around `run_on_connection`, the final draining loop beyond its stopping condition,
  and the exits on errors of the network.
- Width limits, `is_exempt_comment`'s own text and the Python branch of the comment gate (tokenising, `ast`).
- The regular expressions and SHA-256 themselves; `normalize`, the window filters and the literal-row test enter as one
  predicate on windows. The report of helpers with one name, the samples shown and all files and JSON are left out.
- `filterDeclarations` and the comment and preprocessor patterns of the API gate.
- The counter comparison in `main` of the platform-boundary gate, the dispersion hint of the performance gate, exit
  codes other than the complexity gate's: case distinctions that would only add easy members.
- `headOnly` of `readResponse`, the reason phrase, and bodies without Content-Length beyond what the code does with them.
- Floating point: medians and ratios are real numbers.
- The other samples, the QUIC and HTTP/3 probes, micro-benchmarks and packaging checks.
- Requests.RunOnConnection: what the reader has seen after each round is a parameter, which `Sessions` fills from a run;
  latencies still pending when the loop ends stay pending, as in the code.
