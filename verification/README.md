# Verified model of telegenic

A Dafny model of the logic of *telegenic*, a GenICam / GigE Vision camera
library written in Rust, with machine-checked proofs of what that logic keeps
over every input, every packet order and every run. `dafny verify dfyconfig.toml`
checks the whole project.

Five parts are modelled.

- **The GVSP stream receiver.** Packets without offsets are put together into
  frames. The block size is learned from payload packet 1, earlier data is held
  back, trailers resize the frame, duplicates are dropped by flags. Frames close
  head of line. Late copies are told from a restarted block-id counter by
  fingerprints. Buffers travel between pool, worker and consumers.
  `Gvsp`, `Reassembly`, `Holes` and `Receiver` define the state machine;
  `FrameBuffers.FrameInFlight` and `StreamRunners.StreamRunner` are the same steps
  in place, frames being objects that write into buffers no one else holds.
  `FrameContent`, `ReceiverRuns`, `Provenance` and `HeldBack` prove what a delivered
  frame holds; `Tallies`, `Endings` and `Retention` how frames end and what is counted;
  `Admission` which packets open a frame; `ResendWalk`, `ResendsAsked` and `ResendRuns`
  which packets are asked for again, and when; `Bursts`, `Fingerprinting`, `Streaming`, `Delivery`, `Restart` and
  `RestartRuns` that a device's frames arrive; `Transfers` joins the device's
  packets to the receiver in place.
- **The GVCP control worker and the device.** One transaction in flight, two
  queues in lockstep, chunked operations, a heartbeat that cuts in, retries,
  PENDING_ACKs and shutdown. `Gvcp` and `Worker` define it and
  `ControlRunner.Runner` is it in place; `WorkerRuns`, `Transactions`, `Deadlines` and
  `Failures` prove what every run keeps, when it sends again and why requests fail.
  `Device`, `Chunks`, `Link` and `LinkRuns` join it to the device over two links that
  lose and repeat datagrams; `SmoothRuns` and `Completion` show that on links that lose
  nothing every request is answered; `GigeDevices.GigeDevice` is the device in place;
  `StaleAcks` shows where the protocol's ids run out.
- **Response handles.** Submitting threads, the worker's shutdown and polling
  tasks, interleaved step by step (`Handles`, and `Outcomes` for which result a handle
  gets).
- **The GenICam node graph.** A recursive evaluator over possibly cyclic graphs
  with register caches, invalidators and masked fields (`NodeGraph`, in place in
  `Genicams.Genicam`). `NodeMeaning` says what nodes stand for without stack, caches or
  transfers; `NodeValues` proves that the evaluator computes just that, and `NodeLaws`
  draws the laws of converters, formulas, indexes, addresses and commands from it.
  `BitFields` and `FieldBits` cover the registers' bit fields,
  `Circularity` cycles, `Caching` and `CacheExactness` the caches, `RegisterFields`
  writing and reading back, `AccessModes` access modes.
- **The formula compiler and the archive reader.** Shunting-yard parsing to
  reverse Polish code and a stack machine, against a tree semantics (`Evaluator`,
  `FormulaCompiler`, `FormulaValues`, `ManyNames`), against the grammar (`Precedence`),
  for malformed formulas (`WellFormed`) and down to the integer operators
  (`IntegerOperators`); the PKZIP CRC-32 (section 4.4.7 of PKWARE's
  APPNOTE.TXT), the remainder by its generator polynomial (`Crc`, `CrcPolynomial`), and
  the stored-entry reader that relies on it (`Zip`).

State that the source changes in place is a class whose methods are each proved
equal to one function of the old state; the theorems are about those functions.
Times are integers, sockets and clocks are parameters (`now`, and whether the
socket takes a datagram), the device is a parameter where it is not modelled.

## What the proofs found

- A frame can close as complete and show no data although a payload packet was
  accepted: a trailer with id 1 takes payload packet 1's place, so the block size is
  never learned. `HeldBack.CompleteWithoutData` is such a run.
  `ReceiverRuns.CompleteFrames` gives the exact condition under which a complete
  frame shows its data, in terms of the packets accepted, and
  `Provenance.ShadowedFirst` finds the trailer whenever it does not.
- A restarted device's first frame can be lost. Frames are remembered by what was
  received of them, whatever their status; if frame 1 timed out with none of the
  fingerprinted packets received, nothing can tell the new frame 1 from a copy.
  `RestartRuns.RestartLost` loses it whatever it carries; `Restart.RestartDetected`
  says exactly when a frame is told from copies.
- Transaction ids repeat after 65534 transactions, and both ends compare ids only.
  An acknowledge that is that late completes a request the device never saw:
  `StaleAcks.StaleAckCompletes`. `StaleAcks.ExactRound` shows that 65534 is the
  largest n for which this holds: in every run where one of the latest n
  transactions is always acknowledged, success means carried out.
- Formula variables are numbered with 16 bits. `ManyNames.SlotBound` shows that
  every integer formula with n names is computed rightly if and only if n is at most
  65536; from 65537 on the sum of the names is a wrong one.
- A conditional left unbracketed in the middle of another is grouped differently
  from C: `FormulaCompiler.BareMiddleRegroups` says how, for all operands.
- Caches of registers that share bits and do not invalidate one another do show.
  Two cached entries of one structure lose a write: reading the first, setting the
  second and setting the first puts the second back, and every call succeeds
  (`CacheExactness.WriteLost`). `CacheExactness.CachingExactly` gives the exact
  condition on invalidators, bit by bit, for every graph with constant addresses. It
  is weaker than listing all overlaps: a field that is only read needs no invalidator
  for a field beside it (`CacheExactness.ReadOnlyBeside`).

## Model

| member | source | states |
|---|---|---|
| `Crc.Crc32` | src/genicam/zip.rs:142-152 | the nested bit loop computes the checksum that `CrcPolynomial.ChecksumIsRemainder` characterises |
| `Crc.FoldByte` | src/genicam/zip.rs:144-150 | folding one byte by eight masked shifts is the byte step of the register |
| `CrcPolynomial.PolynomialIsGenerator` | src/genicam/zip.rs:142-152 | the constant of the loop, bits reversed, is the CRC-32 generator x^32 + x^26 + x^23 + x^22 + x^16 + x^12 + x^11 + x^10 + x^8 + x^7 + x^5 + x^4 + x^2 + x + 1 without its highest term |
| `CrcPolynomial.RemainderUnique` | src/genicam/zip.rs:142-152 | a polynomial over two elements has one remainder below degree 32 by the generator |
| `CrcPolynomial.ChecksumIsRemainder` | src/genicam/zip.rs:142-152 | a word is the checksum of a message if and only if, complemented, it is the remainder of the message times x^32, its first 32 bits complemented, by the generator |
| `Crc.WindowDifference` | src/genicam/zip.rs:142-152 | two runs of at most four bytes that end in the same register differ, as words, by exactly what their starting registers differ by |
| `Crc.BurstChangesChecksum` | src/genicam/zip.rs:142-152 | any change confined to four consecutive bytes, at any place in a message of any length, changes the CRC-32; one changed byte is the smallest case |
| `Zip.StoredCorruptionRefused` | src/genicam/zip.rs:18-66 | an archive accepted before is refused for its checksum once up to four consecutive data bytes of its stored entry change that are not also bytes of the directory |
| `Zip.StoredRoundTrip` | src/emulator/mod.rs:634-676 | every description the device packs into its stored archive is extracted again byte for byte |
| `Evaluator.PushOperatorLoop` | src/genicam/evaluator.rs:405-422 | the popping loop leaves the stack and output of the recursive rule for an operator's binding |
| `Evaluator.ParseTokens` | src/genicam/evaluator.rs:123-239 | the token loop is the parser function, whose trees, errors and grouping the rows below give: same code, same variables, same error |
| `Evaluator.Pop` | src/genicam/evaluator.rs:270-274 | popping gives the last value and the rest, or an underflow error on an empty stack |
| `Evaluator.ExecuteOne` | src/genicam/evaluator.rs:276-371 | operands popped one by one give the machine step on the whole stack, errors included |
| `Evaluator.EvalLoop` | src/genicam/evaluator.rs:241-268 | the loop over the code computes the machine's result |
| `FormulaCompiler.ParsePrinted` | src/genicam/evaluator.rs:88-239 | a formula printed with only the brackets it needs parses to exactly its postfix code and its names |
| `Precedence.ParsedByGrammar` | src/genicam/evaluator.rs:88-239 | any text the grammar derives for a tree, its tiers of operators written out, parses to that tree's code, and runs to the tree's value or error |
| `Precedence.OneReading` | src/genicam/evaluator.rs:88-239 | two trees the grammar derives from one text have the same code and the same value |
| `Precedence.BinaryGrouping` | src/genicam/evaluator.rs:88-105 | two binary operators without brackets: the first groups first if its tier is tighter, or the same and not the power's; else the second |
| `Precedence.SignGrouping` | src/genicam/evaluator.rs:88-105 | a sign before an unbracketed binary operation takes its first operand alone |
| `Precedence.ConditionalGrouping` | src/genicam/evaluator.rs:88-105 | a conditional takes a binary operation on its left as its condition and one on its right as its last branch |
| `WellFormed.ParsesExactly` | src/genicam/evaluator.rs:123-239 | any tokens compile if and only if their parentheses match, and are refused for nothing else |
| `WellFormed.EvaluatesExactly` | src/genicam/evaluator.rs:241-274 | any code, its operators never failing, has a value if and only if it leaves exactly one, runs out of operands if and only if some operator finds too few, and is malformed otherwise |
| `FormulaCompiler.RunCode` | src/genicam/evaluator.rs:241-268 | running a formula's postfix code pushes its tree value on any stack, or stops with its error |
| `FormulaCompiler.CompileThenRun` | src/genicam/evaluator.rs:123-268 | print, compile and run give the tree's value or the tree's error, for every tree and every meaning of the operators |
| `FormulaCompiler.CompiledValue` | src/genicam/evaluator.rs:123-268 | with a value for each name in table order the result is the value in that environment |
| `FormulaCompiler.SlotsDistinct` | src/genicam/evaluator.rs:158-168 | distinct names get distinct 16-bit slots if and only if there are at most 65536 |
| `ManyNames.SlotBound` | src/genicam/evaluator.rs:158-168 | all integer formulas with n names are computed rightly if and only if n is at most 65536 |
| `ManyNames.SumWrong` | src/genicam/evaluator.rs:158-168 | the sum of 65537 or more names, compiled and run, gives a wrong value for some values of the names |
| `FormulaCompiler.BareMiddleRegroups` | src/genicam/evaluator.rs:88-105 | an unbracketed conditional in the middle of another is evaluated as the regrouped conditional, for all operands |
| `FormulaValues.IntegerFormula` | src/genicam/evaluator.rs:276-403 | an integer formula compiled and run gives its strict 64-bit wrapping value, and an error if and only if a division or remainder by zero occurs |
| `FormulaValues.TruncatingDivision` | src/genicam/evaluator.rs:276-371 | quotient and remainder are those of division truncating toward zero, for every sign |
| `IntegerOperators.WrappingArithmetic` | src/genicam/evaluator.rs:276-371 | sum, difference, product and negation are the integer ones modulo 2^64 |
| `IntegerOperators.BitwiseOperators` | src/genicam/evaluator.rs:276-371 | and, or and xor act bit by bit on the two's complement words |
| `IntegerOperators.Shifts` | src/genicam/evaluator.rs:276-371 | shifts multiply and divide by powers of two, the count taken modulo 64, right shifts rounding down |
| `IntegerOperators.TruthValues` | src/genicam/evaluator.rs:276-371 | comparisons and logical operators give 1 or 0, as the order of integers and non-zero operands say |
| `IntegerOperators.SignAndMagnitude` | src/genicam/evaluator.rs:276-371 | the magnitude is the number's, wrapped, and times the sign gives the number back |
| `IntegerOperators.Divisions` | src/genicam/evaluator.rs:276-371 | quotient and remainder are the truncated ones; only the least number by -1 does not fit, and wraps |
| `Gvsp.AdvanceOnRing` | src/gige/stream/runner.rs:188-202 | the device counter after any number of steps is its place on the ring that skips 0 |
| `Gvsp.DistanceOfAdvance` | src/gige/stream/runner.rs:188-202 | the signed distance between block ids is the number of counter steps, up to 32767 forward and backward, across the wrap |
| `FrameContent.PacketReliable` | src/gige/stream/runner.rs:601-716 | every packet a frame takes keeps its data either all held or all laid at its blocks' offsets, each id once, through every resize |
| `FrameContent.CompletedData` | src/gige/stream/runner.rs:139-173 | a frame that counts as complete holds its accepted data joined in id order and cut at the payload size if and only if nothing is held back |
| `FrameContent.HeldWithoutBlock` | src/gige/stream/runner.rs:657-683 | data is held back exactly while payload packet 1 is not among the accepted packets |
| `Endings.HeldUpToOnePacketOver` | src/gige/stream/runner.rs:657-669 | in every run a payload packet ahead of packet 1 is taken without fault if and only if it and all accepted so far are at most one packet over the payload size |
| `Holes.Turn` | src/gige/stream/runner.rs:738-770 | one turn of the walk, in place, is one step of the walk that `ResendWalk.AsksForDue` characterises |
| `Holes.RequestsAreHoles` | src/gige/stream/runner.rs:721-777 | every range asked for again is a non-empty run of packets all still missing, counted before the budget is tested, and nothing else of the frame changes |
| `ResendWalk.AsksForDue` | src/gige/stream/runner.rs:721-777 | within the budget the ranges asked for, ascending and apart, hold exactly the packets due: missing, not asked for before, their deadline passed; each packet's new state is given; over the budget nothing is asked for |
| `ResendWalk.StopsOverBudget` | src/gige/stream/runner.rs:721-777 | over the budget the walk stops at the first hole that exceeds it; holes before it are marked requested though nothing is sent |
| `ResendWalk.NotAllowed` | src/gige/stream/runner.rs:721-733 | where resends are off, the frame is barred from them or the packet is beyond its count, nothing is asked for and nothing changes |
| `ResendWalk.BudgetIsFloor` | src/gige/stream/runner.rs:726 | the budget is the whole part of ratio times packets, none for a ratio not above 0 |
| `ResendsAsked.AskedExactly` | src/gige/stream/runner.rs:772-776 | the requests sent for a frame that may ask are for exactly its packets due |
| `ResendsAsked.AskedOnArrival` | src/gige/stream/runner.rs:404-411 | a packet that is taken has everything due behind it asked for |
| `ResendsAsked.AskedOnPass` | src/gige/stream/runner.rs:865-871 | in every run an idle pass asks for everything due in each real frame silent for the packet timeout that may ask and stays open |
| `Admission.GoneEndsResends` | src/gige/stream/runner.rs:351-362 | in every run, once the device reports a packet of a real frame as gone, nothing more is asked for of that frame, whatever comes |
| `ReceiverRuns.DeliveredData` | src/gige/stream/runner.rs:811-841 | in any state the invariant holds of, a frame delivered complete shows its promised data if and only if nothing was held back |
| `ReceiverRuns.StepKeeps` | src/gige/stream/runner.rs:333-558 | every packet, idle pass, dropped frame and shutdown keeps the receiver's invariant |
| `ReceiverRuns.EveryRun` | src/gige/stream/runner.rs:333-981 | the invariant holds after every sequence of events |
| `ReceiverRuns.RunAccounts` | src/gige/stream/runner.rs:505-981 | in every run: free, open and loaned buffers add up to the pool; only the last frame may be provisional; delivery is in opening order; completed, failed and aborted add up to the frames delivered; no request exceeds its frame's budget |
| `ReceiverRuns.CompleteFrames` | src/gige/stream/runner.rs:618-683 | in every run a complete frame shows exactly its accepted data, if and only if payload packet 1 is among the accepted packets or none of them carried data |
| `Provenance.EveryFlagBacked` | src/gige/stream/runner.rs:379-403 | in every run each packet a faultless frame counts as received came while the frame was open, and was its leader, a trailer, or a payload packet it accepted |
| `Provenance.ShadowedFirst` | src/gige/stream/runner.rs:685-716 | when a complete frame does not show its data, a trailer with id 1 came for it while it was open, and payload packet 1 was not accepted |
| `Provenance.LeaderShown` | src/gige/stream/runner.rs:601-612 | in every run a faultless frame that counts its leader as received keeps the data of a leader that came for it while it was open, if that is long enough to be one |
| `Admission.ClassifiedExactly` | src/gige/stream/runner.rs:431-461 | a block is new if and only if it is not within 99 ids behind, or is block 1 and not remembered; a possible replay if and only if it is block 1, behind, and its latest record has fingerprints; late otherwise |
| `Admission.FarBehindIsNew` | src/gige/stream/runner.rs:431-461 | a device counter 100 to 32767 steps behind is taken for a new one |
| `Admission.Latest128` | src/gige/stream/runner.rs:452-461 | the latest 128 closed or dropped blocks are remembered, in order |
| `Admission.OpensOrDrops` | src/gige/stream/runner.rs:463-558 | a packet of a new block drops provisional frames and moves the newest id; it opens a frame, empty, if and only if it tells enough of it and a buffer is free; else no later packet of the block changes anything |
| `Tallies.RunTallies` | src/gige/stream/runner.rs:890-902 | in every run the completed, aborted and failed counters are exactly the delivered frames that ended so |
| `Endings.RunStatuses` | src/gige/stream/runner.rs:811-862 | in every run the status of each delivered frame fits what it held: faults reported, complete or with gaps where all packets came, timed out where not, given up only without resends, aborted only by shutdown |
| `Retention.NothingLingers` | src/gige/stream/runner.rs:811-874 | after every completion check the first real open frame, if any, misses packets and is fresh or is the newest with only its leader in place |
| `Retention.LeaderWaits` | src/gige/stream/runner.rs:851-862 | the newest frame with only its leader in place never times out |
| `Endings.CopiesGo` | src/gige/stream/runner.rs:811-829 | after every completion check each provisional frame left misses packets and is fresh |
| `ResendRuns.EveryRequestMissing` | src/gige/stream/runner.rs:721-777 | in every run each resend request was made by one event, right after which its frame was missing all the packets asked for |
| `HeldBack.CompleteWithoutData` | src/gige/stream/runner.rs:641-716 | four packets after which a frame is delivered complete, with one payload packet accepted and no data shown |
| `Bursts.TakeFills` | src/gige/stream/runner.rs:601-716 | any packet of a burst that has not been taken is taken without fault, whatever was taken before |
| `Bursts.FilledExactly` | src/gige/stream/runner.rs:391-402 | a frame counts all its packets received if and only if the whole burst was taken |
| `Bursts.FilledData` | src/gige/stream/runner.rs:139-173 | a frame filled from a whole burst, in any order, is complete and holds the image byte for byte |
| `Fingerprinting.PrintsRecorded` | src/gige/stream/runner.rs:60-87 | the fingerprints of the packets taken do not depend on their order |
| `Fingerprinting.ContradictsWhenTells` | src/gige/stream/runner.rs:60-87 | a packet contradicts a burst remembered in part if and only if it is one of packets 0 to 3 or the trailer, that one was received then, and it differs |
| `Delivery.AnyOrderDelivers` | src/gige/stream/runner.rs:333-411 | the packets of one burst, in any order with any repeats within the retention time, deliver exactly one frame, complete and byte exact |
| `Delivery.CopyClassified` | src/gige/stream/runner.rs:431-461 | a copy from a frame at most 99 ids back is recognised as late, or as a possible replay of exactly that frame |
| `Delivery.ActFollows` | src/gige/stream/runner.rs:463-558 | each thing the device, network or consumers may do keeps receiver and device in step |
| `Delivery.EveryFrameDelivered` | src/gige/stream/runner.rs:463-558 | they stay in step over every legal sequence |
| `Delivery.StreamDelivered` | src/gige/stream/runner.rs:463-558 | frames sent one after another from any start id, with counter steps of 1 to 32767, and copies mixed in, are delivered once each, in order and byte exact; no copy is; missing_frames is the exact number of skipped ids |
| `Restart.RestartDetected` | src/gige/stream/runner.rs:403-461 | from any state with no open frame and a free buffer, a frame 1 that comes in, in any order with any repeats, is delivered intact and the id sequence continues from it if and only if its id is taken for a new one or one of its packets contradicts the fingerprints remembered; otherwise nothing is delivered |
| `RestartRuns.RestartAfterPart` | src/gige/stream/runner.rs:403-461 | remembered in part, the condition is that one of packets 0 to 3 or the trailer that was received then differs |
| `RestartRuns.StreamRestarts` | src/gige/stream/runner.rs:403-461 | after every legal stream whose frame 1 is at most 99 ids back, a restarted frame 1 is delivered if and only if one of its packets 0 to 3 or its trailer differs |
| `RestartRuns.RestartAfterTimeout` | src/gige/stream/runner.rs:876-883 | after a first frame that timed out with any part received, the restarted frame 1 is delivered if and only if it differs in one of packets 0 to 3 or the trailer received before |
| `RestartRuns.RestartLost` | src/gige/stream/runner.rs:876-883 | after a first frame of which only a later payload packet arrived, the restarted frame 1 is lost whatever it carries |
| `FrameBuffers.FrameInFlight.constructor` | src/gige/stream/runner.rs:530-556 | a frame in flight begins empty, in the claimed buffer as it is |
| `FrameBuffers.FrameInFlight.SetCount` | src/gige/stream/runner.rs:139-143 | resizing keeps the flags of packets that remain |
| `FrameBuffers.FrameInFlight.PlaceData` | src/gige/stream/runner.rs:147-172 | writes the packet's bytes into the buffer at its offset, cut at the capacity, and nothing else |
| `FrameBuffers.FrameInFlight.PlaceAll` | src/gige/stream/runner.rs:672-681 | the loop places held data in order up to the first that does not fit |
| `FrameBuffers.FrameInFlight.Learn` | src/gige/stream/runner.rs:627-639 | payload packet 1 fixes the block size and, before a trailer, the count |
| `FrameBuffers.FrameInFlight.HoldBack` | src/gige/stream/runner.rs:657-669 | earlier data is kept within the buffer's size plus one packet |
| `FrameBuffers.FrameInFlight.TakePayload` | src/gige/stream/runner.rs:618-683 | the whole payload step in place |
| `FrameBuffers.FrameInFlight.TakeLeader` | src/gige/stream/runner.rs:601-612 | the leader step in place |
| `FrameBuffers.FrameInFlight.TakeTrailer` | src/gige/stream/runner.rs:685-716 | the trailer step in place, with its scan for contradicting packets |
| `FrameBuffers.FrameInFlight.Mark` | src/gige/stream/runner.rs:391-402 | flags the packet and advances over all received without a gap |
| `FrameBuffers.FrameInFlight.Take` | src/gige/stream/runner.rs:379-403 | one packet taken into the buffer is the reassembly function |
| `FrameBuffers.FrameInFlight.FindHoles` | src/gige/stream/runner.rs:721-777 | the loop over the holes arms, counts and collects as the walk of `ResendWalk.AsksForDue` |
| `StreamRunners.StreamRunner.constructor` | src/gige/stream/frame.rs:43-53 | a new receiver has all its buffers, each its own, in the pool |
| `StreamRunners.StreamRunner.GiveBack` | src/gige/stream/frame.rs:85-91 | a returned buffer goes back to the bounded pool |
| `StreamRunners.StreamRunner.Close` | src/gige/stream/runner.rs:876-961 | closing hands the frame and its buffer over, remembers and counts it |
| `StreamRunners.StreamRunner.Discard` | src/gige/stream/runner.rs:965-968 | discarding returns the buffer |
| `StreamRunners.StreamRunner.DiscardProvisionals` | src/gige/stream/runner.rs:970-974 | the loop drops every provisional frame |
| `StreamRunners.StreamRunner.Drop` | src/gige/stream/frame.rs:85-91 | a frame a consumer drops gives its buffer back |
| `StreamRunners.StreamRunner.Open` | src/gige/stream/runner.rs:530-556 | a frame opens in a buffer claimed from the pool, which no one else holds |
| `StreamRunners.StreamRunner.Ask` | src/gige/stream/runner.rs:721-777 | the frame walks its holes in place and the loop sends one request per hole |
| `StreamRunners.StreamRunner.CheckFrames` | src/gige/stream/runner.rs:811-874 | the loop closes frames head of line as the completion function does |
| `StreamRunners.StreamRunner.Flush` | src/gige/stream/runner.rs:976-981 | shutdown drops provisional frames and delivers the rest aborted |
| `StreamRunners.StreamRunner.Recall` | src/gige/stream/runner.rs:435-439 | the backward search finds the latest closed block of that id |
| `StreamRunners.StreamRunner.FindOrOpen` | src/gige/stream/runner.rs:463-558 | routes a packet to its frame, opens one or drops it |
| `StreamRunners.StreamRunner.Fill` | src/gige/stream/runner.rs:379-403 | a packet goes into its frame's own buffer; every other frame and buffer is as it was |
| `StreamRunners.StreamRunner.TakeAt` | src/gige/stream/runner.rs:345-411 | a routed packet in place |
| `StreamRunners.StreamRunner.Receive` | src/gige/stream/runner.rs:333-411 | one datagram in place is one step of the state machine; no buffer is ever in two places, and none lent to a consumer is written |
| `GigeDevices.FramePackets` | src/emulator/mod.rs:288-303 | the packets of a frame are, position by position, those of the burst of its image at the negotiated block size |
| `Transfers.Transfer` | src/emulator/mod.rs:288-303 | the packets the device cuts an image into, received in place in any order with repeats within the retention time, deliver exactly one frame: complete and the image byte for byte |
| `GigeDevices.LeaderReassembled` | src/emulator/mod.rs:605-618 | the device's leader announces a payload type the receiver reassembles |
| `GigeDevices.GigeDevice.WriteBytes` | src/emulator/mod.rs:179-182 | changes exactly the bytes of the range |
| `GigeDevices.GigeDevice.ReadRegisters` | src/emulator/mod.rs:366-385 | the loop gathers the registers' bytes, or refuses at the first address outside |
| `GigeDevices.GigeDevice.WriteRegisters` | src/emulator/mod.rs:387-431 | the loop writes in order, in place, up to the first address outside |
| `GigeDevices.GigeDevice.Carry` | src/emulator/mod.rs:331-364 | carries out a command on the memory array as the execution function does |
| `GigeDevices.GigeDevice.HandleDatagram` | src/emulator/mod.rs:307-329 | a command repeated is answered again and not carried out; any other is carried out and remembered |
| `Gvcp.NextIdCounts` | src/gige/proto/gvcp.rs:50-52 | ids run through 1 to 0xfffe and around |
| `Gvcp.SameId` | src/gige/proto/gvcp.rs:50-52 | two transactions less than a round of ids apart have different ids |
| `WorkerRuns.AnsweredServes` | src/gige/runner.rs:310-409 | an acknowledge is refused if and only if its payload lacks what was asked for; else the operation is done with a value of its kind and size, or strictly further with the next chunk to send |
| `WorkerRuns.StepKeeps` | src/gige/runner.rs:257-698 | every step of the worker keeps its invariant; a transaction is begun only when none is in flight |
| `WorkerRuns.EveryRun` | src/gige/runner.rs:186-213 | the invariant holds after every sequence of steps |
| `WorkerRuns.ResolvedInOrder` | src/gige/runner.rs:286-698 | in every run requests are resolved in order of submission, each at most once, with a value of their kind and never by the mismatch arm; the queues stay in lockstep; at most one heartbeat is pending and a queued one is in front; after shutdown every request is resolved |
| `Transactions.IdenticalTries` | src/gige/runner.rs:597-620 | a transaction puts at most retries + 1 datagrams on the wire, all identical |
| `Transactions.TransactionEnds` | src/gige/runner.rs:274-278 | with the worker waking every d, nothing happens to a transaction later than max(120 s, T) + retries (T + d) + d after its first send, however many PENDING_ACKs arrive |
| `Deadlines.SentRetriesPlusOne` | src/gige/runner.rs:597-631 | in every run with a working socket, a passed deadline sends the same datagram again until it was sent exactly retries + 1 times, and then ends the transaction with a timeout, or lost control for the heartbeat |
| `Deadlines.PendingAckExtends` | src/gige/runner.rs:270-278 | in every run a PENDING_ACK moves the deadline to the time it asks for if that is within 120 s of the first send, and never further than that or the deadline before; nothing else changes |
| `Deadlines.HeartbeatDue` | src/gige/runner.rs:633-653 | in every run a due heartbeat goes to the front of the queue unless one is under way, and the next is due a period later; before that nothing changes |
| `Deadlines.HeartbeatSent` | src/gige/runner.rs:517-526 | a queued heartbeat is what the idle worker sends next: a read of the control channel privilege |
| `Failures.OutcomesTell` | src/gige/runner.rs:286-680 | in every run each outcome is true of its step: success, refusal with its command and status, wrong or short answer, last deadline, failed send, end of the worker with or without control |
| `Failures.ControlLostExactly` | src/gige/runner.rs:286-294 | in every run control is lost exactly when the heartbeat is refused, answered without bit 1 of the privilege, or unanswered to the last try; it stays lost |
| `Failures.StopReleases` | src/gige/runner.rs:673-680 | stopping with control sends one more command, under the next id, which leaves the privilege register of the device 0 |
| `Failures.ReadsWholeWords` | src/gige/runner.rs:541-553 | a memory read asks for whole words, at most 512 bytes, as far as the request goes and less than a word further |
| `Failures.PendingTime` | src/gige/proto/gvcp.rs:171-177 | a PENDING_ACK carries its time as the low half of a big-endian word |
| `Failures.RefusesExactly` | src/emulator/mod.rs:331-431 | the device refuses a command if and only if it reaches outside the memory or reads over 512 bytes; other than registers written before, nothing changes then; it answers with the command's kind and id |
| `Device.StoredRounded` | src/emulator/mod.rs:402-408 | only a stream packet size is changed on its way in: rounded down to the largest, flags kept, unchanged if and only if it fits |
| `Device.WriteAllJoins` | src/emulator/mod.rs:387-431 | register writes in several commands leave the memory one command would |
| `Device.RegisterWords` | src/emulator/mod.rs:366-385 | the bytes of several registers read back as their words, in order |
| `Chunks.ChunkCarried` | src/gige/runner.rs:310-397 | an executed chunk is never refused by the worker: it takes its request one chunk further, or completes it with the effect and answer of the request in one step |
| `Chunks.WritesAlike` | src/gige/runner.rs:508-514 | registers written by one concatenated command or one command each leave the same memory, whether all succeed or one is refused |
| `Chunks.ReadsAlike` | src/gige/runner.rs:508-514 | registers read together or one by one give the same words, or are both refused |
| `Chunks.ChunksTile` | src/gige/runner.rs:554-569 | a memory write's chunks tile the data in order: consecutive addresses, at most 512 bytes, all but the last full |
| `LinkRuns.Accepted` | src/gige/runner.rs:257-284 | what the worker accepts answers the transaction in flight, which the device has carried out |
| `LinkRuns.NextKeeps` | src/gige/runner.rs:257-284 | every step of worker, device and links keeps their joint invariant while the worker is current |
| `LinkRuns.OwnAcknowledge` | src/gige/runner.rs:257-284 | in every such run an acknowledge of an earlier request never completes a later one |
| `LinkRuns.AtMostOnce` | src/emulator/mod.rs:307-329 | whatever is lost or repeated, and after any number of transactions, none is carried out twice |
| `LinkRuns.ExactlyOnce` | src/gige/runner.rs:528-620 | every transaction of a request that succeeded was carried out exactly once |
| `LinkRuns.OkMeansPerformed` | src/gige/runner.rs:315-397 | when a request succeeds, the device memory and the answer are what the request means in one step on the memory it found: for every split, short answer, retry, stale acknowledge and heartbeat between chunks, with and without concatenation |
| `SmoothRuns.EverySmoothRun` | src/gige/runner.rs:257-526 | while the links lose nothing, the socket works and no deadline passes, each transaction is one datagram and one answer, and every request that failed was refused by the device |
| `Completion.NotRefused` | src/gige/runner.rs:528-580 | no command of a request inside the device memory is refused, however the reads are cut short |
| `Completion.SucceedsUnlessRefused` | src/gige/runner.rs:286-410 | on such links a request resolved and not refused, of any of the five kinds, succeeded with the answer and the memory of the request in one step |
| `Completion.OneByOne` | src/gige/runner.rs:286-526 | requests inside the memory come out as if performed one by one; once all has arrived all are resolved and the device holds what they leave |
| `Completion.Completes` | src/gige/runner.rs:186-213 | every such run goes on to a point where all has arrived and every request is resolved |
| `StaleAcks.StaleAckCompletes` | src/gige/runner.rs:270-283 | a run in which an acknowledge one round of ids late completes a request the device never carried out |
| `StaleAcks.ExactRound` | src/gige/proto/gvcp.rs:48-52 | success means carried out, in every run where one of the latest n transactions is always acknowledged, if and only if n is at most 65534 |
| `ControlRunner.Runner.constructor` | src/gige/runner.rs:146-172 | a new worker is idle |
| `ControlRunner.Runner.Command` | src/gige/runner.rs:531-580 | slices the next chunk without leaving the operation's data |
| `ControlRunner.Runner.Send` | src/gige/runner.rs:528-595 | begins a transaction, only when none is in flight, or fails the operation |
| `ControlRunner.Runner.Continue` | src/gige/runner.rs:497-504 | the next chunk goes out, or waits behind a heartbeat |
| `ControlRunner.Runner.Pump` | src/gige/runner.rs:517-526 | starts the next operation and keeps the invariant |
| `ControlRunner.Runner.Digest` | src/gige/runner.rs:310-409 | what an acknowledge means, as `WorkerRuns.AnsweredServes` and `Chunks.ChunkCarried` tell it, computed without running under a length |
| `ControlRunner.Runner.Accept` | src/gige/runner.rs:286-410 | NAKs, wrong answers, completion and continuation in place |
| `ControlRunner.Runner.Receive` | src/gige/runner.rs:257-284 | matches by id; a PENDING_ACK moves the deadline within the budget |
| `ControlRunner.Runner.CheckDeadlines` | src/gige/runner.rs:597-631 | retries the same datagram, then times out |
| `ControlRunner.Runner.CheckHeartbeats` | src/gige/runner.rs:633-653 | queues one heartbeat in front when none is pending |
| `ControlRunner.Runner.Enqueue` | src/gige/runner.rs:489-492 | both queues grow together |
| `ControlRunner.Runner.DrainCommands` | src/gige/runner.rs:442-487 | the loop submits messages in order up to a shutdown |
| `ControlRunner.Runner.FailEach` | src/gige/runner.rs:669-671 | the loop fails the operations in order |
| `ControlRunner.Runner.Stop` | src/gige/runner.rs:655-680 | everything held is failed in order and control is released |
| `Handles.StepKeeps` | src/gige/mod.rs:243-270 | every step of any thread keeps every submitted handle remembered and every waiting task sheltered |
| `Handles.AllFulfilled` | src/gige/runner.rs:655-698 | under every interleaving, once all threads are done every submitted handle is fulfilled and every task whose last poll said Pending has been woken |
| `Handles.NoLostWakeup` | src/handle.rs:106-122 | at any moment a waiting task that was not woken waits for a handle without a result, or one whose wakers are about to be taken or called |
| `Handles.FirstResultSeen` | src/handle.rs:53-79 | once a handle has a result, every poll that is ready returns that first one |
| `Outcomes.ResultsHaveReasons` | src/gige/runner.rs:655-698 | under every interleaving a result was given to that handle by the worker, as an answer or as its reason to end, or is Disconnected with the worker gone |
| `Outcomes.ServedAnswerStands` | src/handle.rs:53-59 | under every interleaving a request answered while the worker serves gets that answer: no sender fails it first, none replaces it |
| `Handles.ResponseHandle.Fulfil` | src/handle.rs:53-59 | keeps the first result and takes every waker |
| `Handles.ResponseHandle.Poll` | src/handle.rs:106-122 | gives the result, or registers the task once |
| `BitFields.LoadWord` | src/genicam/node.rs:1173-1188 | the accumulating loop loads the bytes in their order |
| `BitFields.LoadOfStore` | src/genicam/node.rs:1173-1200 | loading what was stored gives the value cut to the register |
| `BitFields.StoreOfLoad` | src/genicam/node.rs:1173-1200 | storing what was loaded gives the bytes back |
| `BitFields.InsertedBit` | src/genicam/node.rs:1163-1170 | inserting sets each bit of the field from the value and keeps every other bit of the word |
| `BitFields.ExtractedBit` | src/genicam/node.rs:1110-1116 | extraction moves the field's bits down and clears the rest |
| `BitFields.ExtractInserted` | src/genicam/node.rs:1092-1171 | for every length, byte order, sign and fitting range, an inserted value is extracted reduced to the field's width with its sign |
| `BitFields.OutsideKept` | src/genicam/node.rs:1146-1171 | every bit of the register outside the field is unchanged |
| `BitFields.ExtractEncoded` | src/genicam/node.rs:1202-1207 | a whole register encoded is read back reduced to its width |
| `NodeGraph.IntValue` | src/genicam/node.rs:368-373 | reading any node of any graph ends; the visit stack is restored, and empty after a cycle; its value is given by `NodeValues.ReadsValue` |
| `NodeGraph.SetIntValue` | src/genicam/node.rs:420-425 | so does writing |
| `NodeGraph.Execute` | src/genicam/node.rs:747-763 | so does running a command |
| `NodeGraph.RefInt` | src/genicam/node.rs:332-348 | following any reference restores the stack and never repeats a node on it |
| `NodeGraph.Selected` | src/genicam/node.rs:326-330 | an indexed value selects a strictly smaller reference |
| `NodeGraph.RegisterRead` | src/genicam/node.rs:1035-1058 | a register read restores the stack whatever the device answers |
| `NodeGraph.RegisterWrite` | src/genicam/node.rs:1060-1085 | a register write does too |
| `NodeMeaning.PickIsFirst` | src/genicam/node.rs:51-56 | an index selects the first entry under its value, else the default |
| `NodeValues.ReadsValue` | src/genicam/node.rs:368-418 | reading any node of any uncached graph gives the value its references stand for; a cycle is reported if and only if following them never ends |
| `NodeValues.WritesEffect` | src/genicam/node.rs:420-533 | writing a node of a graph without cycles comes to the one literal or the one place on the device its references stand for, with those bytes, or to the error met first, and to nothing else |
| `NodeValues.RunsEffect` | src/genicam/node.rs:747-763 | so does running a command |
| `NodeValues.CallsMeant` | src/genicam/node.rs:368-533 | any calls on an uncached graph without cycles are answered, and leave nodes and device, as the nodes stand for |
| `NodeValues.CachedCallsMeant` | src/genicam/node.rs:1035-1085 | so they are with caches, where every write invalidates the caches it could be missed in |
| `NodeLaws.FeatureReads` | src/genicam/node.rs:332-348 | a feature reads as its literal, the node it names, or the first entry under its index's value, else the default |
| `NodeLaws.ConverterReads` | src/genicam/node.rs:888-916 | a converter reads as its from-formula of what it converts |
| `NodeLaws.SwissKnifeReads` | src/genicam/node.rs:930-979 | a formula node reads as its formula of its variables' values, in order |
| `NodeLaws.RegisterReads` | src/genicam/node.rs:999-1058 | a register is read at the sum of all its address terms modulo 2^64, with its length, or 4 where none is given |
| `NodeLaws.FeatureWrites` | src/genicam/node.rs:470-503 | writing a feature or command that holds a reference is writing the node it leads to now, chosen by an index as for reading; where there is none nothing changes |
| `NodeLaws.LiteralWrites` | src/genicam/node.rs:470-503 | a literal is replaced in place and read back, and nothing else changes |
| `NodeLaws.ConverterWrites` | src/genicam/node.rs:456-465 | writing a converter is writing the to-formula of the value to what it converts |
| `NodeLaws.ConverterRoundTrip` | src/genicam/node.rs:456-533 | where from undoes to, and what is converted holds what is written to it, a value written to a converter is read back |
| `NodeLaws.CommandRuns` | src/genicam/node.rs:747-763 | running a command writes its command value, or 1 where it has none, through its reference or in place |
| `Circularity.NeverCircular` | src/genicam/node.rs:305-316 | in a graph whose references descend in some rank, no sequence of calls reports a cycle, whatever the device answers |
| `Circularity.CircleReported` | src/genicam/node.rs:305-316 | a circle of features of any length is reported as circular |
| `Circularity.PerformAll` | src/genicam/node.rs:368-425 | the visit stack is empty after every public call |
| `RegisterFields.WrittenThenRead` | src/genicam/node.rs:427-455 | a value written to an integer register, masked or whole and cached in any way, is read back reduced to its field's width and sign; no other bit of the register and no other byte of the device changes |
| `RegisterFields.ReadsDevice` | src/genicam/node.rs:1035-1058 | reading a register whose cache is true gives the device's bytes |
| `FieldBits.SameNumber` | src/genicam/node.rs:1092-1116 | two memories give a register the same number if and only if they agree on the device bits its field lies on |
| `FieldBits.Rewritten` | src/genicam/node.rs:427-455 | a written register holds the value in its field and, outside it, the bits it was read as; no other bit of the device changes |
| `Caching.RegisterReadAlike` | src/genicam/node.rs:1035-1058 | a cached read shows the number of an uncached one, and the same bytes where they may be written back |
| `Caching.PortWriteAlike` | src/genicam/node.rs:1060-1085 | a write leaves every cache that survives it true to the device |
| `Caching.CachingTransparent` | src/genicam/node.rs:427-455 | with constant addresses, and every write invalidating the caches it could be missed in, every sequence of reads, writes, commands and cache clears gives the same answers and leaves the same device memory as with caching off |
| `Caching.ListedTransparent` | src/genicam/node.rs:427-455 | so it does where overlapping registers list one another as invalidators |
| `CacheExactness.CachingExactly` | src/genicam/node.rs:1035-1085 | for every graph with constant addresses, and any access modes, masks, lengths and places, caching is invisible if and only if writing a field invalidates every cache that exposes one of its bits: in its own field or, where the register is also written, anywhere in it |
| `CacheExactness.WriteLost` | src/genicam/xml.rs:178-219 | two cached entries of one structure: a run of successful calls after which the device has lost a write that it keeps without caching |
| `CacheExactness.ReadOnlyBeside` | src/genicam/xml.rs:178-219 | an entry that is only read, beside one that is written, needs no invalidator |
| `AccessModes.AccessModeOf` | src/genicam/node.rs:847-886 | the loop returns the mode of the node where the chain ends, however far that is, and read-only if and only if it never ends or ends read-only |
| `AccessModes.EndsSoonOrNever` | src/genicam/node.rs:849-866 | a chain that has not ended after as many steps as there are nodes never ends |
| `Genicams.Genicam.Enter` | src/genicam/node.rs:305-312 | pushes a node once; a node met again clears the stack |
| `Genicams.Genicam.Leave` | src/genicam/node.rs:314-316 | pops, harmlessly on an empty stack |
| `Genicams.Genicam.GetInt` | src/genicam/node.rs:368-373 | reading in place: same result, stack, values, caches and transfers as the function |
| `Genicams.Genicam.GetInner` | src/genicam/node.rs:375-418 | the node's own rule in place, which by `NodeValues.ReadsValue` gives what the node stands for |
| `Genicams.Genicam.GetRef` | src/genicam/node.rs:332-348 | a reference in place |
| `Genicams.Genicam.BindAll` | src/genicam/node.rs:948-976 | the loop reads a formula's variables in order |
| `Genicams.Genicam.Evaluate` | src/genicam/node.rs:930-979 | a formula in place |
| `Genicams.Genicam.Locate` | src/genicam/node.rs:999-1009 | the loop sums the address terms, wrapping |
| `Genicams.Genicam.ReadRegister` | src/genicam/node.rs:1035-1058 | a register read in place |
| `Genicams.Genicam.WriteRegister` | src/genicam/node.rs:1060-1085 | a register write in place, with its invalidation loop |
| `Genicams.Genicam.SetInt` | src/genicam/node.rs:420-425 | writing in place |
| `Genicams.Genicam.SetField` | src/genicam/node.rs:434-455 | masked read-modify-write in place |
| `Genicams.Genicam.RunCommand` | src/genicam/node.rs:747-763 | a command in place |
| `Genicams.Genicam.InvalidateCaches` | src/genicam/node.rs:297-303 | the loop clears every cache and nothing else |

## Left out

- Sockets, polling, thread start and join, socket and thread tuning, telemetry, discovery and Force IP: plumbing over other libraries; arrivals and times are parameters.
- Device-initiated events, subscriptions and the fan-out of frames to several consumers: a delivered frame is recorded once.
- GVCP and GVSP byte layouts: packets are records; a datagram either decodes or is ignored.
- Packet-size negotiation, XML parsing, DEFLATE and URL parsing: the graph is taken as built, and decompression is a parameter of the archive reader.
- Floating point: float registers, float features and float operands are not modelled; in formulas doubles are an abstract type and only integer formulas get a value theorem; the resend ratio is a real number.
- String, Boolean and enumeration wrappers around the integer evaluator: they add lookups, not evaluation.
- Formula compilation inside the graph: a node's formula is a key, its variables in order and whether it parses; that a compiled formula is kept for the next use changes no value.
- The fingerprint hash is taken as injective: the fingerprint is the content itself.
- The atomics are sequentially consistent steps; relaxed memory ordering is not modelled.
- Counters other than completed, failed, aborted and missing frames.
- The concatenation flag is constant during a worker run: the source sets it once, while connecting, before any register batch is submitted.
- Blocking waiters on a response handle: only polling tasks are modelled.
- Reference counts of delivered frames: a consumer drops a frame once, as its last holder does.
- NodeGraph.Execute: a link to a node that is not in the graph counts as unresolved; a built graph has none.
- FormulaCompiler.CompiledValue: limited to 65536 names; ManyNames.SlotBound proves that the code is wrong beyond.
- FormulaValues.IntegerFormula: limited to 65536 names likewise.
- Zip.StoredCorruptionRefused: a changed byte that belongs to the directory as well as to the data, in an archive whose records overlap, may change where the reader looks.
- Completion.OneByOne: a memory read counts as inside the memory if three bytes after it are too, since its last read is rounded up to whole words; Completion.SucceedsUnlessRefused has no such condition.
- NodeValues.WritesEffect: for graphs whose references descend in some rank; a write that meets a cycle is Circularity's subject.
- LinkRuns.OkMeansPerformed: the device memory has fewer than 2^32 bytes, so no request wraps around it; the emulator has 65536.
