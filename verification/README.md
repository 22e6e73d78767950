# A verified model of the IEEE 802.11ax transmit chain

This project models the transmit chain in C and its DPDK pipelines in Dafny and proves that
the fast forms of the program compute what the simple forms define. `dafny verify
dfyconfig.toml` checks everything.

The parts, each from the definitions to the loops:

* **Coded bits to subcarriers.** `StreamParser`, `Interleaver` and `Transmitter` hold the index
  arithmetic of sections 22.3.10.6 and 22.3.10.8 of IEEE Std 802.11ac-2013 as the program
  writes it; `InterleaverLoops` holds the buffers and loops. `Constellation`, `Subcarriers` and
  `SubcarrierMap` define the finished map twice, once by the direct chain and once by the
  precomputed table, and prove exactly when they are equal. `BitPlacement` and `TonePlan` say
  where a bit and a tone end up in terms of the parameters alone. `DirectPath`, `TablePath` and
  `FramePaths` are the two programs.
* **Fast Fourier transform.** `NegacyclicRing` is exact arithmetic in R[x] / (x^d + 1), in which
  x is a root of unity of order 2 d; every ring law is proved from the coefficients.
  `BitReversal`, `Fourier`, `FastFourier` and `FourierInverse` hold the theory, `InPlaceFft` the
  procedures. A twiddle factor of order N is x^u with u * N / 2 = d modulo 2 d; sending x to a
  complex root of unity carries every identity over to complex numbers.
* **The nine-thread pipeline** of maindpdk_test_2.c: `Pipeline` is the state machine of atomic
  actions, `PipelineInvariant` and `PipelineSteps` the invariant, `PipelineTheorems` what it means
  over all interleavings, `PipelineProgress` and `PipelineLiveness` that frames move on and none
  starves, `PipelineThreads` the loops on shared fields.
* **The eight-ring dispatcher** of maindpdk2.c: `Dispatcher`, `DispatcherTheorems`,
  `DispatcherLoss`, `DispatcherProgress` and `DispatcherThreads`, in the same way.
* **Fixed-point arithmetic.** `FixedPoint`, `VectorProducts` and `CyclicShift` compare the 16-bit
  lane arithmetic with the scalar one; `FrameShift` joins it to the maps of `FramePaths`, so that
  both programs are compared from the coded bits to the shifted samples.
* **Cyclic prefixes** with the window register carried from call to call: `CyclicPrefix`.
* **Scrambler.** `Scrambler`, `ScramblerTable` and `ScramblerLoops` compare the table-driven
  form with the bitwise one, on the lengths of `FrameLengths` and on all others.
* **Packet generator** of the bundled test application: `InternetChecksum` (RFC 1071) and
  `FlowGenerator`.

`DivMod`, `PowersOfTwo`, `Buffers`, `ComplexNumbers`, `DistinctSequences` and, for the two state
machines, `Schedules` are shared.

## What the proofs say about the program

* The mapping loop adds one N_CBPS for every symbol after the first
  (process_data/process_datafunction/modulate_opt.c:369). So the table path is right for frames
  of one or two symbols and for no longer ones: `TablePathRightIff`, `ThirdSymbolDiffers`,
  `TableMapInjectiveIff`. The configured frames are short enough: `ConfiguredFrames`.
* The codes 6000 to 6002 of the table collide with indices of coded bits for five or more
  streams: `SentinelsFreeIff`. The mapping loop then takes the index of a coded bit for a code
  and reads outside pilot_type, in every frame and in its first symbol; with up to four streams
  it never does: `StrayHead`, `TablePath.StreamInterweaveMapping`.
* The pipeline of maindpdk_test_2.c may ignore the return codes of its enqueues, because its
  rings are as large as its pool. maindpdk2.c may ignore them where it deals frames out, but not
  where it collects them: some schedule loses a buffer exactly because the pool is larger than a
  ring, `LossIff` and `LossReachable`.
* The CSD thread of maindpdk_test_2.c tries its four rings in a fixed order, and still no ring
  starves, because frames are dealt to the lanes in turn: `NoLaneStarves`. Every frame read
  returns as long as no thread is forgotten: `EveryFrameReturns`.
* The table-driven scrambler scrambles every byte behind the whole ones as if it were the
  incomplete last byte. With the lengths of GenInit.c there is only one such byte and the two
  forms agree: `ConfiguredLengths`, `CompareForms`. With a longer buffer and bits left over they
  part on some data of every length from one byte on, and on the empty frame unless its scrambled
  zeros end in zeros: `TableRightIff`, `CompareLongBuffers`.
* The lane product and the scalar product of any two samples are -3 to 4 apart before they are
  cut to 16 bits. So the results stay that close exactly when both have left the 16-bit range
  equally often: `LaneErrorIff`, `DotErrorIff`, `MatrixErrorIff`. On the maps that the program
  makes nothing leaves it: `MapShiftsAreNear`, `ShiftBothPaths`.
* The register of the scrambler holds output bits, so this scrambler is self-synchronising. The
  scrambler of section 18.3.5.5 of IEEE Std 802.11-2012 adds a sequence that does not depend on
  the data. The model follows the program.
* The comment at intrinsics_interface/intrinsics_interface_v2.c:231 describes mulhrs as a shift
  by 14. The instruction shifts by 14, adds one and shifts by one more; the model does that.

Four source files are not UTF-8 text: modulate.c, GenInit.c, GenDataAndScramble.c and
csd_data_IDFT.c in process_data/process_datafunction. Rows about them cite the call and name
the lines of the body in the third column.

## Model

| member | source | states |
|---|---|---|
| StreamParser.ParsedThenInverse | process_data/process_datafunction/BCC_encoder.c:43-54 | the stream parser can be undone: the stream and the place are read back from the number of the coded bit |
| StreamParser.InverseThenParsed | process_data/process_datafunction/BCC_encoder.c:43-54 | every coded bit is sent to some place of some stream |
| StreamParser.ParsedRange | process_data/process_datafunction/BCC_encoder.c:43-54 | the first m blocks of all streams take exactly the first m * N_STS blocks of coded bits |
| Interleaver.RowColumnRoundTrip | process_data/process_datafunction/BCC_encoder.c:71-80 | the first permutation is a bijection for all numbers of rows and columns |
| Interleaver.BlockRotateOffset | process_data/process_datafunction/BCC_encoder.c:82-93 | the second permutation, with its two divisions, is a rotation inside each s-block by the row group, because s divides N_ROW |
| Interleaver.BlockRotateBack | process_data/process_datafunction/BCC_encoder.c:82-93 | the second permutation can be undone and stays inside the s-block |
| Interleaver.PermutedRoundTrip | process_data/process_datafunction/BCC_encoder.c:69-146 | the three permutations compose to a bijection, for every N_COL, N_ROW, s dividing N_ROW and rotation |
| Transmitter.McsRowsFitInterleaver | process_data/mcs_table_for_20M.c:5-17 | every row of the MCS table, for one to eight streams, meets the demands of the interleaver |
| Transmitter.McsRowsFitRate | process_data/mcs_table_for_20M.c:5-9 | in every row the data bits are the share of the coded bits that the rate of the code leaves |
| Transmitter.PositionRoundTrip | process_data/process_datafunction/BCC_encoder.c:69-146 | where a bit goes and which bit stands at a place are inverse to each other, with the rotation tables of all numbers of streams |
| Transmitter.OneSymbolSuffices | process_data/process_datafunction/modulate_opt.c:59-70 | the parser reads symbol sym at the places of the first symbol, sym * N_CBPS later |
| Transmitter.CodedBitFromTable | process_data/process_datafunction/modulate_opt.c:59-164 | for every symbol the directly interleaved bit is the coded bit at the one-symbol table entry plus sym * N_CBPS |
| Transmitter.CodedBitOfDestination | process_data/process_datafunction/BCC_encoder.c:43-147 | each coded bit is found at the triple of stream, symbol and position it is sent to, and belongs to the frame exactly if its symbol does |
| Transmitter.DestinationOfCodedBit | process_data/process_datafunction/BCC_encoder.c:43-147 | no two coded bits are sent to the same triple |
| Transmitter.InterleaverBijection | process_data/process_datafunction/BCC_encoder.c:37-147 | parser and interleaver are a bijection between the coded bits of a frame and the triples of stream, symbol and position, for all N_SYM and 1 to 8 streams |
| Transmitter.SubcarrierClosedForm | process_data/process_datafunction/BCC_encoder.c:71-144 | the second permutation stays inside a subcarrier and the third moves whole subcarriers, so the subcarrier of a bit follows from the first permutation and the rotation alone |
| Transmitter.Spreading | process_data/process_datafunction/BCC_encoder.c:69-144 | two consecutive bits of a stream in one symbol are carried 9 or 10 data subcarriers apart, counted cyclically |
| BitPlacement.StreamOfCodedBit | process_data/process_datafunction/BCC_encoder.c:37-54 | for N_BPSCS of 4 or more the streams take N_BPSCS / 2 consecutive coded bits in turn: stream, round and place inside the block are read off the number of the coded bit |
| BitPlacement.StreamOfSingleBit | process_data/process_datafunction/BCC_encoder.c:37-54 | for N_BPSCS of 1 or 2 they take one coded bit in turn |
| BitPlacement.Significance | process_data/process_datafunction/BCC_encoder.c:82-93 | the second permutation gives bit k of a stream the significance row - column modulo N_BPSCS / 2 on the axis that its row selects |
| BitPlacement.NeighboursDiffer | process_data/process_datafunction/BCC_encoder.c:82-93 | so two consecutive bits of one row never get the same significance |
| BitPlacement.PositionClosedForm | process_data/process_datafunction/BCC_encoder.c:69-146 | subcarrier, axis and significance of every bit, and so the whole interleaver, in closed form |
| BitPlacement.RotationClosedForm | process_data/process_datafunction/BCC_encoder.c:95-146 | the rotation of every stream for every number of streams |
| BitPlacement.StreamsApart | process_data/process_datafunction/BCC_encoder.c:95-146 | the same bit of two streams is carried at least 28 data subcarriers apart, of two consecutive streams at least 58 |
| InterleaverLoops.ReduceIndex | process_data/process_datafunction/BCC_encoder.c:113-119 | the subtraction loop ends, at the residue modulo N_CBPSS |
| InterleaverLoops.InterleaveSymbol | process_data/process_datafunction/BCC_encoder.c:69-146 | the loops of the three permutations move every bit of a symbol to its position, with the parser buffer as scratch space, and touch no other symbol |
| InterleaverLoops.ParseStreams | process_data/process_datafunction/BCC_encoder.c:43-54 | the parser loop fills every row of the parser buffer |
| InterleaverLoops.BccInterleave | process_data/process_datafunction/BCC_encoder.c:43-147 | the buffer ends up with every coded bit at the place the bijection gives it, for all symbols |
| InterleaverLoops.GenerateStreamCodeInTable | process_data/process_datafunction/modulate_opt.c:29-172 | the same loops on the numbers of the coded bits leave the one-symbol table |
| Constellation.PointRoundTrip | process_data/process_datafunction/modulate_opt.c:292-300 | both axis values are read back from a constellation point |
| Constellation.PointLevels | process_data/process_datafunction/modulate_opt.c:292-300 | the index arithmetic into the 64 points gives the levels of the two axes separately |
| Constellation.PointIsGray | process_data/process_datafunction/modulate_opt.c:292-300 | the real part of a point is the level of the upper three bits and the imaginary part that of the lower three: the reflected Gray code on the odd multiples of 1264 (the points: VarINIT/globalVarINIT.c:145-152) |
| Constellation.GridIsFull | VarINIT/globalVarINIT.c:145-152 | on each axis every odd multiple of 1264 from -7 to 7 is the level of exactly one value, and the lowest that of 0 |
| Constellation.GrayNeighbours | VarINIT/globalVarINIT.c:145-152 | values on neighbouring levels differ in exactly one bit |
| Constellation.InitMappingTable | process_data/process_datafunction/modulate_opt.c:260-302 | for 64-QAM the mapping table holds, at each six-bit address, the point of its two halves |
| Subcarriers.SymbolFull | process_data/process_datafunction/PilotAdd_SubcarMap.c:10-61 | a symbol has 234 data subcarriers; its 256 subcarriers take exactly the 1426 table entries, of which 1404 are data |
| TonePlan.PilotTones | process_data/process_datafunction/PilotAdd_SubcarMap.c:10-10 | the pilots are the tones 11, 39, 75 and 103 on either side of the carrier, numbered by frequency |
| TonePlan.ZeroTones | process_data/process_datafunction/PilotAdd_SubcarMap.c:11-11 | the zeros are the carrier, its neighbours and the tones beyond 122 |
| TonePlan.FixedTones | process_data/process_datafunction/PilotAdd_SubcarMap.c:17-52 | what every symbol of every frame carries there: zero, and one or minus one on the pilots, whose pattern moves on by one place a symbol |
| Subcarriers.ScanStep | process_data/process_datafunction/PilotAdd_SubcarMap.c:40-61 | the scan with one pointer to the next pilot and one to the next zero visits them in order and counts the data places |
| Subcarriers.EntriesOfSubcarrier | process_data/process_datafunction/modulate_opt.c:191-213 | the six or one table entries of a subcarrier are of its kind, all of one symbol, and name its data bits in order |
| SubcarrierMap.PointsAgree | process_data/process_datafunction/modulate_opt.c:352-379 | in the first two symbols the table path gives the direct point on every stream and subcarrier, for all coded bits |
| SubcarrierMap.TablePathRightIff | process_data/process_datafunction/modulate_opt.c:366-372 | the table path agrees with the direct chain on all coded bits if and only if the frame has at most two symbols |
| SubcarrierMap.ThirdSymbolDiffers | process_data/process_datafunction/modulate_opt.c:369-370 | a frame of three or more symbols on which the two differ |
| SubcarrierMap.SentinelsFreeIff | process_data/process_datafunction/modulate_opt.c:26-26 | no index of a coded bit reaches the codes from 6000 on if and only if there are at most four streams |
| SubcarrierMap.StrayHead | process_data/process_datafunction/modulate_opt.c:354-379 | with five to eight streams group 13 - N_STS of the first stream is the first one whose leading index the mapping loop takes for a code, and it is beyond all three codes |
| SubcarrierMap.CodedBitRecovered | process_data/process_datafunction/PilotAdd_SubcarMap.c:31-63 | every coded bit is read back from the finished direct map |
| SubcarrierMap.DistinctFramesDistinctMaps | process_data/process_datafunction/modulate_opt.c:339-381 | frames of at most two symbols with equal table-path maps are equal |
| SubcarrierMap.TableMapInjectiveIff | process_data/process_datafunction/modulate_opt.c:339-381 | the table-path map determines the coded bits if and only if the frame has at most two symbols |
| TablePath.WriteSymbol | process_data/process_datafunction/modulate_opt.c:186-213 | one symbol of the table is written with its rotated pilots, its zeros and the interleaving table in between |
| TablePath.PilotAddTable | process_data/process_datafunction/modulate_opt.c:174-215 | all symbols of the table are written |
| TablePath.InitialStreamwaveTable | process_data/process_datafunction/modulate_opt.c:217-258 | the table of all streams and symbols is what the mapping loop expects |
| TablePath.LookUpAddress | process_data/process_datafunction/modulate_opt.c:365-373 | the inner loop shifts six looked-up bits into the address of the right point |
| TablePath.MapStream | process_data/process_datafunction/modulate_opt.c:354-378 | up to four streams: the walk that advances by six entries or one ends after emitting 256 points a symbol, each the right one, and writes nothing else; five to eight: it reads outside pilot_type in the first stream of every frame with a symbol |
| TablePath.StreamInterweaveMapping | process_data/process_datafunction/modulate_opt.c:339-381 | all streams of the flat map are right up to four streams, and the loops stay inside pilot_type if and only if there are at most four or no symbol |
| DirectPath.GroupRow | process_data/process_data.c:53 | overwriting a row with the values of its groups reads every group before it is overwritten (body: modulate.c:74-95) |
| DirectPath.Modulate | process_data/process_data.c:53 | six bits of a row become one point (body: modulate.c:48-134) |
| DirectPath.PlaceSymbol | process_data/process_datafunction/PilotAdd_SubcarMap.c:34-61 | one symbol of points between its pilots and zeros |
| DirectPath.DirectChain | process_data/process_data.c:30-72 | interleaver, modulation and subcarrier map in turn give the direct map of a frame |
| FramePaths.ModulateMapping | process_data/process_datafunction/modulate_opt.c:339-381 | the same with both tables freshly initialised, for one to eight streams |
| FramePaths.RunBothPaths | process_data/process_datafunction/modulate_opt.c:339-381 | on the same coded bits of at most two symbols both programs leave the same points |
| FramePaths.ConfiguredFrames | process_data/process_datafunction/modulate_opt.c:342-346 | with the configured MCS and four streams the table path is right for exactly the frames of up to 933 bytes, and 512 bytes take two symbols |
| NegacyclicRing.RotRot | IFFT/ifft.c:44-48 | twiddle factors multiply by adding their exponents |
| NegacyclicRing.RotHalf | IFFT/ifft.c:44-48 | half the order in the exponent changes the sign |
| Fourier.StandardRoot | IFFT/ifft.c:44-48 | every power of two has a root of unity as the transforms need it |
| BitReversal.RemapIsBitReversal | IFFT/ifft.c:104-121 | for every power of two the recursive reordering is the bit-reversal permutation |
| BitReversal.RemapTwice | IFFT/ifft.c:104-121 | so it is its own inverse |
| BitReversal.RemapMultiset | IFFT/ifft.c:104-121 | for every size, odd ones included, no element is lost or repeated |
| Fourier.EvenOdd | IFFT/ifft.c:57-62 | the naive sum splits into the sums over even and odd places |
| Fourier.ButterflyIsDft | IFFT/ifft.c:151-160 | one butterfly makes the naive transform from the transforms of the even and odd places |
| FastFourier.StagesAreFast | IFFT/ifft.c:146-165 | the loop over the stages computes the recursive fast transform |
| FastFourier.StagesAreDft | IFFT/ifft.c:146-165 | the loop over the stages on the reordered input computes the naive transform |
| FastFourier.StageInvariant | IFFT/ifft.c:146-165 | after i stages each aligned block of 2^i places holds the naive transform of its decimated subsequence |
| FourierInverse.InverseScaled | IFFT/ifft.c:50-66 | the conjugate transform of the transform is the input times its length |
| FourierInverse.InverseRestores | IFFT/ifft.c:76-94 | the inverse transform of the transform is the input, for every power of two |
| FourierInverse.ForwardRestores | IFFT/ifft.c:50-94 | and the transform of the inverse transform as well |
| FourierInverse.DftInjective | IFFT/ifft.c:50-66 | different inputs have different transforms |
| InPlaceFft.NaiveDft | IFFT/ifft.c:50-66 | the naive loops, with and without a destination |
| InPlaceFft.NaiveIdft | IFFT/ifft.c:76-94 | the naive inverse loops with their final division |
| InPlaceFft.Log2 | IFFT/ifft.c:130-135 | the halving loop finds the largest power of two |
| InPlaceFft.OnlyPow2 | IFFT/ifft.c:136-137 | the test behind that loop passes exactly for powers of two |
| InPlaceFft.FftRemap | IFFT/ifft.c:104-121 | the recursion on a part of the array reorders that part and nothing else, and its return code |
| InPlaceFft.ButterflyStage | IFFT/ifft.c:147-164 | one pass in place with the running twiddle counter computes one stage on all places |
| InPlaceFft.Fft | IFFT/ifft.c:123-175 | the in-place program computes the naive transform exactly for powers of two, and leaves its source reordered |
| InPlaceFft.Ifft | IFFT/ifft.c:180-235 | the same for the inverse transform with its division |
| InPlaceFft.ThereAndBack | IFFT/ifft.c:123-232 | both in turn restore the input |
| PipelineInvariant.RoomForHand | maindpdk_test_2.c:465-497 | no ring is full while a thread has a buffer in its hand |
| PipelineSteps.TurnKeeps | maindpdk_test_2.c:222-457 | every atomic action of every thread keeps the invariant on places, queues, counters and quit |
| PipelineSteps.RunKeeps | maindpdk_test_2.c:222-457 | so does every interleaving from the start |
| PipelineTheorems.ExactlyOnePlace | maindpdk_test_2.c:41-41 | in every interleaving each of the 2047 buffers occurs exactly once in the pool, the rings and the hands |
| PipelineTheorems.NoEnqueueFails | maindpdk_test_2.c:276-447 | in every interleaving a thread about to enqueue has chosen a ring, and the ring has room |
| PipelineTheorems.LanesPartition | maindpdk_test_2.c:349-432 | every frame read has one place on one lane |
| PipelineTheorems.LanesAreQueues | maindpdk_test_2.c:268-434 | in every interleaving the modulation and CSD rings of a lane hold only frames of that lane (1, 3, 2, 4 for q mod 4 = 1, 2, 3, 0), in the order of reading, without a gap, with the work done so far |
| PipelineTheorems.FinishedIsComplete | maindpdk_test_2.c:222-257 | in every interleaving each returned frame was scrambled, encoded, modulated and shifted once in this order |
| PipelineTheorems.FinishedInOrder | maindpdk_test_2.c:222-257 | in every interleaving no frame returned twice, and the frames of a lane returned in the order of reading |
| PipelineTheorems.EightTurnsToExit | maindpdk_test_2.c:225-281 | after quit a thread returns within eight of its own turns, whatever the others do |
| PipelineTheorems.NothingLostAtExit | maindpdk_test_2.c:533-543 | when all threads have returned, pool and rings hold all 2047 buffers |
| PipelineTheorems.ExactlyTheLimit | maindpdk_test_2.c:232-256 | no thread returns before exactly 100000 frames were processed, and the CSD thread has then returned all of them |
| PipelineProgress.FramesReturn | maindpdk_test_2.c:222-457 | for every n up to 100000 some schedule returns exactly the frames 1 to n with all work done, and sets quit exactly at the limit |
| PipelineProgress.AllThreadsReturn | maindpdk_test_2.c:533-543 | a state in which all threads have returned after 100000 frames is reached |
| PipelineProgress.LanesStayTogether | maindpdk_test_2.c:349-432 | in every reachable state no lane has given the CSD thread more than 5121 frames more than another |
| PipelineProgress.NoLaneStarves | maindpdk_test_2.c:227-230 | the fixed order of the four dequeues starves no lane: the head of any ring is back in the pool after a fixed number of turns of the CSD thread, whatever the other threads do, unless quit comes first |
| PipelineProgress.WorkerPassesOn | maindpdk_test_2.c:268-434 | a worker passes on the head of its ring within six of its turns, whatever the other threads do |
| PipelineLiveness.EveryFrameReturns | maindpdk_test_2.c:222-457 | under every schedule that forgets no thread every frame read returns with all work done, after a fixed number of stretches in which each thread gets its turns in any order, unless quit comes first |
| PipelineThreads.Machine.ReadData | maindpdk_test_2.c:436-457 | one action of the reading loop is one turn of the state machine, and its ignored return code is never negative |
| PipelineThreads.Machine.Worker | maindpdk_test_2.c:268-434 | the same for the splitters and the modulation loops |
| PipelineThreads.Machine.CyclicShifts | maindpdk_test_2.c:222-266 | the same for the CSD loop, which tries its rings in order |
| PipelineThreads.Machine.Run | maindpdk_test_2.c:533-541 | any schedule of the nine loops is a run of the state machine |
| DispatcherTheorems.TurnKeeps | maindpdk2.c:241-631 | every atomic action of every thread keeps the invariant of the dispatcher, for any number of buffers and any ring size |
| DispatcherTheorems.RunKeeps | maindpdk2.c:241-631 | so does every interleaving from the start |
| DispatcherTheorems.DisCountInRange | maindpdk2.c:542-545 | in every interleaving dis_count is the number of counted buffers modulo 32 |
| DispatcherTheorems.NoDispatchFails | maindpdk2.c:536-593 | in every interleaving the ring about to receive a frame has room and no frame was ever dropped there |
| DispatcherTheorems.LostOnlyOnReturn | maindpdk2.c:241-631 | in every interleaving each buffer is in one place or was lost in a failed enqueue on a RetriveData ring |
| DispatcherTheorems.FourEach | maindpdk2.c:542-593 | 32 consecutive frames of which none met a full preferred ring give each ring exactly four |
| DispatcherProgress.FramesReturn | maindpdk2.c:241-631 | for any pool and rings that are not empty and every n up to 100000 some schedule returns n frames through the eight lanes in turn, loses and drops none, and sets quit exactly at the limit |
| DispatcherProgress.AllThreadsReturn | maindpdk2.c:709-717 | with the configured pool and rings a state in which all threads have returned, all buffers are in the pool and none was lost is reached |
| DispatcherLoss.RetrieveOne | maindpdk2.c:246-257 | a round of the retrieving thread returns the frame of any of the eight lanes |
| DispatcherProgress.RetrieverFinds | maindpdk2.c:241-289 | in every run: while any of the eight RetriveData rings holds a frame, the retrieving thread takes one within 16 of its turns, whatever the other threads do |
| DispatcherProgress.LanesAreFifo | maindpdk2.c:241-631 | over any run every ring gives what it held and what was put on it in this order |
| DispatcherProgress.FindsFirst | maindpdk2.c:464-500 | left alone, FindEmptyRing finds the first ring that is not full |
| DispatcherLoss.LostIffMet | maindpdk2.c:303-303 | a run from the start has lost a buffer if and only if one of its actions was the enqueue of a processed frame on a full RetriveData ring |
| DispatcherLoss.LossIff | maindpdk2.c:639-682 | for P buffers and rings of C entries some schedule loses a buffer if and only if P > C >= 1 (for C up to what the limit on the frames allows) |
| DispatcherLoss.FewBuffersNoLoss | maindpdk2.c:291-463 | with no more buffers than entries no schedule loses one |
| DispatcherLoss.LossReachable | maindpdk2.c:639-682 | the configured 4095 buffers and 255 entries lose buffers under some schedule |
| DispatcherThreads.Machine.ChooseLane | maindpdk2.c:546-593 | the chain of tests on dis_count and the fall-back choose a ring with room |
| DispatcherThreads.Machine.Reader | maindpdk2.c:527-631 | one action of the dispatching loop is one turn of the state machine |
| DispatcherThreads.Machine.Worker | maindpdk2.c:291-463 | the same for the processing loops |
| DispatcherThreads.Machine.Retriever | maindpdk2.c:241-289 | the same for the retrieving loop |
| DispatcherThreads.Machine.Run | maindpdk2.c:709-717 | any schedule of the nine loops is a run of the state machine |
| FixedPoint.ProductsAreWrapped | intrinsics_interface/intrinsics_interface_v2.c:208-252 | for all samples both products are products of unbounded integers modulo 65536 |
| FixedPoint.ExactError | intrinsics_interface/intrinsics_interface_v2.c:208-252 | for all samples those unbounded products are -3 to 4 apart in each component |
| FixedPoint.ProductWithUnit | typeDef/commonStructure.c:40-47 | 8192 stands for one: the scalar product with it changes nothing, and the one with the imaginary unit is a quarter turn |
| FixedPoint.LaneErrorIff | intrinsics_interface/intrinsics_interface_v2.c:208-252 | for all samples a component of the lane product is -3 to 4 away from the scalar one if and only if both unbounded values have left the 16-bit range equally often |
| FixedPoint.LaneError | intrinsics_interface/intrinsics_interface_v2.c:208-252 | for components up to 16000 and 8192 no value on the way to either product wraps, and the products are -3 to 4 apart |
| FixedPoint.LaneErrorIsTight | intrinsics_interface/intrinsics_interface_v2.c:230-251 | both ends of that bound are reached |
| FixedPoint.LaneWraps | intrinsics_interface/intrinsics_interface_v2.c:230-251 | a pair of samples that fails this condition: only the lane product wraps |
| FixedPoint.DotsAreWrapped | intrinsics_interface/intrinsics_interface_v2.c:59-111 | for all samples both inner products are the unbounded sums modulo 65536, whatever wraps on the way |
| FixedPoint.DotError | intrinsics_interface/intrinsics_interface_v2.c:59-111 | for all samples inner products of n terms differ by -3 n to 4 n in 16-bit arithmetic |
| FixedPoint.DotErrorIff | intrinsics_interface/intrinsics_interface_v2.c:59-111 | for n up to 9362 the difference itself lies in that range if and only if the unbounded sums have left the 16-bit range equally often |
| VectorProducts.MultiplyVector | intrinsics_interface/intrinsics_interface_v2.c:208-252 | the register operations compute the lane products of 16 samples |
| VectorProducts.MultiplyMatrix | intrinsics_interface/intrinsics_interface_v2.c:59-69 | the scalar matrix product computes the scalar inner products with the columns |
| VectorProducts.MultiplyMatrixLanes4 | intrinsics_interface/intrinsics_interface_v2.c:73-111 | the gathered columns and three additions compute the lane inner products |
| VectorProducts.MultiplyMatrixLanes8 | intrinsics_interface/intrinsics_interface_v2.c:115-165 | the same for 8 x 8, two columns a vector product |
| VectorProducts.MatrixError | intrinsics_interface/intrinsics_interface_v2.c:59-165 | the matrix products of any matrices of any size are -3 n to 4 n apart modulo 65536, and within that distance itself where the scalar result is not at the ends of the 16-bit range |
| VectorProducts.MatrixErrorIff | intrinsics_interface/intrinsics_interface_v2.c:59-165 | for any matrices of up to 9362 columns the outputs are within that distance if and only if both outputs have left the 16-bit range equally often |
| VectorProducts.CompareMatrices4 | intrinsics_interface/intrinsics_interface_v2.c:59-111 | both 4 x 4 programs on the same input, whatever it is: -12 to 16 apart modulo 65536 |
| CyclicShift.LazyTable.EnsureReady | process_data/process_datafunction/Data_CSD.c:37-38 | the first use fills the table, later uses find it |
| CyclicShift.DataCsdLanes | process_data/process_datafunction/Data_CSD.c:36-47 | every sample of every stream is the lane product with its table entry |
| CyclicShift.DataCsdScalar | process_data/process_datafunction/Data_CSD.c:7-34 | every sample of every stream is the scalar product with its table entry |
| CyclicShift.DataCsdFlat | process_data/process_datafunction/Data_CSD.c:49-59 | one stream of the flat buffer is shifted and the others stay as they are |
| CyclicShift.DataCsdFlatAll | maindpdk_test_2.c:214-216 | the loop over the streams shifts every stream of the flat buffer |
| CyclicShift.CompareFlat | process_data/process_data.c:98-102 | the flat form over all streams and the scalar form on the same frame and table: every sample -3 to 4 apart, for all N_SYM |
| CyclicShift.CompareForms | process_data/process_datafunction/Data_CSD.c:7-47 | both per-stream forms on the same frame and table: every sample -3 to 4 apart, for all N_SYM |
| FrameShift.MapShiftsAreNear | process_data/process_datafunction/Data_CSD.c:7-47 | for every point of every frame map and every shift factor of at most one no 16-bit value wraps and the two forms are -3 to 4 apart |
| FrameShift.ShiftBothPaths | process_data/process_data.c:30-102 | from the coded bits to the shifted samples: the program with table lookup and lane products and the one with interleaver, modulation and scalar products leave samples -3 to 4 apart, for frames of at most two symbols on up to four streams |
| CyclicPrefix.BlendBetween | Process/process_after_csd/addCPforPreamble.c:30-36 | overlap samples lie between their two inputs, equal inputs pass unchanged and nothing wraps |
| CyclicPrefix.FadesIn | Process/process_after_csd/addCPforPreamble.c:31-36 | from overlap sample to overlap sample the output moves from the symbol before to the new one, strictly if they are three or more apart |
| CyclicPrefix.WindowIsSquaredSine | Process/process_after_csd/addCPforPreamble.c:30-30 | the weights are 8192 times the squared sines of 22.5, 45 and 67.5 degrees, the first rounded up and the last down |
| CyclicPrefix.AddCpForPreamble | Process/process_after_csd/addCPforPreamble.c:6-40 | the copies make the periodic extension, the first three samples are blended with the register, and the register receives the continuation of this symbol |
| CyclicPrefix.AddCpForSig | Process/process_after_csd/addCPforSig.c:6-27 | the same for the shorter symbol |
| CyclicPrefix.RunCalls | Process/process_after_csd/addCPforPreamble.c:32-39 | over any run of calls from a zero register each stream holds the continuation of its own latest symbol |
| CyclicPrefix.OutputIsContinuous | Process/process_after_csd/addCPforPreamble.c:6-40 | in every run the output is the periodic extension, except three samples between it and the symbol before on that stream |
| CyclicPrefix.SymbolBehindGuard | Process/process_after_csd/addCPforPreamble.c:6-29 | in every run the symbol stands whole behind a guard interval of 66 or 34 samples that repeats its end |
| CyclicPrefix.RepetitionIsSeamless | Process/process_after_csd/addCPforPreamble.c:27-36 | a repeated preamble symbol of period 64 joins itself without a seam |
| CyclicPrefix.TilesApart | Process/process_after_csd/addCPforData.c:13-17 | the tiles of different streams and symbols are disjoint and inside the buffer |
| CyclicPrefix.TilesInOrder | Process/process_after_csd/addCPforData.c:13-17 | and they stand side by side from the start of the buffer, symbol after symbol and stream after stream |
| CyclicPrefix.PrefixIsCyclic | Process/process_after_csd/addCPforData.c:13-17 | the prefix makes the symbol cyclic: its samples come again at the end |
| CyclicPrefix.AddCpForData | Process/process_after_csd/addCPforData.c:6-18 | the two copies write the prefixed symbol into its tile and nothing else |
| CyclicPrefix.AddCpForFrame | Process/process_after_csd/addCPforData.c:13-18 | after all calls every tile holds its own prefixed symbol (calls: csd_data_IDFT.c:41-110) |
| InternetChecksum.IpSum | dpdk-stable-16.11.1/app/test-pmd/flowgen.c:90-107 | the loops compute the complement of the ones-complement sum without overflow, for every length; an odd byte is ignored |
| InternetChecksum.AddWordKeeps | dpdk-stable-16.11.1/app/test-pmd/flowgen.c:93-101 | the 32-bit sum never overflows and stands for the sum of the words so far |
| InternetChecksum.SealedHeaderSumsToZero | dpdk-stable-16.11.1/app/test-pmd/flowgen.c:173-186 | for every header, with the result in the zeroed field the sum of the whole header is zero |
| InternetChecksum.OneWrongWord | dpdk-stable-16.11.1/app/test-pmd/flowgen.c:90-107 | exactly which changes of one word go unnoticed |
| InternetChecksum.ByteOrderIndependent | dpdk-stable-16.11.1/app/test-pmd/flowgen.c:90-107 | the checksum does not depend on the byte order of the machine |
| FlowGenerator.Engine.Build | dpdk-stable-16.11.1/app/test-pmd/flowgen.c:157-206 | the flow counter that all streams share and the packets of a burst |
| FlowGenerator.Engine.BackOut | dpdk-stable-16.11.1/app/test-pmd/flowgen.c:226-229 | the counter after backing out unsent packets |
| FlowGenerator.Engine.Burst | dpdk-stable-16.11.1/app/test-pmd/flowgen.c:116-240 | a burst of any stream keeps the shared counter equal to the packets that all streams have sent modulo the flows, with no gap in the flow numbers sent, and sends or frees every packet |
| FlowGenerator.Engine.Run | dpdk-stable-16.11.1/app/test-pmd/flowgen.c:116-240 | over any bursts of any streams every packet received or allocated is sent or freed exactly once |
| FlowGenerator.AllHandled | dpdk-stable-16.11.1/app/test-pmd/flowgen.c:208-234 | the packets of one burst, sent or freed, each once |
| Scrambler.OutputConcat | process_data/process_data.c:14 | scrambling in pieces with the register handed on (body: GenDataAndScramble.c:83-112) |
| Scrambler.Descramble | process_data/process_data.c:14 | the input is read back from the register and the output (body: GenDataAndScramble.c:93-103) |
| Scrambler.SelfSynchronizing | process_data/process_data.c:14 | from the eighth bit on the input depends on the output alone, because the register holds output bits (body: GenDataAndScramble.c:93-103) |
| ScramblerTable.FrameStartsWith | process_data/process_data.c:14 | every frame starts with the bytes 168 and 190, the scrambled service field (body: GenDataAndScramble.c:54-106) |
| ScramblerTable.FrameRecovered | process_data/process_data.c:12-14 | from the output bytes of a frame with the configured lengths a receiver gets the zeros of the service field and then the data bits, without the initial register (body: GenDataAndScramble.c:54-106) |
| ScramblerTable.TableAgrees | process_data/process_data.c:14 | table form and bitwise form put out the same byte if at most one incomplete byte follows the whole ones (body: GenDataAndScramble.c:107-134) |
| ScramblerTable.TableRightIff | process_data/process_data.c:14 | over the padded buffers that the program builds from n data bytes, the two forms put out the same bytes for all data if and only if no bit is left over behind the whole bytes, or the buffer ends with the byte that holds the last bit, or n is 0 and the scrambled zeros end in zeros (body: GenDataAndScramble.c:54-136) |
| ScramblerTable.TableDiffers | process_data/process_data.c:14 | otherwise, for every n from 1 on, the data of the function Exhibit make the last byte differ (body: GenDataAndScramble.c:107-134) |
| FrameLengths.ConfiguredLengths | process_data/process_data.c:12-14 | for every frame and rate the initialisation computes the data bits of all symbols without the tail as valid bits, and a buffer that ends with the byte of the last bit (body: GenInit.c:12-19) |
| FrameLengths.Symbols | process_data/process_data.c:12-12 | the number of symbols is the least that holds the service field, the data and the tail (body: GenInit.c:12) |
| ScramblerTable.BytesAreOutput | process_data/process_data.c:14 | the output bytes are the pieces of one scrambled bit string (body: GenDataAndScramble.c:83-106) |
| ScramblerTable.BytesInjective | process_data/process_data.c:12-14 | with the configured lengths different data have different output bytes (body: GenDataAndScramble.c:54-136) |
| ScramblerLoops.FillEntry | maindpdk_test_2.c:470-471 | one table entry is eight steps of the bitwise form (body: GenDataAndScramble.c:29-51) |
| ScramblerLoops.CreateChart | maindpdk_test_2.c:470-471 | the whole table (body: GenDataAndScramble.c:13-28) |
| ScramblerLoops.ScrambleBitwise | process_data/process_data.c:14 | the bitwise form with its running count (body: GenDataAndScramble.c:84-106) |
| ScramblerLoops.ScrambleByTable | maindpdk_test_2.c:170-179 | the table form with the register number kept between lookups (body: GenDataAndScramble.c:107-134) |
| ScramblerLoops.CompareForms | process_data/process_data.c:12-14 | on every frame with the lengths of its rate both forms leave the same bytes (body: GenDataAndScramble.c:54-136) |
| ScramblerLoops.CompareLongBuffers | process_data/process_data.c:14 | run on the data of Exhibit with a longer buffer and bits left over, they leave different bytes (body: GenDataAndScramble.c:54-136) |

## Left out

- Convolutional encoder and its tables: the coded bits are arbitrary.
- Modulations other than 64-QAM after the interleaver: the mapping loop reads six bits a point and init_mapping_table masks three bits a half, so the table path has no meaning for them. Parser and interleaver are modelled for all rows of the MCS table.
- Constellation.Point: the 64 points of QAM8 are given by the levels of their two axes instead of a list.
- N_ES: it is 1 in every row of the MCS table, and the division by it in the parser is left away.
- TablePath.StreamInterweaveMapping: for five to eight streams it says that the loop reads outside pilot_type, not what the program does afterwards, which C leaves undefined; the model stops there. SubcarrierMap.TablePoint, the map that the table path means, is therefore defined for up to four streams.
- DirectPath.PlaceSymbol: the program reads pilot_index80[p] before it tests p < pilot_N, one place past the list after the last pilot; the value read does not matter and the model tests first. The same holds for TablePath.WriteSymbol and for the zero lists.
- InPlaceFft.Fft: exact arithmetic; sines, cosines, float rounding and the shift by 13 in Multy_Complex are not modelled. InPlaceFft.FftRemap needs a size of at least one, since for size 0 the recursion of the program does not end.
- InPlaceFft.NaiveDft: the destination must not be the source.
- csd_data_IDFT.c apart from its order of calls to addCPforData, ifftShiftandIFFTData and the normalisation by a square root.
- Pipeline.After: rings are FIFO queues whose operations are atomic; ring and pool internals, caches, memory ordering and the launch of threads are not modelled. Two turns of one thread may be any distance apart, so the 10 ms sleep of the retrieving loop is one of the schedules.
- Pipeline.Turn: the work of a stage on a buffer is one entry in its history; counters used only for statistics and the timing are left away. An allocation may fail at any time.
- PipelineTheorems.EightTurnsToExit: says how many own turns a thread needs, not that the system gives them. The same holds of PipelineProgress.NoLaneStarves and PipelineLiveness.EveryFrameReturns, whose numbers of turns are bounds and not the least ones. Frames on their way when quit is set stay on the rings.
- DispatcherProgress.RetrieverFinds: says that some frame is taken, not which; the thread tries the rings in the order of their numbers, and the dispatcher may deal past a lane whose ring is full, so there is no bound for each lane as in the pipeline.
- maindpdk1.c, maindpdk_test.c and simple_mp_5_17: smaller variants of the same conservation argument.
- CyclicShift.LazyTable.EnsureReady: the values that initcsdTableForHeLTF computes from sines and cosines are a parameter; the contract says that the table holds them after the first use.
- CyclicShift.DataCsdScalar: the factors that the source computes from sines and cosines in front of the symbol loop of each stream are a parameter, the same one as for the lane forms.
- VectorProducts.MultiplyVector: operands are values, so a destination that overlaps an operand is not modelled; the float version Mult_complex32Vector is left out.
- divForComplex32, Divide_Complex32: float division.
- CyclicPrefix.AddCpForData: the lengths 3.2 * SampRate and SampRate / (Band / 4) * subcar are parameters; bccInterleaverForSig and the preamble tables are left out.
- FlowGenerator.Engine.Burst: retries are disabled; the retry block compares with the number of received packets. Bursts follow one another, as on one core; a race of several cores on the static counter is not modelled. Header fields other than the flow number, and cycle statistics, are left out.
- DispatcherLoss.LossIff: for pools larger than rings the ring size is bounded by 32 C + 27 < 100000, so that the schedule ends before the program has returned its last frame.
- FixedPoint.DotErrorIff: up to 9362 terms, as VectorProducts.MatrixErrorIff; for more the range of the error is as wide as all of 16-bit arithmetic.
- FrameLengths.Symbols: N_ES is 1, and the rounding of a quotient of doubles is the integer rounding that it stands for.
- File input and output, timing, malloc failures, and the rest of the bundled DPDK tree.
