# Display system: protocols, calibration and state machines

A Dafny model of the parts of the display system that hold algorithms or state machines, with proofs about
them. `dafny verify dfyconfig.toml` verifies the whole project.

Code that changes state step by step is modelled by classes and methods with loops; each method is proved
equal to a function, or against a statement of what it achieves, and the properties over whole runs are
proved about those functions. What lies outside (sockets, buses, timers, files, measurements, video timing,
the operator) is an input about which nothing is assumed unless a contract says so.

| files | subject |
|---|---|
| `IsoTp`, `IsoTpTheorems`, `IsoTpInterference`, `IsoTpNodes` | part-number transfer between the CAN daemon and its client (frame types of section 9.6 of ISO 15765-2:2016) |
| `Gf2`, `ChipSerial`, `McuController` | chip serial (CRC-64 with the generator of Annex B of ECMA-182, base 32), firmware verdict and its debouncing |
| `ColorMath`, `WpAdjust`, `BestTrials`, `Calibration` | colorimetric solve, gain registers with commit at a frame boundary, measure-correct-keep-best loop |
| `WhitePointMatch` | legacy matcher: least-squares slopes, exhaustive search, keep-best loop |
| `DualDisplay`, `DualDisplayController`, `StateFile`, `Rounding` | dual-display brightness machine, two-copy state file, the rounding rule and its Python twin |
| `LineFramer`, `ControlPort` | the control port's line framer |
| `FpgaProtocol` | FPGA protocol selection and the rule about legacy writes |
| `HistoryRing` | ring of firmware-update records in flash |
| `Basics` | shared types |

## Where the code does not do what is expected of it

Each of these is a theorem below, with the exact condition.

- The client tolerates repeated frames exactly for payloads of at most 15 consecutive frames
  (`ReplayToleranceIsExact`). After k segments a repeat of segment j is ignored, fails the read with exit code 4, or is
  taken for new data, as j mod 16 is below, above or equal to k mod 16 (`RepeatedSegment`).
- The daemon's read and write halves share one sequence number, and any sender may write a first frame. The third
  frame of a write is answered if and only if the last frame that touched the link is an accepted 0x21 frame that left
  ten bytes held (`ThirdFrameIff`); what is stored is put together from the last first frame, the one frame accepted
  after it and the completing frame, whoever sent them (`CompletionStores`), so a confirmed write may hold a mix of two
  writers' values (`TwoWritersMix`), and a repeated second frame may complete a transfer (`RepeatCompletes`).
- The writing client takes every frame on the response id for an answer to itself. It reports success if and only if a
  positive reply is heard after one or two flow controls and nothing else (`ExitZeroIff`). A read request or a pattern
  command in a gap makes it report a refusal although the value is stored (`ReadCostsTheReport`,
  `BystandersAndTheReport`).
- A response that announces fewer than three bytes makes the client wait until its timeout: the length it compares
  with has wrapped around (`ShortTotalNeverCompletes`).
- 64 bits is the exact burst bound of the serial: any identification of at least nine bytes has a twin with the
  same CRC that differs inside 65 bits (`BurstBoundIsExact`).
- Restoring the earlier gains after an operator abort cancels itself, because the flag is still set, unless a frame
  boundary falls in one of two places (`RestoreUnderAbort`). While a commit is left pending, after a timeout or a bus
  error, restoring is refused until video has latched it (`RestoreAfterTimeout`, `LeftPending`).
- A run that starts with a commit pending can save, and later restore, a triple that was never active: the three reads
  are torn exactly when the commit latches between two of them and changes registers on both sides (`TornReadIff`).
- A brightness send that fails, in whichever way, is repeated only if a newer request waits
  (`FailedSendIsRetriedIff`). A request given up earlier that a display carries out late sets the displays apart
  unless it holds the same value, and the controller does not notice (`DisturbanceBreaksIff`).
- A clear that removes only the newer copy of the saved state brings an older save back (`FailedClearResurrects`).
  That is the only way a load can miss the last successful save (`LoadIsLastSaveIff`, `FailedClearChangesLoadIff`).
- The controller and the restore script round differently exactly on ties above an even step count
  (`RulesDifferIff`).
- The matcher's guard against a zero denominator fires exactly when every point that moves an axis is less than a
  whole step above 256, so never with integer registers (`DenominatorIsPositiveIff`, `WholeRegistersWeigh`). A point
  that lacks the register it should move, or an average, makes loading the profile raise instead of falling back to
  the built-in model (`LoadProfileModel`).
- When a client's data and the end of its stream are read in one activation, all lines not yet handled become one
  command (`EndWithDataIsFramedIff`).
- "An FPGA with the 0x1E slave never gets legacy writes" holds if that slave answers the one check that follows
  three failed probes; a single missed answer there is enough to select legacy (`LegacyIsSelectedIff`). From then on a
  refresh keeps legacy exactly while the bus opens and the legacy version is plausible (`RefreshNow`).
- Setting one of local dimming and pixel compensation over the new protocol saves the flag shown for the other one,
  which loses the saved choice whenever the two differ (`SetToggle`).
- A flash sector that is neither empty nor headed is erased before it is recognised, so its content and the new
  record are both lost (`UnknownSectorIsLost`).

## Model

| member | source | states |
|---|---|---|
| IsoTpNodes.CanDaemon.ProcessCanCommand | package/disp-can-ctrl/src/disp-can-ctrl.cpp:419-599 | one frame takes the daemon, buffers, flags, shared sequence number and part number together, to the state of the reference machine, with exactly its replies |
| IsoTpNodes.CanDaemon.AcceptConsecutive | package/disp-can-ctrl/src/disp-can-ctrl.cpp:530-567 | an expected consecutive frame fills the buffer up to the announced length and, once it is complete, stores the part number and answers |
| IsoTpNodes.CanDaemon.SendConsecutiveFrames | package/disp-can-ctrl/src/disp-can-ctrl.cpp:568-598 | flow control sends all remaining frames of the prepared response, ends sending, and leaves the sequence number where the last frame put it |
| IsoTpNodes.CanDaemon.SetHwPartNum | package/disp-can-ctrl/src/disp-can-ctrl.cpp:338-349 | strings over 16 bytes are refused unchanged; any other replaces the whole NUL-terminated buffer |
| IsoTpNodes.CanDaemon.GetPadded | package/disp-can-ctrl/src/disp-can-ctrl.cpp:473-500 | the response carries the stored string padded with zeros to 16 bytes |
| IsoTpNodes.BuildConsecutive | package/disp-can-ctrl/src/disp-can-ctrl.cpp:400-407 | header nibble, chunk and zero padding of a consecutive frame |
| IsoTpNodes.Extract | package/disp-can-ctrl/src/disp-can-client.cpp:353-362 | all bytes but NUL, in order |
| IsoTpNodes.PartNumberReader.OnFrame | package/disp-can-ctrl/src/disp-can-client.cpp:296-386 | the client's reaction to one frame: accept, ignore a repeat, finish or fail with its exit code |
| IsoTpNodes.HandleGetHwPartNum | package/disp-can-ctrl/src/disp-can-client.cpp:260-387 | a read against a live daemon in any state returns the stored part number and does not change it |
| IsoTpNodes.HandleSetHwPartNum | package/disp-can-ctrl/src/disp-can-client.cpp:391-487 | a write against a live daemon in any state succeeds and stores the value; over 16 bytes it fails with code 2 and sends nothing |
| IsoTp.StepKeepsWellFormed | package/disp-can-ctrl/src/disp-can-ctrl.cpp:419-599 | every frame keeps the part number NUL-terminated in its buffer and the sequence number one nibble |
| IsoTpTheorems.SegmentsReassemble | package/disp-can-ctrl/src/disp-can-ctrl.cpp:568-597 | for every payload length from 7 to 255 the client loop applied to the sender loop's frames gives back the payload, through every wrap of the sequence number |
| IsoTpTheorems.ReadReturnsStored | package/disp-can-ctrl/src/disp-can-client.cpp:260-387 | a complete read from any daemon state, stale flags included, returns the stored string and leaves it alone |
| IsoTpTheorems.WriteStores | package/disp-can-ctrl/src/disp-can-client.cpp:391-487 | a complete write from any daemon state reports success and stores exactly the non-NUL bytes |
| IsoTpTheorems.TooLongIsRefused | package/disp-can-ctrl/src/disp-can-client.cpp:391-396 | a write exits with 2 if and only if its value is over 16 bytes, and then leaves the daemon alone |
| IsoTpTheorems.WriteThenReadRoundTrips | package/disp-can-ctrl/src/disp-can-ctrl.cpp:473-598 | a write and then a read returns the string; only NUL bytes are lost |
| IsoTpTheorems.StoredReadsBack | package/disp-can-ctrl/src/disp-can-ctrl.cpp:338-354 | reading a stored string back gives its part before any NUL |
| IsoTpTheorems.WrongStartEndsRead | package/disp-can-ctrl/src/disp-can-client.cpp:296-345 | a read that first hears anything but a first frame of the part number's answer ends with 4 |
| IsoTpTheorems.OtherFrameEndsRead | package/disp-can-ctrl/src/disp-can-client.cpp:375-383 | at any point of a read, a frame that is neither a first nor a consecutive one ends it with 4 |
| IsoTpTheorems.ReadHearsSegmentsOnly | package/disp-can-ctrl/src/disp-can-client.cpp:260-387 | a read that succeeds heard nothing but first and consecutive frames up to its end |
| IsoTpTheorems.ShortTotalNeverCompletes | package/disp-can-ctrl/src/disp-can-client.cpp:340-352 | an announced length below 3 wraps around, and such a read never completes |
| IsoTpTheorems.SingleReplyEchoes | package/disp-can-ctrl/src/disp-can-ctrl.cpp:424-467 | which commands are answered, exactly, and that each answer names the parameter written |
| IsoTpTheorems.RepliesAreTyped | package/disp-can-ctrl/src/disp-can-ctrl.cpp:388-416 | every frame the daemon sends has 8 bytes, one of the four frame types and the response id |
| IsoTpTheorems.ReplaysHarmless | package/disp-can-ctrl/src/disp-can-client.cpp:327-380 | with at most 15 consecutive frames, repeating delivered frames anywhere does not change the client's result |
| IsoTpTheorems.RepeatedSegment | package/disp-can-ctrl/src/disp-can-client.cpp:327-380 | a segment j repeated after k were accepted is ignored, fails the read, or has its old bytes taken for the next ones, as j mod 16 is below, above or equal to k mod 16 |
| IsoTpTheorems.ReplayAfterWrapFails | package/disp-can-ctrl/src/disp-can-client.cpp:332-380 | with more, repeating the frame just accepted makes the client fail |
| IsoTpTheorems.ReplayToleranceIsExact | package/disp-can-ctrl/src/disp-can-client.cpp:327-380 | independence of repeats holds if and only if the payload needs at most 15 consecutive frames |
| IsoTpTheorems.WriteSurvivesBystanders | package/disp-can-ctrl/src/disp-can-ctrl.cpp:502-567 | with repeated consecutive frames, pattern commands, other nodes' frames and TCP updates anywhere inside a write, the part number stored is its value; what the client is told is the subject of BystandersAndTheReport |
| IsoTpTheorems.BystandersKeepLink | package/disp-can-ctrl/src/disp-can-ctrl.cpp:419-599 | such traffic leaves the transfer state untouched, for any sequence of it |
| IsoTpTheorems.TransferCompletesIff | package/disp-can-ctrl/src/disp-can-ctrl.cpp:473-598 | one frame between the last two frames of a write breaks it if and only if it is a read request, a first frame, or a flow control while a response is prepared |
| IsoTpInterference.RunFollows | package/disp-can-ctrl/src/disp-can-ctrl.cpp:419-599 | over every run of events the daemon's buffers, flags, sequence number, part number and everything heard on the response id are those of the five-part assembly |
| IsoTpInterference.CompletionStores | package/disp-can-ctrl/src/disp-can-ctrl.cpp:502-567 | wherever a write completes: the last first frame's three bytes, the seven of the one frame accepted since, and the first six of the completing frame, whoever sent them |
| IsoTpInterference.LastStoreCounts | package/disp-can-ctrl/src/disp-can-ctrl.cpp:338-349 | after any run the part number is what the last completion or accepted TCP update stored |
| IsoTpInterference.ThirdFrameIff | package/disp-can-ctrl/src/disp-can-ctrl.cpp:473-598 | for every traffic in both gaps: the third frame is answered if and only if the last event that touched the link was an accepted 0x21 frame that left ten bytes held; what is then stored; otherwise it changes nothing |
| IsoTpInterference.WriterIsStoredIff | package/disp-can-ctrl/src/disp-can-ctrl.cpp:502-567 | an answered third frame stored the writer's value if and only if the ten bytes held carried the text of the writer's first ten |
| IsoTpInterference.ExitZeroIff | package/disp-can-ctrl/src/disp-can-client.cpp:391-487 | for every traffic before, between and after the three frames: exit code 0 if and only if some event confirms and before it one or two flow controls were heard, no read request, no executed pattern or home command, no effective flow control and no other frame on the response id |
| IsoTpInterference.ExitZeroMeans | package/disp-can-ctrl/src/disp-can-client.cpp:456-487 | after the confirming event the part number is the value that event completed, the writer's if and only if that carries the same text; if another node's frame confirmed, it is what it was |
| IsoTpInterference.ExitOneIff | package/disp-can-ctrl/src/disp-can-client.cpp:391-487 | exit code 1 if and only if one or two flow controls are all that is ever heard |
| IsoTpInterference.QuietBusIsWriteBytes | package/disp-can-ctrl/src/disp-can-client.cpp:391-487 | without other traffic the write is that of WriteStores |
| IsoTpInterference.BystandersAndTheReport | package/disp-can-ctrl/src/disp-can-client.cpp:456-487 | among traffic that leaves the link alone, the client exits with 4 if and only if a pattern or home command was carried out before the confirmation, else with 0 |
| IsoTpInterference.TwoWritersMix | package/disp-can-ctrl/src/disp-can-ctrl.cpp:502-567 | a second writer's first two frames in the last gap: exit code 0, and a mix of both values stored |
| IsoTpInterference.ReadCostsTheReport | package/disp-can-ctrl/src/disp-can-client.cpp:456-487 | a read request in the first gap: the writer's value is stored and the client exits with 4 |
| IsoTpInterference.RepeatCompletes | package/disp-can-ctrl/src/disp-can-ctrl.cpp:530-567 | a read request and a repeated second frame in the last gap: the repeat completes the transfer with its own bytes |
| IsoTpInterference.FirstGapFrameIff | package/disp-can-ctrl/src/disp-can-ctrl.cpp:473-567 | after one event in the first gap the daemon still waits for the second frame unless it was that frame or an effective flow control |
| IsoTpInterference.ForeignSecondReplaces | package/disp-can-ctrl/src/disp-can-ctrl.cpp:530-567 | the expected second frame from another sender is stored in place of the writer's |
| IsoTpInterference.ForeignThirdReplaces | package/disp-can-ctrl/src/disp-can-ctrl.cpp:530-567 | likewise the expected third frame |
| IsoTpTheorems.StepKeepsSendingIsResponse | package/disp-can-ctrl/src/disp-can-ctrl.cpp:473-500 | in every reachable state a prepared response has 19 bytes and goes to the response id |
| IsoTpTheorems.ReadIsSnapshot | package/disp-can-ctrl/src/disp-can-ctrl.cpp:473-500 | a part number set over TCP between request and flow control does not reach the response already started |
| ChipSerial.ShiftIsLinear | package/disp-settings/src/McuController.cpp:520-527 | one shift of the register distributes over exclusive or |
| ChipSerial.ShiftIsInjective | package/disp-settings/src/McuController.cpp:520-527 | one shift loses nothing, because the polynomial's top bit is set |
| ChipSerial.RegisterIsFeed | package/disp-settings/src/McuController.cpp:520-527 | mixing whole bytes in and feeding their bits lowest first are the same |
| Gf2.RegisterIsRemainder | package/disp-settings/src/McuController.cpp:519-527 | a shift register fed any message from any start ends in the one remainder of the dividend by its generator, and in nothing else |
| ChipSerial.CrcIsRemainder | package/disp-settings/src/McuController.cpp:519-528 | the message in transmission order times the 64th power, its first 64 bits inverted, leaves the complement of the CRC, and nothing else, as its remainder by the generator with the powers listed in Annex B of ECMA-182 |
| ChipSerial.WindowTellsStartsApart | package/disp-settings/src/McuController.cpp:512-527 | over at most 64 bits, equal final registers mean the starts differ exactly by the bits' difference |
| ChipSerial.BurstsChangeCrc | package/disp-settings/src/McuController.cpp:512-527 | distinct identifications of one length, any length, that differ only inside 64 consecutive bits have different CRCs |
| ChipSerial.Superposition | package/disp-settings/src/McuController.cpp:520-527 | feeding the difference of two messages to the difference of two registers gives the difference of the results |
| ChipSerial.BurstBoundIsExact | package/disp-settings/src/McuController.cpp:512-527 | every identification of nine bytes or more shares its CRC with one that differs inside 65 bits, at any position |
| ChipSerial.RenderingIsInvertible | package/disp-settings/src/McuController.cpp:530-537 | the 13 characters determine all 64 bits |
| ChipSerial.RenderingIsNumeral | package/disp-settings/src/McuController.cpp:533-536 | the characters are the register's number in base 32, the most significant first |
| ChipSerial.AlphabetIsCrockfords | package/disp-settings/src/McuController.cpp:530-532 | the digits are 0 to 9 and A to Z without I, L, O and U, ascending |
| ChipSerial.SameSerialSameCrc | package/disp-settings/src/McuController.cpp:530-539 | equal grouped serials mean equal CRCs |
| ChipSerial.BurstsChangeSerial | package/disp-settings/src/McuController.cpp:512-539 | identifications that differ only inside 64 consecutive bits never show the same serial |
| McuController.ComputeCrc64 | package/disp-settings/src/McuController.cpp:520-528 | the bit loop computes the CRC that CrcIsRemainder characterises by division |
| McuController.RenderSerial | package/disp-settings/src/McuController.cpp:530-537 | the character loop, from the last character back, computes the rendering of the theorems |
| McuController.Controller.ReadChipSerial | package/disp-settings/src/McuController.cpp:490-543 | the serial is set once, only from four stable chunks that are not all blank, and is the base-32 numeral of their CRC |
| McuController.LastConfirmingIsLast | package/disp-settings/src/McuController.cpp:463-485 | the confirming position used is the last one that ends three equal conclusive verdicts |
| McuController.UnknownPublishesNothing | package/disp-settings/src/McuController.cpp:463-485 | an inconclusive poll neither raises nor clears anything |
| McuController.FlappingPublishesNothing | package/disp-settings/src/McuController.cpp:463-485 | nothing was ever published if and only if no verdict was seen three times running |
| McuController.OneMore | package/disp-settings/src/McuController.cpp:463-485 | counting up to three agrees with the last confirming position after every further verdict |
| McuController.Controller.PublishStatus | package/disp-settings/src/McuController.cpp:463-485 | the published flags and reason are those of the last confirmed verdict of the whole history; the alert is the disjunction of two causes never both set |
| McuController.Controller.SetStatus | package/disp-settings/src/McuController.cpp:242-264 | the flags, the alert and the reason become those asked for |
| McuController.StableWasSeenTwice | package/disp-settings/src/McuController.cpp:361-379 | a stable answer was returned by two consecutive reads |
| McuController.Controller.ReadStable | package/disp-settings/src/McuController.cpp:361-379 | three pairs of reads at most; the first agreeing pair counts, a failed read ends the attempt |
| McuController.Controller.MatchReferences | package/disp-settings/src/McuController.cpp:405-438 | fine if some shipped image of the board matches, update if only others exist, unknown if there is none, whatever their order |
| McuController.VerdictOnImage | package/disp-settings/src/McuController.cpp:393-438 | for slot information that spells an image: fine if that image is shipped, update if only others of its board and application are, unknown if none is |
| McuController.Controller.EvaluateStatus | package/disp-settings/src/McuController.cpp:381-439 | the verdict of a poll from what could be read stably |
| McuController.Controller.UpdateFirmwareStatus | package/disp-settings/src/McuController.cpp:545-551 | a poll appends its verdict to the history and keeps the published flags those of the last confirmation |
| ColorMath.XyzRoundTrip | package/disp-tester/src/d65-calibration-child.py:404-414 | chromaticity and luminance come back from the tristimulus values |
| ColorMath.ChromaticityIsShare | package/disp-tester/src/d65-calibration-child.py:410-414 | chromaticities are exactly the shares of X and Y in the sum of all three |
| ColorMath.SolveSolves | package/disp-tester/src/d65-calibration-child.py:428-443 | for every non-singular matrix the solved gains mix to exactly the target |
| ColorMath.SolveIsUnique | package/disp-tester/src/d65-calibration-child.py:428-443 | gains that mix to a target are what the solve returns for it |
| ColorMath.RegularIsIndependent | package/disp-tester/src/d65-calibration-child.py:428-443 | if the solve does not refuse a matrix, only zero gains mix to no light |
| ColorMath.PureChannelsAreRegular | package/disp-tester/src/d65-calibration-child.py:428-443 | the guard refuses three pure channels exactly if their product is below the threshold |
| ColorMath.GainsHitTarget | package/disp-tester/src/d65-calibration-child.py:446-456 | the solved gains give exactly the target chromaticity and the original luminance |
| ColorMath.SolveFailsExactlyWhen | package/disp-tester/src/d65-calibration-child.py:404-456 | the solve fails if and only if the target has no y or the matrix is singular |
| ColorMath.NoCorrectionIffOnTarget | package/disp-tester/src/d65-calibration-child.py:446-456 | no correction is asked for if and only if white is already on the target |
| ColorMath.HeadroomKeepsColour | package/disp-tester/src/d65-calibration-child.py:459-464 | normalisation keeps the chromaticity |
| ColorMath.HeadroomBoundsGains | package/disp-tester/src/d65-calibration-child.py:459-464 | it brings the largest gain to the headroom if it was above, leaves no gain above it, and otherwise changes nothing |
| ColorMath.UndampedStepHitsTarget | package/disp-tester/src/d65-calibration-child.py:1134-1146 | an undamped correction from any current gains, normalised, lands on the target chromaticity |
| ColorMath.CandidateLands | package/disp-tester/src/d65-calibration-child.py:1134-1148 | without damping and clipping, the registers written are those nearest, channel by channel, to code gains under which the channels mix exactly to the target |
| ColorMath.CandidateIsPerChannel | package/disp-tester/src/d65-calibration-child.py:1134-1148 | in general they are nearest to the encoded and clamped products of one factor, each channel's gain and its own floored and damped correction, where the corrections take the present white exactly to the target |
| ColorMath.FixedIsNearest | package/disp-tester/src/d65-calibration-child.py:482-492 | the register value is 16 bits wide and at most half a step from the gain |
| ColorMath.FixedRoundTrip | package/disp-tester/src/d65-calibration-child.py:482-492 | reading a register as a gain and writing it again changes nothing |
| ColorMath.UnityIsOne | package/disp-tester/src/d65-calibration-child.py:482-492 | the unity register is the gain 1 in both directions |
| ColorMath.FixedIsMonotone | package/disp-tester/src/d65-calibration-child.py:482-488 | a smaller gain has no larger register value and overflows no earlier |
| ColorMath.CandidateInLimits | package/disp-tester/src/d65-calibration-child.py:1134-1148 | every triple an iteration computes is within the gain limits and 16 bits |
| WpAdjust.StatusBits | package/disp-tester/src/d65-calibration-child.py:514-540 | the two low status bits are pending and consumed |
| WpAdjust.Registers.Read16 | package/disp-tester/src/d65-calibration-child.py:514-540 | a read returns the register or raises, with a frame boundary possibly latching a pending commit before it |
| WpAdjust.Registers.Write16 | package/disp-tester/src/d65-calibration-child.py:541-556 | the effect of each register write, magic values included; one that raises may have taken effect or not |
| WpAdjust.Registers.WriteShadow | package/disp-tester/src/d65-calibration-child.py:625-638 | eight operations that change nothing active; verified if and only if all four registers hold what was written and none raised |
| WpAdjust.Registers.AwaitCommit | package/disp-tester/src/d65-calibration-child.py:642-654 | committed, timed out, aborted or broken off by the bus, each with its exact condition on boundaries and faults; the exact active triple, and exactly when the commit stays pending |
| WpAdjust.Registers.WriteGainsAndCommit | package/disp-tester/src/d65-calibration-child.py:620-654 | for every timing and every failing operation the active triple is at every register operation the whole old or the whole new one; each outcome, the active triple and a pending commit with their exact conditions; normal return means the new one |
| WpAdjust.Registers.RestorePreRunGains | package/disp-tester/src/d65-calibration-child.py:1255-1270 | restoring restores if and only if the stated condition on timing, abort, readback and bus holds; a panel that had no correction gets its defaults for every control, deadline and pending commit |
| WpAdjust.TornReadIff | package/disp-tester/src/d65-calibration-child.py:617-618 | which triple three reads give when a commit is pending, and that it is neither the old nor the new one exactly when the commit latches between reads and changes registers on both sides |
| WpAdjust.RestoresWithoutAbort | package/disp-tester/src/d65-calibration-child.py:1255-1270 | without abort flag, bus error and pending commit, a frame within the deadline makes it restore |
| WpAdjust.RestoreUnderAbort | package/disp-tester/src/d65-calibration-child.py:1255-1270 | with the abort flag set it restores if and only if a frame boundary falls at one of two operations |
| WpAdjust.RestoreAfterTimeout | package/disp-tester/src/d65-calibration-child.py:620-623 | with a commit still pending nothing is restored |
| BestTrials.KeepBest | package/disp-tester/src/d65-calibration-child.py:1186-1189 | replacing the best by a strictly closer trial keeps it the first of the closest |
| BestTrials.FirstBestIsUnique | package/disp-tester/src/d65-calibration-child.py:1114-1189 | that best is unique and no farther than the baseline |
| Calibration.CorrectUntilBest | package/disp-tester/src/d65-calibration-child.py:1114-1201 | a normal return leaves the first closest measured setting active, "calibrated" exactly when it is within tolerance, and no triple was ever active that was not tried |
| Calibration.TrialLands | package/disp-tester/src/d65-calibration-child.py:1134-1148 | every correction a run tried has its registers nearest to code gains that mix exactly to the target, under the conditions of CandidateLands |
| Calibration.CorrectionReadsBack | package/disp-tester/src/d65-calibration-child.py:1134-1173 | what the loop reads back after a correction stands, channel by channel, for gains within half a register step of ones that mix exactly to the target, and for those themselves if they are whole steps |
| Calibration.DistanceIsEuclidean | package/disp-tester/src/d65-calibration-child.py:1013-1016 | with a Euclidean hypot the distance of a trial is that of the two chromaticities |
| Calibration.RunCalibration | package/disp-tester/src/d65-calibration-child.py:1082-1204 | the same for a whole run, with the earlier gains kept for restoration whenever it fails, which is what its three reads gave; a commit it issued is left pending only by a timeout or a bus error |
| Calibration.RunMatch | package/disp-tester/src/new-white-point-match-child.py:1091-1218 | the same towards a measured reference display, without restoration |
| Calibration.ReferenceIsOnTarget | package/disp-tester/src/new-white-point-match-child.py:1091-1218 | the target of that run is the reference: it is no distance away from itself |
| Calibration.CalibrateOrRestore | package/disp-tester/src/d65-calibration-child.py:1255-1270 | a run that failed after reading the earlier gains leaves exactly what it read, if it left no commit pending and from then on video runs, writes are faithful, the bus works and the abort flag is clear; if what it read was no correction, one write that arrives is enough, aborted or timed out |
| Calibration.TrialsInLimits | package/disp-tester/src/d65-calibration-child.py:1134-1148 | every correction written in a run is within the limits |
| WhitePointMatch.SumsCombine | package/disp-tester/src/white-point-match-child.py:656-667 | sums over the samples take over every linear relation between their terms |
| WhitePointMatch.ResidualsChange | package/disp-tester/src/white-point-match-child.py:644-667 | how the summed squares change between any two slopes, from two sums of the samples |
| WhitePointMatch.SlopeIsLeastSquares | package/disp-tester/src/white-point-match-child.py:656-667 | the fitted slope is the one least-squares slope through the baseline: any other has strictly larger residuals |
| WhitePointMatch.DenominatorIsPositiveIff | package/disp-tester/src/white-point-match-child.py:644-659 | the denominator is positive if and only if some point that moves the axis is a whole step away from 256 |
| WhitePointMatch.WholeRegistersWeigh | package/disp-tester/src/white-point-match-child.py:644-659 | with whole-numbered registers that is every point that moves the axis |
| WhitePointMatch.Total | package/disp-tester/src/white-point-match-child.py:656-667 | the loop over the terms of a list computes their sum |
| WhitePointMatch.Slope | package/disp-tester/src/white-point-match-child.py:661-667 | for a positive denominator the slope is the unique least-squares one |
| WhitePointMatch.FitAxis | package/disp-tester/src/white-point-match-child.py:644-667 | an axis fits, falls back or raises exactly as its points have registers, whole steps and averages; if it fits, its slopes are least-squares over exactly the points that move only that axis |
| WhitePointMatch.LoadProfileModel | package/disp-tester/src/white-point-match-child.py:620-669 | fitted, built-in or exception, decided by the file, the baseline and the first axis that does not fit; a fitted model is least-squares on every axis |
| WhitePointMatch.LinearProfileIsFitted | package/disp-tester/src/white-point-match-child.py:648-667 | a profile measured exactly on a linear panel is fitted with that panel's slopes |
| WhitePointMatch.BaselineMovesNothing | package/disp-tester/src/white-point-match-child.py:633-637 | the baseline point is among no axis' points |
| WhitePointMatch.TruncatedDropsFraction | package/disp-tester/src/white-point-match-child.py:653-653 | registers are cut to whole numbers in the direction of zero |
| WhitePointMatch.SolveCandidate | package/disp-tester/src/white-point-match-child.py:682-705 | the triple loop returns the lexicographically first minimiser of the score over the whole cube |
| WhitePointMatch.BestIsNoWorse | package/disp-tester/src/white-point-match-child.py:672-705 | from inside the cube the prediction is never farther than the present measurement |
| WhitePointMatch.PredictionIsExact | package/disp-tester/src/white-point-match-child.py:672-679 | on a panel linear in its registers the prediction from any measured setting to any other is exactly what is measured there |
| WhitePointMatch.ChoiceReachesReference | package/disp-tester/src/white-point-match-child.py:682-705 | if such a panel can show the reference, the choice shows it up to the penalty on moving |
| WhitePointMatch.TiesMoveLeast | package/disp-tester/src/white-point-match-child.py:688-704 | of settings predicted equally far off the choice takes the fewest register steps, and of those the first |
| WhitePointMatch.DistanceIsEuclidean | package/disp-tester/src/white-point-match-child.py:613-617 | with a root that undoes squaring, distances are Euclidean |
| WhitePointMatch.Panel.WriteTriplet | package/disp-tester/src/white-point-match-child.py:600-602 | a failing write leaves the registers before it written and the others alone |
| WhitePointMatch.Correct | package/disp-tester/src/white-point-match-child.py:833-892 | one correction: it stops only where the present setting is the search's own choice, writing nothing; otherwise the trial is that choice, with its prediction, predicted no farther than the present measurement |
| WhitePointMatch.RunMatch | package/disp-tester/src/white-point-match-child.py:772-909 | a normal return leaves the first closest measured setting in the registers; every trial is the search's choice from the one before and stays in the cube; matched exactly within tolerance; not matched only after all corrections or where the model knows no better setting |
| WhitePointMatch.LinearPanelIsMatched | package/disp-tester/src/white-point-match-child.py:772-909 | a run on a linear panel that knows its slopes, towards a reference the panel can show, is matched by its first correction at the latest, if the tolerance is not below the penalty's bound |
| DualDisplay.StepKeepsInv | package/disp-settings/src/DualDisplayAbsoluteController.cpp:1189-1356 | every event keeps: one send in flight exactly while its socket exists, primary acknowledged before secondary, nothing pending without a throttle or a send, agreement at rest unless something else changed a display |
| DualDisplay.EveryRunAgrees | package/disp-settings/src/DualDisplayAbsoluteController.cpp:497-605 | the same after every run from start-up, enabling, disabling, adoption, exit and requests carried out late included |
| DualDisplay.DisturbanceBreaksIff | package/disp-settings/src/DualDisplayAbsoluteController.cpp:1344-1356 | at rest, a request carried out late leaves the displays in agreement if and only if it holds the value they show |
| DualDisplay.CalmDescends | package/disp-settings/src/DualDisplayAbsoluteController.cpp:1206-1332 | of the events that are neither requests nor failures, none raises the rank of what is left to do and every step forward lowers it |
| DualDisplay.ProgressIsPossible | package/disp-settings/src/DualDisplayAbsoluteController.cpp:1206-1332 | until everything is delivered some step forward can happen |
| DualDisplay.LastRequestIsDelivered | package/disp-settings/src/DualDisplayAbsoluteController.cpp:1189-1342 | over any run of such events, split answers and hardware polls included, at most rank many are steps forward, and when nothing is left both displays show the last requested value |
| DualDisplay.FirstUseIsDelivered | package/disp-settings/src/DualDisplayAbsoluteController.cpp:497-586 | enabling from start-up and a first request bring the machine where delivery is promised |
| DualDisplay.RunKeepsWithinShared | package/disp-settings/src/DualDisplayAbsoluteController.cpp:548-548 | over every run, in dual mode nothing requested or sent exceeds the maximum last read from the displays by more than 0.05, and nothing shown does unless something else set it |
| DualDisplay.BottomIsExact | package/disp-settings/src/DualDisplayAbsoluteController.cpp:1358-1364 | every request of at most 20 nits becomes exactly 20, or the maximum if that is less |
| DualDisplay.FailedSendIsRetriedIff | package/disp-settings/src/DualDisplayAbsoluteController.cpp:1254-1342 | after any of the four ways a send can fail it is repeated if and only if a newer request is pending |
| DualDisplayController.Controller.Handle | package/disp-settings/src/DualDisplayAbsoluteController.cpp:497-1356 | whatever event happens, the slot that handles it keeps the invariant of the object and its displays and performs the transition of the theorems |
| DualDisplayController.Controller.Run | package/disp-settings/src/DualDisplayAbsoluteController.cpp:497-1356 | after any run of the object: a send exactly with a socket, primary acknowledged before secondary, nothing waiting forgotten, agreement at rest, delivery of the last request, and nothing above the shared maximum |
| DualDisplayController.Controller.SetAbsoluteBrightness | package/disp-settings/src/DualDisplayAbsoluteController.cpp:1189-1204 | keeps the invariant; in dual mode the request, within half a step and in range, waits with the throttle armed and the send in flight goes on |
| DualDisplayController.Controller.ProcessBrightnessUpdate | package/disp-settings/src/DualDisplayAbsoluteController.cpp:1206-1228 | keeps the invariant; the waiting value goes to the primary first, and never while a send is in flight |
| DualDisplayController.Controller.OnAsyncSocketReadyRead | package/disp-settings/src/DualDisplayAbsoluteController.cpp:1279-1306 | keeps the invariant; the primary's answer hands the same value on, the secondary's ends in agreement, a refusal gives up without losing what waits |
| DualDisplayController.Controller.OnAsyncSocketConnected | package/disp-settings/src/DualDisplayAbsoluteController.cpp:1254-1277 | keeps the invariant; a failed write gives the flight up and what waits is picked up by the throttle |
| DualDisplayController.Controller.OnAsyncSocketError | package/disp-settings/src/DualDisplayAbsoluteController.cpp:1308-1317 | keeps the invariant; gives the flight up and what waits is picked up by the throttle |
| DualDisplayController.Controller.OnAsyncSocketTimeout | package/disp-settings/src/DualDisplayAbsoluteController.cpp:1319-1323 | keeps the invariant; gives the flight up and what waits is picked up by the throttle |
| DualDisplayController.Controller.SetEnabledMode | package/disp-settings/src/DualDisplayAbsoluteController.cpp:497-586 | keeps the invariant; starts exactly if idle, changed and possible, and then nothing is in flight or waiting |
| DualDisplayController.Controller.OnOperationFinished | package/disp-settings/src/DualDisplayAbsoluteController.cpp:497-586 | keeps the invariant; dual mode is on exactly after a successful enabling; then the shared maximum is taken over and both displays show half of it, brought into range and within half a step, and exit will send |
| DualDisplayController.Controller.AdoptSavedState | package/disp-settings/src/DualDisplayAbsoluteController.cpp:1074-1187 | keeps the invariant; dual mode comes on exactly if both displays were reached, and then they show the saved value, brought under the shared maximum and within half a step; the maximum is taken over in any case |
| DualDisplayController.Controller.ExitCleanup | package/disp-settings/src/DualDisplayAbsoluteController.cpp:588-605 | keeps the invariant; nothing is in flight, and a flush that got through leaves both displays at the last value requested |
| StateFile.SaveDecidesLoad | package/disp-settings/src/DualDisplayAbsoluteController.cpp:922-993 | a save that reports success is what the next load returns; one that reports failure changes nothing a load sees |
| StateFile.SaveThenClear | package/disp-settings/src/DualDisplayAbsoluteController.cpp:964-1035 | a clear right after a persistent save gets through and nothing is loaded, unless neither could remove an older session copy, which then comes back |
| StateFile.ClearDisablesIff | package/disp-settings/src/DualDisplayAbsoluteController.cpp:1007-1035 | exactly when a load after a clear is not enabled |
| StateFile.FailedClearChangesLoadIff | package/disp-settings/src/DualDisplayAbsoluteController.cpp:1007-1035 | a clear that does not get through changes what a load returns if and only if it removed the newer persistent copy and left a different session copy |
| StateFile.LoadIsLastSaveIff | package/disp-settings/src/DualDisplayAbsoluteController.cpp:922-1035 | over every run of saves and clears with any failures: nothing enabled after a successful clear; after a successful save a load returns it if and only if no failed clear since brought an older copy back |
| StateFile.LoadIsLastSave | package/disp-settings/src/DualDisplayAbsoluteController.cpp:922-1035 | in particular it does if no clear failed since the last success |
| StateFile.SavesAloneAreKept | package/disp-settings/src/DualDisplayAbsoluteController.cpp:922-993 | over every run of saves, failing ones included, a load returns the last successful one |
| StateFile.FailedClearResurrects | package/disp-settings/src/DualDisplayAbsoluteController.cpp:1007-1035 | a clear that cannot remove the session copy brings an older save back |
| StateFile.Store.LoadStateFile | package/disp-settings/src/DualDisplayAbsoluteController.cpp:922-948 | the entry of the latest copy that is there, nothing only if there is none |
| StateFile.Store.SaveStateFile | package/disp-settings/src/DualDisplayAbsoluteController.cpp:964-993 | both copies and the report for every pattern of failures |
| StateFile.Store.ClearStateFile | package/disp-settings/src/DualDisplayAbsoluteController.cpp:1007-1035 | dual mode is off for the next load exactly when the marker was written or the session copy is gone or off |
| Rounding.RoundingIsSound | package/disp-settings/src/DualDisplayAbsoluteController.cpp:1358-1364 | both rules: in range, monotone, within half a step of the clamped input |
| Rounding.RoundingIsOnGrid | package/disp-settings/src/DualDisplayAbsoluteController.cpp:1358-1364 | either rule gives a whole number of steps or an end of the range |
| Rounding.RoundingIsIdempotent | package/disp-settings/src/DualDisplayAbsoluteController.cpp:1358-1364 | both rules: rounding twice is rounding once |
| Rounding.RulesDifferIff | package/disp-settings/src/disp-settings-dual-display-restore.py:171-175 | the rules differ if and only if the input is halfway above an even step count and the range is not a point, and then by at most one step |
| LineFramer.PiecesJoin | package/disp-tester/src/NetworkInterface.cpp:154-167 | the lines of a stream and its rest put the stream back together and hold no newline |
| LineFramer.PiecesAreUnique | package/disp-tester/src/NetworkInterface.cpp:154-167 | no other newline-free pieces do |
| LineFramer.TrimIsUnique | package/disp-tester/src/NetworkInterface.cpp:160-160 | trimming is the only way to cut blanks off both ends that leaves none there |
| LineFramer.CutAnywhere | package/disp-tester/src/NetworkInterface.cpp:123-168 | however a stream is cut in two, the second part continues from the rest of the first |
| LineFramer.AnySplit | package/disp-tester/src/NetworkInterface.cpp:123-168 | every split of a stream into reads gives the commands of the whole stream |
| LineFramer.ReturnsAreIgnored | package/disp-tester/src/NetworkInterface.cpp:154-167 | a stream with CR LF line ends gives the commands of the one with LF line ends |
| LineFramer.EndIsFramedIff | package/disp-tester/src/NetworkInterface.cpp:135-150 | at the end of a stream the buffer is handled as lines if and only if no newline is left in it once trimmed |
| LineFramer.EndWithDataIsFramedIff | package/disp-tester/src/NetworkInterface.cpp:129-150 | the same for data and end read in one activation |
| ControlPort.NetworkInterface.SendResponse | package/disp-tester/src/NetworkInterface.cpp:83-99 | a reply goes to the client being handled or to nobody; a failed one closes that client only |
| ControlPort.NetworkInterface.Accept | package/disp-tester/src/NetworkInterface.cpp:106-121 | a new client starts with an empty buffer and stream |
| ControlPort.NetworkInterface.Dispatch | package/disp-tester/src/NetworkInterface.cpp:162-166 | one command and its replies up to the first failed send, to one client |
| ControlPort.NetworkInterface.ProcessLines | package/disp-tester/src/NetworkInterface.cpp:153-168 | hands over all complete lines, or a strict prefix of them if the handler closed the client |
| ControlPort.NetworkInterface.HandOverTheRest | package/disp-tester/src/NetworkInterface.cpp:135-150 | at the end the buffer is one command and the client is closed |
| ControlPort.NetworkInterface.HandleClientData | package/disp-tester/src/NetworkInterface.cpp:123-168 | after any activation, for every open client, the commands handed over are those of all bytes it sent; other clients are untouched; every send went to the client being handled |
| FpgaProtocol.PlausibleIsADate | package/disp-settings/src/FpgaController.cpp:55-62 | a version is plausible if and only if it starts with 0x48 or spells a month and a day |
| FpgaProtocol.LegacyIsSelectedIff | package/disp-settings/src/FpgaController.cpp:224-254 | legacy is selected if and only if forced, or three probes were implausible and the check unanswered, and its version is plausible |
| FpgaProtocol.NewIsSelectedIff | package/disp-settings/src/FpgaController.cpp:224-234 | the new protocol is selected if and only if allowed and one of three probes is plausible |
| FpgaProtocol.AnsweringSlaveIsSafe | package/disp-settings/src/FpgaController.cpp:236-244 | permitted writes to a slave that always answers, without the override, are never legacy |
| FpgaProtocol.EchoConfirmsChoice | package/disp-settings/src/FpgaController.cpp:672-688 | a slave that shows what was written to it confirms the choice that was set |
| FpgaProtocol.SupportedIffEchoes | package/disp-settings/src/FpgaController.cpp:611-647 | a toggle counts as there if and only if its register echoes 0 or 1; otherwise the flag shown stays |
| FpgaProtocol.RestoredPerToggle | package/disp-settings/src/FpgaController.cpp:258-278 | each toggle's own saved choice is written to its own register, if there is a file and the bus opens |
| FpgaProtocol.RegistersAreApart | package/disp-settings/src/FpgaController.cpp:16-23 | no register serves two purposes |
| FpgaProtocol.FpgaController.EnsureProtocol | package/disp-settings/src/FpgaController.cpp:224-278 | the selected protocol, and exactly the two restoring writes when it is newly found |
| FpgaProtocol.FpgaController.RefreshNow | package/disp-settings/src/FpgaController.cpp:512-582 | writes nothing unless a protocol was just found; keeps either protocol if and only if the bus opens and its version is still plausible |
| FpgaProtocol.FpgaController.ReadToggleSettings | package/disp-settings/src/FpgaController.cpp:611-647 | support and state of both toggles from their echoes, or from the file over legacy |
| FpgaProtocol.FpgaController.SetPrivacyMode | package/disp-settings/src/FpgaController.cpp:584-609 | success means the register write of the selected protocol was issued last |
| FpgaProtocol.FpgaController.SetToggle | package/disp-settings/src/FpgaController.cpp:649-726 | the write issued, the file saved, the flag of a slave that shows what was written, and the other saved choice kept if and only if legacy or shown as saved |
| FpgaProtocol.FpgaController.Run | package/disp-settings/src/FpgaController.cpp:224-254 | over any run of refreshes, settings and resets with legacy not forced, a slave that always answers never sees a legacy write |
| HistoryRing.ChecksOutIff | package/himax-touch-oled/src/himax_common.c:3771-3790 | the CRC over the whole sector is zero if and only if its last four bytes are the CRC of the rest |
| HistoryRing.CrcIsRemainder | package/himax-touch-oled/src/himax_ic_incell_core.c:683-712 | the message times the 32nd power, its first 32 bits inverted, leaves the CRC, and nothing else, as its remainder by the Castagnoli generator |
| HistoryRing.LineEndsInZeros | package/himax-touch-oled/src/himax_common.c:3745-3784 | the rest of the newest line is zero, except where the CRC takes the place of line 255's |
| HistoryRing.CalculateCrc32 | package/himax-touch-oled/src/himax_ic_incell_core.c:683-712 | the word and bit loops compute the CRC; bytes after the last whole word are ignored |
| HistoryRing.UpdateExtends | package/himax-touch-oled/src/himax_common.c:3740-3784 | one update keeps the header, moves the count on, writes its line and disturbs none of the other 254 |
| HistoryRing.UpdateStarts | package/himax-touch-oled/src/himax_common.c:3745-3784 | an update on an empty sector starts a history with its record |
| HistoryRing.HistoryIsKept | package/himax-touch-oled/src/himax_common.c:3740-3784 | after n updates from an erased sector the newest record is in line (n-1) mod 255 + 1, the last 255 keep their payload, and the CRC checks out |
| HistoryRing.UnknownSectorIsLost | package/himax-touch-oled/src/himax_common.c:3740-3761 | an unrecognised sector ends erased, and the next update starts a new history |
| HistoryRing.CountUp | package/himax-touch-oled/src/himax_common.c:3745-3766 | header and count of the copy, skipping 0 when the count wraps |
| HistoryRing.UpdateRecord | package/himax-touch-oled/src/himax_common.c:3670-3797 | the sector afterwards is that of the ring theorems, in every case |

## Left out

- Sockets, CAN and I2C system calls, timeouts in seconds, services, processes, JSON text, argument parsing, QML
  properties, signals and logging: they appear as inputs that succeed, fail or return anything.
- Floating point: colours, gains and brightness are real numbers; powers, square roots and `hypot` are functions
  about which nothing is assumed.
- A frame's length and identifier are modelled, other CAN frame fields are not; `total_length - 3` is taken as a
  64-bit unsigned value, as on a 64-bit `size_t`.
- TCP commands of the CAN daemon other than setting the part number.
- WpAdjust.Registers.Write16: only shadow writes may land something else; commit, cancel and defaults writes that
  return without an exception are taken to have arrived, and read values to be those of the registers.
- The simulated backend's rule of consuming a commit at the next status read is one of the schedules covered.
- Patterns, overlay texts, sample averaging, session files and profiles of the calibration programs.
- WhitePointMatch.LoadProfileModel: registers given as strings, averages with only one coordinate, and other values
  that are not numbers are not modelled.
- `targetActive`, `currentNits`, the status text and the state-save timer of the dual-display controller, which only
  the user interface reads; `enableMode` and `disableMode`, which nothing calls.
- The blocking steps of enabling and disabling are one operation with a result.
- StateFile.LoadIsLastSaveIff: file times are strictly increasing and reads of a present file succeed.
- LineFramer.TrimIsUnique: blanks are the six ASCII ones; decoding as UTF-8 and Unicode blanks are not modelled.
- The handler of a command only replies; it does not accept clients or read from them.
- Firmware identity, board information and build time shown by the FPGA page, and the connected and privacy flags.
- The time, versions and flags that make up a history record are an arbitrary 12-byte payload; reading, erasing and
  programming the sector are taken to work, and the chip's own CRC to be the one computed on the host.
- HistoryRing.UpdateRecord: a power failure between erasing and programming, and the choice of the sector's address.
- Temperature, TDDI, PMIC and ambient-light controllers, the second FPGA controller, and the rest of the touch
  driver.
