# Verified model of gem5's tooling and configuration algorithms

gem5 ships a body of Python beside its simulator: tools that migrate, merge and print what the
simulator writes, and configuration scripts that wire a simulated system together. This project models
the algorithms among them that work on unbounded inputs, in Dafny, and proves what they keep, what they
compute and when they give up. `dafny verify dfyconfig.toml` checks everything.

The model covers, one group of files each:

* **Checkpoint migration** (`UpgradeEngine`, `DowngradeOrder`, `UpgradeRegistry`, `CheckpointUpgrade`).
  Scripts are registered, legacy versions are chained, forward dependencies are reversed and audited,
  and a round-based loop applies whatever is ready until nothing is left or nothing is ready. Each round
  visits a Python set, so a run is modelled with every possible visiting order.
* **Pipeline viewer** (`PipeReorder`, `PipeTimeline`). A queue with two thresholds turns an out-of-order
  stream into a sorted one; each instruction is then laid out over rows of cycles.
* **Port binding** (`PortBinding`, `PortWiring`, `PortSchedule`, `PortCompleteness`, `PortExamples`). One
  greedy pass over the sorted list of connections, with a counter per port, must find an order in which
  every port is bound at its indices 0, 1, 2, ...
* **Trace codecs** (`Varint`, `VarintCodec`, `MessageStream`, `DepTrace`, `DepTraceCodec`,
  `DepTraceFormat`). Base 128 varints and length-delimited messages, and the ASCII form of instruction
  dependency records, field by field.
* **Checkpoint aggregation** (`Aggregator`, `CheckpointMerge`, `MergedSections`). Physical
  addresses are relocated into one concatenated memory image, and sections are renamed or kept.
* **Copyright years** (`CopyrightYears`, `YearRanges`). Sets of years are written as ranges and read back.
* **Structure and arithmetic** (`TlbWiring`, `CacheTree`, `RepeatSwitch`, `LatencyRanges`). Port
  assignment of the GPU TLBs, the cache tree of the memory test, the CPU switching loop and the ranges of
  the latency sweep.

`Wrappers`, `Collections`, `Arith`, `Bits`, `Bytes`, `Lexicographic`, `Sorting` and `Text` hold what the rest
builds on: options and results, visiting orders of sets, division, bit operations, string order, Python's
stable sort, and `split`, `join`, `strip`, `int` and `%d` on strings.

Code that updates state in the source is a class or a method with a loop here (`Registry`, `Checkpoint`,
`Viewer`, `InFile`, `OutFile`, `Builder`, `Simulator`), proved against a specification function. The laws
are then proved about those functions.

## Where the code and its comments disagree

The model follows the code.

* The header of `cpt_upgrader.py` (lines 56-61) says that a tag depending on a downgraded tag waits for
  that tag's removal. `ready` (lines 144-148) waits for its presence. `DowngradeOrder.PromiseBroken` shows
  the smallest case, and `DowngradeOrder.PromiseKeptIff` says exactly when the promise holds anyway, for
  every outcome.
* The comment in `bind_ports` (lines 370-379) says exactly one of each pair is bindable because the list is
  sorted, and illustrates it with an entry `a.b[1]` bound while the counter of `a.b` is still 0. The code
  refuses that entry. `PortExamples.OrderableButRefused` is a list the single pass refuses although a
  binding order exists, and `PortCompleteness.AcceptedIffSchedulable` says exactly which lists pass.
* `print_insts` is said to print in order when instructions are "not out of order for more than
  min_threshold places". Counting the earlier instructions with a larger number makes this true
  (`PipeReorder.StreamingSortsFully`), and no larger count is safe for every trace
  (`PipeReorder.BoundIsTight`). It is not necessary, though: only the instructions that took part in the
  last flush matter, which `PipeReorder.SortedIffInTime` turns into the exact condition.
* `run` enters the CPU switching loop when `maxtick` exceeds the switching period. That does not keep time
  below `maxtick`: `RepeatSwitch.GuardIsNotEnough` is a case, `RepeatSwitch.NeverOverrunsIff` the exact
  condition for any bound on draining, and `RepeatSwitch.OnlyDrainingOverruns` says how far draining can go.
  `run` also asks only the CPU class it switches to for take-over support;
  `RepeatSwitch.LoopCanStartIff` says that both classes need it.
* A set of years is read back as written only when no two neighbouring years lie outside 1000 to 9999
  (`YearRanges.RoundTripIff`), because a written range is recognised by its four-digit ends.
* A checkpoint image shorter than its stated pages shifts every later segment away from its relocated
  addresses; `CheckpointMerge.StartIsOffsetIff` says that this is the only way.

## Model

| member | source | states |
|---|---|---|
| `UpgradeEngine.UpdateAllIsOrderFree` | gem5/util/cpt_upgrader.py:265-267 | applying one ready set gives the same tags, or the same failing `remove`, in every visiting order, and says which |
| `UpgradeEngine.OutcomeIsOrderFree` | gem5/util/cpt_upgrader.py:257-269 | every run from the same tags ends with the same outcome and tags, whatever order each round's set is visited in |
| `UpgradeEngine.RunExists` | gem5/util/cpt_upgrader.py:257-269 | the loop terminates from every start: there is a complete run that ends with the order-free outcome |
| `UpgradeEngine.LeftoverIsDeadlocked` | gem5/util/cpt_upgrader.py:258-269 | an upgrade-only run never fails in `remove`, has applied everything but what it reports, and each reported tag waits for another reported tag |
| `UpgradeEngine.DeadlockIsLeft` | gem5/util/cpt_upgrader.py:258-269 | no member of a set whose members wait for each other is ever applied |
| `UpgradeEngine.WalkToCycle` | gem5/util/cpt_upgrader.py:260-263 | walking along unmet dependencies in a finite deadlocked set closes a dependency cycle, which is returned |
| `UpgradeEngine.AbortIffCycle` | gem5/util/cpt_upgrader.py:257-269 | with upgraders only and audited dependencies, the loop aborts if and only if the missing tags contain a dependency cycle; otherwise the tags end as the initial ones together with `tag_set` |
| `UpgradeEngine.TraceIsWhatWasApplied` | gem5/util/cpt_upgrader.py:265-269 | an upgrade-only run applies exactly the missing tags it does not report as impossible |
| `UpgradeEngine.TraceIsTopological` | gem5/util/cpt_upgrader.py:144-158 | the trace of an upgrade-only run holds each tag at most once, never a tag already present, and each tag only after all its dependencies, in every visiting order |
| `UpgradeEngine.MixedRun` | gem5/util/cpt_upgrader.py:150-158 | with no tag both upgraded and downgraded, no `remove` fails, success ends with (initial + `tag_set`) - `untag_set`, a second run has nothing to do, and an abort leaves exactly the reported tags to be done |
| `UpgradeEngine.RemovalFailsOnlyOnAbsentTag` | gem5/util/cpt_upgrader.py:155-157 | a run that completes never met a downgrader for an absent tag, and with no such downgrader to apply no `remove` fails |
| `DowngradeOrder.PromiseKeptIff` | gem5/util/cpt_upgrader.py:56-61 | for every registry and checkpoint, whether the run completes, aborts or crashes: every visiting order removes downgraded dependencies first if and only if no tag that becomes ready depends on a tag with a downgrader |
| `DowngradeOrder.PromiseByTags` | gem5/util/cpt_upgrader.py:56-61 | in terms of the tags to be applied: enough that none depends on a downgraded tag; without a crash exactly the reported tags may, and in a completed run none may |
| `DowngradeOrder.ReachedFacts` | gem5/util/cpt_upgrader.py:258-269 | without a failing `remove`, the tags that become ready are all tags to be applied but the reported ones |
| `DowngradeOrder.RemovedDependencyBlocks` | gem5/util/cpt_upgrader.py:144-148 | a tag that depends on an already removed downgraded tag is never applied and is reported as impossible |
| `DowngradeOrder.PromiseBroken` | gem5/util/cpt_upgrader.py:144-148 | two scripts for which the documented order is violated, and for which the upgrade is refused once the tag is gone |
| `UpgradeRegistry.Registry.constructor` | gem5/util/cpt_upgrader.py:91-94 | an empty, consistent registry |
| `UpgradeRegistry.Registry.Register` | gem5/util/cpt_upgrader.py:121-142 | one script is added under its tag, its kind and its legacy version; later scripts win; the registry stays consistent |
| `UpgradeRegistry.ResolvesToLast` | gem5/util/cpt_upgrader.py:139-142 | a tag, and a legacy version, resolves to the last script that declares it |
| `UpgradeRegistry.Registry.RegisterAll` | gem5/util/cpt_upgrader.py:168-169 | after all files each tag and legacy version resolves to the last script that claims it, and the two tag sets are those of the two kinds |
| `UpgradeRegistry.Registry.LinkLegacy` | gem5/util/cpt_upgrader.py:171-175 | fails exactly when version 3 exists without version 2; otherwise each version of the unbroken run from 3 depends on the version before and on nothing else, and nothing else changes |
| `UpgradeRegistry.Registry.ReverseForward` | gem5/util/cpt_upgrader.py:179-186 | fails exactly on an undefined name; otherwise the tag is added to the dependencies of exactly the targets it names |
| `UpgradeRegistry.Registry.Audit` | gem5/util/cpt_upgrader.py:187-192 | accepts exactly when every dependency names a script |
| `UpgradeRegistry.Registry.ResolveAndAudit` | gem5/util/cpt_upgrader.py:177-192 | for every iteration order: accepts exactly when every name in every `depends` and `fwd_depends` is defined, and then each tag depends on what it lists and on every tag that names it |
| `UpgradeRegistry.Registry.LoadAll` | gem5/util/cpt_upgrader.py:164-192 | loading succeeds exactly for loadable files and yields the catalog the files define, with no dangling dependency |
| `UpgradeRegistry.LoadedIsAudited` | gem5/util/cpt_upgrader.py:187-192 | after a successful load every dependency is a known tag and every tag resolves to a script of a kind it was registered for |
| `UpgradeRegistry.LoadedDependsIff` | gem5/util/cpt_upgrader.py:171-192 | a loaded tag depends exactly on what its script asks for (the version before it in the legacy chain, or else its own list) and on every tag whose script names it as a forward dependency |
| `UpgradeRegistry.LoadableIff` | gem5/util/cpt_upgrader.py:165-192 | the scripts load exactly when version 3 does not stand without version 2 and every list that is not replaced, and every forward list, names only defined tags |
| `UpgradeRegistry.Registry.LegacyTags` | gem5/util/cpt_upgrader.py:224-230 | a legacy version stands for the tags of versions 2 up to it, and an unknown version in that range is an error |
| `CheckpointUpgrade.ReadyMeansIncluded` | gem5/util/cpt_upgrader.py:144-148 | `ready` holds exactly when the dependencies are a subset of the tags |
| `CheckpointUpgrade.Checkpoint.UpdateTag` | gem5/util/cpt_upgrader.py:150-158 | one migration runs and is logged, then its tag is added or removed; removing an absent tag fails and leaves the tags |
| `CheckpointUpgrade.Checkpoint.UpdateRound` | gem5/util/cpt_upgrader.py:265-267 | one round over a given order: which migrations ran, up to one whose `remove` fails, and the tags they leave |
| `CheckpointUpgrade.Checkpoint.ReadyTags` | gem5/util/cpt_upgrader.py:259-259 | the ready set is the one the apply loop is specified with |
| `CheckpointUpgrade.Checkpoint.ApplyRound` | gem5/util/cpt_upgrader.py:265-269 | a round in some visiting order carries a run on, or ends it with the failing `remove` |
| `CheckpointUpgrade.Checkpoint.Migrate` | gem5/util/cpt_upgrader.py:257-269 | the loop is a run of the loaded registry; the migrations that ran and the tags they leave are those of its trace, for every outcome, also when a `remove` fails |
| `CheckpointUpgrade.Checkpoint.ProcessFile` | gem5/util/cpt_upgrader.py:220-279 | fatal without version information, failure exactly on a version number with an unknown version below it; otherwise the verdict that follows from the tags found in the file, or from the tags of the legacy versions 2 up to the number. Nothing is done exactly when the found tags hold every upgrade and no downgrade; a completed run without a tag in both roles writes the starting tags with all upgrades added and all downgrades removed |
| `CheckpointUpgrade.VerdictMeans` | gem5/util/cpt_upgrader.py:230-279 | what the verdict means for the starting tags: nothing to do, never a crash and the final tags when no tag has both roles, an abort with upgraders only exactly on a dependency cycle among the missing tags, and what is left is a non-empty part of what was to be applied |
| `CheckpointUpgrade.SomethingApplied` | gem5/util/cpt_upgrader.py:267-273 | a completed run has applied something exactly when there was something to apply |
| `CheckpointUpgrade.LegacyDependsOnPrevious` | gem5/util/cpt_upgrader.py:171-175 | a loaded legacy version depends on the version before it, unless another script took over its tag |
| `CheckpointUpgrade.ChainInOrder` | gem5/util/cpt_upgrader.py:171-175 | in any topological trace, a link of a dependency chain runs only after all earlier links are present or have run |
| `PipeReorder.Viewer.constructor` | gem5/util/o3-pipeview.py:51-66 | an empty queue with its thresholds and window |
| `PipeReorder.Viewer.PrintInsts` | gem5/util/o3-pipeview.py:231-277 | sorts the queue stably, releases the smallest until `lower_threshold` are left, and prints exactly the released ones inside the window: sequence number and fetch tick between the bounds that are set, and retired if only committed instructions are wanted |
| `PipeReorder.Viewer.QueueInst` | gem5/util/o3-pipeview.py:212-227 | appends and flushes down to the lower threshold when the queue exceeds the upper one |
| `PipeReorder.Viewer.PrintTrace` | gem5/util/o3-pipeview.py:195-206 | each instruction of the trace is printed as often as it occurs if its sequence number and fetch tick lie between the bounds that are set and it has retired or need not have, and otherwise never; they are printed in the order of the fully sorted trace when every instruction is in time |
| `PipeReorder.VisibleMeans` | gem5/util/o3-pipeview.py:248-277 | the filter of the window, in the fields of an instruction and with multiplicities |
| `PipeReorder.SortedIffInTime` | gem5/util/o3-pipeview.py:45-50 | for every trace and all thresholds min <= max: the output is the stable sort of the trace, and is in order at all, if and only if of the instructions that took part in the last flush before it at most min have a larger number than the arriving one |
| `PipeReorder.SinceFlush` | gem5/util/o3-pipeview.py:217-227 | between two flushes, whose places in the trace are given in closed form, the queue only grows |
| `PipeReorder.StreamingSortsFully` | gem5/util/o3-pipeview.py:45-50 | for all thresholds min <= max: if no instruction is preceded by more than min instructions with a larger number, the streamed output is the stable sort of the whole trace |
| `PipeReorder.ShortTraceIsSorted` | gem5/util/o3-pipeview.py:218-227 | a trace of at most max + 1 instructions comes out sorted, however disordered |
| `PipeReorder.OutputIsPermutation` | gem5/util/o3-pipeview.py:243-244 | for every trace, every queued instruction leaves the queue exactly once |
| `PipeReorder.BoundIsTight` | gem5/util/o3-pipeview.py:49-50 | for all min <= max there is a trace with disorder min + 1 that comes out unsorted |
| `PipeTimeline.CollectEvents` | gem5/util/o3-pipeview.py:374-387 | the events of a row in tuple order |
| `PipeTimeline.RowEventsMember` | gem5/util/o3-pipeview.py:375-386 | an event is on a row exactly when its stage has a tick and the tick lies in the row |
| `PipeTimeline.RowEventsPhased` | gem5/util/o3-pipeview.py:380-387 | events come in order of position and fit in the row |
| `PipeTimeline.DrawEvents` | gem5/util/o3-pipeview.py:389-408 | the incremental pen writes dots up to each letter |
| `PipeTimeline.DrawIsCells` | gem5/util/o3-pipeview.py:392-408 | for ordered marks, what the pen writes is the row read column by column: per cycle its letters in order, or a dot |
| `PipeTimeline.DrawRow` | gem5/util/o3-pipeview.py:389-411 | a finished row is the column-by-column picture over the whole width |
| `PipeTimeline.PrintInst` | gem5/util/o3-pipeview.py:337-416 | prints all rows with their start ticks; fails exactly in compact form with nothing to draw |
| `PipeTimeline.OneLineIffCompact` | gem5/util/o3-pipeview.py:356-359 | there is one row exactly in compact form, and never none |
| `PipeTimeline.ExactlyOneRow` | gem5/util/o3-pipeview.py:369-378 | a stage at or after fetch lies in exactly one row, and which one |
| `PipeTimeline.FetchedNeverFails` | gem5/util/o3-pipeview.py:390-391 | with a fetch tick there is always an event to draw |
| `PipeTimeline.LetterPlacement` | gem5/util/o3-pipeview.py:375-408 | a column shows a letter exactly when a stage whose letter in `fdnpicrs` it is lies in the row and its tick modulo the row falls in that cycle, except dispatch in the tick of issue |
| `PipeTimeline.DotPlacement` | gem5/util/o3-pipeview.py:362-408 | a column with no drawn stage shows `=` for an instruction that never retired and `.` otherwise |
| `PipeTimeline.DrawingOrder` | gem5/util/o3-pipeview.py:374-388 | stages are drawn by their place on the row, and in the same place in the order of their names |
| `PipeTimeline.RowMeans` | gem5/util/o3-pipeview.py:368-387 | which ticks belong to row `i`, in numbers, for the compact and the long form |
| `PipeTimeline.RowsReachLatest` | gem5/util/o3-pipeview.py:337-359 | a long instruction has exactly as many rows as reach its last stage |
| `PipeTimeline.RowLength` | gem5/util/o3-pipeview.py:398-411 | a row is as long as the timeline plus one for each letter sharing a column with the one drawn before |
| `PortExamples.GatherPortConnections` | gem5/configs/example/read_config.py:326-347 | the list of all (port, peer) pairs of a configuration, in index order per port |
| `PortExamples.GatheredIsListed` | gem5/configs/example/read_config.py:334-347 | a gathered list lists its wiring completely and once, and the wiring is well formed exactly when peers name each other and no port names itself |
| `PortBinding.ZeroCounters` | gem5/configs/example/read_config.py:357-359 | a zero counter for each port on a left-hand side |
| `PortBinding.RunPass` | gem5/configs/example/read_config.py:380-390 | the loop with counters makes the bindings of the counter-free pass, or fails on a port without a counter |
| `PortBinding.BindPorts` | gem5/configs/example/read_config.py:349-395 | sort, pass and half-count check, with both error cases; `PortBinding.ListOrderMeans` says what the sort is |
| `PortBinding.ListOrderMeans` | gem5/configs/example/read_config.py:166-170 | the list stands in the order of object, port and index of the left-hand ports, and entries with equal left-hand ports in that of the right-hand ports |
| `Lexicographic.StrLeIff` | gem5/configs/example/read_config.py:166-170 | string order: a prefix first, otherwise by the first differing character |
| `PortWiring.PassIsSound` | gem5/configs/example/read_config.py:380-390 | for every list without self-connections, each port is bound at 0, 1, 2, ... without a gap, nothing is bound twice in either orientation, and only listed connections are bound |
| `PortWiring.SymmetricOutcome` | gem5/configs/example/read_config.py:392-395 | a symmetric list never misses a counter, so only the half-count check can refuse it |
| `PortWiring.HalfCountMeansAll` | gem5/configs/example/read_config.py:392-395 | when the check passes, exactly one orientation of every connection was bound |
| `PortWiring.WiringIsRebuilt` | gem5/configs/example/read_config.py:397-406 | carrying out the accepted bindings in order gives every port, at every index, exactly the peer its configuration names |
| `PortSchedule.SweepBindsAllIff` | gem5/configs/example/read_config.py:380-390 | on any wiring and any index-respecting order, one pass binds all ports if and only if no connection is overtaken, stated through chains of waiting ports in the list itself |
| `PortCompleteness.AcceptedIffSchedulable` | gem5/configs/example/read_config.py:349-395 | for every complete connection list of a well-formed wiring, `bind_ports` accepts it if and only if no connection joins two indices of one port and none is overtaken |
| `PortExamples.StarIsAccepted` | gem5/configs/example/read_config.py:370-395 | if every connection has an end on a port with a single connection, the pass binds everything, whatever the names sort like |
| `PortExamples.AcceptedIsOrderable` | gem5/configs/example/read_config.py:394-395 | an accepted list has a binding order |
| `PortExamples.OrderableButRefused` | gem5/configs/example/read_config.py:394-395 | a symmetric chain that has a binding order but is refused |
| `Varint.InFile.Read` | gem5/util/protolib.py:113-113 | reading returns the next bytes, or what is left of them |
| `Varint.EncodeVarint32` | gem5/util/protolib.py:147-159 | the loop with masks, shifts and the continuation bit writes the base 128 digits, least significant first |
| `Varint.Reduce32` | gem5/util/protolib.py:119-125 | the masks of both branches, on two's complement numbers of any sign, give the reduction to 32 bits |
| `Varint.AddByte` | gem5/util/protolib.py:117-117 | or-ing in the shifted low bits of a byte gives the number spelled by one more byte |
| `Varint.ReadDigits` | gem5/util/protolib.py:107-128 | how reading ends, how many bytes it takes and the number their low bits spell, for every file content |
| `Varint.DecodeVarint32` | gem5/util/protolib.py:100-128 | for every file content: the decoded number and size, end of file, or too many bytes, and exactly how many bytes are consumed |
| `VarintCodec.EncodeFacts` | gem5/util/protolib.py:153-159 | continued bytes and one final byte, spelling the number in the fewest base 128 digits |
| `VarintCodec.DecodeEncoded` | gem5/util/protolib.py:112-128 | what the decoder makes of every encoded number, followed by anything |
| `VarintCodec.RoundTripIff` | gem5/util/protolib.py:100-159 | decoding an encoding gives the number back and leaves the rest unread if and only if it is below 2^32 |
| `VarintCodec.PrefixFree` | gem5/util/protolib.py:147-159 | no encoding is a proper prefix of another |
| `VarintCodec.NoShorterSpelling` | gem5/util/protolib.py:100-128 | no byte string decodes to a number in fewer bytes than its encoding has |
| `MessageStream.DecodeMessage` | gem5/util/protolib.py:131-144 | one step of decoding, for every file content: False, True with the payload, or the exception of a parser that refuses it, and what is left unread |
| `MessageStream.ReadMessages` | gem5/util/decode_inst_dep_trace.py:163-164 | the reading loop terminates and yields the messages up to the first False or to a payload that does not parse |
| `MessageStream.EncodeMessage` | gem5/util/protolib.py:162-168 | appends the length as a varint and then the payload |
| `MessageStream.WireFormat` | gem5/util/protolib.py:147-169 | two encodings written out: low groups of seven bits first, and the length in front of each message |
| `MessageStream.MessagesRoundTrip` | gem5/util/protolib.py:131-168 | payloads below 2^32 bytes that parse, written back to back, are read back in order, up to the first empty one |
| `MessageStream.NothingEmpty` | gem5/util/protolib.py:138-139 | so all of them, when none is empty |
| `MessageStream.TruncatedFile` | gem5/util/protolib.py:131-144 | a file cut at any byte up to its first empty message yields all complete messages and then nothing, if the cut is in a header, or the shortened payload, if that parses |
| `MessageStream.SomeCut` | gem5/util/protolib.py:162-168 | every number of bytes cuts a file behind some number of complete messages and inside the next |
| `MessageStream.CutBehindEmpty` | gem5/util/protolib.py:138-139 | behind the first empty message it does not matter where a file ends |
| `DepTrace.PrintDeps` | gem5/util/decode_inst_dep_trace.py:202-213 | each dependency behind a comma |
| `DepTrace.PrintRecord` | gem5/util/decode_inst_dep_trace.py:167-215 | the printed line of a record, whose fields `DepTraceFormat` pins down |
| `DepTraceFormat.InfoFormat` | gem5/util/decode_inst_dep_trace.py:167-200 | sequence number, program counter (default 0), weight (default 1), the memory fields that are present and the delay, each read back as a number from its place in front of the first colon |
| `DepTraceFormat.TypeFormat` | gem5/util/decode_inst_dep_trace.py:180-187 | the fourth field is INVALID, LOAD, STORE or COMP exactly for a record of that type |
| `DepTraceFormat.DepsFormat` | gem5/util/decode_inst_dep_trace.py:201-215 | behind the first colon the order dependencies, behind the second the register dependencies, each number behind a comma and in order |
| `DepTrace.ParseDeps` | gem5/util/encode_inst_dep_trace.py:195-206 | the non-empty items of a dependency list as numbers, or the first error |
| `DepTrace.ParseRecord` | gem5/util/encode_inst_dep_trace.py:157-206 | the record of a line, or which error stops the tool; `DepTraceFormat` says which lines and which fields |
| `DepTraceFormat.AcceptedIff` | gem5/util/encode_inst_dep_trace.py:157-206 | a line is accepted exactly when it has three fields, the first has numbers of the right width in the places its type LOAD, STORE or COMP needs, and the others hold numbers or nothing between commas |
| `DepTraceFormat.ParsedFields` | gem5/util/encode_inst_dep_trace.py:157-206 | every field of the record of an accepted line is the number at its place, the type is the one named, and both lists are the non-empty parts in order |
| `DepTraceCodec.FaithfulRoundTrip` | gem5/util/encode_inst_dep_trace.py:157-206 | a load or store with all memory fields, or a computation with none, comes back from its printed line with pc 0 and weight 1 filled in and both dependency lists in order |
| `DepTraceCodec.ParsedIsFaithful` | gem5/util/encode_inst_dep_trace.py:177-191 | whatever the parser accepts is such a record |
| `DepTraceCodec.RoundTripIff` | gem5/util/decode_inst_dep_trace.py:190-195 | a record comes back if and only if it is such a record |
| `DepTraceCodec.TraceRoundTrip` | gem5/util/decode_inst_dep_trace.py:163-215 | a whole trace of such records survives printing, splitting into lines and parsing |
| `Aggregator.CopyPages` | gem5/util/checkpoint_aggregator.py:107-114 | the page loop copies the stated pages, or all of a shorter image |
| `Aggregator.Pad` | gem5/util/checkpoint_aggregator.py:123-131 | whole pages of padding up to the requested size |
| `Aggregator.MoveAll` | gem5/util/checkpoint_aggregator.py:72-79 | the options of a cpu section, with physical addresses moved, or the failing `int` |
| `Aggregator.MergeConfig` | gem5/util/checkpoint_aggregator.py:67-94 | the sections one checkpoint contributes, whose names and options `MergedSections` pins down |
| `Aggregator.Aggregate` | gem5/util/checkpoint_aggregator.py:44-145 | the merged sections, page count, next process number, range size, clock and image, or the error |
| `MergedSections.OtherSectionsAreKept` | gem5/util/checkpoint_aggregator.py:91-94 | every section of the last checkpoint without "cpu" in its name is written under its own name with its options in order and unchanged |
| `MergedSections.NoOtherSections` | gem5/util/checkpoint_aggregator.py:67-94 | every section written without "cpu" in its name is such a section of the last checkpoint |
| `MergedSections.CpuSectionsAreWritten` | gem5/util/checkpoint_aggregator.py:67-82 | every section with "cpu" in its name, of every checkpoint, is written under its new name with `paddr` moved, the other options unchanged, and `M5_pid` set to the number of the checkpoint exactly for `workload`, any character, `FdMap256` |
| `MergedSections.RenameAtCpu` | gem5/util/checkpoint_aggregator.py:69-69 | renaming puts the number behind the first "cpu" and goes on behind it |
| `MergedSections.RenameWithoutCpu` | gem5/util/checkpoint_aggregator.py:69-69 | and leaves everything else alone |
| `MergedSections.PutMeans` | gem5/util/checkpoint_aggregator.py:81-82 | setting an option replaces it at its place or adds it at the end |
| `MergedSections.AggregateFailsIff` | gem5/util/checkpoint_aggregator.py:67-137 | merging fails exactly on a cpu section with a `paddr` that is no number or when the last checkpoint has no `system.physmem.store0` |
| `MergedSections.PaddingMeans` | gem5/util/checkpoint_aggregator.py:122-131 | padding is whole pages of 4096 characters `0` |
| `CheckpointMerge.StartIsOffsetIff` | gem5/util/checkpoint_aggregator.py:99-114 | a checkpoint's bytes start where its addresses are moved to if and only if every image before it holds its stated pages |
| `CheckpointMerge.RelocationReadsSameByte` | gem5/util/checkpoint_aggregator.py:74-77 | when the images before a checkpoint are full, every address of it that was copied, moved by its offset, reads in the merged image the byte it read before |
| `CheckpointMerge.PaddrFollowsItsByte` | gem5/util/checkpoint_aggregator.py:61-145 | from file to file: a `paddr` of a cpu section whose byte was copied is written in its place under the renamed section, as an address at which the merged image holds the byte the old image held |
| `CheckpointMerge.SegmentsDisjoint` | gem5/util/checkpoint_aggregator.py:100-101 | addresses of different checkpoints never meet after relocation |
| `CheckpointMerge.RangeSizeIsLength` | gem5/util/checkpoint_aggregator.py:123-140 | `range_size` is the larger of the total pages and the requested size rounded up to pages, and equals the image length if and only if all images hold their stated pages |
| `CheckpointMerge.LatestIsMaximum` | gem5/util/checkpoint_aggregator.py:86-89 | the merged clock is the latest of all |
| `CheckpointMerge.ItemsMoved` | gem5/util/checkpoint_aggregator.py:72-79 | options keep their order, only `paddr` changes, by the offset |
| `CheckpointMerge.PaddrIsMoved` | gem5/util/checkpoint_aggregator.py:68-82 | the same through the renaming of the section and the added process number |
| `CheckpointMerge.SectionIsWritten` | gem5/util/checkpoint_aggregator.py:61-97 | what a section contributes, with the offset of its checkpoint, is in the merged file |
| `CheckpointMerge.RenameInjective` | gem5/util/checkpoint_aggregator.py:68-70 | with numbers of equal length, renaming never makes two names equal |
| `CheckpointMerge.IndexTextFacts` | gem5/util/checkpoint_aggregator.py:59-59 | zero-filled checkpoint numbers consist of digits, have equal length and stand for their number |
| `CheckpointMerge.CpuSectionsStayApart` | gem5/util/checkpoint_aggregator.py:69-70 | two cpu sections of the merged file share a name only if they are the same section of the same checkpoint |
| `CopyrightYears.AddRange` | gem5/util/find_copyrights.py:123-124 | adds exactly the years of a range |
| `CopyrightYears.ProcessDates` | gem5/util/find_copyrights.py:115-132 | the union of what the pieces between commas denote |
| `YearRanges.PaddedPiece` | gem5/util/find_copyrights.py:115-116 | blanks around a piece do not change what it stands for |
| `YearRanges.SpacedRange` | gem5/util/find_copyrights.py:112-124 | four digits, a dash with or without blanks around it and four digits, whatever follows, stand for the range of those years |
| `YearRanges.MatchedIsRange` | gem5/util/find_copyrights.py:112-120 | nothing else is taken for a range |
| `CopyrightYears.Datestr` | gem5/util/find_copyrights.py:195-220 | writes the maximal runs of consecutive years in order; fails exactly on the empty set |
| `YearRanges.RunsFacts` | gem5/util/find_copyrights.py:207-218 | the runs cover exactly the years and at least one year is missing between two of them |
| `YearRanges.RoundTripIff` | gem5/util/find_copyrights.py:115-220 | reading back what was written gives the same set if and only if no two neighbouring years reach outside 1000 to 9999 |
| `YearRanges.NoFewerPieces` | gem5/util/find_copyrights.py:195-220 | no comma-separated text that is read as these years has fewer pieces |
| `TlbWiring.SharedInWholeNumbers` | gem5/configs/common/GPUTLBConfig.py:257-258 | the truncated rational index and port of a shared coalescer, in integer division and remainder |
| `TlbWiring.WireUnit` | gem5/configs/common/GPUTLBConfig.py:236-260 | the links of one compute unit, or division by zero without a TLB |
| `TlbWiring.WireL1` | gem5/configs/common/GPUTLBConfig.py:124-260 | the links of all compute units for every configuration name |
| `TlbWiring.PerLaneMeans` | gem5/configs/common/GPUTLBConfig.py:126-127 | perLane: 64 coalescers of its own for every compute unit |
| `TlbWiring.MonoMeans` | gem5/configs/common/GPUTLBConfig.py:128-129 | mono: one coalescer for all units, unit `i` at port `i` |
| `TlbWiring.PerUnitMeans` | gem5/configs/common/GPUTLBConfig.py:130-131 | perCU: one coalescer of its own for every unit |
| `TlbWiring.TwoUnitsMean` | gem5/configs/common/GPUTLBConfig.py:132-133 | 2CU: an even number of units share coalescers in pairs, at ports 0 and 1 |
| `TlbWiring.NoPortTwice` | gem5/configs/common/GPUTLBConfig.py:233-260 | no port of an L1 coalescer is wired twice |
| `TlbWiring.CoalescerExists` | gem5/configs/common/GPUTLBConfig.py:233-260 | every link goes to a coalescer that exists |
| `TlbWiring.EveryUnitWired` | gem5/configs/common/GPUTLBConfig.py:235-260 | every compute unit gets a translation port |
| `TlbWiring.PortsHaveNoGap` | gem5/configs/common/GPUTLBConfig.py:249-260 | a shared coalescer hands out its ports from 0 without a gap, to consecutive units |
| `TlbWiring.GroupsFitIff` | gem5/configs/example/apu_se.py:495-499 | every unit lands on an existing instruction or scalar coalescer if and only if there are at least the rounded-up number of groups |
| `TlbWiring.GroupMeans` | gem5/configs/common/GPUTLBConfig.py:262-273 | unit `i` is number `i % per` of group `i / per`, and the number of groups is rounded up |
| `TlbWiring.GroupsDiffer` | gem5/configs/common/GPUTLBConfig.py:261-278 | no two units share such a port, and ports stay below the group size |
| `TlbWiring.WireL2` | gem5/configs/common/GPUTLBConfig.py:284-293 | the links from all level 1 TLBs to the L2 coalescer |
| `TlbWiring.L2UsesEachPortOnce` | gem5/configs/common/GPUTLBConfig.py:284-293 | its ports 0 to total - 1 are used once each, in order |
| `TlbWiring.EveryTlbHasPort` | gem5/configs/common/GPUTLBConfig.py:285-293 | and every level 1 TLB has one |
| `CacheTree.SumCountsTree` | gem5/configs/example/memtest.py:150-161 | the sum of multipliers times testers is the number of testers of the recursive tree |
| `CacheTree.NumTesters` | gem5/configs/example/memtest.py:150-161 | the accumulator loops compute that number |
| `CacheTree.MakePrototypes` | gem5/configs/example/memtest.py:219-260 | one prototype per level in closed form; level one has 32 KiB, four ways, four MSHRs or one when blocking, latencies of one, and is inclusive and writes back clean lines; each level towards memory multiplies sizes by the caches below it and latencies by ten and flips the two flags |
| `CacheTree.NextPrototype` | gem5/configs/example/memtest.py:241-258 | scaling the prototype of one level gives that of the next |
| `CacheTree.Builder.constructor` | gem5/configs/example/memtest.py:279-280 | all indices at zero |
| `CacheTree.Builder.NewSubsystem` | gem5/configs/example/memtest.py:288-294 | takes the next index of a level and registers a fresh name |
| `CacheTree.Builder.MakeCacheLevel` | gem5/configs/example/memtest.py:285-347 | one call creates the testers of its subtree and moves each level's index by the product of the cache counts, with no list indexed out of bounds |
| `CacheTree.BuildTree` | gem5/configs/example/memtest.py:191-351 | for every accepted specification: as many testers as `numtesters` says, each level's index ends as a product of cache counts, and the names are exactly those indices |
| `CacheTree.NamesDiffer` | gem5/configs/example/memtest.py:294-294 | different subsystems get different attribute names |
| `RepeatSwitch.TurnAround` | gem5/configs/common/Simulation.py:464-467 | the same pairs the other way round |
| `RepeatSwitch.Simulator.constructor` | gem5/configs/common/Simulation.py:453-454 | a simulator at a tick with its running CPUs |
| `RepeatSwitch.Simulator.Simulate` | gem5/configs/common/Simulation.py:456-460 | time never goes back and never passes the given number of ticks, and has passed all of them when the limit is reported |
| `RepeatSwitch.Simulator.SwitchCpus` | gem5/src/python/m5/simulate.py:430-509 | requires the checks of `switchCpus` on who runs, take-over and memory modes; drains, exchanges the running CPUs and sets the memory mode |
| `RepeatSwitch.SwitchMeans` | gem5/src/python/m5/simulate.py:493-509 | after a switch the new CPU of each pair runs, the old one does not, and the memory mode is the one every new CPU needs |
| `RepeatSwitch.Simulator.NextTurn` | gem5/configs/common/Simulation.py:462-467 | one switch and the turning of the list lead to the next turn |
| `RepeatSwitch.Simulator.RepeatSwitch` | gem5/configs/common/Simulation.py:453-471 | the loop terminates with the specified tick and number of switches, every switch passes the checks, and the running CPUs are those of the parity of switches |
| `RepeatSwitch.SwitchKeepsTurn` | gem5/configs/common/Simulation.py:462-467 | at every turn the list at hand passes the checks and leads to the next turn |
| `RepeatSwitch.OneOfEachPair` | gem5/configs/common/Simulation.py:462-467 | of each pair exactly one CPU runs after any number of switches |
| `RepeatSwitch.OnlyDrainingOverruns` | gem5/configs/common/Simulation.py:469-471 | entered with a full period left, time passes the maximum exactly when the last `simulate` is refused, and then by no more than the last draining took |
| `RepeatSwitch.EndsAtMaximum` | gem5/configs/common/Simulation.py:455-471 | a run that is not refused and whose last simulation reports its limit ends exactly at `maxtick` |
| `RepeatSwitch.NeverOverrunsIff` | gem5/configs/common/Simulation.py:453-471 | for all systems that drain within D ticks, time never passes the maximum if and only if the time left on entry is safe: at least one period and D when D is at most 1, else between j periods with D ticks of draining each and j + 1 bare periods, for some j >= 1 |
| `RepeatSwitch.SafeWithoutDraining` | gem5/configs/common/Simulation.py:469-471 | with draining of at most one tick, a time is safe exactly when one period and its draining fit |
| `RepeatSwitch.StaysSafe` | gem5/configs/common/Simulation.py:469-471 | a safe time stays safe after every period that is not the last |
| `RepeatSwitch.UnsafeOverruns` | gem5/configs/common/Simulation.py:469-471 | for every other time there is a system that drains within D ticks and passes the maximum |
| `RepeatSwitch.GuardIsNotEnough` | gem5/configs/common/Simulation.py:809-812 | the guard of `run` lets the loop pass the maximum |
| `RepeatSwitch.ListsHandOver` | gem5/configs/common/Simulation.py:518-593 | the pair lists built by `run` hand over from running CPUs to switched-out ones, with or without a first switch to other CPUs |
| `RepeatSwitch.LoopCanStartIff` | gem5/configs/common/Simulation.py:557-593 | with at least one CPU, all switches of the loop pass the checks if and only if both classes it alternates between support taking over |
| `LatencyRanges.NextRange` | gem5/configs/dram/lat_mem_rd.py:171-171 | each range is the one before plus the step |
| `LatencyRanges.RangeForm` | gem5/configs/dram/lat_mem_rd.py:166-174 | range i is (4 + i mod 4) times 1024 times 2 to the power i div 4 |
| `LatencyRanges.RangePow2Iff` | gem5/configs/dram/lat_mem_rd.py:156-158 | `is_pow2` holds for every fourth range and for no other, and which power it is |
| `LatencyRanges.StepDoubles` | gem5/configs/dram/lat_mem_rd.py:172-173 | the step doubles exactly where the range reaches a power of two |
| `LatencyRanges.Ranges` | gem5/configs/dram/lat_mem_rd.py:164-174 | the loop terminates with the ranges in closed form, the last at least the maximum and all others below it |
| `LatencyRanges.PowersAreMeasured` | gem5/configs/dram/lat_mem_rd.py:164-174 | every power of two from 4096 up to the maximum is measured |
| `Bits.PowerOfTwoTest` | gem5/configs/dram/lat_mem_rd.py:157-158 | a positive number shares no bit with its predecessor if and only if it is a power of two |
| `Bits.OrHighBits` | gem5/util/protolib.py:120-122 | setting all bits from the k-th on keeps the low bits of a number of any sign and makes it negative |
| `Sorting.SortIsTheStableSort` | gem5/util/o3-pipeview.py:242-242 | the sort used throughout is the only sorted list that keeps equal elements in their order |
| `Text.StripMeans` | gem5/util/find_copyrights.py:116-116 | `strip` takes exactly the blanks, by their codes, off both ends |
| `Text.SplitMeans` | gem5/util/find_copyrights.py:116-116 | `split` cuts at every separator and nowhere else |
| `Text.DecimalDigit` | gem5/util/find_copyrights.py:195-220 | digit `k` from the right of a number in decimal is the digit worth ten to the `k`, and no zero leads |

## Left out

- The migrations themselves: the bodies of the upgrader scripts are opaque steps in a log, and the `exec`, the type checks and the turning of a single string into a list in `Upgrader.__init__` (lines 96-119) are not modelled.
- How version tags are stored in `Globals` or `root.globals` and written back, the backup file and the warning about unknown tags.
- Order of dependencies in registries that mix upgraders and downgraders: `UpgradeEngine.AbortIffCycle` and `UpgradeEngine.TraceIsTopological` are for registries with upgraders only, because with `ready` as coded a dependency on a downgraded tag is not an ordering.
- Start and stop of reading in `process_trace`, the parsing of trace lines, terminal colours and the text behind a row.
- PipeTimeline.PrintInst: gives each row and its start tick, without the padding of that number and the columns behind it.
- `__cmp__` is ignored by Python 3, where sorting a list of pairs of `PortConnection` fails; the model sorts as the method says, by object, port and index.
- `PortConnection.from_string` and the configuration file behind `gather_port_connections`; a configuration is given as ports with their peers.
- PortBinding.BindPorts: the assignments at the end (lines 397-406) are modelled by the vector each port ends up with, in `PortWiring.WiringIsRebuilt`.
- Protocol buffer messages: payloads are opaque bytes, and which of them `ParseFromString` accepts is a parameter; the magic number at the front of a file is not modelled.
- DepTraceCodec.RoundTripIff: the type names are those of the record definition, fields are bounded by their width, and `int` and `strip` know ASCII digits and white space only.
- Compression in the aggregator, and the parts of it that Python 3 refuses (`readfp`, text written to binary files, options that are not strings): the model is what the tool means to write.
- MergedSections.OtherSectionsAreKept: `range_size`, which the tool sets in `system.physmem.store0` at the end, is a field of its own in the model and is not put into that section.
- TlbWiring.TwoUnitsMean: for an odd number of compute units the pairs are uneven; `TlbWiring.WireL1` gives their links by formula.
- Negative page counts in a checkpoint, which the aggregator does not expect.
- Finding copyright blocks, holders and owners in files; the model starts at the text of the dates.
- Floating-point rounding in the TLB configuration: divisions are exact, so very large numbers of compute units are not covered.
- The entries, associativity and constructors of TLBs, and the parts of the memory test that only set parameters or connect objects; the random tree of `--random`.
- Checkpoint restoring, fast-forwarding and the standard switch in `run`; the environment of the CPU switching loop is one answer per `simulate`.
- RepeatSwitch.Simulator.SwitchCpus: the type checks and the flushing of caches on a change of memory mode are not modelled, and the checks are a precondition that the loop is shown to meet.
- The address interleaving of memory controllers, the Ruby configurations, the code generators, the option tables, the other utilities, the UCIe hardware sources and the C++ simulator.
