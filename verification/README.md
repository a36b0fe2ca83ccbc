# Verified models of the JSTorrent clients and release scripts

JSTorrent's clients and its release scripts keep a number of small, self-contained mechanisms in which a wrong step would
not show up in an ordinary run: stream decoders that must not depend on how the bytes arrive, gates that delete files
only after a proof, state machines whose calls interleave at every suspension. This project models those mechanisms in
Dafny, in the form the sources give them (classes with mutable fields, loops over buffers, pure helpers), and proves what
they promise for all inputs, all runs and all interleavings.

The methods are verified against value-level specifications, and the theorems are about those. State machines share one
pattern: a `Step` function for the events, class methods whose result is `Step`, an invariant that every step keeps, and
theorems over every sequence of steps.

| file | what it is about |
|---|---|
| `Bytes.dfy`, `Sequences.dfy`, `Wrappers.dfy` | octets, fixed-width integers, concatenation; distinct elements; the optional value |
| `PeerWire.dfy`, `Framers.dfy` | the frames of the BitTorrent peer wire ("peer protocol" in BEP 3) and the two relays that decode it |
| `ElfDynamic.dfy`, `ElfFixture.dfy` | the reader of DT_NEEDED names ("Dynamic Section", chapter 5 of the System V gABI), and the image that its tests build |
| `PackageTree.dfy`, `GplGate.dfy`, `NoticeClosure.dfy` | the bounded walk of a package, the gate and the install step on top of it, and the closure of licence notices |
| `LifecycleState.dfy`, `LifecycleRuns.dfy`, `LifecycleEffects.dfy`, `LifecycleOwner.dfy` | the iOS lifecycle state, all its interleavings, what every step does, and the owner object |
| `Decimal.dfy`, `UninstallUrl.dfy`, `MetricsState.dfy`, `MetricsReadBack.dfy`, `MetricsOwner.dfy`, `MetricsInterleavings.dfy` | u64 counters as text, the uninstall address, the stored product metrics, what the next reading finds, the promise chain around them, and what holds at every moment of it |
| `NameOrder.dfy`, `SourceNames.dfy`, `SourceCarrier.dfy`, `SourceTampering.dfy` | the names and lines of the source inventory and their order; the two writers and the verifier of source archives; what the verifier notices |
| `ContentScan.dfy` | the windowed content scan of the distribution inspector |
| `SenderPump.dfy` | the back-pressured sender and the checking receiver of the raw data-channel benchmark |
| `Handoff.dfy`, `LinuxConnection.dfy` | the two event-driven connection pages |

`dafny verify dfyconfig.toml` checks everything.

## Where the code does less than one might expect

Some properties that read as obvious do not hold of the code. Each is proved in the form in which it does hold, with the
exact condition.

- **Source carrier.** The inventory is read with a line splitter that knows ten separators, but names are only checked
  for the newline. A produced archive is accepted if and only if no source name holds any separator, is the name of the
  inventory itself, or is the lone dot below a directory (`SourceCarrier.CarrierAcceptedIff`); a name with a vertical tab is
  packed and refused (`SourceCarrier.PackedButRefused`).
- **Tampering.** Dropping a member other than the inventory that counts (the last one) is always noticed, and so is replacing
  it, unless name and digest stay the same (`SourceTampering.DroppedIff`, `SourceTampering.ReplacedIff`). What can go unnoticed
  is a new inventory that counts: added, or in the place of another member, exactly when its name is safe and new and all
  others can be listed in its directory (`SourceTampering.AddedIff`, `SourceTampering.ReplacedByInventoryIff`). The inventory
  that counts can be dropped or demoted exactly when the text of one before it lists the rest (`SourceTampering.DroppedIff`,
  `SourceTampering.InventoryDemotedIff`, with `SourceTampering.DropUnnoticed` for an archive where it can), and what it says about
  itself is ignored (`SourceTampering.InventoryReplacedIff`, `SourceTampering.OwnDigestUnnoticed`).
- **Content scan.** The 128-byte tail makes the scan exact for patterns of 1 to 129 bytes and for no others
  (`ContentScan.ExactIff`); the two scanned expressions match shorter texts only.
- **Install.** The final gate can refuse after the deletion: exactly when a symbolic link leads to a removed file
  (`GplGate.GateAfterRemoval`, and `GplGate.GateCanRefuse` for a package where it does).
- **iOS flags.** A raised flag implies a held lease, but not conversely: the two part exactly when a start fails while a
  lease is held (`LifecycleRuns.StepKeeps`), and that is reachable (`LifecycleRuns.StartCanFailInBackground`).
- **Metrics.** A change can be stored and its call still be rejected: exactly when the address with the percent-encoded
  version exceeds 1023 characters (`MetricsState.FulfilledIffStored`). No ASCII version and none of at most 109 string units
  does that, but accepted ones of 110 units do (`MetricsState.StoredButRejected`, `MetricsState.WideVersionDoesNotFit`).
  So the session theorem counts stored calls under those versions (`MetricsInterleavings.SessionsOfStoredCalls`) and
  successful calls under all others (`MetricsInterleavings.SessionsOfSuccessfulCalls`). If the write of a repaired state is
  rejected, the catch branch runs the recovery on the undamaged value, which loses the cached summary and nothing else
  (`MetricsState.RetryDropsTheSummary`).
- **Raw benchmark.** A length that is not a multiple of 16384 is rejected by the receiver, because the sender always sends
  whole messages, unless a cancellation point comes first (`SenderPump.CompletesIff`, and `SenderPump.OneMessageRuns` for a run).
- **Linux page.** A check that returns a result after its deadline has passed leaves the text that says the check is under
  way (`LinuxConnection.StaleTextIff`, `LinuxConnection.StaleTextReachable`).

## Model

A class whose methods are the steps of a run model has one row, because all of its methods say the same: the object after
the method is the value after the step.

| member | source | states |
|---|---|---|
| `PeerWire.DecodeEncode` | clients/android/run_bootstrap.py:694-703 | Decoding the length-prefixed encoding of any frames, followed by any incomplete frame, gives back those frames and that leftover |
| `PeerWire.EncodeDecode` | clients/android/run_bootstrap.py:694-703 | For every byte string the encoding of its decoded frames and the leftover is that byte string, and the leftover holds no complete frame |
| `PeerWire.DecodeAppend` | clients/android/run_bootstrap.py:687-699 | Decoding is incremental: what arrives later is decoded together with the leftover, and earlier frames never change |
| `PeerWire.CarriesRequestIffDecoded` | clients/android/run_bootstrap.py:694-703 | A stream holds a 68-byte handshake, whole frames and then a complete frame with identifier 6 if and only if the decoder finds such a frame |
| `PeerWire.DecodedIsCarried` | clients/android/run_bootstrap.py:694-703 | Every decoded frame stands in the stream right behind the handshake and the frames before it |
| `Framers.RequestClosingProxy.Relay` | clients/android/run_bootstrap.py:668-704 | For every cutting into chunks: exactly the received bytes are forwarded; a request is signalled if and only if the received stream carries one; the chunk that completes it is the last one taken; it fails exactly on a reset, not on a timeout, stops only for a request or a flag raised from outside, and otherwise reads to the end of the stream |
| `Framers.RequestClosingProxy.Inspect` | clients/android/run_bootstrap.py:687-703 | One chunk: found if and only if the stream including the chunk carries a request, and otherwise the countdown and the buffer are exactly what the stream leaves |
| `Framers.RequestClosingProxy.PopFrames` | clients/android/run_bootstrap.py:694-703 | The inner loop finds a request if and only if one is among the complete frames of the buffer, and otherwise leaves the incomplete frame |
| `Framers.Absorb` | clients/android/run_bootstrap.py:687-699 | Buffer plus chunk decodes to what the whole stream adds, across the end of the handshake too |
| `Framers.FramesGrow` | clients/android/run_bootstrap.py:694-703 | Frames once decoded stay decoded, and a request once carried stays carried, when more of the stream arrives |
| `Framers.RepeatedDelayedPieceProxy.RelayGuard` | clients/android/run_bootstrap.py:783-816 | Under arbitrary partial reads either nothing is forwarded or the handshake and a whole number of frames, byte for byte; all frames if the source simply ended; the noted pieces are those of the forwarded frames in order; a failure is recorded only for a foreign handshake, and a complete foreign handshake always ends the relay so unless the stream breaks; it breaks off exactly on a reset and stops early only for a flag raised from outside |
| `Framers.RepeatedDelayedPieceProxy.RelayFrames` | clients/android/run_bootstrap.py:794-804 | The loop passes whole frames only, notes exactly their piece headers, and reaches the end of the source with all of them passed unless the stream is reset or the flag is raised from outside |
| `Framers.RepeatedDelayedPieceProxy.RelayFrame` | clients/android/run_bootstrap.py:795-800 | One turn forwards one frame unchanged, an empty one too, or nothing at all, and then the source holds no complete frame or was reset |
| `Framers.RepeatedDelayedPieceProxy.RecvExact` | clients/android/run_bootstrap.py:818-826 | Whatever sizes the receives return, the next bytes of exactly the asked length, or the stream ended before that many |
| `Framers.RepeatedDelayedPieceProxy.RecvMaybeExact` | clients/android/run_bootstrap.py:828-839 | As before, and a closed stream is told apart from one that ends inside: closed if and only if nothing was left |
| `PeerWire.FirstFrameRequest` | clients/android/run_bootstrap.py:694-703 | Behind any 68 octets the first frame is a request exactly if it is not empty and starts with 6 |
| `Framers.HeaderOfPiece` | clients/android/run_bootstrap.py:802-804 | A piece frame as the protocol lays it out is noted with its own piece number, offset and block length |
| `Framers.ForwardFrame` | clients/android/run_bootstrap.py:795-800 | Taking one prefix and body off the undecoded stream takes exactly the next frame off the decoded one |
| `Framers.RelaysAgree` | clients/android/run_bootstrap.py:668-816 | Whatever number of frames the blocking relay has passed on, stopped or not, it is a prefix of the source; the incremental one decodes from it exactly those frames of the source, and finds a request exactly if one of them is a request |
| `Framers.AllPassedAgree` | clients/android/run_bootstrap.py:668-816 | Once all frames are passed on both relays agree on whether the source carries a request |
| `ElfDynamic.Needed` | scripts/linux_native.py:14-61 | For every byte string: either the returned names are, in order, exactly the names that the dynamic entries point to in the one uniquely mapped string table, or the reader rejects and no list of names would do |
| `ElfDynamic.ReadTags` | scripts/linux_native.py:26-40 | Rejects exactly if some segment leaves the file or a dynamic one is not a whole number of entries; otherwise the entries of the dynamic segments in header order |
| `ElfDynamic.ReadEntries` | scripts/linux_native.py:36-40 | The entries of one segment up to its first DT_NULL |
| `ElfDynamic.EntriesExact` | scripts/linux_native.py:36-40 | The entries are read in place, each up to the first DT_NULL or the end of the segment, and none behind it |
| `ElfDynamic.ReadNeeded` | scripts/linux_native.py:41-61 | The names if there is exactly one table address, one bounded length and one loadable segment that maps the table; otherwise no names are possible |
| `ElfDynamic.MappedTables` | scripts/linux_native.py:48-49 | All the loadable segments that map the string table, in order |
| `ElfDynamic.ReadNames` | scripts/linux_native.py:53-61 | Every name in order, or the proof that some entry points to no name |
| `ElfDynamic.ReadName` | scripts/linux_native.py:55-60 | The NUL-terminated ASCII name inside the table, or the proof that there is none |
| `ElfDynamic.ListsOnce` | scripts/linux_native.py:14-61 | A file determines its list of names |
| `ElfFixture.ListsOne` | scripts/linux_native.py:41-61 | A file with one load segment at any file offset and any address, and one dynamic segment, lists the name that stands as far behind the start of the segment's content as the table address and the offset say |
| `ElfFixture.AmbiguousTableRefused` | scripts/linux_native.py:48-51 | A string table that two load segments map is refused |
| `ElfFixture.RepeatedTableRefused` | scripts/linux_native.py:44-47 | A table whose address or length is not given exactly once is refused |
| `ElfFixture.OutsideBoundsRefused` | scripts/linux_native.py:20-25 | Every size, class, encoding, header and table bound refuses |
| `ElfFixture.BuildImage` | scripts/test_linux_native.py:11-24 | An image with those fields of the tests' image that the reader looks at (not its machine, flag, memory-size, physical-address and alignment fields) lists exactly the one dependency it was built for, for every ASCII name that fits the table bound; for the empty name, where the tests build an image without a dependency, it lists the empty name |
| `ElfFixture.LayoutListsDependency` | scripts/test_linux_native.py:13-23 | Every file with the layout of that image, whatever its other fields hold, is read back to exactly its dependency |
| `PackageTree.SelectedFiles` | scripts/native_notices.py:89-119 | The explicit-stack walk ends on every finite tree in every listing order; it fails exactly if a bound, an escaping link or a special file makes the tree inadmissible; otherwise it meets every entry exactly once and returns exactly the components with their digests |
| `PackageTree.ScanDirectory` | scripts/native_notices.py:94-116 | One directory: the walk goes on with everything it knows, or the tree is not admissible |
| `PackageTree.WalkedEverywhere` | scripts/native_notices.py:92-106 | Once the stack is empty every entry of the tree has been met, however deep |
| `PackageTree.Advance` | scripts/native_notices.py:95-116 | One entry: refused if and only if it proves the tree inadmissible, and otherwise counters, stack and result stay right |
| `PackageTree.Finish` | scripts/native_notices.py:117-119 | The result is the recursive enumeration, and its size bound is the last condition of admissibility |
| `PackageTree.SelectedExactly` | scripts/native_notices.py:113-116 | Selected are exactly the regular files that start with the ELF magic and the two helpers by path |
| `PackageTree.RefusedEntry` | scripts/native_notices.py:100-111 | One special file, one link that dangles or leads out, or one file above 4 GiB refuses the package |
| `PackageTree.CountsDecide` | scripts/native_notices.py:96-118 | A package of files and directories within 4 GiB is refused exactly for more than 50000 entries or 1024 components |
| `GplGate.VerifyKnownGplAbsent` | scripts/linux_native.py:64-78 | Succeeds if and only if the tree is admissible and no component is named in, depends on, or cannot be read for, an excluded family; the count is that of all components |
| `GplGate.ProveUnneeded` | scripts/linux_native.py:151-154 | The proof loop passes if and only if no component that stays depends on an excluded family |
| `GplGate.Package.CopyItems` | scripts/linux_native.py:143-148 | Exactly the items in front of the first refused destination are copied; a destination is refused exactly if it was not a plain file before the loop |
| `GplGate.Package.Install` | scripts/linux_native.py:135-158 | The whole final tree and the conditions of every outcome, so that the input determines both: nothing is deleted unless the proof was found; then exactly the excluded components are gone and every other entry is unchanged; on success the package is admissible and clean; the final gate refuses exactly if a link leads to a removed file |
| `GplGate.ArchitectureRead` | scripts/linux_native.py:139-142 | The desktop binary, direct or behind a link, matches exactly if it has 20 bytes, the machine number 62 or 183 at 18 and a zero at 19 |
| `GplGate.NoDesktopBinary` | scripts/linux_native.py:139-142 | Without a readable desktop binary no architecture matches |
| `GplGate.ExcludedFamilies` | scripts/linux_native.py:11-11 | A library is excluded by how its name starts, and only in the three families |
| `GplGate.RemovedExactly` | scripts/linux_native.py:150-156 | Removed are exactly the selected components whose file name is in an excluded family |
| `GplGate.ReplacedAt` | scripts/linux_native.py:143-148 | A destination below usr/lib ends up with the library of the last item for it |
| `GplGate.GateAfterRemoval` | scripts/linux_native.py:149-157 | After a passed proof the pruned tree is clean, and admissible if and only if no link leads to a removed file |
| `GplGate.GateCanRefuse` | scripts/linux_native.py:149-157 | A package for which the refusal after the deletion happens: an excluded library that nothing needs, and a link to it |
| `GplGate.ReplacedElsewhere` | scripts/linux_native.py:143-148 | Copying changes no entry that is not a destination |
| `NoticeClosure.Collector.CopyNotice` | scripts/native_notices.py:235-253 | The recursion ends also on cyclic references; nothing already copied changes; what is new is closed under references and was reached by them; a failure means that no complete collection exists |
| `NoticeClosure.Collector.CopyMentions` | scripts/native_notices.py:251-253 | The loop over the references of one notice keeps all of this |
| `NoticeClosure.CollectNotices` | scripts/native_notices.py:233-288 | Succeeds if and only if some collection with the seeds is closed under references within the bounds; the result is the least one, every member is a seed or reached by a chain of references, and the sizes sum to at most 64 MiB |
| `NoticeClosure.TrimsStops` | scripts/native_notices.py:252-252 | Exactly the full stops at the end of a mention are taken off |
| `NoticeClosure.OneReference` | scripts/native_notices.py:235-253 | A text that refers to one licence, with or without full stops behind the name, is collected together with that licence under its own name and nothing else |
| `NoticeClosure.AliasesStandIn` | scripts/native_notices.py:211-218 | A licence is looked up under its own name first, then under the four aliases, and nowhere else |
| `NoticeClosure.SizeRefused` | scripts/native_notices.py:239-241 | An empty notice or one above 16 MiB is in no complete collection |
| `NoticeClosure.OneMention` | scripts/native_notices.py:251-253 | What one reference adds keeps closure, reachability and leastness |
| `NoticeClosure.CompleteHasRoom` | scripts/native_notices.py:239-241 | A notice that a complete collection contains always passes the size checks |
| `NoticeClosure.ReachesFurther` | scripts/native_notices.py:251-253 | A reference followed by a chain is a chain |
| `LifecycleState.IOSLifecycleState.StageInput` | clients/ios/App/IOSLifecycleState.swift:76-84 | Duplicate, occupied or staged; like all methods of its class it ends in the value that the step function of the runs computes, so RunKeeps and RestagedAfter64 hold of the object |
| `LifecycleState.IOSLifecycleState.Record` | clients/ios/App/IOSLifecycleState.swift:108-113 | The history is the newest 64 entries |
| `LifecycleState.NewestOfNewest` | clients/ios/App/IOSLifecycleState.swift:86-94 | Dropping the oldest on every append keeps exactly the newest of the complete log |
| `LifecycleOwner.IOSApplicationLifecycleOwner.ExpireFiniteOpportunity` | clients/ios/App/IOSApplicationLifecycleOwner.swift:285-293 | An expiration up to its suspension; like all methods of its class it is one atomic step on the owner, its state and what the system sees, so StepKeeps, EndedAtMostOnce and DeliveredOnceInOrder hold of every interleaving of the methods |
| `LifecycleRuns.StepKeeps` | clients/ios/App/IOSApplicationLifecycleOwner.swift:56-299 | Every step of every interleaving keeps the invariant (flags imply held leases, balanced begin and end, input bookkeeping, one start at a time) and never overwrites a held lease; flags and leases stop agreeing exactly at a start that fails while a lease is held |
| `LifecycleRuns.RunKeeps` | clients/ios/App/IOSApplicationLifecycleOwner.swift:56-299 | The invariant holds after every run |
| `LifecycleRuns.EndedAtMostOnce` | clients/ios/App/IOSApplicationLifecycleOwner.swift:222-227 | In every run each assertion and each task is ended at most once, and never while it is still held |
| `LifecycleRuns.StartCanFailInBackground` | clients/ios/App/IOSApplicationLifecycleOwner.swift:69-70 | A run that reaches the disagreement: a start that fails after the application went to the background clears the flag while the assertion is held |
| `LifecycleRuns.AssertionKeeps` | clients/ios/App/IOSApplicationLifecycleOwner.swift:208-220 | A live assertion is not replaced, also when the system denies the request |
| `LifecycleRuns.TaskKeeps` | clients/ios/App/IOSApplicationLifecycleOwner.swift:149-169 | A live task is not replaced: another one is completed at once |
| `LifecycleRuns.ShutdownKeeps` | clients/ios/App/IOSApplicationLifecycleOwner.swift:292-299 | An expiration that overlaps another ends nothing twice and leaves flags and leases agreeing |
| `LifecycleRuns.StagingSpaced` | clients/ios/App/IOSLifecycleState.swift:76-84 | A key that may be staged is none of the 64 staged last |
| `LifecycleRuns.RestagedAfter64` | clients/ios/App/IOSLifecycleState.swift:76-94 | In every run, between two stagings of one key at least 64 other stagings with pairwise different keys are delivered |
| `LifecycleRuns.DeliveredOnceInOrder` | clients/ios/App/IOSApplicationLifecycleOwner.swift:126-134 | In every run deliveries are the stagings in order, all but a pending one, each once; pending input and pending key agree; the handled keys are at most 64 and distinct |
| `LifecycleState.HistoryLines` | clients/ios/App/IOSLifecycleState.swift:31-113 | The line that each change writes, and only if it changes something |
| `LifecycleEffects.AssertionAfter` | clients/ios/App/IOSApplicationLifecycleOwner.swift:74-106 | The assertion after every step: taken for work in the background if granted, given up for a task, given back with all background time, and otherwise kept |
| `LifecycleEffects.LeaseAfter` | clients/ios/App/IOSApplicationLifecycleOwner.swift:149-169 | The task after every step: taken if none is held, given back with all background time, and otherwise kept; a second one is completed at once |
| `LifecycleEffects.PhaseAfter` | clients/ios/App/IOSApplicationLifecycleOwner.swift:56-106 | The phase after every step; a start that succeeds takes up the scene observed meanwhile |
| `LifecycleEffects.ObservedSceneIsLast` | clients/ios/App/IOSApplicationLifecycleOwner.swift:74-106 | In every run the observed scene is that of the last scene event, whatever is suspended |
| `LifecycleEffects.GenerationAfter` | clients/ios/App/IOSLifecycleState.swift:31-38 | A generation is counted exactly when a start begins: nothing starting, stopping or running, and the counter below its maximum |
| `LifecycleEffects.SuspendedAfter` | clients/ios/App/IOSApplicationLifecycleOwner.swift:56-72 | A start is under way from its begin to its return, and an expiration that found the engine running until it is stopped |
| `LifecycleEffects.ReadyAfter` | clients/ios/App/IOSApplicationLifecycleOwner.swift:65-66 | Whether the engine runs is what it said last |
| `LifecycleEffects.RequestedAfter` | clients/ios/App/IOSApplicationLifecycleOwner.swift:171-189 | A request for continued processing stands until all background time is given back |
| `LifecycleEffects.InputsAfter` | clients/ios/App/IOSApplicationLifecycleOwner.swift:108-135 | An accepted URL is staged exactly if nothing is pending and its key is none of the 64 delivered last; a pending input is delivered exactly when an event finds the engine running |
| `LifecycleEffects.DecisionOf` | clients/ios/App/IOSLifecycleState.swift:76-84 | Duplicate, occupied or staged, in terms of the inputs that were delivered |
| `LifecycleEffects.AcceptedIff` | clients/ios/App/IOSApplicationLifecycleOwner.swift:108-124 | A URL is accepted if it is a magnet of 1 byte to 16 KiB or a torrent file |
| `LifecycleEffects.HeldIsWatched` | clients/ios/App/IOSApplicationLifecycleOwner.swift:229-244 | In every run background time is held or requested only under a running monitor |
| `LifecycleEffects.MonitorGivesBack` | clients/ios/App/IOSApplicationLifecycleOwner.swift:229-244 | In every run with background time held, the next turn of the monitor gives everything back if the work is done and nothing otherwise |
| `Decimal.PrintIsDigits` | clients/extension/src/product-metrics.js:280-285 | Rendering then parsing gives the number back, in digits without a leading zero |
| `Decimal.PrintOfValue` | clients/extension/src/product-metrics.js:280-285 | Parsing then rendering gives back every digit run without a leading zero |
| `Decimal.U64TextIffRendering` | clients/extension/src/product-metrics.js:280-285 | The accepted texts are exactly the renderings of 0 to 2^64-1 |
| `Decimal.ValidateUnchanged` | clients/extension/src/product-metrics.js:280-285 | What is accepted is returned unchanged, everything else raises |
| `Decimal.HostedAcceptsTheSame` | website/public/product-context.js:41-51 | The hosted page accepts exactly the same counters |
| `Decimal.IncrementIsSaturatingSuccessor` | clients/extension/src/product-metrics.js:287-290 | On renderings the increment is the rendering of the saturating successor |
| `Decimal.IncrementText` | clients/extension/src/product-metrics.js:287-290 | On every accepted text the increment is accepted and denotes the saturating successor |
| `MetricsState.NormalizeEncoded` | clients/extension/src/product-metrics.js:244-267 | Normalising a stored state sets the running version, drops a summary without statistics, and changes nothing else |
| `MetricsState.NormalIsFixed` | clients/extension/src/product-metrics.js:244-267 | Normal states are fixed points of normalisation |
| `MetricsState.RecoverIsNormal` | clients/extension/src/product-metrics.js:209-242 | Recovery maps any stored value to a normal state without a summary |
| `MetricsState.RetryDropsTheSummary` | clients/extension/src/product-metrics.js:133-147 | When the write of a repaired state is rejected, the catch branch reads the same state once more and loses exactly the cached summary |
| `MetricsState.LoadSettles` | clients/extension/src/product-metrics.js:127-148 | Whatever was stored and whichever write was rejected, after one write reading gives the same state and writes nothing |
| `MetricsState.NewerNeverOverwritten` | clients/extension/src/product-metrics.js:104-115 | No sequence of operations changes a value with a newer schema, and every change of it is rejected |
| `MetricsState.LoadPreservesConsent` | clients/extension/src/product-metrics.js:127-148 | Loading, recovering and normalising neither give nor take consent |
| `MetricsState.ConsentAfterOperation` | clients/extension/src/product-metrics.js:45-94 | Consent after an operation is what the user just said if that was stored, and otherwise as before |
| `MetricsState.ConsentIsLastDecision` | clients/extension/src/product-metrics.js:45-94 | Over every sequential run consent is exactly the last stored decision of the user, or the start value |
| `MetricsState.ConsentNeverAppears` | clients/extension/src/product-metrics.js:45-94 | A sequential run without a call that turns statistics on never gives consent |
| `MetricsState.LoadKeepsIdentity` | clients/extension/src/product-metrics.js:123-126 | However damaged the rest of the value is, reading keeps a valid identity |
| `MetricsState.IdentityAfterOperation` | clients/extension/src/product-metrics.js:67-76 | An operation keeps a valid identity unless it is a stored reset, which gives the fresh one |
| `MetricsState.IdentityOnlyReset` | clients/extension/src/product-metrics.js:67-76 | Over every sequential run a valid identity never disappears, and is kept if nothing resets it |
| `MetricsState.PerformStoresNormal` | clients/extension/src/product-metrics.js:104-115 | What an operation leaves is what was there or a normal state, in which a summary exists only while statistics are on |
| `MetricsState.OutcomeIsNormal` | clients/extension/src/product-metrics.js:104-115 | Every state that a fulfilled call returns is normal |
| `MetricsState.FulfilledIffStored` | clients/extension/src/product-metrics.js:104-115 | A change is fulfilled exactly if it was stored and the address of the running version, percent-encoded, has at most 1023 characters |
| `UninstallUrl.FitsIff` | clients/extension/src/product-metrics.js:177-180 | The address fits exactly if the encoded version has at most 984 characters |
| `UninstallUrl.EncodedWidth` | clients/extension/src/product-metrics.js:161-162 | A character is encoded as itself, as a plus sign, or as three characters for each octet of its UTF-8 |
| `UninstallUrl.EncodedSum` | clients/extension/src/product-metrics.js:161-162 | The length of an encoding is the sum of the widths of its characters |
| `MetricsState.FulfilledIfShort` | clients/extension/src/product-metrics.js:104-115 | With an ASCII version, or one of at most 109 string units, a change is fulfilled exactly if it was stored |
| `MetricsState.StoredButRejected` | clients/extension/src/product-metrics.js:104-115 | Under every accepted version whose address does not fit, the first recorded session is stored, counts one, and its call is rejected |
| `MetricsState.WideVersionDoesNotFit` | clients/extension/src/product-metrics.js:275-278 | There is such an accepted version |
| `UninstallUrl.AsciiFits` | clients/extension/src/product-metrics.js:159-182 | The address of every ASCII version of an accepted length stays within the limit |
| `UninstallUrl.ShortFits` | clients/extension/src/product-metrics.js:159-182 | So does that of every version of at most 109 string units |
| `UninstallUrl.WideDoesNotFit` | clients/extension/src/product-metrics.js:159-182 | That bound is sharp: repetitions of a three-octet character fit exactly up to 109 |
| `MetricsState.OneOperationCounts` | clients/extension/src/product-metrics.js:67-80 | The session count moves exactly with a stored recording or reset |
| `MetricsState.SessionsCounted` | clients/extension/src/product-metrics.js:78-80 | Over every sequential run the session count is the stored recordings since the last stored reset added to the start value, saturating at 2^64-1 |
| `MetricsReadBack.ReadingKeepsValidFields` | clients/extension/src/product-metrics.js:209-242 | However damaged or new a stored value is, reading keeps each field that is still valid and puts a default for every other; unreadable consent is no consent |
| `MetricsReadBack.FirstStart` | clients/extension/src/product-metrics.js:184-197 | Nothing stored is read as a first start |
| `MetricsReadBack.SummaryRead` | clients/extension/src/product-metrics.js:253-266 | A cached summary is read from a sound value with statistics on, and from no other |
| `MetricsReadBack.SummaryIsTwoCounters` | clients/extension/src/product-metrics.js:269-273 | A summary is an object of exactly two canonical counters |
| `MetricsReadBack.StoredIsReadBack` | clients/extension/src/product-metrics.js:45-94 | What the next reading finds in every field after every operation that was stored |
| `MetricsReadBack.StoresIff` | clients/extension/src/product-metrics.js:104-115 | A change is stored exactly if reading and writing work, the value is not newer, and the operation is not refused |
| `MetricsReadBack.NewerIff` | clients/extension/src/product-metrics.js:199-201 | A value is newer exactly if its schema is a whole number from 2 on |
| `MetricsReadBack.OnlyReads` | clients/extension/src/product-metrics.js:41-43 | Snapshots and refreshes change nothing beyond what reading repairs and return what they read |
| `MetricsReadBack.ConnectedAfterOperation` | clients/extension/src/product-metrics.js:82-84 | A connection is on record after an operation exactly if one was stored just now, or it was there and not reset |
| `MetricsReadBack.ConnectionsRecorded` | clients/extension/src/product-metrics.js:82-84 | Over every sequential run a connection is on record exactly since the last stored reset |
| `MetricsOwner.ProductMetricsOwner.Serialize` | clients/extension/src/product-metrics.js:117-121 | A call is appended behind all earlier ones |
| `MetricsOwner.ProductMetricsOwner.Answer` | clients/extension/src/product-metrics.js:104-148 | Each answer to a suspended call is one step of the machine, including rejected reads and writes |
| `MetricsOwner.ProductMetricsOwner.Drain` | clients/extension/src/product-metrics.js:117-121 | Answering until nothing is pending ends, and leaves what the calls one after the other would have stored |
| `MetricsOwner.ResumeAgrees` | clients/extension/src/product-metrics.js:104-148 | Every suspension point of a call agrees with the call performed as a whole |
| `MetricsOwner.ProgressKeepsLinear` | clients/extension/src/product-metrics.js:117-121 | Progress of any call keeps the split into settled, one running and queued calls |
| `MetricsOwner.ReachableIsLinear` | clients/extension/src/product-metrics.js:117-121 | For every interleaving the operations take effect one at a time in call order |
| `MetricsOwner.SettledIsSequential` | clients/extension/src/product-metrics.js:117-121 | Once all calls have settled, storage and every outcome are those of the sequential run |
| `MetricsOwner.NeverBlocked` | clients/extension/src/product-metrics.js:117-121 | While a call is unsettled the first such can progress, whatever failed before, and every progress uses up a bounded amount of work |
| `MetricsInterleavings.SessionsOfSuccessfulCalls` | clients/extension/src/product-metrics.js:78-80 | At every moment of every interleaving of callers, under every accepted version whose address fits, the stored session count is the successful recordings since the last successful reset added to the start value, saturating at 2^64-1 |
| `MetricsInterleavings.SessionsOfStoredCalls` | clients/extension/src/product-metrics.js:78-80 | At every moment of every interleaving, under any accepted version, the stored session count is that of the changes stored by the first calls in call order, all settled ones included |
| `MetricsInterleavings.ConsentOfSuccessfulCalls` | clients/extension/src/product-metrics.js:45-65 | At every moment of every interleaving, under such a version, stored consent is the last successful decision of the user, or the start value |
| `MetricsInterleavings.ConnectionOfSuccessfulCalls` | clients/extension/src/product-metrics.js:82-84 | At every moment of every interleaving, under a version that fits, a connection is on record exactly if a successful call recorded it or it was there, and no successful reset came after |
| `MetricsInterleavings.ConsentNeedsACall` | clients/extension/src/product-metrics.js:45-94 | At every moment of every interleaving, under any version, consent has not appeared unless some caller has turned statistics on |
| `MetricsInterleavings.IdentityNeedsAReset` | clients/extension/src/product-metrics.js:67-76 | At every moment of every interleaving, under any version, a valid identity is still there, and the same unless some caller has reset it |
| `MetricsInterleavings.SuccessfulAreStored` | clients/extension/src/product-metrics.js:104-121 | The successful calls of an interleaving are exactly the operations that the sequential run stores |
| `SourceNames.SafeNameIff` | scripts/package-appimage-sources.py:37-41 | The check accepts exactly the lone dot and the names whose components are all plain |
| `SourceNames.SafeBelow` | scripts/package-appimage-sources.py:78-78 | Below a plain directory exactly the plain names are safe |
| `SourceNames.SplitTerminated` | scripts/package-appimage-sources.py:66-66 | Reading lines inverts writing them, for lines without any of the separators that the reader knows |
| `SourceNames.ParsePrinted` | scripts/package-appimage-sources.py:77-77 | Parsing an inventory line inverts printing it, whatever spaces the name holds |
| `SourceNames.SplitAtBreak` | scripts/package-appimage-sources.py:66-66 | Every separator ends a line, a carriage return together with the newline behind it |
| `SourceNames.Separators` | scripts/package-appimage-sources.py:66-66 | The ten characters that separate lines |
| `SourceCarrier.InventoryNames` | scripts/package-appimage-sources.py:64-64 | The inventory is the file of that name in any directory |
| `SourceCarrier.VerifyArchive` | scripts/package-appimage-sources.py:54-85 | Accepts exactly the archives of distinct, safe, regular members whose last inventory lists the other members with their digests and nothing else, except that it may list itself with any digest; returns the member count |
| `SourceCarrier.ReadMembers` | scripts/package-appimage-sources.py:57-71 | One pass over the stream: refuses exactly unsafe, irregular or repeated members, and otherwise has every digest and the last inventory |
| `SourceCarrier.ReadInventory` | scripts/package-appimage-sources.py:74-81 | The listed names and digests, or a refusal of an unsafe, malformed or repeated line |
| `SourceTampering.InventoryAcceptedIff` | scripts/package-appimage-sources.py:54-85 | An inventory that counts (the last in the stream) is accepted at any place exactly if the other members are safe, distinct and regular, its name is safe and new, and it lists the others with their digests; what it says about itself is ignored |
| `SourceTampering.AdmitsInventoryIff` | scripts/package-appimage-sources.py:54-85 | Members admit an accepted inventory of a given name at a given place exactly if they are safe, distinct and regular, the name is safe and new, and each lies in its directory under a name without line separators |
| `SourceTampering.AddedIff` | scripts/package-appimage-sources.py:54-85 | Some member of a given name can be added unnoticed to an accepted archive at a given place exactly if it becomes the inventory that counts, its name is safe and new, and every other member lies in its directory under a name without line separators |
| `SourceTampering.DroppedIff` | scripts/package-appimage-sources.py:54-85 | Dropping a member of an accepted archive goes unnoticed exactly if it was the inventory that counts and there is one before it whose text lists the rest of what it lists |
| `SourceTampering.ReplacedIff` | scripts/package-appimage-sources.py:54-85 | Replacing a member of an accepted archive by another, neither being the inventory that counts, goes unnoticed exactly if the new one is regular and has the same name and digest |
| `SourceTampering.InventoryReplacedIff` | scripts/package-appimage-sources.py:72-85 | Replacing the text of the inventory that counts goes unnoticed exactly if both texts list the same apart from what they say about the inventory itself |
| `SourceTampering.ReplacedByInventoryIff` | scripts/package-appimage-sources.py:54-85 | Replacing any member, under any name, by an inventory that counts can go unnoticed exactly under the conditions for adding one to the members that stay |
| `SourceTampering.InventoryDemotedIff` | scripts/package-appimage-sources.py:54-85 | Replacing the inventory that counts by an ordinary member goes unnoticed exactly if that is regular, its name is safe and new, and the text of an inventory before lists it with its digest beside the rest of what the replaced one lists |
| `SourceTampering.ForgedAccepted` | scripts/package-appimage-sources.py:54-85 | The inventory that a writer would make, put anywhere behind the last one, is accepted under those conditions |
| `SourceTampering.OwnDigestUnnoticed` | scripts/package-appimage-sources.py:82-83 | A concrete replacement that goes unnoticed: an inventory may give its own name any digest |
| `SourceTampering.DropUnnoticed` | scripts/package-appimage-sources.py:63-66 | An archive from which an inventory can be dropped unnoticed: an empty one in a directory, and behind it one at the top that lists it |
| `SourceTampering.InventoryDetermines` | scripts/package-appimage-sources.py:82-85 | Accepted archives with the same inventory have the same members with the same digests |
| `SourceTampering.AddedOrDropped` | scripts/package-appimage-sources.py:54-85 | Two archives that differ by one member that is not the inventory that counts are never both accepted |
| `SourceTampering.RenamedOrChanged` | scripts/package-appimage-sources.py:54-85 | Two archives that differ in the name or digest of one such member are never both accepted |
| `SourceCarrier.AddStreams` | scripts/package-appimage-sources.py:144-161 | The first writer adds all sources exactly if their names are safe and distinct |
| `SourceCarrier.AddableIff` | scripts/package-current-appimage-sources.py:281-303 | The second writer's per-member checks of name, duplicate, count and bytes pass exactly if the sources satisfy them as a whole |
| `SourceCarrier.ListInventory` | scripts/package-appimage-sources.py:258-262 | The inventory lists every source exactly once with its digest, in ascending order of the names |
| `SourceCarrier.Package` | scripts/package-current-appimage-sources.py:281-313 | Both writers refuse exactly the sources that are unsafe, repeated or out of bounds, and otherwise produce the members and an inventory in ascending order of the names |
| `SourceCarrier.SecondWriterBounds` | scripts/package-current-appimage-sources.py:285-286 | The second writer packs what the first does, up to 200000 sources and 8 GiB |
| `SourceCarrier.InventoryReproducible` | scripts/package-appimage-sources.py:258-262 | The inventory depends on the sources only, not on the order in which they were added |
| `NameOrder.AscendingUnique` | scripts/package-appimage-sources.py:258-258 | Given entries have one arrangement in ascending order of their names |
| `SourceCarrier.CarrierAcceptedIff` | scripts/package-appimage-sources.py:54-85 | A produced carrier is accepted if and only if no source name is the inventory's own, holds a line separator, or is the lone dot below a directory |
| `SourceCarrier.PackedButRefused` | scripts/package-appimage-sources.py:66-66 | A source that both writers pack and the verifier refuses: its name holds a vertical tab |
| `SourceCarrier.PackageAndVerify` | scripts/package-appimage-sources.py:258-263 | Packaging and verifying as the writers do: the member count, or a refusal exactly if a source is refused or a name is not carried |
| `ContentScan.WindowedIsWhole` | scripts/inspect-distribution.py:62-72 | For every file and every chunking, a pattern of 1 to 129 bytes is reported exactly if the whole file holds it |
| `ContentScan.ExactIff` | scripts/inspect-distribution.py:62-72 | The scan is exact on all files and chunkings exactly for the patterns of 1 to 129 bytes |
| `ContentScan.LongerCanBeMissed` | scripts/inspect-distribution.py:71-72 | Every longer pattern is missed in one concrete cutting of the file that is the pattern |
| `ContentScan.SignaturesAreShort` | scripts/inspect-distribution.py:20-21 | The scan is exact for every text that the two scanned expressions match |
| `ContentScan.ScanFile` | scripts/inspect-distribution.py:62-72 | The chunk loop refuses exactly if the whole text file holds a signature, and feeds the digest the whole file |
| `ContentScan.TailIsSuffix` | scripts/inspect-distribution.py:69-72 | The kept tail is the last 128 bytes read, or all of them |
| `SenderPump.PatternPeriodic` | scripts/lib/direct-file-raw-benchmark-browser.js:34-36 | The formula repeats every 64 KiB at every position, also across the wrap of the shift |
| `SenderPump.ShorterCyclesDiffer` | scripts/lib/direct-file-raw-benchmark-browser.js:65-66 | Fewer than four prepared messages would not do |
| `SenderPump.CycleIsFixture` | scripts/lib/direct-file-raw-benchmark-browser.js:79-81 | The message taken from the four-message cycle is the fixture at that position |
| `SenderPump.Prepare` | scripts/lib/direct-file-raw-benchmark-browser.js:65-73 | The four prepared messages are the first 64 KiB of the formula |
| `SenderPump.BrowserSender.Pump` | scripts/lib/direct-file-raw-benchmark-browser.js:78-84 | What the pump puts on the wire from the cycle is the fixture itself, message by message until the guard stops it |
| `SenderPump.BrowserReceiver.OnMessage` | scripts/lib/direct-file-raw-benchmark-browser.js:25-50 | A message advances the receiver exactly if it is 1 to 16384 bytes, fits the length and is the fixture at the position; otherwise it rejects |
| `SenderPump.AdvancesIff` | scripts/lib/direct-file-raw-benchmark-browser.js:30-44 | A message advances the receiver exactly if its length fits and every byte is that of the formula at its position; one wrong byte rejects |
| `SenderPump.PumpKeeps` | scripts/lib/direct-file-raw-benchmark-browser.js:78-84 | A pump keeps the flow; with work left it stops only within one message of the 512 KiB ceiling |
| `SenderPump.StepKeeps` | scripts/lib/direct-file-raw-benchmark-browser.js:25-87 | Every step keeps: the ceiling, the fixture on the wire, the checked prefix, and that a sender with work left is above the wake-up threshold or has its wake-up queued |
| `SenderPump.RunKeeps` | scripts/lib/direct-file-raw-benchmark-browser.js:25-87 | This holds after every run |
| `SenderPump.Conserved` | scripts/lib/direct-file-raw-benchmark-browser.js:78-84 | Over every run buffered bytes never exceed 512 KiB and sent bytes equal received plus in flight until the receiver settles |
| `SenderPump.NoLostWakeUp` | scripts/lib/direct-file-raw-benchmark-browser.js:77-86 | In every run an open sender with work left has more than 256 KiB buffered or its wake-up queued |
| `SenderPump.FinishedShortCloses` | scripts/lib/direct-file-raw-benchmark-browser.js:44-46 | A receiver that finished short of the length did so at the cancellation point and has closed the channel |
| `SenderPump.WorkShrinks` | scripts/lib/direct-file-raw-benchmark-browser.js:78-86 | Every channel step uses up work, so every run comes to rest |
| `SenderPump.CompletesIff` | scripts/lib/direct-file-raw-benchmark-browser.js:25-87 | When a channel that nothing but the receiver has closed is at rest or closed, the transfer has resolved exactly if the length is a positive multiple of 16384 or a cancellation point lies within it; any other positive length was rejected for its overshooting last message |
| `SenderPump.OneMessageRuns` | scripts/lib/direct-file-raw-benchmark-browser.js:25-50 | The run of one message that comes to rest: resolved for a length of 16384, rejected for every shorter one |
| `Handoff.ChromeExtensionHandoff.OpenExtension` | website/public/chrome-extension.js:20-47 | A click or the opening of the page; like all methods of its class it is one step of the runs, so OutcomeAnswersItsStart and SettledIff hold of the page |
| `Handoff.OutcomeAnswersItsStart` | website/public/chrome-extension.js:13-66 | In every ordering an outcome directly follows the start of its own attempt: no departure, later attempt or other outcome lies between |
| `Handoff.OneOutcomePerAttempt` | website/public/chrome-extension.js:13-66 | Each attempt writes at most one outcome |
| `Handoff.SettledIff` | website/public/chrome-extension.js:31-43 | A reply or deadline is shown, with its own text and a freed button, exactly if its attempt is the last thing that happened; otherwise it changes nothing |
| `Handoff.ClickStartsIff` | website/public/chrome-extension.js:20-47 | A click starts an attempt exactly at the expected address and top frame with an extension to call, says why not elsewhere, and answers an attempt that throws at once |
| `Handoff.LeftAndShown` | website/public/chrome-extension.js:49-66 | Leaving ends the attempt and its deadline without an outcome; only a kept page can be shown again, and then waits for a click |
| `Handoff.NeverStuck` | website/public/chrome-extension.js:31-66 | While waiting a deadline is armed; an active page that does not wait has a live button; an inactive page has neither |
| `Handoff.StepKeeps` | website/public/chrome-extension.js:13-66 | Every event keeps the invariant behind these |
| `LinuxConnection.Connection.ResumeWithHealth` | clients/extension/crostini/connect.js:75-88 | A run after its health check; like all methods of its class it is one step of the runs, so OneRunInFlight and NavigatesIff hold of the page |
| `LinuxConnection.ReadHealthBody` | clients/extension/crostini/connect.js:13-31 | The body is the concatenation of the chunks exactly if neither the declared nor the actual length exceeds 4096 bytes, and no chunk is asked for after the excess |
| `LinuxConnection.Reassemble` | clients/extension/crostini/connect.js:29-31 | Copying the chunks at running offsets gives their concatenation |
| `LinuxConnection.OneRunInFlight` | clients/extension/crostini/connect.js:90-117 | In every ordering at most one run is in flight, the task variable is that run, and runs open and close one at a time |
| `LinuxConnection.NavigatesIff` | clients/extension/crostini/connect.js:75-82 | A run navigates exactly if its check says ready and nothing happened since its start: nobody cancelled, left or ran out of time |
| `LinuxConnection.Opening` | clients/extension/crostini/connect.js:115-117 | The page opens with one run that waits for its permission |
| `LinuxConnection.ClickShown` | clients/extension/crostini/connect.js:94-101 | A click on a live button starts a run if none is in flight and cancels the one that is; otherwise it does nothing |
| `LinuxConnection.LeavingAborts` | clients/extension/crostini/connect.js:102-102 | Leaving the page aborts the run in flight, without a timeout |
| `LinuxConnection.CheckHasDeadline` | clients/extension/crostini/connect.js:74-74 | Every check under way has its deadline before it or behind it |
| `LinuxConnection.DeadlineAborts` | clients/extension/crostini/connect.js:74-74 | The deadline aborts its run and marks it as timed out |
| `LinuxConnection.CheckShown` | clients/extension/crostini/connect.js:75-88 | The text and the freed button that the end of a check leaves on an active page, from what happened to its run: a failure shows that it timed out, was unreachable or was cancelled; a result shows its own text, or cancelled, or behind the deadline the text that says it is checking |
| `LinuxConnection.StaleTextIff` | clients/extension/crostini/connect.js:75-84 | The page goes on saying that it is checking exactly if a check returned a result although its deadline had passed and nobody had cancelled |
| `LinuxConnection.StaleTextReachable` | clients/extension/crostini/connect.js:74-76 | A run of events that leaves this text on an active page |
| `LinuxConnection.NeverStuck` | clients/extension/crostini/connect.js:94-117 | A visible page without a run accepts a click, or its restoration can finish at once |
| `LinuxConnection.StepKeeps` | clients/extension/crostini/connect.js:53-117 | Every event keeps the invariant behind these |
| `LinuxConnection.GrantShown` | clients/extension/crostini/connect.js:70-88 | What the permission answer leaves: a refused or failed request ends the run with its text and, on an active page, a freed button; on a page that was left nothing but a refusal is written; a grant on an active page leads on to the check |
| `LinuxConnection.ReactivatesIff` | clients/extension/crostini/connect.js:102-114 | The restoration that a showing starts reactivates the page exactly if the page was neither hidden nor shown again since; then no run is in flight, the button is live and the text says cancelled, and otherwise it changes nothing |

## Left out

- ElfFixture.BuildImage: leaves zero the machine, flag, physical-address, memory-size and alignment fields that the tests write, which the reader does not look at; the image without a dependency is not modelled.
- Failing sends of the relays: a `sendall` always completes; receives time out, reset or return any nonempty piece.
- Threads, delays and sleeping of the relays: the shared stop flag may be raised at any moment, nothing else is shared.
- Symbolic links as parent directories: a path of the package is looked up component by component, and only a link at its end is followed, to a place inside the package. The generated notice destinations are taken to be ordinary places.
- Files that change while they are read, and reads that fail.
- Digests of package components: two components have the same digest exactly if they have the same content.
- Digests of archive members: the hash is any function into 64 hexadecimal digits; a change is detected exactly when it changes the digest.
- The checks of a custom build before it is installed (`load_build`): the build that passed them is an input.
- Package database queries, version floors and component metadata: `NoticeClosure` takes the seeds that they select as an input.
- Regular expressions: the scanned ones are replaced by the finite set of texts they match, and the reference pattern of the notices by the list of mentions of a text. Mentions are followed in the order of that list; the source sorts them.
- The walk `bounded_paths` and the other checks of the distribution inspector: easier than the walk that is modelled.
- Tar, gzip and their limits (the two GiB of the second writer), and the UTF-8 decoding of the inventory.
- Changes of several members at once: the tampering theorems are about one member.
- The key order of stored JSON objects: a value that differs from the normal one in order only is rewritten by the source and not by the model.
- Storage-change events, message routing and the service worker around the metrics owner; other writers of its key.
- The hosted-context branch of the uninstall URL, which a constant disables.
- Unpaired surrogates in version strings: characters are Unicode scalar values, and lengths count 16-bit units.
- Clocks and random identifiers: inputs of the calls that draw them.
- Presentation of the iOS owner: background status, progress, notifications, the grace deadline, and the two bridges; the history is a list of event names instead of strings.
- LifecycleOwner.IOSApplicationLifecycleOwner.Receive: a magnet's byte length is the number of its characters, which are percent-encoded ASCII; a key is compared character by character, and a file URL is taken to be standardised.
- What the engine does with a delivered input, and its own readiness: events of the runs.
- SenderPump.PatternPeriodic: integers are exact, as they are in the source for positions below 2^48.
- The connection set-up, statistics and timing of the raw benchmark; its ninety-second limit is an event that can happen at any time.
- The JSON checks of the health answer: their result is an input of the run; the reader of its bytes is modelled.
- A thrown error while the page navigates.
- Device, emulator, virtual machine and browser driving, signing, and everything that calls other programs.
