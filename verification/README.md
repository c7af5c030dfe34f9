# Oxide build gates and data tools, modelled in Dafny

Oxide's kernel is guarded by a set of build-time programs. They decide whether a call
path can overflow a kernel stack, under which name a function is known across builds,
which bytes the kernel consults to compare file names, whether an image carries every
library a program needs, how large a stack frame is, which issue ids are in use and which
virtual machine instance owns a build directory. This project models those decisions and
proves what they promise, for every input and over every run.

The project has seven parts.

* **Stack depth** (`CallGraph`, `WalkerSpec`, `WalkerInvariant`, `WalkerTheorems`,
  `Walker`, `BlockingTail`, `WalkerLimits`, `Verdict`, `Text`). An explicit-stack depth
  first walk over any call graph, cyclic or not; the collapse of the scheduling point into
  a sink; the verdict against the allowlist and the allowlist file. `Walker.Walker` keeps
  the source's dictionaries, colours and stack. `WalkerSpec` is the same walk on values,
  which the theorems speak about.
* **Symbol identity** (`V0Parser`, `V0Syntax`, `V0Match`, `V0Mangler`, `V0Levels`,
  `V0RoundTrip`, `V0Shape`, `V0Precision`, `V0Termination`, `V0Demangler`). The demangler
  of Rust's v0 scheme (RFC 2603), a mangler that compresses with back references, the proof
  that two builds of one path get one name or none, and which paths share a name: those of
  one shape. `V0Demangler.V0` moves `pos`, `depth` and `binders` as the source does.
* **Name normalization** (`CanonicalOrder`, `Normalizer`, `NormTwice`, `ClassPasses`,
  `Cursor`, `Utf8`, `Ranges`, `Blob`, `BlobLookup`). The generator's reference reader, the kernel's scanner
  that sorts marks without a buffer, strict UTF-8, the range tables, the expansion pool
  and the byte layout between generator and kernel; put together, the kernel's comparison
  of two names as bytes, over the generated blob, against the reference reader.
* **Guest paths and libraries** (`GuestPath`, `Resolver`, `Image`, `Closure`). The deque
  walk over a disk image against a recursive walk, and the dependency closure.
* **Prologues** (`Machine`, `FrameGate`, `DepthGate`). A small machine that executes
  stack adjustments, and what the two gates count of them.
* **Issue ledger** (`LedgerText`, `LedgerIds`, `Ledger`, `LedgerRuns`, `LedgerTheorems`,
  `LedgerHistory`, `LedgerLimits`, `LedgerFloor`, `LedgerReuse`, `LedgerExample`,
  `LedgerStore`, `LedgerFiles`). Rows as text, the check, and runs of add, claim and fix
  over the lines of ledger and archive; `LedgerFiles` carries them to the files as written
  and read back, for text without line breaks.
* **Instance registry** (`Registry`, `Sweep`, `Interleaving`, `SweepAlone`). Reserving,
  registering and releasing instance ids, the sweep of unused builds, and every
  interleaving of them.

Results that correct what the sources say of themselves:

* `+indirect` and the blocking tail can be missed inside a cycle
  (`WalkerLimits.IndirectMissedInCycle`, `WalkerLimits.TailMissedInCycle`). On every
  function both follow the edges the walk kept: the flag exactly
  (`WalkerTheorems.CrossesIsKeptReach`), and the tail in both directions
  (`BlockingTail.TailCharged`). After the collapse `+indirect` is right exactly when
  `BlockingTail.IndirectRightIff` says so.
* The demangler does not end on a symbol exactly when it opens a constant whose back
  references lead into a cycle (`V0Termination.EndlessIff`); `IC1aKB4_E` is such a symbol
  (`V0Termination.LoopingIsEndless`).
* Two items of one name under one parent share an identity when only their disambiguators
  differ, and so do instances over the empty tuple and over the unit type
  (`V0Precision.SameNameCollides`, `V0Precision.EmptyTupleCollides`). Symbols share an
  identity exactly when their paths have one shape (`V0Precision.IdentitiesIff`); what a
  shape leaves out is listed at the head of `V0Shape`.
* Resolving a link that leads to `.` or `/` hands back the link's inode, not the
  directory's (`Resolver.DotLinkKeepsLinkInode`); that happens exactly when the last
  component of the path that leads anywhere is a link whose target leads nowhere or ends
  on such a link itself (`Resolver.InodeRightIff`).
* The dependency check keys objects by label and inherited RPATH, so a host root whose
  path is also a guest path hides that guest object (`Closure.RootShadowsGuest`,
  `Closure.VisitsAllIff`).
* The scanner drops a mark of combining class 255, which a table byte can hold: what it
  yields is the normal form exactly when no character has that class
  (`ClassPasses.YieldIsNormIff`). Unicode assigns none.
* Two byte-equal names compare equal even if they do not decode; otherwise a malformed
  name is reported only if the comparison gets as far (`Cursor.EqInForm`).
* Evidence is measured before it is escaped, so an accepted addition can leave a ledger
  that fails its own check (`LedgerReuse.EvidenceOutgrowsCap`); the only other way is an id
  that some row has already (`LedgerTheorems.AddPassesIff`). A branch is not escaped at all:
  of text without line breaks, a claim leaves a ledger that passes exactly when its pipes
  already are escaped (`LedgerFiles.ClaimedFilePassesIff`). A fix appends to the archive as
  it is: its row is read back exactly when the pipes of the commit are escaped and the
  archive did not break off within a line (`LedgerFiles.FixedFileReadsIff`).
* No run issues one id twice (`LedgerHistory.IssuedIncrease`), but it may issue one that was
  there before it. A row with two blanks behind its id passes the check but is not seen when
  the next id is chosen (`LedgerLimits.SpacedIdIsReused`), and a claim or a fix can lower the next number,
  since it rewrites a row that mentions ids (`LedgerExample.ClaimLowersNext`). Over runs of
  additions, claims and fixes the numbers that can be issued are exactly those from
  `LedgerFloor.Lowest` on (`LedgerReuse.IssuableIff`), so an id in use can be issued again
  exactly when it is the text of such a number (`LedgerReuse.ReuseIff`).
* A sweep does not see a start between the end of its build and its registration and can
  delete its directory (`Interleaving.LimboIsCollected`). From any point a sweep by itself
  removes a build in use exactly when what it would collect holds one
  (`SweepAlone.RemovesUsedIff`), and over every run nothing in use is ever within a sweep's
  reach exactly when every step is calm (`Interleaving.RunSparesIff`).
* A name with ignorables can change when its normal form is normalized again, exactly when a
  run of marks behind an ignorable has a class below a run before it
  (`NormTwice.NormalizeTwiceIff`).

## Model

| member | source | states |
|---|---|---|
| `WalkerSpec.StepShrinks` | tools/stack-depth-gate.py:270-314 | every step of the walk lowers (functions not yet coloured, stack height), so the walk ends on every graph |
| `WalkerInvariant.StepKeepsInv` | tools/stack-depth-gate.py:270-314 | every step keeps: grey functions are exactly the revisit items of the stack, each calling into the next; every callee of a grey function is coloured, finished or waiting above it; every closed function satisfies its depth and flag equations |
| `WalkerTheorems.WalkAllSettles` | tools/stack-depth-gate.py:316-320 | after `walk_all` every known function and no other has a depth, and all of them satisfy the closing equations |
| `WalkerTheorems.DepthIsRealPath` | tools/stack-depth-gate.py:270-327 | in any settled state the `next_hop` chain of a function is a simple call path whose weight is its depth |
| `WalkerTheorems.EveryDepthIsReal` | tools/stack-depth-gate.py:270-327 | on every call graph each reported depth is spent along a simple call path of that graph |
| `WalkerTheorems.RecursiveSet` | tools/stack-depth-gate.py:270-320 | on every call graph `recursive` is exactly the set of known functions from which a cycle is reachable |
| `WalkerTheorems.LongestOffCycles` | tools/stack-depth-gate.py:270-320 | for a function that reaches no cycle no call path weighs more than its depth |
| `WalkerTheorems.IndirectSet` | tools/stack-depth-gate.py:270-320 | a flag `+indirect` is always backed by a reachable indirect call; off the cycles it is an if-and-only-if |
| `WalkerTheorems.CrossesIsKeptReach` | tools/stack-depth-gate.py:280-312 | on any graph `+indirect` is exactly reachability of an indirect call over edges the walk did not cut |
| `WalkerTheorems.KeptWalksAreBounded` | tools/stack-depth-gate.py:280-312 | on any graph no walk over uncut edges weighs more than the depth of its start |
| `Walker.Walker.constructor` | tools/stack-depth-gate.py:265-268 | a walker starts with nothing measured |
| `Walker.Walker.ScanCallees` | tools/stack-depth-gate.py:283-300 | the callee loop yields the deepest uncut callee, its hop and the two flags, as the specification scan does |
| `Walker.Walker.CloseFunction` | tools/stack-depth-gate.py:280-302 | closing a function writes exactly its depth, hop and flags |
| `Walker.Walker.Walk` | tools/stack-depth-gate.py:270-314 | the dictionaries after a walk are those of the specification run; the result is the root's depth |
| `Walker.Walker.WalkAll` | tools/stack-depth-gate.py:316-320 | the walks in sorted order leave the state the theorems speak of |
| `Walker.Walker.Path` | tools/stack-depth-gate.py:322-327 | the printed chain is the hop path, whole or cut at the limit |
| `BlockingTail.WithBlockingTail` | tools/stack-depth-gate.py:161-176 | each scheduling point becomes a leaf costing the depth of a walk rooted at it, and nothing else changes |
| `BlockingTail.EveryCallerPaysTheTail` | tools/stack-depth-gate.py:161-176 | no edge into a scheduling point is cut: a direct caller's depth is at least its frame plus the whole tail |
| `BlockingTail.WhoeverCanBlockPays` | tools/stack-depth-gate.py:161-176 | a function that can reach a scheduling point and is not flagged `recursive` is charged some tail beyond its frame |
| `BlockingTail.TailCharged` | tools/stack-depth-gate.py:161-176 | every function, flagged or not, is charged the tail of each scheduling point it reaches over the edges the walk kept; if it reaches none that way, its depth is the weight of a path of the image that meets no scheduling point |
| `BlockingTail.OneTailPerPath` | tools/stack-depth-gate.py:161-176 | a hop path is simple and meets a scheduling point at most once, at its end |
| `BlockingTail.DepthUnfoldsToRealWalk` | tools/stack-depth-gate.py:161-176 | every collapsed depth is the weight of a call walk of the uncollapsed image through which no function passes more than twice |
| `BlockingTail.AcyclicDepthIsLongest` | tools/stack-depth-gate.py:161-176 | where the collapsed graph has no cycle in reach, the depth is its longest walk |
| `BlockingTail.IndirectRightIff` | tools/stack-depth-gate.py:161-176 | after the collapse `+indirect` agrees with the image for every unflagged function if and only if each scheduling point with an indirect call below it has one itself |
| `WalkerLimits.IndirectMissedInCycle` | tools/stack-depth-gate.py:283-300 | a graph on which a function that reaches an indirect call is not flagged |
| `WalkerLimits.TailMissedInCycle` | tools/stack-depth-gate.py:161-176 | a graph on which a function that can block is charged its own frame alone |
| `Verdict.GroupByIdentity` | tools/stack-depth-gate.py:637-649 | each over-ceiling identity is represented by the deepest symbol that carries it |
| `Verdict.CleanIff` | tools/stack-depth-gate.py:514-527 | the verdict is clean if and only if every symbol is under the ceiling or within its identity's budget and no entry is stale |
| `Verdict.FailIsReal` | tools/stack-depth-gate.py:637-668 | behind every new or worsened identity stands a symbol of that name and a call walk of the image that spends untolerated bytes |
| `Verdict.PassIsComplete` | tools/stack-depth-gate.py:637-668 | after a clean verdict no walk of the collapsed graph from a function off the cycles is over its budget |
| `Verdict.ReadAllowlist` | tools/stack-depth-gate.py:363-402 | the line loop computes the block reader |
| `Verdict.RefusedIff` | tools/stack-depth-gate.py:376-401 | a file is refused if and only if some line is neither blank nor comment nor entry, or is an entry with no reason above it in its block, or gives an identity a second budget; otherwise exactly the identities with entries are allowed, with their budgets |
| `Verdict.WrittenReadsBack` | tools/stack-depth-gate.py:651-665 | reading a written allowlist gives every listed identity its depth as budget |
| `Verdict.WrittenAllowlistIsQuiet` | tools/stack-depth-gate.py:651-668 | an allowlist written from an image leaves nothing new, worse, stale or slack on that image |
| `DepthGate.EntryIsLowerBound` | tools/stack-depth-gate.py:184-254 | on any code, executing up to the close of the prologue window takes at least what the gate charges, and exactly that if and only if no shifted reservation stands in the window |
| `DepthGate.EntryWithinPrologue` | tools/stack-depth-gate.py:184-254 | the charge never exceeds what the whole prologue takes when executed |
| `DepthGate.EntryIsWholeIff` | tools/stack-depth-gate.py:184-254 | it is all of what the prologue takes if and only if no reservation in the window is shifted, no probe loop takes more than a page, and nothing is reserved or pushed behind a loop |
| `DepthGate.Parse` | tools/stack-depth-gate.py:184-254 | for each function's last listing the tables hold its entry cost, its direct callees that are not pruned and the number of its unresolved calls; nothing else is listed |
| `FrameGate.ReservedIsExecuted` | tools/frame-size-gate.py:83-122 | for every prologue of plain, probed, shifted, pre-index and loop-probed reservations the gate's number plus the pushed bytes is what execution takes from the stack, loop turns included |
| `FrameGate.RunLoop` | tools/frame-size-gate.py:63-78 | a probe loop with k pages to go leaves the loop after taking exactly k pages |
| `FrameGate.OddLoopNeverEnds` | tools/frame-size-gate.py:63-78 | a loop reservation that is not whole pages never leaves the loop, so page multiples are the only loops |
| `FrameGate.ReservedIsTaken` | tools/frame-size-gate.py:83-122 | the line machine counts each piece of a prologue once, the loop body not at all, and is never left armed |
| `FrameGate.Count` | tools/frame-size-gate.py:98-119 | the tests on one line, in order, are one step of the line machine |
| `FrameGate.Parse` | tools/frame-size-gate.py:83-122 | every function of the listing is reported with the count of its last listing, and nothing else is |
| `V0Demangler.V0.Base62` | tools/rust_symbol_identity.py:116-136 | the digit loop reads the number the grammar gives and stands behind its underscore, or fails as the grammar does |
| `V0Demangler.V0.Ident` | tools/rust_symbol_identity.py:142-162 | length, optional separator and bytes, as the grammar function |
| `V0Demangler.V0.Path` | tools/rust_symbol_identity.py:176-225 | agrees with the grammar function, strictly advances within the input, and restores `depth` and `binders` on success |
| `V0Demangler.V0.Type` | tools/rust_symbol_identity.py:254-292 | the same for types |
| `V0Demangler.V0.FnSig` | tools/rust_symbol_identity.py:294-308 | the same for function signatures: the binders of a signature are gone after it |
| `V0Demangler.V0.DynBounds` | tools/rust_symbol_identity.py:310-324 | the same for trait bounds |
| `V0Demangler.V0.Const` | tools/rust_symbol_identity.py:338-357 | the same for constants, with the number of references still followed as a parameter |
| `V0Demangler.DemangleV0` | tools/rust_symbol_identity.py:360-367 | the driver returns what the grammar reads of the symbol and fails where it fails |
| `V0Match.TreeReads` | tools/rust_symbol_identity.py:186-225 | where a string encodes a tree, possibly through back references, the parser reads that tree's text and ends behind the encoding, if the nesting fits the guard, and fails otherwise |
| `V0Match.SameTreeSameText` | tools/rust_symbol_identity.py:84-367 | two symbols that encode the same tree demangle to the same text whatever their disambiguators and wherever their references point |
| `V0RoundTrip.MangleMatches` | tools/rust_symbol_identity.py:164-183 | what the compressing mangler prints encodes the tree it was given, with a nesting that depends on the tree alone and is at most twice its height |
| `V0RoundTrip.RoundTrip` | tools/rust_symbol_identity.py:116-357 | printing any well-formed tree and demangling it gives its text and consumes exactly the print, if the nesting fits the guard; otherwise it is refused |
| `V0RoundTrip.BuildsAgree` | tools/rust_symbol_identity.py:84-367 | two builds of any well-formed tree, with any disambiguators of any lengths, nest equally deep and demangle to one text, or are both refused |
| `V0Shape.TreeReads` | tools/rust_symbol_identity.py:186-357 | a path's text, in front of whatever follows it, is what its shape prints there |
| `V0Precision.ReadShapeIff` | tools/rust_symbol_identity.py:31-38 | two paths, with every kind of type, constant, lifetime and bound in them, have one text if and only if they have one shape |
| `V0Precision.IdentitiesIff` | tools/rust_symbol_identity.py:31-45 | so their symbols, from whatever builds, get one identity exactly then |
| `V0Precision.ItemShapesIff` | tools/rust_symbol_identity.py:204-215 | two items have one shape if and only if their parents do, their names agree and, in an upper-case namespace such as that of closures, namespace and index do |
| `V0Precision.InstanceShapesIff` | tools/rust_symbol_identity.py:35-36 | two instances of generics have one shape if and only if the generics and the arguments do |
| `V0Precision.UnitShapeIff` | tools/rust_symbol_identity.py:63-69 | a type has the shape of the unit type if and only if it is the unit type or the empty tuple |
| `V0Precision.SameNameCollides` | tools/rust_symbol_identity.py:204-215 | two items that differ in the disambiguator only have different symbols, whatever the builds, and one identity |
| `V0Precision.EmptyTupleCollides` | tools/rust_symbol_identity.py:63-69 | instances of one generic over the empty tuple and over the unit type have different symbols, whatever the builds, and one identity |
| `V0Termination.EndlessIff` | tools/rust_symbol_identity.py:164-183 | the parse of a symbol does not end if and only if it opens a constant from which back references lead into a cycle |
| `V0Termination.ChainCyclesIff` | tools/rust_symbol_identity.py:338-340 | the references from a position go on beyond the length of the symbol if and only if they lead into a cycle |
| `V0Termination.LongChainCycles` | tools/rust_symbol_identity.py:338-340 | a chain of constant references longer than the symbol itself enters a cycle |
| `V0Termination.CycleIsEndless` | tools/rust_symbol_identity.py:338-340 | a constant whose chain does not end is never parsed to an end, however far it is followed |
| `V0Termination.LoopingIsEndless` | tools/rust_symbol_identity.py:338-340 | a symbol of nine characters on which the demangler does not end |
| `CanonicalOrder.StableSortFacts` | tools/mkutf8data/mkutf8data.py:279-281 | the sort of a run is ordered by class and a permutation |
| `CanonicalOrder.StableSortOfClass` | tools/mkutf8data/mkutf8data.py:279-281 | marks of one class keep their order |
| `CanonicalOrder.OrderedUnique` | tools/mkutf8data/mkutf8data.py:279-281 | ordered by class, with each class in a given order, is one sequence only |
| `CanonicalOrder.SortSwapIff` | tools/mkutf8data/mkutf8data.py:279-281 | exchanging two neighbours leaves the sorted run unchanged if and only if they are equal or of different classes |
| `CanonicalOrder.SwapKeepsNorm` | tools/mkutf8data/mkutf8data.py:272-295 | exchanging neighbouring marks of different classes anywhere leaves the normal form unchanged |
| `CanonicalOrder.NormDecidesEquivalence` | tools/mkutf8data/mkutf8data.py:272-295 | two break-free texts have one normal form if and only if exchanges of neighbouring marks of different classes lead from one to the other |
| `CanonicalOrder.NormIsPermutation` | tools/mkutf8data/mkutf8data.py:272-295 | the normal form holds exactly the characters of the text |
| `CanonicalOrder.NormConcat` | tools/mkutf8data/mkutf8data.py:272-295 | normal forms concatenate at every cut that does not part a run |
| `CanonicalOrder.NormIdempotent` | tools/mkutf8data/mkutf8data.py:272-295 | a normal form is its own normal form |
| `Normalizer.ReaderNormalize` | tools/mkutf8data/mkutf8data.py:272-295 | the loop with its output list and run buffer computes the normal form of the expanded name |
| `Normalizer.SameNameIff` | tools/mkutf8data/mkutf8data.py:320-330 | two ignorable-free names normalize alike if and only if their expansions are canonically equivalent |
| `Normalizer.MarksCommute` | tools/mkutf8data/mkutf8data.py:272-295 | in any name two neighbouring marks of different classes that stand for themselves may change places |
| `Normalizer.NormalizeConcat` | tools/mkutf8data/mkutf8data.py:272-295 | normalization distributes over concatenation at starters and ignorables |
| `Normalizer.NormalizeIdempotent` | tools/mkutf8data/mkutf8data.py:263-295 | on ignorable-free names, with fully expanded tables, normalizing twice is normalizing once |
| `NormTwice.NormalizeTwiceIff` | tools/mkutf8data/mkutf8data.py:263-295 | on every name, with fully expanded tables, normalizing twice is normalizing once if and only if no run of marks behind an ignorable has a class below that of a run before it, back to the last starter |
| `NormTwice.IgnorableHoldsApart` | tools/mkutf8data/mkutf8data.py:285-287 | it is not for two marks in the wrong order with an ignorable between |
| `Normalizer.HangulBijection` | tools/mkutf8data/mkutf8data.py:121-129 | every triple of jamo indices is the split of the syllable composed from it |
| `Normalizer.HangulRecomposes` | tools/mkutf8data/mkutf8data.py:117-129 | every syllable is composed from its own split, with indices in range |
| `Normalizer.JamoAgree` | crates/shared/utf8/src/hangul.rs:24-37 | the kernel's jamo count and jamo by index are the generator's split |
| `ClassPasses.PassesSort` | crates/shared/utf8/src/cursor.rs:1-12 | emitting one class per pass, lowest first, is the stable sort of a run with classes up to 254 |
| `ClassPasses.YieldIsNormIff` | crates/shared/utf8/src/cursor.rs:21-26 | for any classes, what the passes yield of a text is its normal form if and only if no character has a class above 254 |
| `ClassPasses.CutYield` | crates/shared/utf8/src/cursor.rs:61-72 | a name that breaks off in a malformed sequence yields what it holds up to its last starter or ignorable |
| `ClassPasses.EnterRun` | crates/shared/utf8/src/cursor.rs:148-155 | entering a run leaves what is still to be yielded unchanged |
| `ClassPasses.PassMark` | crates/shared/utf8/src/cursor.rs:74-80 | passing over a mark keeps it unchanged and the next-class register right |
| `ClassPasses.EmitMark` | crates/shared/utf8/src/cursor.rs:76-79 | emitting a mark takes exactly that mark off the front |
| `ClassPasses.NextPass` | crates/shared/utf8/src/cursor.rs:158-162 | going back for the next class present skips nothing and repeats nothing |
| `ClassPasses.LastPass` | crates/shared/utf8/src/cursor.rs:163-168 | with no class left all of the run that there is a pass for has been yielded and the scan goes on behind it |
| `ClassPasses.AtCut` | crates/shared/utf8/src/cursor.rs:96-101 | where the name is malformed nothing is left to yield, whatever pass the scan is in |
| `Cursor.Scanner.Next` | crates/shared/utf8/src/cursor.rs:61-82 | each call yields the next code point of what the passes yield; at its end it reports the end of the name, or that the name is malformed there; the loop terminates |
| `Cursor.Scanner.BeginExpansion` | crates/shared/utf8/src/cursor.rs:113-134 | entering an expansion or passing an ignorable changes nothing that is still to come |
| `Cursor.Scanner.Mismatch` | crates/shared/utf8/src/cursor.rs:148-169 | noting a class, starting the next pass or leaving the run changes nothing that is still to come and makes progress |
| `Cursor.Scanner.constructor` | crates/shared/utf8/src/cursor.rs:55-57 | a new scanner has everything the passes yield of the name ahead |
| `Cursor.Validate` | crates/shared/utf8/src/api.rs:80-89 | a name is well formed if and only if its bytes decode, whatever the tables |
| `Cursor.EqInForm` | crates/shared/utf8/src/api.rs:104-113 | on bytes: equal names are the same; otherwise the answer is `InvalidName` exactly when one name turns out malformed before the two yields differ, and else whether the yields are equal |
| `Cursor.YieldedIsNormalIff` | crates/shared/utf8/src/api.rs:91-96 | what is yielded of a name that decodes is its normal form if and only if no character of its expansion has class 255 |
| `Cursor.CompareNames` | crates/shared/utf8/src/api.rs:94-113 | from the generated blob to the answer: two readable names are found the same if and only if the reference reader's normal forms over the generator's data agree |
| `Utf8.DecodeFront` | crates/shared/utf8/src/decode.rs:35-56 | the continuation loop computes the strict decoding |
| `Utf8.DecodeIff` | crates/shared/utf8/src/decode.rs:28-82 | the decoder yields a code point and length if and only if the string starts with that scalar value's encoding of that length |
| `Utf8.DecodeAllEncodeAll` | crates/shared/utf8/src/decode.rs:28-82 | decoding an encoded text gives the text |
| `Utf8.DecodeAllIsStrict` | crates/shared/utf8/src/decode.rs:28-82 | a string that decodes is the encoding of what it decodes to |
| `Utf8.WholeIff` | crates/shared/utf8/src/cursor.rs:96-101 | reading code points until one does not decode is cut short exactly on strings that do not decode, and gives all code points of the others |
| `Utf8.DecodeName` | crates/shared/utf8/src/cursor.rs:96-101 | the loop computes that prefix |
| `Ranges.CompressCcc` | tools/mkutf8data/mkutf8data.py:190-198 | ranges in order, apart, unmergeable, covering each code point with exactly its class |
| `Ranges.Compress` | tools/mkutf8data/mkutf8data.py:179-187 | the same for the ignorable set |
| `Ranges.CanonicalRanges` | tools/mkutf8data/mkutf8data.py:179-198 | there is only one such range list for what it covers |
| `Ranges.BuildPool` | tools/mkutf8data/mkutf8data.py:201-216 | every row points at its own bytes, equal expansions share them, each distinct expansion is stored once in order of first use, and nothing else is stored |
| `Blob.Serialize` | tools/mkutf8data/mkutf8data.py:219-247 | the written bytes are the image: magic, header words, four tables, pool |
| `Blob.PackedRow` | tools/mkutf8data/mkutf8data.py:240-246 | every field of every packed row is found again by row, stride and field |
| `Blob.OpensImage` | crates/shared/utf8/src/blob.rs:87-104 | opening an image gives back exactly its sections and version |
| `Blob.OpenIff` | crates/shared/utf8/src/blob.rs:87-104 | the reader accepts if and only if magic and version match and the blob is as long as its header announces |
| `Blob.TruncatedIsRefused` | crates/shared/utf8/src/blob.rs:84-104 | an image cut short anywhere is refused |
| `Blob.Search` | crates/shared/utf8/src/blob.rs:148-157 | binary search finds the covering range, or there is none |
| `Blob.SearchExact` | crates/shared/utf8/src/blob.rs:160-170 | binary search finds the row of the code point, or there is none |
| `BlobLookup.Ccc` | crates/shared/utf8/src/blob.rs:111-116 | the class of the covering range, cut to a byte, or 0 |
| `BlobLookup.IsIgnorable` | crates/shared/utf8/src/blob.rs:119-121 | true exactly for the code points covered |
| `BlobLookup.Expand` | crates/shared/utf8/src/blob.rs:124-136 | which of the four kinds of expansion a code point has, in that order of precedence, and the pool slice of its row |
| `BlobLookup.Generate` | tools/mkutf8data/mkutf8data.py:219-257 | from sorted Unicode data to the blob: exact canonical ranges and rows whose slices are the expansions' UTF-8 |
| `BlobLookup.ClassFound` | crates/shared/utf8/src/blob.rs:111-116 | the class looked up in the opened table is the reference reader's |
| `BlobLookup.ExpansionFound` | crates/shared/utf8/src/blob.rs:124-136 | so is the expansion, kind and characters |
| `BlobLookup.Lookup` | tools/mkutf8data/mkutf8data.py:260-269 | through the blob and back: class and expansion of any code point are those of the reference reader on the data the blob was made from |
| `GuestPath.SplitPath` | tools/windows-rootfs-elf-check.py:118-147 | the text of a path splits into its parts again |
| `Resolver.Splice` | tools/windows-rootfs-elf-check.py:118-147 | the deque walk of a list of components followed by another is the recursive walk of the first followed by the deque walk of the second |
| `Resolver.ResolveAgrees` | tools/windows-rootfs-elf-check.py:114-147 | for every image and path the deque walk reaches the same place as the recursive walk, is missing where it is missing and fails where it fails |
| `Resolver.ResolvedIsCanonical` | tools/windows-rootfs-elf-check.py:114-147 | a resolved path has no dot, dot-dot, empty or link component and directories all the way |
| `Resolver.ResolveIdempotent` | tools/windows-rootfs-elf-check.py:114-147 | resolving a resolved path gives that path and its own inode |
| `Resolver.InodeIs` | tools/windows-rootfs-elf-check.py:131-147 | the inode handed back is a link's if the path ends on a link that leads nowhere, and the resolved path's own otherwise |
| `Resolver.InodeRightIff` | tools/windows-rootfs-elf-check.py:131-147 | so, on an image whose root is no link, it is the path's own if and only if the last component that leads anywhere is not such a link, a condition on image and path |
| `Resolver.DotLinkKeepsLinkInode` | tools/windows-rootfs-elf-check.py:131-147 | a link to the current directory resolves to the directory's path with the link's inode |
| `Image.FileIsRight` | tools/windows-rootfs-elf-check.py:149-153 | a file that is found is regular, at a canonical path, and the inode of that path |
| `Image.Image.Stat` | tools/windows-rootfs-elf-check.py:85-96 | the cache answers as the image does |
| `Image.Image.Resolve` | tools/windows-rootfs-elf-check.py:114-147 | the loop over deque, parts and link counter computes the deque walk and ends within the link budget |
| `Image.Image.File` | tools/windows-rootfs-elf-check.py:149-153 | resolves to a regular file or says why not |
| `Closure.FirstIsFirst` | tools/windows-rootfs-elf-check.py:250-257 | a dependency is decided by the first candidate that is not missing, and missing only if all are |
| `Closure.FindFirst` | tools/windows-rootfs-elf-check.py:250-257 | the candidate loop finds that one |
| `Closure.Visit` | tools/windows-rootfs-elf-check.py:231-259 | inspecting one object yields exactly its dependencies with the RPATH they inherit, or the refusal of the first thing out of order |
| `Closure.CheckRoot` | tools/windows-rootfs-elf-check.py:216-261 | success: a set of reached objects, one per key, all in order, closed under dependency up to keys; failure: such a set, and a reached object under a key not in it that is out of order or the 4097th |
| `Closure.VisitsAllIff` | tools/windows-rootfs-elf-check.py:223-259 | a successful check has visited every reachable object if and only if no reached guest object carries the root's own label and inherited RPATH |
| `Closure.ForeignRootNeverClashes` | tools/windows-rootfs-elf-check.py:219-227 | that cannot happen when the root's host path is not a path of the image |
| `Closure.PassVouchesForAll` | tools/windows-rootfs-elf-check.py:216-261 | then every reachable object was inspected, has the root's ABI and had all its dependencies found |
| `Closure.RootShadowsGuest` | tools/windows-rootfs-elf-check.py:219-227 | an image on which a check passes over a guest object of another ABI, and cannot fail |
| `LedgerText.CellsOfRow` | tools/issues.py:33-56 | writing cells as a row and reading it back gives the cells without outer blanks |
| `LedgerText.CellsIff` | tools/issues.py:16-56 | a written row always reads back as some cells, and as the cells written, or as many, if and only if every pipe in them is escaped |
| `LedgerText.CellsAreSafe` | tools/issues.py:33-56 | cells that were read can be written and come back unchanged |
| `LedgerText.EscFits` | tools/issues.py:133 | escaped text fits a cell: every pipe escaped, no newline, no outer blanks; escaping again changes nothing |
| `LedgerIds.NextId` | tools/issues.py:80-85 | the new id is one above the largest id mentioned in either file |
| `LedgerIds.IdTextFacts` | tools/issues.py:85 | an id text is well formed and carries its number |
| `LedgerIds.SeenId` | tools/issues.py:84 | a row that shows its id with one blank on either side is counted by the id finder |
| `LedgerTheorems.AddRows` | tools/issues.py:126-140 | an accepted addition appends exactly one row, read back as written |
| `LedgerTheorems.ClaimRows` | tools/issues.py:147-155 | a claim replaces exactly the row it names and leaves it in order |
| `LedgerTheorems.FixRows` | tools/issues.py:158-167 | a fix takes exactly that row out of the ledger and appends it to the archive under its id as FIXED |
| `LedgerTheorems.NextIsAbove` | tools/issues.py:80-85 | the next number is above that of every row in either file |
| `LedgerTheorems.ApplyKeepsGood` | tools/issues.py:126-167 | every operation keeps a ledger that passes the check passing, rows visible and every id in one row of one file |
| `LedgerTheorems.AddPassesIff` | tools/issues.py:131-139 | after an accepted addition the ledger passes the check if and only if the escaped evidence is within the cap and no row of the ledger has the id issued |
| `LedgerTheorems.ClaimPassesIff` | tools/issues.py:147-155 | after an accepted claim the ledger passes the check if and only if the pipes of branch and date are escaped |
| `LedgerTheorems.FixReadsIff` | tools/issues.py:158-167 | after an accepted fix the ledger passes the check, and the archive reads back with the fixed row if and only if the pipes of the commit are escaped |
| `LedgerTheorems.RunKeepsGood` | tools/issues.py:126-227 | the same over every run |
| `LedgerHistory.WrittenReads` | tools/issues.py:33-56 | a row written with a status word, a blank and anything in its second cell reads back under its id with that word, whatever pipes the rest brings |
| `LedgerHistory.RunPersists` | tools/issues.py:126-167 | over every run, from whatever files and with whatever texts, no id is lost, and a status stays, moves from OPEN to IN-PROGRESS or moves to FIXED |
| `LedgerHistory.IssuedIncrease` | tools/issues.py:80-85 | over every run, from whatever files and with whatever texts, ids are issued in strictly increasing order |
| `LedgerLimits.SpacedIdIsReused` | tools/issues.py:84 | a ledger that passes the check and on which any accepted addition issues an id already in use |
| `LedgerFloor.NeverBelowLowest` | tools/issues.py:80-167 | from a ledger that passes the check, over every run and whatever texts it is given, the next number is never below the least that each row as it stands, claimed or fixed allows |
| `LedgerReuse.LowestIsReached` | tools/issues.py:80-167 | some claims and fixes bring the next number down to that least, and lose no id |
| `LedgerReuse.IssuableIff` | tools/issues.py:80-167 | some run of additions, claims and fixes issues a number if and only if it is not below that least |
| `LedgerReuse.ReuseIff` | tools/issues.py:6-167 | some such run issues an id that stands in a row of either file if and only if some row's id is the text of a number not below that least |
| `LedgerReuse.ReissueFails` | tools/issues.py:209-210 | the addition that issues the id of a row of the ledger leaves a ledger that fails the check |
| `LedgerExample.ClaimLowersNext` | tools/issues.py:147-155 | on a ledger with a row that hides KI-0005 and one whose issue is KI-0009 a claim takes the next number from 10 to 2, and the fourth plain addition behind it issues KI-0005 again and leaves a ledger that fails the check |
| `LedgerReuse.AddIsSteady` | tools/issues.py:80-140 | an addition leaves the next number at what the ids in the new row make it, and never lower |
| `LedgerReuse.EvidenceOutgrowsCap` | tools/issues.py:131-139 | on an empty ledger in order, evidence of 1001 to 2000 pipes is accepted, doubles when escaped, and leaves a ledger that fails the check |
| `LedgerStore.Store.constructor` | tools/issues.py:40-44 | the store starts with the lines of the two files |
| `LedgerStore.Store.AddIssue` | tools/issues.py:126-140 | the edits of the line list are the operation; where the source exits or raises both files are left alone |
| `LedgerStore.Store.ClaimIssue` | tools/issues.py:147-155 | the same for a claim |
| `LedgerStore.Store.FixIssue` | tools/issues.py:158-167 | the same for a fix |
| `LedgerStore.Store.Rewrite` | tools/issues.py:65-70 | the first count line, and no other line, is put right |
| `LedgerStore.Store.Check` | tools/issues.py:191-227 | the check answers true exactly for a ledger in order |
| `LedgerStore.RowsInOrder` | tools/issues.py:202-222 | the row loop with its set of seen ids accepts exactly rows that are fine and distinct |
| `LedgerFiles.LinesReadBack` | tools/issues.py:40-44 | lines without breaks of their own are read back as written |
| `LedgerFiles.FileReadBack` | tools/issues.py:40-70 | so is a whole file, except that no lines are read back as one empty line |
| `LedgerFiles.AddedFilePassesIff` | tools/issues.py:126-140 | of break-free text, the ledger file as written and read back passes the check after an accepted addition if and only if the escaped evidence is within the cap and no row has the id issued |
| `LedgerFiles.ClaimedFilePassesIff` | tools/issues.py:147-155 | the same after an accepted claim if and only if the pipes of branch and date are escaped |
| `LedgerFiles.FixedFileReadsIff` | tools/issues.py:158-167 | after an accepted fix the ledger file passes, and the archive file with the row appended reads back with that row behind its rows if and only if the pipes of the commit are escaped and the archive was empty or ended in a line break |
| `LedgerFiles.ApplyKeepsUnbroken` | tools/issues.py:126-167 | no operation on break-free text writes a line with a break in it |
| `Registry.Instances.AllocInstanceId` | tools/qemu-mcp/server.py:224-237 | the id reserved is the first free candidate; the search ends; registered and reserved ids stay apart |
| `Registry.Instances.Register` | tools/qemu-mcp/server.py:816-818 | a reserved id becomes a registered one and takes no running instance's place |
| `Registry.Instances.Release` | tools/qemu-mcp/server.py:837-838 | a failed start gives its id back |
| `Registry.Instances.Remove` | tools/qemu-mcp/server.py:1231-1241 | stopping removes exactly the instance named |
| `Registry.FirstFreeUnique` | tools/qemu-mcp/server.py:230-235 | the first free candidate is determined by what is taken |
| `Sweep.KeepsTheNewest` | tools/qemu-mcp/server.py:349-354 | kept and collected are together all candidates, as many are kept as asked for, or as many collected if the number is negative, and nothing kept is older than anything collected |
| `Sweep.GcSweep` | tools/qemu-mcp/server.py:332-354 | a sweep collects exactly the unused builds beyond the newest, never a live or unfinished one |
| `Interleaving.IdsNeverCollide` | tools/qemu-mcp/server.py:592-593 | in every interleaving, whatever build directories the server finds when it starts, registered and reserved ids are disjoint, no two starts in flight hold one id, and a registration overwrites nothing |
| `Interleaving.StepKeepsIds` | tools/qemu-mcp/server.py:592-838 | each critical section keeps that every reserved id is held by exactly one start |
| `Interleaving.StepSparesIff` | tools/qemu-mcp/server.py:295-354 | with nothing in use within a sweep's reach, a critical section leaves it so if and only if it is calm: no build begins under an id a sweep has chosen, none ends in use while a sweep could take it, and no sweep begins with a directory in use that is neither live nor unfinished |
| `Interleaving.RunSparesIff` | tools/qemu-mcp/server.py:295-354 | over every interleaving from every initial disk, nothing in use is ever within a sweep's reach if and only if every step is calm |
| `Interleaving.SweepSparesUsed` | tools/qemu-mcp/server.py:332-354 | in every calm interleaving a sweep removes only directories nobody uses |
| `Interleaving.NewIdIsCalm` | tools/qemu-mcp/server.py:295-354 | a build may begin at any time under an id never used before |
| `SweepAlone.RemovesUsedIff` | tools/qemu-mcp/server.py:332-354 | from any world a sweep in flight, going on by itself, removes a build in use if and only if what it would collect, for whatever number it keeps, holds one |
| `SweepAlone.TakesWithinReach` | tools/qemu-mcp/server.py:349-354 | what it would collect is within its reach, and all that is if it keeps none or has chosen already |
| `SweepAlone.ListingOrderIsNothing` | tools/qemu-mcp/server.py:339-354 | in whatever order the directories are listed the same are collected |
| `Interleaving.LimboIsCollected` | tools/qemu-mcp/server.py:339-343 | without that condition a run ends with a registered instance whose directory is gone |

## Left out

- Disassembly, debugfs and readelf text, regular expressions and process control: the models start from tokens, an image map and an ELF record.
- Symbols of the call graph are numbers in sort order; the order of names itself is not modelled.
- Allowlist budgets are plain decimal; signs, underscores and outer blanks that Python's `int` accepts are not modelled.
- The edge map, stack-switch and root-domain files of the stack-depth gate and `is_fatal`: `DepthGate.Parse` takes the set of pruned symbols as a parameter.
- `DepthGate` and `FrameGate` share one instruction type for both architectures; a listing that mixes them is read by one rule where the source would choose by architecture.
- The frame gate's baseline file and its report: the same shape as the depth gate's verdict.
- Legacy `_ZN` demangling, punycode and the textual fallback of `identity`: last-resort paths with little to prove.
- Hexadecimal constants are ASCII hexadecimal digits; prefixes, signs and blanks that Python's `int(…, 16)` also accepts are not modelled.
- `V0Precision.ReadShapeIff` is about paths whose names are words of ASCII letters, digits and underscores, empty ones of items included, and in which no crate is called `as`, a reserved word of Rust, and no crate or associated type has an empty name; constants are of basic types.
- The demangler's binder follows the code, which adds the number as read; RFC 2603 adds one more. Constants in the mangler are of basic types.
- Python's own recursion limit is not modelled: the demangler's guard is the only bound.
- `unicodedata` and `casefold`: the tables, the classes and the ignorable set are parameters; `default_ignorable_set` and the fixpoints are not modelled.
- `Cursor.Scanner` counts positions in code points of the decoded part of the name and in characters of an expansion; the source counts bytes and decodes as it goes.
- `casefold_hash` and `casefold_into` fold over the scanner's output and add nothing to it.
- A symbolic link's target is a field of its inode; reading a long target out of the image, the extraction limits and the fingerprint of the image are not modelled.
- Report lines of the dependency check and the text of failures; failures are told apart only as missing or refused.
- Digits of an issue id are ASCII digits; other decimal digits that the source's `\d` also matches are not modelled.
- `cmd_query`, `cmd_show` and `cmd_summary` of the ledger only read. Where a command raises an exception (a claim of a row of fewer than five cells, a row without a status when the count is written, no header and no row) it is a refusal here.
- Crashes between writing the ledger and appending to the archive.
- Line breaks in a branch, a date or a commit: the tool writes them as they are, and the row is then more than one line of the file; runs are modelled over lines, which are the files read back for text without breaks and an archive that ends in one.
- `.live` markers, ports, QMP, UART and GDB sessions of the instance server; removal of a directory is one step, and its guard against odd names is not modelled.
- The remaining kernel crates and the other programs under `tools/`: regular-expression heuristics and device drivers that would add easy members only.
