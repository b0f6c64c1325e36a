# stwo-zig checkers, modelled and proved

The Python programs around the stwo-zig prover check its bus arithmetic, seed a
simulator's memory, keep its benchmark evidence and compile its layouts. They
state their claims in comments and confirm them on constants, samples and small
exhaustions. This project models those programs in Dafny and proves the claims
for all inputs.

| files | what they model |
|---|---|
| `RelationBus`, `MerkleRows`, `MerkleBus`, `MerkleGuard`, `MerklePaths` | Merkle relation requests over P = 2^31 - 1: coefficient lift, detached components, the row guard, root-connected paths |
| `ClockBus`, `MemoryChain`, `MemoryRelation` | clock-update rows, the offline memory chain, and the memory relation of a whole run |
| `FieldPrime`, `FieldInverse` | P is prime (Lucas and Lehmer), and `pow(a, P - 2, P)` inverts (Fermat) |
| `Rv32`, `SeedPreamble` | the RV32I memory-seeding preamble, against the instruction semantics of the RISC-V Unprivileged ISA manual (20191213), sections 2.2 to 2.6 |
| `DependencyCycles` | the package-dependency cycle finder |
| `StatementStream`, `StreamLayout` | the byte stream hashed into a statement digest: what two streams share, and where each field lies |
| `ConstantEvaluator`, `ClaimSlots`, `ClosedTopology` | the Cairo registry's constant evaluator and slot layout, and the source pack's topology |
| `MatrixManifest`, `Archive` | publishing matrix bundles into the evidence archive |
| `FileMoves`, `MigrationPlan`, `Migration`, `MigrationLayout` | the one-shot migration of the archive's layout, and the places it gives the files |
| `LinearForms`, `AirSystem`, `ColumnLines`, `LinearSystem`, `ColumnBounds`, `BitBounds`, `DeterminedColumns` | the analyses before a uniqueness query: linear forms and factors, lines and their roots, elimination, implied column bounds, determined columns |
| `CaseSplit`, `OneHotGroups`, `SharedColumns`, `ShardFold` | the uniqueness board: one-hot case split, which groups it finds, what a shard's copies share, the job list and the verdict fold |
| `TimingMatrix` | paired timing blocks and row selection of the benchmark matrix |
| `Names`, `Basics` | sorted names, shared helpers |

What a program changes in place is a class here: `CycleFinder`, `Hasher`,
`Resolver`, `Archiver`, `Migrator`. Each method's contract ties the new state to
a specification, and the theorems are about the specification.

## Findings

- The Merkle comments exclude every detached component. An active row can be
  part of a detached component of otherwise grounded rows if and only if it
  supplies a child without consuming a parent (`MerkleBus.GroundedIffNeverDetached`);
  such rows can also close every leaf whatever, within the production guard and
  without a public root (`MerklePaths.UngroundedLeafOpensNowhere`). The
  coefficient guard is exact for every odd modulus (`MerkleGuard.GuardIsTight`).
- "Cyclic u32 constant" is never reported: the error is a `ValueError`, and the
  enclosing `resolve` re-raises every `ValueError` as an unsupported expression
  of the outer name (`ConstantEvaluator.ResolveDecides`).
- The three register arrays of a statement are hashed without a length. Accepted
  statements with equally many register words share a stream if and only if they
  agree outside the arrays and the concatenated arrays are equal
  (`StatementStream.StreamsAgreeExactly`); moving a word over a boundary gives
  such a pair (`StatementStream.RegisterBoundaryIsUnframed`).
- `seed_preamble` accepts an entry that is not word-aligned; its jumps then trap
  (`SeedPreamble.PreambleSeedsImage`, with 32-bit instruction alignment).
- The branch and detached-rest refusals of the memory-chain check, the conflict
  and collision refusals of `publish_bundle` on a clean archive, the
  `AssertionError` of the wrap counterexample and the post-migration
  verification failure (when no old path lies under `runs/`) cannot occur.
- The migration's fallback run name can collide too: every report gets a run of
  its own if and only if none finds both its name and its suffixed name taken
  (`MigrationPlan.RunsCollideExactly`; an archive of three readable reports where
  it fails is `MigrationPlan.FallbackCollides`). A dry run accepts that and the
  real run stops at the second move, so a completed migration always has
  distinct runs (`Migration.RunsAreDistinct`).
- The fallback name of a delta is not checked either
  (`MigrationPlan.DeltaFallbackCollision`), and a comparison may name a delta
  that was never archived. Its new path can then name another delta's file
  (`Migration.DeltaPathMisleads`). After a completed run into a new tree with
  one-part run names the file at a comparison's path is its delta if and only if
  the delta was archived (`Migration.DeltaPathHonestExactly`).
- The validator does not check that lane orders alternate
  (`TimingMatrix.UnpairedBlockIsAccepted`): of the lengths it admits, it forces
  alternation on single iterations only (`TimingMatrix.AlternationForcedOnlyOnce`).
  The runner always alternates them.
- A linear form keeps a column that a product with a zero has cancelled, with
  coefficient zero. Reading a node's values off its line is right exactly when
  the form's leading coefficient is not zero or all are
  (`DeterminedColumns.ValuesExactly`), and a node's one free column is determined
  exactly when its coefficient is not zero (`DeterminedColumns.ForcesExactly`).
  A pinned selector makes such zeros: there is a family whose counterexample lies
  in a shard whose two copies share the only output
  (`SharedColumns.SharingHides`). Without zero coefficients in fixed nodes sharing
  hides nothing (`SharedColumns.SharingIsSound`). A constraint that is on every row
  the sum of input bits less one is taken for one-hot if and only if it is no
  product and has a form without zero coefficients (`OneHotGroups.FormExactly`,
  `OneHotGroups.GroupFound`): a square that cancels is enough to hide it
  (`OneHotGroups.SquaresHide`). Column bounds, and so the
  selectors, are right in every case (`ColumnBounds.ImpliedSound`).

## Model

| member | source | states |
|---|---|---|
| RelationBus.ReduceEqual | scripts/riscv_infrastructure_uniqueness_lib/contracts.py:101-112 | two requests name one tuple exactly when their entries agree modulo P |
| RelationBus.CoefficientLift | scripts/riscv_infrastructure_uniqueness.py:335-345 | when all sources' largest coefficients add up below P, tuple-wise balance in the field is balance over the integers |
| RelationBus.SupplierExists | scripts/riscv_infrastructure_uniqueness.py:340-345 | in integer balance every consumed tuple is supplied by some source |
| MerkleRows.MerkleRowViolations | scripts/riscv_infrastructure_uniqueness.py:159-180 | names exactly the fields that are not canonical and the multiplicities other than 0, 1 or 2, and nothing else |
| MerkleRows.NodeContribution | scripts/riscv_infrastructure_uniqueness.py:183-204 | the signed coefficient a row puts on any Merkle tuple: its children positive, its parent negative, nothing else |
| MerkleRows.EdgesDistinct | scripts/riscv_infrastructure_uniqueness.py:183-204 | a row's two child tuples and its parent tuple are three different tuples |
| MerkleRows.LeafContribution | scripts/riscv_infrastructure_uniqueness_lib/program_memory.py:83-93 | a program or boundary row consumes exactly its four limb tuples at depth 30, once each |
| MerkleBus.LeafSourceContribution | scripts/riscv_infrastructure_uniqueness_lib/program_memory.py:258-267 | the Merkle side of a whole program or boundary row, the other domains apart |
| MerkleBus.BusBalancesOverIntegers | src/frontends/riscv/prover/statement_validation.zig:159-181 | when all sources' largest coefficients add up below P, the whole Merkle relation balances in the field if and only if it balances over the integers |
| MerkleBus.Supplier | scripts/riscv_infrastructure_uniqueness.py:340-345 | a consumed tuple is a public root or a child of a node row that itself consumes its parent |
| MerkleBus.Descend | scripts/riscv_infrastructure_uniqueness.py:183-204 | from a consumed tuple that is not at depth zero under a public root, going to the row that supplies it, and on, finds after every number of steps a row consuming at that many depths less, modulo P |
| MerkleBus.RootClosesWalk | scripts/riscv_infrastructure_uniqueness.py:335-345 | in a closed Merkle relation the root a consumed tuple names is itself a public root: a walk that never reaches it would need a row at each of P depths |
| MerkleBus.NodesBalanceOnlyWhenInactive | scripts/riscv_infrastructure_uniqueness.py:384-393 | n grounded node rows with 2n < P balance by themselves if and only if each is inactive |
| MerkleBus.NoDetachedComponent | scripts/riscv_infrastructure_uniqueness.py:335-345 | no non-empty multiset of rows with 2n < P and every parent multiplicity non-zero cancels modulo P |
| MerkleBus.UngroundedPairBalances | scripts/riscv_infrastructure_uniqueness.py:340-345 | without that hypothesis two active admissible rows do cancel |
| MerkleBus.GroundedIffNeverDetached | scripts/riscv_infrastructure_uniqueness.py:340-345 | an active admissible row is in no detached component of otherwise grounded rows if and only if it is grounded |
| MerkleGuard.GuardLifts | scripts/riscv_infrastructure_uniqueness.py:312-322 | with at most (m - 1) / 2 admissible rows, a coefficient that is zero modulo m is zero, for every odd m > 2 |
| MerkleGuard.TooManyRowsWrap | scripts/riscv_infrastructure_uniqueness.py:279-287 | any larger number of rows admits a non-zero coefficient that is zero modulo m |
| MerkleGuard.GuardIsTight | scripts/riscv_infrastructure_uniqueness.py:313-315 | n rows lift modulo m if and only if n <= (m - 1) / 2 |
| MerkleGuard.BuildWrapCounterexample | scripts/riscv_infrastructure_uniqueness.py:274-332 | built exactly for odd moduli above two: its modulus, row count, coefficient-two rows, coefficient and both admission flags are those of rows that are admissible one by one, with a coefficient that is non-zero and zero modulo m; the malformed branch is unreachable |
| MerklePaths.HalvingIsExact | scripts/riscv_infrastructure_uniqueness.py:224-247 | multiplying by INV2 is halving: doubling the parent gives the index back |
| MerklePaths.FoldPath | scripts/riscv_merkle_recurrence.py:100-115 | folds bits to their binary value, reduced when a modulus is given; refuses exactly a non-bit or a modulus below two |
| MerklePaths.DecodeLeafIndex | scripts/riscv_merkle_recurrence.py:163-179 | succeeds exactly on 0 <= leaf < 2^depth and gives depth bits whose value is the leaf |
| MerklePaths.DigitsOfPathValue | scripts/riscv_merkle_recurrence.py:163-179 | decoding inverts folding on every bit list |
| MerklePaths.WalkDigits | scripts/riscv_infrastructure_uniqueness.py:357-362 | the inner loop reaches the folded index with every base index even |
| MerklePaths.ExhaustPrefix | scripts/riscv_infrastructure_uniqueness.py:350-364 | the exhaustion never fails and visits depth * 2^depth edges, at every depth |
| MerklePaths.ConnectedPathIsCanonical | scripts/riscv_infrastructure_uniqueness.py:183-204 | in a chain of at most 30 rows below a root tuple, row k has index twice the value of its path bits, depth k + 1 and the chain's root |
| MerklePaths.IndexDeterminesPath | scripts/riscv_infrastructure_uniqueness.py:373-376 | two such chains with one leaf index took the same turns through the same places |
| MerklePaths.FieldIndexInjectiveUpToThirty | scripts/riscv_merkle_recurrence.py:181-215 | leaf indices modulo P determine their bits if and only if the depth is at most 30 |
| MerklePaths.Climb | scripts/riscv_infrastructure_uniqueness.py:335-345 | a consumed tuple at depth d hangs from a public root of its own by a chain of d rows of the bus |
| MerklePaths.GuardSuppliesLift | src/frontends/riscv/prover/statement_validation.zig:159-181 | the production guard gives the integer lift of the whole Merkle relation, whatever its rows |
| MerklePaths.LeafOpensToPublicRoot | src/frontends/riscv/prover/statement_validation.zig:159-181 | under the production guard and with grounded rows, every limb of every program or boundary row opens along thirty rows to a public root, its address is below 2^30 and spells the path |
| MerklePaths.UngroundedLeafOpensNowhere | scripts/riscv_infrastructure_uniqueness.py:335-345 | grounded rows are needed: every leaf is in a balanced relation within the guard that has no public root |
| ClockBus.ClockWindow | scripts/riscv_infrastructure_uniqueness.py:479-501 | an admissible row's predecessor is its two limbs, is below 2^26, and its successor does not wrap |
| ClockBus.LimbsUnique | scripts/riscv_infrastructure_uniqueness.py:538-557 | two admissible rows are equal if and only if they agree apart from the limbs |
| ClockBus.FromPreviousAdmissible | scripts/riscv_infrastructure_uniqueness.py:467-476 | the built row is admissible if and only if its inputs are canonical, four-valued and in the window |
| ClockBus.ClockContribution | scripts/riscv_infrastructure_uniqueness.py:504-523 | a row's signed coefficient on any memory tuple |
| ClockBus.ClockRowsCannotClose | scripts/riscv_infrastructure_uniqueness.py:504-523 | fewer than P admissible rows balance by themselves if and only if there are none |
| ClockBus.ChainAdvances | scripts/riscv_infrastructure_uniqueness.py:30-31 | a chain keeps key and value and advances by exactly k (2^20 - 1) |
| ClockBus.ChainLengthExact | scripts/riscv_infrastructure_uniqueness.py:538-557 | a chain of n linked rows exists if and only if n <= 65 |
| ClockBus.BridgeClocks | scripts/riscv_state_chain_recurrence.py:193-205 | the outputs are the multiples of the step after the previous clock, as many as are needed to leave a gap of at most one step |
| MemoryChain.FindImbalance | scripts/riscv_infrastructure_uniqueness_lib/program_memory.py:345-372 | finds a state with non-zero balance exactly when there is one |
| MemoryChain.NextIsForced | scripts/riscv_infrastructure_uniqueness_lib/program_memory.py:374-492 | in balance with increasing clocks the current state has exactly one way out, unless it is the final one and nothing remains |
| MemoryChain.WalkChain | scripts/riscv_infrastructure_uniqueness_lib/program_memory.py:374-492 | the walk uses every transition once and reports the clocks and values it visits |
| MemoryChain.VerifyOfflineMemoryChain | scripts/riscv_infrastructure_uniqueness_lib/program_memory.py:374-492 | valid if and only if keyed, clock-increasing and balanced; then the transitions are one path; the branch and detached refusals never occur |
| MemoryChain.BalancedIffOnePath | scripts/riscv_infrastructure_uniqueness.py:21-25 | clock-increasing transitions balance between two states if and only if they can be ordered as one path using each once |
| MemoryChain.BalancedLoopIsEmpty | scripts/riscv_infrastructure_uniqueness.py:21-25 | between a state and itself they balance if and only if there are none |
| MemoryChain.DetachedCycleBalances | scripts/riscv_infrastructure_uniqueness_lib/program_memory.py:561-585 | without increasing clocks a detached cycle balances and is no path |
| MemoryRelation.FieldBalanceIsFlow | src/frontends/riscv/prover/statement_validation.zig:183-199 | with fewer than P terms on a side the memory relation balances in the field if and only if every state's flow is zero |
| MemoryRelation.FieldBalanceIffOnePath | scripts/riscv_infrastructure_uniqueness.py:21-25 | one component balances in the field if and only if its transitions are one path |
| MemoryRelation.MemoryBalancesIffPaths | scripts/riscv_infrastructure_uniqueness.py:21-25 | the relation of a whole run, with one first and one last term per key, balances in the field if and only if every transition belongs to a cell and each cell's transitions are one path |
| SeedPreamble.CarryFold | scripts/riscv_equivalence.py:154-168 | the folded upper part plus the sign-extended lower part is the value, for every u32 |
| SeedPreamble.LuiDecodes | scripts/riscv_equivalence.py:162-168 | the LUI word decodes to its register and immediate |
| SeedPreamble.AddiDecodes | scripts/riscv_equivalence.py:162-168 | the ADDI word decodes to its register and sign-extended immediate |
| SeedPreamble.LoadImmediateRuns | scripts/riscv_equivalence.py:154-168 | running the pair leaves exactly the value in the register and moves the pc by eight |
| SeedPreamble.StoreDecodes | scripts/riscv_equivalence.py:218-223 | the store word decodes to SW x2, 0(x1) |
| SeedPreamble.JalRoundTrip | scripts/riscv_equivalence.py:171-182 | the scattered immediate decodes to the offset if and only if the offset is encodable |
| SeedPreamble.EncodeJalX0 | scripts/riscv_equivalence.py:171-182 | refuses exactly odd or out-of-range offsets |
| SeedPreamble.AppendHops | scripts/riscv_equivalence.py:226-233 | the jump loop ends for every preamble length and every hop is encodable |
| SeedPreamble.CompilePreamble | scripts/riscv_equivalence.py:185-234 | succeeds if and only if the image is u32, aligned and without repeats, and each error names an offending word; emits the specified preamble |
| SeedPreamble.PreambleOrder | scripts/riscv_equivalence.py:213-234 | the words install the entries in the image's order, then clear the two registers, then jump |
| SeedPreamble.HopsAreLong | scripts/riscv_equivalence.py:226-233 | every jump but the last goes back as far as one jump can |
| SeedPreamble.HopsRun | scripts/riscv_equivalence.py:226-233 | chained hops carry the pc back by exactly the distance, touching nothing |
| SeedPreamble.PreambleSeedsImage | scripts/riscv_equivalence.py:185-234 | run from reset, the words end with memory equal to the image, registers as at reset and the pc at the entry, if the entry is aligned, and trap otherwise |
| SeedPreamble.InstalledWordReads | scripts/riscv_equivalence.py:189-196 | every image word reads back |
| SeedPreamble.UntouchedByteKept | scripts/riscv_equivalence.py:189-196 | every byte outside the image is as before |
| Names.Sorted | scripts/check_package_workspace.py:135-142 | lists a set once each in code-point order, and there is only one such list |
| Names.BeforeMeans | scripts/check_package_workspace.py:135-142 | code-point order: a name is a prefix of the later one or has the lesser character where they first differ |
| DependencyCycles.CycleFinder.Visit | scripts/check_package_workspace.py:126-139 | keeps the search invariant: the active set is the visiting path, disjoint from the finished nodes, whose finishing order is topological for uncut edges; leaves the path as it was and the node on it or finished |
| DependencyCycles.CycleFinder.CloseCycle | scripts/check_package_workspace.py:129-132 | reports the path from the node's place, closed |
| DependencyCycles.CycleFinder.Expand | scripts/check_package_workspace.py:133-139 | finishes the node after all its dependencies |
| DependencyCycles.ReportKeepsInv | scripts/check_package_workspace.py:129-132 | a reported list is a simple closed walk of real edges, with a closing edge not reported before |
| DependencyCycles.FindCycles | scripts/check_package_workspace.py:120-143 | each reported list is a simple closed walk, no closing edge twice, every loop of the graph goes through the closing edge of a reported one, nothing is reported if and only if the graph is acyclic, and the lists are those of a search that enters the least unfinished package and the least unvisited dependency |
| DependencyCycles.SearchDetermined | scripts/check_package_workspace.py:120-143 | every such search reports the same lists in the same order: the result is determined by the graph |
| DependencyCycles.ReportedInOrder | scripts/check_package_workspace.py:126-139 | each reported list names its nodes in the order the search entered them, and so starts at the one entered first |
| DependencyCycles.PairIsReported | scripts/tests/test_package_workspace.py:18-28 | two packages that depend on each other are reported once, from the one whose name is less |
| DependencyCycles.TopologicalExcludesLoops | scripts/check_package_workspace.py:126-143 | the finishing order rules out every loop of uncut edges |
| StatementStream.FeedHeader | scripts/riscv_arch_tests.py:590-630 | feeds exactly the header's blocks, or fails exactly on a value outside its width |
| StatementStream.FeedRegisters | scripts/riscv_arch_tests.py:631-636 | the same for the public registers |
| StatementStream.FeedIo | scripts/riscv_arch_tests.py:637-655 | the same for roots, completion and I/O words; an unknown completion kind fails |
| StatementStream.FeedStatement | scripts/riscv_arch_tests.py:552-656 | yields the statement's stream if and only if the statement is well formed |
| StreamLayout.StreamPlaces | scripts/riscv_arch_tests.py:552-656 | every field of a well-formed statement stands at its offset of the stream, words and wide words with the least byte first, after the prefix; lists follow their counts, kinds and options their codes, and nothing else is fed |
| StreamLayout.AcceptedExactly | scripts/riscv_arch_tests.py:552-656 | a statement is accepted if and only if every word is a u32, the query count a u64 and the completion kind known |
| StatementStream.BlocksInjective | scripts/riscv_arch_tests.py:561-588 | block lists of one shape with equal bytes are equal |
| StatementStream.StreamInjective | scripts/riscv_arch_tests.py:552-656 | well-formed statements with equal register-array lengths have one stream if and only if they are equal, so None and 0 differ |
| StatementStream.StreamsAgreeExactly | scripts/riscv_arch_tests.py:552-656 | well-formed statements with equally many register words in all have one stream if and only if they agree outside the three arrays and the concatenated arrays are equal |
| StatementStream.RegisterBoundaryIsUnframed | scripts/riscv_arch_tests.py:634-636 | moving a word over either boundary of an accepted statement gives another accepted statement with the same stream |
| ConstantEvaluator.BigStepRules | scripts/generate_cairo_claim_registry.py:158-182 | the meaning used below satisfies the big-step rules, rule by rule, both ways, with each operator by its own arithmetic |
| ConstantEvaluator.ApplyCombines | scripts/generate_cairo_claim_registry.py:163-181 | the value of an operation, operator by operator: sum, difference, product, l doubled r times over, and the greatest q whose r-fold doubling is at most l, each if and only if it is a u32 |
| ConstantEvaluator.Resolver.ResolveName | scripts/generate_cairo_claim_registry.py:142-156 | computes the specified outcome on every table and leaves the active set as it was |
| ConstantEvaluator.Resolver.EvaluateNode | scripts/generate_cairo_claim_registry.py:158-182 | the same for an expression node |
| ConstantEvaluator.ResolveDecides | scripts/generate_cairo_claim_registry.py:136-184 | returns v if and only if v is the name's big-step value with every intermediate a u32; missing exactly when the name itself is |
| ConstantEvaluator.FailsExactlyOnFault | scripts/generate_cairo_claim_registry.py:142-182 | fails if and only if a missing name, a dependency cycle, an out-of-range intermediate or an unsupported node is reachable |
| ConstantEvaluator.ParseU32Constant | scripts/generate_cairo_claim_registry.py:136-184 | both together, for the whole call: the big-step value or a reachable fault |
| ClaimSlots.LayOut | scripts/generate_cairo_claim_registry.py:284-318 | accepts exactly 68 fields with 83 slots, and then fields tile the slots in order; a refusal gives both counts |
| ClaimSlots.FieldCounts | scripts/generate_cairo_claim_registry.py:286-290 | in a layout memory_id_to_big alone has the memory slots, every other field has one |
| ClaimSlots.TotalIsCounted | scripts/generate_cairo_claim_registry.py:284-313 | the total is the memory slots for each memory field and one for each other field |
| ClaimSlots.SlotNames | scripts/generate_cairo_claim_registry.py:300-303 | a slot of a field with one slot has the field's name, any other the name with the index in brackets |
| ClaimSlots.DecimalReads | scripts/generate_cairo_claim_registry.py:301-303 | an index is written in base ten without leading zeros |
| ClaimSlots.SlotsAreFieldPositions | scripts/generate_cairo_claim_registry.py:286-313 | slot numbers and (field, index) pairs correspond one to one, with inverse first slot + index |
| ClaimSlots.RangesApart | scripts/generate_cairo_claim_registry.py:286-313 | different fields' ranges are disjoint, in field order, inside the slots |
| ClaimSlots.SlotNameInjective | scripts/generate_cairo_claim_registry.py:301-303 | a slot name determines its field name and index |
| ClaimSlots.SlotNamesDistinct | scripts/generate_cairo_claim_registry.py:300-313 | distinct bracket-free field names give distinct slot names |
| ClosedTopology.SortedByBase | scripts/generate_cairo_source_semantic_pack.py:290 | in base order, the same windows each as often |
| ClosedTopology.CompressGroup | scripts/generate_cairo_source_semantic_pack.py:289-309 | succeeds if and only if some edge stands for the group, and gives that edge |
| ClosedTopology.DeriveClosedTopology | scripts/generate_cairo_source_semantic_pack.py:274-311 | succeeds if and only if every component has feeds and every producer and target group is one edge's worth; each refusal names such a group |
| ClosedTopology.EdgeIsDetermined | scripts/generate_cairo_source_semantic_pack.py:301-308 | two edges stand for the same windows if and only if they are equal |
| ClosedTopology.CompressionIsLossless | scripts/generate_cairo_source_semantic_pack.py:274-311 | expanding a target's edges gives back exactly the windows fed to it, as a multiset |
| ClosedTopology.EdgesCountFeeds | scripts/generate_cairo_source_semantic_pack.py:274-311 | a target's edges stand for each window exactly as often as the feed table lists it for the target |
| ClosedTopology.EdgeMeans | scripts/generate_cairo_source_semantic_pack.py:289-308 | an edge stands for as many feeds as it has instances, all of its producer and its width, at bases one width apart |
| ClosedTopology.CapacitiesConserveFeeds | scripts/generate_cairo_source_semantic_pack.py:309-311 | capacities count the feeds, per producer and in all |
| ClosedTopology.FeedOrderIrrelevant | scripts/generate_cairo_source_semantic_pack.py:286-308 | the edges depend only on which feeds each component lists |
| ClosedTopology.FeedOrderKeepsVerdict | scripts/generate_cairo_source_semantic_pack.py:286-300 | so does whether a topology exists |
| MatrixManifest.ExpectedFiles | scripts/archive_native_matrix.py:76-112 | succeeds exactly on complete rows within the file bound, and lists each path that is the stdout, stderr or proof path of a lane of some row, with the digest of its last mention |
| MatrixManifest.DeclaredExactly | scripts/archive_native_matrix.py:76-112 | a path is declared if and only if it is the stdout, stderr or proof path of the cpu or metal lane of some row, and its digest is the one given with its last such mention |
| MatrixManifest.BuildManifest | scripts/archive_native_matrix.py:115-172 | builds exactly when every declared artifact is present with its digest and within bounds, and the manifest is a function of the summary alone |
| MatrixManifest.ManifestLists | scripts/archive_native_matrix.py:122-139 | the manifest lists each declared path once, with its declared digest |
| MatrixManifest.ManifestListsMentions | scripts/archive_native_matrix.py:122-172 | the manifest lists exactly the paths the rows mention, once each, in path order, with the digest of the last mention, and counts files and bytes |
| MatrixManifest.MatrixOkExactly | scripts/archive_native_matrix.py:115-172 | a matrix is valid if and only if its summary is the expected report, its rows are complete, and no mentioned file is missing, too large or damaged |
| Archive.RecordedBundleIsIntact | scripts/archive_native_matrix.py:236-255 | in a clean archive each recorded locator names a manifest with its digest that lists every artifact the report's rows mention, and the tree has every listed file with its listed digest |
| Archive.NoConflict | scripts/archive_native_matrix.py:245-254 | an existing record of the run, or of the digest, is always the one to be written |
| Archive.PublishedIff | scripts/archive_native_matrix.py:188-256 | into a clean archive a bundle is published if and only if its matrix is valid and its report archived; otherwise nothing is written |
| Archive.RecordKeepsInv | scripts/archive_native_matrix.py:245-255 | recording a complete bundle keeps the archive clean |
| Archive.PublicationSettles | scripts/archive_native_matrix.py:216-255 | a publication leaves the archive with the whole bundle and its record, whatever part was there before |
| Archive.InterruptedSettlesAlike | scripts/archive_native_matrix.py:216-255 | so does one started after any number of its own writes |
| Archive.CrashThenRerun | scripts/archive_native_matrix.py:188-256 | a crash after any write leaves a clean archive, and a rerun ends in the uninterrupted state with the uninterrupted result |
| Archive.AttemptPreserves | scripts/archive_native_matrix.py:188-256 | no attempt, crashed or not, changes a file, an artifact or a recorded bundle that was there |
| Archive.EveryHistoryIsClean | scripts/archive_native_matrix.py:188-256 | every sequence of attempts, each crashing anywhere, keeps the archive clean and what it held |
| Archive.Archiver.CopyTree | scripts/archive_native_matrix.py:216-231 | writes exactly the missing files, up to the crash, and stops at the first collision |
| Archive.Archiver.WriteBundle | scripts/archive_native_matrix.py:216-256 | performs the planned writes after the checks, up to the crash |
| Archive.Archiver.Publish | scripts/archive_native_matrix.py:188-256 | the whole call leaves the disk and returns the result of its plan cut at the crash |
| FileMoves.MovesKeepFiles | scripts/migrate_benchmark_history_v2.py:75-85 | however far the moves get, each file is where it was or at a planned destination with its bytes |
| FileMoves.MovesComplete | scripts/migrate_benchmark_history_v2.py:75-85 | when all go through, each moved file is at its destination only, no two share a source or a destination, and the others are untouched |
| Migration.Migrator.PlanReports | scripts/migrate_benchmark_history_v2.py:106-131 | succeeds exactly when every report is readable under its digest, and plans its move and its run |
| Migration.Migrator.PlaceDeltas | scripts/migrate_benchmark_history_v2.py:133-152 | succeeds exactly when every comparison is of archived reports, and gives each its runs and its delta's place under the current run |
| Migration.Migrator.PlanDeltas | scripts/migrate_benchmark_history_v2.py:154-172 | the same for the delta files; each run lists exactly the deltas that name it |
| Migration.Migrator.PlanBundle | scripts/migrate_benchmark_history_v2.py:179-210 | plans the manifest, every tree file and the summary, dropping only a summary with the report's digest |
| Migration.Migrator.PlanBundles | scripts/migrate_benchmark_history_v2.py:174-212 | the same for all bundles, and records them with their runs |
| Migration.Migrator.Execute | scripts/migrate_benchmark_history_v2.py:75-89 | performs the moves, then the removals, up to the first that fails; nothing in a dry run |
| Migration.Migrator.Finish | scripts/migrate_benchmark_history_v2.py:231-253 | replaces the index, drops the bundle index, and succeeds exactly when no old file is left and every digest holds |
| Migration.Migrator.Migrate | scripts/migrate_benchmark_history_v2.py:92-257 | a dry run or an inconsistent archive changes no file; a real run has exactly the outcome of its plan: a stopped move, a failed check or a completed plan; with no old path under runs/ no outcome loses any file's bytes and the final verification never fails |
| MigrationLayout.ReportPlaces | scripts/migrate_benchmark_history_v2.py:106-131 | a report goes to the report file of the run it names, or of that run with its digest's start if an earlier report took the run |
| MigrationLayout.DeltaPlaces | scripts/migrate_benchmark_history_v2.py:133-152 | a comparison's delta goes below the current run of its first comparison, as delta-from- with the baseline run, followed by its digest's first six characters if an earlier delta took that path |
| MigrationLayout.DeltaEntries | scripts/migrate_benchmark_history_v2.py:154-172 | an archived delta's entry names the current run of its first comparison and has that place, and its file moves there |
| MigrationLayout.LooseDeltas | scripts/migrate_benchmark_history_v2.py:158-161 | an archived delta without a comparison keeps its place among the loose deltas |
| MigrationLayout.BundlePlaces | scripts/migrate_benchmark_history_v2.py:174-212 | a bundle's manifest and tree go below its report's run, and its summary is dropped exactly if it repeats the report |
| MigrationPlan.RunsCollideExactly | scripts/migrate_benchmark_history_v2.py:106-131 | planning gives every report a run of its own if and only if no report finds both its name and its suffixed name taken by earlier ones |
| MigrationPlan.FallbackCollides | scripts/migrate_benchmark_history_v2.py:112-115 | an archive of three readable reports in which two get one run |
| MigrationPlan.DeltaFallbackCollides | scripts/migrate_benchmark_history_v2.py:133-152 | two further deltas of a pair whose digests start alike get one path |
| MigrationPlan.DeltaFallbackCollision | scripts/migrate_benchmark_history_v2.py:147-151 | as do the deltas d0, abcdef1 and abcdef2 of one pair |
| Migration.EvidencePreserved | scripts/migrate_benchmark_history_v2.py:13-18 | after a completed run every planned file has its bytes at its new path, and every other file is untouched apart from the two indices and summaries of bundles, whose bytes lie at the report path of that bundle's run |
| Migration.DigestsNameTheirBytes | scripts/migrate_benchmark_history_v2.py:242-253 | every digest of the new index names the bytes at its new path |
| Migration.RunsAreDistinct | scripts/migrate_benchmark_history_v2.py:109-131 | a completed run gave every report and every bundle a run of its own |
| Migration.RecordsAgree | scripts/migrate_benchmark_history_v2.py:118-212 | there is one record per report's run and no other: the report's kind, new path, size and digest, exactly the deltas that name the run, and its bundle |
| Migration.ComparisonsAgree | scripts/migrate_benchmark_history_v2.py:137-172 | a comparison names its reports' runs, and its delta path is its delta's entry if the delta is archived |
| Migration.DeltaPathHonestExactly | scripts/migrate_benchmark_history_v2.py:137-152 | after a completed run into a new tree with one-part run names, the file at a comparison's delta path is its delta if and only if the delta was archived |
| Migration.DeltaPathMisleads | scripts/migrate_benchmark_history_v2.py:147-151 | otherwise it can be another delta's file |
| Migration.InterruptionKeepsEvidence | scripts/migrate_benchmark_history_v2.py:75-89 | stopped after any number of moves and removals, every file's bytes are still in the archive |
| LinearForms.CombineForms | scripts/air_uniqueness_lib/analysis.py:310-320 | coefficient-wise combination, cancelled terms dropped |
| LinearForms.ExpandArena | scripts/air_uniqueness_lib/analysis.py:255-297 | one pass gives every node its form with pinned columns read as constants, or none above degree one |
| LinearForms.FormSound | scripts/air_uniqueness_lib/analysis.py:255-320 | wherever a node has a form, the form equals the node modulo P on every row that obeys the pins |
| LinearForms.Factors | scripts/air_uniqueness_lib/analysis.py:228-246 | the stack loop ends with the factors in the order of the recursive definition |
| LinearForms.FactorsVanish | scripts/air_uniqueness_lib/analysis.py:228-233 | a node vanishes modulo P on a row if and only if one of its factors does |
| FieldPrime.FieldIsPrime | scripts/riscv_air_ir_lib/ir.py:43-44 | P has no divisor between 1 and P |
| FieldPrime.ProductVanishes | scripts/air_uniqueness_lib/analysis.py:228-233 | a product vanishes modulo P if and only if a factor does |
| FieldInverse.Fermat | scripts/air_uniqueness_lib/analysis.py:427-442 | a^(P - 1) is one modulo P unless a vanishes |
| FieldInverse.Inverse | scripts/air_uniqueness_lib/analysis.py:427-442 | pow(a, P - 2, P) is the inverse of a, and zero if a vanishes |
| ColumnLines.SplitsExactly | scripts/air_uniqueness_lib/analysis.py:399-412 | a form is its scale times its direction plus its constant on every row if and only if its leading coefficient is not zero or all are |
| ColumnLines.ReadConstraint | scripts/air_uniqueness_lib/analysis.py:415-442 | computes the constraint's line, if its factors share one |
| ColumnLines.LineExactly | scripts/air_uniqueness_lib/analysis.py:415-442 | there is a line if and only if every factor has a form, none is the zero form, and those with terms, one at least, point one way; its roots are exactly theirs |
| ColumnLines.ConstraintLineSound | scripts/air_uniqueness_lib/analysis.py:415-442 | on every row where the constraint vanishes its line is at one of its roots |
| ColumnLines.LinesSound | scripts/air_uniqueness_lib/analysis.py:445-470 | so for the lines of all constraints, narrowed by each other |
| ColumnLines.ConstrainedNodeValues | scripts/air_uniqueness_lib/analysis.py:445-479 | computes, per node, the values the lines allow |
| ColumnLines.ConfinedExactly | scripts/air_uniqueness_lib/analysis.py:445-479 | a node is confined if and only if its form has terms and points along a constraint's line with a root |
| ColumnLines.NodeValuesSound | scripts/air_uniqueness_lib/analysis.py:445-479 | a node whose form splits takes one of them in every row that satisfies the constraints |
| LinearSystem.SolveForms | scripts/air_uniqueness_lib/analysis.py:323-365 | the elimination loop computes the specified pivots |
| LinearSystem.PivotsSeparated | scripts/air_uniqueness_lib/analysis.py:330-334 | no pivot occurs in a pivot's expression |
| LinearSystem.EliminationExact | scripts/air_uniqueness_lib/analysis.py:323-365 | a row satisfies the linear equations if and only if they are consistent and it obeys the pivots |
| LinearSystem.ForcedExactly | scripts/air_uniqueness_lib/analysis.py:323-365 | under consistent equations a column is forced to a value on every satisfying row if and only if its pivot is that constant |
| LinearSystem.LiveSound | scripts/air_uniqueness_lib/analysis.py:382-393 | a request found live fires in every row that satisfies the constraints |
| LinearSystem.LiveExactly | scripts/air_uniqueness_lib/analysis.py:382-393 | under consistent equations a numerator with a form is live if and only if it vanishes on no row that satisfies them |
| ColumnBounds.NarrowOnce | scripts/air_uniqueness_lib/analysis.py:770-805 | one pass meets the bounds with every line, constant pivot and live table request, and with nothing else |
| ColumnBounds.ImpliedColumnBounds | scripts/air_uniqueness_lib/analysis.py:808-832 | the iteration ends, at bounds that no further pass narrows |
| ColumnBounds.ImpliedUnique | scripts/air_uniqueness_lib/analysis.py:808-832 | there is only one such fixpoint |
| ColumnBounds.ImpliedSound | scripts/air_uniqueness_lib/analysis.py:808-827 | it removes no row the system accepts |
| ColumnBounds.ForcedBounded | scripts/air_uniqueness_lib/analysis.py:770-827 | a column the linear equations force to one value is confined to it |
| ColumnBounds.LookupBounded | scripts/air_uniqueness_lib/analysis.py:770-805 | a column among the components of a live request is confined to its table's width |
| BitBounds.BitBounded | scripts/air_uniqueness_lib/analysis.py:811-815 | it puts the column of a bit constraint within [0, 1] if any row is accepted |
| DeterminedColumns.Determined | scripts/air_uniqueness_lib/analysis.py:482-518 | computes the least set around seed and pins in which no fixed node has exactly one free column |
| DeterminedColumns.ForcesExactly | scripts/air_uniqueness_lib/analysis.py:487-491 | a form's value and other columns fix a column if and only if its coefficient is not zero |
| DeterminedColumns.ValuesExactly | scripts/air_uniqueness_lib/analysis.py:445-479 | the values read off a form's line hold on every row on the line if and only if the form has a leading coefficient or is zero throughout |
| DeterminedColumns.DeterminedAgree | scripts/air_uniqueness_lib/analysis.py:482-501 | accepted rows that agree on the seed agree on every determined column, if no fixed node holds a zero coefficient |
| CaseSplit.OneHotSelectors | scripts/air_uniqueness_lib/analysis.py:628-657 | the selectors of the first constraint saying that bit inputs sum to one, or none, by the implied bounds |
| OneHotGroups.SelectorsAreFirstGroup | scripts/air_uniqueness_lib/analysis.py:628-657 | they are, by name, the group of the first constraint, no product and with a form without zero coefficients, that says of every row that at least two input bits sum to one, or none if no constraint does |
| OneHotGroups.GroupFound | scripts/air_uniqueness_lib/analysis.py:628-657 | completeness: if such a constraint is a sum of n >= 2 inputs less one, each with a bit constraint and taking both values, a group is found, for every n |
| OneHotGroups.FormExactly | scripts/air_uniqueness_lib/analysis.py:645-656 | a linear node is on every row a sum of columns less one if and only if its form has those columns with coefficient one and the constant -1 |
| OneHotGroups.SquaresHide | scripts/air_uniqueness_lib/analysis.py:647-650 | a sum hidden behind a square that cancels is never found |
| CaseSplit.SelectorsUnique | scripts/air_uniqueness_lib/analysis.py:628-657 | the system alone decides them |
| CaseSplit.OneHotPicks | scripts/air_uniqueness_lib/analysis.py:628-642 | every accepted row sets exactly one of them to one and the others to zero, given at most P of them |
| CaseSplit.OneHotExactly | scripts/air_uniqueness_lib/analysis.py:628-642 | unit coefficients force exactly one of n bits if and only if n <= P |
| CaseSplit.PlanShards | scripts/air_uniqueness_lib/smtlib.py:125-131 | lists selector by selector every output |
| CaseSplit.ShardAt | scripts/air_uniqueness_lib/smtlib.py:125-131 | the place of each output and selector in the list |
| CaseSplit.ShardMembers | scripts/air_uniqueness_lib/smtlib.py:125-131 | that is exactly the pairs of an output and a selector |
| CaseSplit.ShardsDistinct | scripts/air_uniqueness_lib/smtlib.py:125-131 | each once |
| CaseSplit.UniqueIffEveryShard | scripts/air_uniqueness.py:182-197 | a family has no two-witness counterexample if and only if none of its shards has one |
| SharedColumns.ShardShares | scripts/air_uniqueness_lib/smtlib.py:192-225 | computes the columns a shard's copies share: those its inputs determine under its pins |
| SharedColumns.ShardPinsExactly | scripts/air_uniqueness_lib/smtlib.py:192-225 | the shard's pins: its selector one, the other selectors zero, and what the bounds pin |
| SharedColumns.SharingIsSound | scripts/air_uniqueness.py:141-154 | the rows of a counterexample in the shard agree on them, if no fixed node holds a zero coefficient |
| SharedColumns.SharingHides | scripts/air_uniqueness.py:141-154 | a loaded family with its own selectors and a counterexample in a shard whose copies share the differing output |
| ShardFold.Plan | scripts/air_uniqueness_board.py:192-222 | lists family by family its shards, then one probe per selector in name order, or the whole question of a family without outputs |
| ShardFold.PlanComplete | scripts/air_uniqueness_board.py:192-222 | that is exactly what is to be asked, each question once |
| ShardFold.QueriesInOrder | scripts/air_uniqueness_board.py:192-222 | a family's shards come in shard order, then one probe a selector by name |
| ShardFold.JobsInOrder | scripts/air_uniqueness_board.py:192-222 | families are asked about in their order |
| ShardFold.Worst | scripts/air_uniqueness_board.py:234 | the first row of the worst status, which is the family's |
| ShardFold.DecidingIsFirst | scripts/air_uniqueness_board.py:225-287 | the deciding shard is the family's first row whose status the verdict repeats |
| ShardFold.Collect | scripts/air_uniqueness_board.py:225-287 | one row per family, worst first: unsat exactly when all its shards are, sat when one is, and an honest witness only when every probe has one |
| ShardFold.BoardOrder | scripts/air_uniqueness_board.py:287 | sat families precede timeouts, those skipped ones, and those unsat ones; equal verdicts go by name |
| ShardFold.RowOrderIrrelevant | scripts/air_uniqueness_board.py:225-287 | rows in another order give the same families, verdicts, counts and open shards |
| ShardFold.ExitCode | scripts/air_uniqueness_board.py:360-383 | 2 without a family, 0 if and only if every family is unsat |
| ShardFold.ExitZeroMeansUnique | scripts/air_uniqueness_board.py:14-18 | given exact shard verdicts, exit 0 proves every family has outputs and is unique; with no unfinished shard, the converse holds |
| TimingMatrix.ValidateTiming | scripts/riscv_benchmark_matrix_contract.py:291-328 | accepts exactly the blocks whose counts, orders, positions, samples and summary fit |
| TimingMatrix.RunTiming | scripts/riscv_benchmark_matrix_runner.py:500-540 | yields a block exactly when every measurement is usable; for every iteration each lane's sample has the duration, CPU time, ratio, cycles and phases measured for that lane, in the mode and order asked for; every block passes the validator, for all warmups, samples and row indices |
| TimingMatrix.TimingReport | scripts/riscv_benchmark_matrix_runner.py:96-125 | the summary is the medians of the measured samples, warmups left out |
| TimingMatrix.MedianIsMiddle | scripts/riscv_benchmark_matrix_runner.py:104-110 | a median is half way between the two middle values |
| TimingMatrix.OrdersBalance | scripts/riscv_benchmark_matrix_runner.py:342-344 | over any run of iterations the two orders are used equally often up to one |
| TimingMatrix.UnpairedBlockIsAccepted | scripts/riscv_benchmark_matrix_contract.py:305-323 | the validator accepts any valid block with the candidate put first throughout |
| TimingMatrix.AlternationForcedOnlyOnce | scripts/riscv_benchmark_matrix_contract.py:305-323 | it forces the orders of every accepted block of n iterations to alternate if and only if n <= 1 |
| TimingMatrix.MedianWithin | scripts/riscv_benchmark_matrix_runner.py:104-110 | a median lies between any bounds on its values |
| TimingMatrix.MedianOrderIrrelevant | scripts/riscv_benchmark_matrix_runner.py:104-110 | a median depends only on the values, not on their order |
| TimingMatrix.SelectionsAgree | scripts/riscv_benchmark_matrix_contract.py:505-511 | for any filter of a full matrix the runner's completeness flag is the validator's, and holds exactly when no row was filtered out |

## Left out

- SHA-256 is an injective function: in the manifest and archive a digest is the content it names, in the migration it is a parameter with injectivity stated where it is used.
- JSON reading and writing, text encodings and error message texts; a file's parsed form is a value or a parameter. Missing JSON fields and wrong JSON types appear only where a check for them decides the outcome.
- Directories, symbolic links and operating-system failures beyond a missing file or a blocked destination; file sizes of the manifest and of the index.
- Archive paths are strings whose separator sorts below every other character, so that code-point order is path order.
- The archive's crash points are whole atomic writes; a torn temporary file is not modelled.
- A crash of the migration between the index write and the last check: only the moves and removals are cut at every point.
- The order in which the migration lists one bundle's tree files, and fields of an index entry it copies without reading.
- LogUp challenges, Poseidon, FRI, commitment schemes and the Zig prover: bus balance is the hypothesis, as in the checkers.
- The production-source pins, which compare Zig text with expected text.
- Python's bitwise or is defined by recursion on halves, and masks and shifts as remainders and quotients.
- RV32I beyond LUI, ADDI, SW and JAL, and instruction fetch: words are injected.
- Parsing of Rust constants, flatten blocks and feed tables: the models start from expression trees, events and feeds.
- Shard verdicts and solver runs: a verdict is a value, taken as exact, and `SharedColumns.SharingHides` shows where the emitted query is not. The emitted text, its interval arithmetic, node windows, projections and the ladder of group and prefix shards are not modelled; nor are declared input domains, wall-clock sums, reports and exported counterexamples.
- A direction is a map from names to coefficients rather than the sorted tuple of its items.
- CaseSplit.OneHotPicks: asks for at most P selectors, which the program does not check; `CaseSplit.OneHotExactly` says why it is needed.
- OneHotGroups.GroupFound: asks for a form without zero coefficients, for the reason `OneHotGroups.SquaresHide` gives; `OneHotGroups.SelectorsAreFirstGroup` says exactly what is found, whatever the constraints.
- DeterminedColumns.DeterminedAgree: one direction only; a zero coefficient need not mislead, and the exact conditions are those of the two steps, `ValuesExactly` and `ForcesExactly`.
- MemoryRelation.MemoryBalancesIffPaths: public input and output terms are among the cells' first and last terms, one of each per key; the production bound also counts them and every boundary row, so it is at least as strict.
- TimingMatrix.ValidateTiming: clock names, argument vectors, sidecars and evidence digests of a row are not modelled, because they only refuse more.
- TimingMatrix.RunTiming: digest determinism, semantic parity, artifact and parallelism checks of the proof runner are not modelled, because they only refuse more; seconds and ratios are reals.
- Report fields of the benchmark matrix outside the timing blocks and the selection, and the expected-rejection rows.
- The other scripts: release gates, lane planners, receipt and registry validators, subprocess handling and command lines.

Nothing was executed.
