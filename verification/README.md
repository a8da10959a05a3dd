# Verified model of the solver control plane's algorithms

This project models the algorithms and protocols in the repository's scripts whose correctness is a statement about all inputs or all
runs, and proves those statements. It needs Dafny 4.11 and nothing else: `dafny verify dfyconfig.toml` checks everything.

## What is modelled

- **C-grid to mesh builder** (`CGridTopology`, `CGridMesh`, `CGridTheorems`, `CGridCounts`, `CGridGeometry`, `CGridVolume`,
  `CGridBuilder`). The
  welding of the wake seam, the face dictionary, owner and neighbour pairing, patches, face ordering, signed areas and centroids of
  `rae2822_grid.py`, as methods over arrays and an insertion-ordered dictionary. The sides of the cells and an explicit partner
  function are the reference the dictionary is proved against.
- **Receipt publication** (`ReceiptPublication`). A file system with inodes whose memory and disk contents differ until synced, a
  directory whose durable copy lags, any number of interleaved persisting, attesting and verifying writers, calls that fail, background
  write-back and power loss. `link()` fails when the name exists, as POSIX.1-2017 (System Interfaces, `link()`) requires.
- **Release switch** (`ReleaseSwitch`). Both branches with an exception or a kill possible at every statement boundary and a recorded
  history of all intermediate states.
- **Cutover state** (`EnvFile`, `CutoverState`). The environment file as lines of text, its atomic replacement, the validator, and the
  workflow's durable writes in any order its guards allow, with a crash possible after each.
- **Database reset** (`SolverReset`). Preserve, erase and clear-runtime as a class over a database, an audit directory and runtime
  volumes, each command under an arbitrary crash schedule and with other processes acting before its repeated checks, with the
  history of all worlds.
- **Gas dynamics** (`Nasa7`, `NormalShock`, `ObliqueShock`, `TurningCurve`, `WeakBranchSearch`, `WeakShock`, `ExactShock`) over exact
  reals, loop counts being parameters of the searches. Trigonometric functions and the square root are parameters with a handful of
  identities.
- **Fast forms against simple ones**: the pressure mean (`PiecewiseLinear`, `PressureMean`, `PressureOutcome`), the solver-log window
  (`SolverStability`, `StabilityReport`), the source digest (`SourceStream`, `SourceTree`, `SourceManifest`), the conformal scale
  (`ConformalScale`), processor reassembly (`ProcessorReassembly`), and the UIUC reader (`UiucBranches`, `UiucVolume`). `Wrappers`
  holds the shared option and result types and the interval widths, `Arithmetic` and `Characters` the shared arithmetic and character
  classes.

## Where the code does less than one might expect

Each of these is proved, with the exact condition under which the expected property does hold.

- The grid builder admits a wall of one or two cells but always raises on it: with one cell a quadrilateral is degenerate, with two the
  wall edges share a face key (`CGridTheorems.AcceptanceExactly`, `CGridMesh.EncounterFoldedWall`).
- The release switch does not always remove its own link: a fault between placing it and entering the guarded block leaves it behind,
  and so does a failed exchange whose handler is itself interrupted (`ReleaseSwitch.Host.Switch`,
  `ReleaseSwitch.HandlerFaultLeavesLink`); at the legacy path it blocks every later run (`ReleaseSwitch.LaterRunAllowed`).
- The rebuild workflow records attestation ids that the validator refuses, such as 36 dashes
  (`CutoverState.RecordedIdMustBeCanonical`, `CutoverState.DashesAreLoose`).
- The foreign-key check ignores keys from the migrations table, the only table that could still block the truncation
  (`SolverReset.TruncationIsBlockedExactly`, `SolverReset.MigrationsKeyBlocks`).
- Creating a source manifest on a root that retains nothing succeeds and can never be verified
  (`SourceManifest.EmptyRootNeverVerifies`); a manifest at a path that is not excluded changes the tree it describes
  (`SourceManifest.CreateThenVerify`).
- Links to directories are not judged by the same rule as files (`SourceTree.WalkIsFileRuleExactly`, `SourceTree.ProcessorLinkDropped`).

## Model

| member | source | states |
|---|---|---|
| CGridTopology.LabelsCoincide | scripts/materials/rae2822_grid.py:36-48 | Two grid positions get one label exactly when they are the same position or mirror images on the wake; labels never clash elsewhere. |
| CGridTopology.KeyIsVertexSet | scripts/materials/rae2822_grid.py:78-80 | Sorting the four labels of a face gives one dictionary key per unordered collection of vertices, and only one. |
| CGridTopology.KeysCoincide | scripts/materials/rae2822_grid.py:55-80 | Two cell sides fall on one key exactly when they are the same side or partners across a grid line or the welded wake (wall of at least three cells). |
| CGridTopology.PartnersOppose | scripts/materials/rae2822_grid.py:86-88 | The rotation test accepts a pair of partner sides exactly when their two cells have the same orientation, so it detects every disagreement. |
| CGridTopology.QuadIsDistinct | scripts/materials/rae2822_grid.py:56-60 | A cell has four distinct labels unless the wall is a single cell and the cell sits on it, in which case it never has. |
| CGridMesh.WeldLabels | scripts/materials/rae2822_grid.py:36-49 | The in-place labelling succeeds exactly when the wake coordinates coincide, writes the welded label of every position, and every position finds its own scaled coordinates under its label; R*H - wallStart - 1 points in all. |
| CGridMesh.EncounterNew | scripts/materials/rae2822_grid.py:78-82 | A side met before its partner is always new to the face dictionary, and recording it keeps the dictionary invariant. |
| CGridMesh.EncounterPaired | scripts/materials/rae2822_grid.py:83-89 | A side met after its partner pairs the stored face when the cells agree in orientation and raises the orientation error when they do not. |
| CGridMesh.EncounterFoldedWall | scripts/materials/rae2822_grid.py:83-85 | On a wall of two cells the second wall edge finds the first one under its key and raises the ownership error. |
| CGridMesh.PairCell | scripts/materials/rae2822_grid.py:74-89 | Processing the six sides of one cell in order ends in exactly the pairing outcome predicted from the layout and orientations, with the dictionary holding one face per side met first. |
| CGridMesh.Sweep | scripts/materials/rae2822_grid.py:50-89 | The whole sweep either stops with the error of the first rejected cell, or yields a dictionary holding one finished face per first-met side, in insertion order, the least cell volume, and one centroid per cell. |
| CGridMesh.CollectBoundary | scripts/materials/rae2822_grid.py:91-96 | The unpaired faces are listed under their patches in order; an unpaired face without a patch is the error. |
| CGridBuilder.ExtrudedCGrid | scripts/materials/rae2822_grid.py:27-98 | The builder: which of its errors it raises and when, success exactly when bounds, dimensions, seam, wall length of at least three cells and one area sign all hold, and for a successful run the points, the centre of every cell, and the exact sizes and strict order of all face lists. |
| CGridTheorems.AcceptanceExactly | scripts/materials/rae2822_grid.py:53-89 | Every cell is accepted if and only if the wall has at least three cells and all signed areas share one nonzero sign. |
| CGridTheorems.OutcomeIsDetermined | scripts/materials/rae2822_grid.py:53-89 | Either every cell is accepted or exactly one error is possible, that of the first rejected cell in row-major order. |
| CGridTheorems.OrientationErrorExactly | scripts/materials/rae2822_grid.py:86-88 | Without degenerate cells, the orientation error is raised if and only if two face-sharing cells have areas of opposite sign. |
| CGridTheorems.FacesAreDistinct | scripts/materials/rae2822_grid.py:78-82 | No two faces of the result have the same vertices in any order. |
| CGridTheorems.FaceIsOwned | scripts/materials/rae2822_grid.py:78-96 | Every face has one owner and either one higher-numbered neighbour and no patch, or no neighbour and exactly one of the four patches. |
| CGridTheorems.EverySideIsAFace | scripts/materials/rae2822_grid.py:74-89 | Every side of every cell is exactly one face of the result, which names that cell as its owner or neighbour. |
| CGridCounts.CellPairsAreDistinct | scripts/materials/rae2822_grid.py:90 | Two cells share at most one face, so the sort key never ties. |
| CGridCounts.InternalIsOrdered | scripts/materials/rae2822_grid.py:90 | The internal list is strictly increasing by (owner, neighbour) and holds exactly the paired faces. |
| CGridCounts.FaceCounts | scripts/materials/rae2822_grid.py:90-96 | Exact size of each list: internal (R-2)(H-1) + (R-1)(H-2) + wallStart, inlet H-1, outlet 2(R-1), airfoil wallEnd-wallStart, frontAndBack 2(R-1)(H-1). |
| CGridCounts.PlaneCountExactly | scripts/materials/rae2822_grid.py:36-49 | The welded plane has R*H - wallStart - 1 points. |
| CGridCounts.SixSidesPerCell | scripts/materials/rae2822_grid.py:74-98 | Conservation: six times the cells equals twice the internal faces plus the boundary faces. |
| CGridCounts.OrderFaces | scripts/materials/rae2822_grid.py:133-149 | The exported face list is the internal faces followed by each patch, and the written start and count of every patch select exactly that patch. |
| CGridCounts.RangesPartitionBoundary | scripts/materials/rae2822_grid.py:143-149 | The written ranges start after the internal faces, follow one another without gap or overlap, end at the last face, and each lists its own patch in order. |
| CGridGeometry.CellIsClosed | scripts/materials/rae2822_grid.py:74-77 | Seen outward from its cell, the six faces of a cell traverse every directed edge at most once and every edge once in each direction: a closed oriented surface. |
| CGridGeometry.QuadRunsCounterclockwise | scripts/materials/rae2822_grid.py:56-75 | In the order the builder uses for a cell, its quadrilateral encloses exactly the absolute value of the cell area, so it runs counterclockwise; in three dimensions CGridVolume.CellIsFilled says the same of all six faces. |
| CGridVolume.AreaOfRectangle | scripts/materials/rae2822_grid.py:57-59 | The signed area of a rectangle run counterclockwise is its width times its height. |
| CGridVolume.AreaIsTranslated | scripts/materials/rae2822_grid.py:57-59 | Moving a quadrilateral leaves its signed area. |
| CGridVolume.AreaIsCut | scripts/materials/rae2822_grid.py:57-59 | Cutting a quadrilateral from one side to the opposite one divides its signed area. |
| CGridVolume.CentroidBalances | scripts/materials/rae2822_grid.py:61-64 | Area and centre of a cell are those of the two triangles beside a diagonal, each weighted at the mean of its three corners, at half the depth. |
| CGridVolume.PointsAreScaled | scripts/materials/rae2822_grid.py:41-52 | Every grid position has two points in the mesh, its coordinates times the chord on the near plane and on the plane at chord times span. |
| CGridVolume.PatchesAre | scripts/materials/rae2822_grid.py:68-73 | The face of a side is listed under exactly the exterior surface the side lies on: wall columns of the first row, the last row, the two ends of the columns, front and back. |
| CGridVolume.BoundingFaces | scripts/materials/rae2822_grid.py:74-96 | The faces of the finished mesh that name a cell as owner or neighbour are those of its six sides, and no others. |
| CGridVolume.CellIsFilled | scripts/materials/rae2822_grid.py:56-75 | Measured in the returned three-dimensional points by determinants alone: exactly six different stored faces bound a cell, and taken outward from it by the right-hand rule they enclose a positive volume, the one the builder minimises. |
| CGridVolume.MinimumIsAttained | scripts/materials/rae2822_grid.py:51-67 | The reported minimum is the volume of one of the cells, and no cell has less. |
| CGridGeometry.AreasAddUpToBoundary | scripts/materials/rae2822_grid.py:41-58 | The signed areas the builder computes for the cells of a welded grid add up to the shoelace sum over airfoil, outlet and inlet edges: interior and wake contributions cancel. |
| CGridGeometry.CentresAddUpToBoundary | scripts/materials/rae2822_grid.py:61-64 | The returned cell centres, weighted with their cell areas, add up in each coordinate to the first moment of airfoil, outlet and inlet edges: together they have the centroid of the whole section. |
| ReceiptPublication.NextKeeps | scripts/deploy/persist-json-receipt.py:190-243 | Every step of every writer, every failing call, every background write-back and every crash keeps the invariant of the destination, the durable table and each writer. |
| ReceiptPublication.RunKeeps | scripts/deploy/persist-json-receipt.py:211-243 | The invariant holds after every run: any number of writers, any interleaving, any crashes. |
| ReceiptPublication.DestinationIsComplete | scripts/deploy/persist-json-receipt.py:211-243 | In every reachable state the destination is absent or one complete, restricted file that is the same in memory and on disk, validated if the persisting protocol made it. |
| ReceiptPublication.OneCreator | scripts/deploy/persist-json-receipt.py:227-243 | Between crashes at most one writer creates the destination. |
| ReceiptPublication.DestinationIsStable | scripts/deploy/persist-json-receipt.py:227-243 | No step changes an existing destination; only a crash can remove it, and not once it is durable. |
| ReceiptPublication.DurableForever | scripts/deploy/persist-json-receipt.py:202-243 | A durable destination is there with the same contents after every continuation of the run. |
| ReceiptPublication.SuccessSurvives | scripts/deploy/persist-json-receipt.py:211-243 | Once a publishing writer has returned success, its own complete file is the destination after every further event, crashes included. |
| ReceiptPublication.OneSuccess | scripts/deploy/persist-json-receipt.py:211-243 | Over a whole run, crashes included, at most one publishing writer ever returns success. |
| ReceiptPublication.Directory.PersistReceipt | scripts/deploy/persist-json-receipt.py:211-243 | The sequential program under any pattern of raising calls: a source that cannot be published changes nothing; otherwise the directory is that after exactly the calls before the first one that raises, and success means that all five completed. |
| ReceiptPublication.Directory.VerifyExisting | scripts/deploy/persist-json-receipt.py:246-251 | Verification of anything but an installed valid receipt changes nothing; otherwise the directory is that after exactly the calls before the first one that raises, and success means that the receipt was restricted and it and its directory synced. |
| ReceiptPublication.MachineRunsProgram | scripts/deploy/persist-json-receipt.py:211-243 | Run alone, the writer of the state machine is after every number of calls in exactly the state of the sequential program stopped there, and after all five it reports success. |
| ReceiptPublication.PublishedIsInstalled | scripts/deploy/persist-json-receipt.py:211-243 | What success leaves behind: the source's bytes, restricted and synced, under the destination's name, the private name gone and every entry durable. |
| ReceiptPublication.VerifierAccepts | scripts/deploy/persist-json-receipt.py:246-251 | A verifier alone with an accepted destination is after every number of calls where the sequential program is, and ends in success with the file restricted and synced and the directory durable. |
| ReceiptPublication.VerifierRefuses | scripts/deploy/persist-json-receipt.py:246-251 | A verifier fails at once, changing nothing, when nothing is installed or the validator rejects it. |
| ReceiptPublication.CrashKeepsTheWrittenBack | scripts/deploy/persist-json-receipt.py:190-208 | A crash keeps exactly the durable names and the contents on disk. |
| ReceiptPublication.QuietActKeeps | scripts/deploy/attest-remote-solver2606-volume.py:110-137 | The steps of the attester that touch only its private temporary file (create, write, sync, restrict) keep the invariant, partial writes included. |
| ReceiptPublication.AttesterPublishes | scripts/deploy/attest-remote-solver2606-volume.py:110-137 | An attester alone with the destination absent ends in success however its writes are split: its whole contents restricted and synced under the destination's name, every entry durable, its temporary name gone. |
| ReceiptPublication.AttesterFailsCleanly | scripts/deploy/attest-remote-solver2606-volume.py:110-137 | Whatever call of the attester raises after its temporary file is made, in any state, the cleanup removes the temporary name and nothing else and the run fails. |
| ReceiptPublication.TakenDestinationIsRefused | scripts/deploy/attest-remote-solver2606-volume.py:110-137 | A writer that finds the destination taken fails without touching it; an attester that loses the race at its link also removes its temporary name. |
| ReceiptPublication.CleanUpKeeps | scripts/deploy/attest-remote-solver2606-volume.py:130-137 | The attester's cleanup keeps the invariant, whether it follows success or an exception. |
| ReleaseSwitch.Host.Switch | scripts/deploy/atomic-release-switch.py:56-100 | Under every schedule of exceptions and deaths, every state passed through keeps the application path on the old target or the verified release and an old real directory at the application or legacy path, and removals touch only the switch's own links. The end is switched if and only if the rename is reached and succeeds, the own link left behind if and only if it is placed and then a fault comes before the guarded block, death at the rename, or a failed rename whose handler does not reach its removal, and unchanged otherwise; completion, exception and death are told apart exactly. |
| ReleaseSwitch.HandlerFaultLeavesLink | scripts/deploy/atomic-release-switch.py:88-94 | A concrete schedule, a failed exchange followed by an exception in its handler, after which the link stands at the legacy path although the guarded block was entered undisturbed. |
| ReleaseSwitch.EndsDiffer | scripts/deploy/atomic-release-switch.py:65-94 | Leaving the link behind is neither the old state nor the switched one. |
| ReleaseSwitch.LaterRunAllowed | scripts/deploy/atomic-release-switch.py:60-70 | What each end allows afterwards, for every process id: an old directory moved to the legacy path, or a link left there, blocks every later run; a temporary link left behind blocks exactly the runs under the same process id. |
| CutoverState.CollectFields | scripts/deploy/opencfd2606_cutover_state.py:44-75 | One pass over the file finds a value for each wanted key exactly when every key occurs exactly once; a missing key is reported before a duplicated one. |
| CutoverState.ParseEnv | scripts/deploy/opencfd2606_cutover_state.py:44-75 | Reading succeeds exactly on a regular file with each field once, and returns the tuple of those values. |
| EnvFile.ValuesAre | scripts/deploy/opencfd2606_cutover_state.py:52-57 | The values of a key are what stands after its first equals sign in the lines that begin with it. |
| CutoverState.ReadsByName | scripts/deploy/opencfd2606_cutover_state.py:44-75 | Which of the eight named variables of the file holds which part of the tuple. |
| CutoverState.WriteIsLabelled | scripts/deploy/opencfd2606_cutover_state.py:139-286 | From an accepted tuple every allowed write of the workflow leads to a tuple accepted under the label of that write, provided a recorded attestation id is canonical. |
| CutoverState.RunsAreLabelled | scripts/deploy/opencfd2606_cutover_state.py:139-286 | Every state of every run of the workflow, a crash after any single write included, is accepted and labelled with the step it reached; the unmarked-receipt and retained-receipt labels are exactly the two windows between a receipt write and its variable write. |
| CutoverState.ReachableIsAccepted | scripts/deploy/opencfd2606_cutover_state.py:139-286 | From any bootstrapped file the reachable tuples are exactly the accepted ones. |
| CutoverState.LabelsInFull | scripts/deploy/opencfd2606_cutover_state.py:139-286 | The validator in full: for each of the seven labels exactly which eight fields beside which receipt get it, every shape spelled out. |
| CutoverState.RequirementFollowsStep | scripts/deploy/opencfd2606_cutover_state.py:139-286 | After each write of the workflow the validator grants a caller the idle requirement exactly after the last write, and the certifiable one from the published receipt to its removal. |
| CutoverState.SourceIsBinding | scripts/deploy/opencfd2606_cutover_state.py:139-286 | A caller that supplies half a source is refused; a pending state accepts exactly the source it was prepared for, an idle one exactly a well-formed source. |
| CutoverState.Bootstrap | scripts/deploy/bootstrap-opencfd-env.py:25-69 | Installs the pristine tuple exactly when none of the recovery fields occurs, and otherwise leaves the file as it is. |
| CutoverState.BootstrapReadsPristine | scripts/deploy/bootstrap-opencfd-env.py:40-58 | A bootstrapped file has every field exactly once and reads back as the pristine tuple. |
| EnvFile.SetVariablesValues | scripts/deploy/rebuild-engine.sh:1152-1209 | After an atomic replacement every updated key has exactly its new value, once, and every other key keeps all its values. |
| EnvFile.OthersKept | scripts/deploy/rebuild-engine.sh:1152-1209 | Every line that assigns no updated key comes out unchanged and in order, comments, blank lines and lines without an equals sign included. |
| EnvFile.EditedInPlace | scripts/deploy/rebuild-engine.sh:1152-1209 | In a file that assigns no updated key twice every line keeps its position; assignments of updated keys get the new value in place. |
| CutoverState.WrittenTupleReads | scripts/deploy/rebuild-engine.sh:1210-1250 | Writing a whole tuple and reading it back gives that tuple, whatever the file held before. |
| CutoverState.WrittenReads | scripts/deploy/rebuild-engine.sh:1210-1250 | Every durable write of the workflow changes the tuple and the receipt exactly as the workflow intends. |
| CutoverState.RecordedIdMustBeCanonical | scripts/deploy/rebuild-engine.sh:1210-1250 | The workflow's own test of an attestation id is looser than the validator: the recorded tuple is accepted if and only if the id is a canonical UUID. |
| CutoverState.DashesAreLoose | scripts/deploy/rebuild-engine.sh:1210-1250 | A concrete run from the pristine tuple at whose last step the workflow's guards admit an id of 36 dashes; the validator accepts the state before and refuses the state after with its attestation error. |
| CutoverState.GuardsFollowLabels | scripts/deploy/rebuild-engine.sh:1631-1827 | Which durable writes the workflow lets through, told by the label of the state alone; a state prepared once can be prepared again only for the same source. |
| CutoverState.SourceIsKept | scripts/deploy/rebuild-engine.sh:1210-1250 | The deployment source stays bound from the preparation to the end. |
| CutoverState.SweeperIsKept | scripts/deploy/rebuild-engine.sh:1631-1650 | Whether the sweeper was running is recorded by the first preparation, kept by every later write, and dropped at the end. |
| CutoverState.OtherVariablesKept | scripts/deploy/rebuild-engine.sh:1152-1209 | No run of the workflow touches any other variable of the environment file. |
| SolverReset.ClassifyTables | scripts/deploy/reset-solver-domain.py:149-166 | Classification succeeds exactly when the public tables are the known lists and the only other table is the migrations table, and returns the two lists. |
| SolverReset.TruncationIsBlockedExactly | scripts/deploy/reset-solver-domain.py:169-181 | With classified tables and allowed foreign keys, TRUNCATE RESTRICT of the solver tables is blocked if and only if a key of the migrations table points into them: the list is closed under all other incoming keys. |
| SolverReset.MigrationsKeyBlocks | scripts/deploy/reset-solver-domain.py:169-181 | A concrete schema that passes every check of the tool and whose truncation the database refuses. |
| SolverReset.Reset.Preserve | scripts/deploy/reset-solver-domain.py:357-389 | Without a crash it completes if and only if the domain is quiesced and classified and either a matching receipt exists, or no earlier export is left, the dump restores to the live configuration, the target rows come back unchanged, and the writers are still stopped at the second check; only the audit directory changes; an unproved export is refused and an existing receipt never replaced. |
| SolverReset.Reset.Export | scripts/deploy/reset-solver-domain.py:263-306 | The dump, scope and environment copies are written one at a time, never replacing a complete archive by a different one. |
| SolverReset.Reset.Prove | scripts/deploy/reset-solver-domain.py:309-355 | The scratch restore succeeds exactly when the dump restores to the recorded configuration and the target rows come back unchanged; otherwise it is refused and the scratch database kept. |
| SolverReset.Reset.Erase | scripts/deploy/reset-solver-domain.py:404-424 | Erase completes, crashes apart, if and only if the domain is quiesced, a receipt matches and the truncation is allowed; it then leaves exactly the erased world, changes nothing when it refuses, and after a crash the tables are untouched or truncated whole. |
| SolverReset.Reset.ClearRuntime | scripts/deploy/reset-solver-domain.py:426-479 | Without a crash it completes if and only if erase does, the mounts are verified, and no repeated check finds writers running, files reappeared in the volumes or work in the queue, whatever other processes did before each check; the database changes only through erase, and the resulting world is given exactly. |
| SolverReset.Reset.EmptyVolumes | scripts/deploy/reset-solver-domain.py:447-470 | Removing the volume children one at a time changes nothing but the volumes, keeps the history allowed at every removal, and leaves every volume empty unless it crashes. |
| SolverReset.RunAll | scripts/deploy/reset-solver-domain.py:357-479 | Any sequence of the three commands, each with its own crash schedule, produces a history of allowed effects only. |
| SolverReset.ConfigurationNeverChanges | scripts/deploy/reset-solver-domain.py:281-297 | In every state of every such history the configuration and migration rows are the original ones; a receipt that appears is one whose dump restores to the configuration it records and whose target rows come back; receipt, complete archive and erased marker are never replaced. |
| SolverReset.RowsVanishOnlyUnderProof | scripts/deploy/reset-solver-domain.py:392-423 | If a solver row is missing in some state, an earlier state held a receipt whose migrations and rows of every configuration table were those of that state, with intact artifacts. |
| SolverReset.DigestsTell | scripts/deploy/reset-solver-domain.py:281-297 | Two states have equal digests if and only if their migrations are equal and every configuration table has equal rows. |
| SolverReset.ReadyToEraseInFull | scripts/deploy/reset-solver-domain.py:391-412 | What an erase demands, in full and without a helper: quiesced, classified, every required table present, no key into the solver tables from outside, a receipt with this inventory, these migrations and these rows of every configuration table, unchanged artifacts. |
| SolverReset.ChangedConfigurationIsRefused | scripts/deploy/reset-solver-domain.py:397-398 | Once any row of any configuration table, or any migration, differs from the state the receipt recorded, an erase is refused. |
| SolverReset.EraseAfterChange | scripts/deploy/reset-solver-domain.py:357-424 | A run: preserve, then one configuration table is changed by someone else, then erase under any crash schedule; it is refused and the changed rows stand untouched. |
| SolverReset.RuntimeEmptyExactly | scripts/deploy/reset-solver-domain.py:459-467 | The emptiness check passes exactly when no volume holds anything but the nested mount point of the results volume. |
| SolverReset.EraseIsIdempotent | scripts/deploy/reset-solver-domain.py:404-423 | Where erase is accepted it is accepted again after it completed, and after it crashed between truncation and marker, and ends in the same world. |
| SolverReset.EraseAgain | scripts/deploy/reset-solver-domain.py:404-424 | An erase crashed at any boundary, run again without a crash, completes in the erased world, and one more run changes nothing. |
| Nasa7.DividedSumIntegrates | scripts/materials/thermally_perfect_shock.py:27-37 | The sum of coefficients times divided differences, times the width, is the difference of the antiderivative: the exact integral without cancelling powers. |
| Nasa7.EnthalpyChange | scripts/materials/thermally_perfect_shock.py:19-38 | Equals R times the difference of the enthalpy ratios for every pair of temperatures in range, also across a discontinuous join and with either one at the common temperature; out of range it raises. |
| Nasa7.ChangeComposes | scripts/materials/thermally_perfect_shock.py:19-38 | The enthalpy change is antisymmetric and additive over any intermediate temperature. |
| NormalShock.BracketHolds | scripts/materials/thermally_perfect_shock.py:60-70 | For every Mach number above one and heat capacity above the gas constant the residual is positive at compression 1 and negative at the largest compression: the initial bracket always holds. |
| NormalShock.BisectShock | scripts/materials/thermally_perfect_shock.py:66-75 | Bisection keeps the residual positive at the lower and nonpositive at the upper end and halves the interval at each step; it raises only where the enthalpy is out of range. |
| NormalShock.MassAndMomentumJump | scripts/materials/thermally_perfect_shock.py:47-76 | For every positive compression, zero of the residual or not, the reported downstream state conserves mass and momentum and is an ideal gas. |
| NormalShock.ResidualIsEnergyJump | scripts/materials/thermally_perfect_shock.py:60-64 | For every compression above one at which the enthalpy is defined, the residual is zero if and only if the energy jump condition holds. |
| NormalShock.ConstantRootIsDensityRatio | scripts/materials/thermally_perfect_shock.py:60-64 | With constant heat capacity the residual has exactly one root, the closed-form density ratio of the oblique-shock solver, and its sign tells on which side of it a compression lies. |
| NormalShock.BisectConstant | scripts/materials/thermally_perfect_shock.py:66-75 | So with constant heat capacity the final interval contains that closed-form ratio. |
| NormalShock.NormalRatios | scripts/materials/thermally_perfect_shock.py:47-76 | A normal Mach number up to 1 + 1e-12 passes unchanged; above, the reported ratios are those of the midpoint of a bracketing interval of the stated width; it raises only above and only if the enthalpy is out of range at some compression between the two initial ends. |
| WeakShock.WeakThermallyPerfect | scripts/materials/thermally_perfect_shock.py:106-132 | For any deflection curve: the guarded inputs raise, a zero deflection is the Mach wave, otherwise the located maximum lies within half of (2/3)^60 of the range of the peak of any unimodal curve, detachment is reported exactly above it, and the interval brackets every weak solution with width halved 70 times. |
| Nasa7.EnthalpyInFull | src/airfoilfoam/calorics.py:63-72 | The enthalpy polynomial spelled out: the enthalpy constant plus the integral of the five-coefficient heat capacity. |
| Nasa7.EnthalpyRatioInFull | src/airfoilfoam/calorics.py:54-65 | Raised outside the temperature range; the low polynomial strictly below the common temperature and the high one from it on. |
| Nasa7.DifferenceIsJump | src/airfoilfoam/calorics.py:54-72 | The constant the integral adds at the common temperature, accumulated over the five coefficients, is exactly the jump between the two enthalpy polynomials there. |
| TurningCurve.TurningIs | scripts/materials/oblique_shock.py:32-35 | Strictly between zero and a right angle the turning formula never divides by zero, and it is the arctangent of one rational function of the tangent of the shock angle. |
| TurningCurve.TurningIsUnimodal | scripts/materials/oblique_shock.py:32-46 | For every Mach number and ratio of specific heats above one the turning angle increases strictly up to its peak and decreases strictly after it: the hypothesis of the ternary search holds. |
| TurningCurve.PeakExists | scripts/materials/oblique_shock.py:32-46 | For every such flow the peak equation, a quadratic in the squared tangent, has a solution: there is a peak. |
| TurningCurve.TurningBelowAngle | scripts/materials/oblique_shock.py:32-35 | The turning angle is always less than the shock angle. |
| WeakBranchSearch.LocatePeak | scripts/materials/oblique_shock.py:37-45 | Ternary search keeps the maximiser of any strictly unimodal curve between its ends and shrinks the interval to two thirds at each step. |
| WeakBranchSearch.Bisect | scripts/materials/oblique_shock.py:49-56 | Bisection keeps the curve below the target at a moved lower end and at or above it at a moved upper end, and halves the interval at each step. |
| WeakBranchSearch.WeakSolutionIsBracketed | scripts/materials/oblique_shock.py:49-57 | Every solution on the weak branch lies between the ends of the final interval, even when the located maximum lies beyond the true peak. |
| WeakBranchSearch.EndsStraddle | scripts/materials/oblique_shock.py:49-56 | When the curve starts at or below the target and the maximum reaches it, its values at the two ends straddle the target. |
| WeakBranchSearch.WeakBranch | scripts/materials/oblique_shock.py:37-57 | The composed search: maximum within half the final ternary width of the peak, detachment exactly when the target exceeds it by more than the tolerance, and the bracket of the weak angle. |
| WeakShock.NormalIsSupersonic | scripts/materials/oblique_shock.py:57-60 | Any shock angle above the Mach angle has a normal Mach number above one, so the closed-form ratios are defined. |
| WeakShock.PeakAboveMachAngle | scripts/materials/oblique_shock.py:36-45 | The peak of the turning angle lies above the Mach angle. |
| WeakShock.WeakObliqueShock | scripts/materials/oblique_shock.py:24-63 | The solver on its own turning curve: refused exactly on the guarded inputs, too steep exactly above the located maximum, which is near the existing peak; for a reachable target its interval contains every exact weak angle and the turning at its ends straddles the target; it divides by zero only when its angle does not exceed the target; the reported ratios are the closed forms at its angle, and the downstream Mach number has the closed-form normal component. |
| WeakShock.MachAngleExists | scripts/materials/oblique_shock.py:30 | Every Mach number above one has a Mach angle. |
| ObliqueShock.NormalVelocities | scripts/materials/oblique_shock.py:58-61 | The closed-form density, temperature and downstream Mach ratios together say that the normal velocity falls by exactly the density ratio. |
| ObliqueShock.TurningKeepsTangent | scripts/materials/oblique_shock.py:32-35 | At the exact turning angle the tangential velocity carries over unchanged through the shock. |
| ObliqueShock.ClosedFormConserves | scripts/materials/verify_oblique_shock.py:155-174 | The solver's closed-form ratios at the exact turning angle make the normal mass, normal momentum and total energy errors of the verification script all zero. |
| ExactShock.TurningIsExact | scripts/materials/verify_oblique_shock.py:155-163 | The angle the solver's turning formula gives is the exact deflection, positive and below the shock angle: its sine and cosine meet the multiplied-out relation the conservation theorem needs. |
| ExactShock.ExactShockConserves | scripts/materials/verify_oblique_shock.py:155-174 | At an angle that turns the flow by exactly the deflection asked for, the ratios and the downstream Mach number the solver returns make the mass, momentum and energy errors of the check zero. |
| WeakShock.StagnationTemperature | scripts/materials/evaluate-air-pressure.py:44-55 | Succeeds exactly when the reference temperature is in range and the stagnation enthalpy within the material; the ends then straddle the target enthalpy, whatever the shape of the enthalpy curve, with width halved 80 times. |
| PiecewiseLinear.TrapezoidsIntegrate | scripts/materials/rae2822_unsteady.py:101-103 | The trapezoid sum over knots that cover the frame times equals the sum of the areas of all segments of the interpolant clipped to the interval. |
| PiecewiseLinear.SliceKeepsIntegral | scripts/materials/rae2822_unsteady.py:84-87 | Frames outside the sliced window contribute nothing to the integral over the interval. |
| PiecewiseLinear.InsertOnInterpolant | scripts/materials/rae2822_unsteady.py:101-103 | A frame added on the interpolant changes no integral. |
| PressureMean.SortOrders | scripts/materials/rae2822_unsteady.py:62 | Sorting by time orders the frames and keeps each of them. |
| PressureMean.OrderIrrelevant | scripts/materials/rae2822_unsteady.py:62-65 | With distinct times the answer does not depend on the order in which the frames are given. |
| PressureMean.SliceBrackets | scripts/materials/rae2822_unsteady.py:84-87 | The two binary searches select the last frame at or before the start up to the first frame at or after the end, at least two frames. |
| PressureMean.MeanIsExact | scripts/materials/rae2822_unsteady.py:59-108 | An available mean times the length of the interval is the exact integral of the piecewise-linear interpolant of the whole developed history over it, for every surface point of both sides. |
| PressureMean.MeanIsBounded | scripts/materials/rae2822_unsteady.py:59-108 | The mean lies between any bounds on the developed samples of its surface point. |
| PressureMean.MeansAdd | scripts/materials/rae2822_unsteady.py:59-108 | Length-weighted means of adjacent intervals add up to the mean of their union. |
| PressureMean.InsertKeepsMean | scripts/materials/rae2822_unsteady.py:59-108 | Saving one more frame that lies on the interpolant changes no mean while both calls report one. |
| PressureOutcome.HistoryIs | scripts/materials/rae2822_unsteady.py:62-68 | The developed history holds exactly the given frames at or after the startup time, in order of time. |
| PressureOutcome.PressuresAre | scripts/materials/rae2822_unsteady.py:101-103 | What is averaged: the times of those frames and the pressures at one point of the surface asked for. |
| PressureOutcome.OutcomeExactly | scripts/materials/rae2822_unsteady.py:59-108 | Over an interval inside the developed history, or by default from its least to its greatest time, the answer is told from the frames alone: too few frames or too short, a raise on a single time, a gap between two neighbouring frames of the window, a raise on a changed or improper sampling, otherwise available with that interval and frame count. |
| PressureOutcome.NoIntervalOutcome | scripts/materials/rae2822_unsteady.py:59-81 | Without such an interval: no frames, a raise on repeated or nonpositive times, no developed frame, or a raise on an interval outside the history. |
| PressureOutcome.ReportIs | scripts/materials/rae2822_unsteady.py:88-107 | An available answer lists exactly the ends of the interval at which no frame was saved, and gives both surfaces at the coordinates of every frame of its window. |
| SolverStability.SolverStability | scripts/materials/solver_stability.py:14-71 | The streaming pass raises exactly on a malformed log or a window below one, and otherwise reports on the window of the whole-log definition: cut at the last coordinate decrease, merge repeated coordinates, keep the last k iterations. |
| SolverStability.StepsConcat | scripts/materials/solver_stability.py:21-37 | A stretch of log that begins at a new coordinate contributes exactly its own iterations. |
| SolverStability.StepsExtended | scripts/materials/solver_stability.py:38-51 | A line that begins no new iteration goes to the iteration in progress and changes nothing else. |
| SolverStability.StepsRise | scripts/materials/solver_stability.py:21-37 | Since the last restart the coordinates strictly increase and end at the coordinate in force. |
| SolverStability.WindowRises | scripts/materials/solver_stability.py:52-60 | The reported window holds at most k distinct iterations in increasing order, ending at the last logged coordinate; it is empty exactly when no coordinate was logged. |
| SolverStability.LargestIs | scripts/materials/solver_stability.py:68-69 | A reported maximum is attained by a sample and is not exceeded by any, and is missing exactly when there are no samples. |
| StabilityReport.ReportIsReadOff | scripts/materials/solver_stability.py:14-71 | A log with an iteration is reported on from one line on, after the last restart: the window is full or opens at the first coordinate there; iterations, limit counts, sample count, last sample and maxima are read off the lines from there, with no use of the iterations they are grouped into. |
| StabilityReport.LastRestartIs | scripts/materials/solver_stability.py:28-36 | The stretch reported on begins at the last line that sets the coordinate back, and nothing after it does. |
| StabilityReport.WellFormedExactly | scripts/materials/solver_stability.py:22-26 | A log raises exactly on a time line without a finite nonnegative coordinate and, once an iteration has begun, on a nonfinite or negative diagnostic. |
| SolverStability.ClearExactly | scripts/materials/rae2822_local_time.py:62-64 | The pressure window is reported clear if and only if some suffix of the log since its last restart holds exactly the required number of iterations and no pressure-limit line. |
| SourceStream.FieldReads | scripts/deploy/deployment-source-manifest.py:101-104 | A length-prefixed field is read back whole, whatever bytes follow it. |
| SourceStream.StreamDecodes | scripts/deploy/deployment-source-manifest.py:84-105 | A decoder recovers the list of records from the byte stream fed to the digest. |
| SourceStream.StreamIsInjective | scripts/deploy/deployment-source-manifest.py:84-105 | Different lists of records never feed the digest the same bytes. |
| SourceTree.NothingKept | scripts/deploy/deployment-source-manifest.py:47-59 | Nothing below an excluded directory passes the path filter, so pruning loses nothing. |
| SourceTree.WalkIsFilter | scripts/deploy/deployment-source-manifest.py:62-81 | The pruned walk lists exactly the entries the path filter retains, each once; a link to a directory is judged by the directory rule on its own name. |
| SourceTree.WalkIsFileRuleExactly | scripts/deploy/deployment-source-manifest.py:47-81 | For every tree, the walk lists what the file rule alone would admit if and only if no link to a directory, outside excluded directories, has a name excluded by exactly one of the directory rule and the file rule. |
| SourceTree.RulesDifferExactly | scripts/deploy/deployment-source-manifest.py:47-75 | Entry by entry, walk and file rule differ exactly on such links. |
| SourceTree.ProcessorLinkDropped | scripts/deploy/deployment-source-manifest.py:47-59 | A concrete disagreement: next to anything else, a link to a directory named like a solver's processor directory is dropped by the walk although the file rule admits it. |
| SourceTree.RetainedInFull | scripts/deploy/deployment-source-manifest.py:20-59 | Exactly which regular files are retained: by the four deployment file names and the directory names spelled out, and the two prefixes. |
| SourceManifest.PosixIsInjective | scripts/deploy/deployment-source-manifest.py:81 | Different paths have different names in the stream. |
| SourceManifest.SortedWalk | scripts/deploy/deployment-source-manifest.py:81 | The sorted entries are strictly ordered by path and are exactly the retained ones. |
| SourceManifest.DigestTree | scripts/deploy/deployment-source-manifest.py:84-105 | The one-pass digest and count are those of the record list, and it fails exactly when an entry is unsupported. |
| SourceManifest.SupportedExactly | scripts/deploy/deployment-source-manifest.py:98-99 | Digesting fails if and only if some retained entry is neither a regular file nor a link. |
| SourceManifest.SameStreamExactly | scripts/deploy/deployment-source-manifest.py:84-105 | Two trees feed the digest the same bytes if and only if they have the same retained entries: path, kind, executable bit and payload. |
| SourceManifest.VerifyExactly | scripts/deploy/deployment-source-manifest.py:189-198 | A manifest made from one tree is accepted in another if and only if both retain the same entries, and at least one, the hash telling these two trees apart. |
| SourceManifest.PutEntries | scripts/deploy/deployment-source-manifest.py:131-141 | Writing the manifest leaves every other entry of the tree in place and adds or replaces just that file. |
| SourceManifest.CreateThenVerify | scripts/deploy/deployment-source-manifest.py:171-198 | Create followed by verify succeeds if and only if the manifest path is excluded and something is retained, or the file there was already exactly what create writes, the hash telling the trees before and after apart. |
| SourceManifest.EmptyRootNeverVerifies | scripts/deploy/deployment-source-manifest.py:124-127 | A root that retains nothing gets a manifest whose count of zero every verification refuses, in whatever tree it lies. |
| SourceManifest.EmptyRootIsCreated | scripts/deploy/deployment-source-manifest.py:171-188 | Create does accept such a root: an empty directory. |
| SourceManifest.SomeCodecIsFaithful | scripts/deploy/deployment-source-manifest.py:84-141 | The hypotheses on hash and text form can be met: for any two trees there is a codec that satisfies them. |
| ConformalScale.OrderStatisticIs | scripts/materials/uiuc_family_calibration.py:40 | The r-th smallest score has at least r scores at or below it, fewer than r strictly below it, and is one of the scores. |
| ConformalScale.ThresholdIs | scripts/materials/uiuc_family_calibration.py:29-42 | With enough groups the calibrated scale is that order statistic, zero width included. |
| ConformalScale.CalibratedExactly | scripts/materials/uiuc_family_calibration.py:29-42 | Which calibration is given, by counting: refused on a bad probability, no scores or a negative score; too few groups when the rank exceeds them; otherwise the score with fewer than rank scores below it and at least rank not above it, available unless zero. |
| ConformalScale.LowScoreIsCovered | scripts/materials/uiuc_family_calibration.py:37-40 | A score at most the r-th order statistic of all scores is at most the r-th order statistic of the others. |
| ConformalScale.ConformalCoverage | scripts/materials/uiuc_family_calibration.py:29-42 | For any n + 1 scores with rank ceil((n+1)p) at most n, the set of those at most the scale calibrated on the other n has at least rank members, a share of at least p. |
| ConformalScale.ScalePrior | scripts/materials/uiuc_family_calibration.py:62-76 | Scaling succeeds exactly when every scaled deviation is positive, and changes only the deviations, row by row. |
| ConformalScale.ScaledRowExactly | scripts/materials/uiuc_family_calibration.py:62-76 | When a row can be scaled and what it becomes, written out: lift deviation times the scale, the drag deviation whose log-normal width is scaled, the moment deviation kept, all three positive. |
| ConformalScale.ScoreIsLeastFactor | scripts/materials/uiuc_family_calibration.py:45-59 | A case score is at most v if and only if every row's lift error is within v times 1.96 standard deviations and its log-drag error within v times 1.96 log-normal widths: the largest row decides, and a score of at most one means every row lies in its band. |
| ConformalScale.ScoredExactly | scripts/materials/uiuc_family_calibration.py:45-59 | A case is scored exactly when its rows are complete and not empty, its angles are the prior's, it has no anchors, its drags are positive and no width is zero. |
| ConformalScale.RowScales | scripts/materials/uiuc_family_calibration.py:52-57 | The score of one row under scaled deviations is the original score divided by the scale, the log-normal drag width included. |
| ConformalScale.ScalingDividesScore | scripts/materials/uiuc_family_calibration.py:45-76 | Scaling a prior by s divides the score of its case by exactly s, so the scaled case is covered if and only if its original score is at most s. |
| ConformalScale.LeaveOneOut | scripts/materials/uiuc_family_calibration.py:29-76 | The prior of a case, scaled by the calibration on the other scores, covers the case exactly when the counting guarantee counts it. |
| ProcessorReassembly.Scatter | scripts/materials/audit_pressure_rates.py:103-105 | Writing a processor field through its addressing changes exactly the addressed cells of one field. |
| ProcessorReassembly.AddProcessor | scripts/materials/audit_pressure_rates.py:98-106 | One processor writes all its fields and marks its cells, and fails exactly when one of its fields does not load. |
| ProcessorReassembly.Reassemble | scripts/materials/audit_pressure_rates.py:96-108 | Succeeds if and only if every field loads, addresses are distinct mesh cells, and every mesh cell has exactly one owner; each cell then holds what its owner stores. |
| ProcessorReassembly.LoadConsecutiveStates | scripts/materials/audit_pressure_rates.py:83-113 | The whole operation: accepted exactly when a stored pair of consecutive latest states loads, or else the common latest processor states reassemble and agree with a stored latest one; the result is the stored or the gathered fields. |
| ProcessorReassembly.TimesInFull | scripts/materials/audit_pressure_rates.py:79-95 | Which saved times count, those with all seven field files in the root or in every processor alike, and which two are chosen: the latest, if it follows the one before it directly. |
| ProcessorReassembly.SlotIs | scripts/materials/audit_pressure_rates.py:83-106 | What each of the fourteen results holds: that field of the earlier or later state, a uniform file spread over all cells, a listed one only at its exact length. |
| ProcessorReassembly.ReassemblyUndoesDecomposition | scripts/materials/audit_pressure_rates.py:96-108 | If the processors hold restrictions of global fields, an accepted run returns exactly those global fields. |
| ProcessorReassembly.OrderIrrelevant | scripts/materials/audit_pressure_rates.py:96-108 | Any other order of the processors is accepted alike and yields the same fields. |
| ProcessorReassembly.FaultsAreRefused | scripts/materials/audit_pressure_rates.py:100-108 | A cell claimed twice or by nobody, or an address outside the mesh, is never accepted. |
| UiucBranches.Branches | scripts/materials/uiuc_volume1_reference.py:43-58 | The single pass raises exactly on two adjacent equal angles and otherwise computes the branches defined row by row. |
| UiucBranches.BranchesSplit | scripts/materials/uiuc_volume1_reference.py:43-58 | The branches concatenate to the rows, are nonempty, strictly monotone in their stated direction and alternate, each entered by a step in its own direction. |
| UiucBranches.BranchCount | scripts/materials/uiuc_volume1_reference.py:43-58 | There is one branch more than the sweep changes direction. |
| UiucBranches.SplitIsUnique | scripts/materials/uiuc_volume1_reference.py:43-58 | Any list of branches with those properties is the one the program computes for its rows. |
| UiucVolume.ParseVolume | scripts/materials/uiuc_volume1_reference.py:61-120 | The cursor loops compute the recursive definition of the format. |
| UiucVolume.ReadRun | scripts/materials/uiuc_volume1_reference.py:73-107 | One run: header, declared number of rows, provenance line and branch split, failing on any of them. |
| UiucVolume.RunPrints | scripts/materials/uiuc_volume1_reference.py:73-107 | A parsed run is proper, its declared sample count is the number of its rows, and the lines it was read from are exactly its printed form. |
| UiucVolume.PrintParses | scripts/materials/uiuc_volume1_reference.py:61-120 | The printed form of every well-formed document is parsed back to that document. |
| UiucVolume.ParseExactly | scripts/materials/uiuc_volume1_reference.py:61-120 | The parser returns a document if and only if the lines are the printed form of that well-formed document, every declared run and sample accounted for. |
| UiucVolume.FormatsAre | scripts/materials/uiuc_volume1_reference.py:83-115 | What tells the lift format from the drag format: the announced columns and the ending of the generated file name, in either case. |

## Left out

- Floating-point rounding, NaN and infinity: all arithmetic is over exact reals; an infinite number read from a file is a value of its own where the source tests for it.
- Nonorthogonality of the grid, the PLOT3D reader and the text layout of the mesh files.
- Receipt validators: whether a JSON payload is acceptable is a predicate parameter; duplicate keys and profiles are not modelled.
- Ownership, symbolic-link and mode checks on receipt paths beyond the restriction to mode 0600.
- Power-loss durability of the release switch: its directory syncs are the last step and the model has no durable copy of those directories.
- Release checks that read the file system type and device numbers, and the creation of the legacy parent directory.
- The receipt file of the cutover is absent, unusable or valid; its JSON fields are not modelled, nor is the control plane that issues ids.
- SQL, Docker and archive tools in the reset: the database is a map from tables to rows, digests are the rows themselves, a dump is complete or partial, and sorted table lists are sets.
- The mount inspection of the reset: verified mounts are a parameter, and so are what the database server restores and what other processes do between checks.
- Entropy, viscosity and speed-of-sound models, and the entropy admissibility test of the reference shock: only its enthalpy and jump conditions are modelled.
- The NASA7 validator: that heat capacity exceeds the gas constant over the range is a hypothesis where it is needed.
- ConstantRootIsDensityRatio: the ratio of specific heats is cp/(cp - R); the thermodynamics module is not part of this model.
- The trigonometric identities and monotonicity that `Sound` collects: the functions are parameters, not constructed.
- WeakThermallyPerfect: its deflection curve is a parameter; that the thermally perfect curve is unimodal is a hypothesis of the clauses that need it.
- WeakObliqueShock: takes the target and reports angles in radians, without the conversion from and to degrees; that the angle it settles on exceeds the deflection is not claimed, because only the exact angle does (TurningCurve.TurningBelowAngle) and their gap can be narrower than the last interval when the ratio of specific heats is close to one, so the division by zero stays a possible outcome.
- ExactShockConserves: speaks of an angle that turns the flow by exactly the deflection asked for, which WeakObliqueShock brackets; no bound on the errors at the middle of the bracket is given.
- Direction, out-of-plane and entropy entries of the conservation check, which are not among its conservation laws.
- The sample path between the minimum and the stagnation temperature.
- MeanIsExact: a point a frame does not have counts as zero outside the window; inside it the program checks the sampling.
- Matching log lines against the regular expressions: a line is modelled by the pattern it matches and its numbers.
- Convergence rates parsed from the solver log: only the window's contribution to the verdict is modelled.
- Digesting bytes: the hash gives 64 hexadecimal digits and is assumed not to collide on the two byte streams a theorem compares; paths and payloads are sequences of characters, and directory listings come in any order since the final sort fixes it.
- The command-line parts of the manifest tool, its JSON text beyond a parser that undoes the renderer, and the temporary file it replaces.
- CaseScore: rows of unequal number raise; the broadcasting of a single deviation row is not modelled.
- Family split, archive evaluation and report assembly of the calibration study; groups enter by their scores.
- Rates recomputed from the reassembled states, and dimension or width checks inside a field file, which are one failing case.
- Reading numbers from the text of a UIUC file, the ASCII and size checks, and the archive it comes from: a line is modelled by the form it has.
