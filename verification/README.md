# Verified model of the VVM dynamical framework

This project models the parts of the vector vorticity model whose correctness is a matter of exact
arithmetic, data movement and protocol: how the horizontal domain is split over ranks, how halos are
exchanged over MPI and NCCL, what consumes the decomposition, the in-place numerical loops, and when and
under which names output is written and restarted from.

* **Messages.** `Transport` is a machine of ranks that post, take and wait in any order over ordered
  channels. Every run of it refines lockstep execution, cannot get stuck and ends with an empty network.
  `HaloMpi` instantiates it with tagged messages, `HaloNccl` with untagged groups and combined payloads.
* **Halo exchange.** `Decomposition`, `LocalGrid` and `HaloFaces` give blocks, process grid and face
  buffers; `HaloExchange` proves that an exchange in either axis order copies the wrapped global field into
  every halo cell in reach; `HaloVariants` relates the batched, slice and face forms to it. `HaloKernels`,
  `HaloBatches`, `HaloExchangerMpi` and `HaloExchangerNccl` are the kernels and classes that change buffers
  and fields in memory, proved against these definitions.
* **Consumers.** `OutputWindow` assembles output blocks; `BoundaryDistances` computes distributed prefix
  sums (`Sums`), and `DistributedDistances` the distances to the four edges from the widths and the
  collectives.
* **Numerical loops over the reals.** `ZetaIntegration`, `AdamsBashforth`, `VerticalGrid`, `WallStencils`,
  `DirichletWalls`, `StaggeredTransform`, `VorticityImport`, `BarotropicJet`. Square root and cosine are
  parameters; where used, the square root is assumed to be a positive root of positive numbers and the
  cosine to be positive on the rows.
* **Discrete cores.** `DeterministicPerturbation`, `PresetEnvironment`, `RunLoop`, `RestartTime`,
  `RestartClock`.

A field in memory is a Dafny array; the value it holds is described by a function of its indices, and a
method's contract says which function the arrays hold afterwards. A parallel kernel is a `forall`
statement, for which Dafny requires that iterations write distinct places. Fields of two, three and four
dimensions are all treated as a number of layers of rows and columns. What MPI chooses (the factors of
`MPI_Dims_create`, the coordinates of a rank, the order of deliveries) is a parameter or nondeterministic.

## Where the code does not do what one might expect

Each of these is proved with its exact condition or a witness.

* On a single rank NCCL wraps a bounded axis and MPI leaves it (`HaloNccl.TransportsAgreeExactly`). The
  slice exchange of NCCL does not wrap it, unless an axis is singleton, so there it disagrees with the full
  exchange of its own transport (`HaloVariants.NcclSliceIsFullExactly`, `HaloVariants.SlicesAgreeExactly`).
* The free-slip fill announces even covariant tangential wind. On one rank that owns both walls with exactly
  h physical rows between them, which the width check of the grid accepts, it reads the north wall row
  before clearing it: on a skew chart the outermost south row need not be even, and every other row is
  (`WallStencils.FilledTangentialEven`). A second fill changes that row, and only that row, wherever the
  first read something there (`WallStencils.SecondFillExactly`).
* The wall-value fill on such a rank does not reflect about the north wall in its last row unless the south
  value is zero; on a singleton axis every further call adds the values again (`DirichletWalls`).
* The default vertical grid fails its generator's own check unless its stretching rises at the ground and at
  the top; with dz1 <= dz < 15000 m that is dz1 * 15000 m > dz * dz (`VerticalGrid.DefaultGrid`,
  `VerticalGrid.RisesExactly`). The shifted grid can fail it only when the lowest layer is the thickest or dz
  exceeds the domain height, and exactly when its stretched part stops rising (`VerticalGrid.TaiwanVvmGrid`).
* A time step longer than the output interval leaves gaps in the file numbers (`RunLoop.ConsecutiveExactly`),
  and the initial output of a restart can replace the last file (`RunLoop.InitialOutputOfRestart`).
* The tolerance between stored time and stored step grows with the time, so beyond about half a million steps
  a stored step is accepted that is not the nearest to the stored time
  (`RestartClock.IgnoringKeepsStepExactly`, `RestartClock.AcceptedStepNeedNotBeNearest`).

## Model

| member | source | states |
|---|---|---|
| Transport.RunsRefineLockstep | src/core/haloexchange/HaloExchangerMPI.hpp:473-531 | In every interleaving of posts and deliveries over first-in-first-out channels, a rank that has passed t phases holds its lockstep data, and a message it takes is the one its source packed for it in the same phase |
| Transport.NoRankWaitsForever | src/core/haloexchange/HaloExchangerMPI.hpp:473-531 | No reachable unfinished state is stuck, even if a send completes only when its message is taken |
| Transport.RunsFinish | src/core/haloexchange/HaloExchangerMPI.hpp:473-531 | Every run has at most the planned number of events; one that long has finished with the lockstep data and an empty network |
| Decomposition.BlocksTile | src/core/grid/Grid.cpp:215-245 | The base-plus-remainder blocks tile the axis: each global index lies in exactly one block |
| Decomposition.OnlyBalancedSplit | src/core/grid/Grid.cpp:215-245 | Among all ways to cut an axis into as many blocks, one after the other, exactly this one is balanced: sizes differ by at most one and the longer blocks come first |
| LocalGrid.Grid.ChooseProcesses | src/core/grid/Grid.cpp:80-138 | Which process grid and periodicity result from the extents and from the answer of `MPI_Dims_create`, and that the only failure is a failing answer with both axes extended |
| LocalGrid.Grid.CalculateLocalGridDistribution | src/core/grid/Grid.cpp:80-254 | For any factorisation MPI picks: each failure exactly under its cause, otherwise the stored dimensions are the block of the split at the rank's coordinates, accepted exactly when no extended axis is narrower than the halo |
| LocalGrid.ProcessesAreRanks | src/core/grid/Grid.cpp:93-147 | Unless the domain is one column the process grid has exactly as many places as there are ranks; an axis of one point has one process, and with both axes extended the pair is that of `MPI_Dims_create` |
| LocalGrid.RanksTileDomain | src/core/grid/Grid.cpp:204-245 | So for any factors each horizontal point is in the block of exactly one of the ranks |
| LocalGrid.BlockEncloses | src/core/grid/Grid.cpp:209-245 | A stored dimension runs from its start to its end, and these enclose exactly the points of the block |
| LocalGrid.RadiationNeedsEqualBlocks | src/core/grid/Grid.cpp:170-190 | With radiation on a process grid is refused exactly when two of its ranks would have blocks of different sizes |
| LocalGrid.AllRanksAccept | src/core/grid/Grid.cpp:247-254 | All ranks accept their blocks exactly when the quotient of the split reaches the halo width on every extended axis, and exactly then the layout meets what the exchange needs |
| LocalGrid.LayoutWraps | src/core/grid/Grid.cpp:80-138 | The communicator wraps an axis exactly when the topology does and the axis has more than one point |
| HaloFaces.FaceIndexDecodes | src/core/haloexchange/HaloExchangerMPI.hpp:426-467 | A face cell's flat buffer index is in range and determines the cell, so no two cells share a buffer position |
| HaloFaces.UnpackedFaces | src/core/haloexchange/HaloExchangerMPI.hpp:556-606 | Unpacking packed faces puts into each halo cell within reach the sender's cell of the same line and layer |
| HaloFaces.FilledCopiesOpposite | src/core/haloexchange/HaloExchangeDegenerate.hpp:12-60 | Filling an axis periodically from the block itself copies its opposite physical layers, as unpacking its own faces would |
| HaloFaces.FilledSingleton | src/core/haloexchange/HaloExchangeDegenerate.hpp:12-121 | On a singleton axis the modular fill repeats the one plane in every halo layer of the depth |
| HaloExchange.NeighboursMutual | src/core/haloexchange/HaloExchangerMPI.hpp:323-324 | Neighbourhood is symmetric on every axis, also where both neighbours are one rank or the rank itself |
| HaloExchange.ExchangeFillsHalos | src/core/haloexchange/HaloExchangerMPI.hpp:43-54 | For every decomposition, depth d up to the halo and either axis order: each cell within d of a rank's physical box, corners included, holds the global field at the wrapped global index |
| HaloExchange.ExchangeKeepsRest | src/core/haloexchange/HaloExchangerMPI.hpp:43-54 | Physical cells, and cells farther from the box than the depth, are unchanged |
| HaloExchange.HomeIsGlobal | src/core/haloexchange/HaloExchangerMPI.hpp:523-606 | The cell a halo position is copied from is the physical cell of the wrapped global index; past a bounded edge a position is its own |
| HaloMpi.PhaseAgrees | src/core/haloexchange/HaloExchangerMPI.hpp:20-29 | A posted send meets a posted receive exactly if the peer and the tag belong together, on two-rank and one-rank axes too |
| HaloMpi.AnyRunOfExchanges | src/core/haloexchange/HaloExchangerMPI.hpp:473-531 | At any point of any run of any program of exchanges a rank holds exactly the phase-by-phase result, and until all have finished some rank can move |
| HaloMpi.NetworkEndsEmpty | src/core/haloexchange/HaloExchangerMPI.hpp:473-531 | A finished run leaves no message on any channel, so every receive matched exactly one send |
| HaloMpi.ExchangesEnd | src/core/haloexchange/HaloExchangerMPI.hpp:473-531 | No run is longer than the fixed number of events of its program, and one that long has finished |
| HaloMpi.MpiExchangeFillsHalos | src/core/haloexchange/HaloExchangerMPI.hpp:43-54 | The message-passing form of the central property: `exchange_halos` by all ranks in any interleaving leaves the wrapped global field in every halo cell in reach |
| HaloNccl.OneMessagePerPair | src/core/haloexchange/HaloExchangerNCCL.hpp:1349-1446 | In one group a rank is sent at most one message: x and y neighbours never coincide except as the rank itself, and two faces for one peer are combined |
| HaloNccl.GroupsAgree | src/core/haloexchange/HaloExchangerNCCL.hpp:1422-1446 | Without tags, a group's send to a rank meets that rank's receive in the same group |
| HaloNccl.BuffersArrive | src/core/haloexchange/HaloExchangerNCCL.hpp:1349-1446 | After the group and its ordered copies each receive buffer holds the face of its own side, the combined payload of a two-rank axis included |
| HaloNccl.AnyRunOfGroups | src/core/haloexchange/HaloExchangerNCCL.hpp:1422-1620 | At any point of any run a rank holds the phase-by-phase result; some rank can move until all have finished; a finished run leaves no message |
| HaloNccl.NcclExchangeFillsHalos | src/core/haloexchange/HaloExchangerNCCL.hpp:1208-1620 | The untagged exchange meets the same global-field specification, for the layout it effectively exchanges |
| HaloNccl.TransportsAgreeExactly | src/core/haloexchange/HaloExchangerNCCL.hpp:1240-1347 | MPI and NCCL leave the same values for every field exactly when the exchange is empty or no single rank holds a bounded axis of more than one point |
| HaloNccl.BoundedSingleRankDiffers | src/core/haloexchange/HaloExchangerNCCL.hpp:1240-1347 | The witness: on one rank the halo below a bounded axis keeps its value under MPI and is wrapped by NCCL |
| HaloNccl.LocalFillIsSelfExchange | src/core/haloexchange/HaloExchangerNCCL.hpp:1240-1347 | On one rank the local kernels leave what receiving one's own faces would |
| HaloVariants.BatchedFaceIsFaces | src/core/haloexchange/HaloExchangerMPI.hpp:841-960 | The part of a batched send buffer at a field's slot is exactly that field's face |
| HaloVariants.BatchIsSeparateExchanges | src/core/haloexchange/HaloExchangerMPI.hpp:841-1085 | Exchanging n fields together, in either axis order, equals n separate exchanges y first |
| HaloVariants.SliceIsOneLayer | src/core/haloexchange/HaloExchangerMPI.hpp:1087-1298 | The slice exchange leaves its layer as the full exchange does and changes no other layer |
| HaloVariants.NcclSliceIsOneLayer | src/core/haloexchange/HaloExchangerNCCL.hpp:1721-1958 | The NCCL slice exchange, too, leaves its layer as a full exchange of its layout does and changes no other layer |
| HaloVariants.SlicesAgreeExactly | src/core/haloexchange/HaloExchangerNCCL.hpp:1721-1958 | The slice exchanges of both transports leave the same values for every field exactly when there are no halos, both axes are extended, or no single rank holds a bounded axis |
| HaloVariants.NcclSliceIsFullExactly | src/core/haloexchange/HaloExchangerNCCL.hpp:1721-1958 | Within NCCL the slice agrees with the full exchange for every field exactly when there are no halos, an axis is singleton, or no single rank holds a bounded axis |
| HaloVariants.MpiFacesAgree | src/core/haloexchange/HaloExchangerMPI.hpp:56-65 | The face exchange agrees with the full exchange in every cell off the corners, singleton axes included |
| HaloVariants.NcclFacesAgree | src/core/haloexchange/HaloExchangerNCCL.hpp:974-1135 | The joint NCCL face exchange agrees with the full one off the corners and leaves the corners alone where both axes are active |
| HaloVariants.BatchFillsHalos | src/core/haloexchange/HaloExchangerMPI.hpp:841-1085 | Each field of a batch that starts from a global one ends with the wrapped global field in every cell within the depth, corners included, in either axis order |
| HaloVariants.SliceFillsHalos | src/core/haloexchange/HaloExchangerMPI.hpp:1087-1298 | The slice exchange of a global field fills the whole halo of its layer with the wrapped global field |
| HaloVariants.MpiFacesFillHalos | src/core/haloexchange/HaloExchangerMPI.hpp:56-65 | The face exchange fills the halo off the corners with it, to its depth |
| HaloVariants.NcclFacesFillHalos | src/core/haloexchange/HaloExchangerNCCL.hpp:974-1135 | The NCCL faces fill the same cells, for the layout that transport exchanges |
| HaloKernels.PackX | src/core/haloexchange/HaloExchangerMPI.hpp:426-467 | The pack kernel, in place: the slot of the buffer becomes the face, everything else in the buffer stays |
| HaloKernels.UnpackX | src/core/haloexchange/HaloExchangerMPI.hpp:556-606 | The unpack kernel, in place: the field becomes the unpacked block, sides without a neighbour untouched |
| HaloKernels.FillX | src/core/haloexchange/HaloExchangeDegenerate.hpp:12-60 | The periodic fill kernel, in place; its iterations write distinct cells and read only physical ones |
| HaloKernels.FaceIndexBijects | src/core/haloexchange/HaloExchangerMPI.hpp:426-467 | The flat index is one-to-one on the face cells, which makes the parallel kernels free of races |
| HaloKernels.FaceIndexOnto | src/core/haloexchange/HaloExchangerMPI.hpp:426-467 | Every position of the counted buffer is the index of the face cell it decodes to |
| HaloExchangerMpi.HaloExchanger.PostExchangeHaloX | src/core/haloexchange/HaloExchangerMPI.hpp:385-520 | Posting packs both faces into the send buffers and leaves the field, or fills a singleton axis at once |
| HaloExchangerMpi.HaloExchanger.WaitExchangeHaloX | src/core/haloexchange/HaloExchangerMPI.hpp:522-606 | Waiting unpacks what arrived; without posted requests nothing happens |
| HaloExchangerMpi.HaloExchanger.ExchangeHalos | src/core/haloexchange/HaloExchangerMPI.hpp:43-54 | The whole call in place, y then x: the field ends as the two phases leave it |
| HaloExchangerMpi.HaloExchanger.CallFillsHalos | src/core/haloexchange/HaloExchangerMPI.hpp:43-54 | Ranks that start from their parts of a global field and call with the same depth end with the wrapped global field in every cell within it, corners included; the default -1 is the whole halo width |
| HaloExchangerMpi.HaloExchanger.ExchangeScattered | src/core/haloexchange/HaloExchangerMPI.hpp:385-531 | The same in place: the buffers hold the faces the neighbours are to receive, and the array ends holding the global field in all layers and all its halo |
| HaloExchangerMpi.HaloExchanger.MethodsFollowPlan | src/core/haloexchange/HaloExchangerMPI.hpp:43-54 | The methods pack the messages and unpack the mail of the protocol plan |
| HaloExchangerMpi.BufferHoldsFaces | src/core/haloexchange/HaloExchangerMPI.hpp:326-371 | The preallocated buffers hold the faces of a field at any depth up to the halo |
| HaloBatches.PackSlots | src/core/haloexchange/HaloExchangerMPI.hpp:841-930 | Packing all fields of a batch leaves in the buffer the faces slot by slot |
| HaloBatches.UnpackSlots | src/core/haloexchange/HaloExchangerMPI.hpp:960-1085 | Unpacking a batch changes each field by its own slot only |
| HaloBatches.SlotsDoNotInterfere | src/core/haloexchange/HaloExchangerMPI.hpp:841-1085 | Each field receives exactly the faces of the same field of the senders |
| HaloExchangerNccl.AxisBuffers.Swap | src/core/haloexchange/HaloExchangerNCCL.hpp:1349-1446 | The ordered deep copies of an axis, in place, put each half of a combined payload in the correct receive buffer |
| HaloExchangerNccl.ExchangeAxis | src/core/haloexchange/HaloExchangerNCCL.hpp:1349-1525 | Pack, swap and unpack along one axis: what is sent is the plan's payload, and the block ends as the plan unpacks it |
| HaloExchangerNccl.ExchangeSingleRank | src/core/haloexchange/HaloExchangerNCCL.hpp:1227-1347 | The whole call on a single rank, in place: the modular fills if an axis is singleton, else the copies of the opposite layers |
| HaloExchangerNccl.LocalExchangeIsPlan | src/core/haloexchange/HaloExchangerNCCL.hpp:1227-1347 | What these local kernels leave is the exchange of the plan, so it meets the same specification |
| OutputWindow.Clip | src/io/OutputManager.cpp:382-398 | The clipped start and count cover exactly the rank's indices inside the window, an empty overlap included |
| OutputWindow.OutputManager.Write | src/io/OutputManager.cpp:513-545 | The buffer and start written cover exactly the rank's window cells and hold, for each, the halo-offset local cell |
| OutputWindow.WindowIsTiled | src/io/OutputManager.cpp:361-419 | Each window cell of the domain is written by exactly one rank, no other cell by any |
| OutputWindow.FileIsGlobalWindow | src/io/OutputManager.cpp:513-545 | Assembled from all ranks the file is the global field restricted to the window, and nothing else |
| BoundaryDistances.ScanIsPrefix | src/core/geometry/HorizontalBoundaryDistances.hpp:112-122 | The exclusive scan along a line of ranks is the serial prefix of the global spacing |
| BoundaryDistances.CollectedIsScan | src/core/geometry/HorizontalBoundaryDistances.hpp:90-110 | Adding gathered values in any order of the ranks gives the scan and the total |
| BoundaryDistances.FromPackets | src/core/geometry/HorizontalBoundaryDistances.hpp:72-110 | The gathered form, with padded uneven packets in any rank order, gives the scan offsets and totals of every line |
| BoundaryDistances.FromScans | src/core/geometry/HorizontalBoundaryDistances.hpp:112-126 | The scan form, with the undefined scan of the first rank replaced by zero, gives the same |
| BoundaryDistances.PaddingSuffices | src/core/geometry/HorizontalBoundaryDistances.hpp:78-86 | No block of an uneven split is longer than the padding of the packet |
| BoundaryDistances.AlongAxis | src/core/geometry/HorizontalBoundaryDistances.hpp:128-145 | Every rank's arrays end with the serial half-cell prefix sums of the global spacing from the low end, and the total less them from the high end |
| BoundaryDistances.EndsAddUp | src/core/geometry/HorizontalBoundaryDistances.hpp:128-145 | West plus east, and south plus north, equal the line's total |
| DistributedDistances.PacketIsPacket | src/core/geometry/HorizontalBoundaryDistances.hpp:78-87 | The packet every rank builds has the common size and holds its coordinates, its row sums and its column sums at the places they are read from |
| DistributedDistances.InitializeGathered | src/core/geometry/HorizontalBoundaryDistances.hpp:60-145 | From the widths a rank holds and the packets of all ranks in any order to the four distance fields: the serial half-cell distances of each cell's global line from both ends |
| DistributedDistances.InitializeScanned | src/core/geometry/HorizontalBoundaryDistances.hpp:60-145 | The same from the exclusive scans and the totals along both axes |
| DistributedDistances.AcrossRow | src/core/geometry/HorizontalBoundaryDistances.hpp:60-145 | What the fields from west and east then hold: the widths of the cell's global row before it and half its own, and half its own and the widths after it |
| DistributedDistances.AcrossColumn | src/core/geometry/HorizontalBoundaryDistances.hpp:60-145 | The same from south and north along the cell's global column |
| DeterministicPerturbation.MixIsBijection | src/dynamics/forcings/DeterministicPerturbation.hpp:11-17 | The mixer is a bijection of the 64-bit words, with an explicit inverse |
| DeterministicPerturbation.RandomBijectsI | src/dynamics/forcings/DeterministicPerturbation.hpp:19-30 | For any other arguments the bits are a bijection of the last index |
| DeterministicPerturbation.RandomBijectsJ | src/dynamics/forcings/DeterministicPerturbation.hpp:19-30 | And of the row |
| DeterministicPerturbation.RandomBijectsK | src/dynamics/forcings/DeterministicPerturbation.hpp:19-30 | And of the level |
| DeterministicPerturbation.RandomBijectsStep | src/dynamics/forcings/DeterministicPerturbation.hpp:19-30 | And of the step |
| DeterministicPerturbation.RandomInjectiveInSeed | src/dynamics/forcings/DeterministicPerturbation.hpp:19-30 | Different seeds give different bits |
| DeterministicPerturbation.EquidistributedI | src/dynamics/forcings/DeterministicPerturbation.hpp:19-45 | Over all values of the last index the bits give every 53-bit unit value exactly 2048 times |
| DeterministicPerturbation.EquidistributedJ | src/dynamics/forcings/DeterministicPerturbation.hpp:19-45 | Over all values of the row the bits give every 53-bit unit value exactly 2048 times |
| DeterministicPerturbation.EquidistributedK | src/dynamics/forcings/DeterministicPerturbation.hpp:19-45 | Over all values of the level the bits give every 53-bit unit value exactly 2048 times |
| DeterministicPerturbation.EquidistributedStep | src/dynamics/forcings/DeterministicPerturbation.hpp:19-45 | Over all values of the step the bits give every 53-bit unit value exactly 2048 times |
| DeterministicPerturbation.Equidistributed24I | src/dynamics/forcings/DeterministicPerturbation.hpp:19-45 | In single precision the values of the last index that give a 24-bit unit value correspond one to one to the 40-bit words dropped |
| DeterministicPerturbation.Equidistributed24J | src/dynamics/forcings/DeterministicPerturbation.hpp:19-45 | In single precision the values of the row that give a 24-bit unit value correspond one to one to the 40-bit words dropped |
| DeterministicPerturbation.Equidistributed24K | src/dynamics/forcings/DeterministicPerturbation.hpp:19-45 | In single precision the values of the level that give a 24-bit unit value correspond one to one to the 40-bit words dropped |
| DeterministicPerturbation.Equidistributed24Step | src/dynamics/forcings/DeterministicPerturbation.hpp:19-45 | In single precision the values of the step that give a 24-bit unit value correspond one to one to the 40-bit words dropped |
| DeterministicPerturbation.SignedUnitRange | src/dynamics/forcings/DeterministicPerturbation.hpp:32-45 | The signed value lies in [-1, 1), in both precisions |
| DeterministicPerturbation.SignedUnitOfBits | src/dynamics/forcings/DeterministicPerturbation.hpp:32-46 | The value raised by one is the number in the leading 53 or 24 bits, in units of 2^-52 or 2^-23 |
| DeterministicPerturbation.SignedUnitsApart53 | src/dynamics/forcings/DeterministicPerturbation.hpp:32-46 | Two words give the same value exactly if their leading 53 bits are equal |
| DeterministicPerturbation.SignedUnitsApart24 | src/dynamics/forcings/DeterministicPerturbation.hpp:32-46 | In single precision exactly if their leading 24 bits are |
| DeterministicPerturbation.KnownBits | tests/unit/test_deterministic_perturbation.cpp:11-13 | The three words the unit test of the source expects |
| VerticalGrid.ShiftInterfaces | tools/generate_ls_forcing.py:173-178 | The nested loops over interfaces and metric coefficients, in place, are repeated passes: from its centre up each height is the one below it a layer higher, each coefficient the one below it |
| VerticalGrid.InterfacesShifted | tools/generate_ls_forcing.py:173-178 | Such passes give the closed form: uniform layers below, the stretched profile carried up above |
| VerticalGrid.CoefficientsShifted | tools/generate_ls_forcing.py:173-178 | The same for the metric coefficients |
| VerticalGrid.ShiftMidpoints | tools/generate_ls_forcing.py:182-187 | The passes over the midpoints, in place, whose centres lie one level higher |
| VerticalGrid.MidpointsShifted | tools/generate_ls_forcing.py:182-187 | They give the closed form of the midpoints |
| VerticalGrid.MidpointsInterlace | tools/generate_ls_forcing.py:165-193 | With dz1 < dz below the domain height, after any number of passes each midpoint lies strictly between its two interfaces |
| VerticalGrid.InterfacesIncrease | tools/generate_ls_forcing.py:165-178 | There the interfaces strictly increase |
| VerticalGrid.TaiwanVvmGrid | tools/generate_ls_forcing.py:165-198 | The shifted grid for all spacings: interfaces, midpoints and coefficients in closed form, the replaced one included; the generator's check accepts it exactly when no stretched interface is left on the grid or the stretching rises at the first interface and at the one shifted to the top |
| VerticalGrid.ThinLayersAccepted | tools/generate_ls_forcing.py:165-198 | With dz1 < dz below the domain height that is always |
| VerticalGrid.LayersOf | tools/generate_ls_forcing.py:165-178 | What such interfaces are: the ground at zero, the lowest m + 1 layers dz1 thick after m passes, and from there up each layer thicker than the one below by 2 dz (dz - dz1) / (15000 - dz) |
| VerticalGrid.MiddlesOf | tools/generate_ls_forcing.py:179-187 | The midpoints are the middles of the lowest m + 1 layers and lie off the middle of the stretched ones by a constant, a quarter of dz (dz - dz1) / (15000 - dz) |
| VerticalGrid.CoefficientsOf | tools/generate_ls_forcing.py:172-191 | The metric coefficients are dz over the layer in the uniform layers, dz over the distance of the midpoints at the replaced interface, and the reciprocal slope of the stretching above |
| VerticalGrid.UniformLayersReach | tools/generate_ls_forcing.py:171-171 | For every height the count of layers is the n with n dz1 above the height less a thousandth of dz1 and (n - 1) dz1 not |
| VerticalGrid.ForcingLayersReach | tools/generate_ls_forcing.py:169-173 | The number of uniform layers is the one that reaches the stretched height below half the domain, up to a thousandth of a layer, while one fewer does not; all but two take a pass |
| VerticalGrid.DefaultGrid | tools/generate_ls_forcing.py:160-198 | For every dz other than the domain height the default grid is the stretched one, and passes the generator's check exactly when its stretching rises at the ground and at the top interface |
| VerticalGrid.DefaultOf | tools/generate_ls_forcing.py:160-164 | What the default grid is: layers growing by a constant from dz1, midpoints off the middle by a constant, coefficients the reciprocal slopes |
| VerticalGrid.RisesExactly | tools/generate_ls_forcing.py:150-164 | With dz1 <= dz below the domain height that is: dz1 times the domain height exceeds dz squared |
| VerticalGrid.VvmVerticalGrid | tools/generate_ls_forcing.py:141-198 | For every input the error it raises, the divisions by zero included, or that the grid of the named type is built |
| VerticalGrid.InitialInterfaces | tools/generate_init_nc.py:280-308 | The other generator's interfaces, in closed form, by its own pass count |
| VerticalGrid.InitLayersReach | tools/generate_init_nc.py:297-303 | Its uniform layers reach the height of the same interface, or of its own top one if that is lower |
| VerticalGrid.GeneratorsAgreeExactly | tools/generate_init_nc.py:280-308 | With dz1 < dz below the domain height the two generators give the same physical interfaces exactly when they take the same number of passes or the uniform layers reach the top; in particular whenever half the domain lies on the grid |
| PresetEnvironment.ParseKeepsText | tools/ci/ci_runner_env.py:35-51 | Splitting a value into text and macros loses nothing |
| PresetEnvironment.FailsExactlyOnCycles | tools/ci/ci_runner_env.py:37-51 | Resolution, which always terminates, fails exactly when a cycle of references is reachable from the key |
| PresetEnvironment.ValueIndependentOfChain | tools/ci/ci_runner_env.py:37-51 | Whenever it succeeds the value does not depend on the chain it was called with |
| PresetEnvironment.ValuesSolveEquations | tools/ci/ci_runner_env.py:43-51 | Each value is its text with the values of the keys it refers to |
| PresetEnvironment.EnvironmentRead | tools/ci/ci_runner_env.py:35-35 | Text that begins with `$env{`, a name without closing brace and `}` is read as a reference to the environment |
| PresetEnvironment.ParentRead | tools/ci/ci_runner_env.py:35-35 | With `$penv{` as one to the parent environment |
| PresetEnvironment.TextRead | tools/ci/ci_runner_env.py:35-35 | Any other text is kept as it stands, one character at a time |
| PresetEnvironment.ReadsEnvironment | tools/ci/ci_runner_env.py:46-51 | An entry with `$env{NAME}` has the value of that key in its place |
| PresetEnvironment.ReadsParent | tools/ci/ci_runner_env.py:46-51 | One with `$penv{NAME}` has the inherited value there, or nothing, whatever the preset's own entries |
| PresetEnvironment.ReadsBuiltIns | tools/ci/ci_runner_env.py:43-44 | `${sourceDir}` and `${presetName}` stand for the source directory and the preset's name |
| PresetEnvironment.OwnEntryFirst | tools/ci/ci_runner_env.py:40-42 | A preset's own entry comes before the inherited one, a null entry is empty even so, and an unknown key is empty |
| PresetEnvironment.PresetEnvironment | tools/ci/ci_runner_env.py:32-53 | The whole call: an error exactly if a cycle is reachable from some non-null entry, else all values |
| ZetaIntegration.IntegrateColumn | src/dynamics/DynamicalCore.cpp:533-548 | One column in place: every level one step of the recurrence apart, the top physical level and all other cells kept |
| ZetaIntegration.ComputeZeta | src/dynamics/DynamicalCore.cpp:531-548 | Afterwards the divergence of (xi, -eta, zeta) vanishes at every level h-1..nz-h-1 of every interior column; nothing else changes |
| ZetaIntegration.BalancedColumn | src/dynamics/DynamicalCore.cpp:531-548 | Over each such level zeta times the metric coefficient changes by dz times what eta gains to the next row less what xi gains to the next column |
| ZetaIntegration.SumsConserved | src/dynamics/DynamicalCore.cpp:531-548 | On a torus, zero divergence of a level makes the horizontal sums of zeta on both sides equal |
| ZetaIntegration.GlobalSumsConserved | src/dynamics/DynamicalCore.cpp:531-548 | Balanced blocks with exchanged halos on a doubly periodic domain have the same global sum of zeta at every level |
| ZetaIntegration.IntegrationConservesSums | src/dynamics/DynamicalCore.cpp:531-548 | When all ranks of such a domain have exchanged xi and eta and integrated, the horizontal sum of zeta over the domain is the same at every level from the lowest to the top one |
| AdamsBashforth.SteppedClosedForm | src/dynamics/DynamicalCore.cpp:717-751 | The two-slot recurrence has the closed form: every tendency once, plus half of latest minus first |
| AdamsBashforth.LinearTendency | src/dynamics/DynamicalCore.cpp:717-751 | Under a tendency linear in time the wind of n steps is exactly its integral, less the half increment the forward start misses |
| AdamsBashforth.TendencyBalances | src/dynamics/DynamicalCore.cpp:719-729 | The tendency, times four and the density, is the flux divergence of advection less that of turbulence, and the Coriolis term with the sign of its component |
| AdamsBashforth.TopWind.Update | src/dynamics/DynamicalCore.cpp:717-751 | In an uninterrupted run the other slot holds exactly the previous tendency, and the wind is the closed form |
| AdamsBashforth.ComputeUVTopMean | src/dynamics/DynamicalCore.cpp:704-751 | Both components in one step, each from its own tendency with its own sign of the Coriolis mean |
| WallStencils.FillContravariantWindHalos | src/core/boundary/HorizontalBoundaryStencils.hpp:280-339 | The fill in place, south wall first; no change without halos, on a singleton axis, or when mismatched extents make it fail |
| WallStencils.FilledFluxOdd | src/core/boundary/HorizontalBoundaryStencils.hpp:308-321 | After the fill the physical normal flux is odd about each wall the rank owns and zero on it |
| WallStencils.FilledTangentialEven | src/core/boundary/HorizontalBoundaryStencils.hpp:322-337 | The covariant tangential wind, four-face cross term included, is even about each wall in every row; in the one row of a narrow rank that reads the opposite wall, exactly when that wall's row leaked nothing into it |
| WallStencils.PhysicalTangentialEven | src/core/boundary/HorizontalBoundaryStencils.hpp:330-333 | With the scaling of scalar transport the physical tangential flux is even instead |
| WallStencils.CovariantFromFaces | src/core/geometry/StaggeredVectorTransform.hpp:13-24 | The covariant wind at a face is g11 times the first component plus a quarter of the weighted second one at the face, a row below, a column right and the one below that; at the lowest row and the last column the face itself counts again |
| WallStencils.SouthFluxReflected | src/core/boundary/HorizontalBoundaryStencils.hpp:300-321 | A south wall: the second component vanishes on row h - 1, and rows as far below and above it carry opposite physical normal fluxes |
| WallStencils.NorthFluxReflected | src/core/boundary/HorizontalBoundaryStencils.hpp:300-321 | A north wall: the same about row ny - h - 1, up to the outermost row |
| WallStencils.SouthWindReflected | src/core/boundary/HorizontalBoundaryStencils.hpp:322-337 | A south wall: rows a and 2h - 1 - a have equal covariant winds, per root of g11 for scalar transport; where a north wall stands h rows away, the outermost row exactly if that wall's two faces added nothing |
| WallStencils.NorthWindReflected | src/core/boundary/HorizontalBoundaryStencils.hpp:322-337 | A north wall: the same for every row and its mirror about row ny - h - 1/2 |
| WallStencils.FillKeepsRest | src/core/boundary/HorizontalBoundaryStencils.hpp:280-339 | Every other face keeps its value |
| WallStencils.NarrowRankExactlyLeaks | src/core/boundary/HorizontalBoundaryStencils.hpp:300-339 | With exactly h rows between both walls of one rank, which the grid accepts, the outermost south row ends even exactly when the unfilled north wall row contributed nothing to the cross term |
| WallStencils.SecondFillExactly | src/core/boundary/HorizontalBoundaryStencils.hpp:280-339 | A second fill leaves every cell, except in that one row of a narrow rank, which it leaves exactly where the wall row leaked nothing the first time |
| WallStencils.SecondFillChangesNothing | src/core/boundary/HorizontalBoundaryStencils.hpp:280-339 | So a second fill changes no cell exactly when the rank has one wall or more than h rows between its two, or the north wall row leaked nothing into any column |
| DirichletWalls.FillDirichlet | src/core/boundary/HorizontalBoundaryStencils.hpp:549-575 | The wall-value fill in place, with its early return on a singleton axis |
| DirichletWalls.FillReflects | src/core/boundary/HorizontalBoundaryStencils.hpp:170-272 | Each wall row takes the wall value and mirror rows average to it, except where a halo row mirrors the opposite wall: there exactly when that wall's value is zero |
| DirichletWalls.SouthWallReflects | src/core/boundary/HorizontalBoundaryStencils.hpp:243-257 | A south wall: row h - 1 takes the value and rows as far below and above it average to it |
| DirichletWalls.NorthWallReflects | src/core/boundary/HorizontalBoundaryStencils.hpp:260-273 | A north wall: the same about row ny - h - 1, and the exact exception where the mirror row is a south wall |
| DirichletWalls.FillKeepsRest | src/core/boundary/HorizontalBoundaryStencils.hpp:549-575 | The rows between the walls keep their values |
| DirichletWalls.SinglePointAdds | src/core/boundary/HorizontalBoundaryStencils.hpp:549-575 | On a singleton axis each value is added once on its wall row and twice behind it |
| DirichletWalls.SecondFill | src/core/boundary/HorizontalBoundaryStencils.hpp:549-575 | A second fill changes no cell, on a singleton axis exactly when both values are zero |
| StaggeredTransform.TransformIsAdditive | src/core/geometry/StaggeredVectorTransform.hpp:26-88 | The transform of a sum is the sum of the transforms |
| StaggeredTransform.ImportsAddUp | src/core/geometry/StaggeredVectorTransform.hpp:26-88 | Any run of imports equals one import of the total increment |
| StaggeredTransform.ZeroImportsNothing | src/dynamics/DynamicalCore.cpp:362-379 | Zero increments leave every canonical cell unchanged |
| StaggeredTransform.FastPathRefines | src/core/geometry/StaggeredVectorTransform.hpp:44-61 | On a diagonal chart the fast path and the general kernel agree, for every sign and however the zeros are stored |
| StaggeredTransform.DiagonalRoundTrip | src/core/geometry/StaggeredVectorTransform.hpp:26-88 | On a diagonal chart physical to contravariant to physical is the identity cell by cell |
| StaggeredTransform.BasisInverts | src/core/geometry/AffineGeometry.hpp:65-88 | The two basis matrices of an affine chart are inverse to each other |
| StaggeredTransform.CrossAtU | src/core/geometry/StaggeredVectorTransform.hpp:13-24 | The cross term at a U face is the mean of the weighted source over its own row and the one below, its own column and the one to the right; at the edges the nearest face counts again |
| StaggeredTransform.CrossAtV | src/core/geometry/StaggeredVectorTransform.hpp:13-24 | At a V face over its own row and the one above, its own column and the one to the left |
| StaggeredTransform.TransformFromU | src/core/geometry/StaggeredVectorTransform.hpp:62-88 | In the interior a transform whose first component sits at U is these sums with its coefficients and sign, face by face |
| StaggeredTransform.TransformFromV | src/core/geometry/StaggeredVectorTransform.hpp:62-88 | The same for a first component at V |
| StaggeredTransform.FilterIsStencil | src/core/geometry/StaggeredVectorTransform.hpp:13-24 | Averaging to the other faces and back is in the interior the one-two-one filter along both axes |
| StaggeredTransform.PhysicalOfUniform | src/core/geometry/AffineGeometry.hpp:65-88 | A uniform contravariant pair becomes the physical vector it describes in the basis of the chart |
| StaggeredTransform.MetricMeasures | src/core/geometry/AffineGeometry.hpp:65-88 | The covariant metric gives the squared length of that vector |
| StaggeredTransform.MetricsInvert | src/core/geometry/AffineGeometry.hpp:65-88 | The metric and the density metric are inverse up to the determinant |
| StaggeredTransform.AffineRoundTrip | src/core/geometry/StaggeredVectorTransform.hpp:13-24 | On an affine chart a component comes back changed by a fixed multiple of what averaging it twice changes, clamped edges and both signs included |
| StaggeredTransform.AffineRoundTripExactly | src/core/geometry/StaggeredVectorTransform.hpp:13-88 | So the round trip is the identity at a face exactly when the chart does not mix or the double average leaves the face alone |
| StaggeredTransform.UniformPairComesBack | src/core/geometry/StaggeredVectorTransform.hpp:13-88 | Uniform fields come back unchanged on every affine chart, at clamped edges too |
| VorticityImport.TransformStaggeredVector | src/core/geometry/StaggeredVectorTransform.hpp:26-88 | The kernels in place, assigned or added, write exactly the transform |
| VorticityImport.DynamicalCore.BeginPhysicalVorticityUpdate | src/dynamics/DynamicalCore.cpp:335-347 | Saves the physical pair where the chart keeps a copy |
| VorticityImport.DynamicalCore.FinishPhysicalVorticityUpdate | src/dynamics/DynamicalCore.cpp:349-379 | Imports the change since the copy; without copies a Cartesian chart takes the physical pair and any other keeps the canonical one; zeta is copied always |
| VorticityImport.DynamicalCore.FinishedReads | src/dynamics/DynamicalCore.cpp:349-379 | In the interior, face by face: the canonical value plus the weighted physical increment less a quarter of the other component's four weighted increments, a V face reading its own row and the one above |
| VorticityImport.NoChangeImportsNothing | src/dynamics/DynamicalCore.cpp:362-379 | Physics that changes nothing leaves every canonical cell, so the import does not filter the canonical state |
| VorticityImport.UpdatesTelescope | src/dynamics/DynamicalCore.cpp:335-379 | A run of updates with nothing in between imports the overall physical change once |
| BarotropicJet.ClosesExactlyForHarmonic | src/core/initialization/InitializeBarotropic.cpp:86-102 | On a periodic axis the streamfunction closes for one harmonic amplitude only, the one the code removes |
| BarotropicJet.PsiPrefix | src/core/initialization/InitializeBarotropic.cpp:84-102 | The accumulated prefix: zero at the start, at the end zero on a periodic axis, in a channel minus radius times spacing times the summed jet |
| BarotropicJet.StepOfRow | src/core/initialization/InitializeBarotropic.cpp:95-102 | A row adds minus radius times spacing times the jet at its middle, and on a periodic axis the spacing times the amplitude over the cosine there |
| BarotropicJet.AmplitudeBalances | src/core/initialization/InitializeBarotropic.cpp:86-94 | The amplitude times the summed reciprocal lengths is the summed jet |
| BarotropicJet.InverseScaleOfRow | src/core/initialization/InitializeBarotropic.cpp:90-90 | The reciprocal length of a row is that of radius times cosine at its middle |
| BarotropicJet.RowsDifferByStep | src/core/initialization/InitializeBarotropic.cpp:125-147 | Stored neighbouring rows, halo rows and the periodic seam included, differ by the row's own step; outside channel walls not at all |
| BarotropicJet.CurlSum | src/core/initialization/InitializeBarotropic.cpp:126-136 | The cosine-weighted sum of the discrete curl vanishes on a periodic axis; in a channel it is what the ends differ by |
| BarotropicJet.CurlIgnoresHarmonic | src/core/initialization/InitializeBarotropic.cpp:126-136 | Removing the harmonic part leaves the discrete curl, so the stored curl is that of the wind the streamfunction describes |
| BarotropicJet.WindOfRow | src/core/initialization/InitializeBarotropic.cpp:130-132 | The wind of a row is the jet at its middle, an odd number of half spacings above the south end |
| BarotropicJet.CurlOfRow | src/core/initialization/InitializeBarotropic.cpp:130-136 | The curl of a row times the area at its north face is the row's momentum at its middle less that of the next row, the first after the last on a periodic axis |
| BarotropicJet.StoredRow | src/core/initialization/InitializeBarotropic.cpp:126-129 | Stored row j is global row start + j - h, whole turns removed on a periodic axis |
| BarotropicJet.VanishesAtSouthEnd | src/core/initialization/InitializeBarotropic.cpp:125-147 | The streamfunction stored below row 0 is zero |
| BarotropicJet.FillRows | src/core/initialization/InitializeBarotropic.cpp:125-152 | Every row of a rank holds streamfunction, wind and curl of its global row |
| BarotropicJet.FillVolumes | src/core/initialization/InitializeBarotropic.cpp:125-152 | Every level of the three-dimensional fields holds the row's wind, and its curl with the perturbation of the column |
| RunLoop.Simulation.Simulate | src/main.cpp:412-455 | The loop in place is the iterated step of the model, ends at the first time past the end, and always terminates |
| RunLoop.StepKeepsSchedule | src/main.cpp:433-450 | With steps no longer than the interval the next output is always the next multiple of the interval, and a step writes exactly when it enters the next interval |
| RunLoop.NewRunFiles | src/main.cpp:412-450 | Files are numbered 0, 1, 2 and so on, or from 1 without the initial output, with no gap and no overwrite |
| RunLoop.NewRunWrites | src/main.cpp:412-450 | Every write of such a run is at the first step that reaches the time its file is due at, before the next file is due |
| RunLoop.ConsecutiveExactly | src/main.cpp:433-450 | Files stay consecutive for runs of every length exactly when the step is not longer than the interval |
| RunLoop.LongStepsExactly | src/main.cpp:433-450 | With longer steps they are consecutive exactly until the steps have gained a whole interval |
| RunLoop.RestartContinues | src/main.cpp:422-450 | A run restarted from any step performs exactly the remaining writes of the uninterrupted one, whatever the step length; with steps no longer than the interval it ends in the same state |
| RunLoop.NewRunRestarts | src/main.cpp:412-450 | So for every new run, step length and restart step |
| RunLoop.InitialOutputOfRestart | src/main.cpp:412-430 | The initial output of a restart goes to the file written last, with the same step exactly when the restart is from that step; otherwise it replaces the file with a later step |
| RestartTime.ParseTrailingFileIndex | src/utils/RestartTime.hpp:84-111 | The scan finds exactly the last run of digits before the last dot, or nothing if there is none or it overflows |
| RestartTime.IndexOfName | src/utils/RestartTime.hpp:84-111 | Any name whose last number before the last dot is known parses to it, whatever stands before |
| RestartTime.FileNameRoundTrip | src/io/OutputManager.cpp:38-43 | Parsing the name of file n returns the magnitude of n for every prefix: n itself exactly when n is not negative |
| RestartTime.FileNamesDiffer | src/io/OutputManager.cpp:477-478 | Different file numbers give different names |
| RestartTime.NameHasSixPlaces | src/io/OutputManager.cpp:38-43 | The name of a file below a million has its six decimal places between the underscore and the extension |
| RestartClock.ResolveRestartTime | src/utils/RestartTime.hpp:123-310 | The resolution with its warnings in order equals its specification |
| RestartClock.ResolvedClock | src/utils/RestartTime.hpp:123-310 | A success gives time and step at least zero; the step is the stored one or the nearest to the time; they disagree beyond the tolerance exactly if a warning says so |
| RestartClock.ResolvesExactly | src/utils/RestartTime.hpp:123-310 | For every input whether a clock is found: the step length is positive and the first of file time, file step, configured time and allowed file name that there is is good, a stored step within a microsecond or a millionth of the time |
| RestartClock.TimeOf | src/utils/RestartTime.hpp:175-310 | The time is that of the file, else the step times its length, else the configured time, else the digits times the interval |
| RestartClock.StepOf | src/utils/RestartTime.hpp:156-310 | The step is the stored one unless there is none or it is ignored; else it is within half a step of the time, and a warning says exactly when the two disagree |
| RestartClock.ClockAnnounced | src/utils/RestartTime.hpp:175-310 | Every clock that does not come from both time and step of the file is announced by its source and a warning |
| RestartClock.FileClockWins | src/utils/RestartTime.hpp:164-252 | A file that carries a clock decides alone: neither its name nor the fallbacks matter |
| RestartClock.NameMattersExactly | src/utils/RestartTime.hpp:271-309 | The name matters exactly to a file without clock, without configured time, with the fallback allowed and a valid step length |
| RestartClock.WrittenClockIsRestored | src/utils/RestartTime.hpp:164-252 | A clock written with the same step length is restored exactly from time and step, time alone or step alone |
| RestartClock.IgnoringKeepsStepExactly | src/utils/RestartTime.hpp:164-229 | Ignoring an accepted stored step keeps the time, and the step exactly when it is the nearest one, as it is while twice the tolerance is below a step |
| RestartClock.AcceptedStepNeedNotBeNearest | src/utils/RestartTime.hpp:185-225 | The witness late in a run: at 1000000 s with steps of 1 s the stored step 1000001 is accepted |
| RestartClock.NameClockLags | src/utils/RestartTime.hpp:271-309 | A restart by name alone sets the clock back to the output time the file was due at, by less than an interval, and not at all exactly if it was written on that time |

## Left out

- Floating-point rounding: arithmetic is exact; integer widths are modelled in the random bits and in the parsed file index only.
- GPU streams, fences, graph capture, staging of device buffers, buffer growth and array layouts of Kokkos, MPI and NCCL.
- The fields of a `State` exchanged one after another by name: a loop over calls that are modelled.
- The slice and face exchanges and the wrapped copies of a batch over two-dimensional fields in memory: modelled on values, in `HaloVariants`; updates in place are modelled for the full exchange and for a batch.
- ADIOS2, HDF5, NetCDF and BP5 writing, compression, attributes and GrADS descriptors; one-dimensional output variables.
- The division of a wall, metric or curl quotient by zero: quotients by zero are zero in the model; the stated properties exclude them where they matter.
- `fill_contravariant_vorticity_halos`, `fill_physical_q2_neumann_halos` and `fill_free_slip_physical_wind_halos`: of the same shape as the fill modelled.
- `raise_staggered_wind`: the transform with other coefficients.
- FinishPhysicalVorticityUpdate: does not model the halo exchange and boundary fills that follow the import, because the exchange of two fields is modelled in `HaloVariants` and the vorticity fills are left out; the contract is about the canonical fields as the transform leaves them.
- Longitudes and latitudes of the barotropic start; the profile of the jet and the shape of the vorticity perturbation are any functions here.
- A restart's effect on the stored top-wind tendencies and the nudging of area means: the closed form of the top wind is about uninterrupted runs.
- ResolveRestartTime: does not model overflow of the rounded step or of the product of index and interval, because numbers are reals and unbounded integers; the branch for a negative parsed index cannot be reached and is absent.
- `rcemip` and `constant` style vertical coordinates read from files, pressure from temperature, and horizontal coordinates of the generators.
- Command line, configuration lookup and validators: the facts they guarantee are preconditions.
- Solvers, advection, time integration of tracers, physics packages, submission scripts and plots.
