# A verified model of the Elemental/Hydrogen copy and distribution core

This project models the sequential logic of Elemental (with its Hydrogen
device layer), a library for dense linear algebra on distributed memory,
and proves properties of it in Dafny. It covers these parts:

- **Local copies** (`CopyLocal`, `StorageTypes`, `Meta`, `Buffers`). A
  local matrix is a column-major buffer described by height, width and
  leading dimension.
  - The `CopyImpl` overload set becomes a decision function over
    (source type, source device, target type, target device).
  - The host implementations become methods on arrays: the contiguous
    and per-column same-type copies, and the casting copy.
  - The storage-type map and the template metafunctions become
    functions over sequences and enumerations.
- **Copy dispatch** (`CopyDispatch`). The distributed `Copy` finds the
  source and target element types by a first-match scan of a type list.
  The local `Copy`/`CopyAsync` switch on devices and check storage types.
- **Pairwise exchange** (`Exchange`). These are the four contiguity
  branches of `Exchange_impl` (pack, send-receive, unpack), its role
  checks, the `Resize` of `B`'s header, its scratch buffers, the device checks of `Exchange`, and the
  partner ranks of the vector exchanges.
- **Distribution metadata** (`Elemental`).
  - The header of an `ElementalMatrix` is a class whose fields the
    operations update: alignments, constraints, view type, size, root,
    shifts and local size.
  - The operations are `Resize`, `MakeConsistent` (with its 9-word
    message), the `Align*` family, `FreeAlignments`, `Attach`, the move
    assignment and `ShallowSwap`.
  - Beside them are the owner and index maps, `DiagonalRoot`/`DiagonalAlign`
    and the `AssertConforming*` checks.
- **Redistribution** (`Routing`, `VrStar`, `McMr`, `StarMd`). Three
  things are modelled: the routing table of each `operator=` family, the
  run-time cast of the `ElementalMatrix` overload, and the stride and rank
  queries. Two parts are written out: the rank arithmetic of
  [VR,STAR] = [VC,STAR] with its pack and unpack loops, and the
  square-grid exchange ranks of [MC,MR] = [MR,MC].
- **Collected matrices** (`CopyFromRoot`): the root checks of
  `CopyFromRoot`/`CopyFromNonRoot` and their effect.
- **Sorted indices** (`SortedIndices`): `IsSorted`, `IsStrictlySorted`,
  `Union`, `RelativeIndices` and `Find`.
- **LDL inertia** (`Inertia`): the sequential pivot loop, plus the
  checks, delegation and local loop of the distributed overload. The
  distributed overload appears twice: as written, with the previous-row
  alignment of Inertia.hpp:104, and corrected (see "## Findings").
- **The stream pool** (`SyncPool`): the grow-only `SyncInfoPool` with its
  cyclic cursor.

How outside facilities are modelled:

- The MPI calls the core makes are parameters:
  - a broadcast or send-receive delivers a message, passed in as
    `delivered` or `received`;
  - the message a process hands over is returned as `sent`;
  - an all-reduce is the function `allReduce`.
- Streams and events are opaque ids, handed in as `created`.
- LogicError and runtime_error are the failure values of `Outcome` and
  `Result`.
- Every debug-build check (`DEBUG_ONLY`, `EL_DEBUG_ONLY`, `#ifndef RELEASE`)
  is modelled as active.
- The build switches (`HYDROGEN_HAVE_HALF`, `HYDROGEN_GPU_USE_FP16`,
  `HYDROGEN_HAVE_GPU`, `HYDROGEN_HAVE_CUDA`) and the trait tables that
  are not part of this model are a `BuildConfig` value.

Helpers defined in files that are not part of this model get the
definitions stated here:

- `Length(n, shift, stride)` counts the indices below `n` that are
  congruent to `shift`.
- `Shift(rank, align, stride)` is `(rank - align) mod stride`.
- `MaxLength` is the ceiling of `n / stride`.
- `El::Mod` is the Euclidean residue.
- `InterleaveMatrix` with unit column strides is the block copy.
- `Matrix::Resize` keeps a buffer that is large enough, and otherwise
  takes a fresh one with leading dimension `max(h, 1)`.
- `Empty` resets sizes, alignments and constraints. `EmptyData` resets
  only the sizes and the view type.

C++'s truncating `/` and `%` are written out (`CppDiv`, `CppRem`) where an
operand can be negative.

## Model

| member | source | states |
|---|---|---|
| Meta.AndIsConjunction | include/El/core/Meta.hpp:10-18 | `And` of a list holds exactly when every element holds; the empty list gives true |
| Meta.OrIsDisjunction | include/El/core/Meta.hpp:20-27 | `Or` of a list holds exactly when some element holds; the empty list gives false |
| Meta.NotAll | include/El/core/Meta.hpp:29-33 | the list of negations has the same length and negates each element |
| Meta.NotAndIsOrOfNots | include/El/core/Meta.hpp:10-33 | `Not` of an `And` equals the `Or` of the negated elements |
| Meta.Tail | include/El/core/Meta.hpp:46-56 | the tail of a non-empty list is one shorter |
| Meta.HeadTailSplit | include/El/core/Meta.hpp:38-56 | a non-empty list is its head followed by its tail |
| Meta.SelectFirstMatchIsFirst | include/El/core/Meta.hpp:62-76 | a match is found exactly when some element satisfies the predicate, and the one found is the first that does |
| Meta.IsTrueForAnyIsExists | include/El/core/Meta.hpp:78-88 | `IsTrueForAny` holds exactly when the predicate holds for some element; false on the empty list |
| Meta.IsTrueForAllIsForall | include/El/core/Meta.hpp:90-100 | `IsTrueForAll` holds exactly when the predicate holds for every element; true on the empty list |
| Meta.EnumSameIsEquality | include/El/core/Meta.hpp:102-106 | `EnumSame(a, b)` holds exactly when `a == b`, and it is symmetric |
| Meta.TraitTablesNest | include/El/core/Meta.hpp:124-154 | every field type is a scalar type, every standard field a standard scalar, and the standard tables agree with the general ones |
| StorageTypes.CompatibleStorageTypeIsIdentityElsewhere | include/El/blas_like/level1/Copy.hpp:37-54 | the storage type differs from `T` exactly for the host half type on the GPU with both half switches on, and is then the GPU half type |
| StorageTypes.CPUStorageTypeIsIdentity | include/El/blas_like/level1/Copy.hpp:56-57 | the host storage type of every type is that type |
| StorageTypes.GPUStorageTypeCases | include/El/blas_like/level1/Copy.hpp:59-62 | the GPU storage type is the type itself, or the GPU half type for the host half type |
| StorageTypes.CompatibleStorageTypeIdempotent | include/El/blas_like/level1/Copy.hpp:37-54 | applying the map twice for one device equals applying it once |
| CopyLocal.CannotDispatchWhenUnsupported | include/El/blas_like/level1/CopyLocal.hpp:280-287 | case 0 is selected exactly when a type is not a storage type on its device and no transfer overload applies; on the host exactly when either type is unsupported there |
| CopyLocal.DecisionTable | include/El/blas_like/level1/CopyLocal.hpp:18-39 | with both types supported: same host type is a plain copy, different host types a cast (when castable), GPU to GPU a 2-D copy or the GPU cast, same type across devices a transfer, different types across devices the reinterpret or the staged copy; never case 0 |
| CopyLocal.ReinterpretOnlyForHalf | include/El/blas_like/level1/CopyLocal.hpp:211-259 | case 3 is selected only with both half switches on, between the host half type and the GPU half type |
| CopyLocal.StagedIsTransferThenTypeChange | include/El/blas_like/level1/CopyLocal.hpp:263-278 | case 5 goes through a temporary of type `CompatibleStorageType<T, D2>` on the target device: first a transfer (or the reinterpret), then a same-device copy or cast into the target; the temporary never has the target type |
| CopyLocal.StagedConvertsOnce | include/El/blas_like/level1/CopyLocal.hpp:263-278 | with a supported temporary, case 5 converts every entry once, from the temporary's type to the target type |
| CopyLocal.RunOverloadKeepsSize | include/El/blas_like/level1/CopyLocal.hpp:165-259 | transfers, the reinterpret and same-type copies move the entries unchanged; casting overloads keep the number of entries; case 0 gives no result |
| CopyLocal.CopyEntries | include/El/blas_like/level1/CopyLocal.hpp:52-87 | both the flat `MemCopy` (both leading dimensions equal the height) and the per-column `MemCopy` loop leave the target buffer equal to the block copy of the source into it |
| CopyLocal.CopySameTypeCpu | include/El/blas_like/level1/CopyLocal.hpp:43-88 | `B` takes `A`'s height and width, every entry `B(i,j)` equals `A(i,j)`, the packed blocks agree, and padding rows of a kept buffer are untouched |
| CopyLocal.CastColumn | include/El/blas_like/level1/CopyLocal.hpp:97-101 | one column of the entrywise map: its `height` entries become the cast of the source column, nothing else changes |
| CopyLocal.CastEntries | include/El/blas_like/level1/CopyLocal.hpp:97-101 | the column loop leaves the target buffer equal to the cast of the source block, padding kept |
| CopyLocal.CopyCastingCpu | include/El/blas_like/level1/CopyLocal.hpp:91-101 | `B` takes `A`'s height and width and every `B(i,j)` is the cast of `A(i,j)` |
| CopyDispatch.MatrixTypes | src/blas_like/level1/Copy.cpp:16-24 | the type list is `float`, `double`, then the half types the build has, without repeats |
| CopyDispatch.DoRHSOutcome | src/blas_like/level1/Copy.cpp:59-68 | the target scan calls the functor on the source and target types exactly when the target type is in the list, otherwise "Target matrix type not found." |
| CopyDispatch.DoOutcome | src/blas_like/level1/Copy.cpp:44-89 | a source type missing from the list gives "Source matrix type not found." before any target is tried; otherwise the result is that of the target scan |
| CopyDispatch.DoStopsAtFirstMatch | src/blas_like/level1/Copy.cpp:47-57 | the source scan picks the first list entry that matches, as `SelectFirstMatch` does |
| CopyDispatch.DistCopyOutcome | src/blas_like/level1/Copy.cpp:207-223 | the distributed copy reaches the functor exactly for source and target types in the list, with the two distinct errors otherwise; integer and complex matrices fail |
| CopyDispatch.LaunchOutcome | src/blas_like/level1/Copy.cpp:93-186 | the local copy calls the functor exactly when both devices exist and both types are storage types; a missing device is "Copy: Bad device."; an unsupported source reports the target's type and device |
| CopyDispatch.CopyAsyncMirrorsCopy | src/blas_like/level1/Copy.cpp:188-206 | `CopyAsync` fails exactly when `Copy` does, with the same error, and otherwise makes the same call with the asynchronous functor |
| CopyDispatch.LaunchedCopyIsDispatchable | src/blas_like/level1/Copy.cpp:93-143 | a call the dispatch lets through never selects case 0 of `CopyImpl` |
| Buffers.MemCopy | include/El/blas_like/level1/CopyLocal.hpp:77 | the `n` entries at the source offset are written at the target offset and nothing else changes |
| Buffers.InterleaveMatrix | include/El/blas_like/level1/Copy/Exchange.hpp:73-76 | the column-by-column copy leaves the target equal to the block copy of the source into it |
| Buffers.PackUnpackRoundTrip | include/El/blas_like/level1/Copy/Exchange.hpp:128-154 | packing a block densely and unpacking it with the same leading dimension gives back the matrix |
| Buffers.UnpackThenPack | include/El/blas_like/level1/Copy/Exchange.hpp:151-154 | unpacking a dense message into a block and packing it again gives back the message |
| Buffers.PackedIndependent | include/El/blas_like/level1/Copy/Exchange.hpp:70-76 | packing into any buffer of exactly `h*w` entries gives the same packing, whatever the buffer held |
| Buffers.PackedContiguous | include/El/blas_like/level1/Copy/Exchange.hpp:52-59 | a contiguous block packs to its leading `h*w` entries, so it can be sent from its own buffer |
| Buffers.PackedOfInterleave | include/El/blas_like/level1/CopyLocal.hpp:57-87 | a block copy has the same packing as its source |
| Buffers.LocalMatrix.Resize | include/El/blas_like/level1/CopyLocal.hpp:51 | the matrix takes the new height and width and stays well formed, keeping its buffer or getting a fresh one |
| Exchange.RoleCheck | include/El/blas_like/level1/Copy/Exchange.hpp:25-30 | the check passes exactly when the process sends to itself iff it receives from itself, with the two distinct messages otherwise |
| Exchange.ScratchBuffers | include/El/blas_like/level1/Copy/Exchange.hpp:52-58 | no scratch buffer for two contiguous blocks, one of `sendSize` or `recvSize` entries for one non-contiguous block, two for none |
| Exchange.Receive | include/El/blas_like/level1/Copy/Exchange.hpp:57-59 | the delivered message lands at the start of the receive buffer and nothing else changes |
| Exchange.ExchangeImpl | include/El/blas_like/level1/Copy/Exchange.hpp:15-36 | a failed role check changes nothing; then `B`'s header takes `A`'s global size, and a failed `Resize` (a locked view, or a view asked to grow) is the outcome and changes nothing; on success every other header field, the grid and the shifts are kept, a participating `B` has its distribution's local size, a process that is its own partner copies its block of `A`, and otherwise the packed block of `A` is sent and the packed block of `B` is the received message |
| Exchange.ExchangeLocal | include/El/blas_like/level1/Copy/Exchange.hpp:31-160 | a process that is its own partner copies its block of `A`; otherwise `B` keeps its local size, what is sent is the packed block of `A`, and in all four contiguity branches the packed block of `B` is the received message, with the scratch buffers of `ScratchBuffers` |
| Exchange.ExchangeDeviceOutcome | include/El/blas_like/level1/Copy/Exchange.hpp:162-193 | the exchange runs exactly when both matrices are on one device, that device is the host or (with CUDA) the GPU, and the type is valid there; the three errors otherwise |
| Exchange.VectorExchangeRanksInRange | include/El/blas_like/level1/Copy/Exchange.hpp:195-249 | a non-participating `B` does nothing; otherwise both offset ranks lie in `[0, distSize)`, and the carried receive rank stays below `PartialStride*PartialUnionStride` when the receive rank is |
| Exchange.VectorExchangePartnersMatch | include/El/blas_like/level1/Copy/Exchange.hpp:203-212 | when every process of an m by n arrangement takes its shifts from its own `A` and `B` ranks, the send rank is the `B` rank of a place of the arrangement, and the process there computes, as its receive rank carried into `B`'s numbering, this process's `B` rank |
| Exchange.OffsetReachesShift | include/El/blas_like/level1/Copy/Exchange.hpp:205 | moving from a rank by the difference between a target shift and its own shift lands on a rank with the target shift |
| Exchange.OffsetReturns | include/El/blas_like/level1/Copy/Exchange.hpp:206 | undoing, from any rank, the difference between its shift and the shift of rank `a` lands back on `a` |
| Exchange.PartnerReceivesFrom | include/El/blas_like/level1/Copy/Exchange.hpp:205-209 | whatever its own `A` rank, the send partner computes the sender's `A` rank as its receive rank and carries it by `Transpose` |
| Exchange.PartnerAtPlace | include/El/blas_like/level1/Copy/Exchange.hpp:203-209 | the process at the place whose `B` rank is the send rank carries the sender's `A` rank as its receive rank |
| Exchange.TransposeOfPlace | include/El/blas_like/level1/Copy/Exchange.hpp:207-209 | the carrying formula maps a process's `A` rank `x + m*y` to its `B` rank `y + n*x` |
| Buffers.MapBlockAt | include/El/blas_like/level1/CopyLocal.hpp:93-101 | entry `(i, j)` of the mapped target block is `f` of entry `(i, j)` of the source block |
| Buffers.MapBlockOutside | include/El/blas_like/level1/CopyLocal.hpp:82-86 | positions outside the `h` by `w` block, the padding rows included, keep the target's entries |
| Buffers.ContiguousInterleave | include/El/blas_like/level1/CopyLocal.hpp:57-79 | with both leading dimensions equal to the height, the flat copy of `h*w` entries is the block copy |
| Elemental.DecodeEncode | src/core/DistMatrix/Elemental.cpp:79-115 | decoding the 9-word message built from a header gives back that header, all nine fields |
| Elemental.EncodeDecode | src/core/DistMatrix/Elemental.cpp:79-115 | a well-formed message (a view-type code and three 0/1 flags) re-encodes to itself, so the two maps are inverse |
| Elemental.AxisShift | src/core/DistMatrix/Elemental.cpp:125 | the shift `SetShifts` gives an axis is below the axis's stride |
| Elemental.ResizeCheck | src/core/DistMatrix/Elemental.cpp:39-44 | `Resize` passes its checks exactly when the matrix is not a locked view and a view does not grow |
| Elemental.OwnerInRange | src/core/DistMatrix/Elemental.cpp:506-517 | for a non-negative index and alignment the owner is `(i + align) mod stride`, a rank in `[0, stride)` |
| Elemental.OwnerOfEndOfEmptyAxis | src/core/DistMatrix/Elemental.cpp:508-509 | `END` on an empty axis is -1, and C++'s remainder makes its owner -1 on every stride above 1 |
| Elemental.OwnerOfGlobalIndex | src/core/DistMatrix/Elemental.cpp:534-538 | every global row a process stores, `shift + iLoc*stride`, is owned by that process's rank |
| Elemental.OwnerOfShift | src/core/DistMatrix/Elemental.cpp:506-510 | the owner of a rank's shift is that rank |
| Elemental.ShiftOfOwner | src/core/DistMatrix/Elemental.cpp:506-510 | the shift of the owner of an index below the stride is that index: owner and shift are inverse bijections of `[0, stride)` |
| Elemental.GlobalIndexInRange | src/core/DistMatrix/Elemental.cpp:47-50 | a local index is below the local length exactly when its global index is below the global size |
| Elemental.DistMeta.constructor | src/core/DistMatrix/Elemental.cpp:19-22 | a new matrix is an empty owner with free alignments 0 on the given grid and root |
| Elemental.DistMeta.SetShifts | src/core/DistMatrix/Elemental.cpp:152 | both shifts are recomputed from rank, alignment and stride; nothing else changes |
| Elemental.DistMeta.Empty | src/core/DistMatrix/Elemental.cpp:143-144 | no entries, an owner again, alignments 0 and all three constraints cleared |
| Elemental.DistMeta.EmptyData | src/core/DistMatrix/Elemental.cpp:164-165 | no entries and an owner again; alignments, constraints and shifts kept |
| Elemental.DistMeta.Resize | src/core/DistMatrix/Elemental.cpp:37-51 | a failed check changes nothing; otherwise global size is the requested one, every other header field kept, the local size the one the shifts select |
| Elemental.DistMeta.MakeConsistent | src/core/DistMatrix/Elemental.cpp:75-126 | the root sends the encoding of its header; a non-participating caller without `includingViewers` fails and changes nothing; otherwise the outcome is the `Resize` check of the delivered header, and on success the header is the delivered one |
| Elemental.DistMeta.Align | src/core/DistMatrix/Elemental.cpp:134-153 | fails exactly on a view whose alignment would change, then nothing changes; else both alignments are the requested ones, the matrix is emptied iff either changed, an emptying without `constrain` clears both constraints, and `constrain` sets both |
| Elemental.DistMeta.AlignCols | src/core/DistMatrix/Elemental.cpp:157-170 | the same for the column axis only: a change empties the data, local size included; the row alignment and row constraint are kept |
| Elemental.DistMeta.AlignRows | src/core/DistMatrix/Elemental.cpp:174-187 | the same for the row axis only: a change empties the data, local size included; the column alignment and column constraint are kept |
| Elemental.DistMeta.FreeAlignments | src/core/DistMatrix/Elemental.cpp:191-201 | on an owner all three constraints are cleared and nothing else changes; on a view it fails and nothing changes |
| Elemental.DistMeta.AlignAndResize | src/core/DistMatrix/Elemental.cpp:262-288 | an owner adopts each alignment iff forced or unconstrained; `constrain` sets both constraints; a forced alignment that did not take fails; otherwise the outcome is that of `Resize`; on either failure the global and local sizes are kept |
| Elemental.DistMeta.AlignColsAndResize | src/core/DistMatrix/Elemental.cpp:292-306 | the same for the column axis only, sizes kept on failure |
| Elemental.DistMeta.AlignRowsAndResize | src/core/DistMatrix/Elemental.cpp:310-324 | the same for the row axis only, sizes kept on failure |
| Elemental.DistMeta.AttachAs | src/core/DistMatrix/Elemental.cpp:331-355 | the header becomes the given size, alignments and root with the given view type and all three constraints set, on the new grid |
| Elemental.DistMeta.Attach | src/core/DistMatrix/Elemental.cpp:331-365 | as `AttachAs` with view type VIEW |
| Elemental.DistMeta.LockedAttach | src/core/DistMatrix/Elemental.cpp:379-414 | as `AttachAs` with view type LOCKED_VIEW |
| Elemental.DistMeta.AttachLocal | src/core/DistMatrix/Elemental.cpp:369-375 | fails with "Assumed a grid size of one" exactly when the grid has more than one process; otherwise a constrained view of the local matrix with alignments and root 0 |
| Elemental.DistMeta.MoveAssign | src/core/DistMatrix/Elemental.cpp:473-497 | the copy branch is taken exactly when either side is a view, and leaves the source alone; otherwise this matrix takes every field of the source and the two local matrices trade places |
| Elemental.DistMeta.ShallowSwap | src/core/DistMatrix/Elemental.cpp:731-746 | every field of the two matrices trades places, so swapping twice restores both |
| Elemental.LocalOffsetOfGlobalIndex | src/core/DistMatrix/Elemental.cpp:520-538 | the local offset of the global index of local index `iLoc` is `iLoc` |
| Elemental.LocalRowOffsetOfGlobalRow | src/core/DistMatrix/Elemental.cpp:520-538 | `LocalRowOffset(GlobalRow(iLoc)) == iLoc` on a well-formed matrix |
| Elemental.LocalEntriesAreOwned | src/core/DistMatrix/Elemental.cpp:506-545 | every local row and column of a participating process is inside the matrix and owned by that process's column and row rank |
| Elemental.AssertConforming1x2 | src/core/DistMatrix/Elemental.cpp:686-695 | passes exactly when the heights and the column alignments agree |
| Elemental.AssertConforming2x1 | src/core/DistMatrix/Elemental.cpp:699-708 | passes exactly when the widths and the row alignments agree |
| Elemental.Conforming2x2IsRowsAndColumns | src/core/DistMatrix/Elemental.cpp:712-727 | a 2x2 partition conforms exactly when both rows conform as 1x2 and both columns as 2x1; the size error comes exactly from a size mismatch |
| Elemental.DiagonalOwnerAsWrittenOutOfRange | src/core/DistMatrix/Elemental.cpp:596-613 | for [MR,MC] on any grid wider than tall, the owner formula as written gives a value beyond the last VC rank where the true owner is `r*(c-1)` |
| Elemental.DiagonalProcIsFirstOwner | src/core/DistMatrix/Elemental.cpp:578-613 | the process row and column chosen are the owners of the row and column of the diagonal's first entry |
| Elemental.DiagonalOwnerIsVcRank | src/core/DistMatrix/Elemental.cpp:578-613 | with the grid height as multiplier the owner is a VC rank of the grid, and division by the height gives back its process row and column |
| Elemental.DiagonalAlignIsFirstOwner | src/core/DistMatrix/Elemental.cpp:619-676 | `DiagonalAlign` is a grid query on the owner exactly for [MC,MR] and [MR,MC], where it names the same owner as `DiagonalRoot`; otherwise it is the in-range owner of the diagonal's first entry along the distributed axis |
| GridMath.CppRemOfNegative | src/core/DistMatrix/Elemental.cpp:508-509 | C++'s remainder of a negative number lies in `(-b, 0]` and is minus the residue of its negation |
| GridMath.LengthCountsLocalIndices | src/core/DistMatrix/Elemental.cpp:47-50 | a local index is below `Length(n, shift, stride)` exactly when its global index is below `n` |
| GridMath.LengthAtMostMaxLength | src/core/DistMatrix/VR_STAR.cpp:148-152 | no local length exceeds `MaxLength(n, stride)`, so a portion of `maxLocalHeight*width` holds every block |
| GridMath.ShiftIsOwnedByRank | src/core/DistMatrix/Elemental.cpp:506-510 | `(Shift(rank, align, stride) + align) mod stride == rank` |
| GridMath.TransposeInverse | src/core/DistMatrix/VR_STAR.cpp:162 | the column-major to row-major map is below `r*c` and undone by the `c` by `r` map: a bijection of the ranks |
| Routing.ElementPairs | src/core/DistMatrix/Element/MC_MR.cpp:262-276 | the fourteen instantiated element distributions, with no repeats |
| Routing.RuntimeCastIsUnique | src/core/DistMatrix/Element/MC_MR.cpp:162-173 | the run-time cast finds a type exactly when the source's distributions are instantiated (and the wrap is ELEMENT where checked), finds that pair, and no other guard holds |
| Routing.GridRanksBelowSize | src/core/DistMatrix/Element/MC_MR.cpp:224-228 | the VC and VR ranks of a process in the grid are below the grid size |
| VrStar.RoutesEndInPrimitive | src/core/DistMatrix/VR_STAR.cpp:46-232 | every instantiated source has an overload whose chain ends in a direct routine; [MR,MC], [STAR,MC], [STAR,VC] end in the all-to-all demotion, [STAR,STAR], [MD,STAR], [STAR,MD] in the column filter, [MR,STAR] is the partial filter, [CIRC,CIRC] the scatter |
| VrStar.StridesConsistent | src/core/DistMatrix/VR_STAR.cpp:266-278 | column stride is the grid size, row stride 1, and the partial, cross and redundant sizes fit the grid |
| VrStar.SendRankIsOffset | src/core/DistMatrix/VR_STAR.cpp:158 | `sendRankRM` is a rank `d = colShiftOfA - colShift` places on (mod p), and `d` places back returns here |
| VrStar.RecvRankIsOffset | src/core/DistMatrix/VR_STAR.cpp:161 | `recvRankCM` is a rank `d` places back, and `d` places on returns here: the two offsets are opposite |
| VrStar.SendRankHoldsShiftOfA | src/core/DistMatrix/VR_STAR.cpp:157-158 | the send rank's shift at this matrix's alignment is this process's shift of `A` |
| VrStar.RecvRankHoldsShift | src/core/DistMatrix/VR_STAR.cpp:160-161 | the column-major receive rank's shift of `A` is this process's shift |
| VrStar.RecvRankIsTranspose | src/core/DistMatrix/VR_STAR.cpp:162 | `recvRankRM` is the row-major rank of the column-major `recvRankCM`, inside the grid and undone by the inverse transposition |
| VrStar.PartnerRanks | src/core/DistMatrix/VR_STAR.cpp:140-162 | with `p = r*c`, both partner ranks are ranks with opposite offsets, and the receive rank is carried to row-major order by a bijection |
| VrStar.AssignFromVcStar | src/core/DistMatrix/VR_STAR.cpp:128-196 | resizes to A's global size (a failed check changes nothing), stops off the grid; otherwise sends the packed block of A to `sendRankRM`, receives from `recvRankRM`, and the packed block of this matrix is the received portion |
| VrStar.ExchangeBlocks | src/core/DistMatrix/VR_STAR.cpp:164-193 | B gets the local size; the portion sent starts with the packed block of A; the packed block of B is the start of the portion received |
| VrStar.PackColumns | src/core/DistMatrix/VR_STAR.cpp:168-177 | a portion of `maxLocalHeight*width` entries whose first `localHeightOfA*width` are A's block packed column by column |
| VrStar.UnpackColumns | src/core/DistMatrix/VR_STAR.cpp:184-193 | the local block of B, packed, is the start of the received portion |
| McMr.RoutesEndInPrimitive | src/core/DistMatrix/Element/MC_MR.cpp:27-159 | every instantiated source other than [MC,MR] has an overload; [VR,STAR] and [MR,STAR] end in an aligned [VC,STAR], [STAR,VC] and [STAR,MC] in an aligned [STAR,VR]; [MR,MC] is the exchange on a square grid and the transpose otherwise |
| McMr.ExchangePartnersMatch | src/core/DistMatrix/Element/MC_MR.cpp:65-72 | on a square grid both exchange ranks lie in `[0, gridDim^2)`, and the process this one sends to computes this one as its receive rank |
| McMr.StridesConsistent | src/core/DistMatrix/Element/MC_MR.cpp:204-221 | the MC size times the MR size is the VC size; partial strides are the full ones and union strides 1 |
| McMr.RanksFitStrides | src/core/DistMatrix/Element/MC_MR.cpp:223-244 | inside the grid every rank is defined and below its size, cross, redundant and union ranks 0; outside every rank is UNDEFINED |
| StarMd.RoutesEndInPrimitive | src/core/DistMatrix/Element/STAR_MD.cpp:27-142 | the general purpose copy is taken exactly for the sources other than [STAR,MD], [STAR,STAR] and [CIRC,CIRC]; [STAR,MD] itself is not routed here; [STAR,STAR] is the row filter; [CIRC,CIRC] goes through a temporary aligned with this, which the general purpose copy then reaches |
| StarMd.StridesConsistent | src/core/DistMatrix/Element/STAR_MD.cpp:192-208 | column stride 1, row stride and distribution size the LCM, cross size the GCD; partial strides are the full ones and union strides 1 |
| StarMd.RanksFitStrides | src/core/DistMatrix/Element/STAR_MD.cpp:210-239 | inside the grid the row and distribution rank are the MD rank, the column rank 0, the cross rank the MD-perpendicular rank, each below its size; outside all UNDEFINED |
| CopyFromRoot.RootCheck | include/El/blas_like/level1/CopyFromRoot.hpp:7-8 | passes exactly on the root, with "Called CopyFromRoot from non-root" otherwise |
| CopyFromRoot.NonRootCheck | include/El/blas_like/level1/CopyFromRoot.hpp:18-19 | passes exactly off the root, with "Called CopyFromNonRoot from root" otherwise |
| CopyFromRoot.ExactlyOneCheckPasses | include/El/blas_like/level1/CopyFromRoot.hpp:7-19 | on every process exactly one of the two checks passes |
| CopyFromRoot.MakeSizeConsistent | include/El/blas_like/level1/CopyFromRoot.hpp:10 | the matrix takes the delivered global size, subject to the `Resize` checks |
| CopyFromRoot.CopyFromRoot | include/El/blas_like/level1/CopyFromRoot.hpp:3-12 | off the root it fails and nothing changes; on the root B takes A's size, its local matrix equals A entry by entry, and on a one-process axis pair the local size is the global one |
| CopyFromRoot.CopyFromNonRoot | include/El/blas_like/level1/CopyFromRoot.hpp:15-21 | on the root it fails and nothing changes; elsewhere the matrix only takes the delivered size |
| SortedIndices.IsSorted | src/core/environment_impl.cpp:155-164 | true exactly when no adjacent pair decreases |
| SortedIndices.IsStrictlySorted | src/core/environment_impl.cpp:168-177 | true exactly when every adjacent pair increases |
| SortedIndices.StrictImpliesSorted | src/core/environment_impl.cpp:155-177 | strictly sorted implies sorted, and lists of at most one entry are both |
| SortedIndices.SortedPairwise | src/core/environment_impl.cpp:155-164 | a sorted list is ordered on every pair of positions |
| SortedIndices.StrictlySortedPairwise | src/core/environment_impl.cpp:168-177 | a strictly sorted list is strictly ordered on every pair of positions |
| SortedIndices.SetUnion | src/core/environment_impl.cpp:182-187 | the union written is no longer than the two inputs together |
| SortedIndices.SetUnionElements | src/core/environment_impl.cpp:183-186 | the union holds exactly the entries of the two inputs |
| SortedIndices.SetUnionSorted | src/core/environment_impl.cpp:183-186 | the union of sorted inputs is sorted, of strictly sorted inputs strictly sorted |
| SortedIndices.Union | src/core/environment_impl.cpp:179-196 | the merge into a buffer of `|first| + |second|` entries, cut to what was written, is `std::set_union` of the inputs |
| SortedIndices.FirstAtLeast | src/core/environment_impl.cpp:207 | the position returned is the partition point: every entry before it from `lo` on is below `x`, the one at it is at least `x` |
| SortedIndices.FirstAtLeastIsPartition | src/core/environment_impl.cpp:207 | on a sorted list any position with that partition property is `FirstAtLeast`, so the partition point is unique |
| SortedIndices.LowerBound | src/core/environment_impl.cpp:207 | the bisection returns the partition point of a sorted list |
| SortedIndices.RelativeFrom | src/core/environment_impl.cpp:201-213 | a result has one position per entry of `sub`, each inside `full` |
| SortedIndices.RelativeFromProperties | src/core/environment_impl.cpp:201-213 | for sorted `sub` the positions never decrease and each is the first position of `full` holding at least that entry |
| SortedIndices.RelativeIndicesLocate | src/core/environment_impl.cpp:205-212 | with sorted `full`, an entry of `sub` that occurs in `full` is found at its position |
| SortedIndices.RelativeIndices | src/core/environment_impl.cpp:198-221 | fails with "Index was not found" exactly when a search reaches the end; otherwise the positions of `RelativeFrom` |
| SortedIndices.Find | src/core/environment_impl.cpp:223-234 | succeeds exactly when the index occurs, at its first position; otherwise "All indices were smaller" when every entry is smaller, else "Could not find index" |
| Inertia.BlockSize | include/elemental/lapack-like/LDL/Inertia.hpp:54 | a pivot is 2x2 exactly when it is not the last row and its subdiagonal entry is nonzero, and it never runs past the end |
| Inertia.SequentialInertia | include/elemental/lapack-like/LDL/Inertia.hpp:35-75 | a subdiagonal of the wrong length is "dSub was the wrong length"; otherwise the counts of the pivot loop |
| Inertia.BunchKaufmanInertia | include/elemental/lapack-like/LDL/Inertia.hpp:22-30 | if the 1x1 pivots have a positive, b negative and c zero entries and there are q 2x2 pivots, the inertia is (a+q, b+q, c), and the pivots cover every row |
| Inertia.InertiaCountsRows | include/elemental/lapack-like/LDL/Inertia.hpp:51-72 | the three counts add up to the number of rows; positive and negative counts are at least the number of 2x2 pivots; zeros come only from 1x1 pivots |
| Inertia.ZeroSubdiagonalInertia | include/elemental/lapack-like/LDL/Inertia.hpp:55-64 | with a zero subdiagonal the inertia is the sign counts of the diagonal |
| Inertia.ColAlignPrevIsPredecessor | include/elemental/lapack-like/LDL/Inertia.hpp:104 | `colAlignPrev` is the cyclic predecessor of the alignment, inside `[0, colStride)` |
| Inertia.CorrectedPrevShift | include/elemental/lapack-like/LDL/Inertia.hpp:104-120 | with the corrected previous-row alignment every process's previous shift is the cyclic predecessor of its shift |
| Inertia.CorrectedPrevHoldsPreviousRow | include/elemental/lapack-like/LDL/Inertia.hpp:118-134 | then local index `iLoc + prevOff` of the previous-row vectors is global row `i - 1` for every local row `i > 0` |
| Inertia.AsWrittenPrevMisread | include/elemental/lapack-like/LDL/Inertia.hpp:104-134 | with the alignment as written and three or more processes, that index is negative or holds another row |
| Inertia.ChecksAt | include/elemental/lapack-like/LDL/Inertia.hpp:91-112 | the five checks in the source's order pass exactly when the lengths fit, `dSub` has `d`'s alignment and `dPrev`, `dSubPrev` have the given previous-row alignment; a `dPrev` of the wrong length is reported first |
| Inertia.DistributedChecks | include/elemental/lapack-like/LDL/Inertia.hpp:91-112 | as written: the checks pass exactly when the lengths fit, `dSub` has `d`'s alignment and `dPrev`, `dSubPrev` have `(colAlign + colStride - 1) % colStride` |
| Inertia.DistributedChecksCorrected | include/elemental/lapack-like/LDL/Inertia.hpp:104-111 | the same checks with the previous-row vectors expected at `(colAlign + 1) % colStride` |
| Inertia.ChecksAgreeOnTwo | include/elemental/lapack-like/LDL/Inertia.hpp:104 | on a column of two processes both alignments coincide and so do both checks |
| Inertia.LocalInertia | include/elemental/lapack-like/LDL/Inertia.hpp:118-150 | the local loop, with `prevOff` from `dPrev`'s shift, yields `LocalCounts`: per local row, a 2x2 pivot when the local subdiagonal entry is nonzero, nothing when the `dSubPrev` entry at `iLoc + prevOff` is, else the sign of the diagonal entry; it asks only that the entries it reads exist |
| Inertia.PrevReadsInRange | include/elemental/lapack-like/LDL/Inertia.hpp:125-133 | when `dSubPrev` holds the subdiagonal at the predecessor shift, every entry the loop reads exists |
| Inertia.RowCountLocalIsRowCount | include/elemental/lapack-like/LDL/Inertia.hpp:125-148 | then the count a local row's entries select is the row count of its global row |
| Inertia.LocalCountIsStrided | include/elemental/lapack-like/LDL/Inertia.hpp:123-149 | and the local counts from local row `iLoc` on are the row counts of the global rows `colShift + k*colStride`, `k >= iLoc` |
| Inertia.LocalCountsAreRowCounts | include/elemental/lapack-like/LDL/Inertia.hpp:118-150 | hence the loop counts, for each sign, the row counts of exactly the global rows this process holds |
| Inertia.SingleProcessHoldsAll | include/elemental/lapack-like/LDL/Inertia.hpp:114-116 | on a column of one process the local vector is the global one |
| Inertia.DistributedInertia | include/elemental/lapack-like/LDL/Inertia.hpp:77-159 | as written: a failed check (previous-row alignment `(colAlign + colStride - 1) % colStride`) is its error; a column of one process gives the sequential inertia of the global vectors; otherwise the reduction of the local loop's counts; `dSubPrev` is only placed, so a `dSubPrev` of the wrong length alone is a reachable error |
| Inertia.DistributedInertiaCorrected | include/elemental/lapack-like/LDL/Inertia.hpp:77-159 | with the corrected checks and `dSubPrev` holding the subdiagonal: a failed check is its error; a column of one process gives the sequential inertia; otherwise the reduction of the row counts of the global rows this process holds |
| Inertia.WindowCoversRows | include/elemental/lapack-like/LDL/Inertia.hpp:153-156 | summed over the processes of a column, the local row counts count every row once |
| Inertia.SeparatedRowsAgree | include/elemental/lapack-like/LDL/Inertia.hpp:123-149 | when no two consecutive subdiagonal entries are nonzero, counting row by row equals the sequential pivot count |
| Inertia.ColumnSumIsSequential | include/elemental/lapack-like/LDL/Inertia.hpp:152-156 | hence the all-reduced counts equal the sequential inertia |
| Inertia.AdjacentPivotsOvercount | include/elemental/lapack-like/LDL/Inertia.hpp:128-138 | without that separation the row-by-row counting breaks: with n = 3 and both subdiagonal entries nonzero it counts 4 rows where the sequential count has 3 |
| SyncPool.NextPosition | src/blas_like/level3/SyncInfoPool.hpp:88-90 | the cursor moves one on, back to 0 past the end, and stays inside the pool |
| SyncPool.AdvanceIsCyclic | src/blas_like/level3/SyncInfoPool.hpp:82-93 | `k` calls of `Next` move the cursor to `(pos + k) mod size` |
| SyncPool.FullCycleReturns | src/blas_like/level3/SyncInfoPool.hpp:82-93 | in `size` calls every entry is handed out once and the cursor is back where it started |
| SyncPool.FirstAfterReset | src/blas_like/level3/SyncInfoPool.hpp:72-90 | the first `Next` after `Reset` hands out entry 1, or entry 0 of a pool of one |
| SyncPool.SyncInfoPool.constructor | src/blas_like/level3/SyncInfoPool.hpp:26 | the empty pool |
| SyncPool.SyncInfoPool.WithSize | src/blas_like/level3/SyncInfoPool.hpp:29-32 | a pool of exactly the requested size, from the pairs created, cursor at 0 |
| SyncPool.SyncInfoPool.Size | src/blas_like/level3/SyncInfoPool.hpp:53-56 | the number of entries |
| SyncPool.SyncInfoPool.EnsureSize | src/blas_like/level3/SyncInfoPool.hpp:152-178 | nothing changes when the pool is large enough; otherwise exactly the requested size, old entries first in order, cursor offset kept (0 for an empty pool); the pool never shrinks |
| SyncPool.SyncInfoPool.Swap | src/blas_like/level3/SyncInfoPool.hpp:66-70 | entries and cursors trade places |
| SyncPool.SyncInfoPool.Reset | src/blas_like/level3/SyncInfoPool.hpp:72-75 | the cursor returns to the first entry; the entries are kept |
| SyncPool.SyncInfoPool.Next | src/blas_like/level3/SyncInfoPool.hpp:82-93 | on an empty pool the runtime error and nothing changes; otherwise the cursor moves cyclically and the entry there is handed out |
| SyncPool.SwapPools | src/blas_like/level3/SyncInfoPool.hpp:120-124 | the free `swap` exchanges the two pools' entries and cursors |

## Left out

- MPI: broadcasts, send-receives and all-reduces are parameters (the message delivered) and returned values (the message sent). Processes running concurrently, communicators and `MPI_Reduce` are not modelled.
- GPU, CUDA and HIP paths are not modelled: `cudaMemcpy2DAsync`, `gpu_blas::Copy`, `SyncInfo`/`Synchronize` and the whole of `include/hydrogen/device/gpu/rocm/ROCmCopy.hpp`. The decision table still names their cases, but these are foreign calls.
- Stream and event creation and destruction in `SyncInfoPool` are replaced by the `created` ids handed in. The destructor is not modelled because it only releases them. A creation that fails partway through `EnsureSize` (SyncInfoPool.hpp:167-172) is not modelled: it raises and leaves the pool partly grown, while every `created` id handed in here is a success.
- `include/El/core/GuardAndPayload.h` is not part of this model. The routing tables model each guarded overload as the route it takes with the guard open. A source that no overload accepts is modelled as "no route".
- `Grid` is not part of this model. Its queries (ranks, heights, widths, LCM, GCD, VC and VR ranks) are fields of a grid value, under the stated relation that VC rank is row plus height times column.
- `GeneralPurpose`, `Filter`, `RowFilter`, `ColFilter`, `PartialColFilter`, `Scatter`, `Translate`, `TransposeDist`, `ColAllToAllDemote`, `ColAllToAllPromote` and `RowAllToAllPromote` are not part of this model. The routing tables name them as endpoints, and their data movement is not modelled.
- The three-argument `Resize` with an explicit leading dimension is not modelled. It has the same checks as the two-argument form, and only the local buffer's leading dimension differs.
- `SetGrid`, `SetRoot`, `AlignWith`, `AlignColsWith`, `AlignRowsWith` and `DiagonalAlignedWith` call into `DistData` or `Grid` code that is not part of this model, so they are left out.
- `AssertNotLocked` and `AssertSameGrids` are modelled only where `Resize` and the `AssertConforming*` checks use them.
- Elemental.DistMeta.MakeConsistent: requires the delivered message to be well formed (a view-type code 0-2 and non-negative sizes). The broadcast of a root's own header always is. The model does not separate the communicator that includes viewers from the cross communicator.
- Elemental.DistMeta.MoveAssign: when either side is a view, the copy `Copy(A, *this)` is only recorded as taken, and its effect on this matrix is not stated.
- Elemental.DistMeta.AlignAndResize: the shifts are recomputed once, after both alignments are set. The source recomputes each axis's shift as soon as it sets that axis's alignment, which gives the same state.
- `SetColShift`/`SetRowShift` are treated as a single `SetShifts`.
- VrStar.AssignFromVcStar: the `auxMemory_` buffer is two fresh arrays. Its `Require`/`Release` bookkeeping is not modelled. The send-receive and the grid's ranks are parameters.
- The copy `operator=` overloads of `VR_STAR.cpp`, `MC_MR.cpp` and `STAR_MD.cpp` are modelled through their routes. The `DistMultiVec` assignment and `operator+=`/`operator-=` (`Axpy`) are not modelled.
- CopyFromRoot.MakeSizeConsistent: modelled as a resize to the delivered size, because its body is not part of this model.
- CopyFromRoot.CopyFromRoot: the ELEMENT and BLOCK overloads of `CopyFromRoot` and `CopyFromNonRoot` share one member each, because their bodies are the same.
- SortedIndices.IsSorted: models the `Int` overloads. The model treats `Int` as an unbounded mathematical integer; in C++ it is 32 or 64 bits wide. `IsSorted`, `IsStrictlySorted`, `Union`, `RelativeIndices` and `Find` only compare and copy indices, so no result depends on the width.
- SortedIndices.Union: requires nothing. Its contract is stated through `SetUnion`, which is `std::set_union`'s result. That result has the documented meaning (sorted, the set union) only for sorted inputs, as `SetUnionSorted` states.
- SortedIndices.RelativeIndices: requires `full` to be sorted, as `std::lower_bound` requires of its range.
- SortedIndices.Find: requires `sortedInds` to be sorted, as `std::lower_bound` requires of its range.
- The value-returning `Union` and `RelativeIndices` forms only allocate a vector and call the in-place forms. They are modelled by the same member.
- Inertia.DistributedInertia: requires that every `dSubPrev` entry the local loop reads exists, because bounds checking in `GetLocal` is not part of this model. With line 104's alignment and three or more processes, this fails at local row 0 of a process with a shift above 0, unless a 2x2 pivot starts there (`AsWrittenPrevMisread`).
- Exchange.ExchangeImpl: in the self case, `B`'s local matrix takes `A`'s local size through `Copy`, and the model does not tie the header's local size to it (nor does the source).
- The general `Inertia` overload (Inertia.hpp:161-192) is not modelled: it redistributes the diagonals into `[MC,STAR]` and then calls the overload that is modelled.
- Floating point: diagonal entries are `real` and subdiagonal entries an abstract type with a zero. Only the sign tests and `!= 0` that the code uses are modelled.
- `EntrywiseMap` and `InterleaveMatrix` get the stated definitions above.
- `Caster<S,T>::Cast` is a function parameter.
- `src/blas_like/level3/Symm/LU.hpp` and `src/blas_like/level3/Syr2k/UT.hpp` are numerical kernels over floating point, so they are left out.
- Environment set-up, argument parsing, printing, exceptions, backtraces, `MemoryPool` and the cuBLAS wrappers are not modelled: they are I/O, global state or foreign code.
- OpenMP `EL_PARALLEL_FOR` loops are modelled as sequential loops.
- Timers and logging in `Exchange.hpp` are not modelled.

## Findings

| source | as written | input that shows it | evidently intended | confidence | as-written member | corrected member |
|---|---|---|---|---|---|---|
| src/core/DistMatrix/Elemental.cpp:596-613 | for [MR,MC], `DiagonalRoot` and `DiagonalAlign` return `procRow + ColStride()*procCol`, and `ColStride()` is the grid width | a 1 by 2 grid with column alignment 1, row alignment 0 and offset 0: the diagonal starts on process row 0, column 1, and the formula gives 2 on a grid of two processes | the VC rank `procRow + RowStride()*procCol`, with the grid height as multiplier, as the [MC,MR] branch does | not executed | Elemental.DiagonalOwnerAsWrittenOutOfRange | Elemental.DiagonalOwnerIsVcRank |
| include/elemental/lapack-like/LDL/Inertia.hpp:104 | `colAlignPrev = (colAlign + colStride - 1) % colStride`, so `dPrev` and `dSubPrev` are aligned one process before `d` | a column of 3 processes with `colAlign` 0: process 2 has shift 2 and `dPrev` has shift 0, so `prevOff` is -1 and global row 2 reads local index -1 | `(colAlign + 1) % colStride`, so that the process owning row `i` also owns row `i - 1` of the previous-row vectors, as the `prevOff` test at line 120 assumes | not executed | Inertia.AsWrittenPrevMisread | Inertia.DistributedInertiaCorrected |
