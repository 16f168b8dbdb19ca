# Observation distributions, the framed reader and ObsSpace extension

A Dafny model of the part of ioda in which several MPI ranks read one observation source together.

Every rank sees the same stream of locations, each with a record number and a point. Each rank keeps
a subset, decided by its distribution, and ranks may overlap. The ranks then agree on one owner
("patch") for every location and on a global consecutive index that points into the vector gathered
from all ranks. Reductions, diagnostics and the later extension of an ObsSpace rely on that agreement.

How the pieces are modelled:

- A communicator is a sequence with one element per rank. An MPI collective is a function of the
  contributions of all ranks: gather-to-all (section 5.7 of MPI 3.1) concatenates in rank order,
  min-with-location (section 5.9.4) breaks ties towards the lowest rank, the exclusive scan
  (section 5.11.2) gives zero on rank 0. A collective C++ method is cut at its MPI calls, and a driver
  runs the pieces of all ranks in step.
- Objects that the program updates are classes (`Halo`, `Nonoverlapping`, `ReplicaOfGeneral`,
  `ObsFrameRead`, `SelectionCaches`, `ObsSpace`, the accumulators). A ghost field records what has
  been assigned to a distribution; the invariants say that the real fields are determined by it.
- What a distribution promises (`src/distribution/Distribution.h`) is stated once, in `Contract`, on
  the views of all ranks, and proved of each distribution. The consequences callers rely on are proved
  from the promise alone.
- A load is compared with `FrameReader.OnePass`, a serial pass that takes one location at a time and
  knows nothing of frames.
- Where code and specification share a function (who keeps a record, which locations pass the checks,
  how values are sorted, normalised or counted), a lemma or contract also says what it means in plain
  terms of the inputs, without that function.
- An assertion or exception of the source is an `ok` result or an `Outcome`; whether it can happen is
  part of the contract.
- A predicate of the form `forall t :: t == x ==> P(t)` says `P(x)`, and so does one of the form
  `exists t :: t == x && P(t)`. The first stays closed, where it is known, until a proof asserts
  `P(x)`; the second, where it is to be shown. This keeps the proofs of the drivers small.

Four promises turn out to need a condition, and the model gives the exact one:

- The index of a `PairOfDistributions` meets the promise of `Distribution.h` exactly if some rank's
  last location is the last one gathered by the first distribution, or one side is empty
  (`ExtendedWorld.ExtendedGeneral`). Nonoverlapping and identity distributions always satisfy this.
  A two-rank Halo need not: `PairOverHalo.OffsetFallsShort` has an offset of 2 for 3 locations, and
  extending it makes a companion share its index with an original location, for every positive number
  of levels (`PairOverHalo.PairCollides`).
- Filling a variable at companion locations keeps the original values and gives every companion the
  first value of its record exactly if the variable has one value per location
  (`WideVariables.FilledRightExactly`). A wider variable is read as one row-major vector but indexed by
  location, so an original value can be overwritten: `WideVariables.ValueIsLost` is the smallest case,
  and `WideVariables.OriginalsKeptExactly` says when it happens.
- Under IGNORE_MISSING the sorted record index has no entry for a record exactly if all of its sort
  values are missing (`RecordIndex.SortedIndexLacks`).
- Joined grouping keys tell tuples apart if at most one grouping variable contains colons
  (`Numbering.JoinIsInjective`); for any two variables that may, they do not (`Numbering.JoinCollides`).

Where to look:

| file | content |
|---|---|
| `Seqs.dfy`, `Collectives.dfy` | vectors, sums, MPI reductions |
| `Contract.dfy`, `Streams.dfy` | the promise of a distribution; the assignment stream and who keeps what |
| `Halo.dfy`, `Nonoverlapping.dfy`, `Replica.dfy`, `Pair.dfy` | the distributions |
| `PairOverHalo.dfy` | a Halo whose extension breaks the promise |
| `Accumulators.dfy`, `VectorAccumulators.dfy` | reductions that count each location once, of numbers and of vectors |
| `Numbering.dfy`, `ObsSource.dfy`, `Reader.dfy` | record numbers, the source, the framed reader |
| `Loader.dfy`, `LoadAll.dfy` | selection caches, the load loop, loading on all ranks of a Halo |
| `RecordIndex.dfy` | the record index, sorted and unsorted |
| `Companions.dfy`, `Extension.dfy`, `ExtendedWorld.dfy`, `ExtendAll.dfy`, `ExtendNonoverlapping.dfy` | companion records |
| `ExtendedVariables.dfy`, `WideVariables.dfy`, `ExtendedContainers.dfy` | variables at companion locations |
| `Construction.dfy` | the ObsSpace constructor on all ranks of a Halo: load, record index, extension |
| `CharArrays.dfy` | strings in character buffers |

Check the project with `dafny verify dfyconfig.toml`.

## Model

| member | source | states |
|---|---|---|
| `Contract.IndexIsBijection` | src/distribution/Distribution.h:200-222 | Where the promise holds, exactly the locations held somewhere are gathered, two held locations on any ranks have equal indices iff they are the same location, and the indices in use are exactly 0..N-1 |
| `Contract.OwnedExactlyOnce` | src/distribution/Distribution.h:44-50 | Every location held by some rank is a patch location of exactly one rank, and that rank holds it |
| `Contract.GatherAgrees` | src/distribution/Distribution.h:200-222 | If every rank passes in a function of the global location, the gathered element at a location's index is the value its holder passed in, on every rank |
| `Contract.ReductionCountsOnce` | src/distribution/Distribution.h:44-50 | Adding the patch terms of all ranks gives the serial sum over the distinct locations held anywhere |
| `Collectives.MinLocIsLeast` | src/distribution/Halo.cc:144-145 | The reduced pair is one of the contributions and no contribution is smaller, ties going to the lower rank |
| `Streams.MineStable` | src/distribution/Halo.cc:80-105 | Once a record has appeared, nothing assigned later changes whether a rank keeps it |
| `Streams.KeptMember` | src/distribution/Halo.cc:80-105 | A rank keeps a location iff the location's record is its own, so it keeps all locations of a record or none |
| `Streams.MineMeans` | src/distribution/Halo.cc:80-105 | A record is a rank's own, in plain terms of the stream: under a Halo iff the point of its first location is at most the radius away, under Atlas iff that point lies in the rank's partition, under RoundRobin iff the record number is a multiple of the size plus the rank |
| `HaloDistribution.Halo.constructor` | src/distribution/Halo.cc:41-72 | A new Halo is in step with the empty stream, its radius being the radius plus the halo size |
| `HaloDistribution.Halo.AssignRecord` | src/distribution/Halo.cc:80-105 | All six containers stay determined by the stream; a new record is taken iff its point is at most the radius away, a known one stays where it is, and the location is stored iff the record is in the halo |
| `HaloDistribution.Halo.HoldsWithinRadius` | src/distribution/Halo.cc:80-110 | A Halo answers for exactly the records whose first location is at most the radius away |
| `HaloDistribution.Halo.StoresExactly` | src/distribution/Halo.cc:80-105 | Every location of a record in the halo is stored, and no other |
| `HaloDistribution.Halo.StoresFirstDistance` | src/distribution/Halo.cc:80-105 | The distance stored for a record is that of its first location |
| `HaloDistribution.Halo.LocalNumGlobalLocs` | src/distribution/Halo.cc:121-125 | A rank contributes one more than its last stored location, or zero |
| `HaloDistribution.Halo.LocalDistances` | src/distribution/Halo.cc:127-142 | For each location a rank contributes the distance of the record it stores there, or infinity if it stores none |
| `HaloDistribution.GlobalNumLocs` | src/distribution/Halo.cc:121-125 | The agreed size of the reduction exceeds every stored location of every rank, for ascending streams |
| `HaloDistribution.GlobalOwners` | src/distribution/Halo.cc:127-145 | The reduced vector names, for each location held anywhere, the holder nearest to its record, the lowest-numbered among equals, and is infinite everywhere else |
| `HaloDistribution.ReductionNamesOwners` | src/distribution/Halo.cc:127-145 | Whatever the ranks contribute as entries of their stored locations, the min-with-location reduction names the owners |
| `HaloDistribution.Halo.MarkPatchObs` | src/distribution/Halo.cc:147-164 | A stored location is flagged iff the reduction names this rank as its owner |
| `HaloDistribution.IndicesOnOwners` | src/distribution/Halo.cc:190-208 | The index of a stored location is the number of smaller locations with the same owner, and each rank's count is the number of locations it owns |
| `HaloDistribution.ExclusiveScan` | src/distribution/Halo.cc:214-219 | Each rank's offset is the sum of the counts of lower ranks |
| `HaloDistribution.Halo.ComputeGlobalUniqueConsecutiveLocIndices` | src/distribution/Halo.cc:184-227 | Each stored location gets the position at which it stands in the concatenation of the locations owned by rank 0, 1, ... |
| `HaloDistribution.Halo.ReceiveOwners` | src/distribution/Halo.cc:147-181 | Flags and indices of a rank are those the reduced vector determines; the record sets survive and the temporaries are released |
| `HaloDistribution.PatchIsOwned` | src/distribution/Halo.cc:147-164 | The flagged locations of a rank are exactly the locations whose named owner it is, in ascending order |
| `HaloDistribution.HaloIsSound` | src/distribution/Halo.cc:113-227 | Views that follow the reduced owners meet the promise: patches partition the held locations and every index points at its location |
| `HaloDistribution.HaloMarksOwnRecords` | src/distribution/Halo.cc:136-164 | A location is a patch location exactly on the rank that owns its record |
| `HaloDistribution.OwnerIsUnique` | src/distribution/Halo.cc:144-145 | At most one rank is nearest and lowest-numbered for a record |
| `HaloDistribution.OwnerIsNearest` | src/distribution/Halo.cc:127-145 | A rank owns a record iff the record's first point is within its radius and no rank with the point in its radius is nearer, or as near with a lower number |
| `HaloDistribution.RecordsAreCoherent` | src/distribution/Halo.cc:80-164 | A rank holding one location of a record holds all of them, and they are all patch locations or none is |
| `HaloDistribution.ComputePatchLocs` | src/distribution/Halo.cc:113-181 | For any number of ranks and any ascending stream, running the whole protocol makes the views meet the promise, with patches following the nearest owners |
| `HaloDistribution.PatchGoesToNearest` | src/distribution/Halo.cc:113-181 | After the protocol a held location is a patch location exactly on that rank, in plain terms of the stream |
| `HaloDistribution.Halo.AtPatchObs` | src/distribution/Halo.cc:396-409 | The assertion fails iff the vector does not have one element per held location; otherwise the elements at patch locations remain, in order |
| `HaloDistribution.GatherAll` | src/distribution/Halo.cc:396-414 | No assertion fails iff all vectors have the right size, and then every rank receives the patch elements of all ranks in rank order |
| `NonoverlappingDistribution.Nonoverlapping.constructor` | src/distribution/NonoverlappingDistribution.cc:26-29 | A new distribution is in step with the empty stream |
| `NonoverlappingDistribution.Nonoverlapping.AssignRecord` | src/distribution/NonoverlappingDistribution.cc:37-42 | The consecutive-order assertion fails exactly for an Atlas record ahead of its turn; otherwise the local count is that of the kept locations and isMyRecord is decided by the record's first point, by the modulus or by the master |
| `NonoverlappingDistribution.ComputePatchLocs` | src/distribution/NonoverlappingDistribution.cc:45-48 | Each rank learns how many locations the lower ranks hold |
| `NonoverlappingDistribution.CountingUpPoints` | src/distribution/NonoverlappingDistribution.cc:191-223 | Offset plus local position points at the location in the concatenation of all ranks' locations |
| `NonoverlappingDistribution.ReadIsSound` | src/distribution/NonoverlappingDistribution.cc:37-53 | After any ascending stream over RoundRobin or Atlas ranks, views whose indices count up from the lower ranks' total meet the promise, and everything held is gathered |
| `NonoverlappingDistribution.PatchAfterRead` | src/distribution/NonoverlappingDistribution.cc:37-53 | Computing patches on ranks that have been assigned any ascending stream leaves objects that meet the promise, everything held being gathered |
| `NonoverlappingDistribution.ExactlyOneRank` | src/distribution/AtlasDistribution.cc:77-101 | Every assigned record belongs to exactly one rank: under Atlas the partition of its first kept point |
| `NonoverlappingDistribution.KeptIsDisjoint` | src/distribution/NonoverlappingDistribution.cc:37-42 | No location is held twice or on two ranks |
| `NonoverlappingDistribution.LocationsAreConserved` | src/distribution/NonoverlappingDistribution.cc:37-48 | The local numbers of locations of all ranks add up to the number of locations assigned |
| `NonoverlappingDistribution.RoundRobinCount` | src/distribution/RoundRobin.cc:51-53 | Of n records a rank gets n / size, plus one if its number is below n mod size |
| `NonoverlappingDistribution.RoundRobinIsBalanced` | src/distribution/RoundRobin.cc:51-53 | For streams numbered as the reader numbers them, record counts of any two ranks differ by at most one |
| `InefficientDistribution.PatchObs` | src/distribution/InefficientDistribution.cc:41-49 | All flags are set on rank 0 and none elsewhere |
| `InefficientDistribution.IdentityIsSound` | src/distribution/InefficientDistribution.cc:99-101 | Ranks that all hold the same distinct locations, owned by rank 0 and indexed by position, meet the promise |
| `InefficientDistribution.IdentityGatherIsNoOp` | src/distribution/InefficientDistribution.h:38-73 | Leaving a vector alone gives every rank what gathering the patch locations would |
| `ReplicaDistribution.ReplicaOfGeneral.constructor` | src/distribution/ReplicaOfGeneralDistribution.cc:26-42 | The patch records are exactly the records of the master's patch locations |
| `ReplicaDistribution.ReplicaOfGeneral.AssignRecord` | src/distribution/ReplicaOfGeneralDistribution.cc:50-57 | Exactly the locations of the master's records are kept, flagged iff their record is a patch record |
| `ReplicaDistribution.ReplicaOfGeneral.AtPatchObs` | src/distribution/ReplicaOfGeneralDistribution.cc:266-278 | The elements at patch locations remain, or the size assertion fails |
| `ReplicaDistribution.ReplicaOfGeneral.ReceivePatchLocs` | src/distribution/ReplicaOfGeneralDistribution.cc:80-99 | The out-of-range access happens iff a gathered location is beyond the lookup vector, the error iff some held location was gathered from no rank, and otherwise every index points at its location |
| `ReplicaDistribution.GlobalNumLocs` | src/distribution/ReplicaOfGeneralDistribution.cc:66-70 | The agreed bound exceeds every kept location of every rank |
| `ReplicaDistribution.GatherPatchLocs` | src/distribution/ReplicaOfGeneralDistribution.cc:72-78 | What is gathered is the patch locations of all ranks in rank order |
| `ReplicaDistribution.GatheredIsBelow` | src/distribution/ReplicaOfGeneralDistribution.cc:82-85 | The write past the end of the lookup vector cannot happen |
| `ReplicaDistribution.ComputePatchLocs` | src/distribution/ReplicaOfGeneralDistribution.cc:65-99 | No rank throws iff every held location is in the patch of some rank, and then every index on every rank points at its location |
| `PairDistribution.PatchObs` | src/distribution/PairOfDistributions.cc:69-82 | For any two distributions, whether they check the size of the vector or fill whatever they are given, the call succeeds iff the vector has at least firstNumLocs elements and then yields the flags of the first followed by those of the second |
| `PairDistribution.GatherPairField` | src/distribution/PairOfDistributions.cc:246-254 | Gathering any function of the location over a pair gives that function of the joined locations |
| `PairDistribution.OffsetExact` | src/distribution/PairOfDistributions.cc:37-42 | The offset never exceeds the number of distinct first locations and equals it iff there are none or some rank's last location is the last gathered |
| `PairDistribution.OffsetOfNonoverlapping` | src/distribution/PairOfDistributions.cc:37-42 | Over a nonoverlapping first distribution the offset is the number of distinct first locations |
| `PairDistribution.OffsetOfIdentity` | src/distribution/PairOfDistributions.cc:37-42 | The same over the identity distribution |
| `PairDistribution.PairConsistentExactly` | src/distribution/PairOfDistributions.cc:258-264 | The pair meets the promise iff the offset is the number of distinct first locations or there are no second locations |
| `PairDistribution.PairIndexCollides` | src/distribution/PairOfDistributions.cc:258-264 | A smaller offset makes some first and some second location share an index |
| `PairDistribution.PairGatherAgrees` | src/distribution/PairOfDistributions.cc:246-264 | Where the offset is right, the gathered element at a location's index is the holder's own |
| `PairOverHalo.OffsetFallsShort` | src/distribution/PairOfDistributions.cc:37-42 | On every two-rank Halo whose shared last location is owned by rank 0 while rank 1 owns another, the offset is 2 for 3 distinct locations although the Halo itself meets the promise |
| `PairOverHalo.SharedLastExists` | src/distribution/PairOfDistributions.cc:37-42 | Such a Halo and stream exist |
| `PairOverHalo.RecordsThere` | src/distribution/ReplicaOfGeneralDistribution.cc:26-42 | On every such Halo the extension finds records 0 and 2 on rank 0 and 1 and 2 on rank 1, and the patch records are 0 and 2, and 1 |
| `PairOverHalo.PairCollides` | src/distribution/PairOfDistributions.cc:258-264 | On every such Halo, for every positive nlevs, the pair with the companion views of the records held and owned there gives an original location and a companion the same index |
| `PairOverHalo.OwnershipThere` | src/distribution/ReplicaOfGeneralDistribution.cc:26-42 | There every held record has exactly one owner, the premise under which replicas compute their patches without an error |
| `Accumulators.Accumulator.AddTerm` | src/distribution/GeneralDistributionAccumulator.h:29-38 | A term is added iff the distribution is not overlapping or the location is a patch location |
| `Accumulators.AddTerm` | src/distribution/PairOfDistributionsAccumulator.h:31-36 | A pair routes each term to the right accumulator at the right position, so both hold the local results of their own terms |
| `Accumulators.ComputeResults` | src/distribution/NonoverlappingDistributionAccumulator.h:20-40 | Every rank gets the sum over ranks, or its own sum where each rank holds everything |
| `Accumulators.ComputePairResults` | src/distribution/PairOfDistributionsAccumulator.h:38-40 | Every rank gets the results of both accumulators added |
| `Accumulators.ReducesToSerialSum` | src/distribution/GeneralDistributionAccumulator.h:21-44 | For general, nonoverlapping and identity distributions, adding the local results of all ranks gives every rank the serial sum over distinct locations |
| `Accumulators.PairReducesToSerialSum` | src/distribution/PairOfDistributionsAccumulator.h:20-46 | The sums of both sides of a pair add up to the serial sum over original and companion locations together |
| `Accumulators.ReducePair` | src/distribution/PairOfDistributionsAccumulator.h:20-46 | Accumulators that have taken the terms of both sides of a pair give every rank the serial sum over original and companion locations |
| `Accumulators.AddNonMissing` | src/distribution/DistributionUtils.cc:30-37 | The accumulator takes, location by location, the number of non-missing values of its row |
| `Accumulators.NonMissingIsCount` | src/distribution/DistributionUtils.cc:30-37 | What is counted in a row is its positions that hold a value |
| `Accumulators.DotIsPlain` | src/distribution/DistributionUtils.cc:47-59 | What is summed over two rows is the products at the positions with a value in both |
| `Accumulators.AddProducts` | src/distribution/DistributionUtils.cc:47-59 | The accumulator takes, location by location, the sum of products of non-missing pairs; the size assertion fails iff the vectors differ in length |
| `Accumulators.GlobalNumNonMissingObs` | src/distribution/DistributionUtils.cc:23-40 | Over a general, nonoverlapping or identity distribution every rank gets the number of pairs of a location held anywhere and a position of its row with a value |
| `Accumulators.GlobalNumNonMissingObsOfPair` | src/distribution/DistributionUtils.cc:23-40 | Over a pair every rank gets that number over original and companion locations |
| `Accumulators.DotProduct` | src/distribution/DistributionUtils.cc:42-62 | Over a general, nonoverlapping or identity distribution every rank gets the sum, over the locations held anywhere, of the products at positions with a value in both rows |
| `Accumulators.DotProductOfPair` | src/distribution/DistributionUtils.cc:42-62 | Over a pair every rank gets that sum over original and companion locations |
| `VectorAccumulators.VectorAccumulator.AddTerm` | src/distribution/GeneralDistributionAccumulator.h:56-64 | Every item is accumulated like a scalar, all or none |
| `VectorAccumulators.VectorAccumulator.AddTermToItem` | src/distribution/GeneralDistributionAccumulator.h:66-69 | One item is accumulated, the others stay |
| `VectorAccumulators.AddTerm` | src/distribution/PairOfDistributionsAccumulator.h:60-65 | Behind a single or paired accumulator, each item holds the local result of its own terms |
| `VectorAccumulators.AddItems` | src/distribution/GeneralDistributionAccumulator.h:56-69 | Adding a vector item by item is adding it at once |
| `VectorAccumulators.ComputeResults` | src/distribution/NonoverlappingDistributionAccumulator.h:62-70 | Every rank gets, item by item, the sum over ranks, or its own sum where each rank holds everything |
| `VectorAccumulators.ComputePairResults` | src/distribution/PairOfDistributionsAccumulator.h:74-80 | Every rank gets the results of both accumulators added item by item |
| `VectorAccumulators.SumVectors` | src/distribution/GeneralDistributionAccumulator.h:46-81 | From the terms of all ranks to the result: on every rank item i is the serial sum of field i over distinct locations |
| `VectorAccumulators.SumVectorsOfPair` | src/distribution/PairOfDistributionsAccumulator.h:48-86 | The same over a pair, for original and companion locations together |
| `Numbering.NumbersAreNumbering` | src/io/ObsFrameRead.cc:470-493 | Two locations share a number iff their keys are equal, and each new number is one more than the largest before |
| `Numbering.NumberingIsUnique` | src/io/ObsFrameRead.cc:470-493 | That requirement determines all numbers, so neither frames nor ranks can change them |
| `Numbering.JoinIsInjective` | src/io/ObsFrameRead.cc:531-538 | Joined keys are equal only for equal tuples if at most one grouping variable contains colons |
| `Numbering.JoinAppends` | src/io/ObsFrameRead.cc:531-538 | One segment is its own key, and each further one is appended after a colon |
| `Numbering.JoinCollides` | src/io/ObsFrameRead.cc:531-538 | For any two grouping variables, colons in both give two different tuples the same key |
| `ObsSource.KeptLocsMember` | src/io/ObsFrameRead.cc:378-455 | The serial filter keeps, in ascending order, exactly the locations that are after the start and up to the end of the window and have a latitude and a longitude, or all if the checks are off |
| `ObsSource.KeptLocsCount` | src/io/ObsFrameRead.cc:378-455 | It keeps as many locations as pass these conditions |
| `ObsSource.OutsideIsCounted` | src/io/ObsFrameRead.cc:416-426 | The outside count over any range is the number of its locations not after the start and up to the end of the window |
| `ObsSource.LocationsAddUp` | src/io/ObsFrameRead.cc:416-454 | With the checks on, kept, outside-window and position-less locations add up to the source's locations |
| `ObsSource.WithoutPositionIsCounted` | src/io/ObsFrameRead.cc:428-445 | The position-less locations are those in the window whose latitude or longitude is the fill value |
| `ObsSource.RecNumsFollowKeys` | src/io/ObsFrameRead.cc:458-493 | Without grouping each location is a record of its own; with grouping the numbers are the numbering of the joined keys |
| `ObsSource.SameRecordExactly` | src/io/ObsFrameRead.cc:458-543 | Two kept locations share a record number iff every grouping variable agrees at both, where at most one variable has strings with colons; without grouping iff they are the same location |
| `ObsSource.StreamElement` | src/io/ObsFrameRead.cc:584-593 | A location reaches the distribution with its own longitude and latitude as its point |
| `ObsSource.StreamIsConsecutive` | src/io/ObsFrameRead.cc:546-605 | Record numbers reach the distribution in consecutive order, for every source |
| `Distributions.AssignRecord` | src/io/ObsFrameRead.cc:584-603 | Whatever the distribution, an assigned location keeps it in step with the stream and isMyRecord answers as the stream determines |
| `FrameReader.OnePassIsClosed` | src/io/ObsFrameRead.cc:329-605 | The serial pass holds exactly the locations that pass the checks and whose record belongs to the rank, with the numbers their keys determine, and counts them |
| `FrameReader.PassHoldsPassing` | src/io/ObsFrameRead.cc:329-605 | A pass holds, ascending, only locations that pass the checks, and its counts are the numbers of passing and of outside locations |
| `FrameReader.ObsFrameRead.constructor` | src/io/ObsFrameRead.cc:32-119 | A new reader has read nothing |
| `FrameReader.ObsFrameRead.FrameInit` | src/io/ObsFrameRead.cc:124-152 | Reading starts at location 0 in the state of a serial pass over nothing |
| `FrameReader.ObsFrameRead.BasicFrameCount` | src/io/ObsFrameRead.cc:301-311 | Start and count cover the part of the dimension that the frame reaches, for every size including those before the frame |
| `FrameReader.ObsFrameRead.GenFrameLocationsAll` | src/io/ObsFrameRead.cc:365-375 | Without checks the frame contributes all its locations, continuing the serial filter |
| `FrameReader.ObsFrameRead.GenFrameLocationsWithQcheck` | src/io/ObsFrameRead.cc:378-455 | With checks the frame contributes exactly its locations after the start and up to the end of the window that have a latitude and a longitude, continuing the serial filter, and counts those outside the window |
| `FrameReader.ObsFrameRead.BuildObsGroupingKeys` | src/io/ObsFrameRead.cc:496-543 | The key built variable by variable is the colon-joined tuple of each location |
| `FrameReader.ObsFrameRead.GenRecordNumbersAll` | src/io/ObsFrameRead.cc:458-467 | Numbers continue across frames, one per location |
| `FrameReader.ObsFrameRead.NumberKey` | src/io/ObsFrameRead.cc:483-492 | A known key keeps its number, a new one gets the next |
| `FrameReader.ObsFrameRead.GenRecordNumbersGrouping` | src/io/ObsFrameRead.cc:470-493 | Numbers continue across frames as if all keys had been numbered at once |
| `FrameReader.ObsFrameRead.AssignOne` | src/io/ObsFrameRead.cc:584-603 | Reader and distribution stay in step, and a location is recorded iff its record belongs to the rank |
| `FrameReader.ObsFrameRead.ApplyMpiDistribution` | src/io/ObsFrameRead.cc:546-605 | After the frame the reader holds exactly what the rank keeps of the longer stream, the frame's share being appended in order, and the consecutive-order assertion has not fired |
| `FrameReader.ObsFrameRead.GenFrameIndexRecNums` | src/io/ObsFrameRead.cc:329-362 | One frame advances counts, numbers, index and distribution from the serial state at its start to the serial state at its end |
| `FrameReader.ObsFrameRead.FrameAvailable` | src/io/ObsFrameRead.cc:161-243 | There is another frame iff the start is below the largest dimension; then the reader is in the serial state at the frame's end, otherwise nothing changes but that the distribution is told once to compute its patches |
| `FrameReader.ObsFrameRead.FrameNext` | src/io/ObsFrameRead.cc:155-158 | The frame moves on by its size and the container position by the locations just held |
| `FrameReader.ObsFrameRead.AgreesWithDistribution` | src/io/ObsFrameRead.cc:593-602 | The reader's index is the location vector a Halo has stored, and as long as the count of a nonoverlapping distribution; it is strictly increasing |
| `FrameReader.IndexAscends` | src/io/ObsFrameRead.cc:594-602 | The index vector is strictly increasing and within what has been read |
| `Selections.FreshSelectionReads` | src/io/ObsFrame.cc:33-76 | Reading through the selection built for a variable gives its held rows of the frame, or all of them if it is not by location |
| `Selections.SelectionShapes` | src/io/ObsFrame.cc:33-76 | The buffer of a selection has as many elements as the selected block; the block's other dimensions are cropped to the frame size, except for channels, and not cropped in the container |
| `Selections.SelectionCaches.Clear` | src/ObsSpace.cc:767-769 | No selection survives from an earlier frame |
| `Selections.SelectionCaches.ReadFrameVar` | src/io/ObsFrameRead.h:237-276 | Hit or miss, the selection used is the one that would be built for this variable in this frame; nothing is read iff the frame has no rows of it |
| `Selections.SelectionCaches.StoreSelections` | src/ObsSpace.cc:1024-1064 | Hit or miss, source and target selection are those that would be built for this variable in this frame |
| `Loader.ReplaceFillValues` | src/ObsSpace.cc:701-746 | Cell by cell: a fill value, infinity or NaN becomes a missing mark if the variable has a fill value, and any other cell stays |
| `Loader.TransferVar` | src/ObsSpace.cc:781-800 | The frame's rows of a variable, normalised, replace one block of the table and nothing else |
| `Loader.ResizeLocation` | src/ObsSpace.cc:827-837 | Tables by location grow by the frame's share, or are cut to it on the first frame; others stay |
| `Loader.BlankContainer` | src/ObsSpace.cc:609-647 | The container starts with missing marks in every row, and with at most one frame of locations |
| `Loader.LoadFrame` | src/ObsSpace.cc:759-803 | After a frame, tables by location hold the normalised source rows of all locations held so far, and the others are copied up to the frame's end |
| `Loader.LoadNext` | src/ObsSpace.cc:759-803 | One turn of the loop takes reader, distribution and container from the serial state at the start of a frame to that at its end, and stops iff the largest dimension is exhausted |
| `Loader.InitFromObsSource` | src/ObsSpace.cc:749-824 | For every frame size of at least 1 the load ends in the state of the serial pass, with the distribution fed exactly its stream, patches computed once, and row k of every table by location the normalised source row of the k-th held location; held locations pass the checks, and both global counts are the numbers of passing and of outside locations |
| `Loader.LoadedCell` | src/ObsSpace.cc:749-824 | Cell by cell, a loaded table holds the source cell at the k-th held location, or a mark if the variable has a fill value and the cell equals it or is infinite or NaN |
| `LoadAll.LoadRank` | src/ObsSpace.cc:749-824 | On one rank of a Halo the reader ends where a single pass ends, in all its counts, numbers and vectors, the Halo has been fed the whole stream and told once to compute its patches, and the container has the rows of the held locations |
| `LoadAll.LoadOverHalo` | src/ObsSpace.cc:749-824 | After all ranks have loaded, with any frame sizes, the Halo's views meet the promise with patches on the nearest ranks; each reader is where a single pass ends, each Halo answers for its records of the stream and has one flag per location of its reader, and each container has the rows of exactly its rank's locations |
| `LoadAll.WholePassHolds` | src/io/ObsFrameRead.cc:546-605 | A whole pass leaves the rank's locations and records of the stream, as many distinct records as nrecs says, and gnlocs the number of locations that pass the checks |
| `LoadAll.HoldsExactly` | src/io/ObsFrameRead.cc:546-605 | A rank of a Halo ends up with exactly the locations that pass the checks and whose record has its first passing location at most the radius away, for every source |
| `RecordIndex.PositionsMember` | src/ObsSpace.cc:1284-1289 | The reference list of a record is its locations in ascending order |
| `RecordIndex.BuildRecIdxUnsorted` | src/ObsSpace.cc:1284-1289 | Each record has an entry listing all its locations in ascending order |
| `RecordIndex.Order.SortSorts` | src/ObsSpace.cc:1233-1244 | Sorting a duplicate-free list makes the values go up, or down, with equal values by ascending location |
| `RecordIndex.Collect` | src/ObsSpace.cc:1207-1224 | The temporary maps hold, per record and treatment, the locations to sort, those without a value, their pattern and whether there are any |
| `RecordIndex.SortRecords` | src/ObsSpace.cc:1226-1245 | Every record is sorted except, under NO_SORT, those with a missing value |
| `RecordIndex.Merge` | src/ObsSpace.cc:1256-1278 | Slots with a missing value take the missing locations in turn, the others the sorted ones |
| `RecordIndex.MakeEntry` | src/ObsSpace.cc:1248-1280 | The finished list is an entry: each location once, fixed slots unmoved, the others in order |
| `RecordIndex.EntryIsUnique` | src/ObsSpace.cc:1226-1280 | The requirements on an entry leave only one list |
| `RecordIndex.BuildSortedObsGroups` | src/ObsSpace.cc:1168-1281 | For both orders and all three treatments the entries are exactly those required, in plain terms: all locations of the record once; under SORT values go up or down, equal ones by location; NO_SORT does so unless a value is missing and then lists locations in order; IGNORE_MISSING leaves each missing location at its rank among the record's locations and puts the others in order |
| `RecordIndex.SortedIndexCovers` | src/ObsSpace.cc:1248-1280 | A location is listed at most once, under its own record only, and it is listed iff its record has an entry |
| `RecordIndex.SortedIndexLacks` | src/ObsSpace.cc:1207-1280 | A record has no entry iff the treatment is IGNORE_MISSING and all its sort values are missing |
| `Companions.SameCompanion` | src/ObsSpace.cc:1384 | Companion numbers are equal iff record and level are |
| `Companions.LevelAt` | src/ObsSpace.cc:1374-1394 | Level lev of the k-th record stands at position k nlevs + lev and has number rec nlevs + lev |
| `Companions.CompanionAscending` | src/ObsSpace.cc:1374-1394 | Companions are assigned in strictly ascending order, nlevs per record |
| `Companions.CompanionsAreCovered` | src/distribution/ReplicaOfGeneralDistribution.cc:87-93 | If each held record has an owner, every companion is in the patch of some rank, so the replica's error is unreachable |
| `Companions.CompanionsAreDistinct` | src/distribution/ReplicaOfGeneralDistribution.cc:72-78 | No companion is in the patches of two ranks |
| `Companions.CompanionsAreSound` | src/distribution/ReplicaOfGeneralDistribution.cc:65-99 | Replicas fed the companions of their records meet the promise |
| `Companions.CompanionCount` | src/ObsSpace.cc:1442-1447 | The distinct companions of all ranks number nlevs times the distinct records held anywhere |
| `Extension.CreateReplicaDistribution` | src/distribution/DistributionUtils.cc:141-152 | The kind of replica follows the kind of master; it asks the master for its records, and a general one takes the master's patch records |
| `Extension.AssignCompanion` | src/ObsSpace.cc:1386-1389 | An assigned companion keeps the replica in step, and its isMyRecord is the master's |
| `Extension.ObsSpace.AddLocation` | src/ObsSpace.cc:1382-1393 | One companion is appended to index, record numbers and record index; the assertion on the replica holds |
| `Extension.ObsSpace.AddLevels` | src/ObsSpace.cc:1382-1393 | The levels of one companion record are appended in order and no assertion fails |
| `Extension.ObsSpace.AddRecord` | src/ObsSpace.cc:1375-1394 | The companion record of an original is appended level by level; an assertion fails iff the master disowns the original |
| `Extension.ObsSpace.AddCompanions` | src/ObsSpace.cc:1347-1394 | An assertion fails iff the master disowns a listed record; otherwise the vectors grow by the companions of the rank's records, original entries of the record index are untouched and companion entries list exactly their locations |
| `ExtendedWorld.GlobalBounds` | src/ObsSpace.cc:1356-1363 | Every rank's last location and all of its records lie below the bounds, and the numbers just below the bounds are the last location and a record of some rank |
| `ExtendedWorld.BoundsHold` | src/ObsSpace.cc:1356-1363 | With ascending locations, the bounds are one more than the largest location and the largest record of all ranks |
| `ExtendedWorld.SameIndexSamePlace` | src/ObsSpace.cc:1383-1391 | Extended locations of any two ranks have the same global index iff they are the same original location or the same level of the same record |
| `ExtendedWorld.ExtendedVectorsAre` | src/ObsSpace.cc:1374-1394 | The original elements stay; after them come, for each distinct record in ascending order, nlevs locations numbered from the bound plus rec nlevs on, under record bound plus rec |
| `ExtendedWorld.ExtendedIndexIs` | src/ObsSpace.cc:1380-1392 | Original entries of the record index stay, and a companion entry lists exactly its record's locations in ascending order |
| `ExtendedWorld.ExtendedAscends` | src/ObsSpace.cc:1383-1391 | The global index stays strictly increasing on each rank |
| `ExtendedWorld.CompanionsFollowOriginals` | src/ObsSpace.cc:1365-1394 | A rank holds a companion record iff it holds the original, and no original record appears or disappears |
| `ExtendedWorld.RecordsAreCounted` | src/ObsSpace.cc:1379 | The number of distinct record numbers grows by exactly what is added to nrecs, so nrecs stays that number |
| `ExtendedWorld.ExtendedIndexIsUnsorted` | src/ObsSpace.cc:1380-1392 | An unsorted record index remains the index of the longer record-number vector |
| `ExtendedWorld.HaloOwnership` | src/distribution/ReplicaOfGeneralDistribution.cc:26-42 | Over a Halo the master's patch records give every held record exactly one owner, which holds it |
| `ExtendedWorld.NonoverlappingOwnership` | src/distribution/ReplicaOfNonoverlappingDistribution.cc:33-35 | Over a nonoverlapping distribution each rank owns what it holds |
| `ExtendedWorld.PatchGeneral` | src/distribution/ReplicaOfGeneralDistribution.cc:65-99 | Given such owners, no rank throws and the replicas meet the promise |
| `ExtendedWorld.PatchNonoverlapping` | src/distribution/NonoverlappingDistribution.cc:45-48 | Replicas of a nonoverlapping distribution meet the promise on the companions |
| `ExtendedWorld.IdentityCompanions` | src/distribution/InefficientDistribution.cc:41-49 | So do replicas of the identity distribution |
| `ExtendedWorld.CountLocal` | src/ObsSpace.cc:1444-1446 | Each companion of a rank contributes one term |
| `ExtendedWorld.CountCompanions` | src/ObsSpace.cc:1442-1447 | Every rank learns the number of distinct companions |
| `ExtendedWorld.PairHoldsExtended` | src/ObsSpace.cc:1449-1453 | The locations of the pair are the extended global index of the rank |
| `ExtendedWorld.PairOwnsExtendedRecords` | src/distribution/PairOfDistributions.cc:61-66 | The pair says yes to a record iff the extended ObsSpace lists it |
| `ExtendedWorld.ExtendedNonoverlapping` | src/ObsSpace.cc:1449-1453 | Extending a nonoverlapping distribution gives a pair that meets the promise |
| `ExtendedWorld.ExtendedIdentity` | src/ObsSpace.cc:1449-1453 | So does extending the identity distribution |
| `ExtendedWorld.ExtendedGeneral` | src/ObsSpace.cc:1449-1453 | Extending any other distribution does iff some rank's last location is the last gathered, or one side is empty |
| `ExtendedVariables.FindFillValue` | src/ObsSpace.cc:1307-1314 | The value found is that of the first location of the record that has one |
| `ExtendedVariables.FirstValueIsFirst` | src/ObsSpace.cc:1307-1314 | The first value is the value at the first non-missing location, and missing if there is none |
| `ExtendedVariables.FillRecord` | src/ObsSpace.cc:1318-1322 | Exactly the listed locations get the value |
| `ExtendedVariables.ExtendVariable` | src/ObsSpace.cc:1292-1327 | For variables of any width, read as one vector with at least one value per location: every position ends with the value determined by the original values alone, no record's writes affecting another's search. Companion entries that the lookup creates are empty |
| `ExtendedVariables.ExtendRecord` | src/ObsSpace.cc:1303-1325 | One record's turn fills the positions numbered like its companions and at most adds an empty entry to the record index |
| `ExtendedVariables.IndexStays` | src/ObsSpace.cc:1318-1322 | After a real extension the lookup finds every companion, so the record index does not change |
| `ExtendedVariables.ExtendedValues` | src/ObsSpace.cc:1292-1327 | Positions numbered like original locations are unchanged, those numbered like companions of an indexed record hold that record's first value or stay missing, those of a record without an entry and all further positions keep their values |
| `WideVariables.FilledRightExactly` | src/ObsSpace.cc:1291-1327 | On any extended rank with an indexed record, filling keeps all original values and gives each companion the first value of its record, column by column, for every content of the variable, iff it has one value per location |
| `WideVariables.OriginalsKeptExactly` | src/ObsSpace.cc:1316-1322 | The original values alone are kept for every content iff there is one value per location or no companion to be filled has a number below the number of original values |
| `WideVariables.LowestIsHit` | src/ObsSpace.cc:1316-1322 | With two or more values per location, that second condition fails whenever the rank's lowest record is indexed |
| `WideVariables.ValueIsLost` | src/ObsSpace.cc:1300-1326 | Two values per location, one record of two locations, one level: the first value of the second location is overwritten and the companion stays missing |
| `ExtendedContainers.FillTable` | src/ObsSpace.cc:1291-1327 | A table is read, filled and written back row-major, and the record index does not change |
| `ExtendedContainers.FillingTwice` | src/ObsSpace.cc:1417-1433 | A variable listed twice ends like one listed once |
| `ExtendedContainers.ExtendContainer` | src/ObsSpace.cc:1400-1433 | Every table by location gets blank rows for the companions, exactly the listed ones are filled, others stay, and the record index does not change |
| `ExtendedContainers.OriginalRowStays` | src/ObsSpace.cc:1400-1433 | Rows of original locations stay, those of a listed variable under the condition of OriginalsKeptExactly |
| `ExtendedContainers.FinalOriginalRow` | src/ObsSpace.cc:1400-1433 | Under that condition the final row of an original location is the normalised source row |
| `ExtendedContainers.FinalOriginalCell` | src/ObsSpace.cc:1400-1433 | The same cell by cell, in terms of the source cells and the fill value |
| `ExtendedContainers.ListedCompanionRow` | src/ObsSpace.cc:1400-1433 | With one value per location, the companion rows of a listed variable hold the first value of their record, and are blank if it has no entry |
| `ExtendedVariables.ExtensionIsReady` | src/ObsSpace.cc:1380-1392 | After the extension each indexed original has an indexed companion and entries list their own record's locations |
| `ExtendedVariables.UnsortedListsOwn` | src/ObsSpace.cc:1284-1289 | The unsorted record index lists only locations of its own records |
| `ExtendedVariables.SortedListsOwn` | src/ObsSpace.cc:1248-1280 | The sorted record index, too, lists only locations of its own records |
| `ExtendAll.HaloHoldsItsRecords` | src/distribution/Halo.cc:108-110 | A Halo says yes to exactly the records its reader has kept, so the loop's first assertion holds |
| `ExtendAll.MastersAreReady` | src/ObsSpace.cc:1365-1376 | Over a Halo that has been fed what the ObsSpaces hold, no rank's master disowns a listed record: the assertion of the loop cannot fail |
| `ExtendAll.ExtendRank` | src/ObsSpace.cc:1365-1394 | One rank's part, over any distribution: an assertion fails iff the master disowns a listed record; otherwise the vectors have grown and the replica is in step |
| `ExtendAll.PatchOverHalo` | src/ObsSpace.cc:1395 | Over a Halo no replica throws, the companions meet the promise with owners following the Halo's patches, and each replica says yes to exactly the original records of its rank |
| `ExtendAll.CompanionsAnswer` | src/distribution/ReplicaOfGeneralDistribution.cc:60-62 | A replica fed the companions of a rank's records says yes to exactly those records |
| `ExtendAll.MakePairs` | src/distribution/PairOfDistributions.cc:26-45 | The pairs of all ranks get one common offset, the maximum over ranks of the last index of the first distribution plus one |
| `ExtendAll.ExtendedDistribution` | src/ObsSpace.cc:1449-1453 | The pairs' locations are the extended global indices, and the pairs meet the promise iff some rank's last location is the last gathered, or one side is empty |
| `ExtendAll.PairAnswers` | src/distribution/PairOfDistributions.cc:61-66 | The pair of a rank says yes to exactly the records that the extended ObsSpace lists |
| `ExtendAll.RankIsExtended` | src/ObsSpace.cc:1374-1394 | An extended rank counts its records in nrecs and its pair answers for exactly these |
| `ExtendAll.PairUp` | src/ObsSpace.cc:1449-1453 | Over patched Halos and their replicas, the pairs are those of the extended ranks and make up the extended distribution |
| `ExtendAll.ExtendOverHalo` | src/ObsSpace.cc:1330-1460 | Extension happens on every rank iff nlevs and gnlocs are positive and records exist; then no assertion fails, the bounds are the global maxima, every rank gets the companions of its records and counts them in nrecs, the replicas meet the promise, gnlocs grows by nlevs per record held anywhere, and the pairs hold the extended index, answer for the listed records and meet the promise iff some rank's last location is the last gathered or one side is empty |
| `ExtendNonoverlapping.HoldsItsRecords` | src/distribution/RoundRobin.cc:51-53 | Of the records assigned anywhere, a RoundRobin or Atlas distribution says yes to exactly those its reader has kept |
| `ExtendNonoverlapping.MasterAdmits` | src/ObsSpace.cc:1374-1376 | So the assertion on the master holds for every record of the rank |
| `ExtendNonoverlapping.PatchRanks` | src/distribution/NonoverlappingDistribution.cc:45-48 | After any ascending stream, computing patches leaves ranks ready for the extension |
| `ExtendNonoverlapping.RecordsHaveOneOwner` | src/distribution/ReplicaOfNonoverlappingDistribution.cc:33-35 | Every record held somewhere has exactly one owner, the rank that holds it |
| `ExtendNonoverlapping.PatchReplicas` | src/ObsSpace.cc:1395 | The replicas of all ranks meet the promise on the companions, all of which are gathered |
| `ExtendNonoverlapping.PairAnswers` | src/distribution/PairOfDistributions.cc:61-66 | Of the records listed on any rank, the pair of a rank says yes to exactly those listed on its own |
| `ExtendNonoverlapping.ExtendedDistribution` | src/ObsSpace.cc:1449-1453 | The pairs' locations are the extended global indices, and the pairs meet the promise |
| `ExtendNonoverlapping.ExtendOverNonoverlapping` | src/ObsSpace.cc:1330-1460 | The extension over RoundRobin or Atlas: it happens under the same condition, no assertion fails, bounds, vectors, nrecs and gnlocs are as over a Halo, and the pairs meet the promise without a condition |
| `Construction.BuildSpace` | src/ObsSpace.cc:216-232 | An ObsSpace takes index, records and counts from its reader, and its record index is the unsorted or the sorted one that the sort option asks for |
| `Construction.BuildSpaces` | src/ObsSpace.cc:216-232 | The same on every rank |
| `Construction.BuiltIsOriginal` | src/ObsSpace.cc:216-238 | Spaces built from whole passes hold what the ranks keep of the stream, and index no other records |
| `Construction.AllAreHeld` | src/ObsSpace.cc:1442-1447 | The records held on any rank are those of the stream whose first location is at most some rank's radius away |
| `Construction.BuiltHoldsExactly` | src/ObsSpace.cc:149-232 | Before the extension a rank holds exactly the locations that pass the checks and whose record starts within its radius, and a sorted record index is arranged by the sort values as the treatment asks |
| `Construction.LoadAndIndex` | src/ObsSpace.cc:149-232 | From fresh readers and Halos to loaded containers, patched Halos and indexed spaces on all ranks, each reader done and each distribution told once to compute its patches, gnlocs being the number of locations that pass the checks |
| `Construction.FillOverHalo` | src/ObsSpace.cc:1400-1433 | On every rank of an extended Halo the container is extended and its listed variables are filled |
| `Construction.ConstructOverHalo` | src/ObsSpace.cc:118-238 | The whole constructor, from the source alone: nothing fails; extension happens iff nlevs is positive, some location passes the checks and there are grouping variables; gnlocs ends as the passing locations plus nlevs per record within some rank's radius; containers end as loaded, or extended and filled; spaces, replicas and pairs are as for the extension |
| `CharArrays.CharShapeFromStringVector` | src/core/IodaUtils.cc:22-34 | The shape is the number of strings and the length of the longest |
| `CharArrays.StringVectorToCharArray` | src/core/IodaUtils.cc:72-87 | Row i of the buffer is string i, cut or filled with blanks; the rest of the buffer is untouched |
| `CharArrays.CharArrayToStringVector` | src/core/IodaUtils.cc:38-68 | String i is row i without its trailing white space and NULs |
| `CharArrays.StripIsTrimmedPrefix` | src/core/IodaUtils.cc:61-64 | Stripping gives the one prefix that does not end in white space and leaves only white space behind |
| `CharArrays.StripsSeven` | src/core/IodaUtils.cc:61-64 | Exactly blank, tab, line feed, carriage return, form feed, vertical tab and NUL are dropped from the end |
| `CharArrays.RoundTrip` | src/core/IodaUtils.cc:22-87 | Writing and reading back strips every string and changes nothing else |
| `CharArrays.UnchangedExactly` | src/core/IodaUtils.cc:38-68 | A string survives the round trip iff it does not end in white space or NUL |
| `CharArrays.RowRoundTrip` | src/core/IodaUtils.cc:38-87 | A row survives reading and writing iff its trailing white space is blanks |

## Left out

- The storage engines (ObsGroup, Variable, Selection, HDF5, ODB): a variable is a table of rows, and reading or writing through a selection is taking or replacing rows.
- Trailing dimensions: the cropping of dimensions other than Location and Channel to the frame size enters the selection extents only; the rows themselves are copied whole, as if trailing dimensions fit in a frame.
- `eckit::geometry::Sphere::distance` and the Atlas polygon locator: functions from points to reals and to partitions. That the locator finds a rank for every point is a premise of the Atlas results that need it (`CoversStream`).
- Floating point: distances, sort values, sums and products are reals. NaN and infinity appear only as cells that the reader replaces. Counts that the source keeps in `size_t` accumulators are reals in `Accumulators`.
- Integer widths: locations, records and counts are unbounded; the marker for an unassigned lookup entry is -1.
- Dates, datetime conversion, units and number-to-string conversion: times are integers, grouping key segments are given strings, sort values and their missing flags are inputs of the sort. The string and offset datetime variables that the load skips are not in the model's list of variables.
- Errors about missing latitude, longitude or time variables: a source has them.
- `Distribution::min` and `max`, also of a pair, beyond the maxima used by the extension and the pair offset.
- RoundRobin and Atlas inside the driver of the whole constructor, and the identity distribution inside any driver: the loads, patches and replicas of these are proved one by one (`InitFromObsSource`, `PatchAfterRead`, `ExtendRank`, `IdentityCompanions`, `ExtendedIdentity`), and the extension over RoundRobin and Atlas as a whole; the constructor is driven over a Halo.
- ExtendAll.ExtendOverHalo: leaves the variables to `ExtendedContainers.ExtendContainer`; `Construction.ConstructOverHalo` runs both.
- ExtendNonoverlapping.ExtendOverNonoverlapping: likewise without the variables.
- FrameReader.ObsFrameRead.FrameAvailable: the call of computePatchLocs is a counter on the rank, because the collective needs all ranks; the drivers run it.
- RecordIndex.Order.Sort: stands for std::sort; uniqueness of the sorted list makes the choice of algorithm immaterial.
- The extendedObsSpace flag variable.
- A variable listed for filling that has fewer values than the rank has locations, such as one without the Location dimension: the program then indexes out of range. The model demands enough values, and the drivers a variable by location.
- Saving, writing, logging, run statistics, parameters, factories, Fortran wrappers, the validator, the tools and ObsVector arithmetic.
