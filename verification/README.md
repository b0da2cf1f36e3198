# Proofs about the all-to-all experiment and its Open MPI parts

This project models the parts of the repository that carry the most logic, and proves
what they are for. Each component has its own modules.

- **Red-black tree** (`Rb*.dfy`). Nodes on the heap with parent links, a sentinel whose
  parent is written by deletion, and a fake root. The heap is tied to a tree with one
  subtree in focus, so each pointer step is one step on that tree. Deletion compares with
  a root that it read before it rotated; the proof shows which node that is then.
- **Communicator ids** (`Cid*.dfy`, `CommRequests.dfy`, `TreeAllreduce.dfy`). The blocking
  and the non-blocking agreement as steps of processes that interleave freely, with the
  test-and-set of a slot atomic and the collective maximum and minimum common to all
  members; the local code of one process as a class over its tables; the scheduler that
  makes the callbacks of the non-blocking version; and the reduction over a binary tree
  of plain messages.
- **Packed datatype descriptions** (`Desc*.dfy`). Packing through a moving cursor into a
  byte buffer of a size recorded in advance, and rebuilding from the bytes.
- **Derived datatypes** (`Type*.dfy`, `Distribution.dfy`, `GridPartition.dfy`). Each
  datatype is an object with its type map as in section 4.1 of MPI-3.1, its bounds and
  its alignment; the constructors append to it as the program does.
- **Schedules** (`LatinSquare.dfy`, `Alltoall.dfy`). The generator with its rows updated in
  place and every random choice left open, and the two exchanges as message passing, in one
  call and in calls that follow each other with one tag.
- **Indexes and tables** (`SeqTracker.dfy`, `Group*.dfy`, `Attribute*.dfy`).

Where a claim of the program or its comments does not hold for every input, the exact
condition is proved: the stride of -1 that a vector reads as "no stride"
(`TypeCreate.VectorExact`), the wrap-around of the tracker at the ends of its range
(`SeqTracker.InsertExact`), the same stride inside a subarray (`TypeSubarray.CreateSubarray`),
the duplicate of a predefined datatype whose recorded size is one integer short
(`DescPacking.Datatype.SetArgs`), repeated ranks in a bitmap group
(`GroupBitmap.RightForStrict`, `GroupTranslate.Include`), a keyval that is freed twice
(`AttributeTables.Registry.FreeKeyval`), attributes copied to an object without a table
(`AttributeTables.Registry.CopyAll`), a failed callback whose code is dropped
(`CommRequests.FailureReported`) and the block dimension inside a cyclic one
(`TypeDarray.CreateDarray`, `TypeDarrayCases.TameFits`). Each comes with a lemma at an
input. The program's own calls of the copy first make the table. The dropped code takes a
request with more than one item: every request of `comm_cid.c` and `comm.c` has one item at
a time and appends none when it fails, so there it does not happen
(`CommRequests.CidFails`). The comment of the bitmap group speaks of increasing ranks where
its check lets equal ones pass; the model follows the code.

Methods with a ghost parameter or result carry the place in the tree or the part of the
specification they have reached; the other parameters are the program's. Callbacks, random
choices and the supply of free nodes are parameters or open choices.

`dafny verify dfyconfig.toml` checks all of it.

## Model

| member | source | states |
|---|---|---|
| `RedBlackTree.RbTree.Delete` | ompi1-dev/openmpi/ompi/class/ompi_rb_tree.c:215-262 | removes exactly the entry the search for the key stops at and no other, and reports a missing key without a change; order, parent links, no red child of a red node, equal black heights, black root, black sentinel and the recorded size all hold again (`Valid`) |
| `RedBlackTree.RbTree.DeleteNode` | ompi1-dev/openmpi/ompi/class/ompi_rb_tree.c:226-261 | deleting a node of the tree removes the entry of that node, whether the node itself or its successor is unlinked |
| `RedBlackTree.RbTree.ToUnlink` | ompi1-dev/openmpi/ompi/class/ompi_rb_tree.c:226-230 | the unlinked node has at most one child, and is the node itself or the one right after it in order |
| `RedBlackTree.RbTree.Unlink` | ompi1-dev/openmpi/ompi/class/ompi_rb_tree.c:232-248 | splicing a black node out leaves a tree that lacks one black node on exactly one path family, splicing a red one a proper tree; the sentinel gets a parent and stays black |
| `RbDelete.DeleteFixup` | ompi1-dev/openmpi/ompi/class/ompi_rb_tree.c:346-405 | from a tree one black node short the loop ends with a red-black tree of the same order of nodes, although the root it compares with was read before the rotations |
| `RbDelete.FixLeft` | ompi1-dev/openmpi/ompi/class/ompi_rb_tree.c:351-374 | one round on the left side keeps the order of the nodes and either ends the deficit or moves it one level up |
| `RbDelete.FixRight` | ompi1-dev/openmpi/ompi/class/ompi_rb_tree.c:375-400 | the same on the right side |
| `RbDelete.StaleBlack` | ompi1-dev/openmpi/ompi/class/ompi_rb_tree.c:349-350 | why the stale root is harmless: in the state in which the loop jumps to it, it is a black node of the tree |
| `RbDelete.BlackenLast` | ompi1-dev/openmpi/ompi/class/ompi_rb_tree.c:403-404 | the last colouring turns the state the loop leaves, with the current or the stale root, into a red-black tree |
| `RedBlackTree.RbTree.Insert` | ompi1-dev/openmpi/ompi/class/ompi_rb_tree.c:109-169 | the contents become the sorted insertion of the new pair (before equal keys), every invariant of the tree holds again, and an empty pool of nodes changes nothing |
| `RedBlackTree.RbTree.BtreeInsert` | ompi1-dev/openmpi/ompi/class/ompi_rb_tree.c:313-343 | the new red leaf hangs between its neighbours in key order, and the rest of the tree is as before |
| `RbInsert.Climb` | ompi1-dev/openmpi/ompi/class/ompi_rb_tree.c:131-165 | the climb ends with no red-red edge and the same order of nodes |
| `RbInsert.RecolorStep` | ompi1-dev/openmpi/ompi/class/ompi_rb_tree.c:134-138 | a red uncle moves the red-red edge two levels up and keeps the order |
| `RbInsert.LiftLeftStep` | ompi1-dev/openmpi/ompi/class/ompi_rb_tree.c:144-146 | a black uncle ends the climb by one rotation |
| `RbInsert.LiftRightStep` | ompi1-dev/openmpi/ompi/class/ompi_rb_tree.c:160-162 | the mirror image |
| `RbRotate.LeftRotate` | ompi1-dev/openmpi/ompi/class/ompi_rb_tree.c:472-497 | changes exactly the links a left rotation names |
| `RbRotate.RightRotate` | ompi1-dev/openmpi/ompi/class/ompi_rb_tree.c:503-525 | changes exactly the links a right rotation names |
| `RbRotate.RotateLeftIn` | ompi1-dev/openmpi/ompi/class/ompi_rb_tree.c:472-497 | in any place of a linked tree these link changes are the rotation of the subtree: same nodes, same order, links still mutual |
| `RbRotate.RotateRightIn` | ompi1-dev/openmpi/ompi/class/ompi_rb_tree.c:503-525 | the mirror image |
| `RedBlackTree.RbTree.FindWith` | ompi1-dev/openmpi/ompi/class/ompi_rb_tree.c:172-190 | a hit has a comparing-equal key; a search with a function that is monotone on the contents hits exactly if such a key is there; the nodes it visits are those of the recursive search, at most 2 log2(n + 1) |
| `RedBlackTree.RbTree.Descend` | ompi1-dev/openmpi/ompi/class/ompi_rb_tree.c:195-212 | the loop reaches the node that the recursive search of the tree reaches |
| `RedBlackTree.HeightBound` | ompi1-dev/openmpi/ompi/class/ompi_rb_tree.c:172-190 | the height is at most twice the black height, and the black height logarithmic in the number of nodes |
| `RedBlackTree.RbTree.Successor` | ompi1-dev/openmpi/ompi/class/ompi_rb_tree.c:286-307 | the next node in order, or the sentinel after the last |
| `RedBlackTree.RbTree.Traverse` | ompi1-dev/openmpi/ompi/class/ompi_rb_tree.c:437-467 | calls the action on exactly the accepted entries, in key order |
| `RedBlackTree.RbTree.constructor` | ompi1-dev/openmpi/ompi/class/ompi_rb_tree.c:70-105 | a new tree is valid and empty |
| `RbEntries.InsertedMeaning` | ompi1-dev/openmpi/ompi/class/ompi_rb_tree.c:325-335 | the insertion used as specification keeps a sequence sorted and adds exactly the new pair |
| `RbEntries.RemoveAtMeaning` | ompi1-dev/openmpi/ompi/class/ompi_rb_tree.c:215-262 | the removal used as specification keeps a sequence sorted and takes away exactly one pair |
| `CidSafety.Agreement` | ompi1-dev/openmpi/ompi/communicator/comm_cid.c:241-319 | in every reachable state of every interleaving: once one member commits, all members are set on the same id in the same round, and each owns that slot |
| `CidSafety.UniqueIds` | ompi1-dev/openmpi/ompi/communicator/comm_cid.c:241-319 | two live communicators that share a process never have the same id, nor an id that was taken before |
| `CidSafety.NothingLeaks` | ompi1-dev/openmpi/ompi/communicator/comm_cid.c:280-314 | a process with no allocation under way has exactly the slots it had before and one for each id it committed |
| `CidSafety.NextInv` | ompi1-dev/openmpi/ompi/communicator/comm_cid.c:397-511 | every step of either version keeps the ownership of slots, the history of the collective values and what earlier rounds have shown |
| `CidSafety.RunInv` | ompi1-dev/openmpi/ompi/communicator/comm_cid.c:190-325 | so it holds in every state of every run |
| `CidProgress.NoDeadlock` | ompi1-dev/openmpi/ompi/communicator/comm_cid.c:241-251 | when all members of every pending allocation have registered, the one with the smallest parent is first in every list it is in, and some member of it can step, with overlapping communicators too |
| `CidProgress.NoDeadlockInTurn` | ompi1-dev/openmpi/ompi/communicator/comm_cid.c:538-607 | the same when a communicator id is used again before all are done with it, by the same or by other members: each process takes its allocations on one id in a common order |
| `CidSteps.EndsDone` | ompi1-dev/openmpi/ompi/communicator/comm_cid.c:241-325 | a run of any number of overlapping allocations that cannot go on has ended with every member of every allocation done, where each process takes its allocations on one id in a common order |
| `CidSteps.RunsEnd` | ompi1-dev/openmpi/ompi/communicator/comm_cid.c:241-315 | every run of any allocations is finite, with a bound from the members and the number of ids |
| `CidRounds.MaximumRises` | ompi1-dev/openmpi/ompi/communicator/comm_cid.c:307-314 | in every run, whatever else is allocated, the proposed id rises strictly from round to round and stays a possible id, also in the non-blocking version where only the members that could reserve the id advance |
| `CidRounds.RoundsBounded` | ompi1-dev/openmpi/ompi/communicator/comm_cid.c:241-315 | so no allocation has more rounds than there are ids |
| `CidProgress.RunListed` | ompi1-dev/openmpi/ompi/communicator/comm_cid.c:538-607 | in every run the list of a process is sorted and holds exactly the parents of its active allocations, of which no two have the same one |
| `CidProgress.LowestIsFirst` | ompi1-dev/openmpi/ompi/communicator/comm_cid.c:609-615 | the pending allocation with the smallest parent is the first of every list it is in |
| `CidProgress.RegisteredMeaning` | ompi1-dev/openmpi/ompi/communicator/comm_cid.c:554-577 | registering keeps the list sorted and adds exactly the id |
| `CidProgress.UnregisteredMeaning` | ompi1-dev/openmpi/ompi/communicator/comm_cid.c:596-602 | unregistering keeps the list sorted and removes exactly the id |
| `CidLeast.CommitsLeast` | ompi1-dev/openmpi/ompi/communicator/comm_cid.c:239-319 | an allocation that has no process in common with another commits the least id that was free at every member, in both versions and whatever the others do |
| `CidLeast.NeverAbove` | ompi1-dev/openmpi/ompi/communicator/comm_cid.c:253-264 | no id that it proposes is above the answer |
| `CidLeast.FewRounds` | ompi1-dev/openmpi/ompi/communicator/comm_cid.c:241-315 | it has at most as many failed rounds as the answer |
| `CidLeast.RunsAreFinite` | ompi1-dev/openmpi/ompi/communicator/comm_cid.c:241-315 | a bound on its steps in every run from the number of its members and the answer alone; if it is the only one, a bound on the run |
| `CidLeast.EndsWithLeast` | ompi1-dev/openmpi/ompi/communicator/comm_cid.c:503-510 | where none of its members can go on, every member is done with the least common id, whatever the others do |
| `CidLeast.LeastExists` | ompi1-dev/openmpi/ompi/communicator/comm_cid.c:239-239 | there always is an id that is free everywhere, so a least one |
| `CidTables.Tables.TryRegister` | ompi1-dev/openmpi/ompi/communicator/comm_cid.c:548-581 | the walk over the list inserts in order, or gives up without a change if the id is already there |
| `CidTables.Tables.Unregister` | ompi1-dev/openmpi/ompi/communicator/comm_cid.c:590-607 | takes the id out of the list |
| `CidTables.Tables.Lowest` | ompi1-dev/openmpi/ompi/communicator/comm_cid.c:609-616 | the smallest registered id |
| `CidTables.Tables.Reserve` | ompi1-dev/openmpi/ompi/communicator/comm_cid.c:253-262 | takes the first free slot from the start on |
| `CidTables.Tables.Check` | ompi1-dev/openmpi/ompi/communicator/comm_cid.c:280-295 | the proposed id is kept, taken instead of the reserved one, or both are given up, and the answer says which |
| `CidTables.ReserveIsSteps` | ompi1-dev/openmpi/ompi/communicator/comm_cid.c:253-262 | what the search does to the table of a process is a sequence of steps of the protocol: skips, and then the reservation if there is a free slot |
| `CidTables.CheckIsSteps` | ompi1-dev/openmpi/ompi/communicator/comm_cid.c:280-295 | what the check does to the table and answers is a step that agrees, or a release and a second try |
| `TreeAllreduce.EndsWithTotal` | ompi1-dev/openmpi/ompi/communicator/comm_cid.c:1453-1523 | every run of the tree reduction that cannot go on has ended with the reduction of all inputs at every rank |
| `TreeAllreduce.NoDeadlock` | ompi1-dev/openmpi/ompi/communicator/comm_cid.c:1482-1517 | with synchronous sends some rank can step in every state in which some rank is not done |
| `TreeAllreduce.RunsEnd` | ompi1-dev/openmpi/ompi/communicator/comm_cid.c:1482-1517 | every run is finite |
| `TreeAllreduce.EachOnce` | ompi1-dev/openmpi/ompi/communicator/comm_cid.c:1470-1472 | the ranks below the root are all ranks, each once |
| `TreeAllreduce.FoldAnyOrder` | ompi1-dev/openmpi/ompi/communicator/comm_cid.c:1489-1490 | for a commutative and associative operation the order of the contributions does not matter |
| `TreeAllreduce.SubIsFold` | ompi1-dev/openmpi/ompi/communicator/comm_cid.c:1482-1496 | what a rank sends up is the reduction over the ranks of its subtree |
| `TreeAllreduce.NextInv` | ompi1-dev/openmpi/ompi/communicator/comm_cid.c:1479-1517 | every step keeps what each rank holds and what is under way on each edge |
| `CommRequests.RunInOrder` | ompi1-dev/openmpi/ompi/communicator/comm_request.c:91-140 | over any run of a request: the callbacks made are those of the finished items, in the order in which they were scheduled and each once, each only after all its subrequests were seen complete, and each subrequest is freed once |
| `CommRequests.EndsEmpty` | ompi1-dev/openmpi/ompi/communicator/comm_request.c:134-139 | a request ends only with nothing left to do |
| `CommRequests.FailureReported` | ompi1-dev/openmpi/ompi/communicator/comm_request.c:134-138 | the code of a failed callback decides how the request ends if and only if its item was the only one and it appended none |
| `CommRequests.FailureLost` | ompi1-dev/openmpi/ompi/communicator/comm_request.c:134-138 | a request with two items, the first of which fails, ends with success |
| `CommRequests.CidOneItem` | ompi1-dev/openmpi/ompi/communicator/comm_cid.c:397-511 | a non-blocking allocation always has exactly one scheduled callback, its place in the protocol |
| `CommRequests.CidFails` | ompi1-dev/openmpi/ompi/communicator/comm_cid.c:397-511 | so its request fails exactly if one of its callbacks failed: none of its failures is lost |
| `CommRequests.CidSucceeds` | ompi1-dev/openmpi/ompi/communicator/comm_cid.c:488-501 | and it succeeds only by the callback that found all members agreed |
| `CommRequests.CommRequest.ScheduleAppend` | ompi1-dev/openmpi/ompi/communicator/comm_request.c:63-89 | appends the item, or refuses too many subrequests without a change |
| `CommRequests.CommRequest.Visit` | ompi1-dev/openmpi/ompi/communicator/comm_request.c:104-139 | the visit of a pass does what the specification of a visit says |
| `DescParsing.RoundTrip` | ompi1-dev/openmpi/ompi/datatype/ompi_datatype_args.c:528-652 | wherever the bytes of a packed description stand, reading them gives the same tree with every duplicate replaced by its target and each Fortran integer combiner by its plain form, and consumes exactly those bytes; it fails exactly if a Fortran 90 datatype is inside |
| `DescUnpacking.Transfer` | ompi1-dev/openmpi/ompi/datatype/ompi_datatype_args.c:776-788 | packing on one process and rebuilding on the other gives the description in normal form |
| `DescTransfer.PackDescription` | ompi1-dev/openmpi/ompi/datatype/ompi_datatype_args.c:414-475 | writes exactly the bytes of the description at the cursor, touches nothing around them, and advances the cursor and the counter of ids |
| `DescTransfer.PackMade` | ompi1-dev/openmpi/ompi/datatype/ompi_datatype_args.c:435-474 | the same for a constructed datatype, with the ids of nested datatypes written into a gap left before them |
| `DescTransfer.PackKids` | ompi1-dev/openmpi/ompi/datatype/ompi_datatype_args.c:453-472 | the nested descriptions follow in order behind the gap, and the gap holds their ids |
| `DescTransfer.GetPackDescription` | ompi1-dev/openmpi/ompi/datatype/ompi_datatype_args.c:478-508 | the buffer of the recorded size is large enough for anything but a bare duplicate, holds the description, is made once, and the size recorded afterwards is the true one |
| `DescTransfer.PackDescriptionLength` | ompi1-dev/openmpi/ompi/datatype/ompi_datatype_args.c:510-526 | the number of bytes of the description |
| `DescPacking.DuplicatePredefined` | ompi1-dev/openmpi/ompi/datatype/ompi_datatype_args.c:126-128 | the duplicate of a predefined datatype: its description takes two integers, and the size recorded for it is one |
| `DescFormat.EncodingSize` | ompi1-dev/openmpi/ompi/datatype/ompi_datatype_args.c:414-475 | the number of bytes written is the size computed from the tree |
| `DescFormat.IntRoundTrip` | ompi1-dev/openmpi/ompi/datatype/ompi_datatype_args.c:435-438 | 32-bit integers survive the bytes |
| `DescFormat.AintRoundTrip` | ompi1-dev/openmpi/ompi/datatype/ompi_datatype_args.c:446-452 | 64-bit addresses survive the bytes |
| `DescPacking.Datatype.SetArgs` | ompi1-dev/openmpi/ompi/datatype/ompi_datatype_args.c:110-244 | a datatype records its arguments in the order of the standard, and a size that covers its description if and only if it is not a bare duplicate of a predefined datatype, and never misses it by more than one integer |
| `DescPacking.Datatype.RecordInts` | ompi1-dev/openmpi/ompi/datatype/ompi_datatype_args.c:124-221 | copying the arrays of a combiner one after the other gives the recorded integers, nothing left out or over |
| `DescPacking.Datatype.DescriptionSize` | ompi1-dev/openmpi/ompi/datatype/ompi_datatype_args.c:80-107 | the bound computed from the counts covers header, arguments and nested descriptions |
| `DescPacking.RecordedLocated` | ompi1-dev/openmpi/ompi/datatype/ompi_datatype_args.c:124-221 | writing located arguments and recording them again gives the same integers, for every combiner |
| `DescUnpacking.CreateFromPackedDescription` | ompi1-dev/openmpi/ompi/datatype/ompi_datatype_args.c:528-652 | builds exactly the datatype the bytes describe and returns the place behind them; no datatype exactly if one of them cannot be rebuilt |
| `DescUnpacking.CreateKids` | ompi1-dev/openmpi/ompi/datatype/ompi_datatype_args.c:600-623 | builds the nested datatypes in order, and stops at the first that cannot be rebuilt |
| `DescUnpacking.CreateFromArgs` | ompi1-dev/openmpi/ompi/datatype/ompi_datatype_args.c:654-774 | the datatype with the plain combiner and the same arguments |
| `TypeCreate.Type.Add` | ompi1-dev/openmpi/opal/datatype/opal_datatype_add.c:103-235 | appends copies of the type map at multiples of the extent, and sets the bounds, user flags and alignment accordingly; the extent -1 is read as the extent of the added type |
| `TypeMaps.AddedEntries` | ompi1-dev/openmpi/opal/datatype/opal_datatype_add.c:103-130 | the specification of the addition appends exactly those copies |
| `TypeCreate.Type.Resize` | ompi1-dev/openmpi/opal/datatype/opal_datatype_resize.c:21-32 | sets both bounds and nothing else |
| `TypeCreate.CreateContiguous` | ompi1-dev/openmpi/ompi/datatype/ompi_datatype_create_contiguous.c:27-41 | copies one extent apart |
| `TypeCreate.CreateVector` | ompi1-dev/openmpi/ompi/datatype/ompi_datatype_create_vector.c:35-64 | the blocks of section 4.1.2 of MPI-3.1, exactly unless the byte stride is -1 and is misread |
| `TypeCreate.CreateHvector` | ompi1-dev/openmpi/ompi/datatype/ompi_datatype_create_vector.c:67-96 | the same for a stride in bytes |
| `TypeCreate.VectorExact` | ompi1-dev/openmpi/ompi/datatype/ompi_datatype_create_vector.c:43-63 | the condition is exact: a vector of any counts, lengths, stride and extent is the one of the standard if and only if its stride is not misread |
| `TypeCreate.VectorMisread` | ompi1-dev/openmpi/ompi/datatype/ompi_datatype_create_vector.c:74-90 | three bytes that are to lie one before the other lie one behind the other |
| `TypeIndexed.CreateIndexed` | ompi1-dev/openmpi/ompi/datatype/ompi_datatype_create_indexed.c:31-66 | merging adjacent blocks gives the same type map as adding each block for itself, for all lengths, displacements and extents |
| `TypeIndexed.CreateHindexed` | ompi1-dev/openmpi/ompi/datatype/ompi_datatype_create_indexed.c:69-104 | the same for displacements in bytes |
| `TypeIndexed.CreateIndexedBlock` | ompi1-dev/openmpi/ompi/datatype/ompi_datatype_create_indexed.c:107-143 | the same for blocks of one length, none included |
| `TypeIndexed.CreateStruct` | ompi1-dev/openmpi/ompi/datatype/ompi_datatype_create_struct.c:29-95 | the same for fields of different types: merging equal neighbours keeps the type map |
| `TypeSubarray.CreateSubarray` | ompi1-dev/openmpi/ompi/datatype/ompi_datatype_create_subarray.c:32-119 | for any old type, any number of dimensions and either order, the bounds are those of the full array, and the type map is the box of the subarray in storage order if and only if no distance of -1 is misread: an old extent of -1 that rounding changes, two or more fast dimensions of one item, and then several indices |
| `TypeSubarray.SubarrayMisread` | ompi1-dev/openmpi/ompi/datatype/ompi_datatype_create_subarray.c:84-92 | an array of 1 by 1 by 2 in which it is misread: the items are made at 0 and 4 where 0 and -1 are demanded |
| `TypeSubarray.SubarrayMeaning` | ompi1-dev/openmpi/ompi/datatype/ompi_datatype_create_subarray.c:32-119 | that box is exactly the items whose index lies between start and start plus subsize in every dimension, as many as the product of the subsizes, in increasing order |
| `TypeBoxes.BoxMeaning` | ompi1-dev/openmpi/ompi/datatype/ompi_datatype_create_subarray.c:50-116 | any box of chosen indices is increasing, has the product of the numbers chosen, and holds an item if and only if every one of its indices is chosen |
| `TypeBoxes.BoxIsMoved` | ompi1-dev/openmpi/ompi/datatype/ompi_datatype_create_subarray.c:77-100 | a box is the box at the origin moved by one displacement |
| `TypeBoxes.BoxInBytes` | ompi1-dev/openmpi/ompi/datatype/ompi_datatype_create_subarray.c:96-116 | building from the origin with vectors and moving the result gives the box in bytes |
| `TypeSubarray.PlaceBox` | ompi1-dev/openmpi/ompi/datatype/ompi_datatype_create_subarray.c:100-117 | placing with bound markers or with a single block is the same move |
| `Distribution.OwnedExactly` | ompi1-dev/openmpi/ompi/datatype/ompi_datatype_create_darray.c:33-157 | for block, cyclic and undistributed dimensions the computed size and start select exactly the indices of the coordinate that owns them under the standard, in range and increasing |
| `GridPartition.Partition` | ompi1-dev/openmpi/ompi/datatype/ompi_datatype_create_darray.c:160-292 | every item of the global array belongs to exactly one rank: the index sets of the ranks are disjoint and cover the array |
| `GridPartition.OnlyItems` | ompi1-dev/openmpi/ompi/datatype/ompi_datatype_create_darray.c:160-292 | and hold nothing else |
| `GridPartition.GridCoords` | ompi1-dev/openmpi/ompi/datatype/ompi_datatype_create_darray.c:188-198 | the loop over the process grid gives the mixed-radix digits of the rank |
| `GridPartition.CoordsUnique` | ompi1-dev/openmpi/ompi/datatype/ompi_datatype_create_darray.c:188-198 | the digits are a bijection between ranks and places in the grid |
| `TypeDarray.CreateDarray` | ompi1-dev/openmpi/ompi/datatype/ompi_datatype_create_darray.c:160-292 | the bounds are those of the full array, and the type map is exactly the items of the rank if and only if the rank has none or every dimension fits around the extent of the faster ones, which the condition computes from the arguments |
| `TypeDarrayCases.TameFits` | ompi1-dev/openmpi/ompi/datatype/ompi_datatype_create_darray.c:160-292 | for a rank with items and an old type of positive extent that repetition does not round, this comes to: inside each cyclic dimension of larger blocks in which the rank has several indices, it has every index of the dimensions back to the last cyclic one |
| `TypeDarrayCases.CyclicInsideFits` | ompi1-dev/openmpi/ompi/datatype/ompi_datatype_create_darray.c:139-151 | it always holds when the cyclic dimensions of larger blocks come first or directly around cyclic ones, since these are given the extent of a row |
| `TypeDarrayCases.BlockThenCyclic` | ompi1-dev/openmpi/ompi/datatype/ompi_datatype_create_darray.c:59-75 | two rows of two bytes, one byte of each row a block and both rows a cyclic block: they are made at 0 and 1 where 0 and 2 are demanded |
| `TypeAxes.BlockType` | ompi1-dev/openmpi/ompi/datatype/ompi_datatype_create_darray.c:33-76 | a block dimension makes as many entries as this process has indices, beginning with the old ones, and at the distance of rows exactly if that is not misread; its extent ends with the last of them |
| `TypeAxes.CyclicType` | ompi1-dev/openmpi/ompi/datatype/ompi_datatype_create_darray.c:80-158 | a cyclic dimension picks exactly its indices if and only if its blocks have one item, or there is at most one item, or the inner type has the extent of a row, and the distance is not misread; its extent is that of the whole dimension |
| `TypeAxes.CyclicExact` | ompi1-dev/openmpi/ompi/datatype/ompi_datatype_create_darray.c:106-137 | why: the places computed with the extent of the inner type are the right ones exactly then |
| `TypeDarrayCases.BlockInsideCyclic` | ompi1-dev/openmpi/ompi/datatype/ompi_datatype_create_darray.c:59-75 | a block dimension inside a cyclic one of larger blocks is right if and only if this process has the whole inner dimension, because a block is never resized |
| `TypeDarray.OffsetOf` | ompi1-dev/openmpi/ompi/datatype/ompi_datatype_create_darray.c:259-267 | the displacement summed over the dimensions in either order is the place of the first item |
| `LatinSquare.Rls` | ompi1-dev/alltoall/latin_square.py:31-42 | for every sequence of random choices the entry at (i, j) depends only on (i - j) mod n, through a bijection onto the symbols, and no two rows are the same object |
| `LatinSquare.GrownCirculant` | ompi1-dev/alltoall/latin_square.py:38-41 | repeating the first row and putting a new symbol on the diagonal makes a circulant square from a circulant square |
| `LatinSquare.RotatedSymbols` | ompi1-dev/alltoall/latin_square.py:36-41 | the new first column has each symbol once |
| `LatinSquare.PutOnDiagonal` | ompi1-dev/alltoall/latin_square.py:40-41 | the insertions in place give the grown square, although they run over the rows of the smaller one |
| `LatinSquare.CirculantLatin` | ompi1-dev/alltoall/latin_square.py:31-42 | such a square is Latin |
| `LatinSquare.TransposedLatin` | ompi1-dev/alltoall/latin_square.py:26-26 | transposing keeps it Latin |
| `LatinSquare.PermutedLatin` | ompi1-dev/alltoall/latin_square.py:25-27 | permuting rows keeps it Latin |
| `LatinSquare.ShuffleTransposeShuffle` | ompi1-dev/alltoall/latin_square.py:23-28 | so it stays Latin under any two shuffles and the transposition |
| `LatinSquare.CheckExact` | ompi1-dev/alltoall/latin_square.py:44-54 | the check accepts exactly the Latin squares |
| `LatinSquare.Generate` | ompi1-dev/alltoall/latin_square.py:14-20 | every generated square is Latin on the first n numbers and passes the check |
| `Alltoall.LatinSound` | ompi1-dev/alltoall/alltoall.cc:66-80 | under a Latin schedule the source a rank finds is its unique sender, and no ordered pair of ranks comes up in two iterations |
| `Alltoall.FindSource` | ompi1-dev/alltoall/alltoall.cc:67-74 | the search down the column finds the sender, or there is none |
| `Alltoall.LinearSound` | ompi1-dev/alltoall/alltoall.cc:8-20 | the two formulas of the linear schedule name each other |
| `Alltoall.LinearComplete` | ompi1-dev/alltoall/alltoall.cc:8-20 | every ordered pair of distinct ranks comes up in exactly one iteration |
| `Alltoall.NoOtherMessage` | ompi1-dev/alltoall/alltoall.cc:32-49 | in every run a receive only matches the message of its own iteration: in any order of the messages if no pair of ranks repeats, and with the order that MPI keeps otherwise |
| `Alltoall.NoDeadlock` | ompi1-dev/alltoall/alltoall.cc:66-80 | while some rank is not done, some step is possible |
| `Alltoall.RunsEnd` | ompi1-dev/alltoall/alltoall.cc:66-80 | every run is finite |
| `Alltoall.EndsDelivered` | ompi1-dev/alltoall/alltoall.cc:66-80 | and ends with every message of every iteration delivered |
| `Alltoall.JoinedMeets` | ompi1-dev/alltoall/alltoall.cc:108-114 | calls in a row still have the receives name the senders, though pairs of ranks repeat |
| `Alltoall.NoOtherCall` | ompi1-dev/alltoall/alltoall.cc:108-114 | in any number of calls with one tag and no barrier between them, a receive only matches the message of its own call and iteration |
| `Alltoall.CallsDelivered` | ompi1-dev/alltoall/alltoall.cc:108-114 | and they end with every message of every call delivered |
| `Alltoall.Overtaken` | ompi1-dev/alltoall/alltoall.cc:108-114 | two calls of two ranks in which, without that order, the message of the second call reaches the receive of the first |
| `SeqTracker.InsertExact` | ompi1-dev/openmpi/ompi/class/ompi_seq_tracker.c:91-180 | from any cursor an insertion keeps the ranges sorted, disjoint and apart and adds exactly the id, if and only if neither of the two sums at the end of the 32-bit range wraps |
| `SeqTracker.WrapsBreaks` | ompi1-dev/openmpi/ompi/class/ompi_seq_tracker.c:117-131 | if one wraps, the ranges are out of order afterwards |
| `SeqTracker.WrapsAtTheTop` | ompi1-dev/openmpi/ompi/class/ompi_seq_tracker.c:117-127 | inserting the largest id and then 0 leaves one range that holds neither |
| `SeqTracker.WalkAdds` | ompi1-dev/openmpi/ompi/class/ompi_seq_tracker.c:100-179 | the walk adds exactly the id from wherever it has got to |
| `SeqTracker.SearchMeaning` | ompi1-dev/openmpi/ompi/class/ompi_seq_tracker.c:66-82 | from any cursor the search finds the range of the id, or there is none |
| `SeqTracker.TracksSet` | ompi1-dev/openmpi/ompi/class/ompi_seq_tracker.c:91-180 | after any run of insertions of ids below the largest one the ranges hold exactly the inserted ids |
| `SeqTracker.FindsInserted` | ompi1-dev/openmpi/ompi/class/ompi_seq_tracker.c:58-83 | and the duplicate check from any cursor says whether an id was inserted |
| `SeqTracker.Tracker.Insert` | ompi1-dev/openmpi/ompi/class/ompi_seq_tracker.c:91-180 | the loop over the list does what the specified walk does |
| `SeqTracker.Tracker.CheckDuplicate` | ompi1-dev/openmpi/ompi/class/ompi_seq_tracker.c:58-83 | says whether the id is there, moves the cursor to its range if so and leaves it if not |
| `SeqTracker.Tracker.CopyFrom` | ompi1-dev/openmpi/ompi/class/ompi_seq_tracker.c:183-198 | copies the ranges and the cursor |
| `GroupBitmap.MutualInverses` | ompi1-dev/openmpi/ompi/group/group_bitmap.c:41-120 | the two translations are mutual inverses on the members, whatever the bits, and a child rank has one parent rank |
| `GroupBitmap.TranslateRanks` | ompi1-dev/openmpi/ompi/group/group_bitmap.c:41-83 | each parent rank becomes the number of members before it, and is undefined exactly if it is no member |
| `GroupBitmap.TranslateRanksReverse` | ompi1-dev/openmpi/ompi/group/group_bitmap.c:85-120 | each child rank becomes the place of the corresponding set bit |
| `GroupBitmap.RightForStrict` | ompi1-dev/openmpi/ompi/group/group_bitmap.c:147-193 | the bitmap keeps the order of the included ranks if and only if they are strictly increasing |
| `GroupBitmap.RepeatedRanksPass` | ompi1-dev/openmpi/ompi/group/group_bitmap.c:137-145 | the check for increasing ranks also accepts repeated ones |
| `GroupBitmap.RepeatedRanksMissing` | ompi1-dev/openmpi/ompi/group/group_bitmap.c:172-177 | rising ranks set as many bits as there are ranks if and only if none repeats |
| `GroupBitmap.CheckRanks` | ompi1-dev/openmpi/ompi/group/group_bitmap.c:137-145 | accepts exactly the ranks that never decrease |
| `GroupBitmap.BuildBitmap` | ompi1-dev/openmpi/ompi/group/group_bitmap.c:166-177 | sets exactly the bits of the included ranks |
| `GroupBitmap.CountOfRanks` | ompi1-dev/openmpi/ompi/group/group_bitmap.c:65-77 | the number of set bits below a place is the number of included ranks below it |
| `GroupBitmap.DivCeil` | ompi1-dev/openmpi/ompi/group/group_bitmap.c:122-130 | the least number of bytes that suffices |
| `GroupTranslate.ForwardIsSearch` | ompi1-dev/openmpi/ompi/group/group.c:96-116 | for groups of distinct processes the bitmap translation from the parent gives a rank if and only if the search by process gives it |
| `GroupTranslate.ReverseIsSearch` | ompi1-dev/openmpi/ompi/group/group.c:96-116 | and so does the one to the parent |
| `GroupTranslate.ForwardRight` | ompi1-dev/openmpi/ompi/group/group_bitmap.c:41-83 | a translated parent rank names the same process in the child |
| `GroupTranslate.ReverseRight` | ompi1-dev/openmpi/ompi/group/group_bitmap.c:85-120 | a translated child rank names the same process in the parent |
| `GroupTranslate.Search` | ompi1-dev/openmpi/ompi/group/group.c:96-116 | the first rank of the same process in the other group, or undefined if it is not there |
| `GroupTranslate.Translate` | ompi1-dev/openmpi/ompi/group/group.c:44-119 | whichever way is taken, each result names the same process, or is undefined exactly if there is none; an empty group makes all undefined |
| `GroupTranslate.GetProcPtr` | ompi1-dev/openmpi/ompi/group/group.c:172-185 | the walk up the parents ends at the process of the composed dense group |
| `GroupTranslate.Include` | ompi1-dev/openmpi/ompi/group/group_bitmap.c:147-193 | refused exactly if the ranks do not rise; otherwise the new group counts all of them, and is a proper group of the included processes if and only if no rank repeats |
| `GroupTranslate.MembersDistinct` | ompi1-dev/openmpi/ompi/group/group_bitmap.c:147-193 | including keeps processes distinct |
| `Attributes.CountsOverRuns` | ompi1-dev/openmpi/ompi/attribute/attribute.c:943-1012 | over any run of creating, freeing, setting and deleting, a keyval counts one until it is freed and one for each attribute that uses it, and is destroyed by exactly the operation that leaves it freed and unused |
| `Attributes.DestroyedWhenUnused` | ompi1-dev/openmpi/ompi/attribute/attribute.c:626-655 | that operation is the only one that destroys it |
| `Attributes.LivesWhileUsed` | ompi1-dev/openmpi/ompi/attribute/attribute.c:455-467 | a keyval that exists is not freed or has a user |
| `Attributes.CreatedKeeps` | ompi1-dev/openmpi/ompi/attribute/attribute.c:529-574 | creating a keyval keeps the counts |
| `Attributes.FreedKeeps` | ompi1-dev/openmpi/ompi/attribute/attribute.c:626-655 | freeing keeps the counts, and destroys the keyval exactly if nobody uses it |
| `Attributes.FreedTwice` | ompi1-dev/openmpi/ompi/attribute/attribute.c:632-649 | a second free breaks them: the keyval counts one less than its users, or is gone while one is left |
| `Attributes.FreedTwiceReached` | ompi1-dev/openmpi/ompi/attribute/attribute.c:632-649 | a run that creates, sets and frees one keyval reaches such a state: freed again it is gone while an attribute uses it |
| `Attributes.SetKeeps` | ompi1-dev/openmpi/ompi/attribute/attribute.c:1100-1177 | setting keeps the counts, whether the attribute is new or replaced |
| `Attributes.DeletedKeeps` | ompi1-dev/openmpi/ompi/attribute/attribute.c:943-1012 | deleting keeps the counts, and destroys the keyval exactly if it was freed and this was its last user |
| `AttributeTables.Registry.CreateKeyval` | ompi1-dev/openmpi/ompi/attribute/attribute.c:529-574 | takes the least free key, or reports that none is left |
| `AttributeTables.Registry.FreeKeyval` | ompi1-dev/openmpi/ompi/attribute/attribute.c:626-655 | checks the type and the predefined flag and gives up one reference; the tables stay consistent if and only if the keyval was not freed before |
| `AttributeTables.Registry.SetValue` | ompi1-dev/openmpi/ompi/attribute/attribute.c:1100-1177 | calls the delete function of an attribute that is replaced first, and changes nothing if that or the check fails |
| `AttributeTables.Registry.DeleteImpl` | ompi1-dev/openmpi/ompi/attribute/attribute.c:943-1012 | calls the delete function, removes the attribute and releases the keyval, with each of its errors and nothing changed on any of them |
| `AttributeTables.Registry.CopyAll` | ompi1-dev/openmpi/ompi/attribute/attribute.c:828-934 | the new object gets exactly the attributes whose copy functions chose a value, and the old one keeps its own; without a table it gets none, and the counts stay right if and only if no value was chosen |
| `Attributes.TableLost` | ompi1-dev/openmpi/ompi/attribute/attribute.c:914-915 | losing a table breaks the counts exactly if it was not empty |
| `Attributes.TableLostReached` | ompi1-dev/openmpi/ompi/attribute/attribute.c:1110-1126 | a keyval copied into a table that is lost counts two users and has one |
| `AttributeTables.Registry.DeleteAll` | ompi1-dev/openmpi/ompi/attribute/attribute.c:1033-1092 | calls the delete functions in the reverse order of the latest sets (section 8.7.1 of MPI-2.2), stops at the first failure with the earlier attributes in place, and on success leaves the table empty |
| `AttributeTables.Registry.SortedKeys` | ompi1-dev/openmpi/ompi/attribute/attribute.c:1062-1071 | the attributes of an object in the order in which they were set last |
| `AttributeTables.DeleteEachEmpties` | ompi1-dev/openmpi/ompi/attribute/attribute.c:1033-1092 | deleting in that order empties the table, touches no other object and keeps every count |

## Left out

Tree:
- `ompi_rb_tree_init` running out of nodes, `ompi_rb_tree_destroy` and the free list: nodes come from a pool that has one or has none.

Communicator ids:
- Running out of ids and failing collectives: these branches do not keep the members in step, so the results on deadlock, on the ends of runs and on the least id suppose that ids suffice and that the collectives succeed.
- The inter-communicator, bridge and out-of-band reductions, and the activation of the new communicator: calls into code that is not part of this model.
- Two registrations of the same communicator at once without thread support, which the list then holds twice: the model follows the build in which the second one waits.
- The pass over several active requests, its re-entry guard and its mutex; callbacks that start or cancel other requests; cancelling: one request and its schedule are modelled.

Packed descriptions:
- `MPI_COMBINER_HINDEXED_BLOCK`, byte swapping between machines and padding for alignment: the layout is unpadded and both sides have the same byte order.
- The reference counts of the recorded datatypes.
- DescTransfer.GetPackDescription: not for a bare duplicate of a predefined datatype, for which the program writes behind the buffer of the recorded size (DescPacking.DuplicatePredefined), nor for more nested datatypes than an `int` can number.
- DescTransfer.PackDescriptionLength: as for DescTransfer.GetPackDescription, which it calls.
- DescUnpacking.Transfer: as for DescTransfer.GetPackDescription, which it calls.
- DescUnpacking.CreateFromPackedDescription: only for bytes that are a description, since the program does not check them.

Derived datatypes:
- The optimised description entries, the size, the true bounds and the flags of `opal_datatype_add`: only the type map, the bounds and the alignment are kept.
- Integer overflow, in particular of bounds that are not set yet: integers are unbounded and an unset bound is a value of its own.
- `ompi_datatype_create_hindexed_block`, whose end of a block is not scaled by the extent.
- TypeDarray.CreateDarray: an undistributed dimension has one process along it, as the standard demands; the sizes of explicit blocks cover the array.
- The error returns of the constructors, which only pass on failures to allocate.

Schedules:
- Printing, reading the schedule from a file, buffers, their offsets and timing; the older generator that retries until it succeeds.
- Alltoall.LatinSound: the random exchange skips column 0, so it is no complete all-to-all and none is claimed; its matching, non-repetition and termination are.

Tracker, groups, attributes:
- The nodes of the tracker's list, which are the elements of a sequence here, and their release.
- The strided and sporadic group formats, the reference counts of processes and the rank of the calling process.
- The translations of attribute values between languages, the bindings of callbacks, the lock, and callbacks that call back into this code.
- AttributeTables.Registry.SortedKeys: an insertion sort stands for the library's `qsort`.
