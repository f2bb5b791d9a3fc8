# Verified models of the Open MPI core

Dafny models of the parts of Open MPI 1.4.2 that carry most of its logic, with proofs of what those
parts promise.  `dafny verify dfyconfig.toml` checks all of it.

## What is modelled

**The datatype engine.** A datatype is a flat program of data, LOOP and END_LOOP records.  Its meaning
is the typemap of MPI-2.1, section 4.1: the ordered list of byte displacements, repeated one extent
apart (`Typemap`).  `ConvertorState`, `Canonical`, `SplitPoint` and `Progress` say what a state of the
explicit-stack interpreters means: the list of displacements that are left.  Every control step keeps
that list, every data step takes a prefix off it, and the number of bytes left determines the whole
state.  `Convertors` holds the convertor class: packing, unpacking and seeking, each proved against
that meaning, suspended and resumed at any byte.  `ReadExtent` is how the unpack functions read a
description; `Nesting` and `StackRoom` are about the room that the stacks need.  `Streams` and `SndRcv`
put whole runs together.  `DirectCopy` is the copy without a packed form.  `BuilderSpec`, `Builder`
and `Constructors` build datatypes by adding, and `Layout` says what their bounds are;
`OptimizeSpec` and `Optimize` compile them, and `Signature` says which basic elements they consist
of.  `Description` prints and parses the form in which a datatype is sent to another process.

**Context ids.** `CidTable` is what one process does in a round, `CidRounds` one negotiation from start
to end, `CidRuns` any number of negotiations and frees interleaved step by step, `CidStale` a run in
which that goes wrong, `CidProgress` the gate that lets one of them go on, `CidBound` when it ends,
`CidReduce` the reductions between two groups and the list of negotiating communicators.

**The red-black tree.** `RbHeap` relates nodes with parent pointers, a shared sentinel and a fake root
to the tree they store; `RbSpec` says what each rebalancing step does to order and balance; `RbTree`
is the tree itself.

**Two smaller state machines.** `SeqTracker` is the list of ranges of sequence numbers with its cursor;
`Attributes`, on top of `Bitmap`, is the life of attribute keys.

## Where the code does not do what it promises

Each of these is kept as it is in the code and decided exactly: a lemma says under which condition, for
all inputs, the promise holds, and that it fails otherwise.

* The compiler peels the first repetition off a gapped loop but leaves the loop where it started
  (`openmpi-1.4.2/ompi/datatype/dt_optimize.c:148-171`), and merges a record into a pending run whose elements have gaps between
  them (`openmpi-1.4.2/ompi/datatype/dt_optimize.c:217-240`).  `OptimizeSpec.OptCorrect` and `CommitCorrect`: the meaning is kept if
  and only if neither happens; `PeelExample` and `SpoilExample` show the bytes, `Builder.PeeledOnCommit`
  and `SpoiltOnCommit` build them.
* Adding copies of a one-record datatype multiplies the count of its record
  (`openmpi-1.4.2/ompi/datatype/dt_add.c:296-301`), which is wrong if that record already has several elements and was shrunk.
  `BuilderSpec.RepeatedTM`, `Builder.Datatype.Add`, `Overlapping`; `Constructors` says for each of them when that happens.
* A struct merges entries by the identity of their datatypes (`openmpi-1.4.2/ompi/datatype/dt_create_struct.c:74-87`), so a datatype that
  is rebuilt from its description can have another typemap than the original.  `Constructors.RebuiltStruct`, `SharedPart`.
* A stride of -1 is taken for the default extent (`openmpi-1.4.2/ompi/datatype/dt_add.c:110`).  `Constructors.CreateHvector`,
  `CreateVector`, `StrideExample`.
* An add without data, of zero copies or of an empty datatype, can move a bound without clearing the no-gaps
  flag (`openmpi-1.4.2/ompi/datatype/dt_add.c:148-234`).  `Builder.Datatype.Add` and `SpanKept` for all bounds, `ZeroAdd`,
  `StaleNoGaps`.
* The upper bound is aligned after every add, for the lower bound of that time
  (`openmpi-1.4.2/ompi/datatype/dt_add.c:217-222`), so it can end up higher than the least aligned one above all copies.
  `Layout.SnugExact` says when, for every list of adds, `UsuallySnug` is the usual case and `Builder.LooseUpper` an input.
* Adding several copies of a basic type with gaps resets the number of loops by which the stacks of the compiler, the direct
  copy and the convertors are allocated (`openmpi-1.4.2/ompi/datatype/dt_add.c:277`).  How many entries each of them uses is exact
  (`Optimize.OptimizeShort`, `DirectCopy.Copier.Copy`, `StackRoom.RoomExact` and `FillStack`), so is which adds take
  the room away (`StackRoom.AddRoom`); `RoomLost` is an input for all three.
* A seek ignores the bytes of a split element (`openmpi-1.4.2/ompi/datatype/position.c:119-235`), and steps over elements with the
  whole extent (`openmpi-1.4.2/ompi/datatype/position.c:50-72`).  `Convertors.Convertor.Position` and `SetPosition`, `SplitSeek`,
  `DriftSeek`.  Packing does not look at them either: `Convertors.Convertor.Pack`.
* Unpacking and copying compare the element size with the extent cast to 32 bits
  (`openmpi-1.4.2/ompi/datatype/datatype_unpack.h:34`).  `ReadExtent.ReadWhole`, `ConfusedExample`; the convertors and the
  copy are modelled with the description as they read it.
* A chunk can be too short for an element that the chunk before it split (`openmpi-1.4.2/ompi/datatype/datatype_unpack.c:395-414`); the
  library then reads behind it.  `SndRcv.Transfer`, `StarvedExample`.
* After a search that finds nothing a negotiation proposes the id of an earlier round once more, without reserving it, and later
  clears or overwrites its slot, whoever it belongs to by then (`openmpi-1.4.2/ompi/communicator/comm_cid.c:198-239`).  `CidRuns.HarmExact`
  says which steps do that, `RunsSafe`, `OnlyHolderReleases` and `SuppliedIsSafe` what holds without them, `RunsAgree` what holds
  all the same; `CidStale.LostId` is a run in which a live communicator loses its id.
* Without an id that is free at every participant the negotiation of a context id goes on for ever
  (`openmpi-1.4.2/ompi/communicator/comm_cid.c:182-241`).  `CidRounds.NextCid`, `NeverAgreed`.
* The sequence tracker compares modulo 2^32 (`openmpi-1.4.2/ompi/class/ompi_seq_tracker.c:118-132`), which goes wrong only for the two
  numbers at the ends.  `SeqTracker.Tracker.Insert`, `WrapExample`.
* Freeing an attribute key twice gives up a reference that is not the caller's
  (`openmpi-1.4.2/ompi/attribute/attribute.c:631-668`).  `Attributes.Attributes.FreeKeyval`, `DoubleFree`.
* The parser does not rebuild subarrays, distributed arrays, the Fortran types and resized types
  (`openmpi-1.4.2/ompi/datatype/dt_args.c:617-709`).  `Description.Parse`.

## What is asked of callers

Basic types are contiguous, counts and loop counts are at least 1 where the code relies on it, and
addresses fit the address type.  Unpacking takes basic types of at most 16 bytes (the size of the
temporary, `openmpi-1.4.2/ompi/datatype/datatype_unpack.c:296-297`) and fragments that hold at least what a split element lacks
(`openmpi-1.4.2/ompi/datatype/datatype_unpack.c:412`).  `SndRcv.ChunkFits` proves the second for the chunked loop.

## Model

| member | source | states |
|---|---|---|
| Typemap.TMShift | openmpi-1.4.2/ompi/datatype/datatype_pack.c:269-276 | a description placed elsewhere denotes the same list of byte displacements, shifted |
| Typemap.TMConcat | openmpi-1.4.2/ompi/datatype/dt_add.c:263-331 | appending records appends typemaps |
| Typemap.WFConcat | openmpi-1.4.2/ompi/datatype/dt_add.c:263-331 | appending a well-formed description to another one keeps loops matched and END_LOOP sizes right |
| Typemap.FirstIsFirst | openmpi-1.4.2/ompi/datatype/datatype_internal.h:281-292 | the record that GET_FIRST_NON_LOOP finds holds the first displacement of the typemap |
| Typemap.TMNonEmpty | openmpi-1.4.2/ompi/datatype/datatype_pack.c:286-348 | a stretch of records that is not empty moves at least one byte, so control records alone never repeat for ever |
| Typemap.IterSplit | openmpi-1.4.2/ompi/datatype/datatype_pack.h:62-89 | moving m and then n repetitions of a loop visits the same displacements as moving m + n |
| Typemap.IterElems | openmpi-1.4.2/ompi/datatype/datatype_pack.h:62-89 | the repetitions of a loop whose body is one run of bytes are blocks, one extent apart |
| ConvertorState.PopStep | openmpi-1.4.2/ompi/datatype/datatype_pack.c:299-317 | leaving a finished loop keeps the list of displacements that are left, and the stack stays proper |
| ConvertorState.AgainStep | openmpi-1.4.2/ompi/datatype/datatype_pack.c:313-323 | starting the next repetition keeps the list of displacements that are left |
| ConvertorState.PushStep | openmpi-1.4.2/ompi/datatype/datatype_pack.c:327-347 | entering a loop, some repetitions of which may be done already, keeps the list of displacements that are left |
| ConvertorState.DataSome | openmpi-1.4.2/ompi/datatype/datatype_pack.h:16-60 | moving k of the elements of a record takes exactly their displacements off the front of what is left |
| ConvertorState.DataAll | openmpi-1.4.2/ompi/datatype/datatype_pack.c:287-298 | moving all elements that a record has left takes exactly their displacements off what is left; the run goes on at the next record |
| ConvertorState.LoopSome | openmpi-1.4.2/ompi/datatype/datatype_pack.h:62-89 | the fast path for contiguous loops takes off the same displacements as stepping through the body k times |
| ConvertorState.LoopAll | openmpi-1.4.2/ompi/datatype/datatype_pack.c:327-347 | after all repetitions on the fast path the state is the one behind the END_LOOP |
| ConvertorState.RemEmpty | openmpi-1.4.2/ompi/datatype/datatype_pack.c:302-309 | nothing is left exactly at the last END_LOOP of the last repetition |
| Canonical.RemSuffix | openmpi-1.4.2/ompi/datatype/position.c:119-235 | in every proper state, however it was reached, what is left is a suffix of the message typemap |
| SplitPoint.CanonicalState | openmpi-1.4.2/ompi/datatype/position.c:119-235 | two stop states have the same number of bytes left if and only if stack, position, counter, displacement and bytes into a split element all agree |
| SplitPoint.StopMissing | openmpi-1.4.2/ompi/datatype/datatype_unpack.c:395-414 | the byte offset alone says how many bytes a split element still lacks |
| SplitPoint.SkipRem | openmpi-1.4.2/ompi/datatype/position.c:119-138 | skipping n whole datatypes on the stack takes exactly n times the datatype size off what is left |
| SplitPoint.MissingSteps | openmpi-1.4.2/ompi/datatype/datatype_unpack.c:416-444 | every byte that arrives brings a split element one byte closer to its end, and the element ends inside the message |
| SplitPoint.MissingFits | openmpi-1.4.2/ompi/datatype/datatype_unpack.c:395-414 | a stream cut at an element boundary or at the end of the message holds what a split element lacks |
| Progress.StackDepth | openmpi-1.4.2/ompi/datatype/datatype_pack.c:327-347 | the stack never holds more loops than enclose the current record |
| StackRoom.EnclosingDepth | openmpi-1.4.2/ompi/datatype/datatype_pack.c:327-347 | not more loops enclose a record than the loops of the description are deep |
| StackRoom.DepthNew | openmpi-1.4.2/ompi/datatype/dt_add.c:263-331 | how deep the records that an add appends are nested for the compiler and once compiled |
| Nesting.OptDepth | openmpi-1.4.2/ompi/datatype/dt_optimize.c:66-263 | for every description and pending run: how deep the compiled form is nested, decided on the original; and the direct copy of the compiled form enters as many loops at a time as the compiler opened |
| StackRoom.DeepestState | openmpi-1.4.2/ompi/datatype/datatype_pack.c:327-347 | some proper state at a data record has one entry for the message and one for every loop of the deepest nest |
| StackRoom.SomeDeep | openmpi-1.4.2/ompi/datatype/datatype_pack.c:327-347 | so every description has a byte at which the next data record lies in the deepest nest |
| StackRoom.RoomExact | openmpi-1.4.2/ompi/datatype/datatype_pack.c:327-366 | a stack has room for every record, with the fake loop and the saved position, if and only if it has room for the deepest nest |
| StackRoom.HeldAt | openmpi-1.4.2/ompi/datatype/datatype_pack.c:361-366 | a convertor that stopped at such a byte, wherever it came from, holds that many entries and the saved position |
| StackRoom.FillStack | openmpi-1.4.2/ompi/datatype/datatype_pack.c:361-366 | a new convertor that packs can be brought to such a byte, so all these entries are really used |
| StackRoom.FitsExact | openmpi-1.4.2/ompi/datatype/convertor.c:504-513 | the stack allocated for a convertor, and the one of the direct copy, have room for the compiled description if and only if the kept number of loops covers the nesting of the original as compiled |
| StackRoom.AddRoom | openmpi-1.4.2/ompi/datatype/dt_add.c:263-331 | which adds take away the room on the stack of the compiler, of the direct copy and of the convertor, each if and only if: several copies of a basic type with gaps, added to at least 3, 2 and 4 loops; for the convertor also a loop around a nest that just fitted, if the two numbers of loops are too low |
| StackRoom.RoomMore | openmpi-1.4.2/ompi/datatype/dt_add.c:263-331 | the same for the numbers alone |
| StackRoom.RoomLost | openmpi-1.4.2/ompi/datatype/dt_add.c:277 | five nested loops and then two ints with a gap, put together by adding and committed: one loop is counted; the compiler uses five entries of three, the direct copy needs five of two, and a convertor six of five |
| Progress.Start | openmpi-1.4.2/ompi/datatype/convertor.c:363-394 | the initial stack stands for the whole message |
| Progress.Leave | openmpi-1.4.2/ompi/datatype/datatype_pack.c:299-317 | leaving the last loop means that the whole message is done |
| Memory.ScatterFrame | openmpi-1.4.2/ompi/datatype/datatype_unpack.c:352-512 | bytes outside the typemap keep their value |
| Memory.ScatterHit | openmpi-1.4.2/ompi/datatype/datatype_unpack.c:352-512 | in a typemap without overlap every byte ends up at its displacement |
| Memory.RoundTrip | openmpi-1.4.2/ompi/datatype/datatype_unpack.c:352-512 | unpacking what was packed restores the typemap bytes and leaves every other byte |
| Convertors.Convertor.constructor | openmpi-1.4.2/ompi/datatype/convertor.c:363-394 | a new convertor stands at byte 0 with a proper stack; it is completed exactly for an empty message |
| Convertors.Convertor.CreateStackAtBegining | openmpi-1.4.2/ompi/datatype/convertor.c:363-394 | rewinding gives the saved state at byte 0 |
| Convertors.Convertor.PushStack | openmpi-1.4.2/ompi/datatype/datatype_internal.h:248-254 | one entry on top of the stack, the others unchanged |
| Convertors.Convertor.CloseLoop | openmpi-1.4.2/ompi/datatype/datatype_pack.c:299-326 | at an END_LOOP: finished with the whole message, or a state that goes on at the same byte with a smaller stack or at a record that is not an END_LOOP |
| Convertors.Convertor.OpenLoop | openmpi-1.4.2/ompi/datatype/datatype_pack.c:327-347 | a loop is entered at the same byte, and the body is strictly smaller than what encloses it |
| Convertors.Convertor.CopyOutBlocks | openmpi-1.4.2/ompi/datatype/datatype_pack.h:43-54 | one memcpy per block appends the bytes of all blocks, in order |
| Convertors.Convertor.PackPredefined | openmpi-1.4.2/ompi/datatype/datatype_pack.h:16-60 | as many elements as fit are appended to the packed bytes, in typemap order; counter, displacement, space advance by exactly that |
| Convertors.Convertor.PackContiguousLoop | openmpi-1.4.2/ompi/datatype/datatype_pack.h:62-89 | as many repetitions of a contiguous loop as fit are appended to the packed bytes, in typemap order; counter, displacement and space advance by exactly that |
| Convertors.Convertor.PackData | openmpi-1.4.2/ompi/datatype/datatype_pack.c:287-298 | a data record either makes progress or stops because the next element does not fit |
| Convertors.Convertor.PackLoop | openmpi-1.4.2/ompi/datatype/datatype_pack.c:327-347 | a LOOP record makes progress in bytes or gets deeper into the description |
| Convertors.Convertor.PackStep | openmpi-1.4.2/ompi/datatype/datatype_pack.c:286-348 | every step of the interpreter moves bytes, stops, or decreases a measure on the end of the body, the open loops and the rest of the description |
| Convertors.Convertor.PackIovec | openmpi-1.4.2/ompi/datatype/datatype_pack.c:284-352 | terminates; the buffer holds the next message bytes up to the last offset at which no basic element is split and that the buffer can hold |
| Convertors.Convertor.PackAll | openmpi-1.4.2/ompi/datatype/datatype_pack.c:283-355 | terminates; the filled parts of the buffers, in order, hold the next message bytes, and the last buffer could not have taken the next element |
| Convertors.Convertor.Pack | openmpi-1.4.2/ompi/datatype/datatype_pack.c:245-367 | the filled parts of the buffers, put together, are the next message bytes, cut at an element boundary; COMPLETED exactly if bConverted is the size of the message; without a split element the bytes are those from the old to the new bConverted and the state is valid for the next call; after a seek into an element they begin at the start of that element, the saved state is that of the bytes really packed, it is valid if and only if that many bytes fit into the element where it stopped, and behind the end of the message it is not valid |
| Convertors.Convertor.Resume | openmpi-1.4.2/ompi/datatype/datatype_pack.c:269-276 | taking the saved position off the stack gives the running state at the same byte |
| Convertors.Convertor.Suspend | openmpi-1.4.2/ompi/datatype/datatype_pack.c:361-366 | putting the position on the stack saves the running state, with room for it |
| Convertors.Convertor.StopGreatest | openmpi-1.4.2/ompi/datatype/datatype_pack.h:29-32 | where the next element does not fit is the last element boundary that the buffer can reach |
| Convertors.Convertor.UnpackPredefined | openmpi-1.4.2/ompi/datatype/datatype_unpack.h:16-60 | as many elements as the fragment holds go to the displacements that the record has as it is read, nothing else changes |
| ReadExtent.CastExact | openmpi-1.4.2/ompi/datatype/datatype_unpack.h:34-43 | the elements of a record go to the right places if and only if there is one of them or its extent is not confused with the size |
| ReadExtent.ConfusedIs | openmpi-1.4.2/ompi/datatype/datatype_unpack.h:34 | a record is confused if it has several elements and its extent is not the size but differs from it by a multiple of 2^32 |
| ReadExtent.RunClear | openmpi-1.4.2/ompi/datatype/datatype_unpack.h:34-43 | records that denote one run of bytes are never confused |
| ReadExtent.ReadTM | openmpi-1.4.2/ompi/datatype/datatype_unpack.h:34-43 | a description as it is read is well formed, has the same number of bytes and denotes the same displacements if and only if no record is confused |
| ReadExtent.ReadWhole | openmpi-1.4.2/ompi/datatype/datatype_unpack.c:352-512 | a whole message is unpacked to its typemap, for every count and extent, if and only if no record of its description is confused |
| ReadExtent.ConfusedExample | openmpi-1.4.2/ompi/datatype/datatype_unpack.h:34-43 | two elements of 4 bytes whose distance is 2^32 + 4 are read as 8 adjacent bytes |
| Convertors.Convertor.CopyInBlocks | openmpi-1.4.2/ompi/datatype/datatype_unpack.h:45-54 | one memcpy per block writes the bytes of all blocks and nothing else |
| Convertors.Convertor.UnpackContiguousLoop | openmpi-1.4.2/ompi/datatype/datatype_unpack.h:62-89 | as many repetitions of a contiguous loop as the fragment holds go to their displacements, nothing else changes |
| Convertors.Convertor.FindUnusedByte | openmpi-1.4.2/ompi/datatype/datatype_unpack.c:307-315 | the search ends with a value that does not occur in the partial data, before the signed counter could become negative |
| Convertors.Pigeonhole | openmpi-1.4.2/ompi/datatype/datatype_unpack.c:307-315 | n positions cannot hold more than n values, so sixteen bytes leave one of seventeen candidates unused |
| Convertors.Convertor.FillTemporary | openmpi-1.4.2/ompi/datatype/datatype_unpack.c:317-319 | the temporary element holds the partial data in place and the unused value everywhere else |
| Convertors.Convertor.PutBack | openmpi-1.4.2/ompi/datatype/datatype_unpack.c:331-337 | exactly where the unused value turns up the saved byte is put back |
| Convertors.Convertor.UnpackPartial | openmpi-1.4.2/ompi/datatype/datatype_unpack.c:290-339 | exactly bytes [start, end) of one element are written and the user pointer advances once |
| Convertors.Convertor.FinishSplit | openmpi-1.4.2/ompi/datatype/datatype_unpack.c:395-414 | the second part of a split element: with the first part it is one whole element, and the state goes on behind it |
| Convertors.Convertor.StartSplit | openmpi-1.4.2/ompi/datatype/datatype_unpack.c:428-442 | the first part of an element that the fragment does not hold completely; partial_length is the number of its bytes |
| Convertors.Convertor.UnpackData | openmpi-1.4.2/ompi/datatype/datatype_unpack.c:416-427 | a data record makes progress or stops because the fragment holds less than one more element |
| Convertors.Convertor.UnpackLoop | openmpi-1.4.2/ompi/datatype/datatype_unpack.c:473-493 | a LOOP record makes progress in bytes or gets deeper into the description |
| Convertors.Convertor.UnpackStep | openmpi-1.4.2/ompi/datatype/datatype_unpack.c:415-494 | every step of the interpreter moves bytes, stops, or decreases a measure on the end of the body, the open loops and the rest of the description |
| Convertors.Convertor.UnpackIovec | openmpi-1.4.2/ompi/datatype/datatype_unpack.c:391-498 | terminates; all bytes of the fragment, or the rest of the message, are at their places and nothing else has changed |
| Convertors.Convertor.Unpack | openmpi-1.4.2/ompi/datatype/datatype_unpack.c:352-512 | over any fragments: user memory is the old memory with the next bytes at the displacements from the old to the new bConverted; COMPLETED exactly if nothing is left; the state is valid for the next call |
| Convertors.Convertor.JumpAhead | openmpi-1.4.2/ompi/datatype/position.c:119-138 | adding whole extents to the stack gives the state n datatypes further on |
| Convertors.Convertor.PositionData | openmpi-1.4.2/ompi/datatype/position.c:207-222 | skipping elements of a record leads as many bytes further on; the position is off by the difference of the two extents for every element that was skipped |
| Convertors.Convertor.PositionLoop | openmpi-1.4.2/ompi/datatype/position.c:183-206 | skipping repetitions of a contiguous loop leads to the state as many bytes further on; a loop with repetitions left is entered |
| Convertors.Convertor.Walk | openmpi-1.4.2/ompi/datatype/position.c:154-235 | walking over a number of bytes leads to the data record and the split element at that offset, and says how many elements of that record were skipped |
| Convertors.Convertor.Position | openmpi-1.4.2/ompi/datatype/position.c:99-236 | a seek forward leads to the record, counter and split element at that byte; its state is the valid one if and only if no element was split when it began and no element of the record where it ends was skipped with another extent than the one with which it is read |
| Convertors.Convertor.SetPosition | openmpi-1.4.2/ompi/datatype/convertor.c:396-417 | the public seek, forward or back, clamps to the message; its result is valid exactly if the convertor was completed, no element was split, or the seek goes back or to the end, and no element of the last record was skipped with another extent than the one with which it is read |
| Convertors.SplitSeek | openmpi-1.4.2/ompi/datatype/position.c:119-235 | a seek to byte 1 of an int and then to byte 2 leaves a state that is not valid |
| Convertors.DriftSeek | openmpi-1.4.2/ompi/datatype/position.c:50-72 | two ints whose distance is 2^32 + 4: unpacking would write the second one right behind the first, a seek to it leads 2^32 bytes further on |
| Convertors.SameOffsetSameState | openmpi-1.4.2/ompi/datatype/position.c:119-235 | convertors for the same message that stopped at the same byte, whether by packing, unpacking or seeking, hold the same stack and the same partial_length |
| Streams.PackRun | openmpi-1.4.2/ompi/datatype/datatype_pack.c:245-367 | after any number of calls with any buffers the stream is a prefix of the serialised message, the whole message exactly if COMPLETED |
| Streams.PackCall | openmpi-1.4.2/ompi/datatype/datatype_pack.c:245-367 | one more call lengthens the stream by the next bytes of the message |
| Streams.UnpackRun | openmpi-1.4.2/ompi/datatype/datatype_unpack.c:352-512 | after any number of calls with any fragments memory is the old memory with the stream at the typemap displacements |
| Streams.UnpackCall | openmpi-1.4.2/ompi/datatype/datatype_unpack.c:352-512 | one more call takes the next fragments; after the end of the message nothing is written |
| Streams.RoundTrip | openmpi-1.4.2/ompi/datatype/datatype_unpack.c:352-512 | packing in any calls, cutting the stream again in any way and unpacking in any calls restores exactly the typemap bytes, gaps kept |
| SndRcv.Transfer | openmpi-1.4.2/ompi/datatype/dt_sndrcv.c:95-114 | the chunked loop terminates and moves every byte both sides have, although chunks split elements of the receiver, if and only if the last chunk holds what the element lacks in which it begins, or begins between two elements of the receiver; otherwise all bytes before it have arrived; truncation is reported exactly if the sender has more bytes |
| SndRcv.Chunk | openmpi-1.4.2/ompi/datatype/dt_sndrcv.c:99-113 | one chunk ends at the last element boundary of the sender that fits, and lengthens what has arrived, or one side is complete, or the chunk is too short for an element that the receiver has begun |
| SndRcv.ChunkFits | openmpi-1.4.2/ompi/datatype/dt_sndrcv.c:95-114 | a chunk that is not the last one holds what the receiver lacks of a split element; so does the last one if no element of the receiver is split where the sender ends |
| SndRcv.EndsAtCut | openmpi-1.4.2/ompi/datatype/dt_sndrcv.c:99-105 | where a chunk ends: the end of the message, or the last element boundary that the buffer reaches |
| SndRcv.LacksAt | openmpi-1.4.2/ompi/datatype/datatype_unpack.c:395-414 | in every valid state the split element lacks what the byte offset says |
| SndRcv.StarvedExample | openmpi-1.4.2/ompi/datatype/dt_sndrcv.c:95-114 | 65538 chars sent to 4 chars and 9000 doubles: the second chunk has 2 bytes, and 4 are lacking |
| SndRcv.MovedRestores | openmpi-1.4.2/ompi/datatype/dt_sndrcv.c:95-114 | with equal typemaps the receiver holds exactly the typemap bytes of the sender and its own bytes everywhere else |
| DirectCopy.Copier.constructor | openmpi-1.4.2/ompi/datatype/dt_copy.c:128-144 | a copy is set up for any description, read with the cast of its extents |
| DirectCopy.Copier.MoveData | openmpi-1.4.2/ompi/datatype/dt_copy.c:41-82 | all elements of a record are copied at their displacements and the space counter falls by their bytes |
| DirectCopy.Copier.MoveLoop | openmpi-1.4.2/ompi/datatype/dt_copy.c:84-118 | all repetitions of a contiguous loop are copied at their displacements and the space counter falls by their bytes |
| DirectCopy.Copier.CopyData | openmpi-1.4.2/ompi/datatype/dt_copy.c:213-219 | a data record is copied completely and the run goes on behind it |
| DirectCopy.Copier.CopyLoop | openmpi-1.4.2/ompi/datatype/dt_copy.c:246-253 | a contiguous loop is copied completely and the run goes on behind its END_LOOP |
| DirectCopy.Copier.Close | openmpi-1.4.2/ompi/datatype/dt_copy.c:220-245 | at an END_LOOP: finished, or on at the same byte |
| DirectCopy.Copier.Open | openmpi-1.4.2/ompi/datatype/dt_copy.c:254-263 | a loop that is not contiguous is entered at the same byte |
| DirectCopy.Copier.Interpret | openmpi-1.4.2/ompi/datatype/dt_copy.c:193-265 | terminates with exactly the typemap copied and a space counter of exactly 0; the stack holds exactly one entry more than the loops that are not contiguous are nested |
| DirectCopy.Copier.Step | openmpi-1.4.2/ompi/datatype/dt_copy.c:212-264 | every step of the interpreter copies bytes, is the last one, or decreases a measure on the end of the body, the open loops and the rest of the description |
| DirectCopy.ClimbEnd | openmpi-1.4.2/ompi/datatype/dt_copy.c:220-245 | leaving or repeating a body does not change how high the stack gets in the end |
| DirectCopy.Copier.CopyChunks | openmpi-1.4.2/ompi/datatype/dt_copy.c:160-177 | a run is copied completely in chunks |
| DirectCopy.Copier.Copy | openmpi-1.4.2/ompi/datatype/dt_copy.c:128-266 | on all three paths the destination is the old one with the bytes of the typemap copied; 1 is returned for nothing to do; the number of stack entries used is exact |
| DirectCopy.CopiedExactly | openmpi-1.4.2/ompi/datatype/dt_copy.c:128-266 | every displacement of the typemap holds the byte of the source, also if it is visited twice, and every other byte is unchanged |
| DirectCopy.SameAsPackUnpack | openmpi-1.4.2/ompi/datatype/dt_copy.c:128-266 | for the same description, count and memory, what the direct copy leaves in its destination is, byte for byte, what packing in any calls, cutting the stream in any way and unpacking in any calls leaves in the memory of the receiver |
| OptimizeSpec.AddDataTM | openmpi-1.4.2/ompi/datatype/dt_optimize.c:217-253 | merging a record into the pending run, as elements or as bytes, appends its displacements if and only if the run has no gaps |
| OptimizeSpec.AddRunTM | openmpi-1.4.2/ompi/datatype/dt_optimize.c:128-144 | taking a whole gapless loop into the pending run appends the displacements of all repetitions if and only if the run has no gaps |
| OptimizeSpec.GappedTM | openmpi-1.4.2/ompi/datatype/dt_optimize.c:145-173 | a gapped loop becomes a loop around one run of bytes with the same displacements unless it spoils a run with gaps or its first repetition is peeled off; it keeps a repetition unless it had only one |
| OptimizeSpec.OptRun | openmpi-1.4.2/ompi/datatype/dt_optimize.c:128-144 | for any pending run: the branch for gapless loops alters the meaning exactly if it spoils a run with gaps or something after it does |
| OptimizeSpec.OptGapped | openmpi-1.4.2/ompi/datatype/dt_optimize.c:145-173 | for any pending run: the branch for gapped loops, with the exact conditions |
| OptimizeSpec.OptNested | openmpi-1.4.2/ompi/datatype/dt_optimize.c:207-212 | for any pending run: a loop whose body is compiled as well keeps its meaning exactly if the body does |
| OptimizeSpec.PeelTM | openmpi-1.4.2/ompi/datatype/dt_optimize.c:148-167 | moving the first repetition to the run before the loop is harmless exactly if the extent is 0 or there is no other repetition |
| OptimizeSpec.ByteLoop | openmpi-1.4.2/ompi/datatype/dt_optimize.c:165-171 | the three emitted records denote the blocks of the loop |
| OptimizeSpec.CopiesTM | openmpi-1.4.2/ompi/datatype/dt_optimize.c:194-205 | unrolling a small loop gives its repetitions |
| OptimizeSpec.OptStrided | openmpi-1.4.2/ompi/datatype/dt_optimize.c:185-193 | for any pending run: a loop around one element turned into a strided record keeps the displacements |
| OptimizeSpec.OptCopies | openmpi-1.4.2/ompi/datatype/dt_optimize.c:194-205 | for any pending run: unrolling a loop of at most two repetitions keeps the displacements |
| OptimizeSpec.OptData | openmpi-1.4.2/ompi/datatype/dt_optimize.c:217-253 | for any pending run: the branch for data records alters the meaning exactly if a record is merged into a run with gaps or something after it does |
| OptimizeSpec.Begins | openmpi-1.4.2/ompi/datatype/dt_optimize.c:217-253 | a pending run without gaps stays at the beginning of what is emitted, so that errors cannot cancel out |
| OptimizeSpec.WrapTM | openmpi-1.4.2/ompi/datatype/dt_optimize.c:100-119 | a loop around a compiled body denotes the old loop exactly if the body is unchanged in meaning |
| OptimizeSpec.OptCorrect | openmpi-1.4.2/ompi/datatype/dt_optimize.c:66-263 | for every well-formed stretch and every pending run the compiled records denote the same list of displacements if and only if nothing was altered, all their loops are repeated if and only if none was emptied, and they have the same length and never more records |
| OptimizeSpec.CommitCorrect | openmpi-1.4.2/ompi/datatype/dt_optimize.c:265-319 | for every well-formed description, count and extent: the committed description denotes the original message if and only if nothing was altered, and is a description for the interpreters with that meaning if and only if moreover no loop was emptied |
| OptimizeSpec.PeelExample | openmpi-1.4.2/ompi/datatype/dt_optimize.c:148-171 | an int followed by two blocks of 4 bytes, 8 apart: block 2 is lost and block 1 is moved twice |
| OptimizeSpec.SpoilExample | openmpi-1.4.2/ompi/datatype/dt_optimize.c:217-240 | three ints, 8 bytes apart, and one at displacement 12 are compiled to 16 adjacent bytes |
| Builder.PeeledOnCommit | openmpi-1.4.2/ompi/datatype/dt_optimize.c:148-171 | the first of these built by adding and committed: the last block is lost and the one before it is moved twice |
| Builder.SpoiltOnCommit | openmpi-1.4.2/ompi/datatype/dt_optimize.c:217-240 | the second of these built by adding and committed: 16 adjacent bytes are moved |
| OptimizeSpec.RepeatingKept | openmpi-1.4.2/ompi/datatype/dt_optimize.c:148-167 | if every loop repeats its body, as in every datatype that is built by adding, none is emptied |
| OptimizeSpec.GaplessOne | openmpi-1.4.2/ompi/datatype/dt_optimize.c:119-146 | gapless records and loops that follow a run and each other become part of it: one record is left |
| OptimizeSpec.GaplessWhole | openmpi-1.4.2/ompi/datatype/dt_optimize.c:66-263 | a description whose pieces follow each other without gaps is compiled to one record |
| Signature.MarksLength | openmpi-1.4.2/ompi/datatype/datatype_internal.h:148-157 | a description has one mark, a byte of a basic element, for every byte of its typemap |
| Signature.MarksConcat | openmpi-1.4.2/ompi/datatype/dt_add.c:263-331 | appending records appends their elements |
| Signature.AddDataRefines | openmpi-1.4.2/ompi/datatype/dt_optimize.c:217-240 | a record merged into the pending run keeps its elements, or becomes bytes together with that run if the types differ |
| Signature.OptRefines | openmpi-1.4.2/ompi/datatype/dt_optimize.c:66-263 | for every description and pending run the compiled records have the elements of the original in the same order, except that some are cut into single bytes |
| Signature.OptTypes | openmpi-1.4.2/ompi/datatype/dt_optimize.c:66-263 | every compiled record has a type that occurs in the original, or is one of single bytes |
| Signature.OptShort | openmpi-1.4.2/ompi/datatype/datatype_unpack.c:296-297 | no element of the compiled description is longer than the temporary of unpacking if none of the original is |
| Signature.MissingMark | openmpi-1.4.2/ompi/datatype/datatype_unpack.c:395-414 | what a split element lacks is what the elements of the description say |
| Signature.OptMissing | openmpi-1.4.2/ompi/datatype/dt_optimize.c:66-263 | where the compiled description splits an element the original splits the same one; every other element boundary stays one |
| Optimize.GetFirstNonLoop | openmpi-1.4.2/ompi/datatype/datatype_internal.h:281-292 | the loop finds the displacement of the first data record |
| Optimize.StepClose | openmpi-1.4.2/ompi/datatype/dt_optimize.c:100-119 | closing a loop and completing its LOOP record leaves the final result of the compilation unchanged |
| Optimize.StepOpen | openmpi-1.4.2/ompi/datatype/dt_optimize.c:207-212 | opening a loop leaves the final result of the compilation unchanged |
| Optimize.Pass.TakeData | openmpi-1.4.2/ompi/datatype/dt_optimize.c:217-253 | a run of data records is consumed; output, pending run and the records still to read together keep their compiled form |
| Optimize.Pass.TakeOne | openmpi-1.4.2/ompi/datatype/dt_optimize.c:217-253 | one record: merged as elements, merged as bytes, or the pending run emitted |
| Optimize.Pass.TakeRun | openmpi-1.4.2/ompi/datatype/dt_optimize.c:128-144 | a gapless contiguous loop is taken into the pending run; output, pending run and the records still to read together keep their compiled form |
| Optimize.Pass.TakeGapped | openmpi-1.4.2/ompi/datatype/dt_optimize.c:145-173 | a gapped contiguous loop is emitted around one run of bytes; the compiled form of the whole is kept |
| Optimize.Pass.TakeLoop | openmpi-1.4.2/ompi/datatype/dt_optimize.c:176-212 | a loop that is not contiguous is emitted as a strided record, unrolled or opened; the compiled form of the whole is kept |
| Optimize.Pass.TakeEnd | openmpi-1.4.2/ompi/datatype/dt_optimize.c:100-119 | an END_LOOP closes the innermost open loop and completes its LOOP record; at the last one the compilation is complete |
| Optimize.OptimizeShort | openmpi-1.4.2/ompi/datatype/dt_optimize.c:66-263 | terminates; the output array holds the compiled description with its end marker, in at most used + 1 records, which fits the allocated 2 * used + 1; the stack holds exactly one entry more than the opened loops are nested; which elements it consists of is said by Signature.OptRefines |
| BuilderSpec.MovedWF | openmpi-1.4.2/ompi/datatype/dt_add.c:315-323 | records moved by a displacement stay well formed |
| BuilderSpec.MovedTM | openmpi-1.4.2/ompi/datatype/dt_add.c:315-323 | records moved by a displacement denote the moved typemap |
| BuilderSpec.BasicTM | openmpi-1.4.2/ompi/datatype/dt_add.c:263-286 | the records for a basic type denote its copies, the extent apart |
| BuilderSpec.RepeatedTM | openmpi-1.4.2/ompi/datatype/dt_add.c:296-301 | multiplying the count of a record denotes the copies if and only if there is one copy, one element, or extent 0 |
| BuilderSpec.DerivedTM | openmpi-1.4.2/ompi/datatype/dt_add.c:296-331 | the records for a derived type denote its copies if and only if no record of several elements was overstretched; the number of bytes is always right |
| BuilderSpec.BoundsIter | openmpi-1.4.2/ompi/datatype/dt_add.c:63-82 | the bounds of n copies are the exact minimum and maximum of their displacements |
| BuilderSpec.RunCopies | openmpi-1.4.2/ompi/datatype/dt_add.c:340-350 | copies of a run that follow each other are one run |
| BuilderSpec.AppendDescribed | openmpi-1.4.2/ompi/datatype/dt_add.c:239-357 | appending records that denote the copies keeps size, true bounds and the contiguous flag exact |
| Builder.Datatype.constructor | openmpi-1.4.2/ompi/datatype/dt_create.c:28-54 | an empty datatype with inverted bounds |
| Builder.Datatype.Basic | openmpi-1.4.2/ompi/datatype/dt_module.c:61-69 | a basic type is one record of one element |
| Builder.Datatype.Marker | openmpi-1.4.2/ompi/datatype/dt_module.c:95-97 | the markers and the null type hold no data |
| Builder.Datatype.AddMarker | openmpi-1.4.2/ompi/datatype/dt_add.c:113-137 | a marker sets one bound, the first one outright, later ones by minimum or maximum; no data are added; the bounds stay those of everything that was placed |
| Builder.Datatype.CopyBounds | openmpi-1.4.2/ompi/datatype/dt_add.c:63-82 | bounds and true bounds of the copies, whichever sign the extent has |
| Builder.Datatype.GrowExtent | openmpi-1.4.2/ompi/datatype/dt_add.c:148-222 | the bounds, the user flags and the alignment stay those of everything that was placed, in whatever order; the exact condition under which the upper bound stays the lowest aligned one |
| Layout.AlignedUp | openmpi-1.4.2/ompi/datatype/dt_add.c:217-222 | the aligned upper bound is a multiple of the alignment above the lower bound; it is the next one if and only if the bounds are ordered or already apart by a multiple |
| Builder.Datatype.Add | openmpi-1.4.2/ompi/datatype/dt_add.c:98-359 | the typemap grows by exactly count copies if and only if no record is overstretched, and a valid datatype then stays valid; the description stays well formed in any case; size is the byte total, the true bounds are those of the copies, the flags are as promised, a refused add changes nothing; an add without data keeps the promise of the no-gaps flag if and only if the flag is off or the condition on the old bounds holds; bounds and alignment stay those of all that was added; the elements are the old ones and then those of the copies |
| Layout.EdgeOutermost | openmpi-1.4.2/ompi/datatype/dt_add.c:63-82 | the bound computed for copies is the outermost of the bounds of all copies, where an add of no copies counts as one |
| Layout.GrownEncloses | openmpi-1.4.2/ompi/datatype/dt_add.c:148-222 | after any adds the lower bound is the least of all copies, or of those set by the user if there are any, the upper bound set by the user is the greatest of those, any other one is not below any copy and aligned, and the alignment is the largest that was added |
| Layout.MarkEncloses | openmpi-1.4.2/ompi/datatype/dt_add.c:113-137 | the same for the markers |
| Layout.EnclosesOnce | openmpi-1.4.2/ompi/datatype/dt_add.c:148-222 | what was added determines the bounds, the user flags and the alignment, except for an upper bound that the user did not set |
| Layout.SnugExact | openmpi-1.4.2/ompi/datatype/dt_add.c:206-222 | the upper bound stays the lowest aligned one above all copies if and only if the bounds are not reversed and no aligned value lies between the highest copy and the old upper bound |
| Layout.UsuallySnug | openmpi-1.4.2/ompi/datatype/dt_add.c:206-222 | it does if the lower bound moves by a multiple of the alignment or not at all, and the new alignment is a multiple of the old one |
| Layout.ClearsHighest | openmpi-1.4.2/ompi/datatype/dt_add.c:206-222 | which upper bounds are above all copies |
| Builder.LooseUpper | openmpi-1.4.2/ompi/datatype/dt_add.c:217-222 | an int, a char behind it and a char before it, put together by adding: the upper bound is 11, although 7 would be aligned |
| Layout.SameEncloses | openmpi-1.4.2/ompi/datatype/dt_add.c:148-222 | lists of what was placed that have the same bounds and alignments give the same datatype bounds |
| Layout.CopiesMerged | openmpi-1.4.2/ompi/datatype/dt_create_indexed.c:48-60 | copies that begin where others end have the bounds of all of them |
| BuilderSpec.DerivedMarks | openmpi-1.4.2/ompi/datatype/dt_add.c:296-331 | the records for a derived type have the elements of its copies, also where a record is overstretched |
| Builder.Datatype.StaysExact | openmpi-1.4.2/ompi/datatype/dt_add.c:333-357 | the contiguous flag survives if and only if the data are one ascending run afterwards, except that a first add of data that do not begin at the origin of their datatype loses it as well |
| Builder.Datatype.LoopsCounted | openmpi-1.4.2/ompi/datatype/dt_add.c:266-311 | the kept number of loops grows by that of the added datatype and by two for a new LOOP record, and is set to one by a LOOP record around a basic type |
| Builder.Datatype.AddData | openmpi-1.4.2/ompi/datatype/dt_add.c:239-357 | true bounds stay the exact minimum and maximum, and the contiguous flag implies one ascending run |
| Builder.Datatype.NewRecordsTM | openmpi-1.4.2/ompi/datatype/dt_add.c:263-331 | the appended records denote count copies of the added typemap if and only if none is overstretched |
| Builder.Datatype.StaysSafe | openmpi-1.4.2/ompi/datatype/dt_add.c:333-357 | the contiguous flag never survives an add that overstretches a record |
| Builder.Overlapping | openmpi-1.4.2/ompi/datatype/dt_add.c:296-301 | three ints, resized to the extent of one, and two copies of that: 24 adjacent bytes instead of two overlapping runs of 12 |
| Builder.Datatype.ContiguousIsRun | openmpi-1.4.2/ompi/datatype/datatype.h:202-208 | what is reported as a contiguous layout is one run of bytes, for every count |
| Layout.SpanKept | openmpi-1.4.2/ompi/datatype/dt_add.c:148-222 | for all bounds, set by the user or not, and all counts: the extent after an add is the old one if and only if the condition on the old bounds holds |
| Layout.AlignedSpan | openmpi-1.4.2/ompi/datatype/dt_add.c:217-222 | which extent the alignment gives, also for reversed bounds |
| Layout.ZeroAdd | openmpi-1.4.2/ompi/datatype/dt_add.c:148-234 | adding zero copies when no bound was set by the user keeps the extent if and only if the bounds lie inside and the extent is aligned |
| Builder.StaleNoGaps | openmpi-1.4.2/ompi/datatype/dt_add.c:232-234 | an int and then zero ints at displacement 20: the no-gaps flag stays although the extent is 24, and two copies reported contiguous are not |
| Builder.Datatype.Commit | openmpi-1.4.2/ompi/datatype/dt_optimize.c:265-319 | commits once; the compiled description has the meaning of the original for every count and extent if and only if nothing was altered, and is then well formed; the compiler uses exactly one stack entry more than the loops that it opens are nested; the compiled description has the elements of the original in order, some cut into single bytes, only their types and the byte type, none longer than 16 bytes if none was, and splits no other element |
| Constructors.BlocksMerge | openmpi-1.4.2/ompi/datatype/dt_create_indexed.c:48-60 | a block that starts where the one before ends continues it without changing the typemap |
| Constructors.CreateHindexed | openmpi-1.4.2/ompi/datatype/dt_create_indexed.c:67-106 | for any blocks, adjacent, empty or not, the typemap is that of the blocks one after the other if and only if no run of merged blocks with several elements is overstretched; the bounds are those of the merged runs, and those of the blocks if none is empty; the elements are those of all blocks |
| Constructors.CreateIndexed | openmpi-1.4.2/ompi/datatype/dt_create_indexed.c:26-65 | the same with displacements in extents; the bounds are those of the merged runs, and those of the blocks if none is empty; the elements are those of all blocks |
| Constructors.RunsSame | openmpi-1.4.2/ompi/datatype/dt_create_indexed.c:48-60 | merging blocks that are not empty changes no bound |
| Constructors.MakeBlock | openmpi-1.4.2/ompi/datatype/dt_create_vector.c:83 | a block of several elements is again a datatype that may be repeated, with the exact bounds, and denotes the elements if and only if they are not overstretched; bounds and elements are those of the copies |
| Constructors.RepeatBlock | openmpi-1.4.2/ompi/datatype/dt_create_vector.c:82-87 | the typemap of the repeated block is that of the vector if and only if the stride is not misread and the block not overstretched; the bounds are those of the blocks of the vector, each placed by itself, and the elements are theirs |
| Constructors.Spread | openmpi-1.4.2/ompi/datatype/dt_create_vector.c:79-81 | for blocks of one element the typemap is that of the vector if and only if the stride is not misread; the bounds are those of the blocks of the vector, each placed by itself, and the elements are theirs |
| Constructors.Contiguous | openmpi-1.4.2/ompi/datatype/dt_create_vector.c:75-77 | blocks without gaps are one add of all elements; the bounds are those of the blocks of the vector, each placed by itself, and the elements are theirs |
| Constructors.VectorWhole | openmpi-1.4.2/ompi/datatype/dt_create_vector.c:75-77 | blocks whose stride is their length are one list of copies |
| Constructors.VectorNested | openmpi-1.4.2/ompi/datatype/dt_create_vector.c:82-87 | copies of a block built as copies are the vector typemap |
| Constructors.OtherStride | openmpi-1.4.2/ompi/datatype/dt_create_vector.c:62-91 | copies at different distances differ, so a misread stride always shows |
| Constructors.StretchedMisread | openmpi-1.4.2/ompi/datatype/dt_create_vector.c:79-81 | a misread stride and an overstretched record do not cancel out |
| Constructors.CreateHvector | openmpi-1.4.2/ompi/datatype/dt_create_vector.c:62-91 | the typemap is that of the vector if and only if a stride of -1 is not taken for the default extent and no record is overstretched; the bounds are those of the blocks of the vector, each placed by itself, and the elements are theirs |
| Constructors.CreateVector | openmpi-1.4.2/ompi/datatype/dt_create_vector.c:32-60 | the same with the stride in extents; the bounds are those of the blocks of the vector, each placed by itself, and the elements are theirs |
| Layout.NestedBlocks | openmpi-1.4.2/ompi/datatype/dt_create_vector.c:82-87 | the copies of a block that encloses copies enclose all of those |
| Layout.FlatBlocks | openmpi-1.4.2/ompi/datatype/dt_create_vector.c:75-77 | blocks that follow each other have the bounds of one add of all elements |
| Constructors.StrideExample | openmpi-1.4.2/ompi/datatype/dt_add.c:110 | two ints, the second one byte before the first: the datatype has another typemap |
| Constructors.AddEntry | openmpi-1.4.2/ompi/datatype/dt_create_struct.c:74-87 | an entry appends its copies, unless several of them are overstretched; a marker adds no data and sets its bound; the bounds stay those of the entries placed |
| Constructors.CreateStruct | openmpi-1.4.2/ompi/datatype/dt_create_struct.c:25-91 | for entries of any datatypes, bound markers and the null datatype included, merging entries of the same type that follow each other gives the typemap of the entries one after the other if and only if no merged run of several elements is overstretched; the bounds are those of the merged runs, and those of the entries if none is empty; a bound is set by the user if and only if some entry sets it, and it is that of the outermost marker if only markers do; the elements are those of all entries |
| Constructors.RunsEnclose | openmpi-1.4.2/ompi/datatype/dt_create_struct.c:74-87 | merging entries that are not empty changes no bound |
| Constructors.RunsUser | openmpi-1.4.2/ompi/datatype/dt_create_struct.c:74-87 | merging entries, empty or not, changes nothing about the bounds that the user set |
| Constructors.MarkerBound | openmpi-1.4.2/ompi/datatype/dt_create_struct.c:81-87 | if only markers set a bound it is that of the outermost one |
| Constructors.RebuiltStruct | openmpi-1.4.2/ompi/datatype/dt_create_struct.c:74-87 | a struct whose parts are rebuilt as separate objects has the typemap of the original if that one is right, and if no entry is overstretched by itself only then, because entries are merged by identity |
| Constructors.RebuiltBounds | openmpi-1.4.2/ompi/datatype/dt_create_struct.c:74-87 | the bounds of such a struct are those of the original if no entry is empty, except for an upper bound that the user did not set |
| Constructors.ShorterRuns | openmpi-1.4.2/ompi/datatype/dt_create_struct.c:74-87 | where fewer entries are identical the merged runs are not longer |
| Constructors.SharedPart | openmpi-1.4.2/ompi/datatype/dt_create_struct.c:74-87 | one datatype listed twice and two alike listed once: the typemaps differ |
| Description.FromSetArgs | openmpi-1.4.2/ompi/datatype/dt_args.c:617-709 | the constructor call made from the kept arguments is the one they were kept from, also for the combiners whose addresses were given as integers, and none for those that are not supported |
| Description.AddressRoundTrip | openmpi-1.4.2/ompi/datatype/dt_args.c:411-470 | addresses survive being written as words |
| Description.PrintedSize | openmpi-1.4.2/ompi/datatype/dt_args.c:219-240 | the printed form fills exactly the size computed when the arguments are kept |
| Description.Printer.Header | openmpi-1.4.2/ompi/datatype/dt_args.c:429-453 | the header, the addresses and the integers, with room for the parts |
| Description.Printer.PrintPart | openmpi-1.4.2/ompi/datatype/dt_args.c:456-467 | a basic part is its id, any other one a number and its own printed form |
| Description.Printer.Print | openmpi-1.4.2/ompi/datatype/dt_args.c:411-470 | the printer appends the printed form: header, addresses, ids or numbers of the parts, integers, and the parts that are not basic, in order |
| Description.Printer.Describe | openmpi-1.4.2/ompi/datatype/dt_args.c:472-492 | the whole printed form is written, exactly total_pack_size words of it; word by word: the number of the combiner, the three counts, every address, part and integer at its place, for every constructor |
| Description.ParseParts | openmpi-1.4.2/ompi/datatype/dt_args.c:550-586 | the parts are rebuilt, or none if one of them is not supported |
| Description.ParseArgs | openmpi-1.4.2/ompi/datatype/dt_args.c:540-606 | a datatype that is not basic is rebuilt from its printed form, with exactly its words consumed |
| Description.Parse | openmpi-1.4.2/ompi/datatype/dt_args.c:494-615 | from the printed form of a datatype the same constructor calls are made and exactly its words are consumed, if and only if all its combiners are supported |
| Description.SpelledExact | openmpi-1.4.2/ompi/datatype/dt_args.c:411-470 | words that have the number of the combiner, the counts, the addresses, the parts and the integers of a datatype at their places are exactly its printed form |
| Description.HeadingExact | openmpi-1.4.2/ompi/datatype/dt_args.c:111-196 | the kept arguments are the counts, addresses and integers of the call in its order |
| Description.CreateFromDescription | openmpi-1.4.2/ompi/datatype/dt_args.c:712-726 | from words that describe a datatype, one by one, the same constructor calls are made |
| Description.SendDescription | openmpi-1.4.2/ompi/datatype/dt_args.c:712-726 | a description sent to another process makes the same constructor calls there |
| CidTable.LeastFree | openmpi-1.4.2/ompi/communicator/comm_cid.c:198-205 | the probing finds the least free id from a starting point, or none |
| CidTable.RoundUndone | openmpi-1.4.2/ompi/communicator/comm_cid.c:209-239 | a failed round leaves the table of a process exactly as it was |
| CidTable.StaleUndone | openmpi-1.4.2/ompi/communicator/comm_cid.c:209-239 | so does a round in which an id was proposed once more without being reserved |
| CidTable.AgreesIfFree | openmpi-1.4.2/ompi/communicator/comm_cid.c:209-224 | a process agrees to an id exactly if it was free in its table, and then holds only that |
| CidTable.Process.Propose | openmpi-1.4.2/ompi/communicator/comm_cid.c:198-205 | the least free id is reserved and proposed; if there is none, the id of an earlier round is proposed without being reserved |
| CidTable.Process.Settle | openmpi-1.4.2/ompi/communicator/comm_cid.c:209-224 | moving to the maximum: the own reservation is given up, the new id is taken if it is free |
| CidTable.Process.Undo | openmpi-1.4.2/ompi/communicator/comm_cid.c:228-239 | a reservation that was made is given up, and the search goes on above the id |
| CidTable.Process.Finish | openmpi-1.4.2/ompi/communicator/comm_cid.c:244-245 | the id is given to the new communicator |
| CidRounds.MaxProposal | openmpi-1.4.2/ompi/communicator/comm_cid.c:207-208 | within one group or between two, the reduction gives the largest of the proposals |
| CidRounds.AllAgree | openmpi-1.4.2/ompi/communicator/comm_cid.c:226-227 | within one group or between two, the reduction is true exactly if everybody agreed |
| CidRounds.AgreedIfFree | openmpi-1.4.2/ompi/communicator/comm_cid.c:226-239 | everybody agrees exactly if the id is free at every participant |
| CidRounds.NextInRange | openmpi-1.4.2/ompi/communicator/comm_cid.c:207-208 | the largest proposal lies inside the tables and never passes a commonly free id that nobody has passed |
| CidRounds.ProposeAll | openmpi-1.4.2/ompi/communicator/comm_cid.c:198-205 | every participant reserves and proposes the least id that is free from its starting point on, or proposes its last id once more |
| CidRounds.SettleAll | openmpi-1.4.2/ompi/communicator/comm_cid.c:209-224 | every participant answers whether the id was free in its table |
| CidRounds.FinishAll | openmpi-1.4.2/ompi/communicator/comm_cid.c:244-245 | every participant enters the id, and nothing else has changed |
| CidRounds.UndoAll | openmpi-1.4.2/ompi/communicator/comm_cid.c:228-239 | a failed round restores every table |
| CidRounds.Round | openmpi-1.4.2/ompi/communicator/comm_cid.c:182-241 | a round agrees if and only if the largest proposal is free everywhere, and leaves every table as it was if not |
| CidRounds.NextCid | openmpi-1.4.2/ompi/communicator/comm_cid.c:174-252 | if some id is free everywhere the negotiation, of one group or of two with either of the two-group reductions, terminates, all participants return the least such id and enter it, and nothing else in any table changes |
| CidRounds.NeverAgreed | openmpi-1.4.2/ompi/communicator/comm_cid.c:182-241 | if no id is free everywhere, the negotiation has not agreed after any number of rounds, and all tables are as they were |
| CidRuns.OnlyOwn | openmpi-1.4.2/ompi/communicator/comm_cid.c:198-245 | a step that does no harm changes one slot of its own process at most, and only a free one or one of its own communicator |
| CidRuns.StepSlot | openmpi-1.4.2/ompi/communicator/comm_cid.c:198-245 | what a step that does no harm does to each slot of its process is determined by the phases before and after |
| CidRuns.OwnedOther | openmpi-1.4.2/ompi/communicator/comm_cid.c:198-245 | a step that does no harm leaves alone what the other negotiations of the same process hold |
| CidRuns.HarmExact | openmpi-1.4.2/ompi/communicator/comm_cid.c:198-239 | as long as the tables are as the phases say, a step changes a slot of another communicator if and only if it settles or decides on an id that was proposed once more without being reserved, and whose slot is not free any more |
| CidRuns.StepKeepsRounds | openmpi-1.4.2/ompi/communicator/comm_cid.c:174-249 | every step of every process, in any interleaving, keeps what is known of the rounds |
| CidRuns.StepKeepsInv | openmpi-1.4.2/ompi/communicator/comm_cid.c:174-249 | every step that does no harm, in any interleaving, keeps the tables as the phases say |
| CidRuns.InvAgreement | openmpi-1.4.2/ompi/communicator/comm_cid.c:207-245 | participants that finished hold the same id |
| CidRuns.InvUnique | openmpi-1.4.2/ompi/communicator/comm_cid.c:244-245 | a finished participant has its communicator in the table under its id |
| CidRuns.RunInv | openmpi-1.4.2/ompi/communicator/comm_cid.c:174-249 | a run without harmful steps keeps the tables as the phases say |
| CidRuns.RunRounds | openmpi-1.4.2/ompi/communicator/comm_cid.c:174-249 | the rounds are in order in every state of every run |
| CidRuns.RunsAgree | openmpi-1.4.2/ompi/communicator/comm_cid.c:207-245 | in every state of every run participants agree, whatever harm was done to the tables |
| CidRuns.RunsSafe | openmpi-1.4.2/ompi/communicator/comm_cid.c:174-249 | in every state of every run without harmful steps participants agree, and two live communicators of a process never have the same id |
| CidRuns.SuppliedIsSafe | openmpi-1.4.2/ompi/communicator/comm_cid.c:198-205 | a run in which every search has a free id at or above the place where it searches has no harmful steps |
| CidStale.LostId | openmpi-1.4.2/ompi/communicator/comm_cid.c:198-224 | a run of two processes and two ids, gated throughout: a search finds nothing, an id of the round before is proposed once more, and settling clears the slot of a live communicator; another one gets that id |
| CidRuns.OnlyHolderReleases | openmpi-1.4.2/ompi/communicator/comm_init.c:430-435 | in a run without harmful steps a slot that a communicator holds is changed only by a step for that communicator at that process |
| CidProgress.SomeLowest | openmpi-1.4.2/ompi/communicator/comm_cid.c:188-193 | as long as negotiations are going on there is one with the lowest id |
| CidProgress.OneSearches | openmpi-1.4.2/ompi/communicator/comm_cid.c:188-193 | a process does not pass the gate with a communicator while one with a lower id is registered there, and of those that search at a process only the one with the lowest id goes on |
| CidProgress.CanStep | openmpi-1.4.2/ompi/communicator/comm_cid.c:198-245 | among the participants of a negotiation that everybody has entered, the one that has contributed least can take its next step |
| CidProgress.GateProgress | openmpi-1.4.2/ompi/communicator/comm_cid.c:174-249 | in every state of every run the negotiation with the lowest id passes the gate at all its processes, and if everybody has entered it, it can go on |
| CidBound.StaysLow | openmpi-1.4.2/ompi/communicator/comm_cid.c:198-245 | with an id that is kept free for the negotiation no participant gets past it, and every step of a participant leaves it fewer steps |
| CidBound.StepsBounded | openmpi-1.4.2/ompi/communicator/comm_cid.c:182-245 | the own steps of such a negotiation are bounded by its participants and that id, however many steps others take in between |
| CidBound.Ends | openmpi-1.4.2/ompi/communicator/comm_cid.c:182-245 | so it ends: until then one of the steps left is possible whenever it has the lowest id, and then everybody has the same id, not above the one kept free |
| CidReduce.AllreduceInter | openmpi-1.4.2/ompi/communicator/comm_cid.c:657-773 | both groups get the reduction over both groups |
| CidReduce.AllreduceBridge | openmpi-1.4.2/ompi/communicator/comm_cid.c:778-864 | both groups get the reduction over both groups, by way of the leaders |
| CidReduce.Allreduce | openmpi-1.4.2/ompi/communicator/comm_cid.c:138-157 | whichever reduction the mode selects, every participant gets the reduction over all of them |
| CidReduce.ReduceMax | openmpi-1.4.2/ompi/communicator/comm_cid.c:207-208 | the reduction with the maximum is one of the values and not less than any |
| CidReduce.ReduceMin | openmpi-1.4.2/ompi/communicator/comm_cid.c:226-227 | the reduction with the minimum is one of the values and not greater than any |
| CidReduce.ReduceConcat | openmpi-1.4.2/ompi/communicator/comm_cid.c:726-745 | the reduction over two groups is the combination of their reductions |
| CidReduce.Registry.Register | openmpi-1.4.2/ompi/communicator/comm_cid.c:355-393 | the list stays ascending and without duplicates; registering twice is refused |
| CidReduce.Registry.Unregister | openmpi-1.4.2/ompi/communicator/comm_cid.c:395-411 | exactly the given id leaves the list |
| CidReduce.Registry.Lowest | openmpi-1.4.2/ompi/communicator/comm_cid.c:413-420 | the first entry is the least registered id |
| RbHeap.RotateHere | openmpi-1.4.2/ompi/class/ompi_rb_tree.c:474-527 | a rotation on nodes with parent pointers is the rotation of the stored tree, with all links consistent |
| RbHeap.LinkHere | openmpi-1.4.2/ompi/class/ompi_rb_tree.c:326-344 | linking a new node stores the tree with that leaf |
| RbHeap.UnlinkHere | openmpi-1.4.2/ompi/class/ompi_rb_tree.c:234-250 | unlinking a node stores the tree with the node replaced by its child, and the parent of the sentinel then serves as scratch |
| RbHeap.EnterAbove | openmpi-1.4.2/ompi/class/ompi_rb_tree.c:252-255 | overwriting the entry of an ancestor stores the tree with that entry |
| RbSpec.TakeOut | openmpi-1.4.2/ompi/class/ompi_rb_tree.c:234-259 | taking out a black node leaves its position short of one black node, a red one leaves a red-black tree |
| RbSpec.Sides | openmpi-1.4.2/ompi/class/ompi_rb_tree.c:197-214 | in a sorted tree a search may leave out one side of a node |
| RbSpec.RedUncle | openmpi-1.4.2/ompi/class/ompi_rb_tree.c:135-140 | changing colors keeps the black heights; only the grandparent may now have a red parent |
| RbSpec.InnerToOuter | openmpi-1.4.2/ompi/class/ompi_rb_tree.c:142-145 | turning an inner node keeps the insert invariant |
| RbSpec.OuterDone | openmpi-1.4.2/ompi/class/ompi_rb_tree.c:146-148 | raising the parent ends with a black parent |
| RbSpec.InsertDone | openmpi-1.4.2/ompi/class/ompi_rb_tree.c:168-170 | painting the root black gives a red-black tree with the entries in the same order |
| RbSpec.RedSibling | openmpi-1.4.2/ompi/class/ompi_rb_tree.c:355-360 | raising a red sibling leads to a black sibling and keeps the missing black node where it is |
| RbSpec.BlackNephews | openmpi-1.4.2/ompi/class/ompi_rb_tree.c:361-363 | painting a sibling with black children red moves the missing black node up to the parent |
| RbSpec.NearNephew | openmpi-1.4.2/ompi/class/ompi_rb_tree.c:365-370 | raising a red near nephew leads to a red far nephew |
| RbSpec.FarNephew | openmpi-1.4.2/ompi/class/ompi_rb_tree.c:371-375 | raising the sibling with a red far nephew gives a red-black tree |
| RbSpec.ShortDone | openmpi-1.4.2/ompi/class/ompi_rb_tree.c:405-406 | painting a red position or the root black gives a red-black tree |
| RbSpec.DepthBound | openmpi-1.4.2/ompi/class/ompi_rb_tree.c:197-214 | the depth is at most twice the logarithm of the number of entries plus one |
| RbTree.RbTree.constructor | openmpi-1.4.2/ompi/class/ompi_rb_tree.c:70-106 | an empty tree |
| RbTree.RbTree.Rotate | openmpi-1.4.2/ompi/class/ompi_rb_tree.c:474-527 | the imperative rotation, in both directions, stores the rotated tree and spares the sentinel |
| RbTree.RbTree.FindNode | openmpi-1.4.2/ompi/class/ompi_rb_tree.c:197-214 | finds a node with an equal key if and only if there is one |
| RbTree.RbTree.Find | openmpi-1.4.2/ompi/class/ompi_rb_tree.c:174-192 | returns a stored value of an equal key if and only if there is one, visiting at most 2 * log2(n + 1) nodes |
| RbTree.RbTree.PlaceLeaf | openmpi-1.4.2/ompi/class/ompi_rb_tree.c:315-345 | the new entry stands between the smaller keys and the others, as a red leaf |
| RbTree.RbTree.Recolor | openmpi-1.4.2/ompi/class/ompi_rb_tree.c:135-140 | the color changes on nodes keep entries, nodes and the insert invariant |
| RbTree.RbTree.RotateInner | openmpi-1.4.2/ompi/class/ompi_rb_tree.c:142-145 | turning an inner node with the two pointer rotations keeps entries, nodes and the insert invariant, and makes it an outer node |
| RbTree.RbTree.RotateOuter | openmpi-1.4.2/ompi/class/ompi_rb_tree.c:146-148 | raising the parent keeps entries, nodes and the insert invariant, and the parent is black then |
| RbTree.RbTree.InsertFixup | openmpi-1.4.2/ompi/class/ompi_rb_tree.c:130-170 | terminates with a red-black tree of the same entries and nodes |
| RbTree.RbTree.Insert | openmpi-1.4.2/ompi/class/ompi_rb_tree.c:110-171 | exactly one entry is added, at its place in the order, duplicates allowed, in the supplied node; without a node nothing changes |
| RbTree.RbTree.LiftSibling | openmpi-1.4.2/ompi/class/ompi_rb_tree.c:355-360 | on the nodes a red sibling is raised: same entries and nodes, a black sibling, and the position still lacks one black node |
| RbTree.RbTree.ShortenSibling | openmpi-1.4.2/ompi/class/ompi_rb_tree.c:361-363 | on the nodes a black sibling turns red: same entries and nodes, and the parent lacks the black node now |
| RbTree.RbTree.TurnNephew | openmpi-1.4.2/ompi/class/ompi_rb_tree.c:365-370 | on the nodes a red near nephew is raised: same entries and nodes, and the far nephew is red |
| RbTree.RbTree.RaiseSibling | openmpi-1.4.2/ompi/class/ompi_rb_tree.c:371-375 | on the nodes the sibling is raised: same entries and nodes, and the whole tree is a red-black tree |
| RbTree.RbTree.FixSibling | openmpi-1.4.2/ompi/class/ompi_rb_tree.c:361-376 | with a black sibling the missing black node moves up, or the tree is finished and the cached root is black |
| RbTree.RbTree.FinishFixup | openmpi-1.4.2/ompi/class/ompi_rb_tree.c:405-406 | painting the last position black finishes the tree, also when the cached root is no longer the root |
| RbTree.RbTree.DeleteFixup | openmpi-1.4.2/ompi/class/ompi_rb_tree.c:348-407 | terminates with a red-black tree of the same entries, although the root is read once before the loop and may be rotated down |
| RbTree.RbTree.Successor | openmpi-1.4.2/ompi/class/ompi_rb_tree.c:288-300 | the leftmost node of the right subtree |
| RbTree.RbTree.Unlink | openmpi-1.4.2/ompi/class/ompi_rb_tree.c:234-250 | the child takes the place of the node, and the parent is found even from the sentinel |
| RbTree.RbTree.Rebalance | openmpi-1.4.2/ompi/class/ompi_rb_tree.c:257-259 | only a black node that was taken out needs the fixup; the result is a red-black tree of the same entries |
| RbTree.RbTree.DeleteHere | openmpi-1.4.2/ompi/class/ompi_rb_tree.c:228-264 | a node with an empty child is removed itself |
| RbTree.RbTree.DeleteSuccessor | openmpi-1.4.2/ompi/class/ompi_rb_tree.c:228-264 | a node with two children takes the entry of its successor, whose node is removed |
| RbTree.RbTree.Delete | openmpi-1.4.2/ompi/class/ompi_rb_tree.c:217-264 | exactly one entry with an equal key is removed, all invariants are kept, exactly one node leaves the tree; not found changes nothing |
| SeqTracker.Canonical | openmpi-1.4.2/ompi/class/ompi_seq_tracker.c:92-181 | a sorted list of ranges that never touch is the only one for its set of numbers |
| SeqTracker.InsertedOK | openmpi-1.4.2/ompi/class/ompi_seq_tracker.c:146-176 | a number that touches no range becomes a range |
| SeqTracker.GrownOK | openmpi-1.4.2/ompi/class/ompi_seq_tracker.c:118-145 | a range that grows by one number adds exactly that |
| SeqTracker.JoinedOK | openmpi-1.4.2/ompi/class/ompi_seq_tracker.c:118-145 | two ranges joined by the number between them add exactly that |
| SeqTracker.Tracker.Place | openmpi-1.4.2/ompi/class/ompi_seq_tracker.c:146-176 | a new range between its neighbours adds exactly one number, and the cursor stands on it |
| SeqTracker.Tracker.CheckDuplicate | openmpi-1.4.2/ompi/class/ompi_seq_tracker.c:59-84 | terminates from any cursor and answers membership |
| SeqTracker.Tracker.ExtendUp | openmpi-1.4.2/ompi/class/ompi_seq_tracker.c:118-130 | growing upwards, with or without joining, adds exactly one number if and only if the comparison did not wrap around |
| SeqTracker.Tracker.ExtendDown | openmpi-1.4.2/ompi/class/ompi_seq_tracker.c:132-144 | growing downwards, with or without joining, adds exactly one number if and only if the comparison did not wrap around |
| SeqTracker.Tracker.Insert | openmpi-1.4.2/ompi/class/ompi_seq_tracker.c:92-181 | exactly one number is added and the list stays sorted, disjoint and never adjacent, if and only if the 32-bit comparison does not wrap around at the cursor; it cannot for 1 to 2^32 - 2 |
| SeqTracker.WrapExample | openmpi-1.4.2/ompi/class/ompi_seq_tracker.c:118-144 | the range 0 to 0 and then the number 2^32 - 1: the list is broken or the number is not added |
| SeqTracker.Tracker.CopyFrom | openmpi-1.4.2/ompi/class/ompi_seq_tracker.c:184-199 | an equal list with an equal cursor |
| Bitmap.LowestUnset | openmpi-1.4.2/ompi/class/ompi_bitmap.c:244-245 | or-ing a byte with its successor sets exactly its lowest unset bit |
| Bitmap.FirstUnset | openmpi-1.4.2/ompi/class/ompi_bitmap.c:224-247 | the bit found in the first byte that is not full is the first unset bit of the map, and only it is set |
| Bitmap.FirstUnsetOf | openmpi-1.4.2/ompi/class/ompi_bitmap.c:236-242 | counting shifts finds the lowest unset bit |
| Bitmap.Map.SetBit | openmpi-1.4.2/ompi/class/ompi_bitmap.c:77-137 | exactly one bit is set, growing if need be; error codes as documented |
| Bitmap.Map.ClearBit | openmpi-1.4.2/ompi/class/ompi_bitmap.c:141-158 | exactly one bit is cleared, or an error and no change |
| Bitmap.Map.FindAndSet | openmpi-1.4.2/ompi/class/ompi_bitmap.c:214-249 | the first unset bit is set and returned, growing if the map is full |
| Attributes.CacheCount | openmpi-1.4.2/ompi/attribute/attribute.c:1053-1148 | caching a key on an object adds one user exactly if it was not cached there |
| Attributes.UncacheCount | openmpi-1.4.2/ompi/attribute/attribute.c:671-762 | deleting a cached key removes one user |
| Attributes.CachedGood | openmpi-1.4.2/ompi/attribute/attribute.c:1053-1148 | caching keeps all reference counts exact |
| Attributes.UncachedGood | openmpi-1.4.2/ompi/attribute/attribute.c:671-762 | deleting keeps them exact; the last reference recycles the key |
| Attributes.FreedGood | openmpi-1.4.2/ompi/attribute/attribute.c:631-668 | freeing keeps the state consistent if and only if the key was not freed before |
| Attributes.Attributes.constructor | openmpi-1.4.2/ompi/attribute/attribute.c:477-510 | an empty table and an empty bitmap |
| Attributes.Attributes.NewObject | openmpi-1.4.2/ompi/attribute/attribute.c:1053-1148 | an object without attributes changes no count |
| Attributes.Attributes.Release | openmpi-1.4.2/ompi/attribute/attribute.c:454-469 | the last reference removes the keyval and clears its bit, any other one only counts down |
| Attributes.Attributes.CreateKeyval | openmpi-1.4.2/ompi/attribute/attribute.c:529-581 | the returned key is the least unused one, and no object caches it; an error changes nothing |
| Attributes.Attributes.FreeKeyval | openmpi-1.4.2/ompi/attribute/attribute.c:631-668 | succeeds exactly for a known key of this type that is not predefined, or for a predefined one if the caller may; one reference is given up; valid if and only if this is the first free of the key |
| Attributes.DoubleFree | openmpi-1.4.2/ompi/attribute/attribute.c:631-668 | a key cached once and freed twice: the second free succeeds and the counts are wrong |
| Attributes.Attributes.SetValue | openmpi-1.4.2/ompi/attribute/attribute.c:1053-1148 | exactly one attribute of one object changes, counts stay exact, errors change nothing; a predefined key is refused unless the caller may use it, and so is one of another type |
| Attributes.Attributes.Delete | openmpi-1.4.2/ompi/attribute/attribute.c:671-762 | exactly one attribute of one object goes, counts stay exact, errors change nothing; a predefined key is refused unless the caller may use it, and so is one of another type |
| Attributes.Attributes.CopyAll | openmpi-1.4.2/ompi/attribute/attribute.c:888-988 | the lookup of a cached key never misses, and exactly the attributes that the callbacks let through are copied; if a callback fails, exactly those of the keys before it |
| Attributes.Attributes.DeleteAll | openmpi-1.4.2/ompi/attribute/attribute.c:994-1046 | all attributes go; if a callback fails, exactly those of the keys before it, with counts exact either way |

## Left out

- Checksums, debug output, pointer safeguards and dump functions: they do not change what is computed.
- Heterogeneous conversion, `ompi_unpack_general` and the special paths for contiguous datatypes in the convertor: other stack conventions.
- `ompi_ddt_get_element_count`: leaving an inner loop restarts the body around it, so the obvious specification does not hold.
- Integer widths: counters, sizes and displacements are unbounded, except for the 32-bit extent of unpacking and copying, the 32-bit numbers of the tracker and the limits of the bitmap.  The words of a description are integers without bound too; an address takes two of them, of which only the first is reduced modulo 2^32.
- Convertors.Convertor.constructor: asks for room for the deepest loop nest, the fake loop and the saved position; `StackRoom` says when what the library allocates is enough.
- Memory allocation: the description of a datatype grows as needed, allocation failures do not occur.
- The `type` field of stack entries and the counts of basic types per datatype: they are not read by the modelled code.
- Convertors.Convertor.Pack: is for convertors made for sending; packed buffers are arrays, each used once in a call.
- Convertors.Convertor.Unpack: is for convertors made for receiving; the fragments are values, since the code only reads them.
- SndRcv.Transfer: stops at a chunk that is too short for an element that the receiver has begun, since the library reads memory there that is not part of this model.
- Constructors.CreateHindexed: an empty block that is merged into the run before it is no part of the bounds, any other one counts as one element; the bounds of the runs say that, and no condition on the blocks is given.
- Constructors.CreateVector: the bounds of its blocks are stated if the lower bound of a block is an address.
- `ompi_ddt_create_indexed_block` and `ompi_ddt_create_contiguous`: the same loop with one block length, and a single add.
- The first pass of `ompi_ddt_create_struct`: it only computes how much to allocate.
- Constructors.CreateStruct: descriptions have fewer records than the limit of a loop, so that no add is refused.
- Resized, subarray, darray and dup constructors, and `ompi_ddt_destroy`.
- Description.Parse: rebuilds the constructor calls; what a call builds is said by `Constructors`.
- Constructors.RebuiltBounds: compares the bounds if no entry is empty; an upper bound that the user did not set depends on the order of the adds as well.
- Alignment of the words of a description, byte order, reference counts of the kept arguments and the encoding of a duplicated type inside another one.
- Collective reductions, pointer arrays, hash tables and lists are modelled by what they promise.
- CidReduce.AllreduceInter: processes, buffers and messages are values, in the order in which the collectives and the leaders hand them on.
- CidReduce.AllreduceBridge: processes, buffers and messages are values here too.
- CidRounds.NeverAgreed: asks that every table has a free id at the beginning; a participant whose table is full proposes a variable that was never set.
- CidRuns.RunsSafe: the gate by the lowest registered id is not part of the steps; it does not prevent harmful steps, and ids are safe without it if there are none.  A participant whose very first search finds nothing proposes a variable that was never set, and takes no step here.
- Block-wise allocation of context ids (behind `if (1 || ...)`) and the out-of-band reductions.
- RbTree.RbTree.Insert: keys are integers compared by their order, and the free list is a parameter that supplies a node or none; its locks and its blocking wait are not modelled.
- RbTree.RbTree.Rotate: nodes are entries of a map from addresses to fields, not objects, and the two mirrored copies of each case are one with a side as parameter.
- Destroying and traversing the tree, and the branch of the successor that climbs: a delete never takes it.
- SeqTracker.Tracker.Insert: the linked list is a sequence with an index as cursor.
- Attribute callbacks are parameters that say whether they succeed and what they copy; the order of the hash table is a parameter; translation of Fortran values, locks and the values of the predefined attributes are not modelled.
