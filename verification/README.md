# Verification of the C core

These Dafny modules model the parts of the repository whose correctness rests on invariants: the
Cap'n Proto arena with its copier and its frame, the RESTART codec, the calculator session with its rank
consensus, and the placement, adoption and sizing helpers. `dafny verify dfyconfig.toml` checks everything.

The bundled Cap'n Proto library implements the sections "Structs", "Lists", "Inter-Segment Pointers" and
"Serialization Over a Stream" of the Cap'n Proto Encoding Spec.

## How the model is laid out

- `RedBlackTree.dfy`: `capn_tree_insert` on heap nodes with parent links, against trees and paths as values.
- `Message.dfy` (module `SegmentTable`): the segment list and the tree over it; append and lookup.
- `Arena.dfy` (module `Pointers`): pointer words on segments as values: allocate, write, resolve.
- `WireFormat.dfy`: the same words in the numbers of the encoding.
- `ObjectGraph.dfy`: any run of calls on one message, as a graph of objects that the words refine.
- `MessageHeap.dfy`, `MessageObjects.dfy`: the same operations in place on word buffers, each proved against
  `Pointers`.
- `Accessors.dfy`: pointers set and read by index.
- `Options.dfy`, `Ints.dfy`: optional values, limits of the C integer types.
- `CopyTree.dfy`, `CloneGraph.dfy`, `CopyObject.dfy`, `SourceWalks.dfy`, `DeepCopy.dfy`: the copy of everything
  reachable from a foreign target, in place in a heap message, with the interval tree on the heap, an explicit
  stack, and a ghost graph of which object is a clone of which.
- `CloneLaws.dfy`: what an equal value means in bytes and pointers.
- `LittleEndian.dfy`, `Frame.dfy`, `FrameLaws.dfy`: the framed form, written into a buffer and read back, and where
  everything is in it.
- `RestartCodec.dfy`, `RestartImage.dfy`: records and subrecords; section index, cached fields and setters.
- `RestartLayout.dfy`: files put together from their sections, and what reading and setting mean for them.
- `Permutations.dfy`, `Session.dfy` (module `SessionCache`), `Consensus.dfy`: the session as a state machine
  and as an object that refines it; N ranks that go through collectives together.
- `Reference.dfy` (module `ReferencePotential`): the evaluator of builds without CPMD, as an engine for sessions.
- `SpeciesOrder.dfy`, `Adopt.dfy`: placement of atoms and of ranks.
- `SetDirectives.dfy`, `DeckLaws.dfy`: the placement of directives in the input deck, and its laws in terms of the
  sections given.
- `ResultSize.dfy`, `ResultFields.dfy`: the size of a result, and the message that holds it.

Segments count 8-byte words, capacities and 30-bit fields are bounded as the C types bound them, and
coordinates are reals. The engine is an uninterpreted function of parameters, overrides, input deck and
geometry, and the deck one of parameters and overrides. Allocation failure, the outcome of an engine setup and
whether an append fits are parameters.

## What the proofs say about the code

- `capn_setp` with an unresolved far target copies the target's word to the first word of the object and
  ignores the index (`Accessors.FarCopied`; `Accessors.FarOverData` overwrites a data word).
- A double far pointer to an object that starts at the very end of a full segment resolves to null; this is the
  one encoding that does not round-trip (`Pointers.ReadDouble`, `Pointers.WriteThenRead`,
  `Pointers.EndOfSegment`).
- A deep copy fails on every source with a reachable empty list, since such a list has no data pointer to link
  (`DeepCopy.SourceClean`, `SourceWalks.EmptyInside`). A composite list of elements of at most eight bytes
  without pointers is cloned as a plain list, an empty struct as null.
- The first step of a session fixes its atoms without a range check. Numbers that are no elements are
  accepted once and refused for ever after (`SessionCache.FirstStep`, `SessionCache.StrangeAtoms`).
- `cpmdc_session_set_params_ov` stores the overrides before its checks, and the deck only behind them. After a
  change that fails, a session configured and active stays with its earlier setup
  (`SessionCache.HalfDoneChange`), and any other one evaluates the deck of the earlier overrides together with
  the new ones, a setup that nobody asked for (`SessionCache.StaleDeck`). `SessionCache.SetParamsInStep` has the
  exact condition; the next change that succeeds mends it (`SessionCache.Mended`).
- Rank consensus answers only if guards and engine setup agree on all ranks; otherwise one rank waits for a
  collective that another never enters (`Consensus.CallCompletes`).
- A generic section whose name holds a zero character takes the directives of the part before it, so that they
  stand in a section of another name (`SetDirectives.StrayDeck`; `SetDirectives.EveryDirectiveOnce` has the
  exact condition).
- The size bound of a result does not hold for every hessian (`ResultSize.BoundExact` has the exact condition). For
  a `PotentialResult`, whose struct has 24 words, it holds when the hessian is at most 71 values longer than
  the forces (`ResultSize.BoundSuffices`) and never when it, cut to 4096 values, is more than 228 longer
  (`ResultSize.HessianBreaks`).
  The engine itself stores min(3n, 4096) values for n atoms (`src/cpmd_embed_c_api.F90:1928`, `:2042-2047`).
- The reader accepts a count of 1024 segments although its table of 1024 words is then one word too short for
  the padding (`Frame.TableFits`).
- Re-framing a message reproduces its bytes only if the padding word was zero, which the reader does not
  check (`Frame.FramedRead`).

## Model

| member | source | states |
|---|---|---|
| RedBlackTree.Insert | subprojects/c-capnproto/capn.c:42-149 | Given a leaf linked into a red-black tree in the heap, the returned root heads a tree with the same in-order sequence (the leaf at its place), black root, no red node under a red one, equal black heights, and every parent link the inverse of a child link; the recolouring loop ends because it goes two levels up each time |
| RedBlackTree.Redden | subprojects/c-capnproto/capn.c:46-47 | The new node becomes a red leaf without children: the loop invariant holds at the start |
| RedBlackTree.Blacken | subprojects/c-capnproto/capn.c:54-60 | Case 1: a red subtree that has reached the top turns black and the tree is finished |
| RedBlackTree.BlackParent | subprojects/c-capnproto/capn.c:62-65 | Case 2: under a black parent nothing is left to repair |
| RedBlackTree.Recolour | subprojects/c-capnproto/capn.c:78-85 | Case 3: after recolouring, the loop invariant holds for the grandparent |
| RedBlackTree.RecolouredPending | subprojects/c-capnproto/capn.c:78-85 | Recolouring keeps in-order sequence, black heights and distinctness and can only leave a clash further up |
| RedBlackTree.Relink | subprojects/c-capnproto/capn.c:87-93 | Whatever pointed at the grandparent, a child link or the root, points at the new subtree root |
| RedBlackTree.RotateTwice | subprojects/c-capnproto/capn.c:95-121 | Case 4: the pointer surgery in the heap yields exactly the double rotation, parent links included |
| RedBlackTree.RotateOnce | subprojects/c-capnproto/capn.c:122-143 | Case 5: the pointer surgery in the heap yields exactly the single rotation, parent links included |
| RedBlackTree.Rotate | subprojects/c-capnproto/capn.c:87-145 | With a black uncle one call finishes the repair |
| RedBlackTree.RotationInOrder | subprojects/c-capnproto/capn.c:78-143 | Recolouring and both rotations keep the in-order sequence of the grandparent's subtree |
| RedBlackTree.RotationSettled | subprojects/c-capnproto/capn.c:87-145 | The rotated tree as a whole is red-black with the wanted contents |
| RedBlackTree.DepthBound | subprojects/c-capnproto/capn.c:231-244 | No downward walk in a red-black tree is longer than twice the black height, which is logarithmic in the number of nodes |
| SegmentTable.Table.Append | subprojects/c-capnproto/capn.c:151-176 | The list in id order, `lastseg`, `segnum` and the tree describe the same segments after every append; a full table ignores the segment |
| SegmentTable.Table.AppendToList | subprojects/c-capnproto/capn.c:161-174 | The new segment has the next id, is the last of the list, and its predecessor points at it |
| SegmentTable.Table.AppendToTree | subprojects/c-capnproto/capn.c:165-175 | Hooking the new segment to the right of the last one keeps the in-order sequence equal to the list |
| SegmentTable.LastHole | subprojects/c-capnproto/capn.c:166-168 | The last segment is the greatest key and its right link is empty, so that link is where the next id belongs |
| SegmentTable.Table.Next | subprojects/c-capnproto/capn.c:161-166 | Segment number i has id i and points at number i + 1 |
| SegmentTable.Table.Lookup | subprojects/c-capnproto/capn.c:222-265 | Without a lookup callback the result is exactly the segment with the asked id, null for an id that is not there, after at most 2*log2(segnum+1) nodes |
| SegmentTable.Table.Walk | subprojects/c-capnproto/capn.c:231-244 | The walk down the tree finds the id and never runs off the tree |
| Pointers.FirstRoom | subprojects/c-capnproto/capn.c:199-204 | The first segment in id order that has room, skipping only segments without |
| Pointers.NewDataFresh | subprojects/c-capnproto/capn.c:187-220 | An allocation returns zeroed words that belonged to nobody, and nothing that was there changes |
| Pointers.CreateCapIs | subprojects/c-capnproto/capn-malloc.c:11-33 | The capacity of a new segment: whole pages of 4096 bytes less 80, no more of them than needed, and none when the rounding would leave the `int` range |
| Pointers.FirstFree | subprojects/c-capnproto/capn.c:187-220 | The first segment whose capacity has that many words left takes them, to the last one; when none has, a new segment does, unless its bytes leave the `int` range or there are 2^32 - 1 segments |
| Pointers.DecodeTag | subprojects/c-capnproto/capn.c:444-580 | A tag word at the right signed 30-bit distance decodes to the object it was made from, for all list kinds |
| Pointers.ReadNear | subprojects/c-capnproto/capn.c:444-580 | A near pointer resolves to its target |
| Pointers.ReadFar | subprojects/c-capnproto/capn.c:327-349 | A far pointer resolves through the tag word it lands on |
| Pointers.ReadDouble | subprojects/c-capnproto/capn.c:279-325 | A double far pointer resolves through its two-word pad exactly when the target starts inside its segment's capacity, otherwise to null |
| Pointers.WriteExtends | subprojects/c-capnproto/capn.c:799-884 | A pointer write touches its slot and adds words behind segments, nothing else |
| Pointers.WroteWhen | subprojects/c-capnproto/capn.c:799-884 | A write of a proper target fails exactly when a landing pad is needed and neither the slot's segment, nor any other, nor the allocator has two words |
| Pointers.WriteThenRead | subprojects/c-capnproto/capn.c:799-884 | Whichever of the encodings was chosen, resolving the slot gives the same type, segment, offset, length, sizes and composite mark, if and only if the target is linkable; what is read can be written again |
| Pointers.EndOfSegment | subprojects/c-capnproto/capn.c:799-884 | A concrete message: an empty list at the end of a full segment, linked from another segment through a pad, reads back as null |
| WireFormat.TagIs | subprojects/c-capnproto/capn.c:672-730 | The word written for an object: struct sizes in the upper half, for lists the size code and the length, the distance in 30 signed bits, with the numbers of the encoding |
| WireFormat.FarWordIs | subprojects/c-capnproto/capn.c:773-795 | A far word names the place it was made for, and is zero for a place outside the capacity |
| WireFormat.StructRead | subprojects/c-capnproto/capn.c:444-580 | A struct word with data size, pointer count and distance resolves to the struct of these sizes at that distance when it lies inside the segment, else to null |
| WireFormat.PlainListRead | subprojects/c-capnproto/capn.c:444-580 | A list word of code 0, 2, 3, 4 or 5 resolves to a list of elements of 0, 1, 2, 4 or 8 bytes when its bytes lie inside the segment, else to null |
| WireFormat.BitListRead | subprojects/c-capnproto/capn.c:444-580 | A list word of code 1 resolves to a bit list; its recorded bytes wrap at 19 bits |
| WireFormat.PtrListRead | subprojects/c-capnproto/capn.c:444-580 | A list word of code 6 resolves to a list of pointers of one word each |
| WireFormat.StructListRead | subprojects/c-capnproto/capn.c:444-580 | A list word of code 7 resolves to a list of structs with the number and sizes of the word in front of them exactly when they multiply to the words it counts and lie inside the segment |
| WireFormat.FarRead | subprojects/c-capnproto/capn.c:327-349 | A far word resolves to what the word it names says where that word stands, and to null when there is no such word |
| WireFormat.DoubleFarRead | subprojects/c-capnproto/capn.c:279-325 | A double far word resolves to the struct whose place is in the first word of its pad and whose sizes are in the second |
| WireFormat.DoubleFarListRead | subprojects/c-capnproto/capn.c:279-325 | The same for lists of plain elements |
| Pointers.ObjectMade | subprojects/c-capnproto/capn.c:1401-1455 | A new object is fresh zeroed words at the end of a segment, with its own tag word in front when it had to move; on failure memory is as before |
| Pointers.StructMade | subprojects/c-capnproto/capn.c:1478-1497 | A struct is a fresh object or memory is left alone |
| Pointers.ListMade | subprojects/c-capnproto/capn.c:1499-1562 | A list, composite ones with their header word included, is a fresh object or memory is left alone |
| Pointers.BitListMade | subprojects/c-capnproto/capn.c:1564-1576 | The same for bit lists |
| Pointers.PtrListMade | subprojects/c-capnproto/capn.c:1578-1591 | The same for pointer lists |
| ObjectGraph.InitialInv | subprojects/c-capnproto/capn.c:1457-1476 | A message with its root slot satisfies the graph invariant |
| ObjectGraph.StepKeeps | subprojects/c-capnproto/capn.c:672-884 | Every allocation, store, unlink and same-message pointer write keeps: lengths within capacities, objects, tags and pads pairwise disjoint, every slot naming its object |
| ObjectGraph.RunKeeps | subprojects/c-capnproto/capn.c:672-884 | The same over any run, and no object is ever moved or renamed |
| ObjectGraph.StepObjects | subprojects/c-capnproto/capn.c:799-884 | A call changes at most the one cell it names |
| ObjectGraph.CellStable | subprojects/c-capnproto/capn.c:444-580 | Over any run that does not write a slot, that slot resolves to the same object; a data cell keeps its word |
| ObjectGraph.LinkToReads | subprojects/c-capnproto/capn.c:799-884 | A link call makes the slot resolve to its target, or changes nothing when no pad could be had |
| ObjectGraph.LinkReads | subprojects/c-capnproto/capn.c:444-580 | Resolving a linked slot gives the object it was linked to, in a form that can be linked again |
| ObjectGraph.SetLinkKeeps | subprojects/c-capnproto/capn.c:799-884 | A pointer write keeps the invariant for all other slots and objects |
| ObjectGraph.AddKeeps | subprojects/c-capnproto/capn.c:1401-1455 | A new object joins without touching any other |
| MessageHeap.Message.NewData | subprojects/c-capnproto/capn.c:187-220 | The method over the segment list on the heap allocates exactly what the value-level function says |
| MessageHeap.Message.FindRoom | subprojects/c-capnproto/capn.c:199-204 | The loop finds the first segment with room |
| MessageHeap.Message.Create | subprojects/c-capnproto/capn-malloc.c:11-33 | A new segment joins the message exactly when the allocator can make one that fits |
| MessageHeap.CreateCap | subprojects/c-capnproto/capn-malloc.c:11-33 | The size arithmetic of the allocator: page rounding without signed overflow, or refusal |
| MessageHeap.Message.Attach | subprojects/c-capnproto/capn.c:212 | An empty segment joins list, tree and message; every other buffer stays as it is |
| MessageHeap.Message.LookupFar | subprojects/c-capnproto/capn.c:327-349 | The heap method computes the value-level far lookup and the segment it names |
| MessageHeap.Message.LookupDouble | subprojects/c-capnproto/capn.c:279-325 | The heap method computes the value-level double far lookup and the segment it names |
| MessageHeap.Message.Read | subprojects/c-capnproto/capn.c:444-580 | Reading a slot on the heap gives what the value-level reader gives, malformed words included |
| MessageHeap.Message.LinkByTag | subprojects/c-capnproto/capn.c:672-730 | A tag word behind the target's segment and a far word in the slot, all else unchanged |
| MessageHeap.Message.LinkByPad | subprojects/c-capnproto/capn.c:755-795 | A landing pad in the slot's segment or elsewhere and a double far word, or failure that leaves the message alone |
| MessageHeap.Message.Write | subprojects/c-capnproto/capn.c:799-884 | Writing a pointer on the heap leaves exactly the memory and the return value of the value-level writer |
| MessageHeap.Message.Store | subprojects/c-capnproto/capn.c:672-730 | One word of one segment changes; every other buffer, the list and the tree stay as they are |
| MessageHeap.Message.Bump | subprojects/c-capnproto/capn.c:218 | A segment grows by zeroed words; every other one stays as it is |
| MessageObjects.NewObject | subprojects/c-capnproto/capn.c:1401-1455 | On the heap: the object and the memory of the value-level function, tag word and segment switch included |
| MessageObjects.NewStruct | subprojects/c-capnproto/capn.c:1478-1497 | The struct constructor on the heap agrees with the value-level one, oversized requests included |
| MessageObjects.NewList | subprojects/c-capnproto/capn.c:1499-1562 | The list constructor on the heap agrees with the value-level one for empty, flat and composite lists |
| MessageObjects.NewBitList | subprojects/c-capnproto/capn.c:1564-1576 | The bit list constructor on the heap agrees with the value-level one |
| MessageObjects.NewPtrList | subprojects/c-capnproto/capn.c:1578-1591 | The pointer list constructor on the heap agrees with the value-level one |
| MessageObjects.Root | subprojects/c-capnproto/capn.c:1457-1476 | The root slot at the start of the first segment, made when it is missing, or null when there is no room |
| MessageObjects.WriteAt | subprojects/c-capnproto/capn.c:799-884 | The pointer write addressed by segment id |
| Accessors.SetThenGet | subprojects/c-capnproto/capn.c:1165-1240 | A pointer set by index is what the same index gives back, if and only if the target is linkable |
| Accessors.FarCopied | subprojects/c-capnproto/capn.c:1175-1182 | With an unresolved far target the asked slot gets the target's word exactly when it is the first word of the object or held that word before: the index is ignored |
| Accessors.FarOverData | subprojects/c-capnproto/capn.c:1175-1182 | A concrete struct whose data word is overwritten by setting its pointer |
| Accessors.SlotInside | subprojects/c-capnproto/capn.c:593-608 | The slot of an index inside an object lies inside the object |
| Accessors.SetNull | subprojects/c-capnproto/capn.c:1165-1215 | Setting a null target, typed or read from a slot, clears the slot and nothing else; an unresolved target without a place is refused |
| Accessors.OutsideNull | subprojects/c-capnproto/capn.c:593-670 | An index below zero or past the pointers reads as null and cannot be set |
| Accessors.InsideReads | subprojects/c-capnproto/capn.c:593-670 | Pointer i of a struct is the word i behind its data, of a pointer list the word i |
| CopyTree.Tree.Search | subprojects/c-capnproto/capn.c:996-1012 | The walk over recorded source intervals returns one that overlaps the asked range, else the empty link between its neighbours |
| CopyTree.Tree.Add | subprojects/c-capnproto/capn.c:1046-1055 | A record hung there keeps the tree valid and the intervals disjoint; one record is used up |
| CopyTree.Tree.Disjoint | subprojects/c-capnproto/capn.c:996-1012 | No two recorded source intervals share a byte |
| CopyTree.Hang | subprojects/c-capnproto/capn.c:1051-1053 | The new record is linked at the place the search found |
| CloneGraph.Resolved | subprojects/c-capnproto/capn.c:582-590 | Resolving gives a null value or an object inside its segment |
| CloneGraph.ReadSource | subprojects/c-capnproto/capn.c:444-580 | What a slot of an arbitrary message resolves to is null or an object inside its segment, so the source needs no invariant |
| CloneGraph.EqualNames | subprojects/c-capnproto/capn.c:907-916 | Overlapping pointers that compare equal name the same object |
| CloneGraph.CloneEqual | subprojects/c-capnproto/capn.c:948-1298 | With nothing left to copy, a link to a clone has the value of its origin at every depth, cycles and sharing included |
| CloneLaws.SameSizes | subprojects/c-capnproto/capn.c:892-905 | A value equal to a value that is not null has the same kind, length, data size and pointer count |
| CloneLaws.SameBytes | subprojects/c-capnproto/capn.c:1058-1110 | Equal values agree in every byte of their data: of a struct, a plain or bit list, and of every element of a composite list |
| CloneLaws.SamePointers | subprojects/c-capnproto/capn.c:1058-1110 | At every pointer of a struct, a pointer list or an element, equal values hold pointers with equal values one level less deep |
| CloneGraph.CloneJoins | subprojects/c-capnproto/capn.c:1014-1017 | A fresh clone joins the destination with all its cells still to be copied |
| CopyObject.CopyBytes | subprojects/c-capnproto/capn.c:1062-1110 | Data bytes are copied, bytes past the size are zero, no other cell changes |
| CopyObject.Fill | subprojects/c-capnproto/capn.c:1062-1119 | The type switch copies data at once and leaves pointers to the stack; it never fails for a source object |
| CopyObject.FillList | subprojects/c-capnproto/capn.c:1088-1109 | The same for each kind of list; the overflow checks of the products never fire |
| CopyObject.MakeClone | subprojects/c-capnproto/capn.c:892-905 | The constructor for the kind of the source object, with its sizes |
| CopyObject.LinkClone | subprojects/c-capnproto/capn.c:1014-1017 | The clone is made and the slot written; a refused write leaves the new object |
| CopyObject.CopyEmpty | subprojects/c-capnproto/capn.c:1014-1017 | An empty struct becomes null; an empty list is refused and changes nothing |
| CopyObject.Reuse | subprojects/c-capnproto/capn.c:1001-1011 | A source object that was cloned before is linked to its clone; an overlap that is not the same object is refused |
| CopyObject.CopyNew | subprojects/c-capnproto/capn.c:1014-1056 | A new object is cloned, linked and recorded; it fails only on an empty list, or for want of memory for the clone or the record |
| CopyObject.CopyPtr | subprojects/c-capnproto/capn.c:948-1120 | On success the slot stands for the source pointer and the source words left to start on decrease; on failure the reason is named, and nothing but the slot and new objects has changed |
| CopyObject.CloneRoom | subprojects/c-capnproto/capn.c:1401-1455 | A clone is missing only when no segment has room for it and its tag; a clone that is made can always be linked without a landing pad |
| CopyObject.CloneShape | subprojects/c-capnproto/capn.c:892-905 | A clone has the type and sizes of its origin up to the composite mark of 8-byte elements |
| DeepCopy.ElementStep | subprojects/c-capnproto/capn.c:1262-1280 | One element of a composite list: data copied, its pointers put on the stack, the rest of the list left |
| DeepCopy.PointerStep | subprojects/c-capnproto/capn.c:1282-1294 | One slot of a pointer list: null stays null, anything else is cloned |
| DeepCopy.StackStep | subprojects/c-capnproto/capn.c:1262-1295 | Every step shrinks the source words left to start on, or the work on the stack |
| DeepCopy.CopyLoop | subprojects/c-capnproto/capn.c:1247-1298 | The loop ends for every source, cyclic ones included; it stops early only for a reason that it names |
| DeepCopy.StackChain | subprojects/c-capnproto/capn.c:1247-1256 | The stack is a walk through the source from the target inwards, one level or two for each object on it |
| DeepCopy.DeepStack | subprojects/c-capnproto/capn.c:1251-1253 | A full stack is a walk of at least 31 levels through pairwise different source objects |
| DeepCopy.ShallowStep | subprojects/c-capnproto/capn.c:1251-1253 | While at most 30 levels are on the stack, every object cloned so far is at the end of a walk of at most 30 levels |
| DeepCopy.WholeShallow | subprojects/c-capnproto/capn.c:1247-1298 | A finished copy that started without clones means that every reachable object is at the end of a walk of at most 30 levels |
| SourceWalks.NestedRefused | subprojects/c-capnproto/capn.c:1251-1253 | n structs inside each other: from 31 on no copy can succeed, since the innermost is behind too many levels; up to 30 no copy is refused as too deep |
| SourceWalks.WalkCloned | subprojects/c-capnproto/capn.c:1247-1298 | Everything that a walk through the source reaches has a clone once nothing is left to copy |
| SourceWalks.EmptyInside | subprojects/c-capnproto/capn.c:948-1017 | A concrete source, a struct whose one pointer is an empty list, that no copy can succeed on |
| DeepCopy.SourceClean | subprojects/c-capnproto/capn.c:948-1298 | A finished copy shows that no reachable list is empty and that different reachable objects have their data apart |
| DeepCopy.TangledAliases | subprojects/c-capnproto/capn.c:996-1012 | When a finished copy met two different overlapping objects, headers counted, one of them names an object that was cloned under the other composite mark |
| DeepCopy.SetForeign | subprojects/c-capnproto/capn.c:1165-1298 | Success gives the slot the target's value at every depth, changes no other older cell, and means that no reachable list is empty, no two different reachable objects share data, and, when nothing was cloned before, every reachable object is at most 30 levels deep. Failure happens only for a null far target, a walk of at least 31 levels through distinct objects, a reachable empty list, overlap with another object that is reachable or was cloned before, or lack of memory; then all other older cells are unchanged and the message is well formed. A nil target always succeeds, and the state after a success is one for the next call |
| DeepCopy.ClonedOnce | subprojects/c-capnproto/capn.c:1018-1056 | No two clones are made of overlapping source bytes |
| Frame.WriteHeader | subprojects/c-capnproto/capn-malloc.c:230-248 | Count, sizes and padding for odd and even segment counts, the rest of the buffer untouched |
| Frame.WriteMem | subprojects/c-capnproto/capn-malloc.c:199-271 | Exactly the framed bytes at the start of the buffer, or -1 when the root slot or the buffer has no room; the size returned is header plus data |
| FrameLaws.FramedIs | subprojects/c-capnproto/capn-malloc.c:230-271 | The frame in absolute positions: the count, the sizes, the zero padding, and every word of every segment in its place |
| FrameLaws.WrittenWhen | subprojects/c-capnproto/capn-malloc.c:199-270 | Writing succeeds exactly when the first segment has or can have a root word and the buffer room for the frame; a root word that is made is null |
| FrameLaws.AsIntIs | subprojects/c-capnproto/capn-malloc.c:199-270 | The size comes back as it is up to 2^31 - 1, else cut to an `int` |
| Frame.ReadTable | subprojects/c-capnproto/capn-malloc.c:149-155 | The size loop with its 32-bit sum agrees with the table reader |
| Frame.InitMem | subprojects/c-capnproto/capn-malloc.c:126-197 | The reader over a moving cursor returns what the specification reads |
| FrameLaws.ReadsWhen | subprojects/c-capnproto/capn-malloc.c:126-180 | Bytes are read exactly when their count is at most 1023, no segment has 2^31 bytes or more and all together less than 2^32, and all words are there; every word of every segment is the eight bytes at its computed position, and padding and further bytes are ignored |
| Frame.CutSegments | subprojects/c-capnproto/capn-malloc.c:165-170 | Every segment gets its own words, its capacity its length |
| Frame.TableFits | subprojects/c-capnproto/capn-malloc.c:132-146 | The table that is read for k segments fits the array of 1024 words if and only if k is at most 1023 |
| Frame.ReadFramed | subprojects/c-capnproto/capn-malloc.c:126-271 | Reading what was written, with anything behind it, gives the same segments byte for byte, for 1 to 1023 segments |
| Frame.ReadWritten | subprojects/c-capnproto/capn-malloc.c:199-271 | The same through the buffer that the writer filled |
| Frame.FramedRead | subprojects/c-capnproto/capn-malloc.c:126-180 | Writing again what was read gives the bytes it was read from if and only if the padding word was zero |
| RestartCodec.Le32Inverse | src/cpmdc_restart.c:152-160 | Signed 32-bit markers survive encoding |
| LittleEndian.FourBytes | src/cpmdc_restart.c:63-68 | Four bytes are the number b0 + 256 b1 + 65536 b2 + 16777216 b3, read and written |
| RestartCodec.Growing.Append | src/cpmdc_restart.c:77-127 | The doubling buffer appends exactly the new elements, whether or not it reallocates |
| RestartCodec.ReadPiece | src/cpmdc_restart.c:143-186 | One subrecord at the cursor: the same markers, bounds and refusals |
| RestartCodec.ParseRecords | src/cpmdc_restart.c:129-203 | The two nested loops compute the record list of the specification, or fail when it does |
| RestartCodec.EmitRecord | src/cpmdc_restart.c:690-721 | One record is appended as its canonical subrecords, zero-length ones included |
| RestartCodec.WriteRecords | src/cpmdc_restart.c:723-743 | All records in order |
| RestartCodec.ParseEmit | src/cpmdc_restart.c:129-203 | Parsing the emitted bytes returns exactly the records, for any lengths and any maximum |
| RestartCodec.EmitParse | src/cpmdc_restart.c:690-743 | An accepted stream is reproduced byte for byte if and only if it was split canonically |
| RestartCodec.EncodedPieces | src/cpmdc_restart.c:129-203 | Every byte of an accepted stream belongs to a subrecord |
| RestartCodec.StreamDiffers | src/cpmdc_restart.c:690-743 | Streams of records of equal lengths are equally long and differ only where a payload byte differs |
| RestartImage.IndexTiles | src/cpmdc_restart.c:221-281 | The sections lie end to end from the first record to the last |
| RestartLayout.Indexed | src/cpmdc_restart.c:221-281 | A file put together from sections is indexed exactly when its first record holds the version mark; section s is then its s-th part, and the records lie where the index says |
| RestartLayout.IndexedIsBuilt | src/cpmdc_restart.c:221-281 | Every file that is indexed is one put together from sections, so the laws about such files speak of all of them |
| RestartLayout.CellDecoded | src/cpmdc_restart.c:296-318 | Section 2: the symmetry record is two 32-bit integers and a tail, the cell record the 48 bytes and a tail, and these are the fields |
| RestartLayout.SpeciesDecoded | src/cpmdc_restart.c:319-349 | Section 3 is accepted exactly when the first record starts with a count of at most 100000 and the second with that many integers, none negative, and these are the species |
| RestartLayout.CutDecoded | src/cpmdc_restart.c:350-375 | Section 7: the record is cutoff, dual, dual flag, electrons, the three grid sizes and a tail, in this order, and these are the fields |
| RestartLayout.StatesDecoded | src/cpmdc_restart.c:376-400 | Section 8: the record is six 32-bit integers and a tail, and these are the fields |
| RestartLayout.FieldsDecoded | src/cpmdc_restart.c:296-402 | Each field is that of its own section and there exactly when the section has the right number of records |
| RestartLayout.HeaderIs | src/cpmdc_restart.c:233-240 | The header is the first record up to 95 bytes without the blanks and zeros at its end |
| RestartLayout.StreamIs | src/cpmdc_restart.c:241 | The stream mark is set exactly when "STREAM" stands in the header with no zero byte in front of it |
| RestartLayout.FileReads | src/cpmdc_restart.c:404-432 | Reading the bytes of a file put together from sections succeeds exactly when its header is marked and the records of the typed sections have room, and gives those records, those fields, that header and that mark |
| RestartLayout.TriplesAre | src/cpmdc_restart.c:579-598 | Reading triples gives the records of that section one after the other, exactly when each is 24 bytes |
| RestartLayout.TriplesSet | src/cpmdc_restart.c:600-636 | Coordinates are section 4 and velocities section 5: a setter succeeds exactly when the section is there with as many triples, and the file is then the same one with those records in that section |
| RestartLayout.CellSet | src/cpmdc_restart.c:638-648 | Setting the cell succeeds exactly when the file has one; the first 48 bytes of the second record of section 2 are then those set, and so is what is read |
| RestartImage.OneSection | src/cpmdc_restart.c:221-281 | Every record is in exactly one section |
| RestartImage.Restart.FillIndex | src/cpmdc_restart.c:221-281 | The section arrays hold the index, or the header or a count is refused |
| RestartImage.Restart.FillTyped | src/cpmdc_restart.c:296-402 | The cached cell, species counts, cutoff and states are those of the records, or decoding is refused |
| RestartImage.Restart.Rec | src/cpmdc_restart.c:284-294 | The record at an offset of a section, null when it is not there |
| RestartImage.ReadMem | src/cpmdc_restart.c:404-432 | A file object whose cached fields agree with its records, or null exactly when reading fails |
| RestartImage.Restart.StoreLoop | src/cpmdc_restart.c:608-614 | The store loop patches triple after triple and stops at the first record that is not 24 bytes long |
| RestartImage.Restart.SetTriples | src/cpmdc_restart.c:600-616 | The object after the call is the patched image and the cached fields still agree |
| RestartImage.Restart.SetCoordinates | src/cpmdc_restart.c:630-632 | Section 4 is patched as specified, with its return value |
| RestartImage.Restart.SetVelocities | src/cpmdc_restart.c:634-636 | Section 5 is patched as specified, with its return value |
| RestartImage.Restart.SetCell | src/cpmdc_restart.c:638-648 | The first 48 bytes of the cell record and the cached copy change together, or nothing does |
| RestartImage.Restart.GetTriples | src/cpmdc_restart.c:579-598 | The triples of a section fill the caller's numbers, or failure when they are not as many or a record has another length |
| RestartImage.Restart.Write | src/cpmdc_restart.c:723-743 | The bytes of the current records |
| RestartImage.StoreThenGet | src/cpmdc_restart.c:579-616 | A store succeeds exactly when the section can be read and the lengths agree, and what was stored is what is read |
| RestartImage.LoadKept | src/cpmdc_restart.c:221-402 | Changes inside the windows keep the index and every decoded field but the cell values |
| RestartImage.StoreKeeps | src/cpmdc_restart.c:600-616 | A store, failing or not, changes payloads of its section only and keeps the cache in agreement |
| RestartImage.StoreCellKeeps | src/cpmdc_restart.c:638-648 | A cell change keeps the cache in agreement |
| RestartImage.RunKeeps | src/cpmdc_restart.c:600-648 | The same over any run of setters |
| RestartCodec.ByteAt | src/cpmdc_restart.c:690-721 | The offset computed for a payload byte is where the stream has that byte |
| RestartImage.RunReadsBack | src/cpmdc_restart.c:404-743 | After any run of setters the bytes written have the same length, differ only at positions that held a byte of a 24-byte triple of section 4 or 5 or one of the first 48 bytes of the cell record, and read back to an image on which every getter agrees |
| SessionCache.ElementCountsMatch | src/cpmdc.c:1316-1335 | True if and only if all numbers are elements and the two arrays are equal as multisets, though only negative counts are looked for |
| SessionCache.CountUp | src/cpmdc.c:1316-1326 | The count array holds the occurrences of every element, or a number is out of range |
| SessionCache.CopyCachedGradient | src/cpmdc.c:1421-1460 | The matching loop over `used` flags hits exactly when the greedy match does and writes the gradient in the order of the request |
| SessionCache.HitSound | src/cpmdc.c:1421-1460 | A hit is a permutation with equal elements and positions within the tolerance; its rows are the stored rows, each as often |
| SessionCache.HitNumbers | src/cpmdc.c:1337-1460 | A hit pairs each requested atom with a stored one of its own number whose coordinates are each within 0.00000001, and so are the vectors of the cell |
| SessionCache.HitExactly | src/cpmdc.c:1337-1460 | There is a hit if and only if the numbers of atoms agree, the cell does within 1e-8, and each atom of the request in turn has the first stored atom of its number within 1e-8 that is not taken; these are then the rows |
| SessionCache.HitComplete | src/cpmdc.c:1421-1460 | If stored atoms of one element are more than twice the tolerance apart, every reordering within the tolerance is a hit, and the greedy match finds it |
| SessionCache.Session.constructor | src/cpmdc.c:1486-1520 | A new session: no topology, no cached result, the deck of its parameters; configured and active only if the engine took it |
| SessionCache.Session.Install | src/cpmdc.c:390-404 | The session's image holds its parameters, overrides and rendered deck, and the session is the active one |
| SessionCache.Session.AcceptTopology | src/cpmdc.c:1462-1484 | The first non-empty step fixes the atoms; later ones must be the same multiset of elements |
| SessionCache.Session.Calculate | src/cpmdc.c:1166-1222 | A good result is stored, any other drops the stored one, also when the engine is not up |
| SessionCache.Session.EnergyGradient | src/cpmdc.c:1604-1647 | The object's new state, reply and array are those of the transition function, for hit, miss, refusal and failure |
| SessionCache.Session.EnergyForces | src/cpmdc.c:1684-1699 | The caller's array holds the negated gradient; the stored gradient is not negated |
| SessionCache.Session.SetParams | src/cpmdc.c:1522-1578 | The new state and verdict of a parameter change: overrides are stored first, parameters and deck only when the new deck renders, the image only when the engine takes it |
| SessionCache.EvaluateKeeps | src/cpmdc.c:1604-1647 | An evaluation keeps deck, image, cache and parameters in step and replies with an engine result for the requested atoms |
| SessionCache.SetParamsInStep | src/cpmdc.c:1522-1578 | A parameter change keeps the session in step if and only if it is refused outright or succeeds, or does not render while the session's own deck is also that of the new overrides and an engine set up for this session had the same ones, or is not taken by an engine that is not this session's or already has it |
| SessionCache.StepKeeps | src/cpmdc.c:1522-1647 | Exactly the calls that are not half-done parameter changes keep the session in step |
| SessionCache.RunInStep | src/cpmdc.c:1522-1647 | The same over any run |
| SessionCache.EveryReplyGenuine | src/cpmdc.c:1604-1698 | Over any run without a half-done change every good reply is the engine's own under the session's parameters and overrides with the deck rendered from them, for a geometry that matches the request atom for atom |
| SessionCache.GenuineIsDirect | src/cpmdc.c:1421-1460 | If the engine follows its atoms when they are listed in another order, every good reply, cached or not, is what the engine gives for the requested atoms in the requested order, each position and the cell within the tolerance |
| SessionCache.FixedForGood | src/cpmdc.c:1462-1484 | Once the topology is fixed, parameters, overrides, deck and the multiset of atoms never change |
| SessionCache.SetParamsCases | src/cpmdc.c:1522-1578 | A parameter change succeeds if and only if there are parameters, no atoms are fixed, the deck renders and the engine takes it; what is stored in each case; topology and cached result are never touched |
| SessionCache.CreatedCases | src/cpmdc.c:1486-1520 | A new session has the engine exactly when that takes its setup, and no atoms, overrides or cached result |
| SessionCache.FirstStep | src/cpmdc.c:1462-1484 | The first non-empty step is accepted whatever its numbers are; the same step is accepted again if and only if all of them are elements |
| SessionCache.StepGoesOn | src/cpmdc.c:1462-1484 | With fixed atoms a step goes on if and only if all numbers of both are from 1 to 118 and they are the same multiset; any other step fails and changes nothing |
| SessionCache.StepCases | src/cpmdc.c:1604-1647 | The answer of a step that goes on: the permuted stored rows on a hit; a failure without an engine; else what the engine gives for the setup of the image, which is then stored |
| SessionCache.RunGoesOn | src/cpmdc.c:1462-1647 | After any run such a step is answered whenever the cache hits, or the engine can be had and gives a gradient of the right length |
| SessionCache.StrangeAtoms | src/cpmdc.c:1462-1484 | With numbers fixed that are no elements, no later step of any run is answered |
| SessionCache.StrangeRun | src/cpmdc.c:1462-1484 | A concrete run: a new session answers a step with an atom of number 0 and refuses the same step from then on |
| SessionCache.Session.Create | src/cpmdc.c:1486-1520 | No session without parameters or with parameters that do not parse and render; otherwise a new one, and no other session loses the engine unless it takes the parameters |
| SessionCache.HalfDoneChange | src/cpmdc.c:1522-1578 | A concrete run on an active session: overrides are stored, the change fails, and the next result comes from the earlier setup |
| SessionCache.StaleDeck | src/cpmdc.c:1522-1578 | A concrete run on a session that is not active: overrides are withdrawn by a change that fails, and the next result comes from the deck of the old overrides together with no overrides |
| SessionCache.Mended | src/cpmdc.c:1522-1578 | Whatever happened before, a change that succeeds puts the session in step |
| SessionCache.CreatedInStep | src/cpmdc.c:1486-1520 | A new session is in step |
| ReferencePotential.Evaluate | src/cpmd_embed_c_api.F90:1883-1921 | The loop gives the energy of harmonic wells, one per atom, with the cell term, and the gradient row by row; no atoms or too many are refused |
| ReferencePotential.TotalPermuted | src/cpmd_embed_c_api.F90:1904-1914 | The energy sum does not depend on the order of the atoms |
| ReferencePotential.GradientIs | src/cpmd_embed_c_api.F90:1904-1914 | The row of an atom is the gradient of its energy: moving the atom along an axis changes the energy by the component times the way in bohr and half the curvature times its square |
| ReferencePotential.AtomAdds | src/cpmd_embed_c_api.F90:1902-1914 | Each atom adds its own energy and its own row; without atoms there are the offset and the cell term |
| ReferencePotential.AtOrigin | src/cpmd_embed_c_api.F90:1905-1914 | An atom at the origin has no energy, and the charge is the atomic number, at least 1 |
| ReferencePotential.CellIs | src/cpmd_embed_c_api.F90:1915-1920 | The cell adds 1e-10 times the sum of its nine squares |
| ReferencePotential.ReferenceEquivariant | src/cpmd_embed_c_api.F90:1883-1921 | The reference evaluator follows its atoms when they are listed in another order, so it is an engine that the theorem about cached replies speaks of |
| ReferencePotential.RepliesClose | src/cpmdc.c:1421-1460 | Over any run without a half-done change a session on the reference evaluator answers with a gradient whose every component is within stiffness times charge times the tolerance of the one for the very geometry asked for, cached or not |
| Consensus.Deviation | src/cpmdc.c:1139-1144 | The loop computes the largest component difference, infinite where a difference is no number |
| Consensus.DifferenceIs | src/cpmdc.c:1073-1079 | A distance is the absolute value of x - y for finite numbers, zero for equal infinities, and infinite when one side is no number or the infinities differ |
| Consensus.CallCompletes | src/cpmdc.c:1084-1164 | A call is answered, with the same collectives on every rank, if and only if the topology guard agrees on all ranks and, unless all have a hit, all have an engine that is set up and up or none has; the trace, the replies and the spread in each case |
| Consensus.CallAgrees | src/cpmdc.c:1604-1647 | Under uniform guards all ranks give one reply, rank 0's own with its spread or the common cached one; the caches stay equal and hold nothing else |
| Consensus.RunAgrees | src/cpmdc.c:1604-1647 | Over any run of the same requests no rank waits for a collective that another does not enter; every call has one reply, and a good one is rank 0's own through all five collectives with the maximum deviations as the spread, or the one that the ranks have stored by then, which was rank 0's own in an earlier call or was there before the run |
| Consensus.SpreadIs | src/cpmdc.c:1139-1154 | The spread is the maximum deviation of any rank from rank 0, attained by one of them |
| Consensus.EnergySpreadIs | src/cpmdc.c:1139-1154 | For finite energies the spread is an attained maximum of abs(e[r] - e[0]); one rank without a distance makes it infinite |
| Consensus.GradSpreadIs | src/cpmdc.c:1139-1154 | For finite gradients the spread is an attained maximum of abs(g[r][i] - g[0][i]) over all ranks and components, zero without components; one component without a distance makes it infinite |
| SpeciesOrder.Total | src/cpmdc_embed_host.c:64-78 | The counts are summed without leaving the `int` range, or refused |
| SpeciesOrder.SpeciesOrderMap | src/cpmdc_embed_host.c:64-101 | Success if and only if for every element the blocks ask for as many atoms as there are; then the map is a permutation that lists each block's atoms in increasing order |
| SpeciesOrder.BalancedLayout | src/cpmdc_embed_host.c:64-101 | The blocks are balanced exactly when their layout and the atoms are equal as multisets |
| SpeciesOrder.RunsOut | src/cpmdc_embed_host.c:80-99 | A block that finds no further atom asks for more than there are |
| SpeciesOrder.Scatter | src/cpmdc_embed_host.c:103-116 | Every row ends up with the species row of the last slot that names its atom |
| SpeciesOrder.ScatteredNumbers | src/cpmdc_embed_host.c:103-116 | Component by component: an atom has the three numbers of the last slot that names it, and an atom that no slot names keeps its own |
| SpeciesOrder.ScatterGather | src/cpmdc_embed_host.c:103-116 | With a permutation every row is written once and gathering along the map undoes the scatter |
| Adopt.AllReduceMax | src/cpmdc_adopt.c:66-71 | The reduction gives the maximum of each of the three votes |
| Adopt.AlignedIff | src/cpmdc_adopt.c:74-90 | The test on least and greatest rank finds exactly the aligned blocks of distinct ranks |
| Adopt.VerdictIs | src/cpmdc_adopt.c:57-93 | Every rank of a group computes the same index, or the same refusal, and it is right |
| Adopt.AdoptGroup | src/cpmdc.c:1926-1953 | All ranks of a group store the handle or none does: exactly when sizes agree, no session is live and the group is an aligned block; the index names the block |
| Adopt.IndicesCover | src/cpmdc_adopt.c:81-93 | If the world is cut into groups of one size and all adopt, their indices are 0 up to the number of groups, each once |
| SetDirectives.ParsedKey | src/cpmdc_params.c:326-341 | A key splits at its first dot into a non-empty section without dots and a non-empty keyword |
| DeckLaws.ParsedWhen | src/cpmdc_params.c:326-341 | A key is accepted if and only if its first dot is neither its first nor its last character; section, dot and keyword make up the key |
| SetDirectives.Collect | src/cpmdc_params.c:343-364 | All directives in input order, at most 128, or refusal |
| DeckLaws.CollectedAre | src/cpmdc_params.c:343-364 | The directives are, in input order, exactly the directive sections of the input, each with its key and value; collecting fails exactly when there are more than 128 or a key does not split |
| SetDirectives.AppendForSection | src/cpmdc_params.c:400-414 | Exactly the pending directives of the section are written, in input order, and marked; it fails only when an append does |
| SetDirectives.RenderGeneric | src/cpmdc_params.c:4298-4321 | A generic section takes the directives of its name up to a zero character; a name of 64 characters is refused |
| SetDirectives.RenderOwn | src/cpmdc_params.c:481-508 | One section with all that is left of a name |
| SetDirectives.RenderRemaining | src/cpmdc_params.c:481-508 | The last pass writes the sections that are left as specified |
| SetDirectives.RenderDeck | src/cpmdc_params.c:4644-4904 | The deck is the specified one; when no append fails and no section body refuses a field, rendering succeeds exactly when all keys parse and all generic names fit |
| DeckLaws.RenderedWhen | src/cpmdc_params.c:4644-4904 | Rendering a deck with room succeeds if and only if the input has at most 128 directives, all keys split, and every generic name is shorter than 64 characters |
| DeckLaws.DeckOrder | src/cpmdc_params.c:4644-4904 | Of two directives of one section, the one that comes first in the input comes first in the deck |
| DeckLaws.NamesAgree | src/cpmdc_params.c:288-300 | Section names agree when they do character by character, capitals and small letters alike |
| DeckLaws.StandardOpened | src/cpmdc_params.c:4644-4904 | The sections opened are those of the input in order, then of CPMD, SYSTEM, DFT and ATOMS those that neither the input nor its raw text has, in this order, then the remaining ones |
| SetDirectives.EveryDirectiveOnce | src/cpmdc_params.c:4714-4904 | Every directive is in the deck exactly once, after those of the same section that came before it, and all of them stand in sections of their own names if and only if no generic section whose name holds a zero character is the first to claim one; without such names, always |
| SetDirectives.InputStrict | src/cpmdc_params.c:4714-4881 | The same condition for the sections of the input alone |
| SetDirectives.StrayDeck | src/cpmdc_params.c:4298-4321 | A concrete deck: a directive of section A stands in the generic section whose name is A, a zero character and C |
| SetDirectives.LeftoversOnce | src/cpmdc_params.c:481-508 | Behind the input's and the standard sections comes one section for every name that is left, and no other |
| SetDirectives.BlockKeeps | src/cpmdc_params.c:400-414 | Writing a section keeps: each directive at most once, in its section, in order, all of a section or none |
| ResultSize.LengthsSum | src/cpmdc_params.c:5555-5721 | The lists behind the forces hold at most 145 values more than the gradient list, and at least two more than the hessian |
| ResultSize.FlatSizeIs | src/cpmdc_params.c:5508-5516 | 2048 bytes and 16 for each force, or 0 when that leaves 64 bits |
| ResultSize.ObjectCost | subprojects/c-capnproto/capn.c:1401-1455 | An object costs its words, and one tag word and at most one segment more when it has to move |
| ResultSize.AllocatedCost | src/cpmdc_params.c:5644-5721 | The lists cost their words, one tag and one segment each at most |
| ResultSize.LinkCost | subprojects/c-capnproto/capn.c:799-884 | Linking a list that was just made takes no further word |
| ResultSize.BoundExact | src/cpmdc_params.c:5508-5753 | The bound holds if and only if the words of the struct, the lists behind the forces, one tag word for each list that had to move and half a word for each segment come to at most 254 more than the forces; at most nine lists move, each into at most one new segment |
| ResultSize.AllocatedWords | src/cpmdc_params.c:5644-5721 | The lists take up their words and a tag word for each one that moves |
| ResultSize.BoundSuffices | src/cpmdc_params.c:5508-5753 | The serialized result, segment switches, tags and frame header included, never needs more than 2048 + 16 * force count bytes, for any image and any struct of at most 95 words whose words and hessian come to at most 95 more than the forces |
| ResultSize.ReservedSuffices | src/cpmdc_params.c:5508-5753 | With the reserved bytes the writer fails only when its arena cannot be built |
| ResultFields.FieldsAre | src/cpmdc_params.c:5555-5721 | The lists of a result: the arrays of the image as far as they count, and their stand-ins when only an energy is there |
| ResultFields.PropertiesAre | src/cpmdc_params.c:5607-5640 | Dipole, polarizability and gradient: those of the image, zeros, and the forces with their signs changed when there are at most 4096 |
| ResultFields.FlagsAre | src/cpmdc_params.c:5723-5739 | Four bits say which of energy components, charges, states and trajectory are there |
| ResultFields.MakeFilled | src/cpmdc_params.c:5644-5721 | A list is made and filled with its values; everything older keeps its values |
| ResultFields.MakeLists | src/cpmdc_params.c:5644-5721 | The lists behind the forces, each filled before the next is made, in the memory that the size arithmetic describes |
| ResultFields.LinkSlots | src/cpmdc_params.c:5723-5740 | Each pointer field of the result is linked to its own list |
| ResultFields.FinishedHolds | src/cpmdc_params.c:5723-5741 | A reader of the finished message finds energy, flags and every list in its field |
| ResultFields.Build | src/cpmdc_params.c:5535-5745 | The message of a result: there exactly when the size arithmetic has one, of the same shape, with its fields linked |
| ResultFields.Reloaded | subprojects/c-capnproto/capn-malloc.c:126-197 | What can be found in a message can be found in the message read back from its frame |
| ResultFields.ReaderHolds | subprojects/c-capnproto/capn-malloc.c:126-197 | A reader of the frame, whatever stands behind it, finds energy, flags and every list in its field |
| ResultFields.WriteResult | src/cpmdc_params.c:5524-5753 | What the writer returns for every capacity and image: the size of the frame, or -1 when the buffer is shorter than the reserved bytes or the frame, the arena cannot be built, there are more than INT_MAX forces, or the size is no `int`; and a reader of the buffer then finds the energy, the flags and the values of every list in their fields |
| ResultSize.HessianBreaks | src/cpmdc_params.c:5508-5753 | A hessian that, cut to 4096 values and with the words of the struct, outgrows the forces by more than 252 always breaks the bound |
| ResultSize.LongHessian | src/cpmdc_params.c:5508-5516 | A concrete image: a hessian of 300 values without forces breaks the bound of a `PotentialResult` |

## Left out

- `subprojects/c-capnproto/capn-stream.c` and packed streams: every caller in the repository passes packed = 0.
- `struct_ptr`, the data accessors of lists and structs, and `capn_setp` into a list member: copies between
  elements of differing sizes are not part of this model.
- A target that is a member of a list in the same message, which `write_ptr` passes to the copier
  (`subprojects/c-capnproto/capn.c:818`): the copier is modelled for a source in another message only.
- Segment lookup callbacks: `lookup_segment` is modelled for a message without one.
- DeepCopy.SetForeign: the source is another message, which is only read and so a value. The copy tree may hold
  records of earlier successful calls on that source as long as no other object was made since; the slot is not one
  of a clone, and what a failed call leaves in the tree is not described.
- DeepCopy.SourceClean: overlap of headers alone is not excluded, since whether a second name of a list under another
  composite mark is taken for an overlap depends on the shape of the tree (`DeepCopy.TangledAliases`).
- CopyTree.Tree.Add: the records come from a counted supply instead of `create_local` segments.
- ObjectGraph.StepKeeps: lists of 2^29 and more bytes or bits, whose 29-bit length is cut, and composite lists of 2^30
  and more elements without size are made but get no cells.
- MessageObjects.SegmentAt: a pointer names its segment by id, where the source holds the address of the segment.
- Frame.ReadFramed: messages of 1024 segments, which the writer accepts, are not claimed.
- Frame.InitMem: for a count of 1024 it reads the table as if the array had room for the padding word.
- Frame.WriteMem: says nothing about the buffer after a failure.
- SessionCache.EvaluateKeeps: the result values in the image, the orbital key and the engine reset after a stop are
  not modelled; neither is memory that runs out while a result is stored. The engine has no memory of its own: what
  it answers depends on setup and geometry alone.
- SessionCache.CopyCachedGradient: reals instead of IEEE doubles, and a missing cell pointer counts as no cell.
- SessionCache.Session.SetParams: whether the engine takes a setup is a parameter, and memory never runs out.
- ReferencePotential.Evaluate: the result values that it leaves in the image are not modelled.
- Consensus.RunAgrees: collectives never fail by themselves, and every rank is asked for a gradient.
- RestartImage.RunReadsBack: doubles are opaque eight-byte words; the getters are the fields of the image, and the path
  variants, which add file input and output, are not part of this model.
- RestartCodec.Growing.Append: `SIZE_MAX` overflow and failing reallocation are not modelled.
- Adopt.AdoptGroup: null handles, uninitialised MPI, failing MPI calls and a `ranks_per_calc` that differs between the
  ranks of a group are left out; sessions are live or not for the whole call.
- SetDirectives.RenderDeck: the text of headings, keywords and values is one opaque token each; the buffer arithmetic
  behind a failing append, and the fields that a section body refuses, are a nondeterministic failure, excluded by
  `roomy`.
- ResultFields.WriteResult: doubles are opaque words, the stress comes already scaled, and null arguments and the size
  stored before a refusal are left out. The places of the fields are those of `PotentialResult` in
  `schema/Potentials.capnp`; the generated setters are not part of this model.
- SpeciesOrder.Scatter: reals instead of doubles; out-of-range map entries are skipped as in the source.
- Keyword renderers, number formatting, the feature and element tables, `expand_species_symbols`: straight-line text.
- Null pointer arguments in general, error message texts, environment variables, file, cwd and memfd handling, the
  Fortran engine, MPI itself, the command line tools, the schema compiler and the Python scripts.
