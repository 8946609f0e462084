# Glish interpreter core: a verified model

This project models the algorithmic core of the Glish interpreter in Dafny and proves what it is
for: scopes, frames and closures; n-dimensional arrays and references to parts of them; the
shared-heap structures underneath (hash dictionary, copy-on-write kernels, weak pointers); the
event protocol; and the Roman numeral printer. Code that changes things step by step is modelled
by classes, in-place arrays and loops, and each such method is proved against a reference
definition that does not mention it. Where the source is a loop over runs (a stack machine, a
table under insertion and removal, a sender under interleaved operations), the main theorem
quantifies over every run.

Check everything with `dafny verify dfyconfig.toml`.

| file | what it holds | main theorems |
|---|---|---|
| `Common.dfy` | definitions that several components share | |
| `MixedRadix.dfy` | column-major ranks and the odometer | `RankInjective`, `AdvanceCounts`, `AdvanceWraps` |
| `Subscript.dfy` | `x[i,j,...]` and `ref x[i,j,...]` | `Index`, `SubRef`, `ViewAgreesWithCopy` |
| `VecRef.dfy` | composing views and assigning through them | `ViewReadsChain`, `AssignArrayElements`, `AssignmentIsExact` |
| `Pick.dfy` | picking by a matrix of coordinates | `DistinctRows`, `PickAfterAssign` |
| `Bind.dfy` | `cbind` and `rbind` | `Cbind`, `Rbind`, `RbindTransposesCbind` |
| `Frames.dfy` | frame stacks, capture, re-entry | `Sequencer.Exec`, `RunProgram`, `ActivationIsNew`, `ClosureRemembers` |
| `Scopes.dfy`, `Lexical.dfy`, `Parsing.dfy` | parse-time offsets against run-time frames | `LexicalAddressing`, `AccessExact`, `AssignmentExact`, `ReadWriteAgree`, `Parse`, `ParsedAddressing` |
| `Binder.dfy` | binding actual to formal arguments | `Bind`, `RecordIsOverflow` |
| `NodeSearch.dfy` | membership search in cyclic node lists | `Search` |
| `WeakPtr.dfy` | self-nulling pointers | `Run` |
| `Primes.dfy`, `Dictionary.dfy` | the chained hash dictionary | `NextPrime`, `RunOps`, `Iterate` |
| `Kernels.dfy` | reference-counted copy-on-write arrays | `RunOps`, `CountIsHolders` |
| `Views.dfy` | assigning through a reference that keeps a pointer to its base's storage | `AssignThrough`, `RunViews`, `StaleStore` |
| `Bundling.dfy` | sending, bundling, queueing and decoding events | `OrderExact`, `LogExact`, `RunOps`, `EndToEnd` |
| `Awaits.dfy` | outstanding awaits | `Run`, `OutcomeExact`, `FilledPersists` |
| `Notes.dfy` | the stack of notifications | `Sequencer.CallFunction`, `OwnInOrder` |
| `Roman.dfy` | Roman numerals | `Ctor`, `ReadBack` |

## Where the code does not do what one would expect

In each case the model follows the code, and the exact condition is a theorem.

- **Empty index lists.** When the longest subscript has one element, n-dimensional subscripting
  takes a shortcut that reads an empty list as the first position. `Subscript.ShortcutCorrect`,
  `Subscript.Index` and `Subscript.SubRef` show that the operators deliver the selected elements
  if and only if the subscripts are not of this kind (`Degenerate`); `DegenerateExample` is one.
- **Shapes that do not fit.** A copy's shape multiplies to its length if and only if
  `Subscript.ShapeRight` holds (`Subscript.ShapeExact`, `Index`). It fails when a list is empty and
  another is not short (`ZeroExtentExample`, `CompactKeepsSize`), and when masks longer than one
  element select a single one, which then keeps the shape of the base (`ShapeKeptExample`).
- **References to single elements.** A reference taken by the shortcut keeps the shape of its base
  where the copy has none: the two shapes are equal if and only if the shortcut is not taken
  (`Subscript.ViewAgreesWithCopy`), and the reference's fits if and only if `ViewShapeRight` holds
  (`Subscript.SubRef`); `SingleReferenceExample` is `ref x[1,1]` on a two by two matrix.
- **Zero extents.** When an extent of the base is zero the shortcut may arrive before the first
  element. The copy then fails and the reference is made all the same, to a position that the array
  does not have, if and only if `Subscript.Astray` holds (`Index`, `SubRef`, `StrayExample`).
- **References in use.** A reference asks its base for modifiable storage once and keeps the
  pointer. In every heap that a run leads to, an assignment through it changes exactly its base if
  and only if it keeps no pointer of the base's kind, or the kept one is to storage that the base
  still has, unmoved and unshared, apart from stores that the base is too short for or that change
  nothing (`Views.AssignThrough`). A run in which no base of a used reference is shared, replaced or
  resized before the next use reads as it should (`Views.RunViews`). Whenever the storage of the
  base is given to another value and the base is written, the next store goes to that other value
  (`Views.StaleStore`); `StaleExample` is the shortest such program. Copying the reference reads
  through the same pointer (`Views.SubVector.Copy`).
- **Repeated positions.** Assignment through a view, or by coordinates, reads back as assigned if
  and only if repeated positions received equal elements (`VecRef.ReadBack`, `Pick.PickAfterAssign`).
- **Short vectors in `cbind`/`rbind`.** A vector that is too short is accepted when the only matrix
  is the last argument: `Bind.AcceptanceCoversVectors` gives the exact family,
  `Bind.ShortVectorAccepted` an instance.
- **Block-local names.** In every run the offset of a local name reaches the frame of its binding
  if and only if its scope is findable under the frames then in force (`Lexical.AccessExact`). Inside
  a function these are the innermost scope, any function scope, and the outermost block. Outside
  every function the innermost block is found if and only if no caller's frames lie below, and an
  enclosing one only when exactly as many do as it is deep. `Lexical.BlockVariableMissed` and the run
  of `Lexical.OuterWheneverMissed` are instances outside it.
- **Assigned and not read.** Targets of assignments resolve differently, and in every run reach the
  frame of their binding if and only if they are inside a function or no caller's frames lie below
  (`Lexical.AssignmentExact`). Reading and assigning a name from the same place designate the same
  frame if and only if it is bound in the innermost scope or in the function itself
  (`Lexical.ReadWriteAgree`); in `Lexical.BlockVariableSplit` the assignment arrives and the read does
  not.
- **Names installed twice.** A variable installed over another of the same name in the same scope
  gets a slot outside the frame; the scope table stays right if and only if the name is new there
  (`Scopes.Resolver.InstallVar`). The lookups install only new names.
- **Small primes.** Trial division is right if and only if its argument is at least 3, or even and
  below 1 (`Primes.TrialDivisionCorrect`); hence the next prime is right if and only if the search
  starts at 3 or more (`Primes.NextPrime`).
- **Repeated named arguments.** A second argument with the same name is dropped silently
  (`Binder.NamedActualUsed` says exactly when a named argument is used; `RepeatedNameExample` is one).
- **Replacing shared strings.** `Replace` is unnoticed by other kernels if and only if there are
  none or the elements stay the same (`Kernels.Kernel.Replace`).
- **Broken local connections.** A request over a local channel is let through even when
  establishing the connection failed, and from then on every packet goes ahead of the waiting ones.
  An agent's events stay in the order of issue if and only if those of its own that passed over
  waiting ones of its own commute with them (`Bundling.OrderExact` on the account of any run, and
  `Bundling.SentOverWaiting` for one packet); for a request that means that none of them waits
  (`Bundling.LetThroughOrder`). In `Bundling.LetThroughExample` the request is out of order, in
  `Bundling.PassingExample` a plain event of another agent.
- **Bundles without a proxy.** The receiver cuts the eight-digit number off a bundled event's name
  for proxies but not for the client itself: the client hears the names that were sent if and only
  if no bundle went to it (`Bundling.DirectDecodes`, `DirectExample`).
- **`terminate` inside a bundle.** A proxy ends on a `terminate` event only if it is not bundled; it
  hears exactly what was sent if and only if no such event was sent by itself
  (`Bundling.ProxyDecodes`, `ProxyExample`).

## Model

| member | source | states |
|---|---|---|
| `MixedRadix.RankBound` | glish/IValue.cc:673-682 | the column-major offset of in-range coordinates lies inside the array |
| `MixedRadix.RankInjective` | glish/IValue.cc:673-682 | distinct in-range coordinates have distinct offsets |
| `MixedRadix.AdvanceCounts` | glish/IValue.cc:683-688 | one turn of the odometer moves to the combination of the next rank |
| `MixedRadix.AdvanceWraps` | glish/IValue.cc:683-688 | from the last combination the odometer returns every counter to zero |
| `MixedRadix.RankOfUnrank` | glish/IValue.cc:673-689 | every position of the array is the offset of some coordinates |
| `MixedRadix.ColumnMajor` | glish/IValue.cc:590-591 | the first coordinate runs fastest |
| `Subscript.Scan` | glish/IValue.cc:541-599 | the first pass accepts exactly when no subscript is rejected, and computes strides, longest list and the shortcut's offset, also past a zero extent |
| `Subscript.GenerateIndices` | glish/Value.cc:1469-1514 | a missing subscript stands for 1 up to the extent, a list for itself, and a mask for exactly the positions of its true bits, ascending |
| `Subscript.DenotesUnique` | glish/Value.cc:1469-1514 | that determines the list |
| `Subscript.Resolve` | glish/IValue.cc:609-661 | the second pass accepts exactly the well-formed subscripts and yields their index lists, lengths and result size |
| `Subscript.AdvanceCounters` | glish/IValue.cc:683-688 | the in-place loop over the counters is one turn of the odometer |
| `Subscript.OffsetAt` | glish/IValue.cc:675-679 | the inner sum is the column-major offset of the selected coordinates |
| `Subscript.Offsets` | glish/IValue.cc:673-689 | every index combination is visited once, at its column-major rank, inside the array, and the counters end at zero |
| `Subscript.CompactShape` | glish/IValue.cc:694-704 | the in-place loop leaves the extents above one, in order |
| `Subscript.CompactSplits` | glish/IValue.cc:694-704 | an extent is kept exactly when it is above one, and runs of extents keep their order |
| `Subscript.CompactKeepsSize` | glish/IValue.cc:694-704 | the compacted shape has as many cells as the result if and only if no extent is zero |
| `Subscript.ShortcutCorrect` | glish/IValue.cc:552-607 | the single-element shortcut agrees with the general rule if and only if no index list is empty |
| `Subscript.Locate` | glish/IValue.cc:541-708 | both operators' shared part, on all subscripts: refusal, the shortcut's element or the selected positions with the result's shape; right if and only if not degenerate |
| `Subscript.LocatesUnique` | glish/IValue.cc:541-708 | the subscripts determine what is found |
| `Subscript.ShapeExact` | glish/IValue.cc:692-706 | the shape on the general path multiplies to the length if and only if `ShapeRight`: with an extent above one when no list is empty, otherwise when the base has as many cells as are selected |
| `Subscript.Index` | glish/IValue.cc:498-785 | `x[...]` copies what is found, on all shapes and subscripts: the selected elements in column-major order if and only if not degenerate, with a fitting shape if and only if `ShapeRight`; it fails on what is found if and only if `Astray` |
| `Subscript.SubRef` | glish/IValue.cc:1424-1625 | `ref x[...]` names the positions of what is found, all of them inside the array if and only if not `Astray`; a single element keeps the shape of the base, and the shape fits if and only if `ViewShapeRight` |
| `Subscript.CorrectUnique` | glish/IValue.cc:541-708 | the subscripts determine positions and order |
| `Subscript.ViewAgreesWithCopy` | glish/IValue.cc:1424-1625 | on all subscripts copy and reference agree element by element, fail together except on a stray element, and have equal shapes if and only if the shortcut is not taken |
| `Subscript.DegenerateExample` | glish/IValue.cc:565-607 | an empty list beside a single index selects nothing, yet the shortcut answers with the first element |
| `Subscript.ShapeKeptExample` | glish/IValue.cc:692-706 | two masks that select one element keep the shape of the base |
| `Subscript.ZeroExtentExample` | glish/IValue.cc:692-706 | a zero extent is dropped from the shape of an empty result |
| `Subscript.SingleReferenceExample` | glish/IValue.cc:1515-1520 | a reference to one element of a two by two matrix keeps the shape of the matrix, and the copy has none |
| `Subscript.StrayExample` | glish/IValue.cc:1515-1520 | a reference to a row of a one by none matrix names position 0, where the copy fails |
| `VecRef.PositionReads` | glish/VecRef.cc:31-44 | the translated index holds the element that following the chain reads |
| `VecRef.FindIndices` | glish/VecRef.cc:96-111 | the in-place rewriting maps every index to its position in the storage at the end of the chain |
| `VecRef.MakeView` | glish/VecRef.cc:46-71 | a view of any value is built directly on its storage, with translated indices in range |
| `VecRef.ViewReadsChain` | glish/VecRef.cc:96-111 | the flattened view reads the same elements as the chain of references |
| `VecRef.IndexUpdate` | glish/VecRef.cc:141-147 | the maximum is an upper bound and attained |
| `VecRef.StoreLoop` | glish/IValue.cc:1660-1679 | the element loop performs the stores at the translated positions, in order, in the storage that the pointer is to, and is defined if and only if that storage has them |
| `VecRef.AssignArrayElements` | glish/IValue.cc:1628-1700 | when assignment fails, with nothing stored; when storage grows with zeros; the whole new storage; and that the base is unchanged when the pointer is to other storage |
| `VecRef.StoredElsewhere` | glish/IValue.cc:1660-1679 | positions not selected keep their element |
| `VecRef.StoredAt` | glish/IValue.cc:1660-1679 | a selected position holds the element of its last occurrence |
| `VecRef.ReadBack` | glish/IValue.cc:1660-1679 | reading back gives the right-hand side if and only if repeated positions received equal elements |
| `VecRef.AssignmentIsExact` | glish/IValue.cc:1660-1679 | assignment through a view changes no base element but those it selects, and reads back if and only if it reaches the storage and repeated positions agree, or the elements were there before |
| `VecRef.SubReferenceReadsSubscript` | glish/IValue.cc:1424-1625 | an n-dimensional sub-reference of any value, through any chain and for all subscripts, reads what the subscript copies |
| `Pick.RowOffset` | glish/IValue.cc:1141-1157 | a row is accepted exactly when all its coordinates are in range, and gives their offset |
| `Pick.CellIsStored` | glish/IValue.cc:1141-1157 | coordinates are stored like any matrix |
| `Pick.Locate` | glish/IValue.cc:1104-1163 | the loop accepts exactly the fitting in-range matrices and names each row's position |
| `Pick.PickValues` | glish/IValue.cc:1036-1218 | picking succeeds exactly on such matrices and reads those positions |
| `Pick.PickRef` | glish/IValue.cc:1222-1255 | the reference names those positions, one-based |
| `Pick.PickAssign` | glish/IValue.cc:1273-1318 | all or nothing: the new array is the old one with the values stored at those positions |
| `Pick.DistinctRows` | glish/IValue.cc:1141-1157 | two rows name the same position if and only if they are equal |
| `Pick.SamePositions` | glish/IValue.cc:1232-1255 | the three operators agree on the positions |
| `Pick.AssignElsewhere` | glish/IValue.cc:1283-1318 | elements no row names are unchanged |
| `Pick.PickAfterAssign` | glish/IValue.cc:1283-1318 | picking after assigning returns the values if and only if equal rows were given equal values |
| `Bind.Measure` | glish/BuiltIn.cc:1235-1314 | the measuring pass accepts exactly the acceptable argument lists and returns their extents |
| `Bind.AcceptanceCoversVectors` | glish/BuiltIn.cc:1275-1314 | accepted vectors are long enough, except exactly when a short one stands before a sole final matrix |
| `Bind.ShortVectorAccepted` | glish/BuiltIn.cc:1275-1314 | such arguments exist |
| `Bind.ElemIsStored` | glish/BuiltIn.cc:1181-1213 | arguments are read like any matrix |
| `Bind.BlockAt` | glish/BuiltIn.cc:1335-1404 | the arguments lie side by side, in order: each contributes its elements at the widths of those before it |
| `Bind.CopyColumns` | glish/BuiltIn.cc:1181-1213 | one argument fills the next free run of cells with its elements |
| `Bind.Cbind` | glish/BuiltIn.cc:1335-1404 | every cell is written once and the result is the block matrix of the arguments |
| `Bind.CopyRows` | glish/BuiltIn.cc:1181-1213 | one argument fills its rows in every column of the result |
| `Bind.Rbind` | glish/BuiltIn.cc:1335-1404 | every cell is written once and the result is the block matrix joined by rows |
| `Bind.RowsAreTransposedColumns` | glish/BuiltIn.cc:1160-1407 | joining by rows is joining the transposed arguments by columns |
| `Bind.RbindTransposesCbind` | glish/BuiltIn.cc:1335-1404 | cell by cell, `rbind` is the transpose of `cbind` on transposed arguments |
| `Frames.StackType.Copy` | glish/Sequencer.cc:342-377 | a copy holds all frames, or those at capture, with matching function offsets |
| `Frames.Sequencer.PushFrame` | glish/Sequencer.cc:2475-2480 | a frame is added to the innermost stack and the offsets stay right |
| `Frames.Sequencer.PushFrames` | glish/Sequencer.cc:2482-2494 | whatever stack is used, the body sees exactly the captured frames |
| `Frames.Sequencer.PopFrame` | glish/Sequencer.cc:2496-2515 | what was pushed last is returned and the rest restored |
| `Frames.Sequencer.PopFrames` | glish/Sequencer.cc:2517-2545 | the stack that was pushed is returned, also when a copy was used |
| `Frames.Sequencer.LocalFrames` | glish/Sequencer.cc:2547-2553 | the capture holds the frames in force, and is absent exactly when there are none |
| `Frames.Sequencer.FrameElement` | glish/Sequencer.cc:2555-2606 | the frame found is the live one the offset designates from the innermost function frame, and there is an error only when there is none |
| `Frames.Sequencer.ExecBlock` | glish/Stmt.cc:1347-1372 | a block runs with one more frame of its own and leaves the stacks as they were |
| `Frames.Sequencer.ExecCall` | glish/Func.cc:586-608 | a call sees the captured frames and its own, also when re-entered, and no check fires |
| `Frames.Sequencer.ExecNotify` | glish/Sequencer.cc:4434-4500 | a `whenever` body sees the captured frames, and no check fires |
| `Frames.Sequencer.ExecInclude` | glish/Sequencer.cc:4163-4181 | an included file runs on an empty stack that is gone afterwards |
| `Frames.Sequencer.Exec` | glish/Sequencer.cc:2475-2553 | every run ends with all stacks and captures unchanged, no inconsistency, and agrees with passing environments |
| `Frames.RunProgram` | glish/Sequencer.cc:2475-2553 | over every run from start-up, every access sees the reference environment, with different frames at different positions, and the consistency checks never fire |
| `Frames.RunSeparate` | glish/Stmt.cc:1347-1372 | in every run every environment seen or captured holds different frames at different positions |
| `Frames.ActivationIsNew` | glish/Func.cc:586-608 | the frame of every activation is none of those in force, captured or seen before, and has the right kind and size |
| `Frames.ClosureRemembers` | glish/Sequencer.cc:2482-2553 | whatever runs between definition and call, a body sees the frames of the definition and then its own |
| `Frames.BodiesSee` | glish/Sequencer.cc:4163-4181 | an included file sees no frames, a block those in force and its own |
| `Scopes.Resolver.PushScope` | glish/Sequencer.cc:1926-1938 | a new scope keeps the table well formed and the offsets of function scopes right |
| `Scopes.Resolver.PopScope` | glish/Sequencer.cc:1940-1981 | the enclosing scopes are as before, and the frame size covers the names of the scope |
| `Scopes.Resolver.InstallVar` | glish/Sequencer.cc:2195-2251 | the name gets the next slot of the right scope, and the table stays well formed if and only if the name is new there |
| `Scopes.ReinstallBreaks` | glish/Sequencer.cc:2229-2239 | a variable installed over another of the same name gets a slot outside the frame |
| `Scopes.Resolver.InstallGlobalRef` | glish/Sequencer.cc:2034-2107 | the innermost scope notes that the name is global, whatever it stood for, and the table stays well formed |
| `Scopes.Resolver.LookupAny` | glish/Sequencer.cc:2253-2321 | a use resolves to the nearest binding, or to a new global |
| `Scopes.Resolver.LookupLocal` | glish/Sequencer.cc:2253-2321 | an assignment resolves to a name of the enclosing function, or to a new variable of it |
| `Scopes.InstallKeeps` | glish/Sequencer.cc:2195-2251 | installing a name keeps slots of a scope distinct and all offsets right |
| `Scopes.GlobalNames` | glish/Sequencer.cc:2271-2281 | a use is global if and only if the nearest scope that knows the name is the global one or notes it as global, and has the slot noted there |
| `Lexical.RunFits` | glish/Stmt.cc:1347-1372 | in every run following the text, every access happens under frames that end with one per enclosing scope |
| `Lexical.InnermostFunction` | glish/Sequencer.cc:2555-2606 | offsets count from the frame of the innermost function scope, or, outside every function, from below the scopes |
| `Lexical.AddressExact` | glish/Sequencer.cc:2253-2321 | under any such frames, resolving leads to the frame of the binding scope if and only if that scope is findable, and to a slot inside it |
| `Lexical.AccessExact` | glish/Sequencer.cc:2195-2321 | the same over every use of a local name in every run |
| `Lexical.TargetBound` | glish/Sequencer.cc:2287-2299 | looking a target up leaves it bound in the enclosing function or a block of it, and yields that binding |
| `Lexical.TargetExact` | glish/Sequencer.cc:2287-2299 | under any such frames a target leads to the frame of its binding if and only if it is inside a function or no caller's frames lie below, and to a slot inside it |
| `Lexical.AssignmentExact` | glish/Expr.cc:361-383 | the same over every assignment of every run |
| `Lexical.ReadWriteAgree` | glish/Sequencer.cc:2253-2321 | reading and assigning a name from one place designate the same slot, and the same frame if and only if it is bound in the innermost scope or in the function itself |
| `Lexical.LexicalAddressing` | glish/Sequencer.cc:2195-2321 | in every run, every use of a name bound in a function scope, and every assignment to it in that function, reaches that activation's frame and a slot inside its size |
| `Lexical.BlockVariableMissed` | glish/Sequencer.cc:2253-2321 | inside a function, under any frames, a block's variable used from a nested block is missed |
| `Lexical.BlockVariableSplit` | glish/Sequencer.cc:2253-2321 | from that place an assignment to the variable does reach its frame |
| `Lexical.OuterWheneverMissed` | glish/Sequencer.cc:2555-2606 | a run in which a `whenever` outside every function, run while one is active, misses the variable of its own block |
| `Parsing.SettledCompletes` | glish/Sequencer.cc:1940-1981 | a table whose scopes closed with at least the names they had completes the chain of their frames |
| `Parsing.LookUp` | glish/Sequencer.cc:2253-2321 | a lookup adds at most one name to one open scope, and its answer is what the name resolves to in the table it leaves |
| `Parsing.Parse` | glish/Sequencer.cc:1926-2321 | for any sequence of opened and closed scopes and lookups: every lookup is answered, and its table is right and completes the chain of frames with the sizes at which its scopes close |
| `Parsing.ParsedAddressing` | glish/Sequencer.cc:1926-2321 | lexical addressing from the parser's lookups to every run, without assumptions on the tables |
| `Binder.FindEllipsis` | glish/Func.cc:264-281 | the function is valid exactly when it has at most one ellipsis, whose position is found |
| `Binder.Place` | glish/Func.cc:398-429 | an unnamed actual given, or the default for an empty one, binds the formal at its position, or fails exactly when that cannot be evaluated |
| `Binder.Spill` | glish/Func.cc:372-396 | an unnamed actual beyond the formals joins the record, or fails exactly when there is none or it is empty without default |
| `Binder.BindPositional` | glish/Func.cc:349-434 | the positional loop stops at the first actual that has no place, else at the first named one with exactly the positional formals bound |
| `Binder.CheckNamed` | glish/Func.cc:436-502 | the named loop stops at the first actual that breaks the rule, else the record holds the whole overflow |
| `Binder.BindRemaining` | glish/Func.cc:504-568 | each remaining formal gets its first matching name, else its default, and the ellipsis its record; else the first uncovered formal is reported |
| `Binder.Bind` | glish/Func.cc:296-568 | binding succeeds if and only if every actual has a place and every formal is covered; each slot then holds the actual at its position, its own default for an empty one, the first actual of its name or its default, and the ellipsis the overflow entry by entry; otherwise the first obstacle is reported |
| `Binder.NamedActualUsed` | glish/Func.cc:505-568 | a named actual is its formal's value if and only if no earlier actual has that name |
| `Binder.RepeatedNameExample` | glish/Func.cc:505-568 | a call that binds and drops the second value for a name |
| `Binder.RecordIsOverflow` | glish/Func.cc:959-985 | the record holds exactly the overflow arguments, which are consecutive, in order |
| `NodeSearch.Statics.IsMember` | glish/Reflex.cc:113-139 | the recursion ends on every graph, restores its static variables, and has looked through all it visited |
| `NodeSearch.Search` | glish/Reflex.cc:113-139 | an entry is returned if and only if the node occurs in a list reachable through live entries, and holds the node |
| `WeakPtr.Obj.PointerGone` | glish/Reflex.cc:81-84 | its first listing goes |
| `WeakPtr.MovedLists` | glish/Reflex.cc:39-73 | adding to the new target and then removing from the old one lists a pointer exactly once, also when they are the same |
| `WeakPtr.World.NewPtr` | glish/Reflex.cc:21-37 | a new pointer is listed by its target |
| `WeakPtr.World.Assign` | glish/Reflex.cc:39-73 | after reassignment no pointer dangles and every listing is exact |
| `WeakPtr.World.DestroyPtr` | glish/Reflex.cc:10-14 | a destroyed pointer is listed nowhere |
| `WeakPtr.World.Unref` | glish/Reflex.cc:75-79 | the last reference clears exactly the pointers at the object |
| `WeakPtr.World.UnrefPtr` | glish/Reflex.h:64 | the pointer is null and unlisted, and its target lost one reference |
| `WeakPtr.Run` | glish/Reflex.cc:10-89 | after any sequence of operations every non-null pointer targets a live object that lists it once and nothing else is listed, and every pointer and count is what a reference keeping objects by number gives |
| `WeakPtr.SelfNulling` | glish/Reflex.cc:75-89 | a pointer keeps its target as long as that lives and is null from the moment it does not |
| `WeakPtr.RunAimed` | glish/Reflex.cc:10-89 | in every run pointers target only objects that live |
| `WeakPtr.SetMeans` | glish/Reflex.cc:39-73 | what each operation on a pointer makes of it |
| `Primes.IsPrime` | glish/Dict.cc:328-339 | trial division decides primality from 3 on, and parity below |
| `Primes.SquareRootSuffices` | glish/Dict.cc:328-339 | without a divisor up to the square root there is none |
| `Primes.TrialDivisionCorrect` | glish/Dict.cc:328-339 | its answer is right if and only if the argument is at least 3, or even and below 1 |
| `Primes.PrimeBeyond` | glish/Dict.cc:321-326 | there are primes beyond every bound, so the search ends |
| `Primes.NextPrime` | glish/Dict.cc:321-326 | the result is the least prime not below the start if and only if the start is at least 3 |
| `Dictionary.Dictionary.Init` | glish/Dict.cc:209-218 | an empty table with at least the wanted buckets |
| `Dictionary.Dictionary.Lookup` | glish/Dict.cc:76-93 | the value last stored for the key, or nothing |
| `Dictionary.Dictionary.InsertEntry` | glish/Dict.cc:240-272 | an entry's value replaces the old one, or the entry is appended to its chain |
| `Dictionary.Dictionary.Insert` | glish/Dict.cc:54-74 | the view is updated in place or extended at the end, the old value returned, and the table kept below four entries per bucket |
| `Dictionary.Dictionary.Remove` | glish/Dict.cc:126-154 | exactly the key's entry goes, from the chain and the order list |
| `Dictionary.Dictionary.Collect` | glish/Dict.cc:341-375 | resizing collects every entry once |
| `Dictionary.Dictionary.ChangeSize` | glish/Dict.cc:341-375 | resizing changes neither contents nor order |
| `Dictionary.Dictionary.NextEntry` | glish/Dict.cc:172-205 | each step yields the next entry in bucket order, or reports the end |
| `Dictionary.Iterate` | glish/Dict.cc:157-205 | an undisturbed iteration yields every entry exactly once and stops |
| `Dictionary.FlatIsPermutation` | glish/Dict.cc:240-272 | the buckets together hold every entry exactly once |
| `Dictionary.RefinesMap` | glish/Dict.cc:54-154 | lookup, insertion and removal on the ordered list are those of a map |
| `Dictionary.ListAnswersAreMapAnswers` | glish/Dict.cc:54-154 | over any sequence of operations the ordered list answers as a map does |
| `Dictionary.ListedByInsertion` | glish/Dict.cc:54-154 | the ordered list is the map's entries by the operation that brought each in for good: replacing keeps the place, removing and storing again gives the last |
| `Dictionary.RunOps` | glish/Dict.cc:37-272 | over any sequence of operations, with any hash weights and resizing, the table answers as a map does, lists its entries in the order in which operations brought them in, and has fewer than four per bucket |
| `Kernels.Block.Grow` | glish/ValKern.cc:194-235 | elements are kept up to the shorter length, new ones are zero when asked for, and the storage moves if and only if it is missing or too small |
| `Kernels.Kernel.UnrefArray` | glish/ValKern.cc:238-254 | the last share frees or empties the block, any other leaves it untouched for the rest, and counts stay exact |
| `Kernels.Kernel.SetType` | glish/ValKern.cc:284-291 | the kernel reads as zeros of the kind; no other kernel changes |
| `Kernels.Kernel.SetArray` | glish/ValKern.cc:310-352 | the kernel reads as the given elements; no other kernel changes |
| `Kernels.Kernel.Assign` | glish/ValKern.cc:300-307 | the kernel reads as the other; no third one changes |
| `Kernels.Kernel.ModArray` | glish/ValKern.cc:386-407 | the kernel owns its block alone and reads as before; no other kernel changes |
| `Kernels.Kernel.Grow` | glish/ValKern.cc:354-384 | the kernel reads cut or zero-padded; no other kernel changes |
| `Kernels.Kernel.BoolToInt` | glish/ValKern.cc:293-298 | only a boolean kernel changes, and only its kind |
| `Kernels.Kernel.Write` | glish/ValKern.cc:386-407 | an element stored through the modifiable array is seen by this kernel alone |
| `Kernels.Kernel.Destroy` | glish/include/Glish/ValKern.h:235-243 | the remaining kernels read as before and are counted without this one |
| `Kernels.Kernel.Replace` | glish/ValKern.cc:343-346 | other kernels notice unless there are none on the block or nothing changes, exactly |
| `Kernels.StoreKept` | glish/include/Glish/VecRef.h:100-112 | a store through a pointer kept from an earlier call is seen by every kernel that holds the block, and by no other |
| `Kernels.CountIsHolders` | glish/ValKern.cc:238-254 | a held block is not freed, and its count is the number of kernels holding it |
| `Kernels.PrivateMeans` | glish/ValKern.cc:300-307 | copying, assigning and destroying values, value by value |
| `Kernels.RunOps` | glish/ValKern.cc:194-407 | after any run over any number of kernels, each reads what a private copy would give |
| `Views.SubVector.Pointer` | glish/VecRef.cc:113-128 | the kept pointer of the base's kind is handed back, otherwise one to storage that the base has alone; nothing that can be read changes |
| `Views.SubVector.Store` | glish/include/Glish/VecRef.h:100-112 | a store reaches all holders of the kept block and nobody else, is dropped when the base is too short, and leaves a pointer to the base's own storage if and only if it was sharp |
| `Views.SubVector.Copy` | glish/include/Glish/VecRef.h:81-99 | a copy reads what the holders of the kept block have at the indices, the base among them when the reference is sharp |
| `Views.FirmReached` | glish/VecRef.cc:113-128 | a kept pointer reaches the base alone if and only if it is to the base's unmoved storage and nobody else holds that |
| `Views.StoreExact` | glish/include/Glish/VecRef.h:100-112 | a store that lands in given kernels is right if and only if these are the base alone, or it is too short, or nothing is new |
| `Views.AssignMeans` | glish/include/Glish/VecRef.h:100-112 | an assignment is meant to change the element of the base at the reference's index and nothing else |
| `Views.Untouched` | glish/ValKern.cc:386-407 | writing elements, making values and anything done to other values leaves a used reference calm |
| `Views.AssignThrough` | glish/IValue.cc:1660-1740 | in every heap of a run, an assignment through a reference is right if and only if the reference was sharp, or the base is too short, or nothing is new |
| `Views.CalmIsIdeal` | glish/VecRef.cc:113-128 | in a calm run every assignment lands where it is meant to |
| `Views.RunViews` | glish/VecRef.cc:113-128 | any run of kernel operations, references and assignments reads as its stores landed, in the base alone unless the reference is loose; a calm run reads as if every assignment changed its base |
| `Views.StaleStore` | glish/ValKern.cc:386-407 | after the storage of a used reference's base was shared and the base written, the next store goes to the sharer and not to the base |
| `Views.StaleExample` | glish/ValKern.cc:386-407 | a program in which the last assignment through a reference changes another variable |
| `Bundling.HexInjective` | glish/Task.cc:254-258 | equal eight-digit numbers come from equal lengths |
| `Bundling.HexReads` | glish/Task.cc:254-258 | the digits are the number, in lower-case hexadecimal |
| `Bundling.InsertAppends` | glish/Task.cc:254-258 | a bundle's next key never collides, so the event goes last and replaces nothing |
| `Bundling.Task.SetChannel` | glish/Task.cc:297-321 | on connecting, the queue follows what was sent, in order, and is empty |
| `Bundling.Task.SendEvent` | glish/Task.cc:123-225 | when a packet is refused, and otherwise the whole new wire and queue, in every state |
| `Bundling.Task.Transmit` | glish/Task.cc:123-225 | address by address, a packet's events join what was sent or what waits, and no other address is touched |
| `Bundling.Agent.FlushEvents` | glish/Agent.cc:551-561 | the open bundle's events are emitted as its account says, and no other agent's change |
| `Bundling.Agent.SendEvent` | glish/Agent.cc:509-533 | a plain event is held while the bundle stays below its size and otherwise goes out with it; a request flushes the bundle and goes by itself; and all as the account says |
| `Bundling.Agent.BundleEvents` | glish/Agent.cc:535-549 | changing the bundle size emits or keeps the open bundle as its account says, and loses nothing |
| `Bundling.OrderExact` | glish/Task.cc:123-321 | sent, waiting and bundled events are those issued, in order, each once, if and only if the events that passed over waiting ones commute with them |
| `Bundling.RunKeeps` | glish/Task.cc:123-321 | the accounts of every agent stand in every run |
| `Bundling.LogExact` | glish/Agent.cc:509-533 | in every run an account is of exactly the events of the agent's sends, in order, less requests that found no connection and got none |
| `Bundling.UnbrokenSmooth` | glish/Task.cc:123-321 | without a broken connection nothing passes anything, and nothing waits once the task is connected |
| `Bundling.HeldBack` | glish/Task.cc:250-262 | a plain event is held back exactly while the bundle stays below its size |
| `Bundling.RunOps` | glish/Task.cc:123-321 | after any interleaving, wire, queue and open bundle of every agent are those of its account, and together are the events of its sends, in order, if and only if those that passed over waiting ones commute with them; always without a broken connection; a task in error is sent nothing |
| `Bundling.SentOverWaiting` | glish/Task.cc:131-146 | a packet sent while others wait keeps an agent's order if and only if it is not its own or commutes with what waits |
| `Bundling.LetThroughOrder` | glish/Task.cc:131-146 | a request does so if and only if none of its agent's events waits |
| `Bundling.LetThroughExample` | glish/Task.cc:131-146 | a run in which the request goes first |
| `Bundling.PassingExample` | glish/Task.cc:131-146 | a run in which another agent's plain event passes its own waiting one |
| `Bundling.Dispatch` | glish/Proxy.cc:228-246 | a packet is decoded to its events, with the number cut off for proxies only |
| `Bundling.ProxyStore.ProcessEvent` | glish/Proxy.cc:198-280 | the proxy with the id hears the packet and nobody else does; the one that ends leaves the list, and an id without a proxy is an error |
| `Bundling.Receive` | glish/Proxy.cc:282-286 | each proxy hears its packets, in order, up to the one that ends it |
| `Bundling.ProxyDecodes` | glish/Proxy.cc:224-246 | a proxy hears exactly the events sent to it, in order, if and only if no unbundled `terminate` was among them |
| `Bundling.ProxyExample` | glish/Proxy.cc:224-246 | `terminate` ends a proxy by itself but not in a bundle |
| `Bundling.DirectDecodes` | glish/Proxy.cc:254-278 | the client itself hears the names that were sent if and only if none came in a bundle |
| `Bundling.DirectExample` | glish/Proxy.cc:254-278 | a bundled event reaches the client under another name |
| `Bundling.EndToEnd` | glish/Proxy.cc:228-246 | from script to proxy, over every run: a proxy that was not ended heard exactly what was sent, which with what waits and is bundled is the events of its sends, in order, under the exact condition; always without a broken connection or a `terminate` |
| `Bundling.NeverEnded` | glish/Proxy.cc:224-246 | a proxy that is never sent a `terminate` event is not ended |
| `Awaits.HasRegisteredInterest` | glish/Agent.cc:199-212 | 1 exactly when the statement is registered for the name, 2 exactly when only for all events |
| `Awaits.RegistrationCounts` | glish/Agent.cc:133-167 | registering adds one registration and changes nothing else |
| `Awaits.UnRegistrationCounts` | glish/Agent.cc:169-197 | unregistering takes back one, if there is one, and changes nothing else |
| `Awaits.SetValue` | glish/Sequencer.cc:240-254 | an await is filled only if unfilled and forced, for a reply, or naming the agent under the event's name |
| `Awaits.Sequencer.LookAhead` | glish/Sequencer.cc:3787-3812 | the loop fills the first await that is unfilled and accepts the event |
| `Awaits.Sequencer.NewEvent` | glish/Sequencer.cc:3775-3860 | the new list of awaits; exactly one of reply, ignored and dispatched; ignored if and only if no await wants the event and the innermost is an `only` statement of which neither statement nor `except` is registered for it; finished if and only if no await wants it and the innermost is for it |
| `Awaits.TakesWhatItWants` | glish/Sequencer.cc:3787-3812 | which awaits an event can fill, in terms of registrations |
| `Awaits.OutcomeExact` | glish/Sequencer.cc:3815-3860 | the outcome in terms of registrations, for all awaits |
| `Awaits.Sequencer.CheckAwait` | glish/Sequencer.cc:3602-3614 | only the innermost await concerned is filled, and only if unfilled |
| `Awaits.ArrivalFillsFirst` | glish/Sequencer.cc:3787-3831 | an arrival fills at most one await, the first unfilled accepting one, and changes nothing else |
| `Awaits.CheckFillsInnermost` | glish/Sequencer.cc:3602-3614 | a check fills exactly the innermost await concerned, if that is unfilled |
| `Awaits.StackOfAwaits` | glish/Sequencer.cc:3003-3011 | a pushed await is last and unfilled, and a pop undoes the push |
| `Awaits.Run` | glish/Sequencer.cc:3602-3860 | over any run the code's list of awaits is the reference's, and every arrival has the outcome that awaits and registrations then demand |
| `Awaits.FilledPersists` | glish/Sequencer.cc:240-254 | in every run a filled await keeps agent, name and value until it is popped |
| `Awaits.FilledByEvents` | glish/Sequencer.cc:240-254 | what fills an await is an event of the run |
| `Notes.Sequencer.PushNote` | glish/Sequencer.cc:1868-1881 | an await or sticky note replaces those on top, never reaching below the marker |
| `Notes.Sequencer.PopNote` | glish/Sequencer.cc:1883-1918 | exactly the notes of the whenever or of the call go; sticky ones stay in order |
| `Notes.Sequencer.Exec` | glish/Sequencer.cc:1868-1918 | whatever is pushed, popped and called, nothing at or below the innermost marker changes |
| `Notes.Sequencer.CallFunction` | glish/Func.cc:586-608 | after a call the stack is as before plus the sticky notes the body left |
| `Notes.Run` | glish/Sequencer.cc:1868-1918 | over every run the stack is that of the reference in which each call has its own notes |
| `Notes.OwnInOrder` | glish/Sequencer.cc:1883-1918 | surviving notes are in the order in which they were pushed |
| `Notes.PushedExact` | glish/Sequencer.cc:1868-1881 | a note goes on top of everything, an await or sticky one on top of what is below the await and sticky notes there |
| `Notes.PoppedExact` | glish/Sequencer.cc:1883-1918 | below the last note of a whenever everything stays, from it on the sticky notes |
| `Notes.StickiesExact` | glish/Sequencer.cc:1883-1918 | sticky notes are kept in order, part by part |
| `Roman.RestIsNumeral` | glish/sprintf.cc:523-539 | what the loop writes is the numeral as it is taught, digit by digit |
| `Roman.ReadBack` | glish/sprintf.cc:508-542 | read with the subtractive rule the numeral is the number, within the length bound |
| `Roman.NumeralCased` | glish/sprintf.cc:508-522 | capitals exactly when asked for |
| `Roman.WriteSymbol` | glish/sprintf.cc:524-525 | a symbol is written as often as its value fits |
| `Roman.Write` | glish/sprintf.cc:523-540 | the loop ends, stays inside the buffer, and writes exactly the text |
| `Roman.Ctor` | glish/sprintf.cc:508-542 | for every 32-bit number: sign and numeral, or the refusal text exactly from the cut-off on |

## Left out

- Sockets, pipes, processes, daemons, signals, the line editor, reporters, logging and value printing: operating-system calls and output formatting.
- Regular expressions and authentication: they rest on sources that are not part of this model.
- Element types, coercion and floating point: elements are opaque, and each per-type macro is modelled once.
- Subscript.Scan: negative extents, which a shape attribute set by hand can have.
- Subscript.Index: the sub-vector branch is covered by `VecRef.SubReferenceReadsSubscript` on the elements of the chain.
- VecRef.AssignArrayElements: the right-hand side has at least as many elements as indices, which its callers check; filling new string elements is not modelled.
- Pick.PickAssign: the right-hand side has been coerced to one element per row; picking where neither array nor index has a shape is ordinary indexing and is not modelled, nor is a one-dimensional index shape.
- Bind.Cbind: requires that every argument supplies enough elements; what is read when a short vector was accepted is undefined in the source.
- Bind.Rbind: requires the same.
- Frames: run-time errors that end the interpreter, and the reference counts of frames and stacks.
- Frames.Sequencer.ExecNotify: the branch for a notifiee with a single frame; no statement creates one (glish/Stmt.cc:303, glish/Stmt.cc:641-648).
- Scopes.Resolver.LookupAny: the mark left on the innermost scope, which only decides whether a warning is printed.
- Binder.Bind: actuals of the form `...`, the record of missing arguments, and side effects of evaluation on later evaluations. Evaluation is a fixed function of formal and expression, so that a default that reads an earlier formal, as in `func f(a, b=a)`, is not expressed.
- Primes.IsPrime: 32-bit overflow of the squared divisor.
- Dictionary: recycling of iteration cookies, removal during iteration, and the difference between an absent and an empty chain; stored values are not null, as the source requires. The 256 hash weights are a parameter.
- Views.RunViews: destroying values during the run, copies of references in the run, and what a store to storage that is gone does; the run ends there, as the C standard leaves it undefined, and extended storage counts as moved.
- Views.SubVector.Copy: what the rest of the copy holds when the base is too short.
- VecRef.StoreLoop: which storage the pointer is to is a parameter here and is settled in `Views.dfy`.
- Kernels: records, values and references held by kernels, the const flags, element widths in bytes, finalizers, and self-assignment.
- Bundling.Task.SendEvent: the wrapping of request values, waiting for the reply, closing a channel, and logging.
- Bundling.Agent.SendEvent: destruction of a proxy that holds a partial bundle.
- Bundling.ProxyStore.ProcessEvent: ids are distinct, as they are handed out, and a proxy ends as the base class does; malformed proxy values are not modelled.
- Awaits.Sequencer.NewEvent: the statements run for a dispatched event; whatever they push, pop and register appears as further steps of the run.
- Awaits: the list holds values, so aliasing between an await and its list entry is not captured.
- Roman.Ctor: the buffer has at least 256 characters, as the C standard requires of BUFSIZ.
- Wire formats, value serialization, the parser and the rest of the statement and expression interpreter: not part of this model.
