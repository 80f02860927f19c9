# A verified model of the Cavs runtime core and its tree-topology inputs

This project models the parts of Cavs, a system for training dynamic neural networks, that these components cover:

- **Session tensor table.** It maps scoped tensor names (`scope:x`) to tensors. It also keeps a second table keyed by the raw name (the part after the last `:`), whose entry is the first tensor inserted with that suffix. Every later tensor with the same suffix must view the same buffer. `GetContext` binds an operator's inputs and outputs against this table. A missing output takes the buffer of the tensor with the same raw name, or shares input 0's buffer, or, provided an allocator is registered for the operator's device, gets a buffer no tensor in the session views.
- **Allocators.** The tracking allocator keeps a ledger of what it hands out: `capacity` is always the sum of the sizes in its trace, and every traced buffer is still live in the wrapped allocator, which may hand a released address out again. The model also covers the typed `Allocate`/`Deallocate` helpers, the profiling switch, and the allocator and session registries. Both registries insert without overwriting.
- **Statement execution plan.** A basic block replays its statement list `iter` times. A function-call statement checks that its argument and context are set. Running a plan is modelled by the sequence of expression-statement executions it performs; a failed `CHECK` aborts the run.
- **Topology input of the tree applications.**
  - The SST reader and the tree-LSTM reader parse a batch of instances. Each instance is a line of token ids plus a line giving the tree's parent array. They write instance *i* at offset `i * MAX_DEPENDENCY` of two buffers, reset first to 0 (inputs) and -1 (parents).
  - `binaryTree` builds the parent array of a complete binary tree, numbered level by level from the leaves up, and copies it once per batch instance.

A failed `CHECK` ends the process. The model represents it as an outcome instead: an `ok` result that is false, or `Result.Failed`. Each contract says exactly when that happens. Files are given as sequences of lines, buffers are Dafny arrays, pointers are abstract identifiers, and integers are unbounded.

The model follows the source code. It covers these files:

- `cavs/midend/session_base.cc`
- `cavs/midend/allocator.h` and `cavs/midend/allocator.cc`
- `cavs/midend/statement.h`
- `apps/cortex/common.h`
- `apps/cortex/nvtree-lstm.cc`
- `apps/cortex/nvtree-fc-syn.cc`
- `apps/cortex/2tree-mvrnn.cc`

Modules, one per file:

- `Wrappers`: `Option` and `Result`.
- `Arithmetic`: a multiplication fact shared by the buffer layouts.
- `Registries`: the insert-without-overwrite name tables.
- `Allocation`: `allocator.h` and `allocator.cc`.
- `Session`: `session_base.cc`.
- `Statements`: `statement.h`.
- `TopologyReader`: `common.h`.
- `TreeLstmReader`: `nvtree-lstm.cc`.
- `BinaryTreeTopology`: `binaryTree` of `2tree-mvrnn.cc`, and the tree shape it builds.
- `FcSynTree`: `binaryTree` of `nvtree-fc-syn.cc`.

## Model

| member | source | states |
|---|---|---|
| Registries.Inserted | cavs/midend/allocator.cc:82-84 | inserting under a name that is already present leaves the table unchanged; otherwise only that name is added, bound to the new entry |
| Registries.FirstRegistrationWins | cavs/midend/session_base.cc:109-112 | registering twice under one name keeps the first registration |
| Registries.NameRegistry.Register | cavs/midend/allocator.cc:82-84 | the registry afterwards is the insert-without-overwrite of the old one |
| Registries.NameRegistry.Lookup | cavs/midend/allocator.cc:98-103 | NULL exactly when the name was never registered, otherwise the registered entry |
| Allocation.DeviceName | cavs/midend/allocator.cc:88-95 | the key is "GPU" exactly for the GPU device and "CPU" for every other device |
| Allocation.TotalRemove | cavs/midend/allocator.cc:69-73 | removing a traced buffer takes exactly its size off the sum of the trace, whichever entry is removed |
| Allocation.TotalAdd | cavs/midend/allocator.cc:62-67 | recording a new buffer adds exactly its size to the sum of the trace |
| Allocation.TotalOverwrite | cavs/midend/allocator.cc:64-65 | recording a size for a buffer that is already traced replaces its old size, so the total no longer grows by the new size: why the ledger invariant needs every traced buffer to stay live |
| Allocation.AllocateThenDeallocateRestores | cavs/midend/allocator.cc:62-73 | allocating a fresh buffer and then releasing it gives back the original trace and total |
| Allocation.FreshPtr | cavs/midend/allocator.cc:24 | the address handed out is held by no live buffer; an address released earlier may be handed out again |
| Allocation.RawAllocator.AllocateRaw | cavs/midend/allocator.cc:23-35 | returns a buffer that is not live (possibly one released earlier, as with `malloc`) and marks it live; nothing else changes |
| Allocation.RawAllocator.DeallocateRaw | cavs/midend/allocator.cc:36-46 | the buffer is no longer live; nothing else changes |
| Allocation.RawAllocator.InitWithZero | cavs/midend/allocator.cc:47-49 | the zero-fill request for that buffer and size is recorded, after all earlier ones |
| Allocation.TrackingAllocator.constructor | cavs/midend/allocator.cc:59-60 | starts with capacity 0 and an empty trace, wrapping the given allocator |
| Allocation.TrackingAllocator.Name | cavs/midend/allocator.h:77 | the name of the wrapped allocator |
| Allocation.TrackingAllocator.Capacity | cavs/midend/allocator.h:78 | the capacity equals the sum of the sizes of the traced buffers |
| Allocation.TrackingAllocator.AllocateRaw | cavs/midend/allocator.cc:62-67 | returns a buffer that was not live, hence not traced while the invariant holds; records it with its size; capacity grows by exactly that size; the ledger invariant (capacity is the sum of the trace, every traced buffer is live) is kept |
| Allocation.TrackingAllocator.DeallocateRaw | cavs/midend/allocator.cc:69-73 | succeeds exactly when the buffer is traced; then capacity drops by its recorded size and the entry goes; on failure nothing changes; the wrapped allocator is never touched |
| Allocation.TrackingAllocator.Allocate | cavs/midend/allocator.h:41-45 | requests n * sizeof(T) bytes: returns a buffer that was neither live nor traced; the trace and capacity grow by that product; the wrapped allocator's live set gains exactly that buffer and its zero-fill log is unchanged |
| Allocation.TrackingAllocator.Deallocate | cavs/midend/allocator.h:46-51 | NULL is ignored and changes nothing; any other buffer is released exactly as by DeallocateRaw |
| Allocation.TrackingAllocator.InitWithZero | cavs/midend/allocator.h:81-83 | forwards the zero-fill request to the wrapped allocator; the ledger is untouched |
| Allocation.MemProfiling.SetMemProf | cavs/midend/allocator.h:70-72 | the profiling switch takes the given value |
| Allocation.GetAllocator | cavs/midend/allocator.cc:98-103 | NULL exactly for an unregistered device name, otherwise the registered allocator |
| Allocation.GetAllocatorFor | cavs/midend/allocator.cc:88-96 | the allocator registered under "GPU" for a GPU operator and under "CPU" for any other |
| Session.LastColon | cavs/midend/session_base.cc:17-18 | absent exactly when the name has no ':'; otherwise a ':' with no ':' after it |
| Session.RawName | cavs/midend/session_base.cc:18 | the raw name is a proper suffix of the name, right after a ':', and holds no ':' |
| Session.RawNameSplits | cavs/midend/session_base.cc:18 | a scoped name is its scope, ':' and its raw name, and the raw name holds no ':' |
| Session.RawNameOfComposed | cavs/midend/session_base.cc:32 | the raw name of scope + ':' + r is r whenever r has no ':' (inverse of the split) |
| Session.InsertKeepsValid | cavs/midend/session_base.cc:27-39 | an insertion that passes its checks keeps the table invariant: scoped entries stored under their own names with a non-empty raw name bound to a tensor on the same buffer, and every raw entry one of the scoped entries with that raw name |
| Session.SessionBase.GetTensor | cavs/midend/session_base.cc:12-25 | the scoped entry if present; otherwise, without `recursive`, NULL; with it, a failed check exactly for a name without ':' or with an empty raw name, else the raw-name entry or NULL |
| Session.SessionBase.LookupFindsScopedTensor | cavs/midend/session_base.cc:12-25 | whatever a lookup finds is a scoped entry stored under its own name; a fallback finds a tensor with the same raw name |
| Session.SessionBase.InsertTensor | cavs/midend/session_base.cc:27-39 | succeeds exactly for a new scoped name with a ':' and non-empty raw name whose raw entry, if any, views the same buffer; then adds it and binds the raw name only if free; on failure nothing changes; keeps the invariant |
| Session.SessionBase.ResolveOutput | cavs/midend/session_base.cc:51-83 | an existing output is kept; a missing one is supplied exactly when its raw name is bound (same buffer), or the op shares memory with one output and an input 0 (input 0's buffer), or it has a non-empty shape and a device allocator (a fresh buffer); old entries never change |
| Session.SessionBase.ResolveInputs | cavs/midend/session_base.cc:45-49 | succeeds exactly when every input name is in the scoped table, returning those tensors in order |
| Session.SessionBase.SupplyOutput | cavs/midend/session_base.cc:51-83 | one pass of the output loop: when output j is supplied, the loop state extends to the first j + 1 outputs; when it is not, the tables are unchanged and the outputs cannot all be supplied |
| Session.OutputStep | cavs/midend/session_base.cc:51-88 | a supplied output extends the resolved prefix: its name, and its raw name when free, join the tables, and it is bound with its buffer and shape |
| Session.DistinctStep | cavs/midend/session_base.cc:71-79 | an allocated buffer differs from every buffer in the table, so the raw entries a call adds keep pairwise distinct buffers |
| Session.OutputsApart | cavs/midend/session_base.cc:50-89 | outputs whose raw names differ and were both unbound sit on different buffers, those of their distinct raw entries |
| Session.OutputFails | cavs/midend/session_base.cc:52-80 | an output that cannot be supplied from the tables as they stand makes the whole output list unsuppliable |
| Session.SessionBase.ResolveOutputs | cavs/midend/session_base.cc:50-89 | succeeds exactly when every output in turn can be supplied from the tables as extended by the outputs before it, and a stateful op has at most one output; then output j is bound to its table entry, which is the old entry or takes the raw name's buffer, input 0's buffer or a buffer no old tensor views, with the requested shape for the first slot naming it; outputs with different raw names that were both unbound get different buffers unless the op shares memory; old entries are unchanged |
| Session.SessionBase.GetContext | cavs/midend/session_base.cc:41-91 | succeeds exactly when the node is single, every input is present, every output can be supplied in turn and a stateful op has at most one output; then binds the inputs in order and each output to its table entry, adds exactly the output names, keeps old entries, and gives each new output the raw name's buffer, input 0's buffer or a fresh one, with its requested shape; outputs with different raw names that were both unbound get different buffers unless the op shares memory |
| Session.ShareMemory | cavs/midend/session_base.cc:62 | true exactly when the boolean argument "ShareMemory" is present and set |
| Session.GetSession | cavs/midend/session_base.cc:116-121 | NULL exactly for an unregistered name, otherwise the registered factory applied to `opt` |
| Statements.Times | cavs/midend/statement.h:70-74 | no pass does nothing; if one pass aborts, the passes stop with that outcome; otherwise the passes run the pass's operators n times over |
| Statements.RunStmt | cavs/midend/statement.h:68-77 | a block with no passes runs nothing; an expression or call statement runs at most one operator, and a call statement none |
| Statements.RunAll | cavs/midend/statement.h:71-73 | an empty list runs nothing and a one-statement list runs as that statement |
| Statements.Kind | cavs/midend/statement.h:19-21 | EXPR, BASICBLOCK and FUNCCALL correspond one-to-one to the three statement forms |
| Statements.RunAllAppend | cavs/midend/statement.h:71-73 | running a concatenated statement list runs the first part, then (unless it aborted) the second |
| Statements.TimesSnoc | cavs/midend/statement.h:70 | n + 1 passes are n passes followed by one more |
| Statements.TimesAfterAbort | cavs/midend/statement.h:70-74 | once a pass has aborted, further passes change nothing |
| Statements.RepeatLength | cavs/midend/statement.h:70 | n passes of a trace are n times as long |
| Statements.BlockRepeatsBody | cavs/midend/statement.h:68-77 | a block whose body does not abort runs the body's operators `iter` times over, so iter times as many events |
| Statements.BlockAbortsInFirstPass | cavs/midend/statement.h:68-77 | a block whose body aborts stops in its first pass with exactly the body's outcome |
| Statements.Execute | cavs/midend/statement.h:68-77 | the nested pass/statement loops produce exactly the statement's specified outcome |
| Statements.BasicBlock.constructor | cavs/midend/statement.h:56-59 | a new block has the given positive count and no statements |
| Statements.BasicBlock.Type | cavs/midend/statement.h:78 | the kind of a block statement |
| Statements.BasicBlock.AppendStmt | cavs/midend/statement.h:80-84 | fails exactly on NULL, leaving the list unchanged; otherwise appends at the end and returns the argument |
| Statements.BasicBlock.Run | cavs/midend/statement.h:68-77 | the outcome of running the block as a statement |
| Statements.FunctionCallStatement.constructor | cavs/midend/statement.h:120-121 | all three references start NULL |
| Statements.FunctionCallStatement.SetPushArgStatement | cavs/midend/statement.h:102-104 | sets the push-argument statement only |
| Statements.FunctionCallStatement.SetPopRetStatement | cavs/midend/statement.h:105-107 | sets the pop-return statement only |
| Statements.FunctionCallStatement.SetGlobalContext | cavs/midend/statement.h:108-110 | sets the global context only |
| Statements.FunctionCallStatement.Type | cavs/midend/statement.h:117 | the kind of a function-call statement |
| Statements.FunctionCallStatement.Run | cavs/midend/statement.h:112-116 | succeeds exactly when the push-argument statement and the global context are set (the pop-return statement may be NULL) and runs no operator |
| Statements.Rounds.IncRound | cavs/midend/statement.h:22 | the shared round counter grows by one |
| TopologyReader.IsNonEmptyMessage | apps/cortex/common.h:15-17 | accepts only a non-empty value, and every non-empty value without NUL characters |
| TopologyReader.NextInt | apps/cortex/common.h:65 | a successful extraction consumes at least one character and stays inside the line |
| TopologyReader.ParseFrom | apps/cortex/common.h:63-68 | the `>>` loop reads at most one integer per remaining character |
| TopologyReader.ParseInts | apps/cortex/common.h:63-68 | a line yields at most as many integers as it has characters |
| TopologyReader.Instances | apps/cortex/common.h:44-47 | every instance pairs one of the input lines with one of the graph lines |
| TopologyReader.InstancesOfLines | apps/cortex/common.h:44-47 | every instance has a non-empty input line, and each one consumes an input line and a graph line |
| TopologyReader.NextIntOfText | apps/cortex/common.h:65 | one `>>` extraction reads back the integer written as text and stops right after it |
| TopologyReader.NextIntAfterSpace | apps/cortex/common.h:65 | white space before a number does not change what is extracted |
| TopologyReader.ParseStep | apps/cortex/common.h:76-80 | while reading a known list, the extraction succeeds exactly while values remain and yields the next one |
| TopologyReader.ParseFromWritten | apps/cortex/common.h:64-68 | reading integers written one after another, each followed by a space, gives back exactly those integers |
| TopologyReader.ParseFormat | apps/cortex/common.h:62-70 | parsing a line formatted from a list of integers gives back that list (round trip) |
| TopologyReader.SeparatedWritten | apps/cortex/common.h:62-70 | a line of tokens joined by single spaces holds each token in turn, a space between two, nothing after the last |
| TopologyReader.ParseFromSeparated | apps/cortex/common.h:64-68 | reading integers written with single spaces between them and none after the last gives back exactly those integers |
| TopologyReader.ParseFormatSeparated | apps/cortex/common.h:62-70 | parsing a line of integers separated by single spaces, without a trailing space, gives back that list (round trip) |
| TopologyReader.LayoutLength | apps/cortex/common.h:49-53 | n instances at width w occupy exactly n * w slots |
| TopologyReader.LayoutAt | apps/cortex/common.h:49-53 | slot t of instance j holds the row's t-th value, or the padding past the row's end |
| TopologyReader.LaidAt | apps/cortex/common.h:32-55 | a buffer after storing n instances holds, at position p < n * w, row p / w's value p % w or padding, and padding beyond |
| TopologyReader.TotalLengthBound | apps/cortex/common.h:51 | the node count never exceeds the slots the batch occupies |
| TopologyReader.BatchOkRows | apps/cortex/common.h:50-54 | the per-instance checks hold for a batch exactly when every parsed parent row ends with -1 and every input row fits `maxLen` |
| TopologyReader.FillArray | apps/cortex/common.h:32-33 | every element of the buffer holds the fill value |
| TopologyReader.ProcessGraph | apps/cortex/common.h:73-83 | writes exactly the parsed parent indices from the offset on and nothing else; its check passes exactly when the last one is -1 |
| TopologyReader.ProcessData | apps/cortex/common.h:62-70 | writes exactly the parsed values, as floats, from the offset on and nothing else, returning their count |
| TopologyReader.StoreInstance | apps/cortex/common.h:46-55 | stores one instance in slot i and passes exactly when its parent array ends with -1 and its inputs fit; the layout and node count then extend by that row |
| TopologyReader.ReadInstances | apps/cortex/common.h:36-57 | skips empty input lines; passes exactly when every instance of the batch passes; then both buffers hold the padded layout of the batch and `num_nodes` the total parent-array length |
| TopologyReader.NextBatch | apps/cortex/common.h:31-58 | resets the buffers to 0 and -1, then has the outcome and layout of `ReadInstances` |
| TreeLstmReader.NextBatch | apps/cortex/nvtree-lstm.cc:37-62 | the same reading with this reader's limits 56 and 111: passes exactly when every instance passes, leaving the padded layout of the batch |
| BinaryTreeTopology.Pow2 | apps/cortex/nvtree-fc-syn.cc:48 | `1 << h` is a power of two and at least 1 |
| BinaryTreeTopology.Level | apps/cortex/2tree-mvrnn.cc:47-49 | one pass of the inner loop pushes `width` parents, all in base .. base + ceil(width / 2) - 1, and the siblings 2k and 2k + 1 share one parent |
| BinaryTreeTopology.Levels | apps/cortex/2tree-mvrnn.cc:45-50 | the loops push nothing exactly when the starting width is at most 1 |
| BinaryTreeTopology.LevelsAbove | apps/cortex/2tree-mvrnn.cc:45-50 | every parent pushed from the state (count, width) on is numbered at least count + width, past the nodes built so far |
| BinaryTreeTopology.OneTreeSpec | apps/cortex/2tree-mvrnn.cc:45-51 | the root's -1 is pushed last, and it is the only entry exactly when there is at most one leaf |
| BinaryTreeTopology.LevelsSizePow2 | apps/cortex/2tree-mvrnn.cc:45-50 | the loops push exactly 2w - 2 entries from width w exactly when w is a power of two |
| BinaryTreeTopology.OneTreeSize | apps/cortex/2tree-mvrnn.cc:45-52 | the size check passes exactly when the leaf count is a power of two |
| BinaryTreeTopology.SixLeavesFailCheck | apps/cortex/2tree-mvrnn.cc:52 | six leaves give ten entries, so the check fails |
| BinaryTreeTopology.OneTreeShape | apps/cortex/2tree-mvrnn.cc:45-51 | for n leaves, a power of two, node k < 2n-2 has parent n + k/2 and the last node, the root, has -1 |
| BinaryTreeTopology.ParentAfterChild | apps/cortex/2tree-mvrnn.cc:45-51 | every parent index lies after its child and inside the tree, so the array is a topological order ending in the root |
| BinaryTreeTopology.ChildrenOf | apps/cortex/2tree-mvrnn.cc:45-51 | every internal node p has exactly the two children 2(p-n) and 2(p-n)+1 |
| BinaryTreeTopology.LeavesAreChildless | apps/cortex/2tree-mvrnn.cc:45-51 | exactly the nodes 0 .. n-1 have no child |
| BinaryTreeTopology.BuildAppendsLevels | apps/cortex/2tree-mvrnn.cc:45-50 | running the outer loop from any state appends exactly the remaining levels |
| BinaryTreeTopology.OneTree | apps/cortex/2tree-mvrnn.cc:43-51 | the nested loops build exactly the specified parent array |
| BinaryTreeTopology.Replicated | apps/cortex/2tree-mvrnn.cc:55-57 | no copies for a batch of at most 0, and every entry of the batch is an entry of the tree |
| BinaryTreeTopology.ReplicatedLength | apps/cortex/2tree-mvrnn.cc:55-57 | n copies of the tree occupy n times its length |
| BinaryTreeTopology.ReplicatedAt | apps/cortex/2tree-mvrnn.cc:55-57 | entry k of copy b sits at b * size + k and equals the tree's entry k |
| BinaryTreeTopology.CopyInto | apps/cortex/2tree-mvrnn.cc:56 | the copied range holds the source and everything else is untouched |
| BinaryTreeTopology.BinaryTree | apps/cortex/2tree-mvrnn.cc:42-58 | fails, writing nothing, exactly when the leaf count is not a power of two; otherwise the first `batch` slots hold copies of the tree and the rest is untouched |
| BinaryTreeTopology.Clear | apps/cortex/2tree-mvrnn.cc:54 | after `clear()` the vector holds no element |
| BinaryTreeTopology.ClearLeavesNoRoom | apps/cortex/2tree-mvrnn.cc:54-56 | the first copy fits the buffer before `clear()` and not after it |
| FcSynTree.Leaves | apps/cortex/nvtree-fc-syn.cc:48 | the starting width `1 << height` is a power of two |
| FcSynTree.CheckAlwaysPasses | apps/cortex/nvtree-fc-syn.cc:55 | the size check holds for every height |
| FcSynTree.BinaryTree | apps/cortex/nvtree-fc-syn.cc:45-61 | always passes; the first `batch_size` slots hold copies of the tree of 2^height leaves and the rest is untouched |

## Left out

- File input: the readers take their files as sequences of lines. The rewind to the start of both files at end of file (common.h:37-42, nvtree-lstm.cc:41-46) is not modelled. `BatchAvailable` requires enough instances ahead instead.
- TopologyReader.NextBatch: the `MAX_DEPENDENCY >= length` check runs only after the row was written, so an over-long row writes past its slot first. The model requires every row to fit its slot. It also requires every graph line to hold at least one integer, because the root check reads `data[idx-1]`.
- TopologyReader.NextInt: extraction into a 32-bit `int` fails on out-of-range text. Here integers are unbounded. The conversion to `float` is exact here, including above 2^24.
- TopologyReader.NextBatch: the process aborts at a failed check. The model returns `ok == false` instead and makes no promise about the buffers then. The node count is likewise promised only when every check passes.
- FcSynTree.Leaves: `1 << FLAGS_height` is unbounded here; in the source it overflows a 32-bit `int` from height 31 on.
- BinaryTreeTopology.BinaryTree: the size arithmetic `2*FLAGS_tree-1` and `i*(2*FLAGS_tree-1)` is unbounded here, with no 32-bit overflow; the same holds for the offsets of FcSynTree.BinaryTree.
- BinaryTreeTopology.BinaryTree: it writes into the caller-sized buffer; it does not clear the vector first. See "Findings".
- The diagnostic output (the `[NODES]` line, the parent-array dump of nvtree-lstm.cc:86-92, `VLOG`, `debug_info`) is not modelled.
- The model uses no flags. `FLAGS_batch_size`, `FLAGS_batch`, `FLAGS_tree` and `FLAGS_height` are parameters.
- The CPU allocator's `malloc`/`free`/`memset` are modelled by a live set and a log of zero-fill requests. Allocation never fails: a NULL from `malloc` (allocator.cc:24, 62-67) is not modelled.
- Allocation.TrackingAllocator.Allocate: `n_elements*sizeof(T)` is `size_t` arithmetic and wraps modulo 2^64 in the source; here the product is unbounded.
- Allocation.TrackingAllocator.AllocateRaw: its invariant requires every traced buffer to be live in the wrapped allocator. The source does not enforce this: the CPU allocator is a shared global, and a traced buffer freed through it directly can come back from `malloc`. Recording it then overwrites its trace entry while `capacity_` still grows (`TotalOverwrite`). The model promises nothing once that has happened.
- The `CORTEX_MEM_PROF` counters and `get_max_mem_usage` are compiled out in the source and are not modelled.
- Tensor internals are not modelled: `Reshape`, element counts, data types, and `SetZeroInitEnforced` on stateful outputs. A tensor is its name, its buffer identifier and its shape. A fresh allocation is a buffer identifier that no tensor in the session views.
- Session.SessionBase.ResolveOutput: the source dereferences input 0 without a check. The model makes a sharing output fail when the node has no input.
- ExprStatement, GraphStatement and GraphGradStatement `Run` bodies: their operators are outside this model. An expression statement is recorded as one event naming its operator.
- Statements.BasicBlock.AppendStmt: the block's list holds statement values, not references. A statement changed after it was appended (a nested block that receives more statements, or a call statement set up later through its setters) runs in its changed form in the source; the model runs it as it was when appended.
- Statements.BasicBlock.constructor: the `iter > 0` check is a precondition, because a constructor has no failure outcome.
- Destructors and the freeing of statements and contexts are not modelled.

## Findings

| source | as written | input that shows it | evidently intended | confidence | as-written member | corrected member |
|---|---|---|---|---|---|---|
| apps/cortex/2tree-mvrnn.cc:54-57 (also apps/cortex/nvtree-fc-syn.cc:57-60) | `graph->clear()` empties the vector the caller sized as `batch * (2*tree-1)`; `std::copy` then writes to `graph->begin() + i*(2*tree-1)`, outside the now empty vector | `FLAGS_tree = 2`, `FLAGS_batch = 1`: the first copy of 3 entries goes to a vector of size 0 | copy the tree into each slot of the buffer the caller sized, without clearing it | not executed | BinaryTreeTopology.ClearLeavesNoRoom | BinaryTreeTopology.BinaryTree |
