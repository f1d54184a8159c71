# Storage inference for simit tensors

This project models simit's storage-inference pass and proves properties of
the model. For every tensor variable of a function, the pass picks how the
tensor is stored:

- **dense**;
- **diagonal**;
- **indexed**, a sparse matrix whose sparsity pattern is a tensor index. The
  index is shared by every matrix with the same path expression.

It also models the GPU back end's rewrite that wraps system-wide assignment
values in an identity index expression.

The model is organised like the source:

- `ir.dfy` (module `IR`): the slice of the IR the pass reads. This covers
  tensor types (order, element-local, system dimensions), variables,
  expressions whose leaves are variables, the statement kinds the pass
  visits, and the errors it can raise.
- `tensor_storage.dfy` (module `TensorStorages`): `TensorStorage`, its kind
  and optional `TensorIndex`, with the accessors of the C++ class.
- `var_order.dfy` (module `VarOrder`): the order in which a `std::map` or
  `std::set` of variables is traversed. Sorting a set of variables is a
  method, proved equal to a ghost specification.
- `storage.dfy` (module `StorageTable`): the class `Storage`, an ordered map
  that is updated in place by `add` (overwrites) and by `add(Storage)`
  (never overwrites, written as the in-order merge loop).
- `environment.dfy` (module `IndexTable`): the compilation unit's table of
  tensor indices, keyed by path expression.
- `inference_spec.dfy` (module `InferenceSpec`): the rules of
  `GetStorageVisitor` as functions over an `InferState`. The state is the
  storage table, the index table and the path expressions the builder has
  computed.
- `inference.dfy` (module `Inference`): the visitor as a class. Each `visit`
  method and `determineStorage` (with its priority loop) is proved to
  produce the state and outcome its rule prescribes.
- `fold_laws.dfy`, `rule_laws.dfy`, `traversal_laws.dfy`: the properties
  of the rules.
  - The priority fold picks the strongest kind among the right-hand side's
    variables, whatever order it visits them in.
  - Element tensors and vectors are sticky, while system matrices are
    re-derived at every assignment.
  - Edge-set assembly is proved both for its failure case and for what it
    stores.
  - No statement removes an entry, records the undefined kind, or replaces a
    cached index.
  - Inference over a function leaves every tensor parameter with storage.
- `system_assign.dfy` (module `SystemAssign`): the wrapping rewrite, its
  exact wrap conditions, the fact that it only wraps values, and its
  idempotence.

Two kinds of failure are modelled as an `Outcome.Fail` or `Result.Err`
value, and the traversal stops at the first one:

- internal defects (`iassert`, `ierror`);
- the user-facing `tassert` on sparse assemblies of order above 2
  (`UnsupportedSparseOrder`).

Some behaviours of the code are easy to miss, and the model keeps them:

- `storage.cpp` has no `FieldWrite` visit, so a field write leaves the
  storage unchanged.
- Scalars can receive storage. Both a plain-set `Map` and an external call
  give a scalar result dense storage (`ScalarsCanGetStorage`).
- An external call's matrix result is indexed but carries no index.
- A declaration, and the seeding of constants, arguments and results,
  give a non-scalar tensor dense storage even when it already has an entry
  (`VarDeclDefault`, `SeedLaw`).
- Which index a fused right-hand side builds in the index table depends on
  the order of its variables. The storage chosen does not
  (`FoldOrderFree`).
- The assignment rewrite consults only the value's system dimensions, not
  the orders.

## Model

| member | source | states |
|---|---|---|
| TensorStorages.Priority | src/storage.cpp:375-380 | priorities are at most 4, and 0 exactly for the undefined kind |
| TensorStorages.PriorityInjective | src/storage.cpp:375-380 | distinct kinds have distinct priorities, so the strongest kind is unique |
| TensorStorages.IsSystem | src/storage.cpp:44-55 | the result is an error exactly for the undefined kind; otherwise it is true exactly for diagonal and indexed |
| TensorStorages.IsDense | src/storage.cpp:40-42 | whether the kind is dense |
| TensorStorages.HasTensorIndex | src/storage.cpp:57-59 | whether the storage carries a defined index |
| TensorStorages.SystemIsNotDense | src/storage.cpp:40-55 | for a defined kind, `isSystem` is the negation of `isDense` |
| TensorStorages.GetTensorIndex | src/storage.cpp:57-66 | the index is returned exactly when the kind is indexed and the index is defined; otherwise it is an internal defect |
| TensorStorages.SetTensorIndex | src/storage.cpp:68-70 | keeps the kind and installs a defined index named after the tensor, with a path expression not yet computed |
| VarOrder.SortVars | src/storage.cpp:91-93 | returns the set's variables in the map's iteration order |
| VarOrder.OrderedElements | src/storage.cpp:360-369 | the ordered sequence holds exactly the set's elements, each once |
| VarOrder.OrderedIsSorted | src/storage.cpp:360-369 | the ordered sequence is strictly ascending |
| VarOrder.SortedIsOrdered | src/storage.cpp:360-369 | any strictly ascending sequence with the set's elements is the ordered sequence, so the order is unique |
| StorageTable.MergeNeverOverwrites | src/storage.cpp:102-108 | merged keys are the union of both tables; old keys keep their entry, and new keys take the other table's |
| StorageTable.Storage.HasStorage | src/storage.cpp:110-112 | whether the variable has an entry |
| StorageTable.Storage.KeysInOrder | src/storage.cpp:124-176 | iteration visits exactly the variables with storage, once each, in ascending order |
| StorageTable.Storage.GetStorage | src/storage.cpp:110-118 | returns the entry exactly when the variable has storage; otherwise it is a missing-storage defect |
| StorageTable.Storage.Add | src/storage.cpp:98-100 | overwrites the entry of the variable and keeps all others; afterwards `getStorage` returns the new storage |
| StorageTable.Storage.AddAll | src/storage.cpp:102-108 | the new table is the non-overwriting merge of the old one with the other table |
| StorageTable.Storage.AddMissing | src/storage.cpp:103-107 | the in-order loop adds exactly the absent entries, giving the merge |
| IndexTable.Environment.AddTensorIndex | src/storage.cpp:218-219 | adds an index, for a path expression that has none, named after the seed variable |
| InferenceSpec.FoldLeaves | src/storage.cpp:382-412 | the priority fold over the leaves in order: a stronger non-scalar leaf replaces the running storage, a sparse winner takes the target's index, and an unstored leaf is a defect (its properties are the `FoldLaws` rows) |
| InferenceSpec.Determine | src/storage.cpp:341-418 | `determineStorage` as a rule over the state (its properties are `RuleLaws.DetermineFrame` and `DetermineSystemMatrix`) |
| InferenceSpec.VarDeclRule | src/storage.cpp:225-232 | the declaration rule (its property is `RuleLaws.VarDeclDefault`) |
| InferenceSpec.AssignRule | src/storage.cpp:234-260 | the assignment rule (its properties are `RuleLaws.AssignSticky` and `AssignOverwrites`) |
| InferenceSpec.TensorWriteRule | src/storage.cpp:262-270 | the tensor-write rule (its property is `RuleLaws.TensorWriteDefault`) |
| InferenceSpec.CallRule | src/storage.cpp:272-287 | the call rule (its properties are `RuleLaws.CallResultsLaw` and `TraversalLaws.CallGrows`) |
| InferenceSpec.MapRule | src/storage.cpp:289-339 | the assembly rule (its properties are `RuleLaws.PlainSetLaw` and the `EdgeSet` lemmas) |
| InferenceSpec.VisitStmt | src/storage.cpp:206-208 | one statement dispatched to its rule (its property is `TraversalLaws.VisitGrows`) |
| InferenceSpec.Infer | src/storage.cpp:184-204 | seeding, then the body (its property is `TraversalLaws.InferCovers`) |
| InferenceSpec.GetOrCreate | src/storage.cpp:215-221 | afterwards the table holds an index for the variable's path expression, and that index is the result; an existing index is returned unchanged, otherwise a fresh one is added |
| Inference.StorageInference.GetTensorIndex | src/storage.cpp:215-221 | the visitor's get-or-create equals `GetOrCreate` on its state |
| Inference.StorageInference.DetermineStorage | src/storage.cpp:341-418 | the priority loop and the final add leave the state and outcome of the `determineStorage` rule |
| Inference.StorageInference.VisitVarDecl | src/storage.cpp:225-232 | a declared non-scalar tensor gets the default rule |
| Inference.StorageInference.VisitAssign | src/storage.cpp:234-260 | equals the assignment rule: sticky for element tensors and vectors; a path expression and re-derivation for system matrices |
| Inference.StorageInference.VisitTensorWrite | src/storage.cpp:262-270 | a written tensor variable without storage gets the default rule |
| Inference.StorageInference.VisitCall | src/storage.cpp:272-287 | the loop over an external call's results stores each tensor result as the call rule says |
| Inference.StorageInference.VisitMap | src/storage.cpp:289-339 | both assembly loops (plain set, edge set) equal the map rule, including the unsupported-order failure |
| Inference.StorageInference.Visit | src/storage.cpp:206-208 | one statement is visited as `VisitStmt` prescribes |
| Inference.StorageInference.VisitAll | src/storage.cpp:206-208 | a statement sequence is visited in order, stopping at the first failure |
| Inference.StorageInference.SeedAll | src/storage.cpp:185-201 | each tensor constant, argument or result gets the default rule |
| Inference.StorageInference.Get | src/storage.cpp:184-204 | seeds constants, arguments and results, then visits the body, as `Infer` prescribes |
| Inference.UpdateStorage | src/storage.cpp:421-423 | a fresh visitor leaves the storage table, the index table and the outcome of `Infer` |
| Inference.UpdateStorageOfStmt | src/storage.cpp:425-427 | the same for a single statement |
| FoldLaws.FoldFrame | src/storage.cpp:382-412 | the fold leaves storage and path expressions alone and only adds indices, each keyed by its own path expression |
| FoldLaws.FoldPassIff | src/storage.cpp:382-394 | the fold succeeds iff every non-scalar leaf has storage; a failure names such a leaf |
| FoldLaws.FoldChoice | src/storage.cpp:395-411 | the running kind only rises in priority and comes from a leaf; a sparse winner carries the target's get-or-create index |
| FoldLaws.FoldBound | src/storage.cpp:395-411 | after success, no leaf's kind outranks the result |
| FoldLaws.FoldOrderFree | src/storage.cpp:360-412 | any two visiting orders of the same leaves agree on success and on the chosen storage |
| RuleLaws.DetermineFrame | src/storage.cpp:341-418 | only `v`'s entry changes and never to undefined; scalars are untouched; element tensors, vectors and missing right-hand sides give dense; failures are internal defects |
| RuleLaws.DetermineSystemMatrix | src/storage.cpp:357-417 | it succeeds iff all non-scalar leaves are stored; it then records the strongest leaf storage (sparse with `v`'s own index), or nothing if no leaf is a tensor |
| RuleLaws.DetermineAnyOrder | src/storage.cpp:360-417 | folding the leaves in any order with the same elements gives the same verdict and stored entry |
| RuleLaws.AssignSticky | src/storage.cpp:244-248 | an element tensor or vector gets dense only when absent; otherwise the state is unchanged |
| RuleLaws.AssignOverwrites | src/storage.cpp:250-258 | a system matrix's entry is replaced by the strongest leaf storage; a fused value records `v`'s path expression |
| RuleLaws.VarDeclDefault | src/storage.cpp:225-232 | a declared non-scalar tensor gets dense storage, replacing any entry it had |
| RuleLaws.TensorWriteDefault | src/storage.cpp:262-270 | only a non-scalar tensor variable without storage changes, to dense |
| RuleLaws.CallResultsLaw | src/storage.cpp:276-285 | each tensor result gets the storage its type dictates; every other entry is kept |
| RuleLaws.ExternalMatrixHasNoIndex | src/storage.cpp:281-282 | an external matrix result spans the system, yet asking for its index is a defect |
| RuleLaws.PlainSetLaw | src/storage.cpp:294-305 | every result is stored dense below order 2 and diagonal otherwise; a non-tensor result is a defect; other entries are kept |
| RuleLaws.AssembledFrame | src/storage.cpp:310-336 | assembling one result changes only its own entry, never to undefined, and only adds indices |
| RuleLaws.EdgeSetIndices | src/storage.cpp:307-338 | edge-set assembly keeps path expressions and only adds keyed indices |
| RuleLaws.EdgeSetEntries | src/storage.cpp:307-338 | only the non-scalar tensor results' entries change, never to undefined |
| RuleLaws.EdgeSetOutcome | src/storage.cpp:318-331 | it fails iff neighbours are expanded and some tensor result has order above 2, with the user-facing error |
| RuleLaws.AssembledStores | src/storage.cpp:310-336 | one successful assembled result gets its order- and neighbour-determined kind |
| RuleLaws.EdgeSetStores | src/storage.cpp:310-336 | after success every tensor result is dense (vector), diagonal (no neighbours) or sparse with its path's index |
| RuleLaws.SeedLaw | src/storage.cpp:185-201 | seeding never fails and gives each tensor parameter dense storage, keeping other entries |
| TraversalLaws.DetermineGrows | src/storage.cpp:341-418 | `determineStorage` preserves `Grows`, and its failures are internal defects |
| TraversalLaws.AssignGrows | src/storage.cpp:234-260 | assignments preserve `Grows`, and their failures are internal defects |
| TraversalLaws.CallGrows | src/storage.cpp:272-287 | calls preserve `Grows` and never fail |
| TraversalLaws.MapGrows | src/storage.cpp:289-339 | assemblies preserve `Grows`; their only user-facing failure is order above 2 |
| TraversalLaws.VisitGrows | src/storage.cpp:206-208 | every statement preserves `Grows` (no entry lost, no undefined kind, no index replaced) |
| TraversalLaws.VisitSeqGrows | src/storage.cpp:206-208 | the same for statement sequences |
| TraversalLaws.InferCovers | src/storage.cpp:184-204 | inference preserves `Grows` and on success stores every non-scalar tensor constant, argument and result |
| TraversalLaws.UnfusedShareEmptyPathIndex | src/storage.cpp:250-258 | with `A` sparse, `C = A` then `E = A` give `C` and `E` one index, that of the empty path expression, named after `C` |
| TraversalLaws.ReassignedMatrix | src/storage.cpp:250-258 | `C = A + B` with A dense and B sparse makes C dense; a later `C = D` with D diagonal makes it diagonal |
| TraversalLaws.EdgeSetAssembly | src/storage.cpp:307-338 | an edge-set assembly with neighbours gives a vector dense and a matrix sparse storage with a fresh index for its path |
| TraversalLaws.ElementSetAssembly | src/storage.cpp:294-305 | a plain-set assembly gives a matrix diagonal storage even with neighbours |
| TraversalLaws.ScalarsCanGetStorage | src/storage.cpp:276-305 | a scalar result of a plain-set assembly or of an external call gets dense storage |
| TraversalLaws.SharedPathSharedIndex | src/storage.cpp:215-221 | two variables with one path expression get the same index, and the second lookup changes nothing |
| IR.LeafVars | src/storage.cpp:360-369 | the variables at the leaves of an expression |
| IR.LeafVarsOf | src/storage.cpp:360-369 | the variables at the leaves of a sequence of expressions |
| SystemAssign.FieldWriteWraps | src/backend/gpu/rewrite_system_assign.cpp:16-21 | whether a field write must be wrapped; a non-tensor type is a defect (its property is `FieldWriteRule`) |
| SystemAssign.AssignWraps | src/backend/gpu/rewrite_system_assign.cpp:32-34 | whether an assignment must be wrapped; a non-tensor value is a defect (its property is `AssignRule`) |
| SystemAssign.RewriteStmt | src/backend/gpu/rewrite_system_assign.cpp:15-41 | the rewrite of one statement, nested statements included (its properties are the rows below) |
| SystemAssign.RewriteAll | src/backend/gpu/rewrite_system_assign.cpp:15-41 | the rewrite of a statement sequence, failing at the first defect |
| SystemAssign.RewriteSystemAssigns | src/backend/gpu/rewrite_system_assign.cpp:44-46 | the rewrite of a function body |
| SystemAssign.Identity | src/backend/gpu/rewrite_system_assign.cpp:22-23 | the wrapper is an index expression of the value's type over the same variables |
| SystemAssign.FieldWriteRule | src/backend/gpu/rewrite_system_assign.cpp:15-29 | a field write is wrapped exactly when the value is not an index expression, the orders agree and the field spans the system; non-tensor types are a defect |
| SystemAssign.AssignRule | src/backend/gpu/rewrite_system_assign.cpp:31-41 | an assignment is wrapped exactly when the value is not an index expression and its type spans the system |
| SystemAssign.RewriteWrapsOnly | src/backend/gpu/rewrite_system_assign.cpp:9-41 | the rewrite changes only field-write and assignment values, by wrapping them |
| SystemAssign.RewriteAllWrapsOnly | src/backend/gpu/rewrite_system_assign.cpp:9-41 | the same, element by element, for statement sequences |
| SystemAssign.RewriteCanonical | src/backend/gpu/rewrite_system_assign.cpp:15-41 | an accepted statement comes out canonical at every depth: no system-spanning field write or assignment keeps a value that is not an index expression |
| SystemAssign.RewriteAllCanonical | src/backend/gpu/rewrite_system_assign.cpp:15-41 | the same for every element of a statement sequence |
| SystemAssign.CanonicalUnchanged | src/backend/gpu/rewrite_system_assign.cpp:16-40 | an accepted canonical statement is left exactly as it is |
| SystemAssign.CanonicalAllUnchanged | src/backend/gpu/rewrite_system_assign.cpp:16-40 | the same for statement sequences |
| SystemAssign.FuncRewriteCanonical | src/backend/gpu/rewrite_system_assign.cpp:44-46 | after `rewriteSystemAssigns` the function body is canonical |
| SystemAssign.RewriteIdempotent | src/backend/gpu/rewrite_system_assign.cpp:16-40 | rewriting an accepted statement twice equals rewriting it once |
| SystemAssign.RewriteAllIdempotent | src/backend/gpu/rewrite_system_assign.cpp:16-40 | the same for statement sequences |
| SystemAssign.FuncRewriteIdempotent | src/backend/gpu/rewrite_system_assign.cpp:44-46 | `rewriteSystemAssigns` is idempotent on functions |

## Left out

- Printing of storages and tables (`src/storage.cpp:72-88`, `153-164`), because it is output formatting only.
- The heap-allocated iterator of `Storage`, because it is memory plumbing. Iteration is the ghost sequence `Storage.Keys`.
- The path-expression builder, which is foreign code.
  - It is a function `derive` from what a variable was computed from (an assignment's value, or an assembly's target set and neighbour flag) to a path expression.
  - A variable the builder never saw has the empty path expression. So every system matrix assigned an unfused value whose strongest variable is sparse shares the one index of the empty path expression (`UnfusedShareEmptyPathIndex`). The index of "`v`'s own path expression" in `DetermineSystemMatrix` is that shared index then.
  - The builder's result depends only on the statement it analyses, not on what it computed before. The stateful builder may take earlier results for the operands of a fused value into account, and that history is not modelled.
  - The dead local `pexpr` in the assignment visit is not modelled; only the builder's side effect is.
- `IRBuilder::unaryElwiseExpr` and `getFieldType`, which are foreign code.
  - The wrapper is an index expression over the value.
  - Field types are a function parameter of the rewrite.
- The index table (`Environment`) is foreign code. Only its three operations are modelled, with the contract the pass relies on.
- `src/visualizer/visualizer.h`, because it holds drawing declarations and no logic.
- Variable identity: a `Var` is its identifier and type, not a pointer to shared content. The `std::map` order on variables is modelled as the order on (identifier, type code).
- `TensorStorage` content sharing between copies. Storages are values, so an alias updated through `setTensorIndex` is not captured. The pass never calls `setTensorIndex`.
- The generic `IRVisitor` and `IRRewriter` dispatch.
  - Compound statements are a `Block` of statements, visited in order.
  - Every statement kind the pass does not handle is one `OtherStmt` no-op.
  - Expressions nested inside statements are not traversed for further statements.
- The internal check that a `Map` target is a set, because every `Map` in the model targets a set.
- The element-type check (`isElementTensorType`) and the system-dimension analysis, which are represented by the `elementLocal` and `systemDims` flags of a tensor type.
- Exceptions: the user-facing `tassert` of an edge-set assembly is a `Fail` outcome that stops the traversal, not a thrown exception. The index built just before it stays in the table, as in the code.
