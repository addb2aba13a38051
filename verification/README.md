# Proof catalogue and proof queries of arrow-meta's proofs plugin

This project models, in Dafny, the core of arrow-meta's proofs plugin,
`compiler-plugin/src/main/kotlin/arrow/meta/plugins/proofs/phases/Proofs.kt`:

- the sealed **`Proof`** hierarchy (`GivenProof`, the sealed `ExtensionProof`
  with `CoercionProof` and `ProjectionProof`, and `RefinementProof`), its
  exhaustive `fold`, the witness resolver `underliyingFunctionDescriptor`
  and the annotation test `isProof` (module `Proofs`, file `proofs.dfy`);
- the **queries** `extensionProofs`, `extensionProof`, `givenProofs`,
  `coerceProofs`, `coerceProof`, `extending` and `areTypesCoerced`
  (module `ProofQueries`, file `queries.dfy`);
- the catalogue accessor **`ModuleDescriptor.proofs`** over the
  process-wide proof cache (module `ModuleProofs`, file `cache.dfy`, class
  `ProofCache`).

`wrappers.dfy` holds `Option` (Kotlin's `null`), `Result` (a thrown
exception) and `firstOrNull`; `subsequences.dfy` defines what a stable filter
keeps of a list.

The compiler's own entities are abstract. `KotlinType` is the type
parameter `Ty` and `FunctionDescriptor` is `Fn`. A
`CallableMemberDescriptor` is the datatype `Callable`, which tells apart only
what witness resolution needs: a function, a property with an optional
getter, a class with an optional primary constructor, or anything else. The
unification matcher `matchingCandidates`, the baseline subtype check and
`nullableAnyType` are function values in `CompilerContext`. Nothing is
assumed about them. The lemmas whose names end in `Ordered…` and
`NoCoercionNeverCoerces` state a hypothesis (`MatcherIsStableFilter`): the
matcher returns a stable sub-sequence of the list it is given.

Every query in the Kotlin code reads `module.proofs`. In the model, the
query functions take that catalogue as the parameter `catalogue`, and
`ProofCache.Proofs` models how it is obtained.

Observations from the code:

- `RefinementProof` extends `Proof`, not `ExtensionProof` (Proofs.kt:85-90).
  So a refinement never reaches `extensionProofs`, `coerceProofs` or
  `areTypesCoerced`, even though its `coerce` flag defaults to true.
  `RefinementNeverReachesExtensionLookups` and `CoerceProofsIgnoreNonCoercions`
  state this.
- `RefinementProof.coerce` is a constructor parameter with default `true`,
  not a constant: a refinement may be built with `coerce = false`. Only
  `CoercionProof` (true) and `ProjectionProof` (false) fix the flag.
- Witness resolution fails with `TODO` for a property without a getter and
  for any declaration that is not a function, property or class. A class
  without a primary constructor is not a failure: it yields `null`.
- `ModuleDescriptor.proofs` catches only `RuntimeException`. Any other
  `Throwable` from the initialisation propagates, including the
  `NotImplementedError` that `TODO` throws. The model keeps this path.
- The file has no single-result given lookup; only `givenProofs` exists.

## Model

| member | source | states |
|---|---|---|
| `Proofs.WitnessOf` | compiler-plugin/src/main/kotlin/arrow/meta/plugins/proofs/phases/Proofs.kt:39-45 | Resolution fails (`TODO`, naming the declaration) exactly for a property without a getter or a declaration of another kind. It yields `null` exactly for a class without a primary constructor. Any function it yields is one the declaration provides: itself, its getter or its primary constructor. |
| `Proofs.ExtensionWitnessIsItsFunction` | compiler-plugin/src/main/kotlin/arrow/meta/plugins/proofs/phases/Proofs.kt:66-83 | An extension proof's witness always resolves to its own `through` function. A failing resolution can only come from a given or a refinement not declared through a function. |
| `Proofs.IsProof` | compiler-plugin/src/main/kotlin/arrow/meta/plugins/proofs/phases/Proofs.kt:92-93 | A declaration is a proof iff it carries `arrow.Extension`, `arrow.Given`, `arrow.Coercion` or `arrow.Refinement`. |
| `Proofs.ArrowProofSetHasFourNames` | compiler-plugin/src/main/kotlin/arrow/meta/plugins/proofs/phases/Proofs.kt:22-32 | The proof annotation set holds four distinct names. |
| `Proofs.FoldUsesOnlyOwnHandler` | compiler-plugin/src/main/kotlin/arrow/meta/plugins/proofs/phases/Proofs.kt:47-58 | `fold` sends each of the four variants to its own handler. Its result does not depend on the other three handlers. |
| `Proofs.FoldWithConstructorsIsIdentity` | compiler-plugin/src/main/kotlin/arrow/meta/plugins/proofs/phases/Proofs.kt:47-58 | Folding with the four variant constructors rebuilds the proof, so no variant is lost or merged. |
| `Proofs.CoerceFlags` | compiler-plugin/src/main/kotlin/arrow/meta/plugins/proofs/phases/Proofs.kt:66-90 | A `CoercionProof` always coerces and a `ProjectionProof` never does. An extension proof coerces iff it is a coercion. A `RefinementProof` coerces by default. |
| `ProofQueries.ExtensionsOf` | compiler-plugin/src/main/kotlin/arrow/meta/plugins/proofs/phases/Proofs.kt:108-110 | `filterIsInstance<ExtensionProof>()` yields a stable sub-sequence of the catalogue. |
| `ProofQueries.ExtensionsOfKeepsExactlyExtensions` | compiler-plugin/src/main/kotlin/arrow/meta/plugins/proofs/phases/Proofs.kt:108-110 | The list `extensionProofs` hands to the matcher holds each coercion and projection of the catalogue exactly as often as it occurs there, and nothing else. |
| `ProofQueries.ExtensionProofsIgnoreNonExtensions` | compiler-plugin/src/main/kotlin/arrow/meta/plugins/proofs/phases/Proofs.kt:108-110 | Inserting a given or a refinement anywhere in the catalogue never changes `extensionProofs`. |
| `ProofQueries.ExtensionProofsAreOrderedExtensions` | compiler-plugin/src/main/kotlin/arrow/meta/plugins/proofs/phases/Proofs.kt:108-110 | With a filtering matcher, `extensionProofs` returns extension proofs of the catalogue, in catalogue order. |
| `ProofQueries.GivensOf` | compiler-plugin/src/main/kotlin/arrow/meta/plugins/proofs/phases/Proofs.kt:112-114 | `filterIsInstance<GivenProof>()` yields a stable sub-sequence of the catalogue. |
| `ProofQueries.GivensOfKeepsExactlyGivens` | compiler-plugin/src/main/kotlin/arrow/meta/plugins/proofs/phases/Proofs.kt:112-114 | The list `givenProofs` hands to the matcher holds each given of the catalogue exactly as often as it occurs there, and nothing else. |
| `ProofQueries.GivenProofsIgnoreNonGivens` | compiler-plugin/src/main/kotlin/arrow/meta/plugins/proofs/phases/Proofs.kt:112-114 | Inserting any non-given proof anywhere in the catalogue never changes `givenProofs`. |
| `ProofQueries.CoercingOnly` | compiler-plugin/src/main/kotlin/arrow/meta/plugins/proofs/phases/Proofs.kt:122 | `filter { it.coerce }` yields a stable sub-sequence whose every entry coerces. |
| `ProofQueries.CoercingOnlyKeepsExactlyCoercions` | compiler-plugin/src/main/kotlin/arrow/meta/plugins/proofs/phases/Proofs.kt:122 | `filter { it.coerce }` keeps each coercing entry as often as it occurs, and drops every other entry. |
| `ProofQueries.CoerceCandidates` | compiler-plugin/src/main/kotlin/arrow/meta/plugins/proofs/phases/Proofs.kt:119-123 | The list `coerceProofs` hands to the matcher holds only `CoercionProof`s and is a stable sub-sequence of the catalogue. |
| `ProofQueries.CoerceCandidatesAreExactlyCoercions` | compiler-plugin/src/main/kotlin/arrow/meta/plugins/proofs/phases/Proofs.kt:119-123 | That list holds each `CoercionProof` of the catalogue exactly as often as it occurs there, in order. No projection, given or refinement is in it. |
| `ProofQueries.CoerceProofsIgnoreNonCoercions` | compiler-plugin/src/main/kotlin/arrow/meta/plugins/proofs/phases/Proofs.kt:119-123 | Inserting a projection, given or refinement anywhere never changes `coerceProofs`. Inserting a coercion adds one candidate. |
| `ProofQueries.CoerceProofsAreOrderedCoercions` | compiler-plugin/src/main/kotlin/arrow/meta/plugins/proofs/phases/Proofs.kt:119-123 | With a filtering matcher, `coerceProofs` returns only coercions of the catalogue, in catalogue order, and never a projection. |
| `ProofQueries.RefinementNeverReachesExtensionLookups` | compiler-plugin/src/main/kotlin/arrow/meta/plugins/proofs/phases/Proofs.kt:85-90 | A refinement, whatever its `coerce` flag, is handed to neither the extension nor the coercion matcher. |
| `ProofQueries.ScenarioCandidates` | compiler-plugin/src/main/kotlin/arrow/meta/plugins/proofs/phases/Proofs.kt:108-123 | For the catalogue `[CoercionProof(Int, String, f), GivenProof(Config, g)]`, the extension and coercion lookups receive just the coercion, and the given lookup receives just the given. |
| `ProofQueries.ExtensionProofOf` | compiler-plugin/src/main/kotlin/arrow/meta/plugins/proofs/phases/Proofs.kt:105-106 | `extensionProof` is `null` exactly when `extensionProofs` is empty, and otherwise its head. |
| `ProofQueries.CoerceProof` | compiler-plugin/src/main/kotlin/arrow/meta/plugins/proofs/phases/Proofs.kt:116-117 | `coerceProof` is `null` exactly when `coerceProofs` is empty, and otherwise its head. |
| `ProofQueries.ExtendingConcat` | compiler-plugin/src/main/kotlin/arrow/meta/plugins/proofs/phases/Proofs.kt:95-96 | `extending` distributes over the list of types: one block of proofs per type, in the order of the types. |
| `ProofQueries.ExtendingMembers` | compiler-plugin/src/main/kotlin/arrow/meta/plugins/proofs/phases/Proofs.kt:95-96 | A proof is in `extending(types)` iff it is among the extension proofs from some listed type to that type's nullable top type. |
| `ProofQueries.AreTypesCoerced` | compiler-plugin/src/main/kotlin/arrow/meta/plugins/proofs/phases/Proofs.kt:125-134 | If the baseline check reports a subtype, the answer is false. Otherwise the answer is true iff some coercion proof matches. |
| `ProofQueries.AreTypesCoercedShortCircuits` | compiler-plugin/src/main/kotlin/arrow/meta/plugins/proofs/phases/Proofs.kt:125-134 | When the baseline check reports a subtype, `areTypesCoerced` is false whatever the catalogue and matcher: proofs are not consulted. |
| `ProofQueries.NoCoercionNeverCoerces` | compiler-plugin/src/main/kotlin/arrow/meta/plugins/proofs/phases/Proofs.kt:119-134 | With a filtering matcher, a catalogue without a `CoercionProof` never coerces two types. This includes a catalogue of projections and refinements. |
| `ModuleProofs.ProofCache.Proofs` | compiler-plugin/src/main/kotlin/arrow/meta/plugins/proofs/phases/Proofs.kt:136-151 | A non-`Impl` module gets the empty catalogue. A cached entry is returned as is, and the initialisation is not consulted. Without an entry, the initialisation's catalogue is returned, and `null` or a `RuntimeException` gives empty. Only a non-`RuntimeException` `Throwable` propagates, unchanged. |

## Left out

- `matchingCandidates` (the unification of declared and queried types) is
  defined outside Proofs.kt. It is an arbitrary function in
  `CompilerContext`, and nothing is promised about its output.
- `baseLineTypeChecker.isSubtypeOf` and `nullableAnyType` are compiler
  services. They are arbitrary functions in `CompilerContext`.
- `Proof.callables` (Proofs.kt:98-103) walks the compiler's member-scope API
  and has no local logic to state.
- `hasAnnotation` is the compiler's annotation lookup. `isProof` takes it as
  a predicate on names.
- `initializeProofCache` is not part of this model, and neither are how and
  when it fills the cache, thread safety or single-build behaviour. The
  cache's entries are whatever that code left, given to the constructor.
- The `cli {}` platform guard is modelled only as "may yield `null`". The
  `println`/`printStackTrace` logging in the `catch` is left out.
- `AreTypesCoerced`: the catalogue is an argument here, not a read of
  `module.proofs`. That skipping the lookup also skips the cache access,
  the initialisation and any `Throwable` it propagates is stated only as
  independence from the catalogue and the matcher.
- `ExtensionProofOf`, `CoerceProof`, `ExtensionsOf`, `GivensOf`,
  `CoerceCandidates`: these take the catalogue as a value, so a `Throwable`
  propagated by `module.proofs` during a query is not threaded through the
  query results. `ProofCache.Proofs` models that path.
- `Extending`: Kotlin's `Collection<KotlinType>` is a sequence here, so its
  iteration order is the sequence order.
- The `to` type of a proof and the `from` type of an extension are abstract.
  No structure of `KotlinType` (type arguments, nullability) is modelled.
