/**
 * The proof data model of arrow-meta's proofs plugin: the sealed `Proof`
 * hierarchy, its exhaustive `fold`, the witness a proof is called through,
 * and the annotation test that marks a declaration as a proof.
 *
 * The compiler's own entities stay abstract: `Ty` stands for `KotlinType`
 * and `Fn` for `FunctionDescriptor` (functions, property getters and class
 * constructors alike).
 */
module Proofs {
  import opened Wrappers

  /** Fully qualified annotation names, such as `arrow.Given`. */
  type FqName = string

  const ArrowExtensionProof: FqName := "arrow.Extension"
  const ArrowGivenProof: FqName := "arrow.Given"
  const ArrowCoercionProof: FqName := "arrow.Coercion"
  const ArrowRefinementProof: FqName := "arrow.Refinement"

  /** The four annotations that make a declaration a proof. */
  const ArrowProofSet: set<FqName> :=
    {ArrowExtensionProof, ArrowGivenProof, ArrowCoercionProof, ArrowRefinementProof}

  /**
   * A `CallableMemberDescriptor`, seen only through the kinds that witness
   * resolution tells apart: a function, a property (with its getter, if any),
   * a class (with its primary constructor, if any) or anything else.
   */
  datatype Callable<Fn> =
    | FunctionDescriptor(descriptor: Fn)
    | PropertyDescriptor(getter: Option<Fn>)
    | ClassDescriptor(primaryConstructor: Option<Fn>)
    | OtherDescriptor

  /** A `TODO(...)`: the `NotImplementedError` thrown for an unsupported witness. */
  datatype NotImplemented<Fn> = Unsupported(callable: Callable<Fn>)

  /** `GivenProof`: a value of type `to` can be conjured through `through`. */
  datatype GivenProof<Ty, Fn> = GivenProof(to: Ty, through: Callable<Fn>)

  /** `CoercionProof`: an implicit conversion from `from` to `to`. */
  datatype CoercionProof<Ty, Fn> = CoercionProof(from: Ty, to: Ty, through: Fn)

  /** `ProjectionProof`: the members of `to` become visible on a `from`. */
  datatype ProjectionProof<Ty, Fn> = ProjectionProof(from: Ty, to: Ty, through: Fn)

  /**
   * `RefinementProof`. Its `coerce` flag is a constructor parameter that
   * defaults to true, not a constant of the class.
   */
  datatype RefinementProof<Ty, Fn> =
    RefinementProof(from: Ty, to: Ty, through: Callable<Fn>, coerce: bool := true)

  /** The sealed `ExtensionProof`: exactly the coercions and the projections. */
  datatype ExtensionProof<Ty, Fn> =
    | Coercion(coercion: CoercionProof<Ty, Fn>)
    | Projection(projection: ProjectionProof<Ty, Fn>)
  {
    function From(): Ty {
      match this
      case Coercion(c) => c.from
      case Projection(p) => p.from
    }

    function To(): Ty {
      match this
      case Coercion(c) => c.to
      case Projection(p) => p.to
    }

    function Through(): Fn {
      match this
      case Coercion(c) => c.through
      case Projection(p) => p.through
    }

    /** The `coerce` flag each subclass passes to `ExtensionProof`'s constructor. */
    predicate Coerce() {
      match this
      case Coercion(_) => true
      case Projection(_) => false
    }
  }

  /**
   * The sealed `Proof`: a given, an extension (coercion or projection) or a
   * refinement. A refinement is a `Proof` but not an `ExtensionProof`.
   */
  datatype Proof<Ty, Fn> =
    | Given(given: GivenProof<Ty, Fn>)
    | Extension(extension: ExtensionProof<Ty, Fn>)
    | Refinement(refinement: RefinementProof<Ty, Fn>)
  {
    function To(): Ty {
      match this
      case Given(g) => g.to
      case Extension(e) => e.To()
      case Refinement(r) => r.to
    }

    /** The declaration behind the proof; an extension's is always a function. */
    function Through(): Callable<Fn> {
      match this
      case Given(g) => g.through
      case Extension(e) => FunctionDescriptor(e.Through())
      case Refinement(r) => r.through
    }

    /** `fold`: exhaustive dispatch to one handler per variant, with no default case. */
    function Fold<A>(
      given: GivenProof<Ty, Fn> -> A,
      coercion: CoercionProof<Ty, Fn> -> A,
      projection: ProjectionProof<Ty, Fn> -> A,
      refinement: RefinementProof<Ty, Fn> -> A): A
    {
      match this
      case Given(g) => given(g)
      case Extension(Coercion(c)) => coercion(c)
      case Extension(Projection(p)) => projection(p)
      case Refinement(r) => refinement(r)
    }

    /** `underliyingFunctionDescriptor` of this proof. */
    function UnderlyingFunctionDescriptor(): Result<Option<Fn>, NotImplemented<Fn>> {
      WitnessOf(Through())
    }
  }

  /** `f` is one of the functions the declaration `c` directly provides. */
  ghost predicate Provides<Fn>(c: Callable<Fn>, f: Fn) {
    || c == FunctionDescriptor(f)
    || c == PropertyDescriptor(Some(f))
    || c == ClassDescriptor(Some(f))
  }

  /**
   * The `when` behind `underliyingFunctionDescriptor`: a function is its own
   * witness, a property is called through its getter, a class through its
   * primary constructor (which may be absent: `null`); a property without a
   * getter and any other declaration fail with `TODO`.
   */
  function WitnessOf<Fn>(c: Callable<Fn>): (r: Result<Option<Fn>, NotImplemented<Fn>>)
    ensures r.Failure? <==> c.OtherDescriptor? || c == PropertyDescriptor(None)
    ensures r.Failure? ==> r.error == Unsupported(c)
    ensures r == Success(None) <==> c == ClassDescriptor(None)
    ensures r.Success? && r.value.Some? ==> Provides(c, r.value.value)
  {
    match c
    case FunctionDescriptor(f) => Success(Some(f))
    case PropertyDescriptor(getter) =>
      if getter.Some? then Success(getter) else Failure(Unsupported(c))
    case ClassDescriptor(ctor) => Success(ctor)
    case OtherDescriptor => Failure(Unsupported(c))
  }

  /**
   * `isProof`: the declaration carries one of the annotations of
   * `ArrowProofSet`; `hasAnnotation` is the compiler's annotation lookup.
   */
  function IsProof(hasAnnotation: FqName -> bool): (r: bool)
    ensures r <==> || hasAnnotation("arrow.Extension")
                   || hasAnnotation("arrow.Given")
                   || hasAnnotation("arrow.Coercion")
                   || hasAnnotation("arrow.Refinement")
  {
    exists name :: name in ArrowProofSet && hasAnnotation(name)
  }

  // ---------------------------------------------------------------------------
  // Properties of the model
  // ---------------------------------------------------------------------------

  /** The four annotation names are distinct. */
  lemma ArrowProofSetHasFourNames()
    ensures |ArrowProofSet| == 4
  {
  }

  /**
   * `fold` hands each variant to its own handler and to no other: the result
   * does not depend on the three handlers that do not belong to the variant.
   */
  lemma FoldUsesOnlyOwnHandler<Ty, Fn, A>(
    p: Proof<Ty, Fn>,
    g1: GivenProof<Ty, Fn> -> A, c1: CoercionProof<Ty, Fn> -> A,
    p1: ProjectionProof<Ty, Fn> -> A, r1: RefinementProof<Ty, Fn> -> A,
    g2: GivenProof<Ty, Fn> -> A, c2: CoercionProof<Ty, Fn> -> A,
    p2: ProjectionProof<Ty, Fn> -> A, r2: RefinementProof<Ty, Fn> -> A)
    ensures p.Given? ==> p.Fold(g1, c1, p1, r1) == g1(p.given)
                         && p.Fold(g1, c1, p1, r1) == p.Fold(g1, c2, p2, r2)
    ensures p.Extension? && p.extension.Coercion? ==>
              p.Fold(g1, c1, p1, r1) == c1(p.extension.coercion)
              && p.Fold(g1, c1, p1, r1) == p.Fold(g2, c1, p2, r2)
    ensures p.Extension? && p.extension.Projection? ==>
              p.Fold(g1, c1, p1, r1) == p1(p.extension.projection)
              && p.Fold(g1, c1, p1, r1) == p.Fold(g2, c2, p1, r2)
    ensures p.Refinement? ==> p.Fold(g1, c1, p1, r1) == r1(p.refinement)
                              && p.Fold(g1, c1, p1, r1) == p.Fold(g2, c2, p2, r1)
  {
  }

  /** Folding with the four constructors rebuilds the proof: no variant is lost or merged. */
  lemma FoldWithConstructorsIsIdentity<Ty, Fn>(p: Proof<Ty, Fn>)
    ensures p.Fold(
              g => Given(g),
              c => Extension(Coercion(c)),
              pr => Extension(Projection(pr)),
              r => Refinement(r)) == p
  {
  }

  /**
   * The `coerce` flags: every `CoercionProof` coerces, no `ProjectionProof`
   * does, and a `RefinementProof` built without an explicit flag coerces.
   */
  lemma CoerceFlags<Ty, Fn>(from: Ty, to: Ty, f: Fn, c: Callable<Fn>)
    ensures Coercion(CoercionProof(from, to, f)).Coerce()
    ensures !Projection(ProjectionProof(from, to, f)).Coerce()
    ensures RefinementProof(from, to, c).coerce
    ensures forall e: ExtensionProof<Ty, Fn> :: e.Coerce() <==> e.Coercion?
  {
  }

  /**
   * An extension proof always resolves to its own function, and so does any
   * proof declared through a function: the `TODO` failures are confined to
   * givens and refinements declared through something else.
   */
  lemma ExtensionWitnessIsItsFunction<Ty, Fn>(p: Proof<Ty, Fn>)
    ensures p.Extension? ==>
              p.UnderlyingFunctionDescriptor() == Success(Some(p.extension.Through()))
    ensures p.UnderlyingFunctionDescriptor().Failure? ==>
              !p.Extension? && !p.Through().FunctionDescriptor?
  {
  }
}
