/**
 * The query layer of the proofs plugin: which entries of a module's proof
 * catalogue each lookup hands to the unification matcher, and what the
 * lookups that build on it return.
 *
 * Every query reads `module.proofs`; here that catalogue is the parameter
 * `catalogue` (module `ProofCache` models how it is obtained). The matcher
 * `matchingCandidates`, the baseline subtype check and the nullable top type
 * come from the compiler and are fields of `CompilerContext`; nothing is
 * assumed about them except where a lemma states a hypothesis.
 */
module ProofQueries {
  import opened Wrappers
  import opened Subsequences
  import opened Proofs

  /** What the queries use of the compiler. */
  datatype CompilerContext<!Ty, !Fn> = CompilerContext(
    /** `matchingCandidates` for a (sub-type, super-type) query. */
    matchExtensions: (seq<ExtensionProof<Ty, Fn>>, Ty, Ty) -> seq<ExtensionProof<Ty, Fn>>,
    /** `matchingCandidates` for a single super-type query. */
    matchGivens: (seq<GivenProof<Ty, Fn>>, Ty) -> seq<GivenProof<Ty, Fn>>,
    /** `baseLineTypeChecker.isSubtypeOf`. */
    isSubtypeOf: (Ty, Ty) -> bool,
    /** `t.constructor.builtIns.nullableAnyType`: `Any?` of the type's built-ins. */
    nullableAnyType: Ty -> Ty)

  /** Extension proofs seen as catalogue entries. */
  ghost function LiftExtensions<Ty, Fn>(es: seq<ExtensionProof<Ty, Fn>>): (r: seq<Proof<Ty, Fn>>)
    ensures |r| == |es|
  {
    seq(|es|, i requires 0 <= i < |es| => Extension(es[i]))
  }

  /** Given proofs seen as catalogue entries. */
  ghost function LiftGivens<Ty, Fn>(gs: seq<GivenProof<Ty, Fn>>): (r: seq<Proof<Ty, Fn>>)
    ensures |r| == |gs|
  {
    seq(|gs|, i requires 0 <= i < |gs| => Given(gs[i]))
  }

  /** The entry is a `CoercionProof`. */
  predicate IsCoercion<Ty, Fn>(p: Proof<Ty, Fn>) {
    p.Extension? && p.extension.Coercion?
  }

  // ---------------------------------------------------------------------------
  // The candidate lists: what each query hands to the matcher
  // ---------------------------------------------------------------------------

  /** `filterIsInstance<ExtensionProof>()`: the coercions and projections, in catalogue order. */
  function ExtensionsOf<Ty, Fn>(catalogue: seq<Proof<Ty, Fn>>): (r: seq<ExtensionProof<Ty, Fn>>)
    ensures IsSubsequence(LiftExtensions(r), catalogue)
    decreases |catalogue|
  {
    if |catalogue| == 0 then []
    else
      var rest := ExtensionsOf(catalogue[1..]);
      match catalogue[0]
      case Extension(e) =>
        assert LiftExtensions([e] + rest)[1..] == LiftExtensions(rest);
        [e] + rest
      case _ => rest
  }

  /** `filterIsInstance<GivenProof>()`: the givens, in catalogue order. */
  function GivensOf<Ty, Fn>(catalogue: seq<Proof<Ty, Fn>>): (r: seq<GivenProof<Ty, Fn>>)
    ensures IsSubsequence(LiftGivens(r), catalogue)
    decreases |catalogue|
  {
    if |catalogue| == 0 then []
    else
      var rest := GivensOf(catalogue[1..]);
      match catalogue[0]
      case Given(g) =>
        assert LiftGivens([g] + rest)[1..] == LiftGivens(rest);
        [g] + rest
      case _ => rest
  }

  /** `filter { it.coerce }` over extension proofs. */
  function CoercingOnly<Ty, Fn>(es: seq<ExtensionProof<Ty, Fn>>): (r: seq<ExtensionProof<Ty, Fn>>)
    ensures IsSubsequence(r, es)
    ensures forall i :: 0 <= i < |r| ==> r[i].Coerce()
    decreases |es|
  {
    if |es| == 0 then []
    else if es[0].Coerce() then [es[0]] + CoercingOnly(es[1..])
    else CoercingOnly(es[1..])
  }

  /**
   * The list `coerceProofs` hands to the matcher: only coercions, in
   * catalogue order.
   */
  function CoerceCandidates<Ty, Fn>(catalogue: seq<Proof<Ty, Fn>>): (r: seq<ExtensionProof<Ty, Fn>>)
    ensures forall i :: 0 <= i < |r| ==> r[i].Coercion?
    ensures IsSubsequence(LiftExtensions(r), catalogue)
  {
    var es := ExtensionsOf(catalogue);
    var r := CoercingOnly(es);
    LiftPreservesSubsequence(r, es);
    SubsequenceTransitive(LiftExtensions(r), LiftExtensions(es), catalogue);
    r
  }

  // ---------------------------------------------------------------------------
  // The queries
  // ---------------------------------------------------------------------------

  /** `extensionProofs`: matching coercions and projections. */
  function ExtensionProofs<Ty, Fn>(ctx: CompilerContext<Ty, Fn>, catalogue: seq<Proof<Ty, Fn>>,
                                   subType: Ty, superType: Ty): seq<ExtensionProof<Ty, Fn>>
  {
    ctx.matchExtensions(ExtensionsOf(catalogue), subType, superType)
  }

  /** `givenProofs`: matching givens. */
  function GivenProofs<Ty, Fn>(ctx: CompilerContext<Ty, Fn>, catalogue: seq<Proof<Ty, Fn>>,
                               superType: Ty): seq<GivenProof<Ty, Fn>>
  {
    ctx.matchGivens(GivensOf(catalogue), superType)
  }

  /** `coerceProofs`: matching proofs whose `coerce` flag is set. */
  function CoerceProofs<Ty, Fn>(ctx: CompilerContext<Ty, Fn>, catalogue: seq<Proof<Ty, Fn>>,
                                subType: Ty, superType: Ty): seq<ExtensionProof<Ty, Fn>>
  {
    ctx.matchExtensions(CoerceCandidates(catalogue), subType, superType)
  }

  /** `extensionProof`: the first matching extension proof, as a `Proof?`. */
  function ExtensionProofOf<Ty, Fn>(ctx: CompilerContext<Ty, Fn>, catalogue: seq<Proof<Ty, Fn>>,
                                    subType: Ty, superType: Ty): (r: Option<Proof<Ty, Fn>>)
    ensures var all := ExtensionProofs(ctx, catalogue, subType, superType);
            && (r.None? <==> all == [])
            && (r.Some? ==> r.value == Extension(all[0]))
  {
    match FirstOrNull(ExtensionProofs(ctx, catalogue, subType, superType))
    case None => None
    case Some(e) => Some(Extension(e))
  }

  /** `coerceProof`: the first matching coercion. */
  function CoerceProof<Ty, Fn>(ctx: CompilerContext<Ty, Fn>, catalogue: seq<Proof<Ty, Fn>>,
                               subType: Ty, superType: Ty): (r: Option<ExtensionProof<Ty, Fn>>)
    ensures var all := CoerceProofs(ctx, catalogue, subType, superType);
            && (r.None? <==> all == [])
            && (r.Some? ==> r.value == all[0])
  {
    FirstOrNull(CoerceProofs(ctx, catalogue, subType, superType))
  }

  /**
   * `extending`: for every type, in order, the extension proofs from that
   * type to its nullable top type, concatenated.
   */
  function Extending<Ty, Fn>(ctx: CompilerContext<Ty, Fn>, catalogue: seq<Proof<Ty, Fn>>,
                             types: seq<Ty>): seq<ExtensionProof<Ty, Fn>>
    decreases |types|
  {
    if |types| == 0 then []
    else ExtensionProofs(ctx, catalogue, types[0], ctx.nullableAnyType(types[0]))
         + Extending(ctx, catalogue, types[1..])
  }

  /**
   * `areTypesCoerced`: proofs only ever add sub-typing. When the baseline
   * check already succeeds the answer is false and no proof is looked up;
   * otherwise the types are coerced exactly when a coercion proof matches.
   */
  function AreTypesCoerced<Ty, Fn>(ctx: CompilerContext<Ty, Fn>, catalogue: seq<Proof<Ty, Fn>>,
                                   subType: Ty, superType: Ty): (r: bool)
    ensures ctx.isSubtypeOf(subType, superType) ==> !r
    ensures !ctx.isSubtypeOf(subType, superType) ==>
              (r <==> CoerceProofs(ctx, catalogue, subType, superType) != [])
  {
    var isSubtypeOf := ctx.isSubtypeOf(subType, superType);
    if !isSubtypeOf then
      var isProofSubtype := CoerceProof(ctx, catalogue, subType, superType) != None;
      !isSubtypeOf && isProofSubtype
    else false
  }

  // ---------------------------------------------------------------------------
  // Lemmas about the candidate lists
  // ---------------------------------------------------------------------------

  /** Lifting keeps sub-sequences. */
  lemma {:induction false} LiftPreservesSubsequence<Ty, Fn>(s: seq<ExtensionProof<Ty, Fn>>,
                                                            t: seq<ExtensionProof<Ty, Fn>>)
    requires IsSubsequence(s, t)
    ensures IsSubsequence(LiftExtensions(s), LiftExtensions(t))
    decreases |t|
  {
    if |s| == 0 {
    } else if s[0] == t[0] && IsSubsequence(s[1..], t[1..]) {
      LiftPreservesSubsequence(s[1..], t[1..]);
      assert LiftExtensions(s)[1..] == LiftExtensions(s[1..]);
      assert LiftExtensions(t)[1..] == LiftExtensions(t[1..]);
    } else {
      LiftPreservesSubsequence(s, t[1..]);
      assert LiftExtensions(t)[1..] == LiftExtensions(t[1..]);
    }
  }

  /**
   * `filterIsInstance<ExtensionProof>()` keeps every coercion and projection
   * of the catalogue as often as it occurs there, and nothing else.
   */
  lemma {:induction false} ExtensionsOfKeepsExactlyExtensions<Ty, Fn>(catalogue: seq<Proof<Ty, Fn>>)
    ensures forall e :: multiset(ExtensionsOf(catalogue))[e] == multiset(catalogue)[Extension(e)]
    ensures forall e :: e in ExtensionsOf(catalogue) <==> Extension(e) in catalogue
    decreases |catalogue|
  {
    if |catalogue| > 0 {
      ExtensionsOfKeepsExactlyExtensions(catalogue[1..]);
      assert catalogue == [catalogue[0]] + catalogue[1..];
    }
  }

  /** `filterIsInstance<GivenProof>()` keeps every given as often as it occurs, and nothing else. */
  lemma {:induction false} GivensOfKeepsExactlyGivens<Ty, Fn>(catalogue: seq<Proof<Ty, Fn>>)
    ensures forall g :: multiset(GivensOf(catalogue))[g] == multiset(catalogue)[Given(g)]
    ensures forall g :: g in GivensOf(catalogue) <==> Given(g) in catalogue
    decreases |catalogue|
  {
    if |catalogue| > 0 {
      GivensOfKeepsExactlyGivens(catalogue[1..]);
      assert catalogue == [catalogue[0]] + catalogue[1..];
    }
  }

  /** `filter { it.coerce }` keeps every coercing entry as often as it occurs, and nothing else. */
  lemma {:induction false} CoercingOnlyKeepsExactlyCoercions<Ty, Fn>(es: seq<ExtensionProof<Ty, Fn>>)
    ensures forall e :: multiset(CoercingOnly(es))[e] == if e.Coerce() then multiset(es)[e] else 0
    decreases |es|
  {
    if |es| > 0 {
      CoercingOnlyKeepsExactlyCoercions(es[1..]);
      assert es == [es[0]] + es[1..];
    }
  }

  /**
   * The list `coerceProofs` hands to the matcher holds exactly the
   * `CoercionProof` entries of the catalogue, each as often as it occurs
   * there, in catalogue order; no projection, given or refinement.
   */
  lemma CoerceCandidatesAreExactlyCoercions<Ty, Fn>(catalogue: seq<Proof<Ty, Fn>>)
    ensures IsSubsequence(LiftExtensions(CoerceCandidates(catalogue)), catalogue)
    ensures forall e :: multiset(CoerceCandidates(catalogue))[e]
                        == if e.Coercion? then multiset(catalogue)[Extension(e)] else 0
    ensures forall e :: e in CoerceCandidates(catalogue) <==> IsCoercion(Extension(e)) && Extension(e) in catalogue
  {
    ExtensionsOfKeepsExactlyExtensions(catalogue);
    CoercingOnlyKeepsExactlyCoercions(ExtensionsOf(catalogue));
    assert forall e: ExtensionProof<Ty, Fn> :: e.Coerce() <==> e.Coercion?;
  }

  /** `filterIsInstance` distributes over concatenated catalogues. */
  lemma {:induction false} ExtensionsOfConcat<Ty, Fn>(a: seq<Proof<Ty, Fn>>, b: seq<Proof<Ty, Fn>>)
    ensures ExtensionsOf(a + b) == ExtensionsOf(a) + ExtensionsOf(b)
    decreases |a|
  {
    if |a| == 0 {
      assert a + b == b;
    } else {
      ExtensionsOfConcat(a[1..], b);
      assert (a + b)[0] == a[0];
      assert (a + b)[1..] == a[1..] + b;
    }
  }

  /** `filterIsInstance<GivenProof>` distributes over concatenated catalogues. */
  lemma {:induction false} GivensOfConcat<Ty, Fn>(a: seq<Proof<Ty, Fn>>, b: seq<Proof<Ty, Fn>>)
    ensures GivensOf(a + b) == GivensOf(a) + GivensOf(b)
    decreases |a|
  {
    if |a| == 0 {
      assert a + b == b;
    } else {
      GivensOfConcat(a[1..], b);
      assert (a + b)[0] == a[0];
      assert (a + b)[1..] == a[1..] + b;
    }
  }

  /** `filter { it.coerce }` distributes over concatenation. */
  lemma {:induction false} CoercingOnlyConcat<Ty, Fn>(a: seq<ExtensionProof<Ty, Fn>>, b: seq<ExtensionProof<Ty, Fn>>)
    ensures CoercingOnly(a + b) == CoercingOnly(a) + CoercingOnly(b)
    decreases |a|
  {
    if |a| == 0 {
      assert a + b == b;
    } else {
      CoercingOnlyConcat(a[1..], b);
      assert (a + b)[0] == a[0];
      assert (a + b)[1..] == a[1..] + b;
    }
  }

  /** A one-entry catalogue keeps its entry exactly when it is an extension proof. */
  lemma ExtensionsOfSingleton<Ty, Fn>(p: Proof<Ty, Fn>)
    ensures ExtensionsOf([p]) == if p.Extension? then [p.extension] else []
  {
  }

  /** A one-entry catalogue keeps its entry exactly when it is a given. */
  lemma GivensOfSingleton<Ty, Fn>(p: Proof<Ty, Fn>)
    ensures GivensOf([p]) == if p.Given? then [p.given] else []
  {
  }

  /**
   * Declaring a proof that is not a coercion, anywhere in the catalogue,
   * never changes what `coerceProofs` returns: projections, givens and
   * refinements (whatever their `coerce` flag) are invisible to it. A new
   * coercion, by contrast, always reaches the matcher.
   */
  lemma CoerceProofsIgnoreNonCoercions<Ty, Fn>(ctx: CompilerContext<Ty, Fn>, catalogue: seq<Proof<Ty, Fn>>,
                                               i: nat, p: Proof<Ty, Fn>, subType: Ty, superType: Ty)
    requires i <= |catalogue|
    ensures !IsCoercion(p) ==>
              CoerceProofs(ctx, catalogue[..i] + [p] + catalogue[i..], subType, superType)
              == CoerceProofs(ctx, catalogue, subType, superType)
    ensures IsCoercion(p) ==>
              |CoerceCandidates(catalogue[..i] + [p] + catalogue[i..])| == |CoerceCandidates(catalogue)| + 1
  {
    var pre, post := catalogue[..i], catalogue[i..];
    var extended := pre + [p] + post;
    assert catalogue == pre + post;
    ExtensionsOfConcat(pre + [p], post);
    ExtensionsOfConcat(pre, [p]);
    ExtensionsOfConcat(pre, post);
    ExtensionsOfSingleton(p);
    var (ePre, eMid, ePost) := (ExtensionsOf(pre), ExtensionsOf([p]), ExtensionsOf(post));
    assert ExtensionsOf(extended) == ePre + eMid + ePost;
    assert ExtensionsOf(catalogue) == ePre + ePost;
    var mid := CoercingOnly(eMid);
    assert mid == if IsCoercion(p) then [p.extension] else [] by {
      assert CoercingOnly<Ty, Fn>([]) == [];
      if p.Extension? {
        assert eMid[1..] == [];
      }
    }
    CoercingOnlyConcat(ePre + eMid, ePost);
    CoercingOnlyConcat(ePre, eMid);
    CoercingOnlyConcat(ePre, ePost);
    assert CoerceCandidates(extended) == CoercingOnly(ePre) + mid + CoercingOnly(ePost);
    assert CoerceCandidates(catalogue) == CoercingOnly(ePre) + CoercingOnly(ePost);
    if !IsCoercion(p) {
      assert CoercingOnly(ePre) + mid == CoercingOnly(ePre);
      assert CoerceCandidates(extended) == CoerceCandidates(catalogue);
    }
  }

  /**
   * Declaring a given or a refinement anywhere in the catalogue never changes
   * what `extensionProofs` returns.
   */
  lemma ExtensionProofsIgnoreNonExtensions<Ty, Fn>(ctx: CompilerContext<Ty, Fn>, catalogue: seq<Proof<Ty, Fn>>,
                                                   i: nat, p: Proof<Ty, Fn>, subType: Ty, superType: Ty)
    requires i <= |catalogue|
    requires !p.Extension?
    ensures ExtensionProofs(ctx, catalogue[..i] + [p] + catalogue[i..], subType, superType)
            == ExtensionProofs(ctx, catalogue, subType, superType)
  {
    var pre, post := catalogue[..i], catalogue[i..];
    assert catalogue == pre + post;
    ExtensionsOfConcat(pre + [p], post);
    ExtensionsOfConcat(pre, [p]);
    ExtensionsOfConcat(pre, post);
    ExtensionsOfSingleton(p);
    assert ExtensionsOf(pre + [p]) == ExtensionsOf(pre);
    assert ExtensionsOf(pre + [p] + post) == ExtensionsOf(catalogue);
  }

  /**
   * Declaring a proof other than a given anywhere in the catalogue never
   * changes what `givenProofs` returns.
   */
  lemma GivenProofsIgnoreNonGivens<Ty, Fn>(ctx: CompilerContext<Ty, Fn>, catalogue: seq<Proof<Ty, Fn>>,
                                           i: nat, p: Proof<Ty, Fn>, superType: Ty)
    requires i <= |catalogue|
    requires !p.Given?
    ensures GivenProofs(ctx, catalogue[..i] + [p] + catalogue[i..], superType)
            == GivenProofs(ctx, catalogue, superType)
  {
    var pre, post := catalogue[..i], catalogue[i..];
    assert catalogue == pre + post;
    GivensOfConcat(pre + [p], post);
    GivensOfConcat(pre, [p]);
    GivensOfConcat(pre, post);
    GivensOfSingleton(p);
    assert GivensOf(pre + [p]) == GivensOf(pre);
    assert GivensOf(pre + [p] + post) == GivensOf(catalogue);
  }

  /**
   * A refinement proof never reaches the extension or coercion lookups, even
   * though its `coerce` flag is true by default: it is not an `ExtensionProof`.
   */
  lemma RefinementNeverReachesExtensionLookups<Ty, Fn>(r: RefinementProof<Ty, Fn>)
    ensures ExtensionsOf([Refinement(r)]) == []
    ensures CoerceCandidates([Refinement(r)]) == []
  {
  }

  // ---------------------------------------------------------------------------
  // Lemmas about the queries
  // ---------------------------------------------------------------------------

  /**
   * `extending` distributes over the list of types: the proofs for each type
   * come in a block, and the blocks come in the order of the types.
   */
  lemma {:induction false} ExtendingConcat<Ty, Fn>(ctx: CompilerContext<Ty, Fn>, catalogue: seq<Proof<Ty, Fn>>,
                                                   a: seq<Ty>, b: seq<Ty>)
    ensures Extending(ctx, catalogue, a + b) == Extending(ctx, catalogue, a) + Extending(ctx, catalogue, b)
    decreases |a|
  {
    if |a| == 0 {
      assert a + b == b;
    } else {
      ExtendingConcat(ctx, catalogue, a[1..], b);
      assert (a + b)[0] == a[0];
      assert (a + b)[1..] == a[1..] + b;
    }
  }

  /**
   * A proof is returned by `extending` exactly when it extends one of the
   * types to that type's nullable top type.
   */
  lemma {:induction false} ExtendingMembers<Ty, Fn>(ctx: CompilerContext<Ty, Fn>, catalogue: seq<Proof<Ty, Fn>>,
                                                    types: seq<Ty>, e: ExtensionProof<Ty, Fn>)
    ensures e in Extending(ctx, catalogue, types)
            <==> exists i :: 0 <= i < |types|
                   && e in ExtensionProofs(ctx, catalogue, types[i], ctx.nullableAnyType(types[i]))
    decreases |types|
  {
    if |types| > 0 {
      ExtendingMembers(ctx, catalogue, types[1..], e);
      var here := ExtensionProofs(ctx, catalogue, types[0], ctx.nullableAnyType(types[0]));
      if e in Extending(ctx, catalogue, types) && e !in here {
        var i :| 0 <= i < |types[1..]|
                 && e in ExtensionProofs(ctx, catalogue, types[1..][i], ctx.nullableAnyType(types[1..][i]));
        assert types[1..][i] == types[i + 1];
      }
      if exists i :: 0 <= i < |types| && e in ExtensionProofs(ctx, catalogue, types[i], ctx.nullableAnyType(types[i])) {
        var i :| 0 <= i < |types| && e in ExtensionProofs(ctx, catalogue, types[i], ctx.nullableAnyType(types[i]));
        if i > 0 {
          assert types[1..][i - 1] == types[i];
        }
      }
    }
  }

  /**
   * Whenever the baseline check reports a sub-type, `areTypesCoerced` is
   * false whatever the catalogue and the matcher: proofs are not consulted.
   */
  lemma AreTypesCoercedShortCircuits<Ty, Fn>(ctx: CompilerContext<Ty, Fn>, other: CompilerContext<Ty, Fn>,
                                             catalogue: seq<Proof<Ty, Fn>>, otherCatalogue: seq<Proof<Ty, Fn>>,
                                             subType: Ty, superType: Ty)
    requires ctx.isSubtypeOf(subType, superType)
    requires other.isSubtypeOf(subType, superType)
    ensures AreTypesCoerced(ctx, catalogue, subType, superType)
            == AreTypesCoerced(other, otherCatalogue, subType, superType)
            == false
  {
  }

  // ---------------------------------------------------------------------------
  // Consequences for a matcher that only selects
  // ---------------------------------------------------------------------------

  /** The matcher returns a stable sub-sequence of the list it is given, as a filter does. */
  ghost predicate MatcherIsStableFilter<Ty(!new), Fn(!new)>(ctx: CompilerContext<Ty, Fn>) {
    forall l, a, b :: IsSubsequence(ctx.matchExtensions(l, a, b), l)
  }

  /**
   * With a matcher that filters, `coerceProofs` returns coercion proofs of
   * the catalogue, in catalogue order; in particular never a projection.
   */
  lemma CoerceProofsAreOrderedCoercions<Ty(!new), Fn(!new)>(ctx: CompilerContext<Ty, Fn>, catalogue: seq<Proof<Ty, Fn>>,
                                                subType: Ty, superType: Ty)
    requires MatcherIsStableFilter(ctx)
    ensures var r := CoerceProofs(ctx, catalogue, subType, superType);
            && IsSubsequence(LiftExtensions(r), catalogue)
            && forall e :: e in r ==> e.Coercion? && Extension(e) in catalogue
  {
    var cands := CoerceCandidates(catalogue);
    var r := CoerceProofs(ctx, catalogue, subType, superType);
    assert IsSubsequence(r, cands);
    LiftPreservesSubsequence(r, cands);
    SubsequenceTransitive(LiftExtensions(r), LiftExtensions(cands), catalogue);
    SubsequenceMembers(r, cands);
    CoerceCandidatesAreExactlyCoercions(catalogue);
  }

  /**
   * With a matcher that filters, `extensionProofs` returns coercions and
   * projections of the catalogue, in catalogue order.
   */
  lemma ExtensionProofsAreOrderedExtensions<Ty(!new), Fn(!new)>(ctx: CompilerContext<Ty, Fn>, catalogue: seq<Proof<Ty, Fn>>,
                                                    subType: Ty, superType: Ty)
    requires MatcherIsStableFilter(ctx)
    ensures var r := ExtensionProofs(ctx, catalogue, subType, superType);
            && IsSubsequence(LiftExtensions(r), catalogue)
            && forall e :: e in r ==> Extension(e) in catalogue
  {
    var cands := ExtensionsOf(catalogue);
    var r := ExtensionProofs(ctx, catalogue, subType, superType);
    assert IsSubsequence(r, cands);
    LiftPreservesSubsequence(r, cands);
    SubsequenceTransitive(LiftExtensions(r), LiftExtensions(cands), catalogue);
    SubsequenceMembers(r, cands);
    ExtensionsOfKeepsExactlyExtensions(catalogue);
  }

  /**
   * With a matcher that filters, a catalogue without any `CoercionProof`
   * (only givens, projections and refinements) never coerces two types.
   */
  lemma NoCoercionNeverCoerces<Ty(!new), Fn(!new)>(ctx: CompilerContext<Ty, Fn>, catalogue: seq<Proof<Ty, Fn>>,
                                       subType: Ty, superType: Ty)
    requires MatcherIsStableFilter(ctx)
    requires forall i :: 0 <= i < |catalogue| ==> !IsCoercion(catalogue[i])
    ensures !AreTypesCoerced(ctx, catalogue, subType, superType)
  {
    var r := CoerceProofs(ctx, catalogue, subType, superType);
    CoerceProofsAreOrderedCoercions(ctx, catalogue, subType, superType);
    if r != [] {
      assert Extension(r[0]) in catalogue;
    }
  }

  /**
   * The catalogue `[CoercionProof(Int, String, f), GivenProof(Config, g)]`:
   * the coercion and extension lookups hand the matcher just the coercion,
   * and the given lookup just the given.
   */
  lemma ScenarioCandidates<Ty, Fn>(intType: Ty, stringType: Ty, config: Ty, f: Fn, g: Callable<Fn>)
    ensures var coercion := CoercionProof(intType, stringType, f);
            var given := GivenProof(config, g);
            var catalogue := [Extension(Coercion(coercion)), Given(given)];
            && CoerceCandidates(catalogue) == [Coercion(coercion)]
            && ExtensionsOf(catalogue) == [Coercion(coercion)]
            && GivensOf(catalogue) == [given]
  {
  }
}
