/**
 * `ModuleDescriptor.proofs`: where every query gets its catalogue. It reads
 * the process-wide proof cache and, when the module has no entry, falls back
 * to `cli { initializeProofCache() }`, degrading to an empty catalogue for
 * other kinds of module, a `null` initialisation or a `RuntimeException`.
 *
 * How the cache gets filled (`initializeProofCache`) is outside this model:
 * the initialisation is a parameter, and the cache is built in whatever
 * state that code left it.
 */
module ModuleProofs {
  import opened Wrappers
  import opened Proofs

  /** A `ModuleDescriptor`; only a `ModuleDescriptorImpl` has proofs. */
  datatype ModuleDescriptor<M> =
    | ModuleDescriptorImpl(id: M)
    | OtherModuleDescriptor(id: M)

  /** What the initialisation can throw: a `RuntimeException`, or any other `Throwable`. */
  datatype Throwable =
    | RuntimeException(message: string)
    | OtherThrowable(message: string)

  /**
   * How `cli { initializeProofCache() }` ends: with a catalogue, with `null`
   * (the `cli` guard did not run it), or by throwing.
   */
  datatype Initialisation<P> =
    | Initialised(proofs: seq<P>)
    | NoResult
    | Threw(exception: Throwable)

  /** The process-wide `proofCache`: a catalogue per module identity. */
  class ProofCache<M(==), Ty, Fn> {
    var entries: map<M, seq<Proof<Ty, Fn>>>

    constructor (entries: map<M, seq<Proof<Ty, Fn>>>)
      ensures this.entries == entries
    {
      this.entries := entries;
    }

    /**
     * `module.proofs`. A cached catalogue wins and the initialisation is not
     * consulted; without an entry the initialisation's catalogue is used.
     * Every other path yields the empty catalogue, except a `Throwable`
     * that is not a `RuntimeException`, which the `catch` does not stop.
     */
    method Proofs(descriptor: ModuleDescriptor<M>, initialise: M -> Initialisation<Proof<Ty, Fn>>)
      returns (r: Result<seq<Proof<Ty, Fn>>, Throwable>)
      ensures !descriptor.ModuleDescriptorImpl? ==> r == Success([])
      ensures descriptor.ModuleDescriptorImpl? && descriptor.id in entries ==>
                r == Success(entries[descriptor.id])
      ensures descriptor.ModuleDescriptorImpl? && descriptor.id !in entries
              && initialise(descriptor.id).Initialised? ==>
                r == Success(initialise(descriptor.id).proofs)
      ensures r.Success? && r.value != [] ==>
                && descriptor.ModuleDescriptorImpl?
                && (if descriptor.id in entries then r.value == entries[descriptor.id]
                    else initialise(descriptor.id) == Initialised(r.value))
      ensures r.Failure? <==>
                && descriptor.ModuleDescriptorImpl?
                && descriptor.id !in entries
                && initialise(descriptor.id).Threw?
                && initialise(descriptor.id).exception.OtherThrowable?
      ensures r.Failure? ==> r.error == initialise(descriptor.id).exception
    {
      if descriptor.ModuleDescriptorImpl? {
        if descriptor.id in entries {
          r := Success(entries[descriptor.id]);
        } else {
          var outcome := initialise(descriptor.id);
          match outcome {
            case Initialised(proofs) =>
              r := Success(proofs);
            case NoResult =>
              r := Success([]);
            case Threw(e) =>
              if e.RuntimeException? {
                r := Success([]);
              } else {
                r := Failure(e);
              }
          }
        }
      } else {
        r := Success([]);
      }
    }
  }
}
