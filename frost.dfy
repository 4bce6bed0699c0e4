/**
 * The threshold-signature library (FROST over Ed25519) as the program sees it: parameter
 * validation, the three-round key-generation state machine, finished key bundles, their
 * serialisation and the recovery of the group secret. Everything past parameter validation is
 * cryptography the model does not look inside: opaque types and the functions of `Library`.
 */
module Frost {
  import opened Wrappers
  import opened BoundedInts

  /** MultisigParams: threshold t, participant count n, this participant's index i. */
  datatype Params = Params(t: uint16, n: uint16, i: uint16)

  /** MultisigParams::new: both counts positive, t at most n, and 1 <= i <= n. */
  function NewParams(t: uint16, n: uint16, i: uint16): (p: Option<Params>)
    ensures p.Some? <==> 1 <= t <= n && 1 <= i <= n
    ensures p.Some? ==> p.value == Params(t, n, i)
  {
    if t == 0 || n == 0 then None
    else if t > n then None
    else if i == 0 || i > n then None
    else Some(Params(t, n, i))
  }

  type Machine(!new)      // key_gen::StateMachine, one participant's DKG state
  type Commitment(!new)   // a participant's round-1 broadcast
  type SecretShare(!new)  // what one sender gives one recipient in round 2
  type Keys(!new)         // MultisigKeys, a participant's finished bundle
  type GroupKey(==, !new) // the group public key inside a bundle
  type Scalar(==, !new)   // an Ed25519 scalar

  /** The context string every machine is created with. */
  const Context := "FROST Test key_gen"

  /**
   * The library calls. A call that can fail (`unwrap` in the program) returns an Option. The
   * randomness the calls draw is part of the (unknown) function.
   */
  datatype Library = Library(
    newMachine: (Params, string) -> Machine,
    generateCoefficients: Machine -> Option<(Machine, Commitment)>,
    generateSecretShares: (Machine, map<uint16, Commitment>) -> Option<(Machine, map<uint16, SecretShare>)>,
    complete: (Machine, map<uint16, SecretShare>) -> Option<Keys>,
    machineParams: Machine -> Params,
    keyParams: Keys -> Params,
    groupKey: Keys -> GroupKey,
    serialize: Keys -> seq<uint8>,
    deserialize: seq<uint8> -> Option<Keys>,
    recover: map<uint16, Keys> -> Option<Scalar>
  )

  /** The index a finished bundle carries, `share.params().i()`. */
  function IndexOf(lib: Library, k: Keys): uint16 {
    lib.keyParams(k).i
  }

  /**
   * What a correct library guarantees and the program relies on: a machine keeps the parameters
   * it was created with through every round, the bundle it completes carries them, and
   * deserialising a serialised bundle gives it back.
   */
  ghost predicate Laws(lib: Library) {
    && (forall p, c :: lib.machineParams(lib.newMachine(p, c)) == p)
    && (forall m :: lib.generateCoefficients(m).Some? ==>
          lib.machineParams(lib.generateCoefficients(m).value.0) == lib.machineParams(m))
    && (forall m, cs :: lib.generateSecretShares(m, cs).Some? ==>
          lib.machineParams(lib.generateSecretShares(m, cs).value.0) == lib.machineParams(m))
    && (forall m, ss :: lib.complete(m, ss).Some? ==>
          lib.keyParams(lib.complete(m, ss).value) == lib.machineParams(m))
    && (forall k :: lib.deserialize(lib.serialize(k)) == Some(k))
  }
}
