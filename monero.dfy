/**
 * Derivation of the wallet's view key and address from the spend key. Hashing, point
 * arithmetic and address encoding are foreign primitives, gathered in `Curve`.
 */
module Monero {
  import opened BoundedInts
  import opened Frost

  type Point(!new)  // a compressed Edwards point

  datatype Curve = Curve(
    scalarBytes: Scalar -> seq<uint8>,         // Scalar::to_bytes
    keccak256: seq<uint8> -> seq<uint8>,
    fromBytesModOrder: seq<uint8> -> Scalar,
    basepointTimes: Scalar -> Point,           // (basepoint * s).compress()
    testnetStandardAddress: (Point, Point) -> string
  )

  /** The private view key: the Keccak-256 hash of the spend key reduced modulo the group order. */
  function View(curve: Curve, spend: Scalar): Scalar {
    curve.fromBytesModOrder(curve.keccak256(curve.scalarBytes(spend)))
  }

  /** The standard testnet address of the public spend and view points. */
  function Address(curve: Curve, spend: Scalar, view: Scalar): string {
    curve.testnetStandardAddress(curve.basepointTimes(spend), curve.basepointTimes(view))
  }

  /** The (spend, view, address) triple the program prints. */
  datatype Identity = Identity(spend: Scalar, view: Scalar, address: string)

  function Derive(curve: Curve, spend: Scalar): Identity {
    var view := View(curve, spend);
    Identity(spend, view, Address(curve, spend, view))
  }
}
