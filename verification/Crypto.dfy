/** Primitives taken from libraries. Each constant is left without a value, so
    every theorem holds for any total function of its type; nothing is assumed of
    SHA-256 or of BIP340 verification beyond being functions of their inputs. */
module Crypto {
  import opened Primitives

  /** The one property of the mint curve that is relied on: it never credits
      more than the value that was locked. */
  type MintCurve = f: (u64, u32) -> u64 | forall v: u64, t: u32 :: f(v, t) <= v witness (v, t) => 0

  const Sha256Oracle: Bytes -> Digest
  const SchnorrOracle: (Address, Digest, Signature) -> bool
  const MintScriptOracle: (u32, Address) -> Bytes
  const MintCurveOracle: MintCurve

  function Sha256(message: Bytes): Digest { Sha256Oracle(message) }

  predicate SchnorrVerifies(key: Address, digest: Digest, signature: Signature) {
    SchnorrOracle(key, digest, signature)
  }

  /** scriptPubKey of the two-leaf taproot output for a lock duration and a key. */
  function ExpectedMintScript(lockBlocks: u32, userKey: Address): Bytes {
    MintScriptOracle(lockBlocks, userKey)
  }

  function MintFn(valueSat: u64, lockBlocks: u32): (atoms: u64)
    ensures atoms <= valueSat
  {
    MintCurveOracle(valueSat, lockBlocks)
  }
}
