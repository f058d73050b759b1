/** Small shared vocabulary: optional values, results, bytes and machine-integer bounds. */
module Common {
  datatype Option<+T> = None | Some(value: T)

  datatype Result<+T, +E> = Ok(value: T) | Err(error: E)

  newtype byte = x: int | 0 <= x < 256

  type Bytes = seq<byte>

  const U32_MAX: nat := 0xFFFF_FFFF
  const I64_MAX: nat := 0x7FFF_FFFF_FFFF_FFFF
  const U64_MAX: nat := 0xFFFF_FFFF_FFFF_FFFF

  /** Record freshness: identity first, then stable device keys, then transport. */
  datatype Freshness = Freshness(identity: nat, stable: nat, transport: nat)

  predicate Fresher(x: Freshness, y: Freshness) {
    || x.identity > y.identity
    || (x.identity == y.identity && x.stable > y.stable)
    || (x.identity == y.identity && x.stable == y.stable && x.transport > y.transport)
  }

  function Min(a: nat, b: nat): nat {
    if a <= b then a else b
  }

  /** `now.saturating_add(delta)` on values that stay inside `max`. */
  function SatAdd(now: nat, delta: nat, max: nat): nat {
    Min(now + delta, max)
  }

  /** A number as a self-delimiting byte string. */
  function Unary(n: nat): Bytes {
    seq(n, _ => 1 as byte) + [0]
  }

  lemma UnaryIsPrefixFree(m: nat, n: nat, a: Bytes, b: Bytes)
    requires Unary(m) + a == Unary(n) + b
    ensures m == n && a == b
  {
    var x := Unary(m) + a;
    assert x[m] == 0 && (Unary(n) + b)[n] == 0;
    assert forall i :: 0 <= i < m ==> x[i] == 1;
    assert forall i :: 0 <= i < n ==> (Unary(n) + b)[i] == 1;
    assert x[|Unary(m)|..] == a && (Unary(n) + b)[|Unary(n)|..] == b;
  }
}
