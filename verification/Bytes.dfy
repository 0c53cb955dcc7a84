/** Byte strings, and the little that several components need to know about them. */
module Bytes {

  type byte = x: int | 0 <= x < 256
  type bytes = seq<byte>

  const NUL: byte := 0
  const LF: byte := 10
  const CR: byte := 13
  const SPACE: byte := 32
  const SLASH: byte := 47

  /** The ASCII decimal spelling of a length. */
  function Decimal(n: nat): (digits: bytes)
    ensures digits != []
    ensures forall d <- digits :: 48 <= d <= 57
  {
    if n < 10 then [48 + n] else Decimal(n / 10) + [48 + n % 10]
  }

  /** A field that cannot contain its own terminator is self-delimiting. */
  lemma SplitAtFirst(stop: byte, a: bytes, p: bytes, b: bytes, q: bytes)
    requires stop !in a && stop !in b
    requires a + [stop] + p == b + [stop] + q
    ensures a == b && p == q
  {
    var left, right := a + [stop] + p, b + [stop] + q;
    assert left[|a|] == stop && right[|b|] == stop;
    assert forall i :: 0 <= i < |a| ==> left[i] == a[i];
    assert forall i :: 0 <= i < |b| ==> right[i] == b[i];
    assert |a| == |b|;
    assert a == left[..|a|] && b == right[..|b|];
    assert p == left[|a| + 1..] && q == right[|b| + 1..];
  }
}
