/** Cutting a byte string into pieces of one size, and putting pieces back together. */
module Chunking {
  import opened JsonValues

  /** Division rounded up: the least q with n <= q * d. */
  function DivCeil(n: nat, d: nat): (q: nat)
    requires d > 0
    ensures n <= q * d
    ensures n > 0 ==> q > 0 && (q - 1) * d < n
    ensures n == 0 ==> q == 0
  {
    DivCeilFacts(n, d);
    (n + d - 1) / d
  }

  lemma MulMonotone(a: int, b: int, c: nat)
    requires a <= b
    ensures a * c <= b * c
  {
  }

  lemma MulCancelLess(a: int, b: int, c: nat)
    ensures a * c < b * c ==> a < b
  {
    if b <= a {
      MulMonotone(b, a, c);
    }
  }

  lemma DivCeilFacts(n: nat, d: nat)
    requires d > 0
    ensures var q := (n + d - 1) / d;
            0 <= q && n <= q * d && (n > 0 ==> q > 0 && (q - 1) * d < n) && (n == 0 ==> q == 0)
  {
    var q, r := (n + d - 1) / d, (n + d - 1) % d;
    assert n + d - 1 == q * d + r && 0 <= r < d;
    assert (q - 1) * d == q * d - d;
    MulCancelLess(0, q, d);
    MulCancelLess(q - 1, 0, d);
  }

  /** Nothing below the rounded-up quotient is large enough. */
  lemma DivCeilLeast(n: nat, d: nat, q: nat)
    requires d > 0 && n <= q * d
    ensures DivCeil(n, d) <= q
  {
    MulCancelLess(DivCeil(n, d) - 1, q, d);
  }

  /** A larger divisor never gives a larger quotient. */
  lemma DivCeilAntitone(n: nat, d: nat, e: nat)
    requires 0 < d <= e
    ensures DivCeil(n, e) <= DivCeil(n, d)
  {
    var q := DivCeil(n, d);
    MulMonotone(d, e, q);
    DivCeilLeast(n, e, q);
  }

  /** Removing one whole divisor lowers the quotient by one. */
  lemma DivCeilStep(n: nat, d: nat)
    requires 0 < d < n
    ensures DivCeil(n, d) == DivCeil(n - d, d) + 1
  {
    var q, p := DivCeil(n - d, d), DivCeil(n, d);
    assert (q + 1) * d == q * d + d;
    assert (p - 1) * d == p * d - d;
    DivCeilLeast(n, d, q + 1);
    DivCeilLeast(n - d, d, p - 1);
  }

  /** Consecutive pieces of `size` bytes, the last one possibly shorter. */
  function Chunks(b: Bytes, size: nat): seq<Bytes>
    requires size > 0
  {
    if |b| == 0 then []
    else if |b| <= size then [b]
    else [b[..size]] + Chunks(b[size..], size)
  }

  function Flatten(pieces: seq<Bytes>): Bytes {
    if |pieces| == 0 then [] else pieces[0] + Flatten(pieces[1..])
  }

  function TotalLength(pieces: seq<Bytes>): nat {
    if |pieces| == 0 then 0 else |pieces[0]| + TotalLength(pieces[1..])
  }

  /** Non-empty pieces, all of one size except that the last may be shorter. */
  ghost predicate EvenPieces(pieces: seq<Bytes>, size: nat) {
    forall i | 0 <= i < |pieces| ::
      0 < |pieces[i]| <= size && (i < |pieces| - 1 ==> |pieces[i]| == size)
  }

  lemma {:induction false} ChunksPartition(b: Bytes, size: nat)
    requires size > 0
    ensures Flatten(Chunks(b, size)) == b
    ensures EvenPieces(Chunks(b, size), size)
    ensures |Chunks(b, size)| == DivCeil(|b|, size)
  {
    if |b| == 0 {
    } else if |b| <= size {
      assert Flatten([b]) == b + Flatten([]);
      DivCeilLeast(|b|, size, 1);
    } else {
      ChunksPartition(b[size..], size);
      DivCeilStep(|b|, size);
      assert Chunks(b, size) == [b[..size]] + Chunks(b[size..], size);
      assert b == b[..size] + b[size..];
    }
  }

  lemma {:induction false} FlattenLength(pieces: seq<Bytes>)
    ensures |Flatten(pieces)| == TotalLength(pieces)
  {
    if |pieces| > 0 {
      FlattenLength(pieces[1..]);
    }
  }
}
