/**
 * Shared vocabulary of the kernel model: bytes, optional values, and the
 * small facts about ring-buffer cursors and fixed-stride slots that the
 * mailbox and the byte buffer both rely on.
 */
module Support {

  /** A C `uint8_t` (and the `char` of the character buffer). */
  newtype byte = x: int | 0 <= x < 256

  /** Largest value of a C `uint32_t`. */
  const U32_MAX: int := 0xFFFF_FFFF

  datatype Option<T> = None | Some(value: T)

  function Min(a: int, b: int): (r: int)
    ensures r <= a && r <= b
    ensures r == a || r == b
  {
    if a <= b then a else b
  }

  /**
   * Folds a cursor that ran past the end of a ring of `n` positions back
   * into it, for cursors that are less than one lap ahead.
   */
  function Wrap(x: nat, n: nat): (r: nat)
    requires x < 2 * n
    ensures r < n
    ensures r == x % n
  {
    if x >= n then x - n else x
  }

  /**
   * Byte offset of slot `k` when slots are `m` bytes wide, that is `k * m`,
   * spelled as repeated addition so that the solver never has to reason
   * about products of two unknowns.
   */
  function Offset(k: nat, m: nat): nat
  {
    if k == 0 then 0 else Offset(k - 1, m) + m
  }

  lemma {:induction false} OffsetIsProduct(k: nat, m: nat)
    ensures Offset(k, m) == k * m
  {
    if k > 0 {
      OffsetIsProduct(k - 1, m);
    }
  }

  /** Slots do not overlap: slot `j` ends no later than a later slot `k` starts. */
  lemma {:induction false} OffsetMono(j: nat, k: nat, m: nat)
    requires j < k
    ensures Offset(j, m) + m <= Offset(k, m)
  {
    if j + 1 < k {
      OffsetMono(j, k - 1, m);
    }
  }

  /** Two slots with the same start offset are the same slot. */
  lemma OffsetCancel(a: nat, b: nat, m: nat)
    requires m > 0
    requires Offset(a, m) == Offset(b, m)
    ensures a == b
  {
    if a < b {
      OffsetMono(a, b, m);
    } else if b < a {
      OffsetMono(b, a, m);
    }
  }

  /** Offsets of slots are exactly the multiples of the stride, and dividing recovers the slot. */
  lemma OffsetDiv(k: nat, m: nat)
    requires m > 0
    ensures Offset(k, m) % m == 0 && Offset(k, m) / m == k
  {
    OffsetIsProduct(k, m);
    var q, r := (k * m) / m, (k * m) % m;
    assert k * m == q * m + r;
    OffsetIsProduct(q, m);
    if q < k {
      OffsetMono(q, k, m);
    } else if k < q {
      OffsetMono(k, q, m);
    }
  }

  /** A length that is a whole number of slots is the offset of its slot count. */
  lemma OffsetOfQuotient(n: nat, m: nat)
    requires m > 0 && n % m == 0
    ensures Offset(n / m, m) == n
  {
    OffsetIsProduct(n / m, m);
  }
}
