/** What several parts of the model share: results, minima and maxima, and a little arithmetic. */
module Common {

  datatype Option<T> = None | Some(value: T)

  /** The value, or the Python exception that the original ends with. */
  datatype Result<T> = Ok(value: T) | IndexError | ValueError

  function Min(a: int, b: int): int {
    if a < b then a else b
  }

  function Max(a: int, b: int): int {
    if a < b then b else a
  }

  lemma Monotone(a: nat, b: nat, s: nat)
    ensures a <= b ==> a * s <= b * s
  {
  }

  /** Quotient and remainder are what they are said to be. */
  lemma Quotient(i: nat, k: nat, s: nat)
    requires k < s
    ensures (i * s + k) / s == i && (i * s + k) % s == k
  {
    SameQuotient(i, k, (i * s + k) / s, (i * s + k) % s, s);
  }

  lemma SameQuotient(i: nat, k: nat, q: nat, r: nat, s: nat)
    requires k < s && r < s && i * s + k == q * s + r
    ensures i == q && k == r
  {
    Monotone(i + 1, q, s);
    Monotone(q + 1, i, s);
  }
}
