/** Vocabulary shared by every script model: optional values, image sizes,
    positive rational ratios and the few Python string operations the
    scripts rely on. */
module Common {

  /** Python's `None` or a value. */
  datatype Option<T> = None | Some(value: T)

  type Pos = n: int | n > 0 witness 1

  /** A positive rational num/den. Aspect ratios are written this way so that
      `4/3` and `2.39` (= 239/100) are exact rather than IEEE doubles. */
  datatype Ratio = Ratio(num: Pos, den: Pos)

  /** A (width, height) pair, as PIL's `Image.size`. */
  datatype Size = Size(width: nat, height: nat)

  /** Python's `str.startswith`. */
  predicate StartsWith(s: string, prefix: string) {
    |prefix| <= |s| && s[..|prefix|] == prefix
  }

  /** Python's slice `s[k:]` for a non-negative `k`: empty once `k` passes the end. */
  function Suffix(s: string, k: nat): string {
    if k <= |s| then s[k..] else ""
  }

  function Min(a: int, b: int): int {
    if a <= b then a else b
  }

  /** Multiplying by a natural keeps the order. */
  lemma MulMono(a: nat, b: nat, d: nat)
    requires a <= b
    ensures a * d <= b * d
  {
  }
}
