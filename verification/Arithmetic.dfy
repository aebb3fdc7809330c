/** Two facts about products that bounds on counts rest on. */
module Arithmetic {

  lemma LessFactor(a: int, b: int, c: nat)
    requires a * c < b * c
    ensures a < b
  {
    assert 0 < (b - a) * c;
  }

  /** `n` things spaced by at least `gap` need a span of that many gaps. */
  lemma CountFromProduct(n: nat, gap: nat, span: nat)
    requires gap > 0 && (n - 1) * gap <= span
    ensures n <= span / gap + 1
  {
    var whole := span / gap;
    assert span < whole * gap + gap == (whole + 1) * gap;
    LessFactor(n - 1, whole + 1, gap);
  }
}
