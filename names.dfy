/** Frame names built from a format template with one integer slot, as in
    `'InIceRecoPulseSeriesPattern{}'.format(i)` or `'MPEFit{}'.format(i)`. */
module Names {

  /** The character of a decimal digit. */
  function DigitChar(d: nat): char
    requires d < 10
  {
    ('0' as int + d) as char
  }

  /** The decimal representation of a natural number, without leading zeros. */
  function Decimal(n: nat): (s: string)
    ensures |s| >= 1
    ensures |s| == 1 <==> n < 10
    ensures s[|s| - 1] == DigitChar(n % 10)
    decreases n
  {
    if n < 10 then [DigitChar(n)] else Decimal(n / 10) + [DigitChar(n % 10)]
  }

  /** Distinct numbers print differently. */
  lemma {:induction false} DecimalInjective(m: nat, n: nat)
    requires Decimal(m) == Decimal(n)
    ensures m == n
    decreases m
  {
    var s := Decimal(m);
    assert DigitChar(m % 10) == DigitChar(n % 10);
    if m >= 10 {
      assert n >= 10;
      assert Decimal(m / 10) == s[..|s| - 1] == Decimal(n / 10);
      DecimalInjective(m / 10, n / 10);
    }
  }

  /** A template `prefix{}suffix`. */
  datatype Template = Template(prefix: string, suffix: string)

  /** The template with its slot filled by `i`. */
  function Format(t: Template, i: nat): string
  {
    t.prefix + Decimal(i) + t.suffix
  }

  /** Filling the slot with distinct indices gives distinct names. */
  lemma FormatInjective(t: Template, i: nat, j: nat)
    requires Format(t, i) == Format(t, j)
    ensures i == j
  {
    var a, b := Format(t, i), Format(t, j);
    var lo := |t.prefix|;
    assert Decimal(i) == a[lo..|a| - |t.suffix|];
    assert Decimal(j) == b[lo..|b| - |t.suffix|];
    DecimalInjective(i, j);
  }

  /** Distinct indices give distinct names (the contrapositive, for loops). */
  lemma FormatDistinct(t: Template, i: nat, j: nat)
    requires i != j
    ensures Format(t, i) != Format(t, j)
  {
    if Format(t, i) == Format(t, j) {
      FormatInjective(t, i, j);
    }
  }
}
