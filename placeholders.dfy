/** The placeholders `translateToVietnamese` puts in place of medical terms
    (lib/translation.ts, the template `__MEDICAL_TERM_${index}__`). */
module Placeholders {
  import opened JsStrings

  const PlaceholderPrefix: string := "__MEDICAL_TERM_"
  const PlaceholderSuffix: string := "__"

  /** The placeholder for the match with the given index. It is made of word characters only,
      begins and ends with `_` and holds no space. */
  function Placeholder(index: nat): (p: string)
    ensures |p| == |PlaceholderPrefix| + |NumberToString(index)| + |PlaceholderSuffix|
    ensures |p| >= 18 && p[0] == '_' && p[|p| - 1] == '_'
    ensures forall k :: 0 <= k < |p| ==> IsWordChar(p[k]) && p[k] != ' '
  {
    PlaceholderPrefix + NumberToString(index) + PlaceholderSuffix
  }

  /** The numeral is what sits between the fixed prefix and suffix. */
  lemma PlaceholderDigits(index: nat)
    ensures Placeholder(index)[..15] == PlaceholderPrefix
    ensures Placeholder(index)[15..|Placeholder(index)| - 2] == NumberToString(index)
    ensures Placeholder(index)[|Placeholder(index)| - 2..] == PlaceholderSuffix
  {
  }

  /** Two indices never share a placeholder. */
  lemma PlaceholderInjective(i: nat, j: nat)
    requires Placeholder(i) == Placeholder(j)
    ensures i == j
  {
    PlaceholderDigits(i);
    PlaceholderDigits(j);
    NumberToStringInjective(i, j);
  }

  /** Inside a placeholder, two `_` in a row appear only at its two ends. */
  lemma NoDoubleUnderscoreInside(index: nat, k: int)
    requires 1 <= k && k + 2 < |Placeholder(index)|
    ensures !(Placeholder(index)[k] == '_' && Placeholder(index)[k + 1] == '_')
  {
    var p, d := Placeholder(index), NumberToString(index);
    PlaceholderDigits(index);
    if k < 14 {
      assert p[k] == PlaceholderPrefix[k] && p[k + 1] == PlaceholderPrefix[k + 1];
    } else if k == 14 {
      assert p[k + 1] == d[0];
    } else {
      assert p[k] == p[15..|p| - 2][k - 15] == d[k - 15];
    }
  }

  /** No placeholder occurs inside the placeholder of another index: `__MEDICAL_TERM_1__`
      is not found in `__MEDICAL_TERM_10__`, thanks to the closing `__`. */
  lemma PlaceholderNotInfix(i: nat, j: nat, k: int)
    requires i != j
    ensures !OccursAt(Placeholder(j), k, Placeholder(i))
  {
    var pi, pj := Placeholder(i), Placeholder(j);
    var di, dj := NumberToString(i), NumberToString(j);
    if OccursAt(pj, k, pi) {
      assert pj[k..k + |pi|] == pi;
      assert pj[k] == '_' && pj[k + 1] == '_' by {
        assert pj[k..k + |pi|][0] == pi[0] && pj[k..k + |pi|][1] == pi[1];
      }
      if k >= 1 {
        NoDoubleUnderscoreInside(j, k);
      }
      assert k == 0;
      PlaceholderDigits(i);
      PlaceholderDigits(j);
      assert pi[15 + |di|] == '_';
      assert |pi| == |pj|;
      assert pi == pj[..|pi|] == pj;
      PlaceholderInjective(i, j);
    }
  }
}
