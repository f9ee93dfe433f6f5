/**
 * The string operations the controller relies on: `ToLower` (lines 63 and 100 of the
 * controller), `string.Equals(.., StringComparison.OrdinalIgnoreCase)` (line 97) and
 * `string.IsNullOrEmpty` (line 70). Case mapping is restricted to ASCII letters; every
 * other character maps to itself.
 */
module Text {
  import opened Wrappers

  function LowerChar(c: char): char
  {
    if 'A' <= c <= 'Z' then (c as int + 32) as char else c
  }

  function UpperChar(c: char): char
  {
    if 'a' <= c <= 'z' then (c as int - 32) as char else c
  }

  /** `s.ToLower()`. */
  function ToLower(s: string): string
  {
    seq(|s|, i requires 0 <= i < |s| => LowerChar(s[i]))
  }

  /** Ordinal comparison ignoring case: same length, and equal characters once upper-cased. */
  predicate EqualsIgnoreCase(a: string, b: string)
  {
    |a| == |b| && forall i :: 0 <= i < |a| ==> UpperChar(a[i]) == UpperChar(b[i])
  }

  /** `string.IsNullOrEmpty(s)`, with null as `None`. */
  predicate IsNullOrEmpty(s: Option<string>)
  {
    s.None? || s.value == ""
  }

  lemma LowerUpperAgree(x: char, y: char)
    ensures LowerChar(x) == LowerChar(y) <==> UpperChar(x) == UpperChar(y)
  {
  }

  /**
   * The comparison the update uses to decide whether the name changed (OrdinalIgnoreCase)
   * and the comparison its uniqueness query uses (`ToLower() == ToLower()`) agree on
   * every pair of strings.
   */
  lemma EqualsIgnoreCaseIffSameLower(a: string, b: string)
    ensures EqualsIgnoreCase(a, b) <==> ToLower(a) == ToLower(b)
  {
    if EqualsIgnoreCase(a, b) {
      forall i | 0 <= i < |a| ensures ToLower(a)[i] == ToLower(b)[i] {
        LowerUpperAgree(a[i], b[i]);
      }
    }
    if ToLower(a) == ToLower(b) {
      assert |a| == |ToLower(a)| == |b|;
      forall i | 0 <= i < |a| ensures UpperChar(a[i]) == UpperChar(b[i]) {
        assert ToLower(a)[i] == ToLower(b)[i];
        LowerUpperAgree(a[i], b[i]);
      }
    }
  }
}
