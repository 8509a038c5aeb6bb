/** The .NET string predicates the order service relies on. */
module Text {
  import opened Wrappers

  /** `char.IsWhiteSpace`: the characters of the Unicode White_Space property. */
  predicate IsWhiteSpace(c: char) {
    || ('\t' <= c <= '\r')
    || c == ' '
    || c == '\U{85}'
    || c == '\U{A0}'
    || c == '\U{1680}'
    || ('\U{2000}' <= c <= '\U{200A}')
    || c == '\U{2028}'
    || c == '\U{2029}'
    || c == '\U{202F}'
    || c == '\U{205F}'
    || c == '\U{3000}'
  }

  /** `string.IsNullOrWhiteSpace`: null, empty, or white space only. */
  predicate IsNullOrWhiteSpace(s: Option<string>) {
    s.None? || forall i | 0 <= i < |s.value| :: IsWhiteSpace(s.value[i])
  }

  predicate IsAsciiLetter(c: char) {
    ('a' <= c <= 'z') || ('A' <= c <= 'Z')
  }

  /** A non-empty string of ASCII letters, the shape of every enum member name. */
  predicate NameShaped(s: string) {
    |s| > 0 && forall i | 0 <= i < |s| :: IsAsciiLetter(s[i])
  }

  /** Upper-case mapping used by ordinal case-insensitive comparison, restricted to ASCII. */
  function FoldCase(c: char): char {
    if 'a' <= c <= 'z' then (c as int - 32) as char else c
  }

  /** `string.Equals(a, b, StringComparison.OrdinalIgnoreCase)` on ASCII. */
  predicate EqualsIgnoreCase(a: string, b: string) {
    |a| == |b| && forall i | 0 <= i < |a| :: FoldCase(a[i]) == FoldCase(b[i])
  }

  /** Case-insensitive equality is an equivalence relation. */
  lemma EqualsIgnoreCaseIsEquivalence(a: string, b: string, c: string)
    ensures EqualsIgnoreCase(a, a)
    ensures EqualsIgnoreCase(a, b) ==> EqualsIgnoreCase(b, a)
    ensures EqualsIgnoreCase(a, b) && EqualsIgnoreCase(b, c) ==> EqualsIgnoreCase(a, c)
  {
  }

  /** Changing the case of a name keeps it name-shaped. */
  lemma NameShapedUpToCase(a: string, b: string)
    requires NameShaped(a) && EqualsIgnoreCase(a, b)
    ensures NameShaped(b)
  {
    forall i | 0 <= i < |b| ensures IsAsciiLetter(b[i]) {
      assert IsAsciiLetter(a[i]);
      assert FoldCase(a[i]) == FoldCase(b[i]);
    }
  }
}
