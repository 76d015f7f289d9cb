/** Nullable strings and the few string conventions of .NET the library relies on. */
module Text {
  import opened Wrappers

  /** A .NET `string`, which may be null. */
  type NString = Option<string>

  /** `String.IsNullOrEmpty`. */
  predicate IsNullOrEmpty(s: NString) {
    s.None? || |s.value| == 0
  }

  /** How a nullable string is rendered by string interpolation: null becomes "". */
  function Render(s: NString): string {
    if s.None? then "" else s.value
  }

  predicate IsDigit(c: char) {
    '0' <= c <= '9'
  }

  /** `int.ToString()` for a non-negative value. */
  function NatToString(n: nat): (r: string)
    ensures |r| >= 1
    ensures forall i :: 0 <= i < |r| ==> IsDigit(r[i])
    decreases n
  {
    if n < 10 then ["0123456789"[n]]
    else NatToString(n / 10) + ["0123456789"[n % 10]]
  }

  /** The decimal value of a digit string (the inverse reading of `NatToString`). */
  function ParseNat(s: string): nat
    requires forall i :: 0 <= i < |s| ==> IsDigit(s[i])
  {
    if |s| == 0 then 0
    else
      assert IsDigit(s[|s| - 1]);
      ParseNat(s[..|s| - 1]) * 10 + (s[|s| - 1] as int - '0' as int)
  }

  /** Rendering a count and reading it back gives the count. */
  lemma {:induction false} ParseNatToString(n: nat)
    ensures ParseNat(NatToString(n)) == n
    decreases n
  {
    var r := NatToString(n);
    if n >= 10 {
      var prefix := NatToString(n / 10);
      assert r[..|r| - 1] == prefix;
      ParseNatToString(n / 10);
    }
  }

  /** Case folding of the ASCII letters, used for case-insensitive keys. */
  function FoldChar(c: char): char {
    if 'A' <= c <= 'Z' then (c as int - 'A' as int + 'a' as int) as char else c
  }

  function Fold(s: string): (r: string)
    ensures |r| == |s|
    ensures forall i :: 0 <= i < |s| ==> r[i] == FoldChar(s[i])
  {
    seq(|s|, i requires 0 <= i < |s| => FoldChar(s[i]))
  }

  /** Two keys that differ only in the case of ASCII letters fold to the same string. */
  predicate SameIgnoringCase(a: string, b: string) {
    Fold(a) == Fold(b)
  }
}
