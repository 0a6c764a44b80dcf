/** Numbers written with digits, as Python's int(s, base) reads them. */
module Digits {

  predicate IsDigit(c: char) { '0' <= c <= '9' }
  predicate IsLowHex(c: char) { IsDigit(c) || 'a' <= c <= 'f' }
  predicate IsHex(c: char) { IsLowHex(c) || 'A' <= c <= 'F' }

  function HexDigit(c: char): (d: nat)
    requires IsHex(c)
    ensures d < 16
  {
    if IsDigit(c) then (c - '0') as nat else if 'a' <= c then 10 + (c - 'a') as nat else 10 + (c - 'A') as nat
  }

  function ValueIn(s: string, base: nat): nat
    requires forall c :: c in s ==> IsHex(c)
  {
    if s == "" then 0 else ValueIn(s[..|s| - 1], base) * base + HexDigit(s[|s| - 1])
  }

  /** Strings of the same width in lower case are equal if their values are. */
  lemma {:induction false} SameWidthSameValue(s: string, t: string)
    requires |s| == |t| && (forall c :: c in s ==> IsLowHex(c)) && (forall c :: c in t ==> IsLowHex(c))
    requires ValueIn(s, 16) == ValueIn(t, 16)
    ensures s == t
  {
    if s != "" {
      var n := |s| - 1;
      assert HexDigit(s[n]) == HexDigit(t[n]) && ValueIn(s[..n], 16) == ValueIn(t[..n], 16);
      SameWidthSameValue(s[..n], t[..n]);
      assert s == s[..n] + [s[n]] && t == t[..n] + [t[n]];
    }
  }
}
