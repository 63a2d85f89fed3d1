/** Character classes of Python 2 byte strings, as the regular expressions
    and string methods of the source see them (no UNICODE or LOCALE flag). */
module Chars {

  /** `\s`, and the characters `str.strip()` and `str.isspace()` treat as whitespace. */
  predicate IsSpace(c: char)
  {
    c == ' ' || c == '\t' || c == '\n' || c == '\r' || c == '\U{0B}' || c == '\U{0C}'
  }

  /** `\w`: ASCII letters, digits and the underscore. */
  predicate IsWordChar(c: char)
  {
    ('a' <= c <= 'z') || ('A' <= c <= 'Z') || ('0' <= c <= '9') || c == '_'
  }

  predicate IsUpper(c: char)
  {
    'A' <= c <= 'Z'
  }

  /** `str.lower()` on one character: ASCII letters only. */
  function Lower(c: char): (r: char)
    ensures !IsUpper(r)
    ensures !IsUpper(c) ==> r == c
    ensures IsWordChar(r) <==> IsWordChar(c)
  {
    if IsUpper(c) then (c as int + 32) as char else c
  }

  /** `str.lower()` */
  function LowerStr(s: string): (r: string)
  {
    seq(|s|, k requires 0 <= k < |s| => Lower(s[k]))
  }

  lemma LowerStrAt(s: string, k: nat)
    requires k < |s|
    ensures LowerStr(s)[k] == Lower(s[k])
  {
  }

  /** `str.lower()` commutes with concatenation. */
  lemma LowerStrConcat(a: string, b: string)
    ensures LowerStr(a + b) == LowerStr(a) + LowerStr(b)
  {
    var l, r := LowerStr(a + b), LowerStr(a) + LowerStr(b);
    forall k | 0 <= k < |l|
      ensures l[k] == r[k]
    {
      LowerStrAt(a + b, k);
      if k < |a| {
        LowerStrAt(a, k);
      } else {
        LowerStrAt(b, k - |a|);
      }
    }
  }

  /** `str.lower()` commutes with slicing. */
  lemma LowerStrSlice(s: string, i: nat, j: nat)
    requires i <= j <= |s|
    ensures LowerStr(s[i..j]) == LowerStr(s)[i..j]
  {
    var t := s[i..j];
    var l, r := LowerStr(t), LowerStr(s)[i..j];
    forall k | 0 <= k < |l|
      ensures l[k] == r[k]
    {
      LowerStrAt(t, k);
      LowerStrAt(s, i + k);
    }
  }

  /** A literal written in lower case, as the patterns are. */
  predicate LowerLiteral(lit: string)
  {
    forall k | 0 <= k < |lit| :: Lower(lit[k]) == lit[k]
  }

  lemma LowerLiteralFixed(lit: string)
    requires LowerLiteral(lit)
    ensures LowerStr(lit) == lit
  {
    forall k | 0 <= k < |lit|
      ensures LowerStr(lit)[k] == lit[k]
    {
      LowerStrAt(lit, k);
    }
  }

  /** The literal `lit` (written in lower case) occurs at position `i` of `t`
      under `re.IGNORECASE`. */
  predicate HasAt(t: string, i: nat, lit: string)
  {
    i + |lit| <= |t| && LowerStr(t)[i..i + |lit|] == lit
  }

  /** `u` and `v` are equal under `re.IGNORECASE`. */
  predicate FoldEq(u: string, v: string)
  {
    LowerStr(u) == LowerStr(v)
  }

  /** Lower-casing leaves every character other than a capital letter alone. */
  lemma LowerFixes(c: char, d: char)
    requires !IsUpper(d) && Lower(c) == d
    ensures !('a' <= d <= 'z') ==> c == d
  {
  }

  lemma FoldEqConcat(u1: string, u2: string, v1: string, v2: string)
    requires FoldEq(u1, v1) && FoldEq(u2, v2)
    ensures FoldEq(u1 + u2, v1 + v2)
  {
    LowerStrConcat(u1, u2);
    LowerStrConcat(v1, v2);
  }

  /** A literal found at `i` is the slice there, up to case. */
  lemma HasAtFoldEq(l: string, i: nat, lit: string)
    requires LowerLiteral(lit) && HasAt(l, i, lit)
    ensures FoldEq(l[i..i + |lit|], lit)
  {
    LowerLiteralFixed(lit);
    LowerStrSlice(l, i, i + |lit|);
  }

  /** Whether a literal occurs depends on the subject only up to case. */
  lemma FoldEqHasAt(u: string, v: string, i: nat, lit: string)
    requires FoldEq(u, v)
    ensures HasAt(u, i, lit) <==> HasAt(v, i, lit)
  {
  }

  /** A window inside a slice is the same window of the whole string. */
  lemma HasAtSlice(l: string, a: nat, b: nat, k: nat, lit: string)
    requires a + k + |lit| <= b <= |l|
    ensures HasAt(l, a + k, lit) <==> HasAt(l[a..b], k, lit)
  {
    LowerStrSlice(l, a, b);
    assert LowerStr(l[a..b])[k..k + |lit|] == LowerStr(l)[a + k..a + k + |lit|];
  }

  /** Adjacent slices join up. */
  lemma SliceJoin(u: string, i: nat, j: nat, k: nat)
    requires i <= j <= k <= |u|
    ensures u[i..j] + u[j..k] == u[i..k]
  {
  }

  /** A prefix equal up to case, extended by the next slice. */
  lemma FoldEqExtend(u: string, j: nat, k: nat, a: string, v: string)
    requires j <= k <= |u| && FoldEq(u[..j], a) && FoldEq(u[j..k], v)
    ensures FoldEq(u[..k], a + v)
  {
    assert u[..j] + u[j..k] == u[..k];
    FoldEqConcat(u[..j], u[j..k], a, v);
  }
}
