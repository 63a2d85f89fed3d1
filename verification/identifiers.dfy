/** The identifier normaliser: `is_identifier`, `text_to_identifier` and
    `remove_excessive_space` (pythreatspec/pythreatspec.py). */
module Identifiers {
  import opened Chars

  /** `text.startswith("@")` */
  predicate IsIdentifier(text: string)
  {
    |text| > 0 && text[0] == '@'
  }

  /** What `text_to_identifier` returns unchanged: the empty string or an `@`-id. */
  predicate Canonical(s: string)
  {
    s == "" || IsIdentifier(s)
  }

  // ---------------------------------------------------------------- stripping

  /** How many whitespace characters `s` starts with. */
  function LeadingSpace(s: string): (n: nat)
    ensures n <= |s|
    ensures forall i | 0 <= i < n :: IsSpace(s[i])
    ensures n < |s| ==> !IsSpace(s[n])
    decreases |s|
  {
    if s != [] && IsSpace(s[0]) then 1 + LeadingSpace(s[1..]) else 0
  }

  /** The whitespace prefix is the longest one. */
  lemma LeadingSpaceIs(s: string, m: nat)
    requires m <= |s| && (forall i | 0 <= i < m :: IsSpace(s[i])) && (m < |s| ==> !IsSpace(s[m]))
    ensures LeadingSpace(s) == m
  {
  }

  /** `str.lstrip()`; also the skip over one `\s+` run. */
  function StripLeft(s: string): string
  {
    s[LeadingSpace(s)..]
  }

  /** Where the whitespace `s` ends with begins. */
  function TrailingSpace(s: string): (n: nat)
    ensures n <= |s|
    ensures forall i | n <= i < |s| :: IsSpace(s[i])
    ensures 0 < n ==> !IsSpace(s[n - 1])
    decreases |s|
  {
    if s != [] && IsSpace(s[|s| - 1]) then TrailingSpace(s[..|s| - 1]) else |s|
  }

  /** The whitespace suffix is the longest one. */
  lemma TrailingSpaceIs(s: string, m: nat)
    requires m <= |s| && (forall i | m <= i < |s| :: IsSpace(s[i])) && (0 < m ==> !IsSpace(s[m - 1]))
    ensures TrailingSpace(s) == m
  {
  }

  /** `str.rstrip()` */
  function StripRight(s: string): string
  {
    s[..TrailingSpace(s)]
  }

  /** No whitespace at all. */
  predicate NoSpace(s: string)
  {
    forall k | 0 <= k < |s| :: !IsSpace(s[k])
  }

  /** Whitespace only. */
  predicate AllSpace(s: string)
  {
    forall k | 0 <= k < |s| :: IsSpace(s[k])
  }

  /** `str.strip()` */
  function Strip(s: string): (r: string)
    ensures r == [] || (!IsSpace(r[0]) && !IsSpace(r[|r| - 1]))
  {
    var l := StripLeft(s);
    assert l == [] || l[0] == s[LeadingSpace(s)];
    StripRight(l)
  }

  /** What `str.strip()` keeps is the slice of `s` from its first to its last
      character that is not whitespace: only whitespace lies outside it. */
  lemma StripSlice(s: string)
    ensures var r, i := Strip(s), LeadingSpace(s);
      i + |r| <= |s| && r == s[i..i + |r|] && AllSpace(s[..i]) && AllSpace(s[i + |r|..])
  {
    var i := LeadingSpace(s);
    var l := s[i..];
    var n := TrailingSpace(l);
    assert Strip(s) == l[..n] == s[i..i + n];
    AllSpaceTake(s, i);
    forall k | i + n <= k < |s|
      ensures IsSpace(s[k])
    {
      assert s[k] == l[k - i];
    }
    AllSpaceDrop(s, i + n);
  }

  lemma AllSpaceTake(s: string, i: nat)
    requires i <= |s| && forall k | 0 <= k < i :: IsSpace(s[k])
    ensures AllSpace(s[..i])
  {
    assert forall k | 0 <= k < i :: s[..i][k] == s[k];
  }

  lemma AllSpaceDrop(s: string, i: nat)
    requires i <= |s| && forall k | i <= k < |s| :: IsSpace(s[k])
    ensures AllSpace(s[i..])
  {
    assert forall k | 0 <= k < |s| - i :: s[i..][k] == s[i + k];
  }

  /** Conversely, whitespace around a text that starts and ends with something
      else is exactly what `str.strip()` removes. */
  lemma StripAround(a: string, x: string, b: string)
    requires AllSpace(a) && AllSpace(b)
    requires x != [] && !IsSpace(x[0]) && !IsSpace(x[|x| - 1])
    ensures Strip(a + x + b) == x
  {
    var s := a + x + b;
    assert s[|a|] == x[0];
    LeadingSpaceIs(s, |a|);
    var l := s[|a|..];
    assert l == x + b;
    assert l[|x| - 1] == x[|x| - 1];
    TrailingSpaceIs(l, |x|);
    assert l[..|x|] == x;
  }

  /** A prefix is all whitespace exactly when it is the whole whitespace prefix. */
  lemma AllSpaceLeading(a: string)
    ensures AllSpace(a) <==> LeadingSpace(a) == |a|
  {
  }

  /** Leading whitespace of a first part that is not all whitespace stays in that part. */
  lemma StripLeftConcat(a: string, b: string)
    ensures !AllSpace(a) ==> StripLeft(a + b) == StripLeft(a) + b
    ensures AllSpace(a) ==> StripLeft(a + b) == StripLeft(b)
  {
    var n := LeadingSpace(a);
    AllSpaceLeading(a);
    if n < |a| {
      LeadingSpaceIs(a + b, n);
      assert (a + b)[n..] == a[n..] + b;
    } else {
      var m := LeadingSpace(b);
      LeadingSpaceIs(a + b, |a| + m);
      assert (a + b)[|a| + m..] == b[m..];
    }
  }

  /** A suffix is all whitespace exactly when it is the whole whitespace suffix. */
  lemma AllSpaceTrailing(b: string)
    ensures AllSpace(b) <==> TrailingSpace(b) == 0
  {
  }

  /** Trailing whitespace of a last part that is not all whitespace stays in that part. */
  lemma StripRightConcat(a: string, b: string)
    ensures !AllSpace(b) ==> StripRight(a + b) == a + StripRight(b)
    ensures AllSpace(b) ==> StripRight(a + b) == StripRight(a)
  {
    var n := TrailingSpace(b);
    AllSpaceTrailing(b);
    if 0 < n {
      TrailingSpaceIs(a + b, |a| + n);
      assert (a + b)[..|a| + n] == a + b[..n];
    } else {
      var m := TrailingSpace(a);
      TrailingSpaceIs(a + b, m);
      assert (a + b)[..m] == a[..m];
    }
  }

  // ---------------------------------------------------------------- text_to_identifier

  /** `"_".join(s.split(" "))`: every single space becomes an underscore. */
  function SpacesToUnderscores(s: string): (r: string)
    ensures |r| == |s|
    ensures forall i | 0 <= i < |s| :: r[i] == if s[i] == ' ' then '_' else s[i]
  {
    if s == [] then [] else [if s[0] == ' ' then '_' else s[0]] + SpacesToUnderscores(s[1..])
  }

  /** `re.sub('-', '', s)`: the characters of `s` other than `-`. */
  function DropHyphens(s: string): (r: string)
    ensures |r| <= |s|
    ensures forall c | c in r :: c != '-' && c in s
  {
    if s == [] then [] else (if s[0] == '-' then [] else [s[0]]) + DropHyphens(s[1..])
  }

  /** A text without hyphens is kept as it is. */
  lemma {:induction false} DropHyphensKeeps(s: string)
    ensures '-' !in s ==> DropHyphens(s) == s
  {
    if s != [] && '-' !in s {
      assert s == [s[0]] + s[1..] && '-' !in s[1..];
      DropHyphensKeeps(s[1..]);
    }
  }

  /** Removing hyphens works part by part, so the kept characters stay in order. */
  lemma {:induction false} DropHyphensConcat(a: string, b: string)
    ensures DropHyphens(a + b) == DropHyphens(a) + DropHyphens(b)
    decreases |a|
  {
    if a == [] {
      assert a + b == b;
    } else {
      assert (a + b)[0] == a[0] && (a + b)[1..] == a[1..] + b;
      DropHyphensConcat(a[1..], b);
    }
  }

  /** `text_to_identifier`: "" stays "", an `@`-id stays as it is, anything
      else becomes "@" + the stripped, lower-cased text with spaces turned
      into underscores and hyphens removed. */
  function TextToIdentifier(text: string): (r: string)
    ensures r == "" <==> text == ""
    ensures IsIdentifier(text) ==> r == text
    ensures !Canonical(text) ==>
      IsIdentifier(r) && forall c | c in r[1..] :: c != ' ' && c != '-' && !IsUpper(c)
    ensures !Canonical(text) ==> r == "@" + DropHyphens(LowerStr(SpacesToUnderscores(Strip(text))))
    ensures Canonical(r)
  {
    if text == "" then ""
    else if IsIdentifier(text) then text
    else
      var body := DropHyphens(LowerStr(SpacesToUnderscores(Strip(text))));
      assert forall c | c in body :: c != ' ' && c != '-' && !IsUpper(c) by {
        forall c | c in body ensures c != ' ' && c != '-' && !IsUpper(c) {
          var u := SpacesToUnderscores(Strip(text));
          var l := LowerStr(u);
          var k :| 0 <= k < |l| && l[k] == c;
          LowerStrAt(u, k);
        }
      }
      "@" + body
  }

  /** The canonical strings are exactly the fixed points of `text_to_identifier`. */
  lemma CanonicalIffFixpoint(s: string)
    ensures Canonical(s) <==> TextToIdentifier(s) == s
  {
    if !Canonical(s) {
      var r := TextToIdentifier(s);
      assert r[0] == '@' && s[0] != '@';
    }
  }

  /** `text_to_identifier` is idempotent. */
  lemma TextToIdentifierIdempotent(text: string)
    ensures TextToIdentifier(TextToIdentifier(text)) == TextToIdentifier(text)
  {
    CanonicalIffFixpoint(TextToIdentifier(text));
  }

  // ---------------------------------------------------------------- remove_excessive_space

  /** The non-whitespace characters of `s`, in order. */
  function NonSpaces(s: string): string
  {
    if s == [] then [] else (if IsSpace(s[0]) then [] else [s[0]]) + NonSpaces(s[1..])
  }

  lemma {:induction false} NonSpacesAppend(a: string, b: string)
    ensures NonSpaces(a + b) == NonSpaces(a) + NonSpaces(b)
  {
    if a != [] {
      assert (a + b)[0] == a[0];
      assert (a + b)[1..] == a[1..] + b;
      NonSpacesAppend(a[1..], b);
      calc {
        NonSpaces(a + b);
        (if IsSpace(a[0]) then [] else [a[0]]) + NonSpaces(a[1..] + b);
        (if IsSpace(a[0]) then [] else [a[0]]) + (NonSpaces(a[1..]) + NonSpaces(b));
        ((if IsSpace(a[0]) then [] else [a[0]]) + NonSpaces(a[1..])) + NonSpaces(b);
        NonSpaces(a) + NonSpaces(b);
      }
    } else {
      assert a + b == b;
    }
  }

  lemma {:induction false} NonSpacesOfSpaces(s: string)
    requires forall i | 0 <= i < |s| :: IsSpace(s[i])
    ensures NonSpaces(s) == []
  {
    if s != [] {
      NonSpacesOfSpaces(s[1..]);
    }
  }

  /** Only single spaces, never two in a row. */
  predicate SingleSpaced(s: string)
  {
    && (forall i | 0 <= i < |s| :: IsSpace(s[i]) ==> s[i] == ' ')
    && (forall i, j | 0 <= i < |s| && j == i + 1 && j < |s| :: s[i] == ' ' ==> s[j] != ' ')
  }

  /** What `remove_excessive_space` promises of its result. */
  predicate Normalized(s: string)
  {
    SingleSpaced(s) && (s != [] ==> s[0] != ' ' && s[|s| - 1] != ' ')
  }

  /** `re.sub('\s+', ' ', s)`: every maximal whitespace run becomes one space. */
  function Collapse(s: string): string
    decreases |s|
  {
    if s == [] then []
    else if IsSpace(s[0]) then [' '] + Collapse(StripLeft(s))
    else [s[0]] + Collapse(s[1..])
  }

  /** One more character in front of a single-spaced text. */
  lemma SingleSpacedCons(c: char, t: string)
    requires SingleSpaced(t) && (IsSpace(c) ==> c == ' ')
    requires c == ' ' ==> t == [] || t[0] != ' '
    ensures SingleSpaced([c] + t)
  {
    var s := [c] + t;
    forall i, j | 0 <= i < |s| && j == i + 1 && j < |s|
      ensures s[i] == ' ' ==> s[j] != ' '
    {
      if i > 0 {
        assert s[i] == t[i - 1] && s[j] == t[j - 1];
      }
    }
  }

  /** The collapsed text is single-spaced, keeps the non-whitespace characters
      in order, and starts with the same character when that is not whitespace. */
  lemma {:induction false} CollapseSpec(s: string)
    ensures SingleSpaced(Collapse(s))
    ensures NonSpaces(Collapse(s)) == NonSpaces(s)
    ensures s != [] && !IsSpace(s[0]) ==> Collapse(s) != [] && Collapse(s)[0] == s[0]
    decreases |s|
  {
    if s == [] {
    } else if IsSpace(s[0]) {
      var rest := StripLeft(s);
      var c := Collapse(rest);
      CollapseSpec(rest);
      assert NonSpaces(s) == NonSpaces(rest) by {
        assert s == s[..|s| - |rest|] + rest;
        NonSpacesAppend(s[..|s| - |rest|], rest);
        NonSpacesOfSpaces(s[..|s| - |rest|]);
      }
      NonSpacesAppend([' '], c);
      SingleSpacedCons(' ', c);
    } else {
      var c := Collapse(s[1..]);
      CollapseSpec(s[1..]);
      assert s == [s[0]] + s[1..];
      NonSpacesAppend([s[0]], s[1..]);
      NonSpacesAppend([s[0]], c);
      SingleSpacedCons(s[0], c);
    }
  }

  /** A word (no whitespace) in front is kept as it is. */
  lemma {:induction false} CollapseWord(w: string, x: string)
    requires NoSpace(w)
    ensures Collapse(w + x) == w + Collapse(x)
    decreases |w|
  {
    if w == [] {
      assert w + x == x;
    } else {
      var w' := w[1..];
      assert (w + x)[0] == w[0] && (w + x)[1..] == w' + x;
      assert NoSpace(w') by {
        forall k | 0 <= k < |w'|
          ensures !IsSpace(w'[k])
        {
          assert w'[k] == w[k + 1];
        }
      }
      CollapseWord(w', x);
      assert Collapse(w + x) == [w[0]] + Collapse(w' + x);
      assert [w[0]] + (w' + Collapse(x)) == w + Collapse(x) by {
        assert w == [w[0]] + w';
      }
    }
  }

  /** A whole whitespace run in front becomes one space. */
  lemma CollapseRun(sp: string, t: string)
    requires sp != [] && AllSpace(sp) && (t == [] || !IsSpace(t[0]))
    ensures Collapse(sp + t) == " " + Collapse(t)
  {
    assert (sp + t)[0] == sp[0];
    StripLeftConcat(sp, t);
  }

  lemma SingleSpacedSlice(s: string, i: nat, j: nat)
    requires SingleSpaced(s) && i <= j <= |s|
    ensures SingleSpaced(s[i..j])
  {
    var t := s[i..j];
    assert forall k | 0 <= k < |t| :: t[k] == s[i + k];
  }

  lemma StripLeftKeeps(s: string)
    ensures NonSpaces(StripLeft(s)) == NonSpaces(s)
    ensures SingleSpaced(s) ==> SingleSpaced(StripLeft(s))
  {
    var r := StripLeft(s);
    var k := |s| - |r|;
    assert s == s[..k] + r;
    NonSpacesAppend(s[..k], r);
    NonSpacesOfSpaces(s[..k]);
    if SingleSpaced(s) {
      SingleSpacedSlice(s, k, |s|);
    }
  }

  lemma StripRightKeeps(s: string)
    ensures NonSpaces(StripRight(s)) == NonSpaces(s)
    ensures SingleSpaced(s) ==> SingleSpaced(StripRight(s))
  {
    var r := StripRight(s);
    assert s == r + s[|r|..];
    NonSpacesAppend(r, s[|r|..]);
    NonSpacesOfSpaces(s[|r|..]);
    if SingleSpaced(s) {
      SingleSpacedSlice(s, 0, |r|);
    }
  }

  /** `remove_excessive_space`: `re.sub('\s+', ' ', text).strip()`. The result is
      normalised and keeps every non-whitespace character of `text`, in order. */
  function RemoveExcessiveSpace(text: string): (r: string)
    ensures Normalized(r)
    ensures NonSpaces(r) == NonSpaces(text)
  {
    var c := Collapse(text);
    CollapseSpec(text);
    StripLeftKeeps(c);
    StripRightKeeps(StripLeft(c));
    Strip(c)
  }

  lemma {:induction false} CollapseSingleSpaced(s: string)
    requires SingleSpaced(s)
    ensures Collapse(s) == s
    decreases |s|
  {
    if s != [] {
      SingleSpacedSlice(s, 1, |s|);
      if IsSpace(s[0]) {
        LeadingSpaceIs(s, 1);
      }
      CollapseSingleSpaced(s[1..]);
      assert s == [s[0]] + s[1..];
    }
  }

  /** A string is left unchanged by `remove_excessive_space` exactly when it is normalised. */
  lemma NormalizedIffFixpoint(s: string)
    ensures Normalized(s) <==> RemoveExcessiveSpace(s) == s
  {
    if Normalized(s) {
      CollapseSingleSpaced(s);
    }
  }

  /** Leading whitespace makes no difference. */
  lemma RemoveExcessiveSpaceLeading(sp: string, t: string)
    requires AllSpace(sp)
    ensures RemoveExcessiveSpace(sp + t) == RemoveExcessiveSpace(t)
  {
    if sp == [] {
      assert sp + t == t;
    } else {
      assert (sp + t)[0] == sp[0];
      StripLeftConcat(sp, t);
      var c := Collapse(StripLeft(t));
      assert Collapse(sp + t) == [' '] + c;
      assert StripLeft([' '] + c) == StripLeft(c) by {
        assert ([' '] + c)[1..] == c;
      }
    }
  }

  /** Stripping a word, a space and a text that does not start with whitespace
      only strips that text's end. */
  lemma StripWordThen(w: string, c: string)
    requires w != [] && NoSpace(w) && (c == [] || !IsSpace(c[0]))
    ensures Strip(w + " " + c) == if c == [] then w else w + " " + Strip(c)
  {
    var x := w + " " + c;
    LeadingSpaceIs(x, 0);
    LeadingSpaceIs(c, 0);
    assert StripLeft(x) == x && StripLeft(c) == c;
    if c == [] {
      assert x == w + " ";
      TrailingSpaceIs(x, |w|);
      assert x[..|w|] == w;
    } else {
      assert x == (w + " ") + c;
      AllSpaceLeading(c);
      StripRightConcat(w + " ", c);
    }
  }

  /** A word, then a whitespace run: the word is kept and the run becomes one space. */
  lemma CollapseWordRun(w: string, sp: string, t: string)
    requires NoSpace(w) && sp != [] && AllSpace(sp) && (t == [] || !IsSpace(t[0]))
    ensures Collapse(w + sp + t) == w + " " + Collapse(t)
  {
    assert w + sp + t == w + (sp + t);
    CollapseWord(w, sp + t);
    CollapseRun(sp, t);
  }

  /** A word followed by whitespace: the whole run becomes one space between the
      word and what follows, and disappears at the end of the text. */
  lemma RemoveExcessiveSpaceWord(w: string, sp: string, t: string)
    requires w != [] && NoSpace(w) && AllSpace(sp)
    requires (t == [] || !IsSpace(t[0])) && (sp != [] || t == [])
    ensures RemoveExcessiveSpace(w + sp + t) == if t == [] then w else w + " " + RemoveExcessiveSpace(t)
  {
    if sp == [] {
      assert w + sp + t == w;
      assert Normalized(w);
      NormalizedIffFixpoint(w);
    } else {
      CollapseWordRun(w, sp, t);
      CollapseSpec(t);
      StripWordThen(w, Collapse(t));
    }
  }

  /** `remove_excessive_space` is idempotent. */
  lemma RemoveExcessiveSpaceIdempotent(text: string)
    ensures RemoveExcessiveSpace(RemoveExcessiveSpace(text)) == RemoveExcessiveSpace(text)
  {
    NormalizedIffFixpoint(RemoveExcessiveSpace(text));
  }
}
