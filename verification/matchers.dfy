/** Hand-written matchers for the handler patterns of the tag engine
    (pythreatspec/pythreatspec.py, `_parse_alias` … `_parse_accepts`). Each
    handler runs `re.findall(pattern, comment, re.M | re.I)` and uses only the
    first match. No element of these patterns matches a newline, so a match that
    starts at position `p` of the comment lies inside the line that starts there:
    `MatchLine` runs on `FirstLine(s[p..])`, and `First` finds the leftmost `p`
    at which it succeeds. Every pattern is a lower-case lead (`@mitigates `)
    followed by a tail; the tail matchers work on the text after the lead. */
module Matchers {
  import opened Wrappers
  import opened Chars

  /** The eight tag keywords of `parse_table`. */
  datatype Tag = Alias | Describe | Connects | Review | Mitigates | Exposes | Transfers | Accepts

  function Keyword(t: Tag): (r: string)
    ensures |r| >= 5 && LowerLiteral(r)
    ensures forall k | 0 <= k < |r| :: 'a' <= r[k] <= 'z'
  {
    match t
    case Alias => "alias"
    case Describe => "describe"
    case Connects => "connects"
    case Review => "review"
    case Mitigates => "mitigates"
    case Exposes => "exposes"
    case Transfers => "transfers"
    case Accepts => "accepts"
  }

  /** What each pattern captures (`match[0]`), one shape per family of patterns;
      an optional group that did not take part is "". */
  datatype Match =
    | PropertyMatch(pclass: string, id: string, subId: string, text: string)
    | ConnectsMatch(sourceBoundary: string, sourceComponent: string, connector: string,
                    destBoundary: string, destComponent: string)
    | ReviewMatch(boundary: string, component: string, text: string)
    | ElementMatch(boundary: string, component: string, threat: string, text: string)

  // ---------------------------------------------------------------- building blocks

  predicate NoNewline(s: string)
  {
    forall k | 0 <= k < |s| :: s[k] != '\n'
  }

  /** The line that starts at the beginning of `s`: where `.*` stops. */
  function FirstLine(s: string): (r: string)
    ensures |r| <= |s| && r == s[..|r|]
    ensures NoNewline(r)
    ensures |r| == |s| || s[|r|] == '\n'
  {
    if s == [] || s[0] == '\n' then [] else [s[0]] + FirstLine(s[1..])
  }

  /** `.*` stops at the end of the line. */
  lemma {:induction false} FirstLineConcat(a: string, rest: string)
    requires NoNewline(a) && (rest == [] || rest[0] == '\n')
    ensures FirstLine(a + rest) == a
  {
    if a != [] {
      assert (a + rest)[1..] == a[1..] + rest;
      FirstLineConcat(a[1..], rest);
      assert a == [a[0]] + a[1..];
    }
  }

  /** A non-empty run of `\w` characters. */
  predicate Word(s: string)
  {
    |s| > 0 && forall k | 0 <= k < |s| :: IsWordChar(s[k])
  }

  /** `@?\w+` as a whole string. */
  predicate IsRef(s: string)
  {
    |s| > 0 && (if s[0] == '@' then Word(s[1..]) else Word(s))
  }

  /** End of the maximal run of `\w` characters that starts at `i`. */
  function WordEnd(u: string, i: nat): (e: nat)
    requires i <= |u|
    ensures i <= e <= |u|
    decreases |u| - i
  {
    if i < |u| && IsWordChar(u[i]) then WordEnd(u, i + 1) else i
  }

  /** `(@?\w+)` followed by a non-word literal: an optional `@` and a non-empty
      maximal word run. `\w+` cannot give characters back there, because what
      follows it in the pattern is never a word character. */
  function RefEnd(u: string, i: nat): (r: Option<nat>)
    requires i <= |u|
    ensures r.Some? ==> i < r.value <= |u|
  {
    var j := if i < |u| && u[i] == '@' then i + 1 else i;
    var e := WordEnd(u, j);
    if e > j then Some(e) else None
  }

  /** `(@?\w+):(@?\w+)`: the ends of the two references. */
  function PairEnd(u: string, i: nat): (r: Option<(nat, nat)>)
    requires i <= |u|
    ensures r.Some? ==> i < r.value.0 < r.value.1 <= |u|
  {
    match RefEnd(u, i)
    case None => None
    case Some(x) =>
      if !HasAt(u, x, ":") then None
      else match RefEnd(u, x + 1)
      case None => None
      case Some(y) => Some((x, y))
  }

  /** The leftmost case-insensitive occurrence of `lit` at or after `i`. */
  function Occurrence(u: string, i: nat, lit: string): (r: Option<nat>)
    requires i <= |u|
    ensures r.Some? ==> i <= r.value && HasAt(u, r.value, lit)
    decreases |u| - i
  {
    if HasAt(u, i, lit) then Some(i)
    else if i == |u| then None
    else Occurrence(u, i + 1, lit)
  }

  // ---------------------------------------------------------------- tails

  /** `(boundary|component|threat)` */
  function ClassEnd(u: string): (r: Option<nat>)
    ensures r.Some? ==> 0 < r.value <= |u|
  {
    if HasAt(u, 0, "boundary") then Some(8)
    else if HasAt(u, 0, "component") then Some(9)
    else if HasAt(u, 0, "threat") then Some(6)
    else None
  }

  /** `(?::@(\w+)\b)?` tried at `b`: it takes part only when the separator follows it. */
  function SubIdEnd(u: string, b: nat, sep: string): (r: Option<nat>)
    requires b <= |u|
    ensures r.Some? ==> b + 2 < r.value && r.value + |sep| <= |u|
  {
    if !HasAt(u, b, ":@") then None
    else
      var e := WordEnd(u, b + 2);
      if e > b + 2 && HasAt(u, e, sep) then Some(e) else None
  }

  /** After `@alias ` / `@describe `:
      `(boundary|component|threat) @(\w+)\b(?::@(\w+)\b)?<sep>(.*)`. */
  function PropertyTail(u: string, sep: string): Option<Match>
  {
    match ClassEnd(u)
    case None => None
    case Some(q) => if HasAt(u, q, " @") then PropertyId(u, sep, q, WordEnd(u, q + 2)) else None
  }

  /** The rest of a property tail, once the id run `[q + 2, b)` has been read. */
  function PropertyId(u: string, sep: string, q: nat, b: nat): Option<Match>
    requires q + 2 <= b <= |u|
  {
    if b == q + 2 then None
    else match SubIdEnd(u, b, sep)
    case Some(e) => Some(PropertyGroups(u, q, b, e, e + |sep|))
    case None => if HasAt(u, b, sep) then Some(PropertyGroups(u, q, b, b, b + |sep|)) else None
  }

  /** The groups of a property tail: the class ends at `q`, the id at `b`, the
      sub-id (when `e > b`) at `e`, and the text starts at `f`. */
  function PropertyGroups(u: string, q: nat, b: nat, e: nat, f: nat): Match
    requires q + 2 <= b <= e <= f <= |u| && (e == b || b + 2 <= e)
  {
    PropertyMatch(u[..q], u[q + 2..b], if e == b then "" else u[b + 2..e], u[f..])
  }

  /** `(to|with)` tried at `i`: the end of the connector, or `i` when there is none. */
  function ConnectorEnd(u: string, i: nat): (c: nat)
    ensures c == i || c == i + 2 || c == i + 4
  {
    if HasAt(u, i, "to") then i + 2 else if HasAt(u, i, "with") then i + 4 else i
  }

  /** `(\w+):@(\w+)` at `i`: the ends of the two words. */
  function WordPairEnd(u: string, i: nat): (r: Option<(nat, nat)>)
    requires i <= |u|
    ensures r.Some? ==> i < r.value.0 && r.value.0 + 2 < r.value.1 <= |u|
  {
    var a := WordEnd(u, i);
    if a == i || !HasAt(u, a, ":@") then None
    else
      var b := WordEnd(u, a + 2);
      if b == a + 2 then None else Some((a, b))
  }

  /** After `@connects @`: `(\w+):@(\w+) (to|with) @(\w+):@(\w+)`. */
  function ConnectsTail(u: string): Option<Match>
  {
    match WordPairEnd(u, 0)
    case None => None
    case Some(p) =>
      if !HasAt(u, p.1, " ") then None
      else
        var c := ConnectorEnd(u, p.1 + 1);
        if c == p.1 + 1 || !HasAt(u, c, " @") then None
        else ConnectsDest(u, p, c)
  }

  /** The ` @(\w+):@(\w+)` after a connector that ends at `c`. */
  function ConnectsDest(u: string, p: (nat, nat), c: nat): Option<Match>
    requires p.0 + 2 <= p.1 < c && c + 2 <= |u|
  {
    match WordPairEnd(u, c + 2)
    case None => None
    case Some(r) => Some(ConnectsGroups(u, p.0, p.1, c, r.0, r.1))
  }

  /** The groups of a connects tail, delimited by the ends of its five words. */
  function ConnectsGroups(u: string, a: nat, b: nat, c: nat, d: nat, e: nat): Match
    requires a + 2 <= b && b + 1 <= c && c + 2 <= d && d + 2 <= e <= |u|
  {
    ConnectsMatch(u[..a], u[a + 2..b], u[b + 1..c], u[c + 2..d], u[d + 2..e])
  }

  /** After `@review `: `(@?\w+):(@?\w+) (.*)`. */
  function ReviewTail(u: string): Option<Match>
  {
    match PairEnd(u, 0)
    case None => None
    case Some(p) =>
      if !HasAt(u, p.1, " ") then None
      else Some(ReviewMatch(u[..p.0], u[p.0 + 1..p.1], u[p.1 + 1..]))
  }

  /** After `@mitigates ` / `@exposes `: `(@?\w+):(@?\w+)<sep>(.*?) with (.*)`.
      The lazy group ends at the first " with " after the separator. */
  function LazyTail(u: string, sep: string): Option<Match>
  {
    match PairEnd(u, 0)
    case None => None
    case Some(p) => if HasAt(u, p.1, sep) then LazyThreat(u, p, p.1 + |sep|) else None
  }

  /** The lazy `(.*?) with (.*)` from `q` on: the threat ends at the first " with ". */
  function LazyThreat(u: string, p: (nat, nat), q: nat): Option<Match>
    requires p.0 < p.1 <= q <= |u|
  {
    match Occurrence(u, q, " with ")
    case None => None
    case Some(w) => Some(LazyGroups(u, p, q, w))
  }

  /** The groups of a lazy tail: the reference pair ends at `p`, the threat spans `[q, w)`. */
  function LazyGroups(u: string, p: (nat, nat), q: nat, w: nat): Match
    requires p.0 < p.1 <= q <= w && w + 6 <= |u|
  {
    ElementMatch(u[..p.0], u[p.0 + 1..p.1], u[q..w], u[w + 6..])
  }

  /** Whether ` to (@?\w+):(@?\w+) with ` can follow a greedy `(.*)` that ends at `k`. */
  function Split(u: string, k: nat): (r: Option<(nat, nat)>)
    requires k <= |u|
    ensures r.Some? ==> k + 4 < r.value.0 < r.value.1 && r.value.1 + 6 <= |u|
  {
    if !HasAt(u, k, " to ") then None
    else match PairEnd(u, k + 4)
    case None => None
    case Some(p) => if HasAt(u, p.1, " with ") then Some(p) else None
  }

  /** The greedy `(.*)` backs off from the end of the line to the last viable split. */
  function LastSplit(u: string, k: nat): (r: Option<nat>)
    requires k <= |u|
    ensures r.Some? ==> r.value <= k && Split(u, r.value).Some?
  {
    if Split(u, k).Some? then Some(k)
    else if k == 0 then None
    else LastSplit(u, k - 1)
  }

  /** After `@transfers ` / `@accepts `: `(.*) to (@?\w+):(@?\w+) with (.*)`. */
  function GreedyTail(u: string): Option<Match>
  {
    match LastSplit(u, |u|)
    case None => None
    case Some(k) => Some(GreedyGroups(u, k, Split(u, k).value))
  }

  /** The groups of a greedy tail split at `k`, with the reference pair ending at `p`. */
  function GreedyGroups(u: string, k: nat, p: (nat, nat)): Match
    requires k + 4 < p.0 < p.1 && p.1 + 6 <= |u|
  {
    ElementMatch(u[k + 4..p.0], u[p.0 + 1..p.1], u[..k], u[p.1 + 6..])
  }

  // ---------------------------------------------------------------- one line

  /** The lower-case text every pattern starts with. */
  function Lead(t: Tag): (r: string)
    ensures LowerLiteral(r)
  {
    if t == Connects then "@connects @" else "@" + Keyword(t) + " "
  }

  /** The part of the pattern of tag `t` after its lead, tried on `u`. */
  function TailMatch(t: Tag, u: string): Option<Match>
  {
    match t
    case Alias => PropertyTail(u, " to ")
    case Describe => PropertyTail(u, " as ")
    case Connects => ConnectsTail(u)
    case Review => ReviewTail(u)
    case Mitigates => LazyTail(u, " against ")
    case Exposes => LazyTail(u, " to ")
    case Transfers => GreedyTail(u)
    case Accepts => GreedyTail(u)
  }

  /** The pattern of tag `t`, tried at the start of line `l`. */
  function MatchLine(t: Tag, l: string): Option<Match>
  {
    var kw := Lead(t);
    if HasAt(l, 0, kw) then TailMatch(t, l[|kw|..]) else None
  }

  // ---------------------------------------------------------------- the whole comment

  /** The pattern of tag `t` tried at position `p` of the comment. */
  function MatchAt(t: Tag, s: string, p: nat): Option<Match>
    requires p <= |s|
  {
    MatchLine(t, FirstLine(s[p..]))
  }

  /** The leftmost position at or after `p` where the pattern of `t` matches. */
  function First(t: Tag, s: string, p: nat): (r: Option<nat>)
    requires p <= |s|
    ensures r.Some? ==> p <= r.value < |s|
    decreases |s| - p
  {
    if p == |s| then None
    else if MatchAt(t, s, p).Some? then Some(p)
    else First(t, s, p + 1)
  }

  /** `re.findall(pattern, s, re.M | re.I)[0]`, or None when the list is empty:
      the match at the leftmost position where the pattern matches. */
  function Search(t: Tag, s: string): Option<Match>
  {
    match First(t, s, 0)
    case None => None
    case Some(p) => MatchAt(t, s, p)
  }
}
