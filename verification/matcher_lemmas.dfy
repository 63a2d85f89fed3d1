/** What the matchers of module Matchers accept: every match is a rendering of
    its groups (up to the case of the literal words), and every well-formed
    rendering is matched back into the same groups. */
module MatcherLemmas {
  import opened Wrappers
  import opened Chars
  import opened Matchers

  // ---------------------------------------------------------------- rendering

  /** The literal between the leading groups and the free text, per pattern. */
  function Sep(t: Tag): (r: string)
    ensures LowerLiteral(r) && |r| > 0 && r[0] == ' '
  {
    match t
    case Alias => " to "
    case Describe => " as "
    case Mitigates => " against "
    case Exposes => " to "
    case _ => " "
  }

  /** `pclass @id[:@subId]<sep>text` */
  function PropertyLine(pclass: string, id: string, subId: string, sep: string, text: string): string
  {
    if subId == "" then pclass + " @" + id + sep + text
    else pclass + " @" + id + ":@" + subId + sep + text
  }

  /** `sb:@sc conn @db:@dc` */
  function ConnectsLine(sb: string, sc: string, conn: string, db: string, dc: string): string
  {
    sb + ":@" + sc + " " + conn + " @" + db + ":@" + dc
  }

  /** A tag line written the way the pattern reads it, from the text after the lead. */
  function RenderTail(t: Tag, m: Match): string
  {
    match m
    case PropertyMatch(pclass, id, subId, text) => PropertyLine(pclass, id, subId, Sep(t), text)
    case ConnectsMatch(sb, sc, conn, db, dc) => ConnectsLine(sb, sc, conn, db, dc)
    case ReviewMatch(b, c, text) =>
      b + ":" + c + " " + text
    case ElementMatch(b, c, threat, text) =>
      if t == Transfers || t == Accepts then threat + " to " + b + ":" + c + " with " + text
      else b + ":" + c + Sep(t) + threat + " with " + text
  }

  function Render(t: Tag, m: Match): string
  {
    Lead(t) + RenderTail(t, m)
  }

  /** `(boundary|component|threat)` under `re.IGNORECASE`. */
  predicate IsClass(pclass: string)
  {
    var l := LowerStr(pclass);
    l == "boundary" || l == "component" || l == "threat"
  }

  /** `(to|with)` under `re.IGNORECASE`. */
  predicate IsConnector(conn: string)
  {
    LowerStr(conn) == "to" || LowerStr(conn) == "with"
  }

  /** The lazy `(.*?) with`: no " with " starts inside the threat text. */
  predicate FirstWith(threat: string)
  {
    forall k | 0 <= k < |threat| :: !HasAt(threat + " with ", k, " with ")
  }

  /** The greedy `(.*) to`: no later split point of the rendered tail is viable. */
  predicate LastTo(threat: string, g: string)
  {
    forall k | |threat| < k <= |g| :: Split(g, k).None?
  }

  /** The groups a match of tag `t` can have. */
  predicate WellFormed(t: Tag, m: Match)
  {
    match t
    case Alias => m.PropertyMatch? && IsClass(m.pclass) && Word(m.id) && (m.subId == "" || Word(m.subId))
    case Describe => m.PropertyMatch? && IsClass(m.pclass) && Word(m.id) && (m.subId == "" || Word(m.subId))
    case Connects =>
      && m.ConnectsMatch? && Word(m.sourceBoundary) && Word(m.sourceComponent)
      && IsConnector(m.connector)
      && Word(m.destBoundary) && Word(m.destComponent)
    case Review => m.ReviewMatch? && IsRef(m.boundary) && IsRef(m.component)
    case Mitigates => m.ElementMatch? && IsRef(m.boundary) && IsRef(m.component) && FirstWith(m.threat)
    case Exposes => m.ElementMatch? && IsRef(m.boundary) && IsRef(m.component) && FirstWith(m.threat)
    case Transfers =>
      m.ElementMatch? && IsRef(m.boundary) && IsRef(m.component) && LastTo(m.threat, RenderTail(t, m))
    case Accepts =>
      m.ElementMatch? && IsRef(m.boundary) && IsRef(m.component) && LastTo(m.threat, RenderTail(t, m))
  }

  // ---------------------------------------------------------------- scanning known text

  /** `WordEnd` stops at the end of the word run. */
  lemma {:induction false} WordEndSound(u: string, i: nat)
    requires i <= |u|
    ensures forall k | i <= k < WordEnd(u, i) :: IsWordChar(u[k])
    ensures WordEnd(u, i) == |u| || !IsWordChar(u[WordEnd(u, i)])
    decreases |u| - i
  {
    if i < |u| && IsWordChar(u[i]) {
      WordEndSound(u, i + 1);
    }
  }

  lemma RefEndSound(u: string, i: nat)
    requires i <= |u| && RefEnd(u, i).Some?
    ensures IsRef(u[i..RefEnd(u, i).value])
    ensures RefEnd(u, i).value == |u| || !IsWordChar(u[RefEnd(u, i).value])
  {
    var e := RefEnd(u, i).value;
    var j := if u[i] == '@' then i + 1 else i;
    WordEndSound(u, j);
    WordSliceSound(u, j);
    var r := u[i..e];
    if u[i] == '@' {
      assert r[0] == '@' && r[1..] == u[i + 1..e];
    } else {
      assert r[0] != '@' && r == u[j..e];
    }
  }

  lemma PairEndSound(u: string, i: nat)
    requires i <= |u| && PairEnd(u, i).Some?
    ensures var (x, y) := PairEnd(u, i).value;
      IsRef(u[i..x]) && u[x] == ':' && IsRef(u[x + 1..y]) && (y == |u| || !IsWordChar(u[y]))
  {
    var x := RefEnd(u, i).value;
    RefEndSound(u, i);
    RefEndSound(u, x + 1);
    HasAtExact(u, x, ":");
  }

  /** `PairEndSound` at known positions. */
  lemma PairEndParts(u: string, i: nat, x: nat, y: nat)
    requires i <= |u| && PairEnd(u, i) == Some((x, y))
    ensures i < x < y <= |u| && IsRef(u[i..x]) && u[x] == ':' && IsRef(u[x + 1..y])
  {
    PairEndSound(u, i);
  }

  lemma PairEndIs(u: string, i: nat, x: nat, y: nat)
    requires i <= x < |u| && RefEnd(u, i) == Some(x) && u[x] == ':' && RefEnd(u, x + 1) == Some(y)
    ensures PairEnd(u, i) == Some((x, y))
  {
    LowerStrAt(u, x);
    assert LowerStr(u)[x..x + 1] == ":";
  }

  /** A literal that holds no letter is found only as itself. */
  lemma HasAtExact(u: string, i: nat, lit: string)
    requires HasAt(u, i, lit)
    requires forall k | 0 <= k < |lit| :: !('a' <= lit[k] <= 'z')
    ensures u[i..i + |lit|] == lit
  {
    var w := u[i..i + |lit|];
    forall k | 0 <= k < |lit|
      ensures w[k] == lit[k]
    {
      LowerStrAt(u, i + k);
      assert LowerStr(u)[i + k] == lit[k];
      LowerFixes(u[i + k], lit[k]);
    }
  }

  /** No occurrence of `lit` lies before the one `Occurrence` finds ... */
  lemma {:induction false} OccurrenceNoneBefore(u: string, i: nat, lit: string, k: nat)
    requires i <= k <= |u| && Occurrence(u, i, lit).Some? && k < Occurrence(u, i, lit).value
    ensures !HasAt(u, k, lit)
    decreases k - i
  {
    if i < k && !HasAt(u, i, lit) {
      OccurrenceNoneBefore(u, i + 1, lit, k);
    }
  }

  /** ... and none at all when it finds none. */
  lemma {:induction false} OccurrenceNone(u: string, i: nat, lit: string, k: nat)
    requires i <= k <= |u| && Occurrence(u, i, lit).None?
    ensures !HasAt(u, k, lit)
    decreases k - i
  {
    if i < k {
      OccurrenceNone(u, i + 1, lit, k);
    }
  }

  /** `Occurrence` finds the leftmost occurrence. */
  /** No occurrence of `lit` starts before the first one found. */
  lemma OccurrenceFirst(u: string, i: nat, lit: string, w: nat)
    requires i <= |u| && Occurrence(u, i, lit) == Some(w)
    ensures i <= w && HasAt(u, w, lit) && forall k | i <= k < w :: !HasAt(u, k, lit)
  {
    OccurrenceSound(u, i, lit);
  }

  lemma OccurrenceSound(u: string, i: nat, lit: string)
    requires i <= |u|
    ensures Occurrence(u, i, lit).Some? ==> forall k | i <= k < Occurrence(u, i, lit).value :: !HasAt(u, k, lit)
    ensures Occurrence(u, i, lit).None? ==> forall k | i <= k <= |u| :: !HasAt(u, k, lit)
  {
    if Occurrence(u, i, lit).Some? {
      forall k | i <= k < Occurrence(u, i, lit).value
        ensures !HasAt(u, k, lit)
      {
        OccurrenceNoneBefore(u, i, lit, k);
      }
    } else {
      forall k | i <= k <= |u|
        ensures !HasAt(u, k, lit)
      {
        OccurrenceNone(u, i, lit, k);
      }
    }
  }

  lemma {:induction false} OccurrenceIs(u: string, i: nat, lit: string, w: nat)
    requires i <= w <= |u| && HasAt(u, w, lit)
    requires forall k | i <= k < w :: !HasAt(u, k, lit)
    ensures Occurrence(u, i, lit) == Some(w)
    decreases w - i
  {
    if i < w {
      OccurrenceIs(u, i + 1, lit, w);
    }
  }

  /** No split after the one `LastSplit` finds is viable. */
  /** No split after the one `LastSplit` finds is viable ... */
  lemma {:induction false} LastSplitNoneAfter(u: string, k: nat, j: nat)
    requires j <= k <= |u| && LastSplit(u, k).Some? && LastSplit(u, k).value < j
    ensures Split(u, j).None?
  {
    if Split(u, k).None? && j < k {
      LastSplitNoneAfter(u, k - 1, j);
    }
  }

  /** ... and none at all when it finds none. */
  lemma {:induction false} LastSplitNone(u: string, k: nat, j: nat)
    requires j <= k <= |u| && LastSplit(u, k).None?
    ensures Split(u, j).None?
  {
    if j < k {
      LastSplitNone(u, k - 1, j);
    }
  }

  /** `LastSplit` finds the last viable split. */
  lemma LastSplitSound(u: string, k: nat)
    requires k <= |u|
    ensures LastSplit(u, k).Some? ==> forall j | LastSplit(u, k).value < j <= k :: Split(u, j).None?
    ensures LastSplit(u, k).None? ==> forall j | 0 <= j <= k :: Split(u, j).None?
  {
    if LastSplit(u, k).Some? {
      forall j | LastSplit(u, k).value < j <= k
        ensures Split(u, j).None?
      {
        LastSplitNoneAfter(u, k, j);
      }
    } else {
      forall j | 0 <= j <= k
        ensures Split(u, j).None?
      {
        LastSplitNone(u, k, j);
      }
    }
  }

  lemma {:induction false} LastSplitIs(u: string, k: nat, j: nat)
    requires k <= j <= |u| && Split(u, k).Some?
    requires forall i | k < i <= j :: Split(u, i).None?
    ensures LastSplit(u, j) == Some(k)
    decreases j - k
  {
    if k < j {
      LastSplitStep(u, j);
      LastSplitIs(u, k, j - 1);
    } else {
      LastSplitHere(u, k);
    }
  }

  /** The search goes on leftwards past a position where no split starts. */
  lemma LastSplitStep(u: string, j: nat)
    requires 0 < j <= |u| && Split(u, j).None?
    ensures LastSplit(u, j) == LastSplit(u, j - 1)
  {
  }

  /** The search stops at the first split it meets. */
  lemma LastSplitHere(u: string, k: nat)
    requires k <= |u| && Split(u, k).Some?
    ensures LastSplit(u, k) == Some(k)
  {
  }

  lemma {:induction false} WordEndAt(u: string, j: nat, e: nat)
    requires j <= e <= |u|
    requires forall k | j <= k < e :: IsWordChar(u[k])
    requires e == |u| || !IsWordChar(u[e])
    ensures WordEnd(u, j) == e
    decreases e - j
  {
    if j < e {
      WordEndAt(u, j + 1, e);
    }
  }

  lemma RefEndAt(u: string, i: nat, e: nat)
    requires i <= e <= |u| && IsRef(u[i..e])
    requires e == |u| || !IsWordChar(u[e])
    ensures RefEnd(u, i) == Some(e)
  {
    var r := u[i..e];
    assert u[i] == r[0];
    if u[i] == '@' {
      forall k | i + 1 <= k < e
        ensures IsWordChar(u[k])
      {
        assert u[k] == r[1..][k - i - 1];
      }
      WordEndAt(u, i + 1, e);
    } else {
      forall k | i <= k < e
        ensures IsWordChar(u[k])
      {
        assert u[k] == r[k - i];
      }
      WordEndAt(u, i, e);
    }
  }

  lemma PairEndAt(u: string, i: nat, x: nat, y: nat)
    requires i <= x < y <= |u| && IsRef(u[i..x]) && u[x] == ':' && IsRef(u[x + 1..y])
    requires y == |u| || !IsWordChar(u[y])
    ensures PairEnd(u, i) == Some((x, y))
  {
    RefEndAt(u, i, x);
    RefEndAt(u, x + 1, y);
    PairEndIs(u, i, x, y);
  }

  lemma HasAtIs(u: string, i: nat, lit: string)
    requires LowerLiteral(lit) && i + |lit| <= |u| && u[i..i + |lit|] == lit
    ensures HasAt(u, i, lit)
  {
    LowerLiteralFixed(lit);
    LowerStrSlice(u, i, i + |lit|);
  }

  /** A word slice that ends where the word run ends. */
  lemma WordSliceEnd(u: string, a: nat, b: nat)
    requires a < b <= |u| && Word(u[a..b]) && (b == |u| || !IsWordChar(u[b]))
    ensures WordEnd(u, a) == b
  {
    forall k | a <= k < b
      ensures IsWordChar(u[k])
    {
      assert u[k] == u[a..b][k - a];
    }
    WordEndAt(u, a, b);
  }

  lemma WordSliceSound(u: string, a: nat)
    requires a <= |u| && a < WordEnd(u, a)
    ensures Word(u[a..WordEnd(u, a)])
  {
    WordEndSound(u, a);
  }

  // ---------------------------------------------------------------- case does not matter

  lemma {:induction false} FoldEqWordEnd(u: string, v: string, i: nat)
    requires FoldEq(u, v) && i <= |u|
    ensures WordEnd(u, i) == WordEnd(v, i)
    decreases |u| - i
  {
    if i < |u| {
      LowerStrAt(u, i);
      LowerStrAt(v, i);
      FoldEqWordEnd(u, v, i + 1);
    }
  }

  lemma FoldEqRefEnd(u: string, v: string, i: nat)
    requires FoldEq(u, v) && i <= |u|
    ensures RefEnd(u, i) == RefEnd(v, i)
  {
    if i < |u| {
      LowerStrAt(u, i);
      LowerStrAt(v, i);
      if u[i] == '@' {
        LowerFixes(v[i], '@');
      }
      if v[i] == '@' {
        LowerFixes(u[i], '@');
      }
    }
    FoldEqWordEnd(u, v, i);
    if i < |u| {
      FoldEqWordEnd(u, v, i + 1);
    }
  }

  lemma FoldEqPairEnd(u: string, v: string, i: nat)
    requires FoldEq(u, v) && i <= |u|
    ensures PairEnd(u, i) == PairEnd(v, i)
  {
    FoldEqRefEnd(u, v, i);
    if RefEnd(u, i).Some? {
      var x := RefEnd(u, i).value;
      FoldEqHasAt(u, v, x, ":");
      if HasAt(u, x, ":") {
        FoldEqRefEnd(u, v, x + 1);
      }
    }
  }

  lemma FoldEqSplit(u: string, v: string, k: nat)
    requires FoldEq(u, v) && k <= |u|
    ensures Split(u, k) == Split(v, k)
  {
    FoldEqHasAt(u, v, k, " to ");
    if HasAt(u, k, " to ") {
      FoldEqPairEnd(u, v, k + 4);
      if PairEnd(u, k + 4).Some? {
        FoldEqHasAt(u, v, PairEnd(u, k + 4).value.1, " with ");
      }
    }
  }

  // ---------------------------------------------------------------- @alias, @describe

  lemma LiteralAtLowered(u: string, i: nat, j: nat, lit: string)
    requires i <= j <= |u| && |lit| > 0 && LowerStr(u)[i..j] == lit
    ensures j == i + |lit| && HasAt(u, i, lit) && LowerStr(u)[i] == lit[0]
  {
    var l := LowerStr(u);
    assert l[i] == l[i..j][0];
  }

  /** A slice equal to a lower-case literal up to case is where the literal is found. */
  lemma LiteralAt(u: string, i: nat, j: nat, lit: string)
    requires i <= j <= |u| && |lit| > 0 && LowerStr(u[i..j]) == lit
    ensures j == i + |lit| && HasAt(u, i, lit) && LowerStr(u)[i] == lit[0]
  {
    LowerStrSlice(u, i, j);
    LiteralAtLowered(u, i, j, lit);
  }

  /** A literal found at `i` is the slice there, lower-cased. */
  lemma LiteralSlice(u: string, i: nat, lit: string)
    requires HasAt(u, i, lit)
    ensures LowerStr(u[i..i + |lit|]) == lit
  {
    LowerStrSlice(u, i, i + |lit|);
  }

  /** A prefix equal up to case, extended by a literal found next and the slice after it. */
  lemma FoldEqLiteralSlice(u: string, c: nat, lit: string, d: nat, head: string)
    requires LowerLiteral(lit) && c + |lit| <= d <= |u| && FoldEq(u[..c], head) && HasAt(u, c, lit)
    ensures FoldEq(u[..d], head + lit + u[c + |lit|..d])
  {
    HasAtFoldEq(u, c, lit);
    FoldEqExtend(u, c, c + |lit|, head, lit);
    FoldEqExtend(u, c + |lit|, d, head + lit, u[c + |lit|..d]);
  }

  /** The class word at the start of a line, given its length. */
  lemma ClassEndAt(u: string, q: nat)
    requires q <= |u| && IsClass(u[..q])
    ensures ClassEnd(u) == Some(q)
  {
    assert u[0..q] == u[..q];
    if LowerStr(u[..q]) == "boundary" {
      LiteralAt(u, 0, q, "boundary");
    } else if LowerStr(u[..q]) == "component" {
      LiteralAt(u, 0, q, "component");
    } else {
      LiteralAt(u, 0, q, "threat");
    }
  }

  lemma ClassEndSound(u: string)
    requires ClassEnd(u).Some?
    ensures IsClass(u[..ClassEnd(u).value])
  {
    var q := ClassEnd(u).value;
    assert u[0..q] == u[..q];
    if HasAt(u, 0, "boundary") {
      LiteralSlice(u, 0, "boundary");
    } else if HasAt(u, 0, "component") {
      LiteralSlice(u, 0, "component");
    } else {
      LiteralSlice(u, 0, "threat");
    }
  }

  lemma SubIdEndAt(u: string, sep: string, b: nat, e: nat)
    requires LowerLiteral(sep) && |sep| > 0 && sep[0] == ' '
    requires b + 2 < e && e + |sep| <= |u|
    requires u[b..b + 2] == ":@" && Word(u[b + 2..e]) && u[e..e + |sep|] == sep
    ensures SubIdEnd(u, b, sep) == Some(e)
  {
    HasAtIs(u, b, ":@");
    SpaceAt(u, e, sep);
    WordSliceEnd(u, b + 2, e);
    HasAtIs(u, e, sep);
  }

  /** The optional `:@id` group does not take part when the separator follows the id. */
  lemma SubIdEndNone(u: string, sep: string, b: nat)
    requires |sep| > 0 && sep[0] == ' ' && b + |sep| <= |u| && u[b..b + |sep|] == sep
    ensures SubIdEnd(u, b, sep).None?
  {
    assert u[b] == ' ';
    LowerStrAt(u, b);
  }

  lemma PropertyTailIs(u: string, sep: string, q: nat, b: nat)
    requires ClassEnd(u) == Some(q) && HasAt(u, q, " @") && WordEnd(u, q + 2) == b
    ensures PropertyTail(u, sep) == PropertyId(u, sep, q, b)
  {
  }

  /** The start of a property tail laid out as `pclass @id`, given by positions. */
  lemma PropertyHeadAt(u: string, q: nat, b: nat)
    requires q + 2 < b < |u| && IsClass(u[..q]) && u[q..q + 2] == " @" && Word(u[q + 2..b])
    requires !IsWordChar(u[b])
    ensures ClassEnd(u) == Some(q) && HasAt(u, q, " @") && WordEnd(u, q + 2) == b
  {
    ClassEndAt(u, q);
    HasAtIs(u, q, " @");
    WordSliceEnd(u, q + 2, b);
  }

  /** Where the groups of a rendered property tail without a sub-id lie. */
  lemma PropertySlices(u: string, pclass: string, id: string, sep: string, text: string, q: nat, b: nat)
    requires u == pclass + " @" + id + sep + text && q == |pclass| && b == q + 2 + |id|
    ensures b + |sep| <= |u| && u[..q] == pclass && u[q..q + 2] == " @" && u[q + 2..b] == id
    ensures u[b..b + |sep|] == sep && u[b + |sep|..] == text
  {
  }

  /** Where the groups of a rendered property tail with a sub-id lie. */
  lemma PropertySubSlices(u: string, pclass: string, id: string, subId: string, sep: string, text: string,
                          q: nat, b: nat, e: nat)
    requires u == pclass + " @" + id + ":@" + subId + sep + text
    requires q == |pclass| && b == q + 2 + |id| && e == b + 2 + |subId|
    ensures e + |sep| <= |u| && u[..q] == pclass && u[q..q + 2] == " @" && u[q + 2..b] == id
    ensures u[b..b + 2] == ":@" && u[b + 2..e] == subId && u[e..e + |sep|] == sep && u[e + |sep|..] == text
  {
  }

  /** The property tail of a line laid out as `pclass @id<sep>text`, given by positions. */
  lemma PropertyTailAt(u: string, sep: string, q: nat, b: nat)
    requires LowerLiteral(sep) && |sep| > 0 && sep[0] == ' '
    requires q + 2 < b && b + |sep| <= |u| && IsClass(u[..q]) && u[q..q + 2] == " @" && Word(u[q + 2..b])
    requires u[b..b + |sep|] == sep
    ensures PropertyTail(u, sep) == Some(PropertyGroups(u, q, b, b, b + |sep|))
  {
    SpaceAt(u, b, sep);
    PropertyHeadAt(u, q, b);
    SubIdEndNone(u, sep, b);
    HasAtIs(u, b, sep);
    PropertyTailIs(u, sep, q, b);
  }

  /** The property tail of a line laid out as `pclass @id:@subId<sep>text`, given by positions. */
  lemma PropertySubTailAt(u: string, sep: string, q: nat, b: nat, e: nat)
    requires LowerLiteral(sep) && |sep| > 0 && sep[0] == ' '
    requires q + 2 < b && b + 2 < e && e + |sep| <= |u| && IsClass(u[..q]) && u[q..q + 2] == " @"
    requires Word(u[q + 2..b]) && u[b..b + 2] == ":@" && Word(u[b + 2..e]) && u[e..e + |sep|] == sep
    ensures PropertyTail(u, sep) == Some(PropertyGroups(u, q, b, e, e + |sep|))
  {
    assert u[b] == u[b..b + 2][0];
    PropertyHeadAt(u, q, b);
    SubIdEndAt(u, sep, b, e);
    PropertyTailIs(u, sep, q, b);
  }

  lemma PropertyTailComplete(sep: string, pclass: string, id: string, subId: string, text: string)
    requires LowerLiteral(sep) && |sep| > 0 && sep[0] == ' '
    requires IsClass(pclass) && Word(id) && (subId == "" || Word(subId))
    ensures PropertyTail(PropertyLine(pclass, id, subId, sep, text), sep)
         == Some(PropertyMatch(pclass, id, subId, text))
  {
    var u := PropertyLine(pclass, id, subId, sep, text);
    var q := |pclass|;
    var b := q + 2 + |id|;
    if subId == "" {
      PropertySlices(u, pclass, id, sep, text, q, b);
      PropertyTailAt(u, sep, q, b);
    } else {
      var e := b + 2 + |subId|;
      PropertySubSlices(u, pclass, id, subId, sep, text, q, b, e);
      PropertySubTailAt(u, sep, q, b, e);
    }
  }

  /** A property tail without a sub-id is the rendering of its groups, up to case. */
  lemma PropertyFoldEq(u: string, sep: string, q: nat, b: nat)
    requires LowerLiteral(sep) && q + 2 <= b && b + |sep| <= |u|
    requires HasAt(u, q, " @") && HasAt(u, b, sep)
    ensures FoldEq(u, u[..q] + " @" + u[q + 2..b] + sep + u[b + |sep|..])
  {
    FoldEqLiteralSlice(u, q, " @", b, u[..q]);
    FoldEqLiteralSlice(u, b, sep, |u|, u[..q] + " @" + u[q + 2..b]);
    assert u[..|u|] == u && u[b + |sep|..|u|] == u[b + |sep|..];
  }

  /** A property tail with a sub-id is the rendering of its groups, up to case. */
  lemma PropertySubFoldEq(u: string, sep: string, q: nat, b: nat, e: nat)
    requires LowerLiteral(sep) && q + 2 <= b && b + 2 <= e && e + |sep| <= |u|
    requires HasAt(u, q, " @") && HasAt(u, b, ":@") && HasAt(u, e, sep)
    ensures FoldEq(u, u[..q] + " @" + u[q + 2..b] + ":@" + u[b + 2..e] + sep + u[e + |sep|..])
  {
    var head := u[..q] + " @" + u[q + 2..b];
    FoldEqLiteralSlice(u, q, " @", b, u[..q]);
    FoldEqLiteralSlice(u, b, ":@", e, head);
    FoldEqLiteralSlice(u, e, sep, |u|, head + ":@" + u[b + 2..e]);
    assert u[..|u|] == u && u[e + |sep|..|u|] == u[e + |sep|..];
  }

  /** The groups a property tail without a sub-id matched have the shape the pattern demands. */
  lemma PropertyGroupsSound(u: string, sep: string, q: nat, b: nat, pclass: string, id: string, text: string)
    requires LowerLiteral(sep) && q + 2 < b && b + |sep| <= |u|
    requires ClassEnd(u) == Some(q) && HasAt(u, q, " @") && WordEnd(u, q + 2) == b && HasAt(u, b, sep)
    requires pclass == u[..q] && id == u[q + 2..b] && text == u[b + |sep|..]
    ensures IsClass(pclass) && Word(id) && FoldEq(u, PropertyLine(pclass, id, "", sep, text))
  {
    ClassEndSound(u);
    WordSliceSound(u, q + 2);
    PropertyFoldEq(u, sep, q, b);
  }

  /** The groups a property tail with a sub-id matched have the shape the pattern demands. */
  lemma PropertySubGroupsSound(u: string, sep: string, q: nat, b: nat, e: nat,
                               pclass: string, id: string, subId: string, text: string)
    requires LowerLiteral(sep) && q + 2 < b && b + 2 < e && e + |sep| <= |u|
    requires ClassEnd(u) == Some(q) && HasAt(u, q, " @") && WordEnd(u, q + 2) == b
    requires HasAt(u, b, ":@") && WordEnd(u, b + 2) == e && HasAt(u, e, sep)
    requires pclass == u[..q] && id == u[q + 2..b] && subId == u[b + 2..e] && text == u[e + |sep|..]
    ensures IsClass(pclass) && Word(id) && Word(subId) && FoldEq(u, PropertyLine(pclass, id, subId, sep, text))
  {
    ClassEndSound(u);
    WordSliceSound(u, q + 2);
    WordSliceSound(u, b + 2);
    PropertySubFoldEq(u, sep, q, b, e);
  }

  lemma PropertyTailSound(u: string, sep: string)
    requires LowerLiteral(sep) && PropertyTail(u, sep).Some?
    ensures var m := PropertyTail(u, sep).value;
      && m.PropertyMatch? && IsClass(m.pclass) && Word(m.id) && (m.subId == "" || Word(m.subId))
      && FoldEq(u, PropertyLine(m.pclass, m.id, m.subId, sep, m.text))
  {
    var m := PropertyTail(u, sep).value;
    var q := ClassEnd(u).value;
    var b := WordEnd(u, q + 2);
    PropertyTailIs(u, sep, q, b);
    if SubIdEnd(u, b, sep).Some? {
      var e := SubIdEnd(u, b, sep).value;
      PropertySubGroupsSound(u, sep, q, b, e, m.pclass, m.id, m.subId, m.text);
    } else {
      PropertyGroupsSound(u, sep, q, b, m.pclass, m.id, m.text);
    }
  }

  // ---------------------------------------------------------------- @connects

  /** The connector word, given its length. */
  lemma ConnectorEndSound(u: string, i: nat)
    requires i <= |u| && ConnectorEnd(u, i) > i
    ensures ConnectorEnd(u, i) <= |u| && IsConnector(u[i..ConnectorEnd(u, i)])
  {
    if HasAt(u, i, "to") {
      LiteralSlice(u, i, "to");
    } else {
      LiteralSlice(u, i, "with");
    }
  }

  lemma ConnectorAt(u: string, i: nat, c: nat)
    requires i <= c <= |u| && IsConnector(u[i..c])
    ensures ConnectorEnd(u, i) == c
  {
    if LowerStr(u[i..c]) == "to" {
      LiteralAt(u, i, c, "to");
    } else {
      LiteralAt(u, i, c, "with");
    }
  }

  lemma ConnectsTailIs(u: string, a: nat, b: nat, c: nat, d: nat, e: nat)
    requires WordPairEnd(u, 0) == Some((a, b)) && HasAt(u, b, " ")
    requires c == ConnectorEnd(u, b + 1) && c > b + 1 && HasAt(u, c, " @") && WordPairEnd(u, c + 2) == Some((d, e))
    ensures ConnectsTail(u) == Some(ConnectsGroups(u, a, b, c, d, e))
  {
    ConnectsTailDest(u, a, b, c);
  }

  lemma ConnectsTailDest(u: string, a: nat, b: nat, c: nat)
    requires WordPairEnd(u, 0) == Some((a, b)) && HasAt(u, b, " ")
    requires c == ConnectorEnd(u, b + 1) && c > b + 1 && HasAt(u, c, " @")
    ensures ConnectsTail(u) == ConnectsDest(u, (a, b), c)
  {
  }

  /** `(\w+):@(\w+)` of a line laid out as `x:@y`, given by positions. */
  lemma WordPairEndAt(u: string, i: nat, a: nat, b: nat)
    requires i < a && a + 2 < b <= |u| && Word(u[i..a]) && u[a..a + 2] == ":@" && Word(u[a + 2..b])
    requires b == |u| || !IsWordChar(u[b])
    ensures WordPairEnd(u, i) == Some((a, b))
  {
    assert u[a] == u[a..a + 2][0];
    WordSliceEnd(u, i, a);
    HasAtIs(u, a, ":@");
    WordSliceEnd(u, a + 2, b);
  }

  lemma WordPairEndSound(u: string, i: nat)
    requires i <= |u| && WordPairEnd(u, i).Some?
    ensures var (a, b) := WordPairEnd(u, i).value;
      Word(u[i..a]) && HasAt(u, a, ":@") && Word(u[a + 2..b]) && (b == |u| || !IsWordChar(u[b]))
  {
    var a := WordEnd(u, i);
    WordSliceSound(u, i);
    WordSliceSound(u, a + 2);
    WordEndSound(u, a + 2);
  }

  /** Where the first reference pair of a rendered connects tail lies. */
  lemma ConnectsSourceSlices(u: string, sb: string, sc: string, conn: string, db: string, dc: string, rest: string,
                             a: nat, b: nat, c: nat)
    requires u == ConnectsLine(sb, sc, conn, db, dc) + rest
    requires a == |sb| && b == a + 2 + |sc| && c == b + 1 + |conn|
    ensures c <= |u| && u[0..a] == sb && u[a..a + 2] == ":@" && u[a + 2..b] == sc && u[b..b + 1] == " "
    ensures u[b + 1..c] == conn
  {
  }

  /** Where the second reference pair of a rendered connects tail lies. */
  lemma ConnectsDestSlices(u: string, sb: string, sc: string, conn: string, db: string, dc: string, rest: string,
                           c: nat, d: nat, e: nat)
    requires u == ConnectsLine(sb, sc, conn, db, dc) + rest
    requires c == |sb| + 2 + |sc| + 1 + |conn| && d == c + 2 + |db| && e == d + 2 + |dc|
    ensures e <= |u| && u[c..c + 2] == " @" && u[c + 2..d] == db && u[d..d + 2] == ":@" && u[d + 2..e] == dc
    ensures e < |u| ==> u[e] == rest[0]
  {
  }

  /** Where the groups of a rendered connects tail lie. */
  lemma ConnectsSlices(u: string, sb: string, sc: string, conn: string, db: string, dc: string, rest: string,
                       a: nat, b: nat, c: nat, d: nat, e: nat)
    requires u == ConnectsLine(sb, sc, conn, db, dc) + rest
    requires a == |sb| && b == a + 2 + |sc| && c == b + 1 + |conn| && d == c + 2 + |db| && e == d + 2 + |dc|
    requires Word(sb) && Word(sc) && IsConnector(conn) && Word(db) && Word(dc)
    requires rest == [] || !IsWordChar(rest[0])
    ensures 0 < a && a + 2 < b && b + 1 < c && c + 2 < d && d + 2 < e <= |u|
    ensures Word(u[0..a]) && u[a..a + 2] == ":@" && Word(u[a + 2..b]) && u[b..b + 1] == " "
    ensures IsConnector(u[b + 1..c])
    ensures u[c..c + 2] == " @" && Word(u[c + 2..d]) && u[d..d + 2] == ":@" && Word(u[d + 2..e])
    ensures e == |u| || !IsWordChar(u[e])
    ensures ConnectsGroups(u, a, b, c, d, e) == ConnectsMatch(sb, sc, conn, db, dc)
  {
    ConnectsSourceSlices(u, sb, sc, conn, db, dc, rest, a, b, c);
    ConnectsDestSlices(u, sb, sc, conn, db, dc, rest, c, d, e);
    assert u[0..a] == u[..a];
  }

  /** The connects tail of a line laid out as `sb:@sc conn @db:@dc`, given by positions. */
  lemma ConnectsTailAt(u: string, a: nat, b: nat, c: nat, d: nat, e: nat)
    requires 0 < a && a + 2 < b && b + 1 < c && c + 2 < d && d + 2 < e <= |u|
    requires Word(u[0..a]) && u[a..a + 2] == ":@" && Word(u[a + 2..b]) && u[b..b + 1] == " "
    requires IsConnector(u[b + 1..c])
    requires u[c..c + 2] == " @" && Word(u[c + 2..d]) && u[d..d + 2] == ":@" && Word(u[d + 2..e])
    requires e == |u| || !IsWordChar(u[e])
    ensures ConnectsTail(u) == Some(ConnectsGroups(u, a, b, c, d, e))
  {
    ConnectsFrontAt(u, a, b, c);
    ConnectsBackAt(u, c, d, e);
    ConnectsTailIs(u, a, b, c, d, e);
  }

  /** `(\w+):@(\w+) (to|with)` of a line laid out so, given by positions. */
  lemma ConnectsFrontAt(u: string, a: nat, b: nat, c: nat)
    requires 0 < a && a + 2 < b && b + 1 < c <= |u|
    requires Word(u[0..a]) && u[a..a + 2] == ":@" && Word(u[a + 2..b]) && u[b..b + 1] == " "
    requires IsConnector(u[b + 1..c])
    ensures WordPairEnd(u, 0) == Some((a, b)) && HasAt(u, b, " ") && ConnectorEnd(u, b + 1) == c
  {
    SpaceAt(u, b, " ");
    WordPairEndAt(u, 0, a, b);
    HasAtIs(u, b, " ");
    ConnectorAt(u, b + 1, c);
  }

  /** ` @(\w+):@(\w+)` of a line laid out so, given by positions. */
  lemma ConnectsBackAt(u: string, c: nat, d: nat, e: nat)
    requires c + 2 < d && d + 2 < e <= |u|
    requires u[c..c + 2] == " @" && Word(u[c + 2..d]) && u[d..d + 2] == ":@" && Word(u[d + 2..e])
    requires e == |u| || !IsWordChar(u[e])
    ensures HasAt(u, c, " @") && WordPairEnd(u, c + 2) == Some((d, e))
  {
    HasAtIs(u, c, " @");
    WordPairEndAt(u, c + 2, d, e);
  }

  /** `(\w+)` at the end of the pattern stops at the end of the word run, so the
      connects pattern also matches a line with more text after it. */
  lemma ConnectsTailComplete(sb: string, sc: string, conn: string, db: string, dc: string, rest: string)
    requires Word(sb) && Word(sc) && IsConnector(conn) && Word(db) && Word(dc)
    requires rest == [] || !IsWordChar(rest[0])
    ensures ConnectsTail(ConnectsLine(sb, sc, conn, db, dc) + rest) == Some(ConnectsMatch(sb, sc, conn, db, dc))
  {
    var u := ConnectsLine(sb, sc, conn, db, dc) + rest;
    var a := |sb|;
    var b := a + 2 + |sc|;
    var c := b + 1 + |conn|;
    var d := c + 2 + |db|;
    var e := d + 2 + |dc|;
    ConnectsSlices(u, sb, sc, conn, db, dc, rest, a, b, c, d, e);
    ConnectsTailAt(u, a, b, c, d, e);
  }

  /** The part of a connects tail up to the connector, up to case. */
  lemma ConnectsHeadFoldEq(u: string, a: nat, b: nat, c: nat)
    requires a + 2 <= b && b + 1 <= c <= |u| && HasAt(u, a, ":@") && HasAt(u, b, " ")
    ensures FoldEq(u[..c], u[..a] + ":@" + u[a + 2..b] + " " + u[b + 1..c])
  {
    FoldEqLiteralSlice(u, a, ":@", b, u[..a]);
    FoldEqLiteralSlice(u, b, " ", c, u[..a] + ":@" + u[a + 2..b]);
  }

  /** A connects tail up to the end of its last group is the rendering of its groups, up to case. */
  lemma ConnectsFoldEq(u: string, a: nat, b: nat, c: nat, d: nat, e: nat)
    requires a + 2 <= b && b + 1 <= c && c + 2 <= d && d + 2 <= e <= |u|
    requires HasAt(u, a, ":@") && HasAt(u, b, " ") && HasAt(u, c, " @") && HasAt(u, d, ":@")
    ensures FoldEq(u[..e], u[..a] + ":@" + u[a + 2..b] + " " + u[b + 1..c] + " @" + u[c + 2..d] + ":@" + u[d + 2..e])
  {
    var head := u[..a] + ":@" + u[a + 2..b] + " " + u[b + 1..c];
    ConnectsHeadFoldEq(u, a, b, c);
    FoldEqLiteralSlice(u, c, " @", d, head);
    FoldEqLiteralSlice(u, d, ":@", e, head + " @" + u[c + 2..d]);
  }

  /** The positions a matching connects tail was read at. */
  lemma ConnectsTailParts(u: string) returns (a: nat, b: nat, c: nat, d: nat, e: nat)
    requires ConnectsTail(u).Some?
    ensures WordPairEnd(u, 0) == Some((a, b)) && HasAt(u, b, " ")
    ensures c == ConnectorEnd(u, b + 1) && c > b + 1 && HasAt(u, c, " @") && WordPairEnd(u, c + 2) == Some((d, e))
    ensures ConnectsTail(u) == Some(ConnectsGroups(u, a, b, c, d, e))
  {
    var p := WordPairEnd(u, 0).value;
    a, b := p.0, p.1;
    c := ConnectorEnd(u, b + 1);
    assert HasAt(u, b, " ") && c != b + 1 && HasAt(u, c, " @");
    ConnectsTailDest(u, a, b, c);
    assert WordPairEnd(u, c + 2).Some?;
    var r := WordPairEnd(u, c + 2).value;
    d, e := r.0, r.1;
    ConnectsTailIs(u, a, b, c, d, e);
  }

  /** The literal between the words of `(\w+):@(\w+)`, and where the second word stops. */
  lemma WordPairEndStops(u: string, i: nat)
    requires i <= |u| && WordPairEnd(u, i).Some?
    ensures var (a, b) := WordPairEnd(u, i).value; HasAt(u, a, ":@") && (b == |u| || !IsWordChar(u[b]))
  {
    WordEndSound(u, WordEnd(u, i) + 2);
  }

  /** The five groups of a connects tail are words and a connector. */
  lemma ConnectsGroupsWords(u: string, a: nat, b: nat, c: nat, d: nat, e: nat)
    requires WordPairEnd(u, 0) == Some((a, b))
    requires c == ConnectorEnd(u, b + 1) && c > b + 1 && c + 2 <= |u| && WordPairEnd(u, c + 2) == Some((d, e))
    ensures var m := ConnectsGroups(u, a, b, c, d, e);
      && Word(m.sourceBoundary) && Word(m.sourceComponent) && IsConnector(m.connector)
      && Word(m.destBoundary) && Word(m.destComponent)
  {
    WordPairEndSound(u, 0);
    assert u[0..a] == u[..a];
    ConnectorEndSound(u, b + 1);
    WordPairEndSound(u, c + 2);
  }

  /** A connects tail up to the end of its last group is the rendering of its groups. */
  lemma ConnectsGroupsFold(u: string, a: nat, b: nat, c: nat, d: nat, e: nat,
                           sb: string, sc: string, conn: string, db: string, dc: string)
    requires a + 2 <= b && b + 1 <= c && c + 2 <= d && d + 2 <= e <= |u|
    requires HasAt(u, a, ":@") && HasAt(u, b, " ") && HasAt(u, c, " @") && HasAt(u, d, ":@")
    requires sb == u[..a] && sc == u[a + 2..b] && conn == u[b + 1..c] && db == u[c + 2..d] && dc == u[d + 2..e]
    ensures |ConnectsLine(sb, sc, conn, db, dc)| == e && FoldEq(u[..e], ConnectsLine(sb, sc, conn, db, dc))
  {
    ConnectsFoldEq(u, a, b, c, d, e);
  }

  lemma ConnectsTailSound(u: string)
    requires ConnectsTail(u).Some?
    ensures var m := ConnectsTail(u).value;
      var g := ConnectsLine(m.sourceBoundary, m.sourceComponent, m.connector, m.destBoundary, m.destComponent);
      && m.ConnectsMatch? && Word(m.sourceBoundary) && Word(m.sourceComponent) && IsConnector(m.connector)
      && Word(m.destBoundary) && Word(m.destComponent)
      && |g| <= |u| && FoldEq(u[..|g|], g) && (|g| == |u| || !IsWordChar(u[|g|]))
  {
    var a, b, c, d, e := ConnectsTailParts(u);
    ConnectsReadSound(u, a, b, c, d, e);
  }

  /** The groups read at the positions the matcher found are words and a
      connector, and the line up to them is their rendering. */
  lemma ConnectsReadSound(u: string, a: nat, b: nat, c: nat, d: nat, e: nat)
    requires WordPairEnd(u, 0) == Some((a, b)) && HasAt(u, b, " ")
    requires c == ConnectorEnd(u, b + 1) && c > b + 1 && HasAt(u, c, " @") && WordPairEnd(u, c + 2) == Some((d, e))
    ensures a + 2 <= b && b + 1 <= c && c + 2 <= d && d + 2 <= e <= |u|
    ensures var m := ConnectsGroups(u, a, b, c, d, e);
      var g := ConnectsLine(m.sourceBoundary, m.sourceComponent, m.connector, m.destBoundary, m.destComponent);
      && m.ConnectsMatch? && Word(m.sourceBoundary) && Word(m.sourceComponent) && IsConnector(m.connector)
      && Word(m.destBoundary) && Word(m.destComponent)
      && |g| <= |u| && FoldEq(u[..|g|], g) && (|g| == |u| || !IsWordChar(u[|g|]))
  {
    WordPairEndStopsAt(u, 0, a, b);
    WordPairEndStopsAt(u, c + 2, d, e);
    ConnectsGroupsWords(u, a, b, c, d, e);
    var m := ConnectsGroups(u, a, b, c, d, e);
    assert m == ConnectsMatch(u[..a], u[a + 2..b], u[b + 1..c], u[c + 2..d], u[d + 2..e]);
    ConnectsGroupsFold(u, a, b, c, d, e, m.sourceBoundary, m.sourceComponent, m.connector,
                       m.destBoundary, m.destComponent);
  }

  /** `WordPairEndStops` at known positions. */
  lemma WordPairEndStopsAt(u: string, i: nat, a: nat, b: nat)
    requires i <= |u| && WordPairEnd(u, i) == Some((a, b))
    ensures HasAt(u, a, ":@") && (b == |u| || !IsWordChar(u[b]))
  {
    WordPairEndStops(u, i);
  }

  // ---------------------------------------------------------------- @review

  lemma ReviewTailIs(u: string, x: nat, y: nat)
    requires PairEnd(u, 0) == Some((x, y)) && HasAt(u, y, " ")
    ensures ReviewTail(u) == Some(ReviewMatch(u[..x], u[x + 1..y], u[y + 1..]))
  {
  }

  /** The review tail of a line laid out as `b:c text`, given by positions. */
  lemma ReviewTailAt(u: string, x: nat, y: nat)
    requires x < y < |u| && IsRef(u[0..x]) && u[x] == ':' && IsRef(u[x + 1..y]) && u[y..y + 1] == " "
    ensures ReviewTail(u) == Some(ReviewMatch(u[..x], u[x + 1..y], u[y + 1..]))
  {
    SpaceAt(u, y, " ");
    PairEndAt(u, 0, x, y);
    HasAtIs(u, y, " ");
    ReviewTailIs(u, x, y);
  }

  /** Where the groups of a rendered review tail lie. */
  lemma ReviewSlices(u: string, b: string, c: string, text: string, y: nat)
    requires u == b + ":" + c + " " + text && y == |b| + 1 + |c|
    requires IsRef(b) && IsRef(c)
    ensures |b| < y < |u| && IsRef(u[0..|b|]) && u[|b|] == ':' && IsRef(u[|b| + 1..y]) && u[y..y + 1] == " "
    ensures ReviewMatch(u[..|b|], u[|b| + 1..y], u[y + 1..]) == ReviewMatch(b, c, text)
  {
    assert u[0..|b|] == b && u[|b| + 1..y] == c;
    assert u[..|b|] == b && u[y + 1..] == text;
  }

  lemma ReviewTailComplete(b: string, c: string, text: string)
    requires IsRef(b) && IsRef(c)
    ensures ReviewTail(b + ":" + c + " " + text) == Some(ReviewMatch(b, c, text))
  {
    var u := b + ":" + c + " " + text;
    ReviewSlices(u, b, c, text, |b| + 1 + |c|);
    ReviewTailAt(u, |b|, |b| + 1 + |c|);
  }

  lemma ReviewTailSound(u: string)
    requires ReviewTail(u).Some?
    ensures var m := ReviewTail(u).value;
      m.ReviewMatch? && IsRef(m.boundary) && IsRef(m.component) && u == m.boundary + ":" + m.component + " " + m.text
  {
    var (x, y) := PairEnd(u, 0).value;
    PairEndSound(u, 0);
    HasAtExact(u, y, " ");
    assert u[..y] == u[..x] + ":" + u[x + 1..y];
    assert u[..y + 1] == u[..y] + " ";
    assert u == u[..y + 1] + u[y + 1..];
  }

  // ---------------------------------------------------------------- @mitigates, @exposes

  /** A line that starts with a space cannot continue a word run. */
  lemma SpaceAt(u: string, i: nat, lit: string)
    requires i + |lit| <= |u| && u[i..i + |lit|] == lit && |lit| > 0 && lit[0] == ' '
    ensures !IsWordChar(u[i])
  {
    assert u[i] == u[i..i + |lit|][0];
  }

  lemma LazyThreatIs(u: string, x: nat, y: nat, q: nat, w: nat)
    requires x < y <= q <= |u| && Occurrence(u, q, " with ") == Some(w)
    ensures LazyThreat(u, (x, y), q) == Some(LazyGroups(u, (x, y), q, w))
  {
  }

  lemma LazyTailThreat(u: string, sep: string, x: nat, y: nat)
    requires PairEnd(u, 0) == Some((x, y)) && HasAt(u, y, sep)
    ensures LazyTail(u, sep) == LazyThreat(u, (x, y), y + |sep|)
  {
  }

  lemma LazyTailIs(u: string, sep: string, x: nat, y: nat, w: nat)
    requires PairEnd(u, 0) == Some((x, y)) && HasAt(u, y, sep)
    requires Occurrence(u, y + |sep|, " with ") == Some(w)
    ensures LazyTail(u, sep) == Some(LazyGroups(u, (x, y), y + |sep|, w))
  {
    var q := y + |sep|;
    LazyTailThreat(u, sep, x, y);
    LazyThreatIs(u, x, y, q, w);
  }

  /** No " with " starts inside the threat text of a well-formed lazy tail. */
  lemma NoWithBefore(u: string, q: nat, w: nat)
    requires q <= w && w + 6 <= |u| && u[w..w + 6] == " with " && FirstWith(u[q..w])
    ensures forall k | q <= k < w :: !HasAt(u, k, " with ")
  {
    assert u[q..w + 6] == u[q..w] + " with ";
    forall k | q <= k < w
      ensures !HasAt(u, k, " with ")
    {
      HasAtSlice(u, q, w + 6, k - q, " with ");
    }
  }

  /** The scans of a lazy tail laid out as `b:c<sep>threat with text`, given by positions. */
  lemma LazyScan(u: string, sep: string, x: nat, y: nat, w: nat)
    requires LowerLiteral(sep) && |sep| > 0 && sep[0] == ' '
    requires x < y && y + |sep| <= w && w + 6 <= |u|
    requires IsRef(u[0..x]) && u[x] == ':' && IsRef(u[x + 1..y])
    requires u[y..y + |sep|] == sep
    ensures PairEnd(u, 0) == Some((x, y)) && HasAt(u, y, sep)
  {
    SpaceAt(u, y, sep);
    PairEndAt(u, 0, x, y);
    HasAtIs(u, y, sep);
  }

  lemma LazyWith(u: string, q: nat, w: nat)
    requires q <= w && w + 6 <= |u| && u[w..w + 6] == " with " && FirstWith(u[q..w])
    ensures Occurrence(u, q, " with ") == Some(w)
  {
    HasAtIs(u, w, " with ");
    NoWithBefore(u, q, w);
    OccurrenceIs(u, q, " with ", w);
  }

  /** The lazy tail of a line laid out as `b:c<sep>threat with text`, given by positions. */
  lemma LazyTailAt(u: string, sep: string, x: nat, y: nat, w: nat)
    requires LowerLiteral(sep) && |sep| > 0 && sep[0] == ' '
    requires x < y && y + |sep| <= w && w + 6 <= |u|
    requires IsRef(u[0..x]) && u[x] == ':' && IsRef(u[x + 1..y])
    requires u[y..y + |sep|] == sep && u[w..w + 6] == " with "
    requires FirstWith(u[y + |sep|..w])
    ensures LazyTail(u, sep) == Some(LazyGroups(u, (x, y), y + |sep|, w))
  {
    LazyScan(u, sep, x, y, w);
    LazyWith(u, y + |sep|, w);
    LazyTailIs(u, sep, x, y, w);
  }

  /** Where the groups of a rendered lazy tail lie. */
  lemma LazySlices(u: string, b: string, c: string, sep: string, threat: string, text: string, y: nat, w: nat)
    requires u == b + ":" + c + sep + threat + " with " + text
    requires y == |b| + 1 + |c| && w == y + |sep| + |threat|
    requires IsRef(b) && IsRef(c) && FirstWith(threat)
    ensures y + |sep| <= w && w + 6 <= |u|
    ensures IsRef(u[0..|b|]) && u[|b|] == ':' && IsRef(u[|b| + 1..y])
    ensures u[y..y + |sep|] == sep && u[w..w + 6] == " with " && FirstWith(u[y + |sep|..w])
    ensures LazyGroups(u, (|b|, y), y + |sep|, w) == ElementMatch(b, c, threat, text)
  {
    assert u[0..|b|] == b && u[|b| + 1..y] == c && u[y + |sep|..w] == threat;
    assert u[..|b|] == b && u[w + 6..] == text;
  }

  lemma LazyTailComplete(sep: string, b: string, c: string, threat: string, text: string)
    requires LowerLiteral(sep) && |sep| > 0 && sep[0] == ' '
    requires IsRef(b) && IsRef(c) && FirstWith(threat)
    ensures LazyTail(b + ":" + c + sep + threat + " with " + text, sep)
         == Some(ElementMatch(b, c, threat, text))
  {
    var u := b + ":" + c + sep + threat + " with " + text;
    var y := |b| + 1 + |c|;
    var w := y + |sep| + |threat|;
    LazySlices(u, b, c, sep, threat, text, y, w);
    LazyTailAt(u, sep, |b|, y, w);
  }

  lemma FirstWithPoint(u: string, q: nat, w: nat, k: nat)
    requires q <= w && k < w - q && HasAt(u, w, " with ") && !HasAt(u, q + k, " with ")
    ensures !HasAt(u[q..w] + " with ", k, " with ")
  {
    var v := u[q..w + 6];
    HasAtFoldEq(u, w, " with ");
    assert v == u[q..w] + u[w..w + 6];
    FoldEqConcat(u[q..w], u[w..w + 6], u[q..w], " with ");
    FoldEqHasAt(v, u[q..w] + " with ", k, " with ");
    HasAtSlice(u, q, w + 6, k, " with ");
  }

  /** A lazy `(.*?) with` group holds no " with ". */
  lemma FirstWithAt(u: string, q: nat, w: nat)
    requires q <= w && HasAt(u, w, " with ")
    requires forall k | q <= k < w :: !HasAt(u, k, " with ")
    ensures FirstWith(u[q..w])
  {
    forall k | 0 <= k < w - q
      ensures !HasAt(u[q..w] + " with ", k, " with ")
    {
      FirstWithPoint(u, q, w, k);
    }
  }

  /** The reference pair `b:c` is the slice it was read from. */
  lemma PairJoin(u: string, x: nat, y: nat)
    requires x < y <= |u| && u[x] == ':'
    ensures FoldEq(u[..y], u[..x] + ":" + u[x + 1..y])
  {
    assert u[..y] == u[..x] + ":" + u[x + 1..y];
  }

  /** A line whose lazy tail matched is the rendering of its groups, up to case. */
  lemma LazyFoldEq(u: string, sep: string, x: nat, y: nat, w: nat)
    requires LowerLiteral(sep)
    requires x < y && y + |sep| <= w && w + 6 <= |u| && u[x] == ':'
    requires HasAt(u, y, sep) && HasAt(u, w, " with ")
    ensures FoldEq(u, u[..x] + ":" + u[x + 1..y] + sep + u[y + |sep|..w] + " with " + u[w + 6..])
  {
    var q := y + |sep|;
    var head := u[..x] + ":" + u[x + 1..y];
    PairJoin(u, x, y);
    FoldEqLiteralSlice(u, y, sep, w, head);
    FoldEqLiteralSlice(u, w, " with ", |u|, head + sep + u[q..w]);
    assert u[..|u|] == u && u[w + 6..|u|] == u[w + 6..];
  }

  /** The groups a lazy tail matched have the shape the pattern demands. */
  lemma LazyGroupsSound(u: string, sep: string, x: nat, y: nat, w: nat)
    requires LowerLiteral(sep) && x < y && y + |sep| <= w && w + 6 <= |u|
    requires IsRef(u[0..x]) && u[x] == ':' && IsRef(u[x + 1..y])
    requires HasAt(u, y, sep) && HasAt(u, w, " with ")
    requires forall k | y + |sep| <= k < w :: !HasAt(u, k, " with ")
    ensures var m := LazyGroups(u, (x, y), y + |sep|, w);
      && IsRef(m.boundary) && IsRef(m.component) && FirstWith(m.threat)
      && FoldEq(u, m.boundary + ":" + m.component + sep + m.threat + " with " + m.text)
  {
    assert u[0..x] == u[..x];
    FirstWithAt(u, y + |sep|, w);
    LazyFoldEq(u, sep, x, y, w);
  }

  lemma LazyTailSound(u: string, sep: string)
    requires LowerLiteral(sep)
    requires LazyTail(u, sep).Some?
    ensures var m := LazyTail(u, sep).value;
      && m.ElementMatch? && IsRef(m.boundary) && IsRef(m.component) && FirstWith(m.threat)
      && FoldEq(u, m.boundary + ":" + m.component + sep + m.threat + " with " + m.text)
  {
    var x, y, w := LazyTailPositions(u, sep);
    LazyTailIs(u, sep, x, y, w);
    LazyReadSound(u, sep, x, y, w);
  }

  /** The groups read at the positions the matcher found have the shape the
      pattern demands. */
  lemma LazyReadSound(u: string, sep: string, x: nat, y: nat, w: nat)
    requires LowerLiteral(sep)
    requires PairEnd(u, 0) == Some((x, y)) && HasAt(u, y, sep)
    requires y + |sep| <= w && Occurrence(u, y + |sep|, " with ") == Some(w)
    ensures var m := LazyGroups(u, (x, y), y + |sep|, w);
      && m.ElementMatch? && IsRef(m.boundary) && IsRef(m.component) && FirstWith(m.threat)
      && FoldEq(u, m.boundary + ":" + m.component + sep + m.threat + " with " + m.text)
  {
    PairEndParts(u, 0, x, y);
    OccurrenceFirst(u, y + |sep|, " with ", w);
    LazyGroupsSound(u, sep, x, y, w);
  }

  /** The positions a lazy tail that matched was read at. */
  lemma LazyTailPositions(u: string, sep: string) returns (x: nat, y: nat, w: nat)
    requires LazyTail(u, sep).Some?
    ensures PairEnd(u, 0) == Some((x, y)) && HasAt(u, y, sep)
    ensures y + |sep| <= w && Occurrence(u, y + |sep|, " with ") == Some(w)
  {
    var p := PairEnd(u, 0).value;
    x, y := p.0, p.1;
    w := Occurrence(u, y + |sep|, " with ").value;
  }

  // ---------------------------------------------------------------- @transfers, @accepts

  lemma SplitIs(u: string, k: nat, x: nat, y: nat)
    requires k <= |u| && HasAt(u, k, " to ") && PairEnd(u, k + 4) == Some((x, y)) && HasAt(u, y, " with ")
    ensures Split(u, k) == Some((x, y))
  {
  }

  lemma GreedyTailIs(u: string, k: nat, x: nat, y: nat)
    requires LastSplit(u, |u|) == Some(k) && Split(u, k) == Some((x, y))
    ensures GreedyTail(u) == Some(GreedyGroups(u, k, (x, y)))
  {
  }

  /** The literals and the reference pair of a greedy tail laid out as
      `threat to b:c with text`, given by positions. */
  lemma GreedyPieces(u: string, k: nat, x: nat, y: nat)
    requires k + 4 <= x < y && y + 6 <= |u|
    requires u[k..k + 4] == " to " && IsRef(u[k + 4..x]) && u[x] == ':' && IsRef(u[x + 1..y])
    requires u[y..y + 6] == " with "
    ensures HasAt(u, k, " to ") && PairEnd(u, k + 4) == Some((x, y)) && HasAt(u, y, " with ")
  {
    SpaceAt(u, y, " with ");
    HasAtIs(u, k, " to ");
    PairEndAt(u, k + 4, x, y);
    HasAtIs(u, y, " with ");
  }

  /** The split of a greedy tail laid out as `threat to b:c with text`, given by positions. */
  lemma GreedyScan(u: string, k: nat, x: nat, y: nat)
    requires k + 4 <= x < y && y + 6 <= |u|
    requires u[k..k + 4] == " to " && IsRef(u[k + 4..x]) && u[x] == ':' && IsRef(u[x + 1..y])
    requires u[y..y + 6] == " with "
    ensures Split(u, k) == Some((x, y))
  {
    GreedyPieces(u, k, x, y);
    SplitIs(u, k, x, y);
  }

  /** The greedy tail of a line laid out as `threat to b:c with text`, given by positions. */
  lemma GreedyTailAt(u: string, k: nat, x: nat, y: nat)
    requires k + 4 <= x < y && y + 6 <= |u|
    requires u[k..k + 4] == " to " && IsRef(u[k + 4..x]) && u[x] == ':' && IsRef(u[x + 1..y])
    requires u[y..y + 6] == " with "
    requires forall j | k < j <= |u| :: Split(u, j).None?
    ensures GreedyTail(u) == Some(GreedyGroups(u, k, (x, y)))
  {
    GreedyScan(u, k, x, y);
    LastSplitIs(u, k, |u|);
    GreedyTailIs(u, k, x, y);
  }

  /** Where the groups of a rendered greedy tail lie. */
  lemma GreedySlices(u: string, threat: string, b: string, c: string, text: string, x: nat, y: nat)
    requires u == threat + " to " + b + ":" + c + " with " + text
    requires x == |threat| + 4 + |b| && y == x + 1 + |c|
    requires IsRef(b) && IsRef(c)
    ensures y + 6 <= |u|
    ensures u[|threat|..|threat| + 4] == " to " && IsRef(u[|threat| + 4..x]) && u[x] == ':'
    ensures IsRef(u[x + 1..y]) && u[y..y + 6] == " with "
    ensures GreedyGroups(u, |threat|, (x, y)) == ElementMatch(b, c, threat, text)
  {
    assert u[|threat| + 4..x] == b && u[x + 1..y] == c;
    assert u[..|threat|] == threat && u[y + 6..] == text;
  }

  lemma GreedyTailComplete(threat: string, b: string, c: string, text: string)
    requires IsRef(b) && IsRef(c)
    requires LastTo(threat, threat + " to " + b + ":" + c + " with " + text)
    ensures GreedyTail(threat + " to " + b + ":" + c + " with " + text)
         == Some(ElementMatch(b, c, threat, text))
  {
    var u := threat + " to " + b + ":" + c + " with " + text;
    var x := |threat| + 4 + |b|;
    var y := x + 1 + |c|;
    GreedySlices(u, threat, b, c, text, x, y);
    GreedyTailAt(u, |threat|, x, y);
  }

  /** The part of a greedy tail up to the end of the reference pair, up to case. */
  lemma GreedyHeadFoldEq(u: string, k: nat, x: nat, y: nat)
    requires k + 4 <= x < y <= |u| && u[x] == ':' && HasAt(u, k, " to ")
    ensures FoldEq(u[..y], u[..k] + " to " + u[k + 4..x] + ":" + u[x + 1..y])
  {
    HasAtFoldEq(u, k, " to ");
    FoldEqExtend(u, k, k + 4, u[..k], " to ");
    FoldEqExtend(u, k + 4, x, u[..k] + " to ", u[k + 4..x]);
    FoldEqExtend(u, x, x + 1, u[..k] + " to " + u[k + 4..x], ":");
    FoldEqExtend(u, x + 1, y, u[..k] + " to " + u[k + 4..x] + ":", u[x + 1..y]);
  }

  /** A line whose greedy tail matched is the rendering of its groups, up to case. */
  lemma GreedyFoldEq(u: string, k: nat, x: nat, y: nat)
    requires k + 4 <= x < y && y + 6 <= |u| && u[x] == ':'
    requires HasAt(u, k, " to ") && HasAt(u, y, " with ")
    ensures FoldEq(u, u[..k] + " to " + u[k + 4..x] + ":" + u[x + 1..y] + " with " + u[y + 6..])
  {
    var head := u[..k] + " to " + u[k + 4..x] + ":" + u[x + 1..y];
    GreedyHeadFoldEq(u, k, x, y);
    HasAtFoldEq(u, y, " with ");
    FoldEqExtend(u, y, y + 6, head, " with ");
    FoldEqExtend(u, y + 6, |u|, head + " with ", u[y + 6..|u|]);
    assert u[..|u|] == u && u[y + 6..|u|] == u[y + 6..];
  }

  /** No later split of the rendering is viable when none of the line is. */
  lemma LastToFoldEq(u: string, g: string, k: nat)
    requires FoldEq(u, g) && k <= |u|
    requires forall j | k < j <= |u| :: Split(u, j).None?
    ensures LastTo(u[..k], g)
  {
    forall j | k < j <= |g|
      ensures Split(g, j).None?
    {
      FoldEqSplit(u, g, j);
    }
  }

  /** The groups a greedy tail matched have the shape the pattern demands. */
  lemma GreedyGroupsSound(u: string, k: nat, x: nat, y: nat, threat: string, b: string, c: string, text: string)
    requires k + 4 <= x < y && y + 6 <= |u|
    requires IsRef(u[k + 4..x]) && u[x] == ':' && IsRef(u[x + 1..y])
    requires HasAt(u, k, " to ") && HasAt(u, y, " with ")
    requires forall j | k < j <= |u| :: Split(u, j).None?
    requires threat == u[..k] && b == u[k + 4..x] && c == u[x + 1..y] && text == u[y + 6..]
    ensures IsRef(b) && IsRef(c)
    ensures FoldEq(u, threat + " to " + b + ":" + c + " with " + text)
    ensures LastTo(threat, threat + " to " + b + ":" + c + " with " + text)
  {
    GreedyFoldEq(u, k, x, y);
    LastToFoldEq(u, u[..k] + " to " + u[k + 4..x] + ":" + u[x + 1..y] + " with " + u[y + 6..], k);
  }

  lemma GreedyTailSound(u: string)
    requires GreedyTail(u).Some?
    ensures var m := GreedyTail(u).value;
      var g := m.threat + " to " + m.boundary + ":" + m.component + " with " + m.text;
      m.ElementMatch? && IsRef(m.boundary) && IsRef(m.component) && FoldEq(u, g) && LastTo(m.threat, g)
  {
    var m := GreedyTail(u).value;
    var k := LastSplit(u, |u|).value;
    var (x, y) := Split(u, k).value;
    GreedyTailIs(u, k, x, y);
    LastSplitSound(u, |u|);
    PairEndSound(u, k + 4);
    GreedyGroupsSound(u, k, x, y, m.threat, m.boundary, m.component, m.text);
  }
  // ---------------------------------------------------------------- one line

  /** A line that starts with the lead of `t` is matched by the rest of the pattern. */
  /** A rendered line starts with `@` and its keyword. */
  lemma RenderStartsWithKeyword(t: Tag, m: Match)
    ensures |Keyword(t)| + 1 <= |Render(t, m)| && Render(t, m)[..|Keyword(t)| + 1] == "@" + Keyword(t)
  {
    var c := Render(t, m);
    assert c == Lead(t) + RenderTail(t, m);
    assert Lead(t)[..|Keyword(t)| + 1] == "@" + Keyword(t);
  }

  lemma MatchLineLead(t: Tag, tail: string)
    ensures MatchLine(t, Lead(t) + tail) == TailMatch(t, tail)
  {
    var l := Lead(t) + tail;
    assert l[0..|Lead(t)|] == Lead(t) && l[|Lead(t)|..] == tail;
    HasAtIs(l, 0, Lead(t));
  }

  lemma PropertyRenders(t: Tag, m: Match)
    requires (t == Alias || t == Describe) && WellFormed(t, m)
    ensures TailMatch(t, RenderTail(t, m)) == Some(m)
  {
    PropertyTailComplete(Sep(t), m.pclass, m.id, m.subId, m.text);
  }

  lemma ConnectsRenders(m: Match)
    requires WellFormed(Connects, m)
    ensures TailMatch(Connects, RenderTail(Connects, m)) == Some(m)
  {
    var g := RenderTail(Connects, m);
    assert g + [] == g;
    ConnectsTailComplete(m.sourceBoundary, m.sourceComponent, m.connector, m.destBoundary, m.destComponent, []);
  }

  lemma ReviewRenders(m: Match)
    requires WellFormed(Review, m)
    ensures TailMatch(Review, RenderTail(Review, m)) == Some(m)
  {
    ReviewTailComplete(m.boundary, m.component, m.text);
  }

  lemma LazyRenders(t: Tag, m: Match)
    requires (t == Mitigates || t == Exposes) && WellFormed(t, m)
    ensures TailMatch(t, RenderTail(t, m)) == Some(m)
  {
    LazyTailComplete(Sep(t), m.boundary, m.component, m.threat, m.text);
  }

  lemma GreedyRenders(t: Tag, m: Match)
    requires (t == Transfers || t == Accepts) && WellFormed(t, m)
    ensures TailMatch(t, RenderTail(t, m)) == Some(m)
  {
    GreedyTailComplete(m.threat, m.boundary, m.component, m.text);
  }

  /** Every well-formed rendering of a tag line is matched back into its groups. */
  lemma TailMatchComplete(t: Tag, m: Match)
    requires WellFormed(t, m)
    ensures TailMatch(t, RenderTail(t, m)) == Some(m)
  {
    if t == Alias || t == Describe {
      PropertyRenders(t, m);
    } else if t == Connects {
      ConnectsRenders(m);
    } else if t == Review {
      ReviewRenders(m);
    } else if t == Mitigates || t == Exposes {
      LazyRenders(t, m);
    } else {
      GreedyRenders(t, m);
    }
  }

  lemma MatchLineComplete(t: Tag, m: Match)
    requires WellFormed(t, m)
    ensures MatchLine(t, Render(t, m)) == Some(m)
  {
    MatchLineLead(t, RenderTail(t, m));
    TailMatchComplete(t, m);
  }

  /** `u` reads as the rendering of `m`, up to case; only the connects pattern may
      stop before the end of the line, and then at the end of a word run. */
  predicate ReadsAs(t: Tag, u: string, m: Match)
  {
    var g := RenderTail(t, m);
    && WellFormed(t, m) && |g| <= |u| && FoldEq(u[..|g|], g)
    && (t != Connects ==> |g| == |u|)
    && (t == Connects ==> |g| == |u| || !IsWordChar(u[|g|]))
  }

  lemma PropertyReads(t: Tag, u: string)
    requires (t == Alias || t == Describe) && TailMatch(t, u).Some?
    ensures ReadsAs(t, u, TailMatch(t, u).value)
  {
    PropertyTailSound(u, Sep(t));
    assert u[..|u|] == u;
  }

  lemma ConnectsReads(u: string)
    requires TailMatch(Connects, u).Some?
    ensures ReadsAs(Connects, u, TailMatch(Connects, u).value)
  {
    ConnectsTailSound(u);
  }

  lemma ReviewReads(u: string)
    requires TailMatch(Review, u).Some?
    ensures ReadsAs(Review, u, TailMatch(Review, u).value)
  {
    ReviewTailSound(u);
    assert u[..|u|] == u;
  }

  lemma LazyReads(t: Tag, u: string)
    requires (t == Mitigates || t == Exposes) && TailMatch(t, u).Some?
    ensures ReadsAs(t, u, TailMatch(t, u).value)
  {
    LazyTailSound(u, Sep(t));
    assert u[..|u|] == u;
  }

  lemma GreedyReads(t: Tag, u: string)
    requires (t == Transfers || t == Accepts) && TailMatch(t, u).Some?
    ensures ReadsAs(t, u, TailMatch(t, u).value)
  {
    GreedyTailSound(u);
    assert u[..|u|] == u;
  }

  /** What a tail match reads is a rendering of its groups. */
  lemma TailMatchSound(t: Tag, u: string)
    requires TailMatch(t, u).Some?
    ensures ReadsAs(t, u, TailMatch(t, u).value)
  {
    if t == Alias || t == Describe {
      PropertyReads(t, u);
    } else if t == Connects {
      ConnectsReads(u);
    } else if t == Review {
      ReviewReads(u);
    } else if t == Mitigates || t == Exposes {
      LazyReads(t, u);
    } else {
      GreedyReads(t, u);
    }
  }

  /** A line the pattern of `t` matches starts with the lead, and the text after
      the lead reads as the match. */
  lemma MatchLineSound(t: Tag, l: string)
    requires MatchLine(t, l).Some?
    ensures HasAt(l, 0, Lead(t)) && ReadsAs(t, l[|Lead(t)|..], MatchLine(t, l).value)
  {
    TailMatchSound(t, l[|Lead(t)|..]);
  }

  // ---------------------------------------------------------------- the whole comment

  lemma {:induction false} FirstFound(t: Tag, s: string, p: nat)
    requires p <= |s| && First(t, s, p).Some?
    ensures MatchAt(t, s, First(t, s, p).value).Some?
    decreases |s| - p
  {
    if MatchAt(t, s, p).None? {
      FirstFound(t, s, p + 1);
    }
  }

  lemma {:induction false} FirstNoneBefore(t: Tag, s: string, p: nat, q: nat)
    requires p <= q <= |s| && First(t, s, p).Some? && q < First(t, s, p).value
    ensures MatchAt(t, s, q).None?
    decreases q - p
  {
    if p < q {
      FirstNoneBefore(t, s, p + 1, q);
    }
  }

  lemma {:induction false} FirstNone(t: Tag, s: string, p: nat, q: nat)
    requires p <= q < |s| && First(t, s, p).None?
    ensures MatchAt(t, s, q).None?
    decreases q - p
  {
    if p < q {
      FirstNone(t, s, p + 1, q);
    }
  }

  /** `Search` returns the match at the leftmost position where the pattern
      matches, and nothing exactly when it matches nowhere. */
  lemma SearchLeftmost(t: Tag, s: string)
    ensures Search(t, s).None? ==> forall p | 0 <= p < |s| :: MatchAt(t, s, p).None?
    ensures Search(t, s).Some? ==> exists p | 0 <= p < |s| ::
      MatchAt(t, s, p) == Search(t, s) && forall q | 0 <= q < p :: MatchAt(t, s, q).None?
  {
    if First(t, s, 0).Some? {
      var p := First(t, s, 0).value;
      FirstFound(t, s, 0);
      forall q | 0 <= q < p
        ensures MatchAt(t, s, q).None?
      {
        FirstNoneBefore(t, s, 0, q);
      }
    } else {
      forall p | 0 <= p < |s|
        ensures MatchAt(t, s, p).None?
      {
        FirstNone(t, s, 0, p);
      }
    }
  }

  /** A well-formed tag line at the start of a comment is what `Search` finds. */
  lemma SearchRendered(t: Tag, m: Match, rest: string)
    requires WellFormed(t, m) && NoNewline(Render(t, m)) && (rest == [] || rest[0] == '\n')
    ensures Search(t, Render(t, m) + rest) == Some(m)
  {
    var s := Render(t, m) + rest;
    assert s[0..] == s;
    FirstLineConcat(Render(t, m), rest);
    MatchLineComplete(t, m);
    assert MatchAt(t, s, 0) == Some(m);
  }

  /** Whatever `Search` finds has the groups the pattern of `t` can capture. */
  lemma SearchWellFormed(t: Tag, s: string)
    requires Search(t, s).Some?
    ensures WellFormed(t, Search(t, s).value)
  {
    var p := First(t, s, 0).value;
    MatchLineSound(t, FirstLine(s[p..]));
  }
}
