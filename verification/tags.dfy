/** The tag finder of `_parse_comment` (pythreatspec/pythreatspec.py): the
    pattern `^\s*(@(?:alias|describe|…|accepts)).*$`, run with `re.M | re.I`
    over the comment, and the `parse_table` lookup of each keyword it captures.

    The pattern can only start at the beginning of a line, and once `\s*` has
    skipped whitespace-only lines it lands on the same tag line that the match
    starting at that line itself finds, with no other line left to match in
    between. So the list `re.findall` returns is, line by line, the keyword
    each tag line starts with: `FindTags` computes it that way. */
module Tags {
  import opened Wrappers
  import opened Chars
  import opened Identifiers
  import opened Matchers

  /** The alternatives of the keyword group, in the order the pattern tries them. */
  const Alternatives: seq<Tag> := [Alias, Describe, Connects, Review, Mitigates, Exposes, Transfers, Accepts]

  /** `@` and the keyword of `t`: the key of its handler in `parse_table`. */
  function TagKey(t: Tag): (r: string)
    ensures |r| > 1 && r[0] == '@' && LowerLiteral(r)
  {
    "@" + Keyword(t)
  }

  /** The first alternative in `ts` whose key starts `s` up to case. */
  function KeywordAt(s: string, ts: seq<Tag>): (r: Option<Tag>)
    ensures r.Some? ==> r.value in ts && HasAt(s, 0, TagKey(r.value))
    ensures r.None? ==> forall t | t in ts :: !HasAt(s, 0, TagKey(t))
  {
    if ts == [] then None
    else if HasAt(s, 0, TagKey(ts[0])) then Some(ts[0])
    else KeywordAt(s, ts[1..])
  }

  /** What the pattern captures on one line: the keyword after the leading
      whitespace, in the case it is written in. */
  function TagOfLine(line: string): (r: Option<string>)
    ensures r.Some? ==> exists t :: FoldEq(r.value, TagKey(t))
  {
    var s := StripLeft(line);
    match KeywordAt(s, Alternatives)
    case None => None
    case Some(t) =>
      HasAtFoldEq(s, 0, TagKey(t));
      Some(s[..|TagKey(t)|])
  }

  /** The lines of a comment: the pieces between its newlines. */
  function Lines(comment: string): (r: seq<string>)
    ensures |r| > 0 && forall k | 0 <= k < |r| :: NoNewline(r[k])
    decreases |comment|
  {
    var l := FirstLine(comment);
    if |l| == |comment| then [l] else [l] + Lines(comment[|l| + 1..])
  }

  /** A newline-free line followed by a newline is the first line. */
  lemma LinesCons(l: string, rest: string)
    requires NoNewline(l)
    ensures Lines(l + "\n" + rest) == [l] + Lines(rest)
  {
    var s := l + "\n" + rest;
    assert s == l + ("\n" + rest);
    FirstLineConcat(l, "\n" + rest);
    assert s[|l| + 1..] == rest;
  }

  /** Splitting two blocks of lines joined by a newline. */
  lemma {:induction false} LinesConcat(a: string, b: string)
    ensures Lines(a + "\n" + b) == Lines(a) + Lines(b)
    decreases |a|
  {
    var l := FirstLine(a);
    if |l| == |a| {
      assert l == a;
      LinesCons(a, b);
    } else {
      var a' := a[|l| + 1..];
      assert a == l + "\n" + a';
      assert a + "\n" + b == l + "\n" + (a' + "\n" + b);
      LinesCons(l, a' + "\n" + b);
      LinesConcat(a', b);
    }
  }

  function LineTags(line: string): seq<string>
  {
    match TagOfLine(line)
    case None => []
    case Some(k) => [k]
  }

  /** The captures of a sequence of lines, in order. */
  function Collect(lines: seq<string>): seq<string>
  {
    if lines == [] then [] else LineTags(lines[0]) + Collect(lines[1..])
  }

  lemma {:induction false} CollectConcat(x: seq<string>, y: seq<string>)
    ensures Collect(x + y) == Collect(x) + Collect(y)
  {
    if x != [] {
      assert (x + y)[1..] == x[1..] + y;
      CollectConcat(x[1..], y);
    } else {
      assert x + y == y;
    }
  }

  /** `re.findall(tag_regex, comment, re.M | re.I)` */
  function FindTags(comment: string): seq<string>
  {
    Collect(Lines(comment))
  }

  /** The tags of two blocks of lines are the tags of each, in order. */
  lemma FindTagsConcat(a: string, b: string)
    ensures FindTags(a + "\n" + b) == FindTags(a) + FindTags(b)
  {
    LinesConcat(a, b);
    CollectConcat(Lines(a), Lines(b));
  }

  /** A single line contributes its own capture, if it has one. */
  lemma FindTagsLine(l: string)
    requires NoNewline(l)
    ensures FindTags(l) == LineTags(l)
  {
    FirstLineConcat(l, []);
    assert l + [] == l;
    assert Lines(l) == [l];
    assert Collect([l]) == LineTags(l) + Collect([]);
  }

  /** A line written as `@keyword …` is found, in the case it is written in. */
  lemma TagOfKeywordLine(t: Tag, rest: string)
    ensures TagOfLine(TagKey(t) + rest) == Some(TagKey(t))
  {
    var s := TagKey(t) + rest;
    assert StripLeft(s) == s;
    assert s[..|TagKey(t)|] == TagKey(t);
    LowerStrConcat(TagKey(t), rest);
    LowerLiteralFixed(TagKey(t));
    assert LowerStr(s)[..|TagKey(t)|] == TagKey(t);
    KeywordAtOnly(s, Alternatives, t);
  }

  /** A single line that starts with a key carries exactly that key. */
  lemma KeyedLineTags(t: Tag, c: string)
    requires NoNewline(c) && |TagKey(t)| <= |c| && c[..|TagKey(t)|] == TagKey(t)
    ensures FindTags(c) == [TagKey(t)]
  {
    var rest := c[|TagKey(t)|..];
    assert c == TagKey(t) + rest;
    TagOfKeywordLine(t, rest);
    FindTagsLine(c);
  }

  /** The two letters after `@`, which tell the keys apart. */
  function Letters(t: Tag): (char, char)
  {
    match t
    case Alias => ('a', 'l')
    case Describe => ('d', 'e')
    case Connects => ('c', 'o')
    case Review => ('r', 'e')
    case Mitigates => ('m', 'i')
    case Exposes => ('e', 'x')
    case Transfers => ('t', 'r')
    case Accepts => ('a', 'c')
  }

  lemma KeyLetters(t: Tag)
    ensures TagKey(t)[1] == Letters(t).0 && TagKey(t)[2] == Letters(t).1
  {
    match t
    case Alias =>
    case Describe =>
    case Connects =>
    case Review =>
    case Mitigates =>
    case Exposes =>
    case Transfers =>
    case Accepts =>
  }

  /** No key is a prefix of another up to case, so the alternative found is the only one. */
  lemma {:induction false} KeywordAtOnly(s: string, ts: seq<Tag>, t: Tag)
    requires HasAt(s, 0, TagKey(t)) && t in ts
    ensures KeywordAt(s, ts) == Some(t)
  {
    if ts[0] != t {
      if HasAt(s, 0, TagKey(ts[0])) {
        var l := LowerStr(s);
        assert l[1] == TagKey(t)[1] == TagKey(ts[0])[1] && l[2] == TagKey(t)[2] == TagKey(ts[0])[2];
        KeyLetters(t);
        KeyLetters(ts[0]);
      }
      KeywordAtOnly(s, ts[1..], t);
    }
  }

  /** `parse_table[key]`: the handler of each exact lower-case key, None for
      the `KeyError` of any other capture (`@ALIAS`, `@Describe`). */
  function Handler(key: string): Option<Tag>
  {
    if key == "@alias" then Some(Alias)
    else if key == "@describe" then Some(Describe)
    else if key == "@connects" then Some(Connects)
    else if key == "@review" then Some(Review)
    else if key == "@mitigates" then Some(Mitigates)
    else if key == "@exposes" then Some(Exposes)
    else if key == "@transfers" then Some(Transfers)
    else if key == "@accepts" then Some(Accepts)
    else None
  }

  lemma HandlerSound(key: string)
    ensures Handler(key).Some? ==> key == TagKey(Handler(key).value)
  {
  }

  lemma HandlerComplete(t: Tag)
    ensures Handler(TagKey(t)) == Some(t)
  {
    KeyLetters(t);
    var key := TagKey(t);
    assert key[1] == Letters(t).0 && key[2] == Letters(t).1;
    match t
    case Alias =>
    case Describe =>
    case Connects =>
    case Review =>
    case Mitigates =>
    case Exposes =>
    case Transfers =>
    case Accepts =>
  }

  /** A captured keyword names the handler of `t` exactly when it is `t`'s key
      written in lower case. */
  lemma HandlerIff(key: string, t: Tag)
    ensures Handler(key) == Some(t) <==> key == TagKey(t)
  {
    HandlerSound(key);
    HandlerComplete(t);
  }
}
