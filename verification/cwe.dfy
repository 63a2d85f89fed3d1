/** The CWE catalogue converter (cwe_to_threatspec.py): every weakness of the
    catalogue becomes a library threat keyed by a sanitised `@cwe_` id.
    The records are the parts of the parsed XML the converters read. */
module CweCatalogue {
  import opened Wrappers
  import opened Chars
  import opened Identifiers
  import opened Assignments

  // ---------------------------------------------------------------- records

  /** `Extended_Description.Text`: one text or a list of texts. */
  datatype Text = Paragraph(text: string) | Paragraphs(texts: seq<string>)

  /** `Description`: the summary and, when present and non-empty, the extended text. */
  datatype Description = Description(summary: string, extended: Option<Text>)

  /** One `Relationship` element. */
  datatype Relationship = Relationship(targetForm: string, nature: string, targetId: string)

  /** `Relationships.Relationship` as the XML reader delivers it: absent,
      one element (a dictionary) or several (a list). */
  datatype Relationships = NoRelationships | One(relationship: Relationship) | Many(relationships: seq<Relationship>)

  /** One `Weakness` element: `@ID`, `@Name`, `Description`, `Relationships`. */
  datatype Weakness = Weakness(id: string, name: string, description: Option<Description>, relationships: Relationships)

  /** A library entry: a weakness (`name`, `description`, `references` and,
      in the SFP library, `parent`) or an SFP category (`name`, `parent`, `refs`). */
  datatype LibraryThreat =
    | WeaknessThreat(name: string, description: string, references: seq<string>, parent: Option<string>)
    | CategoryThreat(name: string, parentId: string, refs: seq<string>)

  // ---------------------------------------------------------------- ids

  /** The class `[a-zA-Z0-9_ \-]` the name sanitiser keeps. */
  predicate NameChar(c: char)
  {
    IsWordChar(c) || c == ' ' || c == '-'
  }

  /** What a sanitised name is made of: `[a-z0-9_]`. */
  predicate IdChar(c: char)
  {
    ('a' <= c <= 'z') || ('0' <= c <= '9') || c == '_'
  }

  predicate IdChars(s: string)
  {
    forall k | 0 <= k < |s| :: IdChar(s[k])
  }

  /** `re.sub(r'[^a-zA-Z0-9_ \-]', "", s)` */
  function Kept(s: string): (r: string)
    ensures |r| <= |s|
    ensures forall k | 0 <= k < |r| :: NameChar(r[k])
    ensures forall c | c in r :: c in s
  {
    if s == [] then [] else (if NameChar(s[0]) then [s[0]] else []) + Kept(s[1..])
  }

  /** The filter works part by part, so the kept characters stay in order;
      with `KeptIdentity` and the class of what `Kept` returns, this pins it down. */
  lemma {:induction false} KeptConcat(a: string, b: string)
    ensures Kept(a + b) == Kept(a) + Kept(b)
    decreases |a|
  {
    if a == [] {
      assert a + b == b;
    } else {
      var t := a[1..];
      var h := if NameChar(a[0]) then [a[0]] else [];
      assert (a + b)[0] == a[0] && (a + b)[1..] == t + b;
      KeptConcat(t, b);
      assert Kept(a + b) == h + (Kept(t) + Kept(b));
      assert Kept(a) == h + Kept(t);
    }
  }

  /** `re.sub(r'[ \-]', "_", s)` */
  function Underscored(s: string): (r: string)
  {
    seq(|s|, k requires 0 <= k < |s| => if s[k] == ' ' || s[k] == '-' then '_' else s[k])
  }

  /** The name part of `create_id` and `create_category_id`: keep `[a-zA-Z0-9_ -]`,
      turn spaces and hyphens into underscores, lower-case. */
  function Sanitize(name: string): (r: string)
    ensures IdChars(r)
    ensures |r| <= |name|
  {
    var u := Underscored(Kept(name));
    var r := LowerStr(u);
    assert forall k | 0 <= k < |r| :: IsWordChar(u[k]) && r[k] == Lower(u[k]);
    r
  }

  /** Each kept character gives one character of the sanitised name, in
      order: a space or hyphen becomes `_`, anything else its lower case. */
  lemma SanitizeChars(name: string)
    ensures var r, kept := Sanitize(name), Kept(name);
      |r| == |kept| &&
      forall k | 0 <= k < |r| :: r[k] == if kept[k] == ' ' || kept[k] == '-' then '_' else Lower(kept[k])
  {
    var u := Underscored(Kept(name));
    assert forall k | 0 <= k < |u| :: LowerStr(u)[k] == Lower(u[k]);
  }

  lemma {:induction false} KeptIdentity(s: string)
    requires forall k | 0 <= k < |s| :: NameChar(s[k])
    ensures Kept(s) == s
    decreases |s|
  {
    if s != [] {
      KeptIdentity(s[1..]);
      assert s == [s[0]] + s[1..];
    }
  }

  /** A sanitised name sanitises to itself. */
  lemma SanitizeIdempotent(name: string)
    ensures Sanitize(Sanitize(name)) == Sanitize(name)
  {
    var s := Sanitize(name);
    KeptIdentity(s);
    assert Underscored(s) == s;
    assert LowerStr(s) == s;
  }

  /** `create_id`: `"@cwe_" + ID + "_" + ` the sanitised name. */
  function CreateId(w: Weakness): (r: string)
    ensures IsIdentifier(r)
    ensures |r| >= 6 + |w.id| && r[..6 + |w.id|] == "@cwe_" + w.id + "_"
    ensures IdChars(r[6 + |w.id|..]) && r[6 + |w.id|..] == Sanitize(w.name)
  {
    var r := "@cwe_" + w.id + "_" + Sanitize(w.name);
    assert r[6 + |w.id|..] == Sanitize(w.name);
    r
  }

  /** The prefix of `s` before the first `sep`; all of `s` when there is none. */
  function TakeUntil(s: string, sep: char): (r: string)
    ensures |r| <= |s| && r == s[..|r|]
    ensures sep !in r
    ensures |r| < |s| ==> s[|r|] == sep
  {
    if s == [] || s[0] == sep then [] else [s[0]] + TakeUntil(s[1..], sep)
  }

  lemma {:induction false} TakeUntilPrefix(a: string, b: string, sep: char)
    requires sep !in a && b != [] && b[0] == sep
    ensures TakeUntil(a + b, sep) == a
    decreases |a|
  {
    if a != [] {
      assert (a + b)[1..] == a[1..] + b;
      TakeUntilPrefix(a[1..], b, sep);
    }
  }

  /** The catalogue number read back from a `create_id` result. */
  function CweNumber(id: string): string
  {
    if |id| < 5 then "" else TakeUntil(id[5..], '_')
  }

  /** An ID without an underscore (CWE IDs are numbers) is recovered from its
      `create_id`, whatever the name. */
  lemma CweNumberOfCreateId(w: Weakness)
    requires '_' !in w.id
    ensures CweNumber(CreateId(w)) == w.id
  {
    var r := CreateId(w);
    assert r[5..] == w.id + ("_" + Sanitize(w.name));
    TakeUntilPrefix(w.id, "_" + Sanitize(w.name), '_');
  }

  /** Weaknesses with different underscore-free IDs never share an id. */
  lemma CreateIdInjective(w1: Weakness, w2: Weakness)
    requires '_' !in w1.id && '_' !in w2.id && w1.id != w2.id
    ensures CreateId(w1) != CreateId(w2)
  {
    CweNumberOfCreateId(w1);
    CweNumberOfCreateId(w2);
  }

  /** `create_name` */
  function CreateName(w: Weakness): (r: string)
    ensures r == w.name
  {
    w.name
  }

  // ---------------------------------------------------------------- descriptions

  const NoDescription: string := "No description available."

  /** The class `[a-zA-Z0-9_ \-;:.,]` the description cleaner keeps. */
  predicate TextChar(c: char)
  {
    NameChar(c) || c == ';' || c == ':' || c == '.' || c == ','
  }

  predicate TextChars(s: string)
  {
    forall k | 0 <= k < |s| :: TextChar(s[k])
  }

  /** `re.sub(r'[^a-zA-Z0-9_ \-\;\:\.\,]', " ", s)` */
  function Blanked(s: string): (r: string)
    ensures |r| == |s| && TextChars(r)
    ensures forall k | 0 <= k < |s| :: r[k] == if TextChar(s[k]) then s[k] else ' '
  {
    seq(|s|, k requires 0 <= k < |s| => if TextChar(s[k]) then s[k] else ' ')
  }

  /** `re.sub(r' +', " ", s)`: every run of spaces becomes one space. */
  function Squeeze(s: string): (r: string)
    ensures |r| <= |s|
    ensures s != [] ==> r != [] && r[0] == s[0]
    ensures forall k | 0 <= k < |r| :: r[k] in s
    ensures forall k | 0 <= k < |r| - 1 :: r[k] == ' ' ==> r[k + 1] != ' '
    decreases |s|
  {
    if |s| < 2 then s
    else if s[0] == ' ' && s[1] == ' ' then Squeeze(s[1..])
    else
      var r := [s[0]] + Squeeze(s[1..]);
      assert forall k | 1 <= k < |r| :: r[k] == Squeeze(s[1..])[k - 1];
      r
  }

  /** The spaces `re.sub(r' +', " ", s)` removes are the only change. */
  lemma {:induction false} SqueezeKeeps(s: string)
    ensures NonSpaces(Squeeze(s)) == NonSpaces(s)
    decreases |s|
  {
    if |s| >= 2 {
      SqueezeKeeps(s[1..]);
      if !(s[0] == ' ' && s[1] == ' ') {
        var r := [s[0]] + Squeeze(s[1..]);
        assert r[1..] == Squeeze(s[1..]);
      }
    }
  }

  lemma {:induction false} SqueezeSingle(s: string)
    requires forall k | 0 <= k < |s| - 1 :: s[k] == ' ' ==> s[k + 1] != ' '
    ensures Squeeze(s) == s
    decreases |s|
  {
    if |s| >= 2 {
      SqueezeSingle(s[1..]);
      assert s == [s[0]] + s[1..];
    }
  }

  /** A character other than a space is kept as it is. */
  lemma SqueezeCons(c: char, x: string)
    requires c != ' '
    ensures Squeeze([c] + x) == [c] + Squeeze(x)
  {
    var s := [c] + x;
    assert s[1..] == x;
    if x == [] {
      assert s == [c];
    }
  }

  /** A text without spaces in front is kept as it is. */
  lemma {:induction false} SqueezeWord(w: string, x: string)
    requires ' ' !in w
    ensures Squeeze(w + x) == w + Squeeze(x)
    decreases |w|
  {
    if w == [] {
      assert w + x == x;
    } else {
      var t := w[1..];
      assert w + x == [w[0]] + (t + x);
      SqueezeCons(w[0], t + x);
      SqueezeWord(t, x);
      assert [w[0]] + (t + Squeeze(x)) == w + Squeeze(x);
    }
  }

  /** A whole run of spaces in front becomes one space. */
  lemma {:induction false} SqueezeRun(sp: string, t: string)
    requires sp != [] && forall k | 0 <= k < |sp| :: sp[k] == ' '
    requires t == [] || t[0] != ' '
    ensures Squeeze(sp + t) == " " + Squeeze(t)
    decreases |sp|
  {
    var s := sp + t;
    assert s[0] == ' ';
    if |sp| == 1 {
      if t != [] {
        assert s[1] == t[0] && s[1..] == t;
      } else {
        assert s == " ";
      }
    } else {
      assert s[1] == sp[1] && s[1..] == sp[1..] + t;
      SqueezeRun(sp[1..], t);
    }
  }

  /** The two substitutions `create_description` applies to each part: only
      `[a-zA-Z0-9_ -;:.,]` is left, and spaces come one at a time. */
  function CleanText(s: string): (r: string)
    ensures TextChars(r) && SingleSpaced(r)
    ensures |r| <= |s|
    ensures NonSpaces(r) == NonSpaces(Blanked(s))
  {
    var b := Blanked(s);
    var r := Squeeze(b);
    assert forall k | 0 <= k < |r| :: r[k] in b;
    SqueezeKeeps(b);
    r
  }

  /** Cleaning a cleaned text changes nothing. */
  lemma CleanTextIdempotent(s: string)
    ensures CleanText(CleanText(s)) == CleanText(s)
  {
    var c := CleanText(s);
    assert Blanked(c) == c;
    SqueezeSingle(c);
  }

  /** Cleaning drops no character of the class and only blanks the others. */
  lemma CleanTextKeeps(s: string)
    requires TextChars(s)
    ensures NonSpaces(CleanText(s)) == NonSpaces(s)
  {
    assert Blanked(s) == s;
    SqueezeKeeps(s);
  }

  /** `sep.join(parts)` */
  function Join(parts: seq<string>, sep: string): (r: string)
    ensures parts == [] ==> r == ""
    ensures |parts| == 1 ==> r == parts[0]
  {
    if parts == [] then ""
    else if |parts| == 1 then parts[0]
    else parts[0] + sep + Join(parts[1..], sep)
  }

  /** Joining one more part adds the separator and that part at the end. */
  lemma {:induction false} JoinSnoc(parts: seq<string>, x: string, sep: string)
    requires parts != []
    ensures Join(parts + [x], sep) == Join(parts, sep) + sep + x
    decreases |parts|
  {
    var p := parts + [x];
    if |parts| == 1 {
      assert p[0] == parts[0] && p[1..] == [x];
    } else {
      assert p[0] == parts[0] && p[1..] == parts[1..] + [x];
      JoinSnoc(parts[1..], x, sep);
    }
  }

  /** The extended text: a list of texts is joined with ".". */
  function ExtendedText(t: Text): string
  {
    match t
    case Paragraph(text) => text
    case Paragraphs(texts) => Join(texts, ".")
  }

  /** `create_description` */
  function CreateDescription(d: Option<Description>): (r: string)
    ensures d.None? ==> r == NoDescription
    ensures d.Some? && d.value.extended.None? ==> r == CleanText(d.value.summary)
    ensures d.Some? && d.value.extended.Some? ==>
      r == CleanText(d.value.summary) + " " + CleanText(ExtendedText(d.value.extended.value))
    ensures TextChars(r)
  {
    match d
    case None => NoDescription
    case Some(Description(summary, None)) => CleanText(summary)
    case Some(Description(summary, Some(t))) => CleanText(summary) + " " + CleanText(ExtendedText(t))
  }

  /** A description is its cleaned summary, then, when there is an extended
      text, one space and that text cleaned: each part keeps the letters of
      its source and has single spaces only. */
  lemma DescriptionParts(summary: string, extended: Option<Text>)
    ensures var r := CreateDescription(Some(Description(summary, extended)));
            var s := CleanText(summary);
            && |s| <= |r| && r[..|s|] == s
            && (extended.None? ==> r == s)
            && (extended.Some? ==>
                  && |r| > |s| && r[|s|] == ' '
                  && var e := r[|s| + 1..];
                     SingleSpaced(e) && CleanText(e) == e
                     && (TextChars(ExtendedText(extended.value)) ==> NonSpaces(e) == NonSpaces(ExtendedText(extended.value))))
    ensures TextChars(summary) ==> NonSpaces(CleanText(summary)) == NonSpaces(summary)
  {
    var s := CleanText(summary);
    if extended.Some? {
      var t := ExtendedText(extended.value);
      var r := s + " " + CleanText(t);
      assert r[|s| + 1..] == CleanText(t);
      CleanTextIdempotent(t);
      if TextChars(t) {
        CleanTextKeeps(t);
      }
    }
    if TextChars(summary) {
      CleanTextKeeps(summary);
    }
  }

  // ---------------------------------------------------------------- references

  const DefinitionsUrl: string := "https://cwe.mitre.org/data/definitions/"

  /** `create_refs`: the catalogue reference and its definition page, each
      carrying the ID, which reads back out of both. */
  function CreateRefs(id: string): (r: seq<string>)
    ensures |r| == 2
    ensures |r[0]| == 4 + |id| && r[0][..4] == "CWE " && r[0][4..] == id
    ensures |r[1]| == |DefinitionsUrl| + |id| + 5
    ensures r[1][..|DefinitionsUrl|] == DefinitionsUrl
    ensures r[1][|DefinitionsUrl|..|r[1]| - 5] == id
    ensures r[1][|r[1]| - 5..] == ".html"
  {
    ["CWE " + id, DefinitionsUrl + id + ".html"]
  }

  // ---------------------------------------------------------------- the library

  /** The entry `cwe_to_threatspec.py` writes for a weakness. */
  function Entry(w: Weakness): LibraryThreat
  {
    WeaknessThreat(CreateName(w), CreateDescription(w.description), CreateRefs(w.id), None)
  }

  /** `threats[create_id(cwe)] = {...}` for each weakness, in catalogue order. */
  function LibraryWrites(ws: seq<Weakness>): (r: seq<(string, LibraryThreat)>)
    ensures |r| == |ws|
  {
    seq(|ws|, k requires 0 <= k < |ws| => (CreateId(ws[k]), Entry(ws[k])))
  }

  function Library(ws: seq<Weakness>): map<string, LibraryThreat>
  {
    Assigned(map[], LibraryWrites(ws))
  }

  /** The weakness loop of cwe_to_threatspec.py. */
  method BuildLibrary(ws: seq<Weakness>) returns (threats: map<string, LibraryThreat>)
    ensures threats == Library(ws)
  {
    threats := map[];
    var writes := LibraryWrites(ws);
    for i := 0 to |ws|
      invariant threats == Assigned(map[], writes[..i])
    {
      var cwe := ws[i];
      var identifier := CreateId(cwe);
      var name := CreateName(cwe);
      var desc := CreateDescription(cwe.description);
      var refs := CreateRefs(cwe.id);
      AssignedPrefix(map[], writes, i);
      threats := threats[identifier := WeaknessThreat(name, desc, refs, None)];
    }
    assert writes[..|ws|] == writes;
  }

  /** The library is keyed by exactly the ids of the weaknesses. */
  lemma LibraryKeys(ws: seq<Weakness>)
    ensures Library(ws).Keys == set w | w in ws :: CreateId(w)
  {
    var writes := LibraryWrites(ws);
    AssignedKeys(map[], writes);
    forall w | w in ws
      ensures CreateId(w) in set p | p in writes :: p.0
    {
      var k :| 0 <= k < |ws| && ws[k] == w;
      assert writes[k] in writes;
    }
  }

  /** Among weaknesses sharing an id, the last one in the catalogue wins. */
  lemma LibraryLastWins(ws: seq<Weakness>, i: nat)
    requires i < |ws|
    requires forall j | i < j < |ws| :: CreateId(ws[j]) != CreateId(ws[i])
    ensures CreateId(ws[i]) in Library(ws)
    ensures Library(ws)[CreateId(ws[i])] == Entry(ws[i])
  {
    AssignedLast(map[], LibraryWrites(ws), i);
  }

  /** With distinct underscore-free IDs every weakness keeps its own entry. */
  lemma LibraryComplete(ws: seq<Weakness>, i: nat)
    requires i < |ws|
    requires forall j | 0 <= j < |ws| :: '_' !in ws[j].id
    requires forall j, k | 0 <= j < k < |ws| :: ws[j].id != ws[k].id
    ensures CreateId(ws[i]) in Library(ws) && Library(ws)[CreateId(ws[i])] == Entry(ws[i])
  {
    forall j | i < j < |ws|
      ensures CreateId(ws[j]) != CreateId(ws[i])
    {
      CreateIdInjective(ws[j], ws[i]);
    }
    LibraryLastWins(ws, i);
  }
}
