/** The cases of `text_to_identifier` and `remove_excessive_space` that the
    repository's own tests spell out (tests/pythreatspec_test.py), each
    computed one step at a time. */
module IdentifierExamples {
  import opened Chars
  import opened Identifiers

  // ---------------------------------------------------------------- text_to_identifier

  /** The empty text and an id are kept. */
  lemma TextToIdentifierKeeps()
    ensures TextToIdentifier("") == ""
    ensures TextToIdentifier("@abc") == "@abc"
  {
  }

  lemma StripPlain()
    ensures Strip("a b c") == "a b c"
  {
    StripAround("", "a b c", "");
    assert "" + "a b c" + "" == "a b c";
  }

  lemma UnderscoresPlain()
    ensures SpacesToUnderscores("a b c") == "a_b_c"
  {
  }

  lemma LowerPlain()
    ensures LowerStr("a_b_c") == "a_b_c"
  {
  }

  lemma DropHyphensPlain()
    ensures DropHyphens("a_b_c") == "a_b_c"
  {
    DropHyphensKeeps("a_b_c");
  }

  /** The body of the identifier made from "a b c" once it is stripped. */
  lemma BodyPlain()
    ensures DropHyphens(LowerStr(SpacesToUnderscores("a b c"))) == "a_b_c"
  {
    UnderscoresPlain();
    LowerPlain();
    DropHyphensPlain();
  }

  /** Spaces become underscores: `text_to_identifier("a b c")`. */
  lemma TextToIdentifierSpaces()
    ensures TextToIdentifier("a b c") == "@" + "a_b_c"
  {
    StripPlain();
    BodyPlain();
  }

  /** Surrounding whitespace is stripped first: `text_to_identifier(" a b c ")`. */
  lemma TextToIdentifierTrims()
    ensures TextToIdentifier(" " + "a b c" + " ") == "@" + "a_b_c"
  {
    StripAround(" ", "a b c", " ");
    BodyPlain();
  }

  lemma StripHyphened()
    ensures Strip("a-b-c") == "a-b-c"
  {
    StripAround("", "a-b-c", "");
    assert "" + "a-b-c" + "" == "a-b-c";
  }

  lemma UnderscoresHyphened()
    ensures SpacesToUnderscores("a-b-c") == "a-b-c"
  {
  }

  lemma LowerHyphened()
    ensures LowerStr("a-b-c") == "a-b-c"
  {
  }

  lemma DropHyphensHyphened()
    ensures DropHyphens("a-b-c") == "abc"
  {
  }

  /** The body of the identifier made from "a-b-c". */
  lemma BodyHyphened()
    ensures DropHyphens(LowerStr(SpacesToUnderscores("a-b-c"))) == "abc"
  {
    UnderscoresHyphened();
    LowerHyphened();
    DropHyphensHyphened();
  }

  /** Hyphens are dropped: `text_to_identifier("a-b-c")`. */
  lemma TextToIdentifierHyphens()
    ensures TextToIdentifier("a-b-c") == "@" + "abc"
  {
    StripHyphened();
    BodyHyphened();
  }

  // ---------------------------------------------------------------- remove_excessive_space

  /** `remove_excessive_space("a  b")`: the double space becomes one. */
  lemma RemoveExcessiveSpaceDouble()
    ensures RemoveExcessiveSpace("a" + "  " + "b") == "a" + " " + "b"
  {
    RemoveExcessiveSpaceWord("a", "  ", "b");
    RemoveExcessiveSpaceWord("b", "", "");
    assert "b" + "" + "" == "b";
  }

  lemma RunsFromC()
    ensures RemoveExcessiveSpace("c" + " " + "") == "c"
  {
    RemoveExcessiveSpaceWord("c", " ", "");
  }

  lemma RunsFromB()
    ensures RemoveExcessiveSpace("b" + " " + ("c" + " " + "")) == "b" + " " + "c"
  {
    RemoveExcessiveSpaceWord("b", " ", "c" + " " + "");
    RunsFromC();
  }

  lemma RunsFromA()
    ensures RemoveExcessiveSpace("a" + "  " + ("b" + " " + ("c" + " " + ""))) == "a" + " " + ("b" + " " + "c")
  {
    RemoveExcessiveSpaceWord("a", "  ", "b" + " " + ("c" + " " + ""));
    RunsFromB();
  }

  /** `remove_excessive_space("  a  b c ")`: leading and trailing runs go,
      inner runs become one space each. */
  lemma RemoveExcessiveSpaceRuns()
    ensures RemoveExcessiveSpace("  " + ("a" + "  " + ("b" + " " + ("c" + " " + "")))) == "a" + " " + ("b" + " " + "c")
  {
    RemoveExcessiveSpaceLeading("  ", "a" + "  " + ("b" + " " + ("c" + " " + "")));
    RunsFromA();
  }
}
