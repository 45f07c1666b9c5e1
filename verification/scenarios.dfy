/**
 * Hand-built parse trees for the two sentences `NounPhrases.main` runs, and one
 * tree in which an accepted noun phrase sits inside a rejected one. The trees
 * are what a constituency parser plausibly returns; the parser itself is not
 * part of this model.
 */
module Scenarios {
  import opened Wrappers
  import opened Text
  import opened Trees
  import opened Patterns
  import opened TagPaths
  import opened Filters
  import opened Extraction

  /** A pre-terminal: a part-of-speech tag over one word. */
  function Tag(tag: string, word: string): Parse {
    Parse(tag, [], word)
  }

  lemma PhrasesOfOne(filters: seq<Filter>, a: Parse)
    ensures PhrasesOf(filters, [a]) == Phrases(filters, a)
  {
    assert [a][..0] == [];
  }

  lemma PhrasesOfTwo(filters: seq<Filter>, a: Parse, b: Parse)
    ensures PhrasesOf(filters, [a, b]) == Phrases(filters, a) + Phrases(filters, b)
  {
    assert [a, b][..1] == [a];
    PhrasesOfOne(filters, a);
  }

  lemma PhrasesOfThree(filters: seq<Filter>, a: Parse, b: Parse, c: Parse)
    ensures PhrasesOf(filters, [a, b, c]) == Phrases(filters, a) + Phrases(filters, b) + Phrases(filters, c)
  {
    assert [a, b, c][..2] == [a, b];
    PhrasesOfTwo(filters, a, b);
  }

  lemma TagNodesOfTwo(a: Parse, b: Parse)
    ensures TagNodesOf([a, b]) == TagNodesAt(a) + TagNodesAt(b)
  {
    assert [a, b][1..] == [b];
    assert [b][1..] == [];
    assert TagNodesOf([b]) == TagNodesAt(b) + TagNodesOf([]);
    assert TagNodesOf([a, b]) == TagNodesAt(a) + TagNodesOf([b]);
  }

  /** The tags used below, lower-cased. */
  lemma LowerCaseTags()
    ensures LowerCase("DT") == "dt" && LowerCase("NN") == "nn" && LowerCase("NNP") == "nnp"
    ensures LowerCase("IN") == "in" && LowerCase("PRP") == "prp"
  {
  }

  /**
   * A noun phrase over tag nodes whose lower-cased tags are `ws` is extracted by
   * the default chain exactly when the chain does not reject `ws`.
   */
  lemma DefaultAcceptance(n: Parse, ws: seq<string>)
    requires n.category == "NP"
    requires |TagNodes(n)| == |ws|
    requires forall i :: 0 <= i < |ws| ==> LowerCase(TagNodes(n)[i].category) == ws[i]
    requires PlainTags(ws)
    ensures TagPath(n) == Join(ws)
    ensures Accepted(DefaultFilters, n) <==> !Rejected(DefaultFilters, Join(ws))
  {
    assert LowerTags(TagNodes(n)) == ws;
  }

  /** Five tags whose first four have two to four word characters: rejected as long. */
  lemma LongPathRejected(ws: seq<string>)
    requires ws == ["dt", "nnp", "in", "dt", "nnp"]
    ensures PlainTags(ws)
    ensures Rejected(DefaultFilters, Join(ws))
  {
    assert ValidWord(ws[0]) && ValidWord(ws[1]) && ValidWord(ws[2]) && ValidWord(ws[3]);
    DefaultFiltersOnTags(ws);
  }

  /** A determiner followed by a common noun: rejected, whatever follows. */
  lemma DetNounPathRejected(ws: seq<string>)
    requires |ws| >= 2 && ws[0] == "dt" && ws[1] == "nn" && PlainTags(ws)
    ensures Rejected(DefaultFilters, Join(ws))
  {
    assert ws[1][..2] == "nn";
    DefaultFiltersOnTags(ws);
  }

  /**
   * A noun phrase over two tag nodes: its tag path is their two lower-cased tags,
   * and it yields its own text exactly when the default chain accepts that path.
   */
  lemma TwoTagNounPhrase(n: Parse, ws: seq<string>)
    requires n.category == "NP" && |n.children| == 2
    requires IsTagNode(n.children[0]) && n.children[0].category != "NP"
    requires IsTagNode(n.children[1]) && n.children[1].category != "NP"
    requires ws == [LowerCase(n.children[0].category), LowerCase(n.children[1].category)]
    ensures TagPath(n) == Join(ws)
    ensures Phrases(DefaultFilters, n) == if Rejected(DefaultFilters, Join(ws)) then {} else {n.text}
  {
    var a, b := n.children[0], n.children[1];
    assert n.children == [a, b];
    TagNodesOfTwo(a, b);
    assert LowerTags([a, b]) == ws;
    PhrasesOfTwo(DefaultFilters, a, b);
  }

  /** A noun phrase over one tag node. */
  lemma OneTagNounPhrase(n: Parse, ws: seq<string>)
    requires n.category == "NP" && |n.children| == 1
    requires IsTagNode(n.children[0]) && n.children[0].category != "NP"
    requires ws == [LowerCase(n.children[0].category)]
    ensures TagPath(n) == Join(ws)
    ensures Phrases(DefaultFilters, n) == if Rejected(DefaultFilters, Join(ws)) then {} else {n.text}
  {
    var a := n.children[0];
    assert n.children == [a];
    assert [a][1..] == [];
    assert TagNodesOf([a]) == [a] + TagNodesOf([]);
    assert LowerTags([a]) == ws;
    PhrasesOfOne(DefaultFilters, a);
  }

  /** A determiner and a proper noun, two proper nouns, or a lone personal pronoun: kept. */
  lemma KeptPath(ws: seq<string>)
    requires ws == ["dt", "nnp"] || ws == ["nnp", "nnp"] || ws == ["prp"]
    ensures !Rejected(DefaultFilters, Join(ws))
  {
    PlainTagNames(ws);
    DefaultFiltersOnTags(ws);
  }

  /** A determiner and a common noun, alone: rejected. */
  lemma DetNounPairRejected(ws: seq<string>)
    requires ws == ["dt", "nn"]
    ensures Rejected(DefaultFilters, Join(ws))
  {
    PlainTagNames(ws);
    DetNounPathRejected(ws);
  }

  /** A lone common noun: rejected. */
  lemma SingleNounRejected(ws: seq<string>)
    requires ws == ["nn"]
    ensures Rejected(DefaultFilters, Join(ws))
  {
    PlainTagNames(ws);
    DefaultFiltersOnTags(ws);
  }

  /** A rejected noun phrase with two children yields only what its children yield. */
  lemma RejectedOverTwo(n: Parse)
    requires n.category == "NP" && |n.children| == 2
    requires Rejected(DefaultFilters, TagPath(n))
    ensures Phrases(DefaultFilters, n) == Phrases(DefaultFilters, n.children[0]) + Phrases(DefaultFilters, n.children[1])
  {
    assert n.children == [n.children[0], n.children[1]];
    PhrasesOfTwo(DefaultFilters, n.children[0], n.children[1]);
  }

  // ---------------------------------------------------------------------------
  // "Who is the author of The Call of the Wild ?"

  const TheCall := Parse("NP", [Tag("DT", "The"), Tag("NNP", "Call")], "The Call")
  const TheWild := Parse("NP", [Tag("DT", "the"), Tag("NNP", "Wild")], "the Wild")
  const OfTheWild := Parse("PP", [Tag("IN", "of"), TheWild], "of the Wild")
  const TheCallOfTheWild := Parse("NP", [TheCall, OfTheWild], "The Call of the Wild")
  const TheAuthor := Parse("NP", [Tag("DT", "the"), Tag("NN", "author")], "the author")
  const OfTheCall := Parse("PP", [Tag("IN", "of"), TheCallOfTheWild], "of The Call of the Wild")
  const AuthorOf := Parse("NP", [TheAuthor, OfTheCall], "the author of The Call of the Wild")
  const Who := Parse("WHNP", [Tag("WP", "Who")], "Who")
  const IsAuthor := Parse("SQ", [Tag("VBZ", "is"), AuthorOf], "is the author of The Call of the Wild")
  const Question :=
    Parse("SBARQ", [Who, IsAuthor, Tag(".", "?")], "Who is the author of The Call of the Wild ?")
  const QuestionTree := Parse("TOP", [Question], "Who is the author of The Call of the Wild ?")

  /** "The Call": tag path "dt nnp", which no default filter rejects. */
  lemma TheCallKept()
    ensures Phrases(DefaultFilters, TheCall) == {"The Call"}
  {
    LowerCaseTags();
    TwoTagNounPhrase(TheCall, ["dt", "nnp"]);
    KeptPath(["dt", "nnp"]);
  }

  /** "the Wild": tag path "dt nnp", kept. */
  lemma TheWildKept()
    ensures Phrases(DefaultFilters, TheWild) == {"the Wild"}
  {
    LowerCaseTags();
    TwoTagNounPhrase(TheWild, ["dt", "nnp"]);
    KeptPath(["dt", "nnp"]);
  }

  /** The tag names used below are plain tags. */
  lemma PlainTagNames(ws: seq<string>)
    requires forall i :: 0 <= i < |ws| ==> ws[i] in {"dt", "nn", "nnp", "in", "prp"}
    ensures PlainTags(ws)
  {
    assert PlainTag("dt") && PlainTag("nn") && PlainTag("nnp") && PlainTag("in") && PlainTag("prp");
  }

  lemma TheCallOfTheWildTags()
    ensures TagNodes(TheCallOfTheWild)
         == [Tag("DT", "The"), Tag("NNP", "Call"), Tag("IN", "of"), Tag("DT", "the"), Tag("NNP", "Wild")]
  {
    TagNodesOfTwo(Tag("DT", "The"), Tag("NNP", "Call"));
    TagNodesOfTwo(Tag("DT", "the"), Tag("NNP", "Wild"));
    TagNodesOfTwo(Tag("IN", "of"), TheWild);
    TagNodesOfTwo(TheCall, OfTheWild);
  }

  /** "The Call of the Wild": tag path "dt nnp in dt nnp", rejected as long. */
  lemma TheCallOfTheWildRejected()
    ensures Phrases(DefaultFilters, TheCallOfTheWild) == {"The Call", "the Wild"}
  {
    TheCallOfTheWildPathRejected();
    RejectedOverTwo(TheCallOfTheWild);
    TheCallKept();
    TheWildKept();
    PhrasesOfTwo(DefaultFilters, Tag("IN", "of"), TheWild);
  }

  lemma TheCallOfTheWildPathRejected()
    ensures Rejected(DefaultFilters, TagPath(TheCallOfTheWild))
  {
    TheCallOfTheWildTags();
    var ws := ["dt", "nnp", "in", "dt", "nnp"];
    LowerCaseTags();
    LongPathRejected(ws);
    DefaultAcceptance(TheCallOfTheWild, ws);
  }

  /** "the author": tag path "dt nn", rejected as a determiner and a common noun. */
  lemma TheAuthorRejected()
    ensures Phrases(DefaultFilters, TheAuthor) == {}
  {
    LowerCaseTags();
    TwoTagNounPhrase(TheAuthor, ["dt", "nn"]);
    DetNounPairRejected(["dt", "nn"]);
  }

  lemma AuthorOfTags()
    ensures TagNodes(AuthorOf)
         == [Tag("DT", "the"), Tag("NN", "author"), Tag("IN", "of")] + TagNodes(TheCallOfTheWild)
  {
    TagNodesOfTwo(Tag("DT", "the"), Tag("NN", "author"));
    TagNodesOfTwo(Tag("IN", "of"), TheCallOfTheWild);
    TagNodesOfTwo(TheAuthor, OfTheCall);
  }

  lemma AuthorOfPath(ws: seq<string>)
    requires ws == ["dt", "nn", "in", "dt", "nnp", "in", "dt", "nnp"]
    ensures TagPath(AuthorOf) == Join(ws)
  {
    AuthorOfTags();
    TheCallOfTheWildTags();
    LowerCaseTags();
    var ts := TagNodes(AuthorOf);
    assert |ts| == 8;
    forall i | 0 <= i < 8
      ensures LowerCase(ts[i].category) == ws[i]
    {
    }
    assert LowerTags(ts) == ws;
  }

  /**
   * "the author of The Call of the Wild": tag path "dt nn in dt nnp in dt nnp",
   * rejected as a determiner and a common noun; the two phrases inside survive.
   */
  lemma AuthorOfRejected()
    ensures Phrases(DefaultFilters, AuthorOf) == {"The Call", "the Wild"}
  {
    AuthorOfPathRejected();
    RejectedOverTwo(AuthorOf);
    TheAuthorRejected();
    TheCallOfTheWildRejected();
    PhrasesOfTwo(DefaultFilters, Tag("IN", "of"), TheCallOfTheWild);
  }

  lemma AuthorOfPathRejected()
    ensures Rejected(DefaultFilters, TagPath(AuthorOf))
  {
    var ws := ["dt", "nn", "in", "dt", "nnp", "in", "dt", "nnp"];
    AuthorOfPath(ws);
    PlainTagNames(ws);
    DetNounPathRejected(ws);
  }

  /** The default chain keeps "The Call" and "the Wild", the result `main` prints. */
  lemma QuestionPhrases()
    ensures Phrases(DefaultFilters, QuestionTree) == {"The Call", "the Wild"}
  {
    AuthorOfRejected();
    PhrasesOfOne(DefaultFilters, Tag("WP", "Who"));
    PhrasesOfTwo(DefaultFilters, Tag("VBZ", "is"), AuthorOf);
    PhrasesOfThree(DefaultFilters, Who, IsAuthor, Tag(".", "?"));
    PhrasesOfOne(DefaultFilters, Question);
  }

  // ---------------------------------------------------------------------------
  // "It is time to visit the doctor ."

  const It := Parse("NP", [Tag("PRP", "It")], "It")
  const Time := Parse("NP", [Tag("NN", "time")], "time")
  const TheDoctor := Parse("NP", [Tag("DT", "the"), Tag("NN", "doctor")], "the doctor")
  const VisitDoctor := Parse("VP", [Tag("VB", "visit"), TheDoctor], "visit the doctor")
  const ToVisit := Parse("VP", [Tag("TO", "to"), VisitDoctor], "to visit the doctor")
  const Purpose := Parse("S", [ToVisit], "to visit the doctor")
  const IsTime := Parse("VP", [Tag("VBZ", "is"), Time, Purpose], "is time to visit the doctor")
  const Statement := Parse("S", [It, IsTime, Tag(".", ".")], "It is time to visit the doctor .")
  const StatementTree := Parse("TOP", [Statement], "It is time to visit the doctor .")

  /** "It": tag path "prp", kept. */
  lemma ItKept()
    ensures Phrases(DefaultFilters, It) == {"It"}
  {
    LowerCaseTags();
    OneTagNounPhrase(It, ["prp"]);
    KeptPath(["prp"]);
  }

  /** "time": tag path "nn", rejected as a single common noun. */
  lemma TimeRejected()
    ensures Phrases(DefaultFilters, Time) == {}
  {
    LowerCaseTags();
    OneTagNounPhrase(Time, ["nn"]);
    SingleNounRejected(["nn"]);
  }

  /** "the doctor": tag path "dt nn", rejected as a determiner and a common noun. */
  lemma TheDoctorRejected()
    ensures Phrases(DefaultFilters, TheDoctor) == {}
  {
    LowerCaseTags();
    TwoTagNounPhrase(TheDoctor, ["dt", "nn"]);
    DetNounPairRejected(["dt", "nn"]);
  }

  /** The default chain keeps only "It", the result `main` prints. */
  lemma StatementPhrases()
    ensures Phrases(DefaultFilters, StatementTree) == {"It"}
  {
    ItKept();
    TimeRejected();
    TheDoctorRejected();
    PhrasesOfTwo(DefaultFilters, Tag("VB", "visit"), TheDoctor);
    PhrasesOfTwo(DefaultFilters, Tag("TO", "to"), VisitDoctor);
    PhrasesOfOne(DefaultFilters, ToVisit);
    PhrasesOfThree(DefaultFilters, Tag("VBZ", "is"), Time, Purpose);
    PhrasesOfThree(DefaultFilters, It, IsTime, Tag(".", "."));
    PhrasesOfOne(DefaultFilters, Statement);
  }

  // ---------------------------------------------------------------------------
  // "the house of John Smith": an accepted phrase inside a rejected one

  const TheHouse := Parse("NP", [Tag("DT", "the"), Tag("NN", "house")], "the house")
  const JohnSmith := Parse("NP", [Tag("NNP", "John"), Tag("NNP", "Smith")], "John Smith")
  const OfJohnSmith := Parse("PP", [Tag("IN", "of"), JohnSmith], "of John Smith")
  const HouseOf := Parse("NP", [TheHouse, OfJohnSmith], "the house of John Smith")

  /**
   * The outer phrase (tag path "dt nn in nnp nnp") and "the house" are rejected as
   * a determiner and a common noun; "John Smith" (tag path "nnp nnp") is kept all
   * the same, because rejecting a node does not stop the walk below it.
   */
  lemma InnerPhraseSurvives()
    ensures !Accepted(DefaultFilters, HouseOf) && Accepted(DefaultFilters, JohnSmith)
    ensures Phrases(DefaultFilters, HouseOf) == {"John Smith"}
  {
    HouseOfRejected();
    RejectedOverTwo(HouseOf);
    JohnSmithKept();
    TheHouseRejected();
    PhrasesOfTwo(DefaultFilters, Tag("IN", "of"), JohnSmith);
  }

  lemma JohnSmithKept()
    ensures Accepted(DefaultFilters, JohnSmith)
    ensures Phrases(DefaultFilters, JohnSmith) == {"John Smith"}
  {
    LowerCaseTags();
    TwoTagNounPhrase(JohnSmith, ["nnp", "nnp"]);
    KeptPath(["nnp", "nnp"]);
  }

  lemma TheHouseRejected()
    ensures Phrases(DefaultFilters, TheHouse) == {}
  {
    LowerCaseTags();
    TwoTagNounPhrase(TheHouse, ["dt", "nn"]);
    DetNounPairRejected(["dt", "nn"]);
  }

  lemma HouseOfRejected()
    ensures !Accepted(DefaultFilters, HouseOf)
  {
    var ws := ["dt", "nn", "in", "nnp", "nnp"];
    HouseOfPath(ws);
    PlainTagNames(ws);
    DetNounPathRejected(ws);
  }

  lemma HouseOfPath(ws: seq<string>)
    requires ws == ["dt", "nn", "in", "nnp", "nnp"]
    ensures TagPath(HouseOf) == Join(ws)
  {
    LowerCaseTags();
    TagNodesOfTwo(Tag("DT", "the"), Tag("NN", "house"));
    TagNodesOfTwo(Tag("NNP", "John"), Tag("NNP", "Smith"));
    TagNodesOfTwo(Tag("IN", "of"), JohnSmith);
    TagNodesOfTwo(TheHouse, OfJohnSmith);
    var ts := TagNodes(HouseOf);
    assert ts == [Tag("DT", "the"), Tag("NN", "house"), Tag("IN", "of"), Tag("NNP", "John"), Tag("NNP", "Smith")];
    assert LowerTags(ts) == ws;
  }

  // ---------------------------------------------------------------------------
  // `main`, with the parser fixed to return the trees above

  /** `get` on the first sentence, with a parser that returns its one parse. */
  method QuestionExample() returns (phrases: set<string>)
    ensures phrases == {"The Call", "the Wild"}
  {
    var np := WithDefaultFilters("Who is the author of The Call of the Wild ?");
    phrases := Get(np, s => Some([QuestionTree]));
    PhrasesOfOne(DefaultFilters, QuestionTree);
    QuestionPhrases();
  }

  /** `get` on the second sentence. */
  method StatementExample() returns (phrases: set<string>)
    ensures phrases == {"It"}
  {
    var np := WithDefaultFilters("It is time to visit the doctor .");
    phrases := Get(np, s => Some([StatementTree]));
    PhrasesOfOne(DefaultFilters, StatementTree);
    StatementPhrases();
  }

  /** `get` when loading the model fails: the failure is swallowed and the set is empty. */
  method FailedParseExample() returns (phrases: set<string>)
    ensures phrases == {}
  {
    var np := WithDefaultFilters("It is time to visit the doctor .");
    phrases := Get(np, s => None);
  }
}
