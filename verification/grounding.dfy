/**
 * The entity grounding guard (chatbot/app/services/entity_extraction.py and
 * its spaCy twin chatbot/app/services/game_service.py). The NLP pipeline is
 * an uninterpreted function from text to a parsed document.
 *
 * The findings are lower-cased but the known names are compared as stored,
 * so the membership test is case-sensitive against the registry.
 */
module Grounding {
  import opened Text

  /** What stanza returns: the words of each sentence and the entity spans. */
  datatype StanzaDoc = StanzaDoc(sentences: seq<seq<string>>, ents: seq<string>)

  /** What spaCy returns: the tokens and the entity spans. */
  datatype SpacyDoc = SpacyDoc(tokens: seq<string>, ents: seq<string>)

  /** A word of some sentence of `doc`. */
  predicate IsWord(doc: StanzaDoc, w: string)
  {
    exists i, j :: 0 <= i < |doc.sentences| && 0 <= j < |doc.sentences[i]| && doc.sentences[i][j] == w
  }

  /** `get_game_entities` (stanza): the words of the lower-cased query, plus its entity spans lower-cased. */
  function GetGameEntities(query: string, nlp: string -> StanzaDoc): (r: set<string>)
    ensures forall w :: w in r <==>
      IsWord(nlp(Lower(query)), w) || exists e :: e in nlp(Lower(query)).ents && Lower(e) == w
  {
    var doc := nlp(Lower(query));
    (set i, j | 0 <= i < |doc.sentences| && 0 <= j < |doc.sentences[i]| :: doc.sentences[i][j])
      + (set e | e in doc.ents :: Lower(e))
  }

  /** `get_game_entities` (spaCy): the tokens of the lower-cased query, plus its entity spans lower-cased. */
  function GetGameEntitiesSpacy(query: string, nlp: string -> SpacyDoc): (r: set<string>)
    ensures forall w :: w in r <==>
      w in nlp(Lower(query)).tokens || exists e :: e in nlp(Lower(query)).ents && Lower(e) == w
  {
    var doc := nlp(Lower(query));
    (set t | t in doc.tokens) + (set e | e in doc.ents :: Lower(e))
  }

  /** A tokenizer whose words are pieces of the text it was given. */
  ghost predicate WordsAreSubstrings(nlp: string -> StanzaDoc)
  {
    forall text, w :: IsWord(nlp(text), w) ==> Contains(text, w)
  }

  /** With such a tokenizer every finding is lower-case: lower-casing a finding changes nothing. */
  lemma FindingsAreLowerCase(query: string, nlp: string -> StanzaDoc, w: string)
    requires WordsAreSubstrings(nlp)
    requires w in GetGameEntities(query, nlp)
    ensures IsLowerCase(w)
  {
    var doc := nlp(Lower(query));
    if IsWord(doc, w) {
      SubstringOfLowerIsLower(Lower(query), w);
    }
  }

  /**
   * `is_game_not_known`: no finding, lower-cased, is literally one of the known
   * names; as sets, the lower-cased findings and the registry are disjoint.
   */
  predicate IsGameNotKnown(findings: set<string>, known: seq<string>): (r: bool)
    ensures r <==> (set f | f in findings :: Lower(f)) !! (set n | n in known)
  {
    LoweredDisjoint(findings, known);
    forall f :: f in findings ==> Lower(f) !in known
  }

  lemma LoweredDisjoint(findings: set<string>, known: seq<string>)
    ensures (forall f :: f in findings ==> Lower(f) !in known)
        <==> (set f | f in findings :: Lower(f)) !! (set n | n in known)
  {
    var lowered := set f | f in findings :: Lower(f);
    var names := set n | n in known;
    if !(lowered !! names) {
      var w :| w in lowered && w in names;
      var f :| f in findings && Lower(f) == w;
      assert Lower(f) in known;
    } else {
      forall f | f in findings
        ensures Lower(f) !in known
      {
        assert Lower(f) in lowered;
      }
    }
  }

  /**
   * The loop of `is_game_not_known`, run over the findings in some iteration
   * order `order`, returning at the first hit; its answer does not depend on the order.
   */
  method IsGameNotKnownLoop(findings: set<string>, order: seq<string>, known: seq<string>) returns (r: bool)
    requires forall f :: f in findings <==> f in order
    ensures r <==> forall f :: f in findings ==> Lower(f) !in known
  {
    var i := 0;
    while i < |order|
      invariant 0 <= i <= |order|
      invariant forall j :: 0 <= j < i ==> Lower(order[j]) !in known
    {
      if Lower(order[i]) in known {
        assert order[i] in findings;
        return false;
      }
      i := i + 1;
    }
    return true;
  }

  /** No findings: the game is unknown. */
  lemma NoFindingsIsUnknown(known: seq<string>)
    ensures IsGameNotKnown({}, known)
  {
  }

  /** More findings or more known names can only turn "unknown" into "known", never back. */
  lemma IsGameNotKnownMonotone(findings: set<string>, more: set<string>, known: seq<string>, moreKnown: seq<string>)
    requires findings <= more
    requires forall n :: n in known ==> n in moreKnown
    ensures IsGameNotKnown(more, moreKnown) ==> IsGameNotKnown(findings, known)
  {
  }

  /** A known name containing an upper-case letter never matches any finding. */
  lemma CapitalisedNamesNeverMatch(findings: set<string>, known: seq<string>, extra: seq<string>)
    requires forall n :: n in extra ==> !IsLowerCase(n)
    ensures IsGameNotKnown(findings, known + extra) == IsGameNotKnown(findings, known)
  {
  }

  /** The guard is case-sensitive: "chess" is not grounded by a registry holding "Chess" and "Go". */
  lemma ChessIsNotGroundedByCapitalisedName()
    ensures IsGameNotKnown({"chess"}, ["Chess", "Go"])
  {
    assert Lower("chess") == "chess";
    assert "chess" != "Chess";
  }
}
