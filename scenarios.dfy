/**
 * Small documents walked through the listeners in traversal order, with
 * the parse-tree nodes built by hand: what the preprocessor leaves behind
 * for a link, a mention, an argument definition continued by a
 * reconstruction after a blank line, an inference rule line, an emphasis
 * closed right after it opened, a metadata key given twice, and two lookups
 * of one statement title. Each document starts with `OnArgdownEntry`.
 */
module Scenarios {
  import opened Wrappers
  import opened Text
  import opened Patterns
  import opened Model
  import opened Preprocessor

  /** A string without `]` holds no `](`. */
  lemma NoSeparatorWithoutBracket(s: string)
    requires forall i :: 0 <= i < |s| ==> s[i] != ']'
    ensures forall k :: !OccursAt(s, "](", k)
  {
    forall k ensures !OccursAt(s, "](", k) {
      if 0 <= k && k + 2 <= |s| {
        assert s[k..k + 2][0] == s[k] != ']';
      }
    }
  }

  /** The link image of the example below, as the markup puts it together. */
  const SeeHereImage := "[" + "See here" + "](" + "http://x.io" + ")" + " "

  /** The link image of the example below, taken apart. */
  lemma SeeHereLink()
    ensures MatchLink(SeeHereImage) == Some(("See here", "http://x.io"))
    ensures TrailingWhitespace(SeeHereImage) == " "
  {
    NoSeparatorWithoutBracket("http://x.io");
    LinkRoundTrip("See here", "http://x.io", " ");
  }

  /**
   * A statement consisting of the link `[See here](http://x.io) `: its text
   * is the link text plus the trailing space, and one link range covers
   * exactly the link text.
   */
  method LinkInStatement() returns (text: string, start: nat, stop: Option<int>, url: string)
    ensures text == "See here " && start == 0 && stop == Some(7) && url == "http://x.io"
  {
    var p := new ArgdownPreprocessor();
    p.OnArgdownEntry();
    var root := new Node("argdown", "", []);
    var statementNode := new Node("statement", "", []);
    p.OnStatementEntry(statementNode, root);
    SeeHereLink();
    var link := new Node("Link", SeeHereImage, []);
    p.OnLinkEntry(link);
    var statement := p.currentStatement;
    text, start, stop, url := statement.text, statement.ranges[0].start, statement.ranges[0].stop, statement.ranges[0].url;
  }

  /** The mention image `@[Claim] `, as the markup puts it together. */
  const ClaimMention := "@[" + "Claim" + "]" + " "

  /** The mention image `@[Claim] ` names Claim and ends in a space. */
  lemma MentionOfClaim()
    ensures MentionTitle(StatementMention, ClaimMention) == Some("Claim")
    ensures TrailingWhitespace(ClaimMention) == " "
  {
    StatementMentionRoundTrip("Claim", " ");
  }

  /**
   * The statement `see @[Claim] `: the mention keeps its markup in the text,
   * and its range names `Claim` and spans the whole image.
   */
  method MentionInStatement() returns (text: string, title: string, start: nat, stop: Option<int>, trailing: string)
    ensures text == "see " + ClaimMention && title == "Claim" && start == 4 && stop == Some(12) && trailing == " "
  {
    var p := new ArgdownPreprocessor();
    p.OnArgdownEntry();
    var root := new Node("argdown", "", []);
    var statementNode := new Node("statement", "", []);
    p.OnStatementEntry(statementNode, root);
    var word := new Node("Freestyle", "see ", []);
    var freeText := new Node("freestyleText", "", [word]);
    p.OnFreestyleTextEntry(freeText);
    MentionOfClaim();
    var mention := new Node("StatementMention", ClaimMention, []);
    p.OnMentionExit(mention, StatementMention);
    var statement := p.currentStatement;
    var range := statement.ranges[0];
    text, title, start, stop, trailing := statement.text, range.title, range.start, range.stop, mention.trailingWhitespace;
  }

  /** The argument definition token `<A>:` names A. */
  lemma HeaderOfA()
    ensures ArgumentTitle(DefinitionToken, "<A>:") == Some("A")
  {
    ArgumentDefinitionRoundTrip("A");
    assert "<A>:" == "<" + "A" + ">:";
  }

  /**
   * `<A>: ...`, a blank line, then a reconstruction: the reconstruction
   * continues argument A instead of opening an untitled one.
   */
  method ContinuedAfterBlankLine() returns (continued: bool)
    ensures continued
  {
    var header := new Node("ArgumentDefinition", "<A>:", []);
    var definition := new Node("argumentDefinition", "", [header]);
    var blank := new Node("Emptyline", "", []);
    var reconstruction := new Node("argument", "", []);
    var root := new Node("argdown", "", [definition, blank, reconstruction]);

    var p := new ArgdownPreprocessor();
    p.OnArgdownEntry();
    HeaderOfA();
    p.OnArgumentTitleEntry(header, definition, DefinitionToken);
    var a := definition.argument;
    p.OnArgumentEntry(reconstruction, root, 2);
    continued := reconstruction.argument == a;
  }

  /** The label of the rule line `-- modus ponens --`. */
  lemma ModusPonensLabel()
    ensures Trim(" modus ponens ") == "modus ponens"
  {
    var s, t, r := " modus ponens ", "modus ponens ", "modus ponens";
    assert s[1..] == t && t[..|t| - 1] == r;
    assert IsJsWhitespace(s[0]) && !IsJsWhitespace(t[0]);
    assert TrimStart(t) == t;
    assert TrimStart(s) == t;
    assert IsJsWhitespace(t[|t| - 1]) && !IsJsWhitespace(r[|r| - 1]);
    assert TrimEnd(r) == r;
    assert TrimEnd(t) == r;
  }

  /** A free-text child ` modus ponens ` contributes the rule label `modus ponens`. */
  lemma ModusPonensRule(n: Node)
    requires n.name == "freestyleText" && n.text == " modus ponens "
    ensures RuleLabels([n]) == ["modus ponens"]
  {
    ModusPonensLabel();
    assert [n][..0] == [];
  }

  /**
   * The inference line `-- modus ponens --`: the inference gets the one
   * rule label, trimmed.
   */
  method RuleOfInference() returns (rules: seq<string>)
    ensures rules == ["modus ponens"]
  {
    var ruleWord := new Node("Freestyle", " modus ponens ", []);
    var ruleText := new Node("freestyleText", "", [ruleWord]);
    var rulesNode := new Node("inferenceRules", "", [ruleText]);
    var inference := new Node("inference", "", [rulesNode]);

    var p := new ArgdownPreprocessor();
    p.OnArgdownEntry();
    p.OnInferenceEntry(inference);
    var inf := p.currentInference;
    p.OnFreestyleTextEntry(ruleText);
    assert ruleText.text == " modus ponens " by {
      assert Images(ruleText.children) == [" modus ponens "];
      assert Concat([" modus ponens "]) == Concat([]) + " modus ponens ";
    }
    ModusPonensRule(ruleText);
    p.OnInferenceRulesExit(rulesNode);
    rules := inf.inferenceRules;
  }

  /**
   * Two lookups of the same non-empty title in a fresh preprocessor: the
   * first creates the class, the second returns that same instance.
   */
  method SameClassTwice(title: string) returns (first: EquivalenceClass?, second: EquivalenceClass?)
    requires title != ""
    ensures first != null && first == second && first.title == title
  {
    var p := new ArgdownPreprocessor();
    p.OnArgdownEntry();
    first := p.GetEquivalenceClass(title);
    second := p.GetEquivalenceClass(title);
  }

  /**
   * `****` inside a statement: a bold range closed before any text was
   * added ends one before it starts.
   */
  method EmptyEmphasis() returns (start: nat, stop: Option<int>)
    ensures stop == Some(start - 1)
  {
    var p := new ArgdownPreprocessor();
    p.OnArgdownEntry();
    var root := new Node("argdown", "", []);
    var statementNode := new Node("statement", "", []);
    p.OnStatementEntry(statementNode, root);
    p.OnEmphasisEntry(Bold);
    var range := p.rangesStack[|p.rangesStack| - 1];
    var closing := new Node("BoldEnd", "**", []);
    var bold := new Node("bold", "", [closing]);
    assert !EndsWithSpace("**");
    p.OnEmphasisExit(bold);
    start, stop := range.start, range.stop;
  }

  /**
   * Two metadata lines with the same key in one inference: the later line's
   * value replaces the earlier one, and every other key keeps its value.
   */
  method RepeatedMetadataKey(p: ArgdownPreprocessor, first: Node, second: Node)
    requires p.currentInference != null && |first.children| >= 1 && |second.children| >= 1
    requires first.children[0].text == second.children[0].text
    modifies p.currentInference`metaData
    ensures var key := second.children[0].text;
      && p.currentInference.metaData == old(p.currentInference.metaData)[key := MetadataValue(Texts(second.children))]
  {
    p.OnMetadataStatementExit(first);
    p.OnMetadataStatementExit(second);
  }
}
