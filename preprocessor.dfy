/**
 * The semantic-analysis pass over an Argdown parse tree: one method per
 * entry/exit listener, all sharing the traversal state of one
 * `ArgdownPreprocessor` (the "current" slots, the ranges and parents
 * stacks, the title counter and the two registries).
 */
module Preprocessor {
  import opened Wrappers
  import opened Text
  import opened Titles
  import opened Patterns
  import opened Model

  /** Which of the two title-bearing token forms a node is. */
  datatype TitleToken = DefinitionToken | ReferenceToken

  function StatementTitle(token: TitleToken, image: string): Option<string>
  {
    match token
    case DefinitionToken => StatementDefinitionTitle(image)
    case ReferenceToken => StatementReferenceTitle(image)
  }

  function ArgumentTitle(token: TitleToken, image: string): Option<string>
  {
    match token
    case DefinitionToken => ArgumentDefinitionTitle(image)
    case ReferenceToken => ArgumentReferenceTitle(image)
  }

  predicate IsMention(rangeType: RangeType) {
    rangeType == StatementMention || rangeType == ArgumentMention
  }

  predicate IsEmphasis(rangeType: RangeType) {
    rangeType == Bold || rangeType == Italic
  }

  /** The title a mention image names: `@[Title]` or `@<Title>`. */
  function MentionTitle(rangeType: RangeType, image: string): Option<string>
    requires IsMention(rangeType)
  {
    if rangeType == StatementMention then StatementMentionTitle(image) else ArgumentMentionTitle(image)
  }

  /**
   * The relation-graph node a subject stands for, given the statements
   * registry: an argument itself, or the equivalence class of a statement's
   * title.
   */
  function SubjectTarget(subject: Subject, statements: map<string, EquivalenceClass>): Option<Target>
    reads SubjectStatements(subject)
  {
    match subject
    case NoSubject => None
    case ArgumentSubject(a) => Some(ArgumentTarget(a))
    case StatementSubject(s) => if s.title in statements then Some(ClassTarget(statements[s.title])) else None
  }

  /** The content of a relation node: the argument or else the statement attached to it. */
  function ContentSubject(n: Node): Subject
    reads n
  {
    if n.argument != null then ArgumentSubject(n.argument)
    else if n.statement != null then StatementSubject(n.statement)
    else NoSubject
  }

  /**
   * The argument a reconstruction block at `parent.children[i]` continues:
   * the one attached to the preceding argument definition or reference,
   * looking past at most one blank line.
   */
  function ContinuedArgument(parent: Node, i: nat): Argument?
    requires i < |parent.children|
    requires !(i == 1 && IsEmptyLine(parent.children[0]))
    reads parent.children
  {
    if i == 0 then null
    else
      var prev := parent.children[i - 1];
      if IsArgumentHeader(prev) then prev.argument
      else if IsEmptyLine(prev) then
        var before := parent.children[i - 2];
        if IsArgumentHeader(before) then before.argument else null
      else null
  }

  /**
   * `parent.children[j]` is a definition or reference a reconstruction at
   * `parent.children[i]` may continue: directly before it, or directly
   * before a single blank line before it.
   */
  predicate ContinuableFrom(parent: Node, i: nat, j: int)
    requires i < |parent.children|
  {
    && 0 <= j
    && (j == i - 1 || (j == i - 2 && IsEmptyLine(parent.children[i - 1])))
    && IsArgumentHeader(parent.children[j])
  }

  /**
   * A reconstruction continues an argument exactly when a definition or
   * reference carrying one is in a position it may continue, and then it
   * continues that one. Two blank lines, or any other sibling in between,
   * start a fresh argument.
   */
  lemma ContinuedArgumentCases(parent: Node, i: nat)
    requires i < |parent.children|
    requires !(i == 1 && IsEmptyLine(parent.children[0]))
    ensures ContinuedArgument(parent, i) != null <==>
      exists j :: ContinuableFrom(parent, i, j) && parent.children[j].argument != null
    ensures forall j :: ContinuableFrom(parent, i, j) ==> ContinuedArgument(parent, i) == parent.children[j].argument
    ensures i >= 2 && IsEmptyLine(parent.children[i - 1]) && IsEmptyLine(parent.children[i - 2]) ==>
      ContinuedArgument(parent, i) == null
  {
  }

  /** The inference block directly before `parent.children[i]`, if that sibling is one. */
  predicate PrecededByInference(parent: Node, i: nat)
    requires i <= |parent.children|
  {
    i > 0 && parent.children[i - 1].name == "inference"
  }

  /** The rule labels of an inference-rules node: its free-text children, trimmed. */
  function RuleLabels(children: seq<Node>): (r: seq<string>)
    reads children
    ensures |r| <= |children|
    ensures forall k :: 0 <= k < |r| ==> IsTrimmed(r[k])
  {
    if children == [] then []
    else
      var last := children[|children| - 1];
      RuleLabels(children[..|children| - 1]) + (if last.name == "freestyleText" then [Trim(last.text)] else [])
  }

  /** One more child adds its label, if it is free text. */
  lemma RuleLabelsSnoc(children: seq<Node>, i: nat)
    requires i < |children|
    ensures RuleLabels(children[..i + 1]) == RuleLabels(children[..i])
      + (if children[i].name == "freestyleText" then [Trim(children[i].text)] else [])
  {
    assert children[..i + 1][..i] == children[..i];
  }

  predicate NoFreestyleChild(children: seq<Node>) {
    forall k :: 0 <= k < |children| ==> children[k].name != "freestyleText"
  }

  /** Without free-text children there are no rule labels. */
  lemma {:induction false} RuleLabelsEmpty(children: seq<Node>)
    requires NoFreestyleChild(children)
    ensures RuleLabels(children) == []
  {
    if children != [] {
      RuleLabelsEmpty(children[..|children| - 1]);
    }
  }

  /** The images of `children` joined in order, built by appending one at a time. */
  method ConcatImages(children: seq<Node>) returns (text: string)
    ensures text == Concat(Images(children))
  {
    ghost var parts := Images(children);
    text := "";
    var i := 0;
    while i < |children|
      invariant 0 <= i <= |children|
      invariant text == Concat(parts[..i])
    {
      ConcatSnoc(parts, i);
      text := text + children[i].image;
      i := i + 1;
    }
    assert parts[..i] == parts;
  }

  /**
   * The value of a metadata line whose children have texts `texts`: the
   * first is the key; one further text is a scalar, otherwise the list.
   */
  function MetadataValue(texts: seq<string>): (v: MetaValue)
    requires |texts| >= 1
    ensures v.Scalar? <==> |texts| == 2
    ensures v.Scalar? ==> v.value == texts[1]
    ensures v.Values? ==> v.values == texts[1..]
  {
    if |texts| == 2 then Scalar(texts[1]) else Values(texts[1..])
  }

  /**
   * The property names every plain JavaScript object answers without an own
   * entry: the members of `Object.prototype`.
   */
  const ObjectPrototypeProperties: set<string> := {
    "constructor", "hasOwnProperty", "isPrototypeOf", "propertyIsEnumerable",
    "toLocaleString", "toString", "valueOf", "__proto__",
    "__defineGetter__", "__defineSetter__", "__lookupGetter__", "__lookupSetter__"
  }

  /** What `registry[key]` yields when the registry is a plain object literal. */
  datatype PropertyLookup<T> = OwnEntry(entry: T) | InheritedMember(name: string) | Missing

  function LookupAsWritten<T>(registry: map<string, T>, key: string): PropertyLookup<T>
  {
    if key in registry then OwnEntry(registry[key])
    else if key in ObjectPrototypeProperties then InheritedMember(key)
    else Missing
  }

  /**
   * The registries as written (`$.statements = {}`, `$.arguments = {}`,
   * looked up with `registry[title]` and checked with `!entry`): a statement
   * defined as `[constructor]: ...` in a fresh document finds the inherited
   * function, so no class is created, and the listener's next step
   * (`ec.members.push`) throws.
   */
  lemma ConstructorTitleNotRegistered()
    ensures !LookupAsWritten<EquivalenceClass>(map[], "constructor").Missing?
  {
    assert "constructor" in ObjectPrototypeProperties;
  }

  /**
   * How a statement's title is settled before it is resolved to a class: a
   * title it has is kept; an empty one becomes the next "Untitled n".
   */
  predicate TitleSettled(titleBefore: string, title: string, counterBefore: nat, counter: nat)
  {
    && title != ""
    && (titleBefore != "" ==> title == titleBefore && counter == counterBefore)
    && (titleBefore == "" ==> counter == counterBefore + 1 && title == UniqueTitle(counter))
  }

  /** `after` is `before` with `title` bound, to its old class when it had one. */
  predicate Registered(before: map<string, EquivalenceClass>, after: map<string, EquivalenceClass>, title: string)
  {
    && title in after && after == before[title := after[title]]
    && after[title].title == title
    && (title in before ==> after[title] == before[title])
  }

  /**
   * The registered class a subject will resolve to once its title is
   * settled with the counter at `counter`; empty when there is none yet.
   */
  function ResolvedClasses(subject: Subject, statements: map<string, EquivalenceClass>, counter: nat): set<EquivalenceClass>
    reads SubjectStatements(subject)
  {
    if subject.StatementSubject? then
      var t := if subject.statement.title == "" then UniqueTitle(counter + 1) else subject.statement.title;
      if t in statements then {statements[t]} else {}
    else {}
  }

  /** A class as first created: no members, no relations, no flags. */
  predicate NewClass(ec: EquivalenceClass)
    reads ec
  {
    ec.members == [] && ec.relations == [] && !ec.isUsedAsThesis && !ec.isUsedInArgument
  }

  class ArgdownPreprocessor {
    var statements: map<string, EquivalenceClass>
    var arguments: map<string, Argument>
    var uniqueTitleCounter: nat
    var currentStatement: Statement?
    var currentStatementOrArgument: Subject
    var currentArgument: Argument?
    var currentArgumentReconstruction: Argument?
    var currentInference: Inference?
    var rangesStack: seq<Range>
    var parentsStack: seq<Option<Target>>
    var currentRelation: Relation?

    /** Every registry entry carries the title it is stored under. */
    predicate Valid()
      reads this
    {
      && (forall t :: t in statements ==> statements[t].title == t)
      && (forall t :: t in arguments ==> arguments[t].title == t)
    }

    constructor ()
      ensures Valid() && statements == map[] && arguments == map[] && uniqueTitleCounter == 0
      ensures currentStatement == null && currentStatementOrArgument == NoSubject
      ensures currentArgument == null && currentArgumentReconstruction == null && currentInference == null
      ensures rangesStack == [] && parentsStack == [] && currentRelation == null
    {
      statements, arguments, uniqueTitleCounter := map[], map[], 0;
      currentStatement, currentStatementOrArgument := null, NoSubject;
      currentArgument, currentArgumentReconstruction, currentInference := null, null, null;
      rangesStack, parentsStack, currentRelation := [], [], null;
    }

    // ---------------------------------------------------------------- titles

    /** Hands out the next "Untitled n"; it was never handed out before. */
    method GetUniqueTitle() returns (title: string)
      modifies this`uniqueTitleCounter
      ensures uniqueTitleCounter == old(uniqueTitleCounter) + 1
      ensures title == UniqueTitle(uniqueTitleCounter)
      ensures IssuedTitles(uniqueTitleCounter) == IssuedTitles(old(uniqueTitleCounter)) + [title]
      ensures title !in IssuedTitles(old(uniqueTitleCounter))
    {
      uniqueTitleCounter := uniqueTitleCounter + 1;
      title := UniqueTitle(uniqueTitleCounter);
      IssuedTitlesDistinct(uniqueTitleCounter - 1);
    }

    /**
     * The equivalence class for `title`, created on first use; `null` for an
     * empty title. No other registry entry changes.
     */
    method GetEquivalenceClass(title: string) returns (ec: EquivalenceClass?)
      requires Valid()
      modifies this`statements
      ensures Valid()
      ensures title == "" ==> ec == null && statements == old(statements)
      ensures title != "" ==> ec != null && ec.title == title && statements == old(statements)[title := ec]
      ensures title != "" && title in old(statements) ==> ec == old(statements)[title]
      ensures title != "" && title !in old(statements) ==>
        fresh(ec) && ec.members == [] && ec.relations == [] && !ec.isUsedAsThesis && !ec.isUsedInArgument
    {
      if title == "" {
        return null;
      }
      if title in statements {
        ec := statements[title];
      } else {
        ec := new EquivalenceClass(title);
        statements := statements[title := ec];
      }
    }

    // ------------------------------------------------------------- document

    /** Starts a document: empty registries and traversal state; the title counter is kept. */
    method OnArgdownEntry()
      modifies this`statements, this`arguments, this`currentStatement, this`currentStatementOrArgument
      modifies this`currentArgument, this`currentArgumentReconstruction, this`currentInference
      modifies this`rangesStack, this`parentsStack, this`currentRelation
      ensures Valid() && statements == map[] && arguments == map[]
      ensures uniqueTitleCounter == old(uniqueTitleCounter)
      ensures currentStatement == null && currentStatementOrArgument == NoSubject
      ensures currentArgument == null && currentArgumentReconstruction == null && currentInference == null
      ensures rangesStack == [] && parentsStack == [] && currentRelation == null
    {
      statements, arguments := map[], map[];
      currentStatement, currentStatementOrArgument := null, NoSubject;
      currentArgumentReconstruction, currentInference, currentArgument := null, null, null;
      rangesStack, parentsStack, currentRelation := [], [], null;
    }

    /** A heading's level is the length of its marker; its text is that of its second child. */
    method OnHeadingExit(node: Node)
      requires |node.children| >= 2
      modifies node`heading, node`text
      ensures node.heading == |node.children[0].image|
      ensures node.text == old(node.children[1].text)
    {
      node.heading := |node.children[0].image|;
      node.text := node.children[1].text;
    }

    // ----------------------------------------------------------- statements

    /** Opens a new statement; a statement directly under the document root is a thesis. */
    method OnStatementEntry(node: Node, parentNode: Node)
      modifies this`currentStatement, this`currentStatementOrArgument, node`statement
      ensures fresh(currentStatement) && node.statement == currentStatement
      ensures currentStatement.title == "" && currentStatement.text == "" && currentStatement.ranges == []
      ensures currentStatement.inference == null
      ensures currentStatement.role == (if parentNode.name == "argdown" then Thesis else NoRole)
      ensures currentStatementOrArgument == StatementSubject(currentStatement)
    {
      currentStatement := new Statement();
      if parentNode.name == "argdown" {
        currentStatement.role := Thesis;
      }
      currentStatementOrArgument := StatementSubject(currentStatement);
      node.statement := currentStatement;
    }

    /**
     * Closes a statement: it gets a title if it has none, is appended to the
     * members of the class for that title, and marks the class as used as a
     * thesis if it is one.
     */
    method OnStatementExit(node: Node)
      requires Valid() && node.statement != null
      modifies this`uniqueTitleCounter, this`statements, this`currentStatement, node.statement`title
      modifies statements.Values`members, statements.Values`isUsedAsThesis
      ensures Valid() && currentStatement == null
      ensures node.statement.title != ""
      ensures old(node.statement.title) != "" ==>
        node.statement.title == old(node.statement.title) && uniqueTitleCounter == old(uniqueTitleCounter)
      ensures old(node.statement.title) == "" ==>
        uniqueTitleCounter == old(uniqueTitleCounter) + 1 && node.statement.title == UniqueTitle(uniqueTitleCounter)
      ensures var t := node.statement.title;
        && t in statements && statements == old(statements)[t := statements[t]]
        && statements[t].title == t
        && (t in old(statements) ==> statements[t] == old(statements)[t])
        && (t !in old(statements) ==> fresh(statements[t]))
      ensures var t := node.statement.title; var ec := statements[t];
        && ec.members == (if t in old(statements) then old(ec.members) else []) + [node.statement]
        && ec.isUsedAsThesis == ((t in old(statements) && old(ec.isUsedAsThesis)) || node.statement.role == Thesis)
        && ec.isUsedInArgument == (t in old(statements) && old(ec.isUsedInArgument))
        && ec.relations == (if t in old(statements) then old(ec.relations) else [])
      ensures forall e :: e in old(statements).Values && e.title != node.statement.title ==>
        e.members == old(e.members) && e.isUsedAsThesis == old(e.isUsedAsThesis)
    {
      var statement := node.statement;
      if statement.title == "" {
        statement.title := GetUniqueTitle();
      }
      AddMember(statement);
      currentStatement := null;
    }

    /** Appends a titled statement to the members of its class, creating the class if needed. */
    method AddMember(statement: Statement)
      requires Valid() && statement.title != ""
      modifies this`statements, statements.Values`members, statements.Values`isUsedAsThesis
      ensures Valid()
      ensures var t := statement.title;
        && t in statements && statements == old(statements)[t := statements[t]]
        && statements[t].title == t
        && (t in old(statements) ==> statements[t] == old(statements)[t])
        && (t !in old(statements) ==> fresh(statements[t]))
      ensures var t := statement.title; var ec := statements[t];
        && ec.members == (if t in old(statements) then old(ec.members) else []) + [statement]
        && ec.isUsedAsThesis == ((t in old(statements) && old(ec.isUsedAsThesis)) || statement.role == Thesis)
        && ec.isUsedInArgument == (t in old(statements) && old(ec.isUsedInArgument))
        && ec.relations == (if t in old(statements) then old(ec.relations) else [])
      ensures forall e :: e in old(statements).Values && e.title != statement.title ==>
        e.members == old(e.members) && e.isUsedAsThesis == old(e.isUsedAsThesis)
    {
      var ec := GetEquivalenceClass(statement.title);
      ec.members := ec.members + [statement];
      if statement.role == Thesis {
        ec.isUsedAsThesis := true;
      }
    }

    /** `[Title]:` or `[Title]`: gives the open statement that title. */
    method OnStatementTitleEntry(node: Node, token: TitleToken)
      requires StatementTitle(token, node.image).Some? ==> currentStatement != null
      modifies (if currentStatement != null then {currentStatement} else {})`title, node`statement
      ensures match StatementTitle(token, node.image)
        case None => unchanged(node) && (currentStatement != null ==> unchanged(currentStatement))
        case Some(t) =>
          && currentStatement.title == t && node.statement == currentStatement
          && currentStatement.text == old(currentStatement.text)
          && currentStatement.ranges == old(currentStatement.ranges)
          && currentStatement.role == old(currentStatement.role)
          && currentStatement.inference == old(currentStatement.inference)
    {
      var found := StatementTitle(token, node.image);
      if found.Some? {
        currentStatement.title := found.value;
        node.statement := currentStatement;
      }
    }

    // ------------------------------------------------------ inline ranges

    /**
     * `@[Title]` or `@<Title>`: records the title and trailing whitespace on
     * the node and, inside a statement, appends the raw image to its text
     * with one range spanning exactly the appended characters.
     */
    method OnMentionExit(node: Node, rangeType: RangeType)
      requires IsMention(rangeType)
      modifies node`title, node`trailingWhitespace
      modifies (if currentStatement != null then {currentStatement} else {})`text
      modifies (if currentStatement != null then {currentStatement} else {})`ranges
      ensures match MentionTitle(rangeType, node.image)
        case None => unchanged(node) && (currentStatement != null ==> unchanged(currentStatement))
        case Some(t) =>
          && node.title == t && node.trailingWhitespace == TrailingWhitespace(node.image)
          && (currentStatement != null ==>
            var st := currentStatement; var n := |old(st.ranges)|;
            && st.text == old(st.text) + node.image
            && |st.ranges| == n + 1 && st.ranges[..n] == old(st.ranges)
            && fresh(st.ranges[n])
            && st.ranges[n].rangeType == rangeType && st.ranges[n].title == t && st.ranges[n].url == ""
            && st.ranges[n].start == |old(st.text)| && st.ranges[n].stop == Some(|st.text| - 1)
            && st.ranges[n].start <= st.ranges[n].stop.value < |st.text|
            && st.text[st.ranges[n].start..] == node.image)
    {
      var found := MentionTitle(rangeType, node.image);
      if found.Some? {
        node.title := found.value;
        node.trailingWhitespace := TrailingWhitespace(node.image);
        if currentStatement != null {
          var range := new Range(rangeType, |currentStatement.text|, found.value, "");
          currentStatement.text := currentStatement.text + node.image;
          range.stop := Some(|currentStatement.text| - 1);
          currentStatement.ranges := currentStatement.ranges + [range];
        }
      }
    }

    /**
     * Free text: the node's text is its children's images laid end to end,
     * and it is appended to the open statement, if any.
     */
    method OnFreestyleTextEntry(node: Node)
      modifies node`text, (if currentStatement != null then {currentStatement} else {})`text
      ensures node.text == Concat(Images(node.children))
      ensures currentStatement != null ==> currentStatement.text == old(currentStatement.text) + node.text
    {
      var text := ConcatImages(node.children);
      node.text := text;
      if currentStatement != null {
        currentStatement.text := currentStatement.text + node.text;
      }
    }

    /**
     * `[text](url)`: appends the link text (not the markup) to the open
     * statement with one link range over it, then one space if the image ends
     * in a space.
     */
    method OnLinkEntry(node: Node)
      requires currentStatement != null && MatchLink(node.image).Some?
      modifies node`url, node`text, node`trailingWhitespace, currentStatement`text, currentStatement`ranges
      ensures var linkText, url := MatchLink(node.image).value.0, MatchLink(node.image).value.1;
        var st := currentStatement; var n := |old(st.ranges)|;
        && node.text == linkText && node.url == url
        && node.trailingWhitespace == TrailingWhitespace(node.image)
        && st.text == old(st.text) + linkText + TrailingWhitespace(node.image)
        && |st.ranges| == n + 1 && st.ranges[..n] == old(st.ranges) && fresh(st.ranges[n])
        && st.ranges[n].rangeType == Link && st.ranges[n].url == url && st.ranges[n].title == ""
        && st.ranges[n].start == |old(st.text)|
        && st.ranges[n].stop == Some(|old(st.text)| + |linkText| - 1)
        && st.ranges[n].start <= st.ranges[n].stop.value < |st.text|
        && st.text[st.ranges[n].start..st.ranges[n].start + |linkText|] == linkText
    {
      var linkText, url := MatchLink(node.image).value.0, MatchLink(node.image).value.1;
      var linkRange := new Range(Link, |currentStatement.text|, "", url);
      node.url := url;
      node.text := linkText;
      currentStatement.text := currentStatement.text + node.text;
      linkRange.stop := Some(|currentStatement.text| - 1);
      currentStatement.ranges := currentStatement.ranges + [linkRange];
      node.trailingWhitespace := TrailingWhitespace(node.image);
      currentStatement.text := currentStatement.text + node.trailingWhitespace;
    }

    /** Opens a bold or italic range at the current end of the statement's text. */
    method OnEmphasisEntry(rangeType: RangeType)
      requires IsEmphasis(rangeType) && currentStatement != null
      modifies this`rangesStack, currentStatement`ranges
      ensures |rangesStack| == |old(rangesStack)| + 1
      ensures rangesStack[..|old(rangesStack)|] == old(rangesStack)
      ensures var r := rangesStack[|rangesStack| - 1];
        && fresh(r) && r.rangeType == rangeType && r.stop == None && r.title == "" && r.url == ""
        && r.start == |currentStatement.text|
        && currentStatement.ranges == old(currentStatement.ranges) + [r]
    {
      var range := new Range(rangeType, |currentStatement.text|, "", "");
      rangesStack := rangesStack + [range];
      currentStatement.ranges := currentStatement.ranges + [range];
    }

    /**
     * Closes the innermost open bold or italic range: at most one space is
     * appended (when the closing token ends in one), then the range on top
     * of the stack ends at the last character and is popped.
     */
    method OnEmphasisExit(node: Node)
      requires currentStatement != null && |node.children| > 0 && |rangesStack| > 0
      modifies node`trailingWhitespace, currentStatement`text
      modifies {rangesStack[|rangesStack| - 1]}`stop, this`rangesStack
      ensures var w := TrailingWhitespace(node.children[|node.children| - 1].image);
        && currentStatement.text == old(currentStatement.text) + w
        && node.trailingWhitespace == w
      ensures rangesStack == old(rangesStack[..|rangesStack| - 1])
      ensures var r := old(rangesStack[|rangesStack| - 1]);
        && r.stop == Some(|currentStatement.text| - 1) && r.stop.value < |currentStatement.text|
        && (r.start <= r.stop.value <==> r.start < |currentStatement.text|)
    {
      var last := node.children[|node.children| - 1];
      node.trailingWhitespace := TrailingWhitespace(last.image);
      currentStatement.text := currentStatement.text + node.trailingWhitespace;
      var range := rangesStack[|rangesStack| - 1];
      range.stop := Some(|currentStatement.text| - 1);
      rangesStack := rangesStack[..|rangesStack| - 1];
    }

    // ------------------------------------------------------------ arguments

    /**
     * Makes the argument registered under `title` current, creating and
     * registering it if absent, and opens a fresh description statement on
     * it. Only a newly created argument becomes `currentStatementOrArgument`.
     */
    method UpdateArgument(title: string)
      requires Valid()
      modifies this`currentArgument, this`currentStatementOrArgument, this`arguments, this`currentStatement
      modifies arguments.Values`descriptions
      ensures Valid()
      ensures currentArgument != null && currentArgument.title == title
      ensures title in arguments && arguments == old(arguments)[title := currentArgument]
      ensures fresh(currentStatement) && currentStatement.title == "" && currentStatement.text == ""
      ensures currentStatement.ranges == [] && currentStatement.role == NoRole && currentStatement.inference == null
      ensures title in old(arguments) ==>
        && currentArgument == old(arguments)[title]
        && currentArgument.descriptions == old(arguments[title].descriptions) + [currentStatement]
        && currentArgument.pcs == old(arguments[title].pcs)
        && currentStatementOrArgument == old(currentStatementOrArgument)
      ensures title !in old(arguments) ==>
        && fresh(currentArgument)
        && currentArgument.descriptions == [currentStatement] && currentArgument.pcs == []
        && currentArgument.relations == []
        && currentStatementOrArgument == ArgumentSubject(currentArgument)
      ensures forall a :: a in old(arguments).Values && a.title != title ==> a.descriptions == old(a.descriptions)
    {
      if title in arguments {
        currentArgument := arguments[title];
      } else {
        currentArgument := new Argument(title);
        currentStatementOrArgument := ArgumentSubject(currentArgument);
        arguments := arguments[title := currentArgument];
      }
      currentStatement := new Statement();
      currentArgument.descriptions := currentArgument.descriptions + [currentStatement];
    }

    /**
     * `<Title>:` or `<Title>`: makes the named argument current (see
     * UpdateArgument) and attaches it to the enclosing rule node.
     */
    method OnArgumentTitleEntry(node: Node, parentNode: Node, token: TitleToken)
      requires Valid()
      modifies this`currentArgument, this`currentStatementOrArgument, this`arguments, this`currentStatement
      modifies arguments.Values`descriptions, parentNode`argument
      ensures Valid()
      ensures match ArgumentTitle(token, node.image)
        case None => unchanged(this) && unchanged(parentNode) && unchanged(old(arguments).Values)
        case Some(t) =>
          && currentArgument != null && currentArgument.title == t && parentNode.argument == currentArgument
          && t in arguments && arguments == old(arguments)[t := currentArgument]
          && fresh(currentStatement) && currentStatement.text == "" && currentStatement.title == ""
          && currentStatement.ranges == [] && currentStatement.role == NoRole && currentStatement.inference == null
          && (t in old(arguments) ==>
            && currentArgument == old(arguments)[t]
            && currentArgument.descriptions == old(arguments[t].descriptions) + [currentStatement]
            && currentStatementOrArgument == old(currentStatementOrArgument))
          && (t !in old(arguments) ==>
            && fresh(currentArgument) && currentArgument.descriptions == [currentStatement]
            && currentArgument.pcs == [] && currentArgument.relations == []
            && currentStatementOrArgument == ArgumentSubject(currentArgument))
          && (forall a :: a in old(arguments).Values && a.title != t ==> a.descriptions == old(a.descriptions))
    {
      var found := ArgumentTitle(token, node.image);
      if found.Some? {
        UpdateArgument(found.value);
        parentNode.argument := currentArgument;
      }
    }

    /** Leaving an argument definition or reference ends its description scope. */
    method OnArgumentDefinitionOrReferenceExit()
      modifies this`currentStatement, this`currentArgument
      ensures currentStatement == null && currentArgument == null
    {
      currentStatement := null;
      currentArgument := null;
    }

    /**
     * A reconstruction block continues the argument of the preceding argument
     * definition or reference (looking past one blank line); otherwise a new
     * argument with a generated title is registered.
     */
    method OnArgumentEntry(node: Node, parentNode: Node, childIndex: nat)
      requires Valid()
      requires childIndex < |parentNode.children|
      requires !(childIndex == 1 && IsEmptyLine(parentNode.children[0]))
      modifies this`uniqueTitleCounter, this`arguments, this`currentArgumentReconstruction, node`argument
      ensures Valid()
      ensures node.argument != null && currentArgumentReconstruction == node.argument
      ensures var continued := old(ContinuedArgument(parentNode, childIndex));
        && (continued != null ==>
          && node.argument == continued
          && uniqueTitleCounter == old(uniqueTitleCounter) && arguments == old(arguments))
        && (continued == null ==>
          && fresh(node.argument)
          && uniqueTitleCounter == old(uniqueTitleCounter) + 1
          && node.argument.title == UniqueTitle(uniqueTitleCounter)
          && arguments == old(arguments)[node.argument.title := node.argument]
          && node.argument.pcs == [] && node.argument.descriptions == [] && node.argument.relations == [])
    {
      var argument: Argument? := null;
      if childIndex > 0 {
        var precedingSibling := parentNode.children[childIndex - 1];
        if IsArgumentHeader(precedingSibling) {
          argument := precedingSibling.argument;
        } else if IsEmptyLine(precedingSibling) {
          precedingSibling := parentNode.children[childIndex - 2];
          if IsArgumentHeader(precedingSibling) {
            argument := precedingSibling.argument;
          }
        }
      }
      if argument == null {
        var title := GetUniqueTitle();
        argument := new Argument(title);
        arguments := arguments[argument.title := argument];
      }
      node.argument := argument;
      currentArgumentReconstruction := argument;
    }

    /**
     * Closes one premise or conclusion line `(n) statement`: the statement is
     * a premise, or a conclusion linked to the inference directly before it;
     * its class is marked as used in an argument; it is appended to the
     * current reconstruction and numbered with its 1-based position there.
     */
    method OnArgumentStatementExit(node: Node, parentNode: Node, childIndex: nat)
      requires Valid()
      requires childIndex <= |parentNode.children|
      requires |node.children| > 1 ==>
        && node.children[1].statement != null && node.children[1].statement.title != ""
        && currentArgumentReconstruction != null
      modifies this`statements, statements.Values`isUsedInArgument
      modifies (if currentArgumentReconstruction != null then {currentArgumentReconstruction} else {})`pcs
      modifies node`statement, node`statementNr
      modifies (if |node.children| > 1 then {node.children[1].statement} else {})`role
      modifies (if |node.children| > 1 then {node.children[1].statement} else {})`inference
      ensures Valid()
      ensures |node.children| <= 1 ==>
        && statements == old(statements) && unchanged(old(statements).Values) && unchanged(node)
        && (currentArgumentReconstruction != null ==> unchanged(currentArgumentReconstruction))
      ensures |node.children| > 1 ==>
        var st := old(node.children[1].statement); var pcs := currentArgumentReconstruction.pcs;
        && st.role == (if PrecededByInference(parentNode, childIndex) then Conclusion else Premise)
        && st.inference == (if PrecededByInference(parentNode, childIndex)
                            then old(parentNode.children[childIndex - 1].inference)
                            else old(st.inference))
        && st.title == old(st.title) && st.text == old(st.text) && st.ranges == old(st.ranges)
        && st.title in statements && statements == old(statements)[st.title := statements[st.title]]
        && statements[st.title].title == st.title && statements[st.title].isUsedInArgument
        && (st.title in old(statements) ==> statements[st.title] == old(statements)[st.title])
        && (st.title !in old(statements) ==>
          && fresh(statements[st.title]) && statements[st.title].members == []
          && statements[st.title].relations == [] && !statements[st.title].isUsedAsThesis)
        && (forall e :: e in old(statements).Values && e.title != st.title ==> e.isUsedInArgument == old(e.isUsedInArgument))
        && pcs == old(currentArgumentReconstruction.pcs) + [st]
        && node.statement == st && node.statementNr == |pcs|
    {
      if |node.children| > 1 {
        var statement := node.children[1].statement;
        AssignPcsRole(statement, parentNode, childIndex);
        AppendPcs(node, statement);
      }
    }

    /**
     * A premise or conclusion line's role: a conclusion linked to the
     * inference when the sibling directly before is one, else a premise.
     */
    method AssignPcsRole(statement: Statement, parentNode: Node, childIndex: nat)
      requires childIndex <= |parentNode.children|
      modifies statement`role, statement`inference
      ensures statement.role == (if PrecededByInference(parentNode, childIndex) then Conclusion else Premise)
      ensures statement.inference == (if PrecededByInference(parentNode, childIndex)
                                      then parentNode.children[childIndex - 1].inference
                                      else old(statement.inference))
    {
      statement.role := Premise;
      if childIndex > 0 {
        var precedingSibling := parentNode.children[childIndex - 1];
        if precedingSibling.name == "inference" {
          statement.role := Conclusion;
          statement.inference := precedingSibling.inference;
        }
      }
    }

    /**
     * Records a premise or conclusion: its class is marked as used in an
     * argument, and it is appended to the current reconstruction and numbered.
     */
    method AppendPcs(node: Node, statement: Statement)
      requires Valid() && statement.title != "" && currentArgumentReconstruction != null
      modifies this`statements, statements.Values`isUsedInArgument, currentArgumentReconstruction`pcs
      modifies node`statement, node`statementNr
      ensures Valid()
      ensures var t := statement.title;
        && t in statements && statements == old(statements)[t := statements[t]]
        && statements[t].title == t && statements[t].isUsedInArgument
        && (t in old(statements) ==> statements[t] == old(statements)[t])
        && (t !in old(statements) ==>
          fresh(statements[t]) && statements[t].members == [] && statements[t].relations == [] && !statements[t].isUsedAsThesis)
        && (forall e :: e in old(statements).Values && e.title != t ==> e.isUsedInArgument == old(e.isUsedInArgument))
      ensures currentArgumentReconstruction.pcs == old(currentArgumentReconstruction.pcs) + [statement]
      ensures node.statement == statement && node.statementNr == |currentArgumentReconstruction.pcs|
    {
      MarkUsedInArgument(statement.title);
      currentArgumentReconstruction.pcs := currentArgumentReconstruction.pcs + [statement];
      node.statement := statement;
      node.statementNr := |currentArgumentReconstruction.pcs|;
    }

    /** Marks the class for a non-empty title, created if absent, as used in an argument. */
    method MarkUsedInArgument(title: string)
      requires Valid() && title != ""
      modifies this`statements, statements.Values`isUsedInArgument
      ensures Valid()
      ensures title in statements && statements == old(statements)[title := statements[title]]
      ensures statements[title].title == title && statements[title].isUsedInArgument
      ensures title in old(statements) ==> statements[title] == old(statements)[title]
      ensures title !in old(statements) ==>
        && fresh(statements[title]) && statements[title].members == [] && statements[title].relations == []
        && !statements[title].isUsedAsThesis
      ensures forall e :: e in old(statements).Values && e.title != title ==> e.isUsedInArgument == old(e.isUsedInArgument)
    {
      var ec := GetEquivalenceClass(title);
      ec.isUsedInArgument := true;
    }

    // ------------------------------------------------------------ inferences

    /** Opens an inference with no rules and no metadata. */
    method OnInferenceEntry(node: Node)
      modifies this`currentInference, node`inference
      ensures fresh(currentInference) && node.inference == currentInference
      ensures currentInference.inferenceRules == [] && currentInference.metaData == map[]
    {
      currentInference := new Inference();
      node.inference := currentInference;
    }

    /** Appends the trimmed text of each free-text child, in order, as a rule label. */
    method OnInferenceRulesExit(node: Node)
      requires currentInference != null || NoFreestyleChild(node.children)
      modifies (if currentInference != null then {currentInference} else {})`inferenceRules
      ensures currentInference != null ==>
        && currentInference.inferenceRules == old(currentInference.inferenceRules) + old(RuleLabels(node.children))
        && currentInference.metaData == old(currentInference.metaData)
    {
      var labels: seq<string> := [];
      var i := 0;
      while i < |node.children|
        invariant 0 <= i <= |node.children|
        invariant labels == RuleLabels(node.children[..i])
        invariant currentInference != null ==> unchanged(currentInference)
      {
        var child := node.children[i];
        RuleLabelsSnoc(node.children, i);
        if child.name == "freestyleText" {
          labels := labels + [Trim(child.text)];
        }
        i := i + 1;
      }
      assert node.children[..i] == node.children;
      if labels != [] {
        if currentInference == null {
          RuleLabelsEmpty(node.children);
        }
        currentInference.inferenceRules := currentInference.inferenceRules + labels;
      } else if currentInference != null {
        assert currentInference.inferenceRules + labels == currentInference.inferenceRules;
      }
    }

    /**
     * A metadata line `key: value, ...`: stores the value under the key,
     * replacing any earlier value for it.
     */
    method OnMetadataStatementExit(node: Node)
      requires currentInference != null && |node.children| >= 1
      modifies currentInference`metaData
      ensures var texts := Texts(node.children);
        currentInference.metaData == old(currentInference.metaData)[texts[0] := MetadataValue(texts)]
    {
      var key := node.children[0].text;
      var value: MetaValue;
      if |node.children| == 2 {
        value := Scalar(node.children[1].text);
      } else {
        var values: seq<string> := [];
        var i := 1;
        while i < |node.children|
          invariant 1 <= i <= |node.children|
          invariant values == Texts(node.children)[1..i]
        {
          values := values + [node.children[i].text];
          i := i + 1;
        }
        assert Texts(node.children)[1..i] == Texts(node.children)[1..];
        value := Values(values);
      }
      currentInference.metaData := currentInference.metaData[key := value];
    }

    // ------------------------------------------------------------- relations

    /**
     * The relation-graph node for a subject: an argument as it is; a
     * statement through the class of its title, after giving it a generated
     * title if it has none (the statement is not added as a member).
     */
    method GetRelationTarget(subject: Subject) returns (target: Option<Target>)
      requires Valid()
      modifies this`uniqueTitleCounter, this`statements, SubjectStatements(subject)`title
      ensures Valid()
      ensures target == SubjectTarget(subject, statements)
      ensures !subject.StatementSubject? ==>
        statements == old(statements) && uniqueTitleCounter == old(uniqueTitleCounter)
      ensures subject.StatementSubject? ==>
        var s := subject.statement;
        && target.Some?
        && TitleSettled(old(s.title), s.title, old(uniqueTitleCounter), uniqueTitleCounter)
        && Registered(old(statements), statements, s.title)
        && (s.title !in old(statements) ==> fresh(statements[s.title]) && NewClass(statements[s.title]))
        && s.text == old(s.text) && s.ranges == old(s.ranges) && s.role == old(s.role)
        && s.inference == old(s.inference)
    {
      match subject
      case NoSubject =>
        target := None;
      case ArgumentSubject(a) =>
        target := Some(ArgumentTarget(a));
      case StatementSubject(s) =>
        if s.title == "" {
          s.title := GetUniqueTitle();
        }
        var ec := GetEquivalenceClass(s.title);
        target := Some(ClassTarget(ec));
    }

    /**
     * Entering a block of relations pushes the relation-graph node of the
     * statement or argument it belongs to, resolved once, up front.
     */
    method OnRelationsEntry()
      requires Valid()
      modifies this`uniqueTitleCounter, this`statements, this`parentsStack
      modifies SubjectStatements(currentStatementOrArgument)`title
      ensures Valid()
      ensures parentsStack == old(parentsStack) + [SubjectTarget(currentStatementOrArgument, statements)]
      ensures !currentStatementOrArgument.StatementSubject? ==>
        statements == old(statements) && uniqueTitleCounter == old(uniqueTitleCounter)
      ensures currentStatementOrArgument.StatementSubject? ==>
        var s := currentStatementOrArgument.statement;
        && parentsStack[|parentsStack| - 1].Some?
        && TitleSettled(old(s.title), s.title, old(uniqueTitleCounter), uniqueTitleCounter)
        && Registered(old(statements), statements, s.title)
        && (s.title !in old(statements) ==> fresh(statements[s.title]) && NewClass(statements[s.title]))
    {
      var target := GetRelationTarget(currentStatementOrArgument);
      parentsStack := parentsStack + [target];
    }

    /**
     * An incoming (`incoming`) or outgoing relation: a new relation of the
     * given type with `from` (incoming) or `to` (outgoing) fixed to the top
     * of the parents stack (`None` if the stack is empty).
     */
    method OnRelationEntry(node: Node, relationType: RelationType, incoming: bool)
      modifies this`currentRelation, node`relation
      ensures fresh(currentRelation) && node.relation == currentRelation
      ensures currentRelation.relationType == relationType
      ensures var top := if parentsStack == [] then None else parentsStack[|parentsStack| - 1];
        if incoming then currentRelation.from == top && currentRelation.to == None
        else currentRelation.to == top && currentRelation.from == None
    {
      var target := if parentsStack == [] then None else parentsStack[|parentsStack| - 1];
      if incoming {
        currentRelation := new Relation(relationType, target, None);
      } else {
        currentRelation := new Relation(relationType, None, target);
      }
      node.relation := currentRelation;
    }

    method AppendRelation(t: Target, r: Relation)
      modifies TargetClasses(Some(t))`relations, TargetArguments(Some(t))`relations
      ensures RelationsOf(t) == old(RelationsOf(t)) + [r]
    {
      match t
      case ClassTarget(ec) => ec.relations := ec.relations + [r];
      case ArgumentTarget(a) => a.relations := a.relations + [r];
    }

    /**
     * Leaving a relation: the relation-graph node of its content (second
     * child) fills whichever endpoint is unset (`to` when `from` is set), and
     * the relation is appended to the relations of both endpoints, without
     * deduplication. Without a relation only the content's title and class
     * are settled.
     */
    method OnRelationExit(node: Node)
      requires Valid() && |node.children| >= 2
      requires node.relation != null ==>
        ContentSubject(node.children[1]) != NoSubject && (node.relation.from.Some? || node.relation.to.Some?)
      modifies this`uniqueTitleCounter, this`statements
      modifies SubjectStatements(ContentSubject(node.children[1]))`title
      modifies (if node.relation != null then {node.relation} else {})`from
      modifies (if node.relation != null then {node.relation} else {})`to
      modifies EndpointClasses(node.relation)`relations, EndpointArguments(node.relation)`relations
      modifies (if node.relation != null
                then ResolvedClasses(ContentSubject(node.children[1]), statements, uniqueTitleCounter)
                else {})`relations
      modifies (if node.relation != null then SubjectArguments(ContentSubject(node.children[1])) else {})`relations
      ensures Valid()
      ensures var content := old(ContentSubject(node.children[1]));
        && (!content.StatementSubject? ==>
          statements == old(statements) && uniqueTitleCounter == old(uniqueTitleCounter))
        && (content.StatementSubject? ==>
          var s := content.statement;
          && TitleSettled(old(s.title), s.title, old(uniqueTitleCounter), uniqueTitleCounter)
          && Registered(old(statements), statements, s.title)
          && (s.title !in old(statements) ==>
            && fresh(statements[s.title]) && statements[s.title].members == []
            && !statements[s.title].isUsedAsThesis && !statements[s.title].isUsedInArgument
            && (node.relation == null ==> statements[s.title].relations == [])))
      ensures node.relation != null ==>
        var r := node.relation;
        var target := SubjectTarget(old(ContentSubject(node.children[1])), statements);
        && r.from.Some? && r.to.Some? && target.Some?
        && (old(r.from).Some? ==> r.from == old(r.from) && r.to == target)
        && (old(r.from).None? ==> r.from == target && r.to == old(r.to))
      ensures node.relation != null ==>
        var r := node.relation; var f := r.from.value; var t := r.to.value;
        && (TargetObject(f) != TargetObject(t) ==>
          && RelationsOf(f) == (if old(allocated(f)) then old(RelationsOf(f)) else []) + [r]
          && RelationsOf(t) == (if old(allocated(t)) then old(RelationsOf(t)) else []) + [r])
        && (TargetObject(f) == TargetObject(t) ==>
          RelationsOf(f) == (if old(allocated(f)) then old(RelationsOf(f)) else []) + [r, r])
    {
      RelateContent(node.relation, ContentSubject(node.children[1]));
    }

    /** The work of `OnRelationExit` for its relation (possibly `null`) and its content. */
    method RelateContent(relation: Relation?, content: Subject)
      requires Valid()
      requires relation != null ==> content != NoSubject && (relation.from.Some? || relation.to.Some?)
      modifies this`uniqueTitleCounter, this`statements, SubjectStatements(content)`title
      modifies (if relation != null then {relation} else {})`from
      modifies (if relation != null then {relation} else {})`to
      modifies EndpointClasses(relation)`relations, EndpointArguments(relation)`relations
      modifies (if relation != null then ResolvedClasses(content, statements, uniqueTitleCounter) else {})`relations
      modifies (if relation != null then SubjectArguments(content) else {})`relations
      ensures Valid()
      ensures !content.StatementSubject? ==>
        statements == old(statements) && uniqueTitleCounter == old(uniqueTitleCounter)
      ensures content.StatementSubject? ==>
        var s := content.statement;
        && TitleSettled(old(s.title), s.title, old(uniqueTitleCounter), uniqueTitleCounter)
        && Registered(old(statements), statements, s.title)
        && (s.title !in old(statements) ==>
          && fresh(statements[s.title]) && statements[s.title].members == []
          && !statements[s.title].isUsedAsThesis && !statements[s.title].isUsedInArgument
          && (relation == null ==> statements[s.title].relations == []))
      ensures relation != null ==>
        var target := SubjectTarget(content, statements);
        && relation.from.Some? && relation.to.Some? && target.Some?
        && (old(relation.from).Some? ==> relation.from == old(relation.from) && relation.to == target)
        && (old(relation.from).None? ==> relation.from == target && relation.to == old(relation.to))
      ensures relation != null ==>
        var f := relation.from.value; var t := relation.to.value;
        && (TargetObject(f) != TargetObject(t) ==>
          && RelationsOf(f) == (if old(allocated(f)) then old(RelationsOf(f)) else []) + [relation]
          && RelationsOf(t) == (if old(allocated(t)) then old(RelationsOf(t)) else []) + [relation])
        && (TargetObject(f) == TargetObject(t) ==>
          RelationsOf(f) == (if old(allocated(f)) then old(RelationsOf(f)) else []) + [relation, relation])
    {
      var target := GetRelationTarget(content);
      if relation != null {
        CompleteRelation(relation, target);
      }
    }

    /**
     * Fills the unset endpoint of `relation` with `target` (`to` when `from`
     * is set) and appends the relation to the relations of both endpoints.
     */
    method CompleteRelation(relation: Relation, target: Option<Target>)
      requires target.Some? && (relation.from.Some? || relation.to.Some?)
      modifies relation`from, relation`to
      modifies EndpointClasses(relation)`relations, EndpointArguments(relation)`relations
      modifies TargetClasses(target)`relations, TargetArguments(target)`relations
      ensures relation.from.Some? && relation.to.Some?
      ensures old(relation.from).Some? ==> relation.from == old(relation.from) && relation.to == target
      ensures old(relation.from).None? ==> relation.from == target && relation.to == old(relation.to)
      ensures var f, t := relation.from.value, relation.to.value;
        && (TargetObject(f) != TargetObject(t) ==>
          RelationsOf(f) == old(RelationsOf(f)) + [relation] && RelationsOf(t) == old(RelationsOf(t)) + [relation])
        && (TargetObject(f) == TargetObject(t) ==> RelationsOf(f) == old(RelationsOf(f)) + [relation, relation])
    {
      if relation.from.Some? {
        relation.to := target;
      } else {
        relation.from := target;
      }
      AppendRelation(relation.from.value, relation);
      AppendRelation(relation.to.value, relation);
    }

    /** Leaving a block of relations pops the parents stack and clears the current relation. */
    method OnRelationsExit()
      modifies this`currentRelation, this`parentsStack
      ensures currentRelation == null
      ensures parentsStack == if old(parentsStack) == [] then [] else old(parentsStack[..|parentsStack| - 1])
    {
      currentRelation := null;
      if parentsStack != [] {
        parentsStack := parentsStack[..|parentsStack| - 1];
      }
    }
  }
}
