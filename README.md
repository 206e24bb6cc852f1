# Argdown preprocessor, modelled in Dafny

This project models the `ArgdownPreprocessor` of the Argdown parser. This is
the semantic-analysis pass that runs over an already-built Argdown parse tree.
The traversal calls one entry or exit listener per node, in depth-first order.
Together the listeners build two registries:

- `statements`: title → equivalence class of all statements with that title
- `arguments`: title → argument

On the way they:

- hand out anonymous titles ("Untitled n");
- record bold, italic, link and mention ranges as inclusive offsets into a
  statement's growing text;
- give premises and conclusions their roles and 1-based numbers;
- collect inference rule labels and metadata;
- wire support and attack relations between equivalence classes and
  arguments.

Modules:

- `Wrappers`: `Option`.
- `Text`: concatenation of child images, the trailing-space test, and
  JavaScript's `String.prototype.trim`.
- `Titles`: the decimal rendering behind "Untitled n", and the proof that
  issued titles never repeat.
- `Patterns`: the seven extraction patterns, as functions over delimiter
  positions. A match is the leftmost opening delimiter and the greedy
  (last) closing one. Round-trip lemmas state what each pattern captures
  from well-formed markup.
- `Model`: the entities the listeners build (`Statement`, `Range`,
  `EquivalenceClass`, `Argument`, `Relation`, `Inference`) and the
  parse-tree `Node`. They are classes, because the listeners update their
  fields after creating them.
- `Preprocessor`: the class `ArgdownPreprocessor`. Its fields are the
  traversal state of the source: the registries, the title counter, the
  "current" slots, the ranges stack and the parents stack. It has one
  method per listener. Each method's `modifies` clause names the fields it
  may write, mostly field by field (for example only the `members` field
  of the registered classes), so every other field of every object that
  existed before the call is unchanged. Its `ensures` clauses give the new
  values of the fields it names, and every field of each object the call
  creates (a class, argument, statement, inference, relation or range).
  `Valid()` (every registry entry carries the title it is stored under) is
  preserved throughout.
- `Listeners`: the dispatch table, twice. Once as written, with the
  relations-exit listener under the key `relationsExist`, and once
  corrected. Trace lemmas state what each does to the parents stack.
- `Scenarios`: small documents walked through the listeners, with the
  nodes built by hand.

The model follows what the code does in places where a reader might expect
otherwise:

- The title counter is not reset when a new document starts
  (`OnArgdownEntry`). Titles keep counting across documents parsed by the
  same preprocessor.
- Only a newly created argument becomes the current statement-or-argument
  (`UpdateArgument`). An argument referenced again does not, so a relations
  block that follows attaches to the previous subject.
- A generated "Untitled n" title can coincide with a title the author
  wrote. For statements the equivalence class is then shared, because
  `getEquivalenceClass` reuses the class it finds. For arguments,
  `OnArgumentEntry` (line 294) stores its fresh argument under the title
  unconditionally, so it replaces an argument the author named
  `<Untitled n>` in the registry.

## Model

| member | source | states |
|---|---|---|
| Text.ConcatAppend | packages/argdown-parser/src/plugins/ArgdownPreprocessor.js:168-170 | concatenating two runs of children is concatenating each run and joining the results |
| Text.ConcatAt | packages/argdown-parser/src/plugins/ArgdownPreprocessor.js:168-170 | each child's image appears in the joined text right after the images of the children before it |
| Text.Trim | packages/argdown-parser/src/plugins/ArgdownPreprocessor.js:326 | a trimmed label is no longer than its input and has no JavaScript whitespace at either end |
| Text.TrimInfix | packages/argdown-parser/src/plugins/ArgdownPreprocessor.js:326 | the trimmed label is the infix of the input that starts after its leading whitespace; everything cut off on either side is whitespace |
| Text.TrimIdempotent | packages/argdown-parser/src/plugins/ArgdownPreprocessor.js:326 | trimming a trimmed label changes nothing |
| Titles.Decimal | packages/argdown-parser/src/plugins/ArgdownPreprocessor.js:29 | the number in a generated title is written with decimal digits only and has no leading zero |
| Titles.DecimalRoundTrip | packages/argdown-parser/src/plugins/ArgdownPreprocessor.js:29 | reading the digits of a generated title back gives the counter value |
| Titles.DecimalInjective | packages/argdown-parser/src/plugins/ArgdownPreprocessor.js:29 | different counter values are written differently |
| Titles.UniqueTitleInjective | packages/argdown-parser/src/plugins/ArgdownPreprocessor.js:26-30 | different counter values give different "Untitled n" titles |
| Titles.IssuedTitles | packages/argdown-parser/src/plugins/ArgdownPreprocessor.js:26-30 | after n calls the titles handed out are "Untitled 1" … "Untitled n", in that order |
| Titles.IssuedTitlesDistinct | packages/argdown-parser/src/plugins/ArgdownPreprocessor.js:26-30 | no title is handed out twice, and the next one differs from all earlier ones |
| Patterns.FirstIndexOf | packages/argdown-parser/src/plugins/ArgdownPreprocessor.js:18-24 | the result is an occurrence with none before it, or there is no occurrence at all |
| Patterns.LastIndexOf | packages/argdown-parser/src/plugins/ArgdownPreprocessor.js:18-24 | the result is an occurrence in the window with none after it, or the window holds none |
| Patterns.Enclosed | packages/argdown-parser/src/plugins/ArgdownPreprocessor.js:18-23 | a captured title is non-empty and sits between the leftmost opening delimiter and a closing delimiter with none after it; no match means no closing delimiter lies at least one character after any opening one |
| Patterns.EnclosedRoundTrip | packages/argdown-parser/src/plugins/ArgdownPreprocessor.js:18-23 | applied to `open + title + close + rest`, a pattern captures exactly `title`, provided `close` does not occur again later |
| Patterns.StatementReferenceRoundTrip | packages/argdown-parser/src/plugins/ArgdownPreprocessor.js:18 | `[Title]` yields `Title` |
| Patterns.StatementDefinitionRoundTrip | packages/argdown-parser/src/plugins/ArgdownPreprocessor.js:19 | `[Title]:` yields `Title` |
| Patterns.StatementMentionRoundTrip | packages/argdown-parser/src/plugins/ArgdownPreprocessor.js:20 | `@[Title]` yields `Title`, with or without one trailing space |
| Patterns.ArgumentReferenceRoundTrip | packages/argdown-parser/src/plugins/ArgdownPreprocessor.js:21 | `<Title>` yields `Title` |
| Patterns.ArgumentDefinitionRoundTrip | packages/argdown-parser/src/plugins/ArgdownPreprocessor.js:22 | `<Title>:` yields `Title` |
| Patterns.ArgumentMentionRoundTrip | packages/argdown-parser/src/plugins/ArgdownPreprocessor.js:23 | `@<Title>` yields `Title`, with or without one trailing space |
| Patterns.MatchLink | packages/argdown-parser/src/plugins/ArgdownPreprocessor.js:24 | a matched link has a non-empty text and a non-empty url |
| Patterns.MatchLinkOccurs | packages/argdown-parser/src/plugins/ArgdownPreprocessor.js:24 | the matched text and url occur in the image as the markup `[text](url)` |
| Patterns.LinkRoundTrip | packages/argdown-parser/src/plugins/ArgdownPreprocessor.js:24 | `[text](url)` yields `text` and `url`, with or without one trailing space, when the url holds no `](` |
| Model.Images | packages/argdown-parser/src/plugins/ArgdownPreprocessor.js:168-170 | one image per child, in child order |
| Model.Texts | packages/argdown-parser/src/plugins/ArgdownPreprocessor.js:331-339 | one derived text per child, in child order |
| Preprocessor.ConcatImages | packages/argdown-parser/src/plugins/ArgdownPreprocessor.js:167-170 | the loop leaves the children's images joined in order |
| Preprocessor.RuleLabels | packages/argdown-parser/src/plugins/ArgdownPreprocessor.js:323-329 | there are at most as many rule labels as children, and each is trimmed |
| Preprocessor.RuleLabelsEmpty | packages/argdown-parser/src/plugins/ArgdownPreprocessor.js:323-329 | an inference-rules node without free-text children contributes no labels |
| Preprocessor.ContinuedArgument | packages/argdown-parser/src/plugins/ArgdownPreprocessor.js:280-290 | the argument a reconstruction continues: that of a definition or reference directly before it, or before one blank line directly before it; `null` otherwise |
| Preprocessor.ContinuedArgumentCases | packages/argdown-parser/src/plugins/ArgdownPreprocessor.js:280-290 | a reconstruction continues an argument exactly when a definition or reference carrying one sits directly before it, or before a single blank line, and then it continues that one; two blank lines in between give a fresh argument |
| Preprocessor.PrecededByInference | packages/argdown-parser/src/plugins/ArgdownPreprocessor.js:305-307 | the sibling directly before a premise or conclusion line is an inference |
| Preprocessor.SubjectTarget | packages/argdown-parser/src/plugins/ArgdownPreprocessor.js:264-272 | the relation-graph node of a subject: an argument itself, the class registered under a statement's title, nothing for no subject |
| Preprocessor.ContentSubject | packages/argdown-parser/src/plugins/ArgdownPreprocessor.js:229 | the content of a relation is the argument attached to its content node, else the statement |
| Preprocessor.LookupAsWritten | packages/argdown-parser/src/plugins/ArgdownPreprocessor.js:35-36 | what a lookup in a plain-object registry finds: an own entry, an inherited `Object.prototype` member, or nothing |
| Preprocessor.ConstructorTitleNotRegistered | packages/argdown-parser/src/plugins/ArgdownPreprocessor.js:35-36 | as written, the title `constructor` finds something in an empty registry, so no equivalence class is created for it |
| Preprocessor.ArgdownPreprocessor.constructor | packages/argdown-parser/src/plugins/ArgdownPreprocessor.js:45-52 | a new preprocessor has no current objects, empty stacks and title counter 0 (line 26). Its registries are empty maps, while the source leaves them unset until the document starts (see "Left out") |
| Preprocessor.ArgdownPreprocessor.GetUniqueTitle | packages/argdown-parser/src/plugins/ArgdownPreprocessor.js:26-30 | the counter goes up by one; the title is "Untitled " plus the new counter, appended to the issued titles and different from all of them |
| Preprocessor.ArgdownPreprocessor.GetEquivalenceClass | packages/argdown-parser/src/plugins/ArgdownPreprocessor.js:31-42 | empty title: `null`, registry unchanged. Otherwise: the class stored under the title (the existing instance if there was one, else a fresh empty one), whose title is that title. No other key changes |
| Preprocessor.ArgdownPreprocessor.OnArgdownEntry | packages/argdown-parser/src/plugins/ArgdownPreprocessor.js:54-65 | empty registries, no current objects, empty stacks; the title counter keeps its value |
| Preprocessor.ArgdownPreprocessor.OnHeadingExit | packages/argdown-parser/src/plugins/ArgdownPreprocessor.js:343-347 | the heading level is the length of the heading marker; the text is the second child's text |
| Preprocessor.ArgdownPreprocessor.OnStatementEntry | packages/argdown-parser/src/plugins/ArgdownPreprocessor.js:66-73 | a fresh, empty statement becomes current and is attached to the node; it is a thesis exactly when its parent is the document root |
| Preprocessor.ArgdownPreprocessor.OnStatementExit | packages/argdown-parser/src/plugins/ArgdownPreprocessor.js:74-85 | the statement ends with a non-empty title (generated only if it had none) and is the last member of its class, which is the existing one or a fresh one. The class is marked as used as a thesis if the statement is one; its argument flag and relations are kept. Other classes keep their members and thesis flag, and nothing else is written; no statement is current |
| Preprocessor.ArgdownPreprocessor.AddMember | packages/argdown-parser/src/plugins/ArgdownPreprocessor.js:79-83 | the statement is appended to the members of the class for its title (created if absent). The thesis flag is set if the statement is a thesis and kept otherwise; the argument flag and relations are kept. Other classes keep their members and thesis flag |
| Preprocessor.ArgdownPreprocessor.OnStatementTitleEntry | packages/argdown-parser/src/plugins/ArgdownPreprocessor.js:86-99 | when `[Title]:` or `[Title]` matches, the current statement takes that title and is attached to the node, with text, ranges and role untouched; otherwise nothing changes |
| Preprocessor.ArgdownPreprocessor.OnMentionExit | packages/argdown-parser/src/plugins/ArgdownPreprocessor.js:100-116 | on a match (statement mentions here, argument mentions at lines 149-165), the node records the title and trailing whitespace. Inside a statement, the raw image is appended to the text, and exactly one new range with that title spans the appended characters, with `start <= stop < |text|`. Only the statement's text and ranges are written. With no current statement, or no match, nothing else changes |
| Preprocessor.ArgdownPreprocessor.OnFreestyleTextEntry | packages/argdown-parser/src/plugins/ArgdownPreprocessor.js:166-173 | the node's text is its children's images joined in order, and it is appended to the current statement's text, if there is one |
| Preprocessor.ArgdownPreprocessor.OnLinkEntry | packages/argdown-parser/src/plugins/ArgdownPreprocessor.js:174-189 | the link text, not the markup, is appended, then one space exactly when the image ends in a space. Exactly one link range is added. It starts at the old text length and stops at the old length plus the link text length minus one, so `start <= stop < |text|`, and it carries the url |
| Preprocessor.ArgdownPreprocessor.OnEmphasisEntry | packages/argdown-parser/src/plugins/ArgdownPreprocessor.js:191-195 | a fresh open range of the given kind (bold here, italic at lines 208-212) starting at the current text length is pushed on the ranges stack and appended to the statement's ranges |
| Preprocessor.ArgdownPreprocessor.OnEmphasisExit | packages/argdown-parser/src/plugins/ArgdownPreprocessor.js:196-207 | at most one space is appended, exactly when the last child's image ends in one. The range on top of the stack then stops at the last character (`stop < |text|`) and is popped, leaving the stack as it was below it. `start <= stop` holds exactly when the text has grown past the range's start (italic exit at lines 213-224) |
| Preprocessor.ArgdownPreprocessor.UpdateArgument | packages/argdown-parser/src/plugins/ArgdownPreprocessor.js:117-128 | the argument registered under the title becomes current (created, registered and made the current subject only if absent), and a fresh description statement is appended to it; other arguments' descriptions are untouched |
| Preprocessor.ArgdownPreprocessor.OnArgumentTitleEntry | packages/argdown-parser/src/plugins/ArgdownPreprocessor.js:129-148 | when `<Title>:` or `<Title>` matches, the named argument becomes current as in UpdateArgument and is attached to the enclosing rule node. The fresh description statement has no title, text, ranges, role or inference. A new argument holds only that description, with no premises, conclusions or relations. Otherwise nothing changes |
| Preprocessor.ArgdownPreprocessor.OnArgumentDefinitionOrReferenceExit | packages/argdown-parser/src/plugins/ArgdownPreprocessor.js:137-140 | no statement and no argument is current afterwards |
| Preprocessor.ArgdownPreprocessor.OnArgumentEntry | packages/argdown-parser/src/plugins/ArgdownPreprocessor.js:278-298 | the reconstruction continues the argument of the preceding argument definition or reference, looking past one blank line, with counter and registry unchanged. Otherwise a fresh argument titled with the next "Untitled n" is registered. Either way it is attached to the node and becomes the current reconstruction |
| Preprocessor.ArgdownPreprocessor.OnArgumentStatementExit | packages/argdown-parser/src/plugins/ArgdownPreprocessor.js:299-318 | the statement is a conclusion linked to the preceding inference when the sibling directly before is an inference, else a premise; its title, text and ranges are kept. Its class (created if absent, then with no members, relations or thesis flag) is marked used in an argument, and no other class's flag changes. It is appended to the reconstruction's premises and conclusions, and its number is the new list length. A line without a statement changes nothing |
| Preprocessor.ArgdownPreprocessor.AssignPcsRole | packages/argdown-parser/src/plugins/ArgdownPreprocessor.js:304-310 | the role is conclusion exactly when the preceding sibling is an inference, and then the statement is linked to that inference; otherwise it is a premise and its inference is kept |
| Preprocessor.ArgdownPreprocessor.AppendPcs | packages/argdown-parser/src/plugins/ArgdownPreprocessor.js:312-316 | the class of the statement's title (created if absent, then with no members, relations or thesis flag) is marked used in an argument, the statement is appended to the reconstruction, and the node gets the statement and its 1-based number |
| Preprocessor.ArgdownPreprocessor.MarkUsedInArgument | packages/argdown-parser/src/plugins/ArgdownPreprocessor.js:312-313 | the class of a non-empty title (created if absent, under that key alone, then with no members, relations or thesis flag) has its argument flag set; every other class keeps its flag |
| Preprocessor.ArgdownPreprocessor.OnInferenceEntry | packages/argdown-parser/src/plugins/ArgdownPreprocessor.js:319-322 | a fresh inference with no rules and no metadata becomes current and is attached to the node |
| Preprocessor.ArgdownPreprocessor.OnInferenceRulesExit | packages/argdown-parser/src/plugins/ArgdownPreprocessor.js:323-329 | the trimmed texts of the free-text children are appended to the inference rules, in order; the metadata is unchanged |
| Preprocessor.ArgdownPreprocessor.OnMetadataStatementExit | packages/argdown-parser/src/plugins/ArgdownPreprocessor.js:330-342 | the value (a scalar for one value, otherwise the list) is stored under the first child's text, replacing any earlier value for that key; no other key changes |
| Preprocessor.ArgdownPreprocessor.GetRelationTarget | packages/argdown-parser/src/plugins/ArgdownPreprocessor.js:264-272 | an argument is its own target, with counter and registry unchanged. A statement gets the next "Untitled n" only if it has no title, and the counter moves only then. Its target is the class registered under its title: the existing one, or a fresh empty one added under that key alone. Its text, ranges, role and inference are untouched |
| Preprocessor.ArgdownPreprocessor.OnRelationsEntry | packages/argdown-parser/src/plugins/ArgdownPreprocessor.js:261-263 | the relation-graph node of the current statement or argument is pushed on the parents stack, and nothing else is pushed or popped. A statement subject has its title and class settled as in GetRelationTarget; an argument subject leaves counter and registry unchanged |
| Preprocessor.ArgdownPreprocessor.OnRelationEntry | packages/argdown-parser/src/plugins/ArgdownPreprocessor.js:241-260 | a fresh relation of the given type becomes current. An incoming relation has `from` set to the top of the parents stack; an outgoing one has `to` set to it. The other endpoint is unset |
| Preprocessor.ArgdownPreprocessor.AppendRelation | packages/argdown-parser/src/plugins/ArgdownPreprocessor.js:237-238 | the relation is appended to the endpoint's relations, and only that field of that endpoint is written |
| Preprocessor.ArgdownPreprocessor.OnRelationExit | packages/argdown-parser/src/plugins/ArgdownPreprocessor.js:226-240 | the content's title and class are settled as in GetRelationTarget; a class created here has no members and neither flag set, and its relations hold only this relation. With a relation, the unset endpoint (`to` when `from` is set) becomes the content's node, and the set one is kept. The same relation is appended to both endpoints' relations, twice to one endpoint when both are the same. Only the endpoints' `relations` and the relation's `from` and `to` are written |
| Preprocessor.ArgdownPreprocessor.RelateContent | packages/argdown-parser/src/plugins/ArgdownPreprocessor.js:227-239 | for a given relation (possibly none) and content: the title settling of GetRelationTarget, then the endpoint completion of CompleteRelation, with the results OnRelationExit states, including every field of a class created for the content |
| Preprocessor.ArgdownPreprocessor.CompleteRelation | packages/argdown-parser/src/plugins/ArgdownPreprocessor.js:231-239 | both endpoints are set afterwards, and each endpoint's relations gain exactly this relation, with no deduplication. Only the relation's endpoint slots and the endpoints' relations are written |
| Preprocessor.ArgdownPreprocessor.OnRelationsExit | packages/argdown-parser/src/plugins/ArgdownPreprocessor.js:273-276 | no relation is current, and the top of the parents stack is popped (an empty stack stays empty) |
| Listeners.RelationsExitNotDispatchedAsWritten | packages/argdown-parser/src/plugins/ArgdownPreprocessor.js:375-376 | with the table as written, leaving a relations block reaches no listener, and the key that holds its listener is no event key |
| Listeners.Dispatch | packages/argdown-parser/src/plugins/ArgdownPreprocessor.js:349-383 | the listener an event reaches: the one registered (in `ListenersAsWritten`, or in the corrected `Listeners`) under the node name followed by "Entry" or "Exit", if any |
| Listeners.DispatchParents | packages/argdown-parser/src/plugins/ArgdownPreprocessor.js:261-276 | dispatching one event to the preprocessor changes its parents stack exactly as `StepParents` says: a document entry empties it (through OnArgdownEntry, line 63), a relations entry pushes the node OnRelationsEntry resolves, a relations exit pops, and every other event leaves it alone |
| Listeners.NoEventReachesRelationsExitAsWritten | packages/argdown-parser/src/plugins/ArgdownPreprocessor.js:349-383 | with the table as written, no event of any node reaches the relations-exit listener |
| Listeners.ParentsStackNeverPoppedAsWritten | packages/argdown-parser/src/plugins/ArgdownPreprocessor.js:376 | with the table as written, within one document (no document-entry event), the parents stack never shrinks, and what it held at the start stays at its bottom; only the next document's entry empties it (DocumentEntryResets) |
| Listeners.NestedRelationsAsWritten | packages/argdown-parser/src/plugins/ArgdownPreprocessor.js:376 | with the table as written, after a nested relations block has closed, its node is still on top of the parents stack |
| Listeners.RelationsEntryDispatched | packages/argdown-parser/src/plugins/ArgdownPreprocessor.js:375 | entering a relations block reaches its listener |
| Listeners.RelationsExitDispatched | packages/argdown-parser/src/plugins/ArgdownPreprocessor.js:273-276 | with the corrected table, entering and leaving a relations block both reach their listeners |
| Listeners.ParentsStackLifo | packages/argdown-parser/src/plugins/ArgdownPreprocessor.js:261-276 | over any well-nested event sequence within one document, the parents stack keeps what was below it, and its height grows by the number of blocks still open |
| Listeners.ParentsStackRestored | packages/argdown-parser/src/plugins/ArgdownPreprocessor.js:261-276 | with the corrected table, well-nested events within one document leave the parents stack as they found it |
| Listeners.DocumentEntryResets | packages/argdown-parser/src/plugins/ArgdownPreprocessor.js:54-65 | the document-entry event empties the parents stack (line 63): the stack after any events, that event and further events is the stack the further events build from empty |
| Listeners.DocumentTraversal | packages/argdown-parser/src/plugins/ArgdownPreprocessor.js:54-65 | with the corrected table, a whole document (its entry event followed by well-nested events) ends with an empty parents stack, whatever an earlier document left on it |
| Listeners.ArgdownEntryDispatched | packages/argdown-parser/src/plugins/ArgdownPreprocessor.js:350 | starting a document reaches its listener, in both tables |
| Listeners.NestedRelationsCorrected | packages/argdown-parser/src/plugins/ArgdownPreprocessor.js:273-276 | with the corrected table, the outer block's node is back on top once a nested block closes |
| Scenarios.SeeHereLink | packages/argdown-parser/src/plugins/ArgdownPreprocessor.js:24 | `[See here](http://x.io) ` yields text `See here` and url `http://x.io`, and ends in a space |
| Scenarios.LinkInStatement | packages/argdown-parser/src/plugins/ArgdownPreprocessor.js:174-189 | a statement made of that link has text `See here ` and a link range from 0 to 7 carrying the url |
| Scenarios.MentionOfClaim | packages/argdown-parser/src/plugins/ArgdownPreprocessor.js:20 | `@[Claim] ` names `Claim` and ends in a space |
| Scenarios.MentionInStatement | packages/argdown-parser/src/plugins/ArgdownPreprocessor.js:100-116 | after free text `see ` and that mention, the statement text is `see @[Claim] ` and the mention range, titled `Claim`, spans offsets 4 to 12 |
| Scenarios.HeaderOfA | packages/argdown-parser/src/plugins/ArgdownPreprocessor.js:22 | `<A>:` names `A` |
| Scenarios.ContinuedAfterBlankLine | packages/argdown-parser/src/plugins/ArgdownPreprocessor.js:278-298 | a reconstruction after `<A>:` and one blank line continues argument A |
| Scenarios.ModusPonensLabel | packages/argdown-parser/src/plugins/ArgdownPreprocessor.js:326 | trimming ` modus ponens ` gives `modus ponens` |
| Scenarios.ModusPonensRule | packages/argdown-parser/src/plugins/ArgdownPreprocessor.js:324-328 | a single free-text child ` modus ponens ` contributes the one label `modus ponens` |
| Scenarios.RuleOfInference | packages/argdown-parser/src/plugins/ArgdownPreprocessor.js:319-329 | the inference line `-- modus ponens --` leaves the inference with exactly the rule `modus ponens` |
| Scenarios.EmptyEmphasis | packages/argdown-parser/src/plugins/ArgdownPreprocessor.js:191-207 | a bold range closed right after it opened, with no text in between, stops one before its start |
| Scenarios.RepeatedMetadataKey | packages/argdown-parser/src/plugins/ArgdownPreprocessor.js:330-342 | of two metadata lines with the same key, the later line's value is kept, and every other key keeps its value |
| Scenarios.SameClassTwice | packages/argdown-parser/src/plugins/ArgdownPreprocessor.js:31-42 | two lookups of the same non-empty title return the same class instance, titled with that title |

## Left out

- `run` and `logRelations` (lines 9-13 and 385-402): `run` only copies the two registries onto its argument, and `logRelations` only writes to the console.
- The lexer, the grammar and the tree walker that builds the tree and calls the listeners are not part of this model. Nodes are built by hand, and the dispatch table is modelled as a map from event names to listeners.
- No whole traversal is modelled. A listener sequence is stated on an abstract trace of events, for the parents stack only (`Listeners`), including the reset at each document's entry.
- Chevrotain's `tokenMatcher(node, ArgdownLexer.Emptyline)` is the node-name test `Model.IsEmptyLine`, and lodash's `_.last` is the last element of a sequence.
- Patterns: the regular expressions are modelled by delimiter positions. Line terminators, which `.` does not match, are not modelled, so an image with a line break inside a title can match here when the regular expression would not. The optional `(\s?)` group of the mention patterns is not captured: the listeners read trailing whitespace from the image's last character instead.
- Text lengths and offsets count Unicode scalar values. JavaScript's `length` counts UTF-16 code units, so offsets differ for characters outside the Basic Multilingual Plane.
- A listener step that would throw in JavaScript is a `requires`. Examples: a link, bold or italic outside a statement, an unmatched link image, a relation without a set endpoint or without content, and a metadata line without an open inference.
- Preprocessor.ArgdownPreprocessor.OnArgumentEntry: requires that a reconstruction at index 1 does not follow a blank line at index 0. There the source reads `children[-1]`, which is `undefined`, and throws on its `name`.
- Preprocessor.ArgdownPreprocessor.OnFreestyleTextEntry and Preprocessor.ArgdownPreprocessor.OnInferenceRulesExit build the text or the labels in a local variable and write the field once. The source appends to the field in place. The final state is the same, and no other listener runs in between.
- Preprocessor.ArgdownPreprocessor.constructor: starts with empty registries. In the source, `$.statements` and `$.arguments` are unset until `argdownEntry` (lines 55-56) runs, and a listener that ran before it would throw. Every scenario here calls `OnArgdownEntry` first, as the traversal does.
- Preprocessor.ArgdownPreprocessor.OnEmphasisExit: a bold or italic range closed with no text appended since it opened gets `stop == start - 1`, an empty range that breaks `start <= stop`. The model keeps that value, as the source computes it (`Scenarios.EmptyEmphasis`); whether the grammar admits such an empty emphasis is not part of this model.
- Preprocessor.ArgdownPreprocessor.OnMetadataStatementExit: stores a value under any key. In the source, `metaData` is a plain object, so the key `__proto__` stores no entry: it sets the object's prototype (for a list value) or is ignored (for a string).
- The model classes `Statement`, `Argument` and `EquivalenceClass` of the source are not part of this model. Only the fields the preprocessor reads or writes are declared.

## Findings

| source | as written | input that shows it | evidently intended | confidence | as-written member | corrected member |
|---|---|---|---|---|---|---|
| packages/argdown-parser/src/plugins/ArgdownPreprocessor.js:376 | the relations-exit listener is registered under `relationsExist`, a key no exit event looks up, so the parents stack is never popped within a document | `[A]: a` with relations `+ [B]: b`, then `+ [C]: c` nested under B, then a sibling `+ [D]: d` under A: D's relation is attached to B, whose block is still on the stack, instead of A | key `relationsExit`, so that leaving a relations block pops its node | high; not executed | Listeners.NestedRelationsAsWritten | Listeners.NestedRelationsCorrected |
| packages/argdown-parser/src/plugins/ArgdownPreprocessor.js:35-36 | the registries are plain object literals, so a title that names an `Object.prototype` member (`constructor`, `toString`, …) finds the inherited function. No class or argument is created, and the next step (`members.push`, `descriptions.push`) throws | `[constructor]: some text` or `<toString>: some text` | registries without inherited keys (a `Map` or `Object.create(null)`), so every title gets its own class or argument | high; not executed | Preprocessor.ConstructorTitleNotRegistered | Preprocessor.ArgdownPreprocessor.GetEquivalenceClass |
