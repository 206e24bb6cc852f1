/**
 * The dispatch table: the traversal calls the listener registered under the
 * node's name followed by "Entry" or "Exit". The table is modelled twice:
 * as written, where the relations-exit listener sits under the key
 * "relationsExist", which no event name produces, and corrected. The
 * effect on the parents stack is stated on an abstract trace of events.
 */
module Listeners {
  import opened Wrappers
  import opened Model
  import opened Preprocessor

  datatype Phase = Entry | Exit

  /** The key an event looks up: the node's name followed by the phase. */
  function EventName(name: string, phase: Phase): string
  {
    name + (if phase == Entry then "Entry" else "Exit")
  }

  predicate EndsWith(s: string, suffix: string) {
    |suffix| <= |s| && s[|s| - |suffix|..] == suffix
  }

  /** A key some event can produce. */
  predicate IsEventKey(key: string) {
    EndsWith(key, "Entry") || EndsWith(key, "Exit")
  }

  /** The listener methods of `ArgdownPreprocessor`, with their fixed arguments. */
  datatype Handler =
    | ArgdownEntry | HeadingExit | StatementEntry | StatementExit
    | StatementTitleEntry(token: TitleToken) | MentionExit(rangeType: RangeType)
    | ArgumentTitleEntry(argumentToken: TitleToken) | ArgumentDefinitionOrReferenceExit
    | ArgumentEntry | ArgumentStatementExit
    | InferenceEntry | InferenceRulesExit | MetadataStatementExit
    | RelationEntry(relationType: RelationType, incoming: bool) | RelationExit
    | RelationsEntry | RelationsExit
    | FreestyleTextEntry | EmphasisEntry(emphasis: RangeType) | EmphasisExit | LinkEntry

  /** The table with the keys the source registers. */
  const ListenersAsWritten: map<string, Handler> := map[
    "argdownEntry" := ArgdownEntry,
    "headingExit" := HeadingExit,
    "statementEntry" := StatementEntry,
    "statementExit" := StatementExit,
    "argumentEntry" := ArgumentEntry,
    "argumentStatementExit" := ArgumentStatementExit,
    "inferenceEntry" := InferenceEntry,
    "inferenceRulesExit" := InferenceRulesExit,
    "metadataStatementExit" := MetadataStatementExit,
    "StatementDefinitionEntry" := StatementTitleEntry(DefinitionToken),
    "StatementReferenceEntry" := StatementTitleEntry(ReferenceToken),
    "StatementMentionExit" := MentionExit(StatementMention),
    "ArgumentDefinitionEntry" := ArgumentTitleEntry(DefinitionToken),
    "ArgumentReferenceEntry" := ArgumentTitleEntry(ReferenceToken),
    "ArgumentMentionExit" := MentionExit(ArgumentMention),
    "argumentDefinitionExit" := ArgumentDefinitionOrReferenceExit,
    "argumentReferenceExit" := ArgumentDefinitionOrReferenceExit,
    "incomingSupportEntry" := RelationEntry(Support, true),
    "incomingSupportExit" := RelationExit,
    "incomingAttackEntry" := RelationEntry(Attack, true),
    "incomingAttackExit" := RelationExit,
    "outgoingSupportEntry" := RelationEntry(Support, false),
    "outgoingSupportExit" := RelationExit,
    "outgoingAttackEntry" := RelationEntry(Attack, false),
    "outgoingAttackExit" := RelationExit,
    "relationsEntry" := RelationsEntry,
    "relationsExist" := RelationsExit,
    "freestyleTextEntry" := FreestyleTextEntry,
    "italicEntry" := EmphasisEntry(Italic),
    "italicExit" := EmphasisExit,
    "boldEntry" := EmphasisEntry(Bold),
    "boldExit" := EmphasisExit,
    "LinkEntry" := LinkEntry
  ]

  /** The table with the relations-exit listener under the key its event produces. */
  const Listeners: map<string, Handler> := (ListenersAsWritten - {"relationsExist"})["relationsExit" := RelationsExit]

  /** The listener an event reaches, if any. */
  function Dispatch(table: map<string, Handler>, name: string, phase: Phase): Option<Handler>
  {
    var key := EventName(name, phase);
    if key in table then Some(table[key]) else None
  }

  /** As written: leaving a relations block reaches no listener, and the key holding its listener is no event key. */
  lemma RelationsExitNotDispatchedAsWritten()
    ensures Dispatch(ListenersAsWritten, "relations", Exit) == None
    ensures ListenersAsWritten["relationsExist"] == RelationsExit && !IsEventKey("relationsExist")
  {
    assert EventName("relations", Exit) == "relationsExit";
    assert "relationsExist"[9..] == "Exist";
  }

  /** Corrected: entering and leaving a relations block reach their two listeners. */
  lemma RelationsExitDispatched()
    ensures Dispatch(Listeners, "relations", Exit) == Some(RelationsExit)
    ensures Dispatch(Listeners, "relations", Entry) == Some(RelationsEntry)
  {
    assert EventName("relations", Exit) == "relationsExit";
    assert EventName("relations", Entry) == "relationsEntry";
  }

  /**
   * The traversal seen by the parents stack: each event carries the
   * relation-graph node `OnRelationsEntry` would resolve at that point.
   */
  datatype Event<T> = Event(name: string, phase: Phase, target: T)

  /**
   * One event's effect on the parents stack: a new document empties it, a
   * relations block pushes on entry and pops on exit (a pop of an empty
   * stack is a no-op).
   */
  function StepParents<T>(table: map<string, Handler>, stack: seq<T>, e: Event<T>): seq<T>
  {
    match Dispatch(table, e.name, e.phase)
    case Some(ArgdownEntry) => []
    case Some(RelationsEntry) => stack + [e.target]
    case Some(RelationsExit) => if stack == [] then [] else stack[..|stack| - 1]
    case _ => stack
  }

  /** The parents stack after a sequence of events. */
  function ParentsAfter<T>(table: map<string, Handler>, stack: seq<T>, events: seq<Event<T>>): seq<T>
  {
    if events == [] then stack
    else StepParents(table, ParentsAfter(table, stack, events[..|events| - 1]), events[|events| - 1])
  }

  /** No event of `events` starts a new document. */
  predicate OneDocument<T>(table: map<string, Handler>, events: seq<Event<T>>) {
    forall i :: 0 <= i < |events| ==> Dispatch(table, events[i].name, events[i].phase) != Some(ArgdownEntry)
  }

  /** Relations blocks entered minus relations blocks left, as the table dispatches them. */
  function Depth<T>(table: map<string, Handler>, events: seq<Event<T>>): int
  {
    if events == [] then 0
    else
      var e := events[|events| - 1];
      Depth(table, events[..|events| - 1])
        + match Dispatch(table, e.name, e.phase)
          case Some(RelationsEntry) => 1
          case Some(RelationsExit) => -1
          case _ => 0
  }

  /**
   * One event dispatched to the preprocessor, as far as the parents stack
   * goes: the document-entry and relations-block listeners change it exactly
   * as `StepParents` says, with the node `OnRelationsEntry` resolves as the
   * event's target.
   */
  method DispatchParents(p: ArgdownPreprocessor, table: map<string, Handler>, name: string, phase: Phase)
    requires p.Valid()
    modifies p`uniqueTitleCounter, p`statements, p`arguments, p`parentsStack, p`currentRelation
    modifies p`currentStatement, p`currentStatementOrArgument, p`currentArgument
    modifies p`currentArgumentReconstruction, p`currentInference, p`rangesStack
    modifies SubjectStatements(p.currentStatementOrArgument)`title
    ensures p.Valid()
    ensures var target := SubjectTarget(p.currentStatementOrArgument, p.statements);
      p.parentsStack == StepParents(table, old(p.parentsStack), Event(name, phase, target))
  {
    match Dispatch(table, name, phase)
    case Some(ArgdownEntry) => p.OnArgdownEntry();
    case Some(RelationsEntry) => p.OnRelationsEntry();
    case Some(RelationsExit) => p.OnRelationsExit();
    case _ =>
  }

  /** No prefix of `events` leaves more relations blocks than it entered. */
  ghost predicate WellNested<T>(table: map<string, Handler>, events: seq<Event<T>>) {
    forall i :: 0 <= i <= |events| ==> Depth(table, events[..i]) >= 0
  }

  /**
   * A new document forgets the relations blocks of the one before: whatever
   * came before the document-entry event, the parents stack is that of the
   * events after it, started empty.
   */
  lemma {:induction false} DocumentEntryResets<T>(table: map<string, Handler>, stack: seq<T>,
                                                  before: seq<Event<T>>, e: Event<T>, after: seq<Event<T>>)
    requires Dispatch(table, e.name, e.phase) == Some(ArgdownEntry)
    ensures ParentsAfter(table, stack, before + [e] + after) == ParentsAfter(table, [], after)
  {
    if after == [] {
      assert (before + [e] + after)[..|before|] == before;
    } else {
      var last := after[|after| - 1];
      var prefix := after[..|after| - 1];
      DocumentEntryResets(table, stack, before, e, prefix);
      assert (before + [e] + after)[..|before + [e] + after| - 1] == before + [e] + prefix;
    }
  }

  /**
   * Within one document the parents stack is a stack of the open relations
   * blocks: it keeps what was below them and grows by exactly the number
   * still open.
   */
  lemma {:induction false} ParentsStackLifo<T>(table: map<string, Handler>, stack: seq<T>, events: seq<Event<T>>)
    requires WellNested(table, events)
    ensures Depth(table, events) >= 0
    ensures OneDocument(table, events) ==>
      && |ParentsAfter(table, stack, events)| == |stack| + Depth(table, events)
      && ParentsAfter(table, stack, events)[..|stack|] == stack
  {
    assert events[..|events|] == events;
    if events != [] {
      var prefix := events[..|events| - 1];
      assert WellNested(table, prefix) by {
        forall i | 0 <= i <= |prefix| ensures Depth(table, prefix[..i]) >= 0 {
          assert prefix[..i] == events[..i];
        }
      }
      ParentsStackLifo(table, stack, prefix);
      if OneDocument(table, events) {
        assert OneDocument(table, prefix) by {
          forall i | 0 <= i < |prefix| ensures Dispatch(table, prefix[i].name, prefix[i].phase) != Some(ArgdownEntry) {
            assert prefix[i] == events[i];
          }
        }
        assert Dispatch(table, events[|events| - 1].name, events[|events| - 1].phase) != Some(ArgdownEntry);
      }
    }
  }

  /**
   * With the corrected table, well-nested events within one document leave
   * the parents stack as they found it.
   */
  lemma ParentsStackRestored<T>(stack: seq<T>, events: seq<Event<T>>)
    requires WellNested(Listeners, events) && Depth(Listeners, events) == 0
    ensures OneDocument(Listeners, events) ==> ParentsAfter(Listeners, stack, events) == stack
  {
    ParentsStackLifo(Listeners, stack, events);
  }

  /**
   * With the corrected table, a whole document (its entry event followed by
   * well-nested events) ends with an empty parents stack, whatever the
   * previous document left on it.
   */
  lemma DocumentTraversal<T>(stack: seq<T>, e: Event<T>, body: seq<Event<T>>)
    requires e.name == "argdown" && e.phase == Entry
    requires OneDocument(Listeners, body) && WellNested(Listeners, body) && Depth(Listeners, body) == 0
    ensures ParentsAfter(Listeners, stack, [e] + body) == []
  {
    ArgdownEntryDispatched();
    DocumentEntryResets(Listeners, stack, [], e, body);
    assert [] + [e] + body == [e] + body;
    ParentsStackRestored([], body);
  }

  /**
   * A relations block nested inside another (a relation whose content has
   * relations of its own), followed by a sibling relation: as written, the
   * inner block's node stays on top and the sibling attaches to it.
   */
  lemma NestedRelationsAsWritten<T>(a: T, b: T)
    ensures var events := [Event("relations", Entry, a), Event("relations", Entry, b), Event("relations", Exit, b)];
      ParentsAfter(ListenersAsWritten, [], events) == [a, b]
  {
    RelationsExitNotDispatchedAsWritten();
    RelationsEntryDispatched();
    var events := [Event("relations", Entry, a), Event("relations", Entry, b), Event("relations", Exit, b)];
    assert events[..2][..1] == [events[0]];
    assert ParentsAfter(ListenersAsWritten, [], events[..1]) == [a];
    assert ParentsAfter(ListenersAsWritten, [], events[..2]) == [a, b];
  }

  /** The same events with the corrected table: the outer block's node is back on top. */
  lemma NestedRelationsCorrected<T>(a: T, b: T)
    ensures var events := [Event("relations", Entry, a), Event("relations", Entry, b), Event("relations", Exit, b)];
      ParentsAfter(Listeners, [], events) == [a]
  {
    RelationsExitDispatched();
    var events := [Event("relations", Entry, a), Event("relations", Entry, b), Event("relations", Exit, b)];
    assert events[..2][..1] == [events[0]];
    assert ParentsAfter(Listeners, [], events[..1]) == [a];
    assert ParentsAfter(Listeners, [], events[..2]) == [a, b];
  }

  /** Starting a document reaches its listener, in both tables. */
  lemma ArgdownEntryDispatched()
    ensures Dispatch(ListenersAsWritten, "argdown", Entry) == Some(ArgdownEntry)
    ensures Dispatch(Listeners, "argdown", Entry) == Some(ArgdownEntry)
  {
    assert EventName("argdown", Entry) == "argdownEntry";
  }

  lemma RelationsEntryDispatched()
    ensures Dispatch(ListenersAsWritten, "relations", Entry) == Some(RelationsEntry)
  {
    assert EventName("relations", Entry) == "relationsEntry";
  }

  /** As written, no event of any node reaches the relations-exit listener. */
  lemma NoEventReachesRelationsExitAsWritten(name: string, phase: Phase)
    ensures Dispatch(ListenersAsWritten, name, phase) != Some(RelationsExit)
  {
    var key := EventName(name, phase);
    assert key[|key| - 2] == (if phase == Entry then 'r' else 'i');
    assert key != "relationsExist";
  }

  /**
   * As written, the parents stack is never popped within a document: every
   * relations block entered leaves its node on the stack until the next
   * document empties it.
   */
  lemma {:induction false} ParentsStackNeverPoppedAsWritten<T>(stack: seq<T>, events: seq<Event<T>>)
    ensures OneDocument(ListenersAsWritten, events) ==>
      && |ParentsAfter(ListenersAsWritten, stack, events)| >= |stack|
      && ParentsAfter(ListenersAsWritten, stack, events)[..|stack|] == stack
      && forall i :: 0 <= i < |events| ==>
           |ParentsAfter(ListenersAsWritten, stack, events[..i])| <= |ParentsAfter(ListenersAsWritten, stack, events)|
  {
    if events != [] && OneDocument(ListenersAsWritten, events) {
      var prefix := events[..|events| - 1];
      var e := events[|events| - 1];
      assert OneDocument(ListenersAsWritten, prefix) by {
        forall i | 0 <= i < |prefix|
          ensures Dispatch(ListenersAsWritten, prefix[i].name, prefix[i].phase) != Some(ArgdownEntry)
        {
          assert prefix[i] == events[i];
        }
      }
      ParentsStackNeverPoppedAsWritten(stack, prefix);
      NoEventReachesRelationsExitAsWritten(e.name, e.phase);
      forall i | 0 <= i < |events|
        ensures |ParentsAfter(ListenersAsWritten, stack, events[..i])| <= |ParentsAfter(ListenersAsWritten, stack, events)|
      {
        if i < |prefix| {
          assert events[..i] == prefix[..i];
        } else {
          assert events[..i] == prefix;
        }
      }
    }
  }
}
