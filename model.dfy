/**
 * The entities the preprocessor builds and the parse-tree nodes it visits.
 * Only the fields the preprocessor reads or writes are declared. Fields the
 * source sets once, right after construction, are `const`; fields it updates
 * later are `var`.
 */
module Model {
  import opened Wrappers

  datatype Role = NoRole | Thesis | Premise | Conclusion

  datatype RangeType = Bold | Italic | Link | StatementMention | ArgumentMention

  datatype RelationType = Support | Attack

  /** A metadata value: one string, or the ordered list of strings. */
  datatype MetaValue = Scalar(value: string) | Values(values: seq<string>)

  /**
   * A formatting or cross-reference span over a statement's text. `start`
   * and `stop` are inclusive offsets; `stop` is unset while a bold or italic
   * range is still open.
   */
  class Range {
    const rangeType: RangeType
    const start: nat
    var stop: Option<int>
    const title: string
    const url: string

    constructor (rangeType: RangeType, start: nat, title: string, url: string)
      ensures this.rangeType == rangeType && this.start == start && stop == None
      ensures this.title == title && this.url == url
    {
      this.rangeType, this.start, this.title, this.url := rangeType, start, title, url;
      stop := None;
    }
  }

  class Inference {
    var inferenceRules: seq<string>
    var metaData: map<string, MetaValue>

    constructor ()
      ensures inferenceRules == [] && metaData == map[]
    {
      inferenceRules, metaData := [], map[];
    }
  }

  /** One occurrence of a claim in the document. An empty title means "no title yet". */
  class Statement {
    var title: string
    var text: string
    var ranges: seq<Range>
    var role: Role
    var inference: Inference?

    constructor ()
      ensures title == "" && text == "" && ranges == [] && role == NoRole && inference == null
    {
      title, text, ranges, role, inference := "", "", [], NoRole, null;
    }
  }

  /** All statements sharing one title. */
  class EquivalenceClass {
    const title: string
    var members: seq<Statement>
    var isUsedAsThesis: bool
    var isUsedInArgument: bool
    var relations: seq<Relation>

    constructor (title: string)
      ensures this.title == title && members == [] && relations == []
      ensures !isUsedAsThesis && !isUsedInArgument
    {
      this.title := title;
      members, relations := [], [];
      isUsedAsThesis, isUsedInArgument := false, false;
    }
  }

  class Argument {
    const title: string
    var descriptions: seq<Statement>
    var pcs: seq<Statement>
    var relations: seq<Relation>

    constructor (title: string)
      ensures this.title == title && descriptions == [] && pcs == [] && relations == []
    {
      this.title := title;
      descriptions, pcs, relations := [], [], [];
    }
  }

  /** A node of the relation graph: an equivalence class or an argument. */
  datatype Target = ClassTarget(ec: EquivalenceClass) | ArgumentTarget(argument: Argument)

  /** What `currentStatementOrArgument` may hold (`NoSubject` is `null`). */
  datatype Subject = NoSubject | StatementSubject(statement: Statement) | ArgumentSubject(argument: Argument)

  /** A support or attack edge; `None` endpoints are not yet set. */
  class Relation {
    const relationType: RelationType
    var from: Option<Target>
    var to: Option<Target>

    constructor (relationType: RelationType, from: Option<Target>, to: Option<Target>)
      ensures this.relationType == relationType && this.from == from && this.to == to
    {
      this.relationType, this.from, this.to := relationType, from, to;
    }
  }

  function TargetObject(t: Target): object
  {
    match t
    case ClassTarget(ec) => ec
    case ArgumentTarget(a) => a
  }

  /** The equivalence class in a target slot, if the slot holds one. */
  function TargetClasses(t: Option<Target>): set<EquivalenceClass>
  {
    if t.Some? && t.value.ClassTarget? then {t.value.ec} else {}
  }

  /** The argument in a target slot, if the slot holds one. */
  function TargetArguments(t: Option<Target>): set<Argument>
  {
    if t.Some? && t.value.ArgumentTarget? then {t.value.argument} else {}
  }

  /** The equivalence classes in the endpoint slots of `r` that are set. */
  function EndpointClasses(r: Relation?): set<EquivalenceClass>
    reads r
  {
    if r == null then {} else TargetClasses(r.from) + TargetClasses(r.to)
  }

  /** The arguments in the endpoint slots of `r` that are set. */
  function EndpointArguments(r: Relation?): set<Argument>
    reads r
  {
    if r == null then {} else TargetArguments(r.from) + TargetArguments(r.to)
  }

  function RelationsOf(t: Target): seq<Relation>
    reads TargetObject(t)
  {
    match t
    case ClassTarget(ec) => ec.relations
    case ArgumentTarget(a) => a.relations
  }

  /** The statement object a subject may have its title assigned on. */
  function SubjectStatements(s: Subject): set<Statement>
  {
    if s.StatementSubject? then {s.statement} else {}
  }

  /** The argument a subject stands for, if it is one. */
  function SubjectArguments(s: Subject): set<Argument>
  {
    if s.ArgumentSubject? then {s.argument} else {}
  }

  /**
   * A node of the parse tree. `name` is the grammar rule or token name the
   * traversal dispatches on; the `var` fields are written by listeners and
   * read back by later ones.
   */
  class Node {
    const name: string
    const image: string
    const children: seq<Node>
    var statement: Statement?
    var argument: Argument?
    var relation: Relation?
    var inference: Inference?
    var text: string
    var title: string
    var url: string
    var trailingWhitespace: string
    var statementNr: nat
    var heading: nat

    constructor (name: string, image: string, children: seq<Node>)
      ensures this.name == name && this.image == image && this.children == children
      ensures statement == null && argument == null && relation == null && inference == null
      ensures text == "" && title == "" && url == "" && trailingWhitespace == ""
      ensures statementNr == 0 && heading == 0
    {
      this.name, this.image, this.children := name, image, children;
      statement, argument, relation, inference := null, null, null, null;
      text, title, url, trailingWhitespace := "", "", "", "";
      statementNr, heading := 0, 0;
    }
  }

  /** The blank-line token (the lexer's `Emptyline`). */
  predicate IsEmptyLine(n: Node) {
    n.name == "Emptyline"
  }

  /** An argument definition or reference rule node, which carries the argument it names. */
  predicate IsArgumentHeader(n: Node) {
    n.name == "argumentReference" || n.name == "argumentDefinition"
  }

  /** The images of `nodes`, in order. */
  function Images(nodes: seq<Node>): (r: seq<string>)
    ensures |r| == |nodes| && forall i :: 0 <= i < |nodes| ==> r[i] == nodes[i].image
  {
    if nodes == [] then [] else Images(nodes[..|nodes| - 1]) + [nodes[|nodes| - 1].image]
  }

  /** The derived `text` fields of `nodes`, in order. */
  function Texts(nodes: seq<Node>): (r: seq<string>)
    reads nodes
    ensures |r| == |nodes| && forall i :: 0 <= i < |nodes| ==> r[i] == nodes[i].text
  {
    if nodes == [] then [] else Texts(nodes[..|nodes| - 1]) + [nodes[|nodes| - 1].text]
  }
}
