/**
 * The graph snapshot the validators and the autosave machine work on:
 * typed nodes with an optional data payload, edges as id pairs, and the
 * structural ValidationError record.
 */
module Workflow {
  import opened Wrappers

  /** The node type tag; `Custom` carries any tag outside the five known ones. */
  datatype NodeKind = Start | Form | Conditional | Api | End | Custom(tag: string)

  /** The string the source stores in `node.type` and compares against. */
  function Tag(k: NodeKind): string {
    match k
    case Start => "start"
    case Form => "form"
    case Conditional => "conditional"
    case Api => "api"
    case End => "end"
    case Custom(t) => t
  }

  const KnownTags: set<string> := {"start", "form", "conditional", "api", "end"}

  /** Reads a `node.type` string back into a kind. */
  function KindOf(tag: string): (k: NodeKind)
    ensures Tag(k) == tag
  {
    if tag == "start" then Start
    else if tag == "form" then Form
    else if tag == "conditional" then Conditional
    else if tag == "api" then Api
    else if tag == "end" then End
    else Custom(tag)
  }

  /** A kind in canonical form: a known tag is never spelled as `Custom`. */
  predicate WellFormedKind(k: NodeKind) {
    k.Custom? ==> k.tag !in KnownTags
  }

  /** Tag and KindOf are inverse on well-formed kinds. */
  lemma KindTagRoundTrip(k: NodeKind)
    requires WellFormedKind(k)
    ensures KindOf(Tag(k)) == k
  {
  }

  /** One entry of a form node's `fields` list (`labelText` is the source's `label`). */
  datatype FormField = FormField(name: Option<string>, labelText: Option<string>)

  /**
   * A node's data payload as the validators read it. Every key is optional,
   * because the source reads an untyped object by field name whatever the
   * node's type. `httpMethod` is the source's `method` key.
   */
  datatype NodeData = NodeData(
    customName: Option<string>,
    fields: Option<seq<FormField>>,
    fieldToEvaluate: Option<string>,
    operator: Option<string>,
    value: Option<string>,
    url: Option<string>,
    httpMethod: Option<string>)

  /**
   * A node. `data` is None both when the payload is absent and when it is an
   * object without own keys; the source treats those two alike.
   */
  datatype Node = Node(id: string, kind: NodeKind, data: Option<NodeData>)

  /** A connection; its direction plays no part in validation. */
  datatype Edge = Edge(source: string, target: string)

  datatype Severity = Warning | Info | Error

  /** A structural error. The source's generated `id` is not modelled. */
  datatype ValidationError = ValidationError(severity: Severity, message: string, nodeId: Option<string>)

  /** The source's `buildError`: always of severity `error`. */
  function BuildError(message: string, nodeId: Option<string>): (e: ValidationError)
    ensures e.severity == Error && e.message == message && e.nodeId == nodeId
  {
    ValidationError(Error, message, nodeId)
  }

  function NodeIds(nodes: seq<Node>): (ids: set<string>)
    ensures forall i :: 0 <= i < |nodes| ==> nodes[i].id in ids
    ensures forall id :: id in ids ==> exists i :: 0 <= i < |nodes| && nodes[i].id == id
  {
    set i | 0 <= i < |nodes| :: nodes[i].id
  }
}
