/**
 * Per-node configuration validation (`validateNodes` in src/utils/validation.ts):
 * each node's fields are checked by the rule table according to the node's
 * type, and every failure is recorded in a per-field message slot.
 */
module NodeValidation {
  import opened Wrappers
  import opened Text
  import opened Workflow
  import opened FieldValidation

  /** The slots of a node error record are the rule table's fields, in the source's key order. */
  type ErrorKey = FieldKey

  const KeyOrder: seq<ErrorKey> :=
    [CustomName, Url, FieldToEvaluate, Operator, Value, Method, FieldName, FieldLabel]

  /** The source's `NodeErrorType`: one message per slot, "" meaning no error. */
  datatype NodeErrorSlots = NodeErrorSlots(
    customName: string, url: string, fieldToEvaluate: string, operator: string,
    value: string, httpMethod: string, fieldName: string, fieldLabel: string)
  {
    function Get(k: ErrorKey): string {
      match k
      case CustomName => customName
      case Url => url
      case FieldToEvaluate => fieldToEvaluate
      case Operator => operator
      case Value => value
      case Method => httpMethod
      case FieldName => fieldName
      case FieldLabel => fieldLabel
    }

    function With(k: ErrorKey, msg: string): (r: NodeErrorSlots)
      ensures r.Get(k) == msg
      ensures forall k' :: k' != k ==> r.Get(k') == Get(k')
    {
      match k
      case CustomName => this.(customName := msg)
      case Url => this.(url := msg)
      case FieldToEvaluate => this.(fieldToEvaluate := msg)
      case Operator => this.(operator := msg)
      case Value => this.(value := msg)
      case Method => this.(httpMethod := msg)
      case FieldName => this.(fieldName := msg)
      case FieldLabel => this.(fieldLabel := msg)
    }
  }

  /** The source's `DEFAULT_NODE_ERRORS`: every slot empty. */
  const DefaultNodeErrors := NodeErrorSlots("", "", "", "", "", "", "", "")

  const Separator := " | "

  /** The source's `appendMessage`: an empty message is ignored, a second one is joined with " | ". */
  function AppendMessage(slots: NodeErrorSlots, k: ErrorKey, msg: string): (r: NodeErrorSlots)
    ensures forall k' :: k' != k ==> r.Get(k') == slots.Get(k')
    ensures msg != "" ==> r.Get(k) == if slots.Get(k) == "" then msg else slots.Get(k) + Separator + msg
    ensures msg == "" ==> r == slots
  {
    if msg == "" then slots
    else slots.With(k, if slots.Get(k) == "" then msg else slots.Get(k) + Separator + msg)
  }

  /** The source's `NodeError` record (its generated `id` is not modelled). */
  datatype NodeError = NodeError(nodeId: string, nodeType: string, error: NodeErrorSlots, message: string)

  /** One failed check: the slot it is recorded in and its message. */
  datatype Failure = Failure(key: ErrorKey, message: string)

  /** Runs the rule for slot `k` on `value`; at most one failure. */
  function Check(k: ErrorKey, value: string, ctx: Context): (r: seq<Failure>)
    ensures |r| <= 1
    ensures r == [] <==> ValidateKey(k, value, ctx).None?
    ensures r != [] ==> r[0] == Failure(k, ValidateKey(k, value, ctx).value)
    ensures forall f :: f in r ==> f.key == k && f.message != ""
  {
    Collect(k, ValidateKey(k, value, ctx))
  }

  /** The failures a rule verdict produces for slot `k`: none when the rule passes. */
  function Collect(k: ErrorKey, verdict: Option<string>): seq<Failure> {
    if verdict.Some? then [Failure(k, verdict.value)] else []
  }

  const NoFieldsMessage := "At least one field is required"

  const FormContext := Context(Some("form"), None)

  /** The message prefix for the i-th (0-based) form field. */
  function FieldPrefix(i: nat, what: string): string {
    "Field " + NatToString(i + 1) + " " + what + ": "
  }

  function NameError(f: FormField): Option<string> {
    ValidateKey(FieldName, f.name.ValueOr(""), FormContext)
  }

  function LabelError(f: FormField): Option<string> {
    ValidateKey(FieldLabel, f.labelText.ValueOr(""), FormContext)
  }

  /** The two checks every form field gets, each in its own slot. */
  predicate IsEntryKey(k: ErrorKey) {
    k == FieldName || k == FieldLabel
  }

  /** The word naming an entry check in its message prefix. */
  function EntryWhat(k: ErrorKey): string {
    if k == FieldName then "name" else "label"
  }

  /** The rule result for the entry check `k` of a form field. */
  function EntryError(f: FormField, k: ErrorKey): Option<string> {
    if k == FieldName then NameError(f) else LabelError(f)
  }

  /**
   * The failures of the form field at position `i` (0-based), given the rule
   * results for its name and label: each is prefixed with the field's number.
   */
  function EntryFailures(i: nat, nameError: Option<string>, labelError: Option<string>): (r: seq<Failure>)
    ensures forall x :: x in r ==> (x.key == FieldName || x.key == FieldLabel) && x.message != ""
    ensures nameError.Some? ==> Failure(FieldName, FieldPrefix(i, "name") + nameError.value) in r
    ensures forall x :: x in r && x.key == FieldName ==>
      nameError.Some? && x.message == FieldPrefix(i, "name") + nameError.value
    ensures labelError.Some? ==> Failure(FieldLabel, FieldPrefix(i, "label") + labelError.value) in r
    ensures forall x :: x in r && x.key == FieldLabel ==>
      labelError.Some? && x.message == FieldPrefix(i, "label") + labelError.value
  {
    (if nameError.Some? then [Failure(FieldName, FieldPrefix(i, "name") + nameError.value)] else [])
    + (if labelError.Some? then [Failure(FieldLabel, FieldPrefix(i, "label") + labelError.value)] else [])
  }

  /** The name and label failures of one form field at position `i` (0-based). */
  function FormFieldFailure(i: nat, f: FormField): seq<Failure> {
    EntryFailures(i, NameError(f), LabelError(f))
  }

  /** The failures of every form field from position `i` on, in order: all fields are checked. */
  function FormFieldFailures(fields: seq<FormField>, i: nat): (r: seq<Failure>)
    requires i <= |fields|
    ensures forall f :: f in r ==> (f.key == FieldName || f.key == FieldLabel) && f.message != ""
    decreases |fields| - i
  {
    if i == |fields| then [] else FormFieldFailure(i, fields[i]) + FormFieldFailures(fields, i + 1)
  }

  predicate HasCustomName(tag: string) {
    tag == "form" || tag == "conditional" || tag == "api"
  }

  /** A form node's own checks: a non-empty field list, then every field. */
  function FormFailures(d: NodeData): (r: seq<Failure>)
    ensures forall f :: f in r ==> (f.key == FieldName || f.key == FieldLabel) && f.message != ""
  {
    if d.fields.None? || d.fields.value == [] then [Failure(FieldName, NoFieldsMessage)]
    else FormFieldFailures(d.fields.value, 0)
  }

  /** A conditional node's own checks; the value rule also sees the raw operator. */
  function ConditionalFailures(d: NodeData): (r: seq<Failure>)
    ensures forall f :: f in r ==> (f.key == FieldToEvaluate || f.key == Operator || f.key == Value) && f.message != ""
  {
    var ctx := Context(Some("conditional"), None);
    Check(FieldToEvaluate, d.fieldToEvaluate.ValueOr(""), ctx)
    + Check(Operator, d.operator.ValueOr(""), ctx)
    + Check(Value, d.value.ValueOr(""), Context(Some("conditional"), d.operator))
  }

  /** Two checks in a row: the failures of the first, then those of the second. */
  function CheckBoth(k1: ErrorKey, v1: string, k2: ErrorKey, v2: string, ctx: Context): (r: seq<Failure>)
    ensures forall f :: f in r ==> (f.key == k1 || f.key == k2) && f.message != ""
  {
    Check(k1, v1, ctx) + Check(k2, v2, ctx)
  }

  /** An api node's own checks. */
  function ApiFailures(d: NodeData): (r: seq<Failure>)
    ensures forall f :: f in r ==> (f.key == Url || f.key == Method) && f.message != ""
  {
    CheckBoth(Url, d.url.ValueOr(""), Method, d.httpMethod.ValueOr(""), Context(Some("api"), None))
  }

  /**
   * Every failed check of a node, in the order the source performs them: the
   * custom name first, then the type-specific fields. A node without data
   * has none.
   */
  function NodeFailures(n: Node): (r: seq<Failure>)
    ensures forall f :: f in r ==> f.message != ""
    ensures n.data.None? ==> r == []
  {
    if n.data.None? then []
    else
      var d := n.data.value;
      var tag := Tag(n.kind);
      var named :=
        if HasCustomName(tag) then Check(CustomName, d.customName.ValueOr(""), Context(Some(tag), None)) else [];
      named + TypeFailures(tag, d)
  }

  /** The checks specific to a node type, after the custom name; other types have none. */
  function TypeFailures(tag: string, d: NodeData): (r: seq<Failure>)
    ensures forall f :: f in r ==> f.message != ""
    ensures forall f :: f in r ==>
      && (tag == "form" ==> (f.key == FieldName || f.key == FieldLabel))
      && (tag == "conditional" ==> (f.key == FieldToEvaluate || f.key == Operator || f.key == Value))
      && (tag == "api" ==> (f.key == Url || f.key == Method))
      && HasCustomName(tag)
  {
    if tag == "form" then FormFailures(d)
    else if tag == "conditional" then ConditionalFailures(d)
    else if tag == "api" then ApiFailures(d)
    else []
  }

  /** Records the failures one after another, as the source's successive appendMessage calls do. */
  function Accumulate(fs: seq<Failure>): NodeErrorSlots {
    if fs == [] then DefaultNodeErrors
    else AppendMessage(Accumulate(fs[..|fs| - 1]), fs[|fs| - 1].key, fs[|fs| - 1].message)
  }

  /** The messages recorded for slot `k`, in order. */
  function MessagesFor(fs: seq<Failure>, k: ErrorKey): (r: seq<string>)
    ensures |r| <= |fs|
  {
    if fs == [] then []
    else MessagesFor(fs[..|fs| - 1], k) + (if fs[|fs| - 1].key == k then [fs[|fs| - 1].message] else [])
  }

  /** A slot holds a message exactly when some failure is recorded in it. */
  lemma {:induction false} MessagesForEmpty(fs: seq<Failure>, k: ErrorKey)
    ensures MessagesFor(fs, k) == [] <==> forall i :: 0 <= i < |fs| ==> fs[i].key != k
  {
    if fs != [] {
      MessagesForEmpty(fs[..|fs| - 1], k);
      assert forall i :: 0 <= i < |fs| - 1 ==> fs[..|fs| - 1][i] == fs[i];
    }
  }

  lemma {:induction false} MessagesForNonEmpty(fs: seq<Failure>, k: ErrorKey)
    requires forall f :: f in fs ==> f.message != ""
    ensures forall m :: m in MessagesFor(fs, k) ==> m != ""
  {
    if fs != [] {
      assert forall f :: f in fs[..|fs| - 1] ==> f in fs;
      MessagesForNonEmpty(fs[..|fs| - 1], k);
    }
  }

  /** Joining non-empty parts gives "" only for no parts. */
  lemma {:induction false} JoinEmpty(parts: seq<string>)
    requires forall p :: p in parts ==> p != ""
    ensures Join(Separator, parts) == "" <==> parts == []
  {
    if |parts| > 1 {
      assert parts[|parts| - 1] in parts;
    } else if |parts| == 1 {
      assert parts[0] in parts;
    }
  }

  /** Joining one more part appends the separator and the part. */
  lemma JoinSnoc(parts: seq<string>, p: string)
    ensures Join(Separator, parts + [p]) == if parts == [] then p else Join(Separator, parts) + Separator + p
  {
    if parts != [] {
      assert (parts + [p])[..|parts|] == parts;
    }
  }

  /**
   * Each slot of the accumulated record is the " | "-join of the messages
   * recorded for it, in the order they were produced.
   */
  lemma {:induction false} AccumulateSlots(fs: seq<Failure>, k: ErrorKey)
    requires forall f :: f in fs ==> f.message != ""
    ensures Accumulate(fs).Get(k) == Join(Separator, MessagesFor(fs, k))
  {
    if fs != [] {
      var init := fs[..|fs| - 1];
      var last := fs[|fs| - 1];
      assert forall f :: f in init ==> f in fs;
      assert last in fs;
      AccumulateSlots(init, k);
      var ms := MessagesFor(init, k);
      assert Accumulate(fs) == AppendMessage(Accumulate(init), last.key, last.message);
      if last.key == k {
        assert MessagesFor(fs, k) == ms + [last.message];
        MessagesForNonEmpty(init, k);
        JoinEmpty(ms);
        JoinSnoc(ms, last.message);
      } else {
        assert MessagesFor(fs, k) == ms + [];
        assert ms + [] == ms;
      }
    }
  }

  /** A slot is non-empty exactly when some failure was recorded in it. */
  lemma SlotFilledIff(fs: seq<Failure>, k: ErrorKey)
    requires forall f :: f in fs ==> f.message != ""
    ensures Accumulate(fs).Get(k) != "" <==> exists i :: 0 <= i < |fs| && fs[i].key == k
  {
    AccumulateSlots(fs, k);
    MessagesForNonEmpty(fs, k);
    JoinEmpty(MessagesFor(fs, k));
    MessagesForEmpty(fs, k);
  }

  /** Slot `keys[j]` is filled and every slot before it in `keys` is empty. */
  predicate FirstFilledAt(slots: NodeErrorSlots, keys: seq<ErrorKey>, j: int) {
    && 0 <= j < |keys|
    && slots.Get(keys[j]) != ""
    && forall j' :: 0 <= j' < j ==> slots.Get(keys[j']) == ""
  }

  /** The first non-empty slot among `keys`, in order. */
  function FirstFilled(slots: NodeErrorSlots, keys: seq<ErrorKey>): (r: Option<string>)
    ensures r.Some? ==> exists j :: FirstFilledAt(slots, keys, j) && r.value == slots.Get(keys[j])
    ensures r.None? <==> forall j :: 0 <= j < |keys| ==> slots.Get(keys[j]) == ""
  {
    if keys == [] then None
    else if slots.Get(keys[0]) != "" then Some(slots.Get(keys[0]))
    else
      var r := FirstFilled(slots, keys[1..]);
      assert forall j :: 1 <= j < |keys| ==> keys[j] == keys[1..][j - 1];
      if r.Some? then
        ghost var j :| FirstFilledAt(slots, keys[1..], j) && r.value == slots.Get(keys[1..][j]);
        assert FirstFilledAt(slots, keys, j + 1);
        r
      else r
  }

  const FallbackMessage := "Node Configuration Error"

  /** The record's `message`: its first filled slot in key order. */
  function PrimaryMessage(slots: NodeErrorSlots): string {
    FirstFilled(slots, KeyOrder).ValueOr(FallbackMessage)
  }

  /** The record for one node, present exactly when some check failed. */
  function ValidateNode(n: Node): (r: Option<NodeError>)
    ensures r.Some? <==> NodeFailures(n) != []
  {
    var fs := NodeFailures(n);
    if fs == [] then None
    else
      var slots := Accumulate(fs);
      Some(NodeError(n.id, Tag(n.kind), slots, PrimaryMessage(slots)))
  }

  /**
   * A node gets a record iff one of its checks failed. The record's filled
   * slots are exactly the failing keys, each holding its messages joined by
   * " | ", and its message is the first filled slot in key order (so the
   * fallback text never shows).
   */
  lemma ValidateNodeRecord(n: Node)
    ensures ValidateNode(n).Some? <==> NodeFailures(n) != []
    ensures ValidateNode(n).Some? ==>
      var e := ValidateNode(n).value;
      && e.nodeId == n.id
      && (forall k :: e.error.Get(k) == Join(Separator, MessagesFor(NodeFailures(n), k)))
      && (forall k :: e.error.Get(k) != "" <==> exists i :: 0 <= i < |NodeFailures(n)| && NodeFailures(n)[i].key == k)
      && (exists j :: FirstFilledAt(e.error, KeyOrder, j) && e.message == e.error.Get(KeyOrder[j]))
  {
    var fs := NodeFailures(n);
    if fs != [] {
      var slots := Accumulate(fs);
      forall k
        ensures slots.Get(k) == Join(Separator, MessagesFor(fs, k))
        ensures slots.Get(k) != "" <==> exists i :: 0 <= i < |fs| && fs[i].key == k
      {
        AccumulateSlots(fs, k);
        SlotFilledIff(fs, k);
      }
      var k0 := fs[0].key;
      assert slots.Get(k0) != "";
      assert k0 in KeyOrder;
      var j0 :| 0 <= j0 < |KeyOrder| && KeyOrder[j0] == k0;
      assert FirstFilled(slots, KeyOrder).Some?;
    }
  }

  /** A node whose data is absent or empty is skipped. */
  lemma UnconfiguredNodeSkipped(n: Node)
    requires n.data.None?
    ensures ValidateNode(n).None?
  {
  }

  /** The slots each node type can fill; other types are never reported. */
  lemma FailureKeysByKind(n: Node)
    ensures var tag := Tag(n.kind);
      forall f :: f in NodeFailures(n) ==>
        && (tag == "form" ==> (f.key == CustomName || f.key == FieldName || f.key == FieldLabel))
        && (tag == "conditional" ==> (f.key == CustomName || f.key == FieldToEvaluate || f.key == Operator || f.key == Value))
        && (tag == "api" ==> (f.key == CustomName || f.key == Url || f.key == Method))
        && HasCustomName(tag)
  {
  }

  /** The messages of a concatenation are those of the first part, then those of the second. */
  lemma {:induction false} MessagesForAppend(a: seq<Failure>, b: seq<Failure>, k: ErrorKey)
    ensures MessagesFor(a + b, k) == MessagesFor(a, k) + MessagesFor(b, k)
    decreases |b|
  {
    if b == [] {
      assert a + b == a;
    } else {
      var init := b[..|b| - 1];
      assert (a + b)[..|a + b| - 1] == a + init;
      assert (a + b)[|a + b| - 1] == b[|b| - 1];
      MessagesForAppend(a, init, k);
    }
  }

  /** A verdict puts its message, if any, in its own slot and nothing in any other. */
  lemma CollectMessages(k: ErrorKey, verdict: Option<string>, k': ErrorKey)
    ensures MessagesFor(Collect(k, verdict), k') == if k' == k then verdict.ToSeq() else []
  {
    var r := Collect(k, verdict);
    if r != [] {
      assert r[..|r| - 1] == [];
    }
  }

  /** Two verdicts for different slots, collected in a row, each land in their own slot. */
  lemma CollectPair(k1: ErrorKey, v1: Option<string>, k2: ErrorKey, v2: Option<string>, k: ErrorKey)
    requires k1 != k2
    ensures MessagesFor(Collect(k1, v1) + Collect(k2, v2), k) ==
      if k == k1 then v1.ToSeq() else if k == k2 then v2.ToSeq() else []
  {
    MessagesForAppend(Collect(k1, v1), Collect(k2, v2), k);
    CollectMessages(k1, v1, k);
    CollectMessages(k2, v2, k);
    if k == k1 {
      assert v1.ToSeq() + [] == v1.ToSeq();
    }
  }

  /** Three verdicts for different slots, collected in a row, each land in their own slot. */
  lemma CollectTriple(k1: ErrorKey, v1: Option<string>, k2: ErrorKey, v2: Option<string>,
                      k3: ErrorKey, v3: Option<string>, k: ErrorKey)
    requires k1 != k2 && k1 != k3 && k2 != k3
    ensures MessagesFor(Collect(k1, v1) + Collect(k2, v2) + Collect(k3, v3), k) ==
      if k == k1 then v1.ToSeq() else if k == k2 then v2.ToSeq() else if k == k3 then v3.ToSeq() else []
  {
    var front := Collect(k1, v1) + Collect(k2, v2);
    MessagesForAppend(front, Collect(k3, v3), k);
    CollectPair(k1, v1, k2, v2, k);
    CollectMessages(k3, v3, k);
    if k == k1 {
      assert v1.ToSeq() + [] == v1.ToSeq();
    } else if k == k2 {
      assert v2.ToSeq() + [] == v2.ToSeq();
    } else if k == k3 {
      assert [] + v3.ToSeq() == v3.ToSeq();
    } else {
      assert MessagesFor(front, k) == [] && MessagesFor(Collect(k3, v3), k) == [];
    }
  }

  /** Whether a node of type `tag` runs the rule of slot `k` once (the per-entry form slots aside). */
  predicate ChecksSlot(tag: string, k: ErrorKey) {
    match k
    case CustomName => HasCustomName(tag)
    case FieldToEvaluate => tag == "conditional"
    case Operator => tag == "conditional"
    case Value => tag == "conditional"
    case Url => tag == "api"
    case Method => tag == "api"
    case FieldName => false
    case FieldLabel => false
  }

  /** The payload value handed to the rule of slot `k`, "" when it is missing. */
  function SlotValue(d: NodeData, k: ErrorKey): string {
    match k
    case CustomName => d.customName.ValueOr("")
    case Url => d.url.ValueOr("")
    case FieldToEvaluate => d.fieldToEvaluate.ValueOr("")
    case Operator => d.operator.ValueOr("")
    case Value => d.value.ValueOr("")
    case Method => d.httpMethod.ValueOr("")
    case FieldName => ""
    case FieldLabel => ""
  }

  /** The context the source passes to the rule of slot `k`: the node's type, and for `value` the operator. */
  function SlotContext(tag: string, d: NodeData, k: ErrorKey): Context {
    Context(Some(tag), if k == Value then d.operator else None)
  }

  /**
   * What slot `k` of a node of type `tag` with payload `d` must hold: the
   * verdict of the rule `validateField` selects by the slot's field name (see
   * FieldByName), run on the payload value in the slot's context, or nothing
   * when that type does not check the slot.
   */
  function KindVerdict(tag: string, d: NodeData, k: ErrorKey): Option<string> {
    if ChecksSlot(tag, k) then ValidateKey(k, SlotValue(d, k), SlotContext(tag, d, k)) else None
  }

  /** The verdict for slot `k` of node `n`; a node without data has none. */
  function SlotVerdict(n: Node, k: ErrorKey): Option<string> {
    if n.data.None? then None else KindVerdict(Tag(n.kind), n.data.value, k)
  }

  /** No failure in `fs` is recorded in slot `k`, so `k` gets no message. */
  lemma NoMessagesFor(fs: seq<Failure>, k: ErrorKey)
    requires forall f :: f in fs ==> f.key != k
    ensures MessagesFor(fs, k) == []
  {
    assert forall i :: 0 <= i < |fs| ==> fs[i] in fs;
    MessagesForEmpty(fs, k);
  }

  /** Calling `validateField` with a slot's field name runs that slot's rule. */
  lemma FieldByName(k: ErrorKey, value: string, ctx: Context)
    ensures ValidateField(NameOf(k), value, ctx) == ValidateKey(k, value, ctx)
  {
    ParseFieldRoundTrip(k, "");
  }

  /** A conditional node's own checks, as the verdicts of its three slots in order. */
  lemma ConditionalVerdicts(d: NodeData)
    ensures ConditionalFailures(d)
         == Collect(FieldToEvaluate, KindVerdict("conditional", d, FieldToEvaluate))
          + Collect(Operator, KindVerdict("conditional", d, Operator))
          + Collect(Value, KindVerdict("conditional", d, Value))
  {
    var ctx := Context(Some("conditional"), None);
    assert SlotContext("conditional", d, FieldToEvaluate) == ctx;
    assert SlotContext("conditional", d, Operator) == ctx;
    assert ChecksSlot("conditional", FieldToEvaluate) && ChecksSlot("conditional", Operator) && ChecksSlot("conditional", Value);
  }

  /** A conditional node's own checks leave in each slot exactly that slot's verdict. */
  lemma ConditionalSlots(d: NodeData, k: ErrorKey)
    requires k != CustomName
    ensures MessagesFor(ConditionalFailures(d), k) == KindVerdict("conditional", d, k).ToSeq()
  {
    var v1 := KindVerdict("conditional", d, FieldToEvaluate);
    var v2 := KindVerdict("conditional", d, Operator);
    var v3 := KindVerdict("conditional", d, Value);
    ConditionalVerdicts(d);
    CollectTriple(FieldToEvaluate, v1, Operator, v2, Value, v3, k);
    ConditionalUnchecked(d, k);
  }

  /** A conditional node has no verdict in any slot but its custom name and its three own ones. */
  lemma ConditionalUnchecked(d: NodeData, k: ErrorKey)
    ensures k != CustomName && k != FieldToEvaluate && k != Operator && k != Value ==> KindVerdict("conditional", d, k) == None
  {
    if k != CustomName && k != FieldToEvaluate && k != Operator && k != Value {
      assert !ChecksSlot("conditional", k);
    }
  }

  /** An api node's own checks leave in each slot exactly that slot's verdict. */
  lemma ApiSlots(d: NodeData, k: ErrorKey)
    requires k != CustomName
    ensures MessagesFor(ApiFailures(d), k) == KindVerdict("api", d, k).ToSeq()
  {
    var v1 := KindVerdict("api", d, Url);
    var v2 := KindVerdict("api", d, Method);
    assert ApiFailures(d) == Collect(Url, v1) + Collect(Method, v2);
    CollectPair(Url, v1, Method, v2, k);
    ApiUnchecked(d, k);
  }

  /** An api node has no verdict in any slot but its custom name and its two own ones. */
  lemma ApiUnchecked(d: NodeData, k: ErrorKey)
    ensures k != CustomName && k != Url && k != Method ==> KindVerdict("api", d, k) == None
  {
    if k != CustomName && k != Url && k != Method {
      assert !ChecksSlot("api", k);
    }
  }

  /** The type-specific checks leave in each slot but the custom name exactly that slot's verdict. */
  lemma TypeSlots(tag: string, d: NodeData, k: ErrorKey)
    requires k != FieldName && k != FieldLabel
    ensures MessagesFor(TypeFailures(tag, d), k) == if k == CustomName then [] else KindVerdict(tag, d, k).ToSeq()
  {
    if tag == "form" || k == CustomName {
      NoMessagesFor(TypeFailures(tag, d), k);
    } else if tag == "conditional" {
      ConditionalSlots(d, k);
    } else if tag == "api" {
      ApiSlots(d, k);
    }
  }

  /**
   * The node's failures record, in every slot but the per-entry form slots,
   * exactly the verdict of that slot's rule for the node's type.
   */
  lemma NodeSlots(n: Node, k: ErrorKey)
    requires k != FieldName && k != FieldLabel
    ensures MessagesFor(NodeFailures(n), k) == SlotVerdict(n, k).ToSeq()
  {
    if n.data.Some? {
      var d := n.data.value;
      var tag := Tag(n.kind);
      var v := KindVerdict(tag, d, CustomName);
      var named := if HasCustomName(tag) then Collect(CustomName, v) else [];
      assert NodeFailures(n) == named + TypeFailures(tag, d);
      MessagesForAppend(named, TypeFailures(tag, d), k);
      CollectMessages(CustomName, v, k);
      TypeSlots(tag, d, k);
    }
  }

  /**
   * `validateNodes` runs each type's rules: outside the per-entry form slots,
   * a failing rule always gives the node a record, and the record's slot holds
   * exactly that rule's message ("" when the rule passes or does not apply).
   */
  lemma ValidateNodeSlots(n: Node, k: ErrorKey)
    requires k != FieldName && k != FieldLabel
    ensures SlotVerdict(n, k).Some? ==> ValidateNode(n).Some?
    ensures ValidateNode(n).Some? ==> ValidateNode(n).value.error.Get(k) == SlotVerdict(n, k).ValueOr("")
  {
    NodeSlots(n, k);
    var fs := NodeFailures(n);
    if fs != [] {
      AccumulateSlots(fs, k);
    }
  }

  /** No type runs the per-entry form rules as a slot rule of the node itself. */
  lemma EntrySlotsUnchecked(n: Node)
    ensures SlotVerdict(n, FieldName) == None && SlotVerdict(n, FieldLabel) == None
  {
    if n.data.Some? {
      assert !ChecksSlot(Tag(n.kind), FieldName) && !ChecksSlot(Tag(n.kind), FieldLabel);
    }
  }

  /** A node of any type but form gets a record iff some slot's rule fails. */
  lemma NonFormRecordIff(n: Node)
    requires Tag(n.kind) != "form"
    ensures ValidateNode(n).None? <==> forall k :: SlotVerdict(n, k).None?
  {
    var fs := NodeFailures(n);
    if fs != [] {
      var k := fs[0].key;
      FailureKeysByKind(n);
      assert fs[0] in fs;
      NodeSlots(n, k);
      MessagesForEmpty(fs, k);
    }
    EntrySlotsUnchecked(n);
    forall k | SlotVerdict(n, k).Some?
      ensures ValidateNode(n).Some?
    {
      assert k != FieldName && k != FieldLabel;
      ValidateNodeSlots(n, k);
    }
  }

  /**
   * A form node with no fields reports "At least one field is required" in its
   * fieldName slot and nothing in fieldLabel, whatever its name.
   */
  lemma FormWithoutFields(n: Node)
    requires Tag(n.kind) == "form" && n.data.Some?
    requires n.data.value.fields.None? || n.data.value.fields.value == []
    ensures ValidateNode(n).Some?
    ensures ValidateNode(n).value.error.Get(FieldName) == NoFieldsMessage
    ensures ValidateNode(n).value.error.Get(FieldLabel) == ""
  {
    var d := n.data.value;
    var named := Check(CustomName, d.customName.ValueOr(""), Context(Some("form"), None));
    assert FormFailures(d) == [Failure(FieldName, NoFieldsMessage)];
    assert NodeFailures(n) == named + [Failure(FieldName, NoFieldsMessage)];
    NameThenLastSlots(named, NoFieldsMessage);
  }

  /** Name failures followed by one fieldName failure fill fieldName with that message only. */
  lemma NameThenLastSlots(named: seq<Failure>, msg: string)
    requires msg != ""
    requires forall f :: f in named ==> f.key == CustomName && f.message != ""
    ensures Accumulate(named + [Failure(FieldName, msg)]).Get(FieldName) == msg
    ensures Accumulate(named + [Failure(FieldName, msg)]).Get(FieldLabel) == ""
  {
    var fs := named + [Failure(FieldName, msg)];
    assert fs[..|fs| - 1] == named;
    assert forall i :: 0 <= i < |named| ==> named[i] in named;
    MessagesForEmpty(named, FieldName);
    MessagesForEmpty(named, FieldLabel);
    assert MessagesFor(fs, FieldName) == [msg];
    assert MessagesFor(fs, FieldLabel) == [];
    AccumulateSlots(fs, FieldName);
    AccumulateSlots(fs, FieldLabel);
  }

  /**
   * Every field is checked for entry check `k` (name or label): from any
   * earlier position on, field `j` reports a failure in slot `k` iff its rule
   * fails, and the message is "Field j+1 name: " (or "label: ") + the rule's.
   */
  lemma FormFieldEntryFailures(fields: seq<FormField>, i: nat, j: nat, k: ErrorKey)
    requires i <= j < |fields|
    requires IsEntryKey(k)
    ensures EntryError(fields[j], k).Some? ==>
      Failure(k, FieldPrefix(j, EntryWhat(k)) + EntryError(fields[j], k).value) in FormFieldFailures(fields, i)
    ensures EntryError(fields[j], k).None? ==>
      forall m :: Failure(k, FieldPrefix(j, EntryWhat(k)) + m) !in FormFieldFailures(fields, i)
  {
    EntryFailureReported(fields, i, j, k);
    forall m | Failure(k, FieldPrefix(j, EntryWhat(k)) + m) in FormFieldFailures(fields, i)
      ensures EntryError(fields[j], k).Some?
    {
      PrefixedFailureOwner(fields, i, j, k, m);
    }
  }

  /** A failure carrying field `j`'s prefix can only come from field `j`, whose rule therefore fails. */
  lemma PrefixedFailureOwner(fields: seq<FormField>, i: nat, j: nat, k: ErrorKey, m: string)
    requires i <= j < |fields|
    requires IsEntryKey(k)
    requires Failure(k, FieldPrefix(j, EntryWhat(k)) + m) in FormFieldFailures(fields, i)
    ensures EntryError(fields[j], k).Some?
  {
    EntryFailuresFrom(fields, i, k);
    var p :| i <= p < |fields| && EntryError(fields[p], k).Some?
      && FieldPrefix(j, EntryWhat(k)) + m == FieldPrefix(p, EntryWhat(k)) + EntryError(fields[p], k).value;
    if p != j {
      FieldPrefixInjective(p, j, EntryWhat(k), EntryError(fields[p], k).value, m);
    }
  }

  /** A failing entry check is reported by the fields from any earlier position on. */
  lemma {:induction false} EntryFailureReported(fields: seq<FormField>, i: nat, j: nat, k: ErrorKey)
    requires i <= j < |fields|
    requires IsEntryKey(k)
    ensures EntryError(fields[j], k).Some? ==>
      Failure(k, FieldPrefix(j, EntryWhat(k)) + EntryError(fields[j], k).value) in FormFieldFailures(fields, i)
    decreases j - i
  {
    var head := EntryFailures(i, NameError(fields[i]), LabelError(fields[i]));
    assert FormFieldFailures(fields, i) == head + FormFieldFailures(fields, i + 1);
    if i < j {
      EntryFailureReported(fields, i + 1, j, k);
    }
  }

  /** Every failure in slot `k` from position `i` on belongs to a field at or after `i` whose check `k` fails. */
  lemma {:induction false} EntryFailuresFrom(fields: seq<FormField>, i: nat, k: ErrorKey)
    requires i <= |fields|
    requires IsEntryKey(k)
    ensures forall x :: x in FormFieldFailures(fields, i) && x.key == k ==>
      exists p :: i <= p < |fields| && EntryError(fields[p], k).Some?
        && x.message == FieldPrefix(p, EntryWhat(k)) + EntryError(fields[p], k).value
    decreases |fields| - i
  {
    if i < |fields| {
      var head := EntryFailures(i, NameError(fields[i]), LabelError(fields[i]));
      var tail := FormFieldFailures(fields, i + 1);
      assert FormFieldFailures(fields, i) == head + tail;
      EntryFailuresFrom(fields, i + 1, k);
      forall x: Failure | x in head + tail && x.key == k
        ensures exists p :: (i <= p < |fields| && EntryError(fields[p], k).Some?
                             && x.message == FieldPrefix(p, EntryWhat(k)) + EntryError(fields[p], k).value)
      {
        if x in head {
          assert EntryError(fields[i], k).Some? && x.message == FieldPrefix(i, EntryWhat(k)) + EntryError(fields[i], k).value;
        }
      }
    }
  }

  /** Different field positions have different message prefixes. */
  lemma FieldPrefixInjective(i: nat, j: nat, what: string, x: string, y: string)
    requires i != j
    ensures FieldPrefix(i, what) + x != FieldPrefix(j, what) + y
  {
    if FieldPrefix(i, what) + x == FieldPrefix(j, what) + y {
      DecimalRoundTrip(i + 1);
      DecimalRoundTrip(j + 1);
      DigitsThenSpace(NatToString(i + 1), NatToString(j + 1), what, x, y);
    }
  }

  /** Two digit strings followed by a space and text can only render equally if the digits agree. */
  lemma DigitsThenSpace(a: string, b: string, what: string, x: string, y: string)
    requires forall i :: 0 <= i < |a| ==> IsDigit(a[i])
    requires forall i :: 0 <= i < |b| ==> IsDigit(b[i])
    requires "Field " + a + " " + what + ": " + x == "Field " + b + " " + what + ": " + y
    ensures a == b
  {
    var ra := " " + what + ": " + x;
    var rb := " " + what + ": " + y;
    var s := "Field " + (a + ra);
    var t := "Field " + (b + rb);
    assert s == "Field " + a + " " + what + ": " + x;
    assert t == "Field " + b + " " + what + ": " + y;
    assert s[6..] == a + ra;
    assert t[6..] == b + rb;
    DigitRunOf(a, ra);
    DigitRunOf(b, rb);
    assert (a + ra)[..|a|] == a;
    assert (b + rb)[..|b|] == b;
  }

  /** The source's `validateNodes`: one record per node with a failure, in node order. */
  function ValidateNodes(nodes: seq<Node>): (r: seq<NodeError>)
    ensures |r| <= |nodes|
    ensures r == [] <==> forall i :: 0 <= i < |nodes| ==> NodeFailures(nodes[i]) == []
    ensures forall e :: e in r ==> exists i :: 0 <= i < |nodes| && ValidateNode(nodes[i]) == Some(e)
  {
    FilterMap(nodes, ValidateNode)
  }

  /** Records keep node order: the records of a concatenation are the concatenated records. */
  lemma ValidateNodesAppend(a: seq<Node>, b: seq<Node>)
    ensures ValidateNodes(a + b) == ValidateNodes(a) + ValidateNodes(b)
  {
    FilterMapAppend(a, b, ValidateNode);
  }
}
