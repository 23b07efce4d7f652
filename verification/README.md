# Workflow editor validation and auto-save, in Dafny

This project models the validation and auto-save core of a visual workflow
editor. A workflow is a graph of typed nodes (`start`, `form`, `conditional`,
`api`, `end`) joined by edges. The core has three parts:

- **Structural validation** (`validateWorkflow`). It builds an undirected
  adjacency map and checks each node against a per-type minimum number of
  distinct neighbours. It also requires exactly one start node and exactly one
  end node.
- **Configuration validation** (`validateNodes`, `validateField`,
  `validateOnBlur`). A per-field rule table is applied according to the node's
  type. Every failure is collected into a per-node record with one message
  slot per field. Several messages in one slot are joined with `" | "`.
- **Auto-save** (`useAutoSave`). A debounced save with a minimum "saving"
  time, a transient "saved" display and an error state. The React effect and
  its timers are modelled as a state machine over a logical clock.

The string helpers `capitalize` and `pluralize` that word the messages are
modelled as well.

Modules, one per file:

| file | module | contents |
|---|---|---|
| `wrappers.dfy` | `Wrappers` | `Option`, and `FilterMap`, the "push when present" loop both validators use |
| `text.dfy` | `Text` | the JavaScript string built-ins the core relies on, with their laws: `trim` over the ECMAScript white-space set, ASCII `toUpperCase`/`toLowerCase`, decimal rendering of counts |
| `helpers.dfy` | `Helpers` | `capitalize`, `pluralize` |
| `workflow.dfy` | `Workflow` | nodes, edges, node kinds, `ValidationError`, `buildError` |
| `graph_validation.dfy` | `GraphValidation` | `minConnections`, `buildUndirectedAdjacencyMap`, `validateNodeConnectionRequirements`, `validateWorkflow` |
| `field_validation.dfy` | `FieldValidation` | `validateField`, `validateOnBlur` |
| `node_validation.dfy` | `NodeValidation` | `DEFAULT_NODE_ERRORS`, `appendMessage`, `validateNodes` |
| `autosave.dfy` | `AutoSave` | the effect of `useAutoSave` as a state machine |

How the model is built:

- **Node types.** A node's type is a `NodeKind`. A type outside the five known
  ones is `Custom(tag)`. Every decision goes through `Tag(kind)`, the string
  the source compares.
- **Node data.** A node's data is a record of optional fields. `data: None`
  stands both for missing data and for an object without keys; the source
  skips both kinds of node.
- **Node failures.** `validateNodes` is split in two. `NodeFailures` lists a
  node's failed checks in the order the source performs them. `Accumulate`
  folds those failures through `appendMessage`.
- **Slot verdicts.** `SlotVerdict(n, k)` is what slot `k` of node `n` must
  hold, stated without the failure list. It is the verdict of the rule for
  `k` on the node's value for `k`, in the node's type context, when the
  node's type runs that rule (`ChecksSlot`). Otherwise it is nothing.
  `ValidateNodeSlots` ties the record to it slot by slot. The per-entry form
  slots `fieldName` and `fieldLabel` have their own lemmas instead.
- **`validateOnBlur`** is `FieldValidation.ValidateOnBlur`. It hands its
  arguments to `ValidateField` unchanged, so every property proved for
  `ValidateField` holds for it too.
- **Auto-save events.** The state machine has five events:
  - `Change(props)` is a run of the effect; React runs it when an input
    changed.
  - `Teardown` is the unmount cleanup.
  - `Wait(ms)` lets time pass but never beyond a pending timer.
  - `Fire(writeOk)` runs the earliest pending timer. Its flag says whether the
    storage write succeeds or throws.
  - `SetStatus(s)` is the setter the hook returns.
- **Storage.** Storage is a map from keys to snapshots `(nodes, edges,
  savedAt)`.

Three behaviours of the code are easy to misread, and the model keeps them as
the code has them:

- **Self-loops count.** An edge `(u, u)` between existing nodes puts `u` in
  its own neighbour set, so it counts as one connection
  (`GraphValidation.SelfLoopCounts`).
- **`lastSaved` is set late.** `lastSaved` is set to the write's time only
  when the 500 ms timer fires and the state becomes "saved". A change arriving
  within those 500 ms cancels that timer. The write then stays in storage,
  the state stays "saving", and `lastSaved` does not move
  (`AutoSave.ChangeDuringSaving`).
- **A change cancels every timer.** Every change cancels all three timers at
  once, through the effect cleanup, and leaves the state as it is
  (`AutoSave.ChangeCancels`).

## Model

| member | source | states |
|---|---|---|
| Wrappers.FilterMap | src/utils/validation.ts:89-105 | the errors collected per element are fewer than the elements; none at all iff every element passes; each one comes from some element |
| Wrappers.FilterMapAppend | src/utils/validation.ts:137-239 | collecting over a concatenation concatenates the collections: output follows input order |
| Text.TrimStart | src/utils/validation.ts:257 | the result is a suffix; everything cut is white space; the result does not start with white space |
| Text.TrimEnd | src/utils/validation.ts:257 | the result is a prefix; everything cut is white space; the result does not end with white space |
| Text.TrimIsInfix | src/utils/validation.ts:257 | `trim` returns an infix with white space on both sides of it, and the result itself has none at either end |
| Text.TrimEmptyIffAllWhitespace | src/utils/validation.ts:262 | a value trims to "" exactly when it is all white space (the rules' "is required" condition) |
| Text.TrimIdempotent | src/utils/validation.ts:257 | trimming twice is trimming once |
| Text.TrimToLower | src/utils/validation.ts:310 | trimming and lower-casing commute |
| Text.UpperOfLower | src/utils/validation.ts:310 | upper-casing a lower-cased string is upper-casing the original |
| Text.ToUpper | src/utils/helpers.ts:5 | upper-casing keeps the length and maps each character on its own |
| Text.ToLower | src/utils/helpers.ts:5 | lower-casing keeps the length and maps each character on its own |
| Text.NatToString | src/utils/validation.ts:100 | the decimal rendering of a count is non-empty, all digits, with no leading zero |
| Text.DecimalRoundTrip | src/utils/validation.ts:175 | reading the rendered digits back gives the number |
| Text.DigitRunOf | src/utils/validation.ts:175 | the digit run at the start of digits followed by a non-digit is exactly those digits |
| Helpers.Capitalize | src/utils/helpers.ts:1-6 | the empty string stays empty; the first character is upper-cased and every later one lower-cased; the length is kept |
| Helpers.CapitalizeFixpoint | src/utils/helpers.ts:1-6 | `capitalize` leaves a string unchanged iff its first letter is not lower-case and no later letter is upper-case |
| Helpers.CapitalizeIdempotent | src/utils/helpers.ts:1-6 | capitalizing twice is capitalizing once |
| Helpers.Pluralize | src/utils/helpers.ts:8-13 | the singular for a count of 1; otherwise the plural when it is given and non-empty, else the singular plus "s" |
| Helpers.PluralizeDefault | src/utils/helpers.ts:12 | without a plural the result is the singular with at most one "s" added |
| Workflow.KindOf | src/utils/validation.ts:153 | reading a type string gives a kind with that tag |
| Workflow.KindTagRoundTrip | src/utils/validation.ts:153 | a kind's tag reads back to the same kind |
| GraphValidation.RequiredDegreeByKind | src/utils/validation.ts:60-66 | the minimum degree per kind: start 1, form 2, conditional 3, api 2, end 1, and 1 for any unknown type |
| GraphValidation.BuildAdjacency | src/utils/validation.ts:72-73 | the adjacency map has an entry for every node id and for no other key |
| GraphValidation.AddEdgeNeighbours | src/utils/validation.ts:74-78 | one edge adds each endpoint to the other's set when both exist, and adds nothing otherwise |
| GraphValidation.AdjacencyMatchesEdges | src/utils/validation.ts:68-80 | `v` is in `u`'s set iff some edge between two existing nodes joins `u` and `v`, in either direction |
| GraphValidation.LinkedSnoc | src/utils/validation.ts:74 | an edge appended to the list adds only its own link |
| GraphValidation.AdjacencySymmetric | src/utils/validation.ts:76-77 | neighbours are node ids, and `v` is a neighbour of `u` iff `u` is a neighbour of `v` |
| GraphValidation.SelfLoopCounts | src/utils/validation.ts:76-77 | a self-loop on an existing node makes the node its own neighbour |
| GraphValidation.DanglingEdgeIgnored | src/utils/validation.ts:75 | an edge with an unknown endpoint leaves the adjacency map unchanged |
| GraphValidation.DegreeIsNeighbourCount | src/utils/validation.ts:90 | a node's degree is its number of distinct neighbours |
| GraphValidation.MissingMessageWording | src/utils/validation.ts:100 | the word is "connection" iff the count is 1, which is `pluralize`'s rule |
| GraphValidation.ConnectivityMessagesDistinct | src/utils/validation.ts:93-100 | a "not connected" message never equals a "missing" message |
| GraphValidation.ConnectionError | src/utils/validation.ts:89-104 | a node gets no error iff it is connected and has at least its required degree; the error, built by `buildError`, has severity error and carries the node's id |
| GraphValidation.ConnectionErrorChoice | src/utils/validation.ts:92-104 | degree 0 gives "not connected" and never "missing"; otherwise the message is "missing N" with N the shortfall |
| GraphValidation.MissingAtMostTwo | src/utils/validation.ts:96-97 | under the source's table a connected node is never short of more than two connections |
| GraphValidation.ConnectionErrors | src/utils/validation.ts:82-108 | at most one error per node, each with a node id; no errors iff every node meets its requirement |
| GraphValidation.ConnectionErrorsAppend | src/utils/validation.ts:89 | errors follow node order |
| GraphValidation.NodesOfTag | src/utils/validation.ts:113 | the filter keeps only nodes of that type, and every node of that type is kept |
| GraphValidation.NodesOfTagCounts | src/utils/validation.ts:113 | each node of that type is kept as often as it occurs, and no other node is kept |
| GraphValidation.NodesOfTagAppend | src/utils/validation.ts:113 | the filter keeps input order: filtering a concatenation concatenates the filtered parts |
| GraphValidation.FirstOfTag | src/utils/validation.ts:117 | the first node of a type is the earliest node of that type in input order |
| GraphValidation.RoleErrors | src/utils/validation.ts:113-118 | at most one start (or end) error, and none iff there is exactly one such node |
| GraphValidation.ConnectionMessageNotRole | src/utils/validation.ts:93-100 | a connectivity message is never a start or end message |
| GraphValidation.ConnectionErrorsNotRole | src/utils/validation.ts:127-129 | no connectivity error carries a start or end message |
| GraphValidation.MeetsRequirementIffNeighbours | src/utils/validation.ts:90-96 | the check on the adjacency map agrees with counting distinct neighbours |
| GraphValidation.ConnectionErrorsIffNeighbours | src/utils/validation.ts:127-128 | no connectivity errors iff every node has enough distinct neighbours |
| GraphValidation.ValidWorkflowIff | src/utils/validation.ts:110-132 | no structural errors iff there is one start node, one end node, and every node has enough distinct neighbours |
| GraphValidation.ErrorLayout | src/utils/validation.ts:110-132 | in start + end + connectivity errors, start and end messages form a prefix at fixed positions |
| GraphValidation.WorkflowLayout | src/utils/validation.ts:110-132 | a start message can only be first, an end message only right after the start error |
| GraphValidation.RoleErrorsFirst | src/utils/validation.ts:113-129 | no start or end error follows a connectivity error |
| GraphValidation.StartRule | src/utils/validation.ts:113-118 | no start node gives the id-less "must have one Start block" first; several give "must have exactly one Start block" on the first start node; one gives none |
| GraphValidation.EndRule | src/utils/validation.ts:120-125 | the same rule for end nodes, placed right after any start error |
| FieldValidation.ParseField | src/utils/validation.ts:259 | a recognised field name selects the rule of that name |
| FieldValidation.ParseFieldRoundTrip | src/utils/validation.ts:259-318 | each of the eight names selects its own rule, and only those names select one |
| FieldValidation.ValidateField | src/utils/validation.ts:252-319 | an error message is never empty; an unknown field always passes |
| FieldValidation.WhitespaceInsensitive | src/utils/validation.ts:257 | surrounding white space never changes a verdict |
| FieldValidation.UnknownFieldPasses | src/utils/validation.ts:316-317 | a field name outside the table passes whatever the value |
| FieldValidation.CustomNameRule | src/utils/validation.ts:261-272 | passes iff the trimmed value has at least 3 characters; "is required" iff blank; the wording says Condition exactly for conditional nodes and Form otherwise |
| FieldValidation.FieldNameRule | src/utils/validation.ts:275-280 | passes iff the trimmed value is an identifier of at least 2 characters, with the three messages in the source's order |
| FieldValidation.FieldLabelRule | src/utils/validation.ts:281-284 | passes iff the trimmed value has at least 2 characters, with the two messages |
| FieldValidation.ConditionalRules | src/utils/validation.ts:287-298 | fieldToEvaluate and operator fail only when blank on a conditional node; value also needs an operator other than `is_empty` |
| FieldValidation.UrlRule | src/utils/validation.ts:301-306 | only api nodes are checked; there the value must match `^https?://.+` |
| FieldValidation.MethodRule | src/utils/validation.ts:307-314 | only api nodes are checked; there the upper-cased value must be GET, POST, PUT or DELETE |
| FieldValidation.SameUpperSameMethodVerdict | src/utils/validation.ts:310 | two values with the same upper-case form get the same method verdict |
| FieldValidation.MethodCaseInsensitive | src/utils/validation.ts:310 | the method check ignores letter case |
| FieldValidation.ContextFreeRules | src/utils/validation.ts:261-284 | whether customName, fieldName and fieldLabel pass does not depend on the context |
| NodeValidation.AppendMessage | src/utils/validation.ts:142-145 | an empty message changes nothing; otherwise only slot `k` changes, to the message or the old text + " \| " + message |
| NodeValidation.EntryFailures | src/utils/validation.ts:169-186 | a form field contributes only name and label failures: a name failure iff its name fails, as "Field i name: …", and a label failure iff its label fails, as "Field i label: …" |
| NodeValidation.FormFieldFailures | src/utils/validation.ts:169-186 | the failures of all form fields are name or label failures with non-empty messages |
| NodeValidation.FormFailures | src/utils/validation.ts:163-187 | a form node's own checks fill only the fieldName and fieldLabel slots |
| NodeValidation.TypeFailures | src/utils/validation.ts:163-225 | the type-specific checks fill only the node type's own slots, never customName, with non-empty messages, and run only for form, conditional and api nodes |
| NodeValidation.ConditionalVerdicts | src/utils/validation.ts:188-211 | a conditional node checks fieldToEvaluate, operator and value, in that order, each with its own rule, and value in the context of the node's operator |
| NodeValidation.ConditionalSlots | src/utils/validation.ts:188-211 | a conditional node's own checks leave in fieldToEvaluate, operator and value exactly the message of that field's rule (nothing when it passes), and nothing in url, method, fieldName or fieldLabel |
| NodeValidation.ApiSlots | src/utils/validation.ts:212-225 | an api node's own checks leave in url and method exactly the message of that field's rule (nothing when it passes), and nothing in the conditional or form slots |
| NodeValidation.TypeSlots | src/utils/validation.ts:163-225 | outside the form entry slots, the type-specific checks leave nothing in customName and in every other slot exactly the verdict of that slot's rule for the node's type |
| NodeValidation.NodeSlots | src/utils/validation.ts:149-225 | outside the form entry slots, each slot collects exactly the verdict of its rule: customName is checked for form, conditional and api nodes, the type's own fields for conditional and api; a node without data, or of another type, collects nothing |
| NodeValidation.ValidateNodeSlots | src/utils/validation.ts:134-238 | outside the form entry slots, a failing rule always gives the node a record, and the record's slot holds exactly that rule's message, or "" when the rule passes or the node's type does not run it |
| NodeValidation.EntrySlotsUnchecked | src/utils/validation.ts:163-187 | no node type runs the fieldName or fieldLabel rule on the node as a whole; those slots are left to the per-entry form checks |
| NodeValidation.NonFormRecordIff | src/utils/validation.ts:147-238 | a node of any type but form gets a record iff at least one slot rule fails for it |
| NodeValidation.FieldByName | src/utils/validation.ts:252-319 | calling the rule table by a slot's field name runs exactly that slot's rule |
| NodeValidation.MessagesForEmpty | src/utils/validation.ts:142-145 | a slot gets no message iff no failure is recorded for it |
| NodeValidation.AccumulateSlots | src/utils/validation.ts:138-145 | each slot of the record is its messages, in order, joined with " \| " |
| NodeValidation.SlotFilledIff | src/utils/validation.ts:142-145 | a slot is non-empty iff some failure was recorded in it |
| NodeValidation.FirstFilled | src/utils/validation.ts:228-229 | picks the first non-empty slot in key order, and picks none only when all are empty |
| NodeValidation.ValidateNode | src/utils/validation.ts:227-238 | a node gets a record iff one of its checks failed |
| NodeValidation.ValidateNodeRecord | src/utils/validation.ts:134-242 | the record carries the node's id; every slot is the join of its messages; the filled slots are exactly the failing fields; the message is the first filled slot in key order |
| NodeValidation.UnconfiguredNodeSkipped | src/utils/validation.ts:149-151 | a node without data gets no record |
| NodeValidation.FailureKeysByKind | src/utils/validation.ts:153-225 | form, conditional and api nodes fill only their own slots, and other types are never reported |
| NodeValidation.FormWithoutFields | src/utils/validation.ts:165-167 | a form without fields reports "At least one field is required" as fieldName and nothing as fieldLabel |
| NodeValidation.NameThenLastSlots | src/utils/validation.ts:156-167 | name failures followed by one fieldName failure leave exactly that message in fieldName |
| NodeValidation.FormFieldEntryFailures | src/utils/validation.ts:169-185 | every field is checked for both name and label; field j reports a failure in a slot iff that rule fails, as "Field j+1 name: " or "Field j+1 label: " + the rule's message |
| NodeValidation.PrefixedFailureOwner | src/utils/validation.ts:174-184 | a failure carrying field j's prefix can only come from field j |
| NodeValidation.EntryFailureReported | src/utils/validation.ts:169-185 | a failing name or label is reported whatever failures come before it |
| NodeValidation.EntryFailuresFrom | src/utils/validation.ts:169-185 | every name (or label) failure belongs to a field whose name (or label) fails |
| NodeValidation.FieldPrefixInjective | src/utils/validation.ts:175 | messages of different fields have different prefixes |
| NodeValidation.DigitsThenSpace | src/utils/validation.ts:175 | the field number can be read back from "Field N …" |
| NodeValidation.ValidateNodes | src/utils/validation.ts:134-242 | at most one record per node; no records iff no node has a failed check; every record is some node's record |
| NodeValidation.ValidateNodesAppend | src/utils/validation.ts:137 | records follow node order |
| AutoSave.ToInt32 | src/components/hooks/useAutoSave.tsx:80 | a timer delay wraps into the signed 32-bit range and keeps its value modulo 2^32 |
| AutoSave.Delay | src/components/hooks/useAutoSave.tsx:22 | 2000 ms when no delay is given; a delay that fits in 31 bits is used as is; a 32-bit negative one counts as 0; other values wrap modulo 2^32 first |
| AutoSave.DelayWraps | src/components/hooks/useAutoSave.tsx:80 | delays from 2^31 to 2^32 - 1 wrap negative and count as 0 |
| AutoSave.Init | src/components/hooks/useAutoSave.tsx:24-26 | the hook starts idle, never saved, with the first-render flag set |
| AutoSave.Cleanup | src/components/hooks/useAutoSave.tsx:82-88 | cleanup cancels all three timers and changes nothing else |
| AutoSave.NextDue | src/components/hooks/useAutoSave.tsx:41-80 | the next firing time is the due time of a pending timer (the debounce's whenever it is pending), never later than any pending timer and never before the clock; none only when no timer is pending |
| AutoSave.StepInv | src/components/hooks/useAutoSave.tsx:31-89 | every event keeps the timer invariant and never moves the clock back |
| AutoSave.RunInv | src/components/hooks/useAutoSave.tsx:31-89 | every event sequence keeps the timer invariant |
| AutoSave.FirstActivation | src/components/hooks/useAutoSave.tsx:33-36 | the first effect run only clears the first-render flag and arms nothing |
| AutoSave.DebounceBlocked | src/components/hooks/useAutoSave.tsx:43-49 | with validation errors the debounce gives "error": no write, `lastSaved` unchanged, nothing pending |
| AutoSave.DebounceSaves | src/components/hooks/useAutoSave.tsx:51-76 | without errors the debounce gives "saving", writes (nodes, edges, now) under the key, and arms the 500 ms and the 2000 ms timers |
| AutoSave.WriteFails | src/components/hooks/useAutoSave.tsx:77-79 | a write that throws gives "error" with storage and `lastSaved` unchanged and nothing pending |
| AutoSave.MinSavingFires | src/components/hooks/useAutoSave.tsx:63-74 | 500 ms after the write: "saved", `lastSaved` = the write's time, and the single idle timer now due 2000 ms later |
| AutoSave.IdleFires | src/components/hooks/useAutoSave.tsx:68-72 | the idle timer that fires is always the replacement one, 2500 ms after the write; it gives "idle" |
| AutoSave.ChangeCancels | src/components/hooks/useAutoSave.tsx:82-89 | a later change cancels the other timers and re-arms the debounce, leaving state, `lastSaved` and storage alone |
| AutoSave.LatestChangeWins | src/components/hooks/useAutoSave.tsx:82-89 | of two changes in a row only the later one acts |
| AutoSave.QuietKeepsState | src/components/hooks/useAutoSave.tsx:82-89 | changes, teardown and waiting never change the state, `lastSaved` or storage |
| AutoSave.ChangeDuringSaving | src/components/hooks/useAutoSave.tsx:63-88 | a change during "saving" keeps "saving" and the write, and `lastSaved` does not move |
| AutoSave.TeardownQuiescent | src/components/hooks/useAutoSave.tsx:82-88 | after teardown no timer event changes state, `lastSaved` or storage |
| AutoSave.AfterTeardown | src/components/hooks/useAutoSave.tsx:82-88 | with nothing pending, waits and timer events leave everything but the clock alone |
| AutoSave.SaveCycle | src/components/hooks/useAutoSave.tsx:41-80 | a clean change at t with delay D is "saving" at t + D, "saved" at t + D + 500 with `lastSaved` = t + D, and "idle" at t + D + 2500 |
| AutoSave.SavingIffClean | src/components/hooks/useAutoSave.tsx:43-51 | the debounce gives "saving" iff both error lists are empty and the write works |
| AutoSave.SavesOnlyValidGraphs | src/components/hooks/useAutoSave.tsx:43-60 | a graph is written only when both of its validations pass and the write works |

## Left out

- Error ids (`generateErrorId`, the `id` of every error record): they come from a global counter and the current time, so records are compared without them.
- `generateId`: it draws random numbers and no validation or save decision depends on it.
- Browser storage, JSON serialisation and `Date.toISOString`: the store is a map from keys to snapshots, and the save time is the logical clock's value.
- The display components (status indicator and dialogs): they only render state.
- React itself: `useState`, `useRef` and `useEffect` become the machine's fields and events. Renders whose inputs did not change run no effect and are not events. React compares inputs by reference; a `Change` event stands for an effect run, whatever the comparison.
- React's development-mode double effect run, and browser timer clamping and timer drift: timers fire exactly at their due time, in due order.
- Renders after unmount: the model does not forbid events after `Teardown`, and it proves nothing about them beyond `AutoSave.TeardownQuiescent`.
- Fractional or non-numeric delays and counts: `debounceMs` is an integer, so the truncation of fractions is not modelled. The `pluralize` count is an integer too, so NaN and fractions are not modelled.
- Text.ToUpperChar: case mapping covers ASCII letters only, while JavaScript's `toUpperCase`/`toLowerCase` map all of Unicode (and can change a string's length).
- Helpers.Capitalize: inherits the ASCII-only case mapping of Text.ToUpperChar.
- The untyped node payload: every data key is an optional string (or, for `fields`, an optional list), so non-string values in the payload are not modelled. An edge's handles and other `@xyflow/react` fields are not modelled either.
- Text.ToLower: case mapping covers ASCII letters only, as for Text.ToUpperChar.
- FieldValidation.ValidateField: lengths count characters (Unicode code points), while JavaScript's `length` counts UTF-16 code units. A character outside the Basic Multilingual Plane counts 1 here and 2 in the source, so for example a one-emoji label fails the 2-character minimum here but passes in the source.
- FieldValidation.CustomNameRule: its minimum length counts code points, not UTF-16 code units (see FieldValidation.ValidateField).
- FieldValidation.FieldNameRule: its minimum length counts code points, not UTF-16 code units.
- FieldValidation.FieldLabelRule: its minimum length counts code points, not UTF-16 code units.
- GraphValidation.BuildAdjacency: the source's adjacency map is a plain object (`{}`), and the model treats it as a true map. Ids that name an inherited member of `Object.prototype` (`constructor`, `toString`, `hasOwnProperty`, `__proto__`, …) behave differently in the source. An edge to such an id that is not a node passes the existence guard there, and the `add` call then throws. A node with id `__proto__` replaces the object's prototype instead of adding a key. The model treats all of these ids like any other.
- GraphValidation.DanglingEdgeIgnored: holds in the source only for endpoints that are not inherited `Object.prototype` member names (see GraphValidation.BuildAdjacency).
