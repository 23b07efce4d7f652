/**
 * The auto-save hook as a discrete state machine over a logical clock.
 *
 * The hook's effect runs on every render whose inputs changed. It skips the
 * very first run. On later runs it arms a debounce timer. When that timer
 * fires, the graph is written to storage unless there are validation errors.
 * The indicator then shows "saving" for a minimum time, then "saved" for a
 * fixed time, then "idle". Re-running the effect, or unmounting, first cancels
 * every timer the previous run armed.
 *
 * Here React's effect runs become `Change` events and unmounting becomes
 * `Teardown`. Time passes by `Wait`, which can never step over a pending
 * timer. `Fire` runs the earliest pending timer; its flag says whether the
 * storage write succeeds. `SetStatus` is the setter the hook hands out.
 */
module AutoSave {
  import opened Wrappers
  import opened Workflow
  import opened GraphValidation
  import opened NodeValidation

  /** The save indicator's state. */
  datatype Status = Idle | Saving | Saved | Error

  /** How long "saving" stays on screen at least. */
  const MinSavingMs: nat := 500
  /** How long "saved" stays on screen before "idle". */
  const SavedDisplayMs: nat := 2000
  /** The delay of the saved→idle timer armed together with the write. */
  const ProvisionalIdleMs: nat := 2000
  /** The debounce delay when the caller gives none. */
  const DefaultDebounceMs: nat := 2000

  const TwoTo31: int := 0x8000_0000
  const TwoTo32: int := 0x1_0000_0000

  /** The hook's inputs: the graph, the current validation results, the storage key and the delay. */
  datatype Props = Props(
    nodes: seq<Node>, edges: seq<Edge>,
    workflowErrors: seq<ValidationError>, nodeErrors: seq<NodeError>,
    storageKey: string, debounceMs: Option<int>)

  /** What one write puts in storage; `savedAt` is the logical time of the write. */
  datatype Snapshot = Snapshot(nodes: seq<Node>, edges: seq<Edge>, savedAt: nat)

  /** The pending debounce timer and the inputs of the effect run that armed it. */
  datatype Debounce = Debounce(due: nat, props: Props)

  /** The pending minimum-saving timer and the time of the write it belongs to. */
  datatype MinSaving = MinSaving(due: nat, savedAt: nat)

  /**
   * The hook's whole state: the clock, the two state variables it exposes,
   * the first-render flag, the three timers of the current effect run (at most
   * one of each), and the storage it writes to.
   */
  datatype Machine = Machine(
    clock: nat, status: Status, lastSaved: Option<nat>, firstRender: bool,
    debounce: Option<Debounce>, minSaving: Option<MinSaving>, idleAt: Option<nat>,
    store: map<string, Snapshot>)

  datatype Event =
    | Change(props: Props)
    | Teardown
    | Wait(ms: nat)
    | Fire(writeOk: bool)
    | SetStatus(to: Status)

  /** A timer delay converted as a WebIDL `long`: reduced modulo 2^32 into the signed 32-bit range. */
  function ToInt32(v: int): (r: int)
    ensures -TwoTo31 <= r < TwoTo31
    ensures (v - r) % TwoTo32 == 0
  {
    var m := v % TwoTo32;
    if m >= TwoTo31 then m - TwoTo32 else m
  }

  /**
   * The debounce timer's delay: the default when none is given, otherwise the
   * 32-bit conversion, with a negative delay counting as 0.
   */
  function Delay(ms: Option<int>): (r: nat)
    ensures ms.None? ==> r == DefaultDebounceMs
    ensures ms.Some? && 0 <= ms.value < TwoTo31 ==> r == ms.value
    ensures ms.Some? && -TwoTo31 <= ms.value < 0 ==> r == 0
  {
    match ms
    case None => DefaultDebounceMs
    case Some(v) => var t := ToInt32(v); if t < 0 then 0 else t
  }

  /** The state at mount: idle, never saved, first render pending, no timers. */
  function Init(store: map<string, Snapshot>): (m: Machine)
    ensures m.status == Idle && m.lastSaved.None? && m.firstRender
    ensures m.store == store
    ensures Inv(m)
  {
    Machine(0, Idle, None, true, None, None, None, store)
  }

  predicate HasErrors(p: Props) {
    |p.workflowErrors| > 0 || |p.nodeErrors| > 0
  }

  /** What the effect's cleanup does: cancel every pending timer. */
  function Cleanup(m: Machine): (r: Machine)
    ensures r.debounce.None? && r.minSaving.None? && r.idleAt.None?
    ensures r.clock == m.clock && r.status == m.status && r.lastSaved == m.lastSaved
    ensures r.firstRender == m.firstRender && r.store == m.store
  {
    m.(debounce := None, minSaving := None, idleAt := None)
  }

  /**
   * An effect run with inputs `p`. The first one only clears the flag; every
   * later one cancels the previous run's timers and arms a fresh debounce.
   */
  function OnChange(m: Machine, p: Props): Machine {
    if m.firstRender then m.(firstRender := false)
    else Cleanup(m).(debounce := Some(Debounce(m.clock + Delay(p.debounceMs), p)))
  }

  /** The due time of the timer that fires next, if any is pending. */
  function NextDue(m: Machine): (r: Option<nat>)
    ensures Inv(m) && r.Some? ==> m.clock <= r.value
    ensures Inv(m) && m.debounce.Some? ==> r == Some(m.debounce.value.due)
    ensures Inv(m) && m.minSaving.Some? ==> r.Some? && r.value <= m.minSaving.value.due
    ensures Inv(m) && m.idleAt.Some? ==> r.Some? && r.value <= m.idleAt.value
    ensures r.None? <==> m.debounce.None? && m.minSaving.None? && m.idleAt.None?
    ensures r.Some? ==>
              || (m.debounce.Some? && r.value == m.debounce.value.due)
              || (m.minSaving.Some? && r.value == m.minSaving.value.due)
              || r == m.idleAt
  {
    if m.debounce.Some? then Some(m.debounce.value.due)
    else if m.minSaving.Some? then Some(m.minSaving.value.due)
    else m.idleAt
  }

  function Max(a: nat, b: nat): nat {
    if a < b then b else a
  }

  /** Time passes by `ms`, but never beyond the next pending timer. */
  function OnWait(m: Machine, ms: nat): Machine {
    var target := m.clock + ms;
    match NextDue(m)
    case Some(d) => m.(clock := if d < target then Max(m.clock, d) else target)
    case None => m.(clock := target)
  }

  /**
   * The debounce timer's callback at the current clock: errors give "error"
   * without a write; otherwise the graph is written, and a failed write gives
   * "error" while a successful one gives "saving" and arms the minimum-saving
   * timer and the provisional idle timer.
   */
  function FireDebounce(m: Machine, p: Props, writeOk: bool): Machine {
    var m1 := m.(debounce := None);
    if HasErrors(p) then m1.(status := Status.Error)
    else if !writeOk then m1.(status := Status.Error)
    else
      m1.(status := Saving,
          store := m.store[p.storageKey := Snapshot(p.nodes, p.edges, m.clock)],
          minSaving := Some(MinSaving(m.clock + MinSavingMs, m.clock)),
          idleAt := Some(m.clock + ProvisionalIdleMs))
  }

  /**
   * The minimum-saving timer's callback: "saved", the write's time becomes
   * `lastSaved`, and the idle timer is replaced by one a full display time away.
   */
  function FireMinSaving(m: Machine, s: MinSaving): Machine {
    m.(status := Saved, lastSaved := Some(s.savedAt), minSaving := None,
       idleAt := Some(m.clock + SavedDisplayMs))
  }

  /** Runs the earliest pending timer, moving the clock to its due time; nothing happens when none is pending. */
  function OnFire(m: Machine, writeOk: bool): Machine {
    if m.debounce.Some? then
      FireDebounce(m.(clock := Max(m.clock, m.debounce.value.due)), m.debounce.value.props, writeOk)
    else if m.minSaving.Some? then
      FireMinSaving(m.(clock := Max(m.clock, m.minSaving.value.due)), m.minSaving.value)
    else if m.idleAt.Some? then
      m.(clock := Max(m.clock, m.idleAt.value), status := Idle, idleAt := None)
    else m
  }

  function Step(m: Machine, e: Event): Machine {
    match e
    case Change(p) => OnChange(m, p)
    case Teardown => Cleanup(m)
    case Wait(ms) => OnWait(m, ms)
    case Fire(ok) => OnFire(m, ok)
    case SetStatus(s) => m.(status := s)
  }

  /** The events in order. */
  function Run(m: Machine, es: seq<Event>): Machine
    decreases |es|
  {
    if es == [] then m else Run(Step(m, es[0]), es[1..])
  }

  /**
   * What always holds between events: no timer is overdue; before the first
   * effect run, and while a debounce is pending, no other timer is; a pending
   * minimum-saving timer sits 500 ms after its write and comes with the
   * provisional idle timer 2000 ms after it; once the minimum-saving timer has
   * fired, the idle timer is due a full display time after it.
   */
  predicate Inv(m: Machine) {
    && (m.firstRender ==> m.debounce.None? && m.minSaving.None? && m.idleAt.None?)
    && (m.debounce.Some? ==> m.clock <= m.debounce.value.due && m.minSaving.None? && m.idleAt.None?)
    && (m.minSaving.Some? ==>
          && m.clock <= m.minSaving.value.due
          && m.minSaving.value.due == m.minSaving.value.savedAt + MinSavingMs
          && m.idleAt == Some(m.minSaving.value.savedAt + ProvisionalIdleMs))
    && (m.idleAt.Some? && m.minSaving.None? ==>
          && m.clock <= m.idleAt.value
          && m.lastSaved.Some?
          && m.idleAt.value == m.lastSaved.value + MinSavingMs + SavedDisplayMs)
  }

  lemma StepInv(m: Machine, e: Event)
    requires Inv(m)
    ensures Inv(Step(m, e))
    ensures Step(m, e).clock >= m.clock
  {
  }

  lemma {:induction false} RunInv(m: Machine, es: seq<Event>)
    requires Inv(m)
    ensures Inv(Run(m, es))
    ensures Run(m, es).clock >= m.clock
    decreases |es|
  {
    if es != [] {
      StepInv(m, es[0]);
      RunInv(Step(m, es[0]), es[1..]);
    }
  }

  /** The first effect run changes nothing but the flag: no timer, no write, same state. */
  lemma FirstActivation(m: Machine, p: Props)
    requires Inv(m) && m.firstRender
    ensures Step(m, Change(p)) == m.(firstRender := false)
    ensures NextDue(Step(m, Change(p))).None?
  {
  }

  /** A fired debounce with validation errors gives "error"; nothing is written and no timer is left. */
  lemma DebounceBlocked(m: Machine, writeOk: bool)
    requires Inv(m) && m.debounce.Some? && HasErrors(m.debounce.value.props)
    ensures var r := Step(m, Fire(writeOk));
      && r.status == Status.Error && r.store == m.store && r.lastSaved == m.lastSaved
      && r.clock == m.debounce.value.due && NextDue(r).None?
  {
  }

  /**
   * A fired debounce without errors writes the graph under the storage key,
   * stamped with the current time, shows "saving", and arms the 500 ms and the
   * provisional 2000 ms timers.
   */
  lemma DebounceSaves(m: Machine)
    requires Inv(m) && m.debounce.Some? && !HasErrors(m.debounce.value.props)
    ensures var r := Step(m, Fire(true));
      var p := m.debounce.value.props;
      var t := m.debounce.value.due;
      && r.clock == t && r.status == Saving && r.lastSaved == m.lastSaved
      && r.store == m.store[p.storageKey := Snapshot(p.nodes, p.edges, t)]
      && r.minSaving == Some(MinSaving(t + 500, t)) && r.idleAt == Some(t + 2000)
  {
  }

  /** A write that throws gives "error"; storage keeps its contents and no timer is left. */
  lemma WriteFails(m: Machine)
    requires Inv(m) && m.debounce.Some?
    ensures var r := Step(m, Fire(false));
      && r.status == Status.Error && r.store == m.store && r.lastSaved == m.lastSaved && NextDue(r).None?
  {
  }

  /**
   * The minimum-saving timer fires 500 ms after the write: "saved", `lastSaved`
   * becomes the write's time, and the only idle timer is now due 2000 ms later.
   */
  lemma MinSavingFires(m: Machine, writeOk: bool)
    requires Inv(m) && m.debounce.None? && m.minSaving.Some?
    ensures var r := Step(m, Fire(writeOk));
      var t := m.minSaving.value.savedAt;
      && r.clock == t + 500 && r.status == Saved && r.lastSaved == Some(t)
      && r.idleAt == Some(t + 500 + 2000) && r.minSaving.None? && r.store == m.store
  {
  }

  /**
   * The provisional idle timer never fires: when an idle timer fires, it is
   * the one armed by the minimum-saving callback, a full display time after
   * "saved".
   */
  lemma IdleFires(m: Machine, writeOk: bool)
    requires Inv(m) && m.debounce.None? && m.minSaving.None? && m.idleAt.Some?
    ensures var r := Step(m, Fire(writeOk));
      && r.status == Idle && NextDue(r).None? && r.lastSaved == m.lastSaved && r.store == m.store
      && r.clock == m.lastSaved.value + MinSavingMs + SavedDisplayMs
  {
  }

  /**
   * A later effect run cancels the minimum-saving and idle timers and re-arms
   * the debounce for the new inputs, leaving the state, `lastSaved` and storage
   * as they are.
   */
  lemma ChangeCancels(m: Machine, p: Props)
    requires Inv(m) && !m.firstRender
    ensures var r := Step(m, Change(p));
      && r.status == m.status && r.lastSaved == m.lastSaved && r.store == m.store
      && r.minSaving.None? && r.idleAt.None?
      && r.debounce == Some(Debounce(m.clock + Delay(p.debounceMs), p))
  {
  }

  /** Only the latest change in a debounce window acts: an earlier one leaves no trace. */
  lemma LatestChangeWins(m: Machine, p1: Props, p2: Props)
    requires !m.firstRender
    ensures Step(Step(m, Change(p1)), Change(p2)) == Step(m, Change(p2))
  {
  }

  /** Events that are neither timers nor the setter. */
  predicate Quiet(e: Event) {
    e.Change? || e.Teardown? || e.Wait?
  }

  /**
   * Effect runs, teardown and the passage of time alone never change the
   * state, `lastSaved` or storage: a change during "saving" leaves "saving"
   * on screen until a timer of a later run fires.
   */
  lemma {:induction false} QuietKeepsState(m: Machine, es: seq<Event>)
    requires forall i :: 0 <= i < |es| ==> Quiet(es[i])
    ensures Run(m, es).status == m.status
    ensures Run(m, es).lastSaved == m.lastSaved
    ensures Run(m, es).store == m.store
    decreases |es|
  {
    if es != [] {
      QuietKeepsState(Step(m, es[0]), es[1..]);
    }
  }

  /** A change during "saving" cancels the pending "saved" step: the write stays, `lastSaved` does not move. */
  lemma ChangeDuringSaving(m: Machine, p: Props)
    requires Inv(m) && !m.firstRender && m.status == Saving && m.minSaving.Some?
    ensures var r := Step(m, Change(p));
      && r.status == Saving && r.lastSaved == m.lastSaved && r.store == m.store
      && r.minSaving.None? && r.debounce.Some?
  {
  }

  /** Timer events or waits only. */
  predicate TimerOnly(e: Event) {
    e.Wait? || e.Fire?
  }

  /** After teardown nothing is pending, so waiting and timer events change nothing but the clock. */
  lemma {:induction false} TeardownQuiescent(m: Machine, es: seq<Event>)
    requires forall i :: 0 <= i < |es| ==> TimerOnly(es[i])
    ensures var r := Run(Step(m, Teardown), es);
      && r.status == m.status && r.lastSaved == m.lastSaved && r.store == m.store
      && NextDue(r).None?
  {
    AfterTeardown(Step(m, Teardown), es);
  }

  lemma {:induction false} AfterTeardown(m: Machine, es: seq<Event>)
    requires NextDue(m).None?
    requires forall i :: 0 <= i < |es| ==> TimerOnly(es[i])
    ensures var r := Run(m, es);
      && r.status == m.status && r.lastSaved == m.lastSaved && r.store == m.store
      && NextDue(r).None?
    decreases |es|
  {
    if es != [] {
      AfterTeardown(Step(m, es[0]), es[1..]);
    }
  }

  /**
   * A whole save cycle. A change at time t with error-free inputs and debounce
   * delay D, followed by three timer firings with a working storage: "saving"
   * at t + D with the graph written, "saved" at t + D + 500 with `lastSaved`
   * = t + D, and "idle" at t + D + 500 + 2000.
   */
  lemma SaveCycle(m: Machine, p: Props)
    requires Inv(m) && !m.firstRender && !HasErrors(p)
    ensures var t := m.clock + Delay(p.debounceMs);
      var s1 := Step(Step(m, Change(p)), Fire(true));
      var s2 := Step(s1, Fire(true));
      var s3 := Step(s2, Fire(true));
      && s1.status == Saving && s1.clock == t
      && s1.store == m.store[p.storageKey := Snapshot(p.nodes, p.edges, t)]
      && s2.status == Saved && s2.clock == t + 500 && s2.lastSaved == Some(t)
      && s3.status == Idle && s3.clock == t + 500 + 2000 && s3.lastSaved == Some(t)
      && s3.store == s1.store && NextDue(s3).None?
  {
    var m1 := Step(m, Change(p));
    StepInv(m, Change(p));
    DebounceSaves(m1);
    var s1 := Step(m1, Fire(true));
    StepInv(m1, Fire(true));
    MinSavingFires(s1, true);
    var s2 := Step(s1, Fire(true));
    StepInv(s1, Fire(true));
    IdleFires(s2, true);
  }

  /** The inputs the editor passes: the validation results of the graph itself. */
  predicate FromGraph(p: Props) {
    p.workflowErrors == ValidateWorkflow(p.nodes, p.edges) && p.nodeErrors == ValidateNodes(p.nodes)
  }

  /** A fired debounce shows "saving" exactly when its inputs carry no errors and the write works. */
  lemma SavingIffClean(m: Machine, writeOk: bool)
    requires Inv(m) && m.debounce.Some?
    ensures Step(m, Fire(writeOk)).status == Saving <==> writeOk && !HasErrors(m.debounce.value.props)
  {
  }

  /**
   * So a fired debounce writes the graph and shows "saving" exactly when the
   * write works and both validations of that graph pass: by
   * GraphValidation.ValidWorkflowIff and NodeValidation.ValidateNodes, when
   * there is one start node and one end node, every node has enough
   * neighbours, and every configured node passes its field checks.
   */
  lemma SavesOnlyValidGraphs(m: Machine, writeOk: bool)
    requires Inv(m) && m.debounce.Some? && FromGraph(m.debounce.value.props)
    ensures var p := m.debounce.value.props;
      Step(m, Fire(writeOk)).status == Saving <==>
        writeOk && ValidateWorkflow(p.nodes, p.edges) == [] && ValidateNodes(p.nodes) == []
  {
    SavingIffClean(m, writeOk);
  }

  /** Delays from 2^31 to 2^32 - 1 wrap to negative values and so count as 0. */
  lemma DelayWraps(v: int)
    requires TwoTo31 <= v < TwoTo32
    ensures Delay(Some(v)) == 0
  {
  }
}
