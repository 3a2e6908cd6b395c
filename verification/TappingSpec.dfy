/** The tap/hold state machine of quantum/action_tapping.c, on values.

    Everything the code asks of the rest of the firmware (tapping terms, the action bound
    to a key, the hold options) is an arbitrary answer, chosen anew for every call. */
module TappingSpec {
  import opened Basics
  import opened Timer

  datatype EventType = Tick | Key | EncoderCw | EncoderCcw | Combo | DipSwitchOn | DipSwitchOff

  datatype Event = Event(key: KeyPos, time: u16, kind: EventType, pressed: bool)

  /** The 4-bit tap counter. */
  type TapCount = c: int | 0 <= c < 16

  datatype Tap = Tap(interrupted: bool, count: TapCount)

  datatype Record = Record(event: Event, tap: Tap)

  const NO_RECORD := Record(Event(KeyPos(0, 0), 0, Tick, false), Tap(false, 0))

  /** One call of process_record; `synthetic` marks a release the machine makes up itself. */
  datatype Emission = Emission(record: Record, synthetic: bool)

  /** What the rest of the firmware answers during one call of process_tapping.
      `scanTerm` is the tapping term of the key a new tap starts with. */
  datatype Answers = Answers(
    isTap: bool,
    term: u16,
    quickTerm: u16,
    permissiveHold: bool,
    holdOnOther: bool,
    keepRelease: bool,
    scanTerm: u16)

  /** The outcome of process_tapping: the new tapping key and waiting records, what was
      emitted, the processed record as modified, and the returned flag. */
  datatype Step = Step(tapping: Record, queue: seq<Record>, emitted: seq<Emission>, rec: Record, consumed: bool)

  function Emit(r: Record): seq<Emission> { [Emission(r, false)] }

  predicate IsTick(r: Record) { r.event.kind == Tick }

  /** IS_TAPPING_RECORD, without COMBO_ENABLE. */
  predicate SameKey(a: Record, b: Record) { a.event.key == b.event.key }

  predicate TypedBy(ev: Event, r: Record) {
    ev.key == r.event.key && ev.pressed != r.event.pressed
  }

  /** waiting_buffer_typed */
  predicate Typed(queue: seq<Record>, ev: Event) {
    exists i :: 0 <= i < |queue| && TypedBy(ev, queue[i])
  }

  /** The condition waiting_buffer_scan_tap looks for. */
  predicate IsTapRelease(tk: Record, r: Record, term: u16) {
    && !IsTick(r) && SameKey(r, tk) && !r.event.pressed
    && Diff16(r.event.time, tk.event.time) < term
  }

  /** Index of the first waiting record that completes a tap, or the queue length. */
  function FirstTapRelease(queue: seq<Record>, tk: Record, term: u16): (i: nat)
    ensures i <= |queue|
    ensures i < |queue| ==> IsTapRelease(tk, queue[i], term)
    ensures forall j :: 0 <= j < i ==> !IsTapRelease(tk, queue[j], term)
  {
    if queue == [] || IsTapRelease(tk, queue[0], term) then 0
    else
      assert forall j :: 1 <= j < |queue| ==> queue[j] == queue[1..][j - 1];
      1 + FirstTapRelease(queue[1..], tk, term)
  }

  function WithCount(r: Record, c: TapCount): Record {
    r.(tap := r.tap.(count := c))
  }

  /** Start a tap with `rec` and look for its release among the waiting records. */
  function StartTap(rec: Record, queue: seq<Record>, term: u16): Step {
    if rec.tap.count > 0 || !rec.event.pressed then
      Step(rec, queue, [], rec, true)
    else
      var i := FirstTapRelease(queue, rec, term);
      if i == |queue| then
        Step(rec, queue, [], rec, true)
      else
        var tapped := WithCount(rec, 1);
        Step(tapped, queue[i := WithCount(queue[i], 1)], Emit(tapped), rec, true)
  }

  /** A tap key starts while the last tap is still down. */
  function RestartTap(tk: Record, queue: seq<Record>, rec: Record, a: Answers): Step {
    var release := Record(tk.event.(time := rec.event.time, pressed := false), tk.tap);
    var s := StartTap(rec, queue, a.scanTerm);
    if tk.tap.count > 1 then s.(emitted := [Emission(release, true)] + s.emitted) else s
  }

  /** Tapping key down, undecided, within the tapping term. */
  function Undecided(tk: Record, queue: seq<Record>, rec: Record, a: Answers): Step {
    var ev := rec.event;
    if SameKey(tk, rec) && !ev.pressed then
      var tapped := WithCount(tk, 1);
      Step(tapped, queue, Emit(tapped), rec.(tap := tapped.tap), false)
    else if !ev.pressed && Typed(queue, ev) && a.permissiveHold then
      Step(NO_RECORD, queue, Emit(tk), rec, false)
    else if !ev.pressed && !Typed(queue, ev) then
      if a.keepRelease then Step(tk, queue, [], rec, false)
      else Step(tk, queue, Emit(rec), rec, true)
    else if ev.pressed then
      var interrupted := tk.(tap := tk.tap.(interrupted := true));
      if a.holdOnOther then Step(NO_RECORD, queue, Emit(interrupted), rec, false)
      else Step(interrupted, queue, [], rec, false)
    else
      Step(tk, queue, [], rec, false)
  }

  /** Tapping key down and already a tap; `within` says whether the term still runs. */
  function Tapped(tk: Record, queue: seq<Record>, rec: Record, a: Answers, within: bool): Step {
    if SameKey(tk, rec) && !rec.event.pressed then
      var released := rec.(tap := tk.tap);
      Step(if within then released else NO_RECORD, queue, Emit(released), released, true)
    else if a.isTap && rec.event.pressed then
      RestartTap(tk, queue, rec, a)
    else
      Step(tk, queue, Emit(rec), rec, true)
  }

  /** Tapping key up again, within the tapping term. */
  function AfterTap(tk: Record, queue: seq<Record>, rec: Record, a: Answers): Step {
    var ev := rec.event;
    if ev.pressed && SameKey(tk, rec) then
      if Diff16(ev.time, tk.event.time) < a.quickTerm && !tk.tap.interrupted && tk.tap.count > 0 then
        var again := rec.(tap := tk.tap.(count := if tk.tap.count < 15 then tk.tap.count + 1 else 15));
        Step(again, queue, Emit(again), again, true)
      else
        Step(rec, queue, [], rec, true)
    else if ev.pressed && a.isTap then
      StartTap(rec, queue, a.scanTerm)
    else if ev.pressed then
      Step(tk.(tap := tk.tap.(interrupted := true)), queue, Emit(rec), rec, true)
    else
      Step(tk, queue, Emit(rec), rec, true)
  }

  /** process_tapping */
  function ProcessTapping(tk: Record, queue: seq<Record>, rec: Record, a: Answers): Step {
    var within := Diff16(rec.event.time, tk.event.time) < a.term;
    if IsTick(tk) then
      if IsTick(rec) then Step(tk, queue, [], rec, true)
      else if rec.event.pressed && a.isTap then StartTap(rec, queue, a.scanTerm)
      else Step(tk, queue, Emit(rec), rec, true)
    else if tk.event.pressed && tk.tap.count == 0 && !within then
      Step(NO_RECORD, queue, Emit(tk), rec, false)
    else if !tk.event.pressed && !within then
      Step(NO_RECORD, queue, [], rec, false)
    else if IsTick(rec) then
      Step(tk, queue, [], rec, true)
    else if !tk.event.pressed then
      AfterTap(tk, queue, rec, a)
    else if tk.tap.count == 0 then
      Undecided(tk, queue, rec, a)
    else
      Tapped(tk, queue, rec, a, within)
  }

  const CAPACITY := 7

  /** The whole machine. `calls` numbers the calls of process_tapping, so that the answers
      of the rest of the firmware are `env(calls)`, and `log` tells what each of them was
      about; `from` holds, for every emission, the number of the call that made it; `lost`
      collects what overflow throws away. */
  datatype State = State(
    tapping: Record,
    queue: seq<Record>,
    out: seq<Emission>,
    from: seq<nat>,
    log: seq<Call>,
    calls: nat,
    lost: seq<Event>)

  /** One call of process_tapping: the tapping key, the waiting records, and the event. */
  datatype Call = Call(tapping: Record, waiting: seq<Record>, event: Event)

  const INIT := State(NO_RECORD, [], [], [], [], 0, [])

  type Env = nat -> Answers

  /** The key press the machine holds back: not emitted, not waiting. */
  function Pending(tk: Record): seq<Event> {
    if !IsTick(tk) && tk.event.pressed && tk.tap.count == 0 then [tk.event] else []
  }

  function Events(rs: seq<Record>): (es: seq<Event>)
    ensures |es| == |rs|
    ensures forall i :: 0 <= i < |rs| ==> es[i] == rs[i].event
  {
    seq(|rs|, i requires 0 <= i < |rs| => rs[i].event)
  }

  /** waiting_buffer_enq, and the clearing of everything on overflow */
  function Enqueue(s: State, rec: Record): State {
    if IsTick(rec) then s
    else if |s.queue| < CAPACITY then s.(queue := s.queue + [rec])
    else s.(tapping := NO_RECORD, queue := [], lost := s.lost + Pending(s.tapping) + Events(s.queue) + [rec.event])
  }

  function Repeat(x: nat, n: nat): seq<nat> { seq(n, _ => x) }

  /** The machine after a call of process_tapping came back with `st`. */
  function After(s: State, st: Step): State {
    s.(tapping := st.tapping, queue := st.queue, out := s.out + st.emitted,
       from := s.from + Repeat(s.calls, |st.emitted|), log := s.log + [Call(s.tapping, s.queue, st.rec.event)],
       calls := s.calls + 1)
  }

  function StepOn(s: State, rec: Record, env: Env): (st: Step)
    ensures |st.queue| == |s.queue|
  {
    ProcessTapping(s.tapping, s.queue, rec, env(s.calls))
  }

  /** The direct part of action_tapping_process, before the drain. */
  function Accept(s: State, rec: Record, env: Env): State {
    var st := StepOn(s, rec, env);
    if st.consumed then After(s, st) else Enqueue(After(s, st), st.rec)
  }

  /** One turn of the loop over the waiting buffer: the oldest record goes or stays. */
  function Turned(s: State, st: Step): State
    requires st.queue != []
  {
    After(s, st).(queue := if st.consumed then st.queue[1..] else st.queue[0 := st.rec])
  }

  /** The loop over the waiting buffer */
  function Drain(s: State, env: Env): State
    decreases |s.queue|
  {
    if s.queue == [] then s
    else
      var st := StepOn(s, s.queue[0], env);
      if st.consumed then Drain(Turned(s, st), env) else Turned(s, st)
  }

  /** action_tapping_process */
  function Process(s: State, rec: Record, env: Env): State {
    Drain(Accept(s, rec, env), env)
  }

  /** A whole run. */
  function Run(s: State, inputs: seq<Record>, env: Env): State {
    if inputs == [] then s else Process(Run(s, inputs[..|inputs| - 1], env), inputs[|inputs| - 1], env)
  }
}
