/** Tap dances: quantum/vial.c on top of quantum/process_keycode/process_tap_dance.c. Modifier
    saving and the settings delay are left out; the clock is an event of its own. */
module TapDance {
  import opened Basics

  /** The 8-bit tap counter. */
  type Count = c: int | 0 <= c < 256

  /** vial_tap_dance_entry_t; 0 stands for an unset key. */
  datatype Entry = Entry(onTap: Keycode, onHold: Keycode, onDoubleTap: Keycode, onTapHold: Keycode)

  datatype Phase = NoPhase | SingleTap | SingleHold | DoubleTap | DoubleHold | DoubleSingleTap | MoreTaps

  /** The stored entry, tap_dance_state_t, and dance_state of one dance. */
  datatype Dance = Dance(entry: Entry, count: Count, pressed: bool, finished: bool, interrupted: bool, phase: Phase)

  datatype Act = Down(k: Keycode) | Up(k: Keycode) | Tap(k: Keycode)

  /** What is sent, with the dance that sends it. */
  datatype Output = Output(dance: nat, act: Act)

  /** `active` is the dance that is being decided, -1 if there is none. */
  datatype State = State(dances: seq<Dance>, active: int, out: seq<Output>)

  // ---------- the callbacks ----------

  /** dance_step */
  function DanceStep(d: Dance): Phase {
    if d.count == 1 then (if d.interrupted || !d.pressed then SingleTap else SingleHold)
    else if d.count == 2 then
      if d.interrupted then DoubleSingleTap else if d.pressed then DoubleHold else DoubleTap
    else MoreTaps
  }

  /** on_dance */
  function OnDance(e: Entry, count: Count): seq<Act> {
    if e.onTap == 0 then []
    else if count == 3 then [Tap(e.onTap), Tap(e.onTap), Tap(e.onTap)]
    else if count > 3 then [Tap(e.onTap)]
    else []
  }

  function DownIf(k: Keycode): seq<Act> { if k != 0 then [Down(k)] else [] }
  function UpIf(k: Keycode): seq<Act> { if k != 0 then [Up(k)] else [] }

  /** on_dance_finished */
  function OnFinished(e: Entry, p: Phase): seq<Act> {
    match p
    case SingleTap => DownIf(e.onTap)
    case SingleHold => if e.onHold != 0 then [Down(e.onHold)] else DownIf(e.onTap)
    case DoubleTap =>
      if e.onDoubleTap != 0 then [Down(e.onDoubleTap)]
      else if e.onTap != 0 then [Tap(e.onTap), Down(e.onTap)] else []
    case DoubleHold =>
      if e.onTapHold != 0 then [Down(e.onTapHold)]
      else if e.onTap != 0 then [Tap(e.onTap), Down(if e.onHold != 0 then e.onHold else e.onTap)]
      else DownIf(e.onHold)
    case DoubleSingleTap => if e.onTap != 0 then [Tap(e.onTap), Down(e.onTap)] else []
    case _ => []
  }

  /** on_dance_reset */
  function OnReset(e: Entry, p: Phase): seq<Act> {
    match p
    case SingleTap => UpIf(e.onTap)
    case SingleHold => if e.onHold != 0 then [Up(e.onHold)] else UpIf(e.onTap)
    case DoubleTap => if e.onDoubleTap != 0 then [Up(e.onDoubleTap)] else UpIf(e.onTap)
    case DoubleHold =>
      if e.onTapHold != 0 then [Up(e.onTapHold)]
      else if e.onTap != 0 then [Up(if e.onHold != 0 then e.onHold else e.onTap)]
      else UpIf(e.onHold)
    case DoubleSingleTap => UpIf(e.onTap)
    case _ => []
  }

  // ---------- the state machine ----------

  function Say(out: seq<Output>, i: nat, acts: seq<Act>): seq<Output> {
    if acts == [] then out else Say(out, i, acts[..|acts| - 1]) + [Output(i, acts[|acts| - 1])]
  }

  function Put(s: State, i: nat, d: Dance, acts: seq<Act>): (r: State)
    requires i < |s.dances|
    ensures |r.dances| == |s.dances|
  {
    s.(dances := s.dances[i := d], out := Say(s.out, i, acts))
  }

  /** process_tap_dance_action_on_reset */
  function ResetDance(s: State, i: nat): (r: State)
    requires i < |s.dances|
    ensures |r.dances| == |s.dances|
  {
    var d := s.dances[i];
    Put(s, i, Dance(d.entry, 0, false, false, false, NoPhase), OnReset(d.entry, d.phase))
  }

  /** The guarded part of process_tap_dance_action_on_dance_finished */
  function Decide(s: State, i: nat): (r: State)
    requires i < |s.dances|
    ensures |r.dances| == |s.dances|
  {
    var d := s.dances[i];
    if d.finished then s
    else Put(s, i, d.(finished := true, phase := DanceStep(d)), OnFinished(d.entry, DanceStep(d)))
  }

  /** process_tap_dance_action_on_dance_finished */
  function Finish(s: State, i: nat): (r: State)
    requires i < |s.dances|
    ensures |r.dances| == |s.dances|
  {
    var r := Decide(s, i).(active := -1);
    if r.dances[i].pressed then r else ResetDance(r, i)
  }

  /** preprocess_tap_dance, for the press of dance key j, or of any other key with j == -1 */
  function Preprocess(s: State, j: int): (r: State)
    ensures |r.dances| == |s.dances|
  {
    if !(0 <= s.active < |s.dances|) || j == s.active then s
    else Finish(s.(dances := s.dances[s.active := s.dances[s.active].(interrupted := true)]), s.active)
  }

  /** The condition under which process_record_vial decides at the release. */
  predicate DecidesEarly(d: Dance) {
    var e := d.entry;
    || (d.count == 1 && e.onTap != 0 && e.onHold != 0 && e.onDoubleTap == 0 && e.onTapHold == 0)
    || (d.count == 2 && e.onDoubleTap != 0)
  }

  /** process_record_vial, for the release of dance key i */
  function EarlyRelease(s: State, i: nat): (r: State)
    requires i < |s.dances|
    ensures |r.dances| == |s.dances|
  {
    var d := s.dances[i];
    if DecidesEarly(d) then Finish(s.(dances := s.dances[i := d.(pressed := false)]), i) else s
  }

  /** process_tap_dance for a press */
  function TapPressed(s: State, i: nat): (r: State)
    requires i < |s.dances|
    ensures |r.dances| == |s.dances|
  {
    var d := s.dances[i];
    var c: Count := (d.count + 1) % 256;
    Put(s, i, d.(pressed := true, count := c), OnDance(d.entry, c)).(active := if d.finished then -1 else i)
  }

  /** process_tap_dance for a release */
  function TapReleased(s: State, i: nat): (r: State)
    requires i < |s.dances|
    ensures |r.dances| == |s.dances|
  {
    var r := s.(dances := s.dances[i := s.dances[i].(pressed := false)]);
    if !s.dances[i].finished then r
    else ResetDance(r, i).(active := if s.active == i then -1 else s.active)
  }

  datatype Command =
    | Press(i: nat)
    | Release(i: nat)
    /** A key that is no dance goes down. */
    | OtherPress
    /** tap_dance_task finds the tapping term over. */
    | Timeout
    /** The host stores another entry. */
    | SetEntry(i: nat, entry: Entry)

  function Step(s: State, c: Command): (r: State)
    ensures |r.dances| == |s.dances|
  {
    match c
    case Press(i) => if i < |s.dances| then TapPressed(Preprocess(s, i), i) else s
    case Release(i) => if i < |s.dances| then TapReleased(EarlyRelease(s, i), i) else s
    case OtherPress => Preprocess(s, -1)
    case Timeout =>
      if 0 <= s.active < |s.dances| && !s.dances[s.active].interrupted then Finish(s, s.active) else s
    case SetEntry(i, e) =>
      if i < |s.dances| then s.(dances := s.dances[i := s.dances[i].(entry := e)]) else s
  }

  function Run(s: State, cs: seq<Command>): (r: State)
    ensures |r.dances| == |s.dances|
  {
    if cs == [] then s else Step(Run(s, cs[..|cs| - 1]), cs[|cs| - 1])
  }

  function Blank(e: Entry): Dance { Dance(e, 0, false, false, false, NoPhase) }

  function Initial(entries: seq<Entry>): State {
    State(seq(|entries|, i requires 0 <= i < |entries| => Blank(entries[i])), -1, [])
  }

  // ---------- presses against releases ----------

  function Weight(a: Act, k: Keycode): int {
    match a
    case Down(c) => if c == k then 1 else 0
    case Up(c) => if c == k then -1 else 0
    case Tap(_) => 0
  }

  /** How often key k went down more than up, as far as dance i is concerned. */
  function Net(out: seq<Output>, i: nat, k: Keycode): int {
    if out == [] then 0
    else
      var o := out[|out| - 1];
      Net(out[..|out| - 1], i, k) + if o.dance == i then Weight(o.act, k) else 0
  }

  function NetActs(acts: seq<Act>, k: Keycode): int {
    if acts == [] then 0 else NetActs(acts[..|acts| - 1], k) + Weight(acts[|acts| - 1], k)
  }

  lemma {:induction false} NetSay(out: seq<Output>, i: nat, acts: seq<Act>, j: nat, k: Keycode)
    ensures Net(Say(out, i, acts), j, k) == Net(out, j, k) + if i == j then NetActs(acts, k) else 0
  {
    if acts != [] {
      var front, last := acts[..|acts| - 1], acts[|acts| - 1];
      NetSay(out, i, front, j, k);
      assert (Say(out, i, front) + [Output(i, last)])[..|Say(out, i, front)|] == Say(out, i, front);
    }
  }

  /** The key a phase stands for: the one configured for it, or the next best. */
  function Code(e: Entry, p: Phase): Keycode {
    match p
    case SingleTap => e.onTap
    case SingleHold => if e.onHold != 0 then e.onHold else e.onTap
    case DoubleTap => if e.onDoubleTap != 0 then e.onDoubleTap else e.onTap
    case DoubleHold => if e.onTapHold != 0 then e.onTapHold else if e.onHold != 0 then e.onHold else e.onTap
    case DoubleSingleTap => e.onTap
    case _ => 0
  }

  function Share(code: Keycode, k: Keycode): int { if code == k && k != 0 then 1 else 0 }

  lemma NetOne(a: Act, k: Keycode)
    ensures NetActs([a], k) == Weight(a, k)
  {
    assert [a][..0] == [];
  }

  lemma NetTwo(a: Act, b: Act, k: Keycode)
    ensures NetActs([a, b], k) == Weight(a, k) + Weight(b, k)
  {
    assert [a, b][..1] == [a];
    NetOne(a, k);
  }

  lemma FinishedPresses(e: Entry, p: Phase, k: Keycode)
    ensures NetActs(OnFinished(e, p), k) == Share(Code(e, p), k)
  {
    var acts := OnFinished(e, p);
    if |acts| == 1 { NetOne(acts[0], k); } else if |acts| == 2 { NetTwo(acts[0], acts[1], k); }
  }

  lemma ResetReleases(e: Entry, p: Phase, k: Keycode)
    ensures NetActs(OnReset(e, p), k) == -Share(Code(e, p), k)
  {
    var acts := OnReset(e, p);
    if acts != [] { NetOne(acts[0], k); }
  }

  lemma DancingIsEven(e: Entry, c: Count, k: Keycode)
    ensures NetActs(OnDance(e, c), k) == 0
  {
    var t := Tap(e.onTap);
    NetOne(t, k);
    NetTwo(t, t, k);
    assert [t, t, t][..2] == [t, t];
  }

  // ---------- what every run keeps ----------

  /** What dance d holds down of key k. */
  function Holding(d: Dance, k: Keycode): int { if d.finished then Share(Code(d.entry, d.phase), k) else 0 }

  /** A decided dance is one whose key is still down; otherwise no phase is stored. */
  predicate Sound(d: Dance) { (d.finished ==> d.pressed) && (!d.finished ==> d.phase == NoPhase) }

  ghost predicate Inv(s: State) {
    && (forall i :: 0 <= i < |s.dances| ==> Sound(s.dances[i]))
    && (0 <= s.active < |s.dances| ==> !s.dances[s.active].finished)
  }

  ghost predicate Balanced(s: State) {
    forall i: nat, k: Keycode :: i < |s.dances| ==> Net(s.out, i, k) == Holding(s.dances[i], k)
  }

  lemma PutBalances(s: State, i: nat, d: Dance, acts: seq<Act>)
    requires i < |s.dances| && Balanced(s)
    requires forall k: Keycode :: NetActs(acts, k) == Holding(d, k) - Holding(s.dances[i], k)
    ensures Balanced(Put(s, i, d, acts))
  {
    var r := Put(s, i, d, acts);
    forall j: nat, k: Keycode | j < |s.dances| ensures Net(r.out, j, k) == Holding(r.dances[j], k) {
      NetSay(s.out, i, acts, j, k);
      assert Net(s.out, j, k) == Holding(s.dances[j], k);
    }
  }

  /** Changes that leave alone what a dance holds. */
  lemma SameHolding(s: State, i: nat, d: Dance, active: int)
    requires i < |s.dances| && Balanced(s)
    requires forall k: Keycode :: Holding(d, k) == Holding(s.dances[i], k)
    ensures Balanced(State(s.dances[i := d], active, s.out))
  {
    forall j: nat, k: Keycode | j < |s.dances| ensures Net(s.out, j, k) == Holding(s.dances[i := d][j], k) {
      assert Net(s.out, j, k) == Holding(s.dances[j], k);
    }
  }

  lemma ResetBalances(s: State, i: nat)
    requires i < |s.dances| && Balanced(s) && (!s.dances[i].finished ==> s.dances[i].phase == NoPhase)
    ensures Balanced(ResetDance(s, i))
  {
    var d := s.dances[i];
    forall k: Keycode ensures NetActs(OnReset(d.entry, d.phase), k) == -Holding(d, k) {
      ResetReleases(d.entry, d.phase, k);
    }
    PutBalances(s, i, Blank(d.entry), OnReset(d.entry, d.phase));
  }

  lemma DecideBalances(s: State, i: nat)
    requires i < |s.dances| && Balanced(s)
    ensures Balanced(Decide(s, i))
  {
    var d := s.dances[i];
    var p := DanceStep(d);
    if !d.finished {
      forall k: Keycode ensures NetActs(OnFinished(d.entry, p), k) == Share(Code(d.entry, p), k) {
        FinishedPresses(d.entry, p, k);
      }
      PutBalances(s, i, d.(finished := true, phase := p), OnFinished(d.entry, p));
    }
  }

  /** All dances but i are sound, and i is once it is released or decided. */
  ghost predicate SoundBut(s: State, i: nat) {
    forall j :: 0 <= j < |s.dances| && j != i ==> Sound(s.dances[j])
  }

  lemma FinishKeeps(s: State, i: nat)
    requires i < |s.dances| && Balanced(s) && SoundBut(s, i)
    ensures Inv(Finish(s, i)) && Balanced(Finish(s, i)) && Finish(s, i).active == -1
    ensures !s.dances[i].pressed ==> Finish(s, i).dances[i] == Blank(s.dances[i].entry)
  {
    var r := Decide(s, i);
    DecideBalances(s, i);
    var t := r.(active := -1);
    assert Balanced(t) by { SameHolding(r, i, r.dances[i], -1); assert r.dances[i := r.dances[i]] == r.dances; }
    if !t.dances[i].pressed { ResetBalances(t, i); }
  }

  lemma PreprocessKeeps(s: State, j: int)
    requires Inv(s) && Balanced(s)
    ensures Inv(Preprocess(s, j)) && Balanced(Preprocess(s, j))
  {
    if 0 <= s.active < |s.dances| && j != s.active {
      var d := s.dances[s.active].(interrupted := true);
      SameHolding(s, s.active, d, s.active);
      FinishKeeps(State(s.dances[s.active := d], s.active, s.out), s.active);
    }
  }

  lemma PressKeeps(s: State, i: nat)
    requires i < |s.dances| && Inv(s) && Balanced(s)
    ensures Inv(TapPressed(s, i)) && Balanced(TapPressed(s, i))
  {
    var d := s.dances[i];
    var c: Count := (d.count + 1) % 256;
    var e := d.(pressed := true, count := c);
    forall k: Keycode ensures NetActs(OnDance(d.entry, c), k) == 0 { DancingIsEven(d.entry, c, k); }
    PutBalances(s, i, e, OnDance(d.entry, c));
    var r := Put(s, i, e, OnDance(d.entry, c));
    SameHolding(r, i, e, if d.finished then -1 else i);
    assert r.dances[i := e] == r.dances;
  }

  lemma EarlyKeeps(s: State, i: nat)
    requires i < |s.dances| && Inv(s) && Balanced(s)
    ensures Inv(EarlyRelease(s, i)) && Balanced(EarlyRelease(s, i))
  {
    var d := s.dances[i].(pressed := false);
    if DecidesEarly(s.dances[i]) {
      SameHolding(s, i, d, s.active);
      FinishKeeps(State(s.dances[i := d], s.active, s.out), i);
    }
  }

  lemma ReleaseKeeps(s: State, i: nat)
    requires i < |s.dances| && Inv(s) && Balanced(s)
    ensures Inv(TapReleased(s, i)) && Balanced(TapReleased(s, i)) && !TapReleased(s, i).dances[i].pressed
  {
    var d := s.dances[i].(pressed := false);
    var r := State(s.dances[i := d], s.active, s.out);
    SameHolding(s, i, d, s.active);
    if d.finished {
      ResetBalances(r, i);
      var t := ResetDance(r, i);
      SameHolding(t, i, t.dances[i], if s.active == i then -1 else s.active);
      assert t.dances[i := t.dances[i]] == t.dances;
    }
  }

  /** A new entry either comes while the dance holds nothing or keeps the key it holds. */
  predicate Careful(s: State, c: Command) {
    c.SetEntry? && c.i < |s.dances| && s.dances[c.i].finished ==>
      Code(c.entry, s.dances[c.i].phase) == Code(s.dances[c.i].entry, s.dances[c.i].phase)
  }

  lemma StepKeeps(s: State, c: Command)
    requires Inv(s) && Balanced(s) && Careful(s, c)
    ensures Inv(Step(s, c)) && Balanced(Step(s, c))
  {
    match c
    case Press(i) =>
      PreprocessKeeps(s, i);
      if i < |s.dances| { PressKeeps(Preprocess(s, i), i); }
    case Release(i) =>
      if i < |s.dances| {
        EarlyKeeps(s, i);
        ReleaseKeeps(EarlyRelease(s, i), i);
      }
    case OtherPress => PreprocessKeeps(s, -1);
    case Timeout => if 0 <= s.active < |s.dances| { FinishKeeps(s, s.active); }
    case SetEntry(i, e) =>
      if i < |s.dances| { SameHolding(s, i, s.dances[i].(entry := e), s.active); }
  }

  predicate AllCareful(s: State, cs: seq<Command>) {
    cs != [] ==> AllCareful(s, cs[..|cs| - 1]) && Careful(Run(s, cs[..|cs| - 1]), cs[|cs| - 1])
  }

  lemma {:induction false} RunKeeps(entries: seq<Entry>, cs: seq<Command>)
    requires AllCareful(Initial(entries), cs)
    ensures Inv(Run(Initial(entries), cs)) && Balanced(Run(Initial(entries), cs))
  {
    if cs != [] {
      RunKeeps(entries, cs[..|cs| - 1]);
      StepKeeps(Run(Initial(entries), cs[..|cs| - 1]), cs[|cs| - 1]);
    }
  }

  /** Press/release balance: in every run, each dance holds down exactly the one key of the
      phase it was decided for while its own key stays down, and nothing otherwise. */
  lemma {:induction false} PressesMatchReleases(entries: seq<Entry>, cs: seq<Command>, i: nat, k: Keycode)
    requires AllCareful(Initial(entries), cs) && i < |entries|
    ensures var s := Run(Initial(entries), cs);
      && Net(s.out, i, k) == Holding(s.dances[i], k)
      && (!s.dances[i].pressed ==> Net(s.out, i, k) == 0)
  {
    RunKeeps(entries, cs);
  }

  // ---------- an entry that changes while its key is held ----------

  /** Storing another entry under a decided dance leaves no key down after the release exactly
      when both entries give the phase the same key: the reset reads the entry anew. */
  lemma ChangedWhileHeld(s: State, i: nat, e: Entry)
    requires Inv(s) && Balanced(s) && i < |s.dances| && s.dances[i].finished
    ensures var r := Step(Step(s, SetEntry(i, e)), Release(i));
      (forall k: Keycode :: Net(r.out, i, k) == 0)
      <==> Code(e, s.dances[i].phase) == Code(s.dances[i].entry, s.dances[i].phase)
  {
    var d := s.dances[i];
    var r := Step(Step(s, SetEntry(i, e)), Release(i));
    forall k: Keycode ensures Net(r.out, i, k) == Share(Code(d.entry, d.phase), k) - Share(Code(e, d.phase), k) {
      ReleasedOnce(Step(s, SetEntry(i, e)), i, k);
      assert Net(s.out, i, k) == Holding(d, k);
    }
    var was, now := Code(d.entry, d.phase), Code(e, d.phase);
    if was != now {
      var k := if was != 0 then was else now;
      assert Net(r.out, i, k) != 0;
    }
  }

  /** The release of a decided dance sends the reset of its phase once, by either way. */
  lemma ReleasedOnce(s: State, i: nat, k: Keycode)
    requires i < |s.dances| && s.dances[i].finished
    ensures Net(Step(s, Release(i)).out, i, k)
         == Net(s.out, i, k) - Share(Code(s.dances[i].entry, s.dances[i].phase), k)
  {
    var d := s.dances[i];
    ResetReleases(d.entry, d.phase, k);
    NetSay(s.out, i, OnReset(d.entry, d.phase), i, k);
  }

  // ---------- plain taps ----------

  function Stroke(a: Act, k: Keycode): nat { if a == Down(k) || a == Tap(k) then 1 else 0 }

  /** How often key k is struck: pressed, or tapped. */
  function Strokes(out: seq<Output>, k: Keycode): nat {
    if out == [] then 0
    else Strokes(out[..|out| - 1], k) + Stroke(out[|out| - 1].act, k)
  }

  function StrokesIn(acts: seq<Act>, k: Keycode): nat {
    if acts == [] then 0
    else StrokesIn(acts[..|acts| - 1], k) + Stroke(acts[|acts| - 1], k)
  }

  lemma StrokesShort(a: Act, b: Act, c: Act, k: Keycode)
    ensures StrokesIn([a], k) == Stroke(a, k)
    ensures StrokesIn([a, b], k) == Stroke(a, k) + Stroke(b, k)
    ensures StrokesIn([a, b, c], k) == Stroke(a, k) + Stroke(b, k) + Stroke(c, k)
  {
    assert [a][..0] == [] && [a, b][..1] == [a] && [a, b, c][..2] == [a, b];
    assert StrokesIn([a], k) == Stroke(a, k);
    assert StrokesIn([a, b], k) == Stroke(a, k) + Stroke(b, k);
  }

  lemma {:induction false} StrokesSay(out: seq<Output>, i: nat, acts: seq<Act>, k: Keycode)
    ensures Strokes(Say(out, i, acts), k) == Strokes(out, k) + StrokesIn(acts, k)
  {
    if acts != [] {
      var front, last := acts[..|acts| - 1], acts[|acts| - 1];
      StrokesSay(out, i, front, k);
      assert (Say(out, i, front) + [Output(i, last)])[..|Say(out, i, front)|] == Say(out, i, front);
    }
  }

  /** Key i is tapped n times. */
  function Taps(i: nat, n: nat): seq<Command> {
    if n == 0 then [] else Taps(i, n - 1) + [Press(i), Release(i)]
  }

  lemma RunTwoMore(s: State, cs: seq<Command>, a: Command, b: Command)
    ensures Run(s, cs + [a, b]) == Step(Step(Run(s, cs), a), b)
  {
    assert (cs + [a, b])[..|cs| + 1] == cs + [a];
    assert (cs + [a])[..|cs|] == cs;
    assert Run(s, cs + [a]) == Step(Run(s, cs), a);
  }

  /** Only the tap key is set. */
  predicate TapOnly(e: Entry, k: Keycode) { e == Entry(k, 0, 0, 0) && k != 0 }

  /** What the dance still owes when the count stands at c and the term runs out. */
  function Owed(c: Count): nat { if c == 1 then 1 else if c == 2 then 2 else 0 }

  /** What the tap that brings the count to c sends at once. */
  function Sent(c: Count): nat { if c == 3 then 3 else if c > 3 then 1 else 0 }

  lemma TapStrokes(e: Entry, c: Count, k: Keycode)
    requires TapOnly(e, k)
    ensures StrokesIn(OnDance(e, c), k) == Sent(c)
  {
    StrokesShort(Tap(k), Tap(k), Tap(k), k);
  }

  lemma FinalStrokes(e: Entry, p: Phase, k: Keycode)
    requires TapOnly(e, k) && (p == SingleTap || p == DoubleTap || p == MoreTaps)
    ensures StrokesIn(OnFinished(e, p), k) == if p == SingleTap then 1 else if p == DoubleTap then 2 else 0
    ensures StrokesIn(OnReset(e, p), k) == 0
  {
    StrokesShort(Down(k), Down(k), Down(k), k);
    StrokesShort(Tap(k), Down(k), Down(k), k);
    StrokesShort(Up(k), Up(k), Up(k), k);
  }

  /** The dance between two taps. */
  predicate Between(d: Dance, e: Entry, c: Count) { d == Dance(e, c, false, false, false, NoPhase) }

  lemma OneTap(s: State, i: nat, k: Keycode, c: Count)
    requires i < |s.dances| && TapOnly(s.dances[i].entry, k) && Between(s.dances[i], s.dances[i].entry, c)
    requires s.active == i || s.active == -1
    ensures var r, c' := Step(Step(s, Press(i)), Release(i)), (c + 1) % 256;
      && Between(r.dances[i], s.dances[i].entry, c') && r.active == i
      && Strokes(r.out, k) == Strokes(s.out, k) + Sent(c')
  {
    var c': Count := (c + 1) % 256;
    var e := s.dances[i].entry;
    TapStrokes(e, c', k);
    StrokesSay(s.out, i, OnDance(e, c'), k);
  }

  /** Each tap is sent or owed, but for the one that wraps the counter. */
  lemma Counting(n: nat)
    requires n > 0
    ensures ((n - 1) % 256 + 1) % 256 == n % 256
    ensures Sent(n % 256) + Owed(n % 256) - n + n / 256 == Owed((n - 1) % 256) - (n - 1) + (n - 1) / 256
  {
    assert n / 256 == (n - 1) / 256 + if n % 256 == 0 then 1 else 0;
  }

  /** State r is s after n taps of dance i, the term not over. */
  predicate Tapped(s: State, r: State, i: nat, k: Keycode, n: nat)
    requires i < |s.dances| == |r.dances|
  {
    && Between(r.dances[i], s.dances[i].entry, n % 256) && r.active == (if n == 0 then -1 else i)
    && Strokes(r.out, k) + Owed(n % 256) == Strokes(s.out, k) + n - n / 256
  }

  lemma {:induction false} AfterTaps(s: State, i: nat, k: Keycode, n: nat)
    requires i < |s.dances| && s.active == -1 && TapOnly(s.dances[i].entry, k)
      && s.dances[i] == Blank(s.dances[i].entry)
    ensures Tapped(s, Run(s, Taps(i, n)), i, k, n)
  {
    if n > 0 {
      AfterTaps(s, i, k, n - 1);
      NextTap(s, Run(s, Taps(i, n - 1)), i, k, n);
      RunTwoMore(s, Taps(i, n - 1), Press(i), Release(i));
    }
  }

  lemma NextTap(s: State, t: State, i: nat, k: Keycode, n: nat)
    requires i < |s.dances| == |t.dances| && n > 0 && TapOnly(s.dances[i].entry, k)
    requires Tapped(s, t, i, k, n - 1)
    ensures Tapped(s, Step(Step(t, Press(i)), Release(i)), i, k, n)
  {
    OneTap(t, i, k, (n - 1) % 256);
    Counting(n);
  }

  /** Deciding a dance whose key is already up sends its presses and then its releases. */
  lemma FinishReleased(s: State, i: nat)
    requires i < |s.dances| && !s.dances[i].finished && !s.dances[i].pressed
    ensures var e, p := s.dances[i].entry, DanceStep(s.dances[i]);
      Finish(s, i).out == Say(Say(s.out, i, OnFinished(e, p)), i, OnReset(e, p))
  {
  }

  lemma TermOver(s: State, i: nat, k: Keycode, c: Count)
    requires i < |s.dances| && TapOnly(s.dances[i].entry, k) && Between(s.dances[i], s.dances[i].entry, c)
      && s.active == i
    ensures Strokes(Step(s, Timeout).out, k) == Strokes(s.out, k) + Owed(c)
  {
    var e, p := s.dances[i].entry, DanceStep(s.dances[i]);
    var presses, releases := OnFinished(e, p), OnReset(e, p);
    FinishReleased(s, i);
    FinalStrokes(e, p, k);
    StrokesSay(s.out, i, presses, k);
    StrokesSay(Say(s.out, i, presses), i, releases, k);
  }

  /** A dance with nothing but a tap key passes every tap on, once its term is over, as long
      as the 8-bit counter does not wrap; each wrap loses one. */
  lemma PlainTapsPassThrough(s: State, i: nat, k: Keycode, n: nat)
    requires i < |s.dances| && s.active == -1 && TapOnly(s.dances[i].entry, k)
      && s.dances[i] == Blank(s.dances[i].entry)
    ensures var r := Run(s, Taps(i, n) + [Timeout]);
      && Strokes(r.out, k) == Strokes(s.out, k) + n - n / 256
      && (Strokes(r.out, k) == Strokes(s.out, k) + n <==> n < 256)
  {
    AfterTaps(s, i, k, n);
    assert (Taps(i, n) + [Timeout])[..|Taps(i, n)|] == Taps(i, n);
    if n > 0 { TermOver(Run(s, Taps(i, n)), i, k, n % 256); }
  }

  // ---------- the statics and the functions that update them ----------

  class Dancer {
    const dances: array<Dance>
    var active: int
    var out: seq<Output>

    ghost function Abs(): State
      reads this, dances
    {
      State(dances[..], active, out)
    }

    constructor (dances: array<Dance>)
      requires forall i :: 0 <= i < dances.Length ==> dances[i] == Blank(dances[i].entry)
      ensures this.dances == dances && active == -1 && out == []
    {
      this.dances := dances;
      active, out := -1, [];
    }

    method Send(i: nat, act: Act)
      modifies this`out
      ensures out == old(out) + [Output(i, act)]
    {
      out := out + [Output(i, act)];
    }

    /** The calls of one callback, in order. */
    method SendAll(i: nat, acts: seq<Act>)
      modifies this`out
      ensures out == Say(old(out), i, acts)
    {
      for j := 0 to |acts|
        invariant out == Say(old(out), i, acts[..j])
      {
        assert acts[..j + 1][..j] == acts[..j];
        Send(i, acts[j]);
      }
      assert acts[..|acts|] == acts;
    }

    /** process_tap_dance_action_on_reset */
    method Reset(i: nat)
      requires i < dances.Length
      modifies this`out, dances
      ensures Abs() == ResetDance(old(Abs()), i)
    {
      SendAll(i, OnReset(dances[i].entry, dances[i].phase));
      dances[i] := Blank(dances[i].entry);
    }

    /** process_tap_dance_action_on_dance_finished */
    method DanceFinished(i: nat)
      requires i < dances.Length
      modifies this, dances
      ensures Abs() == Finish(old(Abs()), i)
    {
      if !dances[i].finished {
        var p := DanceStep(dances[i]);
        dances[i] := dances[i].(finished := true, phase := p);
        SendAll(i, OnFinished(dances[i].entry, p));
      }
      assert dances[..] == Decide(old(Abs()), i).dances;
      active := -1;
      if !dances[i].pressed { Reset(i); }
    }

    /** preprocess_tap_dance */
    method PreprocessTapDance(j: int) returns (again: bool)
      modifies this, dances
      ensures Abs() == Preprocess(old(Abs()), j)
      ensures again <==> 0 <= old(active) < dances.Length && j != old(active)
    {
      if !(0 <= active < dances.Length) || j == active { return false; }
      dances[active] := dances[active].(interrupted := true);
      DanceFinished(active);
      return true;
    }

    /** process_record_vial and process_tap_dance */
    method ProcessDanceKey(i: nat, pressed: bool)
      requires i < dances.Length
      modifies this, dances
      ensures Abs() == if pressed then TapPressed(old(Abs()), i) else TapReleased(EarlyRelease(old(Abs()), i), i)
    {
      if !pressed { ProcessRecordVial(i); }
      ProcessTapDance(i, pressed);
    }

    /** process_record_vial, for a release */
    method ProcessRecordVial(i: nat)
      requires i < dances.Length
      modifies this, dances
      ensures Abs() == EarlyRelease(old(Abs()), i)
    {
      if DecidesEarly(dances[i]) {
        dances[i] := dances[i].(pressed := false);
        DanceFinished(i);
      }
    }

    /** process_tap_dance */
    method ProcessTapDance(i: nat, pressed: bool)
      requires i < dances.Length
      modifies this, dances
      ensures Abs() == if pressed then TapPressed(old(Abs()), i) else TapReleased(old(Abs()), i)
    {
      dances[i] := dances[i].(pressed := pressed);
      if pressed {
        var c: Count := (dances[i].count + 1) % 256;
        dances[i] := dances[i].(count := c);
        SendAll(i, OnDance(dances[i].entry, c));
        active := if dances[i].finished then -1 else i;
      } else if dances[i].finished {
        Reset(i);
        if active == i { active := -1; }
      }
    }

    /** A key goes down or up; j is -1 for a key that is no dance. */
    method KeyEvent(j: int, pressed: bool)
      requires -1 <= j < dances.Length
      modifies this, dances
      ensures j == -1 ==> Abs() == if pressed then Step(old(Abs()), OtherPress) else old(Abs())
      ensures j >= 0 ==> Abs() == Step(old(Abs()), if pressed then Press(j) else Release(j))
    {
      if pressed { var _ := PreprocessTapDance(j); }
      if j >= 0 { ProcessDanceKey(j, pressed); }
    }

    /** tap_dance_task, once the term of the active dance is over */
    method Task()
      modifies this, dances
      ensures Abs() == Step(old(Abs()), Timeout)
    {
      if 0 <= active < dances.Length && !dances[active].interrupted { DanceFinished(active); }
    }

    /** dynamic_vial_tap_dance_set */
    method Store(i: nat, e: Entry)
      requires i < dances.Length
      modifies dances
      ensures Abs() == Step(old(Abs()), SetEntry(i, e))
    {
      dances[i] := dances[i].(entry := e);
    }
  }
}
