/** Taps in runs of the tap/hold state machine: every tap is a press and a release of its key
    within the term, and when that release can have come before the press. */
module TappingTaps {
  import opened Basics
  import opened Timer
  import opened TappingSpec
  import opened TappingProofs

  // ---------- taps are real taps ----------

  predicate Releases(ev: Event, press: Event, term: u16) {
    !ev.pressed && ev.key == press.key && Diff16(ev.time, press.time) < term
  }

  /** The release comes within a tapping term answered in that call. */
  predicate ReleasesBy(ev: Event, press: Event, a: Answers) {
    Releases(ev, press, a.term) || Releases(ev, press, a.scanTerm)
  }

  predicate IsTapPress(e: Emission) {
    e.record.event.pressed && e.record.tap.count == 1
  }

  /** The press was input, and so was a release of its key, within a tapping term of the call. */
  ghost predicate TapOf(press: Event, seen: seq<Event>, a: Answers) {
    press in seen && exists ev :: ev in seen && ReleasesBy(ev, press, a)
  }

  /** Every tap that was emitted is one for the call that emitted it. */
  ghost predicate Justified(out: seq<Emission>, from: seq<nat>, seen: seq<Event>, env: Env) {
    && |out| == |from|
    && forall i :: 0 <= i < |out| && IsTapPress(out[i]) ==> TapOf(out[i].record.event, seen, env(from[i]))
  }

  predicate Known(queue: seq<Record>, seen: seq<Event>) {
    forall i :: 0 <= i < |queue| ==> queue[i].event in seen
  }

  predicate KnownKey(tk: Record, seen: seq<Event>) {
    !IsTick(tk) && tk.event.pressed ==> tk.event in seen
  }

  lemma StepJustified(tk: Record, queue: seq<Record>, rec: Record, env: Env, n: nat, seen: seq<Event>)
    requires Ready(rec)
    requires Known(queue, seen) && rec.event in seen && KnownKey(tk, seen)
    ensures var st := ProcessTapping(tk, queue, rec, env(n));
      Justified(st.emitted, Repeat(n, |st.emitted|), seen, env) && KnownKey(st.tapping, seen)
  {
    var a := env(n);
    var st := ProcessTapping(tk, queue, rec, a);
    forall i | 0 <= i < |st.emitted| && IsTapPress(st.emitted[i])
      ensures TapOf(st.emitted[i].record.event, seen, a)
    {
      var press := st.emitted[i].record.event;
      if st.consumed {
        var k := FirstTapRelease(queue, rec, a.scanTerm);
        assert ReleasesBy(queue[k].event, press, a);
      } else {
        assert ReleasesBy(rec.event, press, a);
      }
    }
  }

  /** More input and more emissions. */
  lemma JustifiedGrows(out: seq<Emission>, from: seq<nat>, seen: seq<Event>, more: seq<Event>, env: Env,
                       emitted: seq<Emission>, n: nat)
    requires Justified(out, from, seen, env)
    requires Justified(emitted, Repeat(n, |emitted|), seen + more, env)
    ensures Justified(out + emitted, from + Repeat(n, |emitted|), seen + more, env)
  {
    forall i | 0 <= i < |out| && IsTapPress(out[i])
      ensures TapOf(out[i].record.event, seen + more, env(from[i]))
    {
      var ev :| ev in seen && ReleasesBy(ev, out[i].record.event, env(from[i]));
      assert ev in seen + more;
    }
  }

  /** What a run keeps about taps: everything stored was input, and every tap is justified. */
  ghost predicate Tapping(s: State, seen: seq<Event>, env: Env) {
    Known(s.queue, seen) && KnownKey(s.tapping, seen) && Justified(s.out, s.from, seen, env)
  }

  lemma AfterTapping(s: State, rec: Record, env: Env, seen: seq<Event>)
    requires Ready(rec) && rec.event in seen && Tapping(s, seen, env)
    ensures var st := StepOn(s, rec, env);
      KnownKey(st.tapping, seen) && Justified(After(s, st).out, After(s, st).from, seen, env)
  {
    var st := StepOn(s, rec, env);
    StepJustified(s.tapping, s.queue, rec, env, s.calls, seen);
    assert seen + [] == seen;
    JustifiedGrows(s.out, s.from, seen, [], env, st.emitted, s.calls);
  }

  lemma {:induction false} DrainTapping(s: State, env: Env, seen: seq<Event>)
    requires Inv(s) && Tapping(s, seen, env)
    ensures Tapping(Drain(s, env), seen, env)
    decreases |s.queue|
  {
    if s.queue != [] {
      var rec, a := s.queue[0], env(s.calls);
      var st := StepOn(s, rec, env);
      StepMarks(s.tapping, s.queue, rec, a);
      MarksKeepsQueued(rec, s.queue, st);
      AfterTapping(s, rec, env, seen);
      TurnClassified(s.tapping, s.queue, a);
      if st.consumed { DrainTapping(Turned(s, st), env, seen); }
    }
  }

  lemma TickEmitsNoTap(tk: Record, queue: seq<Record>, rec: Record, a: Answers)
    requires IsTick(rec)
    ensures var st := ProcessTapping(tk, queue, rec, a);
      && (forall i :: 0 <= i < |st.emitted| ==> !IsTapPress(st.emitted[i]))
      && (st.tapping == tk || st.tapping == NO_RECORD)
  {
  }

  lemma AcceptTapping(s: State, rec: Record, env: Env, seen: seq<Event>)
    requires Inv(s) && Ready(rec) && Tapping(s, seen, env)
    ensures Tapping(Accept(s, rec, env), seen + Input(rec), env)
  {
    var a, more := env(s.calls), seen + Input(rec);
    var st := StepOn(s, rec, env);
    StepMarks(s.tapping, s.queue, rec, a);
    if IsTick(rec) {
      TickEmitsNoTap(s.tapping, s.queue, rec, a);
    } else {
      StepJustified(s.tapping, s.queue, rec, env, s.calls, more);
    }
    JustifiedGrows(s.out, s.from, seen, Input(rec), env, st.emitted, s.calls);
  }

  lemma {:induction false} RunTapping(inputs: seq<Record>, env: Env)
    requires forall i :: 0 <= i < |inputs| ==> Fresh(inputs[i])
    ensures Tapping(Run(INIT, inputs, env), Inputs(inputs), env)
  {
    if inputs != [] {
      var n := |inputs| - 1;
      var s := Run(INIT, inputs[..n], env);
      RunTapping(inputs[..n], env);
      RunKeepsInv(inputs[..n], env);
      AcceptTapping(s, inputs[n], env, Inputs(inputs[..n]));
      AcceptKeepsInv(s, inputs[n], env);
      DrainTapping(Accept(s, inputs[n], env), env, Inputs(inputs));
    }
  }

  /** No release of the key is input before the press and put, by a 16-bit clock that wraps or
      stands still, less than the call's term after it. */
  ghost predicate NoStaleRelease(press: Event, seen: seq<Event>, a: Answers) {
    forall j: nat, p: nat :: j < p < |seen| && seen[p] == press ==> !ReleasesBy(seen[j], press, a)
  }

  ghost predicate TapInOrder(press: Event, seen: seq<Event>, a: Answers) {
    exists p: nat, j: nat :: p < j < |seen| && seen[p] == press && ReleasesBy(seen[j], press, a)
  }

  ghost predicate IsTap(press: Event, seen: seq<Event>, a: Answers) {
    TapOf(press, seen, a) && (NoStaleRelease(press, seen, a) ==> TapInOrder(press, seen, a))
  }

  lemma InOrder(press: Event, seen: seq<Event>, a: Answers)
    requires press.pressed && TapOf(press, seen, a) && NoStaleRelease(press, seen, a)
    ensures TapInOrder(press, seen, a)
  {
    var p: nat :| p < |seen| && seen[p] == press;
    var ev :| ev in seen && ReleasesBy(ev, press, a);
    var j: nat :| j < |seen| && seen[j] == ev;
    assert p < j;
  }

  /** In every run, a press goes out as a first tap only if it was input and so was a release
      of its key, less than a tapping term answered in the emitting call later on the 16-bit
      clock. That release comes later in the input, unless one before the press is stale. */
  lemma {:induction false} TapsAreTaps(inputs: seq<Record>, env: Env)
    requires forall k :: 0 <= k < |inputs| ==> Fresh(inputs[k])
    ensures var s, seen := Run(INIT, inputs, env), Inputs(inputs);
      && |s.from| == |s.out|
      && forall i :: 0 <= i < |s.out| && IsTapPress(s.out[i]) ==> IsTap(s.out[i].record.event, seen, env(s.from[i]))
  {
    RunTapping(inputs, env);
    var s, seen := Run(INIT, inputs, env), Inputs(inputs);
    forall i | 0 <= i < |s.out| && IsTapPress(s.out[i])
      ensures IsTap(s.out[i].record.event, seen, env(s.from[i]))
    {
      var press, a := s.out[i].record.event, env(s.from[i]);
      if NoStaleRelease(press, seen, a) { InOrder(press, seen, a); }
    }
  }

  // ---------- stale releases ----------

  /** Answers that never change. */
  function Always(a: Answers): Env { n => a }

  /** Whether the key is down after the inputs. */
  predicate IsDown(inputs: seq<Record>, key: KeyPos) {
    if inputs == [] then false
    else
      var r := inputs[|inputs| - 1];
      if !IsTick(r) && r.event.key == key then r.event.pressed else IsDown(inputs[..|inputs| - 1], key)
  }

  /** What a keyboard hands over: fresh records, every key pressed and released in turn. */
  predicate FromKeyboard(inputs: seq<Record>) {
    forall i :: 0 <= i < |inputs| ==>
      && Fresh(inputs[i])
      && (IsTick(inputs[i]) || inputs[i].event.pressed != IsDown(inputs[..i], inputs[i].event.key))
  }

  /** r is the only release of its key in the inputs. */
  predicate OnlyRelease(inputs: seq<Record>, r: Event) {
    && (exists i :: 0 <= i < |inputs| && inputs[i].event == r)
    && forall i :: 0 <= i < |inputs| && !IsTick(inputs[i]) && inputs[i].event.key == r.key && !inputs[i].event.pressed
         ==> inputs[i].event == r
  }

  /** The call that hands over the last input emits it as a tap. */
  ghost predicate TapsLast(inputs: seq<Record>, env: Env)
    requires inputs != []
  {
    var n := |inputs| - 1;
    var before, after := Run(INIT, inputs[..n], env).out, Run(INIT, inputs, env).out;
    exists i :: |before| <= i < |after| && IsTapPress(after[i]) && after[i].record.event == inputs[n].event
  }

  /** In the run press p is the last input and goes out as a tap at once, and the only release
      of its key is r, an earlier input. */
  ghost predicate StaleTap(inputs: seq<Record>, env: Env, r: Event, p: Event) {
    && inputs != [] && FromKeyboard(inputs) && OnlyRelease(inputs, r)
    && inputs[|inputs| - 1].event == p && TapsLast(inputs, env)
  }

  lemma {:induction false} InputsAreRecords(inputs: seq<Record>, ev: Event)
    requires ev in Inputs(inputs)
    ensures exists i :: 0 <= i < |inputs| && !IsTick(inputs[i]) && inputs[i].event == ev
  {
    var n := |inputs| - 1;
    if ev in Inputs(inputs[..n]) {
      InputsAreRecords(inputs[..n], ev);
      var i :| 0 <= i < n && !IsTick(inputs[..n][i]) && inputs[..n][i].event == ev;
      assert inputs[i].event == ev;
    } else {
      assert inputs[n].event == ev;
    }
  }

  lemma StaleTapInTerm(inputs: seq<Record>, a: Answers, r: Event, p: Event)
    requires StaleTap(inputs, Always(a), r, p) && r.key == p.key && a.scanTerm == a.term
    ensures Diff16(r.time, p.time) < a.term
  {
    var env := Always(a);
    var out := Run(INIT, inputs, env).out;
    var i :| 0 <= i < |out| && IsTapPress(out[i]) && out[i].record.event == p;
    TapsAreTaps(inputs, env);
    assert IsTap(p, Inputs(inputs), a);
    var ev :| ev in Inputs(inputs) && ReleasesBy(ev, p, a);
    InputsAreRecords(inputs, ev);
  }

  /** The key is held, a second and a third one are pressed a term later, and the key goes up
      when their term is over. The release waits behind the third press, which gives up the
      tapping key without taking the release along; then the key is pressed again. */
  function StaleInputs(r: Event, p: Event, term: u16): seq<Record> {
    var k := p.key;
    var f := KeyPos(k.row, if k.col == 0 then 1 else 0);
    var g := KeyPos(k.row, if k.col < 2 then 2 else 1);
    [Pressed(k, (r.time - term - term) % WRAP16),
     Pressed(f, (r.time - term) % WRAP16),
     Pressed(g, (r.time - term) % WRAP16),
     Record(r, Tap(false, 0)),
     Record(p, Tap(false, 0))]
  }

  function Pressed(key: KeyPos, time: u16): Record { Record(Event(key, time, Key, true), Tap(false, 0)) }

  function StaleAnswers(term: u16): Answers { Answers(true, term, 0, false, false, true, term) }

  lemma TermApart(x: int, term: u16)
    ensures Diff16(x % WRAP16, (x - term) % WRAP16) == term
  {
  }

  lemma RunOneMore(rs: seq<Record>, n: nat, env: Env)
    requires n < |rs|
    ensures Run(INIT, rs[..n + 1], env) == Process(Run(INIT, rs[..n], env), rs[n], env)
  {
    assert rs[..n + 1][..n] == rs[..n];
  }

  /** A press that finds neither a tapping key nor a release of its own becomes the tapping key. */
  lemma BecomesTapping(s: State, rec: Record, queue: seq<Record>, term: u16)
    requires IsTick(s.tapping) && !IsTick(rec) && rec.event.pressed && rec.tap.count == 0
    requires forall i :: 0 <= i < |s.queue| ==> !SameKey(s.queue[i], rec) || s.queue[i].event.pressed
    ensures StepOn(s, rec, Always(StaleAnswers(term))) == Step(rec, s.queue, [], rec, true)
  {
    assert FirstTapRelease(s.queue, rec, term) == |s.queue|;
  }

  /** The tapping key's term is over: it goes out as a hold. */
  lemma GivesUp(s: State, rec: Record, term: u16)
    requires !IsTick(s.tapping) && s.tapping.event.pressed && s.tapping.tap.count == 0
    requires Diff16(rec.event.time, s.tapping.event.time) == term
    ensures StepOn(s, rec, Always(StaleAnswers(term))) == Step(NO_RECORD, s.queue, Emit(s.tapping), rec, false)
  {
  }

  lemma NextHeld(s: State, rec: Record, term: u16)
    requires s.queue == [] && !IsTick(s.tapping) && s.tapping.event.pressed && s.tapping.tap.count == 0
    requires !IsTick(rec) && rec.event.pressed && rec.tap.count == 0
    requires Diff16(rec.event.time, s.tapping.event.time) == term
    ensures var t := Process(s, rec, Always(StaleAnswers(term))); t.tapping == rec && t.queue == []
  {
    var env := Always(StaleAnswers(term));
    GivesUp(s, rec, term);
    var u := Accept(s, rec, env);
    assert u.tapping == NO_RECORD && u.queue == [rec];
    BecomesTapping(u, rec, u.queue, term);
    var v := Turned(u, StepOn(u, rec, env));
    assert v.queue == [];
    assert Drain(u, env) == Drain(v, env) == v;
  }

  lemma Waits(s: State, rec: Record, term: u16)
    requires s.queue == [] && !IsTick(s.tapping) && s.tapping.event.pressed && s.tapping.tap.count == 0
    requires !IsTick(rec) && rec.event.pressed && rec.event.time == s.tapping.event.time && term > 0
    ensures var t := Process(s, rec, Always(StaleAnswers(term)));
      t.tapping == s.tapping.(tap := s.tapping.tap.(interrupted := true)) && t.queue == [rec]
  {
    var env := Always(StaleAnswers(term));
    var tk := s.tapping.(tap := s.tapping.tap.(interrupted := true));
    assert StepOn(s, rec, env) == Step(tk, s.queue, [], rec, false);
    var u := Accept(s, rec, env);
    assert u.tapping == tk && u.queue == [rec];
    assert StepOn(u, rec, env) == Step(tk, u.queue, [], rec, false);
    assert u.queue[0 := rec] == [rec];
  }

  /** The release ends the term of the tapping key and of the press that waits, and stays. */
  lemma ReleaseStays(s: State, g: Record, rel: Record, term: u16)
    requires !IsTick(s.tapping) && s.tapping.event.pressed && s.tapping.tap.count == 0 && s.queue == [g]
    requires !IsTick(g) && g.event.pressed && g.tap.count == 0 && g.event.time == s.tapping.event.time
    requires !IsTick(rel) && !SameKey(rel, g) && Diff16(rel.event.time, g.event.time) == term
    ensures var t := Process(s, rel, Always(StaleAnswers(term))); t.tapping == NO_RECORD && t.queue == [rel]
  {
    var env := Always(StaleAnswers(term));
    GivesUp(s, rel, term);
    var u := Accept(s, rel, env);
    assert u.tapping == NO_RECORD && u.queue == [g, rel];
    BecomesTapping(u, g, u.queue, term);
    var v := Turned(u, StepOn(u, g, env));
    assert v.tapping == g && v.queue == [rel];
    GivesUp(v, rel, term);
    assert v.queue[0 := rel] == [rel];
    assert Drain(u, env) == Drain(v, env) == Turned(v, StepOn(v, rel, env));
  }

  lemma {:induction false} DrainAppends(s: State, env: Env)
    ensures s.out <= Drain(s, env).out
    decreases |s.queue|
  {
    if s.queue != [] && StepOn(s, s.queue[0], env).consumed {
      DrainAppends(Turned(s, StepOn(s, s.queue[0], env)), env);
    }
  }

  /** A waiting release makes a tap of the press. */
  lemma TapsAtOnce(s: State, rel: Record, rec: Record, term: u16)
    requires s.tapping == NO_RECORD && s.queue == [rel]
    requires !IsTick(rec) && rec.event.pressed && rec.tap.count == 0 && IsTapRelease(rec, rel, term)
    ensures var out := Process(s, rec, Always(StaleAnswers(term))).out;
      && |s.out| < |out| && IsTapPress(out[|s.out|]) && out[|s.out|].record.event == rec.event
  {
    var env := Always(StaleAnswers(term));
    assert FirstTapRelease(s.queue, rec, term) == 0;
    var tapped := WithCount(rec, 1);
    assert StepOn(s, rec, env).emitted == Emit(tapped);
    DrainAppends(Accept(s, rec, env), env);
    assert Accept(s, rec, env).out[|s.out|] == Emission(tapped, false);
  }

  predicate FreshPress(r: Record) { !IsTick(r) && r.event.pressed && r.tap.count == 0 }

  /** The second press comes a term after the first, the third at the same time, and the
      release of another key than the third a term later. */
  predicate StaleShape(rs: seq<Record>, term: u16)
    requires |rs| >= 4
  {
    && FreshPress(rs[0]) && FreshPress(rs[1]) && FreshPress(rs[2])
    && Diff16(rs[1].event.time, rs[0].event.time) == term && rs[2].event.time == rs[1].event.time
    && !IsTick(rs[3]) && !SameKey(rs[3], rs[2]) && Diff16(rs[3].event.time, rs[2].event.time) == term
  }

  /** The run holds the second key and lets the third wait. */
  lemma StaleHolds(rs: seq<Record>, term: u16)
    requires |rs| >= 4 && term > 0 && StaleShape(rs, term)
    ensures var s := Run(INIT, rs[..3], Always(StaleAnswers(term)));
      s.tapping == rs[1].(tap := rs[1].tap.(interrupted := true)) && s.queue == [rs[2]]
  {
    var env := Always(StaleAnswers(term));
    RunOneMore(rs, 0, env);
    RunOneMore(rs, 1, env);
    RunOneMore(rs, 2, env);
    assert rs[..0] == [];
    BecomesTapping(INIT, rs[0], [], term);
    NextHeld(Run(INIT, rs[..1], env), rs[1], term);
    Waits(Run(INIT, rs[..2], env), rs[2], term);
  }

  /** Up to the release, the run ends without a tapping key and with the release waiting. */
  lemma StaleWaits(rs: seq<Record>, term: u16)
    requires |rs| >= 4 && term > 0 && StaleShape(rs, term)
    ensures var s := Run(INIT, rs[..4], Always(StaleAnswers(term)));
      s.tapping == NO_RECORD && s.queue == [rs[3]]
  {
    var env := Always(StaleAnswers(term));
    StaleHolds(rs, term);
    RunOneMore(rs, 3, env);
    ReleaseStays(Run(INIT, rs[..3], env), rs[2], rs[3], term);
  }

  /** The press that follows goes out as a tap at once. */
  lemma StaleTapsLast(rs: seq<Record>, term: u16)
    requires |rs| == 5 && StaleShape(rs, term) && FreshPress(rs[4]) && IsTapRelease(rs[4], rs[3], term)
    ensures TapsLast(rs, Always(StaleAnswers(term)))
  {
    var env := Always(StaleAnswers(term));
    StaleWaits(rs, term);
    RunOneMore(rs, 4, env);
    assert rs[..5] == rs;
    TapsAtOnce(Run(INIT, rs[..4], env), rs[3], rs[4], term);
  }

  lemma StaleInputsShape(r: Event, p: Event, term: u16)
    requires !r.pressed && r.kind != Tick && r.key == p.key
    ensures StaleShape(StaleInputs(r, p, term), term)
  {
    TermApart(r.time - term, term);
    TermApart(r.time, term);
  }

  lemma DownAfter(rs: seq<Record>, n: nat, key: KeyPos)
    requires n < |rs| && !IsTick(rs[n])
    ensures IsDown(rs[..n + 1], key) == if rs[n].event.key == key then rs[n].event.pressed else IsDown(rs[..n], key)
  {
    assert rs[..n + 1][..n] == rs[..n];
  }

  lemma StaleInputsFromKeyboard(r: Event, p: Event, term: u16)
    requires !r.pressed && r.kind != Tick && p.pressed && p.kind != Tick && r.key == p.key
    ensures FromKeyboard(StaleInputs(r, p, term)) && OnlyRelease(StaleInputs(r, p, term), r)
  {
    var rs := StaleInputs(r, p, term);
    assert rs[3].event == r;
    assert rs[..0] == [];
    DownAfter(rs, 0, rs[1].event.key);
    DownAfter(rs, 0, rs[2].event.key);
    DownAfter(rs, 1, rs[2].event.key);
    DownAfter(rs, 0, r.key);
    DownAfter(rs, 1, r.key);
    DownAfter(rs, 2, r.key);
    DownAfter(rs, 3, r.key);
  }

  lemma StaleInputsTap(r: Event, p: Event, term: u16)
    requires !r.pressed && r.kind != Tick && p.pressed && p.kind != Tick && r.key == p.key
    requires Diff16(r.time, p.time) < term
    ensures StaleTap(StaleInputs(r, p, term), Always(StaleAnswers(term)), r, p)
  {
    StaleInputsShape(r, p, term);
    StaleTapsLast(StaleInputs(r, p, term), term);
    StaleInputsFromKeyboard(r, p, term);
  }

  /** For a release and a press of one key and a term: there is a run, all of whose answers are
      that term, in which the press goes out as a tap because of the release that came before
      it, exactly when the 16-bit clock puts the release less than the term after the press. */
  lemma StaleReleaseTaps(r: Event, p: Event, term: u16)
    requires !r.pressed && r.kind != Tick && p.pressed && p.kind != Tick && r.key == p.key
    ensures (exists inputs, a: Answers :: a.term == a.scanTerm == term && StaleTap(inputs, Always(a), r, p))
       <==> Diff16(r.time, p.time) < term
  {
    if Diff16(r.time, p.time) < term {
      StaleInputsTap(r, p, term);
    } else if inputs, a: Answers :| a.term == a.scanTerm == term && StaleTap(inputs, Always(a), r, p) {
      StaleTapInTerm(inputs, a, r, p);
    }
  }

  /** In real time: the same instant, or nearly a wrap of the clock or more later. */
  lemma StaleInRealTime(release: nat, press: nat, term: u16)
    requires release <= press
    ensures press - release < WRAP16 ==>
      (Diff16(release % WRAP16, press % WRAP16) < term
       <==> (press == release && term > 0) || press - release > WRAP16 - term)
  {
  }
}
