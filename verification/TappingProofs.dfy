/** What every run of the tap/hold state machine keeps. */
module TappingProofs {
  import opened Basics
  import opened Timer
  import opened TappingSpec

  // ---------- invariant ----------

  /** Records enter with a cleared tap state, so presses that wait carry no count. */
  predicate Ready(r: Record) { r.event.pressed ==> r.tap.count == 0 }

  predicate WellQueued(queue: seq<Record>) {
    forall i :: 0 <= i < |queue| ==> !IsTick(queue[i]) && Ready(queue[i])
  }

  predicate IsMarkedRelease(tk: Record, r: Record) {
    !r.event.pressed && SameKey(tk, r) && r.tap.count == 1
  }

  /** A key that is down as a first tap has its release waiting, marked as a tap. */
  predicate Classified(tk: Record, queue: seq<Record>) {
    !IsTick(tk) && tk.event.pressed && tk.tap.count == 1 ==>
      exists i :: 0 <= i < |queue| && IsMarkedRelease(tk, queue[i])
  }

  predicate Inv(s: State) {
    && |s.queue| <= 7
    && WellQueued(s.queue)
    && Classified(s.tapping, s.queue)
  }

  /** What action_exec hands over: records with a cleared tap state. */
  predicate Fresh(r: Record) { r.tap == Tap(false, 0) }

  // ---------- accounting ----------

  function Real(es: seq<Emission>): (r: seq<Event>)
    ensures |r| <= |es|
  {
    if es == [] then []
    else Real(es[..|es| - 1]) + (if es[|es| - 1].synthetic then [] else [es[|es| - 1].record.event])
  }

  lemma {:induction false} RealConcat(a: seq<Emission>, b: seq<Emission>)
    ensures Real(a + b) == Real(a) + Real(b)
  {
    if b == [] {
      assert a + b == a;
    } else {
      assert (a + b)[..|a + b| - 1] == a + b[..|b| - 1];
      RealConcat(a, b[..|b| - 1]);
    }
  }

  function Input(r: Record): seq<Event> { if IsTick(r) then [] else [r.event] }

  function Inputs(rs: seq<Record>): seq<Event> {
    if rs == [] then [] else Inputs(rs[..|rs| - 1]) + Input(rs[|rs| - 1])
  }

  /** How often an event occurs. */
  function Times(es: seq<Event>, e: Event): nat {
    if es == [] then 0 else Times(es[..|es| - 1], e) + if es[|es| - 1] == e then 1 else 0
  }

  lemma {:induction false} TimesConcat(a: seq<Event>, b: seq<Event>, e: Event)
    ensures Times(a + b, e) == Times(a, e) + Times(b, e)
  {
    if b == [] {
      assert a + b == a;
    } else {
      assert (a + b)[..|a + b| - 1] == a + b[..|b| - 1];
      TimesConcat(a, b[..|b| - 1], e);
    }
  }

  /** Occurrences of an event in everything the machine has emitted, holds or lost. */
  function Tally(s: State, e: Event): nat {
    Times(Real(s.out), e) + Times(Events(s.queue), e) + Times(Pending(s.tapping), e) + Times(s.lost, e)
  }

  lemma RealShort(e: Emission, f: Emission)
    ensures Real([e]) == if e.synthetic then [] else [e.record.event]
    ensures e.synthetic && !f.synthetic ==> Real([e, f]) == [f.record.event]
  {
    assert [e][..0] == [] && [e, f][..1] == [e];
  }

  /** Input and held-back press on one side; emissions, held-back press and what is still
      to be queued on the other. */
  predicate Accounted(tk: Record, rec: Record, st: Step) {
    var left := Pending(st.tapping) + if st.consumed then [] else Input(rec);
    || Pending(tk) + Input(rec) == Real(st.emitted) + left
    || Pending(tk) + Input(rec) == left + Real(st.emitted)
  }

  lemma StartTapAccounted(rec: Record, queue: seq<Record>, term: u16)
    requires Ready(rec) && rec.event.pressed && !IsTick(rec)
    ensures Accounted(NO_RECORD, rec, StartTap(rec, queue, term))
  {
    var st := StartTap(rec, queue, term);
    if st.emitted != [] { RealShort(st.emitted[0], st.emitted[0]); }
  }

  lemma RestartTapAccounted(tk: Record, queue: seq<Record>, rec: Record, a: Answers)
    requires Ready(rec) && rec.event.pressed && !IsTick(rec)
    ensures Accounted(NO_RECORD, rec, RestartTap(tk, queue, rec, a))
  {
    StartTapAccounted(rec, queue, a.scanTerm);
    var release := Emission(Record(tk.event.(time := rec.event.time, pressed := false), tk.tap), true);
    RealConcat([release], StartTap(rec, queue, a.scanTerm).emitted);
    RealShort(release, release);
  }

  lemma UndecidedAccounted(tk: Record, queue: seq<Record>, rec: Record, a: Answers)
    requires Ready(rec) && !IsTick(rec)
    requires !IsTick(tk) && tk.event.pressed && tk.tap.count == 0
    ensures Accounted(tk, rec, Undecided(tk, queue, rec, a))
  {
    var st := Undecided(tk, queue, rec, a);
    if st.emitted != [] { RealShort(st.emitted[0], st.emitted[0]); }
  }

  lemma TappedAccounted(tk: Record, queue: seq<Record>, rec: Record, a: Answers, within: bool)
    requires Ready(rec) && !IsTick(rec)
    requires !IsTick(tk) && tk.event.pressed && tk.tap.count > 0
    ensures Accounted(tk, rec, Tapped(tk, queue, rec, a, within))
  {
    if rec.event.pressed && a.isTap {
      RestartTapAccounted(tk, queue, rec, a);
    } else {
      var st := Tapped(tk, queue, rec, a, within);
      RealShort(st.emitted[0], st.emitted[0]);
    }
  }

  lemma AfterTapAccounted(tk: Record, queue: seq<Record>, rec: Record, a: Answers)
    requires Ready(rec) && !IsTick(rec)
    requires !IsTick(tk) && !tk.event.pressed
    ensures Accounted(tk, rec, AfterTap(tk, queue, rec, a))
  {
    if rec.event.pressed && a.isTap && !SameKey(tk, rec) {
      StartTapAccounted(rec, queue, a.scanTerm);
    } else {
      var st := AfterTap(tk, queue, rec, a);
      if st.emitted != [] { RealShort(st.emitted[0], st.emitted[0]); }
    }
  }

  /** One call of process_tapping neither loses nor duplicates an event. */
  lemma StepAccounted(tk: Record, queue: seq<Record>, rec: Record, a: Answers)
    requires Ready(rec)
    ensures Accounted(tk, rec, ProcessTapping(tk, queue, rec, a))
  {
    var within := Diff16(rec.event.time, tk.event.time) < a.term;
    if IsTick(tk) && !IsTick(rec) && rec.event.pressed && a.isTap {
      StartTapAccounted(rec, queue, a.scanTerm);
    } else if IsTick(rec) || IsTick(tk) || (!within && (!tk.event.pressed || tk.tap.count == 0)) {
      var st := ProcessTapping(tk, queue, rec, a);
      if st.emitted != [] { RealShort(st.emitted[0], st.emitted[0]); }
    } else if !tk.event.pressed {
      AfterTapAccounted(tk, queue, rec, a);
    } else if tk.tap.count == 0 {
      UndecidedAccounted(tk, queue, rec, a);
    } else {
      TappedAccounted(tk, queue, rec, a, within);
    }
  }

  /** The step marks at most one waiting record, a release that completes the tap it emits;
      a record it leaves to be queued changes only in its tap state. */
  predicate Marks(rec: Record, queue: seq<Record>, st: Step) {
    && |st.queue| == |queue|
    && (forall i :: 0 <= i < |queue| ==>
         st.queue[i] == queue[i] || (!queue[i].event.pressed && st.queue[i] == WithCount(queue[i], 1)))
    && st.rec.event == rec.event
    && (!st.consumed ==> Ready(st.rec))
  }

  lemma StepMarks(tk: Record, queue: seq<Record>, rec: Record, a: Answers)
    requires Ready(rec)
    ensures Marks(rec, queue, ProcessTapping(tk, queue, rec, a))
  {
  }

  // ---------- conservation ----------

  function Rest(rec: Record, st: Step): seq<Event> { if st.consumed then [] else Input(rec) }

  lemma AccountedTimes(tk: Record, rec: Record, st: Step, e: Event)
    requires Accounted(tk, rec, st)
    ensures Times(Pending(tk), e) + Times(Input(rec), e)
         == Times(Real(st.emitted), e) + Times(Pending(st.tapping), e) + Times(Rest(rec, st), e)
  {
    TimesConcat(Pending(tk), Input(rec), e);
    TimesConcat(Pending(st.tapping), Rest(rec, st), e);
    TimesConcat(Real(st.emitted), Pending(st.tapping) + Rest(rec, st), e);
    TimesConcat(Pending(st.tapping) + Rest(rec, st), Real(st.emitted), e);
  }

  lemma MarksKeepsQueued(rec: Record, queue: seq<Record>, st: Step)
    requires Marks(rec, queue, st) && WellQueued(queue)
    ensures Events(st.queue) == Events(queue) && WellQueued(st.queue)
  {
  }

  lemma AfterConserves(s: State, rec: Record, st: Step, e: Event)
    requires WellQueued(s.queue)
    requires Accounted(s.tapping, rec, st) && Marks(rec, s.queue, st)
    ensures Tally(After(s, st), e) + Times(Rest(rec, st), e) == Tally(s, e) + Times(Input(rec), e)
    ensures WellQueued(st.queue)
  {
    AccountedTimes(s.tapping, rec, st, e);
    MarksKeepsQueued(rec, s.queue, st);
    RealConcat(s.out, st.emitted);
    TimesConcat(Real(s.out), Real(st.emitted), e);
  }

  lemma TimesFour(a: seq<Event>, b: seq<Event>, c: seq<Event>, d: seq<Event>, e: Event)
    ensures Times(a + b + c + d, e) == Times(a, e) + Times(b, e) + Times(c, e) + Times(d, e)
  {
    TimesConcat(a, b, e);
    TimesConcat(a + b, c, e);
    TimesConcat(a + b + c, d, e);
  }

  lemma EventsConcat(queue: seq<Record>, rec: Record)
    ensures Events(queue + [rec]) == Events(queue) + [rec.event]
  {
  }

  lemma EnqueueConserves(s: State, rec: Record, e: Event)
    ensures Tally(Enqueue(s, rec), e) == Tally(s, e) + Times(Input(rec), e)
  {
    if IsTick(rec) {
    } else if |s.queue| < CAPACITY {
      EventsConcat(s.queue, rec);
      TimesConcat(Events(s.queue), [rec.event], e);
    } else {
      TimesFour(s.lost, Pending(s.tapping), Events(s.queue), [rec.event], e);
    }
  }

  lemma AcceptConserves(s: State, rec: Record, env: Env, e: Event)
    requires WellQueued(s.queue) && Ready(rec)
    ensures Tally(Accept(s, rec, env), e) == Tally(s, e) + Times(Input(rec), e)
  {
    var st := StepOn(s, rec, env);
    StepAccounted(s.tapping, s.queue, rec, env(s.calls));
    StepMarks(s.tapping, s.queue, rec, env(s.calls));
    AfterConserves(s, rec, st, e);
    EnqueueConserves(After(s, st), st.rec, e);
  }

  lemma EventsTail(queue: seq<Record>, rec: Record)
    requires queue != [] && rec.event == queue[0].event
    ensures Events(queue) == [rec.event] + Events(queue[1..])
    ensures Events(queue[0 := rec]) == Events(queue)
  {
  }

  lemma TurnConserves(s: State, st: Step, e: Event)
    requires WellQueued(s.queue) && s.queue != []
    requires Accounted(s.tapping, s.queue[0], st) && Marks(s.queue[0], s.queue, st)
    ensures Tally(Turned(s, st), e) == Tally(s, e)
  {
    AfterConserves(s, s.queue[0], st, e);
    MarksKeepsQueued(s.queue[0], s.queue, st);
    assert Events(s.queue)[0] == st.rec.event && Events(st.queue)[0] == st.rec.event;
    EventsTail(st.queue, st.rec);
    TimesConcat([st.rec.event], Events(st.queue[1..]), e);
  }

  lemma TurnKeepsQueued(s: State, st: Step)
    requires WellQueued(s.queue) && s.queue != [] && Marks(s.queue[0], s.queue, st)
    ensures WellQueued(Turned(s, st).queue) && |Turned(s, st).queue| <= |s.queue|
  {
    MarksKeepsQueued(s.queue[0], s.queue, st);
  }

  /** One turn of the drain loop. */
  lemma TurnOfDrain(s: State, env: Env, e: Event)
    requires WellQueued(s.queue) && s.queue != []
    ensures var t := Turned(s, StepOn(s, s.queue[0], env));
      Tally(t, e) == Tally(s, e) && WellQueued(t.queue) && |t.queue| <= |s.queue|
  {
    var st := StepOn(s, s.queue[0], env);
    StepAccounted(s.tapping, s.queue, s.queue[0], env(s.calls));
    StepMarks(s.tapping, s.queue, s.queue[0], env(s.calls));
    TurnKeepsQueued(s, st);
    TurnConserves(s, st, e);
  }

  lemma {:induction false} DrainConserves(s: State, env: Env, e: Event)
    requires WellQueued(s.queue)
    ensures Tally(Drain(s, env), e) == Tally(s, e)
    decreases |s.queue|
  {
    if s.queue != [] {
      var st := StepOn(s, s.queue[0], env);
      TurnOfDrain(s, env, e);
      if st.consumed { DrainConserves(Turned(s, st), env, e); }
    }
  }

  // ---------- the invariant ----------

  lemma StepClassified(tk: Record, queue: seq<Record>, rec: Record, a: Answers)
    requires Classified(tk, queue) && Ready(rec)
    ensures var st := ProcessTapping(tk, queue, rec, a);
      Classified(st.tapping, if st.consumed then st.queue else st.queue + [st.rec])
  {
    var st := ProcessTapping(tk, queue, rec, a);
    var queued := if st.consumed then st.queue else st.queue + [st.rec];
    if !IsTick(st.tapping) && st.tapping.event.pressed && st.tapping.tap.count == 1 {
      if !st.consumed {
        assert IsMarkedRelease(st.tapping, queued[|queue|]);
      } else if st.tapping.event == tk.event && tk.tap.count == 1 && !IsTick(tk) && st.queue == queue {
        var i :| 0 <= i < |queue| && IsMarkedRelease(tk, queue[i]);
        assert IsMarkedRelease(st.tapping, queued[i]);
      } else {
        var i := FirstTapRelease(queue, rec, a.scanTerm);
        assert IsMarkedRelease(st.tapping, queued[i]);
      }
    }
  }

  /** The same when the record is the oldest waiting one. */
  lemma TurnClassified(tk: Record, queue: seq<Record>, a: Answers)
    requires queue != [] && Classified(tk, queue) && Ready(queue[0]) && !IsTick(queue[0])
    ensures var st := ProcessTapping(tk, queue, queue[0], a);
      |st.queue| == |queue| && Classified(st.tapping, if st.consumed then st.queue[1..] else st.queue[0 := st.rec])
  {
    var rec := queue[0];
    var st := ProcessTapping(tk, queue, rec, a);
    var queued := if st.consumed then st.queue[1..] else st.queue[0 := st.rec];
    if !IsTick(st.tapping) && st.tapping.event.pressed && st.tapping.tap.count == 1 {
      if !st.consumed {
        assert IsMarkedRelease(st.tapping, queued[0]);
      } else if st.tapping.event == tk.event && tk.tap.count == 1 && !IsTick(tk) && st.queue == queue {
        var i :| 0 <= i < |queue| && IsMarkedRelease(tk, queue[i]);
        assert IsMarkedRelease(st.tapping, queued[i - 1]);
      } else {
        var i := FirstTapRelease(queue, rec, a.scanTerm);
        assert IsMarkedRelease(st.tapping, queued[i - 1]);
      }
    }
  }

  lemma {:induction false} DrainKeepsInv(s: State, env: Env)
    requires Inv(s)
    ensures Inv(Drain(s, env)) && Drain(s, env).lost == s.lost
    decreases |s.queue|
  {
    if s.queue != [] {
      var rec := s.queue[0];
      var st := StepOn(s, rec, env);
      StepMarks(s.tapping, s.queue, rec, env(s.calls));
      MarksKeepsQueued(rec, s.queue, st);
      TurnClassified(s.tapping, s.queue, env(s.calls));
      if st.consumed { DrainKeepsInv(Turned(s, st), env); }
    }
  }

  lemma AcceptKeepsInv(s: State, rec: Record, env: Env)
    requires Inv(s) && Ready(rec)
    ensures Inv(Accept(s, rec, env))
    ensures Accept(s, rec, env).lost != s.lost
       <==> !IsTick(rec) && |s.queue| == 7 && !StepOn(s, rec, env).consumed
  {
    var st := StepOn(s, rec, env);
    StepMarks(s.tapping, s.queue, rec, env(s.calls));
    MarksKeepsQueued(rec, s.queue, st);
    StepClassified(s.tapping, s.queue, rec, env(s.calls));
  }

  /** Every reachable state satisfies the invariant; events get lost exactly when a record
      that has to wait arrives while seven are waiting. */
  lemma ProcessKeepsInv(s: State, rec: Record, env: Env)
    requires Inv(s) && Ready(rec)
    ensures Inv(Process(s, rec, env))
    ensures Process(s, rec, env).lost != s.lost
       <==> !IsTick(rec) && |s.queue| == 7 && !StepOn(s, rec, env).consumed
  {
    AcceptKeepsInv(s, rec, env);
    DrainKeepsInv(Accept(s, rec, env), env);
  }

  // ---------- whole runs ----------

  lemma {:induction false} RunKeepsInv(inputs: seq<Record>, env: Env)
    requires forall i :: 0 <= i < |inputs| ==> Fresh(inputs[i])
    ensures Inv(Run(INIT, inputs, env))
  {
    if inputs != [] {
      var n := |inputs| - 1;
      RunKeepsInv(inputs[..n], env);
      ProcessKeepsInv(Run(INIT, inputs[..n], env), inputs[n], env);
    }
  }

  lemma {:induction false} RunTally(inputs: seq<Record>, env: Env, e: Event)
    requires forall i :: 0 <= i < |inputs| ==> Fresh(inputs[i])
    ensures Tally(Run(INIT, inputs, env), e) == Times(Inputs(inputs), e)
  {
    if inputs != [] {
      var n := |inputs| - 1;
      var s := Run(INIT, inputs[..n], env);
      RunTally(inputs[..n], env, e);
      RunKeepsInv(inputs[..n], env);
      AcceptConserves(s, inputs[n], env, e);
      AcceptKeepsInv(s, inputs[n], env);
      DrainConserves(Accept(s, inputs[n], env), env, e);
      TimesConcat(Inputs(inputs[..n]), Input(inputs[n]), e);
    }
  }

  lemma {:induction false} TimesIsMultiplicity(es: seq<Event>, e: Event)
    ensures multiset(es)[e] == Times(es, e)
  {
    if es != [] {
      TimesIsMultiplicity(es[..|es| - 1], e);
      assert es == es[..|es| - 1] + [es[|es| - 1]];
    }
  }

  lemma SumOfFour(all: seq<Event>, a: seq<Event>, b: seq<Event>, c: seq<Event>, d: seq<Event>)
    requires forall e: Event :: Times(all, e) == Times(a, e) + Times(b, e) + Times(c, e) + Times(d, e)
    ensures multiset(all) == multiset(a) + multiset(b) + multiset(c) + multiset(d)
  {
    forall e: Event
      ensures multiset(all)[e] == multiset(a)[e] + multiset(b)[e] + multiset(c)[e] + multiset(d)[e]
    {
      TimesIsMultiplicity(all, e);
      TimesIsMultiplicity(a, e);
      TimesIsMultiplicity(b, e);
      TimesIsMultiplicity(c, e);
      TimesIsMultiplicity(d, e);
    }
  }

  /** Conservation: in every run the input events are exactly the emitted ones (without the
      releases the machine makes up), those that wait, the one press that is held back, and
      those thrown away by overflow. */
  lemma {:induction false} Conservation(inputs: seq<Record>, env: Env)
    requires forall i :: 0 <= i < |inputs| ==> Fresh(inputs[i])
    ensures var s := Run(INIT, inputs, env);
      multiset(Inputs(inputs))
      == multiset(Real(s.out)) + multiset(Events(s.queue)) + multiset(Pending(s.tapping)) + multiset(s.lost)
  {
    var s := Run(INIT, inputs, env);
    forall e: Event
      ensures Times(Inputs(inputs), e)
           == Times(Real(s.out), e) + Times(Events(s.queue), e) + Times(Pending(s.tapping), e) + Times(s.lost, e)
    {
      RunTally(inputs, env, e);
    }
    SumOfFour(Inputs(inputs), Real(s.out), Events(s.queue), Pending(s.tapping), s.lost);
  }

  // ---------- bounded progress ----------

  /** The tick comes at least a tapping term after the record, whatever the term. */
  ghost predicate Expired(tick: Record, r: Record, env: Env) {
    forall n: nat :: env(n).term <= Diff16(tick.event.time, r.event.time)
  }

  /** The tick comes that late after everything the machine stores. */
  ghost predicate AllExpired(tick: Record, s: State, env: Env) {
    && (IsTick(s.tapping) || Expired(tick, s.tapping, env))
    && forall i :: 0 <= i < |s.queue| ==> Expired(tick, s.queue[i], env)
  }

  lemma {:induction false} DrainStores(s: State, env: Env, tick: Record)
    requires WellQueued(s.queue) && AllExpired(tick, s, env)
    ensures AllExpired(tick, Drain(s, env), env)
    ensures |Drain(s, env).queue| <= |s.queue|
    decreases |s.queue|
  {
    if s.queue != [] {
      var rec := s.queue[0];
      var st := StepOn(s, rec, env);
      StepMarks(s.tapping, s.queue, rec, env(s.calls));
      MarksKeepsQueued(rec, s.queue, st);
      TurnStores(s, env, tick);
      if st.consumed { DrainStores(Turned(s, st), env, tick); }
    }
  }

  lemma TurnStores(s: State, env: Env, tick: Record)
    requires s.queue != [] && WellQueued(s.queue) && AllExpired(tick, s, env)
    ensures AllExpired(tick, Turned(s, StepOn(s, s.queue[0], env)), env)
  {
    var rec := s.queue[0];
    var st := StepOn(s, rec, env);
    StepMarks(s.tapping, s.queue, rec, env(s.calls));
    assert IsTick(st.tapping) || st.tapping.event == rec.event || st.tapping.event == s.tapping.event;
  }

  /** A late tick leaves no undecided key, so the oldest waiting record goes next. */
  lemma LateTickSettles(s: State, tick: Record, env: Env)
    requires Inv(s) && IsTick(tick) && AllExpired(tick, s, env)
    ensures var t := Accept(s, tick, env);
      && Inv(t) && Pending(t.tapping) == [] && t.queue == s.queue && AllExpired(tick, t, env)
      && (s.queue != [] ==> StepOn(t, t.queue[0], env).consumed)
  {
    assert env(s.calls).term <= Diff16(tick.event.time, s.tapping.event.time) || IsTick(s.tapping);
  }

  lemma LateTickProgress(s: State, tick: Record, later: Record, env: Env)
    requires Inv(s) && Fresh(tick) && IsTick(tick) && AllExpired(tick, s, env) && AllExpired(later, s, env)
    ensures var t := Process(s, tick, env);
      && AllExpired(later, t, env)
      && (s.queue != [] ==> |t.queue| < |s.queue|)
      && (s.queue == [] ==> t.queue == [] && Pending(t.tapping) == [])
  {
    LateTickSettles(s, tick, env);
    var t := Accept(s, tick, env);
    if t.queue != [] {
      var st := StepOn(t, t.queue[0], env);
      StepMarks(t.tapping, t.queue, t.queue[0], env(t.calls));
      MarksKeepsQueued(t.queue[0], t.queue, st);
      TurnStores(t, env, later);
      DrainStores(Turned(t, st), env, later);
    }
  }

  /** Where k late ticks lead from s. */
  predicate Settled(s: State, t: State, k: nat) {
    && Inv(t) && t.lost == s.lost
    && |t.queue| <= (if k < |s.queue| then |s.queue| - k else 0)
    && (k > |s.queue| ==> Pending(t.tapping) == [])
  }

  lemma SettlesOn(s: State, t: State, k: nat, tick: Record, later: Record, env: Env)
    requires Settled(s, t, k) && Fresh(tick) && IsTick(tick) && AllExpired(tick, t, env) && AllExpired(later, t, env)
    ensures Settled(s, Process(t, tick, env), k + 1) && AllExpired(later, Process(t, tick, env), env)
  {
    LateTickProgress(t, tick, later, env);
    ProcessKeepsInv(t, tick, env);
  }

  lemma {:induction false} Settling(s: State, ticks: seq<Record>, env: Env, later: Record)
    requires Inv(s) && AllExpired(later, s, env)
    requires forall i :: 0 <= i < |ticks| ==> Fresh(ticks[i]) && IsTick(ticks[i]) && AllExpired(ticks[i], s, env)
    ensures Settled(s, Run(s, ticks, env), |ticks|) && AllExpired(later, Run(s, ticks, env), env)
  {
    if ticks != [] {
      var n := |ticks| - 1;
      Settling(s, ticks[..n], env, ticks[n]);
      Settling(s, ticks[..n], env, later);
      SettlesOn(s, Run(s, ticks[..n], env), n, ticks[n], later, env);
    }
  }

  lemma {:induction false} RunConcat(s: State, a: seq<Record>, b: seq<Record>, env: Env)
    ensures Run(s, a + b, env) == Run(Run(s, a, env), b, env)
  {
    if b == [] {
      assert a + b == a;
    } else {
      assert (a + b)[..|a + b| - 1] == a + b[..|b| - 1];
      RunConcat(s, a, b[..|b| - 1], env);
    }
  }

  lemma {:induction false} TicksAreNotInput(inputs: seq<Record>, ticks: seq<Record>)
    requires forall i :: 0 <= i < |ticks| ==> IsTick(ticks[i])
    ensures Inputs(inputs + ticks) == Inputs(inputs)
  {
    if ticks == [] {
      assert inputs + ticks == inputs;
    } else {
      assert (inputs + ticks)[..|inputs + ticks| - 1] == inputs + ticks[..|ticks| - 1];
      TicksAreNotInput(inputs, ticks[..|ticks| - 1]);
    }
  }

  /** One more late tick than there are waiting records. */
  ghost predicate EnoughTicks(ticks: seq<Record>, s: State, env: Env) {
    && |ticks| > |s.queue|
    && forall i :: 0 <= i < |ticks| ==> Fresh(ticks[i]) && IsTick(ticks[i]) && AllExpired(ticks[i], s, env)
  }

  /** Nothing waits and nothing is undecided: every input event was emitted or lost. */
  predicate AllEmitted(inputs: seq<Record>, t: State) {
    t.queue == [] && multiset(Inputs(inputs)) == multiset(Real(t.out)) + multiset(t.lost)
  }

  /** Bounded progress: after any run, one more late tick than there are waiting records (so
      eight always suffice) leaves nothing waiting and nothing undecided: every input event
      has been emitted exactly once, except what an overflow threw away before. */
  lemma {:induction false} LateTicksFlush(inputs: seq<Record>, ticks: seq<Record>, env: Env)
    requires forall i :: 0 <= i < |inputs| ==> Fresh(inputs[i])
    ensures var s, t := Run(INIT, inputs, env), Run(INIT, inputs + ticks, env);
      && |s.queue| <= 7
      && (EnoughTicks(ticks, s, env) ==> AllEmitted(inputs, t) && t.lost == s.lost)
  {
    var s := Run(INIT, inputs, env);
    RunKeepsInv(inputs, env);
    if EnoughTicks(ticks, s, env) {
      Settling(s, ticks, env, ticks[0]);
      RunConcat(INIT, inputs, ticks, env);
      TicksAreNotInput(inputs, ticks);
      Conservation(inputs + ticks, env);
    }
  }
}
