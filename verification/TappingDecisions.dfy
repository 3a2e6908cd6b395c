/** When a key comes out as a tap and when as a hold: every call of every run, and whole inputs
    from their presses and releases alone. */
module TappingDecisions {
  import opened Basics
  import opened Timer
  import opened TappingSpec
  import opened TappingProofs

  // ---------- every call ----------

  /** A key is down and undecided. */
  predicate Pends(tk: Record) { !IsTick(tk) && tk.event.pressed && tk.tap.count == 0 }

  /** Call n sends the event with this tap count. */
  ghost predicate Sends(s: State, n: nat, ev: Event, count: TapCount) {
    exists i :: 0 <= i < |s.out| && i < |s.from| && s.from[i] == n && IsSent(s.out[i], ev, count)
  }

  predicate IsSent(e: Emission, ev: Event, count: TapCount) {
    !e.synthetic && e.record.event == ev && e.record.tap.count == count
  }

  predicate TermOver(c: Call, a: Answers) { Diff16(c.event.time, c.tapping.event.time) >= a.term }

  predicate OwnRelease(c: Call) {
    c.event.kind != Tick && !c.event.pressed && c.event.key == c.tapping.event.key
  }

  /** Another key goes up whose press waits. */
  predicate TypedInside(c: Call) {
    && c.event.kind != Tick && !c.event.pressed && c.event.key != c.tapping.event.key
    && exists i :: 0 <= i < |c.waiting| && c.waiting[i].event.pressed && c.waiting[i].event.key == c.event.key
  }

  predicate GoesDown(c: Call) { c.event.kind != Tick && c.event.pressed }

  predicate Taps(c: Call, a: Answers) { !TermOver(c, a) && OwnRelease(c) }

  predicate Holds(c: Call, a: Answers) {
    TermOver(c, a) || (TypedInside(c) && a.permissiveHold) || (GoesDown(c) && a.holdOnOther)
  }

  /** What call n does with a press that is undecided. */
  ghost predicate Decides(s: State, n: nat, c: Call, a: Answers) {
    Pends(c.tapping) ==>
      && (Sends(s, n, c.tapping.event, 1) <==> Taps(c, a))
      && (Sends(s, n, c.tapping.event, 0) <==> Holds(c, a))
  }

  ghost predicate Logged(s: State, env: Env) {
    && |s.log| == s.calls && |s.from| == |s.out|
    && (forall i :: 0 <= i < |s.from| ==> s.from[i] < s.calls)
    && forall n :: 0 <= n < s.calls ==> Decides(s, n, s.log[n], env(n))
  }

  ghost predicate Emits(es: seq<Emission>, ev: Event, count: TapCount) {
    exists i :: 0 <= i < |es| && IsSent(es[i], ev, count)
  }

  lemma OneSent(e: Emission, ev: Event, count: TapCount)
    ensures Emits([e], ev, count) <==> IsSent(e, ev, count)
  {
    if IsSent(e, ev, count) { assert IsSent([e][0], ev, count); }
  }

  lemma StepDecides(tk: Record, queue: seq<Record>, rec: Record, a: Answers)
    requires Pends(tk) && Ready(rec)
    ensures var st, c := ProcessTapping(tk, queue, rec, a), Call(tk, queue, rec.event);
      && (Emits(st.emitted, tk.event, 1) <==> Taps(c, a))
      && (Emits(st.emitted, tk.event, 0) <==> Holds(c, a))
  {
    var st, c := ProcessTapping(tk, queue, rec, a), Call(tk, queue, rec.event);
    if st.emitted != [] {
      var e := st.emitted[0];
      assert st.emitted == [e];
      OneSent(e, tk.event, 1);
      OneSent(e, tk.event, 0);
    }
  }

  lemma AfterSends(s: State, st: Step, n: nat, ev: Event, count: TapCount)
    requires |s.from| == |s.out| && (forall i :: 0 <= i < |s.from| ==> s.from[i] < s.calls) && n <= s.calls
    ensures Sends(After(s, st), n, ev, count)
       <==> if n < s.calls then Sends(s, n, ev, count) else Emits(st.emitted, ev, count)
  {
    var t := After(s, st);
    if n < s.calls {
      if Sends(s, n, ev, count) {
        var i :| 0 <= i < |s.out| && s.from[i] == n && IsSent(s.out[i], ev, count);
        assert t.from[i] == n && t.out[i] == s.out[i];
      }
    } else if Emits(st.emitted, ev, count) {
      var i :| 0 <= i < |st.emitted| && IsSent(st.emitted[i], ev, count);
      assert t.from[|s.out| + i] == n && t.out[|s.out| + i] == st.emitted[i];
    }
  }

  lemma AfterLogged(s: State, rec: Record, env: Env)
    requires Logged(s, env) && Ready(rec)
    ensures Logged(After(s, StepOn(s, rec, env)), env)
  {
    var st := StepOn(s, rec, env);
    var t := After(s, st);
    StepMarks(s.tapping, s.queue, rec, env(s.calls));
    forall n | 0 <= n < t.calls ensures Decides(t, n, t.log[n], env(n)) {
      var p := t.log[n].tapping;
      AfterSends(s, st, n, p.event, 1);
      AfterSends(s, st, n, p.event, 0);
      if n == s.calls && Pends(p) {
        StepDecides(s.tapping, s.queue, rec, env(n));
      } else if n < s.calls {
        assert Decides(s, n, s.log[n], env(n));
      }
    }
  }

  lemma {:induction false} DrainLogged(s: State, env: Env)
    requires Inv(s) && Logged(s, env)
    ensures Logged(Drain(s, env), env)
    decreases |s.queue|
  {
    if s.queue != [] {
      var st := StepOn(s, s.queue[0], env);
      AfterLogged(s, s.queue[0], env);
      SameOutput(After(s, st), Turned(s, st), env);
      StepMarks(s.tapping, s.queue, s.queue[0], env(s.calls));
      MarksKeepsQueued(s.queue[0], s.queue, st);
      TurnClassified(s.tapping, s.queue, env(s.calls));
      if st.consumed { DrainLogged(Turned(s, st), env); }
    }
  }

  lemma SameOutput(s: State, t: State, env: Env)
    requires Logged(s, env) && t.out == s.out && t.from == s.from && t.log == s.log && t.calls == s.calls
    ensures Logged(t, env)
  {
    forall n | 0 <= n < t.calls ensures Decides(t, n, t.log[n], env(n)) {
      assert Decides(s, n, s.log[n], env(n));
      var ev := s.log[n].tapping.event;
      assert Sends(t, n, ev, 1) <==> Sends(s, n, ev, 1);
      assert Sends(t, n, ev, 0) <==> Sends(s, n, ev, 0);
    }
  }

  lemma AcceptLogged(s: State, rec: Record, env: Env)
    requires Logged(s, env) && Ready(rec)
    ensures Logged(Accept(s, rec, env), env)
  {
    AfterLogged(s, rec, env);
    SameOutput(After(s, StepOn(s, rec, env)), Accept(s, rec, env), env);
  }

  /** In every run, each call that finds a press undecided sends it as a tap exactly when its own
      release comes within the term, and as a hold exactly when the term is over, a key typed
      meanwhile ends under permissive hold, or a key goes down under hold on other key press. */
  lemma {:induction false} EveryPressDecided(inputs: seq<Record>, env: Env)
    requires forall i :: 0 <= i < |inputs| ==> Fresh(inputs[i])
    ensures Logged(Run(INIT, inputs, env), env)
  {
    if inputs != [] {
      var n := |inputs| - 1;
      var s := Run(INIT, inputs[..n], env);
      EveryPressDecided(inputs[..n], env);
      RunKeepsInv(inputs[..n], env);
      AcceptLogged(s, inputs[n], env);
      AcceptKeepsInv(s, inputs[n], env);
      DrainLogged(Accept(s, inputs[n], env), env);
    }
  }

  // ---------- one input at a time ----------

  /** No tapping key, and nothing waits. */
  predicate Idle(s: State) { IsTick(s.tapping) && s.queue == [] }

  predicate FreshPress(r: Record) { Fresh(r) && !IsTick(r) && r.event.pressed }
  predicate FreshRelease(r: Record) { Fresh(r) && !IsTick(r) && !r.event.pressed }

  /** p is the tapping key, undecided, and nothing waits. */
  predicate HoldsBack(s: State, p: Record) { s.tapping == p && Pends(p) && s.queue == [] }

  /** The record comes within a term, whatever call answers it. */
  ghost predicate InTerm(r: Record, p: Record, env: Env) {
    forall n: nat :: Diff16(r.event.time, p.event.time) < env(n).term
  }

  lemma NothingToScan(rec: Record, term: u16)
    ensures FirstTapRelease([], rec, term) == 0
  {
  }

  /** A tap key that goes down is held back. */
  lemma TapKeyDown(s: State, p: Record, env: Env)
    requires Idle(s) && FreshPress(p) && env(s.calls).isTap
    ensures var t := Process(s, p, env); HoldsBack(t, p) && t.out == s.out && t.calls == s.calls + 1
  {
    NothingToScan(p, env(s.calls).scanTerm);
  }

  /** Any other event goes out at once, unchanged. */
  lemma OtherKeyPasses(s: State, rec: Record, env: Env)
    requires Idle(s) && Fresh(rec) && !IsTick(rec) && !(rec.event.pressed && env(s.calls).isTap)
    ensures var t := Process(s, rec, env); Idle(t) && t.out == s.out + [Emission(rec, false)] && t.calls == s.calls + 1
  {
  }

  /** A tick within the term changes nothing. */
  lemma TickWaits(s: State, p: Record, tick: Record, env: Env)
    requires HoldsBack(s, p) && IsTick(tick) && InTerm(tick, p, env)
    ensures var t := Process(s, tick, env); HoldsBack(t, p) && t.out == s.out && t.calls == s.calls + 1
  {
  }

  function Counted(r: Record, count: TapCount): Emission { Emission(WithCount(r, count), false) }

  lemma ReleaseAccepted(s: State, p: Record, r: Record, env: Env)
    requires HoldsBack(s, p) && p.tap == Tap(false, 0) && FreshRelease(r) && SameKey(r, p) && InTerm(r, p, env)
    ensures var u := Accept(s, r, env);
      && u.tapping == WithCount(p, 1) && u.queue == [WithCount(r, 1)] && u.out == s.out + [Counted(p, 1)]
      && u.calls == s.calls + 1
  {
    assert Diff16(r.event.time, p.event.time) < env(s.calls).term;
    assert [] + [WithCount(r, 1)] == [WithCount(r, 1)];
  }

  lemma ReleaseDrained(u: State, p: Record, r: Record, env: Env)
    requires u.tapping == WithCount(p, 1) && u.queue == [WithCount(r, 1)] && Pends(p) && p.tap == Tap(false, 0)
    requires FreshRelease(r) && SameKey(r, p) && InTerm(r, p, env)
    ensures var t := Drain(u, env);
      && t.tapping == WithCount(r, 1) && t.queue == [] && t.out == u.out + [Counted(r, 1)] && t.calls == u.calls + 1
  {
    assert Diff16(r.event.time, p.event.time) < env(u.calls).term;
    var st := StepOn(u, u.queue[0], env);
    assert st.consumed && st.tapping == WithCount(r, 1) && st.emitted == [Counted(r, 1)];
    var v := Turned(u, st);
    assert v.queue == [];
    assert Drain(u, env) == Drain(v, env) == v;
  }

  /** The release of the key within the term. */
  lemma OwnReleaseTaps(s: State, p: Record, r: Record, env: Env)
    requires HoldsBack(s, p) && p.tap == Tap(false, 0) && FreshRelease(r) && SameKey(r, p) && InTerm(r, p, env)
    ensures var t := Process(s, r, env);
      && t.out == s.out + [Counted(p, 1), Counted(r, 1)]
      && t.tapping == WithCount(r, 1) && t.queue == [] && t.calls == s.calls + 2
  {
    ReleaseAccepted(s, p, r, env);
    ReleaseDrained(Accept(s, r, env), p, r, env);
  }

  /** The term is over, whatever call answers it. */
  ghost predicate OutOfTerm(r: Record, p: Record, env: Env) {
    forall n: nat :: Diff16(r.event.time, p.event.time) >= env(n).term
  }

  /** A tick when the term is over: the key goes out as a hold. */
  lemma LateTickHolds(s: State, p: Record, tick: Record, env: Env)
    requires HoldsBack(s, p) && IsTick(tick) && OutOfTerm(tick, p, env)
    ensures var t := Process(s, tick, env);
      Idle(t) && t.out == s.out + [Emission(p, false)] && t.calls == s.calls + 1
  {
    assert Diff16(tick.event.time, p.event.time) >= env(s.calls).term;
  }

  /** The term is over, or hold on other key press decides: the key goes out as a hold, and the
      event is handled as if it came afterwards. */
  lemma HoldThenNext(s: State, p: Record, rec: Record, env: Env, held: Record, t: State)
    requires HoldsBack(s, p) && Fresh(rec) && !IsTick(rec)
    requires StepOn(s, rec, env) == Step(NO_RECORD, [], Emit(held), rec, false)
    requires t == s.(tapping := NO_RECORD, out := s.out + Emit(held), from := s.from + [s.calls],
                     log := s.log + [Call(p, [], rec.event)], calls := s.calls + 1, queue := [rec])
    ensures Process(s, rec, env) == Drain(t, env)
  {
    assert Repeat(s.calls, 1) == [s.calls];
    assert [] + [rec] == [rec];
    assert Accept(s, rec, env) == t;
  }

  lemma NextAlone(t: State, rec: Record, env: Env)
    requires t.tapping == NO_RECORD && t.queue == [rec] && Fresh(rec) && !IsTick(rec)
    ensures var u := Drain(t, env);
      && u.queue == [] && u.calls == t.calls + 1
      && if rec.event.pressed && env(t.calls).isTap then u.tapping == rec && u.out == t.out
         else u.tapping == NO_RECORD && u.out == t.out + [Emission(rec, false)]
  {
    var st := StepOn(t, rec, env);
    if rec.event.pressed && env(t.calls).isTap {
      assert FirstTapRelease([rec], rec, env(t.calls).scanTerm) == 1;
    }
    assert st.consumed;
    var v := Turned(t, st);
    assert v.queue == [];
    assert Drain(t, env) == Drain(v, env) == v;
  }

  /** What is left to do with an event once the tapping key went out as a hold. */
  predicate HeldThen(s: State, u: State, held: Record, rec: Record, isTap: bool) {
    && u.queue == []
    && if rec.event.pressed && isTap then u.tapping == rec && u.out == s.out + [Emission(held, false)]
       else u.tapping == NO_RECORD && u.out == s.out + [Emission(held, false), Emission(rec, false)]
  }

  lemma HeldAndNext(s: State, p: Record, rec: Record, env: Env, held: Record)
    requires HoldsBack(s, p) && Fresh(rec) && !IsTick(rec)
    requires StepOn(s, rec, env) == Step(NO_RECORD, [], Emit(held), rec, false)
    ensures var u := Process(s, rec, env);
      HeldThen(s, u, held, rec, env(s.calls + 1).isTap) && u.calls == s.calls + 2
  {
    var t := s.(tapping := NO_RECORD, out := s.out + Emit(held), from := s.from + [s.calls],
                log := s.log + [Call(p, [], rec.event)], calls := s.calls + 1, queue := [rec]);
    HoldThenNext(s, p, rec, env, held, t);
    NextAlone(t, rec, env);
    assert s.out + [Emission(held, false)] + [Emission(rec, false)]
        == s.out + [Emission(held, false), Emission(rec, false)];
  }

  /** Any event when the term is over: the key goes out as a hold first. */
  lemma LateEventHolds(s: State, p: Record, rec: Record, env: Env)
    requires HoldsBack(s, p) && Fresh(rec) && !IsTick(rec) && OutOfTerm(rec, p, env)
    ensures var u := Process(s, rec, env);
      HeldThen(s, u, p, rec, env(s.calls + 1).isTap) && u.calls == s.calls + 2
  {
    assert Diff16(rec.event.time, p.event.time) >= env(s.calls).term;
    HeldAndNext(s, p, rec, env, p);
  }

  function Interrupted(p: Record): Record { p.(tap := p.tap.(interrupted := true)) }

  /** Another key within the term, under hold on other key press. */
  lemma OtherPressHolds(s: State, p: Record, g: Record, env: Env)
    requires HoldsBack(s, p) && FreshPress(g) && InTerm(g, p, env) && env(s.calls).holdOnOther
    ensures var u := Process(s, g, env);
      HeldThen(s, u, Interrupted(p), g, env(s.calls + 1).isTap) && u.calls == s.calls + 2
  {
    assert Diff16(g.event.time, p.event.time) < env(s.calls).term;
    HeldAndNext(s, p, g, env, Interrupted(p));
  }

  /** A key released within the term that was down before: it comes up at once, unless its
      action is one to keep. */
  lemma EarlierKeyUp(s: State, p: Record, r: Record, env: Env)
    requires HoldsBack(s, p) && FreshRelease(r) && !SameKey(r, p) && InTerm(r, p, env) && !env(s.calls).keepRelease
    ensures var t := Process(s, r, env);
      HoldsBack(t, p) && t.out == s.out + [Emission(r, false)] && t.calls == s.calls + 1
  {
    assert Diff16(r.event.time, p.event.time) < env(s.calls).term;
  }

  // ---------- a key typed while another is undecided ----------

  /** p is undecided, and g was pressed meanwhile. */
  predicate Both(s: State, p: Record, g: Record) {
    s.tapping == Interrupted(p) && Pends(p) && s.queue == [g] && FreshPress(g) && !SameKey(g, p)
  }

  /** Another key within the term, without hold on other key press: it waits. */
  lemma OtherPressWaits(s: State, p: Record, g: Record, env: Env)
    requires HoldsBack(s, p) && FreshPress(g) && !SameKey(g, p) && InTerm(g, p, env)
    requires forall n: nat :: !env(n).holdOnOther
    ensures var t := Process(s, g, env); Both(t, p, g) && t.out == s.out
  {
    assert Diff16(g.event.time, p.event.time) < env(s.calls).term && !env(s.calls).holdOnOther;
    var u := Accept(s, g, env);
    assert u.tapping == Interrupted(p) && u.queue == [g] && u.out == s.out;
    assert Diff16(g.event.time, p.event.time) < env(s.calls + 1).term && !env(s.calls + 1).holdOnOther;
    var st := StepOn(u, g, env);
    assert st == Step(Interrupted(p), [g], [], g, false);
    assert [g][0 := g] == [g];
    assert Drain(u, env) == Turned(u, st);
  }

  /** The typed key comes up within the term under permissive hold: the first key goes out as
      a hold, and then the typed one. */
  lemma TypedInsideHolds(s: State, p: Record, g: Record, r: Record, env: Env)
    requires Both(s, p, g) && FreshRelease(r) && SameKey(r, g) && InTerm(r, p, env)
    requires env(s.calls).permissiveHold && !env(s.calls + 1).isTap
    ensures var t := Process(s, r, env);
      Idle(t) && t.out == s.out + [Emission(Interrupted(p), false), Emission(g, false), Emission(r, false)]
  {
    assert Diff16(r.event.time, p.event.time) < env(s.calls).term;
    assert TypedBy(r.event, s.queue[0]);
    var u := Accept(s, r, env);
    assert u.tapping == NO_RECORD && u.queue == [g, r] && u.out == s.out + [Emission(Interrupted(p), false)];
    BothPass(u, g, r, env);
    assert s.out + [Emission(Interrupted(p), false)] + [Emission(g, false), Emission(r, false)]
        == s.out + [Emission(Interrupted(p), false), Emission(g, false), Emission(r, false)];
  }

  lemma OnePasses(u: State, g: Record, rest: seq<Record>, env: Env)
    requires u.tapping == NO_RECORD && u.queue == [g] + rest && !IsTick(g) && !(g.event.pressed && env(u.calls).isTap)
    ensures var v := Turned(u, StepOn(u, g, env));
      && Drain(u, env) == Drain(v, env) && v.tapping == NO_RECORD && v.queue == rest
      && v.out == u.out + [Emission(g, false)] && v.calls == u.calls + 1
  {
    assert StepOn(u, g, env).consumed && u.queue[1..] == rest;
  }

  lemma BothPass(u: State, g: Record, r: Record, env: Env)
    requires u.tapping == NO_RECORD && u.queue == [g, r] && FreshPress(g) && FreshRelease(r) && !env(u.calls).isTap
    ensures var w := Drain(u, env); Idle(w) && w.out == u.out + [Emission(g, false), Emission(r, false)]
  {
    assert [g] + [r] == [g, r] && [r] + [] == [r];
    OnePasses(u, g, [r], env);
    var v := Turned(u, StepOn(u, g, env));
    OnePasses(v, r, [], env);
    var w := Turned(v, StepOn(v, r, env));
    assert Drain(w, env) == w;
    assert u.out + [Emission(g, false)] + [Emission(r, false)] == u.out + [Emission(g, false), Emission(r, false)];
  }

  /** Both wait: the typed key came up within the term without permissive hold. */
  predicate Rolled(s: State, p: Record, g: Record, r: Record) {
    && s.tapping == Interrupted(p) && Pends(p) && s.queue == [g, r]
    && FreshPress(g) && FreshRelease(r) && SameKey(r, g) && !SameKey(g, p)
  }

  lemma TypedInsideWaits(s: State, p: Record, g: Record, r: Record, env: Env)
    requires Both(s, p, g) && FreshRelease(r) && SameKey(r, g) && InTerm(r, p, env) && InTerm(g, p, env)
    requires forall n: nat :: !env(n).permissiveHold && !env(n).holdOnOther
    ensures var t := Process(s, r, env); Rolled(t, p, g, r) && t.out == s.out
  {
    assert Diff16(r.event.time, p.event.time) < env(s.calls).term && !env(s.calls).permissiveHold;
    assert TypedBy(r.event, s.queue[0]);
    var u := Accept(s, r, env);
    assert u.tapping == Interrupted(p) && u.queue == [g, r] && u.out == s.out;
    assert Diff16(g.event.time, p.event.time) < env(s.calls + 1).term && !env(s.calls + 1).holdOnOther;
    var st := StepOn(u, g, env);
    assert st == Step(Interrupted(p), [g, r], [], g, false);
    assert [g, r][0 := g] == [g, r];
    assert Drain(u, env) == Turned(u, st);
  }

  /** Then the first key comes up within its term: it is a tap, before the typed key. */
  lemma RolledTaps(s: State, p: Record, g: Record, r: Record, q: Record, env: Env)
    requires Rolled(s, p, g, r) && FreshRelease(q) && SameKey(q, p) && InTerm(q, p, env)
    requires forall n: nat :: !env(n).isTap
    ensures var t := Process(s, q, env);
      && t.queue == []
      && t.out == s.out + [Counted(Interrupted(p), 1), Emission(g, false), Emission(r, false),
                           Counted(Record(q.event, Interrupted(p).tap), 1)]
  {
    assert Diff16(q.event.time, p.event.time) < env(s.calls).term;
    var tapped := WithCount(Interrupted(p), 1);
    var up := Record(q.event, tapped.tap);
    var u := Accept(s, q, env);
    assert u.tapping == tapped && u.queue == [g, r, up] && u.out == s.out + [Emission(tapped, false)];
    PassesTap(u, tapped, g, [r, up], env);
    var v := Turned(u, StepOn(u, g, env));
    PassesTap(v, tapped, r, [up], env);
    var w := Turned(v, StepOn(v, r, env));
    EndsTap(w, tapped, up, env);
    assert u.queue == [g] + [r, up] && [r, up] == [r] + [up];
    assert s.out + [Emission(tapped, false)] + [Emission(g, false)] + [Emission(r, false)] + [Emission(up, false)]
        == s.out + [Emission(tapped, false), Emission(g, false), Emission(r, false), Emission(up, false)];
  }

  /** The same with a tap key that waits alone: the first key is a tap, released as it was, and
      then the second is undecided. */
  lemma RolledToTapKey(s: State, p: Record, g: Record, q: Record, env: Env)
    requires Both(s, p, g) && FreshRelease(q) && SameKey(q, p) && InTerm(q, p, env) && InTerm(q, g, env)
    requires env(s.calls + 1).isTap && !env(s.calls + 2).keepRelease
    ensures var t := Process(s, q, env);
      HoldsBack(t, g) && t.out == s.out + [Counted(Interrupted(p), 1), Counted(Record(q.event, Interrupted(p).tap), 1)]
  {
    assert Diff16(q.event.time, p.event.time) < env(s.calls).term;
    assert Diff16(q.event.time, g.event.time) < env(s.calls + 2).term;
    var tapped := WithCount(Interrupted(p), 1);
    var up := Record(q.event, tapped.tap);
    var u := Accept(s, q, env);
    assert u.tapping == tapped && u.queue == [g, up] && u.out == s.out + [Emission(tapped, false)];
    var v := Turned(u, StepOn(u, g, env));
    assert v.tapping == g && v.queue == [up] && v.out == u.out;
    var t := Turned(v, StepOn(v, up, env));
    assert t.tapping == g && t.queue == [] && t.out == v.out + [Emission(up, false)];
    assert Drain(u, env) == Drain(v, env) == Drain(t, env) == t;
  }

  /** And with a tap key that came up again within its term: both keys are taps. */
  lemma RolledOverTapKey(s: State, p: Record, g: Record, r: Record, q: Record, env: Env)
    requires Rolled(s, p, g, r) && FreshRelease(q) && SameKey(q, p)
    requires InTerm(q, p, env) && InTerm(r, g, env) && InTerm(q, r, env)
    requires env(s.calls + 1).isTap && Diff16(r.event.time, g.event.time) < env(s.calls + 1).scanTerm
    ensures var t := Process(s, q, env);
      && t.queue == []
      && t.out == s.out + [Counted(Interrupted(p), 1), Counted(g, 1), Counted(r, 1),
                           Counted(Record(q.event, Interrupted(p).tap), 1)]
  {
    assert Diff16(q.event.time, p.event.time) < env(s.calls).term;
    var tapped := WithCount(Interrupted(p), 1);
    var up := Record(q.event, tapped.tap);
    var u := Accept(s, q, env);
    assert u.tapping == tapped && u.queue == [g, r, up] && u.out == s.out + [Emission(tapped, false)];
    TapFound(u, g, r, up, env);
  }

  lemma TapFound(u: State, g: Record, r: Record, up: Record, env: Env)
    requires !IsTick(u.tapping) && u.tapping.event.pressed && u.tapping.tap.count == 1
    requires u.queue == [g, r, up] && FreshPress(g) && FreshRelease(r) && SameKey(r, g) && !SameKey(g, u.tapping)
    requires !IsTick(up) && !up.event.pressed && InTerm(r, g, env) && InTerm(up, r, env)
    requires env(u.calls).isTap && Diff16(r.event.time, g.event.time) < env(u.calls).scanTerm
    ensures var t := Drain(u, env);
      t.queue == [] && t.out == u.out + [Counted(g, 1), Counted(r, 1), Emission(up, false)]
  {
    assert IsTapRelease(g, u.queue[1], env(u.calls).scanTerm);
    assert FirstTapRelease(u.queue, g, env(u.calls).scanTerm) == 1;
    var v := Turned(u, StepOn(u, g, env));
    assert v.tapping == WithCount(g, 1) && v.queue == [WithCount(r, 1), up] && v.out == u.out + [Counted(g, 1)];
    assert Drain(u, env) == Drain(v, env);
    TapThenRelease(v, WithCount(g, 1), r, up, env);
    assert u.out + [Counted(g, 1)] + [Counted(r, 1), Emission(up, false)]
        == u.out + [Counted(g, 1), Counted(r, 1), Emission(up, false)];
  }

  lemma TapThenRelease(v: State, tapped: Record, r: Record, up: Record, env: Env)
    requires v.tapping == tapped && tapped.tap == Tap(false, 1) && tapped.event.pressed && !IsTick(tapped)
    requires v.queue == [WithCount(r, 1), up] && FreshRelease(r) && SameKey(r, tapped)
    requires !IsTick(up) && !up.event.pressed && InTerm(r, tapped, env) && InTerm(up, r, env)
    ensures var t := Drain(v, env);
      t.queue == [] && t.out == v.out + [Counted(r, 1), Emission(up, false)]
  {
    assert Diff16(r.event.time, tapped.event.time) < env(v.calls).term;
    assert Diff16(up.event.time, r.event.time) < env(v.calls + 1).term;
    var w := Turned(v, StepOn(v, WithCount(r, 1), env));
    assert w.tapping == WithCount(r, 1) && w.queue == [up] && w.out == v.out + [Counted(r, 1)];
    var t := Turned(w, StepOn(w, up, env));
    assert t.queue == [] && t.out == w.out + [Emission(up, false)];
    assert Drain(v, env) == Drain(w, env) == Drain(t, env) == t;
  }

  /** Other keys while a tap is down. */
  lemma PassesTap(u: State, tapped: Record, g: Record, rest: seq<Record>, env: Env)
    requires u.tapping == tapped && !IsTick(tapped) && tapped.event.pressed && tapped.tap.count > 0
    requires u.queue == [g] + rest && !IsTick(g) && !SameKey(tapped, g) && !(g.event.pressed && env(u.calls).isTap)
    ensures var v := Turned(u, StepOn(u, g, env));
      && Drain(u, env) == Drain(v, env) && v.tapping == tapped && v.queue == rest
      && v.out == u.out + [Emission(g, false)] && v.calls == u.calls + 1
  {
    assert StepOn(u, g, env).consumed && u.queue[1..] == rest;
  }

  lemma EndsTap(w: State, tapped: Record, up: Record, env: Env)
    requires w.tapping == tapped && !IsTick(tapped) && tapped.event.pressed && tapped.tap.count > 0
    requires w.queue == [up] && !IsTick(up) && !up.event.pressed && SameKey(tapped, up) && up.tap == tapped.tap
    ensures var t := Drain(w, env); t.queue == [] && t.out == w.out + [Emission(up, false)]
  {
    var st := StepOn(w, up, env);
    assert st.consumed && st.emitted == [Emission(up, false)];
    var t := Turned(w, st);
    assert t.queue == [];
    assert Drain(w, env) == Drain(t, env) == t;
  }

  // ---------- after a tap ----------

  /** The last event was the release r of a key that was tapped r.tap.count times. */
  predicate JustTapped(s: State, r: Record) {
    s.tapping == r && !IsTick(r) && !r.event.pressed && r.tap.count > 0 && s.queue == []
  }

  /** p is down again, as a repeated tap. */
  predicate DownAgain(s: State, p: Record) {
    s.tapping == p && !IsTick(p) && p.event.pressed && p.tap.count > 0 && s.queue == []
  }

  function OneMore(c: TapCount): TapCount { if c < 15 then c + 1 else 15 }

  /** The same key within both terms, nothing in between: one more tap, counted up to 15. */
  lemma QuickPress(s: State, r: Record, p: Record, env: Env)
    requires JustTapped(s, r) && !r.tap.interrupted && FreshPress(p) && SameKey(p, r) && InTerm(p, r, env)
    requires Diff16(p.event.time, r.event.time) < env(s.calls).quickTerm
    ensures var t, again := Process(s, p, env), Record(p.event, Tap(false, OneMore(r.tap.count)));
      DownAgain(t, again) && t.out == s.out + [Emission(again, false)] && t.calls == s.calls + 1
  {
    assert Diff16(p.event.time, r.event.time) < env(s.calls).term;
  }

  /** Its release, in time for another one. */
  lemma QuickRelease(s: State, p: Record, r: Record, env: Env)
    requires DownAgain(s, p) && FreshRelease(r) && SameKey(r, p) && InTerm(r, p, env)
    ensures var t, up := Process(s, r, env), Record(r.event, p.tap);
      JustTapped(t, up) && t.out == s.out + [Emission(up, false)] && t.calls == s.calls + 1
  {
    assert Diff16(r.event.time, p.event.time) < env(s.calls).term;
  }

  /** Its release when the term is over: nothing is remembered. */
  lemma SlowRelease(s: State, p: Record, r: Record, env: Env)
    requires DownAgain(s, p) && FreshRelease(r) && SameKey(r, p) && OutOfTerm(r, p, env)
    ensures var t, up := Process(s, r, env), Record(r.event, p.tap);
      Idle(t) && t.out == s.out + [Emission(up, false)] && t.calls == s.calls + 1
  {
    assert Diff16(r.event.time, p.event.time) >= env(s.calls).term;
  }

  /** The same key after the quick-tap term, or after another key: it is undecided anew. */
  lemma SlowPress(s: State, r: Record, p: Record, env: Env)
    requires JustTapped(s, r) && FreshPress(p) && SameKey(p, r) && InTerm(p, r, env)
    requires r.tap.interrupted || Diff16(p.event.time, r.event.time) >= env(s.calls).quickTerm
    ensures var t := Process(s, p, env); HoldsBack(t, p) && t.out == s.out && t.calls == s.calls + 1
  {
    assert Diff16(p.event.time, r.event.time) < env(s.calls).term;
  }

  /** Another tap key: it is undecided. */
  lemma OtherTapKey(s: State, r: Record, g: Record, env: Env)
    requires JustTapped(s, r) && FreshPress(g) && !SameKey(g, r) && InTerm(g, r, env) && env(s.calls).isTap
    ensures var t := Process(s, g, env); HoldsBack(t, g) && t.out == s.out && t.calls == s.calls + 1
  {
    assert Diff16(g.event.time, r.event.time) < env(s.calls).term;
    NothingToScan(g, env(s.calls).scanTerm);
  }

  /** Any other key goes out at once, and its press interrupts the series of taps. */
  lemma OtherKey(s: State, r: Record, g: Record, env: Env)
    requires JustTapped(s, r) && Fresh(g) && !IsTick(g) && !SameKey(g, r) && InTerm(g, r, env)
    requires g.event.pressed ==> !env(s.calls).isTap
    ensures var t := Process(s, g, env);
      && JustTapped(t, if g.event.pressed then Interrupted(r) else r)
      && t.out == s.out + [Emission(g, false)] && t.calls == s.calls + 1
  {
    assert Diff16(g.event.time, r.event.time) < env(s.calls).term;
  }

  /** When the term is over, nothing is remembered of the taps. */
  lemma TapsForgotten(s: State, r: Record, rec: Record, env: Env)
    requires JustTapped(s, r) && Fresh(rec) && OutOfTerm(rec, r, env)
    ensures var t := Process(s, rec, env);
      && t.queue == []
      && if IsTick(rec) then Idle(t) && t.out == s.out
         else if rec.event.pressed && env(s.calls + 1).isTap then t.tapping == rec && t.out == s.out
         else Idle(t) && t.out == s.out + [Emission(rec, false)]
  {
    assert Diff16(rec.event.time, r.event.time) >= env(s.calls).term;
    if !IsTick(rec) {
      var u := Accept(s, rec, env);
      assert u.tapping == NO_RECORD && u.queue == [rec] && u.out == s.out + [];
      NextAlone(u, rec, env);
    }
  }

  /** Another tap key while a repeated tap is down: the tap is let go first, by a release the
      machine makes up. */
  lemma TapLetGo(s: State, p: Record, g: Record, env: Env)
    requires DownAgain(s, p) && p.tap.count > 1 && FreshPress(g) && !SameKey(g, p) && env(s.calls).isTap
    ensures var t := Process(s, g, env);
      var release := Record(p.event.(time := g.event.time, pressed := false), p.tap);
      HoldsBack(t, g) && t.out == s.out + [Emission(release, true)] && t.calls == s.calls + 1
  {
    NothingToScan(g, env(s.calls).scanTerm);
  }

  /** Any other key while a repeated tap is down goes out at once. */
  lemma PassesDownAgain(s: State, p: Record, g: Record, env: Env)
    requires DownAgain(s, p) && Fresh(g) && !IsTick(g) && !SameKey(g, p) && !(g.event.pressed && env(s.calls).isTap)
    ensures var t := Process(s, g, env);
      DownAgain(t, p) && t.out == s.out + [Emission(g, false)] && t.calls == s.calls + 1
  {
  }

  // ---------- whole inputs ----------

  lemma RunMore(s: State, inputs: seq<Record>, rec: Record, env: Env)
    ensures Run(s, inputs + [rec], env) == Process(Run(s, inputs, env), rec, env)
  {
    assert (inputs + [rec])[..|inputs|] == inputs;
  }

  lemma {:induction false} TicksWait(s: State, p: Record, ticks: seq<Record>, env: Env)
    requires HoldsBack(s, p)
    requires forall i :: 0 <= i < |ticks| ==> IsTick(ticks[i]) && InTerm(ticks[i], p, env)
    ensures var t := Run(s, ticks, env); HoldsBack(t, p) && t.out == s.out
  {
    if ticks != [] {
      var n := |ticks| - 1;
      TicksWait(s, p, ticks[..n], env);
      TickWaits(Run(s, ticks[..n], env), p, ticks[n], env);
    }
  }

  /** A tap key goes down while nothing is decided or waits, and ticks within its term follow. */
  lemma PressThenTicks(s: State, p: Record, ticks: seq<Record>, env: Env)
    requires Idle(s) && FreshPress(p) && env(s.calls).isTap
    requires forall i :: 0 <= i < |ticks| ==> IsTick(ticks[i]) && InTerm(ticks[i], p, env)
    ensures var t := Run(s, [p] + ticks, env); HoldsBack(t, p) && t.out == s.out
  {
    assert [p][..0] == [];
    assert Run(s, [p], env) == Process(s, p, env);
    TapKeyDown(s, p, env);
    RunConcat(s, [p], ticks, env);
    TicksWait(Process(s, p, env), p, ticks, env);
  }

  /** A tap key that comes up within its term: its press with count 1, then its release with
      count 1. */
  lemma TapComesOut(s: State, p: Record, ticks: seq<Record>, r: Record, env: Env)
    requires Idle(s) && FreshPress(p) && env(s.calls).isTap
    requires forall i :: 0 <= i < |ticks| ==> IsTick(ticks[i]) && InTerm(ticks[i], p, env)
    requires FreshRelease(r) && SameKey(r, p) && InTerm(r, p, env)
    ensures Run(s, [p] + ticks + [r], env).out == s.out + [Counted(p, 1), Counted(r, 1)]
  {
    PressThenTicks(s, p, ticks, env);
    RunMore(s, [p] + ticks, r, env);
    OwnReleaseTaps(Run(s, [p] + ticks, env), p, r, env);
  }

  /** A tap key that is still down when its term is over: its press with count 0, before
      anything else, and at once with a tick. */
  lemma HoldComesOut(s: State, p: Record, ticks: seq<Record>, rec: Record, env: Env)
    requires Idle(s) && FreshPress(p) && env(s.calls).isTap
    requires forall i :: 0 <= i < |ticks| ==> IsTick(ticks[i]) && InTerm(ticks[i], p, env)
    requires Fresh(rec) && OutOfTerm(rec, p, env)
    ensures var out := Run(s, [p] + ticks + [rec], env).out;
      && s.out + [Emission(p, false)] <= out
      && (IsTick(rec) ==> out == s.out + [Emission(p, false)])
      && (FreshRelease(rec) ==> out == s.out + [Emission(p, false), Emission(rec, false)])
  {
    PressThenTicks(s, p, ticks, env);
    RunMore(s, [p] + ticks, rec, env);
    var t := Run(s, [p] + ticks, env);
    if IsTick(rec) { LateTickHolds(t, p, rec, env); } else { LateEventHolds(t, p, rec, env); }
  }

  // ---------- series of taps ----------

  /** A press and the release that follows. */
  datatype Stroke = Stroke(down: Record, up: Record)

  function Inputs(strokes: seq<Stroke>): seq<Record> {
    if strokes == [] then []
    else
      var last := strokes[|strokes| - 1];
      Inputs(strokes[..|strokes| - 1]) + [last.down] + [last.up]
  }

  /** The release before the next stroke. */
  function LastUp(r: Record, strokes: seq<Stroke>): Record {
    if strokes == [] then r else strokes[|strokes| - 1].up
  }

  /** A stroke of the key of `before`, soon after it and within its terms. */
  ghost predicate QuickStroke(before: Record, k: Stroke, env: Env) {
    && FreshPress(k.down) && SameKey(k.down, before) && InTerm(k.down, before, env)
    && (forall n: nat :: Diff16(k.down.event.time, before.event.time) < env(n).quickTerm)
    && FreshRelease(k.up) && SameKey(k.up, before) && InTerm(k.up, k.down, env)
  }

  /** Such strokes, each soon after the one before. */
  ghost predicate Quick(r: Record, strokes: seq<Stroke>, env: Env) {
    forall i :: 0 <= i < |strokes| ==> QuickStroke(LastUp(r, strokes[..i]), strokes[i], env)
  }

  /** The count after n more taps. */
  function Count(c: TapCount, n: nat): TapCount { if c + n < 15 then c + n else 15 }

  /** What the strokes send after c taps. */
  function Series(c: TapCount, strokes: seq<Stroke>): seq<Emission> {
    if strokes == [] then []
    else
      var n, last := Count(c, |strokes|), strokes[|strokes| - 1];
      Series(c, strokes[..|strokes| - 1]) + [Counted(last.down, n)] + [Counted(last.up, n)]
  }

  lemma OneStroke(s: State, r: Record, k: Stroke, env: Env)
    requires JustTapped(s, r) && !r.tap.interrupted && QuickStroke(r, k, env)
    ensures var t, n := Process(Process(s, k.down, env), k.up, env), OneMore(r.tap.count);
      JustTapped(t, WithCount(k.up, n)) && t.out == s.out + [Counted(k.down, n)] + [Counted(k.up, n)]
  {
    QuickPress(s, r, k.down, env);
    QuickRelease(Process(s, k.down, env), WithCount(k.down, OneMore(r.tap.count)), k.up, env);
  }

  lemma QuickFrom(a: Record, b: Record, k: Stroke, env: Env)
    requires b.event == a.event && QuickStroke(a, k, env)
    ensures QuickStroke(b, k, env)
  {
  }

  /** Where a series of strokes leads from s. */
  predicate LeadsTo(s: State, t: State, r: Record, strokes: seq<Stroke>) {
    && t.out == s.out + Series(r.tap.count, strokes)
    && JustTapped(t, Record(LastUp(r, strokes).event, Tap(false, Count(r.tap.count, |strokes|))))
  }

  lemma OneStrokeMore(s: State, t: State, r: Record, front: seq<Stroke>, last: Stroke, env: Env)
    requires QuickStroke(LastUp(r, front), last, env) && r.tap.count > 0 && LeadsTo(s, t, r, front)
    ensures LeadsTo(s, Process(Process(t, last.down, env), last.up, env), r, front + [last])
  {
    var before := Record(LastUp(r, front).event, Tap(false, Count(r.tap.count, |front|)));
    QuickFrom(LastUp(r, front), before, last, env);
    OneStroke(t, before, last, env);
    assert (front + [last])[..|front|] == front;
    SeriesMore(r.tap.count, front + [last]);
  }

  lemma QuickBefore(r: Record, strokes: seq<Stroke>, env: Env)
    requires strokes != [] && Quick(r, strokes, env)
    ensures var front, last := strokes[..|strokes| - 1], strokes[|strokes| - 1];
      Quick(r, front, env) && QuickStroke(LastUp(r, front), last, env)
  {
    var front := strokes[..|strokes| - 1];
    forall i | 0 <= i < |front| ensures QuickStroke(LastUp(r, front[..i]), front[i], env) {
      assert front[..i] == strokes[..i];
      assert QuickStroke(LastUp(r, strokes[..i]), strokes[i], env);
    }
  }

  lemma RunStroke(s: State, front: seq<Stroke>, last: Stroke, env: Env)
    ensures Run(s, Inputs(front + [last]), env)
         == Process(Process(Run(s, Inputs(front), env), last.down, env), last.up, env)
  {
    assert (front + [last])[..|front|] == front;
    RunMore(s, Inputs(front), last.down, env);
    RunMore(s, Inputs(front) + [last.down], last.up, env);
  }

  lemma SeriesMore(c: TapCount, strokes: seq<Stroke>)
    requires strokes != [] && c > 0
    ensures var front, last := strokes[..|strokes| - 1], strokes[|strokes| - 1];
      var n := OneMore(Count(c, |front|));
      && n == Count(c, |strokes|)
      && Series(c, strokes) == Series(c, front) + [Counted(last.down, n)] + [Counted(last.up, n)]
      && forall out: seq<Emission> ::
           out + Series(c, front) + [Counted(last.down, n)] + [Counted(last.up, n)] == out + Series(c, strokes)
  {
  }

  /** A series of quick taps: the n-th goes out with count n, up to 15, press and release. */
  lemma {:induction false} TapsAreCounted(s: State, r: Record, strokes: seq<Stroke>, env: Env)
    requires JustTapped(s, r) && !r.tap.interrupted && Quick(r, strokes, env)
    ensures var t := Run(s, Inputs(strokes), env);
      && t.out == s.out + Series(r.tap.count, strokes)
      && JustTapped(t, Record(LastUp(r, strokes).event, Tap(false, Count(r.tap.count, |strokes|))))
  {
    if strokes == [] {
      assert r.tap == Tap(false, r.tap.count);
    } else {
      var front, last := strokes[..|strokes| - 1], strokes[|strokes| - 1];
      QuickBefore(r, strokes, env);
      TapsAreCounted(s, r, front, env);
      OneStrokeMore(s, Run(s, Inputs(front), env), r, front, last, env);
      assert front + [last] == strokes;
      RunStroke(s, front, last, env);
    }
  }
}
