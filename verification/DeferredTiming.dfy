/** When the deferred executor runs a callback, measured against an unbounded real clock. */
module DeferredTiming {
  import opened Timer
  import opened DeferredSpec
  import opened DeferredProofs

  /** Less than half a wrap of the 32-bit clock lies between two instants. */
  predicate Near(a: int, b: int) { -0x8000_0000 < a - b < 0x8000_0000 }

  /** As long as trigger and clock are near, an entry is due exactly when its real trigger
      time has come. */
  lemma DueIsExact(e: Entry, due: nat, now: nat)
    requires e.token != INVALID_TOKEN && e.trigger == due % WRAP32 && Near(due, now)
    ensures Due(e, now % WRAP32) <==> due <= now
  {
    SignedDiff32Exact(due, now);
  }

  /** The firings of one token, in order. */
  function Of(fired: seq<Firing>, t: Token): seq<Firing> {
    if fired == [] then []
    else Of(fired[..|fired| - 1], t) + if fired[|fired| - 1].token == t then [fired[|fired| - 1]] else []
  }

  lemma OfAppend(fired: seq<Firing>, f: Firing, t: Token)
    ensures Of(fired + [f], t) == Of(fired, t) + if f.token == t then [f] else []
  {
    assert (fired + [f])[..|fired|] == fired;
  }

  /** No callback cancels or extends token t. */
  ghost predicate Unnamed(env: Env, t: Token) {
    forall n, f: Firing, k :: 0 <= k < |env(n, f).ops| ==> Spares(env(n, f).ops[k], t)
  }

  lemma VisitOther(s: State, i: nat, j: nat, now: u32, env: Env)
    requires Inv(s) && i < |s.table| && j < |s.table| && i != j
    requires s.table[i].token != INVALID_TOKEN && Unnamed(env, s.table[i].token)
    ensures Visit(s, j, now, env).table[i] == s.table[i]
    ensures Of(Visit(s, j, now, env).fired, s.table[i].token) == Of(s.fired, s.table[i].token)
  {
    var f := FiringOf(s.table[j], now);
    OfAppend(s.fired, f, s.table[i].token);
    HandleStable(s.(fired := s.fired + [f]), env(|s.fired|, f).ops, i);
  }

  lemma VisitOwn(s: State, i: nat, now: u32, env: Env)
    requires Inv(s) && i < |s.table|
    requires s.table[i].token != INVALID_TOKEN && Unnamed(env, s.table[i].token)
    ensures var e, v := s.table[i], Visit(s, i, now, env);
      if Due(e, now) then
        && v.table[i] == Requeued(e, env(|s.fired|, FiringOf(e, now)).delay)
        && Of(v.fired, e.token) == Of(s.fired, e.token) + [FiringOf(e, now)]
      else v == s
  {
    var f := FiringOf(s.table[i], now);
    OfAppend(s.fired, f, s.table[i].token);
    HandleStable(s.(fired := s.fired + [f]), env(|s.fired|, f).ops, i);
  }

  /** Entry i is as in s, and its token has not run since. */
  predicate Untouched(s: State, u: State, i: nat)
    requires i < |s.table| == |u.table|
  {
    u.table[i] == s.table[i] && Of(u.fired, s.table[i].token) == Of(s.fired, s.table[i].token)
  }

  /** Entry i has run once since s, and asked for delay d. What follows holds as long as the
      entry was re-queued (or just visited): a freed token may name a new entry. */
  predicate RanOnce(s: State, u: State, i: nat, now: u32, d: u32, held: bool)
    requires i < |s.table| == |u.table|
  {
    var e := s.table[i];
    var ran := Of(s.fired, e.token) + [Firing(e.token, e.callback, e.trigger, e.arg, now)];
    var next := if d > 0 then Entry(e.token, (e.trigger + d) % WRAP32, e.callback, e.arg) else Entry(0, 0, 0, 0);
    ran <= Of(u.fired, e.token) && (held ==> u.table[i] == next && Of(u.fired, e.token) == ran)
  }

  lemma UntouchedByOther(s: State, u: State, v: State, i: nat, j: nat, now: u32, env: Env)
    requires Inv(u) && i < |s.table| == |u.table| && j < |u.table| && i != j && v == Visit(u, j, now, env)
    requires s.table[i].token != INVALID_TOKEN && Unnamed(env, s.table[i].token) && Untouched(s, u, i)
    ensures Untouched(s, v, i)
  {
    VisitOther(u, i, j, now, env);
  }

  lemma RunsItself(s: State, u: State, v: State, i: nat, now: u32, env: Env)
    requires Inv(u) && i < |s.table| == |u.table| && v == Visit(u, i, now, env)
    requires s.table[i].token != INVALID_TOKEN && Unnamed(env, s.table[i].token) && Untouched(s, u, i)
    ensures if Due(s.table[i], now) then RanOnce(s, v, i, now, env(|u.fired|, FiringOf(s.table[i], now)).delay, true)
      else Untouched(s, v, i)
  {
    VisitOwn(u, i, now, env);
  }

  lemma RanOnceStays(s: State, u: State, v: State, i: nat, j: nat, now: u32, d: u32, env: Env, held: bool)
    requires Inv(u) && i < |s.table| == |u.table| && j < |u.table| && i != j && v == Visit(u, j, now, env)
    requires s.table[i].token != INVALID_TOKEN && Unnamed(env, s.table[i].token) && RanOnce(s, u, i, now, d, held)
    ensures RanOnce(s, v, i, now, d, held && d > 0)
  {
    OfAppend(u.fired, FiringOf(u.table[j], now), s.table[i].token);
    if held && d > 0 { VisitOther(u, i, j, now, env); }
  }

  /** What the callback of entry i returns when the sweep comes to it. */
  function OwnDelay(s: State, i: nat, now: u32, env: Env): u32
    requires i < |s.table|
  {
    env(|Sweep(s, i, now, env).fired|, FiringOf(s.table[i], now)).delay
  }

  /** Up to entry i itself, a sweep leaves it alone. */
  lemma {:induction false} SweepReaches(s: State, n: nat, i: nat, now: u32, env: Env)
    requires Inv(s) && n <= i < |s.table|
    requires s.table[i].token != INVALID_TOKEN && Unnamed(env, s.table[i].token)
    ensures Untouched(s, Sweep(s, n, now, env), i)
  {
    if n > 0 {
      SweepReaches(s, n - 1, i, now, env);
      SweepKeepsInv(s, n - 1, now, env);
      UntouchedByOther(s, Sweep(s, n - 1, now, env), Sweep(s, n, now, env), i, n - 1, now, env);
    }
  }

  /** An entry that is not due stays as it is. */
  lemma {:induction false} SweepSpares(s: State, n: nat, i: nat, now: u32, env: Env)
    requires Inv(s) && i < n <= |s.table| && !Due(s.table[i], now)
    requires s.table[i].token != INVALID_TOKEN && Unnamed(env, s.table[i].token)
    ensures Untouched(s, Sweep(s, n, now, env), i)
  {
    var u := Sweep(s, n - 1, now, env);
    SweepKeepsInv(s, n - 1, now, env);
    if n == i + 1 {
      SweepReaches(s, i, i, now, env);
      RunsItself(s, u, Sweep(s, n, now, env), i, now, env);
    } else {
      SweepSpares(s, n - 1, i, now, env);
      UntouchedByOther(s, u, Sweep(s, n, now, env), i, n - 1, now, env);
    }
  }

  lemma SweepComesTo(s: State, i: nat, now: u32, env: Env)
    requires Inv(s) && i < |s.table| && Due(s.table[i], now)
    requires Unnamed(env, s.table[i].token)
    ensures RanOnce(s, Sweep(s, i + 1, now, env), i, now, OwnDelay(s, i, now, env), true)
  {
    SweepReaches(s, i, i, now, env);
    SweepKeepsInv(s, i, now, env);
    RunsItself(s, Sweep(s, i, now, env), Sweep(s, i + 1, now, env), i, now, env);
  }

  /** A due entry runs when the sweep comes to it. */
  lemma {:induction false} SweepRuns(s: State, n: nat, i: nat, now: u32, d: u32, env: Env)
    requires Inv(s) && i < n <= |s.table| && Due(s.table[i], now) && d == OwnDelay(s, i, now, env)
    requires Unnamed(env, s.table[i].token)
    ensures RanOnce(s, Sweep(s, n, now, env), i, now, d, n == i + 1 || d > 0)
  {
    if n == i + 1 {
      SweepComesTo(s, i, now, env);
    } else {
      SweepRuns(s, n - 1, i, now, d, env);
      SweepKeepsInv(s, n - 1, now, env);
      RanOnceStays(s, Sweep(s, n - 1, now, env), Sweep(s, n, now, env), i, n - 1, now, d, env, n - 1 == i + 1 || d > 0);
    }
  }

  /** One sweep runs a due entry when it comes to it, once, and re-queues or frees it as its
      callback asks; an entry that is not due it leaves alone, and so it does with a re-queued
      one, whatever the callbacks of other entries do. */
  lemma SweepFiresOnce(s: State, n: nat, i: nat, now: u32, env: Env)
    requires Inv(s) && i < |s.table| && n <= |s.table|
    requires s.table[i].token != INVALID_TOKEN && Unnamed(env, s.table[i].token)
    ensures var d := OwnDelay(s, i, now, env);
      if i < n && Due(s.table[i], now) then RanOnce(s, Sweep(s, n, now, env), i, now, d, n == i + 1 || d > 0)
      else Untouched(s, Sweep(s, n, now, env), i)
  {
    if n <= i {
      SweepReaches(s, n, i, now, env);
    } else if Due(s.table[i], now) {
      SweepRuns(s, n, i, now, OwnDelay(s, i, now, env), env);
    } else {
      SweepSpares(s, n, i, now, env);
    }
  }

  // ---------- never early ----------

  /** Every callback ran at or after its trigger, as the 32-bit clock shows it. */
  predicate InTime(fired: seq<Firing>) {
    forall k :: 0 <= k < |fired| ==> Signed32(Diff32(fired[k].trigger, fired[k].at)) <= 0
  }

  lemma {:induction false} SweepInTime(s: State, n: nat, now: u32, env: Env)
    requires n <= |s.table| && InTime(s.fired)
    ensures InTime(Sweep(s, n, now, env).fired)
  {
    if n > 0 { SweepInTime(s, n - 1, now, env); }
  }

  /** Over every sequence of calls, whatever callbacks do and return, none runs before its
      trigger. */
  lemma {:induction false} NeverEarly(size: nat, cmds: seq<Command>, env: Env)
    ensures InTime(Run(Empty(size), cmds, env).s.fired)
  {
    if cmds != [] {
      var r := Run(Empty(size), cmds[..|cmds| - 1], env);
      NeverEarly(size, cmds[..|cmds| - 1], env);
      match cmds[|cmds| - 1]
      case Api(_) =>
      case Tick(now) => SweepInTime(r.s, |r.s.table|, now, env);
    }
  }

  /** In real time, too: a callback whose trigger stands for a real instant near the one at
      which it ran did not run before that instant. */
  lemma NeverEarlyInRealTime(size: nat, cmds: seq<Command>, env: Env, k: nat, due: nat, at: nat)
    requires k < |Run(Empty(size), cmds, env).s.fired|
    requires var f := Run(Empty(size), cmds, env).s.fired[k]; f.trigger == due % WRAP32 && f.at == at % WRAP32
    requires Near(due, at)
    ensures due <= at
  {
    NeverEarly(size, cmds, env);
    SignedDiff32Exact(due, at);
  }

  // ---------- a periodic callback ----------

  /** A call from outside in real time. */
  datatype Timed = Call(op: Op) | Periodically(time: nat)

  /** What the firmware sees of it. */
  function Shown(c: Timed): Command {
    match c
    case Call(op) => Api(op)
    case Periodically(time) => Tick(time % WRAP32)
  }

  function AllShown(cs: seq<Timed>): (r: seq<Command>)
    ensures |r| == |cs|
  {
    seq(|cs|, i requires 0 <= i < |cs| => Shown(cs[i]))
  }

  /** The real times at which the sweep is called. */
  function Times(cs: seq<Timed>): seq<nat> {
    if cs == [] then []
    else
      var past := Times(cs[..|cs| - 1]);
      match cs[|cs| - 1]
      case Call(_) => past
      case Periodically(time) => past + [time]
  }

  /** Nobody names token t between the sweeps. */
  predicate AllSpare(cs: seq<Timed>, t: Token) {
    forall k :: 0 <= k < |cs| && cs[k].Call? ==> Spares(cs[k].op, t)
  }

  /** Nobody names token t, and its callback always returns d. */
  ghost predicate Steady(env: Env, t: Token, d: u32) {
    Unnamed(env, t) && forall n, f: Firing :: f.token == t ==> env(n, f).delay == d
  }

  /** The real time of the k-th period of d after t0. */
  function Nth(t0: nat, d: nat, k: nat): nat { if k == 0 then t0 else Nth(t0, d, k - 1) + d }

  lemma {:induction false} NthIsMultiple(t0: nat, d: nat, k: nat)
    ensures Nth(t0, d, k) == t0 + k * d
  {
    if k > 0 {
      NthIsMultiple(t0, d, k - 1);
      assert (k - 1) * d + d == k * d;
    }
  }

  /** How often a period of d that starts at t0 has come due, at most once a call. */
  function Count(t0: nat, d: nat, times: seq<nat>): (k: nat)
    ensures k <= |times|
  {
    if times == [] then 0
    else
      var k := Count(t0, d, times[..|times| - 1]);
      if Nth(t0, d, k) <= times[|times| - 1] then k + 1 else k
  }

  /** The real time of the last call of the sweep. */
  function Latest(start: nat, times: seq<nat>): nat {
    if times == [] then start else times[|times| - 1]
  }

  /** Calls come in strictly increasing real time, never half a wrap after the call before
      or half a wrap away from the trigger that is pending then. */
  predicate Regular(start: nat, times: seq<nat>, t0: nat, d: nat) {
    times != [] ==>
      var past, now := times[..|times| - 1], times[|times| - 1];
      && Regular(start, past, t0, d)
      && 0 < now - Latest(start, past) < 0x8000_0000
      && Near(Nth(t0, d, Count(t0, d, past)), now)
  }

  /** The runs are those of the entry's callback, with its argument, triggered once a period. */
  predicate Periodic(fs: seq<Firing>, e: Entry, t0: nat, d: nat) {
    forall k :: 0 <= k < |fs| ==>
      fs[k].trigger == Nth(t0, d, k) % WRAP32 && fs[k].callback == e.callback && fs[k].arg == e.arg
  }

  /** Each run happened in a call of the sweep at or after its trigger time. */
  ghost predicate NotEarly(fs: seq<Firing>, t0: nat, d: nat, times: seq<nat>) {
    forall k :: 0 <= k < |fs| ==> RanAt(fs[k], Nth(t0, d, k), times)
  }

  ghost predicate RanAt(f: Firing, due: nat, times: seq<nat>) {
    exists n :: 0 <= n < |times| && due <= times[n] && f.at == times[n] % WRAP32
  }

  lemma RanAtGrows(f: Firing, due: nat, times: seq<nat>, now: nat)
    ensures RanAt(f, due, times) ==> RanAt(f, due, times + [now])
    ensures due <= now && f.at == now % WRAP32 ==> RanAt(f, due, times + [now])
  {
    if RanAt(f, due, times) {
      var n :| 0 <= n < |times| && due <= times[n] && f.at == times[n] % WRAP32;
      assert (times + [now])[n] == times[n];
    }
    if due <= now && f.at == now % WRAP32 {
      assert (times + [now])[|times|] == now;
    }
  }

  lemma NotEarlyGrows(fs: seq<Firing>, t0: nat, d: nat, times: seq<nat>, now: nat)
    requires NotEarly(fs, t0, d, times)
    ensures NotEarly(fs, t0, d, times + [now])
  {
    forall k | 0 <= k < |fs| ensures RanAt(fs[k], Nth(t0, d, k), times + [now]) {
      RanAtGrows(fs[k], Nth(t0, d, k), times, now);
    }
  }

  lemma NotEarlyAppend(fs: seq<Firing>, f: Firing, t0: nat, d: nat, times: seq<nat>)
    requires NotEarly(fs, t0, d, times) && RanAt(f, Nth(t0, d, |fs|), times)
    ensures NotEarly(fs + [f], t0, d, times)
  {
  }

  /** The entry that has run k times. */
  predicate HasRun(s: State, e: Entry, i: nat, t0: nat, d: nat, k: nat) {
    && i < |s.table|
    && s.table[i] == e.(trigger := Nth(t0, d, k) % WRAP32)
    && |Of(s.fired, e.token)| == k && Periodic(Of(s.fired, e.token), e, t0, d)
  }

  lemma AfterWraps(due: nat, d: u32)
    ensures After(due % WRAP32, d) == (due + d) % WRAP32
  {
  }

  lemma PeriodicAppend(fs: seq<Firing>, f: Firing, e: Entry, t0: nat, d: nat)
    requires Periodic(fs, e, t0, d)
    requires f.trigger == Nth(t0, d, |fs|) % WRAP32 && f.callback == e.callback && f.arg == e.arg
    ensures Periodic(fs + [f], e, t0, d)
  {
  }

  lemma RunsWhenDue(s: State, e: Entry, i: nat, t0: nat, d: u32, k: nat, now: nat, env: Env)
    requires HasRun(s, e, i, t0, d, k) && Inv(s) && e.token != INVALID_TOKEN && d > 0 && Steady(env, e.token, d)
    requires Near(Nth(t0, d, k), now)
    ensures var r := Sweep(s, |s.table|, now % WRAP32, env);
      && HasRun(r, e, i, t0, d, if Nth(t0, d, k) <= now then k + 1 else k)
      && Of(r.fired, e.token) == Of(s.fired, e.token)
                              + if Nth(t0, d, k) <= now then [FiringOf(s.table[i], now % WRAP32)] else []
  {
    SweepFiresOnce(s, |s.table|, i, now % WRAP32, env);
    DueIsExact(s.table[i], Nth(t0, d, k), now);
    AfterWraps(Nth(t0, d, k), d);
    PeriodicAppend(Of(s.fired, e.token), FiringOf(s.table[i], now % WRAP32), e, t0, d);
    assert Nth(t0, d, k + 1) == Nth(t0, d, k) + d;
  }

  lemma RunsInTime(fs: seq<Firing>, f: Firing, t0: nat, d: nat, times: seq<nat>, now: nat)
    requires NotEarly(fs, t0, d, times) && f.at == now % WRAP32
    ensures NotEarly(fs + if Nth(t0, d, |fs|) <= now then [f] else [], t0, d, times + [now])
  {
    NotEarlyGrows(fs, t0, d, times, now);
    RanAtGrows(f, Nth(t0, d, |fs|), times, now);
    if Nth(t0, d, |fs|) <= now { NotEarlyAppend(fs, f, t0, d, times + [now]); }
  }

  /** A call later in real time, but less than half a wrap later, is not throttled. */
  lemma LaterRuns(c: Clocked, latest: nat, now: nat, env: Env)
    requires c.last == latest % WRAP32 && 0 < now - latest < 0x8000_0000
    ensures Task(c, now % WRAP32, env) == Clocked(Sweep(c.s, |c.s.table|, now % WRAP32, env), now % WRAP32)
  {
    SignedDiff32Exact(now, latest);
  }

  /** One more call of the sweep. */
  lemma NextCall(c: Clocked, e: Entry, i: nat, latest: nat, past: seq<nat>, now: nat, env: Env, t0: nat, d: u32, k: nat)
    requires Inv(c.s) && e.token != INVALID_TOKEN && d > 0 && Steady(env, e.token, d)
    requires HasRun(c.s, e, i, t0, d, k) && NotEarly(Of(c.s.fired, e.token), t0, d, past)
    requires c.last == latest % WRAP32 && 0 < now - latest < 0x8000_0000 && Near(Nth(t0, d, k), now)
    ensures var r := Task(c, now % WRAP32, env);
      && Inv(r.s) && r.last == now % WRAP32
      && HasRun(r.s, e, i, t0, d, if Nth(t0, d, k) <= now then k + 1 else k)
      && NotEarly(Of(r.s.fired, e.token), t0, d, past + [now])
  {
    LaterRuns(c, latest, now, env);
    SweepKeepsInv(c.s, |c.s.table|, now % WRAP32, env);
    RunsWhenDue(c.s, e, i, t0, d, k, now, env);
    RunsInTime(Of(c.s.fired, e.token), FiringOf(c.s.table[i], now % WRAP32), t0, d, past, now);
  }

  lemma OtherCall(c: Clocked, op: Op, e: Entry, i: nat, t0: nat, d: u32, k: nat)
    requires Inv(c.s) && e.token != INVALID_TOKEN && HasRun(c.s, e, i, t0, d, k) && Spares(op, e.token)
    ensures Inv(Do(c.s, op)) && HasRun(Do(c.s, op), e, i, t0, d, k)
  {
    DoKeepsInv(c.s, op);
    HandleStable(c.s, [op], i);
    assert [op][..0] == [];
    assert DoAll(c.s, [op]) == Do(DoAll(c.s, []), op);
  }

  /** Where a periodic entry stands after a run. */
  ghost predicate OnTime(r: Clocked, e: Entry, i: nat, start: nat, times: seq<nat>, t0: nat, d: u32) {
    && Inv(r.s)
    && HasRun(r.s, e, i, t0, d, Count(t0, d, times))
    && NotEarly(Of(r.s.fired, e.token), t0, d, times)
    && r.last == Latest(start, times) % WRAP32
  }

  lemma StaysOnTime(r: Clocked, op: Op, e: Entry, i: nat, start: nat, times: seq<nat>, t0: nat, d: u32)
    requires OnTime(r, e, i, start, times, t0, d) && e.token != INVALID_TOKEN && Spares(op, e.token)
    ensures OnTime(r.(s := Do(r.s, op)), e, i, start, times, t0, d)
  {
    OtherCall(r, op, e, i, t0, d, Count(t0, d, times));
  }

  lemma NextOnTime(r: Clocked, e: Entry, i: nat, start: nat, times: seq<nat>, now: nat, env: Env, t0: nat, d: u32)
    requires OnTime(r, e, i, start, times, t0, d) && e.token != INVALID_TOKEN && d > 0 && Steady(env, e.token, d)
    requires 0 < now - Latest(start, times) < 0x8000_0000 && Near(Nth(t0, d, Count(t0, d, times)), now)
    ensures OnTime(Task(r, now % WRAP32, env), e, i, start, times + [now], t0, d)
  {
    assert (times + [now])[..|times|] == times;
    NextCall(r, e, i, Latest(start, times), times, now, env, t0, d, Count(t0, d, times));
  }

  lemma RegularPast(start: nat, times: seq<nat>, now: nat, t0: nat, d: nat)
    requires Regular(start, times + [now], t0, d)
    ensures Regular(start, times, t0, d)
    ensures 0 < now - Latest(start, times) < 0x8000_0000 && Near(Nth(t0, d, Count(t0, d, times)), now)
  {
    assert (times + [now])[..|times|] == times;
  }

  lemma RunOneMore(c: Clocked, cs: seq<Timed>, env: Env)
    requires cs != []
    ensures var r, last := Run(c, AllShown(cs[..|cs| - 1]), env), cs[|cs| - 1];
      Run(c, AllShown(cs), env)
      == if last.Call? then r.(s := Do(r.s, last.op)) else Task(r, last.time % WRAP32, env)
  {
    assert AllShown(cs) == AllShown(cs[..|cs| - 1]) + [Shown(cs[|cs| - 1])];
    RunAppend(c, AllShown(cs[..|cs| - 1]), Shown(cs[|cs| - 1]), env);
  }

  /** No drift: the k-th run of a callback that returns the constant d is triggered for
      exactly t0 + k*d, never early, however late the sweep is called, and across any number
      of wraps of the clock, whatever else happens to the table meanwhile. */
  lemma {:induction false} NoDrift(c: Clocked, start: nat, cs: seq<Timed>, env: Env, i: nat, t0: nat, d: u32)
    requires Inv(c.s) && i < |c.s.table| && c.s.table[i].token != INVALID_TOKEN && d > 0
    requires c.last == start % WRAP32 && c.s.table[i].trigger == t0 % WRAP32
    requires Steady(env, c.s.table[i].token, d) && AllSpare(cs, c.s.table[i].token)
    requires Regular(start, Times(cs), t0, d)
    requires Of(c.s.fired, c.s.table[i].token) == []
    ensures OnTime(Run(c, AllShown(cs), env), c.s.table[i], i, start, Times(cs), t0, d)
  {
    if cs == [] {
      assert Count(t0, d, []) == 0 && Nth(t0, d, 0) == t0;
    } else {
      var past, last, e := cs[..|cs| - 1], cs[|cs| - 1], c.s.table[i];
      var r, times := Run(c, AllShown(past), env), Times(past);
      RunOneMore(c, cs, env);
      if last.Call? {
        NoDrift(c, start, past, env, i, t0, d);
        StaysOnTime(r, last.op, e, i, start, times, t0, d);
      } else {
        RegularPast(start, times, last.time, t0, d);
        NoDrift(c, start, past, env, i, t0, d);
        NextOnTime(r, e, i, start, times, last.time, env, t0, d);
      }
    }
  }

  // ---------- the calls, in real time ----------

  /** The first free slot. */
  predicate FirstFree(table: seq<Entry>, i: nat) {
    i < |table| && table[i].token == 0 && forall j :: 0 <= j < i ==> table[j].token != 0
  }

  /** Deferring writes an entry that is due `delay` after now into the first free slot, under a
      token nobody has. */
  lemma DeferCounts(s: State, now: nat, delay: u32, callback: nat, arg: int, i: nat)
    requires |s.table| <= 255 && FirstFree(s.table, i) && delay > 0 && callback != 0
    ensures var r, t := Do(s, Defer(now % WRAP32, delay, callback, arg)), DeferToken(s, delay, callback);
      && t != 0 && (forall j :: 0 <= j < |s.table| ==> s.table[j].token != t)
      && r.table == s.table[i := Entry(t, (now + delay) % WRAP32, callback, arg)]
  {
    var j := Slot(s.table, INVALID_TOKEN);
    AfterWraps(now, delay);
    FreeSlotAllocates(s.table, s.current, i);
    assert j == i;
  }

  /** Without a free slot, a delay or a callback it does nothing. */
  lemma DeferRefused(s: State, now: u32, delay: u32, callback: nat, arg: int)
    requires delay == 0 || callback == 0 || forall j :: 0 <= j < |s.table| ==> s.table[j].token != 0
    ensures DeferToken(s, delay, callback) == 0 && Do(s, Defer(now, delay, callback, arg)) == s
  {
  }

  /** With all tokens in use it only moves the counter on by one. */
  lemma DeferExhausted(s: State, now: u32, delay: u32, callback: nat, arg: int, i: nat)
    requires FirstFree(s.table, i) && delay > 0 && callback != 0
    requires forall t: Token :: t != 0 ==> !Usable(s.table, t)
    ensures Do(s, Defer(now, delay, callback, arg)) == s.(current := (s.current + 1) % 256)
  {
    var j := Slot(s.table, INVALID_TOKEN);
    assert j == i;
  }

  /** Extending makes the named entry due `delay` after now and changes nothing else. */
  lemma ExtendCounts(s: State, now: nat, delay: u32, i: nat)
    requires Distinct(s.table) && i < |s.table| && s.table[i].token != 0
    ensures var e := s.table[i];
      Do(s, Extend(now % WRAP32, e.token, delay))
      == if delay == 0 then s
         else s.(table := s.table[i := Entry(e.token, (now + delay) % WRAP32, e.callback, e.arg)])
  {
    AfterWraps(now, delay);
    var j := Slot(s.table, s.table[i].token);
    assert j == i;
  }

  /** Cancelling frees the named entry and changes nothing else. */
  lemma CancelFrees(s: State, i: nat)
    requires Distinct(s.table) && i < |s.table| && s.table[i].token != 0
    ensures Do(s, Cancel(s.table[i].token)) == s.(table := s.table[i := Entry(0, 0, 0, 0)])
  {
    var j := Slot(s.table, s.table[i].token);
    assert j == i;
  }

  /** A token that names no entry does nothing. */
  lemma NoEntryNoEffect(s: State, now: u32, t: Token, delay: u32)
    requires t == 0 || forall i :: 0 <= i < |s.table| ==> s.table[i].token != t
    ensures Do(s, Extend(now, t, delay)) == s && Do(s, Cancel(t)) == s
  {
  }

  /** A sweep runs exactly if real time has gone on since the last one, within half a wrap. */
  lemma ThrottledExactly(c: Clocked, latest: nat, now: nat, env: Env)
    requires c.last == latest % WRAP32 && Near(now, latest)
    ensures Task(c, now % WRAP32, env)
         == if now > latest then Clocked(Sweep(c.s, |c.s.table|, now % WRAP32, env), now % WRAP32) else c
  {
    SignedDiff32Exact(now, latest);
  }

  /** From the deferring call on: a callback that returns the constant d runs for the k-th time,
      with its argument, as triggered for exactly delay + k*d after that call. */
  lemma DeferredRunsInTime(s: State, last: nat, now: nat, delay: u32, callback: nat, arg: int,
                           cs: seq<Timed>, env: Env, i: nat, d: u32)
    requires Inv(s) && s.fired == [] && |s.table| <= 255 && FirstFree(s.table, i)
    requires delay > 0 && callback != 0 && d > 0 && Regular(last, Times(cs), now + delay, d)
    ensures var t := DeferToken(s, delay, callback);
      var e := Entry(t, (now + delay) % WRAP32, callback, arg);
      var c := Clocked(Do(s, Defer(now % WRAP32, delay, callback, arg)), last % WRAP32);
      Steady(env, t, d) && AllSpare(cs, t) ==>
        OnTime(Run(c, AllShown(cs), env), e, i, last, Times(cs), now + delay, d)
  {
    DeferCounts(s, now, delay, callback, arg, i);
    DoKeepsInv(s, Defer(now % WRAP32, delay, callback, arg));
    var c := Clocked(Do(s, Defer(now % WRAP32, delay, callback, arg)), last % WRAP32);
    var t := DeferToken(s, delay, callback);
    if Steady(env, t, d) && AllSpare(cs, t) { NoDrift(c, last, cs, env, i, now + delay, d); }
  }
}
