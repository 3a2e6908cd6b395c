/** What every run of the deferred executor keeps: distinct tokens, allocation that cannot
    fail early, handles that stay valid, and drift-free timing across clock wrap. */
module DeferredProofs {
  import opened Timer
  import opened DeferredSpec

  // ---------- invariant ----------

  predicate Distinct(table: seq<Entry>) {
    forall i, j :: 0 <= i < j < |table| && table[i].token == table[j].token ==> table[i].token == INVALID_TOKEN
  }

  predicate BlankWhenFree(table: seq<Entry>) {
    forall i :: 0 <= i < |table| && table[i].token == INVALID_TOKEN ==> table[i] == FREE
  }

  predicate Inv(s: State) { Distinct(s.table) && BlankWhenFree(s.table) }

  lemma DoKeepsInv(s: State, op: Op)
    requires Inv(s)
    ensures Inv(Do(s, op))
  {
  }

  lemma {:induction false} DoAllKeepsInv(s: State, ops: seq<Op>)
    requires Inv(s)
    ensures Inv(DoAll(s, ops))
  {
    if ops != [] {
      DoAllKeepsInv(s, ops[..|ops| - 1]);
      DoKeepsInv(DoAll(s, ops[..|ops| - 1]), ops[|ops| - 1]);
    }
  }

  lemma VisitKeepsInv(s: State, i: nat, now: u32, env: Env)
    requires Inv(s) && i < |s.table|
    ensures Inv(Visit(s, i, now, env))
  {
    var f := FiringOf(s.table[i], now);
    DoAllKeepsInv(s.(fired := s.fired + [f]), env(|s.fired|, f).ops);
  }

  lemma {:induction false} SweepKeepsInv(s: State, n: nat, now: u32, env: Env)
    requires Inv(s) && n <= |s.table|
    ensures Inv(Sweep(s, n, now, env))
  {
    if n > 0 {
      SweepKeepsInv(s, n - 1, now, env);
      VisitKeepsInv(Sweep(s, n - 1, now, env), n - 1, now, env);
    }
  }

  /** A call from outside: an API operation, or the periodic task. */
  datatype Command = Api(op: Op) | Tick(now: u32)

  function Run(c: Clocked, cmds: seq<Command>, env: Env): Clocked {
    if cmds == [] then c
    else
      var r := Run(c, cmds[..|cmds| - 1], env);
      match cmds[|cmds| - 1]
      case Api(op) => r.(s := Do(r.s, op))
      case Tick(now) => Task(r, now, env)
  }

  function Empty(size: nat): Clocked {
    Clocked(State(seq(size, _ => FREE), 0, []), 0)
  }

  /** Over every sequence of calls, also those callbacks make themselves, no two entries
      share a token and free entries are blank. */
  lemma {:induction false} TokensStayDistinct(size: nat, cmds: seq<Command>, env: Env)
    ensures Inv(Run(Empty(size), cmds, env).s)
  {
    if cmds != [] {
      var r := Run(Empty(size), cmds[..|cmds| - 1], env);
      TokensStayDistinct(size, cmds[..|cmds| - 1], env);
      match cmds[|cmds| - 1]
      case Api(op) => DoKeepsInv(r.s, op);
      case Tick(now) => if !Throttled(now, r.last) { SweepKeepsInv(r.s, |r.s.table|, now, env); }
    }
  }

  // ---------- allocation ----------

  function Offset(current: Token, t: Token): (k: nat)
    ensures k < 256 && Candidate(current, k) == t
  {
    (t - current - 1) % 256
  }

  lemma EarlierCandidateDiffers(current: Token, k: nat, t: Token)
    requires k < Offset(current, t)
    ensures Candidate(current, k) != t
  {
  }

  /** Allocation fails only when all 255 tokens are in use. */
  lemma AllocationFailsOnlyWhenExhausted(table: seq<Entry>, current: Token)
    ensures Allocate(table, current) == INVALID_TOKEN
       <==> forall t: Token :: t != INVALID_TOKEN ==> !Usable(table, t)
  {
    if Allocate(table, current) == INVALID_TOKEN {
      forall t: Token | t != INVALID_TOKEN ensures !Usable(table, t) {
        assert t == Candidate(current, Offset(current, t));
      }
    }
  }

  /** The tokens 1..n. */
  function FirstTokens(n: nat): (r: set<int>)
    ensures forall t :: t in r <==> 1 <= t <= n
    ensures |r| == n
  {
    if n == 0 then {} else FirstTokens(n - 1) + {n}
  }

  function TokensIn(table: seq<Entry>): (r: set<int>)
    ensures forall i :: 0 <= i < |table| ==> table[i].token in r
    ensures |r| <= |table|
  {
    if table == [] then {} else
      assert forall i :: 1 <= i < |table| ==> table[i] == table[1..][i - 1];
      TokensIn(table[1..]) + {table[0].token}
  }

  lemma SubsetSize(a: set<int>, b: set<int>)
    requires a <= b
    ensures |a| <= |b|
  {
    assert |b| == |a| + |b - a|;
  }

  function Without(table: seq<Entry>, i: nat): seq<Entry>
    requires i < |table|
  {
    table[..i] + table[i + 1..]
  }

  lemma ExhaustedNeedsEveryToken(table: seq<Entry>, free: nat, n: nat)
    requires free < |table| && table[free].token == INVALID_TOKEN && n < 256
    requires forall t: Token :: t != INVALID_TOKEN ==> !Usable(table, t)
    ensures n <= |Without(table, free)|
  {
    var others := Without(table, free);
    forall t | t in FirstTokens(n) ensures t in TokensIn(others) {
      var tok: Token := t;
      assert !Usable(table, tok);
      var i :| 0 <= i < |table| && table[i].token == tok;
      assert others[if i < free then i else i - 1] == table[i];
    }
    SubsetSize(FirstTokens(n), TokensIn(others));
  }

  /** Pigeonhole: a table of at most 255 slots with a free slot always gets a token. */
  lemma FreeSlotAllocates(table: seq<Entry>, current: Token, free: nat)
    requires free < |table| <= 255 && table[free].token == INVALID_TOKEN
    ensures Allocate(table, current) != INVALID_TOKEN
  {
    AllocationFailsOnlyWhenExhausted(table, current);
    if Allocate(table, current) == INVALID_TOKEN {
      ExhaustedNeedsEveryToken(table, free, 255);
    }
  }

  /** Deferring succeeds exactly when the request is sensible and a slot is free. */
  lemma DeferSucceeds(s: State, now: u32, delay: u32, callback: nat, arg: int)
    requires |s.table| <= 255
    ensures DeferToken(s, delay, callback) != INVALID_TOKEN
       <==> delay > 0 && callback != 0 && exists i :: 0 <= i < |s.table| && s.table[i].token == INVALID_TOKEN
  {
    var i := Slot(s.table, INVALID_TOKEN);
    if i < |s.table| { FreeSlotAllocates(s.table, s.current, i); }
  }

  // ---------- handles ----------

  /** The returned token names the new entry and cancelling it undoes the call. */
  lemma CancelUndoesDefer(s: State, now: u32, delay: u32, callback: nat, arg: int)
    requires Inv(s) && DeferToken(s, delay, callback) != INVALID_TOKEN
    ensures var t := DeferToken(s, delay, callback);
      var d := DoDefer(s, now, delay, callback, arg);
      && Slot(d.table, t) < |d.table|
      && d.table[Slot(d.table, t)] == Entry(t, After(now, delay), callback, arg)
      && Usable(s.table, t)
      && DoCancel(d, t).table == s.table
  {
    var i := Slot(s.table, INVALID_TOKEN);
    var t := DeferToken(s, delay, callback);
    var d := DoDefer(s, now, delay, callback, arg);
    assert d.table[i].token == t && Slot(d.table, t) == i;
    assert d.table[i := FREE] == s.table;
  }

  /** The operation neither cancels nor extends token t. */
  predicate Spares(op: Op, t: Token) {
    match op
    case Defer(_, _, _, _) => true
    case Extend(_, u, _) => u != t
    case Cancel(u) => u != t
    case OtherTable(_) => true
  }

  /** A token keeps naming the same entry until somebody names it. */
  lemma {:induction false} HandleStable(s: State, ops: seq<Op>, i: nat)
    requires Inv(s) && i < |s.table| && s.table[i].token != INVALID_TOKEN
    requires forall k :: 0 <= k < |ops| ==> Spares(ops[k], s.table[i].token)
    ensures DoAll(s, ops).table[i] == s.table[i]
  {
    if ops != [] {
      HandleStable(s, ops[..|ops| - 1], i);
      DoAllKeepsInv(s, ops[..|ops| - 1]);
    }
  }

  // ---------- a callback that cancels and re-queues itself ----------

  /** Some usable token comes before t in the order in which candidates are tried. */
  ghost predicate UsableBefore(table: seq<Entry>, current: Token, t: Token) {
    exists k :: 0 <= k < Offset(current, t) && Usable(table, Candidate(current, k))
  }

  lemma {:induction false} NextTokenIsFirst(table: seq<Entry>, current: Token, k: nat, t: Token)
    requires k <= Offset(current, t) && t != INVALID_TOKEN && Usable(table, t)
    ensures NextToken(table, current, k) == t
       <==> forall j :: k <= j < Offset(current, t) ==> !Usable(table, Candidate(current, j))
    decreases 256 - k
  {
    if k < Offset(current, t) {
      EarlierCandidateDiffers(current, k, t);
      if !Usable(table, Candidate(current, k)) {
        NextTokenIsFirst(table, current, k + 1, t);
      }
    }
  }

  /** Freeing t makes t itself usable and no other token. */
  lemma FreeingMakesUsable(table: seq<Entry>, i: nat, u: Token)
    requires Distinct(table) && i < |table| && table[i].token != INVALID_TOKEN
    ensures Usable(table[i := FREE], u) <==> Usable(table, u) || u == table[i].token
  {
    if Usable(table[i := FREE], u) && u != table[i].token {
      forall j | 0 <= j < |table| ensures table[j].token != u {
        if j != i { assert table[i := FREE][j].token != u; }
      }
    }
  }

  /** The old token comes back exactly when no unused token is tried before it. */
  lemma TokenComesBack(s: State, i: nat)
    requires Inv(s) && i < |s.table| && s.table[i].token != INVALID_TOKEN
    ensures var u := Allocate(s.table[i := FREE], s.current);
      && u != INVALID_TOKEN
      && (u == s.table[i].token <==> !UsableBefore(s.table, s.current, s.table[i].token))
  {
    var t, freed := s.table[i].token, s.table[i := FREE];
    FreeingMakesUsable(s.table, i, t);
    NextTokenIsFirst(freed, s.current, 0, t);
    AllocationFailsOnlyWhenExhausted(freed, s.current);
    SameBefore(s, i);
  }

  lemma SameBefore(s: State, i: nat)
    requires Distinct(s.table) && i < |s.table| && s.table[i].token != INVALID_TOKEN
    ensures forall k :: 0 <= k < Offset(s.current, s.table[i].token) ==>
      (Usable(s.table[i := FREE], Candidate(s.current, k)) <==> Usable(s.table, Candidate(s.current, k)))
  {
    forall k | 0 <= k < Offset(s.current, s.table[i].token)
      ensures Usable(s.table[i := FREE], Candidate(s.current, k)) <==> Usable(s.table, Candidate(s.current, k))
    {
      EarlierCandidateDiffers(s.current, k, s.table[i].token);
      FreeingMakesUsable(s.table, i, Candidate(s.current, k));
    }
  }

  lemma RequeueRan(s: State, i: nat, now: u32, delay: u32, callback: nat, arg: int)
    requires Inv(s) && i < |s.table| && s.table[i].token != INVALID_TOKEN && delay > 0 && callback != 0
    ensures var freed := s.table[i := FREE];
      var j, u := Slot(freed, INVALID_TOKEN), Allocate(freed, s.current);
      && j <= i
      && DoAll(s, [Cancel(s.table[i].token), Defer(now, delay, callback, arg)])
         == s.(current := u, table := freed[j := Entry(u, After(now, delay), callback, arg)])
  {
    var t := s.table[i].token;
    RunTwo(s, Cancel(t), Defer(now, delay, callback, arg));
    assert Slot(s.table, t) == i by { assert s.table[i].token == t; }
    assert s.table[i := FREE][i].token == INVALID_TOKEN;
    TokenComesBack(s, i);
  }

  /** deferred_exec.c takes a changed token as the sign that a callback cancelled and
      re-queued itself. That is right exactly when the old token is not handed out again to
      the same slot: some earlier slot is free, or some unused token comes first. Otherwise
      the new entry is thrown away or put off by what the callback returns. */
  lemma RequeueDetected(s: State, i: nat, now: u32, delay: u32, callback: nat, arg: int, returned: u32)
    requires Inv(s) && i < |s.table| && s.table[i].token != INVALID_TOKEN && delay > 0 && callback != 0
    ensures var t := s.table[i].token;
      var ops := [Cancel(t), Defer(now, delay, callback, arg)];
      var ran := DoAll(s, ops);
      var j := Slot(s.table[i := FREE], INVALID_TOKEN);
      && j <= i && ran.table[j].(token := 0) == Entry(0, After(now, delay), callback, arg)
      && (Fire(s, i, now, Reply(ops, returned)).table == ran.table <==> j < i || UsableBefore(s.table, s.current, t))
  {
    TokenComesBack(s, i);
    RequeueRan(s, i, now, delay, callback, arg);
    RequeueRan(s.(fired := s.fired + [FiringOf(s.table[i], now)]), i, now, delay, callback, arg);
    AfterMoves(After(now, delay), returned);
  }

  lemma AfterMoves(trigger: u32, delay: u32)
    ensures delay > 0 ==> After(trigger, delay) != trigger
  {
  }

  lemma RunTwo(s: State, a: Op, b: Op)
    ensures DoAll(s, [a, b]) == Do(Do(s, a), b)
  {
    assert [a, b][..1] == [a] && [a][..0] == [];
    assert DoAll(s, [a]) == Do(DoAll(s, []), a);
  }

  /** The callback cancels its own entry, queues itself anew and returns 0. */
  function Restart(f: Firing): Reply { Reply([Cancel(f.token), Defer(f.at, 10, f.callback, f.arg)], 0) }

  /** An entry is queued; other tables use tokens until their shared counter is back where it
      was; the entry falls due and queues itself anew. */
  function LosingRun(): seq<Command> {
    [Api(OtherTable(4)), Api(Defer(0, 1, 1, 0)), Api(OtherTable(4)), Tick(5)]
  }

  lemma RunAppend(c: Clocked, cmds: seq<Command>, cmd: Command, env: Env)
    ensures Run(c, cmds + [cmd], env)
         == if cmd.Api? then Run(c, cmds, env).(s := Do(Run(c, cmds, env).s, cmd.op))
            else Task(Run(c, cmds, env), cmd.now, env)
  {
    assert (cmds + [cmd])[..|cmds|] == cmds;
  }

  lemma NextIsFive()
    ensures Allocate([FREE], 4) == 5 && Slot([FREE], INVALID_TOKEN) == 0
  {
    assert Candidate(4, 0) == 5;
    assert Usable([FREE], 5);
  }

  /** Queueing into an empty table of one slot while the counter stands at 4. */
  lemma QueuesAsFive(fired: seq<Firing>, now: u32, delay: u32, arg: int)
    requires delay > 0
    ensures DoDefer(State([FREE], 4, fired), now, delay, 1, arg)
         == State([Entry(5, After(now, delay), 1, arg)], 5, fired)
  {
    NextIsFive();
    assert [FREE][0 := Entry(5, After(now, delay), 1, arg)] == [Entry(5, After(now, delay), 1, arg)];
  }

  lemma LosingRunQueues(env: Env)
    ensures Run(Empty(1), LosingRun()[..3], env) == Clocked(State([Entry(5, 1, 1, 0)], 4, []), 0)
  {
    var cmds := LosingRun();
    assert Run(Empty(1), [], env) == Clocked(State([FREE], 0, []), 0);
    RunAppend(Empty(1), [], cmds[0], env);
    assert [] + [cmds[0]] == [cmds[0]];
    assert Run(Empty(1), [cmds[0]], env) == Clocked(State([FREE], 4, []), 0);
    RunAppend(Empty(1), [cmds[0]], cmds[1], env);
    QueuesAsFive([], 0, 1, 0);
    RunAppend(Empty(1), [cmds[0]] + [cmds[1]], cmds[2], env);
    assert cmds[..3] == [cmds[0]] + [cmds[1]] + [cmds[2]];
  }

  /** Cancelling and queueing anew gives the same token, so the sweep frees the new entry. */
  lemma RestartLost(env: Env)
    requires forall n, f: Firing :: env(n, f) == Restart(f)
    ensures Visit(State([Entry(5, 1, 1, 0)], 4, []), 0, 5, env).table == [FREE]
  {
    var s := State([Entry(5, 1, 1, 0)], 4, []);
    var f := FiringOf(s.table[0], 5);
    RunTwo(s.(fired := [f]), Cancel(5), Defer(5, 10, 1, 0));
    assert DoCancel(s.(fired := [f]), 5) == State([FREE], 4, [f]) by { assert s.table[0 := FREE] == [FREE]; }
    QueuesAsFive([f], 5, 10, 0);
    assert s.fired + [f] == [f];
    assert [Entry(5, After(5, 10), 1, 0)][0 := FREE] == [FREE];
  }

  /** The entry a callback queues for itself can be lost: such a run ends with an empty
      table, although the callback was given a token. */
  lemma RequeueCanBeLost(env: Env)
    requires forall n, f: Firing :: env(n, f) == Restart(f)
    ensures var before := Run(Empty(1), LosingRun()[..3], env).s;
      && before.table == [Entry(5, 1, 1, 0)]
      && DeferToken(DoCancel(before, 5), 10, 1) == 5
      && Run(Empty(1), LosingRun(), env).s.table == [FREE]
  {
    LosingRunQueues(env);
    var cmds := LosingRun();
    var s := State([Entry(5, 1, 1, 0)], 4, []);
    assert cmds == cmds[..3] + [cmds[3]];
    RunAppend(Empty(1), cmds[..3], cmds[3], env);
    RestartLost(env);
    assert s.table[0 := FREE] == [FREE];
    NextIsFive();
    assert Sweep(s, 1, 5, env) == Visit(Sweep(s, 0, 5, env), 0, 5, env);
  }
}
