/** The deferred executor of quantum/deferred_exec.c, on values. */
module DeferredSpec {
  import opened Timer

  type Token = t: int | 0 <= t < 256

  const INVALID_TOKEN: Token := 0

  /** A callback is known by a number; 0 stands for the null pointer. */
  datatype Entry = Entry(token: Token, trigger: u32, callback: nat, arg: int)

  const FREE := Entry(INVALID_TOKEN, 0, 0, 0)

  /** What a caller or a running callback may do; `now` is the clock it reads. */
  datatype Op =
    | Defer(now: u32, delay: u32, callback: nat, arg: int)
    | Extend(now: u32, token: Token, delay: u32)
    | Cancel(token: Token)
    /** An allocation in another table: all tables share `current_token`. */
    | OtherTable(current: Token)

  /** A callback's behaviour: what it does to the table, and the delay it returns. */
  datatype Reply = Reply(ops: seq<Op>, delay: u32)

  /** One invocation of a callback. */
  datatype Firing = Firing(token: Token, callback: nat, trigger: u32, arg: int, at: u32)

  datatype State = State(table: seq<Entry>, current: Token, fired: seq<Firing>)

  /** What the n-th callback invocation does. */
  type Env = (nat, Firing) -> Reply

  // ---------- tokens ----------

  /** token_can_be_used */
  predicate Usable(table: seq<Entry>, t: Token) {
    t != INVALID_TOKEN && forall i :: 0 <= i < |table| ==> table[i].token != t
  }

  /** The k-th candidate after `current`, counting from 0. */
  function Candidate(current: Token, k: nat): Token { (current + 1 + k) % 256 }

  /** allocate_token, from the k-th candidate on. */
  function NextToken(table: seq<Entry>, current: Token, k: nat): (t: Token)
    requires k <= 256
    ensures t != INVALID_TOKEN ==> Usable(table, t)
    ensures t == INVALID_TOKEN ==> forall j :: k <= j < 256 ==> !Usable(table, Candidate(current, j))
    decreases 256 - k
  {
    if k == 256 then INVALID_TOKEN
    else if Usable(table, Candidate(current, k)) then Candidate(current, k)
    else NextToken(table, current, k + 1)
  }

  function Allocate(table: seq<Entry>, current: Token): Token { NextToken(table, current, 0) }

  // ---------- the table ----------

  /** Index of the first entry with this token, or the table length. */
  function Slot(table: seq<Entry>, t: Token): (i: nat)
    ensures i <= |table|
    ensures i < |table| ==> table[i].token == t
    ensures forall j :: 0 <= j < i ==> table[j].token != t
  {
    if table == [] || table[0].token == t then 0
    else
      assert forall j :: 1 <= j < |table| ==> table[j] == table[1..][j - 1];
      1 + Slot(table[1..], t)
  }

  function After(now: u32, delay: u32): u32 { (now + delay) % WRAP32 }

  /** defer_exec_advanced; the token it returns is `DeferToken`. */
  function DoDefer(s: State, now: u32, delay: u32, callback: nat, arg: int): State {
    var i := Slot(s.table, INVALID_TOKEN);
    if |s.table| == 0 || delay == 0 || callback == 0 || i == |s.table| then s
    else
      var t := Allocate(s.table, s.current);
      if t == INVALID_TOKEN then s.(current := Candidate(s.current, 0))
      else s.(current := t, table := s.table[i := Entry(t, After(now, delay), callback, arg)])
  }

  function DeferToken(s: State, delay: u32, callback: nat): Token {
    if delay == 0 || callback == 0 || Slot(s.table, INVALID_TOKEN) == |s.table| then INVALID_TOKEN
    else Allocate(s.table, s.current)
  }

  /** extend_deferred_exec_advanced */
  function DoExtend(s: State, now: u32, t: Token, delay: u32): State {
    var i := Slot(s.table, t);
    if delay == 0 || t == INVALID_TOKEN || i == |s.table| then s
    else s.(table := s.table[i := s.table[i].(trigger := After(now, delay))])
  }

  /** cancel_deferred_exec_advanced */
  function DoCancel(s: State, t: Token): State {
    var i := Slot(s.table, t);
    if t == INVALID_TOKEN || i == |s.table| then s
    else s.(table := s.table[i := FREE])
  }

  function Do(s: State, op: Op): (r: State)
    ensures |r.table| == |s.table| && r.fired == s.fired
  {
    match op
    case Defer(now, delay, callback, arg) => DoDefer(s, now, delay, callback, arg)
    case Extend(now, t, delay) => DoExtend(s, now, t, delay)
    case Cancel(t) => DoCancel(s, t)
    case OtherTable(t) => s.(current := t)
  }

  function DoAll(s: State, ops: seq<Op>): (r: State)
    ensures |r.table| == |s.table| && r.fired == s.fired
  {
    if ops == [] then s else Do(DoAll(s, ops[..|ops| - 1]), ops[|ops| - 1])
  }

  // ---------- the periodic sweep ----------

  predicate Due(e: Entry, now: u32) {
    e.token != INVALID_TOKEN && Signed32(Diff32(e.trigger, now)) <= 0
  }

  function FiringOf(e: Entry, now: u32): Firing { Firing(e.token, e.callback, e.trigger, e.arg, now) }

  function Requeued(e: Entry, delay: u32): Entry {
    if delay > 0 then e.(trigger := After(e.trigger, delay)) else FREE
  }

  /** The callback of entry i runs, then the entry is re-queued, freed, or, if its token
      changed meanwhile, left alone. */
  function Fire(s: State, i: nat, now: u32, reply: Reply): (r: State)
    requires i < |s.table|
    ensures |r.table| == |s.table|
  {
    var e := s.table[i];
    var ran := DoAll(s.(fired := s.fired + [FiringOf(e, now)]), reply.ops);
    if ran.table[i].token != e.token then ran
    else ran.(table := ran.table[i := Requeued(ran.table[i], reply.delay)])
  }

  function Visit(s: State, i: nat, now: u32, env: Env): (r: State)
    requires i < |s.table|
    ensures |r.table| == |s.table|
  {
    var e := s.table[i];
    if Due(e, now) then Fire(s, i, now, env(|s.fired|, FiringOf(e, now))) else s
  }

  /** The first `n` turns of the loop of deferred_exec_advanced_task. */
  function Sweep(s: State, n: nat, now: u32, env: Env): (r: State)
    requires n <= |s.table|
    ensures |r.table| == |s.table|
  {
    if n == 0 then s else Visit(Sweep(s, n - 1, now, env), n - 1, now, env)
  }

  /** A table with the clock reading of its last sweep. */
  datatype Clocked = Clocked(s: State, last: u32)

  predicate Throttled(now: u32, last: u32) { Signed32(Diff32(now, last)) <= 0 }

  /** deferred_exec_advanced_task */
  function Task(c: Clocked, now: u32, env: Env): (r: Clocked)
    ensures |r.s.table| == |c.s.table|
  {
    if Throttled(now, c.last) then c else Clocked(Sweep(c.s, |c.s.table|, now, env), now)
  }
}
