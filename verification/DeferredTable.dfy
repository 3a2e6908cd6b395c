/** The table of quantum/deferred_exec.c and the functions that update it in place. */
module DeferredTable {
  import opened Timer
  import opened DeferredSpec

  /** Counting up wraps, and comes back to the first candidate after 256 steps, not before. */
  lemma NextCandidate(current: Token, k: nat)
    requires k < 256
    ensures (Candidate(current, k) + 1) % 256 == Candidate(current, k + 1)
    ensures Candidate(current, k + 1) == Candidate(current, 0) <==> k == 255
  {
  }

  class Executors {
    const env: Env
    const table: array<Entry>
    var currentToken: Token
    var lastExecution: u32
    /** The callbacks run so far. */
    var fired: seq<Firing>

    ghost function Abs(): State
      reads this, table
    {
      State(table[..], currentToken, fired)
    }

    constructor (size: nat, env: Env)
      ensures this.env == env && fresh(table) && Abs() == State(seq(size, _ => FREE), 0, []) && lastExecution == 0
    {
      this.env := env;
      table := new Entry[size](_ => FREE);
      currentToken, lastExecution, fired := 0, 0, [];
    }

    /** token_can_be_used */
    method TokenCanBeUsed(t: Token) returns (ok: bool)
      ensures ok <==> Usable(table[..], t)
    {
      if t == INVALID_TOKEN { return false; }
      for i := 0 to table.Length
        invariant forall j :: 0 <= j < i ==> table[j].token != t
      {
        if table[i].token == t {
          assert table[..][i].token == t;
          return false;
        }
      }
      return true;
    }

    /** allocate_token: at most 256 candidates are tried. */
    method AllocateToken() returns (t: Token)
      modifies this`currentToken
      ensures t == Allocate(old(table[..]), old(currentToken))
      ensures currentToken == if t == INVALID_TOKEN then Candidate(old(currentToken), 0) else t
    {
      ghost var start, k := currentToken, 0;
      currentToken := (currentToken + 1) % 256;
      var first := currentToken;
      var ok := TokenCanBeUsed(currentToken);
      while !ok
        invariant k < 256 && first == Candidate(start, 0) && currentToken == Candidate(start, k)
        invariant ok <==> Usable(table[..], currentToken)
        invariant NextToken(table[..], start, k) == Allocate(table[..], start)
        decreases 256 - k, !ok
      {
        NextCandidate(start, k);
        currentToken := (currentToken + 1) % 256;
        k := k + 1;
        if currentToken == first { return INVALID_TOKEN; }
        ok := TokenCanBeUsed(currentToken);
      }
      return currentToken;
    }

    /** The loop that looks for a token; the table length if there is none. */
    method Find(t: Token) returns (i: nat)
      ensures i == Slot(table[..], t)
    {
      i := 0;
      while i < table.Length
        invariant 0 <= i <= table.Length
        invariant forall j :: 0 <= j < i ==> table[j].token != t
      {
        if table[i].token == t { break; }
        i := i + 1;
      }
      SlotIs(table[..], t, i);
    }

    /** defer_exec_advanced */
    method Defer(now: u32, delay: u32, callback: nat, arg: int) returns (t: Token)
      modifies this`currentToken, table
      ensures Abs() == DoDefer(old(Abs()), now, delay, callback, arg)
      ensures t == DeferToken(old(Abs()), delay, callback)
    {
      if table.Length == 0 || delay == 0 || callback == 0 { return INVALID_TOKEN; }
      var i := Find(INVALID_TOKEN);
      if i == table.Length { return INVALID_TOKEN; }
      t := AllocateToken();
      if t != INVALID_TOKEN {
        table[i] := Entry(currentToken, After(now, delay), callback, arg);
      }
    }

    /** extend_deferred_exec_advanced */
    method Extend(now: u32, t: Token, delay: u32) returns (ok: bool)
      modifies table
      ensures Abs() == DoExtend(old(Abs()), now, t, delay)
      ensures ok <==> delay > 0 && t != INVALID_TOKEN && exists i :: 0 <= i < table.Length && old(table[i].token) == t
    {
      if table.Length == 0 || delay == 0 || t == INVALID_TOKEN { return false; }
      var i := Find(t);
      if i == table.Length { return false; }
      table[i] := table[i].(trigger := After(now, delay));
      return true;
    }

    /** cancel_deferred_exec_advanced */
    method Cancel(t: Token) returns (ok: bool)
      modifies table
      ensures Abs() == DoCancel(old(Abs()), t)
      ensures ok <==> t != INVALID_TOKEN && exists i :: 0 <= i < table.Length && old(table[i].token) == t
    {
      if table.Length == 0 || t == INVALID_TOKEN { return false; }
      var i := Find(t);
      if i == table.Length { return false; }
      table[i] := FREE;
      return true;
    }

    /** What a callback does to the table while it runs. */
    method Invoke(ops: seq<Op>)
      modifies this`currentToken, table
      ensures Abs() == DoAll(old(Abs()), ops)
    {
      for n := 0 to |ops|
        invariant Abs() == DoAll(old(Abs()), ops[..n])
      {
        match ops[n] {
          case Defer(now, delay, callback, arg) => var _ := Defer(now, delay, callback, arg);
          case Extend(now, t, delay) => var _ := Extend(now, t, delay);
          case Cancel(t) => var _ := Cancel(t);
          case OtherTable(t) => currentToken := t;
        }
        assert ops[..n + 1][..n] == ops[..n];
      }
      assert ops[..|ops|] == ops;
    }

    /** One turn of the loop of deferred_exec_advanced_task. */
    method VisitEntry(i: nat, now: u32)
      requires i < table.Length
      modifies this`currentToken, this`fired, table
      ensures Abs() == Visit(old(Abs()), i, now, env)
    {
      var e := table[i];
      if e.token != INVALID_TOKEN && Signed32(Diff32(e.trigger, now)) <= 0 {
        var reply := env(|fired|, FiringOf(e, now));
        fired := fired + [FiringOf(e, now)];
        Invoke(reply.ops);
        if table[i].token != e.token { return; }
        if reply.delay > 0 {
          table[i] := table[i].(trigger := After(table[i].trigger, reply.delay));
        } else {
          table[i] := FREE;
        }
      }
    }

    /** deferred_exec_advanced_task */
    method Task(now: u32)
      modifies this, table
      ensures Clocked(Abs(), lastExecution) == DeferredSpec.Task(old(Clocked(Abs(), lastExecution)), now, env)
    {
      if Signed32(Diff32(now, lastExecution)) > 0 {
        lastExecution := now;
        for i := 0 to table.Length
          invariant lastExecution == now
          invariant Abs() == Sweep(old(Abs()), i, now, env)
        {
          VisitEntry(i, now);
        }
      }
    }
  }

  lemma {:induction false} SlotIs(table: seq<Entry>, t: Token, i: nat)
    requires i <= |table| && (i < |table| ==> table[i].token == t)
    requires forall j :: 0 <= j < i ==> table[j].token != t
    ensures Slot(table, t) == i
  {
    if i > 0 { SlotIs(table[1..], t, i - 1); }
  }
}
