/** The unlock protocol of quantum/vial.c: the host asks to unlock and then polls, while the
    user holds the unlock keys. */
module VialUnlock {
  import opened Timer

  const UNLOCK_COUNTER_MAX := 50
  const POLL_INTERVAL := 100

  /** A command, with the real time it arrives; the firmware sees only 16 bits of that time. */
  datatype Command = Start(now: nat) | Poll(now: nat, holding: bool) | Lock

  datatype State = State(unlocked: bool, inProgress: bool, counter: int, timer: u16)

  const INIT := State(false, false, 0, 0)

  /** The poll counts: the keys are held and the timer says more than 100 ms have passed. */
  predicate Good(s: State, c: Command) {
    s.inProgress && c.Poll? && c.holding && Diff16(c.now % WRAP16, s.timer) > POLL_INTERVAL
  }

  /** The unlock commands of vial_handle_cmd */
  function Step(s: State, c: Command): State {
    match c
    case Start(now) => s.(inProgress := true, counter := UNLOCK_COUNTER_MAX, timer := now % WRAP16)
    case Poll(now, _) =>
      if !s.inProgress then s
      else if Good(s, c) then
        if s.counter - 1 == 0 then State(true, false, 0, now % WRAP16)
        else s.(counter := s.counter - 1, timer := now % WRAP16)
      else s.(counter := UNLOCK_COUNTER_MAX)
    case Lock => s.(unlocked := false)
  }

  function Run(cs: seq<Command>): State {
    if cs == [] then INIT else Step(Run(cs[..|cs| - 1]), cs[|cs| - 1])
  }

  // ---------- what the commands themselves say ----------

  /** The time of the last start or poll, a lower bound for what comes next. */
  function Clock(cs: seq<Command>): nat {
    if cs == [] then 0
    else if cs[|cs| - 1].Lock? then Clock(cs[..|cs| - 1])
    else cs[|cs| - 1].now
  }

  predicate Timely(cs: seq<Command>) {
    cs == [] ||
    (Timely(cs[..|cs| - 1]) && (cs[|cs| - 1].Lock? || Clock(cs[..|cs| - 1]) <= cs[|cs| - 1].now))
  }

  /** Apart from lock commands, the sequence ends with n polls during all of which the keys
      were held, each more than 100 real ms before the next and the last before `until`. */
  predicate HeldFor(cs: seq<Command>, n: nat, until: nat) {
    n == 0 ||
    (cs != [] &&
     match cs[|cs| - 1]
     case Lock => HeldFor(cs[..|cs| - 1], n, until)
     case Poll(now, holding) => holding && now + 100 < until && HeldFor(cs[..|cs| - 1], n - 1, now)
     case Start(_) => false)
  }

  /** The real time of the last start. */
  function StartTime(cs: seq<Command>): nat {
    if cs == [] then 0
    else if cs[|cs| - 1].Start? then cs[|cs| - 1].now
    else StartTime(cs[..|cs| - 1])
  }

  // ---------- what the firmware's state says about them ----------

  /** Consecutive good polls so far, and the real time of the last good poll or start. */
  datatype History = History(streak: nat, last: nat)

  function Track(cs: seq<Command>): History {
    if cs == [] then History(0, 0)
    else
      var h, s, c := Track(cs[..|cs| - 1]), Run(cs[..|cs| - 1]), cs[|cs| - 1];
      match c
      case Start(now) => History(0, now)
      case Poll(now, _) =>
        if !s.inProgress then h else if Good(s, c) then History(h.streak + 1, now) else History(0, h.last)
      case Lock => h
  }

  /** While unlocking is in progress, the counter is 50 minus the current streak of good
      polls, and the streak is a real one. */
  predicate Counting(cs: seq<Command>) {
    var s, h := Run(cs), Track(cs);
    s.inProgress ==>
      && s.counter == UNLOCK_COUNTER_MAX - h.streak && h.streak < UNLOCK_COUNTER_MAX
      && s.timer == h.last % WRAP16 && h.last <= Clock(cs)
      && StartTime(cs) + h.streak * (POLL_INTERVAL + 1) <= h.last
      && HeldFor(cs, h.streak, h.last + POLL_INTERVAL + 1)
  }

  lemma HeldForLater(cs: seq<Command>, n: nat, until: nat, later: nat)
    requires HeldFor(cs, n, until) && until <= later
    ensures HeldFor(cs, n, later)
  {
  }

  lemma {:induction false} CountingAlways(cs: seq<Command>)
    requires Timely(cs)
    ensures Counting(cs)
  {
    if cs != [] {
      var past, c := cs[..|cs| - 1], cs[|cs| - 1];
      CountingAlways(past);
      if Good(Run(past), c) { GoodIsReallyLater(past, c); }
    }
  }

  /** However often the 16-bit timer wrapped, a good poll really comes more than 100 ms after
      the last good poll or start. */
  lemma GoodIsReallyLater(past: seq<Command>, c: Command)
    requires Counting(past) && Good(Run(past), c) && Clock(past) <= c.now
    ensures var h := Track(past);
      && h.last + POLL_INTERVAL < c.now
      && HeldFor(past + [c], h.streak + 1, c.now + POLL_INTERVAL + 1)
      && StartTime(past + [c]) + (h.streak + 1) * (POLL_INTERVAL + 1) <= c.now
  {
    var h := Track(past);
    Diff16NeverExceedsReal(h.last, c.now);
    assert (past + [c])[..|past|] == past;
    HeldForLater(past, h.streak, h.last + POLL_INTERVAL + 1, c.now);
  }

  /** The keyboard gets unlocked only by the 50th consecutive poll with all keys held, each
      more than 100 real ms after the one before, and more than 5 s after unlocking started. */
  lemma UnlockTakesFiftyHeldPolls(cs: seq<Command>, c: Command)
    requires Timely(cs + [c]) && !Run(cs).unlocked && Run(cs + [c]).unlocked
    ensures c.Poll? && HeldFor(cs + [c], 50, c.now + 101)
    ensures StartTime(cs) + 50 * 101 <= c.now
  {
    assert (cs + [c])[..|cs|] == cs;
    CountingAlways(cs);
    GoodIsReallyLater(cs, c);
  }

  // ---------- and fifty such polls do unlock ----------

  /** Polls while the keys are held, each more than 100 ms and less than a wrap after the
      command before. */
  predicate Steady(start: nat, times: seq<nat>) {
    times == [] ||
    (var n := |times| - 1;
     && Steady(start, times[..n])
     && 100 < times[n] - (if n == 0 then start else times[n - 1]) < WRAP16)
  }

  function Polls(times: seq<nat>): seq<Command> {
    seq(|times|, i requires 0 <= i < |times| => Poll(times[i], true))
  }

  lemma {:induction false} SteadyPollsCount(cs: seq<Command>, start: nat, times: seq<nat>)
    requires Steady(start, times) && |times| < UNLOCK_COUNTER_MAX
    ensures var s := Run(cs + [Start(start)] + Polls(times));
      && s.inProgress && s.counter == UNLOCK_COUNTER_MAX - |times|
      && s.timer == (if times == [] then start else times[|times| - 1]) % WRAP16
  {
    var all := cs + [Start(start)] + Polls(times);
    if times == [] {
      assert all == cs + [Start(start)] && all[..|cs|] == cs;
    } else {
      var n := |times| - 1;
      SteadyPollsCount(cs, start, times[..n]);
      assert all[..|all| - 1] == cs + [Start(start)] + Polls(times[..n]);
      Diff16NeverExceedsReal(if n == 0 then start else times[n - 1], times[n]);
    }
  }

  lemma FiftySteadyPollsUnlock(cs: seq<Command>, start: nat, times: seq<nat>)
    requires Steady(start, times) && |times| == 50
    ensures var s := Run(cs + [Start(start)] + Polls(times)); s.unlocked && !s.inProgress && s.counter == 0
  {
    var n := |times| - 1;
    var all := cs + [Start(start)] + Polls(times);
    SteadyPollsCount(cs, start, times[..n]);
    assert all[..|all| - 1] == cs + [Start(start)] + Polls(times[..n]);
    Diff16NeverExceedsReal(if n == 0 then start else times[n - 1], times[n]);
  }

  // ---------- locking again ----------

  lemma RunMore(cs: seq<Command>, c: Command)
    ensures Run(cs + [c]) == Step(Run(cs), c)
  {
    assert (cs + [c])[..|cs|] == cs;
  }

  /** An unlocked keyboard is locked by the lock command and by no other; that command leaves
      the running count alone. */
  lemma OnlyLockLocks(cs: seq<Command>, c: Command)
    ensures Run(cs).unlocked ==> (!Run(cs + [c]).unlocked <==> c.Lock?)
    ensures c.Lock? ==> Run(cs + [c]) == State(false, Run(cs).inProgress, Run(cs).counter, Run(cs).timer)
  {
    RunMore(cs, c);
  }

  /** Some poll from the n-th command on unlocks: the 50th in a row with the keys held. */
  ghost predicate UnlocksAfter(cs: seq<Command>, n: nat) {
    exists k :: n <= k < |cs| && cs[k].Poll? && HeldFor(cs[..k + 1], 50, cs[k].now + 101)
  }

  lemma UnlocksLater(cs: seq<Command>, c: Command, n: nat)
    requires UnlocksAfter(cs, n)
    ensures UnlocksAfter(cs + [c], n)
  {
    var k :| n <= k < |cs| && cs[k].Poll? && HeldFor(cs[..k + 1], 50, cs[k].now + 101);
    assert (cs + [c])[..k + 1] == cs[..k + 1] && (cs + [c])[k] == cs[k];
  }

  /** Once locked, the keyboard stays locked until such a poll. */
  lemma {:induction false} LockedUntilHeld(cs: seq<Command>, more: seq<Command>)
    requires Timely(cs + [Lock] + more) && Run(cs + [Lock] + more).unlocked
    ensures UnlocksAfter(cs + [Lock] + more, |cs| + 1)
  {
    var all := cs + [Lock] + more;
    RunMore(cs, Lock);
    assert more == [] ==> all == cs + [Lock];
    if more != [] {
      var n, past := |more| - 1, cs + [Lock] + more[..|more| - 1];
      assert all == past + [more[n]] && all[..|all| - 1] == past;
      if Run(past).unlocked {
        LockedUntilHeld(cs, more[..n]);
        UnlocksLater(past, more[n], |cs| + 1);
      } else {
        UnlockTakesFiftyHeldPolls(past, more[n]);
        assert all[..|past| + 1] == all && all[|past|] == more[n];
      }
    }
  }

  /** A keyboard is locked at the start, and unlocked only by such a poll. */
  lemma {:induction false} LockedFromTheStart(cs: seq<Command>)
    requires Timely(cs) && Run(cs).unlocked
    ensures UnlocksAfter(cs, 0)
  {
    if cs != [] {
      var past, c := cs[..|cs| - 1], cs[|cs| - 1];
      assert past + [c] == cs;
      if Run(past).unlocked {
        LockedFromTheStart(past);
        UnlocksLater(past, c, 0);
      } else {
        UnlockTakesFiftyHeldPolls(past, c);
        assert cs[..|past| + 1] == cs;
      }
    }
  }

  // ---------- the firmware's variables ----------

  class Lockable {
    var unlocked: bool
    var inProgress: bool
    var counter: int
    var timer: u16

    ghost function Abs(): State
      reads this
    {
      State(unlocked, inProgress, counter, timer)
    }

    constructor ()
      ensures Abs() == INIT
    {
      unlocked, inProgress, counter, timer := false, false, 0, 0;
    }

    /** vial_unlock_start */
    method UnlockStart(now: nat)
      modifies this
      ensures Abs() == Step(old(Abs()), Start(now))
    {
      inProgress := true;
      counter := UNLOCK_COUNTER_MAX;
      timer := now % WRAP16;
    }

    /** vial_unlock_poll; `keys` says of each unlock key whether it is down */
    method UnlockPoll(now: nat, keys: seq<bool>)
      modifies this
      ensures Abs() == Step(old(Abs()), Poll(now, forall i :: 0 <= i < |keys| ==> keys[i]))
    {
      if inProgress {
        var holding := true;
        for i := 0 to |keys|
          invariant holding <==> forall j :: 0 <= j < i ==> keys[j]
        {
          holding := holding && keys[i];
        }
        if Diff16(now % WRAP16, timer) > POLL_INTERVAL && holding {
          timer := now % WRAP16;
          counter := counter - 1;
          if counter == 0 {
            inProgress := false;
            unlocked := true;
          }
        } else {
          counter := UNLOCK_COUNTER_MAX;
        }
      }
    }

    /** vial_lock */
    method LockAgain()
      modifies this
      ensures Abs() == Step(old(Abs()), Lock)
    {
      unlocked := false;
    }
  }
}
