/** The statics of quantum/action_tapping.c and the methods that update them in place,
    proved against the machine of TappingSpec. */
module TappingRing {
  import opened Timer
  import opened TappingSpec

  const WAITING_BUFFER_SIZE := 8

  /** The slot n places behind slot i of the ring. */
  function Slot(i: nat, n: nat): (k: nat)
    requires i < WAITING_BUFFER_SIZE && n <= WAITING_BUFFER_SIZE
    ensures k < WAITING_BUFFER_SIZE
  {
    if i + n < WAITING_BUFFER_SIZE then i + n else i + n - WAITING_BUFFER_SIZE
  }

  function Next(i: nat): (k: nat)
    requires i < WAITING_BUFFER_SIZE
    ensures k == Slot(i, 1)
  {
    (i + 1) % WAITING_BUFFER_SIZE
  }

  class TapResolver {
    /** What the rest of the firmware answers to the n-th call of process_tapping. */
    const env: Env

    var tappingKey: Record
    var waitingBuffer: array<Record>
    var head: nat
    var tail: nat

    /** The calls of process_record so far, and the number of calls of process_tapping. */
    var out: seq<Emission>
    var calls: nat
    /** What overflow threw away, the calls so far, and those that made the emissions. */
    ghost var lost: seq<Event>
    ghost var log: seq<Call>
    ghost var from: seq<nat>

    ghost predicate Valid()
      reads this
    {
      waitingBuffer.Length == WAITING_BUFFER_SIZE && head < WAITING_BUFFER_SIZE && tail < WAITING_BUFFER_SIZE
    }

    /** The waiting records, oldest first. */
    ghost function Queue(): (q: seq<Record>)
      requires Valid()
      reads this, waitingBuffer
      ensures |q| == if tail <= head then head - tail else head + WAITING_BUFFER_SIZE - tail
      ensures forall i :: 0 <= i < |q| ==> q[i] == waitingBuffer[Slot(tail, i)]
    {
      if tail <= head then waitingBuffer[tail..head] else waitingBuffer[tail..] + waitingBuffer[..head]
    }

    ghost function Abs(): State
      requires Valid()
      reads this, waitingBuffer
    {
      State(tappingKey, Queue(), out, from, log, calls, lost)
    }

    constructor (env: Env)
      ensures Valid() && fresh(waitingBuffer) && this.env == env && Abs() == INIT
    {
      this.env := env;
      tappingKey := NO_RECORD;
      waitingBuffer := new Record[WAITING_BUFFER_SIZE](_ => NO_RECORD);
      head, tail, calls := 0, 0, 0;
      out, lost, log, from := [], [], [], [];
    }

    method ProcessRecord(r: Record, synthetic: bool)
      requires Valid()
      modifies this`out
      ensures Valid() && Abs() == old(Abs()).(out := old(out) + [Emission(r, synthetic)])
    {
      out := out + [Emission(r, synthetic)];
    }

    method WaitingBufferEnq(r: Record) returns (ok: bool)
      requires Valid()
      modifies this`head, waitingBuffer
      ensures Valid()
      ensures ok <==> IsTick(r) || |old(Queue())| < 7
      ensures Queue() == old(Queue()) + if ok && !IsTick(r) then [r] else []
    {
      if IsTick(r) { return true; }
      if Next(head) == tail { return false; }
      waitingBuffer[head] := r;
      head := Next(head);
      return true;
    }

    method WaitingBufferClear()
      requires Valid()
      modifies this`head, this`tail
      ensures Valid() && Queue() == []
    {
      head, tail := 0, 0;
    }

    method WaitingBufferTyped(ev: Event) returns (typed: bool)
      requires Valid()
      ensures typed <==> Typed(Queue(), ev)
    {
      var i := tail;
      ghost var k := 0;
      while i != head
        invariant 0 <= k <= |Queue()| && i == Slot(tail, k)
        invariant forall j :: 0 <= j < k ==> !TypedBy(ev, Queue()[j])
        decreases |Queue()| - k
      {
        assert waitingBuffer[i] == Queue()[k];
        if TypedBy(ev, waitingBuffer[i]) { return true; }
        i, k := Next(i), k + 1;
      }
      return false;
    }

    /** The waiting record in slot `i` completes the tap of the tapping key. */
    method SettleTap(i: nat, ghost k: nat)
      requires Valid() && k < |Queue()| && i == Slot(tail, k)
      modifies this`tappingKey, this`out, waitingBuffer
      ensures Valid()
      ensures var tapped := WithCount(old(tappingKey), 1);
        tappingKey == tapped && out == old(out) + Emit(tapped)
      ensures Queue() == old(Queue())[k := WithCount(old(Queue())[k], 1)]
    {
      tappingKey := WithCount(tappingKey, 1);
      waitingBuffer[i] := WithCount(waitingBuffer[i], 1);
      ProcessRecord(tappingKey, false);
    }

    /** The loop of waiting_buffer_scan_tap: the slot of the first release in time, if any. */
    method FindTapRelease(term: u16) returns (found: bool, i: nat, ghost k: nat)
      requires Valid()
      ensures k == FirstTapRelease(Queue(), tappingKey, term)
      ensures found == (k < |Queue()|) && i == Slot(tail, k)
    {
      ghost var queue := Queue();
      i, k := tail, 0;
      while i != head
        invariant 0 <= k <= |queue| && i == Slot(tail, k)
        invariant forall j :: 0 <= j < k ==> !IsTapRelease(tappingKey, queue[j], term)
        decreases |queue| - k
      {
        assert waitingBuffer[i] == queue[k];
        if IsTapRelease(tappingKey, waitingBuffer[i], term) { return true, i, k; }
        i, k := Next(i), k + 1;
      }
      found := false;
    }

    /** waiting_buffer_scan_tap */
    method WaitingBufferScanTap(term: u16)
      requires Valid()
      modifies this`tappingKey, this`out, waitingBuffer
      ensures Valid()
      ensures var st := StartTap(old(tappingKey), old(Queue()), term);
        tappingKey == st.tapping && Queue() == st.queue && out == old(out) + st.emitted
    {
      if tappingKey.tap.count > 0 || !tappingKey.event.pressed { return; }
      var found, i, k := FindTapRelease(term);
      if found { SettleTap(i, k); }
    }

    /** process_tapping. The record is handed over and back by value; the caller keeps the
        waiting slot it came from, if any. */
    method ProcessTapping(keyp: Record) returns (consumed: bool, rec: Record)
      requires Valid()
      modifies this`tappingKey, this`out, this`from, this`log, this`calls, waitingBuffer
      ensures Valid()
      ensures var st := StepOn(old(Abs()), keyp, env);
        Abs() == After(old(Abs()), st) && consumed == st.consumed && rec == st.rec
    {
      ghost var tapping, waiting := tappingKey, Queue();
      consumed, rec := Dispatch(keyp, env(calls));
      log := log + [Call(tapping, waiting, rec.event)];
      from := from + Repeat(calls, |out| - |old(out)|);
      calls := calls + 1;
    }

    /** The branches on the state of the tapping key. */
    method Dispatch(keyp: Record, a: Answers) returns (consumed: bool, rec: Record)
      requires Valid()
      modifies this`tappingKey, this`out, waitingBuffer
      ensures Valid()
      ensures var st := TappingSpec.ProcessTapping(old(tappingKey), old(Queue()), keyp, a);
        && tappingKey == st.tapping && Queue() == st.queue && out == old(out) + st.emitted
        && consumed == st.consumed && rec == st.rec
    {
      rec := keyp;
      if IsTick(tappingKey) {
        ProcessReset(keyp, a);
        return true, rec;
      }
      var within := Diff16(keyp.event.time, tappingKey.event.time) < a.term;
      if tappingKey.event.pressed {
        if tappingKey.tap.count == 0 {
          consumed, rec := ProcessUndecided(keyp, a, within);
        } else {
          consumed, rec := ProcessTapped(keyp, a, within);
        }
      } else if within {
        consumed, rec := ProcessAfterTap(keyp, a);
      } else {
        tappingKey := NO_RECORD;
        consumed := false;
      }
    }

    /** No tapping key. */
    method ProcessReset(keyp: Record, a: Answers)
      requires Valid() && IsTick(tappingKey)
      modifies this`tappingKey, this`out, waitingBuffer
      ensures Valid()
      ensures var st :=
          if IsTick(keyp) then Step(old(tappingKey), old(Queue()), [], keyp, true)
          else if keyp.event.pressed && a.isTap then StartTap(keyp, old(Queue()), a.scanTerm)
          else Step(old(tappingKey), old(Queue()), Emit(keyp), keyp, true);
        tappingKey == st.tapping && Queue() == st.queue && out == old(out) + st.emitted
    {
      if IsTick(keyp) {
      } else if keyp.event.pressed && a.isTap {
        tappingKey := keyp;
        WaitingBufferScanTap(a.scanTerm);
      } else {
        ProcessRecord(keyp, false);
      }
    }

    /** Tapping key down and undecided. */
    method ProcessUndecided(keyp: Record, a: Answers, within: bool) returns (consumed: bool, rec: Record)
      requires Valid()
      requires !IsTick(tappingKey) && tappingKey.event.pressed && tappingKey.tap.count == 0
      modifies this`tappingKey, this`out
      ensures Valid()
      ensures var st :=
          if !within then Step(NO_RECORD, old(Queue()), Emit(old(tappingKey)), keyp, false)
          else if IsTick(keyp) then Step(old(tappingKey), old(Queue()), [], keyp, true)
          else Undecided(old(tappingKey), old(Queue()), keyp, a);
        && tappingKey == st.tapping && Queue() == st.queue && out == old(out) + st.emitted
        && consumed == st.consumed && rec == st.rec
    {
      rec := keyp;
      var ev := keyp.event;
      if !within {
        ProcessRecord(tappingKey, false);
        tappingKey := NO_RECORD;
        return false, rec;
      }
      if IsTick(keyp) { return true, rec; }
      var typed := WaitingBufferTyped(ev);
      if SameKey(tappingKey, keyp) && !ev.pressed {
        tappingKey := WithCount(tappingKey, 1);
        ProcessRecord(tappingKey, false);
        rec := rec.(tap := tappingKey.tap);
      } else if !ev.pressed && typed && a.permissiveHold {
        ProcessRecord(tappingKey, false);
        tappingKey := NO_RECORD;
      } else if !ev.pressed && !typed {
        if a.keepRelease { return false, rec; }
        ProcessRecord(keyp, false);
        return true, rec;
      } else if ev.pressed {
        tappingKey := tappingKey.(tap := tappingKey.tap.(interrupted := true));
        if a.holdOnOther {
          ProcessRecord(tappingKey, false);
          tappingKey := NO_RECORD;
        }
      }
      return false, rec;
    }

    /** Tapping key down and already a tap. */
    method ProcessTapped(keyp: Record, a: Answers, within: bool) returns (consumed: bool, rec: Record)
      requires Valid()
      requires !IsTick(tappingKey) && tappingKey.event.pressed && tappingKey.tap.count > 0
      modifies this`tappingKey, this`out, waitingBuffer
      ensures Valid()
      ensures var st :=
          if IsTick(keyp) then Step(old(tappingKey), old(Queue()), [], keyp, true)
          else Tapped(old(tappingKey), old(Queue()), keyp, a, within);
        && tappingKey == st.tapping && Queue() == st.queue && out == old(out) + st.emitted
        && consumed == st.consumed && rec == st.rec
    {
      rec := keyp;
      if IsTick(keyp) {
      } else if SameKey(tappingKey, keyp) && !keyp.event.pressed {
        rec := rec.(tap := tappingKey.tap);
        ProcessRecord(rec, false);
        tappingKey := if within then rec else NO_RECORD;
      } else if a.isTap && keyp.event.pressed {
        if tappingKey.tap.count > 1 {
          var release := tappingKey.event.(time := keyp.event.time, pressed := false);
          ProcessRecord(Record(release, tappingKey.tap), true);
        }
        tappingKey := keyp;
        WaitingBufferScanTap(a.scanTerm);
      } else {
        ProcessRecord(keyp, false);
      }
      return true, rec;
    }

    /** Tapping key up again, within the tapping term. */
    method ProcessAfterTap(keyp: Record, a: Answers) returns (consumed: bool, rec: Record)
      requires Valid()
      requires !IsTick(tappingKey) && !tappingKey.event.pressed
      modifies this`tappingKey, this`out, waitingBuffer
      ensures Valid()
      ensures var st :=
          if IsTick(keyp) then Step(old(tappingKey), old(Queue()), [], keyp, true)
          else AfterTap(old(tappingKey), old(Queue()), keyp, a);
        && tappingKey == st.tapping && Queue() == st.queue && out == old(out) + st.emitted
        && consumed == st.consumed && rec == st.rec
    {
      rec := keyp;
      var ev := keyp.event;
      if IsTick(keyp) {
      } else if ev.pressed {
        if SameKey(tappingKey, keyp) {
          if Diff16(ev.time, tappingKey.event.time) < a.quickTerm && !tappingKey.tap.interrupted
             && tappingKey.tap.count > 0 {
            rec := rec.(tap := tappingKey.tap);
            if rec.tap.count < 15 { rec := WithCount(rec, rec.tap.count + 1); }
            ProcessRecord(rec, false);
          }
          tappingKey := rec;
        } else if a.isTap {
          tappingKey := keyp;
          WaitingBufferScanTap(a.scanTerm);
        } else {
          tappingKey := tappingKey.(tap := tappingKey.tap.(interrupted := true));
          ProcessRecord(keyp, false);
        }
      } else {
        ProcessRecord(keyp, false);
      }
      return true, rec;
    }

    /** A record that has to wait; everything is cleared if there is no place for it. */
    method EnqueueOrClear(rec: Record)
      requires Valid()
      modifies this`tappingKey, this`head, this`tail, this`lost, waitingBuffer
      ensures Valid()
      ensures Abs() == Enqueue(old(Abs()), rec)
    {
      var ok := WaitingBufferEnq(rec);
      if !ok {
        lost := lost + Pending(tappingKey) + Events(Queue()) + [rec.event];
        WaitingBufferClear();
        tappingKey := NO_RECORD;
      }
    }

    /** The direct part of action_tapping_process. */
    method AcceptRecord(keyp: Record)
      requires Valid()
      modifies this, waitingBuffer
      ensures Valid() && waitingBuffer == old(waitingBuffer)
      ensures Abs() == Accept(old(Abs()), keyp, env)
    {
      var consumed, rec := ProcessTapping(keyp);
      if !consumed { EnqueueOrClear(rec); }
    }

    /** One turn of the loop over the waiting buffer. */
    method ProcessOldest() returns (consumed: bool)
      requires Valid() && tail != head
      modifies this`tappingKey, this`out, this`from, this`log, this`calls, this`tail, waitingBuffer
      ensures Valid()
      ensures var st := StepOn(old(Abs()), old(Queue())[0], env);
        Abs() == Turned(old(Abs()), st) && consumed == st.consumed
    {
      assert waitingBuffer[tail] == Queue()[0];
      var rec;
      consumed, rec := ProcessTapping(waitingBuffer[tail]);
      ghost var queue := Queue();
      StoreOldest(rec, consumed);
      assert Queue() == if consumed then queue[1..] else queue[0 := rec];
    }

    method StoreOldest(rec: Record, consumed: bool)
      requires Valid() && tail != head
      modifies this`tail, waitingBuffer
      ensures Valid()
      ensures Queue() == if consumed then old(Queue())[1..] else old(Queue())[0 := rec]
    {
      waitingBuffer[tail] := rec;
      if consumed { tail := Next(tail); }
    }

    /** action_tapping_process */
    method ActionTappingProcess(keyp: Record)
      requires Valid()
      modifies this, waitingBuffer
      ensures Valid() && waitingBuffer == old(waitingBuffer)
      ensures Abs() == Process(old(Abs()), keyp, env)
    {
      AcceptRecord(keyp);
      while tail != head
        invariant Valid() && waitingBuffer == old(waitingBuffer)
        invariant Drain(Abs(), env) == Process(old(Abs()), keyp, env)
        decreases |Queue()|
      {
        var consumed := ProcessOldest();
        if !consumed { break; }
      }
    }
  }
}
