/** The two-ended dynamic macro buffer of quantum/dynamic_macro.h. */
module DynamicMacro {

  /** A key record; `data` stands for everything but the pressed flag. */
  datatype Record = Record(pressed: bool, data: nat)

  datatype Keycode = RecordStart1 | RecordStart2 | Play1 | Play2 | RecordStop | Other

  type LayerState = nat

  /** The two slots share one array: slot 1 grows up from the start, slot 2 down from the end. */
  datatype Slot = Slot1 | Slot2

  // ---------- the specification: two sequences that share a capacity ----------

  /** What the user sees: two stored macros, or one being recorded beside the other. */
  datatype State =
    | Idle(slot1: seq<Record>, slot2: seq<Record>)
    | Recording(slot: Slot, other: seq<Record>, taken: seq<Record>)

  function TakeKey(taken: seq<Record>, r: Record, capacity: nat): seq<Record> {
    if !r.pressed && taken == [] then taken
    else if |taken| < capacity then taken + [r]
    else taken
  }

  function TrimTrailingPresses(rs: seq<Record>): (t: seq<Record>)
    ensures t <= rs
    ensures t != [] ==> !t[|t| - 1].pressed
  {
    if rs != [] && rs[|rs| - 1].pressed then TrimTrailingPresses(rs[..|rs| - 1]) else rs
  }

  lemma {:induction false} TrimmedTo(rs: seq<Record>, n: nat)
    requires n <= |rs| && (forall k :: n <= k < |rs| ==> rs[k].pressed)
    requires n > 0 ==> !rs[n - 1].pressed
    ensures TrimTrailingPresses(rs) == rs[..n]
  {
    if n < |rs| {
      TrimmedTo(rs[..|rs| - 1], n);
    } else {
      assert rs[..n] == rs;
    }
  }

  function Stored(s: State, slot: Slot): seq<Record>
    requires s.Idle?
  {
    if slot == Slot1 then s.slot1 else s.slot2
  }

  function Start(s: State, slot: Slot): State
    requires s.Idle?
  {
    Recording(slot, Stored(s, if slot == Slot1 then Slot2 else Slot1), [])
  }

  function Finish(s: State): State
    requires s.Recording?
  {
    var kept := TrimTrailingPresses(s.taken);
    if s.slot == Slot1 then Idle(kept, s.other) else Idle(s.other, kept)
  }

  /** process_record_dynamic_macro on a buffer of `size` records */
  function Step(s: State, size: nat, keycode: Keycode, r: Record): State {
    match s
    case Idle(_, _) =>
      if !r.pressed && keycode == RecordStart1 then Start(s, Slot1)
      else if !r.pressed && keycode == RecordStart2 then Start(s, Slot2)
      else s
    case Recording(_, other, taken) =>
      if keycode == RecordStop then (if r.pressed then Finish(s) else s)
      else if keycode == Play1 || keycode == Play2 || |other| > size then s
      else s.(taken := TakeKey(taken, r, size - |other|))
  }

  /** The returned flag: whether the key is to be processed further. */
  function PassOn(s: State, keycode: Keycode, r: Record): bool {
    match s
    case Idle(_, _) => r.pressed || keycode == RecordStop || keycode == Other
    case Recording(_, _, _) => keycode != RecordStop && keycode != Play1 && keycode != Play2
  }

  /** The records a call plays back. */
  function Played(s: State, keycode: Keycode, r: Record): seq<Record> {
    if s.Idle? && !r.pressed && keycode == Play1 then s.slot1
    else if s.Idle? && !r.pressed && keycode == Play2 then s.slot2
    else []
  }

  datatype Input = Input(keycode: Keycode, record: Record)

  function Run(s: State, size: nat, inputs: seq<Input>): State {
    if inputs == [] then s
    else
      var last := inputs[|inputs| - 1];
      Step(Run(s, size, inputs[..|inputs| - 1]), size, last.keycode, last.record)
  }

  // ---------- what a recording keeps ----------

  /** The records a recording sees: not the control keys it ignores. */
  function Seen(inputs: seq<Input>): seq<Record> {
    if inputs == [] then [] else Seen(inputs[..|inputs| - 1]) + Kept(inputs[|inputs| - 1])
  }

  function Kept(i: Input): seq<Record> {
    if i.keycode == Play1 || i.keycode == Play2 || i.keycode == RecordStop then [] else [i.record]
  }

  function DropLeadingReleases(rs: seq<Record>): seq<Record> {
    if rs == [] then []
    else
      var d := DropLeadingReleases(rs[..|rs| - 1]);
      if d == [] && !rs[|rs| - 1].pressed then [] else d + [rs[|rs| - 1]]
  }

  function Take(rs: seq<Record>, n: nat): (t: seq<Record>)
    ensures |t| <= n
  {
    if |rs| <= n then rs else rs[..n]
  }

  lemma StepTakes(s: State, size: nat, i: Input, seen: seq<Record>)
    requires s.Recording? && |s.other| <= size
    requires s.taken == Take(DropLeadingReleases(seen), size - |s.other|)
    requires !(i.keycode == RecordStop && i.record.pressed)
    ensures Step(s, size, i.keycode, i.record)
         == s.(taken := Take(DropLeadingReleases(seen + Kept(i)), size - |s.other|))
  {
    TakeOneMore(seen, i.record, size - |s.other|);
    assert seen + [] == seen;
  }

  lemma TakeOneMore(rs: seq<Record>, r: Record, capacity: nat)
    ensures Take(DropLeadingReleases(rs + [r]), capacity)
         == TakeKey(Take(DropLeadingReleases(rs), capacity), r, capacity)
  {
    assert (rs + [r])[..|rs|] == rs;
    var d := DropLeadingReleases(rs);
    if |d| >= capacity { assert (d + [r])[..capacity] == d[..capacity]; }
  }

  lemma {:induction false} RecordingTakes(s: State, size: nat, inputs: seq<Input>)
    requires s.Recording? && s.taken == [] && |s.other| <= size
    requires forall i :: 0 <= i < |inputs| ==> !(inputs[i].keycode == RecordStop && inputs[i].record.pressed)
    ensures Run(s, size, inputs) == s.(taken := Take(DropLeadingReleases(Seen(inputs)), size - |s.other|))
  {
    if inputs != [] {
      var n := |inputs| - 1;
      RecordingTakes(s, size, inputs[..n]);
      StepTakes(Run(s, size, inputs[..n]), size, inputs[n], Seen(inputs[..n]));
    }
  }

  /** The leading releases are gone, and nothing else. */
  lemma {:induction false} DropsExactlyLeadingReleases(rs: seq<Record>)
    ensures var d := DropLeadingReleases(rs);
      && |d| <= |rs| && d == rs[|rs| - |d|..]
      && (forall i :: 0 <= i < |rs| - |d| ==> !rs[i].pressed)
      && (d != [] ==> d[0].pressed)
  {
    if rs != [] {
      var n := |rs| - 1;
      DropsExactlyLeadingReleases(rs[..n]);
      assert rs == rs[..n] + [rs[n]];
    }
  }

  function Session(slot: Slot, inputs: seq<Input>): seq<Input> {
    [Input(if slot == Slot1 then RecordStart1 else RecordStart2, Record(false, 0))] + inputs
    + [Input(RecordStop, Record(true, 0))]
  }

  lemma {:induction false} RunConcat(s: State, size: nat, a: seq<Input>, b: seq<Input>)
    ensures Run(s, size, a + b) == Run(Run(s, size, a), size, b)
  {
    if b == [] {
      assert a + b == a;
    } else {
      assert (a + b)[..|a + b| - 1] == a + b[..|b| - 1];
      RunConcat(s, size, a, b[..|b| - 1]);
    }
  }

  lemma RunOne(s: State, size: nat, i: Input)
    ensures Run(s, size, [i]) == Step(s, size, i.keycode, i.record)
  {
    assert [i][..0] == [];
  }

  lemma SessionRuns(s: State, size: nat, slot: Slot, inputs: seq<Input>)
    requires s.Idle?
    ensures Run(s, size, Session(slot, inputs))
         == Step(Run(Start(s, slot), size, inputs), size, RecordStop, Record(true, 0))
  {
    var start := Input(if slot == Slot1 then RecordStart1 else RecordStart2, Record(false, 0));
    var stop := Input(RecordStop, Record(true, 0));
    RunConcat(s, size, [start] + inputs, [stop]);
    RunConcat(s, size, [start], inputs);
    RunOne(s, size, start);
    RunOne(Run(Start(s, slot), size, inputs), size, stop);
  }

  lemma FinishStores(s: State, size: nat)
    requires s.Recording? && |s.other| + |s.taken| <= size
    ensures var r := Finish(s);
      && Stored(r, s.slot) == TrimTrailingPresses(s.taken)
      && Stored(r, if s.slot == Slot1 then Slot2 else Slot1) == s.other
      && |r.slot1| + |r.slot2| <= size
  {
    assert |TrimTrailingPresses(s.taken)| <= |s.taken|;
  }

  /** Recording a slot stores what was typed, without leading releases, cut to the room the
      other macro leaves, without trailing presses; the other macro stays as it was. */
  lemma SessionStores(s: State, size: nat, slot: Slot, inputs: seq<Input>)
    requires s.Idle? && |s.slot1| + |s.slot2| <= size
    requires forall i :: 0 <= i < |inputs| ==> !(inputs[i].keycode == RecordStop && inputs[i].record.pressed)
    ensures var r := Run(s, size, Session(slot, inputs));
      var other := if slot == Slot1 then Slot2 else Slot1;
      && r.Idle? && Stored(r, other) == Stored(s, other)
      && Stored(r, slot) == TrimTrailingPresses(Take(DropLeadingReleases(Seen(inputs)), size - |Stored(s, other)|))
      && |r.slot1| + |r.slot2| <= size
  {
    SessionRuns(s, size, slot, inputs);
    RecordingTakes(Start(s, slot), size, inputs);
    FinishStores(Run(Start(s, slot), size, inputs), size);
  }

  // ---------- playing what was recorded ----------

  /** Everything a run plays back. */
  function Playback(s: State, size: nat, inputs: seq<Input>): seq<Record> {
    if inputs == [] then []
    else
      var past, last := inputs[..|inputs| - 1], inputs[|inputs| - 1];
      Playback(s, size, past) + Played(Run(s, size, past), last.keycode, last.record)
  }

  /** What a recording leaves: cut to the room there is, without the presses at its end. */
  function Recorded(inputs: seq<Input>, room: nat): seq<Record> {
    var typed := DropLeadingReleases(Seen(inputs));
    TrimTrailingPresses(typed[..if |typed| < room then |typed| else room])
  }

  /** A recording sees everything but the play and stop keys. */
  lemma {:induction false} SeesAllTyped(inputs: seq<Input>)
    requires forall i :: 0 <= i < |inputs| ==> inputs[i].keycode !in {Play1, Play2, RecordStop}
    ensures Seen(inputs) == seq(|inputs|, i requires 0 <= i < |inputs| => inputs[i].record)
  {
    if inputs != [] { SeesAllTyped(inputs[..|inputs| - 1]); }
  }

  /** Nothing is played while a macro is being recorded. */
  lemma {:induction false} SilentSession(s: State, size: nat, inputs: seq<Input>)
    requires s.Recording? && s.taken == [] && |s.other| <= size
    requires forall i :: 0 <= i < |inputs| ==> !(inputs[i].keycode == RecordStop && inputs[i].record.pressed)
    ensures Playback(s, size, inputs) == []
  {
    if inputs != [] {
      SilentSession(s, size, inputs[..|inputs| - 1]);
      RecordingTakes(s, size, inputs[..|inputs| - 1]);
    }
  }

  lemma OneMore(s: State, size: nat, cs: seq<Input>, i: Input)
    ensures Run(s, size, cs + [i]) == Step(Run(s, size, cs), size, i.keycode, i.record)
    ensures Playback(s, size, cs + [i])
         == Playback(s, size, cs) + Played(Run(s, size, cs), i.keycode, i.record)
  {
    assert (cs + [i])[..|cs|] == cs;
  }

  lemma {:induction false} PlaybackConcat(s: State, size: nat, a: seq<Input>, b: seq<Input>)
    ensures Playback(s, size, a + b) == Playback(s, size, a) + Playback(Run(s, size, a), size, b)
  {
    if b == [] {
      assert a + b == a;
    } else {
      var front, last := b[..|b| - 1], b[|b| - 1];
      assert a + b == (a + front) + [last] && b == front + [last];
      OneMore(s, size, a + front, last);
      OneMore(Run(s, size, a), size, front, last);
      RunConcat(s, size, a, front);
      PlaybackConcat(s, size, a, front);
      Associates(Playback(s, size, a), Playback(Run(s, size, a), size, front),
                 Played(Run(s, size, a + front), last.keycode, last.record));
    }
  }

  lemma Associates(a: seq<Record>, b: seq<Record>, c: seq<Record>)
    ensures a + b + c == a + (b + c)
  {
  }

  lemma PlaybackOne(s: State, size: nat, i: Input)
    ensures Playback(s, size, [i]) == Played(s, i.keycode, i.record)
  {
    assert [i][..0] == [];
  }

  lemma SessionSilent(s: State, size: nat, slot: Slot, inputs: seq<Input>)
    requires s.Idle? && |s.slot1| + |s.slot2| <= size
    requires forall i :: 0 <= i < |inputs| ==> !(inputs[i].keycode == RecordStop && inputs[i].record.pressed)
    ensures Playback(s, size, Session(slot, inputs)) == []
  {
    var start := Input(if slot == Slot1 then RecordStart1 else RecordStart2, Record(false, 0));
    var stop := Input(RecordStop, Record(true, 0));
    PlaybackConcat(s, size, [start] + inputs, [stop]);
    PlaybackConcat(s, size, [start], inputs);
    RunConcat(s, size, [start], inputs);
    RunOne(s, size, start);
    PlaybackOne(s, size, start);
    PlaybackOne(Run(s, size, [start] + inputs), size, stop);
    SilentSession(Start(s, slot), size, inputs);
    RecordingTakes(Start(s, slot), size, inputs);
  }

  predicate NoStop(inputs: seq<Input>) {
    forall i :: 0 <= i < |inputs| ==> !(inputs[i].keycode == RecordStop && inputs[i].record.pressed)
  }

  lemma TakenIsCut(inputs: seq<Input>, room: nat)
    ensures TrimTrailingPresses(Take(DropLeadingReleases(Seen(inputs)), room)) == Recorded(inputs, room)
  {
    var typed := DropLeadingReleases(Seen(inputs));
    assert typed[..|typed|] == typed;
  }

  /** The two slots with the given one in front. */
  function Slots(slot: Slot, own: seq<Record>, other: seq<Record>): State {
    if slot == Slot1 then Idle(own, other) else Idle(other, own)
  }

  lemma FinishLeaves(slot: Slot, other: seq<Record>, taken: seq<Record>, size: nat)
    ensures Step(Recording(slot, other, taken), size, RecordStop, Record(true, 0))
         == Slots(slot, TrimTrailingPresses(taken), other)
  {
  }

  lemma SessionLeaves(slot: Slot, own: seq<Record>, other: seq<Record>, size: nat, inputs: seq<Input>)
    requires |other| <= size && NoStop(inputs)
    ensures Run(Slots(slot, own, other), size, Session(slot, inputs))
         == Slots(slot, Recorded(inputs, size - |other|), other)
  {
    SessionRuns(Slots(slot, own, other), size, slot, inputs);
    RecordingTakes(Recording(slot, other, []), size, inputs);
    FinishLeaves(slot, other, Take(DropLeadingReleases(Seen(inputs)), size - |other|), size);
    TakenIsCut(inputs, size - |other|);
  }

  /** A play key after a run that ends with no recording. */
  lemma PlayKeyPlays(s: State, size: nat, cs: seq<Input>, k: Keycode, data: nat)
    requires Run(s, size, cs).Idle? && (k == Play1 || k == Play2)
    ensures var r, i := Run(s, size, cs), Input(k, Record(false, data));
      && Playback(s, size, cs + [i]) == Playback(s, size, cs) + (if k == Play1 then r.slot1 else r.slot2)
      && Run(s, size, cs + [i]) == r
  {
    OneMore(s, size, cs, Input(k, Record(false, data)));
  }

  /** A session and then a play key: the key of the recorded slot plays what was typed, the
      other one the macro that was there before, the session itself plays nothing, and playing
      changes no macro. */
  lemma RecordedIsPlayed(slot: Slot, own: seq<Record>, other: seq<Record>, size: nat, inputs: seq<Input>,
                         k: Keycode, data: nat)
    requires |own| + |other| <= size && NoStop(inputs) && (k == Play1 || k == Play2)
    ensures var s, session := Slots(slot, own, other), Session(slot, inputs);
      var played := Playback(s, size, session + [Input(k, Record(false, data))]);
      && played == (if (k == Play1) == (slot == Slot1) then Recorded(inputs, size - |other|) else other)
      && Run(s, size, session + [Input(k, Record(false, data))]) == Run(s, size, session)
  {
    var s, session := Slots(slot, own, other), Session(slot, inputs);
    SessionLeaves(slot, own, other, size, inputs);
    SessionSilent(s, size, slot, inputs);
    PlayKeyPlays(s, size, session, k, data);
  }

  /** What a call does not process itself is processed by others: with no recording all but the
      releases of the four control keys, during a recording exactly what the recording sees. */
  lemma PassesOnTyped(s: State, i: Input)
    ensures s.Idle? ==>
      (PassOn(s, i.keycode, i.record) <==> i.record.pressed || i.keycode in {RecordStop, Other})
    ensures s.Recording? ==> (PassOn(s, i.keycode, i.record) <==> Seen([i]) == [i.record])
  {
    assert [i][..0] == [];
  }

  // ---------- the shared buffer ----------

  /** The k-th place from `begin` on. */
  function At(begin: int, direction: int, k: nat): int {
    if direction == 1 then begin + k else begin - k
  }

  /** The records from `begin` until just before `end`, in either direction. */
  function SpanOf(m: seq<Record>, begin: int, end: int, direction: int): (s: seq<Record>)
    requires direction == 1 || direction == -1
    requires if direction == 1 then 0 <= begin <= end <= |m| else -1 <= end <= begin < |m|
    ensures |s| == if direction == 1 then end - begin else begin - end
    ensures forall k :: 0 <= k < |s| ==> s[k] == m[At(begin, direction, k)]
  {
    var n := if direction == 1 then end - begin else begin - end;
    seq(n, k requires 0 <= k < n => m[At(begin, direction, k)])
  }

  class MacroRecorder {
    const buffer: array<Record>
    var macroEnd: int
    var rMacroEnd: int
    var macroPointer: int
    /** 0 while no macro is being recorded, else 1 or 2. */
    var macroId: nat
    var layerState: LayerState

    /** The records handed to process_record so far, and the layer state each may leave. */
    var out: seq<Record>
    const effect: (nat, Record) -> LayerState

    /** The records from `begin` until just before `end`. */
    ghost function Span(begin: int, end: int, direction: int): (s: seq<Record>)
      requires direction == 1 || direction == -1
      requires if direction == 1 then 0 <= begin <= end <= buffer.Length else -1 <= end <= begin < buffer.Length
      reads buffer
    {
      SpanOf(buffer[..], begin, end, direction)
    }

    /** The macros never overlap, and a recording never reaches the other macro. */
    ghost predicate Valid()
      reads this
    {
      && buffer.Length > 0 && macroId <= 2
      && 0 <= macroEnd <= rMacroEnd + 1 <= buffer.Length
      && (macroId == 1 ==> 0 <= macroPointer <= rMacroEnd + 1)
      && (macroId == 2 ==> macroEnd - 1 <= macroPointer < buffer.Length)
    }

    ghost function Abs(): (s: State)
      requires Valid()
      reads this, buffer
      ensures s.Idle? ==> |s.slot1| + |s.slot2| <= buffer.Length
      ensures s.Recording? ==> |s.other| + |s.taken| <= buffer.Length
    {
      var last := buffer.Length - 1;
      if macroId == 0 then Idle(Span(0, macroEnd, 1), Span(last, rMacroEnd, -1))
      else if macroId == 1 then Recording(Slot1, Span(last, rMacroEnd, -1), Span(0, macroPointer, 1))
      else Recording(Slot2, Span(0, macroEnd, 1), Span(last, macroPointer, -1))
    }

    constructor (size: nat, effect: (nat, Record) -> LayerState)
      requires size > 0
      ensures Valid() && fresh(buffer) && buffer.Length == size && Abs() == Idle([], []) && out == []
    {
      this.effect := effect;
      buffer := new Record[size](_ => Record(false, 0));
      macroEnd, rMacroEnd, macroPointer, macroId, layerState, out := 0, size - 1, 0, 0, 0, [];
    }

    /** dynamic_macro_play */
    method Play(begin: int, end: int, direction: int)
      requires direction == 1 || direction == -1
      requires if direction == 1 then 0 <= begin <= end <= buffer.Length else -1 <= end <= begin < buffer.Length
      modifies this`layerState, this`out
      ensures out == old(out) + Span(begin, end, direction)
      ensures layerState == old(layerState)
    {
      var saved := layerState;
      layerState := 0;
      var p := begin;
      ghost var k := 0;
      while p != end
        invariant 0 <= k <= |Span(begin, end, direction)| && p == At(begin, direction, k)
        invariant out == old(out) + Span(begin, end, direction)[..k]
        decreases |Span(begin, end, direction)| - k
      {
        layerState := effect(|out|, buffer[p]);
        out := out + [buffer[p]];
        p, k := p + direction, k + 1;
      }
      layerState := saved;
    }

    /** dynamic_macro_record_key */
    method RecordKey(begin: int, end2: int, direction: int, r: Record)
      requires direction == 1 || direction == -1
      requires if direction == 1 then 0 <= begin <= macroPointer <= end2 + 1 <= buffer.Length
               else -1 <= end2 - 1 <= macroPointer <= begin < buffer.Length
      modifies this`macroPointer, buffer
      ensures if direction == 1 then begin <= macroPointer <= end2 + 1 else end2 - 1 <= macroPointer <= begin
      ensures Span(begin, macroPointer, direction)
           == TakeKey(old(Span(begin, macroPointer, direction)), r,
                      if direction == 1 then end2 + 1 - begin else begin - (end2 - 1))
      ensures forall i ::
                0 <= i < buffer.Length && (if direction == 1 then i > end2 else i < end2)
                ==> buffer[i] == old(buffer[i])
    {
      if !r.pressed && macroPointer == begin { return; }
      if macroPointer - direction != end2 {
        ghost var taken := Span(begin, macroPointer, direction);
        buffer[macroPointer] := r;
        macroPointer := macroPointer + direction;
        assert Span(begin, macroPointer, direction) == taken + [r];
      }
    }

    /** The first n records of a span. */
    lemma SpanPrefix(begin: int, end: int, direction: int, n: nat)
      requires direction == 1 || direction == -1
      requires if direction == 1 then 0 <= begin <= end <= buffer.Length else -1 <= end <= begin < buffer.Length
      requires n <= |Span(begin, end, direction)|
      ensures Span(begin, At(begin, direction, n), direction) == Span(begin, end, direction)[..n]
    {
    }

    /** dynamic_macro_record_end */
    method RecordEnd(begin: int, pointer: int, direction: int) returns (end: int)
      requires direction == 1 || direction == -1
      requires if direction == 1 then 0 <= begin <= pointer <= buffer.Length else -1 <= pointer <= begin < buffer.Length
      ensures if direction == 1 then begin <= end <= pointer else pointer <= end <= begin
      ensures Span(begin, end, direction) == TrimTrailingPresses(Span(begin, pointer, direction))
    {
      ghost var all := Span(begin, pointer, direction);
      ghost var n := |all|;
      end := pointer;
      while end != begin && buffer[end - direction].pressed
        invariant 0 <= n <= |all| && end == At(begin, direction, n)
        invariant forall k :: n <= k < |all| ==> all[k].pressed
        decreases n
      {
        end, n := end - direction, n - 1;
      }
      SpanPrefix(begin, pointer, direction, n);
      TrimmedTo(all, n);
    }

    /** No macro is being recorded. */
    method ProcessIdle(keycode: Keycode, r: Record) returns (passOn: bool)
      requires Valid() && macroId == 0
      modifies this`macroPointer, this`macroId, this`layerState, this`out
      ensures Valid() && Abs() == Step(old(Abs()), buffer.Length, keycode, r)
      ensures passOn == PassOn(old(Abs()), keycode, r)
      ensures out == old(out) + Played(old(Abs()), keycode, r)
      ensures layerState == if old(Abs()).Idle? && Abs().Recording? then 0 else old(layerState)
    {
      var last := buffer.Length - 1;
      passOn := true;
      if !r.pressed {
        match keycode {
          case RecordStart1 => macroPointer, macroId, layerState, passOn := 0, 1, 0, false;
          case RecordStart2 => macroPointer, macroId, layerState, passOn := last, 2, 0, false;
          case Play1 => Play(0, macroEnd, 1); passOn := false;
          case Play2 => Play(last, rMacroEnd, -1); passOn := false;
          case RecordStop =>
          case Other =>
        }
      }
    }

    /** The recording becomes slot 1. */
    method CloseSlot1(end: int)
      requires Valid() && macroId == 1 && 0 <= end <= macroPointer
      modifies this`macroEnd, this`macroId
      ensures Valid() && Abs() == Idle(Span(0, end, 1), old(Abs().other))
    {
      macroEnd, macroId := end, 0;
    }

    /** The recording becomes slot 2. */
    method CloseSlot2(end: int)
      requires Valid() && macroId == 2 && macroPointer <= end < buffer.Length
      modifies this`rMacroEnd, this`macroId
      ensures Valid() && Abs() == Idle(old(Abs().other), Span(buffer.Length - 1, end, -1))
    {
      rMacroEnd, macroId := end, 0;
    }

    method StopSlot1()
      requires Valid() && macroId == 1
      modifies this`macroEnd, this`macroId
      ensures Valid() && Abs() == Finish(old(Abs()))
    {
      var end := RecordEnd(0, macroPointer, 1);
      CloseSlot1(end);
    }

    method StopSlot2()
      requires Valid() && macroId == 2
      modifies this`rMacroEnd, this`macroId
      ensures Valid() && Abs() == Finish(old(Abs()))
    {
      var end := RecordEnd(buffer.Length - 1, macroPointer, -1);
      CloseSlot2(end);
    }

    /** The stop key ends the recording. */
    method StopRecording()
      requires Valid() && macroId != 0
      modifies this`macroEnd, this`rMacroEnd, this`macroId
      ensures Valid() && Abs() == Finish(old(Abs()))
    {
      if macroId == 1 { StopSlot1(); } else { StopSlot2(); }
    }

    method StoreInSlot1(r: Record)
      requires Valid() && macroId == 1
      modifies this`macroPointer, buffer
      ensures Valid()
      ensures var s := old(Abs());
        Abs() == s.(taken := TakeKey(s.taken, r, buffer.Length - |s.other|))
    {
      RecordKey(0, rMacroEnd, 1, r);
    }

    method StoreInSlot2(r: Record)
      requires Valid() && macroId == 2
      modifies this`macroPointer, buffer
      ensures Valid()
      ensures var s := old(Abs());
        Abs() == s.(taken := TakeKey(s.taken, r, buffer.Length - |s.other|))
    {
      RecordKey(buffer.Length - 1, macroEnd, -1, r);
    }

    /** Any other key is stored. */
    method StoreKey(r: Record)
      requires Valid() && macroId != 0
      modifies this`macroPointer, buffer
      ensures Valid()
      ensures var s := old(Abs());
        Abs() == s.(taken := TakeKey(s.taken, r, buffer.Length - |s.other|))
    {
      if macroId == 1 { StoreInSlot1(r); } else { StoreInSlot2(r); }
    }

    /** A macro is being recorded. */
    method ProcessRecording(keycode: Keycode, r: Record) returns (passOn: bool)
      requires Valid() && macroId != 0
      modifies this`macroEnd, this`rMacroEnd, this`macroId, this`macroPointer, buffer
      ensures Valid() && Abs() == Step(old(Abs()), buffer.Length, keycode, r)
      ensures passOn == PassOn(old(Abs()), keycode, r)
    {
      match keycode {
        case RecordStop =>
          if r.pressed { StopRecording(); }
          passOn := false;
        case Play1 => passOn := false;
        case Play2 => passOn := false;
        case _ =>
          StoreKey(r);
          passOn := true;
      }
    }

    /** process_record_dynamic_macro */
    method ProcessRecord(keycode: Keycode, r: Record) returns (passOn: bool)
      requires Valid()
      modifies this, buffer
      ensures Valid() && Abs() == Step(old(Abs()), buffer.Length, keycode, r)
      ensures passOn == PassOn(old(Abs()), keycode, r)
      ensures out == old(out) + Played(old(Abs()), keycode, r)
      ensures layerState == if old(Abs()).Idle? && Abs().Recording? then 0 else old(layerState)
    {
      if macroId == 0 {
        passOn := ProcessIdle(keycode, r);
      } else {
        passOn := ProcessRecording(keycode, r);
      }
    }
  }
}
