/** The macro byte code of quantum/dynamic_keymap.c: its interpreter, and the encoding that
    host software writes. */
module MacroPlayer {
  import opened Basics

  const SS_QMK_PREFIX: Byte := 1
  const SS_TAP_CODE: Byte := 1
  const SS_DOWN_CODE: Byte := 2
  const SS_UP_CODE: Byte := 3
  const SS_DELAY_CODE: Byte := 4
  const VIAL_MACRO_EXT_TAP: Byte := 5
  const VIAL_MACRO_EXT_DOWN: Byte := 6
  const VIAL_MACRO_EXT_UP: Byte := 7

  const MACRO_COUNT := 16

  /** What playing a macro does. */
  datatype Action =
    | SendChar(c: Byte)
    | SendCode(op: Byte, code: Byte)
    | Extended(op: Byte, keycode: Keycode)
    | Wait(ms: nat)

  predicate IsCode(op: Byte) { op == SS_TAP_CODE || op == SS_DOWN_CODE || op == SS_UP_CODE }

  predicate IsExtended(op: Byte) {
    op == VIAL_MACRO_EXT_TAP || op == VIAL_MACRO_EXT_DOWN || op == VIAL_MACRO_EXT_UP
  }

  // ---------- operands without zero bytes ----------

  function LittleEndian(lo: Byte, hi: Byte): Keycode { lo + 256 * hi }

  /** decode_keycode: 0xFF01 stands for 0x0100, and so on */
  function DecodeKeycode(k: Keycode): Keycode {
    if k > 0xFF00 then (k % 256) * 256 else k
  }

  /** The two operand bytes for a keycode. */
  function EncodeKeycode(k: Keycode): (Byte, Byte) {
    if k % 256 == 0 then (k / 256, 0xFF) else (k % 256, k / 256)
  }

  /** A keycode has a zero-free operand exactly when it is neither basic (high byte 0) nor
      above 0xFF00; then decoding undoes the encoding. */
  lemma KeycodeOperands(k: Keycode)
    ensures (exists lo: Byte, hi: Byte :: lo != 0 && hi != 0 && DecodeKeycode(LittleEndian(lo, hi)) == k)
       <==> 0x0100 <= k <= 0xFF00
    ensures 0x0100 <= k <= 0xFF00 ==>
      var (lo, hi) := EncodeKeycode(k);
      lo != 0 && hi != 0 && DecodeKeycode(LittleEndian(lo, hi)) == k
  {
    if 0x0100 <= k <= 0xFF00 {
      var (lo, hi) := EncodeKeycode(k);
      assert lo != 0 && hi != 0 && DecodeKeycode(LittleEndian(lo, hi)) == k;
    }
  }

  function DecodeDelay(d0: Byte, d1: Byte): nat
    requires d0 != 0 && d1 != 0
  {
    (d0 - 1) + (d1 - 1) * 255
  }

  const MAX_DELAY := 65024

  /** Every delay up to 65024 ms has exactly one zero-free operand, and no other delay has one. */
  lemma DelayOperands(ms: nat)
    ensures (exists d0: Byte, d1: Byte :: d0 != 0 && d1 != 0 && DecodeDelay(d0, d1) == ms) <==> ms <= MAX_DELAY
    ensures ms <= MAX_DELAY ==> DecodeDelay(ms % 255 + 1, ms / 255 + 1) == ms
    ensures forall d0: Byte, d1: Byte :: d0 != 0 && d1 != 0 && DecodeDelay(d0, d1) == ms ==>
      d0 == ms % 255 + 1 && d1 == ms / 255 + 1
  {
    if ms <= MAX_DELAY {
      var d0: Byte, d1: Byte := ms % 255 + 1, ms / 255 + 1;
      assert DecodeDelay(d0, d1) == ms;
    }
  }

  // ---------- the interpreter ----------

  /** Overrun: a byte after the end of the buffer would be read. */
  datatype Outcome = Overrun | Done(actions: seq<Action>, consumed: nat)

  function Then(a: seq<Action>, n: nat, o: Outcome): Outcome {
    if o.Overrun? then Overrun else Done(a + o.actions, n + o.consumed)
  }

  /** The loop of dynamic_keymap_macro_send on the bytes from p on. */
  function Play(b: seq<Byte>): Outcome
    decreases |b|
  {
    if b == [] then Overrun
    else if b[0] == 0 then Done([], 1)
    else if b[0] != SS_QMK_PREFIX then Then([SendChar(b[0])], 1, Play(b[1..]))
    else if |b| < 2 then Overrun
    else if b[1] == 0 then Done([], 2)
    else if IsCode(b[1]) then
      if |b| < 3 then Overrun
      else Then(if b[2] != 0 then [SendCode(b[1], b[2])] else [], 3, Play(b[3..]))
    else if IsExtended(b[1]) then
      if |b| < 3 then Overrun
      else if b[2] == 0 then Then([], 3, Play(b[3..]))
      else if |b| < 4 then Overrun
      else
        var k := DecodeKeycode(LittleEndian(b[2], b[3]));
        Then(if b[3] != 0 then [Extended(b[1], k)] else [], 4, Play(b[4..]))
    else if b[1] == SS_DELAY_CODE then
      if |b| < 4 then Overrun
      else if b[2] == 0 || b[3] == 0 then Done([], 4)
      else Then([Wait(DecodeDelay(b[2], b[3]))], 4, Play(b[4..]))
    else Then([], 2, Play(b[2..]))
  }

  predicate ZeroFree(s: seq<Byte>) { forall i :: 0 <= i < |s| ==> s[i] != 0 }

  /** The string does not break off inside a token whose interpreter skips the terminator. */
  predicate Complete(s: seq<Byte>)
    decreases |s|
  {
    if |s| <= 1 then true
    else if s[0] != SS_QMK_PREFIX then Complete(s[1..])
    else if IsCode(s[1]) then |s| >= 3 && Complete(s[3..])
    else if IsExtended(s[1]) then |s| >= 4 && Complete(s[4..])
    else if s[1] == SS_DELAY_CODE then |s| == 3 || (|s| >= 4 && Complete(s[4..]))
    else Complete(s[2..])
  }

  lemma DropFront(b: seq<Byte>, tail: seq<Byte>, n: nat)
    requires n <= |b|
    ensures (b + tail)[n..] == b[n..] + tail
  {
  }

  /** What follows the bytes the interpreter reads makes no difference. */
  lemma {:induction false} PlayIgnoresTail(b: seq<Byte>, tail: seq<Byte>)
    requires Play(b).Done?
    ensures Play(b + tail) == Play(b)
    decreases |b|
  {
    forall n: nat | 0 < n <= |b| && Play(b[n..]).Done?
      ensures Play((b + tail)[n..]) == Play(b[n..])
    {
      DropFront(b, tail, n);
      PlayIgnoresTail(b[n..], tail);
    }
  }

  /** A complete macro stops right at its terminator, and plays the same whatever follows it. */
  lemma CompleteStops(s: seq<Byte>, tail: seq<Byte>)
    requires ZeroFree(s) && Complete(s)
    ensures Play(s + [0]).Done? && Play(s + [0]).consumed == |s| + 1
    ensures Play(s + [0] + tail) == Play(s + [0])
  {
    CompleteConsumes(s);
    PlayIgnoresTail(s + [0], tail);
  }

  lemma DropToken(s: seq<Byte>, n: nat)
    requires n <= |s|
    ensures (s + [0])[n..] == s[n..] + [0]
  {
  }

  lemma {:induction false} CompleteConsumes(s: seq<Byte>)
    requires ZeroFree(s) && Complete(s)
    ensures Play(s + [0]).Done? && Play(s + [0]).consumed == |s| + 1
    decreases |s|
  {
    if |s| >= 2 {
      var n := TokenLength(s);
      if n < |s| || s[1] != SS_DELAY_CODE || s[0] != SS_QMK_PREFIX {
        CompleteConsumes(s[n..]);
        DropToken(s, n);
      }
    }
  }

  /** How many bytes the first token takes. */
  function TokenLength(s: seq<Byte>): (n: nat)
    requires |s| >= 2 && Complete(s)
    ensures 1 <= n <= |s|
  {
    if s[0] != SS_QMK_PREFIX then 1
    else if IsCode(s[1]) then 3
    else if IsExtended(s[1]) then 4
    else if s[1] == SS_DELAY_CODE then (if |s| == 3 then 3 else 4)
    else 2
  }

  /** A macro is safe to play, whatever comes after it, exactly when it is complete: an
      incomplete one reads past its terminator. */
  lemma {:induction false} StopsExactlyWhenComplete(s: seq<Byte>)
    requires ZeroFree(s)
    ensures Play(s + [0]).Done? <==> Complete(s)
    decreases |s|
  {
    if Complete(s) {
      CompleteStops(s, []);
    } else if s[0] != SS_QMK_PREFIX {
      NextToken(s, 1);
    } else if IsCode(s[1]) {
      if |s| >= 3 { NextToken(s, 3); }
    } else if IsExtended(s[1]) {
      if |s| >= 4 { NextToken(s, 4); }
    } else if s[1] == SS_DELAY_CODE {
      if |s| >= 4 { NextToken(s, 4); }
    } else {
      NextToken(s, 2);
    }
  }

  lemma {:induction false} NextToken(s: seq<Byte>, n: nat)
    requires ZeroFree(s) && 1 <= n <= |s|
    ensures Play(s[n..] + [0]).Done? <==> Complete(s[n..])
    ensures (s + [0])[n..] == s[n..] + [0]
    decreases |s|, 0
  {
    StopsExactlyWhenComplete(s[n..]);
  }

  // ---------- the encoding ----------

  predicate Encodable(a: Action) {
    match a
    case SendChar(c) => c > 1
    case SendCode(op, code) => IsCode(op) && code != 0
    case Extended(op, k) => IsExtended(op) && 0x0100 <= k <= 0xFF00
    case Wait(ms) => ms <= MAX_DELAY
  }

  function Encode(a: Action): (bs: seq<Byte>)
    requires Encodable(a)
    ensures ZeroFree(bs) && 1 <= |bs| <= 4
  {
    match a
    case SendChar(c) => [c]
    case SendCode(op, code) => [SS_QMK_PREFIX, op, code]
    case Extended(op, k) => [SS_QMK_PREFIX, op, EncodeKeycode(k).0, EncodeKeycode(k).1]
    case Wait(ms) => [SS_QMK_PREFIX, SS_DELAY_CODE, ms % 255 + 1, ms / 255 + 1]
  }

  predicate AllEncodable(macro: seq<Action>) {
    forall i :: 0 <= i < |macro| ==> Encodable(macro[i])
  }

  function EncodeAll(macro: seq<Action>): (bs: seq<Byte>)
    requires AllEncodable(macro)
    ensures ZeroFree(bs)
  {
    if macro == [] then [] else Encode(macro[0]) + EncodeAll(macro[1..])
  }

  lemma PlayOne(a: Action, rest: seq<Byte>)
    requires Encodable(a)
    ensures Play(Encode(a) + rest) == Then([a], |Encode(a)|, Play(rest))
  {
    var b := Encode(a) + rest;
    assert b[|Encode(a)|..] == rest;
    match a
    case SendChar(_) =>
    case SendCode(_, _) =>
    case Extended(_, k) => KeycodeOperands(k);
    case Wait(ms) => DelayOperands(ms);
  }

  lemma ConcatFour(a: seq<Byte>, b: seq<Byte>, c: seq<Byte>, d: seq<Byte>)
    ensures a + b + c + d == a + (b + c + d)
  {
  }

  /** Playing an encoded macro performs exactly its actions, in order, and stops at its
      terminator. */
  lemma {:induction false} PlaysWhatWasEncoded(macro: seq<Action>, tail: seq<Byte>)
    requires AllEncodable(macro)
    ensures Play(EncodeAll(macro) + [0] + tail) == Done(macro, |EncodeAll(macro)| + 1)
  {
    if macro != [] {
      PlaysWhatWasEncoded(macro[1..], tail);
      ConcatFour(Encode(macro[0]), EncodeAll(macro[1..]), [0], tail);
      PlayOne(macro[0], EncodeAll(macro[1..]) + [0] + tail);
      assert [macro[0]] + macro[1..] == macro;
    }
  }

  /** Tokens with a zero byte where an operand belongs: codes 1 to 3 and 5 to 7 send nothing and
      skip what was read, and so does an unknown code; a delay ends the macro. */
  lemma BrokenTokens(op: Byte, lo: Byte, rest: seq<Byte>)
    requires lo != 0
    ensures 1 <= op <= 3 || 5 <= op <= 7 ==> Play([1, op, 0] + rest) == Then([], 3, Play(rest))
    ensures 5 <= op <= 7 ==> Play([1, op, lo, 0] + rest) == Then([], 4, Play(rest))
    ensures op == 4 ==> Play([1, op, 0, lo] + rest) == Play([1, op, lo, 0] + rest) == Done([], 4)
    ensures op > 7 ==> Play([1, op] + rest) == Then([], 2, Play(rest))
    ensures op == 0 ==> Play([1, op] + rest) == Done([], 2)
  {
    assert ([1, op] + rest)[2..] == rest;
    assert ([1, op, 0] + rest)[3..] == rest;
    assert ([1, op, lo, 0] + rest)[4..] == rest;
  }

  // ---------- finding a macro ----------

  /** The position after `id` zero bytes, or nothing if there are not that many. */
  datatype Position = Missing | At(p: nat)

  function Find(b: seq<Byte>, id: nat): (r: Position)
    ensures r.At? ==> r.p <= |b|
    decreases |b|
  {
    if id == 0 then At(0)
    else if b == [] then Missing
    else
      var r := Find(b[1..], if b[0] == 0 then id - 1 else id);
      if r.At? then At(r.p + 1) else Missing
  }

  /** The strings of all macros, each with its terminator. */
  function BufferOf(macros: seq<seq<Action>>): seq<Byte>
    requires forall i :: 0 <= i < |macros| ==> AllEncodable(macros[i])
  {
    if macros == [] then [] else EncodeAll(macros[0]) + [0] + BufferOf(macros[1..])
  }

  lemma {:induction false} FindSkipsString(s: seq<Byte>, rest: seq<Byte>, id: nat)
    requires ZeroFree(s) && id > 0
    ensures var r := Find(rest, id - 1);
      Find(s + [0] + rest, id) == if r.At? then At(|s| + 1 + r.p) else Missing
    decreases |s|
  {
    var b := s + [0] + rest;
    if s == [] {
      assert b[1..] == rest;
    } else {
      assert b[1..] == s[1..] + [0] + rest;
      FindSkipsString(s[1..], rest, id);
    }
  }

  lemma DropPast(a: seq<Byte>, b: seq<Byte>, n: nat)
    requires n <= |b|
    ensures (a + b)[|a| + n..] == b[n..]
  {
  }

  /** The search for macro `id` behind one string is the search for macro `id - 1` in the rest. */
  lemma FindPast(s: seq<Byte>, rest: seq<Byte>, id: nat)
    requires ZeroFree(s) && id > 0 && Find(rest, id - 1).At?
    ensures var b := s + [0] + rest;
      Find(b, id).At? && b[Find(b, id).p..] == rest[Find(rest, id - 1).p..]
  {
    FindSkipsString(s, rest, id);
    DropPast(s + [0], rest, Find(rest, id - 1).p);
  }

  lemma Assoc(a: seq<Byte>, b: seq<Byte>, c: seq<Byte>)
    ensures a + b + c == a + (b + c)
  {
  }

  /** Skipping `id` zero bytes leads to the string of macro `id`. */
  lemma {:induction false} FindsMacro(macros: seq<seq<Action>>, rest: seq<Byte>, id: nat) returns (tail: seq<Byte>)
    requires forall i :: 0 <= i < |macros| ==> AllEncodable(macros[i])
    requires id < |macros|
    ensures var b := BufferOf(macros) + rest;
      Find(b, id).At? && b[Find(b, id).p..] == EncodeAll(macros[id]) + [0] + tail
    decreases id
  {
    var first := EncodeAll(macros[0]);
    var others := BufferOf(macros[1..]) + rest;
    Assoc(first + [0], BufferOf(macros[1..]), rest);
    if id == 0 {
      tail := others;
    } else {
      tail := FindsMacro(macros[1..], rest, id - 1);
      FindPast(first, others, id);
    }
  }

  /** In a buffer of encoded macros, macro `id` is found and played, whatever comes after. */
  lemma PlaysTheRightMacro(macros: seq<seq<Action>>, rest: seq<Byte>, id: nat)
    requires forall i :: 0 <= i < |macros| ==> AllEncodable(macros[i])
    requires id < |macros|
    ensures var b := BufferOf(macros) + rest;
      Find(b, id).At? && Play(b[Find(b, id).p..]) == Done(macros[id], |EncodeAll(macros[id])| + 1)
  {
    var tail := FindsMacro(macros, rest, id);
    PlaysWhatWasEncoded(macros[id], tail);
  }

  function Zeros(b: seq<Byte>): nat {
    if b == [] then 0 else (if b[0] == 0 then 1 else 0) + Zeros(b[1..])
  }

  /** The zero byte at the end of the buffer does not keep the interpreter inside it by
      itself: in a buffer with exactly `id` zero bytes the search for macro `id` ends right
      behind the buffer, and in no other. */
  lemma {:induction false} FindStaysInside(b: seq<Byte>, id: nat)
    requires b != [] && b[|b| - 1] == 0
    ensures Find(b, id) == Missing <==> Zeros(b) < id
    ensures Find(b, id) == At(|b|) <==> Zeros(b) == id
    ensures Find(b, id) == At(|b|) ==> Play(b[|b|..]) == Overrun
    decreases |b|
  {
    if |b| == 1 {
      assert Zeros(b[1..]) == 0;
      if id > 1 { assert Find(b[1..], id - 1) == Missing; }
    } else if id > 0 {
      FindStaysInside(b[1..], if b[0] == 0 then id - 1 else id);
    } else {
      HasZero(b);
    }
  }

  lemma {:induction false} HasZero(b: seq<Byte>)
    requires b != [] && b[|b| - 1] == 0
    ensures Zeros(b) > 0
  {
    if |b| > 1 { HasZero(b[1..]); }
  }

  // ---------- the buffer in EEPROM ----------

  class Player {
    const region: array<Byte>
    /** What has been sent so far. */
    var sent: seq<Action>

    constructor (region: array<Byte>)
      ensures this.region == region && sent == []
    {
      this.region := region;
      sent := [];
    }

    /** What dynamic_keymap_macro_send(id) is to perform. */
    ghost function Meant(id: nat): seq<Action>
      requires region.Length > 0
      reads region
    {
      var r := Find(region[..], id);
      if id < MACRO_COUNT && region[region.Length - 1] == 0 && r.At? && Play(region[r.p..]).Done?
      then Play(region[r.p..]).actions else []
    }

    /** The macro found reads on behind the buffer. */
    ghost predicate Overruns(id: nat)
      requires region.Length > 0
      reads region
    {
      var r := Find(region[..], id);
      id < MACRO_COUNT && region[region.Length - 1] == 0 && r.At? && Play(region[r.p..]) == Overrun
    }

    /** Over a buffer of encoded macros, the macros 0 to 15 are sent as they were encoded, and
        others not at all. */
    lemma SendsTheRightMacro(macros: seq<seq<Action>>, rest: seq<Byte>, id: nat)
      requires forall i :: 0 <= i < |macros| ==> AllEncodable(macros[i])
      requires id < |macros| && region.Length > 0 && region[region.Length - 1] == 0
      ensures region[..] == BufferOf(macros) + rest ==>
        Meant(id) == (if id < 16 then macros[id] else []) && !Overruns(id)
    {
      PlaysTheRightMacro(macros, rest, id);
      if region[..] == BufferOf(macros) + rest {
        assert region[..][Find(region[..], id).p..] == region[Find(region[..], id).p..];
      }
    }

    /** The loop that skips `id` null bytes. */
    method SkipTo(id: nat) returns (r: Position)
      ensures r == Find(region[..], id)
    {
      var p, n := 0, id;
      while n > 0
        invariant p <= region.Length
        invariant Find(region[..], id) == (var f := Find(region[p..], n); if f.At? then At(p + f.p) else Missing)
        decreases region.Length - p
      {
        if p == region.Length { return Missing; }
        assert region[p..][1..] == region[p + 1..];
        if region[p] == 0 { n := n - 1; }
        p := p + 1;
      }
      return At(p);
    }

    /** One turn of the loop of dynamic_keymap_macro_send; `overrun` if it would read a byte
        behind the buffer. */
    method PlayToken(p: nat) returns (q: nat, more: bool, overrun: bool)
      requires p <= region.Length
      modifies this`sent
      ensures old(sent) <= sent
      ensures overrun ==> q == p && !more && Play(region[p..]) == Overrun
      ensures !overrun ==>
        var did := sent[|old(sent)|..];
        && p < q <= region.Length
        && Play(region[p..]) == if more then Then(did, q - p, Play(region[q..])) else Done(did, q - p)
    {
      ghost var b := region[p..];
      assert forall n :: 0 <= n <= |b| ==> b[n..] == region[p + n..];
      if region.Length - p < 1 { return p, false, true; }
      var d0 := region[p];
      if d0 == 0 { return p + 1, false, false; }
      if d0 != SS_QMK_PREFIX {
        sent := sent + [SendChar(d0)];
        return p + 1, true, false;
      }
      if region.Length - p < 2 { return p, false, true; }
      var d1 := region[p + 1];
      if d1 == 0 { return p + 2, false, false; }
      if IsCode(d1) {
        if region.Length - p < 3 { return p, false, true; }
        var d2 := region[p + 2];
        if d2 != 0 { sent := sent + [SendCode(d1, d2)]; }
        return p + 3, true, false;
      }
      if IsExtended(d1) {
        if region.Length - p < 3 { return p, false, true; }
        var d2 := region[p + 2];
        if d2 == 0 { return p + 3, true, false; }
        if region.Length - p < 4 { return p, false, true; }
        var d3 := region[p + 3];
        if d3 != 0 { sent := sent + [Extended(d1, DecodeKeycode(LittleEndian(d2, d3)))]; }
        return p + 4, true, false;
      }
      if d1 == SS_DELAY_CODE {
        if region.Length - p < 4 { return p, false, true; }
        var d2, d3 := region[p + 2], region[p + 3];
        if d2 == 0 || d3 == 0 { return p + 4, false, false; }
        sent := sent + [Wait(DecodeDelay(d2, d3))];
        return p + 4, true, false;
      }
      return p + 2, true, false;
    }

    /** dynamic_keymap_macro_send. `overrun` if it reads on behind the buffer; what it does
        from there on is left open. */
    method Send(id: nat) returns (overrun: bool)
      requires region.Length > 0
      modifies this`sent
      ensures overrun <==> Overruns(id)
      ensures !overrun ==> sent == old(sent) + Meant(id)
    {
      if id >= MACRO_COUNT || region[region.Length - 1] != 0 { return false; }
      var r := SkipTo(id);
      if r.Missing? { return false; }
      overrun := PlayFrom(r.p);
    }

    /** The loop of dynamic_keymap_macro_send. */
    method PlayFrom(start: nat) returns (overrun: bool)
      requires start <= region.Length
      modifies this`sent
      ensures overrun <==> Play(region[start..]) == Overrun
      ensures !overrun ==> sent == old(sent) + Play(region[start..]).actions
    {
      ghost var meant := Play(region[start..]);
      var p, more := start, true;
      overrun := false;
      while more
        invariant p <= region.Length
        invariant Ahead(p, more, overrun, old(sent), meant)
        decreases region.Length - p, more
      {
        p, more, overrun := PlayToken(p);
      }
    }

    /** What is still to be played after `before` was sent and the loop stands at p. */
    ghost predicate Ahead(p: nat, more: bool, overrun: bool, before: seq<Action>, meant: Outcome)
      requires p <= region.Length
      reads this, region
    {
      var rest := if more then Play(region[p..]) else Done([], 0);
      if overrun then !more && meant == Overrun
      else if rest.Overrun? then meant == Overrun
      else meant.Done? && sent + rest.actions == before + meant.actions
    }
  }
}
