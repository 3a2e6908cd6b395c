/** What keycodes do to the keyboard report and to the layers, press and release together. */
module ActionReport {
  import opened ActionCode
  import opened MaskWords
  import opened Masks

  // ---------- the report ----------

  /** The modifier of a modifier keycode. */
  function Modifier(code: Code): set<nat> {
    if code == 0xE0 then {0} else if code == 0xE1 then {1} else if code == 0xE2 then {2} else if code == 0xE3 then {3}
    else if code == 0xE4 then {4} else if code == 0xE5 then {5} else if code == 0xE6 then {6}
    else if code == 0xE7 then {7} else {}
  }

  /** The keys that are down, and the modifiers that are down, weak, one-shot and locked. */
  datatype Report = Report(keys: set<Code>, down: set<nat>, weak: set<nat>, oneshot: set<nat>, locked: set<nat>)

  function Apply(r: Report, o: Output): Report {
    match o
    case KeyDown(code) =>
      if 0xE0 <= code <= 0xE7 then r.(down := r.down + Modifier(code)) else r.(keys := r.keys + {code})
    case KeyUp(code) =>
      if 0xE0 <= code <= 0xE7 then r.(down := r.down - Modifier(code)) else r.(keys := r.keys - {code})
    case AddMods(mods, weak) => if weak then r.(weak := r.weak + Bits(mods)) else r.(down := r.down + Bits(mods))
    case DelMods(mods, weak) => if weak then r.(weak := r.weak - Bits(mods)) else r.(down := r.down - Bits(mods))
    case AddOneshot(mods) => r.(oneshot := r.oneshot + Bits(mods))
    case DelOneshot(mods) => r.(oneshot := r.oneshot - Bits(mods))
    case AddLocked(mods) => r.(locked := r.locked + Bits(mods))
    case DelLocked(mods) => r.(locked := r.locked - Bits(mods))
  }

  function Fold(r: Report, outputs: seq<Output>): Report
    decreases |outputs|
  {
    if outputs == [] then r else Fold(Apply(r, outputs[0]), outputs[1..])
  }

  lemma FoldTwo(r: Report, a: Output, b: Output)
    ensures Fold(r, [a]) == Apply(r, a)
    ensures Fold(r, [a, b]) == Apply(Apply(r, a), b)
  {
    assert [a, b][1..] == [b] && [a][1..] == [] && [b][1..] == [];
    assert Fold(Apply(r, a), [b]) == Apply(Apply(r, a), b);
  }

  lemma FoldThree(r: Report, a: Output, b: Output, c: Output)
    ensures Fold(r, [a, b, c]) == Apply(Apply(Apply(r, a), b), c)
  {
    assert [a, b, c][1..] == [b, c];
    FoldTwo(Apply(r, a), b, c);
  }

  /** What is held down together with a report, and what is left when that is let go. */
  function Join(r: Report, a: Report): Report {
    Report(r.keys + a.keys, r.down + a.down, r.weak + a.weak, r.oneshot + a.oneshot, r.locked + a.locked)
  }

  function Without(r: Report, a: Report): Report {
    Report(r.keys - a.keys, r.down - a.down, r.weak - a.weak, r.oneshot - a.oneshot, r.locked - a.locked)
  }

  predicate Apart(r: Report, a: Report) {
    r.keys !! a.keys && r.down !! a.down && r.weak !! a.weak && r.oneshot !! a.oneshot && r.locked !! a.locked
  }

  lemma SetAside<T>(x: set<T>, m: set<T>)
    ensures (x + m) - m == x <==> x !! m
  {
    if (x + m) - m == x {
      forall e | e in x ensures e !in m { assert e in (x + m) - m; }
    }
  }

  /** Letting go restores the report exactly when nothing of it was held already. */
  lemma LettingGo(r: Report, a: Report)
    ensures Without(Join(r, a), a) == r <==> Apart(r, a)
  {
    SetAside(r.keys, a.keys);
    SetAside(r.down, a.down);
    SetAside(r.weak, a.weak);
    SetAside(r.oneshot, a.oneshot);
    SetAside(r.locked, a.locked);
  }

  // ---------- plain and modified keys ----------

  /** The keys, and the modifier, a key byte stands for: basic keys and mouse keys. */
  function KeyPart(key: Code): Report {
    Report(if 0x04 <= key <= 0xA4 || 0xCD <= key <= 0xDF then {key} else {}, Modifier(key), {}, {}, {})
  }

  /** The modifiers of a modified key: real ones with a modifier or no key, else weak ones. */
  function ModPart(mods: Code, key: Code): Report {
    if key == 0 || 0xE0 <= key <= 0xE7 then Report({}, Bits(mods), {}, {}, {}) else Report({}, {}, Bits(mods), {}, {})
  }

  /** The outputs of a key event, from its keycode. */
  function Outputs(kc: Code, pressed: bool, c: Context, s: State, mask: Layers): seq<Output> {
    Execute(Compile(kc), pressed, c, s, mask).outputs
  }

  predicate IsPlain(kc: Code) { 0x0004 <= kc <= 0x00A4 || 0x00CD <= kc <= 0x00E7 }

  lemma PlainSends(kc: Code, pressed: bool, c: Context, s: State, mask: Layers)
    requires IsPlain(kc)
    ensures Outputs(kc, pressed, c, s, mask) == if pressed then [KeyDown(kc)] else [KeyUp(kc)]
  {
    PlainKeyView(kc);
  }

  lemma KeyApplied(r: Report, key: Code)
    requires IsPlain(key)
    ensures Apply(r, KeyDown(key)) == Join(r, KeyPart(key)) && Apply(r, KeyUp(key)) == Without(r, KeyPart(key))
  {
  }

  /** A plain key: the press adds it, the release takes it away. */
  lemma PlainKeyReport(kc: Code, c: Context, s: State, mask: Layers, r: Report)
    requires IsPlain(kc)
    ensures Fold(r, Outputs(kc, true, c, s, mask)) == Join(r, KeyPart(kc))
    ensures Fold(r, Outputs(kc, false, c, s, mask)) == Without(r, KeyPart(kc))
  {
    PlainSends(kc, true, c, s, mask);
    PlainSends(kc, false, c, s, mask);
    FoldTwo(r, KeyDown(kc), KeyDown(kc));
    FoldTwo(r, KeyUp(kc), KeyUp(kc));
    KeyApplied(r, kc);
  }

  /** What a modified key holds down. */
  function Modified(kc: Code): Report { Join(ModPart(ModBits(kc >> 8), kc & 0xFF), KeyPart(kc & 0xFF)) }

  lemma ModifiedSends(kc: Code, pressed: bool, c: Context, s: State, mask: Layers)
    requires 0x0100 <= kc <= 0x1FFF
    ensures Outputs(kc, pressed, c, s, mask) == KeyOutputs(ModBits(kc >> 8), kc & 0xFF, pressed)
  {
    ModifiedKeyView(kc);
  }

  /** The modifiers go down before the key and come up after it. */
  predicate ModsAround(mods: Code, key: Code, press: seq<Output>, release: seq<Output>) {
    var m, k := if mods != 0 then 1 else 0, if IsPlain(key) then 1 else 0;
    && |press| == |release| == m + k
    && (m == 1 ==> press[0].AddMods? && release[k].DelMods?)
    && (k == 1 ==> press[m] == KeyDown(key) && release[0] == KeyUp(key))
  }

  lemma NoBits(key: Code)
    ensures Bits(0) == {} && ModPart(0, key) == Report({}, {}, {}, {}, {})
  {
  }

  lemma KeyNothing(r: Report, key: Code)
    requires !IsPlain(key) && key <= 0xFF
    ensures KeyPart(key) == Report({}, {}, {}, {}, {}) && !Registers(key)
  {
  }

  lemma ModsApplied(r: Report, mods: Code, key: Code)
    ensures var weak := !(key == 0 || 0xE0 <= key <= 0xE7);
      && Apply(r, AddMods(mods, weak)) == Join(r, ModPart(mods, key))
      && Apply(r, DelMods(mods, weak)) == Without(r, ModPart(mods, key))
  {
  }

  lemma JoinTwice(r: Report, a: Report, b: Report)
    ensures Join(Join(r, a), b) == Join(r, Join(a, b))
    ensures Without(Without(r, b), a) == Without(r, Join(a, b))
    ensures Join(r, Report({}, {}, {}, {}, {})) == r && Without(r, Report({}, {}, {}, {}, {})) == r
  {
  }

  /** The outputs of a modified key, applied to a report. */
  lemma KeyOutputsApplied(r: Report, mods: Code, key: Code)
    requires key <= 0xFF
    ensures Fold(r, KeyOutputs(mods, key, true)) == Join(Join(r, ModPart(mods, key)), KeyPart(key))
    ensures Fold(r, KeyOutputs(mods, key, false)) == Without(Without(r, KeyPart(key)), ModPart(mods, key))
    ensures ModsAround(mods, key, KeyOutputs(mods, key, true), KeyOutputs(mods, key, false))
  {
    var weak := !(key == 0 || 0xE0 <= key <= 0xE7);
    ModsApplied(r, mods, key);
    ModsApplied(Without(r, KeyPart(key)), mods, key);
    if IsPlain(key) {
      KeyApplied(r, key);
      KeyApplied(Join(r, ModPart(mods, key)), key);
    } else {
      KeyNothing(r, key);
    }
    JoinTwice(r, ModPart(mods, key), KeyPart(key));
    JoinTwice(Join(r, ModPart(mods, key)), KeyPart(key), KeyPart(key));
    JoinTwice(Without(r, KeyPart(key)), KeyPart(key), KeyPart(key));
    NoBits(key);
    FoldTwo(r, AddMods(mods, weak), KeyDown(key));
    FoldTwo(r, KeyUp(key), DelMods(mods, weak));
    FoldTwo(r, KeyDown(key), KeyDown(key));
    FoldTwo(r, DelMods(mods, weak), DelMods(mods, weak));
  }

  /** A modified key: the press adds its modifiers and then the key, the release takes exactly
      those away, the key first; together they restore the report exactly when nothing of it
      was held before. */
  lemma ModifiedKeyReport(kc: Code, c: Context, s: State, mask: Layers, r: Report)
    requires 0x0100 <= kc <= 0x1FFF
    ensures var press, release := Outputs(kc, true, c, s, mask), Outputs(kc, false, c, s, mask);
      && Fold(r, press) == Join(r, Modified(kc)) && Fold(r, release) == Without(r, Modified(kc))
      && (Fold(Fold(r, press), release) == r <==> Apart(r, Modified(kc)))
      && ModsAround(ModBits(kc >> 8), kc & 0xFF, press, release)
  {
    var mods, key := ModBits(kc >> 8), kc & 0xFF;
    ModifiedSends(kc, true, c, s, mask);
    ModifiedSends(kc, false, c, s, mask);
    KeyOutputsApplied(r, mods, key);
    KeyOutputsApplied(Fold(r, KeyOutputs(mods, key, true)), mods, key);
    JoinTwice(r, ModPart(mods, key), KeyPart(key));
    JoinTwice(Join(r, Modified(kc)), ModPart(mods, key), KeyPart(key));
    LettingGo(r, Modified(kc));
  }

  /** The fifth modifier bit moves the other four to the right-hand side. */
  lemma SideOfMods(m: Code, k: nat)
    requires k < 8
    ensures k in Bits(ModBits(m)) <==>
      Has(m, if m & 0x10 != 0 then (if k >= 4 then k - 4 else 8) else (if k < 4 then k else 8))
  {
  }

  // ---------- dual-role modifier keys ----------

  /** Modifiers that are simply held. */
  function Held(mods: Code): Report { Report({}, Bits(mods), {}, {}, {}) }

  lemma HeldApplied(r: Report, mods: Code)
    ensures Fold(r, ModsDown(mods)) == Join(r, Held(mods)) && Fold(r, ModsUp(mods)) == Without(r, Held(mods))
  {
    NoBits(0);
    FoldTwo(r, AddMods(mods, false), AddMods(mods, false));
    FoldTwo(r, DelMods(mods, false), DelMods(mods, false));
  }

  lemma PressApplied(r: Report, key: Code)
    requires key <= 0xFF
    ensures Fold(r, Press(key)) == Join(r, KeyPart(key)) && Fold(r, Release(key)) == Without(r, KeyPart(key))
  {
    FoldTwo(r, KeyDown(key), KeyDown(key));
    FoldTwo(r, KeyUp(key), KeyUp(key));
    if IsPlain(key) { KeyApplied(r, key); } else { KeyNothing(r, key); }
  }

  lemma ModTapSends(kc: Code, pressed: bool, c: Context, s: State, mask: Layers)
    requires 0x2000 <= kc <= 0x3FFF && kc & 0xFF > 1
    ensures Outputs(kc, pressed, c, s, mask) == ModTapOutputs(ModBits(kc >> 8), kc & 0xFF, pressed, c.tap > 0)
  {
    ModTapView(kc);
  }

  function TapOrHold(mods: Code, key: Code, tapped: bool): Report { if tapped then KeyPart(key) else Held(mods) }

  lemma TapOrHoldApplied(r: Report, mods: Code, key: Code, tapped: bool)
    requires key <= 0xFF
    ensures Fold(r, ModTapOutputs(mods, key, true, tapped)) == Join(r, TapOrHold(mods, key, tapped))
    ensures Fold(r, ModTapOutputs(mods, key, false, tapped)) == Without(r, TapOrHold(mods, key, tapped))
  {
    if tapped { PressApplied(r, key); } else { HeldApplied(r, mods); }
  }

  /** A dual-role modifier key: its key on a tap, its modifiers on a hold, pressed and released
      alike; so press and release restore the report exactly when nothing of it was held. */
  lemma ModTapReport(kc: Code, c: Context, s: State, mask: Layers, r: Report)
    requires 0x2000 <= kc <= 0x3FFF && kc & 0xFF > 1
    ensures var part := TapOrHold(ModBits(kc >> 8), kc & 0xFF, c.tap > 0);
      var press, release := Outputs(kc, true, c, s, mask), Outputs(kc, false, c, s, mask);
      && Fold(r, press) == Join(r, part) && Fold(r, release) == Without(r, part)
      && (Fold(Fold(r, press), release) == r <==> Apart(r, part))
  {
    var mods, key := ModBits(kc >> 8), kc & 0xFF;
    ModTapSends(kc, true, c, s, mask);
    ModTapSends(kc, false, c, s, mask);
    TapOrHoldApplied(r, mods, key, c.tap > 0);
    TapOrHoldApplied(Join(r, TapOrHold(mods, key, c.tap > 0)), mods, key, c.tap > 0);
    LettingGo(r, TapOrHold(mods, key, c.tap > 0));
  }

  /** A tap-toggle modifier: taps below the limit hold it, the tap at the limit leaves it down,
      and further ones change nothing until then. */
  lemma TapToggleReport(kc: Code, c: Context, s: State, mask: Layers, r: Report)
    requires 0x2000 <= kc <= 0x3FFF && kc & 0xFF == 1
    ensures var mods := Held(ModBits(kc >> 8));
      var down := Fold(r, Outputs(kc, true, c, s, mask));
      var up := Fold(down, Outputs(kc, false, c, s, mask));
      if c.tap < c.toggle then down == Join(r, mods) && up == Without(r, mods)
      else if c.tap == c.toggle then down == up == Join(r, mods)
      else down == up == r
  {
    var mods := ModBits(kc >> 8);
    ModTapView(kc);
    HeldApplied(r, mods);
    HeldApplied(Join(r, Held(mods)), mods);
    JoinThenWithout(r, Held(mods));
  }

  lemma JoinThenWithout(r: Report, a: Report)
    ensures Without(Join(r, a), a) == Without(r, a)
  {
  }

  // ---------- one-shot modifiers ----------

  /** How modifiers meet those of the report. */
  function MetIn(r: Report, b: set<nat>): Met {
    Met(!(b !! r.down), !(r.oneshot !! b), b <= r.oneshot, !(r.locked !! b), b <= r.locked)
  }

  /** The context shows the modifiers of the report, as far as these are concerned. */
  predicate Shows(c: Context, r: Report, mods: Code) { Meets(mods, c) == MetIn(r, Bits(mods)) }

  /** A context with the bytes of the report does: masking bytes is comparing their sets. */
  lemma BytesShow(a: Code, mods: Code)
    requires a <= 0xFF && mods <= 0xFF
    ensures (a & mods != 0) == !(Bits(a) !! Bits(mods)) && (a & mods == mods) == (Bits(mods) <= Bits(a))
  {
    Meet(a, mods);
    Covers(a, mods);
  }

  lemma OneshotSends(kc: Code, pressed: bool, c: Context, s: State, mask: Layers)
    requires 0x52A0 <= kc <= 0x52BF
    ensures Outputs(kc, pressed, c, s, mask) == OneshotMods(ModBits(kc & 0x1F), pressed, c)
  {
    OneshotModView(kc);
  }

  /** The modifiers go down for good: held, no longer one-shot, locked. */
  function Locked(r: Report, b: set<nat>): Report {
    r.(down := r.down + b, oneshot := r.oneshot - b, locked := r.locked + b)
  }

  /** The modifiers are let go in every way. */
  function Cleared(r: Report, b: set<nat>): Report {
    r.(down := r.down - b, oneshot := r.oneshot - b, locked := r.locked - b)
  }

  lemma LockingApplied(r: Report, mods: Code, m: Met)
    requires m == MetIn(r, Bits(mods))
    ensures Fold(r, ModsDown(mods) + (if m.oneshot then [DelOneshot(mods)] else [])
                    + (if m.allLocked then [] else [AddLocked(mods)])) == Locked(r, Bits(mods))
  {
    NoBits(0);
    var a, d, l := AddMods(mods, false), DelOneshot(mods), AddLocked(mods);
    FoldThree(r, a, d, l);
    FoldTwo(r, a, d);
    FoldTwo(r, a, l);
    FoldTwo(r, d, l);
    FoldTwo(r, l, l);
  }

  lemma ClearingApplied(r: Report, mods: Code, m: Met)
    requires m == MetIn(r, Bits(mods))
    ensures Fold(r, ModsUp(mods) + (if m.oneshot then [DelOneshot(mods)] else [])
                    + (if m.locked then [DelLocked(mods)] else [])) == Cleared(r, Bits(mods))
  {
    NoBits(0);
    var a, d, l := DelMods(mods, false), DelOneshot(mods), DelLocked(mods);
    FoldThree(r, a, d, l);
    FoldTwo(r, a, d);
    FoldTwo(r, a, l);
    FoldTwo(r, d, l);
    FoldTwo(r, l, l);
  }

  /** A one-shot modifier key that is held does what its modifiers do, and lets them go in
      every way; so does one while one-shot keys are switched off, but for that. */
  lemma OneshotHeld(kc: Code, c: Context, s: State, mask: Layers, r: Report)
    requires 0x52A0 <= kc <= 0x52BF && Shows(c, r, ModBits(kc & 0x1F))
    ensures var b := Bits(ModBits(kc & 0x1F));
      var press, release := Outputs(kc, true, c, s, mask), Outputs(kc, false, c, s, mask);
      && (!c.oneshotOn || c.tap == 0 ==> Fold(r, press) == r.(down := r.down + b))
      && (!c.oneshotOn ==> Fold(r, release) == r.(down := r.down - b))
      && (c.oneshotOn && c.tap == 0 ==> Fold(r, release) == Cleared(r, b))
  {
    var mods := ModBits(kc & 0x1F);
    OneshotSends(kc, true, c, s, mask);
    OneshotSends(kc, false, c, s, mask);
    HeldApplied(r, mods);
    ClearingApplied(r, mods, Meets(mods, c));
  }

  /** Tapped once it makes its modifiers one-shot; tapped as often as the setting says it locks
      them; other taps change nothing. */
  lemma OneshotTapped(kc: Code, c: Context, s: State, mask: Layers, r: Report)
    requires 0x52A0 <= kc <= 0x52BF && Shows(c, r, ModBits(kc & 0x1F)) && c.oneshotOn && c.tap > 0
    ensures var b := Bits(ModBits(kc & 0x1F));
      Fold(r, Outputs(kc, true, c, s, mask))
      == if c.tap == 1 then r.(oneshot := r.oneshot + b)
         else if c.tap == c.oneshotToggle then Locked(r, b) else r
  {
    var mods := ModBits(kc & 0x1F);
    OneshotSends(kc, true, c, s, mask);
    LockingApplied(r, mods, Meets(mods, c));
    FoldTwo(r, AddOneshot(mods), AddOneshot(mods));
  }

  /** Its release changes nothing, unless it is a first tap that finds the modifiers down, with
      that setting on: then it lets them go in every way. */
  lemma OneshotReleased(kc: Code, c: Context, s: State, mask: Layers, r: Report)
    requires 0x52A0 <= kc <= 0x52BF && Shows(c, r, ModBits(kc & 0x1F)) && c.oneshotOn && c.tap > 0
    ensures var b := Bits(ModBits(kc & 0x1F));
      Fold(r, Outputs(kc, false, c, s, mask))
      == if c.tap == 1 && c.oneshotToggle > 1 && !(b !! r.down) then Cleared(r, b) else r
  {
    var mods := ModBits(kc & 0x1F);
    OneshotSends(kc, false, c, s, mask);
    ClearingApplied(r, mods, Meets(mods, c));
  }
}
