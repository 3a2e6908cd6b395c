/** What layer keys do to the layers, press and release together. */
module ActionLayers {
  import opened ActionCode

  /** What a key event does to one layer of a layer word: nothing, on, off, over, or on alone. */
  datatype Change = Same | On | Off | Over | Alone

  function Changed(w: Layers, change: Change, n: Code, mask: Layers): Layers
    requires n < 32
  {
    match change
    case Same => w
    case On => (w | (1 << n)) & mask
    case Off => (w & !(1 << n)) & mask
    case Over => (w ^ (1 << n)) & mask
    case Alone => (1 << n) & mask
  }

  /** The state after a change of the layers. */
  function With(s: State, change: Change, n: Code, mask: Layers): State
    requires n < 32
  {
    State(Changed(s.layers, change, n, mask), s.defaults, s.oneshot)
  }

  /** The state after a key event. */
  function After(kc: Code, pressed: bool, c: Context, s: State, mask: Layers): State {
    Execute(Compile(kc), pressed, c, s, mask).state
  }

  lemma OnIs(s: State, n: Code, mask: Layers)
    requires n < 32
    ensures ActionCode.LayerOn(s, n, mask) == With(s, On, n, mask)
  {
  }

  lemma OffIs(s: State, n: Code, mask: Layers)
    requires n < 32
    ensures LayerOff(s, n, mask) == With(s, Off, n, mask)
  {
  }

  lemma OverIs(s: State, n: Code, mask: Layers)
    requires n < 32
    ensures LayerInvert(s, n, mask) == With(s, Over, n, mask)
  {
  }

  lemma AloneIs(s: State, n: Code, mask: Layers)
    requires n < 32
    ensures LayerMove(s, n, mask) == With(s, Alone, n, mask)
  {
  }

  // ---------- MO, TO, DF, TG ----------

  lemma MomentarySends(kc: Code, pressed: bool, c: Context, s: State, mask: Layers)
    requires 0x5220 <= kc <= 0x523F
    ensures kc & 0x1F < 32
    ensures After(kc, pressed, c, s, mask)
         == if pressed then ActionCode.LayerOn(s, kc & 0x1F, mask) else LayerOff(s, kc & 0x1F, mask)
  {
    LayerOpView(kc);
  }

  /** MO(): on with the press, off with the release. */
  lemma Momentary(kc: Code, pressed: bool, c: Context, s: State, mask: Layers)
    requires 0x5220 <= kc <= 0x523F
    ensures kc & 0x1F < 32
    ensures After(kc, pressed, c, s, mask) == With(s, if pressed then On else Off, kc & 0x1F, mask)
  {
    MomentarySends(kc, pressed, c, s, mask);
    OnIs(s, kc & 0x1F, mask);
    OffIs(s, kc & 0x1F, mask);
  }

  lemma GotoSends(kc: Code, pressed: bool, c: Context, s: State, mask: Layers)
    requires 0x5200 <= kc <= 0x521F
    ensures kc & 0x1F < 32
    ensures After(kc, pressed, c, s, mask) == if pressed then LayerMove(s, kc & 0x1F, mask) else s
  {
    GotoPreserved(kc, pressed, c, s, mask);
  }

  /** TO(): on alone with the press. */
  lemma Goto(kc: Code, pressed: bool, c: Context, s: State, mask: Layers)
    requires 0x5200 <= kc <= 0x521F
    ensures kc & 0x1F < 32
    ensures After(kc, pressed, c, s, mask) == With(s, if pressed then Alone else Same, kc & 0x1F, mask)
  {
    GotoSends(kc, pressed, c, s, mask);
    AloneIs(s, kc & 0x1F, mask);
  }

  lemma ToggleSends(kc: Code, pressed: bool, c: Context, s: State, mask: Layers)
    requires 0x5260 <= kc <= 0x527F
    ensures kc & 0x1F < 32
    ensures After(kc, pressed, c, s, mask) == if pressed then s else LayerInvert(s, kc & 0x1F, mask)
  {
    TogglePreserved(kc, pressed, c, s, mask);
  }

  /** TG(): over with the release. */
  lemma Toggle(kc: Code, pressed: bool, c: Context, s: State, mask: Layers)
    requires 0x5260 <= kc <= 0x527F
    ensures kc & 0x1F < 32
    ensures After(kc, pressed, c, s, mask) == With(s, if pressed then Same else Over, kc & 0x1F, mask)
  {
    ToggleSends(kc, pressed, c, s, mask);
    OverIs(s, kc & 0x1F, mask);
  }

  lemma DefaultSends(kc: Code, pressed: bool, c: Context, s: State, mask: Layers)
    requires 0x5240 <= kc <= 0x525F
    ensures kc & 0x1F < 32
    ensures After(kc, pressed, c, s, mask) == if pressed then s else DefaultSet(s, kc & 0x1F, mask)
  {
    DefaultPreserved(kc, pressed, c, s, mask);
  }

  /** DF(): the only default layer with the release. */
  lemma Default(kc: Code, pressed: bool, c: Context, s: State, mask: Layers)
    requires 0x5240 <= kc <= 0x525F
    ensures kc & 0x1F < 32
    ensures After(kc, pressed, c, s, mask)
         == s.(defaults := Changed(s.defaults, if pressed then Same else Alone, kc & 0x1F, mask))
  {
    DefaultSends(kc, pressed, c, s, mask);
  }

  // ---------- TT ----------

  lemma TapToggleSends(kc: Code, pressed: bool, c: Context, s: State, mask: Layers)
    requires 0x52C0 <= kc <= 0x52DF
    ensures kc & 0x1F < 32
    ensures After(kc, pressed, c, s, mask) == if Inverts(pressed, c) then LayerInvert(s, kc & 0x1F, mask) else s
  {
    LayerOpView(kc);
  }

  /** TT(): over, once with the press and once with the release, while it is held or tapped
      fewer times than the setting says; over with the release alone when tapped that often. */
  lemma TapToggle(kc: Code, c: Context, s: State, mask: Layers, pressed: bool)
    requires 0x52C0 <= kc <= 0x52DF
    ensures kc & 0x1F < 32
    ensures c.tap < c.toggle ==> After(kc, pressed, c, s, mask) == With(s, Over, kc & 0x1F, mask)
    ensures c.tap == c.toggle ==>
      After(kc, pressed, c, s, mask) == With(s, if pressed then Same else Over, kc & 0x1F, mask)
    ensures c.tap > c.toggle ==> After(kc, pressed, c, s, mask) == s
  {
    TapToggleSends(kc, pressed, c, s, mask);
    OverIs(s, kc & 0x1F, mask);
  }

  lemma OverTwice(w: Layers, n: Code)
    requires n < 32
    ensures Changed(Changed(w, Over, n, ALL), Over, n, ALL) == w
  {
    XorTwice(w, 1 << n);
  }

  lemma XorTwice(w: Layers, m: Layers)
    ensures (((w ^ m) & 0xFFFF_FFFF) ^ m) & 0xFFFF_FFFF == w
  {
  }

  // ---------- LT and LM ----------

  lemma HoldSends(kc: Code, pressed: bool, c: Context, s: State, mask: Layers)
    requires 0x4000 <= kc <= 0x4FFF && (kc & 0xFF < 0xF0 || kc & 0xFF > 0xF4)
    ensures (kc >> 8) & 0xF < 32
    ensures Execute(Compile(kc), pressed, c, s, mask)
         == HoldOrTap((kc >> 8) & 0xF, kc & 0xFF, pressed, c.tap > 0, s, mask)
  {
    LayerTapShape(kc, pressed, c, s, mask);
  }

  /** LT() with a key that is no operation code, held: the layer on with the press, off with
      the release, and no key. */
  lemma LayerTapHeld(kc: Code, pressed: bool, c: Context, s: State, mask: Layers)
    requires 0x4000 <= kc <= 0x4FFF && (kc & 0xFF < 0xF0 || kc & 0xFF > 0xF4) && c.tap == 0
    ensures (kc >> 8) & 0xF < 32
    ensures Execute(Compile(kc), pressed, c, s, mask)
         == Effect(With(s, if pressed then On else Off, (kc >> 8) & 0xF, mask), [])
  {
    HoldSends(kc, pressed, c, s, mask);
    OnIs(s, (kc >> 8) & 0xF, mask);
    OffIs(s, (kc >> 8) & 0xF, mask);
  }

  /** Tapped: its key, and no layer. */
  lemma LayerTapTapped(kc: Code, pressed: bool, c: Context, s: State, mask: Layers)
    requires 0x4000 <= kc <= 0x4FFF && (kc & 0xFF < 0xF0 || kc & 0xFF > 0xF4) && c.tap > 0
    ensures var key := kc & 0xFF;
      Execute(Compile(kc), pressed, c, s, mask)
      == Effect(s, if 0x04 <= key <= 0xA4 || 0xCD <= key <= 0xE7 then [if pressed then KeyDown(key) else KeyUp(key)]
                   else [])
  {
    HoldSends(kc, pressed, c, s, mask);
  }

  lemma LayerModSends(kc: Code, pressed: bool, c: Context, s: State, mask: Layers)
    requires 0x5000 <= kc <= 0x51FF && (kc & 0x10 == 0 || kc & 0x20 != 0)
    ensures (kc >> 5) & 0xF < 32
    ensures Execute(Compile(kc), pressed, c, s, mask)
         == LayerMods((kc >> 5) & 0xF, ModBits(kc & 0x1F), pressed, s, mask)
  {
    LayerModPreserved(kc, pressed, c, s, mask);
    if kc & 0x10 != 0 { OddAlready(kc); }
  }

  lemma OddAlready(kc: Code)
    requires kc & 0x20 != 0
    ensures ((kc >> 5) & 0xF) | 1 == (kc >> 5) & 0xF
  {
  }

  /** LM() with left-hand modifiers, or with an odd layer: layer and modifiers, held together. */
  lemma LayerModHeld(kc: Code, pressed: bool, c: Context, s: State, mask: Layers)
    requires 0x5000 <= kc <= 0x51FF && (kc & 0x10 == 0 || kc & 0x20 != 0)
    ensures (kc >> 5) & 0xF < 32
    ensures var mods := ModBits(kc & 0x1F);
      Execute(Compile(kc), pressed, c, s, mask)
      == Effect(With(s, if pressed then On else Off, (kc >> 5) & 0xF, mask),
                if mods == 0 then [] else [if pressed then AddMods(mods, false) else DelMods(mods, false)])
  {
    LayerModSends(kc, pressed, c, s, mask);
    OnIs(s, (kc >> 5) & 0xF, mask);
    OffIs(s, (kc >> 5) & 0xF, mask);
  }

  /** KC_NO and KC_TRNS do nothing by themselves; the latter compiles to the transparent action. */
  lemma NoKeys(kc: Code, pressed: bool, c: Context, s: State, mask: Layers)
    requires kc <= 3
    ensures Execute(Compile(kc), pressed, c, s, mask) == Effect(s, [])
    ensures Compile(kc) == if kc == 1 then 1 else 0
  {
  }

  // ---------- OSL ----------

  /** oneshot_layer_data of layer n in the given phase. */
  function Pending(n: Code, phase: Code): Code { (n << 3) | phase }

  /** The layer is on, and n is pending in the given phase. */
  function Waiting(s: State, n: Code, phase: Code, mask: Layers): State
    requires n < 32
  {
    With(s, On, n, mask).(oneshot := Pending(n, phase))
  }

  lemma OneshotSends(kc: Code, pressed: bool, c: Context, s: State, mask: Layers)
    requires 0x5280 <= kc <= 0x529F
    ensures kc & 0x1F < 32
    ensures After(kc, pressed, c, s, mask) == OneshotLayer(kc & 0x1F, pressed, c, s, mask)
  {
    LayerOpView(kc);
  }

  lemma PhasesOf(n: Code)
    requires n < 32
    ensures Pending(n, 3) & !1 & 0xFF == Pending(n, 2) && Pending(n, 2) & 7 == 2 && Pending(n, 3) & 7 == 3
    ensures Pending(n, 2) & !2 & 0xFF == n << 3 && (n << 3) & 7 == 0 && (n << 3) >> 3 == n
    ensures Pending(n, 1) & !1 & 0xFF == n << 3 && Pending(n, 1) != n << 3 && Pending(n, 2) != n << 3
    ensures Pending(n, 4) & 7 == 4
  {
  }

  lemma ClearsPressed(s: State, n: Code, mask: Layers)
    requires n < 32
    ensures s.oneshot == Pending(n, 3) ==> ClearOneshot(s, 1, mask) == s.(oneshot := Pending(n, 2))
    ensures s.oneshot == Pending(n, 1) ==> ClearOneshot(s, 1, mask) == With(s, Off, n, mask).(oneshot := 0)
  {
    PhasesOf(n);
    OffIs(s, n, mask);
  }

  lemma ClearsOther(s: State, n: Code, mask: Layers)
    requires n < 32 && s.oneshot == Pending(n, 2)
    ensures ClearOneshot(s, 2, mask) == With(s, Off, n, mask).(oneshot := 0)
  {
    PhasesOf(n);
    OffIs(s, n, mask);
  }

  /** OSL() pressed: its layer goes on and waits for another key, unless the setting for taps
      says that it was left on for good, or is about to be. */
  lemma OneshotPressed(kc: Code, c: Context, s: State, mask: Layers)
    requires 0x5280 <= kc <= 0x529F && c.oneshotOn
    ensures kc & 0x1F < 32
    ensures var n, taps := kc & 0x1F, c.oneshotToggle > 1;
      After(kc, true, c, s, mask)
      == if taps && s.oneshot & 7 == 4 then With(s, Off, n, mask).(oneshot := 0)
         else if taps && c.tap >= c.oneshotToggle then s
         else Waiting(s, n, 3, mask)
  {
    OneshotSends(kc, true, c, s, mask);
    OnIs(s, kc & 0x1F, mask);
    OffIs(s.(oneshot := 0), kc & 0x1F, mask);
  }

  /** OSL() released while its layer waits. If another key came, or with two taps, the layer goes
      off; tapped as often as the setting says it is left on for good; else it waits on. */
  lemma OneshotReleased(kc: Code, c: Context, s: State, mask: Layers)
    requires 0x5280 <= kc <= 0x529F && c.oneshotOn
    requires s.oneshot == Pending(kc & 0x1F, 3) || s.oneshot == Pending(kc & 0x1F, 1)
    ensures kc & 0x1F < 32
    ensures var n, taps := kc & 0x1F, c.oneshotToggle > 1;
      After(kc, false, c, s, mask)
      == if taps && c.tap >= c.oneshotToggle then Waiting(s, n, 4, mask)
         else if s.oneshot == Pending(n, 1) then With(s, Off, n, mask).(oneshot := 0)
         else if !taps && c.tap > 1 then With(s, Off, n, mask).(oneshot := 0)
         else s.(oneshot := Pending(n, 2))
  {
    var n := kc & 0x1F;
    OneshotSends(kc, false, c, s, mask);
    OnIs(s, n, mask);
    ClearsPressed(s, n, mask);
    if s.oneshot == Pending(n, 3) {
      ClearsOther(s.(oneshot := Pending(n, 2)), n, mask);
    } else {
      NothingLeft(With(s, Off, n, mask).(oneshot := 0), mask);
    }
  }

  lemma NothingLeft(s: State, mask: Layers)
    requires s.oneshot == 0
    ensures ClearOneshot(s, 2, mask) == s
  {
  }
}
