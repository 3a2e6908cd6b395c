/** From keycode to packed 16-bit action code to effect: quantum/keymap_common.c compiles,
    quantum/action_code.h packs, quantum/action.c executes. Magic key swaps are off. */
module ActionCode {

  type Code = bv16
  type Layers = bv32

  // ---------- packing: the ACTION_* macros ----------

  const ACT_LMODS: Code := 0x0
  const ACT_RMODS: Code := 0x1
  const ACT_MODS_TAP: Code := 0x2
  const ACT_RMODS_TAP: Code := 0x3
  const ACT_MOUSEKEY: Code := 0x5
  const ACT_LAYER: Code := 0x8
  const ACT_LAYER_MODS: Code := 0x9
  const ACT_LAYER_TAP: Code := 0xA
  const ACT_LAYER_TAP_EXT: Code := 0xB

  const ON_PRESS: Code := 1
  const ON_RELEASE: Code := 2

  const OP_BIT_AND: Code := 0
  const OP_BIT_OR: Code := 1
  const OP_BIT_XOR: Code := 2
  const OP_BIT_SET: Code := 3

  const OP_TAP_TOGGLE: Code := 0xF0
  const OP_ON_OFF: Code := 0xF1
  const OP_OFF_ON: Code := 0xF2
  const OP_SET_CLEAR: Code := 0xF3
  const OP_ONESHOT: Code := 0xF4

  function Action(kind: Code, param: Code): Code { (kind << 12) | param }

  function LayerBitop(op: Code, part: Code, bits: Code, on: Code): Code {
    Action(ACT_LAYER, (op << 10) | (on << 8) | (part << 5) | (bits & 0x1F))
  }

  /** 1 << (layer % 4), the bit of a layer in its 4-bit part */
  function PartBit(layer: Code): Code { 1 << (layer & 3) }

  function LayerTap(layer: Code, key: Code): Code { Action(ACT_LAYER_TAP, (layer << 8) | key) }

  function LayerGoto(n: Code): Code { LayerBitop(OP_BIT_SET, n >> 2, PartBit(n), ON_PRESS) }
  function LayerToggle(n: Code): Code { LayerBitop(OP_BIT_XOR, n >> 2, PartBit(n), ON_RELEASE) }
  function DefaultLayerSet(n: Code): Code { LayerBitop(OP_BIT_SET, n >> 2, PartBit(n), 0) }
  function LayerOnAction(n: Code, on: Code): Code { LayerBitop(OP_BIT_OR, n >> 2, PartBit(n), on) }
  function LayerOffAction(n: Code, on: Code): Code { LayerBitop(OP_BIT_AND, n >> 2, !PartBit(n), on) }

  // ---------- compiling: action_for_keycode ----------

  function Compile(kc: Code): Code {
    if 0x0004 <= kc <= 0x00A4 || 0x00E0 <= kc <= 0x00E7 then Action(ACT_LMODS, kc)
    else if kc == 0x0001 then 1
    else if 0x00CD <= kc <= 0x00DF then Action(ACT_MOUSEKEY, kc)
    else if 0x0100 <= kc <= 0x1FFF then Action(ACT_LMODS, (((kc >> 8) & 0x1F) << 8) | (kc & 0xFF))
    else if 0x4000 <= kc <= 0x4FFF then LayerTap((kc >> 8) & 0xF, kc & 0xFF)
    else if 0x5200 <= kc <= 0x521F then LayerGoto(kc & 0x1F)
    else if 0x5220 <= kc <= 0x523F then LayerTap(kc & 0x1F, OP_ON_OFF)
    else if 0x5240 <= kc <= 0x525F then DefaultLayerSet(kc & 0x1F)
    else if 0x5260 <= kc <= 0x527F then LayerToggle(kc & 0x1F)
    else if 0x5280 <= kc <= 0x529F then LayerTap(kc & 0x1F, OP_ONESHOT)
    else if 0x52A0 <= kc <= 0x52BF then Action(ACT_MODS_TAP, (kc & 0x1F) << 8)
    else if 0x52C0 <= kc <= 0x52DF then LayerTap(kc & 0x1F, OP_TAP_TOGGLE)
    else if 0x5000 <= kc <= 0x51FF then
      var mod := kc & 0x1F;
      Action(ACT_LAYER_MODS, (((kc >> 5) & 0xF) << 8) | (if mod & 0x10 != 0 then mod << 4 else mod))
    else if 0x2000 <= kc <= 0x3FFF then Action(ACT_MODS_TAP, (((kc >> 8) & 0x1F) << 8) | (kc & 0xFF))
    else 0
  }

  // ---------- executing: process_action ----------

  /** The layer state, the default layers, and oneshot_layer_data. */
  datatype State = State(layers: Layers, defaults: Layers, oneshot: Code)

  /** What else process_action looks at: the tap count of the record, the settings for
      tap-toggle and one-shot keys, and the modifiers that are down, one-shot or locked. */
  datatype Context = Context(
    tap: nat, toggle: nat,
    oneshotOn: bool, oneshotToggle: nat,
    realMods: Code, oneshotMods: Code, lockedMods: Code)

  /** A change of the report or of the one-shot modifiers; calls that change nothing are none. */
  datatype Output =
    | KeyDown(code: Code)
    | KeyUp(code: Code)
    | AddMods(mods: Code, weak: bool)
    | DelMods(mods: Code, weak: bool)
    | AddOneshot(mods: Code)
    | DelOneshot(mods: Code)
    | AddLocked(mods: Code)
    | DelLocked(mods: Code)

  datatype Effect = Effect(state: State, outputs: seq<Output>)

  predicate IsModifier(code: Code) { 0xE0 <= code <= 0xE7 }

  /** register_code and unregister_code do nothing for other codes. */
  predicate Registers(code: Code) {
    0x04 <= code <= 0xA4 || 0xCD <= code <= 0xDF || IsModifier(code)
  }

  function Press(code: Code): seq<Output> { if Registers(code) then [KeyDown(code)] else [] }
  function Release(code: Code): seq<Output> { if Registers(code) then [KeyUp(code)] else [] }

  /** register_mods and unregister_mods */
  function ModsDown(mods: Code): seq<Output> { if mods != 0 then [AddMods(mods, false)] else [] }
  function ModsUp(mods: Code): seq<Output> { if mods != 0 then [DelMods(mods, false)] else [] }

  function LayerBit(n: Code): Layers
    requires n < 32
  {
    (1 as bv32) << n
  }

  /** layer_move */
  function LayerMove(s: State, n: Code, mask: Layers): State
    requires n < 32
  {
    s.(layers := LayerBit(n) & mask)
  }

  /** layer_on */
  function LayerOn(s: State, n: Code, mask: Layers): State
    requires n < 32
  {
    s.(layers := (s.layers | LayerBit(n)) & mask)
  }

  /** layer_off */
  function LayerOff(s: State, n: Code, mask: Layers): State
    requires n < 32
  {
    s.(layers := (s.layers & !LayerBit(n)) & mask)
  }

  /** layer_invert */
  function LayerInvert(s: State, n: Code, mask: Layers): State
    requires n < 32
  {
    s.(layers := (s.layers ^ LayerBit(n)) & mask)
  }

  /** default_layer_set */
  function DefaultSet(s: State, n: Code, mask: Layers): State
    requires n < 32
  {
    s.(defaults := LayerBit(n) & mask)
  }

  /** The operand of a bitwise layer operation, as an action code packs it. */
  function Operand(a: Code): Layers {
    var shift := ((a >> 5) & 7) << 2;
    var bits := ((a & 0xF) as bv32) << shift;
    bits | if (a >> 4) & 1 != 0 then !((0xF as bv32) << shift) else 0
  }

  /** One bitwise operation on a layer state. */
  function Bitop(state: Layers, a: Code, mask: Layers): Layers {
    var op := (a >> 10) & 3;
    (if op == OP_BIT_AND then state & Operand(a)
     else if op == OP_BIT_OR then state | Operand(a)
     else if op == OP_BIT_XOR then state ^ Operand(a)
     else Operand(a)) & mask
  }

  /** Modifiers and key of an ACT_LMODS or ACT_RMODS action. */
  function KeyOutputs(mods: Code, code: Code, pressed: bool): seq<Output> {
    var weak := !(IsModifier(code) || code == 0);
    if pressed then (if mods != 0 then [AddMods(mods, weak)] else []) + Press(code)
    else Release(code) + if mods != 0 then [DelMods(mods, weak)] else []
  }

  /** The dual-role part: the key on a tap, the modifiers on a hold. */
  function ModTapOutputs(mods: Code, code: Code, pressed: bool, tapped: bool): seq<Output> {
    if pressed then (if tapped then Press(code) else ModsDown(mods))
    else (if tapped then Release(code) else ModsUp(mods))
  }

  // ---------- one-shot keys ----------

  /** How a key's modifiers meet those that are down, one-shot or locked. */
  datatype Met = Met(down: bool, oneshot: bool, allOneshot: bool, locked: bool, allLocked: bool)

  function Meets(mods: Code, c: Context): Met {
    Met(mods & c.realMods != 0, c.oneshotMods & mods != 0, c.oneshotMods & mods == mods,
        c.lockedMods & mods != 0, c.lockedMods & mods == mods)
  }

  /** The MODS_ONESHOT branch. */
  function OneshotMods(mods: Code, pressed: bool, c: Context): seq<Output> {
    OneshotBranch(mods, Meets(mods, c), pressed, c.oneshotOn, c.tap, c.oneshotToggle)
  }

  function OneshotBranch(mods: Code, m: Met, pressed: bool, on: bool, tap: nat, toggle: nat): seq<Output> {
    if !on then (if pressed then ModsDown(mods) else ModsUp(mods))
    else if pressed then
      if tap == 0 then ModsDown(mods)
      else if tap == 1 then (if m.allOneshot then [] else [AddOneshot(mods)])
      else if toggle > 1 && tap == toggle then
        ModsDown(mods) + (if m.oneshot then [DelOneshot(mods)] else [])
          + (if m.allLocked then [] else [AddLocked(mods)])
      else []
    else if tap == 0 || (toggle > 1 && tap == 1 && m.down) then
      ModsUp(mods) + (if m.oneshot then [DelOneshot(mods)] else []) + (if m.locked then [DelLocked(mods)] else [])
    else []
  }

  /** The MODS_TAP_TOGGLE branch. */
  function TapToggleMods(mods: Code, pressed: bool, c: Context): seq<Output> {
    if pressed then (if c.tap <= c.toggle then ModsDown(mods) else [])
    else (if c.tap < c.toggle then ModsUp(mods) else [])
  }

  const ONESHOT_PRESSED: Code := 1
  const ONESHOT_OTHER_KEY_PRESSED: Code := 2
  const ONESHOT_START: Code := 3
  const ONESHOT_TOGGLED: Code := 4

  /** set_oneshot_layer with one-shot keys enabled */
  function SetOneshot(s: State, n: Code, phase: Code, mask: Layers): State
    requires n < 32
  {
    LayerOn(s, n, mask).(oneshot := (n << 3) | phase)
  }

  /** clear_oneshot_layer_state with one-shot keys enabled */
  function ClearOneshot(s: State, phase: Code, mask: Layers): State {
    var data := s.oneshot & !phase & 0xFF;
    var layer := data >> 3;
    if data & 7 == 0 && data != s.oneshot then LayerOff(s, layer, mask).(oneshot := 0)
    else s.(oneshot := data)
  }

  /** The OP_ONESHOT branch. */
  function OneshotLayer(n: Code, pressed: bool, c: Context, s: State, mask: Layers): State
    requires n < 32
  {
    if !c.oneshotOn then (if pressed then LayerOn(s, n, mask) else LayerOff(s, n, mask))
    else if c.oneshotToggle > 1 then
      if pressed then
        if s.oneshot & 7 == ONESHOT_TOGGLED then LayerOff(s.(oneshot := 0), n, mask)
        else if c.tap < c.oneshotToggle then SetOneshot(s, n, ONESHOT_START, mask)
        else s
      else if c.tap >= c.oneshotToggle then SetOneshot(s, n, ONESHOT_TOGGLED, mask)
      else ClearOneshot(s, ONESHOT_PRESSED, mask)
    else if pressed then SetOneshot(s, n, ONESHOT_START, mask)
    else
      var r := ClearOneshot(s, ONESHOT_PRESSED, mask);
      if c.tap > 1 then ClearOneshot(r, ONESHOT_OTHER_KEY_PRESSED, mask) else r
  }

  // ---------- the switch over action kinds ----------

  /** The bit-field views of an action code. */
  datatype View = View(kind: Code, code: Code, mods: Code, layer4: Code, layer5: Code, on: Code)

  function Decode(a: Code): View {
    var kind := a >> 12;
    View(kind, a & 0xFF, if kind & 1 == 0 then (a >> 8) & 0xF else ((a >> 8) & 0xF) << 4,
         (a >> 8) & 0xF, (a >> 8) & 0x1F, (a >> 8) & 3)
  }

  /** process_action */
  function Execute(a: Code, pressed: bool, c: Context, s: State, mask: Layers): Effect {
    Perform(Decode(a), a, pressed, c, s, mask)
  }

  function Perform(v: View, a: Code, pressed: bool, c: Context, s: State, mask: Layers): Effect {
    if v.kind == ACT_LMODS || v.kind == ACT_RMODS then
      Effect(s, KeyOutputs(v.mods, v.code, pressed))
    else if v.kind == ACT_MODS_TAP || v.kind == ACT_RMODS_TAP then
      Effect(s, if v.code == 0 then OneshotMods(v.mods, pressed, c)
                else if v.code == 1 then TapToggleMods(v.mods, pressed, c)
                else ModTapOutputs(v.mods, v.code, pressed, c.tap > 0))
    else if v.kind == ACT_LAYER then
      Effect(if v.on == 0 then (if pressed then s else s.(defaults := Bitop(s.defaults, a, mask)))
             else if v.on & (if pressed then ON_PRESS else ON_RELEASE) != 0 then s.(layers := Bitop(s.layers, a, mask))
             else s, [])
    else if v.kind == ACT_LAYER_MODS && v.layer4 < 32 then
      LayerMods(v.layer4, v.code, pressed, s, mask)
    else if (v.kind == ACT_LAYER_TAP || v.kind == ACT_LAYER_TAP_EXT) && v.layer5 < 32 then
      LayerTapEffect(v.layer5, v.code, pressed, c, s, mask)
    else if v.kind == ACT_MOUSEKEY then Effect(s, if pressed then Press(v.code) else Release(v.code))
    else Effect(s, [])
  }

  function LayerMods(layer: Code, mods: Code, pressed: bool, s: State, mask: Layers): Effect
    requires layer < 32
  {
    if pressed then Effect(LayerOn(s, layer, mask), ModsDown(mods))
    else Effect(LayerOff(s, layer, mask), ModsUp(mods))
  }

  predicate Inverts(pressed: bool, c: Context) { if pressed then c.tap < c.toggle else c.tap <= c.toggle }

  /** The switch over the code of a layer-tap action. */
  function LayerTapEffect(n: Code, code: Code, pressed: bool, c: Context, s: State, mask: Layers): Effect
    requires n < 32
  {
    if code == OP_TAP_TOGGLE then Effect(if Inverts(pressed, c) then LayerInvert(s, n, mask) else s, [])
    else if code == OP_ON_OFF then Effect(if pressed then LayerOn(s, n, mask) else LayerOff(s, n, mask), [])
    else if code == OP_OFF_ON then Effect(if pressed then LayerOff(s, n, mask) else LayerOn(s, n, mask), [])
    else if code == OP_SET_CLEAR then Effect(if pressed then LayerMove(s, n, mask) else s.(layers := 0), [])
    else if code == OP_ONESHOT then Effect(OneshotLayer(n, pressed, c, s, mask), [])
    else HoldOrTap(n, code, pressed, c.tap > 0, s, mask)
  }

  function HoldOrTap(layer: Code, code: Code, pressed: bool, tapped: bool, s: State, mask: Layers): Effect
    requires layer < 32
  {
    if tapped then Effect(s, if pressed then Press(code) else Release(code))
    else Effect(if pressed then LayerOn(s, layer, mask) else LayerOff(s, layer, mask), [])
  }

  // ---------- what a keycode means ----------

  /** extract_mod_bits, from the 5 packed modifier bits */
  function ModBits(mods: Code): Code {
    var side := if mods & 0x10 != 0 then 4 else 0 as Code;
    (if mods & 1 != 0 then 1 << side else 0)
    | (if mods & 2 != 0 then 2 << side else 0)
    | (if mods & 4 != 0 then 4 << side else 0)
    | (if mods & 8 != 0 then 8 << side else 0)
  }

  /** The documented effect of a keycode, without action codes. */
  function Meaning(kc: Code, pressed: bool, c: Context, s: State, mask: Layers): Effect {
    var n, key := kc & 0x1F, kc & 0xFF;
    if 0x0004 <= kc <= 0x00A4 || 0x00CD <= kc <= 0x00E7 then
      Effect(s, if pressed then [KeyDown(kc)] else [KeyUp(kc)])
    else if 0x0100 <= kc <= 0x1FFF then Effect(s, KeyOutputs(ModBits(kc >> 8), key, pressed))
    else if 0x2000 <= kc <= 0x3FFF then Effect(s, ModTapOutputs(ModBits(kc >> 8), key, pressed, c.tap > 0))
    else if 0x4000 <= kc <= 0x4FFF then HoldOrTap((kc >> 8) & 0xF, key, pressed, c.tap > 0, s, mask)
    else if 0x5000 <= kc <= 0x51FF then
      var layer := (kc >> 5) & 0xF;
      LayerMods(layer, ModBits(n), pressed, s, mask)
    else if 0x5200 <= kc <= 0x521F then Effect(if pressed then LayerMove(s, n, mask) else s, [])
    else if 0x5220 <= kc <= 0x523F then Effect(if pressed then LayerOn(s, n, mask) else LayerOff(s, n, mask), [])
    else if 0x5240 <= kc <= 0x525F then Effect(if pressed then s else DefaultSet(s, n, mask), [])
    else if 0x5260 <= kc <= 0x527F then Effect(if pressed then s else LayerInvert(s, n, mask), [])
    else if 0x5280 <= kc <= 0x529F then Effect(OneshotLayer(n, pressed, c, s, mask), [])
    else if 0x52A0 <= kc <= 0x52BF then Effect(s, OneshotMods(ModBits(n), pressed, c))
    else if 0x52C0 <= kc <= 0x52DF then Effect(if Inverts(pressed, c) then LayerInvert(s, n, mask) else s, [])
    else Effect(s, [])
  }

  // ---------- one action code, one layer operation ----------

  /** The operand of the packed single-layer operations is the layer's bit. */
  lemma BitOperand(n: Code, on: Code)
    requires n < 32 && on < 4
    ensures Operand(LayerGoto(n)) == Operand(DefaultLayerSet(n)) == Operand(LayerToggle(n)) == LayerBit(n)
    ensures Operand(LayerOnAction(n, on)) == LayerBit(n)
  {
  }

  /** The inverted 4-bit part leaves the extra bit set, which extends the mask over all other
      parts. */
  lemma OffOperand(n: Code, on: Code)
    requires n < 32 && on < 4
    ensures Operand(LayerOffAction(n, on)) == !LayerBit(n)
  {
  }

  lemma GotoMoves(n: Code, state: Layers, mask: Layers)
    requires n < 32
    ensures Bitop(state, LayerGoto(n), mask) == LayerBit(n) & mask
  {
    BitOperand(n, 0);
  }

  lemma DefaultSets(n: Code, state: Layers, mask: Layers)
    requires n < 32
    ensures Bitop(state, DefaultLayerSet(n), mask) == LayerBit(n) & mask
  {
    BitOperand(n, 0);
  }

  lemma ToggleInverts(n: Code, state: Layers, mask: Layers)
    requires n < 32
    ensures Bitop(state, LayerToggle(n), mask) == (state ^ LayerBit(n)) & mask
  {
    BitOperand(n, 0);
  }

  lemma OnSets(n: Code, on: Code, state: Layers, mask: Layers)
    requires n < 32 && on < 4
    ensures Bitop(state, LayerOnAction(n, on), mask) == (state | LayerBit(n)) & mask
  {
    BitOperand(n, on);
  }

  lemma OffClears(n: Code, on: Code, state: Layers, mask: Layers)
    requires n < 32 && on < 4
    ensures Bitop(state, LayerOffAction(n, on), mask) == (state & !LayerBit(n)) & mask
  {
    OffOperand(n, on);
  }

  // ---------- what the packed code of each kind of key decodes to ----------

  lemma PlainKeyView(kc: Code)
    requires 0x0004 <= kc <= 0x00A4 || 0x00CD <= kc <= 0x00E7
    ensures var v := Decode(Compile(kc));
      v.kind == (if 0x00CD <= kc <= 0x00DF then ACT_MOUSEKEY else ACT_LMODS) && v.code == kc
      && (v.kind == ACT_LMODS ==> v.mods == 0)
  {
  }

  lemma ModifiedKeyCode(kc: Code)
    requires 0x0100 <= kc <= 0x1FFF
    ensures Compile(kc) == kc
  {
  }

  /** The fifth modifier bit falls into the kind, which moves the other four to the right-hand
      half of the modifier byte. */
  lemma KindMovesMods(a: Code)
    requires a <= 0x3FFF
    ensures Decode(a).mods == ModBits(a >> 8)
  {
  }

  lemma ModifiedKeyView(kc: Code)
    requires 0x0100 <= kc <= 0x1FFF
    ensures var v := Decode(Compile(kc));
      (v.kind == ACT_LMODS || v.kind == ACT_RMODS) && v.code == kc & 0xFF && v.mods == ModBits(kc >> 8)
  {
    ModifiedKeyCode(kc);
    KindMovesMods(kc);
  }

  lemma ModTapView(kc: Code)
    requires 0x2000 <= kc <= 0x3FFF
    ensures var v := Decode(Compile(kc));
      (v.kind == ACT_MODS_TAP || v.kind == ACT_RMODS_TAP) && v.code == kc & 0xFF && v.mods == ModBits(kc >> 8)
  {
  }

  lemma LayerTapView(kc: Code)
    requires 0x4000 <= kc <= 0x4FFF
    ensures var v := Decode(Compile(kc));
      v.kind == ACT_LAYER_TAP && v.code == kc & 0xFF && v.layer5 == (kc >> 8) & 0xF < 32
  {
  }

  lemma LayerModView(kc: Code)
    requires 0x5000 <= kc <= 0x51FF
    ensures var v := Decode(Compile(kc));
      && v.kind == ACT_LAYER_MODS && v.code == ModBits(kc & 0x1F)
      && v.layer4 == ((kc >> 5) & 0xF) | (if kc & 0x10 != 0 then 1 else 0) && v.layer4 < 32
  {
  }

  lemma LayerBitopView(kc: Code)
    requires 0x5200 <= kc <= 0x521F || 0x5240 <= kc <= 0x527F
    ensures var v := Decode(Compile(kc));
      v.kind == ACT_LAYER && v.on == if kc <= 0x521F then ON_PRESS else if kc <= 0x525F then 0 else ON_RELEASE
  {
  }

  lemma LayerOpView(kc: Code)
    requires 0x5220 <= kc <= 0x523F || 0x5280 <= kc <= 0x529F || 0x52C0 <= kc <= 0x52DF
    ensures var v := Decode(Compile(kc));
      && (v.kind == ACT_LAYER_TAP || v.kind == ACT_LAYER_TAP_EXT) && v.layer5 == kc & 0x1F < 32
      && v.code == if kc <= 0x523F then OP_ON_OFF else if kc <= 0x529F then OP_ONESHOT else OP_TAP_TOGGLE
  {
  }

  lemma OneshotModView(kc: Code)
    requires 0x52A0 <= kc <= 0x52BF
    ensures var v := Decode(Compile(kc));
      (v.kind == ACT_MODS_TAP || v.kind == ACT_RMODS_TAP) && v.code == 0 && v.mods == ModBits(kc & 0x1F)
  {
  }

  // ---------- compilation preserves meaning ----------

  lemma KeysPreserved(kc: Code, pressed: bool, c: Context, s: State, mask: Layers)
    requires 0x0004 <= kc <= 0x00A4 || 0x00CD <= kc <= 0x00E7 || 0x0100 <= kc <= 0x1FFF
    ensures Execute(Compile(kc), pressed, c, s, mask) == Meaning(kc, pressed, c, s, mask)
  {
    if kc < 0x0100 { PlainKeyView(kc); } else { ModifiedKeyView(kc); }
  }

  lemma GotoPreserved(kc: Code, pressed: bool, c: Context, s: State, mask: Layers)
    requires 0x5200 <= kc <= 0x521F
    ensures Execute(Compile(kc), pressed, c, s, mask) == Meaning(kc, pressed, c, s, mask)
  {
    LayerBitopView(kc);
    GotoCompiled(kc, s.layers, mask);
  }

  lemma DefaultPreserved(kc: Code, pressed: bool, c: Context, s: State, mask: Layers)
    requires 0x5240 <= kc <= 0x525F
    ensures Execute(Compile(kc), pressed, c, s, mask) == Meaning(kc, pressed, c, s, mask)
  {
    LayerBitopView(kc);
    DefaultCompiled(kc, s.defaults, mask);
  }

  lemma TogglePreserved(kc: Code, pressed: bool, c: Context, s: State, mask: Layers)
    requires 0x5260 <= kc <= 0x527F
    ensures Execute(Compile(kc), pressed, c, s, mask) == Meaning(kc, pressed, c, s, mask)
  {
    LayerBitopView(kc);
    ToggleCompiled(kc, s.layers, mask);
  }

  lemma LayerKeysPreserved(kc: Code, pressed: bool, c: Context, s: State, mask: Layers)
    requires 0x5200 <= kc <= 0x527F || 0x52C0 <= kc <= 0x52DF
    ensures Execute(Compile(kc), pressed, c, s, mask) == Meaning(kc, pressed, c, s, mask)
  {
    if kc <= 0x521F {
      GotoPreserved(kc, pressed, c, s, mask);
    } else if 0x5240 <= kc <= 0x525F {
      DefaultPreserved(kc, pressed, c, s, mask);
    } else if 0x5260 <= kc <= 0x527F {
      TogglePreserved(kc, pressed, c, s, mask);
    } else {
      LayerOpView(kc);
    }
  }

  lemma OneshotKeysPreserved(kc: Code, pressed: bool, c: Context, s: State, mask: Layers)
    requires 0x5280 <= kc <= 0x52BF
    ensures Execute(Compile(kc), pressed, c, s, mask) == Meaning(kc, pressed, c, s, mask)
  {
    if kc <= 0x529F { LayerOpView(kc); } else { OneshotModView(kc); }
  }

  lemma GotoCompiled(kc: Code, state: Layers, mask: Layers)
    requires 0x5200 <= kc <= 0x521F
    ensures kc & 0x1F < 32 && Bitop(state, Compile(kc), mask) == LayerBit(kc & 0x1F) & mask
  {
    assert Compile(kc) == LayerGoto(kc & 0x1F);
    GotoMoves(kc & 0x1F, state, mask);
  }

  lemma DefaultCompiled(kc: Code, state: Layers, mask: Layers)
    requires 0x5240 <= kc <= 0x525F
    ensures kc & 0x1F < 32 && Bitop(state, Compile(kc), mask) == LayerBit(kc & 0x1F) & mask
  {
    assert Compile(kc) == DefaultLayerSet(kc & 0x1F);
    DefaultSets(kc & 0x1F, state, mask);
  }

  lemma ToggleCompiled(kc: Code, state: Layers, mask: Layers)
    requires 0x5260 <= kc <= 0x527F
    ensures kc & 0x1F < 32 && Bitop(state, Compile(kc), mask) == (state ^ LayerBit(kc & 0x1F)) & mask
  {
    assert Compile(kc) == LayerToggle(kc & 0x1F);
    ToggleInverts(kc & 0x1F, state, mask);
  }

  /** When a layer-tap action with this code does what a dual-role layer key is to do. */
  predicate LayerTapAgrees(code: Code, pressed: bool, c: Context) {
    || code < OP_TAP_TOGGLE || code > OP_ONESHOT
    || (code == OP_TAP_TOGGLE && c.tap > 0 && !Inverts(pressed, c))
    || (code == OP_ON_OFF && c.tap == 0)
    || (code == OP_ONESHOT && c.tap == 0 && !c.oneshotOn)
  }

  const ALL: Layers := 0xFFFF_FFFF

  /** A state in which a disagreeing layer-tap action goes wrong. */
  function Witness(n: Code, code: Code, pressed: bool, c: Context): State
    requires n < 32
  {
    if code == OP_ONESHOT then
      (if !c.oneshotOn then State(if pressed then 0 else ALL, 0, 0)
       else if pressed then
         State(ALL, 0, if c.tap < c.oneshotToggle || c.oneshotToggle <= 1 then 0 else ONESHOT_TOGGLED)
       else State(0, 0, if c.oneshotToggle > 1 && c.tap >= c.oneshotToggle then 0 else (n << 3) | ONESHOT_PRESSED))
    else if code == OP_TAP_TOGGLE then State(if pressed == Inverts(pressed, c) then ALL else 0, 0, 0)
    else if code == OP_SET_CLEAR then State(ALL, 0, 0)
    else State(if pressed == (code == OP_ON_OFF) then 0 else ALL, 0, 0)
  }

  lemma BitsDiffer(n: Code)
    requires n < 32
    ensures LayerBit(n) != 0 && LayerBit(n) != ALL
    ensures (ALL ^ LayerBit(n)) & ALL != ALL && (ALL & !LayerBit(n)) & ALL != ALL && (ALL & !LayerBit(n)) & ALL != 0
    ensures (0 ^ LayerBit(n)) & ALL != 0 && (0 | LayerBit(n)) & ALL != 0 && (ALL | LayerBit(n)) & ALL == ALL
  {
  }

  lemma WitnessDiffers(n: Code, code: Code, pressed: bool, c: Context)
    requires n < 32 && !LayerTapAgrees(code, pressed, c)
    ensures LayerTapEffect(n, code, pressed, c, Witness(n, code, pressed, c), ALL).state
         != HoldOrTap(n, code, pressed, c.tap > 0, Witness(n, code, pressed, c), ALL).state
  {
    BitsDiffer(n);
  }

  /** A dual-role layer key, for the effect on the layers in every state. */
  ghost predicate SameForAllStates(kc: Code, pressed: bool, c: Context) {
    forall s: State :: Execute(Compile(kc), pressed, c, s, ALL) == Meaning(kc, pressed, c, s, ALL)
  }

  /** A dual-role layer key keeps its meaning in all states exactly when its tap key is not one
      of the five codes that mark layer operations, or the operation happens to agree. */
  lemma LayerTapPreserved(kc: Code, pressed: bool, c: Context)
    requires 0x4000 <= kc <= 0x4FFF
    ensures SameForAllStates(kc, pressed, c) <==> LayerTapAgrees(kc & 0xFF, pressed, c)
  {
    LayerTapView(kc);
    var n, code := (kc >> 8) & 0xF, kc & 0xFF;
    forall s: State
      ensures Execute(Compile(kc), pressed, c, s, ALL) == LayerTapEffect(n, code, pressed, c, s, ALL)
      ensures Meaning(kc, pressed, c, s, ALL) == HoldOrTap(n, code, pressed, c.tap > 0, s, ALL)
    {
      LayerTapShape(kc, pressed, c, s, ALL);
    }
    if LayerTapAgrees(code, pressed, c) {
      forall s: State
        ensures LayerTapEffect(n, code, pressed, c, s, ALL) == HoldOrTap(n, code, pressed, c.tap > 0, s, ALL) {
        AgreeingSame(n, code, pressed, c, s, ALL);
      }
    } else {
      WitnessDiffers(n, code, pressed, c);
    }
  }

  lemma LayerTapShape(kc: Code, pressed: bool, c: Context, s: State, mask: Layers)
    requires 0x4000 <= kc <= 0x4FFF
    ensures (kc >> 8) & 0xF < 32
    ensures Execute(Compile(kc), pressed, c, s, mask) == LayerTapEffect((kc >> 8) & 0xF, kc & 0xFF, pressed, c, s, mask)
    ensures Meaning(kc, pressed, c, s, mask) == HoldOrTap((kc >> 8) & 0xF, kc & 0xFF, pressed, c.tap > 0, s, mask)
  {
    LayerTapView(kc);
  }

  /** No code of a layer operation is a key, so tapping it sends nothing. */
  lemma AgreeingSame(n: Code, code: Code, pressed: bool, c: Context, s: State, mask: Layers)
    requires n < 32 && LayerTapAgrees(code, pressed, c)
    ensures LayerTapEffect(n, code, pressed, c, s, mask) == HoldOrTap(n, code, pressed, c.tap > 0, s, mask)
  {
  }

  /** When the one-shot branch does what a dual-role modifier key with no tap key is to do:
      without a tap there is nothing left to drop, and on a tap nothing happens. */
  predicate OneshotAgrees(mods: Code, m: Met, pressed: bool, c: Context) {
    if !c.oneshotOn then c.tap == 0 || mods == 0
    else if c.tap == 0 then pressed || (!m.oneshot && !m.locked)
    else if !pressed then !(c.oneshotToggle > 1 && c.tap == 1 && m.down)
    else if c.tap == 1 then m.allOneshot
    else mods == 0 || !(c.oneshotToggle > 1 && c.tap == c.oneshotToggle)
  }

  /** When a tap-toggle modifier does what a hold would, or nothing on a tap. */
  predicate TapToggleAgrees(mods: Code, pressed: bool, c: Context) {
    mods == 0 || ((c.tap == 0) == if pressed then c.tap <= c.toggle else c.tap < c.toggle)
  }

  lemma NoModsMeet(c: Context)
    ensures Meets(0, c) == Met(false, false, true, false, true)
  {
  }

  lemma BranchSame(mods: Code, m: Met, pressed: bool, c: Context)
    requires mods == 0 ==> m == Met(false, false, true, false, true)
    ensures OneshotBranch(mods, m, pressed, c.oneshotOn, c.tap, c.oneshotToggle)
         == ModTapOutputs(mods, 0, pressed, c.tap > 0)
       <==> OneshotAgrees(mods, m, pressed, c)
  {
  }

  lemma OneshotSame(mods: Code, pressed: bool, c: Context)
    ensures OneshotMods(mods, pressed, c) == ModTapOutputs(mods, 0, pressed, c.tap > 0)
       <==> OneshotAgrees(mods, Meets(mods, c), pressed, c)
  {
    NoModsMeet(c);
    BranchSame(mods, Meets(mods, c), pressed, c);
  }

  lemma TapToggleSame(mods: Code, pressed: bool, c: Context)
    ensures TapToggleMods(mods, pressed, c) == ModTapOutputs(mods, 1, pressed, c.tap > 0)
       <==> TapToggleAgrees(mods, pressed, c)
  {
  }

  /** A dual-role modifier key keeps its meaning exactly when its tap key is not one of the two
      codes that mark one-shot and tap-toggle modifiers, or their branch happens to agree. */
  lemma ModTapPreserved(kc: Code, pressed: bool, c: Context, s: State, mask: Layers)
    requires 0x2000 <= kc <= 0x3FFF
    ensures Execute(Compile(kc), pressed, c, s, mask) == Meaning(kc, pressed, c, s, mask)
       <==> || kc & 0xFF > 1
            || (kc & 0xFF == 0 && OneshotAgrees(ModBits(kc >> 8), Meets(ModBits(kc >> 8), c), pressed, c))
            || (kc & 0xFF == 1 && TapToggleAgrees(ModBits(kc >> 8), pressed, c))
  {
    ModTapView(kc);
    OneshotSame(ModBits(kc >> 8), pressed, c);
    TapToggleSame(ModBits(kc >> 8), pressed, c);
  }

  /** LM(layer, mods): right-hand modifiers spill into the lowest layer bit, so the key keeps
      its meaning in all states exactly when the modifiers are left-hand ones or the layer is
      odd. */
  lemma LayerModPreserved(kc: Code, pressed: bool, c: Context, s: State, mask: Layers)
    requires 0x5000 <= kc <= 0x51FF
    ensures var layer := (kc >> 5) & 0xF;
      Execute(Compile(kc), pressed, c, s, mask)
      == LayerMods(if kc & 0x10 != 0 then layer | 1 else layer, ModBits(kc & 0x1F), pressed, s, mask)
    ensures SameForAllStates(kc, pressed, c) <==> kc & 0x10 == 0 || kc & 0x20 != 0
  {
    LayerModView(kc);
    if kc & 0x10 != 0 && kc & 0x20 == 0 {
      SpilledLayerDiffers(kc);
      var t := State(if pressed then 0 else ALL, 0, 0);
      assert Execute(Compile(kc), pressed, c, t, ALL) != Meaning(kc, pressed, c, t, ALL);
    }
  }

  lemma SpilledLayerDiffers(kc: Code)
    requires kc & 0x20 == 0
    ensures var layer := (kc >> 5) & 0xF;
      && layer | 1 < 32
      && LayerOn(State(0, 0, 0), layer | 1, ALL) != LayerOn(State(0, 0, 0), layer, ALL)
      && LayerOff(State(ALL, 0, 0), layer | 1, ALL) != LayerOff(State(ALL, 0, 0), layer, ALL)
  {
  }
}
