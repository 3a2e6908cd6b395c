/** Layer resolution and the bit-sliced source-layer cache of quantum/action_layer.c. */
module LayerCache {
  import opened Basics

  /** 16-bit action codes; 1 is ACTION_TRANSPARENT. */
  type Action = a: int | 0 <= a < 0x1_0000

  const TRANSPARENT: Action := 1

  /** The fake row for arbitrary keycodes is never cached. */
  const VIAL_MATRIX_MAGIC := 240
  const KEYLOC_ENCODER_CW := 253
  const KEYLOC_ENCODER_CCW := 252

  type Layer = nat
  type LayerState = bv32

  /** layers & ((layer_state_t)1 << k) */
  predicate LayerOn(layers: LayerState, k: nat)
    requires k < 32
  {
    layers & ((1 as bv32) << k) != 0
  }

  // ---------- bits of a cache byte ----------

  /** 1 << k */
  function Mask(k: nat): bv8
    requires k < 8
  {
    if k == 0 then 1 else if k == 1 then 2 else if k == 2 then 4 else if k == 3 then 8
    else if k == 4 then 16 else if k == 5 then 32 else if k == 6 then 64 else 128
  }

  predicate On(x: bv8, k: nat)
    requires k < 8
  {
    x & Mask(k) != 0
  }

  /** The update expression of the cache: bit s becomes `on`, all others stay. */
  function Merge(c: bv8, s: nat, on: bool): bv8
    requires s < 8
  {
    c ^ (((if on then 0xFF else 0) ^ c) & Mask(s))
  }

  lemma MergeMasked(c: bv8, on: bool, m: bv8, n: bv8)
    requires m & n == 0 || (m == n && m != 0)
    ensures (c ^ (((if on then 0xFF else 0) ^ c) & m)) & n != 0 <==> if m & n == 0 then c & n != 0 else on
  {
  }

  lemma MasksApart(s: nat, k: nat)
    requires s < 8 && k < 8
    ensures Mask(s) & Mask(k) == if s == k then Mask(s) else 0
    ensures Mask(s) != 0
  {
  }

  lemma MergeSetsOneBit(c: bv8, s: nat, on: bool, k: nat)
    requires s < 8 && k < 8
    ensures On(Merge(c, s, on), k) == if k == s then on else On(c, k)
  {
    var m, n := Mask(s), Mask(k);
    MasksApart(s, k);
    MergeMasked(c, on, m, n);
  }

  lemma ZeroIsOff(k: nat)
    requires k < 8
    ensures !On(0, k)
  {
  }

  // ---------- bits of a layer number ----------

  function Pow2(b: nat): (p: nat)
    ensures p > 0
  {
    if b == 0 then 1 else 2 * Pow2(b - 1)
  }

  /** (layer & (1U << b)) != 0 */
  predicate Bit(layer: Layer, b: nat) { layer / Pow2(b) % 2 == 1 }

  lemma HalfQuotient(q: nat, p: nat)
    ensures q * p == (q / 2) * (2 * p) + if q % 2 == 1 then p else 0
  {
    var h := q / 2;
    assert h * (2 * p) == 2 * h * p;
    if q % 2 == 1 { assert q == 2 * h + 1; } else { assert q == 2 * h; }
  }

  lemma LowPart(x: nat, p: nat)
    requires p > 0
    ensures x % (2 * p) == x % p + if x / p % 2 == 1 then p else 0
  {
    var q, r := x / p, x % p;
    assert x == q * p + r;
    HalfQuotient(q, p);
    Remainder(x, 2 * p, q / 2, (if q % 2 == 1 then p else 0) + r);
  }

  lemma LowBits(layer: Layer, b: nat)
    ensures layer % Pow2(b + 1) == layer % Pow2(b) + if Bit(layer, b) then Pow2(b) else 0
  {
    LowPart(layer, Pow2(b));
  }

  lemma ZeroHasNoBits(b: nat)
    ensures !Bit(0, b)
  {
  }

  // ---------- key positions as entry numbers ----------

  function Entry(key: KeyPos, cols: nat): nat { key.row * cols + key.col }

  lemma RowsBelow(x: nat, y: nat, cols: nat)
    requires x < y
    ensures x * cols + cols <= y * cols
  {
    assert y * cols == x * cols + (y - x) * cols;
    AtLeastOnce(cols, y - x);
  }

  lemma EntryInRange(key: KeyPos, rows: nat, cols: nat)
    requires key.row < rows && key.col < cols
    ensures Entry(key, cols) < rows * cols
  {
    RowsBelow(key.row, rows, cols);
  }

  lemma EntriesDiffer(a: KeyPos, b: KeyPos, cols: nat)
    requires a.col < cols && b.col < cols && a != b
    ensures Entry(a, cols) != Entry(b, cols)
  {
    if a.row < b.row {
      RowsBelow(a.row, b.row, cols);
    } else if b.row < a.row {
      RowsBelow(b.row, a.row, cols);
    }
  }

  // ---------- the specification: a plain map ----------

  /** Where the layer of a key is remembered: the two directions of an encoder share a place. */
  datatype Place = Nowhere | OfKey(key: KeyPos) | OfEncoder(id: nat)

  /** What can happen to the keyboard: any layer change, the cache going off and on, and the two
      clients of the cache: store_or_get_action and get_event_keycode. */
  datatype Command =
    | Layers(state: LayerState)
    | Defaults(state: LayerState)
    | Disable(off: bool)
    | GetAction(key: KeyPos, pressed: bool)
    | GetKeycode(key: KeyPos, pressed: bool, update: bool)

  /** The layer of the last recorded press at each place, the layer state, the default layers,
      and whether the cache is off. */
  datatype State = State(source: map<Place, Layer>, layers: LayerState, defaults: LayerState, disabled: bool)

  /** A fixed keyboard: matrix size, number of encoders (if they have keymaps) and of layers,
      the keycode of each key on each layer, and what keycodes compile to. */
  datatype Board = Board(
    rows: nat,
    cols: nat,
    encoderMap: bool,
    encoders: nat,
    layerCount: nat,
    keycode: (Layer, KeyPos) -> Keycode,
    compile: Keycode -> Action)
  {
    predicate Valid() { layerCount <= 32 }

    function PlaceOf(key: KeyPos): Place {
      if key.row == VIAL_MATRIX_MAGIC then Nowhere
      else if key.row < rows && key.col < cols then OfKey(key)
      else if encoderMap && (key.row == KEYLOC_ENCODER_CW || key.row == KEYLOC_ENCODER_CCW) then OfEncoder(key.col)
      else Nowhere
    }

    /** action_for_key */
    function ActionAt(l: Layer, key: KeyPos): Action { compile(keycode(l, key)) }

    /** The highest layer below n that is on and not transparent for the key, else layer 0. */
    function TopLayer(layers: LayerState, key: KeyPos, n: nat): (l: Layer)
      requires n <= 32
      ensures l < n || l == 0
    {
      if n == 0 then 0
      else if LayerOn(layers, n - 1) && ActionAt(n - 1, key) != TRANSPARENT then n - 1
      else TopLayer(layers, key, n - 1)
    }

    function Resolve(s: State, key: KeyPos): (l: Layer)
      requires Valid()
      ensures l < layerCount || l == 0
    {
      TopLayer(s.layers | s.defaults, key, layerCount)
    }

    function Remember(s: State, key: KeyPos, l: Layer): State {
      if PlaceOf(key) != Nowhere then s.(source := s.source[PlaceOf(key) := l]) else s
    }

    function RecallAt(s: State, place: Place): Layer {
      if place != Nowhere && place in s.source then s.source[place] else 0
    }

    function Recall(s: State, key: KeyPos): Layer { RecallAt(s, PlaceOf(key)) }

    /** A client of the cache: `records` if it may record the layer of a press. */
    function Client(s: State, key: KeyPos, records: bool): State
      requires Valid()
    {
      if records && !s.disabled then Remember(s, key, Resolve(s, key)) else s
    }

    /** The layer such a client looks at. */
    function LayerOf(s: State, key: KeyPos, records: bool): Layer
      requires Valid()
    {
      if records || s.disabled then Resolve(s, key) else Recall(s, key)
    }

    function Step(s: State, c: Command): State
      requires Valid()
    {
      match c
      case Layers(state) => s.(layers := state)
      case Defaults(state) => s.(defaults := state)
      case Disable(off) => s.(disabled := off)
      case GetAction(key, pressed) => Client(s, key, pressed)
      case GetKeycode(key, pressed, update) => Client(s, key, pressed && update)
    }

    /** The action that store_or_get_action picks. */
    function ActionOf(s: State, key: KeyPos, pressed: bool): Action
      requires Valid()
    {
      ActionAt(LayerOf(s, key, pressed), key)
    }

    /** The keycode that get_event_keycode picks. */
    function KeycodeOf(s: State, key: KeyPos, pressed: bool, update: bool): Keycode
      requires Valid()
    {
      keycode(LayerOf(s, key, pressed && update), key)
    }

    function Run(s: State, cs: seq<Command>): State
      requires Valid()
    {
      if cs == [] then s else Step(Run(s, cs[..|cs| - 1]), cs[|cs| - 1])
    }

    /** The command records the layer of this key, if the cache is on. */
    predicate Records(c: Command, key: KeyPos) {
      c == GetAction(key, true) || c == GetKeycode(key, true, true)
    }

    /** The command records no layer at the place of the key. */
    predicate Spares(c: Command, key: KeyPos) {
      (c.GetAction? || c.GetKeycode?) && PlaceOf(c.key) == PlaceOf(key) ==> !Records(c, c.key)
    }

    predicate NoneRecords(cs: seq<Command>, key: KeyPos) {
      forall i :: 0 <= i < |cs| ==> Spares(cs[i], key)
    }
  }

  lemma StepStable(board: Board, s: State, c: Command, key: KeyPos)
    requires board.Valid() && board.Spares(c, key)
    ensures board.Recall(board.Step(s, c), key) == board.Recall(s, key)
  {
  }

  lemma {:induction false} SourceStable(board: Board, s: State, cs: seq<Command>, key: KeyPos)
    requires board.Valid() && board.NoneRecords(cs, key)
    ensures board.Recall(board.Run(s, cs), key) == board.Recall(s, key)
  {
    if cs != [] {
      var past := cs[..|cs| - 1];
      SourceStable(board, s, past, key);
      StepStable(board, board.Run(s, past), cs[|cs| - 1], key);
    }
  }

  /** Keys of the matrix have a place of their own, and the two directions of an encoder one
      together; row 240, which stands for arbitrary keycodes, and all other rows have none. */
  lemma PlacesOfKeys(board: Board, a: KeyPos, b: KeyPos)
    ensures board.PlaceOf(a) != Nowhere
       <==> a.row != 240 && ((a.row < board.rows && a.col < board.cols) || (board.encoderMap && 252 <= a.row <= 253))
    ensures board.PlaceOf(a) == board.PlaceOf(b) && board.PlaceOf(a) != Nowhere && a != b
        ==> {a.row, b.row} == {252, 253} && a.col == b.col
    ensures board.encoderMap && {a.row, b.row} == {252, 253} && a.col == b.col && board.rows < 240
        ==> board.PlaceOf(a) == board.PlaceOf(b)
  {
  }

  /** What the cache recalls is the layer of the last press recorded at the place of the key,
      whichever client recorded it and whatever layer changes, other keys, releases and spells
      without the cache came after; a key without a place stays at layer 0. */
  lemma {:induction false} LastPressRecalled(board: Board, s: State, press: Command, pressed: KeyPos,
                                             cs: seq<Command>, key: KeyPos)
    requires board.Valid() && board.NoneRecords(cs, key)
    requires board.Records(press, pressed) && board.PlaceOf(pressed) == board.PlaceOf(key) && !s.disabled
    ensures board.Recall(board.Run(board.Step(s, press), cs), key)
         == if board.PlaceOf(key) == Nowhere then 0 else board.Resolve(s, pressed)
  {
    SourceStable(board, board.Step(s, press), cs, key);
  }

  /** A key's release triggers the action its last recorded press triggered. For a key without
      a place that holds exactly when layer 0 gives the action of the press as well; while the
      cache is off, exactly when the key resolves to that action afresh. */
  lemma {:induction false} ReleaseMatchesPress(board: Board, s: State, press: Command, cs: seq<Command>, key: KeyPos)
    requires board.Valid() && board.NoneRecords(cs, key) && board.Records(press, key) && !s.disabled
    ensures var t := board.Run(board.Step(s, press), cs);
      board.ActionOf(t, key, false) == board.ActionOf(s, key, true)
      <==>
      if t.disabled then board.ActionOf(t, key, true) == board.ActionOf(s, key, true)
      else board.PlaceOf(key) != Nowhere || board.ActionAt(0, key) == board.ActionOf(s, key, true)
  {
    LastPressRecalled(board, s, press, key, cs, key);
  }

  /** The keycode that anything but a recording press sees is that of the last recorded press
      as well, so the action of the release compiles that keycode. */
  lemma KeycodeMatchesPress(board: Board, s: State, press: Command, cs: seq<Command>,
                            key: KeyPos, pressed: bool, update: bool)
    requires board.Valid() && board.NoneRecords(cs, key) && board.Records(press, key) && !s.disabled
    requires !(pressed && update)
    ensures var t := board.Run(board.Step(s, press), cs);
      && (!t.disabled && board.PlaceOf(key) != Nowhere ==>
           board.KeycodeOf(t, key, pressed, update) == board.KeycodeOf(s, key, true, true))
      && board.ActionOf(t, key, false) == board.compile(board.KeycodeOf(t, key, pressed, update))
  {
    LastPressRecalled(board, s, press, key, cs, key);
  }

  /** Layer resolution finds the highest layer that is on and not transparent for the key;
      without such a layer it falls back to layer 0. */
  lemma {:induction false} TopLayerIsHighest(board: Board, layers: LayerState, key: KeyPos, n: nat, l: Layer)
    requires n <= 32 && l < n
    requires forall k :: l < k < n ==> !LayerOn(layers, k) || board.ActionAt(k, key) == TRANSPARENT
    requires l == 0 || (LayerOn(layers, l) && board.ActionAt(l, key) != TRANSPARENT)
    ensures board.TopLayer(layers, key, n) == l
  {
    if l < n - 1 { TopLayerIsHighest(board, layers, key, n - 1, l); }
  }

  /** Bit j of a layer state stands for layer j and no other. */
  lemma OneBitOneLayer(j: nat, k: nat)
    requires j < 32 && k < 32
    ensures LayerOn(1 << j, k) <==> j == k
  {
  }

  lemma EitherOn(a: LayerState, b: LayerState, k: nat)
    requires k < 32
    ensures LayerOn(a | b, k) <==> LayerOn(a, k) || LayerOn(b, k)
  {
    var m := (1 as bv32) << k;
    assert (a | b) & m == (a & m) | (b & m);
  }

  /** Layer k is switched on, or a default layer, and has something to do for the key. */
  predicate Offers(board: Board, s: State, key: KeyPos, k: nat)
    requires k < 32
  {
    (LayerOn(s.layers, k) || LayerOn(s.defaults, k)) && board.ActionAt(k, key) != 1
  }

  /** l is the highest layer that offers something, or 0 if none does. */
  ghost predicate IsHighest(board: Board, s: State, key: KeyPos, l: Layer)
    requires board.Valid()
  {
    && (forall k :: l < k < board.layerCount ==> !Offers(board, s, key, k))
    && (l == 0 || (l < board.layerCount && Offers(board, s, key, l)))
  }

  /** The word switches on the layers of the state and the default ones. */
  ghost predicate Merged(s: State, word: LayerState) {
    forall k: nat :: k < 32 ==> (LayerOn(word, k) <==> LayerOn(s.layers, k) || LayerOn(s.defaults, k))
  }

  lemma OrMerges(s: State)
    ensures Merged(s, s.layers | s.defaults)
  {
    forall k: nat | k < 32
      ensures LayerOn(s.layers | s.defaults, k) <==> LayerOn(s.layers, k) || LayerOn(s.defaults, k)
    {
      EitherOn(s.layers, s.defaults, k);
    }
  }

  lemma {:induction false} TopLayerOffers(board: Board, s: State, word: LayerState, key: KeyPos, n: nat)
    requires n <= 32 && Merged(s, word)
    ensures var t := board.TopLayer(word, key, n);
      && (forall k :: t < k < n ==> !Offers(board, s, key, k))
      && (t == 0 || (t < n && Offers(board, s, key, t)))
  {
    if n > 0 { TopLayerOffers(board, s, word, key, n - 1); }
  }

  lemma ResolvesToHighest(board: Board, s: State, key: KeyPos)
    requires board.Valid()
    ensures IsHighest(board, s, key, board.Resolve(s, key))
  {
    OrMerges(s);
    TopLayerOffers(board, s, s.layers | s.defaults, key, board.layerCount);
  }

  lemma OneHighest(board: Board, s: State, key: KeyPos, l: Layer, t: Layer)
    requires board.Valid() && IsHighest(board, s, key, l) && IsHighest(board, s, key, t)
    ensures l == t
  {
  }

  /** A press takes the highest layer that is on, or a default layer, and not transparent for
      the key, and layer 0 if there is none, for the action and for the keycode. */
  lemma PressTakesHighest(board: Board, s: State, key: KeyPos, l: Layer)
    requires board.Valid()
    ensures board.Resolve(s, key) == l <==> IsHighest(board, s, key, l)
    ensures IsHighest(board, s, key, l) ==>
      && board.ActionOf(s, key, true) == board.compile(board.keycode(l, key))
      && board.KeycodeOf(s, key, true, true) == board.keycode(l, key)
  {
    ResolvesToHighest(board, s, key);
    if IsHighest(board, s, key, l) { OneHighest(board, s, key, l, board.Resolve(s, key)); }
  }

  /** What was set last stays in force, whatever else happens: the layer state, the default
      layers, and whether the cache is off. */
  lemma {:induction false} LastSettingInForce(board: Board, s: State, word: LayerState, off: bool, cs: seq<Command>)
    requires board.Valid()
    ensures (forall i :: 0 <= i < |cs| ==> !cs[i].Layers?) ==> board.Run(board.Step(s, Layers(word)), cs).layers == word
    ensures (forall i :: 0 <= i < |cs| ==> !cs[i].Defaults?) ==>
      board.Run(board.Step(s, Defaults(word)), cs).defaults == word
    ensures (forall i :: 0 <= i < |cs| ==> !cs[i].Disable?) ==>
      board.Run(board.Step(s, Disable(off)), cs).disabled == off
  {
    if cs != [] { LastSettingInForce(board, s, word, off, cs[..|cs| - 1]); }
  }

  // ---------- the cache ----------

  class LayerKeeper {
    const board: Board
    /** MAX_LAYER_BITS */
    const layerBits: nat
    /** source_layers_cache and encoder_source_layers_cache */
    const cache: array2<bv8>
    const encoderCache: array2<bv8>
    var layerState: LayerState
    var defaultLayerState: LayerState
    var disableActionCache: bool

    ghost predicate Valid() {
      && board.Valid() && board.layerCount <= Pow2(layerBits) && cache != encoderCache
      && cache.Length0 == (board.rows * board.cols + 7) / 8 && cache.Length1 == layerBits
      && encoderCache.Length0 == (board.encoders + 7) / 8 && encoderCache.Length1 == layerBits
    }

    /** The keys of an encoder event name an encoder that exists. */
    predicate Exists(key: KeyPos) { board.PlaceOf(key).OfEncoder? ==> key.col < board.encoders }

    /** The place has an entry: the two caches have one for each key and each encoder. */
    predicate IsPlace(place: Place) {
      match place
      case Nowhere => false
      case OfKey(key) => key.row < board.rows && key.col < board.cols
      case OfEncoder(id) => id < board.encoders
    }

    /** Bit b of the layer stored for entry e of a cache. */
    static predicate Stored(c: array2<bv8>, e: nat, b: nat)
      requires e / 8 < c.Length0 && b < c.Length1
      reads c
    {
      On(c[e / 8, b], e % 8)
    }

    /** Entry e of a cache stores layer l. */
    static ghost predicate Holds(c: array2<bv8>, e: nat, l: Layer)
      requires e / 8 < c.Length0
      reads c
    {
      l < Pow2(c.Length1) && forall b :: 0 <= b < c.Length1 ==> Stored(c, e, b) == Bit(l, b)
    }

    ghost predicate HoldsAt(place: Place, l: Layer)
      requires Valid() && IsPlace(place)
      reads cache, encoderCache
    {
      match place
      case OfKey(key) =>
        EntryInRange(key, board.rows, board.cols);
        Holds(cache, Entry(key, board.cols), l)
      case OfEncoder(id) => Holds(encoderCache, id, l)
    }

    /** The caches are the map of `m`; places not in it stand for layer 0. */
    ghost predicate Refines(m: State)
      requires Valid()
      reads this, cache, encoderCache
    {
      && m.layers == layerState && m.defaults == defaultLayerState && m.disabled == disableActionCache
      && forall place | IsPlace(place) :: HoldsAt(place, board.RecallAt(m, place))
    }

    constructor (board: Board, layerBits: nat)
      requires board.Valid() && board.layerCount <= Pow2(layerBits)
      ensures Valid() && fresh(cache) && fresh(encoderCache) && this.board == board && this.layerBits == layerBits
      ensures Refines(State(map[], 0, 0, false))
    {
      this.board := board;
      this.layerBits := layerBits;
      cache := new bv8[(board.rows * board.cols + 7) / 8, layerBits]((_, _) => 0);
      encoderCache := new bv8[(board.encoders + 7) / 8, layerBits]((_, _) => 0);
      layerState, defaultLayerState, disableActionCache := 0, 0, false;
      new;
      forall place | IsPlace(place) ensures HoldsAt(place, 0) { BlankHolds(place); }
    }

    static lemma BlankEntry(c: array2<bv8>, e: nat)
      requires e / 8 < c.Length0 && forall i, b :: 0 <= i < c.Length0 && 0 <= b < c.Length1 ==> c[i, b] == 0
      ensures Holds(c, e, 0)
    {
      ZeroIsOff(e % 8);
      forall b: nat ensures !Bit(0, b) { ZeroHasNoBits(b); }
    }

    lemma BlankHolds(place: Place)
      requires Valid() && IsPlace(place)
      requires forall i, b :: 0 <= i < cache.Length0 && 0 <= b < cache.Length1 ==> cache[i, b] == 0
      requires forall i, b :: 0 <= i < encoderCache.Length0 && 0 <= b < encoderCache.Length1 ==> encoderCache[i, b] == 0
      ensures HoldsAt(place, 0)
    {
      match place
      case OfKey(key) =>
        EntryInRange(key, board.rows, board.cols);
        BlankEntry(cache, Entry(key, board.cols));
      case OfEncoder(id) =>
        BlankEntry(encoderCache, id);
    }

    /** update_source_layers_cache_impl */
    static method UpdateImpl(layer: Layer, e: nat, c: array2<bv8>)
      requires e / 8 < c.Length0 && layer < Pow2(c.Length1)
      modifies c
      ensures Holds(c, e, layer)
      ensures forall f: nat, b ::
                f / 8 < c.Length0 && f != e && 0 <= b < c.Length1 ==> Stored(c, f, b) == old(Stored(c, f, b))
    {
      var idx, bit := e / 8, e % 8;
      for b := 0 to c.Length1
        invariant forall k :: 0 <= k < b ==> Stored(c, e, k) == Bit(layer, k)
        invariant forall f: nat, k ::
                    f / 8 < c.Length0 && f != e && 0 <= k < c.Length1 ==> Stored(c, f, k) == old(Stored(c, f, k))
      {
        ghost var before := c[idx, b];
        c[idx, b] := Merge(c[idx, b], bit, Bit(layer, b));
        forall k | 0 <= k < 8 ensures On(c[idx, b], k) == if k == bit then Bit(layer, b) else On(before, k) {
          MergeSetsOneBit(before, bit, Bit(layer, b), k);
        }
      }
    }

    /** read_source_layers_cache_impl */
    static method ReadImpl(e: nat, c: array2<bv8>, ghost l: Layer) returns (layer: Layer)
      requires e / 8 < c.Length0 && Holds(c, e, l)
      ensures layer == l
    {
      layer := 0;
      for b := 0 to c.Length1
        invariant layer == l % Pow2(b)
      {
        if Stored(c, e, b) { layer := layer + Pow2(b); }
        LowBits(l, b);
      }
      Remainder(l, Pow2(c.Length1), 0, l);
    }

    /** update_source_layers_cache */
    method Update(key: KeyPos, layer: Layer, ghost m: State)
      requires Valid() && Refines(m) && layer < Pow2(layerBits) && Exists(key)
      modifies cache, encoderCache
      ensures Refines(board.Remember(m, key, layer))
    {
      if key.row == VIAL_MATRIX_MAGIC { return; }
      if key.row < board.rows && key.col < board.cols {
        UpdateKey(key, layer, m);
      } else if board.encoderMap && (key.row == KEYLOC_ENCODER_CW || key.row == KEYLOC_ENCODER_CCW) {
        UpdateImpl(layer, key.col, encoderCache);
      }
    }

    method UpdateKey(key: KeyPos, layer: Layer, ghost m: State)
      requires Valid() && Refines(m) && layer < Pow2(layerBits) && board.PlaceOf(key) == OfKey(key)
      modifies cache
      ensures Refines(board.Remember(m, key, layer))
    {
      EntryInRange(key, board.rows, board.cols);
      UpdateImpl(layer, key.row * board.cols + key.col, cache);
      forall k: KeyPos | IsPlace(OfKey(k))
        ensures HoldsAt(OfKey(k), board.RecallAt(board.Remember(m, key, layer), OfKey(k)))
      {
        EntryInRange(k, board.rows, board.cols);
        if k != key { EntriesDiffer(k, key, board.cols); }
      }
    }

    /** read_source_layers_cache */
    method Read(key: KeyPos, ghost m: State) returns (layer: Layer)
      requires Valid() && Refines(m) && Exists(key)
      ensures layer == board.Recall(m, key)
    {
      if key.row == VIAL_MATRIX_MAGIC { return 0; }
      ghost var l := board.Recall(m, key);
      if key.row < board.rows && key.col < board.cols {
        EntryInRange(key, board.rows, board.cols);
        assert HoldsAt(OfKey(key), l);
        layer := ReadImpl(key.row * board.cols + key.col, cache, l);
      } else if board.encoderMap && (key.row == KEYLOC_ENCODER_CW || key.row == KEYLOC_ENCODER_CCW) {
        assert HoldsAt(OfEncoder(key.col), l);
        layer := ReadImpl(key.col, encoderCache, l);
      } else {
        layer := 0;
      }
    }

    /** layer_switch_get_layer */
    method GetLayer(key: KeyPos, ghost m: State) returns (layer: Layer)
      requires Valid() && m.layers == layerState && m.defaults == defaultLayerState
      ensures layer == board.Resolve(m, key) && layer < Pow2(layerBits)
    {
      layer := GetTopLayer(layerState | defaultLayerState, key);
    }

    /** Its loop. */
    method GetTopLayer(layers: LayerState, key: KeyPos) returns (layer: Layer)
      requires Valid()
      ensures layer == board.TopLayer(layers, key, board.layerCount)
    {
      var i := board.layerCount;
      while i > 0
        invariant 0 <= i <= board.layerCount
        invariant board.TopLayer(layers, key, i) == board.TopLayer(layers, key, board.layerCount)
      {
        i := i - 1;
        if LayerOn(layers, i) && board.ActionAt(i, key) != TRANSPARENT { return i; }
      }
      return 0;
    }

    /** layer_state_set */
    method LayerStateSet(state: LayerState, ghost m: State)
      requires Valid() && Refines(m)
      modifies this`layerState
      ensures Refines(board.Step(m, Layers(state)))
    {
      layerState := state;
    }

    /** default_layer_state_set */
    method DefaultLayerStateSet(state: LayerState, ghost m: State)
      requires Valid() && Refines(m)
      modifies this`defaultLayerState
      ensures Refines(board.Step(m, Defaults(state)))
    {
      defaultLayerState := state;
    }

    /** The two assignments of process_record_nocache. */
    method SetDisabled(off: bool, ghost m: State)
      requires Valid() && Refines(m)
      modifies this`disableActionCache
      ensures Refines(board.Step(m, Disable(off)))
    {
      disableActionCache := off;
    }

    /** What both clients do with the cache on. */
    method StoreOrGetLayer(records: bool, key: KeyPos, ghost m: State) returns (layer: Layer)
      requires Valid() && Refines(m) && Exists(key) && !disableActionCache
      modifies cache, encoderCache
      ensures Refines(board.Client(m, key, records))
      ensures layer == board.LayerOf(m, key, records)
    {
      if records {
        layer := GetLayer(key, m);
        Update(key, layer, m);
      } else {
        layer := Read(key, m);
      }
    }

    /** store_or_get_action */
    method StoreOrGetAction(pressed: bool, key: KeyPos, ghost m: State) returns (action: Action)
      requires Valid() && Refines(m) && Exists(key)
      modifies cache, encoderCache
      ensures Refines(board.Step(m, GetAction(key, pressed)))
      ensures action == board.ActionOf(m, key, pressed)
    {
      var layer;
      if disableActionCache {
        layer := GetLayer(key, m);
      } else {
        layer := StoreOrGetLayer(pressed, key, m);
      }
      action := board.ActionAt(layer, key);
    }

    /** get_event_keycode */
    method GetEventKeycode(key: KeyPos, pressed: bool, update: bool, ghost m: State) returns (keycode: Keycode)
      requires Valid() && Refines(m) && Exists(key)
      modifies cache, encoderCache
      ensures Refines(board.Step(m, GetKeycode(key, pressed, update)))
      ensures keycode == board.KeycodeOf(m, key, pressed, update)
    {
      var layer;
      if disableActionCache {
        layer := GetLayer(key, m);
      } else {
        layer := StoreOrGetLayer(pressed && update, key, m);
      }
      keycode := board.keycode(layer, key);
    }
  }
}
