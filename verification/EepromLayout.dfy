/** The EEPROM image of quantum/via.h and quantum/dynamic_keymap.c: a chain of computed
    regions, each an array of cells of one width. */
module EepromLayout {
  import opened Basics

  datatype Region =
    Magic | LayoutOptions | Custom | Keymap | Encoders | Settings | TapDances | Combos | Overrides | Macros

  datatype Cell =
    | MagicByte(i: nat)
    | LayoutByte(i: nat)
    | CustomByte(i: nat)
    | Key(layer: nat, row: nat, col: nat)
    | Encoder(layer: nat, id: nat, clockwise: bool)
    | SettingByte(i: nat)
    | TapDance(i: nat)
    | Combo(i: nat)
    | Override(i: nat)
    | MacroByte(i: nat)

  const MAGIC_SIZE := 3
  /** sizeof vial_tap_dance_entry_t, vial_combo_entry_t and vial_key_override_entry_t */
  const ENTRY_SIZE := 10
  /** sizeof qmk_settings_t */
  const SETTINGS_SIZE := 36

  /** The build's choices; `core` is EECONFIG_SIZE, `maxAddr` the last address in use. */
  datatype Config = Config(
    core: nat, layoutSize: nat, customSize: nat,
    layers: nat, rows: nat, cols: nat, encoders: nat,
    tapDances: nat, combos: nat, overrides: nat, maxAddr: nat)
  {
    // ---------- the address macros ----------

    function MagicAddr(): nat { core }
    function LayoutAddr(): nat { MagicAddr() + MAGIC_SIZE }
    function CustomAddr(): nat { LayoutAddr() + layoutSize }
    function KeymapAddr(): nat { CustomAddr() + customSize }
    function KeymapSize(): nat { layers * rows * cols * 2 }
    function EncodersAddr(): nat { KeymapAddr() + KeymapSize() }
    function EncodersSize(): nat { encoders * layers * 2 * 2 }
    function SettingsAddr(): nat { EncodersAddr() + EncodersSize() }
    function TapDanceAddr(): nat { SettingsAddr() + SETTINGS_SIZE }
    function ComboAddr(): nat { TapDanceAddr() + ENTRY_SIZE * tapDances }
    function OverrideAddr(): nat { ComboAddr() + ENTRY_SIZE * combos }
    function MacroAddr(): nat { OverrideAddr() + ENTRY_SIZE * overrides }

    /** The static assertion that the image fits. */
    predicate Fits() { maxAddr >= MacroAddr() + 100 }

    function MacroSize(): nat
      requires Fits()
    {
      maxAddr - MacroAddr() + 1
    }

    /** dynamic_keymap_key_to_eeprom_address */
    function KeyAddress(layer: nat, row: nat, col: nat): nat {
      KeymapAddr() + layer * rows * cols * 2 + row * cols * 2 + col * 2
    }

    /** dynamic_keymap_encoder_to_eeprom_address, plus the offset of the direction */
    function EncoderAddress(layer: nat, id: nat, clockwise: bool): nat {
      EncodersAddr() + layer * encoders * 2 * 2 + id * 2 * 2 + if clockwise then 0 else 2
    }

    // ---------- regions as arrays of cells ----------

    function Start(r: Region): nat {
      match r
      case Magic => MagicAddr()
      case LayoutOptions => LayoutAddr()
      case Custom => CustomAddr()
      case Keymap => KeymapAddr()
      case Encoders => EncodersAddr()
      case Settings => SettingsAddr()
      case TapDances => TapDanceAddr()
      case Combos => ComboAddr()
      case Overrides => OverrideAddr()
      case Macros => MacroAddr()
    }

    function Width(r: Region): nat {
      match r
      case Keymap => 2
      case Encoders => 2
      case TapDances => ENTRY_SIZE
      case Combos => ENTRY_SIZE
      case Overrides => ENTRY_SIZE
      case _ => 1
    }

    function Count(r: Region): nat
      requires Fits()
    {
      match r
      case Magic => MAGIC_SIZE
      case LayoutOptions => layoutSize
      case Custom => customSize
      case Keymap => layers * rows * cols
      case Encoders => encoders * layers * 2
      case Settings => SETTINGS_SIZE
      case TapDances => tapDances
      case Combos => combos
      case Overrides => overrides
      case Macros => MacroSize()
    }

    /** The bounds checks of the accessors. */
    predicate Has(c: Cell)
      requires Fits()
    {
      match c
      case MagicByte(i) => i < MAGIC_SIZE
      case LayoutByte(i) => i < layoutSize
      case CustomByte(i) => i < customSize
      case Key(layer, row, col) => layer < layers && row < rows && col < cols
      case Encoder(layer, id, _) => layer < layers && id < encoders
      case SettingByte(i) => i < SETTINGS_SIZE
      case TapDance(i) => i < tapDances
      case Combo(i) => i < combos
      case Override(i) => i < overrides
      case MacroByte(i) => i < MacroSize()
    }

    function RegionOf(c: Cell): Region {
      match c
      case MagicByte(_) => Magic
      case LayoutByte(_) => LayoutOptions
      case CustomByte(_) => Custom
      case Key(_, _, _) => Keymap
      case Encoder(_, _, _) => Encoders
      case SettingByte(_) => Settings
      case TapDance(_) => TapDances
      case Combo(_) => Combos
      case Override(_) => Overrides
      case MacroByte(_) => Macros
    }

    function Index(c: Cell): nat {
      match c
      case MagicByte(i) => i
      case LayoutByte(i) => i
      case CustomByte(i) => i
      case Key(layer, row, col) => (layer * rows + row) * cols + col
      case Encoder(layer, id, clockwise) => (layer * encoders + id) * 2 + if clockwise then 0 else 1
      case SettingByte(i) => i
      case TapDance(i) => i
      case Combo(i) => i
      case Override(i) => i
      case MacroByte(i) => i
    }

    function Addr(c: Cell): nat {
      match c
      case Key(layer, row, col) => KeyAddress(layer, row, col)
      case Encoder(layer, id, clockwise) => EncoderAddress(layer, id, clockwise)
      case _ => Start(RegionOf(c)) + Width(RegionOf(c)) * Index(c)
    }

    function Size(c: Cell): nat { Width(RegionOf(c)) }
  }

  // ---------- mixed-radix indices ----------

  lemma RadixInRange(hi: nat, lo: nat, n: nat, count: nat)
    requires hi < count && lo < n
    ensures hi * n + lo < count * n
  {
    assert (hi + 1) * n <= count * n;
  }

  lemma RadixInjective(hi: nat, lo: nat, hi': nat, lo': nat, n: nat)
    requires lo < n && lo' < n && (hi != hi' || lo != lo')
    ensures hi * n + lo != hi' * n + lo'
  {
    if hi < hi' {
      assert (hi + 1) * n <= hi' * n;
    } else if hi' < hi {
      assert (hi' + 1) * n <= hi * n;
    }
  }

  lemma MulAssociates(a: nat, b: nat, c: nat)
    ensures a * b * c == (a * b) * c == a * (b * c)
    ensures a * b == b * a
  {
  }

  lemma Distribute(a: nat, b: nat, c: nat)
    ensures (a + b) * c == a * c + b * c
  {
  }

  lemma KeyIndexed(layer: nat, row: nat, col: nat, layers: nat, rows: nat, cols: nat)
    requires layer < layers && row < rows && col < cols
    ensures layer * rows * cols * 2 + row * cols * 2 + col * 2 == 2 * ((layer * rows + row) * cols + col)
    ensures (layer * rows + row) * cols + col < layers * rows * cols
  {
    RadixInRange(layer, row, rows, layers);
    RadixInRange(layer * rows + row, col, cols, layers * rows);
    Distribute(layer * rows, row, cols);
  }

  lemma EncoderIndexed(layer: nat, id: nat, layers: nat, encoders: nat, half: nat)
    requires layer < layers && id < encoders && half < 2
    ensures layer * encoders * 2 * 2 + id * 2 * 2 + 2 * half == 2 * ((layer * encoders + id) * 2 + half)
    ensures (layer * encoders + id) * 2 + half < encoders * layers * 2
  {
    RadixInRange(layer, id, encoders, layers);
    MulAssociates(encoders, layers, 2);
  }

  /** The address macros address the cells of a region one after the other. */
  lemma AddrIsIndexed(cfg: Config, c: Cell)
    requires cfg.Fits() && cfg.Has(c)
    ensures cfg.Addr(c) == cfg.Start(cfg.RegionOf(c)) + cfg.Width(cfg.RegionOf(c)) * cfg.Index(c)
    ensures cfg.Index(c) < cfg.Count(cfg.RegionOf(c))
  {
    if c.Key? {
      KeyIndexed(c.layer, c.row, c.col, cfg.layers, cfg.rows, cfg.cols);
    } else if c.Encoder? {
      EncoderIndexed(c.layer, c.id, cfg.layers, cfg.encoders, if c.clockwise then 0 else 1);
    }
  }

  lemma IndexInjective(cfg: Config, c: Cell, d: Cell)
    requires cfg.Fits() && cfg.Has(c) && cfg.Has(d) && c != d && cfg.RegionOf(c) == cfg.RegionOf(d)
    ensures cfg.Index(c) != cfg.Index(d)
  {
    if c.Key? {
      KeysDiffer(c, d, cfg.rows, cfg.cols);
    } else if c.Encoder? {
      if c.layer != d.layer || c.id != d.id { RadixInjective(c.layer, c.id, d.layer, d.id, cfg.encoders); }
    }
  }

  lemma KeysDiffer(c: Cell, d: Cell, rows: nat, cols: nat)
    requires c.Key? && d.Key? && c != d && c.row < rows && d.row < rows && c.col < cols && d.col < cols
    ensures (c.layer * rows + c.row) * cols + c.col != (d.layer * rows + d.row) * cols + d.col
  {
    if c.layer != d.layer || c.row != d.row { RadixInjective(c.layer, c.row, d.layer, d.row, rows); }
    RadixInjective(c.layer * rows + c.row, c.col, d.layer * rows + d.row, d.col, cols);
  }

  function Next(r: Region): Region {
    match r
    case Magic => LayoutOptions
    case LayoutOptions => Custom
    case Custom => Keymap
    case Keymap => Encoders
    case Encoders => Settings
    case Settings => TapDances
    case TapDances => Combos
    case Combos => Overrides
    case _ => Macros
  }

  function Rank(r: Region): nat {
    match r
    case Magic => 0
    case LayoutOptions => 1
    case Custom => 2
    case Keymap => 3
    case Encoders => 4
    case Settings => 5
    case TapDances => 6
    case Combos => 7
    case Overrides => 8
    case Macros => 9
  }

  /** Every region ends where the next one begins, the last one at maxAddr. */
  lemma RegionEnds(cfg: Config, r: Region)
    requires cfg.Fits()
    ensures cfg.Start(r) + cfg.Width(r) * cfg.Count(r) == if r == Macros then cfg.maxAddr + 1 else cfg.Start(Next(r))
  {
    assert cfg.KeymapSize() == 2 * cfg.Count(Keymap);
    assert cfg.EncodersSize() == 2 * cfg.Count(Encoders);
  }

  lemma {:induction false} RegionBefore(cfg: Config, r: Region, s: Region)
    requires cfg.Fits() && Rank(r) < Rank(s)
    ensures cfg.Start(r) + cfg.Width(r) * cfg.Count(r) <= cfg.Start(s)
    decreases Rank(s) - Rank(r)
  {
    RegionEnds(cfg, r);
    if Next(r) != s { RegionBefore(cfg, Next(r), s); }
  }

  lemma RankTells(r: Region, s: Region)
    requires r != s
    ensures Rank(r) != Rank(s)
  {
  }

  /** Every region ends before the next begins, and the last at maxAddr. */
  lemma RegionsInOrder(cfg: Config, r: Region, s: Region)
    requires cfg.Fits()
    ensures var e := cfg.Start(r) + cfg.Width(r) * cfg.Count(r);
      e <= cfg.maxAddr + 1
      && (r != s ==> e <= cfg.Start(s) || cfg.Start(s) + cfg.Width(s) * cfg.Count(s) <= cfg.Start(r))
  {
    RegionEnds(cfg, Macros);
    if r == Macros {
    } else {
      RegionBefore(cfg, r, Macros);
    }
    if r != s {
      RankTells(r, s);
      if Rank(r) < Rank(s) { RegionBefore(cfg, r, s); } else { RegionBefore(cfg, s, r); }
    }
  }

  lemma SlotsApart(start: nat, width: nat, i: nat, j: nat)
    requires i != j
    ensures Apart(start + width * i, width, start + width * j, width)
  {
    if i < j {
      assert width * (i + 1) <= width * j;
    } else {
      assert width * (j + 1) <= width * i;
    }
  }

  lemma SlotInRange(width: nat, i: nat, count: nat)
    requires i < count
    ensures width * i + width <= width * count
  {
    assert width * (i + 1) <= width * count;
  }

  lemma CellInRegion(cfg: Config, c: Cell)
    requires cfg.Fits() && cfg.Has(c)
    ensures var r := cfg.RegionOf(c);
      cfg.Start(r) <= cfg.Addr(c) && cfg.Addr(c) + cfg.Size(c) <= cfg.Start(r) + cfg.Width(r) * cfg.Count(r)
    ensures cfg.Addr(c) + cfg.Size(c) <= cfg.maxAddr + 1
  {
    AddrIsIndexed(cfg, c);
    var r := cfg.RegionOf(c);
    SlotInRange(cfg.Width(r), cfg.Index(c), cfg.Count(r));
    RegionsInOrder(cfg, r, r);
  }

  /** No two cells of the image share a byte. */
  lemma CellsApart(cfg: Config, c: Cell, d: Cell)
    requires cfg.Fits() && cfg.Has(c) && cfg.Has(d) && c != d
    ensures Apart(cfg.Addr(c), cfg.Size(c), cfg.Addr(d), cfg.Size(d))
  {
    if cfg.RegionOf(c) == cfg.RegionOf(d) {
      AddrIsIndexed(cfg, c);
      AddrIsIndexed(cfg, d);
      IndexInjective(cfg, c, d);
      SlotsApart(cfg.Start(cfg.RegionOf(c)), cfg.Size(c), cfg.Index(c), cfg.Index(d));
    } else {
      CellInRegion(cfg, c);
      CellInRegion(cfg, d);
      RegionsInOrder(cfg, cfg.RegionOf(c), cfg.RegionOf(d));
    }
  }

  // ---------- reading and writing ----------

  /** Writing a cell gives back what was written and leaves every other cell alone. */
  lemma WriteRead(cfg: Config, m: Image, c: Cell, bytes: seq<Byte>, d: Cell)
    requires cfg.Fits() && |m| > cfg.maxAddr && cfg.Has(c) && cfg.Has(d) && |bytes| == cfg.Size(c)
    ensures cfg.Addr(c) + |bytes| <= |m| && cfg.Addr(d) + cfg.Size(d) <= |m|
    ensures Get(Put(m, cfg.Addr(c), bytes), cfg.Addr(d), cfg.Size(d))
         == if c == d then bytes else Get(m, cfg.Addr(d), cfg.Size(d))
  {
    CellInRegion(cfg, c);
    CellInRegion(cfg, d);
    if c != d { CellsApart(cfg, c, d); }
    GetPut(m, cfg.Addr(c), bytes, cfg.Addr(d), cfg.Size(d));
  }
}
