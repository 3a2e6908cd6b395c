/** The EEPROM and the functions of quantum/dynamic_keymap.c, quantum/via.c and
    quantum/qmk_settings.c that update it byte by byte. */
module EepromDevice {
  import opened Basics
  import opened EepromLayout
  import opened Eeprom

  /** Offset of the keymap options in the core data, a 16-bit word. */
  const EECONFIG_KEYMAP := 4

  type Entry = e: seq<Byte> | |e| == ENTRY_SIZE witness seq(ENTRY_SIZE, _ => 0)
  type Settings = s: seq<Byte> | |s| == SETTINGS_SIZE witness seq(SETTINGS_SIZE, _ => 0)

  /** What the firmware image brings along as defaults. */
  datatype Flash = Flash(
    key: (nat, nat, nat) -> Keycode,
    encoder: (nat, nat, bool) -> Keycode,
    settings: Settings, tapDance: Entry, combo: Entry, override: Entry,
    options: Keycode, layoutOptions: nat)

  // ---------- layout options ----------

  /** The n low-order bytes of a value, most significant first. */
  function LowBytes(value: nat, n: nat): (bs: seq<Byte>)
    ensures |bs| == n
  {
    if n == 0 then [] else LowBytes(value / 256, n - 1) + [value % 256]
  }

  function ValueOf(bs: seq<Byte>): nat {
    if bs == [] then 0 else ValueOf(bs[..|bs| - 1]) * 256 + bs[|bs| - 1]
  }

  function Pow256(n: nat): (p: nat)
    ensures p > 0
  {
    if n == 0 then 1 else 256 * Pow256(n - 1)
  }

  lemma OneMoreByte(value: nat, n: nat, done: seq<Byte>)
    ensures LowBytes(value, n + 1) + done == LowBytes(value / 256, n) + ([value % 256] + done)
  {
  }

  lemma ValueOfAppend(bs: seq<Byte>, b: Byte)
    ensures ValueOf(bs + [b]) == ValueOf(bs) * 256 + b
  {
    assert (bs + [b])[..|bs|] == bs;
  }

  function Shifted(value: nat, n: nat): nat { if n == 0 then value else Shifted(value / 256, n - 1) }

  lemma TimesByte(x: nat, p: nat, s: nat, v: nat)
    requires x / 256 == p * s + v && v < p
    ensures x == (256 * p) * s + (v * 256 + x % 256) && v * 256 + x % 256 < 256 * p
  {
    assert (256 * p) * s == 256 * (p * s);
  }

  lemma {:induction false} LowBytesAreRemainder(value: nat, n: nat)
    ensures value == Pow256(n) * Shifted(value, n) + ValueOf(LowBytes(value, n))
    ensures ValueOf(LowBytes(value, n)) < Pow256(n)
  {
    if n > 0 {
      LowBytesAreRemainder(value / 256, n - 1);
      var v := ValueOf(LowBytes(value / 256, n - 1));
      TimesByte(value, Pow256(n - 1), Shifted(value, n), v);
      ValueOfAppend(LowBytes(value / 256, n - 1), value % 256);
    }
  }

  /** Reading the layout options gives what was set, cut to the size of the region. */
  lemma LayoutOptionsRoundTrip(value: nat, n: nat)
    ensures ValueOf(LowBytes(value, n)) == value % Pow256(n)
  {
    LowBytesAreRemainder(value, n);
    Remainder(value, Pow256(n), Shifted(value, n), ValueOf(LowBytes(value, n)));
  }

  class Device {
    const cfg: Config
    const mem: array<Byte>
    /** The bytes written so far, in order. */
    ghost var log: seq<Write>
    var unlocked: bool
    /** QS, the settings in RAM. */
    var settings: seq<Byte>
    const flash: Flash

    ghost predicate Valid()
      reads this
    {
      && cfg.Fits() && mem.Length > cfg.maxAddr
      && EECONFIG_KEYMAP + 2 <= cfg.core && 1 <= cfg.layoutSize <= 4
      && |settings| == SETTINGS_SIZE
    }

    ghost function KeymapRegion(): (r: Image)
      requires Valid()
      reads this, mem
      ensures |r| == cfg.KeymapSize() && |r| % 2 == 0
    {
      RegionsInOrder(cfg, Keymap, Keymap);
      mem[cfg.KeymapAddr()..cfg.KeymapAddr() + cfg.KeymapSize()]
    }

    /** The image after a bounds-checked write of a cell. */
    ghost function Stored(m: Image, c: Cell, bytes: seq<Byte>): (r: Image)
      requires Valid() && |m| == mem.Length && |bytes| == cfg.Size(c)
      reads this
      ensures |r| == |m|
    {
      if cfg.Has(c) then CellInRegion(cfg, c); Put(m, cfg.Addr(c), bytes) else m
    }

    /** What a bounds-checked read of a cell gives. */
    ghost function Loaded(m: Image, c: Cell): seq<Byte>
      requires Valid() && |m| == mem.Length
      reads this
    {
      if cfg.Has(c) then CellInRegion(cfg, c); Get(m, cfg.Addr(c), cfg.Size(c)) else []
    }

    /** A setter is undone by its getter and changes no other getter, in range or not. */
    lemma SetterGetter(m: Image, c: Cell, bytes: seq<Byte>, d: Cell)
      requires Valid() && |m| == mem.Length && |bytes| == cfg.Size(c)
      ensures Loaded(Stored(m, c, bytes), d) == if c == d && cfg.Has(c) then bytes else Loaded(m, d)
    {
      if cfg.Has(c) && cfg.Has(d) { WriteRead(cfg, m, c, bytes, d); }
    }

    constructor (cfg: Config, mem: array<Byte>, flash: Flash)
      requires cfg.Fits() && mem.Length > cfg.maxAddr && EECONFIG_KEYMAP + 2 <= cfg.core && 1 <= cfg.layoutSize <= 4
      ensures Valid() && this.cfg == cfg && this.mem == mem && this.flash == flash && log == [] && !unlocked
    {
      this.cfg := cfg;
      this.mem := mem;
      this.flash := flash;
      log, unlocked, settings := [], false, flash.settings;
    }

    // ---------- writing ----------

    /** Since then exactly the logged bytes were written, none of them in the magic. */
    ghost predicate SparedMagic(m0: Image, l0: seq<Write>)
      reads this, mem
    {
      && l0 <= log && Apply(m0, log[|l0|..]) == mem[..]
      && Outside(log[|l0|..], cfg.core, cfg.core + MAGIC_SIZE)
    }

    /** eeprom_update_byte: a byte is written only if it differs. */
    method UpdateByte(addr: nat, value: Byte)
      requires addr < mem.Length
      modifies this`log, mem
      ensures mem[..] == old(mem[..])[addr := value]
      ensures log == old(log) + if old(mem[addr]) == value then [] else [Write(addr, value)]
    {
      if mem[addr] != value {
        mem[addr] := value;
        log := log + [Write(addr, value)];
      }
    }

    /** The same, somewhere in a series of writes that spare the magic. */
    method UpdateByteOutside(addr: nat, value: Byte, ghost m0: Image, ghost l0: seq<Write>)
      requires addr < mem.Length && (addr < cfg.core || cfg.core + MAGIC_SIZE <= addr)
      requires SparedMagic(m0, l0)
      modifies this`log, mem
      ensures mem[..] == old(mem[..])[addr := value]
      ensures SparedMagic(m0, l0)
    {
      ghost var past := log[|l0|..];
      UpdateByte(addr, value);
      if log != old(log) {
        assert log[|l0|..] == past + [Write(addr, value)];
        assert (past + [Write(addr, value)])[..|past|] == past;
      }
    }

    /** Bytes written one after the other. */
    method WriteBytes(addr: nat, bytes: seq<Byte>, ghost m0: Image, ghost l0: seq<Write>)
      requires cfg.core + MAGIC_SIZE <= addr && addr + |bytes| <= mem.Length
      requires SparedMagic(m0, l0)
      modifies this`log, mem
      ensures mem[..] == Put(old(mem[..]), addr, bytes)
      ensures SparedMagic(m0, l0)
    {
      for i := 0 to |bytes|
        invariant mem[..] == Put(old(mem[..]), addr, bytes[..i])
        invariant SparedMagic(m0, l0)
      {
        UpdateByteOutside(addr + i, bytes[i], m0, l0);
        PutNext(old(mem[..]), addr, bytes, i);
      }
      assert bytes[..|bytes|] == bytes;
    }

    /** eeprom_write_block, byte by byte: also a byte that does not differ is written. */
    method WriteBlock(addr: nat, bytes: seq<Byte>, ghost m0: Image, ghost l0: seq<Write>)
      requires cfg.core + MAGIC_SIZE <= addr && addr + |bytes| <= mem.Length
      requires SparedMagic(m0, l0)
      modifies this`log, mem
      ensures mem[..] == Put(old(mem[..]), addr, bytes)
      ensures SparedMagic(m0, l0) && log == old(log) + Block(addr, bytes)
    {
      for i := 0 to |bytes|
        invariant mem[..] == Put(old(mem[..]), addr, bytes[..i])
        invariant SparedMagic(m0, l0) && log == old(log) + Block(addr, bytes[..i])
      {
        WriteNextByte(addr, bytes, i, old(mem[..]), old(log), m0, l0);
      }
      assert bytes[..|bytes|] == bytes;
    }

    method WriteNextByte(addr: nat, bytes: seq<Byte>, i: nat,
                         ghost m: Image, ghost l: seq<Write>, ghost m0: Image, ghost l0: seq<Write>)
      requires cfg.core + MAGIC_SIZE <= addr && addr + |bytes| <= mem.Length == |m| && i < |bytes|
      requires SparedMagic(m0, l0) && mem[..] == Put(m, addr, bytes[..i]) && log == l + Block(addr, bytes[..i])
      modifies this`log, mem
      ensures SparedMagic(m0, l0) && mem[..] == Put(m, addr, bytes[..i + 1]) && log == l + Block(addr, bytes[..i + 1])
    {
      WriteByteOutside(addr + i, bytes[i], m0, l0);
      PutNext(m, addr, bytes, i);
      BlockNext(addr, bytes, i);
    }

    method WriteByteOutside(addr: nat, value: Byte, ghost m0: Image, ghost l0: seq<Write>)
      requires addr < mem.Length && (addr < cfg.core || cfg.core + MAGIC_SIZE <= addr)
      requires SparedMagic(m0, l0)
      modifies this`log, mem
      ensures mem[..] == old(mem[..])[addr := value] && log == old(log) + [Write(addr, value)]
      ensures SparedMagic(m0, l0)
    {
      ghost var past := log[|l0|..];
      mem[addr] := value;
      log := log + [Write(addr, value)];
      assert log[|l0|..] == past + [Write(addr, value)];
      assert (past + [Write(addr, value)])[..|past|] == past;
    }

    /** Any cell outside the magic. */
    method WriteCell(c: Cell, bytes: seq<Byte>, ghost m0: Image, ghost l0: seq<Write>)
      requires Valid() && cfg.Has(c) && !c.MagicByte? && |bytes| == cfg.Size(c)
      requires SparedMagic(m0, l0)
      modifies this`log, mem
      ensures cfg.Addr(c) + |bytes| <= mem.Length && mem[..] == Put(old(mem[..]), cfg.Addr(c), bytes)
      ensures SparedMagic(m0, l0)
    {
      CellInRegion(cfg, c);
      PastMagic(cfg, c);
      WriteBytes(cfg.Addr(c), bytes, m0, l0);
    }

    /** Two bytes, the high one first. */
    method ReadWord(address: nat) returns (k: Keycode)
      requires address + 2 <= mem.Length
      ensures Get(mem[..], address, 2) == BigEndian(k)
    {
      k := FromBigEndian(mem[address], mem[address + 1]);
      WordAt(mem[..], address);
    }

    /** dynamic_keymap_get_keycode */
    method GetKeycode(layer: nat, row: nat, col: nat) returns (k: Keycode)
      requires Valid()
      ensures Loaded(mem[..], Key(layer, row, col)) == if cfg.Has(Key(layer, row, col)) then BigEndian(k) else []
      ensures !cfg.Has(Key(layer, row, col)) ==> k == KC_NO
    {
      if layer >= cfg.layers || row >= cfg.rows || col >= cfg.cols { return KC_NO; }
      CellInRegion(cfg, Key(layer, row, col));
      k := ReadWord(cfg.KeyAddress(layer, row, col));
    }

    /** A key of the keymap is a cell of the buffer that the host reads and writes. */
    lemma KeyIsCell(layer: nat, row: nat, col: nat)
      requires Valid() && cfg.Has(Key(layer, row, col))
      ensures var c := cfg.Index(Key(layer, row, col));
        && 2 * c + 1 < |KeymapRegion()|
        && Loaded(mem[..], Key(layer, row, col)) == BigEndian(CellAt(KeymapRegion(), c))
    {
      var c := cfg.Index(Key(layer, row, col));
      KeyPlace(cfg, layer, row, col);
      WordAt(mem[..], cfg.KeymapAddr() + 2 * c);
      assert KeymapRegion()[2 * c] == mem[cfg.KeymapAddr() + 2 * c];
      assert KeymapRegion()[2 * c + 1] == mem[cfg.KeymapAddr() + 2 * c + 1];
    }

    /** dynamic_keymap_get_encoder */
    method GetEncoder(layer: nat, id: nat, clockwise: bool) returns (k: Keycode)
      requires Valid()
      ensures Loaded(mem[..], Encoder(layer, id, clockwise))
           == if cfg.Has(Encoder(layer, id, clockwise)) then BigEndian(k) else []
      ensures !cfg.Has(Encoder(layer, id, clockwise)) ==> k == KC_NO
    {
      if layer >= cfg.layers || id >= cfg.encoders { return KC_NO; }
      CellInRegion(cfg, Encoder(layer, id, clockwise));
      k := ReadWord(cfg.EncoderAddress(layer, id, clockwise));
    }

    /** dynamic_keymap_set_keycode */
    method SetKeycode(layer: nat, row: nat, col: nat, k: Keycode, ghost m0: Image, ghost l0: seq<Write>)
      requires Valid() && SparedMagic(m0, l0)
      modifies this`log, mem
      ensures mem[..] == Stored(old(mem[..]), Key(layer, row, col), BigEndian(k)) && SparedMagic(m0, l0)
    {
      if layer >= cfg.layers || row >= cfg.rows || col >= cfg.cols { return; }
      WriteCell(Key(layer, row, col), BigEndian(k), m0, l0);
    }

    /** dynamic_keymap_set_encoder */
    method SetEncoder(layer: nat, id: nat, clockwise: bool, k: Keycode, ghost m0: Image, ghost l0: seq<Write>)
      requires Valid() && SparedMagic(m0, l0)
      modifies this`log, mem
      ensures mem[..] == Stored(old(mem[..]), Encoder(layer, id, clockwise), BigEndian(k)) && SparedMagic(m0, l0)
    {
      if layer >= cfg.layers || id >= cfg.encoders { return; }
      WriteCell(Encoder(layer, id, clockwise), BigEndian(k), m0, l0);
    }

    /** dynamic_keymap_set_tap_dance, dynamic_keymap_set_combo, dynamic_keymap_set_key_override */
    method SetEntry(c: Cell, entry: seq<Byte>, ghost m0: Image, ghost l0: seq<Write>) returns (status: int)
      requires Valid() && SparedMagic(m0, l0)
      requires (c.TapDance? || c.Combo? || c.Override?) && |entry| == ENTRY_SIZE
      modifies this`log, mem
      ensures mem[..] == Stored(old(mem[..]), c, entry) && SparedMagic(m0, l0)
      ensures log == old(log) + if cfg.Has(c) then Block(cfg.Addr(c), entry) else []
      ensures status == if cfg.Has(c) then 0 else -1
    {
      if !cfg.Has(c) { return -1; }
      CellInRegion(cfg, c);
      PastMagic(cfg, c);
      WriteBlock(cfg.Addr(c), entry, m0, l0);
      return 0;
    }

    /** dynamic_keymap_get_tap_dance and its likes; no bytes stand for the error return */
    method GetEntry(c: Cell) returns (entry: seq<Byte>)
      requires Valid() && (c.TapDance? || c.Combo? || c.Override?)
      ensures entry == Loaded(mem[..], c)
    {
      if !cfg.Has(c) { return []; }
      CellInRegion(cfg, c);
      entry := mem[cfg.Addr(c)..cfg.Addr(c) + cfg.Size(c)];
    }

    /** The bytes of `data` that would complete a QK_BOOT cell become 0xFF. */
    method FilterBuffer(offset: nat, size: nat, data: array<Byte>)
      requires Valid() && data != mem && size <= data.Length
      requires 0 < size || offset % 2 == 0
      requires offset < cfg.KeymapSize() && size <= cfg.KeymapSize() - offset
      modifies data
      ensures data[..size] == Filtered(KeymapRegion(), offset, old(data[..size]))
    {
      var target := cfg.KeymapAddr() + offset;
      RegionsInOrder(cfg, Keymap, Keymap);
      ghost var f := Filtered(KeymapRegion(), offset, data[..size]);
      FilteredByParts(KeymapRegion(), offset, data[..size]);
      FilterParts(KeymapRegion(), offset, size, data, f,
                  if offset % 2 != 0 then mem[target - 1] else 0,
                  if (offset + size) % 2 != 0 then mem[target + size] else 0);
    }

    /** The filter proper; `before` and `after` are the stored bytes around the data. */
    static method FilterParts(ghost region: Image, offset: nat, size: nat, data: array<Byte>,
                              ghost f: seq<Byte>, before: Byte, after: Byte)
      requires size <= data.Length && (0 < size || offset % 2 == 0)
      requires |region| % 2 == 0 && offset + size <= |region| && FilteredParts(region, offset, data[..size], f)
      requires offset % 2 != 0 ==> before == region[offset - 1]
      requires (offset + size) % 2 != 0 ==> after == region[offset + size]
      modifies data
      ensures data[..size] == f
    {
      ghost var orig := data[..size];
      var chkOffset, chkSize := 0, size;
      if offset % 2 != 0 {
        if FromBigEndian(before, data[0]) == QK_BOOT { data[0] := 0xFF; }
        chkOffset := chkOffset + 1;
      }
      if (offset + size) % 2 != 0 {
        if FromBigEndian(data[size - 1], after) == QK_BOOT { data[size - 1] := 0xFF; }
        chkSize := chkSize - 1;
      }
      FilterPairs(offset, size, data, orig, f, chkOffset, chkSize);
    }

    /** The keycodes that lie wholly inside the data. */
    static method FilterPairs(offset: nat, size: nat, data: array<Byte>,
                              ghost orig: seq<Byte>, ghost f: seq<Byte>, lo: nat, hi: nat)
      requires size <= data.Length && |orig| == size == |f|
      requires lo <= hi <= size && (offset + lo) % 2 == 0 && (hi - lo) % 2 == 0
      requires forall k :: lo <= k < hi - 1 && (offset + k) % 2 == 0 ==> PairFiltered(orig, f, k)
      requires forall k :: 0 <= k < lo || hi <= k < size ==> data[k] == f[k]
      requires forall k :: lo <= k < hi ==> data[k] == orig[k]
      modifies data
      ensures data[..size] == f
    {
      var i := lo;
      while i < hi
        invariant lo <= i <= hi && (hi - i) % 2 == 0 && (offset + i) % 2 == 0
        invariant forall k :: 0 <= k < i || hi <= k < size ==> data[k] == f[k]
        invariant forall k :: i <= k < hi ==> data[k] == orig[k]
      {
        assert PairFiltered(orig, f, i);
        if FromBigEndian(data[i], data[i + 1]) == QK_BOOT {
          data[i] := 0xFF;
          data[i + 1] := 0xFF;
        }
        i := i + 2;
      }
    }

    /** dynamic_keymap_get_buffer */
    method ReadBuffer(offset: nat, size: nat, data: array<Byte>)
      requires Valid() && data != mem && size <= data.Length
      modifies data
      ensures forall i :: 0 <= i < size ==>
        data[i] == if offset + i < |KeymapRegion()| then KeymapRegion()[offset + i] else 0
      ensures forall i :: size <= i < data.Length ==> data[i] == old(data[i])
    {
      RegionsInOrder(cfg, Keymap, Keymap);
      for i := 0 to size
        invariant forall j :: 0 <= j < i ==>
          data[j] == if offset + j < |KeymapRegion()| then KeymapRegion()[offset + j] else 0
        invariant forall j :: i <= j < data.Length ==> data[j] == old(data[j])
      {
        data[i] := if offset + i < cfg.KeymapSize() then mem[cfg.KeymapAddr() + (offset + i)] else 0;
      }
    }

    /** dynamic_keymap_set_buffer */
    method WriteBuffer(offset: nat, size: nat, data: array<Byte>, ghost m0: Image, ghost l0: seq<Write>)
      requires Valid() && SparedMagic(m0, l0) && data != mem && size <= data.Length
      requires !unlocked && size == 0 && offset % 2 != 0 ==> offset >= cfg.KeymapSize()
      modifies this`log, mem, data
      ensures KeymapRegion() == SetBuffer(old(KeymapRegion()), offset, old(data[..size]), unlocked)
      ensures forall i ::
                0 <= i < mem.Length && (i < cfg.KeymapAddr() || cfg.EncodersAddr() <= i)
                ==> mem[i] == old(mem[i])
      ensures SparedMagic(m0, l0)
    {
      if offset >= cfg.KeymapSize() || cfg.KeymapSize() - offset < size { return; }
      if !unlocked { FilterBuffer(offset, size, data); }
      WriteKeymap(offset, data[..size], m0, l0);
    }

    /** Bytes written into the keymap region. */
    method WriteKeymap(offset: nat, bytes: seq<Byte>, ghost m0: Image, ghost l0: seq<Write>)
      requires Valid() && SparedMagic(m0, l0)
      requires offset + |bytes| <= cfg.KeymapSize()
      modifies this`log, mem
      ensures KeymapRegion() == Put(old(KeymapRegion()), offset, bytes)
      ensures forall i ::
                0 <= i < mem.Length && (i < cfg.KeymapAddr() || cfg.EncodersAddr() <= i)
                ==> mem[i] == old(mem[i])
      ensures SparedMagic(m0, l0)
    {
      RegionsInOrder(cfg, Keymap, Magic);
      WriteRegion(cfg.KeymapAddr(), cfg.KeymapSize(), offset, bytes, m0, l0);
    }

    /** Bytes written into any region. */
    method WriteRegion(start: nat, n: nat, offset: nat, bytes: seq<Byte>, ghost m0: Image, ghost l0: seq<Write>)
      requires cfg.core + MAGIC_SIZE <= start && start + n <= mem.Length && offset + |bytes| <= n
      requires SparedMagic(m0, l0)
      modifies this`log, mem
      ensures mem[start..start + n] == Put(old(mem[start..start + n]), offset, bytes)
      ensures forall i :: 0 <= i < mem.Length && (i < start || start + n <= i) ==> mem[i] == old(mem[i])
      ensures SparedMagic(m0, l0)
    {
      ghost var before := mem[..];
      WriteBytes(start + offset, bytes, m0, l0);
      PutInside(before, start, n, offset, bytes);
      assert mem[..][start..start + n] == mem[start..start + n]
           && before[start..start + n] == old(mem[start..start + n]);
      forall i | 0 <= i < mem.Length && (i < start || start + n <= i) ensures mem[i] == old(mem[i]) {
        assert mem[..][i] == before[i];
      }
    }

    // ---------- settings ----------

    /** eeprom_settings_save */
    method SaveSettings(ghost m0: Image, ghost l0: seq<Write>)
      requires Valid() && SparedMagic(m0, l0)
      modifies this`log, mem
      ensures SparedMagic(m0, l0)
      ensures cfg.SettingsAddr() + SETTINGS_SIZE <= mem.Length
      ensures mem[..] == Put(old(mem[..]), cfg.SettingsAddr(), settings)
    {
      RegionsInOrder(cfg, Settings, Magic);
      for i := 0 to SETTINGS_SIZE
        invariant mem[..] == Put(old(mem[..]), cfg.SettingsAddr(), settings[..i]) && SparedMagic(m0, l0)
      {
        if mem[cfg.SettingsAddr() + i] != settings[i] {
          UpdateByteOutside(cfg.SettingsAddr() + i, settings[i], m0, l0);
        }
        PutNext(old(mem[..]), cfg.SettingsAddr(), settings, i);
      }
      assert settings[..SETTINGS_SIZE] == settings;
    }

    /** eeprom_settings_load */
    method LoadSettings()
      requires Valid()
      modifies this`settings
      ensures Valid()
      ensures cfg.SettingsAddr() + SETTINGS_SIZE <= mem.Length
      ensures settings == Get(mem[..], cfg.SettingsAddr(), SETTINGS_SIZE)
    {
      RegionsInOrder(cfg, Settings, Settings);
      for i := 0 to SETTINGS_SIZE
        invariant |settings| == SETTINGS_SIZE
        invariant settings[..i] == mem[cfg.SettingsAddr()..cfg.SettingsAddr() + i]
      {
        settings := settings[i := mem[cfg.SettingsAddr() + i]];
      }
    }

    /** Saved settings are loaded unchanged, also after any other cell was written. */
    lemma SettingsSurvive(m: Image, s: Settings, c: Cell, bytes: seq<Byte>)
      requires Valid() && |m| == mem.Length && !c.SettingByte? && |bytes| == cfg.Size(c)
      ensures cfg.SettingsAddr() + SETTINGS_SIZE <= |m|
      ensures Get(Put(m, cfg.SettingsAddr(), s), cfg.SettingsAddr(), SETTINGS_SIZE) == s
      ensures Get(Stored(Put(m, cfg.SettingsAddr(), s), c, bytes), cfg.SettingsAddr(), SETTINGS_SIZE) == s
    {
      RegionsInOrder(cfg, Settings, Settings);
      GetPut(m, cfg.SettingsAddr(), s, cfg.SettingsAddr(), SETTINGS_SIZE);
      if cfg.Has(c) {
        RegionApart(cfg, Settings, c);
        GetPut(Put(m, cfg.SettingsAddr(), s), cfg.Addr(c), bytes, cfg.SettingsAddr(), SETTINGS_SIZE);
      }
    }

    // ---------- layout options ----------

    /** via_get_layout_options */
    method GetLayoutOptions() returns (value: nat)
      requires Valid()
      ensures cfg.LayoutAddr() + cfg.layoutSize <= mem.Length
      ensures value == ValueOf(Get(mem[..], cfg.LayoutAddr(), cfg.layoutSize))
    {
      RegionsInOrder(cfg, LayoutOptions, LayoutOptions);
      value := 0;
      ghost var bs := Get(mem[..], cfg.LayoutAddr(), cfg.layoutSize);
      for i := 0 to cfg.layoutSize
        invariant value == ValueOf(bs[..i])
      {
        value := value * 256 + mem[cfg.LayoutAddr() + i];
        assert bs[..i + 1] == bs[..i] + [bs[i]];
        ValueOfAppend(bs[..i], bs[i]);
      }
      assert bs[..cfg.layoutSize] == bs;
    }

    /** via_set_layout_options */
    method SetLayoutOptions(value: nat, ghost m0: Image, ghost l0: seq<Write>)
      requires Valid() && SparedMagic(m0, l0)
      modifies this`log, mem
      ensures SparedMagic(m0, l0)
      ensures cfg.LayoutAddr() + cfg.layoutSize <= mem.Length
      ensures mem[..] == Put(old(mem[..]), cfg.LayoutAddr(), LowBytes(value, cfg.layoutSize))
    {
      RegionsInOrder(cfg, LayoutOptions, LayoutOptions);
      PutLowBytes(cfg.LayoutAddr(), cfg.layoutSize, value, m0, l0);
    }

    /** From the least significant byte, at the end, to the most significant one. */
    method PutLowBytes(addr: nat, size: nat, value: nat, ghost m0: Image, ghost l0: seq<Write>)
      requires cfg.core + MAGIC_SIZE <= addr && addr + size <= mem.Length && SparedMagic(m0, l0)
      modifies this`log, mem
      ensures mem[..] == Put(old(mem[..]), addr, LowBytes(value, size)) && SparedMagic(m0, l0)
    {
      var rest, n := value, size;
      ghost var done: seq<Byte>, m := [], mem[..];
      while n > 0
        invariant 0 <= n <= size && |done| == size - n
        invariant LowBytes(rest, n) + done == LowBytes(value, size)
        invariant mem[..] == Put(m, addr + n, done) && SparedMagic(m0, l0)
      {
        n := n - 1;
        UpdateByteOutside(addr + n, rest % 256, m0, l0);
        PutBefore(m, addr + n, done, rest % 256);
        OneMoreByte(rest, n, done);
        done := [rest % 256] + done;
        rest := rest / 256;
      }
    }

    // ---------- resetting ----------

    /** The first bytes of the EEPROM, before the magic. */
    ghost function Core(): (c: Image)
      requires Valid()
      reads this, mem
      ensures |c| == cfg.core
    {
      RegionsInOrder(cfg, Magic, Magic);
      mem[..cfg.core]
    }

    /** The keymap options are those of the flash, low byte first. */
    ghost predicate OptionsStored()
      requires Valid()
      reads this, mem
    {
      Core()[4] == flash.options % 256 && Core()[5] == flash.options / 256
    }

    lemma CoreSpared(m: Image, addr: nat, bytes: seq<Byte>)
      requires cfg.core <= addr && addr + |bytes| <= |m|
      ensures Put(m, addr, bytes)[..cfg.core] == m[..cfg.core]
    {
    }

    lemma StoredSparesCore(m: Image, c: Cell, bytes: seq<Byte>)
      requires Valid() && |m| == mem.Length && |bytes| == cfg.Size(c) && !c.MagicByte?
      ensures cfg.core <= |m| && Stored(m, c, bytes)[..cfg.core] == m[..cfg.core]
    {
      RegionsInOrder(cfg, Magic, Magic);
      if cfg.Has(c) {
        CellInRegion(cfg, c);
        PastMagic(cfg, c);
        CoreSpared(m, cfg.Addr(c), bytes);
      }
    }

    /** The cells an initialisation has to fill, and what with. */
    ghost function Default(c: Cell): seq<Byte>
      requires Valid() && cfg.Has(c)
      reads this
    {
      match c
      case Key(l, r, k) => BigEndian(flash.key(l, r, k))
      case Encoder(l, e, cw) => BigEndian(flash.encoder(l, e, cw))
      case TapDance(_) => flash.tapDance
      case Combo(_) => flash.combo
      case Override(_) => flash.override
      case SettingByte(i) => [flash.settings[i]]
      case LayoutByte(i) => [LowBytes(flash.layoutOptions, cfg.layoutSize)[i]]
      case _ => [0]
    }

    /** These cells hold their defaults, those that lie out of range aside. */
    ghost predicate Defaulted(m: Image, done: set<Cell>)
      requires Valid() && |m| == mem.Length
      reads this
    {
      forall c :: c in done ==> HasDefault(c) && (cfg.Has(c) ==> Loaded(m, c) == Default(c))
    }

    /** Storing one more default keeps those stored before. */
    lemma OneMoreDefault(m: Image, done: set<Cell>, c: Cell, bytes: seq<Byte>)
      requires Valid() && |m| == mem.Length && HasDefault(c) && Defaulted(m, done)
      requires |bytes| == cfg.Size(c) && (cfg.Has(c) ==> bytes == Default(c))
      ensures Defaulted(Stored(m, c, bytes), done + {c})
    {
      forall d: Cell ensures Loaded(Stored(m, c, bytes), d) == if c == d && cfg.Has(c) then bytes else Loaded(m, d) {
        SetterGetter(m, c, bytes, d);
      }
    }

    /** The magic is spared since m0, l0, and the cells of `done` hold their defaults. */
    ghost predicate Resetting(m0: Image, l0: seq<Write>, done: set<Cell>)
      requires Valid()
      reads this, mem
    {
      SparedMagic(m0, l0) && Defaulted(mem[..], done)
    }

    method ResetKey(layer: nat, row: nat, col: nat, ghost done: set<Cell>, ghost m0: Image, ghost l0: seq<Write>)
      requires Valid() && Resetting(m0, l0, done)
      modifies this`log, mem
      ensures Resetting(m0, l0, done + {Key(layer, row, col)})
    {
      OneMoreDefault(mem[..], done, Key(layer, row, col), BigEndian(flash.key(layer, row, col)));
      SetKeycode(layer, row, col, flash.key(layer, row, col), m0, l0);
    }

    method ResetEncoder(layer: nat, id: nat, clockwise: bool,
                        ghost done: set<Cell>, ghost m0: Image, ghost l0: seq<Write>)
      requires Valid() && Resetting(m0, l0, done)
      modifies this`log, mem
      ensures Resetting(m0, l0, done + {Encoder(layer, id, clockwise)})
    {
      OneMoreDefault(mem[..], done, Encoder(layer, id, clockwise), BigEndian(flash.encoder(layer, id, clockwise)));
      SetEncoder(layer, id, clockwise, flash.encoder(layer, id, clockwise), m0, l0);
    }

    method ResetEntry(c: Cell, ghost done: set<Cell>, ghost m0: Image, ghost l0: seq<Write>)
      requires Valid() && Resetting(m0, l0, done) && (c.TapDance? || c.Combo? || c.Override?)
      modifies this`log, mem
      ensures Resetting(m0, l0, done + {c}) && Core() == old(Core())
    {
      var entry := if c.TapDance? then flash.tapDance else if c.Combo? then flash.combo else flash.override;
      OneMoreDefault(mem[..], done, c, entry);
      StoredSparesCore(mem[..], c, entry);
      var _ := SetEntry(c, entry, m0, l0);
    }

    method ResetRow(layer: nat, row: nat, ghost start: set<Cell>, ghost m0: Image, ghost l0: seq<Write>)
      returns (ghost done: set<Cell>)
      requires Valid() && Resetting(m0, l0, start)
      modifies this`log, mem
      ensures Resetting(m0, l0, done) && start <= done
      ensures forall k :: 0 <= k < cfg.cols ==> Key(layer, row, k) in done
    {
      done := start;
      for col := 0 to cfg.cols
        invariant Resetting(m0, l0, done) && start <= done
        invariant forall k :: 0 <= k < col ==> Key(layer, row, k) in done
      {
        ResetKey(layer, row, col, done, m0, l0);
        done := done + {Key(layer, row, col)};
      }
    }

    method ResetEncoders(layer: nat, ghost start: set<Cell>, ghost m0: Image, ghost l0: seq<Write>)
      returns (ghost done: set<Cell>)
      requires Valid() && Resetting(m0, l0, start)
      modifies this`log, mem
      ensures Resetting(m0, l0, done) && start <= done
      ensures forall e, cw :: 0 <= e < cfg.encoders ==> Encoder(layer, e, cw) in done
    {
      done := start;
      for id := 0 to cfg.encoders
        invariant Resetting(m0, l0, done) && start <= done
        invariant forall e, cw :: 0 <= e < id ==> Encoder(layer, e, cw) in done
      {
        ResetEncoder(layer, id, true, done, m0, l0);
        done := done + {Encoder(layer, id, true)};
        ResetEncoder(layer, id, false, done, m0, l0);
        done := done + {Encoder(layer, id, false)};
      }
    }

    method ResetLayer(layer: nat, ghost start: set<Cell>, ghost m0: Image, ghost l0: seq<Write>)
      returns (ghost done: set<Cell>)
      requires Valid() && Resetting(m0, l0, start)
      modifies this`log, mem
      ensures Resetting(m0, l0, done) && start <= done
      ensures forall r, k :: 0 <= r < cfg.rows && 0 <= k < cfg.cols ==> Key(layer, r, k) in done
      ensures forall e, cw :: 0 <= e < cfg.encoders ==> Encoder(layer, e, cw) in done
    {
      done := start;
      for row := 0 to cfg.rows
        invariant Resetting(m0, l0, done) && start <= done
        invariant forall r, k :: 0 <= r < row && 0 <= k < cfg.cols ==> Key(layer, r, k) in done
      {
        done := ResetRow(layer, row, done, m0, l0);
      }
      done := ResetEncoders(layer, done, m0, l0);
    }

    method ResetLayers(ghost start: set<Cell>, ghost m0: Image, ghost l0: seq<Write>) returns (ghost done: set<Cell>)
      requires Valid() && Resetting(m0, l0, start)
      modifies this`log, mem
      ensures Resetting(m0, l0, done) && start <= done
      ensures forall l, r, k :: 0 <= l < cfg.layers && 0 <= r < cfg.rows && 0 <= k < cfg.cols ==> Key(l, r, k) in done
      ensures forall l, e, cw :: 0 <= l < cfg.layers && 0 <= e < cfg.encoders ==> Encoder(l, e, cw) in done
    {
      done := start;
      for layer := 0 to cfg.layers
        invariant Resetting(m0, l0, done) && start <= done
        invariant forall l, r, k :: 0 <= l < layer && 0 <= r < cfg.rows && 0 <= k < cfg.cols ==> Key(l, r, k) in done
        invariant forall l, e, cw :: 0 <= l < layer && 0 <= e < cfg.encoders ==> Encoder(l, e, cw) in done
      {
        done := ResetLayer(layer, done, m0, l0);
      }
    }

    ghost function EntryOf(r: Region, j: nat): Cell
      requires r == TapDances || r == Combos || r == Overrides
    {
      match r
      case TapDances => TapDance(j)
      case Combos => Combo(j)
      case Overrides => Override(j)
    }

    /** The first n entries of a table are among the cells. */
    ghost predicate HasEntries(done: set<Cell>, r: Region, n: nat)
      requires r == TapDances || r == Combos || r == Overrides
    {
      forall j: nat :: j < n ==> EntryOf(r, j) in done
    }

    lemma OneMoreEntry(done: set<Cell>, r: Region, n: nat)
      requires (r == TapDances || r == Combos || r == Overrides) && HasEntries(done, r, n)
      ensures HasEntries(done + {EntryOf(r, n)}, r, n + 1)
    {
    }

    method ResetTapDances(ghost start: set<Cell>, ghost m0: Image, ghost l0: seq<Write>) returns (ghost done: set<Cell>)
      requires Valid() && Resetting(m0, l0, start)
      modifies this`log, mem
      ensures Resetting(m0, l0, done) && start <= done
      ensures HasEntries(done, TapDances, cfg.tapDances) && Core() == old(Core())
    {
      done := start;
      for i := 0 to cfg.tapDances
        invariant Resetting(m0, l0, done) && start <= done
        invariant HasEntries(done, TapDances, i) && Core() == old(Core())
      {
        ResetEntry(TapDance(i), done, m0, l0);
        OneMoreEntry(done, TapDances, i);
        done := done + {TapDance(i)};
      }
    }

    method ResetCombos(ghost start: set<Cell>, ghost m0: Image, ghost l0: seq<Write>) returns (ghost done: set<Cell>)
      requires Valid() && Resetting(m0, l0, start)
      modifies this`log, mem
      ensures Resetting(m0, l0, done) && start <= done
      ensures HasEntries(done, Combos, cfg.combos) && Core() == old(Core())
    {
      done := start;
      for i := 0 to cfg.combos
        invariant Resetting(m0, l0, done) && start <= done
        invariant HasEntries(done, Combos, i) && Core() == old(Core())
      {
        ResetEntry(Combo(i), done, m0, l0);
        OneMoreEntry(done, Combos, i);
        done := done + {Combo(i)};
      }
    }

    method ResetOverrides(ghost start: set<Cell>, ghost m0: Image, ghost l0: seq<Write>) returns (ghost done: set<Cell>)
      requires Valid() && Resetting(m0, l0, start)
      modifies this`log, mem
      ensures Resetting(m0, l0, done) && start <= done
      ensures HasEntries(done, Overrides, cfg.overrides) && Core() == old(Core())
    {
      done := start;
      for i := 0 to cfg.overrides
        invariant Resetting(m0, l0, done) && start <= done
        invariant HasEntries(done, Overrides, i) && Core() == old(Core())
      {
        ResetEntry(Override(i), done, m0, l0);
        OneMoreEntry(done, Overrides, i);
        done := done + {Override(i)};
      }
    }

    /** qmk_settings_reset */
    method ResetSettings(ghost start: set<Cell>, ghost m0: Image, ghost l0: seq<Write>) returns (ghost done: set<Cell>)
      requires Valid() && Resetting(m0, l0, start)
      modifies this`log, this`settings, mem
      ensures Valid() && Resetting(m0, l0, done) && done == start + BytesOf(Settings)
      ensures settings == flash.settings && OptionsStored()
    {
      settings := flash.settings;
      ghost var before := mem[..];
      SaveSettings(m0, l0);
      RegionWritten(before, Settings, flash.settings, start);
      done := start + BytesOf(Settings);
      UpdateCore(EECONFIG_KEYMAP, flash.options % 256, done, m0, l0);
      UpdateCore(EECONFIG_KEYMAP + 1, flash.options / 256, done, m0, l0);
    }

    /** The i-th byte of a region that is initialised as a whole. */
    ghost function ByteOf(r: Region, i: nat): Cell
      requires r == Settings || r == LayoutOptions || r == Macros
    {
      match r
      case Settings => SettingByte(i)
      case LayoutOptions => LayoutByte(i)
      case Macros => MacroByte(i)
    }

    ghost function BytesOf(r: Region): set<Cell>
      requires Valid() && (r == Settings || r == LayoutOptions || r == Macros)
      reads this
    {
      set i: nat | i < cfg.Count(r) :: ByteOf(r, i)
    }

    lemma ByteWritten(m: Image, r: Region, bytes: seq<Byte>, i: nat)
      requires Valid() && |m| == mem.Length && (r == Settings || r == LayoutOptions || r == Macros)
      requires |bytes| == cfg.Count(r) && i < |bytes|
      ensures cfg.Has(ByteOf(r, i)) && cfg.Start(r) + |bytes| <= |m|
      ensures Loaded(Put(m, cfg.Start(r), bytes), ByteOf(r, i)) == [bytes[i]]
    {
      RegionsInOrder(cfg, r, r);
      assert cfg.Addr(ByteOf(r, i)) == cfg.Start(r) + i && cfg.Size(ByteOf(r, i)) == 1;
      PutAt(m, cfg.Start(r), bytes, cfg.Start(r) + i);
    }

    /** Writing a region as a whole fills its bytes and keeps what was filled before. */
    lemma RegionWritten(m: Image, r: Region, bytes: seq<Byte>, done: set<Cell>)
      requires Valid() && |m| == mem.Length && Defaulted(m, done)
      requires r == Settings || r == LayoutOptions || r == Macros
      requires |bytes| == cfg.Count(r)
        && forall i: nat :: i < |bytes| && cfg.Has(ByteOf(r, i)) ==> Default(ByteOf(r, i)) == [bytes[i]]
      ensures cfg.Start(r) + |bytes| <= |m| && Defaulted(Put(m, cfg.Start(r), bytes), done + BytesOf(r))
    {
      RegionsInOrder(cfg, r, r);
      var after := Put(m, cfg.Start(r), bytes);
      forall c | c in done + BytesOf(r) && cfg.Has(c) ensures Loaded(after, c) == Default(c) {
        if cfg.RegionOf(c) == r {
          assert c == ByteOf(r, c.i);
          ByteWritten(m, r, bytes, c.i);
        } else {
          OtherRegionKept(m, r, bytes, c);
        }
      }
    }

    lemma OtherRegionKept(m: Image, r: Region, bytes: seq<Byte>, c: Cell)
      requires Valid() && |m| == mem.Length && |bytes| == cfg.Count(r) && cfg.Width(r) == 1
      requires cfg.Has(c) && cfg.RegionOf(c) != r
      ensures cfg.Start(r) + |bytes| <= |m| && Loaded(Put(m, cfg.Start(r), bytes), c) == Loaded(m, c)
    {
      RegionApart(cfg, r, c);
      GetPut(m, cfg.Start(r), bytes, cfg.Addr(c), cfg.Size(c));
    }

    lemma MagicKept(m: Image, id: BuildId, done: set<Cell>)
      requires Valid() && |m| == mem.Length && Defaulted(m, done)
      ensures cfg.core + MAGIC_SIZE <= |m| && Defaulted(Put(m, cfg.core, id), done)
    {
      RegionsInOrder(cfg, Magic, Magic);
      forall c | c in done && cfg.Has(c)
        ensures Loaded(Put(m, cfg.core, id), c) == Loaded(m, c)
      {
        OtherRegionKept(m, Magic, id, c);
      }
    }

    method UpdateCore(addr: nat, b: Byte, ghost done: set<Cell>, ghost m0: Image, ghost l0: seq<Write>)
      requires Valid() && Resetting(m0, l0, done) && addr < cfg.core
      modifies this`log, mem
      ensures Resetting(m0, l0, done) && mem[..] == old(mem[..])[addr := b]
    {
      CellInRegion(cfg, MagicByte(0));
      CoreKept(mem[..], addr, b, done);
      UpdateByteOutside(addr, b, m0, l0);
    }

    lemma CoreKept(m: Image, addr: nat, b: Byte, done: set<Cell>)
      requires Valid() && |m| == mem.Length && addr < cfg.core && Defaulted(m, done)
      ensures Defaulted(m[addr := b], done)
    {
      forall c | c in done && cfg.Has(c) ensures Loaded(m[addr := b], c) == Loaded(m, c) {
        CellInRegion(cfg, c);
        PastMagic(cfg, c);
        GetPast(m, addr, b, cfg.Addr(c), cfg.Size(c));
      }
    }

    /** Every cell a reset has to fill holds its default. */
    ghost predicate AllReset(m: Image)
      requires Valid() && |m| == mem.Length
      reads this
    {
      forall c: Cell :: HasDefault(c) && cfg.Has(c) ==> Loaded(m, c) == Default(c)
    }

    /** What the getters read after a reset: the keymaps of the flash, in both directions of every
        encoder. */
    lemma KeysRead(m: Image, l: nat, r: nat, k: nat, e: nat, cw: bool)
      requires Valid() && |m| == mem.Length && AllReset(m)
      ensures cfg.Has(Key(l, r, k)) ==> Loaded(m, Key(l, r, k)) == BigEndian(flash.key(l, r, k))
      ensures cfg.Has(Encoder(l, e, cw)) ==> Loaded(m, Encoder(l, e, cw)) == BigEndian(flash.encoder(l, e, cw))
    {
    }

    /** And the entries of the three tables. */
    lemma EntriesRead(m: Image, i: nat)
      requires Valid() && |m| == mem.Length && AllReset(m)
      ensures cfg.Has(TapDance(i)) ==> Loaded(m, TapDance(i)) == flash.tapDance
      ensures cfg.Has(Combo(i)) ==> Loaded(m, Combo(i)) == flash.combo
      ensures cfg.Has(Override(i)) ==> Loaded(m, Override(i)) == flash.override
    {
    }

    /** And the settings, the layout options, and empty macros. */
    lemma BytesRead(m: Image, i: nat)
      requires Valid() && |m| == mem.Length && AllReset(m)
      ensures cfg.Has(SettingByte(i)) ==> Loaded(m, SettingByte(i)) == [flash.settings[i]]
      ensures cfg.Has(LayoutByte(i)) ==>
        Loaded(m, LayoutByte(i)) == [LowBytes(flash.layoutOptions, cfg.layoutSize)[i]]
      ensures cfg.Has(MacroByte(i)) ==> Loaded(m, MacroByte(i)) == [0]
    {
    }

    ghost predicate Covers(done: set<Cell>)
      requires Valid()
      reads this
    {
      forall c: Cell :: HasDefault(c) && cfg.Has(c) ==> c in done
    }

    lemma CoveredIsReset(m: Image, done: set<Cell>)
      requires Valid() && |m| == mem.Length && Defaulted(m, done) && Covers(done)
      ensures AllReset(m)
    {
    }

    lemma CoversAll(done: set<Cell>)
      requires Valid()
      requires forall l, r, k :: 0 <= l < cfg.layers && 0 <= r < cfg.rows && 0 <= k < cfg.cols ==> Key(l, r, k) in done
      requires forall l, e, cw :: 0 <= l < cfg.layers && 0 <= e < cfg.encoders ==> Encoder(l, e, cw) in done
      requires HasEntries(done, TapDances, cfg.tapDances)
      requires HasEntries(done, Combos, cfg.combos)
      requires HasEntries(done, Overrides, cfg.overrides)
      requires BytesOf(Settings) <= done
      ensures CoversReset(done)
    {
      forall c: Cell | HasDefault(c) && cfg.Has(c) && !c.LayoutByte? && !c.MacroByte? ensures c in done {
        if c.SettingByte? { assert ByteOf(Settings, c.i) in BytesOf(Settings); }
        if c.TapDance? || c.Combo? || c.Override? { assert EntryOf(cfg.RegionOf(c), c.i) in done; }
      }
    }

    /** What dynamic_keymap_reset fills. */
    ghost predicate CoversReset(done: set<Cell>)
      requires Valid()
      reads this
    {
      forall c: Cell :: HasDefault(c) && cfg.Has(c) && !c.LayoutByte? && !c.MacroByte? ==> c in done
    }

    lemma CoversRest(done: set<Cell>)
      requires Valid() && CoversReset(done) && BytesOf(LayoutOptions) <= done
      ensures Covers(done + BytesOf(Macros))
    {
      forall c: Cell | HasDefault(c) && cfg.Has(c) ensures c in done + BytesOf(Macros) {
        if c.LayoutByte? { assert ByteOf(LayoutOptions, c.i) in BytesOf(LayoutOptions); }
        if c.MacroByte? { assert ByteOf(Macros, c.i) in BytesOf(Macros); }
      }
    }

    /** dynamic_keymap_reset; the temporary unlocking is undone */
    method Reset(ghost start: set<Cell>, ghost m0: Image, ghost l0: seq<Write>) returns (ghost done: set<Cell>)
      requires Valid() && Resetting(m0, l0, start)
      modifies this, mem
      ensures Valid() && Resetting(m0, l0, done) && CoversReset(done) && start <= done
      ensures unlocked == old(unlocked) && settings == flash.settings && OptionsStored()
    {
      var unlockedPrev := unlocked;
      unlocked := true;
      done := ResetLayers(start, m0, l0);
      done := ResetSettings(done, m0, l0);
      done := ResetTapDances(done, m0, l0);
      done := ResetCombos(done, m0, l0);
      done := ResetOverrides(done, m0, l0);
      CoversAll(done);
      unlocked := unlockedPrev;
    }

    /** dynamic_keymap_macro_reset */
    method ResetMacros(ghost m0: Image, ghost l0: seq<Write>)
      requires Valid() && SparedMagic(m0, l0)
      modifies this`log, mem
      ensures SparedMagic(m0, l0)
      ensures cfg.MacroAddr() + cfg.MacroSize() <= mem.Length
      ensures mem[..] == Put(old(mem[..]), cfg.MacroAddr(), seq(cfg.MacroSize(), _ => 0))
    {
      RegionsInOrder(cfg, Macros, Magic);
      ZeroBytes(cfg.MacroAddr(), cfg.MacroSize(), m0, l0);
    }

    method ZeroBytes(addr: nat, size: nat, ghost m0: Image, ghost l0: seq<Write>)
      requires cfg.core + MAGIC_SIZE <= addr && addr + size <= mem.Length && SparedMagic(m0, l0)
      modifies this`log, mem
      ensures mem[..] == Put(old(mem[..]), addr, seq(size, _ => 0)) && SparedMagic(m0, l0)
    {
      var p, end := addr, addr + size;
      ghost var m, zeros: seq<Byte> := mem[..], seq(size, _ => 0);
      while p != end
        invariant addr <= p <= end && SparedMagic(m0, l0)
        invariant mem[..] == Put(m, addr, zeros[..p - addr])
        decreases end - p
      {
        UpdateByteOutside(p, 0, m0, l0);
        PutNext(m, addr, zeros, p - addr);
        p := p + 1;
      }
      assert zeros[..size] == zeros;
    }

    // ---------- initialising ----------

    /** via_eeprom_is_valid */
    method IsValidMagic(id: BuildId) returns (ok: bool)
      requires Valid()
      ensures cfg.core + MAGIC_SIZE <= mem.Length && (ok <==> IsValid(cfg, mem[..], id))
    {
      RegionsInOrder(cfg, Magic, Magic);
      ghost var stored := Get(mem[..], cfg.core, MAGIC_SIZE);
      assert stored == id <==> stored[0] == id[0] && stored[1] == id[1] && stored[2] == id[2];
      ok := mem[cfg.core] == id[0] && mem[cfg.core + 1] == id[1] && mem[cfg.core + 2] == id[2];
    }

    /** via_eeprom_set_valid */
    method SetMagic(id: BuildId) returns (ghost ws: seq<Write>)
      requires Valid()
      modifies this`log, mem
      ensures log == old(log) + ws && Within(ws, cfg.core, cfg.core + MAGIC_SIZE)
      ensures mem[..] == Apply(old(mem[..]), ws)
      ensures cfg.core + MAGIC_SIZE <= mem.Length && mem[..] == Put(old(mem[..]), cfg.core, id)
      ensures IsValid(cfg, mem[..], id)
    {
      ws := WriteMagic(id);
      GetPut(old(mem[..]), cfg.core, id, cfg.core, MAGIC_SIZE);
    }

    method WriteMagic(id: BuildId) returns (ghost ws: seq<Write>)
      requires Valid()
      modifies this`log, mem
      ensures log == old(log) + ws && Within(ws, cfg.core, cfg.core + MAGIC_SIZE)
      ensures mem[..] == Apply(old(mem[..]), ws)
      ensures cfg.core + MAGIC_SIZE <= mem.Length && mem[..] == Put(old(mem[..]), cfg.core, id)
    {
      RegionsInOrder(cfg, Magic, Magic);
      ws := [];
      ghost var before := mem[..];
      for i := 0 to MAGIC_SIZE
        invariant log == old(log) + ws && Within(ws, cfg.core, cfg.core + MAGIC_SIZE)
        invariant mem[..] == Apply(before, ws) == Put(before, cfg.core, id[..i])
      {
        ghost var change := UpdateLogged(cfg.core + i, id[i], before, ws);
        assert log == old(log) + (ws + change);
        ws := ws + change;
        PutNext(before, cfg.core, id, i);
      }
      assert id[..MAGIC_SIZE] == id;
    }

    method UpdateLogged(addr: nat, value: Byte, ghost m: Image, ghost ws: seq<Write>) returns (ghost change: seq<Write>)
      requires addr < mem.Length == |m| && mem[..] == Apply(m, ws)
      modifies this`log, mem
      ensures change == if old(mem[addr]) == value then [] else [Write(addr, value)]
      ensures log == old(log) + change && mem[..] == old(mem[..])[addr := value] == Apply(m, ws + change)
    {
      change := if mem[addr] == value then [] else [Write(addr, value)];
      ApplyOne(mem[..], addr, value);
      ApplyConcat(m, ws, change);
      UpdateByte(addr, value);
    }

    lemma ApplyOne(m: Image, addr: nat, b: Byte)
      requires addr < |m|
      ensures Apply(m, if m[addr] == b then [] else [Write(addr, b)]) == m[addr := b]
    {
      assert [Write(addr, b)][..0] == [];
    }

    method InitLayoutOptions(ghost m0: Image, ghost l0: seq<Write>)
      requires Valid() && SparedMagic(m0, l0)
      modifies this`log, mem
      ensures Resetting(m0, l0, BytesOf(LayoutOptions))
    {
      ghost var m := mem[..];
      SetLayoutOptions(flash.layoutOptions, m0, l0);
      RegionWritten(m, LayoutOptions, LowBytes(flash.layoutOptions, cfg.layoutSize), {});
      assert {} + BytesOf(LayoutOptions) == BytesOf(LayoutOptions);
    }

    method InitMacros(ghost done: set<Cell>, ghost m0: Image, ghost l0: seq<Write>)
      requires Valid() && Resetting(m0, l0, done)
      modifies this`log, mem
      ensures Resetting(m0, l0, done + BytesOf(Macros)) && Core() == old(Core())
    {
      ghost var m := mem[..];
      RegionsInOrder(cfg, Macros, Magic);
      CoreSpared(m, cfg.MacroAddr(), seq(cfg.MacroSize(), _ => 0));
      ResetMacros(m0, l0);
      RegionWritten(m, Macros, seq(cfg.MacroSize(), _ => 0), done);
    }

    /** Everything eeconfig_init_via writes between erasing and setting the magic. */
    method InitBody(ghost m0: Image, ghost l0: seq<Write>) returns (ghost done: set<Cell>)
      requires Valid() && SparedMagic(m0, l0)
      modifies this, mem
      ensures Valid() && Resetting(m0, l0, done) && Covers(done)
      ensures unlocked == old(unlocked) && settings == flash.settings && OptionsStored()
    {
      InitLayoutOptions(m0, l0);
      done := Reset(BytesOf(LayoutOptions), m0, l0);
      InitMacros(done, m0, l0);
      CoversRest(done);
      done := done + BytesOf(Macros);
    }

    /** Setting the magic of a finished image. */
    method Finish(id: BuildId, ghost done: set<Cell>) returns (ghost ws: seq<Write>)
      requires Valid() && Defaulted(mem[..], done)
      modifies this`log, mem
      ensures Defaulted(mem[..], done) && log == old(log) + ws && Within(ws, cfg.core, cfg.core + MAGIC_SIZE)
      ensures mem[..] == Apply(old(mem[..]), ws)
      ensures cfg.core + MAGIC_SIZE <= mem.Length && IsValid(cfg, mem[..], id) && Core() == old(Core())
    {
      ghost var m := mem[..];
      ws := SetMagic(id);
      MagicKept(m, id, done);
      CoreSpared(m, cfg.core, id);
    }

    /** Everything in between, as a series of writes of its own. */
    method Fill() returns (ghost ws: seq<Write>, ghost done: set<Cell>)
      requires Valid()
      modifies this, mem
      ensures Valid() && unlocked == old(unlocked) && settings == flash.settings && OptionsStored()
      ensures Defaulted(mem[..], done) && Covers(done)
      ensures log == old(log) + ws && Outside(ws, cfg.core, cfg.core + MAGIC_SIZE)
      ensures mem[..] == Apply(old(mem[..]), ws)
    {
      ghost var m0, l0 := mem[..], log;
      assert SparedMagic(m0, l0);
      done := InitBody(m0, l0);
      ws := log[|l0|..];
    }

    /** eeconfig_init_via. The byte writes come in the order the crash-safety argument needs,
        and the finished image holds the defaults. */
    method InitVia(id: BuildId) returns (ghost erase: seq<Write>, ghost body: seq<Write>, ghost mark: seq<Write>)
      requires Valid()
      modifies this, mem
      ensures Valid() && settings == flash.settings && unlocked == old(unlocked)
      ensures cfg.core + MAGIC_SIZE <= mem.Length
      ensures log == old(log) + erase + body + mark
      ensures mem[..] == Apply(old(mem[..]), erase + body + mark)
      ensures IsInit(cfg, old(mem[..]), id, erase, body, mark)
      ensures AllReset(mem[..]) && OptionsStored()
    {
      ghost var m0 := mem[..];
      erase := SetMagic(ERASED);
      ghost var m1 := mem[..];
      ghost var done;
      body, done := Fill();
      ghost var m2 := mem[..];
      mark := Finish(id, done);
      CoveredIsReset(mem[..], done);
      InitAssembled(cfg, m0, m1, m2, id, erase, body, mark);
    }
  }

  /** The writes of a block, in order. */
  ghost function Block(addr: nat, bytes: seq<Byte>): (ws: seq<Write>)
    ensures |ws| == |bytes|
  {
    if bytes == [] then [] else Block(addr, bytes[..|bytes| - 1]) + [Write(addr + |bytes| - 1, bytes[|bytes| - 1])]
  }

  lemma BlockNext(addr: nat, bytes: seq<Byte>, i: nat)
    requires i < |bytes|
    ensures Block(addr, bytes[..i + 1]) == Block(addr, bytes[..i]) + [Write(addr + i, bytes[i])]
  {
    assert bytes[..i + 1][..i] == bytes[..i];
  }

  predicate HasDefault(c: Cell) {
    || c.Key? || c.Encoder? || c.TapDance? || c.Combo? || c.Override?
    || c.SettingByte? || c.LayoutByte? || c.MacroByte?
  }

  lemma WordAt(m: Image, address: nat)
    requires address + 2 <= |m|
    ensures Get(m, address, 2) == BigEndian(FromBigEndian(m[address], m[address + 1]))
  {
    BigEndianRoundTrip(0, m[address], m[address + 1]);
  }

  lemma KeyPlace(cfg: Config, layer: nat, row: nat, col: nat)
    requires cfg.Fits() && cfg.Has(Key(layer, row, col))
    ensures var c := cfg.Index(Key(layer, row, col));
      && cfg.Addr(Key(layer, row, col)) == cfg.KeymapAddr() + 2 * c && 2 * c + 1 < cfg.KeymapSize()
      && cfg.KeymapAddr() + cfg.KeymapSize() <= cfg.maxAddr + 1
  {
    AddrIsIndexed(cfg, Key(layer, row, col));
    RegionsInOrder(cfg, Keymap, Keymap);
  }

  /** A region of bytes shares none with a cell of another region. */
  lemma RegionApart(cfg: Config, r: Region, c: Cell)
    requires cfg.Fits() && cfg.Has(c) && cfg.RegionOf(c) != r && cfg.Width(r) == 1
    ensures Apart(cfg.Start(r), cfg.Count(r), cfg.Addr(c), cfg.Size(c))
    ensures cfg.Start(r) + cfg.Count(r) <= cfg.maxAddr + 1 && cfg.Addr(c) + cfg.Size(c) <= cfg.maxAddr + 1
  {
    CellInRegion(cfg, c);
    RegionsInOrder(cfg, r, cfg.RegionOf(c));
  }

  /** A write inside a region, seen from the region. */
  lemma PutInside(m: Image, start: nat, size: nat, offset: nat, bytes: seq<Byte>)
    requires offset + |bytes| <= size && start + size <= |m|
    ensures Put(m, start + offset, bytes)[start..start + size] == Put(m[start..start + size], offset, bytes)
    ensures forall i :: 0 <= i < |m| && (i < start || start + size <= i) ==> Put(m, start + offset, bytes)[i] == m[i]
  {
  }

  lemma GetPast(m: Image, addr: nat, b: Byte, start: nat, n: nat)
    requires addr < start && start + n <= |m|
    ensures Get(m[addr := b], start, n) == Get(m, start, n)
  {
  }

  lemma PutBefore(m: Image, addr: nat, bytes: seq<Byte>, b: Byte)
    requires addr + 1 + |bytes| <= |m|
    ensures Put(m, addr + 1, bytes)[addr := b] == Put(m, addr, [b] + bytes)
  {
    var l, r := Put(m, addr + 1, bytes)[addr := b], Put(m, addr, [b] + bytes);
    forall i | 0 <= i < |m| ensures l[i] == r[i] {
      PutAt(m, addr + 1, bytes, i);
      PutAt(m, addr, [b] + bytes, i);
    }
  }

  lemma PutNext(m: Image, addr: nat, bytes: seq<Byte>, i: nat)
    requires i < |bytes| && addr + |bytes| <= |m|
    ensures Put(m, addr, bytes[..i])[addr + i := bytes[i]] == Put(m, addr, bytes[..i + 1])
  {
  }

  lemma PastMagic(cfg: Config, c: Cell)
    requires cfg.Fits() && cfg.Has(c) && !c.MagicByte?
    ensures cfg.core + MAGIC_SIZE <= cfg.Addr(c)
  {
    CellInRegion(cfg, c);
    RegionsInOrder(cfg, Magic, cfg.RegionOf(c));
  }
}