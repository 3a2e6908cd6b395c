/** The accessors of quantum/dynamic_keymap.c and quantum/via.c, updating an EEPROM byte by byte. */
module Eeprom {
  import opened Basics
  import opened EepromLayout

  const KC_NO: Keycode := 0
  const QK_BOOT: Keycode := 0x7C00

  /** Keycodes are stored big endian. */
  function BigEndian(k: Keycode): (bs: seq<Byte>)
    ensures |bs| == 2
  {
    [k / 256, k % 256]
  }

  function FromBigEndian(hi: Byte, lo: Byte): Keycode { hi * 256 + lo }

  lemma BigEndianRoundTrip(k: Keycode, hi: Byte, lo: Byte)
    ensures FromBigEndian(BigEndian(k)[0], BigEndian(k)[1]) == k
    ensures BigEndian(FromBigEndian(hi, lo)) == [hi, lo]
  {
  }

  // ---------- the whole-keymap buffer ----------

  /** The keycode of the c-th cell of a keymap region. */
  function CellAt(region: Image, c: nat): Keycode
    requires 2 * c + 1 < |region|
  {
    FromBigEndian(region[2 * c], region[2 * c + 1])
  }

  predicate Touched(offset: nat, size: nat, c: nat) { size > 0 && offset < 2 * c + 2 && 2 * c < offset + size }

  /** What is written in place of `data`: bytes of cells that would become QK_BOOT turn into 0xFF. */
  function Filtered(region: Image, offset: nat, data: seq<Byte>): (f: seq<Byte>)
    requires |region| % 2 == 0 && offset + |data| <= |region|
    ensures |f| == |data|
  {
    var flat := Put(region, offset, data);
    seq(|data|, i requires 0 <= i < |data| => if CellAt(flat, (offset + i) / 2) == QK_BOOT then 0xFF else data[i])
  }

  /** dynamic_keymap_set_buffer on the keymap region */
  function SetBuffer(region: Image, offset: nat, data: seq<Byte>, unlocked: bool): (r: Image)
    requires |region| % 2 == 0
    ensures |r| == |region|
  {
    if offset >= |region| || |region| - offset < |data| then region
    else Put(region, offset, if unlocked then data else Filtered(region, offset, data))
  }

  lemma LockedByte(region: Image, offset: nat, data: seq<Byte>, i: nat, c: nat)
    requires |region| % 2 == 0 && i < |region| && c == i / 2 && offset < |region| && |data| <= |region| - offset
    ensures var flat := Put(region, offset, data);
      SetBuffer(region, offset, data, false)[i]
      == if offset <= i < offset + |data| && CellAt(flat, c) == QK_BOOT then 0xFF else flat[i]
  {
    PutAt(region, offset, data, i);
    PutAt(region, offset, Filtered(region, offset, data), i);
    if offset <= i < offset + |data| {
      assert offset + (i - offset) == i;
      assert Filtered(region, offset, data)[i - offset]
          == if CellAt(Put(region, offset, data), (offset + (i - offset)) / 2) == QK_BOOT
             then 0xFF else data[i - offset];
    }
  }

  /** Both bytes of a cell after a locked write. */
  lemma LockedCell(region: Image, offset: nat, data: seq<Byte>, c: nat)
    requires |region| % 2 == 0 && 2 * c + 1 < |region| && offset < |region| && |data| <= |region| - offset
    ensures var flat, r := Put(region, offset, data), SetBuffer(region, offset, data, false);
      var boot := CellAt(flat, c) == QK_BOOT;
      && r[2 * c] == (if offset <= 2 * c < offset + |data| && boot then 0xFF else flat[2 * c])
      && r[2 * c + 1] == (if offset <= 2 * c + 1 < offset + |data| && boot then 0xFF else flat[2 * c + 1])
  {
    LockedByte(region, offset, data, 2 * c, c);
    LockedByte(region, offset, data, 2 * c + 1, c);
  }

  lemma BootBytes(hi: Byte, lo: Byte)
    ensures FromBigEndian(hi, lo) == QK_BOOT <==> hi == 0x7C && lo == 0
  {
  }

  /** The locked write: it is all or nothing; no cell it touches ends as QK_BOOT; cells that
      would not have become QK_BOOT read exactly as if the data had been written; other cells
      keep their value. */
  lemma LockedWrite(region: Image, offset: nat, data: seq<Byte>, c: nat)
    requires |region| % 2 == 0 && 2 * c + 1 < |region|
    ensures var r := SetBuffer(region, offset, data, false);
      if offset >= |region| || |region| - offset < |data| then r == region
      else
        var flat := Put(region, offset, data);
        && (Touched(offset, |data|, c) ==> CellAt(r, c) != QK_BOOT)
        && (!Touched(offset, |data|, c) ==> CellAt(r, c) == CellAt(region, c))
        && (CellAt(flat, c) != QK_BOOT ==> CellAt(r, c) == CellAt(flat, c))
  {
    if offset < |region| && |data| <= |region| - offset {
      LockedCell(region, offset, data, c);
      var r, flat := SetBuffer(region, offset, data, false), Put(region, offset, data);
      BootBytes(r[2 * c], r[2 * c + 1]);
      BootBytes(flat[2 * c], flat[2 * c + 1]);
      PutAt(region, offset, data, 2 * c);
      PutAt(region, offset, data, 2 * c + 1);
    }
  }

  /** The cells of the plainly written region, seen from the data. */
  lemma FlatCell(region: Image, offset: nat, data: seq<Byte>, k: int)
    requires |region| % 2 == 0 && offset + |data| <= |region|
    requires (offset + k) % 2 == 0 && -1 <= k < |data| && 0 <= offset + k && data != []
    ensures CellAt(Put(region, offset, data), (offset + k) / 2)
         == FromBigEndian(if k < 0 then region[offset - 1] else data[k],
                          if k + 1 < |data| then data[k + 1] else region[offset + |data|])
  {
    var c := (offset + k) / 2;
    assert 2 * c == offset + k;
    PutAt(region, offset, data, 2 * c);
    PutAt(region, offset, data, 2 * c + 1);
  }

  lemma FilteredAt(region: Image, offset: nat, data: seq<Byte>, k: nat)
    requires |region| % 2 == 0 && offset + |data| <= |region| && k < |data|
    ensures var even := if (offset + k) % 2 == 0 then k else k - 1;
      (offset + even) % 2 == 0 && 0 <= offset + even
      && Filtered(region, offset, data)[k]
         == if CellAt(Put(region, offset, data), (offset + even) / 2) == QK_BOOT then 0xFF else data[k]
  {
  }

  /** A keycode that lies wholly inside the data. */
  predicate PairFiltered(data: seq<Byte>, f: seq<Byte>, k: nat)
    requires k + 1 < |data| && |f| == |data|
  {
    var boot := FromBigEndian(data[k], data[k + 1]) == QK_BOOT;
    f[k] == (if boot then 0xFF else data[k]) && f[k + 1] == (if boot then 0xFF else data[k + 1])
  }

  lemma FilteredPair(region: Image, offset: nat, data: seq<Byte>, k: nat)
    requires |region| % 2 == 0 && offset + |data| <= |region| && k + 1 < |data| && (offset + k) % 2 == 0
    ensures PairFiltered(data, Filtered(region, offset, data), k)
  {
    FlatCell(region, offset, data, k);
    FilteredAt(region, offset, data, k);
    FilteredAt(region, offset, data, k + 1);
  }

  /** How dynamic_keymap_set_buffer gets there: the first and last byte by themselves if they
      share a keycode with a byte outside, the others in pairs. */
  predicate FilteredParts(region: Image, offset: nat, data: seq<Byte>, f: seq<Byte>)
    requires offset + |data| <= |region| && |region| % 2 == 0
  {
    && |f| == |data|
    && (data != [] && offset % 2 == 1 ==>
         f[0] == if FromBigEndian(region[offset - 1], data[0]) == QK_BOOT then 0xFF else data[0])
    && (data != [] && (offset + |data|) % 2 == 1 ==>
         f[|data| - 1]
           == if FromBigEndian(data[|data| - 1], region[offset + |data|]) == QK_BOOT then 0xFF else data[|data| - 1])
    && forall k :: 0 <= k < |data| - 1 && (offset + k) % 2 == 0 ==> PairFiltered(data, f, k)
  }

  lemma FilteredByParts(region: Image, offset: nat, data: seq<Byte>)
    requires |region| % 2 == 0 && offset + |data| <= |region|
    ensures FilteredParts(region, offset, data, Filtered(region, offset, data))
  {
    if data != [] && offset % 2 == 1 {
      FlatCell(region, offset, data, -1);
      FilteredAt(region, offset, data, 0);
    }
    if data != [] && (offset + |data|) % 2 == 1 {
      FlatCell(region, offset, data, |data| - 1);
      FilteredAt(region, offset, data, |data| - 1);
    }
    forall k | 0 <= k < |data| - 1 && (offset + k) % 2 == 0
      ensures PairFiltered(data, Filtered(region, offset, data), k)
    {
      FilteredPair(region, offset, data, k);
    }
  }

  datatype Upload = Upload(offset: nat, data: seq<Byte>)

  function Uploads(region: Image, us: seq<Upload>): (r: Image)
    requires |region| % 2 == 0
    ensures |r| == |region|
  {
    if us == [] then region
    else SetBuffer(Uploads(region, us[..|us| - 1]), us[|us| - 1].offset, us[|us| - 1].data, false)
  }

  /** Over any series of locked writes no cell becomes QK_BOOT that was not before. */
  lemma {:induction false} LockedRunsAddNoBoot(region: Image, us: seq<Upload>, c: nat)
    requires |region| % 2 == 0 && 2 * c + 1 < |region|
    ensures CellAt(Uploads(region, us), c) == QK_BOOT ==> CellAt(region, c) == QK_BOOT
  {
    if us != [] {
      var past := Uploads(region, us[..|us| - 1]);
      LockedRunsAddNoBoot(region, us[..|us| - 1], c);
      LockedWrite(past, us[|us| - 1].offset, us[|us| - 1].data, c);
    }
  }

  // ---------- byte writes ----------

  datatype Write = Write(addr: nat, value: Byte)

  function Apply(m: Image, ws: seq<Write>): (r: Image)
    ensures |r| == |m|
  {
    if ws == [] then m
    else
      var p := Apply(m, ws[..|ws| - 1]);
      var w := ws[|ws| - 1];
      if w.addr < |p| then p[w.addr := w.value] else p
  }

  lemma {:induction false} ApplyConcat(m: Image, a: seq<Write>, b: seq<Write>)
    ensures Apply(m, a + b) == Apply(Apply(m, a), b)
  {
    if b == [] {
      assert a + b == a;
    } else {
      assert (a + b)[..|a + b| - 1] == a + b[..|b| - 1];
      ApplyConcat(m, a, b[..|b| - 1]);
    }
  }

  predicate Within(ws: seq<Write>, lo: nat, hi: nat) {
    forall i :: 0 <= i < |ws| ==> lo <= ws[i].addr < hi
  }

  predicate Outside(ws: seq<Write>, lo: nat, hi: nat) {
    forall i :: 0 <= i < |ws| ==> ws[i].addr < lo || hi <= ws[i].addr
  }

  lemma {:induction false} ApplyOutside(m: Image, ws: seq<Write>, lo: nat, hi: nat)
    requires Outside(ws, lo, hi) && lo <= hi <= |m|
    ensures Apply(m, ws)[lo..hi] == m[lo..hi]
  {
    if ws != [] { ApplyOutside(m, ws[..|ws| - 1], lo, hi); }
  }

  lemma {:induction false} ApplyWithin(m: Image, ws: seq<Write>, lo: nat, hi: nat, i: nat)
    requires Within(ws, lo, hi) && i < |m| && (i < lo || hi <= i)
    ensures Apply(m, ws)[i] == m[i]
  {
    if ws != [] { ApplyWithin(m, ws[..|ws| - 1], lo, hi, i); }
  }

  // ---------- crash safety of eeconfig_init_via ----------

  /** The three bytes of BUILD_ID. */
  type BuildId = s: seq<Byte> | |s| == MAGIC_SIZE witness [0, 0, 0]

  const ERASED: BuildId := [0xFF, 0xFF, 0xFF]

  /** via_eeprom_is_valid */
  predicate IsValid(cfg: Config, m: Image, id: BuildId)
    requires cfg.core + MAGIC_SIZE <= |m|
  {
    m[cfg.core..cfg.core + MAGIC_SIZE] == id
  }

  /** The writes of eeconfig_init_via: first the magic is erased, then everything else is
      written, last the magic is set. */
  predicate IsInit(cfg: Config, m: Image, id: BuildId, erase: seq<Write>, body: seq<Write>, mark: seq<Write>)
    requires cfg.core + MAGIC_SIZE <= |m|
  {
    && Within(erase, cfg.core, cfg.core + MAGIC_SIZE)
    && IsValid(cfg, Apply(m, erase), ERASED)
    && Outside(body, cfg.core, cfg.core + MAGIC_SIZE)
    && Within(mark, cfg.core, cfg.core + MAGIC_SIZE)
    && IsValid(cfg, Apply(Apply(m, erase), body + mark), id)
  }

  /** The image if power fails after n bytes. */
  function Crashed(m: Image, ws: seq<Write>, n: nat): Image
    requires n <= |ws|
  {
    Apply(m, ws[..n])
  }

  lemma CrashedInBody(cfg: Config, m: Image, id: BuildId, erase: seq<Write>, body: seq<Write>, mark: seq<Write>, n: nat)
    requires cfg.core + MAGIC_SIZE <= |m| && IsInit(cfg, m, id, erase, body, mark)
    requires |erase| <= n <= |erase| + |body|
    ensures IsValid(cfg, Crashed(m, erase + body + mark, n), ERASED)
  {
    var k := n - |erase|;
    assert (erase + body + mark)[..n] == erase + body[..k];
    ApplyConcat(m, erase, body[..k]);
    ApplyOutside(Apply(m, erase), body[..k], cfg.core, cfg.core + MAGIC_SIZE);
  }

  /** Crash safety: if the image is valid after any number of byte writes, then either
      nothing outside the magic has been written yet or everything has. That holds exactly
      because BUILD_ID is never 0xFFFFFF: with that id a half-written image counts as valid
      (unless the body is at most one write, which cannot be half done). */
  lemma CrashSafe(cfg: Config, m: Image, id: BuildId, erase: seq<Write>, body: seq<Write>, mark: seq<Write>)
    requires cfg.core + MAGIC_SIZE <= |m| && IsInit(cfg, m, id, erase, body, mark)
    ensures id != ERASED || |body| <= 1
       <==> forall n :: 0 <= n <= |erase + body + mark| && IsValid(cfg, Crashed(m, erase + body + mark, n), id) ==>
      n <= |erase| || |erase| + |body| <= n
  {
    var ws := erase + body + mark;
    forall n | |erase| <= n <= |erase| + |body| ensures IsValid(cfg, Crashed(m, ws, n), ERASED) {
      CrashedInBody(cfg, m, id, erase, body, mark, n);
    }
    if id == ERASED && |body| > 1 {
      assert IsValid(cfg, Crashed(m, ws, |erase| + 1), id);
    }
  }

  /** What the two outcomes mean: before the body every byte outside the magic is the old
      one; after it every such byte is the finished image's. */
  lemma CrashOutcome(cfg: Config, m: Image, id: BuildId,
                      erase: seq<Write>, body: seq<Write>, mark: seq<Write>, n: nat, i: nat)
    requires cfg.core + MAGIC_SIZE <= |m| && IsInit(cfg, m, id, erase, body, mark)
    requires n <= |erase + body + mark| && i < |m| && (i < cfg.core || cfg.core + MAGIC_SIZE <= i)
    ensures n <= |erase| ==> Crashed(m, erase + body + mark, n)[i] == m[i]
    ensures |erase| + |body| <= n ==> Crashed(m, erase + body + mark, n)[i] == Apply(m, erase + body + mark)[i]
  {
    var ws := erase + body + mark;
    if n <= |erase| {
      assert ws[..n] == erase[..n];
      ApplyWithin(m, erase[..n], cfg.core, cfg.core + MAGIC_SIZE, i);
    }
    if |erase| + |body| <= n {
      var k := n - |erase| - |body|;
      assert ws[..n] == (erase + body) + mark[..k];
      ApplyConcat(m, erase + body, mark[..k]);
      ApplyConcat(m, erase + body, mark);
      ApplyWithin(Apply(m, erase + body), mark[..k], cfg.core, cfg.core + MAGIC_SIZE, i);
      ApplyWithin(Apply(m, erase + body), mark, cfg.core, cfg.core + MAGIC_SIZE, i);
    }
  }

  /** The three parts of eeconfig_init_via make up its write sequence. */
  lemma InitAssembled(cfg: Config, m0: Image, m1: Image, m2: Image, id: BuildId,
                       erase: seq<Write>, body: seq<Write>, mark: seq<Write>)
    requires cfg.core + MAGIC_SIZE <= |m0|
    requires m1 == Apply(m0, erase) && IsValid(cfg, m1, ERASED) && m2 == Apply(m1, body)
    requires IsValid(cfg, Apply(m2, mark), id)
    requires Within(erase, cfg.core, cfg.core + MAGIC_SIZE) && Within(mark, cfg.core, cfg.core + MAGIC_SIZE)
    requires Outside(body, cfg.core, cfg.core + MAGIC_SIZE)
    ensures IsInit(cfg, m0, id, erase, body, mark)
    ensures Apply(m2, mark) == Apply(m0, erase + body + mark)
  {
    ApplyConcat(m1, body, mark);
    ThreeParts(m0, erase, body, mark);
  }

  lemma ThreeParts(m: Image, a: seq<Write>, b: seq<Write>, c: seq<Write>)
    ensures Apply(m, a + b + c) == Apply(Apply(Apply(m, a), b), c)
  {
    ApplyConcat(m, a + b, c);
    ApplyConcat(m, a, b);
  }
}
