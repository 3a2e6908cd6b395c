/** UF2 encoding and decoding of util/uf2conv.py (UF2 File Format Specification, section
    "File format"). */
module Uf2 {
  import opened Basics

  type Word = w: int | 0 <= w < 0x1_0000_0000

  const MAGIC_START0: Word := 0x0A324655
  const MAGIC_START1: Word := 0x9E5D5157
  const MAGIC_END: Word := 0x0AB16F30
  const FLAG_NOFLASH := 0x0001
  const FLAG_FAMILY := 0x2000
  const BLOCK := 512
  const HEADER := 32
  const PAYLOAD := 256
  const MAX_DATA := 476
  const MAX_PADDING := 0xA0_0000

  // ---------- little-endian words ----------

  function Pack(w: Word): (bs: seq<Byte>)
    ensures |bs| == 4
  {
    [w % 0x100, w / 0x100 % 0x100, w / 0x1_0000 % 0x100, w / 0x100_0000]
  }

  function Unpack(bs: seq<Byte>, i: nat): Word
    requires 4 * i + 4 <= |bs|
  {
    var b0: int, b1: int, b2: int, b3: int := bs[4 * i], bs[4 * i + 1], bs[4 * i + 2], bs[4 * i + 3];
    b0 + 0x100 * b1 + 0x1_0000 * b2 + 0x100_0000 * b3
  }

  lemma Digits(w: Word)
    ensures w % 0x100 + 0x100 * (w / 0x100 % 0x100) + 0x1_0000 * (w / 0x1_0000 % 0x100) + 0x100_0000 * (w / 0x100_0000)
       == w
  {
    var w1 := w / 0x100;
    var w2 := w1 / 0x100;
    assert w / 0x1_0000 == w2 && w / 0x100_0000 == w2 / 0x100;
  }

  lemma UnpackPack(bs: seq<Byte>, i: nat, w: Word)
    requires 4 * i + 4 <= |bs|
    requires bs[4 * i] == Pack(w)[0] && bs[4 * i + 1] == Pack(w)[1]
      && bs[4 * i + 2] == Pack(w)[2] && bs[4 * i + 3] == Pack(w)[3]
    ensures Unpack(bs, i) == w
  {
    Digits(w);
  }

  /** The eight words in front of a block. */
  datatype Header = Header(magic0: Word, magic1: Word, flags: Word, addr: Word,
                             size: Word, no: Word, count: Word, family: Word)

  function Pack4(a: Word, b: Word, c: Word, d: Word): (bs: seq<Byte>)
    ensures |bs| == 16
  {
    Pack(a) + Pack(b) + Pack(c) + Pack(d)
  }

  lemma Unpack4(a: Word, b: Word, c: Word, d: Word, rest: seq<Byte>)
    ensures var bs := Pack4(a, b, c, d) + rest;
      Unpack(bs, 0) == a && Unpack(bs, 1) == b && Unpack(bs, 2) == c && Unpack(bs, 3) == d
  {
    var bs := Pack4(a, b, c, d) + rest;
    UnpackPack(bs, 0, a);
    UnpackPack(bs, 1, b);
    UnpackPack(bs, 2, c);
    UnpackPack(bs, 3, d);
  }

  function PackHeader(h: Header): (bs: seq<Byte>)
    ensures |bs| == HEADER
  {
    Pack4(h.magic0, h.magic1, h.flags, h.addr) + Pack4(h.size, h.no, h.count, h.family)
  }

  function UnpackHeader(bs: seq<Byte>): Header
    requires |bs| >= HEADER
  {
    Header(Unpack(bs, 0), Unpack(bs, 1), Unpack(bs, 2), Unpack(bs, 3),
           Unpack(bs, 4), Unpack(bs, 5), Unpack(bs, 6), Unpack(bs, 7))
  }

  lemma UnpackLater(bs: seq<Byte>, i: nat)
    requires 4 * i + 20 <= |bs|
    ensures Unpack(bs, i + 4) == Unpack(bs[16..], i)
  {
  }

  lemma HeaderRoundTrip(h: Header, rest: seq<Byte>)
    ensures UnpackHeader(PackHeader(h) + rest) == h
  {
    var low, high := Pack4(h.magic0, h.magic1, h.flags, h.addr), Pack4(h.size, h.no, h.count, h.family);
    var bs := PackHeader(h) + rest;
    assert bs == low + (high + rest) && bs[16..] == high + rest;
    Unpack4(h.magic0, h.magic1, h.flags, h.addr, high + rest);
    Unpack4(h.size, h.no, h.count, h.family, rest);
    UnpackLater(bs, 0);
    UnpackLater(bs, 1);
    UnpackLater(bs, 2);
    UnpackLater(bs, 3);
  }

  predicate Flag(flags: Word, bit: nat)
    requires bit > 0
  {
    flags / bit % 2 == 1
  }

  // ---------- encoding ----------

  function Zeros(n: nat): (z: seq<Byte>)
    ensures |z| == n
  {
    seq(n, _ => 0)
  }

  function BlockCount(content: seq<Byte>): nat { (|content| + 255) / 256 }

  /** The content, filled up with zeros to whole payloads. */
  function Padded(content: seq<Byte>): (p: seq<Byte>)
    ensures |p| == PAYLOAD * BlockCount(content)
  {
    content + Zeros(PAYLOAD * BlockCount(content) - |content|)
  }

  /** The i-th payload. */
  function Payload(content: seq<Byte>, i: nat): (p: seq<Byte>)
    requires i < BlockCount(content)
    ensures |p| == PAYLOAD
  {
    Padded(content)[PAYLOAD * i..PAYLOAD * i + PAYLOAD]
  }

  /** All block addresses and the block count fit 32 bits; otherwise struct.pack raises. */
  predicate Fits(content: seq<Byte>, start: nat) {
    BlockCount(content) > 0 ==>
      start + PAYLOAD * (BlockCount(content) - 1) < 0x1_0000_0000 && BlockCount(content) < 0x1_0000_0000
  }

  /** An image can be encoded exactly if it is empty, or its last byte has a block number that
      leaves room for the count and lies in a block whose address is a 32-bit word. */
  lemma FitsExactly(content: seq<Byte>, start: nat)
    ensures Fits(content, start) <==>
            content == []
            || ((|content| - 1) / 256 < 0xFFFF_FFFF && start + (|content| - 1) / 256 * 256 <= 0xFFFF_FFFF)
  {
    if content != [] {
      assert (|content| + 255) / 256 == (|content| - 1) / 256 + 1;
    }
  }

  function HeaderOf(content: seq<Byte>, start: nat, family: Word, i: nat): Header
    requires Fits(content, start) && i < BlockCount(content)
  {
    Header(MAGIC_START0, MAGIC_START1, if family != 0 then FLAG_FAMILY else 0,
           start + PAYLOAD * i, PAYLOAD, i, BlockCount(content), family)
  }

  function BlockOf(content: seq<Byte>, start: nat, family: Word, i: nat): (b: seq<Byte>)
    requires Fits(content, start) && i < BlockCount(content)
    ensures |b| == BLOCK
  {
    PackHeader(HeaderOf(content, start, family, i))
    + (Payload(content, i) + Zeros(BLOCK - PAYLOAD - HEADER - 4) + Pack(MAGIC_END))
  }

  /** The first n blocks of convert_to_uf2. */
  function Blocks(content: seq<Byte>, start: nat, family: Word, n: nat): (bs: seq<Byte>)
    requires Fits(content, start) && n <= BlockCount(content)
    ensures |bs| == BLOCK * n
  {
    if n == 0 then [] else Blocks(content, start, family, n - 1) + BlockOf(content, start, family, n - 1)
  }

  function Encode(content: seq<Byte>, start: nat, family: Word): (bs: seq<Byte>)
    requires Fits(content, start)
    ensures |bs| == BLOCK * BlockCount(content)
  {
    Blocks(content, start, family, BlockCount(content))
  }

  // ---------- the file, byte by byte ----------

  /** The four bytes from a on are w, least significant first. */
  predicate WordAt(bs: seq<Byte>, a: nat, w: int) {
    && a + 4 <= |bs|
    && var b0: int, b1: int, b2: int, b3: int := bs[a], bs[a + 1], bs[a + 2], bs[a + 3];
       b0 + 0x100 * b1 + 0x1_0000 * b2 + 0x100_0000 * b3 == w
  }

  lemma PackedAt(bs: seq<Byte>, a: nat, w: Word)
    requires a + 4 <= |bs| && bs[a..a + 4] == Pack(w)
    ensures WordAt(bs, a, w)
  {
    Digits(w);
    assert bs[a] == Pack(w)[0] && bs[a + 1] == Pack(w)[1] && bs[a + 2] == Pack(w)[2] && bs[a + 3] == Pack(w)[3];
  }

  lemma PartOf(bs: seq<Byte>, o: nat, all: seq<Byte>, x: nat)
    requires o + |all| <= |bs| && bs[o..o + |all|] == all && x + 4 <= |all|
    ensures bs[o + x..o + x + 4] == all[x..x + 4]
  {
    var part, want := bs[o + x..o + x + 4], all[x..x + 4];
    forall k | 0 <= k < 4 ensures part[k] == want[k] {
      assert bs[o..o + |all|][x + k] == bs[o + x + k];
    }
  }

  lemma Packed4At(bs: seq<Byte>, o: nat, a: Word, b: Word, c: Word, d: Word)
    requires o + 16 <= |bs| && bs[o..o + 16] == Pack4(a, b, c, d)
    ensures WordAt(bs, o, a) && WordAt(bs, o + 4, b) && WordAt(bs, o + 8, c) && WordAt(bs, o + 12, d)
  {
    var all := Pack4(a, b, c, d);
    assert all[0..4] == Pack(a) && all[4..8] == Pack(b) && all[8..12] == Pack(c) && all[12..16] == Pack(d);
    PartOf(bs, o, all, 0);
    PartOf(bs, o, all, 4);
    PartOf(bs, o, all, 8);
    PartOf(bs, o, all, 12);
    PackedAt(bs, o, a);
    PackedAt(bs, o + 4, b);
    PackedAt(bs, o + 8, c);
    PackedAt(bs, o + 12, d);
  }

  lemma PrefixStays(p: seq<Byte>, past: seq<Byte>, last: seq<Byte>, bs: seq<Byte>)
    requires p <= past && bs == past + last
    ensures p <= bs
  {
  }

  lemma CutBack(bs: seq<Byte>, p: seq<Byte>, past: seq<Byte>, last: seq<Byte>, lo: nat, hi: nat)
    requires p == past + last && p <= bs && lo == |past| && hi == |p|
    ensures hi <= |bs| && bs[lo..hi] == last
  {
    assert bs[lo..hi] == p[lo..hi] == last;
  }

  lemma OneMoreBlock(content: seq<Byte>, start: nat, family: Word, n: nat)
    requires Fits(content, start) && n < BlockCount(content)
    ensures Blocks(content, start, family, n + 1)
         == Blocks(content, start, family, n) + BlockOf(content, start, family, n)
  {
  }

  /** The first m blocks are the first of n. */
  lemma {:induction false} BlocksPrefix(content: seq<Byte>, start: nat, family: Word, n: nat, m: nat)
    requires Fits(content, start) && m <= n <= BlockCount(content)
    ensures Blocks(content, start, family, m) <= Blocks(content, start, family, n)
  {
    if m < n {
      BlocksPrefix(content, start, family, n - 1, m);
      OneMoreBlock(content, start, family, n - 1);
      PrefixStays(Blocks(content, start, family, m), Blocks(content, start, family, n - 1),
                  BlockOf(content, start, family, n - 1), Blocks(content, start, family, n));
    }
  }

  lemma BlockIn(content: seq<Byte>, start: nat, family: Word, n: nat, i: nat)
    requires Fits(content, start) && i < n <= BlockCount(content)
    ensures BLOCK * i + BLOCK <= BLOCK * n
    ensures Blocks(content, start, family, n)[BLOCK * i..BLOCK * i + BLOCK] == BlockOf(content, start, family, i)
  {
    BlocksPrefix(content, start, family, n, i + 1);
    OneMoreBlock(content, start, family, i);
    CutBack(Blocks(content, start, family, n), Blocks(content, start, family, i + 1), Blocks(content, start, family, i),
            BlockOf(content, start, family, i), BLOCK * i, BLOCK * i + BLOCK);
  }

  /** The eight words in front of a block, and the one at its end. */
  predicate HasWords(b: seq<Byte>, flags: int, addr: int, no: int, count: int, family: int) {
    && WordAt(b, 0, 0x0A324655) && WordAt(b, 4, 0x9E5D5157) && WordAt(b, 8, flags) && WordAt(b, 12, addr)
    && WordAt(b, 16, 256) && WordAt(b, 20, no) && WordAt(b, 24, count) && WordAt(b, 28, family)
    && WordAt(b, 508, 0x0AB16F30)
  }

  lemma HeaderWords(b: seq<Byte>, h: Header)
    requires |b| == BLOCK && b[..HEADER] == PackHeader(h)
    ensures WordAt(b, 0, h.magic0) && WordAt(b, 4, h.magic1) && WordAt(b, 8, h.flags) && WordAt(b, 12, h.addr)
    ensures WordAt(b, 16, h.size) && WordAt(b, 20, h.no) && WordAt(b, 24, h.count) && WordAt(b, 28, h.family)
  {
    var low, high := Pack4(h.magic0, h.magic1, h.flags, h.addr), Pack4(h.size, h.no, h.count, h.family);
    assert b[0..16] == b[..HEADER][..16] == low;
    assert b[16..32] == b[..HEADER][16..] == high;
    Packed4At(b, 0, h.magic0, h.magic1, h.flags, h.addr);
    Packed4At(b, 16, h.size, h.no, h.count, h.family);
  }

  lemma BlockParts(content: seq<Byte>, start: nat, family: Word, i: nat)
    requires Fits(content, start) && i < BlockCount(content)
    ensures var b := BlockOf(content, start, family, i);
      && b[..32] == PackHeader(HeaderOf(content, start, family, i)) && b[32..288] == Payload(content, i)
      && (forall k :: 288 <= k < 508 ==> b[k] == 0) && b[508..512] == Pack(MAGIC_END)
  {
  }

  /** What the encoder writes: block i of an image stands at 512*i; the words of its header are
      the two magics, the family flag, the address, 256, its number, the count and the family;
      then come 256 bytes of the content, zeros behind its end, and the final magic. */
  lemma EncodedBytes(content: seq<Byte>, start: nat, family: Word, i: nat)
    requires Fits(content, start) && i < (|content| + 255) / 256
    ensures var bs, n := Encode(content, start, family), (|content| + 255) / 256;
      && |bs| == 512 * n
      && var b := bs[512 * i..512 * i + 512];
         && HasWords(b, if family != 0 then 0x2000 else 0, start + 256 * i, i, n, family)
         && (forall k :: 32 <= k < 288 ==>
               b[k] == if 256 * i + k - 32 < |content| then content[256 * i + k - 32] else 0)
         && forall k :: 288 <= k < 508 ==> b[k] == 0
  {
    var b := BlockOf(content, start, family, i);
    BlockIn(content, start, family, BlockCount(content), i);
    BlockParts(content, start, family, i);
    HeaderWords(b, HeaderOf(content, start, family, i));
    PackedAt(b, 508, MAGIC_END);
    PayloadBytes(content, i, b);
  }

  lemma PayloadBytes(content: seq<Byte>, i: nat, b: seq<Byte>)
    requires i < BlockCount(content) && |b| == BLOCK && b[32..288] == Payload(content, i)
    ensures forall k :: 32 <= k < 288 ==>
              b[k] == if 256 * i + k - 32 < |content| then content[256 * i + k - 32] else 0
  {
    forall k | 32 <= k < 288
      ensures b[k] == if 256 * i + k - 32 < |content| then content[256 * i + k - 32] else 0
    {
      assert b[k] == b[32..288][k - 32] == Padded(content)[256 * i + (k - 32)];
    }
  }

  // ---------- decoding ----------

  /** What the decoder looks at in a block. */
  datatype View = View(header: Header, data: seq<Byte>)

  function ViewOf(block: seq<Byte>): (v: View)
    requires |block| == BLOCK
    ensures v.header.size <= 476 ==> v.data == block[32..32 + v.header.size]
  {
    var h := UnpackHeader(block);
    View(h, if h.size <= MAX_DATA then block[HEADER..HEADER + h.size] else [])
  }

  /** The whole blocks of a file; bytes behind the last whole block are ignored. */
  function Views(buf: seq<Byte>): (vs: seq<View>)
    ensures |vs| == |buf| / BLOCK
  {
    seq(|buf| / BLOCK, i requires 0 <= i < |buf| / BLOCK => ViewOf(buf[BLOCK * i..BLOCK * i + BLOCK]))
  }

  /** The loop state of convert_from_uf2; -1 stands for None. */
  datatype State = State(curr: int, family: int, out: seq<Byte>, start: nat, families: set<Word>)

  datatype Result = Ok(state: State) | Error

  /** One turn of the loop; `want` is the requested family, 0 for any. The error messages of the
      original add a number to a string, so each of them raises, also where a bad block was to
      be skipped. */
  function TakeBlock(s: State, v: View, want: Word): Result {
    var h := v.header;
    var tagged := Flag(h.flags, FLAG_FAMILY);
    if h.magic0 != MAGIC_START0 || h.magic1 != MAGIC_START1 then Error
    else if Flag(h.flags, FLAG_NOFLASH) then Ok(s)
    else if h.size > MAX_DATA then Error
    else
      var fam := if tagged && s.family == -1 then h.family else s.family;
      var anew := s.curr == -1 || (tagged && h.family != fam);
      var curr := if anew then h.addr else s.curr;
      var start := if anew && (want == 0 || want == h.family) then h.addr else s.start;
      var padding := h.addr - curr;
      if padding < 0 || padding > MAX_PADDING || padding % 4 != 0 then Error
      else
        var data := if want == 0 || (tagged && want == h.family) then v.data else [];
        Ok(State(h.addr + h.size, if anew then h.family else fam, s.out + Zeros(padding) + data, start,
                 if tagged then s.families + {h.family} else s.families))
  }

  /** The loop over blocks. */
  function TakeBlocks(s: State, vs: seq<View>, want: Word): Result {
    if vs == [] then Ok(s)
    else
      var r := TakeBlocks(s, vs[..|vs| - 1], want);
      if r.Error? then Error else TakeBlock(r.state, vs[|vs| - 1], want)
  }

  function Initial(start: nat): State { State(-1, -1, [], start, {}) }

  /** The end of the last turn: several families without a choice give nothing, unless the last
      block was one of those to skip, since the test stands behind the skip. */
  function Conclude(s: State, last: View, want: Word): State {
    if |s.families| > 1 && want == 0 && !Flag(last.header.flags, FLAG_NOFLASH) then s.(out := [], start := 0) else s
  }

  /** Data and start address of the image. */
  datatype Decoded = Image(data: seq<Byte>, start: nat) | Failed

  function DecodeViews(vs: seq<View>, start: nat, want: Word): Decoded {
    var r := TakeBlocks(Initial(start), vs, want);
    if r.Error? then Failed
    else
      var s := if vs == [] then r.state else Conclude(r.state, vs[|vs| - 1], want);
      Image(s.out, s.start)
  }

  function Decode(buf: seq<Byte>, start: nat, want: Word): Decoded {
    DecodeViews(Views(buf), start, want)
  }

  // ---------- arbitrary files ----------

  /** The block is meant for the flash. */
  predicate Flashes(v: View) { v.header.flags % 2 == 0 }

  /** Where the decoder stands before the block: at its address, if it is the first one or the
      first of its family, else behind the block before. */
  function Position(s: State, v: View): int {
    var tagged := v.header.flags / 0x2000 % 2 == 1;
    if s.curr == -1 || (tagged && s.family != -1 && v.header.family != s.family) then v.header.addr else s.curr
  }

  /** A block is refused exactly for a bad magic, more than 476 bytes, or a gap in front of it
      that is negative, more than 10 MB or no multiple of 4; of a block that is not meant for
      the flash only the magic matters. */
  lemma RefusedExactly(s: State, v: View, want: Word)
    ensures var h, gap := v.header, v.header.addr - Position(s, v);
      TakeBlock(s, v, want).Error?
      <==> || h.magic0 != 0x0A324655 || h.magic1 != 0x9E5D5157
           || (Flashes(v) && (h.size > 476 || gap < 0 || gap > 10 * 1024 * 1024 || gap % 4 != 0))
  {
  }

  /** A block not meant for the flash changes nothing. */
  lemma NotFlashedSkipped(s: State, v: View, want: Word)
    requires !Flashes(v) && v.header.magic0 == 0x0A324655 && v.header.magic1 == 0x9E5D5157
    ensures TakeBlock(s, v, want) == Ok(s)
  {
  }

  /** All blocks for the flash carry no family, and none is asked for. */
  predicate Plain(vs: seq<View>) {
    forall i :: 0 <= i < |vs| && Flashes(vs[i]) ==>
      vs[i].header.flags / 0x2000 % 2 == 0 && |vs[i].data| == vs[i].header.size
  }

  /** The image from address a on holds the block's data at the block's address. */
  predicate Placed(out: seq<Byte>, a: int, v: View) {
    var o := v.header.addr - a;
    0 <= o && o + |v.data| <= |out| && out[o..o + |v.data|] == v.data
  }

  /** The image holds every block at its address, counted from that of the first one, and ends
      with the last one. */
  predicate IsImage(s: State, vs: seq<View>, start: nat) {
    if s.curr == -1 then s == Initial(start) && forall i :: 0 <= i < |vs| ==> !Flashes(vs[i])
    else
      && s.curr == s.start + |s.out| && s.families == {}
      && forall i :: 0 <= i < |vs| && Flashes(vs[i]) ==> Placed(s.out, s.start, vs[i])
  }

  lemma PlacedStays(out: seq<Byte>, more: seq<Byte>, a: int, v: View)
    requires Placed(out, a, v)
    ensures Placed(out + more, a, v)
  {
    var o := v.header.addr - a;
    assert (out + more)[o..o + |v.data|] == out[o..o + |v.data|];
  }

  lemma PlacedBehind(out: seq<Byte>, gap: nat, v: View, a: int)
    requires v.header.addr == a + |out| + gap
    ensures Placed(out + Zeros(gap) + v.data, a, v)
  {
    assert (out + Zeros(gap) + v.data)[|out| + gap..] == v.data;
  }

  lemma TakesPlain(s: State, v: View, start: nat)
    requires Flashes(v) && v.header.flags / 0x2000 % 2 == 0 && |v.data| == v.header.size
    requires TakeBlock(s, v, 0).Ok? && (s.curr == -1 ==> s == Initial(start))
    requires s.curr != -1 ==> s.curr == s.start + |s.out| && s.families == {}
    ensures var t := TakeBlock(s, v, 0).state;
      && t.curr == v.header.addr + |v.data| == t.start + |t.out| && t.families == {} && t.curr >= 0
      && t.start == (if s.curr == -1 then v.header.addr else s.start)
      && Placed(t.out, t.start, v)
      && (s.curr != -1 ==> v.header.addr >= s.curr && t.out == s.out + Zeros(v.header.addr - s.curr) + v.data)
  {
    if s.curr == -1 {
      assert [] + Zeros(0) + v.data == v.data;
      PlacedBehind([], 0, v, v.header.addr);
    } else {
      PlacedBehind(s.out, v.header.addr - s.curr, v, s.start);
    }
  }

  lemma EarlierStay(s: State, t: State, front: seq<View>, v: View, start: nat)
    requires IsImage(s, front, start) && t.curr != -1
    requires s.curr != -1 ==> t.start == s.start && s.out <= t.out
    ensures forall i :: 0 <= i < |front| && Flashes(front[i]) ==> Placed(t.out, t.start, front[i])
  {
    forall i | 0 <= i < |front| && Flashes(front[i]) ensures Placed(t.out, t.start, front[i]) {
      if s.curr != -1 {
        PlacedStays(s.out, t.out[|s.out|..], s.start, front[i]);
        assert s.out + t.out[|s.out|..] == t.out;
      }
    }
  }

  lemma ImageGrows(s: State, front: seq<View>, v: View, start: nat)
    requires IsImage(s, front, start) && Plain([v]) && TakeBlock(s, v, 0).Ok?
    ensures IsImage(TakeBlock(s, v, 0).state, front + [v], start)
  {
    var t := TakeBlock(s, v, 0).state;
    assert [v][0] == v;
    if !Flashes(v) {
      NotFlashedSkipped(s, v, 0);
    } else {
      TakesPlain(s, v, start);
      EarlierStay(s, t, front, v, start);
    }
  }

  /** Decoding any file of plain blocks that is accepted: every block stands at its address, gaps
      are filled with zeros, and the image ends with the last block. */
  lemma {:induction false} BlocksStandInPlace(vs: seq<View>, start: nat)
    requires Plain(vs) && TakeBlocks(Initial(start), vs, 0).Ok?
    ensures IsImage(TakeBlocks(Initial(start), vs, 0).state, vs, start)
  {
    if vs != [] {
      var front, v := vs[..|vs| - 1], vs[|vs| - 1];
      assert Plain(front) && Plain([v]) && front + [v] == vs;
      BlocksStandInPlace(front, start);
      ImageGrows(TakeBlocks(Initial(start), front, 0).state, front, v, start);
    }
  }

  // ---------- blocks there and back ----------

  function ImageView(content: seq<Byte>, start: nat, family: Word, i: nat): View
    requires Fits(content, start) && i < BlockCount(content)
  {
    View(HeaderOf(content, start, family, i), Payload(content, i))
  }

  /** The first n blocks of an image as the decoder sees them. */
  function ImageViews(content: seq<Byte>, start: nat, family: Word, n: nat): (vs: seq<View>)
    requires Fits(content, start) && n <= BlockCount(content)
    ensures |vs| == n
  {
    if n == 0 then [] else ImageViews(content, start, family, n - 1) + [ImageView(content, start, family, n - 1)]
  }

  lemma BlockView(content: seq<Byte>, start: nat, family: Word, i: nat)
    requires Fits(content, start) && i < BlockCount(content)
    ensures ViewOf(BlockOf(content, start, family, i)) == ImageView(content, start, family, i)
  {
    var h := HeaderOf(content, start, family, i);
    HeaderRoundTrip(h, Payload(content, i) + Zeros(BLOCK - PAYLOAD - HEADER - 4) + Pack(MAGIC_END));
    var b := BlockOf(content, start, family, i);
    assert b[HEADER..] == Payload(content, i) + (Zeros(BLOCK - PAYLOAD - HEADER - 4) + Pack(MAGIC_END));
    assert b[HEADER..][..PAYLOAD] == Payload(content, i);
  }

  lemma ViewsAt(p: seq<Byte>, q: seq<Byte>, i: nat)
    requires |p| % BLOCK == 0 && i < (|p| + |q|) / BLOCK
    ensures (|p| + |q|) / BLOCK == |p| / BLOCK + |q| / BLOCK
    ensures Views(p + q)[i] == (Views(p) + Views(q))[i]
  {
    var m := |p| / BLOCK;
    if i < m {
      assert (p + q)[BLOCK * i..BLOCK * i + BLOCK] == p[BLOCK * i..BLOCK * i + BLOCK];
    } else {
      var j := i - m;
      assert (p + q)[BLOCK * i..BLOCK * i + BLOCK] == q[BLOCK * j..BLOCK * j + BLOCK];
    }
  }

  lemma ViewsConcat(p: seq<Byte>, q: seq<Byte>)
    requires |p| % BLOCK == 0
    ensures Views(p + q) == Views(p) + Views(q)
  {
    forall i: nat | i < (|p| + |q|) / BLOCK
      ensures Views(p + q)[i] == (Views(p) + Views(q))[i]
    {
      ViewsAt(p, q, i);
    }
  }

  lemma ViewsOfOne(block: seq<Byte>)
    requires |block| == BLOCK
    ensures Views(block) == [ViewOf(block)]
  {
    assert block[BLOCK * 0..BLOCK * 0 + BLOCK] == block;
  }

  lemma {:induction false} EncodedViews(content: seq<Byte>, start: nat, family: Word, n: nat)
    requires Fits(content, start) && n <= BlockCount(content)
    ensures Views(Blocks(content, start, family, n)) == ImageViews(content, start, family, n)
  {
    if n == 0 {
    } else {
      EncodedViews(content, start, family, n - 1);
      var past, block := Blocks(content, start, family, n - 1), BlockOf(content, start, family, n - 1);
      ViewsConcat(past, block);
      ViewsOfOne(block);
      BlockView(content, start, family, n - 1);
    }
  }

  // ---------- whole images ----------

  /** The decoder's state after n blocks of one image. */
  function Expected(s: State, content: seq<Byte>, start: nat, family: Word, want: Word, n: nat): State
    requires n <= BlockCount(content)
  {
    if n == 0 then s
    else
      State(start + PAYLOAD * n, family,
            s.out + if want == 0 || want == family then Padded(content)[..PAYLOAD * n] else [],
            if want == 0 || want == family then start else s.start,
            if family != 0 then s.families + {family} else s.families)
  }

  /** The image starts afresh in state s: nothing came before, or another family did. */
  predicate StartsFresh(s: State, family: Word) {
    (s.curr == -1 && s.family == -1) || (family != 0 && s.curr >= 0 && s.family >= 0 && s.family != family)
  }

  lemma TakeFirst(s: State, content: seq<Byte>, start: nat, family: Word, want: Word)
    requires Fits(content, start) && 0 < BlockCount(content) && StartsFresh(s, family)
    ensures TakeBlock(s, ImageView(content, start, family, 0), want) == Ok(Expected(s, content, start, family, want, 1))
  {
    assert Padded(content)[..PAYLOAD] == Payload(content, 0);
  }

  lemma TakeNext(s: State, content: seq<Byte>, start: nat, family: Word, want: Word, n: nat)
    requires Fits(content, start) && 0 < n < BlockCount(content)
    ensures TakeBlock(Expected(s, content, start, family, want, n), ImageView(content, start, family, n), want)
         == Ok(Expected(s, content, start, family, want, n + 1))
  {
    assert Padded(content)[..PAYLOAD * n] + Payload(content, n) == Padded(content)[..PAYLOAD * (n + 1)];
  }

  lemma TakeAny(s: State, content: seq<Byte>, start: nat, family: Word, want: Word, n: nat)
    requires Fits(content, start) && n < BlockCount(content) && StartsFresh(s, family)
    ensures TakeBlock(Expected(s, content, start, family, want, n), ImageView(content, start, family, n), want)
         == Ok(Expected(s, content, start, family, want, n + 1))
  {
    if n == 0 {
      TakeFirst(s, content, start, family, want);
    } else {
      TakeNext(s, content, start, family, want, n);
    }
  }

  lemma TakesOne(s: State, vs: seq<View>, want: Word, v: View)
    ensures TakeBlocks(s, vs + [v], want)
         == if TakeBlocks(s, vs, want).Error? then Error else TakeBlock(TakeBlocks(s, vs, want).state, v, want)
  {
    assert (vs + [v])[..|vs|] == vs;
  }

  lemma {:induction false} TakesImage(s: State, content: seq<Byte>, start: nat, family: Word, want: Word, n: nat)
    requires Fits(content, start) && n <= BlockCount(content) && StartsFresh(s, family)
    ensures TakeBlocks(s, ImageViews(content, start, family, n), want)
         == Ok(Expected(s, content, start, family, want, n))
  {
    if n == 0 {
    } else {
      TakesImage(s, content, start, family, want, n - 1);
      TakesOne(s, ImageViews(content, start, family, n - 1), want, ImageView(content, start, family, n - 1));
      TakeAny(s, content, start, family, want, n - 1);
    }
  }

  lemma {:induction false} TakesBoth(s: State, vs: seq<View>, ws: seq<View>, want: Word)
    requires TakeBlocks(s, vs, want).Ok?
    ensures TakeBlocks(s, vs + ws, want) == TakeBlocks(TakeBlocks(s, vs, want).state, ws, want)
  {
    if ws == [] {
      assert vs + ws == vs;
    } else {
      var front, last := ws[..|ws| - 1], ws[|ws| - 1];
      assert vs + ws == vs + front + [last];
      TakesBoth(s, vs, front, want);
      TakesOne(s, vs + front, want, last);
    }
  }

  /** What the decoder gives once the last block of an image has brought it to state `done`. */
  lemma Concluded(vs: seq<View>, other: nat, want: Word, content: seq<Byte>, start: nat, family: Word, done: State)
    requires Fits(content, start) && content != []
    requires vs != [] && vs[|vs| - 1] == ImageView(content, start, family, BlockCount(content) - 1)
    requires TakeBlocks(Initial(other), vs, want) == Ok(done)
    ensures DecodeViews(vs, other, want)
         == if |done.families| > 1 && want == 0 then Image([], 0) else Image(done.out, done.start)
  {
  }

  lemma OneExpected(content: seq<Byte>, start: nat, family: Word, other: nat)
    requires content != []
    ensures var done := Expected(Initial(other), content, start, family, family, BlockCount(content));
      |done.families| <= 1 && done.out == Padded(content) && done.start == start
  {
    var n := BlockCount(content);
    assert Padded(content)[..PAYLOAD * n] == Padded(content);
  }

  lemma OneImage(content: seq<Byte>, start: nat, family: Word, other: nat)
    requires Fits(content, start)
    ensures DecodeViews(ImageViews(content, start, family, BlockCount(content)), other, family)
         == Image(Padded(content), if content == [] then other else start)
  {
    if content != [] {
      var n := BlockCount(content);
      TakesImage(Initial(other), content, start, family, family, n);
      OneExpected(content, start, family, other);
      Concluded(ImageViews(content, start, family, n), other, family, content, start, family,
                Expected(Initial(other), content, start, family, family, n));
    }
  }

  /** Encoding and then decoding with the same family gives the content, filled up with zeros to
      whole payloads, at the address it was encoded for. */
  lemma RoundTrip(content: seq<Byte>, start: nat, family: Word, other: nat)
    requires Fits(content, start)
    ensures Decode(Encode(content, start, family), other, family)
         == Image(Padded(content), if content == [] then other else start)
  {
    EncodedViews(content, start, family, BlockCount(content));
    OneImage(content, start, family, other);
  }

  /** Two images of different families in one file: choosing a family gives that image alone,
      choosing none gives nothing. */
  lemma TwoFamilies(x: seq<Byte>, a: nat, f: Word, y: seq<Byte>, b: nat, g: Word, other: nat)
    requires Fits(x, a) && Fits(y, b) && x != [] && y != []
    requires f != 0 && g != 0 && f != g
    ensures Decode(Encode(x, a, f) + Encode(y, b, g), other, f) == Image(Padded(x), a)
    ensures Decode(Encode(x, a, f) + Encode(y, b, g), other, g) == Image(Padded(y), b)
    ensures Decode(Encode(x, a, f) + Encode(y, b, g), other, 0) == Image([], 0)
  {
    forall want: Word ensures TwoDecoded(x, a, f, y, b, g, other, want) {
      TwoImages(x, a, f, y, b, g, other, want);
    }
    BothExpected(x, a, f, y, b, g, other, f);
    BothExpected(x, a, f, y, b, g, other, g);
    BothExpected(x, a, f, y, b, g, other, 0);
    assert TwoDecoded(x, a, f, y, b, g, other, f);
    assert TwoDecoded(x, a, f, y, b, g, other, g);
    assert TwoDecoded(x, a, f, y, b, g, other, 0);
  }

  /** The decoder's state after both images. */
  function Both(x: seq<Byte>, a: nat, f: Word, y: seq<Byte>, b: nat, g: Word, other: nat, want: Word): State {
    Expected(Expected(Initial(other), x, a, f, want, BlockCount(x)), y, b, g, want, BlockCount(y))
  }

  lemma BothExpected(x: seq<Byte>, a: nat, f: Word, y: seq<Byte>, b: nat, g: Word, other: nat, want: Word)
    requires x != [] && y != [] && f != 0 && g != 0 && f != g
    ensures |Both(x, a, f, y, b, g, other, want).families| == 2
    ensures want == f ==> Both(x, a, f, y, b, g, other, want).out == Padded(x)
    ensures want == f ==> Both(x, a, f, y, b, g, other, want).start == a
    ensures want == g ==> Both(x, a, f, y, b, g, other, want).out == Padded(y)
    ensures want == g ==> Both(x, a, f, y, b, g, other, want).start == b
  {
    var done := Both(x, a, f, y, b, g, other, want);
    assert done.families == {f, g};
    assert Padded(x)[..PAYLOAD * BlockCount(x)] == Padded(x);
    assert Padded(y)[..PAYLOAD * BlockCount(y)] == Padded(y);
  }

  predicate TwoDecoded(x: seq<Byte>, a: nat, f: Word, y: seq<Byte>, b: nat, g: Word, other: nat, want: Word)
    requires Fits(x, a) && Fits(y, b)
  {
    var done := Both(x, a, f, y, b, g, other, want);
    Decode(Encode(x, a, f) + Encode(y, b, g), other, want)
    == if |done.families| > 1 && want == 0 then Image([], 0) else Image(done.out, done.start)
  }

  lemma TwoImages(x: seq<Byte>, a: nat, f: Word, y: seq<Byte>, b: nat, g: Word, other: nat, want: Word)
    requires Fits(x, a) && Fits(y, b) && x != [] && y != []
    requires f != 0 && g != 0 && f != g
    ensures TwoDecoded(x, a, f, y, b, g, other, want)
  {
    var k, n := BlockCount(x), BlockCount(y);
    var vs, ws := ImageViews(x, a, f, k), ImageViews(y, b, g, n);
    EncodedViews(x, a, f, k);
    EncodedViews(y, b, g, n);
    ViewsConcat(Encode(x, a, f), Encode(y, b, g));
    TakesImage(Initial(other), x, a, f, want, k);
    TakesImage(Expected(Initial(other), x, a, f, want, k), y, b, g, want, n);
    TakesBoth(Initial(other), vs, ws, want);
    Concluded(vs + ws, other, want, y, b, g, Both(x, a, f, y, b, g, other, want));
  }

  // ---------- blocks with bad magic ----------

  lemma {:induction false} TakesNoFurther(s: State, vs: seq<View>, want: Word, n: nat)
    requires n <= |vs| && TakeBlocks(s, vs[..n], want).Error?
    ensures TakeBlocks(s, vs, want).Error?
    decreases |vs|
  {
    if n == |vs| {
      assert vs[..n] == vs;
    } else {
      assert vs[..|vs| - 1][..n] == vs[..n];
      TakesNoFurther(s, vs[..|vs| - 1], want, n);
    }
  }

  predicate BadMagic(v: View) { v.header.magic0 != MAGIC_START0 || v.header.magic1 != MAGIC_START1 }

  /** A block with bad magic makes decoding fail, wherever it stands. */
  lemma BadMagicFails(vs: seq<View>, start: nat, want: Word, i: nat)
    requires i < |vs| && BadMagic(vs[i])
    ensures DecodeViews(vs, start, want) == Failed
  {
    assert vs[..i + 1] == vs[..i] + [vs[i]];
    TakesOne(Initial(start), vs[..i], want, vs[i]);
    TakesNoFurther(Initial(start), vs, want, i + 1);
  }

  /** The decoder as its messages announce it: such blocks are skipped. */
  function SkipBlocks(s: State, vs: seq<View>, want: Word): Result {
    if vs == [] then Ok(s)
    else
      var r := SkipBlocks(s, vs[..|vs| - 1], want);
      if r.Error? || BadMagic(vs[|vs| - 1]) then r else TakeBlock(r.state, vs[|vs| - 1], want)
  }

  function DecodeSkipping(vs: seq<View>, start: nat, want: Word): Decoded {
    var r := SkipBlocks(Initial(start), vs, want);
    if r.Error? then Failed
    else
      var s := if vs == [] || BadMagic(vs[|vs| - 1]) then r.state else Conclude(r.state, vs[|vs| - 1], want);
      Image(s.out, s.start)
  }

  lemma {:induction false} NothingToSkip(s: State, vs: seq<View>, want: Word)
    requires forall i :: 0 <= i < |vs| ==> !BadMagic(vs[i])
    ensures SkipBlocks(s, vs, want) == TakeBlocks(s, vs, want)
  {
    if vs != [] { NothingToSkip(s, vs[..|vs| - 1], want); }
  }

  /** The program does what its messages announce exactly when no block has bad magic, or the
      file is refused for another reason anyway. */
  lemma SkipsAsAnnounced(vs: seq<View>, start: nat, want: Word)
    ensures DecodeViews(vs, start, want) == DecodeSkipping(vs, start, want)
       <==> (forall i :: 0 <= i < |vs| ==> !BadMagic(vs[i])) || DecodeSkipping(vs, start, want) == Failed
  {
    if forall i :: 0 <= i < |vs| ==> !BadMagic(vs[i]) {
      NothingToSkip(Initial(start), vs, want);
    } else {
      var i :| 0 <= i < |vs| && BadMagic(vs[i]);
      BadMagicFails(vs, start, want, i);
    }
  }

  lemma OneGoodOneBad(content: seq<Byte>, start: nat, bad: View)
    requires Fits(content, start) && BlockCount(content) == 1 && BadMagic(bad)
    ensures var vs := ImageViews(content, start, 0, 1) + [bad];
      DecodeViews(vs, start, 0) == Failed && DecodeSkipping(vs, start, 0) == Image(Padded(content), start)
  {
    var good := ImageViews(content, start, 0, 1);
    BadMagicFails(good + [bad], start, 0, 1);
    TakesImage(Initial(start), content, start, 0, 0, 1);
    NothingToSkip(Initial(start), good, 0);
    assert (good + [bad])[..1] == good;
    assert Padded(content)[..PAYLOAD] == Padded(content);
  }

  lemma ImageAndZeros(content: seq<Byte>, start: nat)
    requires Fits(content, start) && BlockCount(content) == 1
    ensures Views(Encode(content, start, 0) + Zeros(BLOCK)) == ImageViews(content, start, 0, 1) + [ViewOf(Zeros(BLOCK))]
  {
    EncodedViews(content, start, 0, 1);
    ViewsConcat(Encode(content, start, 0), Zeros(BLOCK));
    ViewsOfOne(Zeros(BLOCK));
  }

  /** One good block and one block of zeros: it was to be decoded, but decoding fails. */
  lemma ZeroBlockFails(content: seq<Byte>, start: nat)
    requires Fits(content, start) && BlockCount(content) == 1
    ensures var buf := Encode(content, start, 0) + Zeros(BLOCK);
      Decode(buf, start, 0) == Failed && DecodeSkipping(Views(buf), start, 0) == Image(Padded(content), start)
  {
    ImageAndZeros(content, start);
    ZeroIsBad();
    OneGoodOneBad(content, start, ViewOf(Zeros(BLOCK)));
  }

  lemma ZeroIsBad()
    ensures BadMagic(ViewOf(Zeros(BLOCK)))
  {
    assert Unpack(Zeros(BLOCK), 0) == 0;
  }

  // ---------- the loops of the program ----------

  method FillChunk(content: seq<Byte>, i: nat) returns (chunk: seq<Byte>)
    requires i < BlockCount(content)
    ensures chunk == Payload(content, i)
  {
    var ptr := 256 * i;
    chunk := content[ptr..if ptr + 256 <= |content| then ptr + 256 else |content|];
    ghost var part := chunk;
    while |chunk| < 256
      invariant |part| <= |chunk| <= 256
      invariant chunk == part + Zeros(|chunk| - |part|)
    {
      chunk := chunk + [0];
    }
  }

  method FillPadding() returns (datapadding: seq<Byte>)
    ensures datapadding == Zeros(BLOCK - PAYLOAD - HEADER - 4)
  {
    datapadding := [];
    while |datapadding| < BLOCK - PAYLOAD - HEADER - 4
      invariant |datapadding| % 4 == 0 && |datapadding| <= BLOCK - PAYLOAD - HEADER - 4
      invariant datapadding == Zeros(|datapadding|)
    {
      datapadding := datapadding + [0, 0, 0, 0];
    }
  }

  datatype Encoded = Bytes(bytes: seq<Byte>) | OutOfRange

  /** Packing a header raises when the address or the count needs more than 32 bits. */
  method MakeBlock(content: seq<Byte>, start: nat, family: Word, blockno: nat, datapadding: seq<Byte>)
    returns (r: Encoded)
    requires blockno < BlockCount(content) && datapadding == Zeros(BLOCK - PAYLOAD - HEADER - 4)
    ensures r.OutOfRange? <==> start + PAYLOAD * blockno >= 0x1_0000_0000 || BlockCount(content) >= 0x1_0000_0000
    ensures Fits(content, start) ==> r == Bytes(BlockOf(content, start, family, blockno))
  {
    var addr, numblocks := 256 * blockno + start, (|content| + 255) / 256;
    var flags := if family != 0 then FLAG_FAMILY else 0;
    if addr >= 0x1_0000_0000 || numblocks >= 0x1_0000_0000 {
      return OutOfRange;
    }
    var hd := PackHeader(Header(MAGIC_START0, MAGIC_START1, flags, addr, PAYLOAD, blockno, numblocks, family));
    var chunk := FillChunk(content, blockno);
    r := Bytes(hd + (chunk + datapadding + Pack(MAGIC_END)));
  }

  method ConvertToUf2(content: seq<Byte>, start: nat, family: Word) returns (r: Encoded)
    ensures r == if Fits(content, start) then Bytes(Encode(content, start, family)) else OutOfRange
  {
    var datapadding := FillPadding();
    var numblocks := (|content| + 255) / 256;
    var outp: seq<Byte> := [];
    var blockno := 0;
    while blockno < numblocks
      invariant 0 <= blockno <= numblocks
      invariant blockno > 0 ==> start + PAYLOAD * (blockno - 1) < 0x1_0000_0000 && numblocks < 0x1_0000_0000
      invariant Fits(content, start) ==> outp == Blocks(content, start, family, blockno)
    {
      var block := MakeBlock(content, start, family, blockno, datapadding);
      if block.OutOfRange? {
        return OutOfRange;
      }
      outp := outp + block.bytes;
      blockno := blockno + 1;
    }
    r := Bytes(outp);
  }

  /** The words of zeros in front of a block that does not follow on at once. */
  method PadOut(outp: seq<Byte>, gap: nat) returns (r: seq<Byte>)
    requires gap % 4 == 0
    ensures r == outp + Zeros(gap)
  {
    r := outp;
    var padding := gap;
    while padding > 0
      invariant 0 <= padding <= gap && padding % 4 == 0
      invariant r == outp + Zeros(gap - padding)
    {
      padding := padding - 4;
      r := r + [0, 0, 0, 0];
    }
  }

  method ReadBlock(s: State, block: seq<Byte>, want: Word, ghost v: View) returns (r: Result)
    requires |block| == BLOCK && v == ViewOf(block)
    ensures r == TakeBlock(s, v, want)
  {
    var hd := UnpackHeader(block);
    if hd.magic0 != MAGIC_START0 || hd.magic1 != MAGIC_START1 {
      return Error;
    }
    if Flag(hd.flags, FLAG_NOFLASH) {
      return Ok(s);
    }
    if hd.size > MAX_DATA {
      return Error;
    }
    var tagged := Flag(hd.flags, FLAG_FAMILY);
    var currfamily, curraddr, start := s.family, s.curr, s.start;
    if tagged && currfamily == -1 {
      currfamily := hd.family;
    }
    if curraddr == -1 || (tagged && hd.family != currfamily) {
      currfamily := hd.family;
      curraddr := hd.addr;
      if want == 0 || want == hd.family {
        start := hd.addr;
      }
    }
    var padding := hd.addr - curraddr;
    if padding < 0 || padding > MAX_PADDING || padding % 4 != 0 {
      return Error;
    }
    var outp := PadOut(s.out, padding);
    if want == 0 || (tagged && want == hd.family) {
      outp := outp + block[HEADER..HEADER + hd.size];
    }
    curraddr := hd.addr + hd.size;
    var families := if tagged then s.families + {hd.family} else s.families;
    r := Ok(State(curraddr, currfamily, outp, start, families));
  }

  /** The end of the last turn. */
  method Settle(s: State, block: seq<Byte>, want: Word, ghost v: View) returns (t: State)
    requires |block| == BLOCK && v == ViewOf(block)
    ensures t == Conclude(s, v, want)
  {
    t := s;
    if !Flag(UnpackHeader(block).flags, FLAG_NOFLASH) && |s.families| > 1 && want == 0 {
      t := s.(out := [], start := 0);
    }
  }

  lemma ViewAt(buf: seq<Byte>, i: nat)
    requires i < |buf| / BLOCK
    ensures Views(buf)[i] == ViewOf(buf[BLOCK * i..BLOCK * i + BLOCK])
  {
  }

  lemma NextView(vs: seq<View>, s0: State, s: State, want: Word, n: nat)
    requires n < |vs| && TakeBlocks(s0, vs[..n], want) == Ok(s)
    ensures TakeBlocks(s0, vs[..n + 1], want) == TakeBlock(s, vs[n], want)
  {
    assert vs[..n + 1] == vs[..n] + [vs[n]];
    TakesOne(s0, vs[..n], want, vs[n]);
  }

  method ConvertFromUf2(buf: seq<Byte>, start: nat, want: Word) returns (r: Decoded)
    ensures r == Decode(buf, start, want)
  {
    ghost var vs := Views(buf);
    var numblocks := |buf| / 512;
    var s := Initial(start);
    ghost var taken := s;
    var blockno := 0;
    while blockno < numblocks
      invariant 0 <= blockno <= numblocks && TakeBlocks(Initial(start), vs[..blockno], want) == Ok(taken)
      invariant s == if blockno == numblocks && blockno > 0 then Conclude(taken, vs[blockno - 1], want) else taken
    {
      var block := buf[BLOCK * blockno..BLOCK * blockno + BLOCK];
      ViewAt(buf, blockno);
      var next := ReadBlock(s, block, want, vs[blockno]);
      NextView(vs, Initial(start), s, want, blockno);
      if next.Error? {
        TakesNoFurther(Initial(start), vs, want, blockno + 1);
        return Failed;
      }
      s, taken := next.state, next.state;
      if blockno == numblocks - 1 { s := Settle(s, block, want, vs[blockno]); }
      blockno := blockno + 1;
    }
    assert vs[..numblocks] == vs;
    r := Image(s.out, s.start);
  }
}
