/** Page-split writes of drivers/eeprom/eeprom_i2c.c, eeprom_spi.c and eeprom_driver.c, against
    a device whose page writes wrap around inside a page and whose bank is chosen by the
    device address. */
module EepromPages {
  import opened Basics

  // ---------- the device ----------

  /** The cell the i-th byte of one transfer goes to: the page address counter wraps. */
  function Target(addr: nat, i: nat, page: nat): nat
    requires page > 0
  {
    addr - addr % page + (addr % page + i) % page
  }

  /** A write transfer: byte after byte, wrapping inside the page of addr. */
  function PageWrite(m: seq<Byte>, addr: nat, data: seq<Byte>, page: nat): (r: seq<Byte>)
    requires page > 0
    ensures |r| == |m|
  {
    if data == [] then m
    else
      var n := |data| - 1;
      var p := PageWrite(m, addr, data[..n], page);
      var t := Target(addr, n, page);
      if t < |p| then p[t := data[n]] else p
  }

  /** Where the bank of an address starts; the device address selects it. */
  function BankOf(addr: nat, bank: nat): (base: nat)
    requires bank > 0
  {
    addr - addr % bank
  }

  /** The location a transfer addresses: the bank comes from the device address, the rest from
      the address bytes of `target`. */
  function Location(base: nat, target: nat, bank: nat): nat
    requires bank > 0
  {
    base + target % bank
  }

  /** What a block write amounts to: each byte goes to its own location in the bank of the
      first one. */
  function Banked(m: seq<Byte>, base: nat, start: nat, data: seq<Byte>, bank: nat): (r: seq<Byte>)
    requires bank > 0
    ensures |r| == |m|
  {
    if data == [] then m
    else
      var n := |data| - 1;
      var p := Banked(m, base, start, data[..n], bank);
      var t := Location(base, start + n, bank);
      if t < |p| then p[t := data[n]] else p
  }

  lemma {:induction false} BankedConcat(m: seq<Byte>, base: nat, start: nat, a: seq<Byte>, b: seq<Byte>, bank: nat)
    requires bank > 0
    ensures Banked(Banked(m, base, start, a, bank), base, start + |a|, b, bank) == Banked(m, base, start, a + b, bank)
  {
    if b == [] {
      assert a + b == a;
    } else {
      assert (a + b)[..|a + b| - 1] == a + b[..|b| - 1];
      BankedConcat(m, base, start, a, b[..|b| - 1], bank);
    }
  }

  // ---------- arithmetic of pages in banks ----------

  lemma QuotientBelow(r: nat, page: nat, pages: nat)
    requires page > 0 && r < page * pages
    ensures page * (r / page) + page <= page * pages
  {
    var s := r / page;
    assert page * (pages - s) > 0;
    AtLeastOnce(page, pages - s);
    assert page * (pages - s) == page * pages - page * s;
  }

  lemma PageFactor(page: nat, pages: nat, q: nat, s: nat)
    ensures page * pages * q + page * s == page * (pages * q + s)
  {
  }

  lemma PagePositionAt(x: nat, page: nat, pages: nat, q: nat, s: nat, t: nat)
    requires page > 0 && t < page && x == page * pages * q + page * s + t
    ensures x % page == t
  {
    PageFactor(page, pages, q, s);
    Remainder(x, page, pages * q + s, t);
  }

  lemma Split(x: nat, d: nat)
    requires d > 0
    ensures x == d * (x / d) + x % d && x % d < d
  {
  }

  /** Position in the page, from the position in the bank. */
  lemma PagePosition(x: nat, page: nat, bank: nat)
    requires page > 0 && bank > 0 && bank % page == 0
    ensures x % bank % page == x % page
  {
    var r := x % bank;
    Split(bank, page);
    Split(x, bank);
    Split(r, page);
    PagePositionAt(x, page, bank / page, x / bank, r / page, r % page);
  }

  /** A page lies wholly inside a bank. */
  lemma PageInBank(x: nat, page: nat, bank: nat)
    requires page > 0 && bank > 0 && bank % page == 0
    ensures x % bank - x % page + page <= bank
  {
    PagePosition(x, page, bank);
    assert bank == page * (bank / page);
    QuotientBelow(x % bank, page, bank / page);
  }

  lemma BankStart(x: nat, page: nat, bank: nat)
    requires page > 0 && bank > 0 && bank % page == 0
    ensures BankOf(x, bank) % page == 0
  {
    var pages, q := bank / page, x / bank;
    assert bank == page * pages && x - x % bank == bank * q;
    PageFactor(page, pages, q, 0);
    Remainder(x - x % bank, page, pages * q, 0);
  }

  lemma SumRemainder(a: nat, b: nat, page: nat)
    requires page > 0 && a % page == 0
    ensures (a + b) % page == b % page
  {
    var p, q := a / page, b / page;
    assert a + b == page * p + page * q + b % page;
    assert page * (p + q) == page * p + page * q;
    Remainder(a + b, page, p + q, b % page);
  }

  lemma StaysInBank(target: nat, i: nat, page: nat, bank: nat)
    requires page > 0 && bank > 0 && bank % page == 0 && target % page + i < page
    ensures (target + i) % bank == target % bank + i
  {
    PageInBank(target, page, bank);
    assert target + i == bank * (target / bank) + (target % bank + i);
    Remainder(target + i, bank, target / bank, target % bank + i);
  }

  lemma StaysInPage(at: nat, i: nat, page: nat)
    requires page > 0 && at % page + i < page
    ensures Target(at, i, page) == at + i
  {
    Remainder(at % page + i, page, 0, at % page + i);
  }

  lemma StaysInPageFrom(base: nat, r: nat, i: nat, page: nat)
    requires page > 0 && base % page == 0 && r % page + i < page
    ensures Target(base + r, i, page) == base + r + i
  {
    SumRemainder(base, r, page);
    StaysInPage(base + r, i, page);
  }

  lemma InsidePage(target: nat, i: nat, page: nat, bank: nat)
    requires page > 0 && bank > 0 && bank % page == 0 && target % page + i < page
    ensures target % bank % page + i < page
  {
    PagePosition(target, page, bank);
  }

  /** Inside one page, the wrapping transfer puts each byte where it belongs. */
  lemma TransferTarget(base: nat, target: nat, i: nat, page: nat, bank: nat)
    requires page > 0 && bank > 0 && bank % page == 0 && base % page == 0 && target % page + i < page
    ensures Target(Location(base, target, bank), i, page) == Location(base, target + i, bank)
  {
    InsidePage(target, i, page, bank);
    StaysInBank(target, i, page, bank);
    StaysInPageFrom(base, target % bank, i, page);
  }

  lemma {:induction false} TransferIsBanked(m: seq<Byte>, base: nat, target: nat, data: seq<Byte>, page: nat, bank: nat)
    requires page > 0 && bank > 0 && bank % page == 0 && base % page == 0 && target % page + |data| <= page
    ensures PageWrite(m, Location(base, target, bank), data, page) == Banked(m, base, target, data, bank)
  {
    if data != [] {
      var n := |data| - 1;
      TransferIsBanked(m, base, target, data[..n], page, bank);
      TransferTarget(base, target, n, page, bank);
    }
  }

  // ---------- when the result is the flat write ----------

  lemma SameBankLocation(addr: nat, i: nat, bank: nat)
    requires bank > 0 && addr % bank + i < bank
    ensures Location(BankOf(addr, bank), addr + i, bank) == addr + i
  {
    assert addr + i == bank * (addr / bank) + (addr % bank + i);
    Remainder(addr + i, bank, addr / bank, addr % bank + i);
  }

  lemma {:induction false} InsideBankIsPut(m: seq<Byte>, addr: nat, data: seq<Byte>, bank: nat)
    requires bank > 0 && addr + |data| <= |m| && addr % bank + |data| <= bank
    ensures Banked(m, BankOf(addr, bank), addr, data, bank) == Put(m, addr, data)
  {
    if data != [] {
      var n := |data| - 1;
      InsideBankIsPut(m, addr, data[..n], bank);
      SameBankLocation(addr, n, bank);
      assert Put(m, addr, data[..n])[addr + n := data[n]] == Put(m, addr, data);
    }
  }

  /** The same cell by cell, also for a block that ends behind the memory. */
  lemma {:induction false} InsideBankAt(m: seq<Byte>, addr: nat, data: seq<Byte>, bank: nat, i: nat)
    requires bank > 0 && i < |m| && addr % bank + |data| <= bank
    ensures Banked(m, BankOf(addr, bank), addr, data, bank)[i]
         == if addr <= i < addr + |data| then data[i - addr] else m[i]
  {
    if data != [] {
      var n := |data| - 1;
      InsideBankAt(m, addr, data[..n], bank, i);
      SameBankLocation(addr, n, bank);
    }
  }

  /** What reading a block gives: the device address is computed once here, too. */
  function ReadBanked(m: seq<Byte>, base: nat, start: nat, n: nat, bank: nat): (bs: seq<Byte>)
    requires bank > 0 && base + bank <= |m|
    ensures |bs| == n
  {
    if n == 0 then [] else ReadBanked(m, base, start, n - 1, bank) + [m[Location(base, start + n - 1, bank)]]
  }

  lemma WriteSame(m: seq<Byte>, t: nat)
    requires t < |m|
    ensures m[t := m[t]] == m
  {
  }

  /** Writing what is there changes nothing. */
  lemma {:induction false} WritingTheSame(m: seq<Byte>, base: nat, start: nat, n: nat, bank: nat)
    requires bank > 0 && base + bank <= |m|
    ensures Banked(m, base, start, ReadBanked(m, base, start, n, bank), bank) == m
  {
    if n > 0 {
      WritingTheSame(m, base, start, n - 1, bank);
      WriteSame(m, Location(base, start + (n - 1), bank));
    }
  }

  lemma {:induction false} NextBankUntouched(m: seq<Byte>, base: nat, start: nat, data: seq<Byte>, bank: nat, i: nat)
    requires bank > 0 && i < |m| && i >= base + bank
    ensures Banked(m, base, start, data, bank)[i] == m[i]
  {
    if data != [] { NextBankUntouched(m, base, start, data[..|data| - 1], bank, i); }
  }

  /** A block write is the flat write, whatever the memory and the data, exactly when the block
      does not cross a bank: the driver computes the device address once per block. */
  lemma FlatExactlyInsideBank(size: nat, addr: nat, n: nat, bank: nat)
    requires bank > 0 && addr + n <= size
    ensures (forall m: seq<Byte>, data: seq<Byte> :: |m| == size && |data| == n ==>
              Banked(m, BankOf(addr, bank), addr, data, bank) == Put(m, addr, data))
       <==> addr % bank + n <= bank || n == 0
  {
    forall m: seq<Byte>, data: seq<Byte> | |m| == size && |data| == n && (addr % bank + n <= bank || n == 0)
      ensures Banked(m, BankOf(addr, bank), addr, data, bank) == Put(m, addr, data)
    {
      if n > 0 { InsideBankIsPut(m, addr, data, bank); }
    }
    if addr % bank + n > bank && n > 0 {
      var m: seq<Byte>, data: seq<Byte> := seq(size, _ => 0), seq(n, _ => 1);
      NextBankUntouched(m, BankOf(addr, bank), addr, data, bank, addr + n - 1);
      assert Put(m, addr, data)[addr + n - 1] == 1;
      assert Banked(m, BankOf(addr, bank), addr, data, bank) != Put(m, addr, data);
    }
  }

  // ---------- the driver ----------

  /** One transfer, as the bus sees it. */
  datatype Transfer = Transfer(target: nat, data: seq<Byte>)

  class Device {
    /** EXTERNAL_EEPROM_PAGE_SIZE, and what one device address reaches, some whole pages. */
    const page: nat
    const bank: nat
    const mem: array<Byte>
    var transfers: seq<Transfer>

    ghost predicate Valid() { 0 < page <= 255 && 0 < bank && bank % page == 0 }

    constructor (mem: array<Byte>, page: nat, bank: nat)
      requires 0 < page <= 255 && 0 < bank && bank % page == 0
      ensures Valid() && this.mem == mem && this.page == page && this.bank == bank && transfers == []
    {
      this.mem := mem;
      this.page, this.bank := page, bank;
      transfers := [];
    }

    /** i2c_transmit, or write-enable and write command over SPI: the device wraps. */
    method Transmit(base: nat, target: nat, data: seq<Byte>)
      requires Valid()
      modifies this`transfers, mem
      ensures mem[..] == PageWrite(old(mem[..]), Location(base, target, bank), data, page)
      ensures transfers == old(transfers) + [Transfer(target, data)]
    {
      var at := Location(base, target, bank);
      for i := 0 to |data|
        invariant mem[..] == PageWrite(old(mem[..]), at, data[..i], page)
        invariant transfers == old(transfers)
      {
        assert data[..i + 1][..i] == data[..i];
        var t := Target(at, i, page);
        if t < mem.Length { mem[t] := data[i]; }
      }
      assert data[..|data|] == data;
      transfers := transfers + [Transfer(target, data)];
    }

    /** No transfer since then crosses a page. */
    ghost predicate WholePackets(since: nat)
      reads this
    {
      page > 0 && forall k :: since <= k < |transfers| ==>
        transfers[k].target % page + |transfers[k].data| <= page && transfers[k].data != []
    }

    /** One packet of a block write, after the bytes of `past`. */
    method WritePacket(base: nat, addr: nat, target: nat, packet: seq<Byte>, ghost m: seq<Byte>, ghost past: seq<Byte>)
      requires Valid() && base % page == 0 && target % page + |packet| <= page && target == addr + |past|
      requires mem[..] == Banked(m, base, addr, past, bank)
      modifies this`transfers, mem
      ensures mem[..] == Banked(m, base, addr, past + packet, bank)
      ensures transfers == old(transfers) + [Transfer(target, packet)]
    {
      TransferIsBanked(mem[..], base, target, packet, page, bank);
      BankedConcat(m, base, addr, past, packet, bank);
      Transmit(base, target, packet);
    }

    /** eeprom_write_block: the loop over packets */
    method WriteBlock(buf: seq<Byte>, addr: nat)
      requires Valid()
      modifies this`transfers, mem
      ensures mem[..] == Banked(old(mem[..]), BankOf(addr, bank), addr, buf, bank)
      ensures old(transfers) <= transfers && WholePackets(|old(transfers)|)
    {
      var target, done, base := addr, 0, BankOf(addr, bank);
      BankStart(addr, page, bank);
      while done < |buf|
        invariant 0 <= done <= |buf| && target == addr + done
        invariant mem[..] == Banked(old(mem[..]), BankOf(addr, bank), addr, buf[..done], bank)
        invariant old(transfers) <= transfers && WholePackets(|old(transfers)|)
      {
        var length := page - target % page;
        if length > |buf| - done { length := |buf| - done; }
        var packet := buf[done..done + length];
        assert buf[..done] + packet == buf[..done + length];
        WritePacket(base, addr, target, packet, old(mem[..]), buf[..done]);
        target, done := target + length, done + length;
      }
      assert buf[..done] == buf;
    }

    /** eeprom_read_block */
    method ReadBlock(addr: nat, n: nat) returns (buf: seq<Byte>)
      requires Valid() && BankOf(addr, bank) + bank <= mem.Length
      ensures buf == ReadBanked(mem[..], BankOf(addr, bank), addr, n, bank)
    {
      buf := [];
      var base := BankOf(addr, bank);
      for i := 0 to n
        invariant buf == ReadBanked(mem[..], base, addr, i, bank)
      {
        buf := buf + [mem[Location(base, addr + i, bank)]];
      }
    }

    /** eeprom_update_block: written only if it differs, with the effect of writing it; for a
        block inside one bank that is the flat write */
    method UpdateBlock(buf: seq<Byte>, addr: nat)
      requires Valid() && BankOf(addr, bank) + bank <= mem.Length
      modifies this`transfers, mem
      ensures mem[..] == Banked(old(mem[..]), BankOf(addr, bank), addr, buf, bank)
      ensures addr % bank + |buf| <= bank && addr + |buf| <= mem.Length ==>
        mem[..] == Put(old(mem[..]), addr, buf)
      ensures ReadBanked(old(mem[..]), BankOf(addr, bank), addr, |buf|, bank) == buf ==> transfers == old(transfers)
    {
      ghost var before := mem[..];
      var stored := ReadBlock(addr, |buf|);
      if stored != buf {
        WriteBlock(buf, addr);
      } else {
        WritingTheSame(before, BankOf(addr, bank), addr, |buf|, bank);
      }
      if addr % bank + |buf| <= bank && addr + |buf| <= |before| { InsideBankIsPut(before, addr, buf, bank); }
    }

    /** eeprom_driver_erase; the last page may end behind the memory */
    method Erase()
      requires Valid()
      modifies this`transfers, mem
      ensures forall i :: 0 <= i < mem.Length ==> mem[i] == 0
    {
      var addr := 0;
      ghost var k := 0;
      while addr < mem.Length
        invariant addr == page * k
        invariant forall i :: 0 <= i < addr && i < mem.Length ==> mem[i] == 0
        decreases mem.Length - addr
      {
        ErasePage(addr, k);
        addr, k := addr + page, k + 1;
      }
    }

    method ErasePage(addr: nat, ghost k: nat)
      requires Valid() && addr == page * k
      modifies this`transfers, mem
      ensures addr + page == page * (k + 1)
      ensures forall i :: 0 <= i < mem.Length ==> mem[i] == if addr <= i < addr + page then 0 else old(mem[i])
    {
      Remainder(addr, page, k, 0);
      PageInBank(addr, page, bank);
      ghost var before, zeros := mem[..], seq(page, _ => 0);
      WriteBlock(seq(page, _ => 0), addr);
      forall i | 0 <= i < mem.Length ensures mem[i] == if addr <= i < addr + page then 0 else before[i] {
        InsideBankAt(before, addr, zeros, bank, i);
        assert mem[i] == mem[..][i];
      }
    }
  }
}
