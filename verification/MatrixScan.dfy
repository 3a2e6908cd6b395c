/** Matrix change detection and ghost filtering of quantum/keyboard.c. */
module MatrixScan {

  /** A row of the matrix: the columns whose bit is set. */
  type Row = set<nat>

  datatype KeyEvent = KeyEvent(row: nat, col: nat, pressed: bool)

  // ---------- popcount_more_than_one ----------

  predicate Bit(x: bv32, k: bv8) { k < 32 && (x >> k) & 1 == 1 }

  ghost predicate TwoBits(x: bv32) {
    exists i, j :: i != j && Bit(x, i) && Bit(x, j)
  }

  lemma TwoBitsSurvive(x: bv32, i: bv8, j: bv8)
    requires i != j && Bit(x, i) && Bit(x, j)
    ensures x & (x - 1) != 0
  {
  }

  lemma NoBitsIsZero(x: bv32)
    requires forall k :: !Bit(x, k)
    ensures x == 0
  {
    assert !Bit(x, 0) && !Bit(x, 1) && !Bit(x, 2) && !Bit(x, 3) && !Bit(x, 4) && !Bit(x, 5) && !Bit(x, 6) && !Bit(x, 7);
    assert !Bit(x, 8) && !Bit(x, 9) && !Bit(x, 10) && !Bit(x, 11)
           && !Bit(x, 12) && !Bit(x, 13) && !Bit(x, 14) && !Bit(x, 15);
    assert !Bit(x, 16) && !Bit(x, 17) && !Bit(x, 18) && !Bit(x, 19)
           && !Bit(x, 20) && !Bit(x, 21) && !Bit(x, 22) && !Bit(x, 23);
    assert !Bit(x, 24) && !Bit(x, 25) && !Bit(x, 26) && !Bit(x, 27)
           && !Bit(x, 28) && !Bit(x, 29) && !Bit(x, 30) && !Bit(x, 31);
  }

  lemma SomeBit(x: bv32) returns (k: bv8)
    requires x != 0
    ensures Bit(x, k)
  {
    if exists j :: Bit(x, j) {
      k :| Bit(x, k);
    } else {
      NoBitsIsZero(x);
    }
  }

  lemma AndBit(x: bv32, y: bv32, k: bv8)
    ensures Bit(x & y, k) ==> Bit(x, k) && Bit(y, k)
  {
  }

  lemma AndNotBit(x: bv32, y: bv32, k: bv8)
    ensures Bit(x & !y, k) ==> Bit(x, k) && !Bit(y, k)
  {
  }

  lemma BitInside(x: bv32, rest: bv32) returns (k: bv8)
    requires rest != 0 && rest == x & rest
    ensures Bit(x, k) && Bit(rest, k)
  {
    k := SomeBit(rest);
    AndBit(x, rest, k);
  }

  lemma BitOutside(x: bv32, rest: bv32) returns (k: bv8)
    requires x & !rest != 0
    ensures Bit(x, k) && !Bit(rest, k)
  {
    k := SomeBit(x & !rest);
    AndNotBit(x, rest, k);
  }

  lemma LowestBitGoes(x: bv32, rest: bv32)
    requires rest == x & (x - 1) && rest != 0
    ensures x & !rest != 0 && rest == x & rest
  {
  }

  lemma TwoBitsFound(x: bv32, rest: bv32)
    requires rest != 0 && x & !rest != 0 && rest == x & rest
    ensures TwoBits(x)
  {
    var i := BitInside(x, rest);
    var j := BitOutside(x, rest);
  }

  lemma TwoBitsLeft(x: bv32)
    requires TwoBits(x)
    ensures x & (x - 1) != 0
  {
    var i, j :| i != j && Bit(x, i) && Bit(x, j);
    TwoBitsSurvive(x, i, j);
  }

  lemma MoreLeft(x: bv32, rest: bv32)
    requires rest == x & (x - 1) && rest != 0
    ensures TwoBits(x)
  {
    LowestBitGoes(x, rest);
    TwoBitsFound(x, rest);
  }

  /** Clearing the lowest set bit of a word leaves something exactly when two bits are set. */
  lemma PopcountIsTwoBits(x: bv32, rest: bv32)
    requires rest == x & (x - 1)
    ensures rest != 0 <==> TwoBits(x)
  {
    if rest != 0 { MoreLeft(x, rest); }
    if TwoBits(x) { TwoBitsLeft(x); }
  }

  /** popcount_more_than_one, on the set of columns */
  predicate MoreThanOne(r: Row) {
    exists i, j :: i in r && j in r && i != j
  }

  /** The word x shows the row r: its bits are the row's columns. */
  ghost predicate Shows(x: bv32, r: Row) {
    (forall c :: c in r ==> c < 32) && forall k: bv8 :: ShowsColumn(x, r, k)
  }

  predicate ShowsColumn(x: bv32, r: Row, k: bv8) { k < 32 ==> (Bit(x, k) <==> k as nat in r) }

  lemma ColumnIsBit(c: nat) returns (k: bv8)
    requires c < 32
    ensures k < 32 && k as nat == c
  {
    k := c as bv8;
  }

  /** On the words of the firmware, masking with AND is intersection. */
  lemma AndShows(x: bv32, r: Row, y: bv32, q: Row)
    requires Shows(x, r) && Shows(y, q)
    ensures Shows(x & y, r * q)
  {
    var z, both := x & y, r * q;
    forall k: bv8 ensures ShowsColumn(z, both, k) {
      AndIsBoth(x, y, k);
      assert ShowsColumn(x, r, k) && ShowsColumn(y, q, k);
    }
  }

  lemma AndIsBoth(x: bv32, y: bv32, k: bv8)
    ensures Bit(x & y, k) <==> Bit(x, k) && Bit(y, k)
  {
  }

  lemma TwoColumns(x: bv32, r: Row)
    requires Shows(x, r)
    ensures TwoBits(x) <==> MoreThanOne(r)
  {
    if MoreThanOne(r) {
      var c, d :| c in r && d in r && c != d;
      var i := ColumnIsBit(c);
      var j := ColumnIsBit(d);
      assert ShowsColumn(x, r, i) && ShowsColumn(x, r, j);
    }
    if TwoBits(x) {
      var i, j :| i != j && Bit(x, i) && Bit(x, j);
      assert ShowsColumn(x, r, i) && ShowsColumn(x, r, j);
      DistinctColumns(i, j);
    }
  }

  lemma DistinctColumns(i: bv8, j: bv8)
    requires i != j
    ensures i as nat != j as nat
  {
  }

  /** popcount_more_than_one on a word says whether the row it shows has two columns. */
  lemma PopcountOnRow(x: bv32, r: Row)
    requires Shows(x, r)
    ensures x & (x - 1) != 0 <==> MoreThanOne(r)
  {
    PopcountIsTwoBits(x, x & (x - 1));
    TwoColumns(x, r);
  }

  // ---------- what an event log says about a key ----------

  /** The state of a key after the events. */
  predicate Down(out: seq<KeyEvent>, row: nat, col: nat) {
    if out == [] then false
    else
      var e := out[|out| - 1];
      if e.row == row && e.col == col then e.pressed else Down(out[..|out| - 1], row, col)
  }

  /** Each event changes the state of its key. */
  predicate Alternates(out: seq<KeyEvent>) {
    out == [] ||
    (var n := |out| - 1;
     Alternates(out[..n]) && out[n].pressed != Down(out[..n], out[n].row, out[n].col))
  }

  lemma {:induction false} DownIsLast(out: seq<KeyEvent>, i: nat)
    requires i < |out|
    requires forall k :: i < k < |out| ==> out[k].row != out[i].row || out[k].col != out[i].col
    ensures Down(out, out[i].row, out[i].col) == out[i].pressed
  {
    if i < |out| - 1 { DownIsLast(out[..|out| - 1], i); }
  }

  lemma {:induction false} NeverDown(out: seq<KeyEvent>, row: nat, col: nat)
    requires forall k :: 0 <= k < |out| ==> out[k].row != row || out[k].col != col
    ensures !Down(out, row, col)
  {
    if out != [] { NeverDown(out[..|out| - 1], row, col); }
  }

  /** What alternation means: a key's first event is a press, and neighbouring events of one
      key differ. */
  lemma {:induction false} AlternationMeans(out: seq<KeyEvent>, i: int, j: nat)
    requires Alternates(out) && -1 <= i < j < |out|
    requires i >= 0 ==> out[i].row == out[j].row && out[i].col == out[j].col
    requires forall k :: i < k < j ==> out[k].row != out[j].row || out[k].col != out[j].col
    ensures out[j].pressed == if i < 0 then true else !out[i].pressed
    decreases |out|
  {
    if j < |out| - 1 {
      AlternationMeans(out[..|out| - 1], i, j);
    } else if i >= 0 {
      DownIsLast(out[..j], i);
    } else {
      NeverDown(out[..j], out[j].row, out[j].col);
    }
  }

  lemma Append(out: seq<KeyEvent>, e: KeyEvent, row: nat, col: nat)
    ensures Down(out + [e], row, col) == if e.row == row && e.col == col then e.pressed else Down(out, row, col)
    ensures Alternates(out + [e]) <==> Alternates(out) && e.pressed != Down(out, e.row, e.col)
  {
    assert (out + [e])[..|out|] == out;
  }

  // ---------- ghosts ----------

  /** A matrix: its size, whether it can ghost, and which positions hold a real key. */
  datatype Layout = Layout(rows: nat, cols: nat, hasGhost: bool, isKey: (nat, nat) -> bool) {
    /** The key is down, as far as the matrix can tell, and not a blank. */
    predicate Active(scan: seq<Row>, row: nat, col: nat)
      requires row < |scan|
    {
      col < cols && isKey(row, col) && col in scan[row]
    }

    /** Two rows share at least two columns of active real keys. */
    ghost predicate Shares(scan: seq<Row>, i: nat, j: nat)
      requires i < |scan| && j < |scan|
    {
      exists c, d :: c != d
        && Active(scan, i, c) && Active(scan, i, d) && Active(scan, j, c) && Active(scan, j, d)
    }

    ghost predicate Ghosted(scan: seq<Row>, row: nat)
      requires row < |scan|
    {
      hasGhost && exists i :: 0 <= i < |scan| && i != row && Shares(scan, i, row)
    }
  }

  /** Ghosting is mutual: a ghosted row is never the only one of its scan. */
  lemma GhostsComeInPairs(m: Layout, scan: seq<Row>, row: nat)
    requires row < |scan| && m.Ghosted(scan, row)
    ensures exists i :: 0 <= i < |scan| && i != row && m.Shares(scan, i, row) && m.Ghosted(scan, i)
  {
    var i :| 0 <= i < |scan| && i != row && m.Shares(scan, i, row);
    assert m.Shares(scan, row, i);
  }

  /** The matrix shows a real key at this place as down. */
  predicate Shown(m: Layout, scan: seq<Row>, row: nat, col: nat) {
    row < |scan| && col < m.cols && m.isKey(row, col) && col in scan[row]
  }

  /** Without diodes, three corners of a rectangle that are down make the fourth look down. A row
      with such a corner is withheld, and so is the other row of the rectangle. */
  lemma RectangleWithheld(m: Layout, scan: seq<Row>, r: nat, i: nat, c: nat, d: nat)
    requires m.hasGhost && r != i && c != d
    requires Shown(m, scan, r, c) && Shown(m, scan, r, d) && Shown(m, scan, i, c) && Shown(m, scan, i, d)
    ensures m.Ghosted(scan, r) && m.Ghosted(scan, i)
  {
    assert m.Active(scan, r, c) && m.Active(scan, r, d) && m.Active(scan, i, c) && m.Active(scan, i, d);
    assert m.Shares(scan, i, r) && m.Shares(scan, r, i);
  }

  /** A row is withheld for no other reason. */
  lemma WithheldForRectangle(m: Layout, scan: seq<Row>, r: nat) returns (i: nat, c: nat, d: nat)
    requires r < |scan| && m.Ghosted(scan, r)
    ensures m.hasGhost && r != i && c != d
    ensures Shown(m, scan, r, c) && Shown(m, scan, r, d) && Shown(m, scan, i, c) && Shown(m, scan, i, d)
  {
    i :| 0 <= i < |scan| && i != r && m.Shares(scan, i, r);
    c, d :| c != d && m.Active(scan, i, c) && m.Active(scan, i, d) && m.Active(scan, r, c) && m.Active(scan, r, d);
  }

  // ---------- matrix_task ----------

  class Matrix {
    const layout: Layout
    /** matrix_previous */
    const previous: array<Row>
    /** The key events executed so far. */
    var out: seq<KeyEvent>

    ghost predicate Valid() { previous.Length == layout.rows }

    /** The events add up to the rows last processed, and alternate for every key. */
    ghost predicate Faithful()
      requires Valid()
      reads this, previous
    {
      && Alternates(out)
      && forall r, c :: 0 <= r < layout.rows && 0 <= c < layout.cols ==> Down(out, r, c) == (c in previous[r])
    }

    constructor (layout: Layout)
      ensures Valid() && Faithful() && fresh(previous) && this.layout == layout && out == []
    {
      this.layout := layout;
      previous := new Row[layout.rows](_ => {});
      out := [];
    }

    /** get_real_keys */
    method GetRealKeys(row: nat, rowdata: Row) returns (keys: Row)
      ensures forall c: nat :: c in keys <==> c < layout.cols && layout.isKey(row, c) && c in rowdata
    {
      keys := {};
      for col := 0 to layout.cols
        invariant forall c: nat :: c in keys <==> c < col && layout.isKey(row, c) && c in rowdata
      {
        if layout.isKey(row, col) && col in rowdata { keys := keys + {col}; }
      }
    }

    /** has_ghost_in_row */
    method HasGhostInRow(row: nat, scan: seq<Row>) returns (ghosted: bool)
      requires |scan| == layout.rows && row < layout.rows
      ensures ghosted <==> layout.Ghosted(scan, row)
    {
      if !layout.hasGhost { return false; }
      var keys := GetRealKeys(row, scan[row]);
      if !MoreThanOne(keys) { return false; }
      for i := 0 to layout.rows
        invariant forall j :: 0 <= j < i && j != row ==> !layout.Shares(scan, j, row)
      {
        var others := GetRealKeys(i, scan[i]);
        CommonKeys(scan, i, row, others, keys);
        if i != row && MoreThanOne(others * keys) { return true; }
      }
      return false;
    }

    lemma CommonKeys(scan: seq<Row>, i: nat, row: nat, others: Row, keys: Row)
      requires i < |scan| && row < |scan|
      requires forall c: nat :: c in keys <==> layout.Active(scan, row, c)
      requires forall c: nat :: c in others <==> layout.Active(scan, i, c)
      ensures MoreThanOne(others * keys) <==> layout.Shares(scan, i, row)
    {
      if MoreThanOne(others * keys) {
        var c, d :| c in others * keys && d in others * keys && c != d;
        assert layout.Active(scan, i, c) && layout.Active(scan, i, d);
      }
      if layout.Shares(scan, i, row) {
        var c, d :| c != d && layout.Active(scan, i, c) && layout.Active(scan, i, d)
          && layout.Active(scan, row, c) && layout.Active(scan, row, d);
        assert c in others * keys && d in others * keys;
      }
    }

    /** action_exec */
    method Execute(e: KeyEvent)
      modifies this`out
      ensures out == old(out) + [e]
      ensures forall r, c :: Down(out, r, c) == if r == e.row && c == e.col then e.pressed else Down(old(out), r, c)
      ensures Alternates(out) <==> Alternates(old(out)) && e.pressed != Down(old(out), e.row, e.col)
    {
      out := out + [e];
      forall r, c ensures Down(out, r, c) == if r == e.row && c == e.col then e.pressed else Down(old(out), r, c) {
        Append(old(out), e, r, c);
      }
      Append(old(out), e, e.row, e.col);
    }

    /** The loop over the columns of a changed row. */
    method ProcessRow(row: nat, current: Row)
      requires Valid() && row < layout.rows && Faithful()
      modifies this`out, previous
      ensures Faithful() && old(out) <= out
      ensures previous[row] == current
        && forall r :: 0 <= r < layout.rows && r != row ==> previous[r] == old(previous[r])
    {
      for col := 0 to layout.cols
        invariant Alternates(out) && old(out) <= out
        invariant forall r :: 0 <= r < layout.rows ==> previous[r] == old(previous[r])
        invariant forall r, c :: 0 <= r < layout.rows && 0 <= c < layout.cols ==>
          Down(out, r, c) == if r == row && c < col then c in current else c in previous[r]
      {
        if (col in current) != (col in previous[row]) {
          Execute(KeyEvent(row, col, col in current));
        }
      }
      previous[row] := current;
    }

    /** matrix_task, for a readable matrix with keypress processing on */
    method MatrixTask(scan: seq<Row>) returns (changed: bool)
      requires Valid() && |scan| == layout.rows && Faithful()
      modifies this`out, previous
      ensures Faithful() && old(out) <= out
      ensures changed <==> scan != old(previous[..])
      ensures forall r :: 0 <= r < layout.rows ==>
        previous[r] == if layout.Ghosted(scan, r) then old(previous[r]) else scan[r]
    {
      changed := false;
      var row := 0;
      while row < layout.rows && !changed
        invariant 0 <= row <= layout.rows
        invariant changed <==> exists r :: 0 <= r < row && scan[r] != previous[r]
      {
        changed := previous[row] != scan[row];
        row := row + 1;
      }
      if !changed { return; }

      for r := 0 to layout.rows
        invariant Faithful() && old(out) <= out
        invariant forall k :: r <= k < layout.rows ==> previous[k] == old(previous[k])
        invariant forall k ::
                  0 <= k < r
                  ==> previous[k] == if layout.Ghosted(scan, k) then old(previous[k]) else scan[k]
      {
        var ghosted := HasGhostInRow(r, scan);
        if previous[r] != scan[r] && !ghosted {
          ProcessRow(r, scan[r]);
        }
      }
    }
  }
}
