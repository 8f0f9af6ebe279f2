/**
 * The LED display images of hardware.h.
 *
 * An image is the sequence of GPIO words that light one row of the display
 * at a time: the row pin is driven high and a lit LED's column pin is driven
 * low, so a column bit is set exactly when its LED is dark.  An image is
 * built from 25 flags given in the order the IMAGE macro takes its
 * arguments, row by row across the picture; true means "lit" (a non-zero
 * argument).
 */
module Leds {
  import opened Bits

  // ---------------------------------------------------------------------
  // micro:bit V2: a 5 x 5 matrix, rows on port 0, columns split over
  // ports 0 and 1, so each row takes two words (NIMG = 10)

  /** ROW1 .. ROW5 and COL1 .. COL5 as pin numbers. */
  const RowPinsV2: seq<nat> :=
    [DevPin(0, 21), DevPin(0, 22), DevPin(0, 15), DevPin(0, 24), DevPin(0, 19)]
  const ColPinsV2: seq<nat> :=
    [DevPin(0, 28), DevPin(0, 11), DevPin(0, 31), DevPin(1, 5), DevPin(0, 30)]

  /** The GPIO bit of each row pin (all on port 0), and the port and bit of each column pin. */
  const RowBitV2: seq<nat> := [21, 22, 15, 24, 19]
  const ColPortV2: seq<nat> := [0, 0, 0, 1, 0]
  const ColBitV2: seq<nat> := [28, 11, 31, 5, 30]

  /** The port/bit tables above are PORT and PIN of the pin numbers. */
  lemma PinTablesV2()
    ensures forall k :: 0 <= k < 5 ==> Port(RowPinsV2[k]) == 0 && Pin(RowPinsV2[k]) == RowBitV2[k]
    ensures forall c :: 0 <= c < 5 ==> Port(ColPinsV2[c]) == ColPortV2[c] && Pin(ColPinsV2[c]) == ColBitV2[c]
  {
  }

  /** LED_MASK0 and LED_MASK1: the row and column pins on each port. */
  function LedMask0(): Word {
    seq(32, i =>
    i == 11 || i == 15 || i == 19 || i == 21 || i == 22 || i == 24 || i == 28 || i == 30 || i == 31)
  }
  function LedMask1(): Word { seq(32, i => i == 5) }

  lemma LedMasksV2Literal()
    ensures LedMask0() == Lit(0xd1688800) && LedMask1() == Lit(0x0000_0020)
  {
    forall i | 0 <= i < 32 ensures LedMask0()[i] == Lit(0xd1688800)[i] && LedMask1()[i] == Lit(0x0000_0020)[i] {
    }
  }

  /**
   * __ROW(r, c1, c2, c3, c4, c5), first initialiser: the port-0 word of a
   * row, with the row bit and the bits of the dark columns on port 0;
   * cols[c-1] is the argument for column c.
   */
  function RowV2Port0(r: nat, cols: seq<bool>): Word
    requires |cols| == 5
  {
    Or(Bit(r), seq(32, i =>
      (i == 28 && !cols[0]) || (i == 11 && !cols[1]) || (i == 31 && !cols[2]) || (i == 30 && !cols[4])))
  }

  /** __ROW(r, c1, c2, c3, c4, c5), second initialiser: the port-1 word of a row. */
  function RowV2Port1(cols: seq<bool>): Word
    requires |cols| == 5
  {
    seq(32, i => i == 5 && !cols[3])
  }

  /**
   * IMAGE(x11, ..., x55) on the V2 board: words 2k and 2k+1 are
   * __ROW(ROW(k+1), x(k+1)1, ..., x(k+1)5).
   */
  function ImageV2(x: seq<bool>): (img: seq<Word>)
    requires |x| == 25
    ensures |img| == 10
  {
    var r1, r2, r3, r4, r5 := x[0..5], x[5..10], x[10..15], x[15..20], x[20..25];
    [RowV2Port0(RowBitV2[0], r1), RowV2Port1(r1), RowV2Port0(RowBitV2[1], r2), RowV2Port1(r2),
     RowV2Port0(RowBitV2[2], r3), RowV2Port1(r3), RowV2Port0(RowBitV2[3], r4), RowV2Port1(r4),
     RowV2Port0(RowBitV2[4], r5), RowV2Port1(r5)]
  }

  /** A V2 row's words lie within LED_MASK0 and LED_MASK1. */
  lemma RowV2InMasks(k: nat, cols: seq<bool>)
    requires k < 5 && |cols| == 5
    ensures Within(RowV2Port0(RowBitV2[k], cols), LedMask0())
    ensures Within(RowV2Port1(cols), LedMask1())
  {
  }

  /** Of the five row pins, a V2 row drives only its own. */
  lemma RowV2RowPins(k: nat, cols: seq<bool>)
    requires k < 5 && |cols| == 5
    ensures forall j :: 0 <= j < 5 ==> (RowV2Port0(RowBitV2[k], cols)[RowBitV2[j]] <==> j == k)
  {
  }

  /**
   * In a V2 row, the bit of column c, in the word of the column's port, is
   * clear exactly when that column's LED is lit.
   */
  lemma RowV2Columns(k: nat, cols: seq<bool>)
    requires k < 5 && |cols| == 5
    ensures forall c :: 0 <= c < 5 && ColPortV2[c] == 0 ==>
      (RowV2Port0(RowBitV2[k], cols)[ColBitV2[c]] <==> !cols[c])
    ensures forall c :: 0 <= c < 5 && ColPortV2[c] == 1 ==>
      (RowV2Port1(cols)[ColBitV2[c]] <==> !cols[c])
  {
  }

  /** Words 2k and 2k+1 of a V2 image are the two words of row k, built from x[5k .. 5k+5]. */
  lemma ImageV2Words(x: seq<bool>, k: nat)
    requires |x| == 25 && k < 5
    ensures ImageV2(x)[2 * k] == RowV2Port0(RowBitV2[k], x[5 * k .. 5 * k + 5])
    ensures ImageV2(x)[2 * k + 1] == RowV2Port1(x[5 * k .. 5 * k + 5])
  {
  }

  /** IMAGE on the V2 board: each row's two words lie within LED_MASK0 and LED_MASK1. */
  lemma ImageV2InMasks(x: seq<bool>, k: nat)
    requires |x| == 25 && k < 5
    ensures Within(ImageV2(x)[2 * k], LedMask0()) && Within(ImageV2(x)[2 * k + 1], LedMask1())
  {
    ImageV2Words(x, k);
    RowV2InMasks(k, x[5 * k .. 5 * k + 5]);
  }

  /** IMAGE on the V2 board: row k's port-0 word drives row pin k and no other. */
  lemma ImageV2RowPins(x: seq<bool>, k: nat)
    requires |x| == 25 && k < 5
    ensures forall j :: 0 <= j < 5 ==> (ImageV2(x)[2 * k][RowBitV2[j]] <==> j == k)
  {
    ImageV2Words(x, k);
    RowV2RowPins(k, x[5 * k .. 5 * k + 5]);
  }

  /**
   * IMAGE on the V2 board: the LED at row k, column c is lit exactly when
   * its column bit, in the word of the column's port, is clear.
   */
  lemma ImageV2Columns(x: seq<bool>, k: nat)
    requires |x| == 25 && k < 5
    ensures forall c :: 0 <= c < 5 ==>
      (x[5 * k + c] <==> !ImageV2(x)[2 * k + ColPortV2[c]][ColBitV2[c]])
  {
    ImageV2Words(x, k);
    RowV2Columns(k, x[5 * k .. 5 * k + 5]);
  }

  // ---------------------------------------------------------------------
  // micro:bit V1: the 25 LEDs are wired as a 3 x 9 matrix (two positions
  // unused), so the display row and column of an LED differ from its
  // matrix row and column

  /** ROW1 .. ROW3: the GPIO bits of the three matrix rows. */
  const RowBitV1: seq<nat> := [13, 14, 15]

  /** LED_MASK: the row and column pins. */
  function LedMaskV1(): Word { seq(32, i => 4 <= i < 16) }

  lemma LedMaskV1Literal()
    ensures LedMaskV1() == Lit(0xfff0)
  {
    forall i | 0 <= i < 32 ensures LedMaskV1()[i] == Lit(0xfff0)[i] {
    }
  }

  /** Matrix column c (1 .. 9) is driven by GPIO bit c + 3. */
  function ColBitV1(c: nat): nat
  {
    c + 3
  }

  /** A position in the 3 x 9 LED matrix, both coordinates counted from 1. */
  datatype Cell = Cell(row: nat, col: nat)

  /**
   * The matrix cell behind each display position, in the order IMAGE takes
   * its arguments (x11, x24, x12, x25, x13, x34, ...).
   */
  const DisplayV1: seq<Cell> := [
    Cell(1, 1), Cell(2, 4), Cell(1, 2), Cell(2, 5), Cell(1, 3),
    Cell(3, 4), Cell(3, 5), Cell(3, 6), Cell(3, 7), Cell(3, 8),
    Cell(2, 2), Cell(1, 9), Cell(2, 3), Cell(3, 9), Cell(2, 1),
    Cell(1, 8), Cell(1, 7), Cell(1, 6), Cell(1, 5), Cell(1, 4),
    Cell(3, 3), Cell(2, 7), Cell(3, 1), Cell(2, 6), Cell(3, 2)]

  /**
   * _ROW(r, c1, ..., c9): the row bit r, and column bit c+3 for every column
   * c (1 .. 9) whose LED is dark; cols[c-1] is the argument for column c.
   */
  function RowV1(r: nat, cols: seq<bool>): Word
    requires |cols| == 9
  {
    Or(Bit(r), seq(32, i => 4 <= i < 13 && !cols[i - 4]))
  }

  /**
   * The column arguments IMAGE(x11, x24, x12, ...) passes to each of the
   * three _ROW calls on the V1 board; matrix positions 2.8 and 2.9 get 0.
   */
  function ColsV1(x: seq<bool>): (cols: seq<seq<bool>>)
    requires |x| == 25
    ensures |cols| == 3 && forall k :: 0 <= k < 3 ==> |cols[k]| == 9
  {
    var x11, x24, x12, x25, x13 := x[0], x[1], x[2], x[3], x[4];
    var x34, x35, x36, x37, x38 := x[5], x[6], x[7], x[8], x[9];
    var x22, x19, x23, x39, x21 := x[10], x[11], x[12], x[13], x[14];
    var x18, x17, x16, x15, x14 := x[15], x[16], x[17], x[18], x[19];
    var x33, x27, x31, x26, x32 := x[20], x[21], x[22], x[23], x[24];
    [[x11, x12, x13, x14, x15, x16, x17, x18, x19],
     [x21, x22, x23, x24, x25, x26, x27, false, false],
     [x31, x32, x33, x34, x35, x36, x37, x38, x39]]
  }

  /** IMAGE(x11, x24, x12, ...) on the V1 board: one _ROW word per matrix row. */
  function ImageV1(x: seq<bool>): (img: seq<Word>)
    requires |x| == 25
    ensures |img| == 3
  {
    var cols := ColsV1(x);
    [RowV1(RowBitV1[0], cols[0]), RowV1(RowBitV1[1], cols[1]), RowV1(RowBitV1[2], cols[2])]
  }

  /**
   * IMAGE's argument order agrees with the display layout: the argument for
   * display position d lands in the matrix cell DisplayV1[d].
   */
  lemma ColsV1Display(x: seq<bool>)
    requires |x| == 25
    ensures forall d :: 0 <= d < 25 ==>
      ColsV1(x)[DisplayV1[d].row - 1][DisplayV1[d].col - 1] == x[d]
    ensures !ColsV1(x)[1][7] && !ColsV1(x)[1][8]
  {
    var cols := ColsV1(x);
    forall d | 0 <= d < 25
      ensures cols[DisplayV1[d].row - 1][DisplayV1[d].col - 1] == x[d]
    {
      // one case per display position
      if d == 0 {} else if d == 1 {} else if d == 2 {} else if d == 3 {} else if d == 4 {} else
      if d == 5 {} else if d == 6 {} else if d == 7 {} else if d == 8 {} else if d == 9 {} else
      if d == 10 {} else if d == 11 {} else if d == 12 {} else if d == 13 {} else if d == 14 {} else
      if d == 15 {} else if d == 16 {} else if d == 17 {} else if d == 18 {} else if d == 19 {} else
      if d == 20 {} else if d == 21 {} else if d == 22 {} else if d == 23 {} else {}
    }
  }

  /** A V1 row word lies within LED_MASK and drives its own row pin only. */
  lemma RowV1Pins(k: nat, cols: seq<bool>)
    requires k < 3 && |cols| == 9
    ensures var w := RowV1(RowBitV1[k], cols);
      Within(w, LedMaskV1()) && forall j :: 0 <= j < 3 ==> (w[RowBitV1[j]] <==> j == k)
  {
  }

  /** In a V1 row word, column bit c+3 is clear exactly when LED c of the row is lit. */
  lemma RowV1Columns(r: nat, cols: seq<bool>)
    requires |cols| == 9 && (r < 4 || r > 12)
    ensures forall c :: 1 <= c <= 9 ==> (RowV1(r, cols)[ColBitV1(c)] <==> !cols[c - 1])
  {
  }

  /** Distinct display positions are distinct matrix cells, all within the 3 x 9 matrix. */
  lemma DisplayV1Injective()
    ensures forall d :: 0 <= d < 25 ==>
      1 <= DisplayV1[d].row <= 3 && 1 <= DisplayV1[d].col <= 9
    ensures forall d, e :: 0 <= d < e < 25 ==> DisplayV1[d] != DisplayV1[e]
  {
  }

  /** IMAGE on the V1 board: each row word lies within LED_MASK and drives only its own row. */
  lemma ImageV1Pins(x: seq<bool>, k: nat)
    requires |x| == 25 && k < 3
    ensures Within(ImageV1(x)[k], LedMaskV1())
    ensures forall j :: 0 <= j < 3 ==> (ImageV1(x)[k][RowBitV1[j]] <==> j == k)
  {
    RowV1Pins(k, ColsV1(x)[k]);
  }

  /**
   * IMAGE on the V1 board: the LED at each display position is lit exactly
   * when the column bit of its matrix cell is clear in its matrix row's word,
   * and the two unused matrix positions stay dark.
   */
  lemma ImageV1Display(x: seq<bool>)
    requires |x| == 25
    ensures forall d :: 0 <= d < 25 ==>
      (x[d] <==> !ImageV1(x)[DisplayV1[d].row - 1][ColBitV1(DisplayV1[d].col)])
    ensures ImageV1(x)[1][ColBitV1(8)] && ImageV1(x)[1][ColBitV1(9)]
  {
    var cols := ColsV1(x);
    ColsV1Display(x);
    RowV1Columns(RowBitV1[0], cols[0]);
    RowV1Columns(RowBitV1[1], cols[1]);
    RowV1Columns(RowBitV1[2], cols[2]);
  }
}
