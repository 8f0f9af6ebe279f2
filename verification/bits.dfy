/**
 * Registers and the bit-manipulation macros of both hardware.h files.
 *
 * A 32-bit `unsigned` register is modelled by its bits: w[i] is the bit of
 * weight 2^i.  C's `&`, `|`, `~` become pointwise operations and a shift
 * moves every bit by the same distance, dropping the bits pushed past either
 * end; a shift by 32 or more therefore yields 0, which is what the Cortex-M
 * LSL/LSR-by-register instructions do (C leaves it undefined).
 */
module Bits {

  type Word = w: seq<bool> | |w| == 32 witness seq(32, _ => false)

  /** Bit i of a C integer literal. */
  function BitOfLit(n: bv32, i: nat): bool
    requires i < 32
  {
    (n >> i) & 1 == 1
  }

  /** The register value of a C integer literal. */
  function Lit(n: bv32): Word
  {
    seq(32, i requires 0 <= i < 32 => BitOfLit(n, i))
  }

  function Not(a: Word): Word
  {
    seq(32, i requires 0 <= i < 32 => !a[i])
  }

  function And(a: Word, b: Word): Word
  {
    seq(32, i requires 0 <= i < 32 => a[i] && b[i])
  }

  function Or(a: Word, b: Word): Word
  {
    seq(32, i requires 0 <= i < 32 => a[i] || b[i])
  }

  /** a << p */
  function Shl(a: Word, p: nat): Word
  {
    seq(32, i requires 0 <= i < 32 => i >= p && a[i - p])
  }

  /** a >> p, unsigned */
  function Shr(a: Word, p: nat): Word
  {
    seq(32, i requires 0 <= i < 32 => i + p < 32 && a[i + p])
  }

  /** Every bit set in a is set in m, i.e. a & ~m == 0. */
  predicate Within(a: Word, m: Word)
  {
    forall i :: 0 <= i < 32 && a[i] ==> m[i]
  }

  // ---------------------------------------------------------------------
  // Numeric value of a register

  function Pow2(n: nat): nat
  {
    if n == 0 then 1 else 2 * Pow2(n - 1)
  }

  /** Little-endian value of a bit sequence. */
  function ValueOf(s: seq<bool>): nat
  {
    if s == [] then 0 else (if s[0] then 1 else 0) + 2 * ValueOf(s[1..])
  }

  function Value(w: Word): nat
  {
    ValueOf(w)
  }

  /** A bit sequence whose set bits are exactly those below k is worth 2^k - 1. */
  lemma {:induction false} ValueOfLowOnes(s: seq<bool>, k: nat)
    requires k <= |s|
    requires forall i :: 0 <= i < |s| ==> (s[i] <==> i < k)
    ensures ValueOf(s) == Pow2(k) - 1
    decreases |s|
  {
    if s == [] {
    } else if k == 0 {
      ValueOfLowOnes(s[1..], 0);
    } else {
      ValueOfLowOnes(s[1..], k - 1);
    }
  }

  /** A bit sequence whose only set bit is k is worth 2^k. */
  lemma {:induction false} ValueOfOneHot(s: seq<bool>, k: nat)
    requires k < |s|
    requires forall i :: 0 <= i < |s| ==> (s[i] <==> i == k)
    ensures ValueOf(s) == Pow2(k)
    decreases |s|
  {
    if k == 0 {
      ValueOfLowOnes(s[1..], 0);
    } else {
      ValueOfOneHot(s[1..], k - 1);
    }
  }

  /** A bit sequence within another is worth no more than it. */
  lemma {:induction false} ValueOfMonotone(a: seq<bool>, m: seq<bool>)
    requires |a| == |m|
    requires forall i :: 0 <= i < |a| && a[i] ==> m[i]
    ensures ValueOf(a) <= ValueOf(m)
    decreases |a|
  {
    if a != [] {
      ValueOfMonotone(a[1..], m[1..]);
    }
  }

  // ---------------------------------------------------------------------
  // The literals the macros use, each given by its set bits and shown equal
  // to the C literal

  function Zero(): Word { seq(32, i => false) }
  function One(): Word { seq(32, i => i == 0) }
  /** -2 as a 32-bit pattern */
  function MinusTwo(): Word { seq(32, i => i != 0) }
  /** 0xff */
  function ByteMask(): Word { seq(32, i => i < 8) }

  lemma LiteralBits()
    ensures Lit(0) == Zero() && Lit(1) == One()
    ensures Lit(0xFFFF_FFFE) == MinusTwo() && Lit(0xff) == ByteMask()
  {
    forall i | 0 <= i < 32
      ensures Lit(0)[i] == Zero()[i] && Lit(1)[i] == One()[i]
      ensures Lit(0xFFFF_FFFE)[i] == MinusTwo()[i] && Lit(0xff)[i] == ByteMask()[i]
    {
    }
  }

  // ---------------------------------------------------------------------
  // The macros

  /** BIT(i) == 1 << i: the word with exactly bit i set (none when i >= 32). */
  function Bit(i: nat): (r: Word)
    ensures forall j :: 0 <= j < 32 ==> (r[j] <==> j == i)
  {
    Shl(One(), i)
  }

  /** BIT(i) is worth 2^i. */
  lemma BitValue(i: nat)
    requires i < 32
    ensures Value(Bit(i)) == Pow2(i)
  {
    ValueOfOneHot(Bit(i), i);
  }

  /** GET_BIT(reg, n) == (reg >> n) & 1: whether bit n of reg is set. */
  function GetBit(reg: Word, n: nat): (r: bool)
    requires n < 32
    ensures r <==> Within(Bit(n), reg)
  {
    Shr(reg, n)[0]
  }

  /**
   * __MASK0(wid) == ~((-2) << (wid-1)): the low wid bits set, i.e. 2^wid - 1.
   * wid == 32 works because the shift by 31 moves bit 0 of -2, which is 0,
   * to bit 31 and clears the rest, so the complement has every bit set.
   */
  function Mask0(wid: nat): (r: Word)
    requires 1 <= wid <= 32
    ensures forall i :: 0 <= i < 32 ==> (r[i] <==> i < wid)
  {
    Not(Shl(MinusTwo(), wid - 1))
  }

  /** __MASK0(wid) is worth 2^wid - 1. */
  lemma Mask0Value(wid: nat)
    requires 1 <= wid <= 32
    ensures Value(Mask0(wid)) == Pow2(wid) - 1
  {
    ValueOfLowOnes(Mask0(wid), wid);
  }

  /** __MASK(pos, wid) == __MASK0(wid) << pos: bits pos .. pos+wid-1. */
  function Mask(pos: nat, wid: nat): (r: Word)
    requires 1 <= wid <= 32
    ensures forall i :: 0 <= i < 32 ==> (r[i] <==> pos <= i < pos + wid)
  {
    Shl(Mask0(wid), pos)
  }

  /** __FIELD(pos, wid, val) == (val & __MASK0(wid)) << pos */
  function Field(pos: nat, wid: nat, val: Word): (r: Word)
    requires 1 <= wid <= 32
    ensures Within(r, Mask(pos, wid))
    ensures forall i :: pos <= i < pos + wid && i < 32 ==> (r[i] <==> val[i - pos])
  {
    Shl(And(val, Mask0(wid)), pos)
  }

  /** __SET_FIELD(reg, pos, wid, val): the new value of reg. */
  function SetField(reg: Word, pos: nat, wid: nat, val: Word): (r: Word)
    requires 1 <= wid <= 32
    ensures forall i :: 0 <= i < 32 && !Mask(pos, wid)[i] ==> r[i] == reg[i]
    ensures forall i :: 0 <= i < 32 && Mask(pos, wid)[i] ==> r[i] == val[i - pos]
  {
    Or(And(reg, Not(Mask(pos, wid))), Field(pos, wid, val))
  }

  /** __GET_FIELD(reg, pos, wid) == (reg >> pos) & __MASK0(wid) */
  function GetField(reg: Word, pos: nat, wid: nat): (r: Word)
    requires 1 <= wid <= 32
    ensures Within(r, Mask0(wid))
    ensures forall i :: 0 <= i < wid && pos + i < 32 ==> r[i] == reg[pos + i]
  {
    And(Shr(reg, pos), Mask0(wid))
  }

  /** A field read back is worth less than 2^wid. */
  lemma GetFieldValue(reg: Word, pos: nat, wid: nat)
    requires 1 <= wid <= 32
    ensures Value(GetField(reg, pos, wid)) < Pow2(wid)
  {
    ValueOfMonotone(GetField(reg, pos, wid), Mask0(wid));
    Mask0Value(wid);
  }

  /** Reading a field back returns the value written, cut to the field width. */
  lemma GetSetField(reg: Word, pos: nat, wid: nat, val: Word)
    requires 1 <= wid <= 32 && pos + wid <= 32
    ensures GetField(SetField(reg, pos, wid, val), pos, wid) == And(val, Mask0(wid))
  {
    var g := GetField(SetField(reg, pos, wid, val), pos, wid);
    forall i | 0 <= i < 32 ensures g[i] == And(val, Mask0(wid))[i] {
      if i < wid {
        assert Mask(pos, wid)[pos + i];
      }
    }
  }

  /** Writing back the value just read leaves the register as it was. */
  lemma SetGetField(reg: Word, pos: nat, wid: nat)
    requires 1 <= wid <= 32
    ensures SetField(reg, pos, wid, GetField(reg, pos, wid)) == reg
  {
    var s := SetField(reg, pos, wid, GetField(reg, pos, wid));
    forall i | 0 <= i < 32 ensures s[i] == reg[i] {
      if Mask(pos, wid)[i] {
        assert s[i] == GetField(reg, pos, wid)[i - pos];
      }
    }
  }

  /** The second of two writes to the same field wins. */
  lemma SetFieldTwice(reg: Word, pos: nat, wid: nat, a: Word, b: Word)
    requires 1 <= wid <= 32
    ensures SetField(SetField(reg, pos, wid, a), pos, wid, b) == SetField(reg, pos, wid, b)
  {
    var s := SetField(SetField(reg, pos, wid, a), pos, wid, b);
    var t := SetField(reg, pos, wid, b);
    forall i | 0 <= i < 32 ensures s[i] == t[i] {
    }
  }

  /** GET_BYTE(reg, n) == (reg >> 8*n) & 0xff */
  function GetByte(reg: Word, n: nat): (r: Word)
    ensures Within(r, ByteMask())
    ensures forall i :: 0 <= i < 8 && 8 * n + i < 32 ==> r[i] == reg[8 * n + i]
  {
    And(Shr(reg, 8 * n), ByteMask())
  }

  /** SET_BYTE(reg, n, v) for a simple argument n: the new value of reg. */
  function SetByte(reg: Word, n: nat, v: Word): (r: Word)
    ensures forall i :: 0 <= i < 32 && !(8 * n <= i < 8 * n + 8) ==> r[i] == reg[i]
    ensures forall i :: 0 <= i < 32 && 8 * n <= i < 8 * n + 8 ==> r[i] == v[i - 8 * n]
  {
    Or(And(reg, Not(Shl(ByteMask(), 8 * n))), Shl(And(v, ByteMask()), 8 * n))
  }

  /** SET_BYTE and GET_BYTE are SET_FIELD and GET_FIELD on the field (8n, 8). */
  lemma ByteIsField(reg: Word, n: nat, v: Word)
    ensures SetByte(reg, n, v) == SetField(reg, 8 * n, 8, v)
    ensures GetByte(reg, n) == GetField(reg, 8 * n, 8)
  {
    var a, b := SetByte(reg, n, v), SetField(reg, 8 * n, 8, v);
    forall i | 0 <= i < 32 ensures a[i] == b[i] {
    }
    var c, d := GetByte(reg, n), GetField(reg, 8 * n, 8);
    forall i | 0 <= i < 32 ensures c[i] == d[i] {
    }
  }

  /** Byte n reads back as v & 0xff and the other three bytes keep their values. */
  lemma GetSetByte(reg: Word, n: nat, v: Word)
    requires n < 4
    ensures GetByte(SetByte(reg, n, v), n) == And(v, ByteMask())
    ensures forall m :: 0 <= m < 4 && m != n ==> GetByte(SetByte(reg, n, v), m) == GetByte(reg, m)
  {
    ByteIsField(reg, n, v);
    ByteIsField(SetByte(reg, n, v), n, v);
    GetSetField(reg, 8 * n, 8, v);
    assert Mask0(8) == ByteMask();
    forall m | 0 <= m < 4 && m != n
      ensures GetByte(SetByte(reg, n, v), m) == GetByte(reg, m)
    {
      var a, b := GetByte(SetByte(reg, n, v), m), GetByte(reg, m);
      forall i | 0 <= i < 32 ensures a[i] == b[i] { }
    }
  }

  // ---------------------------------------------------------------------
  // Device pins: a pin number packs a GPIO port and a bit index

  /** DEVPIN(p, i) == (p << 5) + i, for a port small enough not to overflow. */
  function DevPin(p: nat, i: nat): (x: nat)
    requires i < 32 && p < 0x0800_0000
    ensures Port(x) == p && Pin(x) == i
    ensures x < 0x1_0000_0000
  {
    p * 32 + i
  }

  /** PORT(x) == x >> 5 */
  function Port(x: nat): nat
  {
    x / 32
  }

  /** PIN(x) == x & 0x1f */
  function Pin(x: nat): (r: nat)
    ensures r < 32
  {
    x % 32
  }

  /** Every pin number is DEVPIN of its own port and pin. */
  lemma PortPinDevPin(x: nat)
    requires x < 0x1_0000_0000
    ensures DevPin(Port(x), Pin(x)) == x
  {
  }
}
