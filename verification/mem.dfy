/**
 * The byte-array routines of the V1 startup code: memcpy, memmove, memset
 * and memcmp.  Memory is one sequence of bytes and a pointer is an index
 * into it; every routine's ranges must lie inside that memory.
 */
module Mem {
  /** An unsigned char. */
  type Byte = x: int | 0 <= x < 256

  /** The range [a, a + n) lies inside memory of size m. */
  predicate InRange(a: nat, n: nat, m: nat)
  {
    a + n <= m
  }

  /**
   * memcpy(dest, src, n): copies n bytes forward, one at a time, and
   * returns dest.  For regions that do not overlap (or where dest is at or
   * below src) the destination ends up holding the source bytes.
   */
  method Memcpy(mem: seq<Byte>, dest: nat, src: nat, n: nat) returns (res: seq<Byte>, r: nat)
    requires InRange(dest, n, |mem|) && InRange(src, n, |mem|)
    ensures r == dest && |res| == |mem|
    ensures dest <= src || src + n <= dest ==> res[dest..dest + n] == mem[src..src + n]
    ensures forall a :: 0 <= a < |mem| && !(dest <= a < dest + n) ==> res[a] == mem[a]
  {
    res := CopyForward(mem, dest, src, n);
    r := dest;
  }

  /**
   * The loop `while (n-- > 0) *p++ = *q++`: as long as the destination
   * does not run ahead into source bytes not yet read, the copy is exact.
   */
  method CopyForward(mem: seq<Byte>, dest: nat, src: nat, n: nat) returns (res: seq<Byte>)
    requires InRange(dest, n, |mem|) && InRange(src, n, |mem|)
    ensures |res| == |mem|
    ensures dest <= src || src + n <= dest ==>
      forall a :: dest <= a < dest + n ==> res[a] == mem[a - dest + src]
    ensures forall a :: 0 <= a < |mem| && !(dest <= a < dest + n) ==> res[a] == mem[a]
  {
    res := mem;
    var i := 0;
    while i < n
      invariant 0 <= i <= n && |res| == |mem|
      invariant dest <= src || src + n <= dest ==>
        forall a :: dest <= a < dest + i ==> res[a] == mem[a - dest + src]
      invariant forall a :: 0 <= a < |mem| && !(dest <= a < dest + i) ==> res[a] == mem[a]
    {
      res := res[dest + i := res[src + i]];
      i := i + 1;
    }
  }

  /**
   * The backward loop of memmove, `p += n; q += n; while (n-- > 0) *--p = *--q`:
   * exact when the destination lies above the source.
   */
  method CopyBackward(mem: seq<Byte>, dest: nat, src: nat, n: nat) returns (res: seq<Byte>)
    requires InRange(dest, n, |mem|) && InRange(src, n, |mem|) && src < dest
    ensures |res| == |mem|
    ensures forall a :: dest <= a < dest + n ==> res[a] == mem[a - dest + src]
    ensures forall a :: 0 <= a < |mem| && !(dest <= a < dest + n) ==> res[a] == mem[a]
  {
    res := mem;
    var i := n;
    while i > 0
      invariant 0 <= i <= n && |res| == |mem|
      invariant forall a :: dest + i <= a < dest + n ==> res[a] == mem[a - dest + src]
      invariant forall a :: 0 <= a < |mem| && !(dest + i <= a < dest + n) ==> res[a] == mem[a]
    {
      i := i - 1;
      res := res[dest + i := res[src + i]];
    }
  }

  /**
   * memmove(dest, src, n): copies forward when dest <= src and backward
   * otherwise, so the destination holds the original source bytes even
   * when the regions overlap.
   */
  method Memmove(mem: seq<Byte>, dest: nat, src: nat, n: nat) returns (res: seq<Byte>, r: nat)
    requires InRange(dest, n, |mem|) && InRange(src, n, |mem|)
    ensures r == dest && |res| == |mem|
    ensures res[dest..dest + n] == mem[src..src + n]
    ensures forall a :: 0 <= a < |mem| && !(dest <= a < dest + n) ==> res[a] == mem[a]
  {
    if dest <= src {
      res := CopyForward(mem, dest, src, n);
    } else {
      res := CopyBackward(mem, dest, src, n);
    }
    r := dest;
  }

  /** memset(dest, x, n): n bytes become x reduced to an unsigned char; nothing else changes. */
  method Memset(mem: seq<Byte>, dest: nat, x: nat, n: nat) returns (res: seq<Byte>, r: nat)
    requires InRange(dest, n, |mem|)
    ensures r == dest && |res| == |mem|
    ensures forall a :: dest <= a < dest + n ==> res[a] == x % 256
    ensures forall a :: 0 <= a < |mem| && !(dest <= a < dest + n) ==> res[a] == mem[a]
  {
    res := mem;
    var i := 0;
    while i < n
      invariant 0 <= i <= n && |res| == |mem|
      invariant forall a :: dest <= a < dest + i ==> res[a] == x % 256
      invariant forall a :: 0 <= a < |mem| && !(dest <= a < dest + i) ==> res[a] == mem[a]
    {
      res := res[dest + i := x % 256];
      i := i + 1;
    }
    r := dest;
  }

  /**
   * The reference order memcmp implements: the sign of the first
   * differing byte, compared unsigned, or 0 if the sequences agree.
   */
  function Compare(a: seq<Byte>, b: seq<Byte>): (c: int)
    requires |a| == |b|
    decreases |a|
  {
    if |a| == 0 then 0
    else if a[0] < b[0] then -1
    else if a[0] > b[0] then 1
    else Compare(a[1..], b[1..])
  }

  /** Compare is 0 exactly on equal sequences, and otherwise decided by the first difference. */
  lemma {:induction false} CompareFirstDifference(a: seq<Byte>, b: seq<Byte>)
    requires |a| == |b|
    ensures Compare(a, b) == 0 <==> a == b
    ensures Compare(a, b) != 0 ==> exists i :: (0 <= i < |a| && a[..i] == b[..i] && a[i] != b[i]
      && (Compare(a, b) == -1 <==> a[i] < b[i]) && (Compare(a, b) == 1 <==> a[i] > b[i]))
    decreases |a|
  {
    if |a| > 0 {
      CompareFirstDifference(a[1..], b[1..]);
      if a[0] == b[0] && Compare(a, b) != 0 {
        var i :| 0 <= i < |a| - 1 && a[1..][..i] == b[1..][..i] && a[1..][i] != b[1..][i]
          && (Compare(a, b) == -1 <==> a[1..][i] < b[1..][i]) && (Compare(a, b) == 1 <==> a[1..][i] > b[1..][i]);
        assert a[..i + 1] == [a[0]] + a[1..][..i];
        assert b[..i + 1] == [b[0]] + b[1..][..i];
      }
      if a[0] == b[0] && a[1..] == b[1..] {
        assert a == [a[0]] + a[1..] && b == [b[0]] + b[1..];
      }
    }
  }

  /**
   * memcmp(p, q, n) for a signed count n: 0 when n <= 0; otherwise the
   * bytes are scanned until the first difference, which decides -1 or 1.
   */
  method Memcmp(mem: seq<Byte>, p: nat, q: nat, n: int) returns (r: int)
    requires n <= 0 || (InRange(p, n, |mem|) && InRange(q, n, |mem|))
    ensures n <= 0 ==> r == 0
    ensures n > 0 ==> r == Compare(mem[p..p + n], mem[q..q + n])
  {
    if n <= 0 {
      return 0;
    }
    var i := 0;
    while i < n
      invariant 0 <= i <= n
      invariant Compare(mem[p..p + n], mem[q..q + n]) == Compare(mem[p + i..p + n], mem[q + i..q + n])
    {
      if mem[p + i] != mem[q + i] {
        return if mem[p + i] < mem[q + i] then -1 else 1;
      }
      assert mem[p + i..p + n][1..] == mem[p + i + 1..p + n];
      assert mem[q + i..q + n][1..] == mem[q + i + 1..q + n];
      i := i + 1;
    }
    return 0;
  }

  /** memcmp is 0 exactly when the first n bytes agree. */
  lemma MemcmpZero(mem: seq<Byte>, p: nat, q: nat, n: nat)
    requires InRange(p, n, |mem|) && InRange(q, n, |mem|)
    ensures Compare(mem[p..p + n], mem[q..q + n]) == 0 <==> mem[p..p + n] == mem[q..q + n]
  {
    CompareFirstDifference(mem[p..p + n], mem[q..q + n]);
  }
}
