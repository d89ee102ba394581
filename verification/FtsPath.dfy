/** The path buffer of src/fts.c: fts_pow2, fts_palloc, and every place that writes a path. */
module FtsPath {
  import opened Basics

  const SIZE_MAX: nat := 0xFFFF_FFFF_FFFF_FFFF
  const HALF: nat := 0x8000_0000_0000_0000
  const PATH_MAX: nat := 4096
  const PAD: nat := 256
  const NUL := '\0'

  // ---------------------------------------------------------------- bits

  predicate Bit(x: nat, i: nat) {
    if i == 0 then x % 2 == 1 else Bit(x / 2, i - 1)
  }

  /** x | y. */
  function Or(x: nat, y: nat): nat
    decreases x + y
  {
    if x == 0 && y == 0 then 0 else 2 * Or(x / 2, y / 2) + if x % 2 == 1 || y % 2 == 1 then 1 else 0
  }

  /** x >> k. */
  function Shift(x: nat, k: nat): nat {
    if k == 0 then x else Shift(x / 2, k - 1)
  }

  lemma {:induction false} BitOfOr(x: nat, y: nat, i: nat)
    ensures Bit(Or(x, y), i) <==> Bit(x, i) || Bit(y, i)
    decreases i
  {
    if i > 0 {
      BitOfOr(x / 2, y / 2, i - 1);
      if x == 0 && y == 0 {
        assert Or(x, y) / 2 == Or(x / 2, y / 2);
      }
    }
  }

  lemma {:induction false} BitOfShift(x: nat, k: nat, i: nat)
    ensures Bit(Shift(x, k), i) <==> Bit(x, i + k)
  {
    if k > 0 {
      BitOfShift(x / 2, k - 1, i);
    }
  }

  lemma {:induction false} ZeroBits(i: nat)
    ensures !Bit(0, i)
  {
    if i > 0 {
      ZeroBits(i - 1);
    }
  }

  /** A number is its bits. */
  lemma {:induction false} SameBits(x: nat, y: nat)
    requires forall i: nat :: Bit(x, i) == Bit(y, i)
    ensures x == y
    decreases x + y
  {
    if x != 0 || y != 0 {
      assert Bit(x, 0) == Bit(y, 0);
      forall i: nat ensures Bit(x / 2, i) == Bit(y / 2, i) {
        assert Bit(x, i + 1) == Bit(y, i + 1);
      }
      SameBits(x / 2, y / 2);
    }
  }

  // ---------------------------------------------------------------- smearing

  /** All bits up to the highest one of x. */
  function Ones(x: nat): nat {
    if x == 0 then 0 else 2 * Ones(x / 2) + 1
  }

  /** One of the n bits of x from bit i on is set. */
  ghost predicate AnyBit(x: nat, i: nat, n: nat) {
    exists m: nat :: i <= m < i + n && Bit(x, m)
  }

  /** y has the bits of x and of its next n - 1 right shifts. */
  ghost predicate Smeared(x: nat, n: nat, y: nat) {
    forall i: nat :: Bit(y, i) <==> AnyBit(x, i, n)
  }

  lemma SmearTwice(x: nat, n: nat, y: nat)
    requires Smeared(x, n, y)
    ensures Smeared(x, 2 * n, Or(y, Shift(y, n)))
  {
    forall i: nat ensures Bit(Or(y, Shift(y, n)), i) <==> AnyBit(x, i, 2 * n) {
      BitOfOr(y, Shift(y, n), i);
      BitOfShift(y, n, i);
      assert Bit(y, i) <==> AnyBit(x, i, n);
      assert Bit(y, i + n) <==> AnyBit(x, i + n, n);
    }
  }

  lemma {:induction false} SmallBits(x: nat, n: nat, i: nat)
    requires x < Pow2(n) && i >= n
    ensures !Bit(x, i)
  {
    if n == 0 {
      ZeroBits(i);
    } else {
      SmallBits(x / 2, n - 1, i - 1);
    }
  }

  ghost predicate AnyFrom(x: nat, i: nat) {
    exists m: nat :: i <= m && Bit(x, m)
  }

  lemma AnyFromHalf(x: nat, i: nat)
    ensures AnyFrom(x / 2, i) <==> AnyFrom(x, i + 1)
  {
    if AnyFrom(x / 2, i) {
      var m: nat :| i <= m && Bit(x / 2, m);
      assert Bit(x, m + 1);
    }
    if AnyFrom(x, i + 1) {
      var m: nat :| i + 1 <= m && Bit(x, m);
      assert Bit(x / 2, m - 1);
    }
  }

  lemma {:induction false} BitOfOnes(x: nat, i: nat)
    ensures Bit(Ones(x), i) <==> AnyFrom(x, i)
    decreases x, i
  {
    if x == 0 {
      ZeroBits(i);
      forall m: nat ensures !Bit(x, m) { ZeroBits(m); }
    } else if i > 0 {
      BitOfOnes(x / 2, i - 1);
      AnyFromHalf(x, i - 1);
      assert Ones(x) / 2 == Ones(x / 2);
    } else {
      HighBit(x);
    }
  }

  lemma {:induction false} HighBit(x: nat)
    requires x > 0
    ensures AnyFrom(x, 0)
  {
    if x == 1 {
      assert Bit(x, 0);
    } else {
      HighBit(x / 2);
      AnyFromHalf(x, 0);
      var m: nat :| 1 <= m && Bit(x, m);
    }
  }

  /** 64 shifts leave nothing out of a 64-bit number. */
  lemma SmearedIsOnes(x: nat, y: nat)
    requires x < Pow2(64) && Smeared(x, 64, y)
    ensures y == Ones(x)
  {
    forall i: nat ensures Bit(y, i) == Bit(Ones(x), i) {
      assert Bit(y, i) <==> AnyBit(x, i, 64);
      BitOfOnes(x, i);
      AnyIsSome(x, i);
    }
    SameBits(y, Ones(x));
  }

  lemma AnyIsSome(x: nat, i: nat)
    requires x < Pow2(64)
    ensures AnyFrom(x, i) <==> AnyBit(x, i, 64)
  {
    if AnyFrom(x, i) {
      var m: nat :| i <= m && Bit(x, m);
      if m >= 64 {
        SmallBits(x, 64, m);
      }
    }
  }

  // ---------------------------------------------------------------- fts_pow2

  ghost predicate IsPow2(p: nat) {
    exists k: nat :: p == Pow2(k)
  }

  ghost predicate LeastPow2(x: nat, p: nat) {
    p >= x && IsPow2(p) && forall k: nat :: Pow2(k) >= x ==> Pow2(k) >= p
  }

  lemma {:induction false} Pow2Grows(k: nat, m: nat)
    requires k < m
    ensures 2 * Pow2(k) <= Pow2(m)
  {
    if k + 1 < m {
      Pow2Grows(k, m - 1);
    }
  }

  lemma {:induction false} OnesNext(x: nat) returns (k: nat)
    ensures Ones(x) + 1 == Pow2(k) && x < Pow2(k) && (k > 0 ==> Pow2(k - 1) <= x) && (k == 0 <==> x == 0)
  {
    if x == 0 {
      k := 0;
    } else {
      var h := OnesNext(x / 2);
      k := h + 1;
    }
  }

  lemma OnesLeast(x: nat)
    ensures LeastPow2(x + 1, Ones(x) + 1)
  {
    var k := OnesNext(x);
    forall m: nat | Pow2(m) >= x + 1 ensures Pow2(m) >= Ones(x) + 1 {
      if m + 1 < k {
        Pow2Grows(m, k - 1);
      }
    }
  }

  lemma Pow2Plus4(k: nat)
    ensures Pow2(k + 4) == 16 * Pow2(k)
  {
    assert Pow2(k + 2) == 4 * Pow2(k) by { assert Pow2(k + 1) == 2 * Pow2(k); }
    assert Pow2(k + 3) == 8 * Pow2(k);
  }

  lemma Pow2Plus16(k: nat)
    ensures Pow2(k + 16) == 0x1_0000 * Pow2(k)
  {
    Pow2Plus4(k);
    Pow2Plus4(k + 4);
    Pow2Plus4(k + 8);
    Pow2Plus4(k + 12);
  }

  lemma Pow64()
    ensures Pow2(63) == HALF && Pow2(64) == SIZE_MAX + 1
  {
    Pow2Plus16(0);
    Pow2Plus16(16);
    Pow2Plus16(32);
    Pow2Plus16(48);
    assert Pow2(0) == 1;
    assert Pow2(64) == 2 * Pow2(63);
  }

  /** fts_pow2: the least power of two not below x; 0 when that is no size_t. */
  method PowerOfTwo(x: nat) returns (r: nat)
    requires x <= SIZE_MAX
    ensures x <= HALF ==> LeastPow2(x, r) && r <= HALF
    ensures x > HALF ==> r == 0
  {
    if x == 0 {
      assert Pow2(0) == 1;
      return 1;
    }
    var y := x - 1;
    ghost var x0 := y;
    SmearOnce(x0);
    y := Or(y, Shift(y, 1));
    SmearTwice(x0, 2, y);
    y := Or(y, Shift(y, 2));
    SmearTwice(x0, 4, y);
    y := Or(y, Shift(y, 4));
    SmearTwice(x0, 8, y);
    y := Or(y, Shift(y, 8));
    SmearTwice(x0, 16, y);
    y := Or(y, Shift(y, 16));
    SmearTwice(x0, 32, y);
    y := Or(y, Shift(y, 32));
    Pow64();
    SmearedIsOnes(x0, y);
    OnesSize(x0);
    r := if y == SIZE_MAX then 0 else y + 1;
  }

  /** The least power of two not below x: p doubled until it is. */
  function Doubled(x: nat, p: nat): nat
    requires p > 0
    decreases x - p
  {
    if x <= p then p else Doubled(x, 2 * p)
  }

  lemma {:induction false} LeastIsDoubled(x: nat, r: nat, k: nat)
    requires LeastPow2(x, r) && Pow2(k) <= r
    ensures Doubled(x, Pow2(k)) == r
    decreases r - Pow2(k)
  {
    var m: nat :| r == Pow2(m) && (m > 0 ==> Pow2(m - 1) < x);
    if k < m {
      assert Pow2(m) == 2 * Pow2(m - 1);
      if k < m - 1 {
        Pow2Grows(k, m - 1);
      }
      Pow2Grows(k, m);
      assert Pow2(k + 1) == 2 * Pow2(k);
      LeastIsDoubled(x, r, k + 1);
    } else if m < k {
      Pow2Grows(m, k);
    }
  }

  lemma SmearOnce(x: nat)
    ensures Smeared(x, 2, Or(x, Shift(x, 1)))
  {
    assert Smeared(x, 1, x);
    SmearTwice(x, 1, x);
  }

  lemma OnesSize(x: nat)
    requires x <= SIZE_MAX
    ensures LeastPow2(x + 1, Ones(x) + 1)
    ensures x + 1 <= HALF ==> Ones(x) + 1 <= HALF
    ensures x + 1 > HALF ==> Ones(x) == SIZE_MAX
  {
    OnesLeast(x);
    Pow64();
    var k := OnesNext(x);
    if k < 63 {
      Pow2Grows(k, 63);
    } else if k > 64 {
      Pow2Grows(63, k - 1);
    }
  }

  // ---------------------------------------------------------------- paths

  /** A path, without the slash that fts_read and fts_build put back. */
  function Trim(path: string): string {
    if path != "" && path[|path| - 1] == '/' then path[..|path| - 1] else path
  }

  /** The path of an entry of the directory with this path. */
  function Join(path: string, name: string): string {
    Trim(path) + "/" + name
  }

  /** The size of the buffer that fts_open allocates, and that fts_build sees to before it stores `need` characters. */
  function FirstSize(longest: nat): nat {
    Doubled((if longest + 1 < PATH_MAX then PATH_MAX else longest + 1) + PAD, 1)
  }

  function NextSize(size: nat, need: nat): nat {
    if need < size then size else Doubled(need + 1 + PAD, 1)
  }

  /** The bytes s stored at `at`. */
  function Put(buffer: string, at: nat, s: string): (r: string)
    requires at + |s| <= |buffer|
    ensures |r| == |buffer|
  {
    buffer[..at] + s + buffer[at + |s|..]
  }

  lemma PutReads(buffer: string, at: nat, s: string)
    requires at + |s| <= |buffer|
    ensures Put(buffer, at, s)[..at] == buffer[..at]
    ensures Put(buffer, at, s)[at..at + |s|] == s
    ensures Put(buffer, at, s)[..at + |s|] == buffer[..at] + s
  {
  }

  /** The buffer starts with the string s. */
  predicate Begins(buffer: string, s: string) {
    s <= buffer
  }

  /** ...and ends it with a terminator. */
  predicate Says(buffer: string, s: string) {
    s + [NUL] <= buffer
  }

  /** The text in the buffer, up to its first terminator; one that has been put just past the end ends it as well. */
  function Text(buffer: string): string {
    if buffer == "" || buffer[0] == NUL then "" else [buffer[0]] + Text(buffer[1..])
  }

  lemma {:induction false} TextSaid(buffer: string, s: string)
    requires NUL !in s && (Says(buffer, s) || buffer == s)
    ensures Text(buffer) == s
  {
    if s != "" {
      assert buffer[0] == s[0] && NUL !in s[1..];
      if buffer != s {
        assert (s + [NUL])[1..] == s[1..] + [NUL];
        assert buffer[..|s| + 1] == s + [NUL] && buffer[1..][..|s|] == s[1..] + [NUL];
      }
      TextSaid(buffer[1..], s[1..]);
    } else if buffer != s {
      assert buffer[0] == NUL;
    }
  }

  lemma PutKeeps(buffer: string, at: nat, s: string, kept: string)
    requires at + |s| <= |buffer| && |kept| <= at && Begins(buffer, kept)
    ensures Begins(Put(buffer, at, s), kept)
  {
    assert Put(buffer, at, s)[..|kept|] == buffer[..|kept|];
  }

  /** Writing the slash where Trim ends leaves the directory's path alone. */
  lemma SlashKeeps(buffer: string, path: string)
    requires path != "" && |path| < |buffer| && Begins(buffer, path)
    ensures Begins(Put(buffer, |Trim(path)|, "/"), path)
    ensures Begins(Put(buffer, |Trim(path)|, "/"), Trim(path) + "/")
  {
    var n := |Trim(path)|;
    var b := Put(buffer, n, "/");
    assert b[..n] == buffer[..n] == path[..n];
    assert b[n] == '/';
  }

  class PathBuffer {
    /** The allocated buffer, and its size as recorded in fts_pathlen. */
    var path: string
    var size: nat
    /** fts_build has put its terminator past the end. */
    ghost var overrun: bool

    ghost predicate Valid()
      reads this
    {
      size == |path| && PATH_MAX + PAD <= size
    }

    /** The allocation in fts_open, for the longest argument. */
    constructor (longest: nat)
      requires longest < 0x4000_0000
      ensures Valid() && !overrun && longest < size == FirstSize(longest)
    {
      path, size, overrun := "", 0, false;
      new;
      Palloc(if longest + 1 < PATH_MAX then PATH_MAX else longest + 1);
    }

    /** fts_palloc, when memory does not run out. */
    method Palloc(need: nat)
      requires need <= 0x4000_0000
      modifies `path, `size
      ensures size == |path| && LeastPow2(need + PAD, size) && size == Doubled(need + PAD, 1)
      ensures |old(path)| <= size ==> old(path) <= path
    {
      assert HALF == 0x8000_0000_0000_0000;
      var n := PowerOfTwo(need + PAD);
      LeastIsDoubled(need + PAD, n, 0);
      path := if |path| <= n then path + seq(n - |path|, i => NUL) else path[..n];
      size := n;
    }

    /** fts_load: a root's path. */
    method Load(name: string)
      requires Valid() && |name| < size
      modifies `path
      ensures Valid() && Says(path, name)
    {
      PutReads(path, 0, name + [NUL]);
      path := Put(path, 0, name + [NUL]);
    }

    /** The start of fts_build: a slash after the directory's path, and a terminator after the slash.  The slash is
        always inside the buffer; the terminator is unless the path fills the buffer. */
    method Header(ghost dir: string, pathLen: nat) returns (len: nat)
      requires Valid() && dir != "" && pathLen == |dir| < size && Begins(path, dir)
      modifies `path, `overrun
      ensures Valid() && Begins(path, dir) && Begins(path, Trim(dir) + "/") && len == |Trim(dir)| + 1 <= size
      ensures overrun <==> old(overrun) || |Trim(dir)| + 1 == size
      ensures NUL !in dir ==> Text(path) == Trim(dir) + "/"
    {
      len := if path[pathLen - 1] == '/' then pathLen - 1 else pathLen;
      assert len == |Trim(dir)|;
      SlashKeeps(path, dir);
      path := Put(path, len, "/");
      len := len + 1;
      if len < size {
        PutKeeps(path, len, [NUL], dir);
        PutKeeps(path, len, [NUL], Trim(dir) + "/");
        PutReads(path, len, [NUL]);
        path := Put(path, len, [NUL]);
        assert path[..len + 1] == Trim(dir) + "/" + [NUL];
      } else {
        overrun := true;
        assert path == Trim(dir) + "/";
      }
      if NUL !in dir {
        TextSaid(path, Trim(dir) + "/");
      }
    }

    /** The resize test of fts_build: afterwards the name and its terminator fit. */
    method Reserve(ghost dir: string, len: nat, nameLen: nat)
      requires Valid() && len <= size && Begins(path, dir) && nameLen + len < 0x4000_0000
      modifies `path, `size
      ensures Valid() && Begins(path, dir) && len + nameLen < size && size >= old(size)
      ensures old(path) <= path && size == NextSize(old(size), len + nameLen)
      ensures len + nameLen < old(size) ==> path == old(path)
    {
      var maxlen := size - len;
      if nameLen >= maxlen {
        Palloc(nameLen + len + 1);
        assert path[..|dir|] == old(path)[..|dir|];
      }
    }

    /** The memcpy in fts_build. */
    method Place(ghost dir: string, len: nat, name: string)
      requires Valid() && |dir| <= len && len + |name| < size && Begins(path, dir)
      modifies `path
      ensures Valid() && Begins(path, dir) && Says(path, old(path[..len]) + name)
    {
      PutKeeps(path, len, name + [NUL], dir);
      PutReads(path, len, name + [NUL]);
      assert path[..len] + (name + [NUL]) == path[..len] + name + [NUL];
      path := Put(path, len, name + [NUL]);
    }

    /** The label `name` in fts_read: the path of an entry after that of its directory. */
    method Visit(ghost dir: string, dirLen: nat, name: string)
      requires Valid() && dir != "" && dirLen == |dir| < size && Begins(path, dir) && |Join(dir, name)| < size
      modifies `path
      ensures Valid() && Begins(path, dir) && Says(path, Join(dir, name))
    {
      var t := if path[dirLen - 1] == '/' then dirLen - 1 else dirLen;
      assert t == |Trim(dir)|;
      SlashKeeps(path, dir);
      path := Put(path, t, "/");
      PutReads(path, t + 1, name + [NUL]);
      PutKeeps(path, t + 1, name + [NUL], dir);
      assert path[..t + 1] == Trim(dir) + "/";
      path := Put(path, t + 1, name + [NUL]);
      assert path[..t + 1 + |name| + 1] == Join(dir, name) + [NUL];
    }

    /** Back in a directory, fts_read cuts the path after it. */
    method Cut(ghost dir: string, pathLen: nat)
      requires Valid() && pathLen == |dir| < size && Begins(path, dir)
      modifies `path
      ensures Valid() && Says(path, dir)
    {
      PutReads(path, pathLen, [NUL]);
      path := Put(path, pathLen, [NUL]);
      assert path[..pathLen + 1] == dir + [NUL];
    }
  }
}
