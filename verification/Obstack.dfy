/** The allocator of src/obstack.c and include/obstack.h: a stack of objects in a list of chunks.
    Addresses are numbers and memory maps them to bytes. */
module Obstack {
  import opened Basics

  const SIZE_MAX: nat := 0xFFFF_FFFF_FFFF_FFFF
  /** Chunks end below this address, as user memory does. */
  const TOP: nat := 0x7FFF_FFFF_FFFF_FFFF
  /** Offset of `contents` in struct _obstack_chunk. */
  const HEADER: nat := 16

  datatype Chunk = Chunk(addr: nat, limit: nat)

  /** A finished object: h is the place of its chunk, counted from the oldest. */
  datatype Obj = Obj(h: nat, start: nat, bytes: seq<int>) {
    function End(): nat { start + |bytes| }
  }

  // ---------------------------------------------------------------- alignment

  /** alignment_mask for an alignment of 2^bits. */
  function Mask(bits: nat): nat {
    Pow2(bits) - 1
  }

  /** x & ~mask: x with its low bits cleared. */
  function Clear(x: nat, bits: nat): (r: nat)
    ensures r <= x < r + Pow2(bits)
    ensures Aligned(r, bits)
  {
    if bits == 0 then x else 2 * Clear(x / 2, bits - 1)
  }

  /** The low bits of x are zero. */
  predicate Aligned(x: nat, bits: nat) {
    bits == 0 || (x % 2 == 0 && Aligned(x / 2, bits - 1))
  }

  /** __PTR_ALIGN: no address from p on that is aligned comes before the result. */
  function Align(p: nat, bits: nat): (r: nat)
    ensures p <= r <= p + Mask(bits) && Aligned(r, bits)
  {
    Clear(p + Mask(bits), bits)
  }

  lemma {:induction false} ClearLeast(x: nat, bits: nat, r: nat)
    requires x < r + Pow2(bits) && Aligned(r, bits)
    ensures Clear(x, bits) <= r
  {
    if bits > 0 {
      ClearLeast(x / 2, bits - 1, r / 2);
    }
  }

  /** The result of __PTR_ALIGN is the first aligned address from p on. */
  lemma AlignLeast(p: nat, bits: nat)
    ensures forall r: nat :: p <= r && Aligned(r, bits) ==> Align(p, bits) <= r
  {
    forall r: nat | p <= r && Aligned(r, bits) ensures Align(p, bits) <= r {
      ClearLeast(p + Mask(bits), bits, r);
    }
  }

  /** r is the first aligned address from p on, if there is one up to the limit, and the limit otherwise. */
  ghost predicate FirstFrom(r: nat, p: nat, limit: nat, bits: nat) {
    && p <= r <= limit && (r == limit || Aligned(r, bits))
    && forall q: nat :: p <= q < r ==> !Aligned(q, bits)
  }

  function Base(c: Chunk, bits: nat): nat {
    Align(c.addr + HEADER, bits)
  }

  // ---------------------------------------------------------------- memory

  function Read(mem: int -> int, a: int, n: nat): seq<int> {
    seq(n, i requires 0 <= i < n => mem(a + i))
  }

  function Write(mem: int -> int, a: int, bytes: seq<int>): int -> int {
    x => if a <= x < a + |bytes| then bytes[x - a] else mem(x)
  }

  lemma ReadWritten(mem: int -> int, a: int, bytes: seq<int>)
    ensures Read(Write(mem, a, bytes), a, |bytes|) == bytes
  {
  }

  lemma ReadApart(mem: int -> int, a: int, bytes: seq<int>, b: int, n: nat)
    requires b + n <= a || a + |bytes| <= b || n == 0 || bytes == []
    ensures Read(Write(mem, a, bytes), b, n) == Read(mem, b, n)
  {
  }

  /** A copy to a place apart leaves the same bytes in both places. */
  lemma ReadCopied(mem: int -> int, a: int, b: int, n: nat)
    requires a + n <= b || b + n <= a
    ensures var mem' := Write(mem, b, Read(mem, a, n)); Read(mem', b, n) == Read(mem', a, n) == Read(mem, a, n)
  {
    ReadWritten(mem, b, Read(mem, a, n));
    ReadApart(mem, b, Read(mem, a, n), a, n);
  }

  lemma ReadAppended(mem: int -> int, a: int, n: nat, bytes: seq<int>)
    ensures Read(Write(mem, a + n, bytes), a, n + |bytes|) == Read(mem, a, n) + bytes
  {
    ReadApart(mem, a + n, bytes, a, n);
    ReadWritten(mem, a + n, bytes);
    ReadSplit(Write(mem, a + n, bytes), a, n, |bytes|);
  }

  lemma ReadSplit(mem: int -> int, a: int, m: nat, n: nat)
    ensures Read(mem, a, m + n) == Read(mem, a, m) + Read(mem, a + m, n)
  {
  }

  // ---------------------------------------------------------------- the invariant, by parts

  predicate Disjoint(c: Chunk, d: Chunk) {
    c.limit <= d.addr || d.limit <= c.addr
  }

  /** A chunk can hold its header and the padding before its first object. */
  predicate Roomy(c: Chunk, bits: nat) {
    0 < c.addr && c.addr + HEADER + Mask(bits) <= c.limit <= TOP
  }

  predicate Held(chunks: seq<Chunk>, bits: nat) {
    && (forall i :: 0 <= i < |chunks| ==> Roomy(chunks[i], bits))
    && (forall i, j :: 0 <= i < j < |chunks| ==> Disjoint(chunks[i], chunks[j]))
  }

  /** An object starts at a multiple of the alignment, or is an empty one at the end of its chunk. */
  predicate Settled(start: nat, limit: nat, bits: nat) {
    start == limit || Aligned(start, bits)
  }

  predicate InChunk(o: Obj, chunks: seq<Chunk>, bits: nat) {
    && o.h < |chunks|
    && Base(chunks[o.h], bits) <= o.start
    && o.End() <= chunks[o.h].limit
    && Settled(o.start, chunks[o.h].limit, bits)
  }

  predicate Placed(live: seq<Obj>, chunks: seq<Chunk>, bits: nat) {
    forall k :: 0 <= k < |live| ==> InChunk(live[k], chunks, bits)
  }

  predicate Before(o: Obj, p: Obj) {
    o.h < p.h || (o.h == p.h && o.End() <= p.start)
  }

  predicate Stacked(live: seq<Obj>) {
    forall j, k :: 0 <= j < k < |live| ==> Before(live[j], live[k])
  }

  predicate Holds(mem: int -> int, o: Obj) {
    Read(mem, o.start, |o.bytes|) == o.bytes
  }

  predicate Kept(mem: int -> int, live: seq<Obj>) {
    forall k :: 0 <= k < |live| ==> Holds(mem, live[k])
  }

  /** Nothing live in chunk h reaches past base; only an empty object can sit at its very start, and then the
      chunk is marked. */
  predicate Below(o: Obj, h: int, base: nat, first: nat, maybeEmpty: bool) {
    o.h == h ==> o.End() <= base && (o.bytes == [] && o.start == first ==> maybeEmpty)
  }

  predicate AllBelow(live: seq<Obj>, h: int, base: nat, first: nat, maybeEmpty: bool) {
    forall k :: 0 <= k < |live| ==> Below(live[k], h, base, first, maybeEmpty)
  }

  predicate Covers(o: Obj, x: int) {
    o.start <= x < o.End()
  }

  /** Live objects never share a byte. */
  lemma LiveDisjoint(live: seq<Obj>, chunks: seq<Chunk>, bits: nat, j: nat, k: nat)
    requires Held(chunks, bits) && Placed(live, chunks, bits) && Stacked(live)
    requires j < |live| && k < |live| && j != k
    ensures forall x: int :: !(Covers(live[j], x) && Covers(live[k], x))
  {
    var o, p := live[if j < k then j else k], live[if j < k then k else j];
    assert Before(o, p) && InChunk(o, chunks, bits) && InChunk(p, chunks, bits);
    if o.h < p.h {
      assert Disjoint(chunks[o.h], chunks[p.h]);
    }
  }

  // ---------------------------------------------------------------- chunks obtained and released

  function Size(c: Chunk): int {
    c.limit - c.addr
  }

  function Used(chunks: seq<Chunk>): int {
    if chunks == [] then 0 else Used(chunks[..|chunks| - 1]) + Size(chunks[|chunks| - 1])
  }

  lemma UsedPush(chunks: seq<Chunk>, c: Chunk)
    ensures Used(chunks + [c]) == Used(chunks) + Size(c)
  {
    assert (chunks + [c])[..|chunks|] == chunks;
  }

  /** How often c occurs in s. */
  function Count(s: seq<Chunk>, c: Chunk): nat {
    if s == [] then 0 else Count(s[..|s| - 1], c) + if s[|s| - 1] == c then 1 else 0
  }

  lemma CountPush(s: seq<Chunk>, d: Chunk, c: Chunk)
    ensures Count(s + [d], c) == Count(s, c) + if d == c then 1 else 0
  {
    assert (s + [d])[..|s|] == s;
  }

  lemma {:induction false} CountIsMultiplicity(s: seq<Chunk>, c: Chunk)
    ensures Count(s, c) == multiset(s)[c]
  {
    if s != [] {
      CountIsMultiplicity(s[..|s| - 1], c);
      assert s == s[..|s| - 1] + [s[|s| - 1]];
    }
  }

  /** Every chunk obtained has been released once or is still held. */
  ghost predicate Conserved(obtained: seq<Chunk>, released: seq<Chunk>, chunks: seq<Chunk>) {
    forall c: Chunk :: Count(obtained, c) == Count(released, c) + Count(chunks, c)
  }

  lemma ConservedPop(obtained: seq<Chunk>, released: seq<Chunk>, chunks: seq<Chunk>)
    requires chunks != [] && Conserved(obtained, released, chunks)
    ensures Conserved(obtained, released + [chunks[|chunks| - 1]], chunks[..|chunks| - 1])
  {
    var d := chunks[|chunks| - 1];
    forall c: Chunk ensures Count(obtained, c) == Count(released + [d], c) + Count(chunks[..|chunks| - 1], c) {
      CountPush(released, d, c);
    }
  }

  lemma ConservedPush(obtained: seq<Chunk>, released: seq<Chunk>, chunks: seq<Chunk>, d: Chunk)
    requires Conserved(obtained, released, chunks)
    ensures Conserved(obtained + [d], released, chunks + [d])
  {
    forall c: Chunk ensures Count(obtained + [d], c) == Count(released, c) + Count(chunks + [d], c) {
      CountPush(obtained, d, c);
      CountPush(chunks, d, c);
    }
  }

  lemma {:induction false} UsedOf(s: seq<Chunk>, t: seq<Chunk>)
    requires multiset(s) == multiset(t)
    ensures Used(s) == Used(t)
    decreases |s|
  {
    assert |s| == |multiset(s)| == |multiset(t)| == |t|;
    if s != [] {
      var c := s[|s| - 1];
      var s' := s[..|s| - 1];
      assert s == s' + [c];
      assert c in multiset(t);
      var i :| 0 <= i < |t| && t[i] == c;
      assert t == t[..i] + [c] + t[i + 1..];
      assert multiset(s') == multiset(s) - multiset{c};
      assert multiset(t[..i] + t[i + 1..]) == multiset(t) - multiset{c};
      UsedOf(s', t[..i] + t[i + 1..]);
      UsedMiddle(t[..i], c, t[i + 1..]);
    }
  }

  lemma {:induction false} UsedMiddle(s: seq<Chunk>, c: Chunk, t: seq<Chunk>)
    ensures Used(s + [c] + t) == Used(s + t) + Size(c)
    decreases |t|
  {
    if t == [] {
      assert s + t == s && s + [c] + t == s + [c];
      UsedPush(s, c);
    } else {
      var t', d := t[..|t| - 1], t[|t| - 1];
      UsedMiddle(s, c, t');
      assert s + t == (s + t') + [d] && s + [c] + t == (s + [c] + t') + [d];
      UsedPush(s + t', d);
      UsedPush(s + [c] + t', d);
    }
  }

  lemma {:induction false} UsedSum(s: seq<Chunk>, t: seq<Chunk>)
    ensures Used(s + t) == Used(s) + Used(t)
    decreases |t|
  {
    if t == [] {
      assert s + t == s;
    } else {
      var t', d := t[..|t| - 1], t[|t| - 1];
      assert s + t == (s + t') + [d];
      UsedSum(s, t');
      UsedPush(s + t', d);
    }
  }

  /** The bytes in the chunks held are the bytes obtained less the bytes released. */
  lemma UsedIsTheBalance(obtained: seq<Chunk>, released: seq<Chunk>, chunks: seq<Chunk>)
    requires Conserved(obtained, released, chunks)
    ensures Used(chunks) == Used(obtained) - Used(released)
  {
    forall c: Chunk ensures multiset(obtained)[c] == multiset(released + chunks)[c] {
      CountIsMultiplicity(obtained, c);
      CountIsMultiplicity(released, c);
      CountIsMultiplicity(chunks, c);
    }
    assert multiset(obtained) == multiset(released + chunks);
    UsedOf(obtained, released + chunks);
    UsedSum(released, chunks);
  }

  /** The bytes of the chunks of s that lie between lo and hi. */
  function Within(s: seq<Chunk>, lo: int, hi: int): (n: int)
  {
    if s == [] then 0
    else
      var c := s[|s| - 1];
      Within(s[..|s| - 1], lo, hi) + if lo <= c.addr <= c.limit <= hi then Size(c) else 0
  }

  lemma {:induction false} WithinSplit(s: seq<Chunk>, c: Chunk, lo: int, hi: int)
    requires forall i :: 0 <= i < |s| ==> Disjoint(s[i], c)
    requires lo <= c.addr <= c.limit <= hi
    ensures Within(s, lo, hi) <= Within(s, lo, c.addr) + Within(s, c.limit, hi)
  {
    if s != [] {
      assert Disjoint(s[|s| - 1], c);
      WithinSplit(s[..|s| - 1], c, lo, hi);
    }
  }

  lemma {:induction false} WithinBound(s: seq<Chunk>, lo: int, hi: int)
    requires forall i, j :: 0 <= i < j < |s| ==> Disjoint(s[i], s[j])
    requires lo <= hi
    ensures Within(s, lo, hi) <= hi - lo
    decreases |s|
  {
    if s != [] {
      var c, s' := s[|s| - 1], s[..|s| - 1];
      WithinBound(s', lo, hi);
      if lo <= c.addr <= c.limit <= hi {
        WithinSplit(s', c, lo, hi);
        WithinBound(s', lo, c.addr);
        WithinBound(s', c.limit, hi);
      }
    }
  }

  lemma {:induction false} WithinAll(s: seq<Chunk>, bits: nat)
    requires Held(s, bits)
    ensures Within(s, 0, TOP) == Used(s) >= 0
  {
    if s != [] {
      assert Roomy(s[|s| - 1], bits);
      WithinAll(s[..|s| - 1], bits);
    }
  }

  /** Chunks apart from one another never add up to more than the address space. */
  lemma UsedFits(s: seq<Chunk>, bits: nat)
    requires Held(s, bits)
    ensures 0 <= Used(s) <= TOP
  {
    WithinAll(s, bits);
    WithinBound(s, 0, TOP);
  }

  // ---------------------------------------------------------------- keeping the live objects

  /** A write from base on in chunk h, where nothing live reaches past base, changes no live object. */
  lemma WriteKeeps(mem: int -> int, live: seq<Obj>, chunks: seq<Chunk>, bits: nat, h: nat, base: nat, first: nat,
                   maybeEmpty: bool, a: nat, bytes: seq<int>)
    requires Held(chunks, bits) && Placed(live, chunks, bits) && Kept(mem, live)
    requires h < |chunks| && Base(chunks[h], bits) <= base <= a && a + |bytes| <= chunks[h].limit
    requires AllBelow(live, h, base, first, maybeEmpty)
    ensures Kept(Write(mem, a, bytes), live)
  {
    forall k | 0 <= k < |live| ensures Holds(Write(mem, a, bytes), live[k]) {
      var o := live[k];
      assert InChunk(o, chunks, bits) && Holds(mem, o) && Below(o, h, base, first, maybeEmpty);
      if o.h < h {
        assert Disjoint(chunks[o.h], chunks[h]);
      } else if o.h > h {
        assert Disjoint(chunks[h], chunks[o.h]);
      }
      ReadApart(mem, a, bytes, o.start, |o.bytes|);
    }
  }

  /** A write inside a chunk apart from all those held changes no live object. */
  lemma WriteApartKeeps(mem: int -> int, live: seq<Obj>, chunks: seq<Chunk>, bits: nat, c: Chunk, a: nat,
                        bytes: seq<int>)
    requires Held(chunks, bits) && Placed(live, chunks, bits) && Kept(mem, live)
    requires forall i :: 0 <= i < |chunks| ==> Disjoint(chunks[i], c)
    requires c.addr <= a && a + |bytes| <= c.limit
    ensures Kept(Write(mem, a, bytes), live)
  {
    forall k | 0 <= k < |live| ensures Holds(Write(mem, a, bytes), live[k]) {
      var o := live[k];
      assert InChunk(o, chunks, bits) && Holds(mem, o) && Disjoint(chunks[o.h], c);
      ReadApart(mem, a, bytes, o.start, |o.bytes|);
    }
  }

  /** When the object under construction starts its chunk and the chunk is not marked, nothing in it is live. */
  lemma UnmarkedIsEmpty(live: seq<Obj>, chunks: seq<Chunk>, bits: nat, base: nat)
    requires chunks != [] && Placed(live, chunks, bits)
    requires base == Base(chunks[|chunks| - 1], bits)
    requires AllBelow(live, |chunks| - 1, base, base, false)
    ensures forall k :: 0 <= k < |live| ==> live[k].h < |chunks| - 1
  {
    forall k | 0 <= k < |live| ensures live[k].h < |chunks| - 1 {
      assert InChunk(live[k], chunks, bits) && Below(live[k], |chunks| - 1, base, base, false);
    }
  }

  lemma PushChunk(live: seq<Obj>, chunks: seq<Chunk>, bits: nat, c: Chunk)
    requires Held(chunks, bits) && Placed(live, chunks, bits)
    requires Roomy(c, bits) && forall i :: 0 <= i < |chunks| ==> Disjoint(chunks[i], c)
    ensures Held(chunks + [c], bits) && Placed(live, chunks + [c], bits)
    ensures AllBelow(live, |chunks|, Base(c, bits), Base(c, bits), false)
  {
    var cs := chunks + [c];
    assert forall i :: 0 <= i < |cs| ==> cs[i] == if i < |chunks| then chunks[i] else c;
    forall k | 0 <= k < |live| ensures InChunk(live[k], cs, bits) {
      assert InChunk(live[k], chunks, bits);
    }
  }

  lemma PopChunk(live: seq<Obj>, chunks: seq<Chunk>, bits: nat)
    requires chunks != [] && Held(chunks, bits) && Placed(live, chunks, bits)
    requires forall k :: 0 <= k < |live| ==> live[k].h < |chunks| - 1
    ensures Held(chunks[..|chunks| - 1], bits) && Placed(live, chunks[..|chunks| - 1], bits)
  {
    forall k | 0 <= k < |live| ensures InChunk(live[k], chunks[..|chunks| - 1], bits) {
      assert InChunk(live[k], chunks, bits);
    }
  }

  /** The only chunk an object's address can lie in, the end included, is its own. */
  lemma OwnChunk(o: Obj, chunks: seq<Chunk>, bits: nat, j: nat)
    requires Held(chunks, bits) && InChunk(o, chunks, bits) && j < |chunks|
    ensures chunks[j].addr < o.start <= chunks[j].limit <==> j == o.h
  {
    assert Roomy(chunks[o.h], bits) && Roomy(chunks[j], bits);
    if j < o.h {
      assert Disjoint(chunks[j], chunks[o.h]);
    } else if o.h < j {
      assert Disjoint(chunks[o.h], chunks[j]);
    }
  }

  /** What is live before object i ends before it. */
  lemma BelowFreed(live: seq<Obj>, i: nat, first: nat, maybeEmpty: bool)
    requires i < |live| && Stacked(live)
    requires maybeEmpty || AllBelow(live[..i], live[i].h, live[i].start, first, maybeEmpty)
    ensures AllBelow(live[..i], live[i].h, live[i].start, first, maybeEmpty)
  {
    forall k | 0 <= k < i ensures Below(live[..i][k], live[i].h, live[i].start, first, maybeEmpty) {
      assert Before(live[k], live[i]);
    }
  }

  // ---------------------------------------------------------------- the size of a new chunk

  /** The size asked for a new chunk, in unbounded arithmetic; nothing when it is not a size_t. */
  function Wanted(objSize: nat, length: nat, mask: nat, chunkSize: nat): Maybe<nat> {
    var n := objSize + length + mask + 100 + objSize / 8;
    if n > SIZE_MAX then Nothing else Just(if n < chunkSize then chunkSize else n)
  }

  /** Addition of size_t values. */
  function Plus(x: nat, y: nat): nat {
    if x + y > SIZE_MAX then x + y - SIZE_MAX - 1 else x + y
  }

  /** The allocator: given the chunks held and a size, an address or a failure. */
  type Alloc = (seq<Chunk>, nat) -> Maybe<nat>

  /** An answer is memory apart from every chunk held. */
  ghost predicate Answers(alloc: Alloc, chunks: seq<Chunk>, n: nat) {
    match alloc(chunks, n)
    case Nothing => true
    case Just(a) => 0 < a && a + n <= TOP && forall i :: 0 <= i < |chunks| ==> Disjoint(chunks[i], Chunk(a, a + n))
  }

  ghost predicate Sound(alloc: Alloc) {
    forall chunks: seq<Chunk>, n: nat :: Answers(alloc, chunks, n)
  }

  // ---------------------------------------------------------------- the obstack

  class Obstack {
    const chunkSize: nat
    const bits: nat
    /** The chunk list, oldest first; empty for a null chunk pointer. */
    var chunks: seq<Chunk>
    var objectBase: nat
    var nextFree: nat
    var chunkLimit: nat
    var maybeEmpty: bool
    var mem: int -> int
    ghost var live: seq<Obj>
    ghost var obtained: seq<Chunk>
    ghost var released: seq<Chunk>

    /** The newest chunk holds the object under construction, past everything live in it. */
    ghost predicate Building()
      reads this
    {
      if chunks == [] then
        objectBase == nextFree == chunkLimit == 0 && maybeEmpty && live == []
      else
        var c := chunks[|chunks| - 1];
        && chunkLimit == c.limit
        && Base(c, bits) <= objectBase <= nextFree <= c.limit
        && Settled(objectBase, c.limit, bits)
        && AllBelow(live, |chunks| - 1, objectBase, Base(c, bits), maybeEmpty)
    }

    ghost predicate Valid()
      reads this
    {
      && Mask(bits) + HEADER <= chunkSize <= TOP
      && Held(chunks, bits)
      && Placed(live, chunks, bits)
      && Stacked(live)
      && Kept(mem, live)
      && Conserved(obtained, released, chunks)
      && Building()
    }

    /** Every object lies between the header of its chunk and the end of it, and so does the one under construction. */
    lemma Inside()
      requires Valid()
      ensures forall k :: 0 <= k < |live| ==>
                var o := live[k];
                o.h < |chunks| && chunks[o.h].addr + HEADER <= o.start && o.End() <= chunks[o.h].limit
      ensures chunks != [] ==>
                var c := chunks[|chunks| - 1];
                c.addr + HEADER <= objectBase <= nextFree <= c.limit
                && FirstFrom(Base(c, bits), c.addr + HEADER, c.limit, bits)
    {
      forall k | 0 <= k < |live|
        ensures live[k].h < |chunks| && chunks[live[k].h].addr + HEADER <= live[k].start
        ensures live[k].End() <= chunks[live[k].h].limit
      {
        assert InChunk(live[k], chunks, bits);
      }
      if chunks != [] {
        assert Roomy(chunks[|chunks| - 1], bits);
        AlignLeast(chunks[|chunks| - 1].addr + HEADER, bits);
      }
    }

    /** The bytes of the object under construction. */
    ghost function Growing(): (s: seq<int>)
      reads this
      requires Valid()
    {
      Read(mem, objectBase, nextFree - objectBase)
    }

    /** obstack_room: the bytes left in the newest chunk. */
    function Room(): (n: nat)
      reads this
      requires Valid()
      ensures chunks == [] ==> n == 0
    {
      chunkLimit - nextFree
    }

    /** _obstack_begin_worker, once its allocator has answered; a failed allocation calls the handler, which does
        not return. */
    constructor (size: nat, bits: nat, chunk: nat, mem: int -> int)
      requires Mask(bits) + HEADER <= size
      requires 0 < chunk && chunk + size <= TOP
      ensures Valid() && this.bits == bits && chunkSize == size && this.mem == mem
      ensures chunks == [Chunk(chunk, chunk + size)] && obtained == chunks && released == [] && live == []
      ensures Growing() == [] && objectBase == Base(chunks[0], bits) && Aligned(objectBase, bits) && !maybeEmpty
    {
      var c := Chunk(chunk, chunk + size);
      chunkSize, this.bits := size, bits;
      chunks := [c];
      chunkLimit := c.limit;
      objectBase, nextFree := Base(c, bits), Base(c, bits);
      maybeEmpty := false;
      this.mem := mem;
      live, obtained, released := [], [c], [];
    }

    /** The object under construction starts the newest chunk, which is not marked. */
    predicate Droppable()
      reads this
    {
      !maybeEmpty && chunks != [] && objectBase == Base(chunks[|chunks| - 1], bits)
    }

    /** _obstack_newchunk: false stands for the failure handler, which does not return. */
    method NewChunk(length: nat, alloc: Alloc) returns (ok: bool)
      requires Valid() && Sound(alloc) && length <= SIZE_MAX
      modifies this
      ensures Valid() && live == old(live) && Growing() == old(Growing())
      ensures ok <==> var w := Wanted(|old(Growing())|, length, Mask(bits), chunkSize);
                      w.Just? && alloc(old(chunks), w.value).Just?
      ensures ok ==> Room() >= length && Aligned(objectBase, bits)
      ensures ok ==> var n := Wanted(|old(Growing())|, length, Mask(bits), chunkSize).value;
                     var a := alloc(old(chunks), n).value;
                     chunks == old(if Droppable() then chunks[..|chunks| - 1] else chunks) + [Chunk(a, a + n)]
                     && objectBase == Base(Chunk(a, a + n), bits)
      ensures ok ==> |obtained| == |old(obtained)| + 1 && obtained[..|old(obtained)|] == old(obtained)
      ensures ok ==> chunks != [] && !maybeEmpty
      ensures ok ==> released == old(released + if Droppable() then [chunks[|chunks| - 1]] else [])
      ensures !ok ==> unchanged(this)
    {
      hide Placed, Stacked, Kept, Conserved, AllBelow;
      var objSize := nextFree - objectBase;
      var newSize := NewSize(objSize, length);
      if newSize == Nothing {
        return false;
      }
      assert Answers(alloc, chunks, newSize.value);
      var got := alloc(chunks, newSize.value);
      if got == Nothing {
        return false;
      }
      Move(Chunk(got.value, got.value + newSize.value), length);
      ok := true;
    }

    /** The size computation of _obstack_newchunk: its wrap-around tests fail exactly when the sum is no size_t. */
    method NewSize(objSize: nat, length: nat) returns (size: Maybe<nat>)
      requires objSize <= TOP && length <= SIZE_MAX && Mask(bits) <= chunkSize <= TOP
      ensures size == Wanted(objSize, length, Mask(bits), chunkSize)
      ensures var n := objSize + length + Mask(bits) + 100 + objSize / 8;
              size == if n > SIZE_MAX then Nothing else Just(if n < chunkSize then chunkSize else n)
    {
      var n := Plus(objSize, length);
      if n < objSize || SIZE_MAX - n < Mask(bits) + 100 {
        return Nothing;
      }
      n := n + Mask(bits) + 100;
      if SIZE_MAX - n < objSize / 8 {
        return Nothing;
      }
      n := n + objSize / 8;
      size := Just(if n < chunkSize then chunkSize else n);
    }

    /** The rest of _obstack_newchunk: copy the object into chunk c and drop the old chunk if it is empty. */
    method Move(c: Chunk, length: nat)
      requires Valid() && Apart(c)
      requires c.limit >= c.addr + HEADER + Mask(bits) + (nextFree - objectBase) + length
      modifies this
      ensures Valid() && live == old(live) && Growing() == old(Growing())
      ensures Room() >= length && Aligned(objectBase, bits) && !maybeEmpty
      ensures chunks == old(if Droppable() then chunks[..|chunks| - 1] else chunks) + [c] && objectBase == Base(c, bits)
      ensures obtained == old(obtained) + [c]
      ensures released == old(released + if Droppable() then [chunks[|chunks| - 1]] else [])
    {
      var objSize := nextFree - objectBase;
      var base := Copy(c);
      var dropped := DropEmpty();
      assert forall i :: 0 <= i < |chunks| ==> chunks[i] == old(chunks)[i];
      Install(c, base, objSize);
    }

    ghost predicate Apart(c: Chunk)
      reads this
    {
      Roomy(c, bits) && forall i :: 0 <= i < |chunks| ==> Disjoint(chunks[i], c)
    }

    method Install(c: Chunk, base: nat, objSize: nat)
      requires Mask(bits) + HEADER <= chunkSize <= TOP
      requires Held(chunks, bits) && Placed(live, chunks, bits) && Stacked(live) && Kept(mem, live)
      requires Conserved(obtained, released, chunks)
      requires Apart(c) && base == Base(c, bits) && base + objSize <= c.limit
      modifies this
      ensures Valid() && live == old(live) && mem == old(mem)
      ensures objectBase == base && nextFree == base + objSize && chunkLimit == c.limit && !maybeEmpty
      ensures chunks == old(chunks) + [c] && obtained == old(obtained) + [c] && released == old(released)
    {
      PushChunk(live, chunks, bits, c);
      ConservedPush(obtained, released, chunks, c);
      objectBase, nextFree, chunkLimit := base, base + objSize, c.limit;
      chunks, obtained := chunks + [c], obtained + [c];
      maybeEmpty := false;
    }

    /** The copy of the object under construction to the start of a new chunk. */
    method Copy(c: Chunk) returns (base: nat)
      requires Valid() && Apart(c)
      requires c.limit >= c.addr + HEADER + Mask(bits) + (nextFree - objectBase)
      modifies this`mem
      ensures Valid() && base == Base(c, bits)
      ensures Read(mem, base, nextFree - objectBase) == Growing() == old(Growing())
    {
      base := Base(c, bits);
      var objSize := nextFree - objectBase;
      WriteApartKeeps(mem, live, chunks, bits, c, base, Read(mem, objectBase, objSize));
      if chunks != [] {
        assert Disjoint(chunks[|chunks| - 1], c);
      }
      ReadCopied(mem, objectBase, base, objSize);
      mem := Write(mem, base, Read(mem, objectBase, objSize));
    }

    /** The old chunk is released only if nothing live is in it. */
    method DropEmpty() returns (dropped: bool)
      requires Valid()
      modifies this`chunks, this`released
      ensures Held(chunks, bits) && Placed(live, chunks, bits) && Conserved(obtained, released, chunks)
      ensures dropped == old(Droppable())
      ensures dropped ==> old(chunks) != [] && chunks == old(chunks)[..|old(chunks)| - 1]
      ensures dropped ==> released == old(released) + [old(chunks)[|old(chunks)| - 1]]
      ensures dropped ==> forall k :: 0 <= k < |live| ==> live[k].h < |chunks|
      ensures !dropped ==> unchanged(this)
    {
      dropped := false;
      if !maybeEmpty {
        var newest := chunks[|chunks| - 1];
        if objectBase == Base(newest, bits) {
          UnmarkedIsEmpty(live, chunks, bits, objectBase);
          PopChunk(live, chunks, bits);
          ConservedPop(obtained, released, chunks);
          released := released + [newest];
          chunks := chunks[..|chunks| - 1];
          dropped := true;
        }
      }
    }

    /** There is room for `length` more bytes, or a chunk to be had with it. */
    ghost predicate Obtains(length: nat, alloc: Alloc)
      reads this
      requires Valid()
    {
      length <= Room() || (var w := Wanted(|Growing()|, length, Mask(bits), chunkSize);
                           w.Just? && alloc(chunks, w.value).Just?)
    }

    /** The call took no chunk: the object stays where it is, and n bytes of the room are gone. */
    twostate predicate Took(n: nat)
      requires old(Valid()) && Valid()
      reads this
    {
      && chunks == old(chunks) && objectBase == old(objectBase) && Room() + n == old(Room())
      && maybeEmpty == old(maybeEmpty) && obtained == old(obtained) && released == old(released)
    }

    /** obstack_make_room: what still fits is never refused, and changes nothing. */
    method MakeRoom(length: nat, alloc: Alloc) returns (ok: bool)
      requires Valid() && Sound(alloc) && length <= SIZE_MAX
      modifies this
      ensures Valid() && live == old(live) && Growing() == old(Growing())
      ensures ok <==> old(Obtains(length, alloc))
      ensures ok ==> Room() >= length && ((chunks == []) == (old(chunks) == [] && length == 0))
      ensures !ok || old(Room()) >= length ==> unchanged(this)
      ensures ok && old(Room()) < length ==> !maybeEmpty && objectBase == Base(chunks[|chunks| - 1], bits)
    {
      ok := true;
      if Room() < length {
        ok := NewChunk(length, alloc);
      }
    }

    /** The memcpy that ends obstack_grow. */
    method Append(bytes: seq<int>)
      requires Valid() && |bytes| <= Room()
      modifies this`mem, this`nextFree
      ensures Valid() && Growing() == old(Growing()) + bytes && Room() + |bytes| == old(Room())
    {
      hide Held, Stacked, Conserved, Read;
      if chunks != [] {
        var c := chunks[|chunks| - 1];
        WriteKeeps(mem, live, chunks, bits, |chunks| - 1, objectBase, Base(c, bits), maybeEmpty, nextFree, bytes);
      }
      ReadAppended(mem, objectBase, nextFree - objectBase, bytes);
      mem := Write(mem, nextFree, bytes);
      nextFree := nextFree + |bytes|;
    }

    /** obstack_grow. */
    method Grow(bytes: seq<int>, alloc: Alloc) returns (ok: bool)
      requires Valid() && Sound(alloc) && |bytes| <= SIZE_MAX
      modifies this
      ensures Valid() && live == old(live)
      ensures ok <==> old(Obtains(|bytes|, alloc))
      ensures ok ==> Growing() == old(Growing()) + bytes && ((chunks == []) == (old(chunks) == [] && bytes == []))
      ensures |bytes| <= old(Room()) ==> ok && Took(|bytes|)
      ensures !ok ==> unchanged(this)
    {
      ok := MakeRoom(|bytes|, alloc);
      if ok {
        Append(bytes);
      }
    }

    /** obstack_grow0: the bytes and a terminating zero. */
    method Grow0(bytes: seq<int>, alloc: Alloc) returns (ok: bool)
      requires Valid() && Sound(alloc) && |bytes| < SIZE_MAX
      modifies this
      ensures Valid() && live == old(live)
      ensures ok <==> old(Obtains(|bytes| + 1, alloc))
      ensures ok ==> Growing() == old(Growing()) + bytes + [0] && chunks != []
      ensures |bytes| + 1 <= old(Room()) ==> ok && Took(|bytes| + 1)
      ensures !ok ==> unchanged(this)
    {
      ok := MakeRoom(|bytes| + 1, alloc);
      if ok {
        Append(bytes);
        Append([0]);
      }
    }

    /** obstack_blank: the new bytes are whatever the chunk holds. */
    method Blank(length: nat, alloc: Alloc) returns (ok: bool)
      requires Valid() && Sound(alloc) && length <= SIZE_MAX
      modifies this
      ensures Valid() && live == old(live)
      ensures ok <==> old(Obtains(length, alloc))
      ensures ok ==> |Growing()| == |old(Growing())| + length && old(Growing()) <= Growing()
      ensures ok ==> ((chunks == []) == (old(chunks) == [] && length == 0))
      ensures length <= old(Room()) ==> ok && Took(length)
      ensures !ok ==> unchanged(this)
    {
      ok := MakeRoom(length, alloc);
      if ok {
        ReadSplit(mem, objectBase, nextFree - objectBase, length);
        nextFree := nextFree + length;
      }
    }

    /** obstack_finish: the object under construction becomes live where it stands, and the next one starts at the first
        aligned address after it, or at the end of the chunk; so little room is lost. */
    method Finish() returns (value: nat)
      requires Valid()
      modifies this
      ensures Valid() && mem == old(mem) && chunks == old(chunks) && released == old(released)
      ensures value == old(objectBase) && Growing() == []
      ensures live == if chunks == [] then [] else old(live) + [Obj(|chunks| - 1, value, old(Growing()))]
      ensures chunks != [] ==>
                FirstFrom(objectBase, old(nextFree), chunks[|chunks| - 1].limit, bits)
                && Room() <= old(Room()) <= Room() + Mask(bits)
      ensures maybeEmpty == (old(maybeEmpty) || old(Growing()) == []) && obtained == old(obtained)
    {
      hide Held, Stacked, Conserved, Kept, Placed, FirstFrom, Pow2;
      value := objectBase;
      if nextFree == objectBase {
        maybeEmpty := true;
      }
      var aligned := NextStart();
      Record(aligned);
      nextFree := aligned;
      objectBase := nextFree;
    }

    /** Where the next object starts. */
    method NextStart() returns (aligned: nat)
      requires nextFree <= chunkLimit
      ensures nextFree <= aligned <= chunkLimit && aligned <= nextFree + Mask(bits)
      ensures FirstFrom(aligned, nextFree, chunkLimit, bits) && Settled(aligned, chunkLimit, bits)
    {
      aligned := Align(nextFree, bits);
      if aligned > chunkLimit {
        aligned := chunkLimit;
      }
      AlignLeast(nextFree, bits);
    }

    /** What finishing does to the stack of live objects. */
    ghost method Record(next: nat)
      requires Valid() && (objectBase == nextFree ==> maybeEmpty)
      requires chunks != [] ==> nextFree <= next <= chunkLimit
      modifies this`live
      ensures live == if chunks == [] then [] else old(live) + [Obj(|chunks| - 1, objectBase, old(Growing()))]
      ensures Placed(live, chunks, bits) && Stacked(live) && Kept(mem, live)
      ensures chunks != [] ==> AllBelow(live, |chunks| - 1, next, Base(chunks[|chunks| - 1], bits), maybeEmpty)
    {
      if chunks != [] {
        ghost var o := Obj(|chunks| - 1, objectBase, Growing());
        FinishedLive(live, chunks, bits, o, mem, maybeEmpty, next);
        live := live + [o];
      }
    }

    /** obstack_free of a finished object: a pointer into the newest chunk is taken at once. */
    method Free(obj: nat, ghost i: nat)
      requires Valid() && i < |live| && obj == live[i].start
      modifies this
      ensures Valid() && mem == old(mem) && obtained == old(obtained)
      ensures live == old(live)[..i] && Growing() == [] && objectBase == obj
      ensures chunks == old(chunks[..live[i].h + 1]) && chunks != []
      ensures maybeEmpty == (old(maybeEmpty) || obj >= old(chunkLimit) || |chunks| < |old(chunks)|)
      ensures Room() >= |old(live)[i].bytes|
    {
      assert InChunk(live[i], chunks, bits);
      OwnChunk(live[i], chunks, bits, |chunks| - 1);
      if chunks[|chunks| - 1].addr < obj && obj < chunkLimit {
        BelowFreed(live, i, Base(chunks[|chunks| - 1], bits), maybeEmpty);
        objectBase, nextFree := obj, obj;
        live := live[..i];
      } else {
        FreeBack(obj, i);
      }
    }

    /** _obstack_free of a finished object: release chunks down to the one that holds it. */
    method FreeBack(obj: nat, ghost i: nat)
      requires Valid() && i < |live| && obj == live[i].start
      modifies this
      ensures Valid() && mem == old(mem) && obtained == old(obtained)
      ensures live == old(live)[..i] && Growing() == [] && objectBase == obj
      ensures chunks == old(chunks[..live[i].h + 1]) && chunks != [] && maybeEmpty
      ensures Room() >= |old(live)[i].bytes|
    {
      assert live[..i + 1] == live[..i] + [live[i]];
      ReleaseTo(obj, live[..i + 1]);
      Settle(obj, i);
    }

    /** The loop of _obstack_free; the abort after it is never reached. */
    method ReleaseTo(obj: nat, ghost older: seq<Obj>)
      requires older != [] && obj == older[|older| - 1].start
      requires Held(chunks, bits) && Placed(older, chunks, bits) && Stacked(older)
      requires Conserved(obtained, released, chunks)
      modifies this`chunks, this`released, this`maybeEmpty
      ensures Held(chunks, bits) && Placed(older, chunks, bits) && older[|older| - 1].h == |chunks| - 1
      ensures Conserved(obtained, released, chunks) && chunks <= old(chunks)
    {
      hide Held, Stacked, Conserved;
      ghost var o := older[|older| - 1];
      while chunks != [] && (chunks[|chunks| - 1].addr >= obj || chunks[|chunks| - 1].limit < obj)
        invariant Held(chunks, bits) && Placed(older, chunks, bits)
        invariant Conserved(obtained, released, chunks) && chunks <= old(chunks)
        decreases |chunks|
      {
        assert InChunk(o, chunks, bits);
        OwnChunk(o, chunks, bits, |chunks| - 1);
        OlderBelow(older, |chunks| - 1);
        PopChunk(older, chunks, bits);
        ConservedPop(obtained, released, chunks);
        released := released + [chunks[|chunks| - 1]];
        chunks := chunks[..|chunks| - 1];
        maybeEmpty := true;
      }
      assert InChunk(o, chunks, bits);
      OwnChunk(o, chunks, bits, |chunks| - 1);
    }

    /** The assignments that end _obstack_free. */
    method Settle(obj: nat, ghost i: nat)
      requires Mask(bits) + HEADER <= chunkSize <= TOP
      requires i < |live| && Held(chunks, bits) && Placed(live[..i + 1], chunks, bits) && Stacked(live)
      requires Kept(mem, live) && Conserved(obtained, released, chunks)
      requires obj == live[i].start && live[i].h == |chunks| - 1
      modifies this
      ensures Valid() && mem == old(mem) && obtained == old(obtained) && chunks == old(chunks)
      ensures live == old(live)[..i] && Growing() == [] && objectBase == obj && maybeEmpty
      ensures Room() >= |old(live)[i].bytes|
    {
      assert InChunk(live[..i + 1][i], chunks, bits);
      assert forall k :: 0 <= k < i ==> live[..i][k] == live[..i + 1][k];
      BelowFreed(live, i, Base(chunks[|chunks| - 1], bits), true);
      chunkLimit := chunks[|chunks| - 1].limit;
      objectBase, nextFree := obj, obj;
      maybeEmpty := objectBase == nextFree;
      live := live[..i];
    }

    /** _obstack_free of a null pointer. */
    method FreeAll()
      requires Valid()
      modifies this
      ensures Valid() && mem == old(mem) && obtained == old(obtained)
      ensures chunks == [] && live == [] && Growing() == [] && maybeEmpty
      ensures forall c: Chunk :: Count(released, c) == Count(obtained, c)
    {
      while chunks != []
        modifies this`chunks, this`released
        invariant Conserved(obtained, released, chunks)
        decreases |chunks|
      {
        ConservedPop(obtained, released, chunks);
        released := released + [chunks[|chunks| - 1]];
        chunks := chunks[..|chunks| - 1];
      }
      chunkLimit, objectBase, nextFree := 0, 0, 0;
      maybeEmpty := true;
      live := [];
    }

    /** _obstack_memory_used: its size_t total is the bytes obtained less the bytes released. */
    method MemoryUsed() returns (total: nat)
      requires Valid()
      ensures total == Used(obtained) - Used(released)
    {
      total := 0;
      var i := |chunks|;
      while i > 0
        invariant 0 <= i <= |chunks|
        invariant total == Used(chunks[i..]) <= TOP
      {
        i := i - 1;
        UsedBack(chunks, i);
        UsedFits(chunks[i..], bits);
        total := Plus(total, chunks[i].limit - chunks[i].addr);
      }
      assert chunks[0..] == chunks;
      UsedIsTheBalance(obtained, released, chunks);
    }

    /** obstack_empty_p: when it says so, the object under construction and every live object are empty. */
    method EmptyP() returns (r: bool)
      requires Valid() && chunks != []
      ensures r ==> Growing() == [] && forall k :: 0 <= k < |live| ==> live[k].bytes == []
      ensures r <==> |chunks| == 1 && Growing() == [] && objectBase == Base(chunks[0], bits)
    {
      r := |chunks| == 1 && nextFree == Base(chunks[|chunks| - 1], bits);
      forall k | r && 0 <= k < |live| ensures live[k].bytes == [] {
        assert InChunk(live[k], chunks, bits) && Below(live[k], 0, objectBase, Base(chunks[0], bits), maybeEmpty);
      }
    }
  }

  lemma OlderBelow(older: seq<Obj>, h: int)
    requires older != [] && Stacked(older) && older[|older| - 1].h < h
    ensures forall k :: 0 <= k < |older| ==> older[k].h < h
  {
    forall k | 0 <= k < |older| ensures older[k].h < h {
      assert k == |older| - 1 || Before(older[k], older[|older| - 1]);
    }
  }

  lemma UsedBack(s: seq<Chunk>, i: nat)
    requires i < |s|
    ensures Used(s[i..]) == Used(s[i + 1..]) + Size(s[i])
  {
    assert s[i..] == [] + [s[i]] + s[i + 1..];
    assert s[i + 1..] == [] + s[i + 1..];
    UsedMiddle([], s[i], s[i + 1..]);
  }

  lemma FinishedLive(live: seq<Obj>, chunks: seq<Chunk>, bits: nat, o: Obj, mem: int -> int, maybeEmpty: bool,
                     next: nat)
    requires chunks != [] && Placed(live, chunks, bits) && Stacked(live) && Kept(mem, live)
    requires o.h == |chunks| - 1 && InChunk(o, chunks, bits) && Holds(mem, o)
    requires (o.bytes == [] ==> maybeEmpty) && next >= o.End()
    requires AllBelow(live, o.h, o.start, Base(chunks[o.h], bits), maybeEmpty)
    ensures Placed(live + [o], chunks, bits) && Stacked(live + [o]) && Kept(mem, live + [o])
    ensures AllBelow(live + [o], o.h, next, Base(chunks[o.h], bits), maybeEmpty)
  {
    var live' := live + [o];
    forall k | 0 <= k < |live'| ensures InChunk(live'[k], chunks, bits) && Holds(mem, live'[k]) {
      assert k < |live| ==> InChunk(live[k], chunks, bits) && Holds(mem, live[k]);
    }
    forall j, k | 0 <= j < k < |live'| ensures Before(live'[j], live'[k]) {
      if k < |live| {
        assert Before(live[j], live[k]);
      } else {
        assert InChunk(live[j], chunks, bits) && Below(live[j], o.h, o.start, Base(chunks[o.h], bits), maybeEmpty);
      }
    }
    forall k | 0 <= k < |live'| ensures Below(live'[k], o.h, next, Base(chunks[o.h], bits), maybeEmpty) {
      assert k < |live| ==> Below(live[k], o.h, o.start, Base(chunks[o.h], bits), maybeEmpty);
    }
  }

  // ---------------------------------------------------------------- runs

  /** What a caller sees: the live objects, the object under construction, whether a chunk is held, and its room. */
  datatype View = View(live: seq<Obj>, growing: seq<int>, open: bool, room: nat)

  datatype Op =
    | Grow(bytes: seq<int>)
    | Grow0(bytes: seq<int>)
    | Blank(length: nat)
    | MakeRoom(length: nat)
    | Finish
    | Free(index: nat)
    | FreeAll

  /** n bytes are taken from the room if they fit. */
  predicate Takes(v: View, w: View, n: nat) {
    n <= v.room ==> w.room + n == v.room
  }

  /** The stack of objects, with no chunks and no memory. */
  ghost predicate Step(op: Op, v: View, w: View, mask: nat) {
    match op
    case Grow(bytes) =>
      w.live == v.live && w.growing == v.growing + bytes && w.open == (v.open || bytes != []) && Takes(v, w, |bytes|)
    case Grow0(bytes) =>
      w.live == v.live && w.growing == v.growing + bytes + [0] && w.open && Takes(v, w, |bytes| + 1)
    case Blank(length) =>
      && w.live == v.live && v.growing <= w.growing && |w.growing| == |v.growing| + length
      && w.open == (v.open || length > 0) && Takes(v, w, length)
    case MakeRoom(length) =>
      && w.live == v.live && w.growing == v.growing && w.open == (v.open || length > 0)
      && w.room >= length && (length <= v.room ==> w == v)
    case Finish =>
      if v.open then
        && |w.live| == |v.live| + 1 && v.live <= w.live && w.live[|v.live|].bytes == v.growing
        && w.growing == [] && w.open && w.room <= v.room <= w.room + mask
      else
        w == v
    case Free(index) =>
      index < |v.live| && w.live == v.live[..index] && w.growing == [] && w.open && w.room >= |v.live[index].bytes|
    case FreeAll => w == View([], [], false, 0)
  }

  ghost predicate Steps(ops: seq<Op>, views: seq<View>, mask: nat) {
    && 0 < |views| <= |ops| + 1
    && forall i :: 0 <= i < |views| - 1 ==> Step(ops[i], views[i], views[i + 1], mask)
  }

  /** How many bytes a call asks for. */
  function Asks(op: Op): nat {
    match op
    case Grow(bytes) => |bytes|
    case Grow0(bytes) => |bytes| + 1
    case Blank(length) => length
    case MakeRoom(length) => length
    case _ => 0
  }

  ghost function Sees(h: Obstack): View
    reads h
    requires h.Valid()
  {
    View(h.live, h.Growing(), h.chunks != [], h.Room())
  }

  /** A request is within a size_t. */
  predicate Fits(op: Op) {
    match op
    case Grow(bytes) => |bytes| < SIZE_MAX
    case Grow0(bytes) => |bytes| < SIZE_MAX
    case Blank(length) => length <= SIZE_MAX
    case MakeRoom(length) => length <= SIZE_MAX
    case _ => true
  }

  /** The pointers obstack_finish gave back for the objects still live. */
  ghost predicate Known(h: Obstack, starts: seq<nat>)
    reads h
  {
    |starts| == |h.live| && forall k :: 0 <= k < |starts| ==> starts[k] == h.live[k].start
  }

  /** The call fails: no memory, or a free of an object that is not live. */
  ghost predicate Refused(h: Obstack, op: Op, alloc: Alloc)
    reads h
    requires h.Valid()
  {
    match op
    case Grow(bytes) => !h.Obtains(|bytes|, alloc)
    case Grow0(bytes) => !h.Obtains(|bytes| + 1, alloc)
    case Blank(length) => !h.Obtains(length, alloc)
    case MakeRoom(length) => !h.Obtains(length, alloc)
    case Free(index) => index >= |h.live|
    case _ => false
  }

  /** One call; false when it is refused. */
  method Call(h: Obstack, op: Op, starts: seq<nat>, alloc: Alloc) returns (ok: bool, starts': seq<nat>)
    requires h.Valid() && Sound(alloc) && Fits(op) && Known(h, starts)
    modifies h
    ensures h.Valid() && Known(h, starts')
    ensures ok <==> !old(Refused(h, op, alloc))
    ensures ok ==> Step(op, old(Sees(h)), Sees(h), Mask(h.bits))
    ensures !ok ==> unchanged(h) && (op.Free? || old(h.Room()) < Asks(op))
  {
    hide Held, Placed, Stacked, Kept, Conserved, AllBelow;
    ok, starts' := true, starts;
    match op
    case Grow(bytes) => ok := h.Grow(bytes, alloc);
    case Grow0(bytes) => ok := h.Grow0(bytes, alloc);
    case Blank(length) => ok := h.Blank(length, alloc);
    case MakeRoom(length) => ok := h.MakeRoom(length, alloc);
    case Finish =>
      var value := h.Finish();
      if h.chunks != [] {
        starts' := starts + [value];
      }
    case Free(i) =>
      if i < |starts| {
        h.Free(starts[i], i);
        starts' := starts[..i];
      } else {
        ok := false;
      }
    case FreeAll =>
      h.FreeAll();
      starts' := [];
  }

  /** A run of calls up to the first that fails: the obstack is a stack of objects at every moment. */
  method Run(h: Obstack, ops: seq<Op>, alloc: Alloc) returns (done: nat, ghost views: seq<View>)
    requires h.Valid() && Sound(alloc) && h.live == [] && forall i :: 0 <= i < |ops| ==> Fits(ops[i])
    modifies h
    ensures h.Valid() && done <= |ops|
    ensures |views| == done + 1 && views[0] == old(Sees(h)) && views[done] == Sees(h)
    ensures Steps(ops, views, Mask(h.bits))
    ensures done < |ops| ==> Refused(h, ops[done], alloc) && (ops[done].Free? || views[done].room < Asks(ops[done]))
  {
    var starts: seq<nat> := [];
    done, views := 0, [Sees(h)];
    while done < |ops|
      invariant h.Valid() && done <= |ops| && Known(h, starts)
      invariant |views| == done + 1 && views[0] == old(Sees(h)) && views[done] == Sees(h)
      invariant Steps(ops, views, Mask(h.bits))
    {
      var ok, starts' := Call(h, ops[done], starts, alloc);
      if !ok {
        break;
      }
      done, starts := done + 1, starts';
      views := views + [Sees(h)];
    }
  }

  /** Nothing between two moments of a run frees object k. */
  predicate Spared(op: Op, k: nat) {
    match op
    case Free(index) => index > k
    case FreeAll => false
    case _ => true
  }

  /** Over every run, a finished object keeps its address and its bytes until it, or one below it, is freed. */
  lemma {:induction false} LiveStays(ops: seq<Op>, views: seq<View>, i: nat, j: nat, k: nat, mask: nat)
    requires Steps(ops, views, mask) && i <= j < |views| && k < |views[i].live|
    requires forall m :: i <= m < j ==> Spared(ops[m], k)
    ensures k < |views[j].live| && views[j].live[k] == views[i].live[k]
    decreases j - i
  {
    if i < j {
      LiveStays(ops, views, i, j - 1, k, mask);
      assert Step(ops[j - 1], views[j - 1], views[j - 1 + 1], mask) && Spared(ops[j - 1], k);
    }
  }
}
