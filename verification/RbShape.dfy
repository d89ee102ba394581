/** The mathematics of the red-black macros of include/tree.h: trees of nodes, a
    cursor into a tree, black heights and the in-order sequence.  No heap here:
    RbTree.dfy ties these values to the left, right, parent and colour fields. */
module RbShape {
  import opened Basics

  /** A struct that embeds an RB_ENTRY; the comparison macro orders elements by key. */
  class Node {
    const key: int
    var left: Node?
    var right: Node?
    var parent: Node?
    var red: bool

    constructor (key: int)
      ensures this.key == key
    {
      this.key := key;
      left, right, parent, red := null, null, null, false;
    }

    function Kid(d: Dir): Node?
      reads this
    {
      if d.L? then left else right
    }

    method SetKid(d: Dir, v: Node?)
      modifies this
      ensures Kid(d) == v && Kid(d.Flip()) == old(Kid(d.Flip()))
      ensures parent == old(parent) && red == old(red)
    {
      if d.L? {
        left := v;
      } else {
        right := v;
      }
    }
  }

  datatype Tree = Leaf | Bin(l: Tree, n: Node, red: bool, r: Tree)

  /** A position in a tree: the hole is child d of n, whose other child is `other`. */
  datatype Path = Top | Step(d: Dir, n: Node, red: bool, other: Tree, up: Path)

  function Mk(d: Dir, near: Tree, n: Node, red: bool, far: Tree): Tree {
    if d.L? then Bin(near, n, red, far) else Bin(far, n, red, near)
  }

  function Near(t: Tree, d: Dir): Tree
    requires t.Bin?
  {
    if d.L? then t.l else t.r
  }

  function Root(t: Tree): Node? {
    if t.Leaf? then null else t.n
  }

  function Owner(p: Path): Node? {
    if p.Top? then null else p.n
  }

  function Plug(t: Tree, p: Path): Tree
    decreases p
  {
    match p
    case Top => t
    case Step(d, n, red, other, up) => Plug(Mk(d, t, n, red, other), up)
  }

  ghost function Nodes(t: Tree): set<Node> {
    match t
    case Leaf => {}
    case Bin(l, n, _, r) => Nodes(l) + {n} + Nodes(r)
  }

  ghost function PathNodes(p: Path): set<Node> {
    match p
    case Top => {}
    case Step(_, n, _, other, up) => Nodes(other) + {n} + PathNodes(up)
  }

  ghost predicate Apart(t: Tree) {
    t.Bin? ==>
      && t.n !in Nodes(t.l) && t.n !in Nodes(t.r) && Nodes(t.l) !! Nodes(t.r)
      && Apart(t.l) && Apart(t.r)
  }

  ghost predicate PathApart(p: Path) {
    p.Step? ==>
      && p.n !in Nodes(p.other) && p.n !in PathNodes(p.up) && Nodes(p.other) !! PathNodes(p.up)
      && Apart(p.other) && PathApart(p.up)
  }

  // ---------------------------------------------------------------- order

  function InOrder(t: Tree): seq<Node> {
    match t
    case Leaf => []
    case Bin(l, n, _, r) => InOrder(l) + [n] + InOrder(r)
  }

  function Before(p: Path): seq<Node> {
    match p
    case Top => []
    case Step(d, n, _, other, up) => if d.L? then Before(up) else Before(up) + (InOrder(other) + [n])
  }

  function After(p: Path): seq<Node> {
    match p
    case Top => []
    case Step(d, n, _, other, up) => if d.L? then ([n] + InOrder(other)) + After(up) else After(up)
  }

  /** The nodes of a tree with a cursor in it, in order. */
  function Order(t: Tree, p: Path): seq<Node> {
    Before(p) + InOrder(t) + After(p)
  }

  ghost predicate Sorted(s: seq<Node>) {
    forall i, j | 0 <= i < j < |s| :: s[i].key < s[j].key
  }

  lemma SplitSorted(a: seq<Node>, b: seq<Node>)
    requires Sorted(a + b)
    ensures Sorted(a) && Sorted(b) && forall x, y | x in a && y in b :: x.key < y.key
  {
    var s := a + b;
    assert forall i | 0 <= i < |b| :: b[i] == s[|a| + i];
    assert forall i | 0 <= i < |a| :: a[i] == s[i];
  }

  lemma OrderUp(t: Tree, d: Dir, n: Node, red: bool, other: Tree, up: Path)
    ensures Order(t, Step(d, n, red, other, up)) == Order(Mk(d, t, n, red, other), up)
  {
  }

  lemma {:induction false} PlugOrder(t: Tree, p: Path)
    ensures InOrder(Plug(t, p)) == Order(t, p)
    decreases p
  {
    if p.Step? {
      PlugOrder(Mk(p.d, t, p.n, p.red, p.other), p.up);
      OrderUp(t, p.d, p.n, p.red, p.other, p.up);
    }
  }

  lemma InOrderNodes(t: Tree)
    ensures forall x :: x in InOrder(t) <==> x in Nodes(t)
  {
  }

  lemma PathOrderNodes(p: Path)
    ensures forall x :: (x in Before(p) || x in After(p)) <==> x in PathNodes(p)
  {
    if p.Step? {
      InOrderNodes(p.other);
    }
  }

  /** r is next to x in s, on side d (R: after it); null says that x is at the end. */
  ghost predicate Neighbours(s: seq<Node>, x: Node, d: Dir, r: Node?) {
    forall i | 0 <= i < |s| && s[i] == x :: r == Beside(s, d, i)
  }

  function Beside(s: seq<Node>, d: Dir, i: int): Node?
    requires 0 <= i < |s|
  {
    if d.R? then (if i + 1 < |s| then s[i + 1] else null) else if i > 0 then s[i - 1] else null
  }

  /** The i-th member in the direction d. */
  function Nth(s: seq<Node>, d: Dir, i: nat): Node
    requires i < |s|
  {
    if d.R? then s[i] else s[|s| - 1 - i]
  }

  lemma NeighboursNth(s: seq<Node>, x: Node, d: Dir, r: Node?, i: nat)
    requires Neighbours(s, x, d, r) && i < |s| && Nth(s, d, i) == x
    ensures r == if i + 1 == |s| then null else Nth(s, d, i + 1)
  {
    var k := if d.R? then i else |s| - 1 - i;
    assert s[k] == x;
  }

  lemma NeighboursSeq(b: seq<Node>, l: seq<Node>, x: Node, r: seq<Node>, a: seq<Node>, d: Dir, y: Node?)
    requires Sorted(b + (l + [x] + r) + a)
    requires d.R? ==> y == if r != [] then r[0] else if a != [] then a[0] else null
    requires d.L? ==> y == if l != [] then l[|l| - 1] else if b != [] then b[|b| - 1] else null
    ensures Neighbours(b + (l + [x] + r) + a, x, d, y)
  {
    var e, i := b + (l + [x] + r) + a, |b| + |l|;
    assert e[i] == x;
    assert r != [] ==> e[i + 1] == r[0];
    assert l != [] ==> e[i - 1] == l[|l| - 1];
  }

  /** The key belongs at the hole: everything before it is smaller, everything after it larger. */
  ghost predicate Between(p: Path, key: int) {
    (forall x | x in Before(p) :: x.key < key) && (forall x | x in After(p) :: key < x.key)
  }

  /** One step of a search. */
  lemma BetweenStep(t: Tree, p: Path, d: Dir, key: int)
    requires Sorted(Order(t, p)) && t.Bin? && Between(p, key)
    requires if d.L? then key < t.n.key else t.n.key < key
    ensures Between(Step(d, t.n, t.red, Near(t, d.Flip()), p), key)
  {
    SplitSorted(Before(p) + InOrder(t), After(p));
    SplitSorted(Before(p), InOrder(t));
    SplitSorted(InOrder(t.l) + [t.n], InOrder(t.r));
    SplitSorted(InOrder(t.l), [t.n]);
  }

  lemma JoinedSorted(p: Path, x: Node)
    requires Sorted(Before(p) + After(p)) && Between(p, x.key)
    ensures Sorted(Before(p) + [x] + After(p))
  {
    SplitSorted(Before(p), After(p));
  }

  lemma JoinedUnsorted(was: seq<Node>, x: Node, now: seq<Node>)
    requires Joined(was, x, now) && Sorted(now)
    ensures Sorted(was) && x !in was
  {
    var i :| 0 <= i <= |was| && now == was[..i] + [x] + was[i..];
    assert forall k | 0 <= k < |was| :: was[k] == now[if k < i then k else k + 1];
    assert now[i] == x;
  }

  // ---------------------------------------------------------------- balance

  predicate IsRed(t: Tree) {
    t.Bin? && t.red
  }

  function Blacken(t: Tree): Tree {
    if t.Leaf? then t else t.(red := false)
  }

  /** Black nodes on the leftmost path; in an Ok tree, on every path. */
  function BH(t: Tree): nat {
    if t.Leaf? then 0 else BH(t.l) + if t.red then 0 else 1
  }

  /** No red node has a red child, and all paths hold equally many black nodes. */
  predicate Ok(t: Tree) {
    t.Bin? ==>
      && Ok(t.l) && Ok(t.r) && BH(t.l) == BH(t.r)
      && (t.red ==> !IsRed(t.l) && !IsRed(t.r))
  }

  /** The context is Ok around any Ok tree of black height h (red: with a red root). */
  predicate PathOk(p: Path, h: nat, red: bool) {
    p.Step? ==>
      && Ok(p.other) && BH(p.other) == h
      && (p.red ==> !IsRed(p.other) && !red)
      && PathOk(p.up, if p.red then h else h + 1, p.red)
  }

  /** The root of the whole tree is above the hole and black, unless the hole is the root. */
  predicate RootBlack(p: Path) {
    p.Step? ==> if p.up.Top? then !p.red else RootBlack(p.up)
  }

  lemma {:induction false} PlugOk(t: Tree, p: Path)
    ensures Ok(Plug(t, p)) <==> Ok(t) && PathOk(p, BH(t), IsRed(t))
    decreases p
  {
    if p.Step? {
      PlugOk(Mk(p.d, t, p.n, p.red, p.other), p.up);
    }
  }

  lemma {:induction false} PlugRed(t: Tree, p: Path)
    ensures RootBlack(p) && p.Step? ==> !IsRed(Plug(t, p))
    ensures p.Step? && !IsRed(Plug(t, p)) ==> RootBlack(p)
    decreases p
  {
    if p.Step? {
      PlugRed(Mk(p.d, t, p.n, p.red, p.other), p.up);
    }
  }

  // ---------------------------------------------------------------- rotation

  function Rotated(d: Dir, t: Tree): Tree
    requires t.Bin? && Near(t, d.Flip()).Bin?
  {
    var y := Near(t, d.Flip());
    Mk(d, Mk(d, Near(t, d), t.n, t.red, Near(y, d)), y.n, y.red, Near(y, d.Flip()))
  }

  /** A rotation keeps the nodes and their order. */
  lemma RotatedSame(d: Dir, t: Tree)
    requires t.Bin? && Near(t, d.Flip()).Bin?
    ensures InOrder(Rotated(d, t)) == InOrder(t) && Nodes(Rotated(d, t)) == Nodes(t)
  {
    RotatedOrder(d, t);
    if d.L? {
      assert Nodes(t) == Nodes(t.l) + {t.n} + (Nodes(t.r.l) + {t.r.n} + Nodes(t.r.r));
    } else {
      assert Nodes(t) == (Nodes(t.l.l) + {t.l.n} + Nodes(t.l.r)) + {t.n} + Nodes(t.r);
    }
  }

  lemma RotatedOrder(d: Dir, t: Tree)
    requires t.Bin? && Near(t, d.Flip()).Bin?
    ensures InOrder(Rotated(d, t)) == InOrder(t)
  {
    if d.L? {
      assert InOrder(t) == InOrder(t.l) + [t.n] + (InOrder(t.r.l) + [t.r.n] + InOrder(t.r.r));
    } else {
      assert InOrder(t) == (InOrder(t.l.l) + [t.l.n] + InOrder(t.l.r)) + [t.n] + InOrder(t.r);
    }
  }

  lemma RotatedApart(d: Dir, t: Tree)
    requires t.Bin? && Near(t, d.Flip()).Bin? && Apart(t)
    ensures Apart(Rotated(d, t))
  {
    var far := Near(t, d.Flip());
    assert Apart(far) && Nodes(far) == Nodes(Near(far, d)) + {far.n} + Nodes(Near(far, d.Flip()));
  }

  // ---------------------------------------------------------------- insertion

  function Len(p: Path): nat {
    if p.Top? then 0 else 1 + Len(p.up)
  }

  /** The loop of RB_INSERT_COLOR: all is well except that t is red and its parent may be too. */
  ghost predicate InsertInv(t: Tree, p: Path) {
    IsRed(t) && Ok(t) && PathOk(p, BH(t), false) && RootBlack(p)
  }

  /** The red parent of a red node is not the root. */
  lemma Grandparent(t: Tree, p: Path)
    requires InsertInv(t, p) && p.Step? && p.red
    ensures p.up.Step? && !p.up.red && Len(p) == 2 + Len(p.up.up)
    ensures PathOk(p.up, BH(t), true) && PathOk(p.up.up, BH(t) + 1, false) && RootBlack(p.up.up)
  {
    assert PathOk(p.up, BH(t), true) && RootBlack(p.up);
  }

  /** A red leaf put at the place its key belongs starts the loop. */
  lemma InsertHere(elm: Node, p: Path)
    requires Ok(Plug(Leaf, p)) && !IsRed(Plug(Leaf, p)) && Sorted(InOrder(Plug(Leaf, p))) && Between(p, elm.key)
    ensures var t := Bin(Leaf, elm, true, Leaf);
            InsertInv(t, p) && Sorted(Order(t, p)) && Joined(InOrder(Plug(Leaf, p)), elm, Order(t, p))
    ensures elm !in PathNodes(p) && elm !in InOrder(Plug(Leaf, p))
  {
    PlugOrder(Leaf, p);
    PlugOk(Leaf, p);
    PlugRed(Leaf, p);
    PathOrderNodes(p);
    assert Order(Leaf, p) == Before(p) + After(p);
    JoinedAt(Before(p), elm, After(p));
    JoinedSorted(p, elm);
    assert InOrder(Bin(Leaf, elm, true, Leaf)) == [elm];
  }

  /** Red uncle: parent and uncle turn black, the grandparent red, and the cursor moves to it. */
  function PushUp(t: Tree, p: Path): Tree
    requires p.Step? && p.up.Step?
  {
    Mk(p.up.d, Mk(p.d, t, p.n, false, p.other), p.up.n, true, Blacken(p.up.other))
  }

  lemma PushUpInv(t: Tree, p: Path)
    requires InsertInv(t, p) && p.Step? && p.red && p.up.Step? && IsRed(p.up.other)
    ensures InsertInv(PushUp(t, p), p.up.up)
    ensures Order(PushUp(t, p), p.up.up) == Order(t, p)
  {
    var q, u := p.up, Mk(p.d, t, p.n, false, p.other);
    Grandparent(t, p);
    assert Ok(u) && BH(u) == BH(t) + 1 == BH(Blacken(q.other)) && Ok(Blacken(q.other));
    OrderUp(t, p.d, p.n, p.red, p.other, q);
    OrderUp(u, q.d, q.n, true, Blacken(q.other), q.up);
    assert InOrder(Blacken(q.other)) == InOrder(q.other);
    assert InOrder(u) == InOrder(Mk(p.d, t, p.n, p.red, p.other));
  }

  /** Black uncle, inner child: after the first rotation the old parent is the cursor. */
  lemma InnerInv(t: Tree, p: Path)
    requires InsertInv(t, p) && p.Step? && p.red && p.up.Step? && p.d != p.up.d
    ensures var d := p.up.d;
            var u, q := Mk(d, p.other, p.n, true, Near(t, d)), Step(d, t.n, true, Near(t, p.d), p.up);
            && Rotated(d, Mk(p.d, t, p.n, p.red, p.other)) == Mk(d, u, t.n, true, q.other)
            && InsertInv(u, q) && Order(u, q) == Order(t, p) && Len(q) == Len(p)
  {
    var d := p.up.d;
    var u, q := Mk(d, p.other, p.n, true, Near(t, d)), Step(d, t.n, true, Near(t, p.d), p.up);
    OrderUp(t, p.d, p.n, p.red, p.other, p.up);
    OrderUp(u, d, t.n, true, q.other, p.up);
    RotatedSame(d, Mk(p.d, t, p.n, p.red, p.other));
  }

  /** Black uncle, outer child: one rotation at the grandparent ends the loop. */
  lemma OuterInv(t: Tree, p: Path)
    requires InsertInv(t, p) && p.Step? && p.red && p.up.Step? && p.d == p.up.d && !IsRed(p.up.other)
    ensures var q := p.up;
            var v, r := Mk(q.d, p.other, q.n, true, q.other),
              Step(p.d, p.n, false, Mk(q.d, p.other, q.n, true, q.other), q.up);
            && Rotated(q.d.Flip(), Mk(q.d, Mk(p.d, t, p.n, false, p.other), q.n, true, q.other)) ==
               Mk(p.d, t, p.n, false, v)
            && InsertInv(t, r) && Order(t, r) == Order(t, p) && Len(r) < Len(p)
  {
    var q := p.up;
    var v, w := Mk(q.d, p.other, q.n, true, q.other), Mk(p.d, t, p.n, false, p.other);
    Grandparent(t, p);
    assert Ok(v) && BH(v) == BH(t);
    OrderUp(t, p.d, p.n, p.red, p.other, q);
    OrderUp(w, q.d, q.n, true, q.other, q.up);
    OrderUp(t, p.d, p.n, false, v, q.up);
    RotatedSame(q.d.Flip(), Mk(q.d, w, q.n, true, q.other));
    assert InOrder(w) == InOrder(Mk(p.d, t, p.n, p.red, p.other));
  }

  /** When the loop stops, blackening the root makes the whole tree a red-black tree. */
  lemma InsertDone(t: Tree, p: Path)
    requires InsertInv(t, p) && (p.Step? ==> !p.red)
    ensures Ok(Blacken(Plug(t, p))) && Plug(t, p).Bin?
    ensures InOrder(Blacken(Plug(t, p))) == Order(t, p)
  {
    PlugOk(t, p);
    PlugOrder(t, p);
    assert Order(t, p) != [] by { assert t.n in InOrder(t); }
  }

  // ---------------------------------------------------------------- removal

  /** The loop of RB_REMOVE_COLOR: the context wants one black node more than t has; t may be
      a red node with red children, which blackening would cure. */
  ghost predicate RemoveInv(t: Tree, p: Path) {
    Ok(Blacken(t)) && PathOk(p, BH(t) + 1, false) && RootBlack(p)
  }

  /** The sibling that the loop reads is never null. */
  lemma SiblingExists(t: Tree, p: Path)
    requires RemoveInv(t, p) && p.Step?
    ensures p.other.Bin? && BH(p.other) == BH(t) + 1 && Ok(p.other)
  {
  }

  /** Red sibling: after the rotation at the parent, the sibling is black. */
  lemma RedSiblingInv(t: Tree, p: Path)
    requires RemoveInv(t, p) && p.Step? && IsRed(p.other) && !IsRed(t)
    ensures var d, s := p.d, p.other;
            var q := Step(d, p.n, true, Near(s, d), Step(d, s.n, false, Near(s, d.Flip()), p.up));
            && Rotated(d, Mk(d, t, p.n, true, Blacken(s))) ==
               Mk(d, Mk(d, t, p.n, true, Near(s, d)), s.n, false, Near(s, d.Flip()))
            && RemoveInv(t, q) && !IsRed(q.other) && Order(t, q) == Order(t, p)
  {
    var d, s := p.d, p.other;
    var q := Step(d, p.n, true, Near(s, d), Step(d, s.n, false, Near(s, d.Flip()), p.up));
    var w := Mk(d, t, p.n, true, Blacken(s));
    SiblingExists(t, p);
    assert PathOk(q.up, BH(t) + 1, true);
    RotatedSame(d, w);
    OrderUp(t, d, p.n, p.red, s, p.up);
    OrderUp(t, d, p.n, true, q.other, q.up);
    OrderUp(Mk(d, t, p.n, true, Near(s, d)), d, s.n, false, Near(s, d.Flip()), p.up);
    assert InOrder(w) == InOrder(Mk(d, t, p.n, p.red, s)) by { assert InOrder(Blacken(s)) == InOrder(s); }
  }

  /** Black sibling with black children: it turns red and the deficit moves to the parent. */
  lemma BlackSiblingInv(t: Tree, p: Path)
    requires RemoveInv(t, p) && p.Step? && p.other.Bin? && !IsRed(p.other) && !IsRed(t)
    requires !IsRed(p.other.l) && !IsRed(p.other.r)
    ensures var u := Mk(p.d, t, p.n, p.red, p.other.(red := true));
            RemoveInv(u, p.up) && Order(u, p.up) == Order(t, p)
  {
    var s := p.other.(red := true);
    SiblingExists(t, p);
    assert Ok(s) && BH(s) == BH(t);
    assert BH(Mk(p.d, t, p.n, p.red, s)) == BH(t) + if p.red then 0 else 1;
    assert PathOk(p.up, BH(t) + 1 + (if p.red then 0 else 1), p.red);
    OrderUp(t, p.d, p.n, p.red, p.other, p.up);
    assert InOrder(Mk(p.d, t, p.n, p.red, s)) == InOrder(Mk(p.d, t, p.n, p.red, p.other));
  }

  /** The sibling when only its inner child is red, after the rotation at the sibling. */
  function Straightened(d: Dir, s: Tree): Tree
    requires s.Bin? && Near(s, d).Bin?
  {
    var y := Near(s, d);
    Mk(d, Near(y, d), y.n, false, Mk(d, Near(y, d.Flip()), s.n, true, Near(s, d.Flip())))
  }

  lemma InnerNephewInv(t: Tree, p: Path)
    requires RemoveInv(t, p) && p.Step? && p.other.Bin? && !IsRed(p.other) && !IsRed(t)
    requires IsRed(Near(p.other, p.d)) && !IsRed(Near(p.other, p.d.Flip()))
    ensures var d, s := p.d, p.other;
            var q := p.(other := Straightened(d, s));
            && Rotated(d.Flip(), Mk(d, Blacken(Near(s, d)), s.n, true, Near(s, d.Flip()))) == q.other
            && RemoveInv(t, q) && !IsRed(q.other) && IsRed(Near(q.other, d.Flip())) && Order(t, q) == Order(t, p)
  {
    var d, s := p.d, p.other;
    var y, o := Near(s, d), Straightened(d, s);
    SiblingExists(t, p);
    assert Ok(y) && Ok(Near(s, d.Flip()));
    assert Ok(Near(o, d.Flip())) && BH(Near(o, d.Flip())) == BH(t);
    assert BH(o) == BH(t) + 1 && Ok(o);
    var w := Mk(d, Blacken(y), s.n, true, Near(s, d.Flip()));
    RotatedSame(d.Flip(), w);
    assert InOrder(w) == InOrder(s) by { assert InOrder(Blacken(y)) == InOrder(y); }
  }

  /** Outer child red: one last rotation at the parent restores every invariant. */
  lemma OuterNephewInv(t: Tree, p: Path)
    requires RemoveInv(t, p) && p.Step? && p.other.Bin? && !IsRed(p.other) && !IsRed(t)
    requires IsRed(Near(p.other, p.d.Flip()))
    ensures var d, s := p.d, p.other;
            var w := Mk(d, t, p.n, false, Mk(d, Near(s, d), s.n, p.red, Blacken(Near(s, d.Flip()))));
            var v := Plug(Rotated(d, w), p.up);
            Ok(v) && !IsRed(v) && InOrder(v) == Order(t, p)
  {
    var d, s := p.d, p.other;
    var o := Near(s, d.Flip());
    var s' := Mk(d, Near(s, d), s.n, p.red, Blacken(o));
    var w := Mk(d, t, p.n, false, s');
    var v := Rotated(d, w);
    SiblingExists(t, p);
    assert Ok(Near(s, d)) && Ok(o) && Ok(Blacken(o)) && BH(Blacken(o)) == BH(t) + 1;
    assert Ok(Mk(d, t, p.n, false, Near(s, d)));
    assert Ok(v) && BH(v) == BH(t) + 1 + (if p.red then 0 else 1) && IsRed(v) == p.red;
    PlugOk(v, p.up);
    PlugRed(v, p.up);
    PlugOrder(v, p.up);
    RotatedSame(d, w);
    OrderUp(t, d, p.n, p.red, s, p.up);
    assert InOrder(s') == InOrder(s) by { assert InOrder(Blacken(o)) == InOrder(o); }
    assert InOrder(w) == InOrder(Mk(d, t, p.n, p.red, s));
  }

  lemma RemoveDone(t: Tree, p: Path)
    requires RemoveInv(t, p) && (p.Step? ==> IsRed(t))
    ensures var v := Plug(Blacken(t), p);
            Ok(v) && !IsRed(v) && InOrder(v) == Order(t, p)
  {
    PlugOk(Blacken(t), p);
    PlugRed(Blacken(t), p);
    PlugOrder(Blacken(t), p);
    assert InOrder(Blacken(t)) == InOrder(t);
  }

  /** The whole tree is a red-black tree, seen from the cursor. */
  ghost predicate Settled(t: Tree, p: Path) {
    Ok(t) && PathOk(p, BH(t), IsRed(t)) && if p.Top? then !IsRed(t) else RootBlack(p)
  }

  lemma SettledPlug(t: Tree, p: Path)
    ensures Settled(t, p) <==> Ok(Plug(t, p)) && !IsRed(Plug(t, p))
  {
    PlugOk(t, p);
    PlugRed(t, p);
  }

  lemma BlackenOk(t: Tree)
    requires Ok(t)
    ensures Ok(Blacken(t)) && InOrder(Blacken(t)) == InOrder(t)
  {
  }

  /** Taking out a node with at most one child: nothing is amiss if the node was red. */
  lemma SpliceInv(t: Tree, p: Path)
    requires Settled(t, p) && t.Bin? && (t.l.Leaf? || t.r.Leaf?)
    ensures var c := if t.l.Leaf? then t.r else t.l;
            if t.red then Settled(c, p) else RemoveInv(c, p)
  {
    BlackenOk(t.l);
    BlackenOk(t.r);
  }

  lemma SpliceOrder(t: Tree, p: Path)
    requires t.Bin? && (t.l.Leaf? || t.r.Leaf?)
    ensures var c := if t.l.Leaf? then t.r else t.l;
            Joined(Order(c, p), t.n, Order(t, p))
  {
    var c := if t.l.Leaf? then t.r else t.l;
    assert InOrder(t) == if t.l.Leaf? then [t.n] + InOrder(c) else InOrder(c) + [t.n];
    JoinedAround(Before(p), InOrder(c), t.n, After(p));
  }

  lemma JoinedAround(a: seq<Node>, b: seq<Node>, x: Node, c: seq<Node>)
    ensures Joined(a + b + c, x, a + ([x] + b) + c) && Joined(a + b + c, x, a + (b + [x]) + c)
  {
    JoinedAt(a, x, b + c);
    JoinedAt(a + b, x, c);
    assert a + (b + c) == a + b + c && a + [x] + (b + c) == a + ([x] + b) + c;
    assert a + b + [x] + c == a + (b + [x]) + c;
  }

  /** The path s continued by q. */
  function Append(s: Path, q: Path): Path {
    if s.Top? then q else s.(up := Append(s.up, q))
  }

  lemma AppendOrder(s: Path, q: Path)
    ensures Before(Append(s, q)) == Before(q) + Before(s) && After(Append(s, q)) == After(s) + After(q)
  {
  }

  lemma {:induction false} AppendPlug(t: Tree, s: Path, q: Path)
    ensures Plug(t, Append(s, q)) == Plug(Plug(t, s), q)
    decreases s
  {
    if s.Step? {
      AppendPlug(Mk(s.d, t, s.n, s.red, s.other), s.up, q);
    }
  }

  /** Another node in the same place changes no colour. */
  lemma {:induction false} RenameOk(s: Path, q: Path, m: Node, h: nat, red: bool)
    requires q.Step?
    ensures PathOk(Append(s, q), h, red) <==> PathOk(Append(s, q.(n := m)), h, red)
    ensures RootBlack(Append(s, q)) <==> RootBlack(Append(s, q.(n := m)))
  {
    if s.Step? {
      RenameOk(s.up, q, m, if s.red then h else h + 1, s.red);
    }
  }

  /** Removing a node with two children: its successor, leftmost in the right subtree at the
      end of the path s, is taken out and then put in its place, with its colour. */
  lemma SupplantInv(u: Tree, s: Path, q: Path)
    requires u.Bin? && u.l.Leaf? && q.Step? && Settled(u, Append(s, q))
    ensures var f := Append(s, q.(n := u.n));
            if u.red then Settled(u.r, f) else RemoveInv(u.r, f)
  {
    SpliceInv(u, Append(s, q));
    RenameOk(s, q, u.n, BH(u.r), IsRed(u.r));
    RenameOk(s, q, u.n, BH(u.r) + 1, false);
  }

  lemma SupplantOrder(u: Tree, s: Path, q: Path)
    requires u.Bin? && u.l.Leaf? && Before(s) == [] && q.Step? && q.d.R?
    ensures Joined(Order(u.r, Append(s, q.(n := u.n))), q.n, Order(u, Append(s, q)))
  {
    AppendOrder(s, q);
    AppendOrder(s, q.(n := u.n));
    assert InOrder(u) == [u.n] + InOrder(u.r);
    SupplantSeq(Before(q.up), InOrder(q.other), q.n, u.n, InOrder(u.r), After(s) + After(q));
  }

  lemma SupplantSeq(b: seq<Node>, o: seq<Node>, x: Node, m: Node, i: seq<Node>, a: seq<Node>)
    ensures Joined(b + (o + [m]) + [] + i + a, x, b + (o + [x]) + [] + ([m] + i) + a)
  {
    JoinedAt(b + o, x, [m] + i + a);
    assert b + o + ([m] + i + a) == b + (o + [m]) + [] + i + a;
    assert b + o + [x] + ([m] + i + a) == b + (o + [x]) + [] + ([m] + i) + a;
  }

  /** The same whole tree, seen from its root's place and from the successor's. */
  lemma MoveSettled(t: Tree, u: Tree, s: Path, p: Path)
    requires t.Bin? && Plug(u, s) == t.r && Settled(t, p)
    ensures var q := Append(s, Step(R, t.n, t.red, t.l, p));
            Settled(u, q) && Order(u, q) == Order(t, p)
  {
    var q := Append(s, Step(R, t.n, t.red, t.l, p));
    AppendPlug(u, s, Step(R, t.n, t.red, t.l, p));
    SettledPlug(t, p);
    SettledPlug(u, q);
    PlugOrder(t, p);
    PlugOrder(u, q);
  }

  // ---------------------------------------------------------------- height

  function Height(t: Tree): nat {
    if t.Leaf? then 0
    else 1 + if Height(t.l) < Height(t.r) then Height(t.r) else Height(t.l)
  }

  lemma Pow2Mono(m: nat, n: nat)
    requires m <= n
    ensures Pow2(m) <= Pow2(n)
    decreases n
  {
    if m < n {
      Pow2Mono(m, n - 1);
    }
  }

  /** Squares are kept behind a name: the solver then never multiplies two variables by itself. */
  function Square(x: nat): nat {
    x * x
  }

  lemma SquareDouble(x: nat)
    ensures Square(2 * x) == 4 * Square(x)
  {
  }

  lemma SquareMono(x: nat, y: nat)
    requires x <= y
    ensures Square(x) <= Square(y)
  {
    assert x * x <= x * y <= y * y;
  }

  lemma {:induction false} Pow2Square(n: nat)
    ensures Pow2(2 * n) == Square(Pow2(n))
  {
    if n > 0 {
      Pow2Square(n - 1);
      SquareDouble(Pow2(n - 1));
      assert Pow2(2 * n) == 2 * Pow2(2 * n - 1) == 4 * Pow2(2 * (n - 1));
    }
  }

  lemma {:induction false} BlackHeightBounds(t: Tree)
    requires Ok(t)
    ensures Pow2(BH(t)) <= |InOrder(t)| + 1
    ensures Height(t) <= 2 * BH(t) + if IsRed(t) then 1 else 0
  {
    if t.Bin? {
      BlackHeightBounds(t.l);
      BlackHeightBounds(t.r);
    }
  }

  /** A red-black tree of n nodes has height at most 2 * log2(n + 1). */
  lemma HeightBound(t: Tree)
    requires Ok(t) && !IsRed(t)
    ensures Pow2(Height(t)) <= Square(|InOrder(t)| + 1)
  {
    BlackHeightBounds(t);
    Pow2Mono(Height(t), 2 * BH(t));
    Pow2Square(BH(t));
    SquareMono(Pow2(BH(t)), |InOrder(t)| + 1);
  }
}
