/** The mathematics of the top-down splay macros of include/tree.h: a tree that is being taken
    apart, with the nodes already passed kept in two accumulators. */
module SplayShape {
  import opened Basics

  /** A struct that embeds a SPLAY_ENTRY; the comparison macro orders elements by key. */
  class Node {
    const key: int
    var left: Node?
    var right: Node?

    constructor (key: int)
      ensures this.key == key && left == null && right == null
    {
      this.key := key;
      left, right := null, null;
    }

    function Kid(d: Dir): Node?
      reads this
    {
      if d.L? then left else right
    }
  }

  datatype Tree = Leaf | Bin(l: Tree, n: Node, r: Tree)

  function Size(t: Tree): nat {
    if t.Leaf? then 0 else Size(t.l) + 1 + Size(t.r)
  }

  /** An accumulator, innermost node first: each node n keeps the subtree `sub` on its outer side
      and the rest of the tree will hang on its inner side. */
  datatype Acc = Nil | Snoc(prev: Acc, n: Node, sub: Tree)

  function Mk(d: Dir, near: Tree, n: Node, far: Tree): Tree {
    if d.L? then Bin(near, n, far) else Bin(far, n, near)
  }

  function Near(t: Tree, d: Dir): Tree
    requires t.Bin?
  {
    if d.L? then t.l else t.r
  }

  function Root(t: Tree): Node? {
    if t.Leaf? then null else t.n
  }

  /** The accumulator with t in its open place; d is the side of that place. */
  function Close(d: Dir, a: Acc, t: Tree): Tree
    decreases a
  {
    if a.Nil? then t else Close(d, a.prev, Mk(d, t, a.n, a.sub))
  }

  ghost function Nodes(t: Tree): set<Node> {
    if t.Leaf? then {} else Nodes(t.l) + {t.n} + Nodes(t.r)
  }

  ghost function AccNodes(a: Acc): set<Node> {
    if a.Nil? then {} else AccNodes(a.prev) + {a.n} + Nodes(a.sub)
  }

  ghost predicate Apart(t: Tree) {
    t.Bin? ==>
      && t.n !in Nodes(t.l) && t.n !in Nodes(t.r) && Nodes(t.l) !! Nodes(t.r)
      && Apart(t.l) && Apart(t.r)
  }

  ghost predicate AccApart(a: Acc) {
    a.Snoc? ==>
      && a.n !in AccNodes(a.prev) && a.n !in Nodes(a.sub) && AccNodes(a.prev) !! Nodes(a.sub)
      && AccApart(a.prev) && Apart(a.sub)
  }

  // ---------------------------------------------------------------- order

  function InOrder(t: Tree): seq<Node> {
    if t.Leaf? then [] else InOrder(t.l) + [t.n] + InOrder(t.r)
  }

  /** The nodes of an accumulator in order: d is R for the one that holds the smaller nodes. */
  function AccOrder(d: Dir, a: Acc): seq<Node> {
    if a.Nil? then []
    else if d.R? then AccOrder(d, a.prev) + (InOrder(a.sub) + [a.n])
    else ([a.n] + InOrder(a.sub)) + AccOrder(d, a.prev)
  }

  /** The whole tree in order, while t is what is left of it. */
  function Order(small: Acc, t: Tree, big: Acc): seq<Node> {
    AccOrder(R, small) + InOrder(t) + AccOrder(L, big)
  }

  ghost predicate Sorted(s: seq<Node>) {
    forall i, j | 0 <= i < j < |s| :: s[i].key < s[j].key
  }

  ghost predicate Below(s: seq<Node>, key: int) {
    forall x | x in s :: x.key < key
  }

  ghost predicate Above(key: int, s: seq<Node>) {
    forall x | x in s :: key < x.key
  }

  lemma InOrderNodes(t: Tree)
    ensures forall x :: x in InOrder(t) <==> x in Nodes(t)
  {
  }

  lemma SplitSorted(a: seq<Node>, b: seq<Node>)
    requires Sorted(a + b)
    ensures Sorted(a) && Sorted(b) && forall x, y | x in a && y in b :: x.key < y.key
  {
    var s := a + b;
    assert forall i | 0 <= i < |b| :: b[i] == s[|a| + i];
    assert forall i | 0 <= i < |a| :: a[i] == s[i];
  }

  /** In a sorted a + [x] + b, x separates the two parts. */
  lemma SplitAround(a: seq<Node>, x: Node, b: seq<Node>)
    requires Sorted(a + [x] + b)
    ensures Sorted(a) && Sorted(b) && Below(a, x.key) && Above(x.key, b)
  {
    SplitSorted(a + [x], b);
    SplitSorted(a, [x]);
  }

  /** Two members with one key are the same. */
  lemma OneOfKey(s: seq<Node>, x: Node, y: Node)
    requires Sorted(s) && x in s && x.key == y.key
    ensures y in s <==> y == x
  {
  }

  lemma JoinedUnsorted(was: seq<Node>, x: Node, now: seq<Node>)
    requires Joined(was, x, now) && Sorted(now)
    ensures Sorted(was) && x !in was
  {
    var i :| 0 <= i <= |was| && now == was[..i] + [x] + was[i..];
    assert forall k | 0 <= k < |was| :: was[k] == now[if k < i then k else k + 1];
    assert now[i] == x;
  }

  /** The member after the i-th, or null. */
  function After(s: seq<Node>, i: int): Node?
    requires 0 <= i < |s|
  {
    if i + 1 < |s| then s[i + 1] else null
  }

  lemma {:induction false} CloseOrder(d: Dir, a: Acc, t: Tree)
    ensures InOrder(Close(d, a, t)) == if d.R? then AccOrder(R, a) + InOrder(t) else InOrder(t) + AccOrder(L, a)
    decreases a
  {
    if a.Snoc? {
      CloseOrder(d, a.prev, Mk(d, t, a.n, a.sub));
    }
  }

  // ---------------------------------------------------------------- the steps

  /** SPLAY_ROTATE_RIGHT (d is L) and SPLAY_ROTATE_LEFT (d is R): the child on side d comes up. */
  function Raised(d: Dir, t: Tree): Tree
    requires t.Bin? && Near(t, d).Bin?
  {
    var y := Near(t, d);
    Mk(d, Near(y, d), y.n, Mk(d, Near(y, d.Flip()), t.n, Near(t, d.Flip())))
  }

  lemma RaisedSame(d: Dir, t: Tree)
    requires t.Bin? && Near(t, d).Bin?
    ensures InOrder(Raised(d, t)) == InOrder(t) && Nodes(Raised(d, t)) == Nodes(t)
  {
    if d.L? {
      assert InOrder(t) == InOrder(t.l.l) + [t.l.n] + InOrder(t.l.r) + [t.n] + InOrder(t.r);
    } else {
      assert InOrder(t) == InOrder(t.l) + [t.n] + (InOrder(t.r.l) + [t.r.n] + InOrder(t.r.r));
    }
  }

  lemma RaisedApart(d: Dir, t: Tree)
    requires t.Bin? && Near(t, d).Bin? && Apart(t)
    ensures Apart(Raised(d, t))
  {
    var y := Near(t, d);
    assert Apart(y) && Nodes(y) == Nodes(Near(y, d)) + {y.n} + Nodes(Near(y, d.Flip()));
  }

  /** A pair of accumulators, and the one that a move to side d feeds. */
  datatype Accs = Accs(small: Acc, big: Acc) {
    function Get(d: Dir): Acc { if d.L? then big else small }
    function Put(d: Dir, a: Acc): Accs { if d.L? then this.(big := a) else this.(small := a) }
  }

  function Linked(d: Dir, t: Tree, c: Accs): Accs
    requires t.Bin?
  {
    c.Put(d, Snoc(c.Get(d), t.n, Near(t, d.Flip())))
  }

  lemma LinkOrder(d: Dir, t: Tree, c: Accs)
    requires t.Bin?
    ensures var c' := Linked(d, t, c);
            Order(c'.small, Near(t, d), c'.big) == Order(c.small, t, c.big)
  {
    if d.L? {
      assert InOrder(t.l) + (([t.n] + InOrder(t.r)) + AccOrder(L, c.big)) == InOrder(t) + AccOrder(L, c.big);
    } else {
      assert AccOrder(R, c.small) + (InOrder(t.l) + [t.n]) + InOrder(t.r) == AccOrder(R, c.small) + InOrder(t);
    }
  }

  /** The accumulators hold nothing on the wrong side of the key. */
  ghost predicate Parted(c: Accs, key: int) {
    Below(AccOrder(R, c.small), key) && Above(key, AccOrder(L, c.big))
  }

  lemma LinkParted(d: Dir, t: Tree, c: Accs, key: int)
    requires t.Bin? && Sorted(InOrder(t)) && Parted(c, key) && if d.L? then key < t.n.key else t.n.key < key
    ensures Parted(Linked(d, t, c), key)
  {
    SplitAround(InOrder(t.l), t.n, InOrder(t.r));
  }

  // ---------------------------------------------------------------- the outcome

  /** SPLAY_ASSEMBLE: the root of what is left gets the closed accumulators as its subtrees. */
  function Assembled(t: Tree, c: Accs): Tree
    requires t.Bin?
  {
    Bin(Close(R, c.small, t.l), t.n, Close(L, c.big, t.r))
  }

  lemma AssembledOrder(t: Tree, c: Accs)
    requires t.Bin?
    ensures InOrder(Assembled(t, c)) == Order(c.small, t, c.big)
  {
    CloseOrder(R, c.small, t.l);
    CloseOrder(L, c.big, t.r);
  }

  /** The key, if it occurs, or one of its in-order neighbours is at the root. */
  ghost predicate Splayed(t: Tree, key: int) {
    t.Bin? && (
      || t.n.key == key
      || (key < t.n.key && Below(InOrder(t.l), key))
      || (t.n.key < key && Above(key, InOrder(t.r)))
    )
  }

  /** When the loop stops, the key is at the root of what is left or would be its missing child. */
  ghost predicate Stopped(t: Tree, key: int) {
    t.Bin? && (t.n.key == key || (key < t.n.key && t.l.Leaf?) || (t.n.key < key && t.r.Leaf?))
  }

  lemma AssembledSplayed(t: Tree, c: Accs, key: int)
    requires Stopped(t, key) && Parted(c, key)
    ensures Splayed(Assembled(t, c), key)
  {
    CloseOrder(R, c.small, t.l);
    CloseOrder(L, c.big, t.r);
  }

  /** If the key occurs at all, the splayed root has it. */
  lemma SplayedFinds(t: Tree, key: int)
    requires Splayed(t, key) && Sorted(InOrder(t))
    ensures (exists x :: x in InOrder(t) && x.key == key) <==> t.n.key == key
  {
    SplitAround(InOrder(t.l), t.n, InOrder(t.r));
    assert t.n in InOrder(t);
  }

  /** A splayed tree whose nodes all lie below the key has no right child at its root. */
  lemma SplayedMax(t: Tree, key: int)
    requires Splayed(t, key) && Below(InOrder(t), key)
    ensures t.r.Leaf?
  {
    assert t.n in InOrder(t);
    assert forall x | x in InOrder(t.r) :: x in InOrder(t);
    InOrderNodes(t.r);
    assert Nodes(t.r) == {};
  }

  /** SPLAY_INSERT: the old root goes below the new one. */
  function Rooted(t: Tree, elm: Node): Tree
    requires t.Bin?
  {
    if elm.key < t.n.key then Bin(t.l, elm, Bin(Leaf, t.n, t.r)) else Bin(Bin(t.l, t.n, Leaf), elm, t.r)
  }

  lemma RootedApart(t: Tree, elm: Node)
    requires t.Bin? && Apart(t) && elm !in Nodes(t)
    ensures Nodes(Rooted(t, elm)) == Nodes(t) + {elm} && Apart(Rooted(t, elm))
  {
    var half := if elm.key < t.n.key then Bin(Leaf, t.n, t.r) else Bin(t.l, t.n, Leaf);
    assert Nodes(half) == {t.n} + if elm.key < t.n.key then Nodes(t.r) else Nodes(t.l);
    assert Apart(half);
  }

  lemma RootedOrder(t: Tree, elm: Node)
    requires Splayed(t, elm.key) && Sorted(InOrder(t)) && elm.key != t.n.key
    ensures Joined(InOrder(t), elm, InOrder(Rooted(t, elm))) && Sorted(InOrder(Rooted(t, elm)))
  {
    RootedSeq(InOrder(t.l), t.n, InOrder(t.r), elm);
    RootedHead(t);
  }

  lemma RootedHead(t: Tree)
    requires t.Bin?
    ensures InOrder(Bin(Leaf, t.n, t.r)) == [t.n] + InOrder(t.r)
    ensures InOrder(Bin(t.l, t.n, Leaf)) == InOrder(t.l) + [t.n]
  {
  }

  lemma RootedSeq(l: seq<Node>, n: Node, r: seq<Node>, x: Node)
    requires Sorted(l + [n] + r)
    ensures Joined(l + [n] + r, x, l + [x] + ([n] + r)) && Joined(l + [n] + r, x, l + [n] + [x] + r)
    ensures Below(l, x.key) && x.key < n.key ==> Sorted(l + [x] + ([n] + r))
    ensures Above(x.key, r) && n.key < x.key ==> Sorted(l + [n] + [x] + r)
  {
    JoinedAt(l, x, [n] + r);
    JoinedAt(l + [n], x, r);
    assert l + ([n] + r) == l + [n] + r;
    SplitAround(l, n, r);
    SplitSorted(l, [n] + r);
    SplitSorted(l + [n], r);
    if Below(l, x.key) && x.key < n.key {
      JoinSorted(l, x, [n] + r);
    }
    if Above(x.key, r) && n.key < x.key {
      JoinSorted(l + [n], x, r);
    }
  }

  lemma JoinSorted(a: seq<Node>, x: Node, b: seq<Node>)
    requires Sorted(a) && Sorted(b) && Below(a, x.key) && Above(x.key, b)
    ensures Sorted(a + [x] + b)
  {
  }

  /** The member after a root is the first of its right subtree. */
  lemma RootPosition(t: Tree, elm: Node)
    requires t.Bin? && Sorted(InOrder(t)) && t.n.key == elm.key && elm in InOrder(t)
    ensures t.n == elm
    ensures forall i | 0 <= i < |InOrder(t)| && InOrder(t)[i] == elm ::
              After(InOrder(t), i) == if t.r.Leaf? then null else InOrder(t.r)[0]
  {
    assert InOrder(t)[|InOrder(t.l)|] == t.n;
  }

  /** SPLAY_REMOVE: what is left without the root. */
  lemma HalvesOrder(t: Tree)
    requires t.Bin? && Sorted(InOrder(t))
    ensures Joined(InOrder(t.l) + InOrder(t.r), t.n, InOrder(t)) && Sorted(InOrder(t.l) + InOrder(t.r))
    ensures Below(InOrder(t.l), t.n.key) && Sorted(InOrder(t.l)) && Sorted(InOrder(t.r))
  {
    SplitAround(InOrder(t.l), t.n, InOrder(t.r));
    JoinedAt(InOrder(t.l), t.n, InOrder(t.r));
    JoinedUnsorted(InOrder(t.l) + InOrder(t.r), t.n, InOrder(t));
  }
}
