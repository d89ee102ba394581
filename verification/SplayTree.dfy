/** SPLAY_HEAD and the SPLAY macros of include/tree.h on the heap. */
module SplayTree {
  import opened Basics
  import opened SplayShape

  ghost predicate Rep(t: Tree)
    reads Nodes(t)
  {
    t.Bin? ==> t.n.left == Root(t.l) && t.n.right == Root(t.r) && Rep(t.l) && Rep(t.r)
  }

  /** The links of an accumulator; what the innermost node has on side d is left open. */
  ghost predicate AccRep(d: Dir, a: Acc)
    reads AccNodes(a)
  {
    a.Snoc? ==>
      && a.n.Kid(d.Flip()) == Root(a.sub) && Rep(a.sub)
      && (a.prev.Snoc? ==> a.prev.n in AccNodes(a.prev) && a.prev.n.Kid(d) == a.n)
      && AccRep(d, a.prev)
  }

  function Outermost(a: Acc): Node
    requires a.Snoc?
  {
    if a.prev.Nil? then a.n else Outermost(a.prev)
  }

  /** Once its open place holds t, an accumulator is an ordinary tree. */
  lemma {:induction false} CloseRep(d: Dir, a: Acc, t: Tree)
    requires AccRep(d, a) && Rep(t) && (a.Snoc? ==> a.n.Kid(d) == Root(t))
    requires AccApart(a) && Apart(t) && AccNodes(a) !! Nodes(t)
    ensures Rep(Close(d, a, t)) && Apart(Close(d, a, t)) && Nodes(Close(d, a, t)) == AccNodes(a) + Nodes(t)
    ensures Root(Close(d, a, t)) == if a.Nil? then Root(t) else Outermost(a)
    decreases a
  {
    if a.Snoc? {
      CloseRep(d, a.prev, Mk(d, t, a.n, a.sub));
    }
  }

  class SplayTree {
    var root: Node?
    ghost var nodes: set<Node>
    ghost var shape: Tree

    ghost predicate At(t: Tree)
      reads this, nodes
    {
      Nodes(t) == nodes && Apart(t) && root == Root(t) && Rep(t)
    }

    ghost predicate Valid()
      reads this, nodes
    {
      At(shape) && Sorted(InOrder(shape))
    }

    /** The members, in ascending order. */
    ghost function Elements(): seq<Node>
      reads this
    {
      InOrder(shape)
    }

    constructor ()
      ensures Valid() && Elements() == [] && nodes == {}
    {
      root, nodes, shape := null, {}, Leaf;
    }

    /** Inside SPLAY: t hangs from the root, the accumulators from the local node `dummy`. */
    ghost predicate Open(t: Tree, c: Accs, dummy: Node)
      reads this, nodes, dummy
    {
      && Nodes(t) + AccsNodes(c) == nodes && Nodes(t) !! AccsNodes(c) && dummy !in nodes
      && Apart(t) && root == Root(t) && Rep(t) && AccsRep(c, dummy)
    }

    /** SPLAY_ROTATE_RIGHT (d is L) and SPLAY_ROTATE_LEFT (d is R). */
    method Raise(d: Dir, tmp: Node, ghost t: Tree, ghost c: Accs, ghost dummy: Node)
      requires Open(t, c, dummy) && t.Bin? && Root(Near(t, d)) == tmp
      modifies this`root, nodes
      ensures Open(Raised(d, t), c, dummy)
    {
      RaisedSame(d, t);
      RaisedApart(d, t);
      Turn(d, root, tmp, t);
      root := tmp;
    }

    /** SPLAY_LINKLEFT (d is L) and SPLAY_LINKRIGHT (d is R). */
    method Link(d: Dir, last: Node, ghost t: Tree, ghost c: Accs, ghost dummy: Node) returns (last': Node)
      requires Open(t, c, dummy) && t.Bin? && last == Last(c.Get(d), dummy)
      modifies this`root, nodes, dummy
      ensures Open(Near(t, d), Linked(d, t, c), dummy)
      ensures last' == t.n && last' == Last(Linked(d, t, c).Get(d), dummy)
      ensures Last(Linked(d, t, c).Get(d.Flip()), dummy) == Last(c.Get(d.Flip()), dummy)
    {
      assert Rep(t.l) && Rep(t.r);
      Extend(d, last, root, t, c, dummy);
      last' := root;
      root := root.Kid(d);
    }

    /** SPLAY_ASSEMBLE. */
    method Assemble(node: Node, left: Node, right: Node, ghost t: Tree, ghost c: Accs)
      requires Open(t, c, node) && t.Bin? && left == Last(c.small, node) && right == Last(c.big, node)
      modifies nodes, node
      ensures At(Assembled(t, c))
    {
      assert Rep(t.l) && Rep(t.r);
      CloseAccs(root, node, left, right, t, c);
      CloseRep(R, c.small, t.l);
      CloseRep(L, c.big, t.r);
      root.left := node.right;
      root.right := node.left;
    }

    /** SPLAY: the members stay, in order, and the key or a neighbour of it comes to the root. */
    method Splay(key: int, ghost t0: Tree) returns (ghost t: Tree)
      requires At(t0) && t0.Bin? && Sorted(InOrder(t0))
      modifies this`root, nodes
      ensures At(t) && InOrder(t) == InOrder(t0) && Splayed(t, key)
    {
      var node := new Node(0);
      var left, right := node, node;
      ghost var c := Accs(Nil, Nil);
      t := t0;
      while key != root.key
        invariant Open(t, c, node) && t.Bin? && left == Last(c.small, node) && right == Last(c.big, node)
        invariant fresh(node) && Order(c.small, t, c.big) == InOrder(t0) && Sorted(InOrder(t)) && Parted(c, key)
        decreases Size(t)
      {
        var d := if key < root.key then L else R;
        var tmp := root.Kid(d);
        if tmp == null {
          break;
        }
        t := RaiseIfOuter(d, key, tmp, t, c, node);
        if root.Kid(d) == null {
          break;
        }
        LinkOrder(d, t, c);
        LinkParted(d, t, c, key);
        SplitAround(InOrder(t.l), t.n, InOrder(t.r));
        assert Rep(t.l) && Rep(t.r);
        if d.L? {
          right := Link(L, right, t, c, node);
        } else {
          left := Link(R, left, t, c, node);
        }
        t, c := Near(t, d), Linked(d, t, c);
      }
      AssembledOrder(t, c);
      AssembledSplayed(t, c, key);
      Assemble(node, left, right, t, c);
      t := Assembled(t, c);
    }

    /** The zig-zig rotation: taken when the key lies beyond the child as well. */
    method RaiseIfOuter(d: Dir, key: int, tmp: Node, ghost t: Tree, ghost c: Accs, ghost dummy: Node)
        returns (ghost t': Tree)
      requires Open(t, c, dummy) && t.Bin? && Root(Near(t, d)) == tmp && Sorted(InOrder(t))
      requires if d.L? then key < t.n.key else t.n.key < key
      modifies this`root, nodes
      ensures Open(t', c, dummy) && t'.Bin? && InOrder(t') == InOrder(t) && Size(t') == Size(t)
      ensures if d.L? then key < t'.n.key else t'.n.key < key
    {
      t' := t;
      if if d.L? then key < tmp.key else tmp.key < key {
        RaisedSame(d, t);
        Raise(d, tmp, t, c, dummy);
        t' := Raised(d, t);
      }
    }

    /** SPLAY_INSERT: the new node joins the others in its place, or an equal one is returned. */
    method Insert(elm: Node) returns (r: Node?)
      requires Valid()
      modifies this, elm, nodes
      ensures Valid()
      ensures r != null ==> r in Elements() && r.key == elm.key && Elements() == old(Elements())
      ensures r == null ==> elm !in old(Elements()) && Joined(old(Elements()), elm, Elements())
    {
      r := null;
      if root == null {
        elm.left, elm.right := null, null;
        shape := Bin(Leaf, elm, Leaf);
        JoinedAt([], elm, []);
      } else {
        shape := Splay(elm.key, shape);
        InOrderNodes(shape);
        SplayedFinds(shape, elm.key);
        assert shape.n in InOrder(shape);
        if elm.key == root.key {
          return root;
        }
        InsertAbove(elm);
        return null;
      }
      root := elm;
      nodes := nodes + {elm};
    }

    /** The new node above the splayed tree. */
    method InsertAbove(elm: Node)
      requires Valid() && shape.Bin? && elm !in nodes && elm.key != shape.n.key && Splayed(shape, elm.key)
      modifies this, elm, nodes
      ensures Valid() && Joined(old(Elements()), elm, Elements())
    {
      RootedOrder(shape, elm);
      Split(elm, shape);
      shape := Rooted(shape, elm);
      root := elm;
      nodes := nodes + {elm};
    }

    /** The new node becomes the root, the old root the head of one of its subtrees. */
    method Split(elm: Node, ghost t: Tree)
      requires At(t) && t.Bin? && elm !in nodes && elm.key != t.n.key
      modifies elm, root
      ensures Nodes(Rooted(t, elm)) == nodes + {elm} && Apart(Rooted(t, elm)) && Rep(Rooted(t, elm))
    {
      RootedApart(t, elm);
      assert Rep(t.l) && Rep(t.r) && Nodes(t.l) <= nodes && Nodes(t.r) <= nodes;
      if elm.key < root.key {
        elm.left := root.left;
        elm.right := root;
        root.left := null;
        assert Rep(Bin(Leaf, t.n, t.r));
      } else {
        elm.right := root.right;
        elm.left := root;
        root.right := null;
        assert Rep(Bin(t.l, t.n, Leaf));
      }
    }

    /** SPLAY_REMOVE: if a member has the key of elm, exactly that one goes.  The source returns its own argument, which
        is the node that went exactly if it was a member. */
    method Remove(elm: Node) returns (r: Node?)
      requires Valid()
      modifies this, nodes
      ensures Valid()
      ensures r == null ==> Elements() == old(Elements()) && forall x | x in Elements() :: x.key != elm.key
      ensures r != null ==> r == elm && exists x | x in old(Elements()) ::
                  x.key == elm.key && Joined(Elements(), x, old(Elements()))
      ensures r != null ==> (Joined(Elements(), r, old(Elements())) <==> elm in old(Elements()))
    {
      if root == null {
        return null;
      }
      shape := Splay(elm.key, shape);
      SplayedFinds(shape, elm.key);
      if elm.key != root.key {
        return null;
      }
      r := elm;
      ghost var t := shape;
      HalvesOrder(t);
      assert t.n in InOrder(t);
      OneOfKey(InOrder(t), t.n, elm);
      RemoveRoot(elm.key, t);
      JoinedMember(Elements(), elm, InOrder(t));
    }

    /** Unlinks the root. */
    method RemoveRoot(key: int, ghost t: Tree)
      requires At(t) && t.Bin? && Sorted(InOrder(t)) && t.n.key == key
      modifies this, nodes
      ensures Valid() && Elements() == InOrder(t.l) + InOrder(t.r)
    {
      HalvesOrder(t);
      assert Rep(t.l) && Rep(t.r);
      var tmp := root.right;
      if root.left == null {
        root, nodes, shape := tmp, Nodes(t.r), t.r;
      } else {
        root, nodes := root.left, Nodes(t.l);
        shape := Meld(key, tmp, t.l, t.r, Nodes(t.r));
      }
    }

    /** The left part, splayed for a key above all of it, has no right child at its root: there the
        right part is hung, and no node is lost. */
    method Meld(key: int, tmp: Node?, ghost l: Tree, ghost r: Tree, ghost rest: set<Node>) returns (ghost t: Tree)
      requires At(l) && l.Bin? && Sorted(InOrder(l)) && Below(InOrder(l), key)
      requires rest == Nodes(r) && nodes !! rest && Apart(r) && Rep(r) && tmp == Root(r)
      modifies this`root, this`nodes, nodes
      ensures At(t) && InOrder(t) == InOrder(l) + InOrder(r)
    {
      ghost var s := Splay(key, l);
      assert Rep(r);
      SplayedMax(s, key);
      assert Rep(s.l) && Apart(s.l);
      root.right := tmp;
      nodes := nodes + rest;
      t := Bin(s.l, s.n, r);
    }

    /** SPLAY_FIND. */
    method Find(key: int) returns (r: Node?)
      requires Valid()
      modifies this`root, this`shape, nodes
      ensures Valid() && Elements() == old(Elements())
      ensures r != null ==> r in Elements() && r.key == key
      ensures r == null ==> forall x | x in Elements() :: x.key != key
    {
      if root == null {
        return null;
      }
      shape := Splay(key, shape);
      SplayedFinds(shape, key);
      assert shape.n in InOrder(shape);
      r := if key == root.key then root else null;
    }

    /** SPLAY_MINMAX: the first (L) or last (R) member comes to the root. */
    method MinMax(d: Dir) returns (r: Node?)
      requires Valid()
      modifies this`root, this`shape, nodes
      ensures Valid() && Elements() == old(Elements())
      ensures var e := Elements(); r == if e == [] then null else if d.L? then e[0] else e[|e| - 1]
    {
      if root == null {
        return null;
      }
      shape := Pull(d, shape);
      r := root;
    }

    /** The loop of SPLAY_MINMAX: like SPLAY for a key beyond every member. */
    method Pull(d: Dir, ghost t0: Tree) returns (ghost t: Tree)
      requires At(t0) && t0.Bin?
      modifies this`root, nodes
      ensures At(t) && InOrder(t) == InOrder(t0) && t.Bin? && Near(t, d).Leaf?
    {
      var node := new Node(0);
      var last := node;
      ghost var c := Accs(Nil, Nil);
      t := t0;
      while root.Kid(d) != null
        invariant Open(t, c, node) && t.Bin? && last == Last(c.Get(d), node) && c.Get(d.Flip()).Nil?
        invariant fresh(node) && Order(c.small, t, c.big) == InOrder(t0)
        decreases Near(t, d).Bin?, Size(t)
      {
        last, t, c := PullStep(d, last, t, c, node);
      }
      t := AssemblePulled(d, node, last, t, c);
    }

    /** One round.  Where the source breaks out after the rotation, the loop test fails as well. */
    method PullStep(d: Dir, last: Node, ghost t: Tree, ghost c: Accs, ghost dummy: Node)
        returns (last': Node, ghost t': Tree, ghost c': Accs)
      requires Open(t, c, dummy) && t.Bin? && Near(t, d).Bin? && last == Last(c.Get(d), dummy)
      modifies this`root, nodes, dummy
      ensures Open(t', c', dummy) && t'.Bin? && last' == Last(c'.Get(d), dummy)
      ensures Order(c'.small, t', c'.big) == Order(c.small, t, c.big) && c'.Get(d.Flip()) == c.Get(d.Flip())
      ensures Near(t', d).Leaf? || Size(t') < Size(t)
    {
      RaisedSame(d, t);
      assert root.Kid(d) == Near(t, d).n;
      Raise(d, root.Kid(d), t, c, dummy);
      last', t', c' := last, Raised(d, t), c;
      if root.Kid(d) != null {
        LinkOrder(d, t', c);
        last' := Link(d, last, t', c, dummy);
        t', c' := Near(t', d), Linked(d, t', c);
      }
    }

    method AssemblePulled(d: Dir, node: Node, last: Node, ghost t0: Tree, ghost c: Accs) returns (ghost t: Tree)
      requires Open(t0, c, node) && t0.Bin? && last == Last(c.Get(d), node) && c.Get(d.Flip()).Nil?
      requires Near(t0, d).Leaf?
      modifies nodes, node
      ensures At(t) && InOrder(t) == Order(c.small, t0, c.big) && t.Bin? && Near(t, d).Leaf?
    {
      AssembledOrder(t0, c);
      if d.L? {
        Assemble(node, node, last, t0, c);
      } else {
        Assemble(node, last, node, t0, c);
      }
      t := Assembled(t0, c);
    }

    /** SPLAY_NEXT: splays a member up and returns the one after it. */
    method Next(elm: Node) returns (r: Node?)
      requires Valid() && elm in Elements()
      modifies this`root, this`shape, nodes
      ensures Valid() && Elements() == old(Elements())
      ensures forall i | 0 <= i < |Elements()| && Elements()[i] == elm :: r == After(Elements(), i)
    {
      assert shape.Bin?;
      shape := Splay(elm.key, shape);
      SplayedFinds(shape, elm.key);
      RootPosition(shape, elm);
      assert Rep(shape.l) && Rep(shape.r);
      r := elm.right;
      if r != null {
        r := Leftmost(r, shape.r);
      }
    }

    method Leftmost(elm: Node, ghost t0: Tree) returns (r: Node)
      requires Rep(t0) && Root(t0) == elm
      ensures InOrder(t0)[0] == r
    {
      r := elm;
      ghost var t := t0;
      while r.left != null
        invariant Rep(t) && Root(t) == r && InOrder(t) <= InOrder(t0)
        decreases t
      {
        r, t := r.left, t.l;
      }
    }

    /** SPLAY_FOREACH visits every member once, in order, though each step reshapes the tree. */
    method Foreach() returns (visited: seq<Node>)
      requires Valid()
      modifies this`root, this`shape, nodes
      ensures Valid() && Elements() == old(Elements()) && visited == Elements()
    {
      ghost var e := Elements();
      var x := MinMax(L);
      visited := [];
      while x != null
        invariant Valid() && Elements() == e
        invariant |visited| <= |e| && visited == e[..|visited|]
        invariant x == if |visited| == |e| then null else e[|visited|]
        decreases |e| - |visited|
      {
        var y := Next(x);
        assert y == After(e, |visited|);
        visited, x := visited + [x], y;
      }
    }
  }

  /** The links that a rotation moves. */
  method Turn(d: Dir, elm: Node, tmp: Node, ghost t: Tree)
    requires Apart(t) && Rep(t) && Root(t) == elm && Near(t, d).Bin? && Near(t, d).n == tmp
    modifies elm, tmp
    ensures Rep(Raised(d, t))
  {
    ghost var y := Near(t, d);
    assert Rep(y) && Apart(y) && Rep(Near(y, d)) && Rep(Near(y, d.Flip())) && Rep(Near(t, d.Flip()));
    assert Nodes(y) == Nodes(Near(y, d)) + {tmp} + Nodes(Near(y, d.Flip()));
    if d.L? {
      elm.left := tmp.right;
      tmp.right := elm;
    } else {
      elm.right := tmp.left;
      tmp.left := elm;
    }
  }

  ghost function AccsNodes(c: Accs): set<Node> {
    AccNodes(c.small) + AccNodes(c.big)
  }

  /** Both accumulators on the heap, with their outermost nodes hanging from `dummy`. */
  ghost predicate AccsRep(c: Accs, dummy: Node)
    reads AccsNodes(c), dummy
  {
    && AccNodes(c.small) !! AccNodes(c.big) && dummy !in AccsNodes(c)
    && AccApart(c.small) && AccApart(c.big)
    && AccRep(R, c.small) && AccRep(L, c.big)
    && (c.small.Snoc? ==> dummy.right == Outermost(c.small))
    && (c.big.Snoc? ==> dummy.left == Outermost(c.big))
  }

  /** The open place of an accumulator takes the node n with its outer subtree. */
  method Extend(d: Dir, last: Node, n: Node, ghost t: Tree, ghost c: Accs, ghost dummy: Node)
    requires AccsRep(c, dummy) && last == Last(c.Get(d), dummy)
    requires Root(t) == n && Apart(t) && Rep(t) && Nodes(t) !! AccsNodes(c) && dummy !in Nodes(t)
    modifies last
    ensures AccsRep(Linked(d, t, c), dummy)
  {
    ghost var a, b := c.Get(d), Near(t, d.Flip());
    assert Rep(b) && Nodes(b) <= Nodes(t) && Nodes(Near(t, d)) <= Nodes(t);
    assert a.Snoc? ==> last in AccNodes(a) && Rep(a.sub) && AccRep(d, a.prev);
    assert AccRep(d, a) && AccRep(d.Flip(), c.Get(d.Flip())) && last !in AccNodes(c.Get(d.Flip()));
    if d.L? {
      last.left := n;
    } else {
      last.right := n;
    }
    assert Rep(b) && AccRep(d.Flip(), c.Get(d.Flip()));
    assert AccRep(d, Snoc(a, n, b));
  }

  /** The first two assignments of SPLAY_ASSEMBLE fill the open places. */
  method CloseAccs(root: Node, node: Node, left: Node, right: Node, ghost t: Tree, ghost c: Accs)
    requires AccsRep(c, node) && left == Last(c.small, node) && right == Last(c.big, node)
    requires Root(t) == root && Rep(t) && Apart(t) && Nodes(t) !! AccsNodes(c) && node !in Nodes(t)
    modifies left, right
    ensures Rep(t) && AccsRep(c, node) && left.right == Root(t.l) && right.left == Root(t.r)
  {
    assert c.small.Snoc? ==> left in AccNodes(c.small) && Rep(c.small.sub) && AccRep(R, c.small.prev);
    assert c.big.Snoc? ==> right in AccNodes(c.big) && Rep(c.big.sub) && AccRep(L, c.big.prev);
    left.right := root.left;
    right.left := root.right;
  }

  /** SPLAY_REMOVE with a node that is no member but has the key of one: the node returned is not the node that went. */
  method RemovesAnother(key: int) returns (went: Node, returned: Node?, ghost was: seq<Node>, ghost now: seq<Node>)
    ensures returned != null && returned != went
    ensures Joined(now, went, was) && !Joined(now, returned, was)
  {
    var tree := new SplayTree();
    went := new Node(key);
    var other := new Node(key);
    var equal := tree.Insert(went);
    was := tree.Elements();
    JoinedOne(went, was);
    InOrderNodes(tree.shape);
    assert tree.nodes == {went};
    returned := tree.Remove(other);
    now := tree.Elements();
  }

  lemma JoinedOne(x: Node, now: seq<Node>)
    requires Joined([], x, now)
    ensures now == [x]
  {
  }

  function Last(a: Acc, dummy: Node): Node {
    if a.Nil? then dummy else a.n
  }
}
