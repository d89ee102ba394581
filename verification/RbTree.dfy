/** RB_HEAD and the RB macros of include/tree.h on the heap.  Every method names, in
    ghost arguments, the shape the heap has: a subtree and the path from it to the root. */
module RbTree {
  import opened Basics
  import opened RbShape

  /** The subtree's nodes hold exactly the pointers and colours of t; its root hangs below p. */
  ghost predicate Rep(t: Tree, p: Node?)
    reads Nodes(t)
  {
    t.Bin? ==>
      && t.n.left == Root(t.l) && t.n.right == Root(t.r) && t.n.parent == p && t.n.red == t.red
      && Rep(t.l, t.n) && Rep(t.r, t.n)
  }

  /** The same for the rest of the tree, around a subtree rooted at `hole`. */
  ghost predicate PathRep(p: Path, hole: Node?)
    reads PathNodes(p)
  {
    p.Step? ==>
      && p.n.Kid(p.d) == hole && p.n.Kid(p.d.Flip()) == Root(p.other)
      && p.n.parent == Owner(p.up) && p.n.red == p.red
      && Rep(p.other, p.n) && PathRep(p.up, p.n)
  }

  function Apex(p: Path, hole: Node?): Node? {
    if p.Top? then hole else Apex(p.up, p.n)
  }

  lemma ApexIn(p: Path, hole: Node?)
    ensures p.Step? ==> Apex(p, hole) in PathNodes(p)
  {
  }

  class RbTree {
    var root: Node?
    ghost var nodes: set<Node>

    /** The heap is the tree Plug(t, p), with the cursor at t. */
    ghost predicate At(t: Tree, p: Path)
      reads this, nodes
    {
      && Nodes(t) + PathNodes(p) == nodes
      && Nodes(t) !! PathNodes(p) && Apart(t) && PathApart(p)
      && root == Apex(p, Root(t))
      && Rep(t, Owner(p)) && PathRep(p, Root(t))
    }

    /** Moving the cursor changes nothing. */
    lemma Move(t: Tree, d: Dir, n: Node, red: bool, other: Tree, up: Path)
      ensures At(t, Step(d, n, red, other, up)) <==> At(Mk(d, t, n, red, other), up)
    {
    }

    lemma {:induction false} Zip(t: Tree, p: Path)
      requires At(t, p)
      ensures At(Plug(t, p), Top)
      decreases p
    {
      if p.Step? {
        Move(t, p.d, p.n, p.red, p.other, p.up);
        Zip(Mk(p.d, t, p.n, p.red, p.other), p.up);
      }
    }

    /** What the fields around the parent say. */
    lemma Around(t: Tree, p: Path)
      requires At(t, p) && p.Step?
      ensures (Root(t) == p.n.left ==> t.Leaf? || p.d.L?) && p.n.Kid(p.d) == Root(t) && p.n in nodes
      ensures p.n.Kid(p.d.Flip()) == Root(p.other) && p.n.parent == Owner(p.up) && p.n.red == p.red
      ensures p.other.Bin? ==> p.other.n.red == p.other.red && p.other.n in nodes
      ensures p.other.Bin? ==> p.other.n.left == Root(p.other.l) && p.other.n.right == Root(p.other.r)
    {
      assert t.Bin? ==> t.n in Nodes(t);
      assert p.other.Bin? ==> p.other.n in Nodes(p.other);
    }

    lemma Nephews(t: Tree, p: Path)
      requires At(t, p) && p.Step? && p.other.Bin?
      ensures var s := p.other;
              && (IsRed(s.l) <==> s.n.left != null && s.n.left.red)
              && (IsRed(s.r) <==> s.n.right != null && s.n.right.red)
    {
      var s := p.other;
      assert Rep(s, p.n) && Rep(s.l, s.n) && Rep(s.r, s.n);
    }

    /** Hangs `now` where `was` hung: the child slot of the parent, or the root. */
    method Replace(was: Node, now: Node?, parent: Node?, ghost p: Path)
      requires PathRep(p, was) && PathApart(p) && was !in PathNodes(p)
      requires root == Apex(p, was) && parent == Owner(p)
      modifies this`root, PathNodes(p)
      ensures PathRep(p, now) && root == Apex(p, now)
    {
      if parent != null {
        if parent.left == was {
          parent.left := now;
        } else {
          parent.right := now;
        }
      } else {
        root := now;
      }
    }

    /** RB_ROTATE_LEFT: the links inside the subtree, then its parent's. */
    method RotateLeft(elm: Node, ghost t: Tree, ghost p: Path)
      requires At(t, p) && Root(t) == elm && t.r.Bin?
      modifies this`root, nodes
      ensures At(Rotated(L, t), p)
    {
      RotatedSame(L, t);
      RotatedApart(L, t);
      var tmp, parent := elm.right, elm.parent;
      TurnLeft(elm, tmp, t);
      Replace(elm, tmp, parent, p);
    }

    /** RB_ROTATE_RIGHT. */
    method RotateRight(elm: Node, ghost t: Tree, ghost p: Path)
      requires At(t, p) && Root(t) == elm && t.l.Bin?
      modifies this`root, nodes
      ensures At(Rotated(R, t), p)
    {
      RotatedSame(R, t);
      RotatedApart(R, t);
      var tmp, parent := elm.left, elm.parent;
      TurnRight(elm, tmp, t);
      Replace(elm, tmp, parent, p);
    }

    method Rotate(d: Dir, elm: Node, ghost t: Tree, ghost p: Path)
      requires At(t, p) && Root(t) == elm && Near(t, d.Flip()).Bin?
      modifies this`root, nodes
      ensures At(Rotated(d, t), p)
    {
      if d.L? {
        RotateLeft(elm, t, p);
      } else {
        RotateRight(elm, t, p);
      }
    }

    /** RB_COLOR(elm) = red, with the cursor at elm. */
    method Paint(elm: Node, red: bool, ghost t: Tree, ghost p: Path)
      requires At(t, p) && Root(t) == elm
      modifies nodes
      ensures At(t.(red := red), p)
    {
      elm.red := red;
    }

    // ------------------------------------------------------------ insertion

    /** Red uncle. */
    method PushRedUp(parent: Node, gparent: Node, uncle: Node, ghost t: Tree, ghost p: Path)
      requires At(t, p) && p.Step? && p.up.Step? && p.n == parent && p.up.n == gparent && Root(p.up.other) == uncle
      modifies this`root, nodes
      ensures At(PushUp(t, p), p.up.up)
    {
      ghost var q := p.up;
      ghost var u := Mk(p.d, t, parent, p.red, p.other);
      Move(t, p.d, p.n, p.red, p.other, q);
      Move(u, q.d, q.n, q.red, q.other, q.up);
      Move(q.other, q.d.Flip(), q.n, q.red, u, q.up);
      ghost var c := Blacken(q.other);
      Paint(uncle, false, q.other, Step(q.d.Flip(), q.n, q.red, u, q.up));
      Move(c, q.d.Flip(), q.n, q.red, u, q.up);
      Move(u, q.d, q.n, q.red, c, q.up);
      Paint(parent, false, u, Step(q.d, q.n, q.red, c, q.up));
      u := Mk(p.d, t, parent, false, p.other);
      Move(u, q.d, q.n, q.red, c, q.up);
      Paint(gparent, true, Mk(q.d, u, q.n, q.red, c), q.up);
    }

    /** Black uncle, outer child: SET_BLACKRED, then the rotation at the grandparent. */
    method RotateOuter(d: Dir, parent: Node, gparent: Node, ghost t: Tree, ghost p: Path)
      requires At(t, p) && p.Step? && p.up.Step? && p.n == parent && p.up.n == gparent && p.d == p.up.d == d
      modifies this`root, nodes
      ensures At(t, Step(d, parent, false, Mk(d, p.other, gparent, true, p.up.other), p.up.up))
    {
      ghost var q := p.up;
      ghost var u := Mk(d, t, parent, p.red, p.other);
      Move(t, d, parent, p.red, p.other, q);
      Paint(parent, false, u, q);
      u := Mk(d, t, parent, false, p.other);
      Move(u, d, gparent, q.red, q.other, q.up);
      Paint(gparent, true, Mk(d, u, gparent, q.red, q.other), q.up);
      Rotate(d.Flip(), gparent, Mk(d, u, gparent, true, q.other), q.up);
      Move(t, d, parent, false, Mk(d, p.other, gparent, true, q.other), q.up);
    }

    /** Black uncle, inner child: the first rotation. */
    method RotateInner(d: Dir, elm: Node, parent: Node, ghost t: Tree, ghost p: Path)
      requires At(t, p) && Root(t) == elm && p.Step? && p.n == parent && p.d == d.Flip()
      modifies this`root, nodes
      ensures At(Mk(d, p.other, parent, p.red, Near(t, d)), Step(d, elm, t.red, Near(t, d.Flip()), p.up))
    {
      Move(t, p.d, parent, p.red, p.other, p.up);
      Rotate(d, parent, Mk(p.d, t, parent, p.red, p.other), p.up);
      Move(Mk(d, p.other, parent, p.red, Near(t, d)), d, elm, t.red, Near(t, d.Flip()), p.up);
    }

    /** One round of the loop, at a red node with a red parent. */
    method InsertStep(elm: Node, parent0: Node, ghost t: Tree, ghost p: Path)
        returns (elm': Node, ghost t': Tree, ghost p': Path)
      requires At(t, p) && InsertInv(t, p) && Root(t) == elm && p.Step? && p.n == parent0 && p.red
      modifies this`root, nodes
      ensures At(t', p') && InsertInv(t', p') && Root(t') == elm'
      ensures Order(t', p') == Order(t, p) && Len(p') < Len(p)
    {
      Grandparent(t, p);
      Around(t, p);
      Move(t, p.d, p.n, p.red, p.other, p.up);
      Around(Mk(p.d, t, p.n, p.red, p.other), p.up);
      var parent, gparent := parent0, parent0.parent;
      var d := if parent == gparent.left then L else R;
      var tmp := gparent.Kid(d.Flip());
      elm', t', p' := elm, t, p;
      if tmp != null && tmp.red {
        PushUpInv(t, p);
        PushRedUp(parent, gparent, tmp, t, p);
        elm', t', p' := gparent, PushUp(t, p), p.up.up;
        return;
      }
      if parent.Kid(d.Flip()) == elm {
        InnerInv(t, p);
        RotateInner(d, elm, parent, t, p);
        t', p' := Mk(d, p.other, parent, true, Near(t, d)), Step(d, elm, true, Near(t, d.Flip()), p.up);
        elm', parent := parent, elm;
      }
      OuterInv(t', p');
      RotateOuter(d, parent, gparent, t', p');
      p' := Step(d, parent, false, Mk(d, p'.other, gparent, true, p'.up.other), p'.up.up);
    }

    /** RB_INSERT_COLOR. */
    method InsertColor(elm0: Node, ghost t0: Tree, ghost p0: Path) returns (ghost s: Tree)
      requires At(t0, p0) && InsertInv(t0, p0) && Root(t0) == elm0
      modifies this`root, nodes
      ensures At(s, Top) && Ok(s) && !IsRed(s) && InOrder(s) == Order(t0, p0)
    {
      var elm := elm0;
      ghost var t, p := t0, p0;
      while elm.parent != null && elm.parent.red
        invariant At(t, p) && InsertInv(t, p) && Root(t) == elm
        invariant Order(t, p) == Order(t0, p0)
        decreases Len(p)
      {
        elm, t, p := InsertStep(elm, elm.parent, t, p);
      }
      InsertDone(t, p);
      Zip(t, p);
      s := Blacken(Plug(t, p));
      Paint(root, false, Plug(t, p), Top);
    }

    // ------------------------------------------------------------ removal

    /** Red sibling. */
    method LowerRedSibling(d: Dir, parent: Node, tmp: Node, ghost t: Tree, ghost p: Path)
      requires At(t, p) && p.Step? && p.d == d && p.n == parent && p.other.Bin? && p.other.n == tmp
      requires RemoveInv(t, p) && IsRed(p.other) && !IsRed(t)
      modifies this`root, nodes
      ensures At(t, Step(d, parent, true, Near(p.other, d), Step(d, tmp, false, Near(p.other, d.Flip()), p.up)))
    {
      RedSiblingInv(t, p);
      ghost var s, c := p.other, Blacken(p.other);
      Swap(t, p);
      Paint(tmp, false, s, Step(d.Flip(), parent, p.red, t, p.up));
      Move(c, d.Flip(), parent, p.red, t, p.up);
      Paint(parent, true, Mk(d, t, parent, p.red, c), p.up);
      Rotate(d, parent, Mk(d, t, parent, true, c), p.up);
      ghost var up := Step(d, tmp, false, Near(s, d.Flip()), p.up);
      Move(Mk(d, t, parent, true, Near(s, d)), d, tmp, false, Near(s, d.Flip()), p.up);
      Move(t, d, parent, true, Near(s, d), up);
    }

    /** The cursor steps over to the sibling. */
    lemma Swap(t: Tree, p: Path)
      requires p.Step?
      ensures At(t, p) <==> At(p.other, Step(p.d.Flip(), p.n, p.red, t, p.up))
    {
      Move(t, p.d, p.n, p.red, p.other, p.up);
      Move(p.other, p.d.Flip(), p.n, p.red, t, p.up);
    }

    /** Black sibling with only its inner child red. */
    method StraightenSibling(d: Dir, tmp: Node, ghost t: Tree, ghost p: Path)
      requires At(t, p) && p.Step? && p.d == d && p.other.Bin? && p.other.n == tmp && IsRed(Near(p.other, d))
      requires RemoveInv(t, p) && !IsRed(p.other) && !IsRed(t) && !IsRed(Near(p.other, d.Flip()))
      modifies this`root, nodes
      ensures At(t, p.(other := Straightened(d, p.other)))
    {
      InnerNephewInv(t, p);
      ghost var s, q := p.other, Step(d.Flip(), p.n, p.red, t, p.up);
      ghost var y, o := Near(s, d), Near(s, d.Flip());
      Swap(t, p);
      Move(y, d, tmp, s.red, o, q);
      var oleft := tmp.Kid(d);
      if oleft != null {
        Paint(oleft, false, y, Step(d, tmp, s.red, o, q));
      }
      Move(Blacken(y), d, tmp, s.red, o, q);
      Paint(tmp, true, Mk(d, Blacken(y), tmp, s.red, o), q);
      Rotate(d.Flip(), tmp, Mk(d, Blacken(y), tmp, true, o), q);
      Swap(t, p.(other := Straightened(d, s)));
    }

    /** Outer nephew red: the sibling takes the parent's colour, the last rotation follows. */
    method FinalRotation(d: Dir, parent: Node, tmp: Node, ghost t: Tree, ghost p: Path)
      requires At(t, p) && p.Step? && p.d == d && p.n == parent && p.other.Bin? && p.other.n == tmp
      requires IsRed(Near(p.other, d.Flip()))
      modifies this`root, nodes
      ensures var s := p.other;
              At(Rotated(d, Mk(d, t, parent, false, Mk(d, Near(s, d), tmp, p.red, Blacken(Near(s, d.Flip()))))), p.up)
    {
      ghost var s := p.other;
      ghost var o := Near(s, d.Flip());
      Around(t, p);
      Swap(t, p);
      Paint(tmp, parent.red, s, Step(d.Flip(), parent, p.red, t, p.up));
      s := s.(red := p.red);
      Move(s, d.Flip(), parent, p.red, t, p.up);
      Paint(parent, false, Mk(d, t, parent, p.red, s), p.up);
      Move(s, d.Flip(), parent, false, t, p.up);
      ghost var q := Step(d.Flip(), parent, false, t, p.up);
      Move(o, d.Flip(), tmp, p.red, Near(s, d), q);
      if tmp.Kid(d.Flip()) != null {
        Paint(tmp.Kid(d.Flip()), false, o, Step(d.Flip(), tmp, p.red, Near(s, d), q));
      }
      Move(Blacken(o), d.Flip(), tmp, p.red, Near(s, d), q);
      s := Mk(d, Near(s, d), tmp, p.red, Blacken(o));
      Move(s, d.Flip(), parent, false, t, p.up);
      Rotate(d, parent, Mk(d, t, parent, false, s), p.up);
    }

    /** Black sibling with a red child: after at most two rotations the tree is whole again. */
    method Finish(d: Dir, parent: Node, tmp0: Node, ghost t: Tree, ghost p0: Path) returns (ghost s: Tree)
      requires At(t, p0) && p0.Step? && p0.d == d && p0.n == parent && p0.other.Bin? && p0.other.n == tmp0
      requires RemoveInv(t, p0) && !IsRed(t) && !IsRed(p0.other) && (IsRed(p0.other.l) || IsRed(p0.other.r))
      modifies this`root, nodes
      ensures At(s, Top) && Ok(s) && !IsRed(s) && InOrder(s) == Order(t, p0)
    {
      var tmp := tmp0;
      ghost var p := p0;
      Nephews(t, p);
      if tmp.Kid(d.Flip()) == null || !tmp.Kid(d.Flip()).red {
        InnerNephewInv(t, p);
        StraightenSibling(d, tmp, t, p);
        p := p.(other := Straightened(d, p.other));
        Around(t, p);
        tmp := parent.Kid(d.Flip());
      }
      OuterNephewInv(t, p);
      FinalRotation(d, parent, tmp, t, p);
      ghost var w := Mk(d, Near(p.other, d), tmp, p.red, Blacken(Near(p.other, d.Flip())));
      s := Rotated(d, Mk(d, t, parent, false, w));
      Zip(s, p.up);
      s := Plug(s, p.up);
    }

    /** Black sibling with black children. */
    method Redden(d: Dir, parent: Node, tmp: Node, ghost t: Tree, ghost p: Path)
      requires At(t, p) && p.Step? && p.d == d && p.n == parent && p.other.Bin? && p.other.n == tmp
      modifies nodes
      ensures At(Mk(d, t, parent, p.red, p.other.(red := true)), p.up)
    {
      Swap(t, p);
      Paint(tmp, true, p.other, Step(d.Flip(), parent, p.red, t, p.up));
      Move(p.other.(red := true), d.Flip(), parent, p.red, t, p.up);
    }

    lemma RootAbove(t: Tree, p: Path)
      requires At(t, p) && p.Step?
      ensures root != null && root != Root(t)
    {
      ApexIn(p, Root(t));
      assert t.Bin? ==> t.n in Nodes(t);
    }

    /** The first test of the loop: afterwards the sibling is black. */
    method BlackenSibling(d: Dir, parent: Node, ghost t: Tree, ghost p: Path) returns (tmp: Node, ghost q: Path)
      requires At(t, p) && RemoveInv(t, p) && !IsRed(t) && p.Step? && p.d == d && p.n == parent
      modifies this`root, nodes
      ensures At(t, q) && RemoveInv(t, q) && Order(t, q) == Order(t, p)
      ensures q.Step? && q.d == d && q.n == parent && q.other.Bin? && q.other.n == tmp && !IsRed(q.other)
      ensures if q.red then q.up.Step? else q == p
    {
      SiblingExists(t, p);
      Around(t, p);
      tmp, q := parent.Kid(d.Flip()), p;
      if tmp.red {
        RedSiblingInv(t, p);
        LowerRedSibling(d, parent, tmp, t, p);
        q := Step(d, parent, true, Near(p.other, d), Step(d, tmp, false, Near(p.other, d.Flip()), p.up));
        SiblingExists(t, q);
        Around(t, q);
        tmp := parent.Kid(d.Flip());
      }
    }

    /** The line after the loop. */
    method Settle(elm: Node?, ghost t: Tree, ghost p: Path) returns (ghost s: Tree)
      requires At(t, p) && RemoveInv(t, p) && Root(t) == elm && (p.Step? ==> IsRed(t))
      modifies nodes
      ensures At(s, Top) && Ok(s) && !IsRed(s) && InOrder(s) == Order(t, p)
    {
      if elm != null {
        Paint(elm, false, t, p);
      }
      RemoveDone(t, p);
      Zip(Blacken(t), p);
      s := Plug(Blacken(t), p);
    }

    /** One round of the loop.  Where the source breaks out, elm is the root, so its test fails too. */
    method RemoveStep(elm: Node?, parent: Node, ghost t: Tree, ghost p0: Path)
        returns (elm': Node?, parent': Node?, ghost t': Tree, ghost p': Path)
      requires At(t, p0) && RemoveInv(t, p0) && !IsRed(t) && Root(t) == elm && p0.Step? && p0.n == parent
      modifies this`root, nodes
      ensures At(t', p') && RemoveInv(t', p') && Root(t') == elm' && Owner(p') == parent'
      ensures Order(t', p') == Order(t, p0)
      ensures IsRed(t') || Len(p') < Len(p0)
    {
      SiblingExists(t, p0);
      Around(t, p0);
      var d := if parent.left == elm then L else R;
      var tmp;
      ghost var p;
      tmp, p := BlackenSibling(d, parent, t, p0);
      Nephews(t, p);
      if (tmp.left == null || !tmp.left.red) && (tmp.right == null || !tmp.right.red) {
        BlackSiblingInv(t, p);
        Redden(d, parent, tmp, t, p);
        t', p' := Mk(d, t, parent, p.red, p.other.(red := true)), p.up;
        elm', parent' := parent, parent.parent;
      } else {
        t' := Finish(d, parent, tmp, t, p);
        p' := Top;
        elm', parent' := root, null;
      }
    }

    /** RB_REMOVE_COLOR. */
    method RemoveColor(parent0: Node?, elm0: Node?, ghost t0: Tree, ghost p0: Path) returns (ghost s: Tree)
      requires At(t0, p0) && RemoveInv(t0, p0) && Root(t0) == elm0 && Owner(p0) == parent0
      modifies this`root, nodes
      ensures At(s, Top) && Ok(s) && !IsRed(s) && InOrder(s) == Order(t0, p0)
    {
      var elm, parent := elm0, parent0;
      ghost var t, p := t0, p0;
      while (elm == null || !elm.red) && elm != root
        invariant At(t, p) && RemoveInv(t, p) && Root(t) == elm && Owner(p) == parent
        invariant Order(t, p) == Order(t0, p0)
        decreases if IsRed(t) then 0 else Len(p) + 1
      {
        elm, parent, t, p := RemoveStep(elm, parent, t, p);
      }
      if p.Step? {
        RootAbove(t, p);
      }
      s := Settle(elm, t, p);
    }

    // ------------------------------------------------------------ the operations

    ghost var shape: Tree

    /** The heap is a red-black search tree. */
    ghost predicate Valid()
      reads this, nodes
    {
      At(shape, Top) && Ok(shape) && !IsRed(shape) && Sorted(InOrder(shape))
    }

    /** The members, in ascending order. */
    ghost function Elements(): seq<Node>
      reads this
    {
      InOrder(shape)
    }

    /** RB_INIT. */
    constructor ()
      ensures Valid() && Elements() == []
    {
      root, nodes, shape := null, {}, Leaf;
    }

    /** RB_SET and the link below the parent that the search found. */
    method Link(elm: Node, parent: Node?, d: Dir, ghost p: Path)
      requires At(Leaf, p) && elm !in nodes && parent == Owner(p) && (p.Step? ==> p.d == d)
      modifies this, elm, nodes
      ensures nodes == old(nodes) + {elm} && shape == old(shape)
      ensures At(Bin(Leaf, elm, true, Leaf), p)
    {
      elm.parent, elm.left, elm.right, elm.red := parent, null, null, true;
      if parent != null {
        parent.SetKid(d, elm);
      } else {
        root := elm;
      }
      nodes := nodes + {elm};
    }

    /** The search at the start of RB_INSERT: an equal node, or the empty place for the key. */
    method Place(key: int) returns (found: Node?, parent: Node?, d: Dir, ghost p: Path)
      requires Valid()
      ensures found != null ==> found in Elements() && found.key == key
      ensures found == null ==> At(Leaf, p) && Plug(Leaf, p) == shape && Between(p, key)
      ensures found == null ==> Owner(p) == parent && (p.Step? ==> p.d == d)
    {
      found, parent, d := root, null, L;
      ghost var t;
      t, p := shape, Top;
      while found != null
        invariant At(t, p) && Plug(t, p) == shape && Root(t) == found && Owner(p) == parent
        invariant Between(p, key) && (p.Step? ==> p.d == d)
        decreases t
      {
        parent := found;
        PlugOrder(t, p);
        if key == parent.key {
          return;
        }
        d := if key < parent.key then L else R;
        found := found.Kid(d);
        BetweenStep(t, p, d, key);
        Move(Near(t, d), d, t.n, t.red, Near(t, d.Flip()), p);
        t, p := Near(t, d), Step(d, t.n, t.red, Near(t, d.Flip()), p);
      }
    }

    /** RB_INSERT: the new node joins the others in its place, or an equal one is returned. */
    method Insert(elm: Node) returns (r: Node?)
      requires Valid()
      modifies this, elm, nodes
      ensures Valid()
      ensures r != null ==> r in old(Elements()) && r.key == elm.key
      ensures r != null ==> unchanged(this) && unchanged(elm) && unchanged(old(nodes))
      ensures r == null ==> elm !in old(Elements()) && Joined(old(Elements()), elm, Elements())
    {
      var parent, d;
      ghost var p;
      r, parent, d, p := Place(elm.key);
      if r != null {
        return;
      }
      InsertHere(elm, p);
      ghost var t := Bin(Leaf, elm, true, Leaf);
      Link(elm, parent, d, p);
      shape := InsertColor(elm, t, p);
    }

    /** The cursor moves to a given member. */
    lemma {:induction false} Locate(t: Tree, p: Path, x: Node) returns (t': Tree, p': Path)
      requires At(t, p) && x in Nodes(t)
      ensures At(t', p') && Plug(t', p') == Plug(t, p) && t'.Bin? && t'.n == x
    {
      if t.n == x {
        return t, p;
      }
      var d := if x in Nodes(t.l) then L else R;
      Move(Near(t, d), d, t.n, t.red, Near(t, d.Flip()), p);
      t', p' := Locate(Near(t, d), Step(d, t.n, t.red, Near(t, d.Flip()), p), x);
    }

    lemma {:induction false} MoveBy(t: Tree, s: Path, q: Path)
      ensures At(t, Append(s, q)) <==> At(Plug(t, s), q)
      decreases s
    {
      if s.Step? {
        Move(t, s.d, s.n, s.red, s.other, Append(s.up, q));
        MoveBy(Mk(s.d, t, s.n, s.red, s.other), s.up, q);
      }
    }

    /** Takes out a node with at most one child, which moves up to its place. */
    method Splice(elm: Node, child: Node?, parent: Node?, ghost t: Tree, ghost p: Path)
      requires At(t, p) && Root(t) == elm && (t.l.Leaf? || t.r.Leaf?) && parent == Owner(p)
      requires child == Root(if t.l.Leaf? then t.r else t.l)
      modifies this`root, this`nodes, nodes
      ensures nodes == old(nodes) - {elm} && elm.red == t.red && elm.parent == parent
      ensures At(if t.l.Leaf? then t.r else t.l, p)
    {
      ghost var c := if t.l.Leaf? then t.r else t.l;
      assert Rep(c, elm) && Apart(c);
      assert c.Bin? ==> c.n in Nodes(c);
      if child != null {
        child.parent := parent;
      }
      Replace(elm, child, parent, p);
      nodes := nodes - {elm};
    }

    /** Copies the fields of `was` into the spliced-out node and turns its neighbours to it. */
    method Supplant(was: Node, now: Node, ghost t: Tree, ghost p: Path)
      requires At(t, p) && Root(t) == was && t.l.Bin? && now !in nodes
      modifies this`root, this`nodes, nodes, now
      ensures nodes == old(nodes) - {was} + {now}
      ensures At(t.(n := now), p)
    {
      var parent := was.parent;
      TakeOver(was, now, t);
      Replace(was, now, parent, p);
      nodes := nodes - {was} + {now};
    }

    /** The leftmost node of the right subtree. */
    method Successor(was: Node, ghost t: Tree, ghost p: Path) returns (elm: Node, ghost u: Tree, ghost s: Path)
      requires At(t, p) && Root(t) == was && t.r.Bin?
      ensures Plug(u, s) == t.r && Before(s) == [] && u.Bin? && u.l.Leaf? && u.n == elm && elm == InOrder(t.r)[0]
      ensures At(u, Append(s, Step(R, t.n, t.red, t.l, p)))
    {
      elm := was.right;
      u, s := t.r, Top;
      ghost var q := Step(R, t.n, t.red, t.l, p);
      Move(t.r, R, t.n, t.red, t.l, p);
      while elm.left != null
        invariant At(u, Append(s, q)) && Plug(u, s) == t.r && Root(u) == elm && Before(s) == []
        decreases u
      {
        elm := elm.left;
        Move(u.l, L, u.n, u.red, u.r, Append(s, q));
        u, s := u.l, Step(L, u.n, u.red, u.r, s);
      }
      PlugOrder(u, s);
      assert InOrder(t.r) == Order(u, s) && InOrder(u) == [elm] + InOrder(u.r);
    }

    /** RB_REMOVE: the members are exactly the others, in the same order, in a red-black tree. */
    method Remove(elm: Node) returns (r: Node)
      requires Valid() && elm in Elements()
      modifies this, nodes
      ensures Valid() && r == elm && Joined(Elements(), elm, old(Elements()))
    {
      r := elm;
      InOrderNodes(shape);
      ghost var t, p := Locate(shape, Top, elm);
      PlugOrder(t, p);
      SettledPlug(t, p);
      if elm.left == null || elm.right == null {
        var child := if elm.left == null then elm.right else elm.left;
        var parent, red := elm.parent, elm.red;
        SpliceInv(t, p);
        SpliceOrder(t, p);
        Splice(elm, child, parent, t, p);
        t := if t.l.Leaf? then t.r else t.l;
        RemoveRest(red, parent, child, t, p);
        JoinedUnsorted(Order(t, p), elm, old(InOrder(shape)));
      } else {
        RemoveInner(elm, t, p);
      }
    }

    /** The label `color` at the end of RB_REMOVE. */
    method RemoveRest(red: bool, parent: Node?, child: Node?, ghost t: Tree, ghost p: Path)
      requires At(t, p) && Root(t) == child && Owner(p) == parent
      requires if red then Settled(t, p) else RemoveInv(t, p)
      modifies this`root, this`shape, nodes
      ensures At(shape, Top) && Ok(shape) && !IsRed(shape) && InOrder(shape) == Order(t, p)
    {
      if !red {
        shape := RemoveColor(parent, child, t, p);
      } else {
        Zip(t, p);
        SettledPlug(t, p);
        PlugOrder(t, p);
        shape := Plug(t, p);
      }
    }

    /** The case of two children. */
    method RemoveInner(was: Node, ghost t: Tree, ghost p: Path)
      requires At(t, p) && Root(t) == was && t.l.Bin? && t.r.Bin? && Settled(t, p) && Sorted(Order(t, p))
      modifies this, nodes
      ensures Valid() && Joined(Elements(), was, Order(t, p))
    {
      var elm;
      ghost var u, s;
      elm, u, s := Successor(was, t, p);
      ghost var q := Step(R, was, t.red, t.l, p);
      MoveSettled(t, u, s, p);
      SupplantInv(u, s, q);
      SupplantOrder(u, s, q);
      var child, parent, red := elm.right, elm.parent, elm.red;
      Splice(elm, child, parent, u, Append(s, q));
      if elm.parent == was {
        parent := elm;
      }
      MoveBy(u.r, s, q);
      Move(Plug(u.r, s), R, was, t.red, t.l, p);
      Supplant(was, elm, t.(r := Plug(u.r, s)), p);
      Move(Plug(u.r, s), R, elm, t.red, t.l, p);
      MoveBy(u.r, s, q.(n := elm));
      RemoveRest(red, parent, child, u.r, Append(s, q.(n := elm)));
      JoinedUnsorted(Elements(), was, Order(t, p));
    }

    // ------------------------------------------------------------ searches and walks

    /** RB_FIND, with the number of its steps down: its iterations, at most 2 * log2(n + 1), are these and the one that
        finds the key. */
    method Find(key: int) returns (r: Node?, ghost steps: nat)
      requires Valid()
      ensures r != null ==> r in Elements() && r.key == key
      ensures r == null ==> forall x | x in Elements() :: x.key != key
      ensures Pow2(steps + if r != null then 1 else 0) <= Square(|Elements()| + 1)
    {
      hide Square, Pow2;
      r, steps := root, 0;
      ghost var t, p := shape, Top;
      HeightBound(shape);
      while r != null && r.key != key
        invariant At(t, p) && Plug(t, p) == shape && Root(t) == r && Between(p, key)
        invariant steps + Height(t) <= Height(shape)
        decreases t
      {
        PlugOrder(t, p);
        var d := if key < r.key then L else R;
        BetweenStep(t, p, d, key);
        Move(Near(t, d), d, t.n, t.red, Near(t, d.Flip()), p);
        r, steps := r.Kid(d), steps + 1;
        t, p := Near(t, d), Step(d, t.n, t.red, Near(t, d.Flip()), p);
      }
      PlugOrder(t, p);
      Pow2Mono(steps + if r != null then 1 else 0, Height(shape));
    }

    /** RB_NFIND: the least member not below the key. */
    method NFind(key: int) returns (res: Node?)
      requires Valid()
      ensures res != null ==> res in Elements() && key <= res.key
      ensures forall x | x in Elements() && key <= x.key :: res != null && res.key <= x.key
    {
      var tmp := root;
      res := null;
      ghost var t, p := shape, Top;
      while tmp != null
        invariant At(t, p) && Plug(t, p) == shape && Root(t) == tmp && Between(p, key)
        invariant res == if After(p) == [] then null else After(p)[0]
        decreases t
      {
        PlugOrder(t, p);
        if key == tmp.key {
          return tmp;
        }
        var d := if key < tmp.key then L else R;
        BetweenStep(t, p, d, key);
        if d.L? {
          res := tmp;
        }
        Move(Near(t, d), d, t.n, t.red, Near(t, d.Flip()), p);
        tmp := tmp.Kid(d);
        t, p := Near(t, d), Step(d, t.n, t.red, Near(t, d.Flip()), p);
      }
      PlugOrder(t, p);
      assert Elements() == Before(p) + After(p);
      SplitSorted(Before(p), After(p));
    }

    /** RB_MINMAX: the first member for RB_NEGINF, the last for RB_INF. */
    method MinMax(val: int) returns (parent: Node?)
      requires Valid()
      ensures parent == if Elements() == [] then null
                        else if val < 0 then Elements()[0] else Elements()[|Elements()| - 1]
    {
      var tmp := root;
      var d := if val < 0 then L else R;
      parent := null;
      ghost var t, p := shape, Top;
      while tmp != null
        invariant At(t, p) && Plug(t, p) == shape && Root(t) == tmp && Owner(p) == parent
        invariant if d.L? then Before(p) == [] else After(p) == []
        invariant p.Step? ==> p.d == d
        decreases t
      {
        parent := tmp;
        Move(Near(t, d), d, t.n, t.red, Near(t, d.Flip()), p);
        tmp := tmp.Kid(d);
        t, p := Near(t, d), Step(d, t.n, t.red, Near(t, d.Flip()), p);
      }
      PlugOrder(t, p);
    }

    /** RB_NEXT (d is R) and RB_PREV (d is L): the neighbour of elm in the order, null at the end. */
    method Neighbour(elm: Node, d: Dir) returns (r: Node?)
      requires Valid() && elm in Elements()
      ensures Neighbours(Elements(), elm, d, r)
    {
      InOrderNodes(shape);
      ghost var t, p := Locate(shape, Top, elm);
      PlugOrder(t, p);
      if elm.Kid(d) != null {
        r := Extreme(elm, d, t, p);
      } else {
        r := Climb(elm, d, t, p);
      }
      NeighboursSeq(Before(p), InOrder(t.l), elm, InOrder(t.r), After(p), d, r);
    }

    /** The child on side d exists: its outermost descendant towards elm. */
    method Extreme(elm: Node, d: Dir, ghost t0: Tree, ghost p0: Path) returns (r: Node)
      requires At(t0, p0) && Root(t0) == elm && Near(t0, d).Bin?
      ensures var s := InOrder(Near(t0, d)); s != [] && r == if d.R? then s[0] else s[|s| - 1]
    {
      r := elm.Kid(d);
      ghost var t, p := Near(t0, d), Step(d, elm, t0.red, Near(t0, d.Flip()), p0);
      Move(t, d, elm, t0.red, Near(t0, d.Flip()), p0);
      while r.Kid(d.Flip()) != null
        invariant At(t, p) && Root(t) == r
        invariant var s, s0 := InOrder(t), InOrder(Near(t0, d));
                  if d.R? then s <= s0 else |s| <= |s0| && s == s0[|s0| - |s|..]
        decreases t
      {
        r := r.Kid(d.Flip());
        Move(Near(t, d.Flip()), d.Flip(), t.n, t.red, Near(t, d), p);
        t, p := Near(t, d.Flip()), Step(d.Flip(), t.n, t.red, Near(t, d), p);
      }
    }

    /** Otherwise: the first ancestor that has elm on its other side. */
    method Climb(elm: Node, d: Dir, ghost t0: Tree, ghost p0: Path) returns (r: Node?)
      requires At(t0, p0) && Root(t0) == elm
      ensures var s := if d.R? then After(p0) else Before(p0);
              r == if s == [] then null else if d.R? then s[0] else s[|s| - 1]
    {
      r := elm;
      ghost var t, p := t0, p0;
      while r.parent != null && r == r.parent.Kid(d)
        invariant At(t, p) && Root(t) == r && r != null
        invariant if d.R? then After(p) == After(p0) else Before(p) == Before(p0)
        decreases Len(p)
      {
        Around(t, p);
        Move(t, p.d, p.n, p.red, p.other, p.up);
        r := r.parent;
        t, p := Mk(p.d, t, p.n, p.red, p.other), p.up;
      }
      if p.Step? {
        Around(t, p);
      }
      r := r.parent;
    }

    /** RB_FOREACH and RB_FOREACH_REVERSE visit every member once, in order. */
    method Foreach(d: Dir) returns (visited: seq<Node>)
      requires Valid()
      ensures |visited| == |Elements()|
      ensures forall i | 0 <= i < |visited| :: visited[i] == Nth(Elements(), d, i)
    {
      var x := MinMax(if d.R? then -1 else 1);
      visited := [];
      ghost var e := Elements();
      while x != null
        invariant |visited| <= |e|
        invariant forall i | 0 <= i < |visited| :: visited[i] == Nth(e, d, i)
        invariant x == if |visited| == |e| then null else Nth(e, d, |visited|)
        decreases |e| - |visited|
      {
        var y := Neighbour(x, d);
        NeighboursNth(e, x, d, y, |visited|);
        visited, x := visited + [x], y;
      }
    }
  }

  /** (elm)->field = (old)->field, and the children's parent pointers follow. */
  method TakeOver(was: Node, now: Node, ghost t: Tree)
    requires Apart(t) && Rep(t, was.parent) && Root(t) == was && t.l.Bin? && now !in Nodes(t)
    modifies Nodes(t), now
    ensures Rep(t.(n := now), old(was.parent))
  {
    assert Rep(t.l, was) && Rep(t.r, was) && Apart(t.l) && Apart(t.r);
    assert t.l.n in Nodes(t.l) && (t.r.Bin? ==> t.r.n in Nodes(t.r));
    now.left, now.right, now.parent, now.red := was.left, was.right, was.parent, was.red;
    was.left.parent := now;
    if was.right != null {
      was.right.parent := now;
    }
  }

  method TurnLeft(elm: Node, tmp: Node, ghost t: Tree)
    requires Apart(t) && Rep(t, elm.parent) && Root(t) == elm && Root(t.r) == tmp
    modifies Nodes(t)
    ensures Rep(Rotated(L, t), old(elm.parent))
  {
    ghost var b := t.r.l;
    assert Apart(t.r) && Rep(t.r, elm) && Nodes(b) <= Nodes(t.r);
    assert b.Bin? ==> b.n in Nodes(b) && Apart(b) && Rep(b, tmp);
    elm.right := tmp.left;
    if tmp.left != null {
      tmp.left.parent := elm;
    }
    tmp.parent := elm.parent;
    tmp.left := elm;
    elm.parent := tmp;
  }

  method TurnRight(elm: Node, tmp: Node, ghost t: Tree)
    requires Apart(t) && Rep(t, elm.parent) && Root(t) == elm && Root(t.l) == tmp
    modifies Nodes(t)
    ensures Rep(Rotated(R, t), old(elm.parent))
  {
    ghost var b := t.l.r;
    assert Apart(t.l) && Rep(t.l, elm) && Nodes(b) <= Nodes(t.l);
    assert b.Bin? ==> b.n in Nodes(b) && Apart(b) && Rep(b, tmp);
    elm.left := tmp.right;
    if tmp.right != null {
      tmp.right.parent := elm;
    }
    tmp.parent := elm.parent;
    tmp.right := elm;
    elm.parent := tmp;
  }
}
