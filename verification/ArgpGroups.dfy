/** From the tree of argps to the array of groups: calc_sizes and convert_options of src/argp/argp-parse.c. */
module ArgpGroups {
  import opened Basics
  import opened ArgpOptions

  /** struct argp: options is Nothing for a null pointer. */
  datatype Argp = Argp(id: nat, options: Maybe<seq<Opt>>, parser: bool, children: seq<Argp>)

  /** struct group, as convert_options leaves it: slots is where its child_inputs begin. */
  datatype Member = Member(argp: Argp, parent: Maybe<nat>, parentIndex: nat, slots: nat)

  predicate NeedsGroup(a: Argp) {
    a.options.Just? || a.parser
  }

  // ---------------------------------------------------------------- sizes

  function Groups(a: Argp): nat
    decreases a, 1
  {
    (if NeedsGroup(a) then 1 else 0) + GroupsOf(a.children)
  }

  function GroupsOf(cs: seq<Argp>): nat
    decreases cs, 0
  {
    if cs == [] then 0 else Groups(cs[0]) + GroupsOf(cs[1..])
  }

  /** The child inputs calc_sizes counts. */
  function Inputs(a: Argp): nat
    decreases a, 1
  {
    InputsOf(a.children)
  }

  function InputsOf(cs: seq<Argp>): nat
    decreases cs, 0
  {
    if cs == [] then 0 else Inputs(cs[0]) + 1 + InputsOf(cs[1..])
  }

  /** The child inputs convert_options hands out. */
  function Slots(a: Argp): nat
    decreases a, 1
  {
    (if NeedsGroup(a) then |a.children| else 0) + SlotsOf(a.children)
  }

  function SlotsOf(cs: seq<Argp>): nat
    decreases cs, 0
  {
    if cs == [] then 0 else Slots(cs[0]) + SlotsOf(cs[1..])
  }

  /** The vector of child inputs is long enough. */
  lemma {:induction false} SlotsFit(a: Argp)
    ensures Slots(a) <= Inputs(a)
    decreases a, 1
  {
    SlotsOfFit(a.children);
  }

  lemma {:induction false} SlotsOfFit(cs: seq<Argp>)
    ensures |cs| + SlotsOf(cs) <= InputsOf(cs)
    decreases cs, 0
  {
    if cs != [] {
      SlotsFit(cs[0]);
      SlotsOfFit(cs[1..]);
    }
  }

  /** calc_sizes. */
  method CalcSizes(a: Argp, groups: nat, inputs: nat) returns (groups': nat, inputs': nat)
    ensures groups' == groups + Groups(a)
    ensures inputs' == inputs + Inputs(a)
    decreases a
  {
    groups', inputs' := groups + (if NeedsGroup(a) then 1 else 0), inputs;
    var i := 0;
    while i < |a.children|
      invariant i <= |a.children|
      invariant groups + Groups(a) == groups' + GroupsOf(a.children[i..])
      invariant inputs + Inputs(a) == inputs' + InputsOf(a.children[i..])
    {
      assert a.children[i..][1..] == a.children[i + 1..];
      groups', inputs' := CalcSizes(a.children[i], groups', inputs');
      inputs', i := inputs' + 1, i + 1;
    }
  }

  // ---------------------------------------------------------------- the array of groups

  /** Pre-order; `at` groups and `slots` child inputs are already in use. */
  function Flatten(a: Argp, parent: Maybe<nat>, parentIndex: nat, at: nat, slots: nat): (r: seq<Member>)
    ensures |r| == Groups(a)
    decreases a, 1
  {
    if NeedsGroup(a) then
      [Member(a, parent, parentIndex, slots)] + FlattenOf(a.children, Just(at), 0, at + 1, slots + |a.children|)
    else
      FlattenOf(a.children, Nothing, 0, at, slots)
  }

  function FlattenOf(cs: seq<Argp>, parent: Maybe<nat>, index: nat, at: nat, slots: nat): (r: seq<Member>)
    ensures |r| == GroupsOf(cs)
    decreases cs, 0
  {
    if cs == [] then []
    else
      Flatten(cs[0], parent, index, at, slots)
      + FlattenOf(cs[1..], parent, index + 1, at + Groups(cs[0]), slots + Slots(cs[0]))
  }

  // ---------------------------------------------------------------- places in the tree

  /** A place in the tree: which child to take, from the root on. */
  predicate IsPlace(a: Argp, path: seq<nat>)
    decreases |path|
  {
    path == [] || (path[0] < |a.children| && IsPlace(a.children[path[0]], path[1..]))
  }

  function Sub(a: Argp, path: seq<nat>): Argp
    requires IsPlace(a, path)
    decreases |path|
  {
    if path == [] then a else Sub(a.children[path[0]], path[1..])
  }

  /** How many groups come before the place, in pre-order. */
  function GroupAt(a: Argp, path: seq<nat>): nat
    requires IsPlace(a, path)
    decreases |path|
  {
    if path == [] then 0
    else (if NeedsGroup(a) then 1 else 0) + GroupsOf(a.children[..path[0]]) + GroupAt(a.children[path[0]], path[1..])
  }

  /** That is the number of its own group, if it has one. */
  lemma {:induction false} GroupAtHolds(a: Argp, path: seq<nat>, parent: Maybe<nat>, parentIndex: nat, at: nat,
                                        slots: nat)
    requires IsPlace(a, path) && NeedsGroup(Sub(a, path))
    ensures GroupAt(a, path) < Groups(a)
    ensures Flatten(a, parent, parentIndex, at, slots)[GroupAt(a, path)].argp == Sub(a, path)
    decreases |path|, 0
  {
    if path != [] {
      if NeedsGroup(a) {
        GroupAtHoldsOf(a.children, path[0], path[1..], Just(at), 0, at + 1, slots + |a.children|);
      } else {
        GroupAtHoldsOf(a.children, path[0], path[1..], Nothing, 0, at, slots);
      }
    }
  }

  lemma {:induction false} GroupAtHoldsOf(cs: seq<Argp>, i: nat, path: seq<nat>, parent: Maybe<nat>, index: nat,
                                          at: nat, slots: nat)
    requires i < |cs| && IsPlace(cs[i], path) && NeedsGroup(Sub(cs[i], path))
    ensures var g := GroupsOf(cs[..i]) + GroupAt(cs[i], path);
            g < GroupsOf(cs) && FlattenOf(cs, parent, index, at, slots)[g].argp == Sub(cs[i], path)
    decreases |path|, 1 + i
  {
    if i == 0 {
      GroupAtHolds(cs[0], path, parent, index, at, slots);
    } else {
      GroupAtHoldsOf(cs[1..], i - 1, path, parent, index + 1, at + Groups(cs[0]), slots + Slots(cs[0]));
      assert cs[..i][1..] == cs[1..][..i - 1];
    }
  }

  /** The group of an argp comes before those of all its descendants, groupless argps in between or not. */
  lemma {:induction false} AncestorBefore(a: Argp, p: seq<nat>, q: seq<nat>)
    requires IsPlace(a, p + q) && IsPlace(a, p) && q != [] && NeedsGroup(Sub(a, p))
    ensures GroupAt(a, p) < GroupAt(a, p + q)
    decreases |p|
  {
    if p == [] {
      assert p + q == q;
    } else {
      assert (p + q)[1..] == p[1..] + q;
      AncestorBefore(a.children[p[0]], p[1..], q);
    }
  }

  /** One place comes before another in pre-order: it is above it, or further left where they part. */
  predicate Precedes(p: seq<nat>, q: seq<nat>) {
    q != [] && (p == [] || p[0] < q[0] || (p[0] == q[0] && Precedes(p[1..], q[1..])))
  }

  /** The groups are numbered in pre-order. */
  lemma {:induction false} PlacesInOrder(a: Argp, p: seq<nat>, q: seq<nat>)
    requires IsPlace(a, p) && IsPlace(a, q) && Precedes(p, q) && NeedsGroup(Sub(a, p))
    ensures GroupAt(a, p) < GroupAt(a, q)
    decreases |p|
  {
    if p != [] {
      if p[0] == q[0] {
        PlacesInOrder(a.children[p[0]], p[1..], q[1..]);
      } else {
        GroupAtHolds(a.children[p[0]], p[1..], Nothing, 0, 0, 0);
        GroupsTake(a.children, p[0], q[0]);
      }
    }
  }

  lemma {:induction false} GroupsTake(cs: seq<Argp>, i: nat, j: nat)
    requires i < j <= |cs|
    ensures GroupsOf(cs[..i]) + Groups(cs[i]) <= GroupsOf(cs[..j])
  {
    assert cs[..j][1..] == cs[1..][..j - 1];
    if i > 0 {
      assert cs[..i][1..] == cs[1..][..i - 1];
      GroupsTake(cs[1..], i - 1, j - 1);
    }
  }

  /** Every argp with options or a parser has a group. */
  lemma PlaceHasGroup(a: Argp, p: seq<nat>)
    requires IsPlace(a, p) && (Sub(a, p).options.Just? || Sub(a, p).parser)
    ensures var groups, g := Flatten(a, Nothing, 0, 0, 0), GroupAt(a, p);
            g < |groups| && groups[g].argp == Sub(a, p) && (p == [] ==> groups[g].parent == Nothing)
  {
    GroupAtHolds(a, p, Nothing, 0, 0, 0);
  }

  /** No other argp has one. */
  lemma {:induction false} GroupHasPlace(a: Argp, parent: Maybe<nat>, parentIndex: nat, at: nat, slots: nat, g: nat)
      returns (p: seq<nat>)
    requires g < Groups(a)
    ensures IsPlace(a, p) && GroupAt(a, p) == g && (Sub(a, p).options.Just? || Sub(a, p).parser)
    ensures Flatten(a, parent, parentIndex, at, slots)[g].argp == Sub(a, p)
    decreases a, 1
  {
    var own := if NeedsGroup(a) then 1 else 0;
    if g < own {
      p := [];
    } else {
      var i, q := GroupHasPlaceOf(a.children, g - own);
      p := [i] + q;
      assert p[1..] == q;
    }
    GroupAtHolds(a, p, parent, parentIndex, at, slots);
  }

  lemma {:induction false} GroupHasPlaceOf(cs: seq<Argp>, g: nat) returns (i: nat, q: seq<nat>)
    requires g < GroupsOf(cs)
    ensures i < |cs| && IsPlace(cs[i], q) && (Sub(cs[i], q).options.Just? || Sub(cs[i], q).parser)
    ensures GroupsOf(cs[..i]) + GroupAt(cs[i], q) == g
    decreases cs, 0
  {
    if g < Groups(cs[0]) {
      i := 0;
      q := GroupHasPlace(cs[0], Nothing, 0, 0, 0, g);
    } else {
      var j;
      j, q := GroupHasPlaceOf(cs[1..], g - Groups(cs[0]));
      i := j + 1;
      assert cs[..i][1..] == cs[1..][..j];
    }
  }

  /** The parent of a group is that of the argp right above, if that has one, and the index is the place there. */
  ghost predicate Hangs(m: Member, a: Argp, p: seq<nat>, i: nat, at: nat)
    requires IsPlace(a, p)
  {
    var above := Sub(a, p);
    if above.options.Just? || above.parser then m.parent == Just(at + GroupAt(a, p)) && m.parentIndex == i
    else m.parent == Nothing
  }

  lemma {:induction false} GroupParent(a: Argp, p: seq<nat>, i: nat, parent: Maybe<nat>, parentIndex: nat, at: nat,
                                       slots: nat)
    requires IsPlace(a, p) && IsPlace(a, p + [i]) && NeedsGroup(Sub(a, p + [i]))
    ensures GroupAt(a, p + [i]) < Groups(a)
    ensures Hangs(Flatten(a, parent, parentIndex, at, slots)[GroupAt(a, p + [i])], a, p, i, at)
    decreases |p|, 1, 0
  {
    GroupAtHolds(a, p + [i], parent, parentIndex, at, slots);
    var path := p + [i];
    var own := if NeedsGroup(a) then 1 else 0;
    var up := if NeedsGroup(a) then Just(at) else Nothing;
    var used := slots + if NeedsGroup(a) then |a.children| else 0;
    if p == [] {
      assert path[1..] == [];
      ChildParent(a.children, i, up, 0, at + own, used);
    } else {
      assert path[1..] == p[1..] + [i];
      DeeperParent(a.children, p[0], p[1..], i, up, 0, at + own, used);
    }
  }

  lemma {:induction false} ChildParent(cs: seq<Argp>, i: nat, parent: Maybe<nat>, index: nat, at: nat, slots: nat)
    requires i < |cs| && NeedsGroup(cs[i])
    ensures var g := GroupsOf(cs[..i]);
            g < GroupsOf(cs) && FlattenOf(cs, parent, index, at, slots)[g].parent == parent
            && FlattenOf(cs, parent, index, at, slots)[g].parentIndex == index + i
    decreases |cs|
  {
    if i > 0 {
      assert cs[..i][1..] == cs[1..][..i - 1];
      ChildParent(cs[1..], i - 1, parent, index + 1, at + Groups(cs[0]), slots + Slots(cs[0]));
    }
  }

  lemma {:induction false} DeeperParent(cs: seq<Argp>, k: nat, p: seq<nat>, i: nat, parent: Maybe<nat>, index: nat,
                                        at: nat, slots: nat)
    requires k < |cs| && IsPlace(cs[k], p) && IsPlace(cs[k], p + [i]) && NeedsGroup(Sub(cs[k], p + [i]))
    ensures var g := GroupsOf(cs[..k]) + GroupAt(cs[k], p + [i]);
            g < GroupsOf(cs)
            && Hangs(FlattenOf(cs, parent, index, at, slots)[g], cs[k], p, i, at + GroupsOf(cs[..k]))
    decreases |p|, 2, k
  {
    if k == 0 {
      GroupParent(cs[0], p, i, parent, index, at, slots);
    } else {
      assert cs[..k][1..] == cs[1..][..k - 1];
      DeeperParent(cs[1..], k - 1, p, i, parent, index + 1, at + Groups(cs[0]), slots + Slots(cs[0]));
    }
  }

  class Conversion {
    /** The groups filled in so far, and the child inputs handed out. */
    var groups: seq<Member>
    var slots: nat

    constructor ()
      ensures groups == [] && slots == 0
    {
      groups, slots := [], 0;
    }

    /** convert_options. */
    method Convert(a: Argp, parent: Maybe<nat>, parentIndex: nat)
      modifies this
      ensures groups == old(groups) + Flatten(a, parent, parentIndex, |old(groups)|, old(slots))
      ensures slots == old(slots) + Slots(a)
      decreases a, 1
    {
      if NeedsGroup(a) {
        var me := |groups|;
        groups := groups + [Member(a, parent, parentIndex, slots)];
        slots := slots + |a.children|;
        ConvertChildren(a, Just(me));
      } else {
        ConvertChildren(a, Nothing);
      }
    }

    method ConvertChildren(a: Argp, parent: Maybe<nat>)
      modifies this
      ensures groups == old(groups) + FlattenOf(a.children, parent, 0, |old(groups)|, old(slots))
      ensures slots == old(slots) + SlotsOf(a.children)
      decreases a, 0
    {
      ghost var all := old(groups) + FlattenOf(a.children, parent, 0, |old(groups)|, old(slots));
      var i := 0;
      assert a.children[0..] == a.children;
      while i < |a.children|
        invariant i <= |a.children|
        invariant all == groups + FlattenOf(a.children[i..], parent, i, |groups|, slots)
        invariant old(slots) + SlotsOf(a.children) == slots + SlotsOf(a.children[i..])
      {
        ghost var rest := a.children[i..];
        assert rest[1..] == a.children[i + 1..] && rest[0] == a.children[i];
        ghost var first := Flatten(rest[0], parent, i, |groups|, slots);
        ghost var others := FlattenOf(rest[1..], parent, i + 1, |groups| + |first|, slots + Slots(rest[0]));
        ghost var before := groups;
        assert all == before + (first + others);
        Convert(a.children[i], parent, i);
        Associate(before, first, others);
        i := i + 1;
      }
      assert a.children[i..] == [];
      assert groups + [] == groups;
    }
  }

  // ---------------------------------------------------------------- what the array says about the tree

  /** A group's parent comes before it, and its place is its own place among the parent's children. */
  predicate Linked(groups: seq<Member>, i: nat)
    requires i < |groups|
  {
    var m := groups[i];
    m.parent.Just? ==>
      && m.parent.value < i
      && m.parentIndex < |groups[m.parent.value].argp.children|
      && groups[m.parent.value].argp.children[m.parentIndex] == m.argp
  }

  ghost predicate LinkedFrom(groups: seq<Member>, from: nat) {
    forall i :: from <= i < |groups| ==> Linked(groups, i)
  }

  /** The child inputs of group i lie between lo and hi. */
  predicate Between(m: Member, lo: nat, hi: nat) {
    lo <= m.slots && m.slots + |m.argp.children| <= hi
  }

  predicate Separate(m: Member, n: Member) {
    m.slots + |m.argp.children| <= n.slots
  }

  ghost predicate Windows(r: seq<Member>, lo: nat, hi: nat) {
    && (forall i :: 0 <= i < |r| ==> Between(r[i], lo, hi))
    && (forall i, j :: 0 <= i < j < |r| ==> Separate(r[i], r[j]))
  }

  ghost predicate ChildrenFrom(groups: seq<Member>, parent: Maybe<nat>, cs: seq<Argp>, index: nat) {
    parent.Just? ==>
      && parent.value < |groups|
      && index + |cs| == |groups[parent.value].argp.children|
      && groups[parent.value].argp.children[index..] == cs
  }

  lemma {:induction false} FlattenLinks(before: seq<Member>, a: Argp, parent: Maybe<nat>, parentIndex: nat, slots: nat)
    requires parent.Just? ==> parent.value < |before|
                              && parentIndex < |before[parent.value].argp.children|
                              && before[parent.value].argp.children[parentIndex] == a
    ensures LinkedFrom(before + Flatten(a, parent, parentIndex, |before|, slots), |before|)
    decreases a, 1
  {
    if NeedsGroup(a) {
      var me := Member(a, parent, parentIndex, slots);
      var rest := FlattenOf(a.children, Just(|before|), 0, |before| + 1, slots + |a.children|);
      FlattenOfLinks(before + [me], a.children, Just(|before|), 0, slots + |a.children|);
      Associate(before, [me], rest);
      var all := before + ([me] + rest);
      assert Linked(all, |before|);
      assert forall i :: |before| + 1 <= i < |all| ==> Linked(all, i);
    } else {
      FlattenOfLinks(before, a.children, Nothing, 0, slots);
    }
  }

  lemma {:induction false} FlattenOfLinks(before: seq<Member>, cs: seq<Argp>, parent: Maybe<nat>, index: nat,
                                          slots: nat)
    requires ChildrenFrom(before, parent, cs, index)
    ensures LinkedFrom(before + FlattenOf(cs, parent, index, |before|, slots), |before|)
    decreases cs, 0
  {
    if cs != [] {
      var first := Flatten(cs[0], parent, index, |before|, slots);
      var mid := before + first;
      var rest := FlattenOf(cs[1..], parent, index + 1, |mid|, slots + Slots(cs[0]));
      if parent.Just? {
        assert cs[0] == before[parent.value].argp.children[index..][0];
        assert cs[1..] == before[parent.value].argp.children[index + 1..];
      }
      FlattenLinks(before, cs[0], parent, index, slots);
      FlattenOfLinks(mid, cs[1..], parent, index + 1, slots + Slots(cs[0]));
      Associate(before, first, rest);
      forall i | |before| <= i < |mid + rest| ensures Linked(mid + rest, i) {
        if i < |mid| {
          assert Linked(mid, i);
        }
      }
    }
  }

  lemma {:induction false} FlattenSlots(a: Argp, parent: Maybe<nat>, parentIndex: nat, at: nat, slots: nat)
    ensures Windows(Flatten(a, parent, parentIndex, at, slots), slots, slots + Slots(a))
    decreases a, 1
  {
    if NeedsGroup(a) {
      FlattenOfSlots(a.children, Just(at), 0, at + 1, slots + |a.children|);
      var me := Member(a, parent, parentIndex, slots);
      SlotsJoin([me], FlattenOf(a.children, Just(at), 0, at + 1, slots + |a.children|), slots, slots + |a.children|,
                slots + Slots(a));
    } else {
      FlattenOfSlots(a.children, Nothing, 0, at, slots);
    }
  }

  lemma {:induction false} FlattenOfSlots(cs: seq<Argp>, parent: Maybe<nat>, index: nat, at: nat, slots: nat)
    ensures Windows(FlattenOf(cs, parent, index, at, slots), slots, slots + SlotsOf(cs))
    decreases cs, 0
  {
    if cs != [] {
      var first := Flatten(cs[0], parent, index, at, slots);
      var rest := FlattenOf(cs[1..], parent, index + 1, at + Groups(cs[0]), slots + Slots(cs[0]));
      FlattenSlots(cs[0], parent, index, at, slots);
      FlattenOfSlots(cs[1..], parent, index + 1, at + Groups(cs[0]), slots + Slots(cs[0]));
      SlotsJoin(first, rest, slots, slots + Slots(cs[0]), slots + SlotsOf(cs));
    }
  }

  lemma SlotsJoin(a: seq<Member>, b: seq<Member>, lo: nat, mid: nat, hi: nat)
    requires lo <= mid <= hi
    requires Windows(a, lo, mid) && Windows(b, mid, hi)
    ensures Windows(a + b, lo, hi)
  {
    forall i | 0 <= i < |a + b| ensures Between((a + b)[i], lo, hi) {
      assert if i < |a| then Between(a[i], lo, mid) else Between(b[i - |a|], mid, hi);
    }
    forall i, j | 0 <= i < j < |a + b| ensures Separate((a + b)[i], (a + b)[j]) {
      if j < |a| {
        assert Separate(a[i], a[j]);
      } else if i >= |a| {
        assert Separate(b[i - |a|], b[j - |a|]);
      } else {
        assert Between(a[i], lo, mid) && Between(b[j - |a|], mid, hi);
      }
    }
  }

  /** A usable array of groups, with `total` child inputs. */
  ghost predicate WellFormed(groups: seq<Member>, total: nat) {
    && (forall m :: m in groups ==> NeedsGroup(m.argp))
    && LinkedFrom(groups, 0)
    && Windows(groups, 0, total)
  }

  lemma {:induction false} FlattenNeeds(a: Argp, parent: Maybe<nat>, parentIndex: nat, at: nat, slots: nat)
    ensures forall m :: m in Flatten(a, parent, parentIndex, at, slots) ==> NeedsGroup(m.argp)
    decreases a, 1
  {
    if NeedsGroup(a) {
      FlattenOfNeeds(a.children, Just(at), 0, at + 1, slots + |a.children|);
    } else {
      FlattenOfNeeds(a.children, Nothing, 0, at, slots);
    }
  }

  lemma {:induction false} FlattenOfNeeds(cs: seq<Argp>, parent: Maybe<nat>, index: nat, at: nat, slots: nat)
    ensures forall m :: m in FlattenOf(cs, parent, index, at, slots) ==> NeedsGroup(m.argp)
    decreases cs, 0
  {
    if cs != [] {
      FlattenNeeds(cs[0], parent, index, at, slots);
      FlattenOfNeeds(cs[1..], parent, index + 1, at + Groups(cs[0]), slots + Slots(cs[0]));
    }
  }

  /** parser_convert for a given argp, into the storage calc_sizes asked for. */
  method ConvertAll(a: Argp) returns (groups: seq<Member>, total: nat)
    ensures groups == Flatten(a, Nothing, 0, 0, 0)
    ensures WellFormed(groups, total)
    ensures |groups| == Groups(a) && total == Inputs(a)
  {
    var count, inputs := CalcSizes(a, 0, 0);
    var c := new Conversion();
    c.Convert(a, Nothing, 0);
    groups, total := c.groups, inputs;
    FlattenLinks([], a, Nothing, 0, 0);
    FlattenSlots(a, Nothing, 0, 0, 0);
    FlattenNeeds(a, Nothing, 0, 0, 0);
    SlotsFit(a);
    assert [] + Flatten(a, Nothing, 0, 0, 0) == groups;
  }
}
