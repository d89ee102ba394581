/** The walk of src/fts.c as a stack of half-finished directories, and its agreement with the recursive walk. */
module FtsFrames {
  import opened FtsSpec

  /** FTSENT: its place in the tree never changes once it is linked into the list of its directory. */
  class Node {
    const item: Dirent
    const level: int
    const parent: Node?
    var link: Node?
    var info: Info
    var name: string
    var pathLen: nat

    /** fts_alloc and the assignments that follow it. */
    constructor (item: Dirent, level: int, parent: Node?, info: Info, pathLen: nat)
      ensures this.item == item && this.level == level && this.parent == parent && this.link == null
      ensures this.info == info && this.name == item.name && this.pathLen == pathLen
    {
      this.item, this.level, this.parent := item, level, parent;
      this.link, this.info, this.name, this.pathLen := null, info, item.name, pathLen;
    }
  }

  /** The entries of one open directory; those up to `at` have been returned.  nodes are the nodes of the entry at `at`
      and of those after it. */
  datatype Frame = Frame(items: seq<Dirent>, at: int, place: Place, nodes: seq<Node>) {
    predicate Inside() { 0 <= at < |items| }
    function Head(): Dirent
      requires Inside()
    {
      items[at]
    }
    predicate Opened() {
      Inside() && InfoOf(Head(), place.ids) == D
    }
  }

  /** The open directories, the innermost on top. */
  datatype Stack = Floor | On(top: Frame, below: Stack)

  predicate Started(s: Stack) {
    s.On? ==> s.top.Inside() && Started(s.below)
  }

  predicate Usable(s: Stack) {
    s.On? && -1 <= s.top.at < |s.top.items| && Started(s.below)
  }

  /** What is still to come once the node at the top is done. */
  function After(w: World, s: Stack, n: nat): List
    requires Usable(s)
    decreases s, 0, 1
  {
    From(w, s, s.top.at + 1, n)
  }

  /** ...when entry i of the top directory is next. */
  function From(w: World, s: Stack, i: nat, n: nat): List
    requires s.On? && i <= |s.top.items| && Started(s.below)
    decreases s, 0, 0
  {
    var rest := WalkAll(w, s.top.items, i, s.top.place, n);
    Append(rest, if s.below.Floor? then Nil else Closing(w, s.below, n + Length(rest)))
  }

  /** The second visit of the directory at the top, and what comes after it. */
  function Closing(w: World, s: Stack, n: nat): List
    requires s.On? && Started(s)
    decreases s, 1
  {
    Cons(Shows(DP, s.top.Head(), s.top.place), After(w, s, n + 1))
  }

  /** What is still to come when the node at the top has just been returned with this info. */
  function Remaining(w: World, s: Stack, info: Info, n: nat): List
    requires Usable(s)
    requires info == D ==> n > 0 && s.top.Opened()
  {
    if info == D then
      var body := Body(w, s.top.Head(), s.top.place, n);
      Append(body, After(w, s, n + Length(body)))
    else
      After(w, s, n)
  }

  function Advance(s: Stack): Stack
    requires s.On? && |s.top.nodes| > 0
  {
    s.(top := s.top.(at := s.top.at + 1, nodes := s.top.nodes[1..]))
  }

  function FirstOf(s: Stack): Event
    requires s.On? && s.top.Inside()
  {
    Shows(InfoOf(s.top.Head(), s.top.place.ids), s.top.Head(), s.top.place)
  }

  /** A stack whose top has just moved to its entry: what comes is that entry and what it holds. */
  lemma Arrive(w: World, s: Stack, n: nat)
    requires Usable(s) && s.top.Inside()
    ensures From(w, s, s.top.at, n) == Cons(FirstOf(s), Remaining(w, s, FirstOf(s).info, n + 1))
  {
    var e, p := s.top.Head(), s.top.place;
    var first := Walk(w, e, p, n);
    var rest := WalkAll(w, s.top.items, s.top.at + 1, p, n + Length(first));
    var closing := if s.below.Floor? then Nil else Closing(w, s.below, n + Length(first) + Length(rest));
    AppendLength(first, rest);
    AppendAppend(first, rest, closing);
    assert From(w, s, s.top.at, n) == Append(first, Append(rest, closing));
    assert After(w, s, n + Length(first)) == Append(rest, closing);
    assert Append(first, Append(rest, closing)) == Cons(first.head, Append(first.tail, Append(rest, closing)));
  }

  /** On to the next entry of the same directory. */
  lemma NextEntry(w: World, s: Stack, n: nat)
    requires Usable(s) && s.top.at + 1 < |s.top.items| && |s.top.nodes| > 0
    ensures var t := Advance(s);
            Usable(t) && t.top.Inside() && After(w, s, n) == Cons(FirstOf(t), Remaining(w, t, FirstOf(t).info, n + 1))
  {
    Arrive(w, Advance(s), n);
  }

  /** Back to the directory above. */
  lemma GoUp(w: World, s: Stack, n: nat)
    requires Usable(s) && s.below.On? && s.top.at + 1 == |s.top.items|
    ensures Usable(s.below) && s.below.top.Inside()
    ensures After(w, s, n) == Cons(Shows(DP, s.below.top.Head(), s.below.top.place), Remaining(w, s.below, DP, n + 1))
  {
    assert After(w, s, n) == From(w, s, |s.top.items|, n) == Append(Nil, Closing(w, s.below, n));
  }

  lemma TheEnd(w: World, s: Stack, n: nat)
    requires Usable(s) && s.below.Floor? && s.top.at + 1 == |s.top.items|
    ensures After(w, s, n) == Nil
  {
  }

  function Descend(w: World, s: Stack, nodes: seq<Node>): Stack
    requires s.On? && s.top.Opened() && s.top.Head().target.id in w.dirs
  {
    On(Frame(Kids(w, s.top.Head().target.id), 0, Inner(s.top.Head(), s.top.place), nodes), s)
  }

  /** The directory at the top, just returned as the n-th node, is neither skipped nor on another device. */
  predicate Enters(w: World, s: Stack, n: nat)
    requires s.On? && s.top.Opened() && n > 0
  {
    !w.skip(n - 1) && !(w.xdev && s.top.Head().target.id.dev != DevOf(s.top.Head(), s.top.place))
  }

  predicate Opens(w: World, s: Stack)
    requires s.On? && s.top.Opened()
  {
    w.Opens(s.top.Head().target.id, PathOf(s.top.Head(), s.top.place))
  }

  /** fts_children was called in vain for the directory at the top, or fts_read cannot open it. */
  predicate LostTop(w: World, s: Stack, n: nat)
    requires s.On? && s.top.Opened() && n > 0
  {
    Lost(w, s.top.Head().target.id, PathOf(s.top.Head(), s.top.place), s.top.place.Level(), w.list(n - 1))
  }

  predicate RefusedTop(w: World, s: Stack, n: nat)
    requires s.On? && s.top.Opened() && n > 0
  {
    Refused(w, s.top.Head().target.id, PathOf(s.top.Head(), s.top.place), w.list(n - 1))
  }

  /** Down to the first entry of a directory. */
  lemma GoDown(w: World, s: Stack, nodes: seq<Node>, n: nat)
    requires Usable(s) && s.top.Opened() && n > 0
    requires Enters(w, s, n) && !LostTop(w, s, n) && !RefusedTop(w, s, n) && Kids(w, s.top.Head().target.id) != []
    ensures var t := Descend(w, s, nodes);
            Usable(t) && t.top.Inside()
              && Remaining(w, s, D, n) == Cons(FirstOf(t), Remaining(w, t, FirstOf(t).info, n + 1))
  {
    var t := Descend(w, s, nodes);
    var all := WalkAll(w, t.top.items, 0, t.top.place, n);
    var last := One(Shows(DP, s.top.Head(), s.top.place));
    assert Body(w, s.top.Head(), s.top.place, n) == Append(all, last);
    AppendLength(all, last);
    AppendAppend(all, last, After(w, s, n + Length(all) + 1));
    Arrive(w, t, n);
  }

  /** A directory that is not entered is returned again at once: skipped, unreadable or empty. */
  function Refusal(w: World, s: Stack, n: nat): Info
    requires s.On? && s.top.Opened() && n > 0
  {
    if Enters(w, s, n) && RefusedTop(w, s, n) then DNR else DP
  }

  lemma StayHere(w: World, s: Stack, n: nat)
    requires Usable(s) && s.top.Opened() && n > 0
    requires !LostTop(w, s, n)
    requires Enters(w, s, n) && !RefusedTop(w, s, n) ==> Kids(w, s.top.Head().target.id) == []
    ensures var info := Refusal(w, s, n);
            Remaining(w, s, D, n) == Cons(Shows(info, s.top.Head(), s.top.place), Remaining(w, s, info, n + 1))
  {
    var e, p := s.top.Head(), s.top.place;
    if Enters(w, s, n) && !RefusedTop(w, s, n) {
      assert WalkAll(w, Kids(w, e.target.id), 0, Inner(e, p), n) == Nil;
    }
    var body := One(Shows(Refusal(w, s, n), e, p));
    assert Body(w, e, p, n) == body && Length(body) == 1 + Length(body.tail);
    assert Append(body, After(w, s, n + 1)) == Cons(body.head, Append(body.tail, After(w, s, n + 1)));
  }

  /** A directory for which fts_children was called in vain is not returned again. */
  lemma PassOver(w: World, s: Stack, n: nat)
    requires Usable(s) && s.top.Opened() && n > 0
    requires LostTop(w, s, n)
    ensures Remaining(w, s, D, n) == Remaining(w, s, ERR, n)
  {
    assert Body(w, s.top.Head(), s.top.place, n) == Nil;
  }
}
