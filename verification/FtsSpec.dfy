/** What a walk of src/fts.c returns, as a recursive walk of a finite graph of directories. */
module FtsSpec {
  import opened Basics
  import FtsPath

  const SHRT_MAX := 32767
  const NAME_MAX := 255

  /** fts_info. */
  datatype Info = D | DC | Default | DNR | DOT | DP | ERR | F | INIT | NS | SL | SLNONE

  datatype Id = Id(dev: bv64, ino: bv64)

  /** What stat finds behind a name. */
  datatype Target = Directory(id: Id) | File | Link | DeadLink | NoStat | Special

  datatype Dirent = Dirent(name: string, target: Target)

  /** The file system, the options, and the caller: opening a directory fails when it is not in dirs or when the path it
      is opened by is too long.  The n-th node returned, if a directory, is skipped if the caller likes, and
      fts_children is called for it as often as the caller likes. */
  datatype World = World(
    dirs: map<Id, seq<Dirent>>,
    openMax: nat,
    seedot: bool,
    xdev: bool,
    arrange: seq<Dirent> -> seq<nat>,
    skip: nat -> bool,
    list: nat -> nat)
  {
    predicate Opens(id: Id, path: string) {
      id in dirs && |path| < openMax
    }
  }

  /** One node as fts_read returns it. */
  datatype Event = Event(info: Info, level: int, name: string, path: string, target: Target)

  // ---------------------------------------------------------------- lists of events

  datatype List = Nil | Cons(head: Event, tail: List)

  function Length(a: List): nat {
    match a
    case Nil => 0
    case Cons(_, t) => 1 + Length(t)
  }

  function Append(a: List, b: List): List {
    match a
    case Nil => b
    case Cons(h, t) => Cons(h, Append(t, b))
  }

  lemma {:induction false} AppendLength(a: List, b: List)
    ensures Length(Append(a, b)) == Length(a) + Length(b)
  {
    if a.Cons? {
      AppendLength(a.tail, b);
    }
  }

  lemma {:induction false} AppendAppend(a: List, b: List, c: List)
    ensures Append(Append(a, b), c) == Append(a, Append(b, c))
  {
    if a.Cons? {
      AppendAppend(a.tail, b, c);
    }
  }

  lemma {:induction false} AppendNil(a: List)
    ensures Append(a, Nil) == a
  {
    if a.Cons? {
      AppendNil(a.tail);
    }
  }

  function Sequence(a: List): seq<Event> {
    match a
    case Nil => []
    case Cons(h, t) => [h] + Sequence(t)
  }

  function One(e: Event): List {
    Cons(e, Nil)
  }

  // ---------------------------------------------------------------- names

  predicate IsDot(name: string) {
    name == "." || name == ".."
  }

  // ---------------------------------------------------------------- the entries of a directory

  /** fts_build leaves the entry out. */
  predicate Leaves(w: World, e: Dirent) {
    !w.seedot && IsDot(e.name)
  }

  /** Those of the first n entries that fts_build keeps. */
  function Seen(w: World, entries: seq<Dirent>, n: nat): seq<Dirent>
    requires n <= |entries|
  {
    if n == 0 then []
    else Seen(w, entries, n - 1) + if Leaves(w, entries[n - 1]) then [] else [entries[n - 1]]
  }

  function All(w: World, entries: seq<Dirent>): seq<Dirent> {
    Seen(w, entries, |entries|)
  }

  /** The order qsort leaves n items in. */
  predicate Permutes(order: seq<nat>, n: nat) {
    && |order| == n
    && (forall i :: 0 <= i < n ==> order[i] < n)
    && (forall i, j :: 0 <= i < j < n ==> order[i] != order[j])
  }

  /** The items in that order; what is no order leaves them as they are. */
  function Arranged(items: seq<Dirent>, order: seq<nat>): (r: seq<Dirent>)
    ensures |r| == |items|
  {
    if Permutes(order, |items|) then seq(|items|, i requires 0 <= i < |items| => items[order[i]]) else items
  }

  /** A C string that is not empty. */
  predicate Named(e: Dirent) {
    e.name != "" && FtsPath.NUL !in e.name
  }

  /** Names fit struct dirent; the buffer never reaches the limits of its length fields. */
  ghost predicate Fits(w: World) {
    && w.openMax < 0x2000_0000
    && forall id, i :: id in w.dirs && 0 <= i < |w.dirs[id]| ==>
         Named(w.dirs[id][i]) && |w.dirs[id][i].name| <= NAME_MAX
  }

  /** The children of a directory, in the order of the walk. */
  function Kids(w: World, id: Id): (r: seq<Dirent>)
    requires id in w.dirs
  {
    Arranged(All(w, w.dirs[id]), w.arrange(All(w, w.dirs[id])))
  }

  /** What qsort promises: a permutation in the order of the comparison function. */
  ghost predicate Sorts(order: seq<nat>, items: seq<Dirent>, compar: (Dirent, Dirent) -> int) {
    Permutes(order, |items|) && forall i, j :: 0 <= i < j < |items| ==> compar(items[order[i]], items[order[j]]) <= 0
  }

  /** Then the children come in that order, every entry that counts among them and nothing else. */
  lemma KidsSorted(w: World, id: Id, compar: (Dirent, Dirent) -> int)
    requires id in w.dirs && Sorts(w.arrange(All(w, w.dirs[id])), All(w, w.dirs[id]), compar)
    ensures var kids, all := Kids(w, id), All(w, w.dirs[id]);
            && |kids| == |all| && (forall e :: e in kids <==> e in all)
            && forall i, j :: 0 <= i < j < |kids| ==> compar(kids[i], kids[j]) <= 0
  {
    var kids, all, order := Kids(w, id), All(w, w.dirs[id]), w.arrange(All(w, w.dirs[id]));
    forall e | e in all
      ensures e in kids
    {
      var k :| 0 <= k < |all| && all[k] == e;
      var i := Hits(order, |all|, k);
      assert kids[i] == e;
    }
  }

  /** A permutation takes every value. */
  lemma Hits(order: seq<nat>, n: nat, k: nat) returns (i: nat)
    requires Permutes(order, n) && k < n
    ensures i < n && order[i] == k
  {
    ValuesDiffer(order);
    if k !in order {
      Smaller(Values(order), UpTo(n) - {k});
    }
    assert k in Values(order);
    i :| 0 <= i < n && order[i] == k;
  }

  function Values(s: seq<nat>): set<nat> {
    set v | v in s
  }

  lemma {:induction false} ValuesDiffer(s: seq<nat>)
    requires forall i, j :: 0 <= i < j < |s| ==> s[i] != s[j]
    ensures |Values(s)| == |s|
  {
    if s == [] {
      assert Values(s) == {};
    } else {
      var front, last := s[..|s| - 1], s[|s| - 1];
      ValuesDiffer(front);
      assert s == front + [last] && last !in front;
      assert Values(s) == Values(front) + {last};
    }
  }

  function UpTo(n: nat): (r: set<nat>)
    ensures |r| == n && forall v: nat :: v in r <==> v < n
  {
    if n == 0 then {} else UpTo(n - 1) + {n - 1}
  }

  // ---------------------------------------------------------------- errno

  /** What fts_stat of an entry does to errno: a failure sets it, and a link that leads nowhere clears it. */
  function Errno(e: Dirent, deep: bool, errno: bool): bool {
    if deep then true
    else
      match e.target
      case NoStat => true
      case DeadLink => false
      case _ => errno
  }

  /** Whether errno is set once fts_build has read the first n entries; `deep` if they lie at level SHRT_MAX. */
  function ErrnoAfter(w: World, entries: seq<Dirent>, n: nat, deep: bool): bool
    requires n <= |entries|
  {
    if n == 0 then false
    else
      var errno := ErrnoAfter(w, entries, n - 1, deep);
      if Leaves(w, entries[n - 1]) then errno else Errno(entries[n - 1], deep, errno)
  }

  /** fts_build gives up after reading this directory at this level. */
  predicate Spoiled(w: World, id: Id, level: int)
    requires id in w.dirs
  {
    ErrnoAfter(w, w.dirs[id], |w.dirs[id]|, level + 1 >= SHRT_MAX)
  }

  /** That is: an entry that counts could not be examined, and no link that leads nowhere came after it; or any entry
      counts, at level SHRT_MAX. */
  lemma {:induction false} ErrnoMeans(w: World, entries: seq<Dirent>, n: nat, deep: bool)
    requires n <= |entries|
    ensures ErrnoAfter(w, entries, n, deep) <==>
            exists i :: Fails(w, entries, i, deep) && i < n && forall j :: i < j < n ==> !Clears(w, entries, j, deep)
  {
    if n > 0 {
      ErrnoMeans(w, entries, n - 1, deep);
      var e := entries[n - 1];
      if Fails(w, entries, n - 1, deep) {
      } else if Clears(w, entries, n - 1, deep) {
        assert !ErrnoAfter(w, entries, n, deep);
      } else {
        assert ErrnoAfter(w, entries, n, deep) == ErrnoAfter(w, entries, n - 1, deep);
        if ErrnoAfter(w, entries, n, deep) {
          var i :|
            Fails(w, entries, i, deep) && i < n - 1 && forall j :: i < j < n - 1 ==> !Clears(w, entries, j, deep);
          assert forall j :: i < j < n ==> !Clears(w, entries, j, deep);
        }
      }
    }
  }

  predicate Fails(w: World, entries: seq<Dirent>, i: int, deep: bool) {
    0 <= i < |entries| && !Leaves(w, entries[i]) && (deep || entries[i].target.NoStat?)
  }

  predicate Clears(w: World, entries: seq<Dirent>, i: int, deep: bool) {
    0 <= i < |entries| && !Leaves(w, entries[i]) && !deep && entries[i].target.DeadLink?
  }

  // ---------------------------------------------------------------- opening by the text in the path buffer

  /** The text that fts_build leaves in the path buffer: the last entry it has read follows the directory's path. */
  function TextAfter(w: World, id: Id, path: string): string
    requires id in w.dirs
  {
    TextOf(All(w, w.dirs[id]), path)
  }

  function TextOf(read: seq<Dirent>, path: string): string {
    if read == [] then FtsPath.Trim(path) + "/" else FtsPath.Join(path, read[|read| - 1].name)
  }

  /** The directory that a text names, seen from the directory `id` with this path: itself, or one of the first n
      entries. */
  function NamedDir(w: World, id: Id, path: string, text: string): Maybe<Id> {
    if text == path || text == FtsPath.Trim(path) + "/" then Just(id)
    else if id in w.dirs then NamedIn(w.dirs[id], |w.dirs[id]|, path, text)
    else Nothing
  }

  function NamedIn(entries: seq<Dirent>, n: nat, path: string, text: string): Maybe<Id>
    requires n <= |entries|
  {
    if n == 0 then Nothing
    else if FtsPath.Join(path, entries[n - 1].name) == text then IdOfTarget(entries[n - 1].target)
    else NamedIn(entries, n - 1, path, text)
  }

  function IdOfTarget(t: Target): Maybe<Id> {
    if t.Directory? then Just(t.id) else Nothing
  }

  /** What opening the text gives: a directory that can be read, or a failure. */
  function Opened(w: World, id: Id, path: string, text: string): Maybe<Id> {
    var d := NamedDir(w, id, path, text);
    if d.Just? && w.Opens(d.value, text) then d else Nothing
  }

  /** A directory that has been read is opened once more by the text left behind. */
  predicate Again(w: World, id: Id, path: string)
    requires id in w.dirs
  {
    Opened(w, id, path, TextAfter(w, id, path)) == Just(id)
  }

  /** That succeeds exactly if no entry counts, or the last one read is the directory itself; and the text is short
      enough. */
  lemma AgainMeans(w: World, id: Id, path: string)
    requires id in w.dirs && forall e :: e in w.dirs[id] ==> e.name != ""
    ensures var all := All(w, w.dirs[id]);
            Again(w, id, path) <==>
              (all == [] || all[|all| - 1].target == Directory(id)) && |TextAfter(w, id, path)| < w.openMax
  {
    var entries := w.dirs[id];
    var all, text := All(w, entries), TextAfter(w, id, path);
    if all != [] {
      var last := all[|all| - 1];
      LastNamed(w, entries, |entries|, path);
      SeenCounts(w, entries, |entries|);
      assert last in all && |text| == |FtsPath.Trim(path)| + 1 + |last.name|;
    }
  }

  lemma {:induction false} LastNamed(w: World, entries: seq<Dirent>, n: nat, path: string)
    requires n <= |entries| && Seen(w, entries, n) != []
    ensures var seen := Seen(w, entries, n);
            NamedIn(entries, n, path, TextOf(seen, path)) == IdOfTarget(seen[|seen| - 1].target)
  {
    var seen := Seen(w, entries, n);
    if Leaves(w, entries[n - 1]) {
      LastNamed(w, entries, n - 1, path);
      SeenCounts(w, entries, n - 1);
      assert seen[|seen| - 1] in Seen(w, entries, n - 1);
      SameName(path, seen[|seen| - 1].name, entries[n - 1].name);
    }
  }

  lemma {:induction false} SeenCounts(w: World, entries: seq<Dirent>, n: nat)
    requires n <= |entries|
    ensures forall e :: e in Seen(w, entries, n) ==> !Leaves(w, e) && e in entries
  {
    if n > 0 {
      SeenCounts(w, entries, n - 1);
    }
  }

  lemma SameName(path: string, a: string, b: string)
    ensures FtsPath.Join(path, a) == FtsPath.Join(path, b) ==> a == b
  {
    var t := FtsPath.Trim(path) + "/";
    assert FtsPath.Join(path, a)[|t|..] == a && FtsPath.Join(path, b)[|t|..] == b;
  }

  /** fts_children is called in vain: the directory cannot be opened, at first or again. */
  predicate Lost(w: World, id: Id, path: string, level: int, calls: nat) {
    calls > 0 && (!w.Opens(id, path) || (calls > 1 && !Spoiled(w, id, level) && !Again(w, id, path)))
  }

  /** fts_read cannot open it, perhaps because fts_children, finding nothing, has put a slash after its path. */
  predicate Refused(w: World, id: Id, path: string, calls: nat) {
    !w.Opens(id, path) || (calls > 0 && All(w, w.dirs[id]) == [] && !Again(w, id, path))
  }

  // ---------------------------------------------------------------- the recursive walk

  /** fts_stat, by the directories on the way down. */
  function Classify(e: Dirent, ids: seq<Id>): Info {
    if |ids| >= SHRT_MAX then ERR
    else
      match e.target
      case File => F
      case Link => SL
      case DeadLink => SLNONE
      case NoStat => NS
      case Special => Default
      case Directory(id) => if IsDot(e.name) then DOT else if id in ids then DC else D
  }

  /** ...where fts_open makes a directory of a dot. */
  function InfoOf(e: Dirent, ids: seq<Id>): Info {
    var info := Classify(e, ids);
    if ids == [] && info == DOT then D else info
  }

  function ToSet(ids: seq<Id>): set<Id> {
    set i | 0 <= i < |ids| :: ids[i]
  }

  function Left(w: World, ids: seq<Id>): nat {
    |w.dirs.Keys - ToSet(ids)|
  }

  /** A directory on the way down leaves one fewer. */
  lemma LeftShrinks(w: World, ids: seq<Id>, id: Id)
    requires id in w.dirs && id !in ids
    ensures Left(w, ids + [id]) < Left(w, ids)
  {
    var s, t := w.dirs.Keys - ToSet(ids), w.dirs.Keys - ToSet(ids + [id]);
    assert (ids + [id])[|ids|] == id;
    assert forall x :: x in ToSet(ids) ==> x in ToSet(ids + [id]) by {
      forall x | x in ToSet(ids) ensures x in ToSet(ids + [id]) {
        var i :| 0 <= i < |ids| && ids[i] == x;
        assert (ids + [id])[i] == x;
      }
    }
    assert id in s && id !in t && t <= s - {id};
    Smaller(t, s - {id});
    assert |s - {id}| == |s| - 1;
  }

  lemma {:induction false} Smaller<T>(t: set<T>, s: set<T>)
    requires t <= s
    ensures |t| <= |s|
  {
    if t != {} {
      var x :| x in t;
      Smaller(t - {x}, s - {x});
    }
  }

  /** Where an entry is on the way down: the directories above it, the device of its root and the path of its parent. */
  datatype Place = Place(ids: seq<Id>, dev: bv64, dir: string) {
    function Level(): nat { |ids| }
  }

  function PathOf(e: Dirent, p: Place): string {
    if p.Level() == 0 then e.name else FtsPath.Join(p.dir, e.name)
  }

  /** strrchr: what follows the last slash, unless the slash is the whole name. */
  function LeafOf(name: string): string {
    if name == "/" || '/' !in name then name else AfterSlash(name)
  }

  function AfterSlash(name: string): string
    requires '/' in name
  {
    if name[|name| - 1] == '/' then "" else AfterSlash(name[..|name| - 1]) + [name[|name| - 1]]
  }

  function NameOf(e: Dirent, level: int): string {
    if level == 0 then LeafOf(e.name) else e.name
  }

  function Shows(info: Info, e: Dirent, p: Place): Event {
    Event(info, p.Level(), NameOf(e, p.Level()), PathOf(e, p), e.target)
  }

  function DevOf(e: Dirent, p: Place): bv64 {
    if p.Level() > 0 then p.dev else if e.target.Directory? then e.target.id.dev else 0
  }

  function Inner(e: Dirent, p: Place): Place
    requires e.target.Directory?
  {
    Place(p.ids + [e.target.id], DevOf(e, p), PathOf(e, p))
  }

  /** The nodes returned for one entry, n having been returned before. */
  function Walk(w: World, e: Dirent, p: Place, n: nat): List
    decreases Left(w, p.ids), 0, 1
  {
    var info := InfoOf(e, p.ids);
    Cons(Shows(info, e, p), if info == D then Body(w, e, p, n + 1) else Nil)
  }

  lemma DirectoryFirst(e: Dirent, ids: seq<Id>)
    requires InfoOf(e, ids) == D
    ensures e.target.Directory? && e.target.id !in ids
  {
  }

  /** What follows the first visit of a directory, the n-th node. */
  function Body(w: World, e: Dirent, p: Place, n: nat): List
    requires n > 0 && InfoOf(e, p.ids) == D
    decreases Left(w, p.ids), 0, 0
  {
    DirectoryFirst(e, p.ids);
    var id := e.target.id;
    if Lost(w, id, PathOf(e, p), p.Level(), w.list(n - 1)) then Nil
    else if w.skip(n - 1) || (w.xdev && id.dev != DevOf(e, p)) then One(Shows(DP, e, p))
    else if Refused(w, id, PathOf(e, p), w.list(n - 1)) then One(Shows(DNR, e, p))
    else
      LeftShrinks(w, p.ids, id);
      Append(WalkAll(w, Kids(w, id), 0, Inner(e, p), n), One(Shows(DP, e, p)))
  }

  /** The nodes returned for the entries from i on. */
  function WalkAll(w: World, es: seq<Dirent>, i: nat, p: Place, n: nat): List
    requires i <= |es|
    decreases Left(w, p.ids), |es| - i, 2
  {
    if i == |es| then Nil
    else
      var first := Walk(w, es[i], p, n);
      Append(first, WalkAll(w, es, i + 1, p, n + Length(first)))
  }
}
