/** The short options in help output: make_hol, hol_append, hol_entry_short_iterate and argp_hol of
    src/argp/argp-help.c, and their agreement with find_short_option of src/argp/argp-parse.c. */
module ShortOptions {
  import opened Basics
  import opened ArgpOptions
  import opened ArgpGroups

  /** __option_is_short, with the C locale's isprint. */
  predicate Short(o: Opt) {
    !o.doc && 0 < o.key <= 0xFF && 32 <= o.key <= 126
  }

  // ---------------------------------------------------------------- the string that stands for a list of options

  /** The keys of the first p options of l that no earlier short option shadows. */
  function Firsts(l: seq<Opt>, p: nat): seq<int>
    requires p <= |l|
  {
    if p == 0 then []
    else
      var r, o := Firsts(l, p - 1), l[p - 1];
      if Short(o) && o.key !in r then r + [o.key] else r
  }

  lemma NoFirsts(l: seq<Opt>)
    ensures Firsts(l, 0) == []
  {
  }

  lemma NextFirst(l: seq<Opt>, p: nat)
    requires p < |l|
    ensures Firsts(l, p + 1) ==
            Firsts(l, p) + if Short(l[p]) && l[p].key !in Firsts(l, p) then [l[p].key] else []
  {
  }

  /** Option p of l is short and the first such option with its key. */
  ghost predicate Visible(l: seq<Opt>, p: int) {
    0 <= p < |l| && Short(l[p]) && forall q :: 0 <= q < p ==> !IsShort(l[q], l[p].key)
  }

  predicate IsShort(o: Opt, k: int) {
    Short(o) && o.key == k
  }

  lemma {:induction false} FirstsHolds(l: seq<Opt>, p: nat, k: int)
    requires p <= |l|
    ensures k in Firsts(l, p) <==> exists q :: 0 <= q < p && IsShort(l[q], k)
  {
    if p > 0 {
      FirstsHolds(l, p - 1, k);
      assert IsShort(l[p - 1], k) <==> Short(l[p - 1]) && l[p - 1].key == k;
    }
  }

  lemma {:induction false} FirstsPrefix(l: seq<Opt>, p: nat, q: nat)
    requires p <= q <= |l|
    ensures Firsts(l, p) <= Firsts(l, q)
  {
    if p < q {
      FirstsPrefix(l, p, q - 1);
    }
  }

  /** The options that follow make no difference. */
  lemma {:induction false} FirstsOf(l: seq<Opt>, m: seq<Opt>, p: nat)
    requires p <= |l|
    ensures Firsts(l + m, p) == Firsts(l, p)
  {
    if p > 0 {
      FirstsOf(l, m, p - 1);
    }
  }

  /** The string never contains a key twice. */
  lemma {:induction false} NoKeyTwice(l: seq<Opt>, p: nat, i: nat, j: nat)
    requires p <= |l| && i < j < |Firsts(l, p)|
    ensures Firsts(l, p)[i] != Firsts(l, p)[j]
  {
    var r := Firsts(l, p - 1);
    if j < |r| {
      NoKeyTwice(l, p - 1, i, j);
    } else {
      assert Firsts(l, p)[i] == r[i];
    }
  }

  /** Byte so of the string is the option's: it is short and the byte is its key. */
  predicate Wants(o: Opt, shorts: seq<int>, so: nat) {
    Short(o) && so < |shorts| && shorts[so] == o.key
  }

  lemma VisibleIsNew(l: seq<Opt>, p: nat)
    requires p < |l|
    ensures Visible(l, p) <==> Short(l[p]) && l[p].key !in Firsts(l, p)
  {
    FirstsHolds(l, p, l[p].key);
  }

  /** Decoding: with the cursor where the options before p leave it, the next byte is p's exactly when p is visible. */
  lemma Decoding(l: seq<Opt>, p: nat)
    requires p < |l|
    ensures Wants(l[p], Firsts(l, |l|), |Firsts(l, p)|) <==> Visible(l, p)
    ensures |Firsts(l, p + 1)| == |Firsts(l, p)| + if Visible(l, p) then 1 else 0
  {
    var n, k := |Firsts(l, p)|, l[p].key;
    VisibleIsNew(l, p);
    FirstsPrefix(l, p, |l|);
    FirstsPrefix(l, p + 1, |l|);
    if Wants(l[p], Firsts(l, |l|), n) && k in Firsts(l, p) {
      var i :| 0 <= i < n && Firsts(l, p)[i] == k;
      NoKeyTwice(l, |l|, i, n);
    }
  }

  // ---------------------------------------------------------------- entries

  /** struct hol_entry: num options from `first` on in an options array; so is where its short options begin. */
  datatype Entry = Entry(table: seq<Opt>, first: nat, num: nat, so: nat)

  predicate Inside(e: Entry) {
    e.first + e.num <= |e.table|
  }

  function OptionOf(e: Entry, i: nat): Opt
    requires Inside(e) && i < e.num
  {
    e.table[e.first + i]
  }

  /** How many options the first d entries hold. */
  function Start(es: seq<Entry>, d: nat): nat
    requires d <= |es|
  {
    if d == 0 then 0 else Start(es, d - 1) + es[d - 1].num
  }

  /** The first n entries hold the first p options of l in order, each with its place in the string of l. */
  predicate Covers(es: seq<Entry>, n: nat, l: seq<Opt>, p: nat)
    requires n <= |es| && p <= |l|
  {
    if n == 0 then p == 0
    else
      var e := es[n - 1];
      e.num <= p && EntryAt(e, l, p - e.num) && Covers(es, n - 1, l, p - e.num)
  }

  /** The entry holds the options of l from `at` on. */
  predicate EntryAt(e: Entry, l: seq<Opt>, at: nat)
    requires at + e.num <= |l|
  {
    Inside(e) && e.so == |Firsts(l, at)| && forall i :: 0 <= i < e.num ==> OptionOf(e, i) == l[at + i]
  }

  lemma EntryOption(e: Entry, l: seq<Opt>, at: nat, i: nat)
    requires at + e.num <= |l| && EntryAt(e, l, at) && i < e.num
    ensures e.table[e.first + i] == l[at + i]
  {
    assert OptionOf(e, i) == l[at + i];
  }

  /** What follows makes no difference. */
  lemma {:induction false} CoversOf(es: seq<Entry>, more: seq<Entry>, n: nat, l: seq<Opt>, m: seq<Opt>, p: nat)
    requires n <= |es| && p <= |l| && Covers(es, n, l, p)
    ensures Covers(es + more, n, l + m, p)
  {
    if n > 0 {
      var e := es[n - 1];
      CoversOf(es, more, n - 1, l, m, p - e.num);
      FirstsOf(l, m, p - e.num);
      assert forall i :: 0 <= i < e.num ==> OptionOf(e, i) == (l + m)[p - e.num + i];
    }
  }

  lemma CoversPush(es: seq<Entry>, l: seq<Opt>, p: nat, e: Entry)
    requires p + e.num <= |l| && Covers(es, |es|, l, p) && EntryAt(e, l, p)
    ensures Covers(es + [e], |es| + 1, l, p + e.num)
  {
    hide Firsts;
    CoversOf(es, [e], |es|, l, [], p);
    assert l + [] == l;
  }

  lemma {:induction false} CoversTotal(es: seq<Entry>, n: nat, l: seq<Opt>, p: nat)
    requires n <= |es| && p <= |l| && Covers(es, n, l, p)
    ensures Start(es, n) == p
  {
    if n > 0 {
      CoversTotal(es, n - 1, l, p - es[n - 1].num);
    }
  }

  /** Entry d begins after the options of the entries before it. */
  lemma {:induction false} CoversAt(es: seq<Entry>, n: nat, l: seq<Opt>, p: nat, d: nat)
    requires d < n <= |es| && p <= |l| && Covers(es, n, l, p)
    ensures Start(es, d) + es[d].num <= p
    ensures EntryAt(es[d], l, Start(es, d))
  {
    if d < n - 1 {
      CoversAt(es, n - 1, l, p - es[n - 1].num, d);
    } else {
      CoversTotal(es, n - 1, l, p - es[n - 1].num);
    }
  }

  // ---------------------------------------------------------------- the list of a tree

  function Own(a: Argp): seq<Opt> {
    if a.options.Just? then a.options.value else []
  }

  /** All options of the tree, in pre-order. */
  function Listed(a: Argp): seq<Opt>
    decreases a, 1
  {
    Own(a) + ListedOf(a.children)
  }

  function ListedOf(cs: seq<Argp>): seq<Opt>
    decreases cs, 0
  {
    if cs == [] then [] else Listed(cs[0]) + ListedOf(cs[1..])
  }

  /** What make_hol asserts of every options array. */
  predicate Plain(a: Argp)
    decreases a, 1
  {
    (Own(a) != [] ==> !Own(a)[0].alias) && PlainOf(a.children)
  }

  predicate PlainOf(cs: seq<Argp>)
    decreases cs, 0
  {
    cs == [] || (Plain(cs[0]) && PlainOf(cs[1..]))
  }

  lemma {:induction false} PlainAt(cs: seq<Argp>, i: nat)
    requires PlainOf(cs) && i < |cs|
    ensures Plain(cs[i])
  {
    if i > 0 {
      PlainAt(cs[1..], i - 1);
    }
  }

  lemma {:induction false} ListedTake(cs: seq<Argp>, i: nat)
    requires i < |cs|
    ensures ListedOf(cs[..i + 1]) == ListedOf(cs[..i]) + Listed(cs[i])
  {
    if i == 0 {
      assert cs[..1][1..] == [];
      assert cs[..1][0] == cs[0] && ListedOf(cs[..1]) == Listed(cs[0]) + [];
    } else {
      ListedTake(cs[1..], i - 1);
      assert cs[..i + 1][1..] == cs[1..][..i] && cs[..i][1..] == cs[1..][..i - 1];
      assert Listed(cs[0]) + (ListedOf(cs[1..][..i - 1]) + Listed(cs[i])) ==
             (Listed(cs[0]) + ListedOf(cs[1..][..i - 1])) + Listed(cs[i]);
    }
  }

  // ---------------------------------------------------------------- the code

  /** struct hol. */
  class Hol {
    var entries: seq<Entry>
    /** The string, without its terminator. */
    var shortOptions: seq<int>

    /** This is the help list of the first p options of l. */
    predicate Represents(l: seq<Opt>, p: nat)
      reads this
      requires p <= |l|
    {
      Covers(entries, |entries|, l, p) && shortOptions == Firsts(l, p)
    }

    /** make_hol. */
    constructor (a: Argp)
      requires Own(a) != [] ==> !Own(a)[0].alias
      ensures Represents(Own(a), |Own(a)|)
    {
      entries, shortOptions := [], [];
      new;
      var opts := Own(a);
      var o := 0;
      while o < |opts|
        modifies this
        invariant o <= |opts| && Represents(opts, o)
      {
        o := AddEntry(opts, o);
      }
    }

    /** One entry of make_hol: an option and the aliases that follow it. */
    method AddEntry(opts: seq<Opt>, o: nat) returns (end: nat)
      requires o < |opts| && Represents(opts, o)
      modifies this
      ensures o < end <= |opts| && Represents(opts, end)
      ensures end < |opts| ==> !opts[end].alias
      ensures forall i :: o < i < end ==> opts[i].alias
    {
      var so := |shortOptions|;
      end := TakeAliases(opts, o);
      var e := Entry(opts, o, end - o, so);
      CoversPush(entries, opts, o, e);
      entries := entries + [e];
    }

    method TakeAliases(opts: seq<Opt>, o: nat) returns (end: nat)
      requires o < |opts| && shortOptions == Firsts(opts, o)
      modifies this`shortOptions
      ensures o < end <= |opts| && shortOptions == Firsts(opts, end)
      ensures end < |opts| ==> !opts[end].alias
      ensures forall i :: o < i < end ==> opts[i].alias
    {
      end := o;
      while end == o || (end < |opts| && opts[end].alias)
        invariant o <= end <= |opts| && shortOptions == Firsts(opts, end)
        invariant forall i :: o < i < end ==> opts[i].alias
        decreases |opts| - end
      {
        if Short(opts[end]) && opts[end].key !in shortOptions {
          shortOptions := shortOptions + [opts[end].key];
        }
        end := end + 1;
      }
    }

    /** hol_append. */
    method Append(more: Hol, ghost l: seq<Opt>, ghost m: seq<Opt>)
      requires Represents(l, |l|) && more.Represents(m, |m|) && more != this
      modifies this
      ensures Represents(l + m, |l + m|)
    {
      CoversOf(entries, [], |entries|, l, m, |l|);
      assert entries + [] == entries;
      FirstsOf(l, m, |l|);
      if more.entries == [] {
        assert l + m == l;
      } else if entries == [] {
        entries, shortOptions := more.entries, more.shortOptions;
        assert l + m == m;
      } else {
        AppendAll(more.entries, more.shortOptions, l, m, l + m);
      }
    }

    /** The loop of hol_append. */
    method AppendAll(es: seq<Entry>, shorts: seq<int>, ghost l: seq<Opt>, ghost m: seq<Opt>, ghost both: seq<Opt>)
      requires both == l + m && Represents(both, |l|) && shortOptions == Firsts(l, |l|)
      requires Covers(es, |es|, m, |m|) && shorts == Firsts(m, |m|)
      modifies this
      ensures Represents(both, |both|)
    {
      hide Covers, EntryAt, Firsts;
      NoFirsts(m);
      var shadow, so, d := shortOptions, 0, 0;
      ghost var at, n := 0, |l|;
      while d < |es|
        invariant d <= |es| && at == Start(es, d) && n == |l| + at <= |both|
        invariant Represents(both, n) && so == |Firsts(m, at)|
      {
        CoversAt(es, |es|, m, |m|, d);
        so := AppendEntry(es[d], shadow, shorts, so, l, m, both, at, n);
        at, n, d := at + es[d].num, n + es[d].num, d + 1;
      }
      CoversTotal(es, d, m, |m|);
    }

    /** One entry of hol_append: its short options that this list does not shadow are copied. */
    method AppendEntry(e: Entry, shadow: seq<int>, moreShorts: seq<int>, moreSo: nat,
                       ghost l: seq<Opt>, ghost m: seq<Opt>, ghost both: seq<Opt>, ghost at: nat, ghost n: nat)
      returns (so: nat)
      requires at + e.num <= |m| && EntryAt(e, m, at) && both == l + m && n == |l| + at
      requires shadow == Firsts(l, |l|) && moreShorts == Firsts(m, |m|) && moreSo == |Firsts(m, at)|
      requires Represents(both, n)
      modifies this
      ensures Represents(both, n + e.num) && so == |Firsts(m, at + e.num)|
    {
      var start := |shortOptions|;
      so := CopyShorts(e, shadow, moreShorts, moreSo, l, m, both, at, n);
      Push(e.(so := start), e, l, m, both, at, n);
    }

    method Push(e: Entry, ghost was: Entry, ghost l: seq<Opt>, ghost m: seq<Opt>, ghost both: seq<Opt>, ghost at: nat,
                ghost n: nat)
      requires at + was.num <= |m| && EntryAt(was, m, at) && both == l + m && n == |l| + at
      requires Covers(entries, |entries|, both, n) && e == was.(so := |Firsts(both, n)|)
      modifies this`entries
      ensures Covers(entries, |entries|, both, n + e.num)
    {
      assert Inside(e) && e.num == was.num;
      forall i | 0 <= i < e.num ensures OptionOf(e, i) == both[n + i] {
        EntryOption(was, m, at, i);
      }
      CoversPush(entries, both, n, e);
      entries := entries + [e];
    }

    method CopyShorts(e: Entry, shadow: seq<int>, moreShorts: seq<int>, moreSo: nat,
                      ghost l: seq<Opt>, ghost m: seq<Opt>, ghost both: seq<Opt>, ghost at: nat, ghost n: nat)
      returns (so: nat)
      requires at + e.num <= |m| && EntryAt(e, m, at) && both == l + m && n == |l| + at
      requires shadow == Firsts(l, |l|) && moreShorts == Firsts(m, |m|) && moreSo == |Firsts(m, at)|
      requires shortOptions == Firsts(both, n)
      modifies this`shortOptions
      ensures shortOptions == Firsts(both, n + e.num) && so == |Firsts(m, at + e.num)|
    {
      so := moreSo;
      var i := 0;
      ghost var p, q := at, n;
      while i < e.num
        invariant i <= e.num && p == at + i && q == n + i && so == |Firsts(m, p)| && shortOptions == Firsts(both, q)
      {
        var o := e.table[e.first + i];
        EntryOption(e, m, at, i);
        Decoding(m, p);
        CopyingOne(l, m, both, p, q);
        if Wants(o, moreShorts, so) {
          if o.key !in shadow {
            shortOptions := shortOptions + [o.key];
          }
          so := so + 1;
        }
        i, p, q := i + 1, p + 1, q + 1;
      }
    }

    /** hol_entry_short_iterate: the options of entry d its callback is called with, by their place in the entry, and
        the option each is an alias of. */
    method ShortIterate(d: nat, ghost l: seq<Opt>) returns (shown: seq<nat>, reals: seq<nat>)
      requires Represents(l, |l|) && d < |entries|
      ensures shown == Shown(l, Start(entries, d), entries[d].num)
      ensures Inside(entries[d]) && reals == Reals(entries[d], shown)
    {
      var e := entries[d];
      ghost var m := Start(entries, d);
      CoversAt(entries, |entries|, l, |l|, d);
      var so, target, i := e.so, 0, 0;
      shown, reals := [], [];
      assert Iterated(e, l, m, i, so, target, shown, reals);
      hide Iterated, Firsts, Covers, Reals;
      while i < e.num
        invariant i <= e.num && Iterated(e, l, m, i, so, target, shown, reals)
      {
        var o := OptionOf(e, i);
        IteratedStep(e, l, m, i, so, target, shown, reals);
        if Wants(o, shortOptions, so) {
          if !o.alias {
            target := i;
          }
          shown, reals := shown + [i], reals + [target];
          so := so + 1;
        }
        i := i + 1;
      }
    }
  }

  /** The loop of hol_entry_short_iterate after i options. */
  ghost predicate Iterated(e: Entry, l: seq<Opt>, at: nat, i: nat, so: nat, target: nat, shown: seq<nat>,
                           reals: seq<nat>)
    requires Inside(e) && at + i <= |l|
  {
    && so == |Firsts(l, at + i)| && shown == Shown(l, at, i) && reals == Reals(e, shown)
    && target == if shown == [] then 0 else reals[|shown| - 1]
  }

  lemma IteratedStep(e: Entry, l: seq<Opt>, at: nat, i: nat, so: nat, target: nat, shown: seq<nat>, reals: seq<nat>)
    requires at + e.num <= |l| && EntryAt(e, l, at) && i < e.num && Iterated(e, l, at, i, so, target, shown, reals)
    ensures var next := if OptionOf(e, i).alias then target else i;
            if Wants(OptionOf(e, i), Firsts(l, |l|), so) then
              Iterated(e, l, at, i + 1, so + 1, next, shown + [i], reals + [next])
            else
              Iterated(e, l, at, i + 1, so, target, shown, reals)
  {
    hide Firsts, Visible, Reals, Shown;
    EntryOption(e, l, at, i);
    Decoding(l, at + i);
    ShownNext(l, at, i, at + i);
    if Visible(l, at + i) {
      IteratedShown(e, l, at, i, so, target, shown, reals);
    }
  }

  lemma IteratedShown(e: Entry, l: seq<Opt>, at: nat, i: nat, so: nat, target: nat, shown: seq<nat>, reals: seq<nat>)
    requires at + e.num <= |l| && Inside(e) && i < e.num && Iterated(e, l, at, i, so, target, shown, reals)
    requires |Firsts(l, at + i + 1)| == so + 1 && Shown(l, at, i + 1) == shown + [i]
    ensures var next := if OptionOf(e, i).alias then target else i;
            Iterated(e, l, at, i + 1, so + 1, next, shown + [i], reals + [next])
  {
    RealsPush(e, shown, i);
  }

  /** The visible ones of the n options from `at` on. */
  ghost function Shown(l: seq<Opt>, at: nat, n: nat): seq<nat> {
    if n == 0 then []
    else
      var r := Shown(l, at, n - 1);
      if Visible(l, at + n - 1) then r + [n - 1] else r
  }

  lemma ShownNext(l: seq<Opt>, at: nat, n: nat, p: nat)
    requires p == at + n
    ensures Shown(l, at, n + 1) == Shown(l, at, n) + if Visible(l, p) then [n] else []
  {
  }

  lemma {:induction false} ShownMeans(l: seq<Opt>, at: nat, n: nat)
    ensures forall i :: i in Shown(l, at, n) <==> 0 <= i < n && Visible(l, at + i)
    ensures forall i, j :: 0 <= i < j < |Shown(l, at, n)| ==> Shown(l, at, n)[i] < Shown(l, at, n)[j]
  {
    if n > 0 {
      ShownMeans(l, at, n - 1);
      var r := Shown(l, at, n - 1);
      assert forall j :: 0 <= j < |r| ==> r[j] in r;
    }
  }

  /** An alias stands for what the option shown before it stands for, or the entry's first option when there is none;
      any other option for itself. */
  function Reals(e: Entry, shown: seq<nat>): (r: seq<nat>)
    requires Inside(e)
    ensures |r| == |shown|
  {
    if shown == [] then []
    else
      var r, i := Reals(e, shown[..|shown| - 1]), shown[|shown| - 1];
      r + [if i < e.num && !e.table[e.first + i].alias then i else if r == [] then 0 else r[|r| - 1]]
  }

  /** That is, the last option shown so far that is no alias; the entry's first option when there is none. */
  lemma {:induction false} RealsMean(e: Entry, shown: seq<nat>, j: nat)
    requires Inside(e) && j < |shown| && (forall i :: 0 <= i < |shown| ==> shown[i] < e.num) && Ascending(shown)
    ensures var r := Reals(e, shown)[j];
            && (forall i :: 0 <= i <= j && !OptionOf(e, shown[i]).alias ==> shown[i] <= r)
            && (r == 0 || exists i :: 0 <= i <= j && shown[i] == r && !OptionOf(e, r).alias)
  {
    var front, last := shown[..|shown| - 1], shown[|shown| - 1];
    assert forall i :: 0 <= i < |front| ==> front[i] == shown[i];
    if j < |front| {
      RealsMean(e, front, j);
      assert Reals(e, shown)[j] == Reals(e, front)[j];
      var r := Reals(e, shown)[j];
      if r != 0 {
        var i :| 0 <= i <= j && front[i] == r && !OptionOf(e, r).alias;
        assert shown[i] == r;
      }
    } else {
      if OptionOf(e, last).alias && front != [] {
        RealsMean(e, front, |front| - 1);
        var r := Reals(e, front)[|front| - 1];
        if r != 0 {
          var i :| 0 <= i <= |front| - 1 && front[i] == r && !OptionOf(e, r).alias;
          assert shown[i] == r;
        }
      } else {
        assert shown[j] == last;
      }
    }
  }

  lemma RealsPush(e: Entry, shown: seq<nat>, i: nat)
    requires Inside(e) && i < e.num
    ensures var r := Reals(e, shown);
            Reals(e, shown + [i]) == r + [if !e.table[e.first + i].alias then i else if r == [] then 0 else r[|r| - 1]]
  {
    assert (shown + [i])[..|shown|] == shown;
  }

  /** What an option of the list m, appended to the list l, adds to the string. */
  lemma CopyingOne(l: seq<Opt>, m: seq<Opt>, both: seq<Opt>, p: nat, q: nat)
    requires p < |m| && both == l + m && q == |l| + p
    ensures Firsts(both, q + 1) ==
            Firsts(both, q) + if Visible(m, p) && m[p].key !in Firsts(l, |l|) then [m[p].key] else []
  {
    VisibleIsNew(m, p);
    FirstsSum(l, m, p, m[p].key);
    assert both[q] == m[p];
  }

  lemma {:induction false} FirstsSum(l: seq<Opt>, m: seq<Opt>, p: nat, k: int)
    requires p <= |m|
    ensures k in Firsts(l + m, |l| + p) <==> k in Firsts(l, |l|) || k in Firsts(m, p)
  {
    hide Firsts;
    if p == 0 {
      FirstsOf(l, m, |l|);
      NoFirsts(m);
    } else {
      FirstsSum(l, m, p - 1, k);
      FirstsSum(l, m, p - 1, m[p - 1].key);
      assert (l + m)[|l| + p - 1] == m[p - 1];
      NextFirst(l + m, |l| + p - 1);
      NextFirst(m, p - 1);
    }
  }

  /** argp_hol: the list of the whole tree, however the appends nest. */
  method ArgpHol(a: Argp) returns (hol: Hol)
    requires Plain(a)
    ensures fresh(hol) && hol.Represents(Listed(a), |Listed(a)|)
    decreases a, 1
  {
    hol := new Hol(a);
    ghost var l := Own(a);
    var i := 0;
    assert a.children[..0] == [] && Own(a) + [] == Own(a);
    while i < |a.children|
      invariant i <= |a.children| && fresh(hol) && hol.Represents(l, |l|)
      invariant l == Own(a) + ListedOf(a.children[..i])
    {
      PlainAt(a.children, i);
      AppendChild(hol, l, a.children[i]);
      ListedTake(a.children, i);
      Associate(Own(a), ListedOf(a.children[..i]), Listed(a.children[i]));
      l, i := l + Listed(a.children[i]), i + 1;
    }
    assert a.children[..i] == a.children;
  }

  method AppendChild(hol: Hol, ghost l: seq<Opt>, child: Argp)
    requires Plain(child) && hol.Represents(l, |l|)
    modifies hol
    ensures hol.Represents(l + Listed(child), |l + Listed(child)|)
    decreases child, 2
  {
    var more := ArgpHol(child);
    hol.Append(more, l, Listed(child));
  }

  // ---------------------------------------------------------------- agreement with the parser

  /** The options of the groups of a parser, in order. */
  function Joined(t: Table): seq<Opt> {
    if t == [] then [] else t[0].opts + Joined(t[1..])
  }

  function TableOf(members: seq<Member>): Table {
    seq(|members|, i requires 0 <= i < |members| => Group(members[i].argp.id, Own(members[i].argp)))
  }

  /** Where an option of the table stands in the joined list. */
  function Place(t: Table, s: Slot): nat
    requires In(t, s)
  {
    if s.g == 0 then s.i else |t[0].opts| + Place(t[1..], Slot(s.g - 1, s.i))
  }

  lemma {:induction false} PlaceHolds(t: Table, s: Slot)
    requires In(t, s)
    ensures Place(t, s) < |Joined(t)| && Joined(t)[Place(t, s)] == At(t, s)
    decreases |t|
  {
    if s.g > 0 {
      PlaceHolds(t[1..], Slot(s.g - 1, s.i));
    }
  }

  lemma {:induction false} SlotOf(t: Table, p: nat) returns (s: Slot)
    requires p < |Joined(t)|
    ensures In(t, s) && Place(t, s) == p
    decreases |t|
  {
    if p < |t[0].opts| {
      s := Slot(0, p);
    } else {
      var r := SlotOf(t[1..], p - |t[0].opts|);
      s := Slot(r.g + 1, r.i);
    }
  }

  lemma {:induction false} PlaceOrder(t: Table, a: Slot, b: Slot)
    requires In(t, a) && In(t, b) && Earlier(a, b)
    ensures Place(t, a) < Place(t, b)
    decreases |t|
  {
    if a.g > 0 {
      PlaceOrder(t[1..], Slot(a.g - 1, a.i), Slot(b.g - 1, b.i));
    }
  }

  /** find_short_option picks the first option of the joined list that carries the key, short or not. */
  lemma ParserPicks(t: Table, k: int)
    ensures var r := FindShort(t, k);
            if r.Just? then
              && In(t, r.value) && Place(t, r.value) < |Joined(t)| && Joined(t)[Place(t, r.value)].key == k
              && forall q :: 0 <= q < Place(t, r.value) ==> Joined(t)[q].key != k
            else
              forall q :: 0 <= q < |Joined(t)| ==> Joined(t)[q].key != k
  {
    var r := FindShort(t, k);
    if r.Just? {
      PlaceHolds(t, r.value);
    }
    forall q | 0 <= q < (if r.Just? then Place(t, r.value) else |Joined(t)|) ensures Joined(t)[q].key != k {
      if r.Just? {
        PlaceHolds(t, r.value);
      }
      var s := SlotOf(t, q);
      PlaceHolds(t, s);
      if r.Just? && !Earlier(s, r.value) && s != r.value {
        PlaceOrder(t, r.value, s);
      }
    }
  }

  /** Help shows option p of the list for the key. */
  ghost predicate ShownFor(l: seq<Opt>, k: int, p: int) {
    Visible(l, p) && l[p].key == k
  }

  /** For a printable key, the option help shows is the one the parser takes, for every table; that is so exactly
      when the first option that carries the key is no OPTION_DOC. */
  lemma Agreement(t: Table, k: int)
    requires 32 <= k <= 126
    ensures (forall p :: ShownFor(Joined(t), k, p) <==>
               FindShort(t, k).Just? && In(t, FindShort(t, k).value) && p == Place(t, FindShort(t, k).value))
       <==> (FindShort(t, k).Just? ==> In(t, FindShort(t, k).value) && !At(t, FindShort(t, k).value).doc)
  {
    var l, r := Joined(t), FindShort(t, k);
    ParserPicks(t, k);
    if r.Just? {
      var p := Place(t, r.value);
      PlaceHolds(t, r.value);
      assert l[p].doc == At(t, r.value).doc;
      if !l[p].doc {
        assert Visible(l, p);
        forall q | ShownFor(l, k, q) ensures q == p {
          assert IsShort(l[p], k) && IsShort(l[q], k);
        }
      } else {
        assert !ShownFor(l, k, p);
      }
    }
  }

  /** A table that shows the disagreement: the parser takes a documentation entry as the option -a, help shows none. */
  lemma DocEntryTaken()
    ensures var t := [Group(0, [Opt(97, Just("note"), false, false, false, true)])];
            FindShort(t, 97) == Just(Slot(0, 0)) && forall p :: !ShownFor(Joined(t), 97, p)
  {
    var t := [Group(0, [Opt(97, Just("note"), false, false, false, true)])];
    Agreement(t, 97);
    assert t[1..] == [];
    assert Joined(t) == t[0].opts;
  }

  // ---------------------------------------------------------------- the tree and its groups

  lemma {:induction false} JoinedSum(t: Table, u: Table)
    ensures Joined(t + u) == Joined(t) + Joined(u)
    decreases |t|
  {
    if t == [] {
      assert t + u == u;
    } else {
      assert (t + u)[1..] == t[1..] + u;
      JoinedSum(t[1..], u);
      Associate(t[0].opts, Joined(t[1..]), Joined(u));
    }
  }

  lemma TableSum(x: seq<Member>, y: seq<Member>)
    ensures TableOf(x + y) == TableOf(x) + TableOf(y)
  {
  }

  /** The options of the groups of a tree are its options in pre-order. */
  lemma {:induction false} GroupsList(a: Argp, parent: Maybe<nat>, parentIndex: nat, at: nat, slots: nat)
    ensures Joined(TableOf(Flatten(a, parent, parentIndex, at, slots))) == Listed(a)
    decreases a, 1
  {
    if NeedsGroup(a) {
      var me := Member(a, parent, parentIndex, slots);
      var rest := FlattenOf(a.children, Just(at), 0, at + 1, slots + |a.children|);
      GroupsListOf(a.children, Just(at), 0, at + 1, slots + |a.children|);
      TableSum([me], rest);
      JoinedSum(TableOf([me]), TableOf(rest));
      assert TableOf([me]) == [Group(a.id, Own(a))];
      assert TableOf([me])[1..] == [] && Own(a) + [] == Own(a);
    } else {
      GroupsListOf(a.children, Nothing, 0, at, slots);
      assert [] + ListedOf(a.children) == ListedOf(a.children);
    }
  }

  lemma {:induction false} GroupsListOf(cs: seq<Argp>, parent: Maybe<nat>, index: nat, at: nat, slots: nat)
    ensures Joined(TableOf(FlattenOf(cs, parent, index, at, slots))) == ListedOf(cs)
    decreases cs, 0
  {
    if cs != [] {
      var first := Flatten(cs[0], parent, index, at, slots);
      var rest := FlattenOf(cs[1..], parent, index + 1, at + Groups(cs[0]), slots + Slots(cs[0]));
      GroupsList(cs[0], parent, index, at, slots);
      GroupsListOf(cs[1..], parent, index + 1, at + Groups(cs[0]), slots + Slots(cs[0]));
      TableSum(first, rest);
      JoinedSum(TableOf(first), TableOf(rest));
    }
  }

  /** Help and parser made from the same tree: they agree on a key exactly when the first option that carries it in
      pre-order is no OPTION_DOC. */
  lemma TreeAgreement(a: Argp, k: int)
    requires 32 <= k <= 126
    ensures var t := TableOf(Flatten(a, Nothing, 0, 0, 0)); var r := FindShort(t, k);
            (forall p :: ShownFor(Listed(a), k, p) <==> (r.Just? && In(t, r.value) && p == Place(t, r.value)))
            <==> (r.Just? ==> In(t, r.value) && !At(t, r.value).doc)
  {
    GroupsList(a, Nothing, 0, 0, 0);
    Agreement(TableOf(Flatten(a, Nothing, 0, 0, 0)), k);
  }

  // ---------------------------------------------------------------- help and parser, run side by side

  predicate Ascending(s: seq<nat>) {
    forall i, j :: 0 <= i < j < |s| ==> s[i] < s[j]
  }

  /** The places from `at` up to `end` at which help shows the key. */
  ghost predicate Finds(places: seq<nat>, l: seq<Opt>, k: int, at: nat, end: nat) {
    Ascending(places) && forall p :: p in places <==> at <= p < end && ShownFor(l, k, p)
  }

  lemma FindsPush(places: seq<nat>, l: seq<Opt>, k: int, at: nat, p: nat, end: nat)
    requires Finds(places, l, k, at, p) && at <= p < end
    requires forall q :: p < q < end ==> !ShownFor(l, k, q)
    ensures if ShownFor(l, k, p) then Finds(places + [p], l, k, at, end) else Finds(places, l, k, at, end)
  {
    assert forall i :: 0 <= i < |places| ==> places[i] in places;
  }

  lemma FindsNone(l: seq<Opt>, k: int)
    ensures Finds([], l, k, 0, 0)
  {
  }

  lemma FindsJoin(a: seq<nat>, b: seq<nat>, l: seq<Opt>, k: int, at: nat, mid: nat, end: nat)
    requires Finds(a, l, k, at, mid) && Finds(b, l, k, mid, end) && at <= mid <= end
    ensures Finds(a + b, l, k, at, end)
  {
    assert forall i :: 0 <= i < |a| ==> a[i] in a;
    assert forall i :: 0 <= i < |b| ==> b[i] in b;
  }

  /** The options of entry d that the callback of hol_entry_short_iterate is given for key k. */
  method EntryPlaces(hol: Hol, d: nat, k: int, at: nat, ghost l: seq<Opt>) returns (places: seq<nat>)
    requires hol.Represents(l, |l|) && d < |hol.entries| && at == Start(hol.entries, d)
    ensures Finds(places, l, k, at, at + hol.entries[d].num)
  {
    var e := hol.entries[d];
    CoversAt(hol.entries, |hol.entries|, l, |l|, d);
    var shown, reals := hol.ShortIterate(d, l);
    ShownMeans(l, at, e.num);
    places := [];
    var j := 0;
    ghost var next := 0;
    while j < |shown|
      invariant j <= |shown| && next == (if j == 0 then 0 else shown[j - 1] + 1) <= e.num
      invariant Finds(places, l, k, at, at + next)
    {
      var i := shown[j];
      assert i in shown;
      EntryOption(e, l, at, i);
      ShownBetween(l, at, e.num, shown, j, next);
      FindsGap(places, l, k, at, at + next, at + i);
      FindsPush(places, l, k, at, at + i, at + i + 1);
      if e.table[e.first + i].key == k {
        places := places + [at + i];
      }
      j, next := j + 1, i + 1;
    }
    ShownBetween(l, at, e.num, shown, j, next);
    FindsGap(places, l, k, at, at + next, at + e.num);
  }

  /** Between two options shown none is visible. */
  lemma ShownBetween(l: seq<Opt>, at: nat, n: nat, shown: seq<nat>, j: nat, next: nat)
    requires shown == Shown(l, at, n) && j <= |shown|
    requires next == if j == 0 then 0 else shown[j - 1] + 1
    ensures forall p :: at + next <= p < at + (if j < |shown| then shown[j] else n) ==> !Visible(l, p)
    ensures j < |shown| ==> next <= shown[j] < n && Visible(l, at + shown[j])
  {
    ShownMeans(l, at, n);
    if j < |shown| {
      assert shown[j] in shown;
    }
    forall p | at + next <= p < at + (if j < |shown| then shown[j] else n)
      ensures !Visible(l, p)
    {
      var i := p - at;
      assert forall m :: 0 <= m < j ==> shown[m] <= shown[j - 1];
      assert forall m :: j <= m < |shown| ==> shown[j] <= shown[m];
      assert i !in shown;
      assert !Visible(l, at + i);
    }
  }

  lemma FindsGap(places: seq<nat>, l: seq<Opt>, k: int, at: nat, mid: nat, end: nat)
    requires Finds(places, l, k, at, mid) && at <= mid <= end
    requires forall p :: mid <= p < end ==> !Visible(l, p)
    ensures Finds(places, l, k, at, end)
  {
  }

  /** The help list of the tree, decoded entry by entry: the places of the options shown for the key. */
  method HelpShows(a: Argp, k: int) returns (places: seq<nat>)
    requires Plain(a)
    ensures Finds(places, Listed(a), k, 0, |Listed(a)|)
  {
    hide Firsts, Covers, Finds, Listed;
    var hol := ArgpHol(a);
    ghost var l := Listed(a);
    var d, at := 0, 0;
    places := [];
    FindsNone(l, k);
    while d < |hol.entries|
      invariant d <= |hol.entries| && at == Start(hol.entries, d) && Finds(places, l, k, 0, at)
      invariant hol.Represents(l, |l|)
    {
      var more := EntryPlaces(hol, d, k, at, l);
      FindsJoin(places, more, l, k, 0, at, at + hol.entries[d].num);
      places := places + more;
      at, d := at + hol.entries[d].num, d + 1;
    }
    CoversTotal(hol.entries, d, l, |l|);
  }

  /** Help and parser at work on the same tree: the option the parser takes for the key is the one and only option help
      shows for it, exactly when the first option with the key is no OPTION_DOC. */
  method HelpAndParser(a: Argp, k: int) returns (places: seq<nat>, taken: Maybe<nat>, doc: bool)
    requires Plain(a) && 32 <= k <= 126
    ensures var t := TableOf(Flatten(a, Nothing, 0, 0, 0)); var r := FindShort(t, k);
            && (r.Just? ==> In(t, r.value) && taken == Just(Place(t, r.value)) && doc == At(t, r.value).doc)
            && (r.Nothing? ==> taken == Nothing && !doc)
    ensures Finds(places, Listed(a), k, 0, |Listed(a)|)
    ensures places == (if taken.Just? then [taken.value] else []) <==> !doc
  {
    places := HelpShows(a, k);
    var groups, total := ConvertAll(a);
    var t := TableOf(groups);
    var r := FindShortOption(t, k);
    taken, doc := Nothing, false;
    if r.Just? {
      taken, doc := Just(Place(t, r.value)), At(t, r.value).doc;
    }
    TreeAgreement(a, k);
    GroupsList(a, Nothing, 0, 0, 0);
    ParserPicks(t, k);
    OnlyPlace(places, Listed(a), k, taken);
  }

  ghost predicate Only(l: seq<Opt>, k: int, taken: Maybe<nat>) {
    forall p :: ShownFor(l, k, p) <==> taken.Just? && p == taken.value
  }

  /** The list of the places has one element, or none, exactly when the set of them has. */
  lemma OnlyPlace(places: seq<nat>, l: seq<Opt>, k: int, taken: Maybe<nat>)
    requires Finds(places, l, k, 0, |l|)
    ensures places == (if taken.Just? then [taken.value] else []) <==> Only(l, k, taken)
  {
    assert forall j :: 0 <= j < |places| ==> places[j] in places && ShownFor(l, k, places[j]);
    if taken.Nothing? {
      assert places == [] ==> forall p :: ShownFor(l, k, p) ==> p in places;
      assert places != [] ==> ShownFor(l, k, places[0]);
    } else {
      var v := taken.value;
      assert places == [v] ==> v in places && forall p :: ShownFor(l, k, p) ==> p in places;
      if Only(l, k, taken) {
        assert ShownFor(l, k, v);
        assert v in places;
        AllAlike(places, v);
      }
    }
  }

  lemma AllAlike(s: seq<nat>, v: nat)
    requires Ascending(s) && s != [] && forall j :: 0 <= j < |s| ==> s[j] == v
    ensures s == [v]
  {
    var last := |s| - 1;
    assert s[0] == v && s[last] == v;
  }
}
