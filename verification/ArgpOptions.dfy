/** The option tables of src/argp/argp-parse.c and the two searches in them. */
module ArgpOptions {
  import opened Basics

  /** struct argp_option, without the fields that only help output uses. */
  datatype Opt = Opt(key: int, name: Maybe<string>, arg: bool, argOptional: bool, alias: bool, doc: bool)

  /** struct group: `id` stands for the address of the options array, up to its end marker. */
  datatype Group = Group(id: nat, opts: seq<Opt>)

  type Table = seq<Group>

  datatype Slot = Slot(g: nat, i: nat)

  predicate In(t: Table, s: Slot) {
    s.g < |t| && s.i < |t[s.g].opts|
  }

  function At(t: Table, s: Slot): Opt
    requires In(t, s)
  {
    t[s.g].opts[s.i]
  }

  /** Pre-order of the parser tree: by group, then by place in the options array. */
  predicate Earlier(a: Slot, b: Slot) {
    a.g < b.g || (a.g == b.g && a.i < b.i)
  }

  /** s is the first slot that satisfies p. */
  ghost predicate IsFirst(t: Table, p: Opt -> bool, s: Slot) {
    In(t, s) && p(At(t, s)) && forall r | In(t, r) && Earlier(r, s) :: !p(At(t, r))
  }

  ghost predicate NoSlot(t: Table, p: Opt -> bool) {
    forall r | In(t, r) :: !p(At(t, r))
  }

  // ---------------------------------------------------------------- short options

  function KeyIs(key: int): Opt -> bool { (o: Opt) => o.key == key }

  /** The first slot with a property, from s on. */
  function FirstFrom(t: Table, p: Opt -> bool, s: Slot): (r: Maybe<Slot>)
    ensures r.Just? ==> In(t, r.value) && p(At(t, r.value)) && !Earlier(r.value, s)
    ensures forall q | In(t, q) && !Earlier(q, s) && (r.Just? ==> Earlier(q, r.value)) :: !p(At(t, q))
    decreases |t| - s.g, if s.g < |t| then |t[s.g].opts| - s.i else 0
  {
    if s.g >= |t| then Nothing
    else if s.i >= |t[s.g].opts| then FirstFrom(t, p, Slot(s.g + 1, 0))
    else if p(t[s.g].opts[s.i]) then Just(s)
    else FirstFrom(t, p, Slot(s.g, s.i + 1))
  }

  function FindShort(t: Table, key: int): Maybe<Slot> {
    FirstFrom(t, KeyIs(key), Slot(0, 0))
  }

  /** find_short_option: the first option with the key, in pre-order. */
  method FindShortOption(t: Table, key: int) returns (r: Maybe<Slot>)
    ensures r == FindShort(t, key)
    ensures r.Just? ==> IsFirst(t, KeyIs(key), r.value)
    ensures r.Nothing? ==> NoSlot(t, KeyIs(key))
  {
    var g := 0;
    while g < |t|
      invariant g <= |t|
      invariant FindShort(t, key) == FirstFrom(t, KeyIs(key), Slot(g, 0))
    {
      var i := 0;
      while i < |t[g].opts|
        invariant i <= |t[g].opts|
        invariant FindShort(t, key) == FirstFrom(t, KeyIs(key), Slot(g, i))
      {
        if t[g].opts[i].key == key {
          return Just(Slot(g, i));
        }
        i := i + 1;
      }
      g := g + 1;
    }
    r := Nothing;
  }

  // ---------------------------------------------------------------- long options

  datatype Match = Exact | Partial | No

  /** The option name in ARG, which ends at the first '=' if there is one. */
  function Stem(arg: string): string {
    if arg == "" || arg[0] == '=' then "" else [arg[0]] + Stem(arg[1..])
  }

  function MatchName(arg: string, name: string): Match {
    if Stem(arg) == name then Exact else if Stem(arg) < name then Partial else No
  }

  /** The stem is what precedes the first '='. */
  lemma {:induction false} StemEnds(arg: string)
    ensures Stem(arg) <= arg && '=' !in Stem(arg)
    ensures Stem(arg) != arg ==> Stem(arg) + "=" <= arg
  {
    if arg != "" && arg[0] != '=' {
      StemEnds(arg[1..]);
    }
  }

  lemma {:induction false} StemBefore(name: string, rest: string)
    requires '=' !in name && (rest == "" || rest[0] == '=')
    ensures Stem(name + rest) == name
  {
    if name == "" {
      assert name + rest == rest;
    } else {
      assert (name + rest)[1..] == name[1..] + rest;
      StemBefore(name[1..], rest);
    }
  }

  /** An exact match is the name itself, or the name with a value. */
  lemma ExactMeans(arg: string, name: string)
    ensures MatchName(arg, name) == Exact <==> '=' !in name && (arg == name || name + "=" <= arg)
  {
    StemEnds(arg);
    if '=' !in name && name <= arg {
      assert arg == name + arg[|name|..];
      if arg == name || name + "=" <= arg {
        StemBefore(name, arg[|name|..]);
      }
    }
  }

  /** A partial match is a proper abbreviation, with a value or without. */
  lemma PartialMeans(text: string, v: string, name: string)
    requires '=' !in text
    ensures MatchName(text, name) == Partial <==> text < name
    ensures MatchName(text + "=" + v, name) == Partial <==> text < name
  {
    assert text + "" == text && text + ("=" + v) == text + "=" + v;
    StemBefore(text, "");
    StemBefore(text, "=" + v);
  }

  /** match_option. */
  method MatchOption(arg: string, name: string) returns (m: Match)
    ensures m == MatchName(arg, name)
  {
    var i := 0;
    while i < |arg| && arg[i] != '='
      invariant i <= |arg| && i <= |name| && arg[..i] == name[..i]
      invariant Stem(arg) == arg[..i] + Stem(arg[i..])
    {
      if i >= |name| || arg[i] != name[i] {
        assert Stem(arg[i..])[0] == arg[i];
        assert Stem(arg)[i] == arg[i] && |Stem(arg)| > i;
        return No;
      }
      assert arg[i..][1..] == arg[i + 1..];
      i := i + 1;
    }
    assert Stem(arg) == arg[..i] == name[..i];
    m := if i < |name| then Partial else Exact;
  }

  predicate Matches(o: Opt, arg: string, m: Match) {
    o.name.Just? && MatchName(arg, o.name.value) == m
  }

  function MatchIs(arg: string, m: Match): Opt -> bool { (o: Opt) => Matches(o, arg, m) }

  /** The option that an alias stands for, as an address: array and index. */
  function Base(t: Table, s: Slot): Slot
    requires In(t, s)
  {
    Slot(t[s.g].id, BaseIndex(t[s.g].opts, s.i))
  }

  /** The nearest option at or before i that is not an alias; i itself if there is none. */
  function BaseIndex(opts: seq<Opt>, i: nat): (b: nat)
    requires i < |opts|
    ensures b <= i && forall k | b < k <= i && b < i :: opts[k].alias
    ensures !opts[b].alias || (b == i && forall k | 0 <= k <= i :: opts[k].alias)
  {
    var b := LastPlain(opts, i);
    if b.Just? then b.value else i
  }

  function LastPlain(opts: seq<Opt>, i: nat): (b: Maybe<nat>)
    requires i < |opts|
    ensures b.Just? ==> b.value <= i && !opts[b.value].alias && forall k | b.value < k <= i :: opts[k].alias
    ensures b.Nothing? ==> forall k | 0 <= k <= i :: opts[k].alias
  {
    if !opts[i].alias then Just(i) else if i == 0 then Nothing else LastPlain(opts, i - 1)
  }

  /** option_base. */
  method OptionBase(opts: seq<Opt>, opt: nat) returns (base: nat)
    requires opt < |opts|
    ensures base == BaseIndex(opts, opt)
  {
    base := opt;
    if !opts[base].alias {
      return;
    }
    while base > 0
      invariant base <= opt && opts[base].alias
      invariant LastPlain(opts, opt) == LastPlain(opts, base)
    {
      base := base - 1;
      if !opts[base].alias {
        return;
      }
    }
    base := opt;
  }

  /** All abbreviations of arg name options with the same base. */
  ghost predicate Unambiguous(t: Table, arg: string, s: Slot)
    requires In(t, s)
  {
    forall r | In(t, r) && Matches(At(t, r), arg, Partial) :: Base(t, r) == Base(t, s)
  }

  /** What a long option name denotes: an exact match wins wherever it stands, otherwise an
      abbreviation counts if it is one of a single option (aliases apart). */
  ghost predicate Denotes(t: Table, arg: string, r: Maybe<Slot>, ambiguous: bool) {
    var exact, partial := FirstFrom(t, MatchIs(arg, Exact), Slot(0, 0)),
      FirstFrom(t, MatchIs(arg, Partial), Slot(0, 0));
    if exact.Just? then r == exact && !ambiguous
    else if partial.Nothing? then r == Nothing && !ambiguous
    else if Unambiguous(t, arg, partial.value) then r == partial && !ambiguous
    else r == Nothing && ambiguous
  }

  /** find_long_option. */
  method FindLongOption(t: Table, arg: string) returns (r: Maybe<Slot>, ambiguous: bool)
    ensures Denotes(t, arg, r, ambiguous)
  {
    ambiguous := false;
    var matched: Maybe<Slot>, matchedBase, count := Nothing, Slot(0, 0), 0;
    var g := 0;
    ScanStart(t, arg);
    while g < |t|
      invariant g <= |t|
      invariant Scanned(t, arg, Slot(g, 0), matched, matchedBase, count)
    {
      r, matched, matchedBase, count := FindInGroup(t, arg, g, matched, matchedBase, count);
      if r.Just? {
        return;
      }
      g := g + 1;
    }
    ScanEnd(t, arg, matched, matchedBase, count);
    if count == 1 {
      return matched, false;
    }
    return Nothing, count > 1;
  }

  /** The inner loop. */
  method FindInGroup(t: Table, arg: string, g: nat, was: Maybe<Slot>, wasBase: Slot, wasCount: nat)
      returns (exact: Maybe<Slot>, matched: Maybe<Slot>, base: Slot, count: nat)
    requires g < |t| && Scanned(t, arg, Slot(g, 0), was, wasBase, wasCount)
    ensures exact.Just? ==> Denotes(t, arg, exact, false)
    ensures exact.Nothing? ==> Scanned(t, arg, Slot(g + 1, 0), matched, base, count)
  {
    hide Scanned, Denotes;
    matched, base, count := was, wasBase, wasCount;
    var i := 0;
    while i < |t[g].opts|
      invariant i <= |t[g].opts|
      invariant Scanned(t, arg, Slot(g, i), matched, base, count)
    {
      var hit;
      hit, matched, base, count := Examine(t, arg, Slot(g, i), matched, base, count);
      if hit {
        exact := Just(Slot(g, i));
        return;
      }
      i := i + 1;
    }
    ScanRow(t, arg, g, matched, base, count);
    exact := Nothing;
  }

  /** The body of the loops of find_long_option. */
  method Examine(t: Table, arg: string, at: Slot, was: Maybe<Slot>, wasBase: Slot, wasCount: nat)
      returns (exact: bool, matched: Maybe<Slot>, base: Slot, count: nat)
    requires In(t, at) && Scanned(t, arg, at, was, wasBase, wasCount)
    ensures exact ==> Denotes(t, arg, Just(at), false)
    ensures !exact ==> Scanned(t, arg, Slot(at.g, at.i + 1), matched, base, count)
  {
    exact, matched, base, count := false, was, wasBase, wasCount;
    var o := At(t, at);
    if o.name.Just? {
      var m := MatchOption(arg, o.name.value);
      if m.Exact? {
        exact := true;
        return;
      }
      if m.Partial? {
        var b := OptionBase(t[at.g].opts, at.i);
        if matched.Nothing? {
          matched, base, count := Just(at), Slot(t[at.g].id, b), 1;
        } else if Slot(t[at.g].id, b) != base {
          count := count + 1;
        }
      }
    }
    ScanNext(t, arg, at, (was, wasBase, wasCount), matched, base, count);
  }

  /** The state of the search when all slots before `at` have been seen. */
  ghost predicate Scanned(t: Table, arg: string, at: Slot, matched: Maybe<Slot>, base: Slot, count: nat) {
    && FirstFrom(t, MatchIs(arg, Exact), Slot(0, 0)) == FirstFrom(t, MatchIs(arg, Exact), at)
    && (matched.Nothing? ==>
          count == 0 && FirstFrom(t, MatchIs(arg, Partial), Slot(0, 0)) == FirstFrom(t, MatchIs(arg, Partial), at))
    && (matched.Just? ==>
          && FirstFrom(t, MatchIs(arg, Partial), Slot(0, 0)) == matched
          && In(t, matched.value) && base == Base(t, matched.value) && count >= 1
          && (count == 1 <==> forall r | In(t, r) && Earlier(r, at)
             && Matches(At(t, r), arg, Partial) :: Base(t, r) == base))
  }

  lemma ScanStart(t: Table, arg: string)
    ensures Scanned(t, arg, Slot(0, 0), Nothing, Slot(0, 0), 0)
  {
  }

  /** One more slot, which is not an exact match. */
  lemma ScanNext(t: Table, arg: string, at: Slot, was: (Maybe<Slot>, Slot, nat), matched: Maybe<Slot>, base: Slot,
                 count: nat)
    requires In(t, at) && Scanned(t, arg, at, was.0, was.1, was.2) && !Matches(At(t, at), arg, Exact)
    requires (matched, base, count) ==
             if !Matches(At(t, at), arg, Partial) then was
             else if was.0.Nothing? then (Just(at), Base(t, at), 1)
             else (was.0, was.1, if Base(t, at) != was.1 then was.2 + 1 else was.2)
    ensures Scanned(t, arg, Slot(at.g, at.i + 1), matched, base, count)
  {
    var next := Slot(at.g, at.i + 1);
    assert forall r :: Earlier(r, next) <==> Earlier(r, at) || r == at;
    assert FirstFrom(t, MatchIs(arg, Exact), at) == FirstFrom(t, MatchIs(arg, Exact), next);
    if was.0.Nothing? && matched.Just? {
      assert FirstFrom(t, MatchIs(arg, Partial), at) == Just(at);
      assert forall q | In(t, q) && Earlier(q, at) :: !MatchIs(arg, Partial)(At(t, q));
    }
  }

  lemma ScanRow(t: Table, arg: string, g: nat, matched: Maybe<Slot>, base: Slot, count: nat)
    requires g < |t| && Scanned(t, arg, Slot(g, |t[g].opts|), matched, base, count)
    ensures Scanned(t, arg, Slot(g + 1, 0), matched, base, count)
  {
    assert forall r | In(t, r) :: Earlier(r, Slot(g + 1, 0)) <==> Earlier(r, Slot(g, |t[g].opts|));
  }

  lemma ScanEnd(t: Table, arg: string, matched: Maybe<Slot>, base: Slot, count: nat)
    requires Scanned(t, arg, Slot(|t|, 0), matched, base, count)
    ensures Denotes(t, arg, if count == 1 then matched else Nothing, count > 1)
  {
    assert forall r | In(t, r) :: Earlier(r, Slot(|t|, 0));
  }
}
