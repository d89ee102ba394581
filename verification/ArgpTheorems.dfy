/** What the meaning of a run amounts to under PERMUTE: a stable partition of the arguments, and a
    vector that the strictest reading of POSIX parses with the same result. */
module ArgpTheorems {
  import opened Basics
  import opened ArgpOptions
  import opened ArgpSpec

  datatype Kind = IsOption | IsQuote | IsOperand

  /** The option at the front of rest: what it delivers, and how many elements it takes in all. */
  ghost function FrontOption(cfg: Config, rest: seq<string>): (r: Reading)
    requires rest != []
    ensures r.extra < |rest|
  {
    match Classify(cfg, rest[0])
    case ShortOption(cs) => Cluster(cfg, cs, rest[1..])
    case LongOption(text) => Long(cfg, text, rest[1..])
    case _ => Reading([], 0, false)
  }

  function Repeat(k: Kind, n: nat): seq<Kind> {
    seq(n, _ => k)
  }

  /** What every element is: an option or its argument, the first quote, or an operand. */
  ghost function Kinds(cfg: Config, args: seq<string>): (k: seq<Kind>)
    ensures |k| == |args|
  {
    if args == [] then []
    else
      match Classify(cfg, args[0])
      case Arg => [IsOperand] + Kinds(cfg, args[1..])
      case Quote => [IsQuote] + Repeat(IsOperand, |args| - 1)
      case _ => var n := 1 + FrontOption(cfg, args).extra;
                Repeat(IsOption, n) + Kinds(cfg, args[n..])
  }

  /** The elements of one kind, in their order. */
  function Select(args: seq<string>, kinds: seq<Kind>, k: Kind): seq<string>
    requires |args| == |kinds|
  {
    if args == [] then []
    else (if kinds[0] == k then [args[0]] else []) + Select(args[1..], kinds[1..], k)
  }

  ghost function Of(cfg: Config, args: seq<string>, k: Kind): seq<string> {
    Select(args, Kinds(cfg, args), k)
  }

  /** The option events of the arguments, in order. */
  ghost function OptionEvents(cfg: Config, args: seq<string>): seq<Event> {
    if args == [] || Classify(cfg, args[0]) == Quote then []
    else if Classify(cfg, args[0]) == Arg then OptionEvents(cfg, args[1..])
    else var r := FrontOption(cfg, args);
         r.events + OptionEvents(cfg, args[1 + r.extra..])
  }

  lemma {:induction false} SelectSplit(a: seq<string>, b: seq<string>, ka: seq<Kind>, kb: seq<Kind>, k: Kind)
    requires |a| == |ka| && |b| == |kb|
    ensures Select(a + b, ka + kb, k) == Select(a, ka, k) + Select(b, kb, k)
  {
    if a == [] {
      assert a + b == b && ka + kb == kb;
    } else {
      assert (a + b)[1..] == a[1..] + b && (ka + kb)[1..] == ka[1..] + kb;
      SelectSplit(a[1..], b, ka[1..], kb, k);
    }
  }

  lemma {:induction false} SelectRepeat(a: seq<string>, k: Kind, k': Kind)
    ensures Select(a, Repeat(k, |a|), k') == if k == k' then a else []
  {
    if a != [] {
      assert Repeat(k, |a|)[1..] == Repeat(k, |a| - 1);
      SelectRepeat(a[1..], k, k');
    }
  }

  /** How the elements of each kind are made up, item by item. */
  lemma OfStep(cfg: Config, args: seq<string>, k: Kind)
    requires args != []
    ensures Of(cfg, args, k) ==
            match Classify(cfg, args[0])
            case Arg => (if k == IsOperand then [args[0]] else []) + Of(cfg, args[1..], k)
            case Quote => if k == IsQuote then [args[0]] else if k == IsOperand then args[1..] else []
            case _ => var n := 1 + FrontOption(cfg, args).extra;
                      (if k == IsOption then args[..n] else []) + Of(cfg, args[n..], k)
  {
    match Classify(cfg, args[0])
    case Arg =>
    case Quote =>
      SelectRepeat(args[1..], IsOperand, k);
    case _ =>
      var n := 1 + FrontOption(cfg, args).extra;
      assert args == args[..n] + args[n..];
      SelectSplit(args[..n], args[n..], Repeat(IsOption, n), Kinds(cfg, args[n..]), k);
      SelectRepeat(args[..n], IsOption, k);
  }

  // ---------------------------------------------------------------- the stable partition

  /** Finish unfolds to the next item of the arguments. */
  lemma FinishOption(cfg: Config, opts: seq<string>, skipped: seq<string>, ev: seq<Event>, rest: seq<string>)
    requires rest != [] && !Classify(cfg, rest[0]).Arg? && !Classify(cfg, rest[0]).Quote?
    ensures var r := FrontOption(cfg, rest);
            Finish(cfg, opts, skipped, ev, rest) ==
            if !r.ok then Outcome([], ev + r.events, false)
            else Finish(cfg, opts + rest[..1 + r.extra], skipped, ev + r.events, rest[1 + r.extra..])
  {
    var r := FrontOption(cfg, rest);
    assert rest[..1 + r.extra] == [rest[0]] + rest[1..][..r.extra];
    assert rest[1..][r.extra..] == rest[1 + r.extra..];
    assert opts + ([rest[0]] + rest[1..][..r.extra]) == opts + [rest[0]] + rest[1..][..r.extra];
  }

  /** The outcome, when `rest` was still to be read, in terms of the kinds of its elements. */
  ghost predicate Partitioned(cfg: Config, opts: seq<string>, skipped: seq<string>, ev: seq<Event>, rest: seq<string>,
                              out: Outcome) {
    var p := skipped + Of(cfg, rest, IsOperand);
    && out.argv == opts + Of(cfg, rest, IsOption) + Of(cfg, rest, IsQuote) + p
    && out.events == ev + OptionEvents(cfg, rest) + ArgEvents(p)
  }

  lemma PartitionArg(cfg: Config, opts: seq<string>, skipped: seq<string>, ev: seq<Event>, rest: seq<string>,
                     out: Outcome)
    requires rest != [] && Classify(cfg, rest[0]) == Arg
    requires Partitioned(cfg, opts, skipped + [rest[0]], ev, rest[1..], out)
    ensures Partitioned(cfg, opts, skipped, ev, rest, out)
  {
    ArgItem(cfg, rest);
    Associate(skipped, [rest[0]], Of(cfg, rest[1..], IsOperand));
  }

  /** What an operand at the front contributes. */
  lemma ArgItem(cfg: Config, rest: seq<string>)
    requires rest != [] && Classify(cfg, rest[0]) == Arg
    ensures Of(cfg, rest, IsOption) == Of(cfg, rest[1..], IsOption)
    ensures Of(cfg, rest, IsQuote) == Of(cfg, rest[1..], IsQuote)
    ensures Of(cfg, rest, IsOperand) == [rest[0]] + Of(cfg, rest[1..], IsOperand)
    ensures OptionEvents(cfg, rest) == OptionEvents(cfg, rest[1..])
  {
    OfStep(cfg, rest, IsOption);
    OfStep(cfg, rest, IsQuote);
    OfStep(cfg, rest, IsOperand);
    Units(Of(cfg, rest[1..], IsOption), Of(cfg, rest[1..], IsQuote));
  }

  lemma PartitionOption(cfg: Config, opts: seq<string>, skipped: seq<string>, ev: seq<Event>, rest: seq<string>,
                        out: Outcome)
    requires rest != [] && !Classify(cfg, rest[0]).Arg? && !Classify(cfg, rest[0]).Quote?
    requires var r := FrontOption(cfg, rest);
             Partitioned(cfg, opts + rest[..1 + r.extra], skipped, ev + r.events, rest[1 + r.extra..], out)
    ensures Partitioned(cfg, opts, skipped, ev, rest, out)
  {
    OptionItem(cfg, rest);
    var r := FrontOption(cfg, rest);
    var n := 1 + r.extra;
    Associate(opts, rest[..n], Of(cfg, rest[n..], IsOption));
    Associate(ev, r.events, OptionEvents(cfg, rest[n..]));
  }

  /** What an option at the front contributes. */
  lemma OptionItem(cfg: Config, rest: seq<string>)
    requires rest != [] && !Classify(cfg, rest[0]).Arg? && !Classify(cfg, rest[0]).Quote?
    ensures var r := FrontOption(cfg, rest);
            var n := 1 + r.extra;
            && Of(cfg, rest, IsOption) == rest[..n] + Of(cfg, rest[n..], IsOption)
            && Of(cfg, rest, IsQuote) == Of(cfg, rest[n..], IsQuote)
            && Of(cfg, rest, IsOperand) == Of(cfg, rest[n..], IsOperand)
            && OptionEvents(cfg, rest) == r.events + OptionEvents(cfg, rest[n..])
  {
    hide Of, FrontOption, Classify;
    OfStep(cfg, rest, IsOption);
    OfStep(cfg, rest, IsQuote);
    OfStep(cfg, rest, IsOperand);
  }

  lemma {:induction false} FinishPartition(cfg: Config, opts: seq<string>, skipped: seq<string>, ev: seq<Event>,
                                           rest: seq<string>)
    requires cfg.ordering == PERMUTE && Finish(cfg, opts, skipped, ev, rest).ok
    ensures Partitioned(cfg, opts, skipped, ev, rest, Finish(cfg, opts, skipped, ev, rest))
    decreases |rest|
  {
    var out := Finish(cfg, opts, skipped, ev, rest);
    if rest == [] {
      NoMore(opts, skipped, ev);
    } else if Classify(cfg, rest[0]) == Arg {
      FinishPartition(cfg, opts, skipped + [rest[0]], ev, rest[1..]);
      PartitionArg(cfg, opts, skipped, ev, rest, out);
    } else if Classify(cfg, rest[0]) == Quote {
      PartitionQuote(cfg, opts, skipped, ev, rest);
    } else {
      FinishOption(cfg, opts, skipped, ev, rest);
      var r := FrontOption(cfg, rest);
      FinishPartition(cfg, opts + rest[..1 + r.extra], skipped, ev + r.events, rest[1 + r.extra..]);
      PartitionOption(cfg, opts, skipped, ev, rest, out);
    }
  }

  lemma PartitionQuote(cfg: Config, opts: seq<string>, skipped: seq<string>, ev: seq<Event>, rest: seq<string>)
    requires rest != [] && Classify(cfg, rest[0]) == Quote
    ensures Partitioned(cfg, opts, skipped, ev, rest, Finish(cfg, opts, skipped, ev, rest))
  {
    OfStep(cfg, rest, IsOption);
    OfStep(cfg, rest, IsQuote);
    OfStep(cfg, rest, IsOperand);
    Associate(opts + [rest[0]], skipped, rest[1..]);
    assert opts + [] + [rest[0]] == opts + [rest[0]] && ev + [] == ev;
  }

  lemma NoMore(opts: seq<string>, skipped: seq<string>, ev: seq<Event>)
    ensures opts + skipped == opts + [] + [] + (skipped + [])
            && ev + ArgEvents(skipped) == ev + [] + ArgEvents(skipped + [])
  {
    assert skipped + [] == skipped;
  }

  /** A run under PERMUTE whose options are in order leaves the options with their arguments, the
      quote if there is one, and the operands, each kind in its original order; and delivers the
      options first, then the operands, each in that order. */
  lemma StablePartition(cfg: Config, args: seq<string>)
    requires cfg.ordering == PERMUTE && Meaning(cfg, args).ok
    ensures var out := Meaning(cfg, args);
            && out.argv == Of(cfg, args, IsOption) + Of(cfg, args, IsQuote) + Of(cfg, args, IsOperand)
            && out.events == OptionEvents(cfg, args) + ArgEvents(Of(cfg, args, IsOperand))
            && multiset(out.argv) == multiset(args)
  {
    PermutedForm(cfg, args);
    SelectAll(args, Kinds(cfg, args));
  }

  lemma PermutedForm(cfg: Config, args: seq<string>)
    requires cfg.ordering == PERMUTE && Meaning(cfg, args).ok
    ensures Meaning(cfg, args).argv == Of(cfg, args, IsOption) + Of(cfg, args, IsQuote) + Of(cfg, args, IsOperand)
    ensures Meaning(cfg, args).events == OptionEvents(cfg, args) + ArgEvents(Of(cfg, args, IsOperand))
  {
    FinishPartition(cfg, [], [], [], args);
    var o, q, p := Of(cfg, args, IsOption), Of(cfg, args, IsQuote), Of(cfg, args, IsOperand);
    assert [] + o + q + ([] + p) == o + q + p && [] + p == p && [] + OptionEvents(cfg, args) == OptionEvents(cfg, args);
  }

  lemma {:induction false} SelectAll(args: seq<string>, kinds: seq<Kind>)
    requires |args| == |kinds|
    ensures multiset(Select(args, kinds, IsOption)) + multiset(Select(args, kinds, IsQuote))
            + multiset(Select(args, kinds, IsOperand))
         == multiset(args)
  {
    if args != [] {
      SelectAll(args[1..], kinds[1..]);
      SelectOne(args, kinds, IsOption);
      SelectOne(args, kinds, IsQuote);
      SelectOne(args, kinds, IsOperand);
      BagCons(args);
      OneMore(kinds[0], multiset{args[0]}, multiset(Select(args[1..], kinds[1..], IsOption)),
              multiset(Select(args[1..], kinds[1..], IsQuote)), multiset(Select(args[1..], kinds[1..], IsOperand)),
              multiset(args[1..]));
    }
  }

  lemma BagCons(args: seq<string>)
    requires args != []
    ensures multiset(args) == multiset{args[0]} + multiset(args[1..])
  {
    assert args == [args[0]] + args[1..];
  }

  function OneOf(k: Kind, l: Kind, x: multiset<string>): multiset<string> {
    if k == l then x else multiset{}
  }

  lemma OneMore(k: Kind, x: multiset<string>, a: multiset<string>, b: multiset<string>, c: multiset<string>,
                all: multiset<string>)
    requires a + b + c == all
    ensures (OneOf(k, IsOption, x) + a) + (OneOf(k, IsQuote, x) + b) + (OneOf(k, IsOperand, x) + c) == x + all
  {
  }

  lemma SelectOne(args: seq<string>, kinds: seq<Kind>, k: Kind)
    requires |args| == |kinds| && args != []
    ensures multiset(Select(args, kinds, k)) ==
            OneOf(kinds[0], k, multiset{args[0]}) + multiset(Select(args[1..], kinds[1..], k))
  {
  }

  // ---------------------------------------------------------------- the strict reading

  /** A well-formed option reads the same whatever follows the elements it takes. */
  lemma {:induction false} ClusterPrefix(cfg: Config, cs: string, rest: seq<string>, more: seq<string>)
    requires cs != "" && Cluster(cfg, cs, rest).ok
    ensures Cluster(cfg, cs, rest[..Cluster(cfg, cs, rest).extra] + more) == Cluster(cfg, cs, rest)
    decreases cs
  {
    var s := FindShort(cfg.table, cs[0] as int);
    if !At(cfg.table, s.value).arg && |cs| > 1 {
      ClusterPrefix(cfg, cs[1..], rest, more);
    }
  }

  lemma FrontOptionPrefix(cfg: Config, rest: seq<string>, more: seq<string>)
    requires rest != [] && FrontOption(cfg, rest).ok
    ensures var n := 1 + FrontOption(cfg, rest).extra;
            FrontOption(cfg, rest[..n] + more) == FrontOption(cfg, rest) && (rest[..n] + more)[0] == rest[0]
  {
    var n := 1 + FrontOption(cfg, rest).extra;
    assert (rest[..n] + more)[1..] == rest[1..][..n - 1] + more;
    match Classify(cfg, rest[0])
    case ShortOption(cs) => ClusterPrefix(cfg, cs, rest[1..], more);
    case LongOption(text) =>
  }

  function Strict(cfg: Config): Config {
    cfg.(ordering := REQUIRE_ORDER)
  }

  lemma {:induction false} StrictSame(cfg: Config, cs: string, rest: seq<string>)
    requires cs != ""
    ensures Cluster(Strict(cfg), cs, rest) == Cluster(cfg, cs, rest)
    decreases cs
  {
    if |cs| > 1 {
      StrictSame(cfg, cs[1..], rest);
    }
  }

  lemma StrictFront(cfg: Config, rest: seq<string>)
    requires rest != []
    ensures Classify(Strict(cfg), rest[0]) == Classify(cfg, rest[0])
    ensures FrontOption(Strict(cfg), rest) == FrontOption(cfg, rest)
  {
    match Classify(cfg, rest[0])
    case ShortOption(cs) => StrictSame(cfg, cs, rest[1..]);
    case _ =>
  }

  /** Read strictly, the options of a well-formed vector deliver the same events. */
  lemma {:induction false} Reread(cfg: Config, opts: seq<string>, ev: seq<Event>, skipped: seq<string>,
                                  rest: seq<string>, tail: seq<string>,
                                  o: seq<string>, e: seq<Event>)
    requires cfg.ordering == PERMUTE && Finish(cfg, o, skipped, e, rest).ok
    ensures Finish(Strict(cfg), opts, [], ev, Of(cfg, rest, IsOption) + tail)
         == Finish(Strict(cfg), opts + Of(cfg, rest, IsOption), [], ev + OptionEvents(cfg, rest), tail)
    decreases |rest|
  {
    if rest == [] {
      assert [] + tail == tail && opts + [] == opts && ev + [] == ev;
    } else {
      OfStep(cfg, rest, IsOption);
      match Classify(cfg, rest[0])
      case Arg =>
        assert [] + Of(cfg, rest[1..], IsOption) == Of(cfg, rest[1..], IsOption);
        Reread(cfg, opts, ev, skipped + [rest[0]], rest[1..], tail, o, e);
      case Quote =>
        assert [] + tail == tail && opts + [] == opts && ev + [] == ev;
      case _ =>
        RereadOption(cfg, opts, ev, skipped, rest, tail, o, e);
    }
  }

  lemma {:induction false} RereadOption(cfg: Config, opts: seq<string>, ev: seq<Event>, skipped: seq<string>,
                                        rest: seq<string>, tail: seq<string>,
                                        o: seq<string>, e: seq<Event>)
    requires cfg.ordering == PERMUTE && Finish(cfg, o, skipped, e, rest).ok
    requires rest != [] && !Classify(cfg, rest[0]).Arg? && !Classify(cfg, rest[0]).Quote?
    ensures Finish(Strict(cfg), opts, [], ev, Of(cfg, rest, IsOption) + tail)
         == Finish(Strict(cfg), opts + Of(cfg, rest, IsOption), [], ev + OptionEvents(cfg, rest), tail)
    decreases |rest|, 0
  {
    var r := FrontOption(cfg, rest);
    var n := 1 + r.extra;
    FinishOption(cfg, o, skipped, e, rest);
    var rem := Of(cfg, rest[n..], IsOption);
    OptionItem(cfg, rest);
    Associate(rest[..n], rem, tail);
    FrontOptionPrefix(cfg, rest, rem + tail);
    StrictFront(cfg, rest[..n] + (rem + tail));
    FinishOption(Strict(cfg), opts, [], ev, rest[..n] + (rem + tail));
    Cut(rest[..n], rem + tail);
    Reread(cfg, opts + rest[..n], ev + r.events, skipped, rest[n..], tail, o + rest[..n], e + r.events);
    Associate(opts, rest[..n], rem);
    Associate(ev, r.events, OptionEvents(cfg, rest[n..]));
  }

  lemma Cut<T>(a: seq<T>, b: seq<T>)
    ensures (a + b)[..|a|] == a && (a + b)[|a|..] == b
  {
  }

  /** Without a quote, the operands are elements that do not look like options. */
  lemma {:induction false} PlainOperands(cfg: Config, args: seq<string>)
    ensures |Of(cfg, args, IsQuote)| <= 1
    ensures Of(cfg, args, IsQuote) == [] && Of(cfg, args, IsOperand) != [] ==>
            Classify(cfg, Of(cfg, args, IsOperand)[0]) == Arg
    ensures Of(cfg, args, IsQuote) != [] ==> Classify(cfg, Of(cfg, args, IsQuote)[0]) == Quote
    decreases |args|
  {
    if args != [] {
      OfStep(cfg, args, IsQuote);
      OfStep(cfg, args, IsOperand);
      if Classify(cfg, args[0]) == Arg {
        PlainOperands(cfg, args[1..]);
      } else if Classify(cfg, args[0]) != Quote {
        PlainOperands(cfg, args[1 + FrontOption(cfg, args).extra..]);
      }
    }
  }

  /** The vector that PERMUTE leaves, parsed again under REQUIRE_ORDER: the same calls, and nothing
      moves. */
  lemma PermuteThenStrict(cfg: Config, args: seq<string>)
    requires cfg.ordering == PERMUTE && Meaning(cfg, args).ok
    ensures Meaning(Strict(cfg), Meaning(cfg, args).argv) == Meaning(cfg, args)
  {
    PermutedForm(cfg, args);
    PlainOperands(cfg, args);
    var o, q, p := Of(cfg, args, IsOption), Of(cfg, args, IsQuote), Of(cfg, args, IsOperand);
    Reread(cfg, [], [], [], args, q + p, [], []);
    StrictTail(Strict(cfg), o, OptionEvents(cfg, args), q, p);
    Associate(o, q, p);
    Units(o, OptionEvents(cfg, args));
  }

  lemma Units<S, T>(a: seq<S>, b: seq<T>)
    ensures [] + a == a && [] + b == b
  {
  }

  lemma StrictTail(cfg: Config, o: seq<string>, ev: seq<Event>, q: seq<string>, p: seq<string>)
    requires cfg.ordering == REQUIRE_ORDER && |q| <= 1
    requires if q == [] then p != [] ==> Classify(cfg, p[0]) == Arg else Classify(cfg, q[0]) == Quote
    ensures Finish(cfg, o, [], ev, q + p) == Outcome(o + q + p, ev + ArgEvents(p), true)
  {
    hide FinishReading, Cluster, Long, Attach;
    if q != [] {
      assert q == [q[0]] && (q + p)[1..] == p && [] + p == p;
      assert o + [q[0]] + [] + p == o + q + p;
    } else {
      assert q + p == p && [] + p == p && o + [] + p == o + q + p;
      assert o + [] == o + q + [] && ev + ArgEvents([]) == ev;
    }
  }
}
