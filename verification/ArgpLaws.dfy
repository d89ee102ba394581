/** What an argument vector means, one element at a time: the value of an option, an operand, the quote. */
module ArgpLaws {
  import opened Basics
  import opened ArgpOptions
  import opened ArgpSpec
  import opened ArgpTheorems

  /** The vector means these events, and then what the rest means; the elements taken come first in argv. */
  ghost predicate Then(cfg: Config, args: seq<string>, ev: seq<Event>, taken: seq<string>, rest: seq<string>) {
    var out, more := Meaning(cfg, args), Meaning(cfg, rest);
    && out.ok == more.ok && out.events == ev + more.events
    && (more.ok ==> out.argv == taken + more.argv)
  }

  /** The vector is in error before anything is delivered. */
  ghost predicate Fails(cfg: Config, args: seq<string>) {
    !Meaning(cfg, args).ok && Meaning(cfg, args).events == []
  }

  /** What has been read and delivered before does not change what comes. */
  lemma {:induction false} Shift(cfg: Config, opts: seq<string>, skipped: seq<string>, ev: seq<Event>,
                                 rest: seq<string>)
    ensures Shifted(Finish(cfg, [], skipped, [], rest), opts, ev, Finish(cfg, opts, skipped, ev, rest))
    decreases |rest|, 0
  {
    if rest == [] {
    } else if Classify(cfg, rest[0]) == Arg {
      match cfg.ordering
      case PERMUTE => Shift(cfg, opts, skipped + [rest[0]], ev, rest[1..]);
      case REQUIRE_ORDER =>
      case RETURN_IN_ORDER => ShiftBoth(cfg, opts, [rest[0]], skipped, ev, [ArgEvent(rest[0])], rest[1..]);
    } else if Classify(cfg, rest[0]) != Quote {
      var r := FrontOption(cfg, rest);
      FinishOption(cfg, opts, skipped, ev, rest);
      FinishOption(cfg, [], skipped, [], rest);
      if r.ok {
        ShiftBoth(cfg, opts, rest[..1 + r.extra], skipped, ev, r.events, rest[1 + r.extra..]);
      }
    }
  }

  ghost predicate Shifted(was: Outcome, opts: seq<string>, ev: seq<Event>, now: Outcome) {
    now.ok == was.ok && now.events == ev + was.events && (was.ok ==> now.argv == opts + was.argv)
  }

  lemma {:induction false} ShiftBoth(cfg: Config, opts: seq<string>, o: seq<string>, skipped: seq<string>,
                                     ev: seq<Event>, e: seq<Event>, rest: seq<string>)
    ensures Shifted(Finish(cfg, [] + o, skipped, [] + e, rest), opts, ev, Finish(cfg, opts + o, skipped, ev + e, rest))
    decreases |rest|, 1
  {
    Shift(cfg, [] + o, skipped, [] + e, rest);
    Shift(cfg, opts + o, skipped, ev + e, rest);
    var out := Finish(cfg, [], skipped, [], rest);
    Associate(opts, o, out.argv);
    Associate(ev, e, out.events);
    Units(o, e);
  }

  /** An option at the front. */
  lemma OptionThen(cfg: Config, args: seq<string>)
    requires args != [] && !Classify(cfg, args[0]).Arg? && !Classify(cfg, args[0]).Quote?
    ensures var r := FrontOption(cfg, args);
            if r.ok then Then(cfg, args, r.events, args[..1 + r.extra], args[1 + r.extra..])
            else !Meaning(cfg, args).ok && Meaning(cfg, args).events == r.events
  {
    var r := FrontOption(cfg, args);
    FinishOption(cfg, [], [], [], args);
    Units(args[..1 + r.extra], r.events);
    if r.ok {
      Shift(cfg, args[..1 + r.extra], [], r.events, args[1 + r.extra..]);
    }
  }

  // ---------------------------------------------------------------- long options

  /** The text stands behind two dashes, or under ARGP_LONG_ONLY behind one, and is no short option there. */
  predicate Dashed(cfg: Config, dash: string, text: string) {
    && text != ""
    && (dash == "--" || (dash == "-" && cfg.longOnly && text[0] != '-' && (|text| > 1 || text[0] !in cfg.shortOpts)))
  }

  lemma DashedIsLong(cfg: Config, dash: string, text: string)
    requires Dashed(cfg, dash, text)
    ensures Classify(cfg, dash + text) == LongOption(text)
  {
    var arg := dash + text;
    assert arg[|dash|..] == text;
  }

  /** What a name denotes does not depend on the value written after it. */
  lemma SameDenoted(t: Table, name: string, v: string, r: Maybe<Slot>, ambiguous: bool)
    requires '=' !in name && Denotes(t, name, r, ambiguous)
    ensures FindLong(t, name) == r && FindLong(t, name + "=" + v) == r && (r.Just? ==> In(t, r.value))
  {
    var arg := name + "=" + v;
    SameStem(name, v);
    assert forall m, o :: MatchIs(arg, m)(o) == MatchIs(name, m)(o);
    SameFirst(t, MatchIs(arg, Exact), MatchIs(name, Exact), Slot(0, 0));
    SameFirst(t, MatchIs(arg, Partial), MatchIs(name, Partial), Slot(0, 0));
  }

  lemma {:induction false} SameFirst(t: Table, p: Opt -> bool, q: Opt -> bool, s: Slot)
    requires forall o :: p(o) == q(o)
    ensures FirstFrom(t, p, s) == FirstFrom(t, q, s)
    decreases |t| - s.g, if s.g < |t| then |t[s.g].opts| - s.i else 0
  {
    if s.g < |t| {
      if s.i >= |t[s.g].opts| {
        SameFirst(t, p, q, Slot(s.g + 1, 0));
      } else if !p(t[s.g].opts[s.i]) {
        SameFirst(t, p, q, Slot(s.g, s.i + 1));
      }
    }
  }

  lemma SameStem(name: string, v: string)
    requires '=' !in name
    ensures Stem(name) == name && Stem(name + "=" + v) == name
  {
    StemBefore(name, "");
    assert name + "" == name && name + ("=" + v) == name + "=" + v;
    StemBefore(name, "=" + v);
  }

  /** `--name=v`: the value is what follows the first '=', and is an error for an option that takes none. */
  lemma LongWithValue(cfg: Config, dash: string, name: string, v: string, s: Slot, rest: seq<string>)
    requires '=' !in name && Denotes(cfg.table, name, Just(s), false) && Dashed(cfg, dash, name + "=" + v)
    ensures In(cfg.table, s)
    ensures var arg := dash + (name + "=" + v);
            if At(cfg.table, s).arg then Then(cfg, [arg] + rest, [OptionEvent(s, Just(v))], [arg], rest)
            else Fails(cfg, [arg] + rest)
  {
    var text := name + "=" + v;
    var args := [dash + text] + rest;
    DashedIsLong(cfg, dash, text);
    SameDenoted(cfg.table, name, v, Just(s), false);
    SameStem(name, v);
    assert text[|name| + 1..] == v;
    assert args[1..] == rest && args[..1] == [dash + text];
    OptionThen(cfg, args);
  }

  /** `--name`: an argument that is mandatory is the next element, or missing; one that is optional is not given. */
  lemma LongAlone(cfg: Config, dash: string, name: string, s: Slot, rest: seq<string>)
    requires '=' !in name && Denotes(cfg.table, name, Just(s), false) && Dashed(cfg, dash, name)
    ensures In(cfg.table, s) && Takes(cfg, dash + name, s, rest)
  {
    var args := [dash + name] + rest;
    DashedIsLong(cfg, dash, name);
    SameDenoted(cfg.table, name, "", Just(s), false);
    SameStem(name, "");
    TakesNext(cfg, args, s, rest);
  }

  /** A name that denotes nothing, with a value or without. */
  lemma LongUnknown(cfg: Config, dash: string, name: string, v: Maybe<string>, ambiguous: bool, rest: seq<string>)
    requires '=' !in name && Denotes(cfg.table, name, Nothing, ambiguous)
    requires Dashed(cfg, dash, name + if v.Just? then "=" + v.value else "")
    ensures Fails(cfg, [dash + (name + if v.Just? then "=" + v.value else "")] + rest)
  {
    var text := name + if v.Just? then "=" + v.value else "";
    var args := [dash + text] + rest;
    DashedIsLong(cfg, dash, text);
    SameDenoted(cfg.table, name, if v.Just? then v.value else "", Nothing, ambiguous);
    if v.Just? {
      assert text == name + "=" + v.value;
    } else {
      assert text == name;
    }
    assert args[1..] == rest;
    OptionThen(cfg, args);
  }

  /** The element stands for the option in s, and has no value written with it. */
  ghost predicate Takes(cfg: Config, arg: string, s: Slot, rest: seq<string>)
    requires In(cfg.table, s)
  {
    var o := At(cfg.table, s);
    if !o.arg || o.argOptional then Then(cfg, [arg] + rest, [OptionEvent(s, Nothing)], [arg], rest)
    else if rest == [] then Fails(cfg, [arg])
    else Then(cfg, [arg] + rest, [OptionEvent(s, Just(rest[0]))], [arg, rest[0]], rest[1..])
  }

  lemma TakesNext(cfg: Config, args: seq<string>, s: Slot, rest: seq<string>)
    requires In(cfg.table, s) && args != [] && args == [args[0]] + rest
    requires !Classify(cfg, args[0]).Arg? && !Classify(cfg, args[0]).Quote?
    requires FrontOption(cfg, args) == Attach(At(cfg.table, s), s, Nothing, rest)
    ensures Takes(cfg, args[0], s, rest)
  {
    OptionThen(cfg, args);
    assert args[1..] == rest && args[..1] == [args[0]];
    if rest != [] {
      assert args[2..] == rest[1..] && args[..2] == [args[0], rest[0]];
    }
  }

  // ---------------------------------------------------------------- short options

  /** The first option with the key c. */
  ghost predicate IsShort(cfg: Config, c: char, s: Slot) {
    c as int < 128 && c != '-' && IsFirst(cfg.table, KeyIs(c as int), s)
  }

  lemma ShortFound(cfg: Config, c: char, s: Slot)
    requires IsShort(cfg, c, s)
    ensures FindShort(cfg.table, c as int) == Just(s)
  {
    var r := FindShort(cfg.table, c as int);
    assert KeyIs(c as int)(At(cfg.table, s));
    assert r.Just? && !Earlier(s, r.value);
  }

  /** `-c`. */
  lemma ShortAlone(cfg: Config, c: char, s: Slot, rest: seq<string>)
    requires IsShort(cfg, c, s) && (cfg.longOnly ==> c in cfg.shortOpts)
    ensures Takes(cfg, "-" + [c], s, rest)
  {
    var args := ["-" + [c]] + rest;
    ShortFound(cfg, c, s);
    assert args[0][1..] == [c] && args[1..] == rest;
    TakesNext(cfg, args, s, rest);
  }

  /** A character that is no option's key. */
  lemma ShortUnknown(cfg: Config, c: char, more: string, rest: seq<string>)
    requires c as int < 128 && c != '-' && NoSlot(cfg.table, KeyIs(c as int)) && !cfg.longOnly
    ensures Fails(cfg, ["-" + [c] + more] + rest)
  {
    var arg := "-" + [c] + more;
    var args := [arg] + rest;
    assert arg[1..] == [c] + more && args[1..] == rest;
    OptionThen(cfg, args);
  }

  /** `-cv`: what follows is the value of an option that takes one, optional or not. */
  lemma ShortWithValue(cfg: Config, c: char, v: string, s: Slot, rest: seq<string>)
    requires IsShort(cfg, c, s) && !cfg.longOnly && v != "" && At(cfg.table, s).arg
    ensures var arg := "-" + [c] + v; Then(cfg, [arg] + rest, [OptionEvent(s, Just(v))], [arg], rest)
  {
    var arg := "-" + [c] + v;
    var args := [arg] + rest;
    ShortFound(cfg, c, s);
    assert arg[1..] == [c] + v && ([c] + v)[1..] == v;
    assert args[1..] == rest && args[..1] == [arg];
    OptionThen(cfg, args);
  }

  /** `-cmore`, where the option takes none: the option, and then what `-more` means. */
  lemma ShortInCluster(cfg: Config, c: char, more: string, s: Slot, rest: seq<string>)
    requires IsShort(cfg, c, s) && !cfg.longOnly && more != "" && more[0] != '-' && !At(cfg.table, s).arg
    ensures var out, one := Meaning(cfg, ["-" + [c] + more] + rest), Meaning(cfg, ["-" + more] + rest);
            && out.ok == one.ok && out.events == [OptionEvent(s, Nothing)] + one.events
            && (one.ok ==> |out.argv| == |one.argv| > 0 && out.argv == ["-" + [c] + more] + one.argv[1..])
  {
    var arg, arg' := "-" + [c] + more, "-" + more;
    var args, args' := [arg] + rest, [arg'] + rest;
    ShortFound(cfg, c, s);
    assert arg[1..] == [c] + more && ([c] + more)[1..] == more && arg'[1..] == more;
    assert args[1..] == rest == args'[1..];
    var r, e := Cluster(cfg, more, rest), [OptionEvent(s, Nothing)];
    assert FrontOption(cfg, args) == r.(events := e + r.events) && FrontOption(cfg, args') == r;
    OptionThen(cfg, args);
    OptionThen(cfg, args');
    var n := 1 + r.extra;
    assert args[..n] == [arg] + rest[..r.extra] && args'[..n] == [arg'] + rest[..r.extra] && args[n..] == args'[n..];
    var after := Meaning(cfg, args[n..]);
    Associate(e, r.events, after.events);
    Associate([arg], rest[..r.extra], after.argv);
    Associate([arg'], rest[..r.extra], after.argv);
  }

  // ---------------------------------------------------------------- operands and the quote

  /** The elements are delivered as they stand. */
  ghost predicate Delivers(out: Outcome, args: seq<string>, from: nat) {
    && out.ok && out.argv == args
    && from + |out.events| == |args| && forall i :: 0 <= i < |out.events| ==> out.events[i] == ArgEvent(args[from + i])
  }

  lemma NoArguments(cfg: Config)
    ensures Meaning(cfg, []) == Outcome([], [], true)
  {
    assert Meaning(cfg, []) == Outcome([] + [], [] + ArgEvents([]), true);
  }

  /** `--`. */
  lemma QuoteDelivers(cfg: Config, rest: seq<string>)
    ensures Delivers(Meaning(cfg, ["--"] + rest), ["--"] + rest, 1)
  {
    var args := ["--"] + rest;
    assert args[1..] == rest;
    assert [] + [args[0]] + [] + rest == args && [] + rest == rest && [] + ArgEvents(rest) == ArgEvents(rest);
  }

  /** An operand, under each of the three orderings: it ends the options; it comes in its place; or it comes after the
      options and before the operands of the rest. */
  lemma OperandMeans(cfg: Config, a: string, rest: seq<string>)
    requires !("-" < a)
    ensures match cfg.ordering
            case REQUIRE_ORDER => Delivers(Meaning(cfg, [a] + rest), [a] + rest, 0)
            case RETURN_IN_ORDER => Then(cfg, [a] + rest, [ArgEvent(a)], [a], rest)
            case PERMUTE =>
              var out, more := Meaning(cfg, [a] + rest), Meaning(cfg, rest);
              out.ok == more.ok && (out.ok ==> Joins(more, a, out))
  {
    var args := [a] + rest;
    assert args[1..] == rest && args[0] == a && Classify(cfg, a) == Arg;
    match cfg.ordering
    case REQUIRE_ORDER =>
      assert [] + [] + args == args && [] + args == args && [] + ArgEvents(args) == ArgEvents(args);
    case RETURN_IN_ORDER =>
      Units([a], [ArgEvent(a)]);
      Shift(cfg, [a], [], [ArgEvent(a)], rest);
    case PERMUTE =>
      assert [] + [a] == [a];
      OkAnyway(cfg, [], [a], [], rest, [], []);
      if Meaning(cfg, rest).ok {
        PermutedForm(cfg, args);
        PermutedForm(cfg, rest);
        ArgItem(cfg, args);
        OnlyOptions(cfg, rest);
        OperandJoins(Of(cfg, rest, IsOption) + Of(cfg, rest, IsQuote), OptionEvents(cfg, rest),
                     Of(cfg, rest, IsOperand), a);
      }
  }

  /** The operand a comes before the operands that were there, in argv and in the calls, and after everything else. */
  ghost predicate Joins(was: Outcome, a: string, now: Outcome) {
    exists n: nat :: JoinsLast(was, a, now, n)
  }

  ghost predicate JoinsLast(was: Outcome, a: string, now: Outcome, n: nat) {
    n <= |was.argv| && n <= |was.events| &&
    var i, k := |was.events| - n, |was.argv| - n;
    var calls, operands := was.events[i..], was.argv[k..];
    && now.events == was.events[..i] + [ArgEvent(a)] + calls && now.argv == was.argv[..k] + [a] + operands
    && (forall j :: 0 <= j < i ==> was.events[j].OptionEvent?)
    && (forall j :: 0 <= j < n ==> calls[j] == ArgEvent(operands[j]))
  }

  lemma OperandJoins(front: seq<string>, ev: seq<Event>, p: seq<string>, a: string)
    requires forall e :: e in ev ==> e.OptionEvent?
    ensures Joins(Outcome(front + p, ev + ArgEvents(p), true), a,
                  Outcome(front + ([a] + p), ev + ArgEvents([a] + p), true))
  {
    var was := Outcome(front + p, ev + ArgEvents(p), true);
    var now := Outcome(front + ([a] + p), ev + ArgEvents([a] + p), true);
    Cut(ev, ArgEvents(p));
    Cut(front, p);
    Associate(front, [a], p);
    assert ArgEvents([a] + p) == [ArgEvent(a)] + ArgEvents(p);
    Associate(ev, [ArgEvent(a)], ArgEvents(p));
    assert forall j :: 0 <= j < |ev| ==> was.events[j] == ev[j] && ev[j] in ev;
    assert JoinsLast(was, a, now, |p|);
  }

  /** What was set aside does not decide whether the options are in order. */
  lemma {:induction false} OkAnyway(cfg: Config, o: seq<string>, skipped: seq<string>, ev: seq<Event>,
                                    rest: seq<string>, o': seq<string>, skipped': seq<string>)
    ensures Finish(cfg, o, skipped, ev, rest).ok == Finish(cfg, o', skipped', ev, rest).ok
    decreases |rest|
  {
    if rest != [] {
      if Classify(cfg, rest[0]) == Arg {
        match cfg.ordering
        case PERMUTE => OkAnyway(cfg, o, skipped + [rest[0]], ev, rest[1..], o', skipped' + [rest[0]]);
        case REQUIRE_ORDER =>
        case RETURN_IN_ORDER =>
          OkAnyway(cfg, o + [rest[0]], skipped, ev + [ArgEvent(rest[0])], rest[1..], o' + [rest[0]], skipped');
      } else if Classify(cfg, rest[0]) != Quote {
        var r := FrontOption(cfg, rest);
        FinishOption(cfg, o, skipped, ev, rest);
        FinishOption(cfg, o', skipped', ev, rest);
        OkAnyway(cfg, o + rest[..1 + r.extra], skipped, ev + r.events, rest[1 + r.extra..],
                 o' + rest[..1 + r.extra], skipped');
      }
    }
  }

  lemma {:induction false} OnlyOptions(cfg: Config, args: seq<string>)
    ensures forall e :: e in OptionEvents(cfg, args) ==> e.OptionEvent?
    decreases |args|
  {
    if args != [] && Classify(cfg, args[0]) != Quote {
      if Classify(cfg, args[0]) == Arg {
        OnlyOptions(cfg, args[1..]);
      } else {
        OnlyOptions(cfg, args[1 + FrontOption(cfg, args).extra..]);
        match Classify(cfg, args[0])
        case ShortOption(cs) => OnlyOptionsIn(cfg, cs, args[1..]);
        case _ =>
      }
    }
  }

  lemma {:induction false} OnlyOptionsIn(cfg: Config, cs: string, rest: seq<string>)
    requires cs != ""
    ensures forall e :: e in Cluster(cfg, cs, rest).events ==> e.OptionEvent?
    decreases |cs|
  {
    if |cs| > 1 {
      OnlyOptionsIn(cfg, cs[1..], rest);
    }
  }
}
