/** The parsing loop of src/argp/argp-parse.c over a real argument array.  The user's parsers accept
    every key they are given and leave `next` and `argv` alone; each of their calls is logged. */
module ArgpParse {
  import opened Basics
  import opened ArgpOptions
  import opened ArgpSpec

  datatype Error = OK | EBADKEY

  /** The sequence s with its adjacent parts [b,m) and [m,t) exchanged. */
  function Swapped(s: seq<string>, b: nat, m: nat, t: nat): seq<string>
    requires b <= m <= t <= |s|
  {
    s[..b] + s[m..t] + s[b..m] + s[t..]
  }

  /** Exchanging the two parts of s leads to the target. */
  ghost predicate Leads(s: seq<string>, b: nat, m: nat, t: nat, target: seq<string>)
  {
    b <= m <= t <= |s| && Swapped(s, b, m, t) == target
  }

  lemma LeadsStart(s: seq<string>, b: nat, m: nat, t: nat)
    requires b <= m <= t <= |s|
    ensures Leads(s, b, m, t, Swapped(s, b, m, t))
  {
  }

  lemma LeadsEnd(s: seq<string>, b: nat, m: nat, t: nat, target: seq<string>)
    requires Leads(s, b, m, t, target) && (b == m || m == t)
    ensures s == target
  {
    SwappedNothing(s, b, m, t);
  }

  /** The sequence s with its parts [i,i+len) and [j,j+len) in each other's place. */
  function Blocked(s: seq<string>, i: nat, j: nat, len: nat): seq<string>
    requires i + len <= j && j + len <= |s|
  {
    s[..i] + s[j..j + len] + s[i + len..j] + s[i..i + len] + s[j + len..]
  }

  /** Where the element at x was before the first len pairs were swapped. */
  function Source(i: nat, j: nat, len: nat, x: int): int {
    if i <= x < i + len then x - i + j else if j <= x < j + len then x - j + i else x
  }

  /** The arguments from `start` on in another order, and nothing else changed. */
  predicate Rearranged(was: seq<string>, now: seq<string>, start: nat) {
    start <= |was| && start <= |now| && now[..start] == was[..start] && multiset(now) == multiset(was)
  }

  class Parser {
    const cfg: Config
    const argv: array<string>
    var next: nat
    var quoted: nat
    var firstNonopt: nat
    var lastNonopt: nat
    var nextchar: Maybe<string>
    var argsOnly: bool
    var argEbadkey: bool
    var events: seq<Event>

    /** parser_init, with state.next set to `start`: 1, or 0 under ARGP_PARSE_ARGV0. */
    constructor (cfg: Config, argv: array<string>, start: nat)
      ensures this.cfg == cfg && this.argv == argv && next == start
      ensures quoted == firstNonopt == lastNonopt == 0 && nextchar == Nothing && !argsOnly && events == []
    {
      this.cfg, this.argv, next := cfg, argv, start;
      quoted, firstNonopt, lastNonopt, nextchar, argsOnly, argEbadkey, events := 0, 0, 0, Nothing, false, false, [];
    }

    /** The inner loops of exchange: [i, i+len) and [j, j+len) trade places. */
    method SwapBlocks(i: nat, j: nat, len: nat)
      requires i + len <= j && j + len <= argv.Length
      modifies argv
      ensures argv[..] == Blocked(old(argv[..]), i, j, len)
    {
      var k := 0;
      ghost var s := argv[..];
      while k < len
        invariant k <= len
        invariant forall x | 0 <= x < argv.Length :: argv[x] == s[Source(i, j, k, x)]
      {
        argv[i + k], argv[j + k] := argv[j + k], argv[i + k];
        k := k + 1;
      }
      BlocksSwapped(s, argv[..], i, j, len);
    }

    /** The bottom part is the short one. */
    method PlaceBottom(bottom: nat, middle: nat, top: nat, top': nat, ghost target: seq<string>)
      requires bottom < middle < top <= argv.Length && middle - bottom < top - middle && top' + (middle - bottom) == top
      requires Leads(argv[..], bottom, middle, top, target)
      modifies argv
      ensures Leads(argv[..], bottom, middle, top', target)
    {
      ghost var s := argv[..];
      SwapBlocks(bottom, top', middle - bottom);
      ghost var s' := argv[..];
      SwapTop(s, s', bottom, middle, top, top');
    }

    /** The top part is the short one. */
    method PlaceTop(bottom: nat, middle: nat, top: nat, bottom': nat, ghost target: seq<string>)
      requires bottom < middle < top <= argv.Length && top - middle <= middle - bottom
               && bottom' == bottom + (top - middle)
      requires Leads(argv[..], bottom, middle, top, target)
      modifies argv
      ensures Leads(argv[..], bottom', middle, top, target)
    {
      ghost var s := argv[..];
      SwapBlocks(bottom, middle, top - middle);
      ghost var s' := argv[..];
      SwapBottom(s, s', bottom, middle, top, bottom');
    }

    /** exchange: the skipped operands move behind the options read since, both keeping their order. */
    method Exchange()
      requires firstNonopt <= lastNonopt <= next <= argv.Length
      modifies argv, this`firstNonopt, this`lastNonopt
      ensures argv[..] == Swapped(old(argv[..]), old(firstNonopt), old(lastNonopt), next)
      ensures firstNonopt == old(firstNonopt) + (next - old(lastNonopt)) && lastNonopt == next
    {
      Rotate(firstNonopt, lastNonopt, next);
      firstNonopt := firstNonopt + (next - lastNonopt);
      lastNonopt := next;
    }

    /** The outer loop of exchange. */
    method Rotate(bottom0: nat, middle: nat, top0: nat)
      requires bottom0 <= middle <= top0 <= argv.Length
      modifies argv
      ensures argv[..] == Swapped(old(argv[..]), bottom0, middle, top0)
    {
      var bottom: nat, top: nat := bottom0, top0;
      hide Leads, Swapped;
      ghost var target := Swapped(argv[..], bottom, middle, top);
      LeadsStart(argv[..], bottom, middle, top);
      while top > middle > bottom
        invariant bottom <= middle <= top <= argv.Length
        invariant Leads(argv[..], bottom, middle, top, target)
        decreases top - bottom
      {
        if top - middle > middle - bottom {
          PlaceBottom(bottom, middle, top, top - (middle - bottom), target);
          top := top - (middle - bottom);
        } else {
          PlaceTop(bottom, middle, top, bottom + (top - middle), target);
          bottom := bottom + (top - middle);
        }
      }
      LeadsEnd(argv[..], bottom, middle, top, target);
    }

    // ------------------------------------------------------------ the invariant

    /** While options are looked for: from `start` on, argv holds the options read before the skipped
        operands, those operands, the options read since, and what is still to be read. */
    ghost predicate Picture(start: nat, opts: seq<string>, skipped: seq<string>, rest: seq<string>)
      reads this, argv
    {
      var k := if skipped == [] then |opts| else firstNonopt - start;
      && !argsOnly && quoted == 0 && start <= argv.Length && (skipped != [] ==> cfg.ordering == PERMUTE)
      && 0 <= k <= |opts| && next == start + |opts| + |skipped|
      && firstNonopt <= lastNonopt <= next && lastNonopt == firstNonopt + |skipped|
      && argv[start..] == opts[..k] + skipped + opts[k..] + rest
      && (nextchar.Just? ==> nextchar.value != "")
    }

    /** ... and going on from here leads to the outcome. */
    ghost predicate Scanning(start: nat, opts: seq<string>, skipped: seq<string>, rest: seq<string>, out: Outcome)
      reads this, argv
    {
      && Picture(start, opts, skipped, rest)
      && out == if nextchar.Nothing? then Finish(cfg, opts, skipped, events, rest)
                else FinishReading(cfg, Cluster(cfg, nextchar.value, rest), opts, skipped, events, rest)
    }

    /** Afterwards: argv has its final form, and its elements from next on are still to be delivered. */
    ghost predicate Delivering(start: nat, out: Outcome)
      reads this, argv
    {
      && argsOnly && nextchar.Nothing? && quoted <= next && start <= next <= argv.Length
      && firstNonopt <= lastNonopt <= next
      && argv[start..] == out.argv && out.ok && out.events == events + ArgEvents(argv[next..])
    }

    /** Final: all arguments are consumed, or an option was in error. */
    ghost predicate Ended(start: nat, out: Outcome)
      reads this, argv
    {
      && start <= argv.Length && events == out.events
      && (argEbadkey <==> out.ok) && (out.ok ==> next == argv.Length && argv[start..] == out.argv)
    }

    // ------------------------------------------------------------ the steps

    /** parser_parse_arg, with parsers that take every operand: it consumes one. */
    method ParseArg(val: string)
      requires next < argv.Length && argv[next] == val
      modifies this`next, this`events
      ensures next == old(next) + 1 && events == old(events) + [ArgEvent(val)]
    {
      events := events + [ArgEvent(val)];
      next := next + 1;
    }

    /** The part of parser_parse_next for `args_only`. */
    method NextOperand(ghost start: nat, ghost out: Outcome) returns (err: Error)
      requires Delivering(start, out)
      modifies this`next, this`events, this`argEbadkey
      ensures if err == OK then Delivering(start, out) && next == old(next) + 1 else Ended(start, out)
    {
      argEbadkey := true;
      if next >= argv.Length {
        return EBADKEY;
      }
      assert ArgEvents(argv[next..]) == [ArgEvent(argv[next])] + ArgEvents(argv[next + 1..]);
      ParseArg(argv[next]);
      err := OK;
    }

    /** The exchange of the skipped operands with the options read since. */
    method Gather(ghost start: nat, ghost opts: seq<string>, ghost skipped: seq<string>, ghost rest: seq<string>)
      requires start <= argv.Length && skipped != [] && start <= firstNonopt <= start + |opts|
      requires lastNonopt == firstNonopt + |skipped| && next == start + |opts| + |skipped|
      requires argv[start..] == opts[..firstNonopt - start] + skipped + opts[firstNonopt - start..] + rest
      modifies argv, this`firstNonopt, this`lastNonopt
      ensures argv[start..] == opts + (skipped + rest) && argv[start + |opts|..] == skipped + rest
      ensures firstNonopt == start + |opts| && lastNonopt == next && Rearranged(old(argv[..]), argv[..], start)
    {
      hide Rearranged, Swapped;
      ghost var s, k := argv[..], firstNonopt - start;
      assert s[start..] == argv[start..];
      Exchange();
      ExchangeMeans(s, start, opts, skipped, rest, k, argv[..]);
      SwappedKeeps(s, start + k, start + k + |skipped|, start + |opts| + |skipped|, start);
    }

    /** The end of the arguments: the skipped operands are next, if there are any. */
    method AtEnd(ghost start: nat, ghost opts: seq<string>, ghost skipped: seq<string>,
                 ghost out: Outcome) returns (err: Error)
      requires Scanning(start, opts, skipped, [], out) && nextchar.Nothing?
      modifies this, argv
      ensures if err == OK then Delivering(start, out) else Ended(start, out)
      ensures Rearranged(old(argv[..]), argv[..], start)
    {
      argEbadkey := true;
      if firstNonopt != lastNonopt {
        Gather(start, opts, skipped, []);
        next := firstNonopt;
        firstNonopt, lastNonopt := 0, 0;
        argsOnly := true;
        err := OK;
      } else {
        err := EBADKEY;
      }
    }

    /** What is still to be read stands at next. */
    lemma RestAtNext(start: nat, opts: seq<string>, skipped: seq<string>, rest: seq<string>)
      requires Picture(start, opts, skipped, rest)
      ensures next <= argv.Length && argv[next..] == rest
    {
      var k := if skipped == [] then |opts| else firstNonopt - start;
      ghost var s := argv[..];
      Fronts(s, s[..start], opts[..k] + skipped + opts[k..], rest);
    }

    /** Under PERMUTE a non-option joins the skipped ones, which are moved up to it if need be. */
    method SkipOperand(ghost start: nat, ghost opts: seq<string>, ghost skipped: seq<string>, ghost rest: seq<string>)
      requires Picture(start, opts, skipped, rest) && nextchar.Nothing? && rest != [] && cfg.ordering == PERMUTE
      modifies argv, this`next, this`firstNonopt, this`lastNonopt
      ensures Picture(start, opts, skipped + [rest[0]], rest[1..]) && next == old(next) + 1
      ensures Rearranged(old(argv[..]), argv[..], start)
    {
      RestAtNext(start, opts, skipped, rest);
      if firstNonopt == lastNonopt {
        firstNonopt, lastNonopt := next, next;
      } else if lastNonopt != next {
        Gather(start, opts, skipped, rest);
      }
      assert lastNonopt == next;
      next := next + 1;
      lastNonopt := next;
      SkipOne(argv[start..], opts, skipped, rest);
    }

    /** Under REQUIRE_ORDER the first non-option is an implicit quote. */
    method StopAtOperand(ghost start: nat, ghost opts: seq<string>, ghost skipped: seq<string>,
                         ghost rest: seq<string>, ghost out: Outcome)
      requires Scanning(start, opts, skipped, rest, out) && nextchar.Nothing? && rest != []
      requires Classify(cfg, rest[0]) == Arg && cfg.ordering == REQUIRE_ORDER
      modifies this`argsOnly
      ensures Delivering(start, out)
    {
      RestAtNext(start, opts, skipped, rest);
      NothingSkipped(opts, skipped, rest);
      argsOnly := true;
    }

    /** A non-option. */
    method TakeArg(arg: string, ghost start: nat, ghost opts: seq<string>, ghost skipped: seq<string>,
                   ghost rest: seq<string>, ghost out: Outcome)
        returns (ghost opts': seq<string>, ghost skipped': seq<string>)
      requires Scanning(start, opts, skipped, rest, out) && nextchar.Nothing? && rest != []
      requires rest[0] == arg && Classify(cfg, arg) == Arg
      modifies this, argv
      ensures if cfg.ordering == REQUIRE_ORDER then Delivering(start, out)
              else Scanning(start, opts', skipped', rest[1..], out)
      ensures cfg.ordering != REQUIRE_ORDER ==> next == old(next) + 1 && nextchar.Nothing?
      ensures Rearranged(old(argv[..]), argv[..], start)
    {
      opts', skipped' := opts, skipped;
      match cfg.ordering
      case PERMUTE =>
        SkipOperand(start, opts, skipped, rest);
        skipped' := skipped + [arg];
      case REQUIRE_ORDER =>
        StopAtOperand(start, opts, skipped, rest, out);
      case RETURN_IN_ORDER =>
        RestAtNext(start, opts, skipped, rest);
        argEbadkey := true;
        ParseArg(arg);
        opts' := opts + [arg];
        ShiftRest(opts, skipped, rest, |opts|, 1);
    }

    /** The quote `--`. */
    method TakeQuote(ghost start: nat, ghost opts: seq<string>, ghost skipped: seq<string>, ghost rest: seq<string>,
                     ghost out: Outcome)
      requires Scanning(start, opts, skipped, rest, out) && nextchar.Nothing? && rest != []
               && Classify(cfg, rest[0]) == Quote
      modifies this, argv
      ensures Delivering(start, out) && Rearranged(old(argv[..]), argv[..], start)
    {
      RestAtNext(start, opts, skipped, rest);
      StepOver(start, opts, skipped, rest);
      assert lastNonopt != next;
      QuoteMeans(opts, skipped, rest);
      if firstNonopt != lastNonopt {
        Gather(start, opts + [rest[0]], skipped, rest[1..]);
        next := firstNonopt;
        quoted := next;
        firstNonopt, lastNonopt := 0, 0;
      } else {
        quoted := next;
        NothingSkipped(opts + [rest[0]], skipped, rest[1..]);
      }
      argsOnly := true;
    }

    /** The last part of an option: its value, written with it or in the next element, and the call of
        its parser; or one of the two complaints about the value. */
    method TakeValue(slot: Slot, written: Maybe<string>,
                     ghost start: nat, ghost opts: seq<string>, ghost skipped: seq<string>, ghost rest: seq<string>,
                     ghost out: Outcome)
        returns (err: Error, ghost n: nat)
      requires In(cfg.table, slot) && Picture(start, opts, skipped, rest) && nextchar.Nothing?
      requires out == FinishReading(cfg, Attach(At(cfg.table, slot), slot, written, rest), opts, skipped, events, rest)
      modifies this`next, this`events, this`argEbadkey
      ensures if err == OK then n <= |rest| && Scanning(start, opts + rest[..n], skipped, rest[n..], out)
              else Ended(start, out)
      ensures old(next) <= next
    {
      hide Finish, Classify, Cluster, Long;
      RestAtNext(start, opts, skipped, rest);
      n := 0;
      argEbadkey := false;
      var o := At(cfg.table, slot);
      if written.Just? && !o.arg {
        return EBADKEY, n;
      }
      var value := written;
      if o.arg && value.Nothing? && !o.argOptional {
        if next == argv.Length {
          return EBADKEY, n;
        }
        value := Just(argv[next]);
        next := next + 1;
        n := 1;
      }
      ShiftRest(opts, skipped, rest, if skipped == [] then |opts| else firstNonopt - start, n);
      events := events + [OptionEvent(slot, value)];
      err := OK;
    }

    /** A long option; the element itself has been read. */
    method TakeLong(text: string, ghost start: nat, ghost opts: seq<string>, ghost skipped: seq<string>,
                    ghost rest: seq<string>, ghost out: Outcome)
        returns (err: Error, ghost n: nat)
      requires Picture(start, opts, skipped, rest) && nextchar.Nothing?
      requires out == FinishReading(cfg, Long(cfg, text, rest), opts, skipped, events, rest)
      modifies this`next, this`events, this`argEbadkey
      ensures if err == OK then n <= |rest| && Scanning(start, opts + rest[..n], skipped, rest[n..], out)
              else Ended(start, out)
      ensures old(next) <= next
    {
      var slot, ambiguous := FindLongOption(cfg.table, text);
      if slot.Nothing? {
        argEbadkey := false;
        return EBADKEY, 0;
      }
      var written := AfterEquals(text);
      err, n := TakeValue(slot.value, written, start, opts, skipped, rest, out);
    }

    /** strchr(text, '='), and past it. */
    method AfterEquals(text: string) returns (value: Maybe<string>)
      ensures value == Written(text)
    {
      var i := 0;
      while i < |text| && text[i] != '='
        invariant i <= |text| && Stem(text) == text[..i] + Stem(text[i..])
      {
        assert text[i..][1..] == text[i + 1..];
        i := i + 1;
      }
      value := if i < |text| then Just(text[i + 1..]) else Nothing;
    }

    /** One character of a cluster of short options. */
    method TakeShort(ghost start: nat, ghost opts: seq<string>, ghost skipped: seq<string>, ghost rest: seq<string>,
                     ghost out: Outcome)
        returns (err: Error, ghost n: nat)
      requires Scanning(start, opts, skipped, rest, out) && nextchar.Just?
      modifies this`next, this`events, this`argEbadkey, this`nextchar
      ensures if err == OK then n <= |rest| && Scanning(start, opts + rest[..n], skipped, rest[n..], out)
              else Ended(start, out)
      ensures old(next) <= next
      ensures nextchar.Nothing? || |nextchar.value| < |old(nextchar).value|
    {
      assert !argsOnly;
      ghost var cs0 := nextchar.value;
      assert cs0 == [cs0[0]] + cs0[1..];
      var c, cs := nextchar.value[0], nextchar.value[1..];
      n := 0;
      var slot := Nothing;
      if c as int < 128 {
        slot := FindShortOption(cfg.table, c as int);
      }
      nextchar := if cs == "" then Nothing else Just(cs);
      if slot.Nothing? {
        argEbadkey := false;
        return EBADKEY, n;
      }
      err, n := ApplyShort(cs0[0], slot.value, cs, start, opts, skipped, rest, out);
    }

    /** The character c stands for the option in `slot`; cs follows it in the element. */
    method ApplyShort(ghost c: char, slot: Slot, cs: string,
                      ghost start: nat, ghost opts: seq<string>, ghost skipped: seq<string>, ghost rest: seq<string>,
                      ghost out: Outcome)
        returns (err: Error, ghost n: nat)
      requires c as int < 128 && FindShort(cfg.table, c as int) == Just(slot)
      requires Picture(start, opts, skipped, rest) && nextchar == if cs == "" then Nothing else Just(cs)
      requires out == FinishReading(cfg, Cluster(cfg, [c] + cs, rest), opts, skipped, events, rest)
      modifies this`next, this`events, this`argEbadkey, this`nextchar
      ensures if err == OK then n <= |rest| && Scanning(start, opts + rest[..n], skipped, rest[n..], out)
              else Ended(start, out)
      ensures old(next) <= next && (nextchar.Nothing? || nextchar == old(nextchar))
    {
      hide Finish, Classify, Long, Attach;
      assert ([c] + cs)[1..] == cs;
      if At(cfg.table, slot).arg {
        var value := nextchar;
        nextchar := Nothing;
        err, n := TakeValue(slot, value, start, opts, skipped, rest, out);
      } else {
        err, n := OK, 0;
        ghost var ev := events;
        var e := OptionEvent(slot, Nothing);
        events := events + [e];
        assert opts + rest[..0] == opts && rest[0..] == rest;
        if cs != "" {
          ghost var r := Cluster(cfg, cs, rest);
          assert ev + ([e] + r.events) == (ev + [e]) + r.events;
        }
      }
    }

    /** The first lines of parser_parse_next: they act only when a parser has moved `next` back. */
    method Readjust()
      modifies this`quoted, this`argsOnly, this`lastNonopt, this`firstNonopt
      ensures if old(quoted) != 0 && next < old(quoted) then quoted == 0 && !argsOnly
              else quoted == old(quoted) && argsOnly == old(argsOnly)
      ensures lastNonopt == if old(lastNonopt) > next then next else old(lastNonopt)
      ensures firstNonopt == if old(firstNonopt) > next then next else old(firstNonopt)
    {
      if quoted != 0 && next < quoted {
        quoted, argsOnly := 0, false;
      }
      if lastNonopt > next {
        lastNonopt := next;
      }
      if firstNonopt > next {
        firstNonopt := next;
      }
    }

    /** parser_parse_next.  The state is either Scanning, as the ghost sequences say, or Delivering. */
    method ParseNext(ghost start: nat, ghost opts: seq<string>, ghost skipped: seq<string>, ghost rest: seq<string>,
                     ghost out: Outcome)
        returns (err: Error, ghost opts': seq<string>, ghost skipped': seq<string>, ghost rest': seq<string>)
      requires if argsOnly then Delivering(start, out) else Scanning(start, opts, skipped, rest, out)
      modifies this, argv
      ensures err == EBADKEY ==> Ended(start, out)
      ensures err == OK ==> if argsOnly then Delivering(start, out) else Scanning(start, opts', skipped', rest', out)
      ensures err == OK ==> Progress(old(argsOnly), old(next), old(nextchar))
      ensures Rearranged(old(argv[..]), argv[..], start)
    {
      opts', skipped', rest' := opts, skipped, rest;
      Readjust();
      ghost var n;
      if nextchar.Just? {
        err, n := TakeShort(start, opts, skipped, rest, out);
        if err == OK {
          opts', rest' := opts + rest[..n], rest[n..];
        }
      } else if argsOnly {
        err := NextOperand(start, out);
      } else if next >= argv.Length {
        RestAtNext(start, opts, skipped, rest);
        err := AtEnd(start, opts, skipped, out);
      } else {
        RestAtNext(start, opts, skipped, rest);
        err, opts', skipped', rest' := NextElement(argv[next], start, opts, skipped, rest, out);
      }
    }

    /** Looking for options at an element. */
    method NextElement(arg: string, ghost start: nat, ghost opts: seq<string>, ghost skipped: seq<string>,
                       ghost rest: seq<string>, ghost out: Outcome)
        returns (err: Error, ghost opts': seq<string>, ghost skipped': seq<string>, ghost rest': seq<string>)
      requires Scanning(start, opts, skipped, rest, out) && nextchar.Nothing? && rest != [] && rest[0] == arg
      modifies this, argv
      ensures err == EBADKEY ==> Ended(start, out)
      ensures err == OK ==> if argsOnly then Delivering(start, out)
                            else Scanning(start, opts', skipped', rest', out) && next > old(next)
      ensures Rearranged(old(argv[..]), argv[..], start)
    {
      err, opts', skipped', rest' := OK, opts, skipped, rest[1..];
      match Classify(cfg, arg)
      case Arg =>
        opts', skipped' := TakeArg(arg, start, opts, skipped, rest, out);
      case Quote =>
        TakeQuote(start, opts, skipped, rest, out);
      case ShortOption(text) =>
        StepOver(start, opts, skipped, rest);
        nextchar := Just(text);
        opts' := opts + [arg];
      case LongOption(text) =>
        StepOver(start, opts, skipped, rest);
        ghost var n;
        err, n := TakeLong(text, start, opts + [arg], skipped, rest[1..], out);
        if err == OK {
          opts', rest' := opts + [arg] + rest[1..][..n], rest[1..][n..];
        }
    }

    /** parser->state.next++ at an option element. */
    method StepOver(ghost start: nat, ghost opts: seq<string>, ghost skipped: seq<string>, ghost rest: seq<string>)
      requires Picture(start, opts, skipped, rest) && nextchar.Nothing? && rest != []
      modifies this`next
      ensures Picture(start, opts + [rest[0]], skipped, rest[1..]) && next == old(next) + 1
    {
      ShiftRest(opts, skipped, rest, if skipped == [] then |opts| else firstNonopt - start, 1);
      next := next + 1;
    }

    /** Every call of parser_parse_next that does not end the loop brings its end nearer. */
    ghost predicate Progress(wasOnly: bool, was: nat, wasChar: Maybe<string>)
      reads this, argv
    {
      if argsOnly then !wasOnly || was < next <= argv.Length
      else !wasOnly && next <= argv.Length &&
           (was < next || (was == next && Pending(nextchar) < Pending(wasChar)))
    }

    static function Pending(c: Maybe<string>): nat {
      if c.Just? then |c.value| else 0
    }

    /** The loop of argp_parse: it terminates, delivers exactly the events of the meaning of the
        arguments, and rearranges them, if no option is in error into the order the meaning gives. */
    method Parse()
      requires next <= argv.Length && quoted == firstNonopt == lastNonopt == 0 && nextchar == Nothing
      requires !argsOnly && events == []
      modifies this, argv
      ensures var out := old(Meaning(cfg, argv[next..])); Ended(old(next), out)
      ensures Rearranged(old(argv[..]), argv[..], old(next))
    {
      ghost var start, out := next, Meaning(cfg, argv[next..]);
      ghost var opts: seq<string>, skipped: seq<string>, rest := [], [], argv[next..];
      var err := OK;
      while err == OK
        invariant if err == EBADKEY then Ended(start, out)
                  else if argsOnly then Delivering(start, out) else Scanning(start, opts, skipped, rest, out)
        invariant Rearranged(old(argv[..]), argv[..], start)
        decreases err == OK, !argsOnly, argv.Length - next, Pending(nextchar)
      {
        if !argsOnly {
          RestAtNext(start, opts, skipped, rest);
        }
        err, opts, skipped, rest := ParseNext(start, opts, skipped, rest, out);
      }
    }
  }

  lemma SwappedKeeps(s: seq<string>, b: nat, m: nat, t: nat, start: nat)
    requires start <= b <= m <= t <= |s|
    ensures Rearranged(s, Swapped(s, b, m, t), start)
  {
    assert s == s[..b] + s[b..m] + s[m..t] + s[t..];
  }

  /** One more operand is set aside. */
  lemma SkipOne(s: seq<string>, opts: seq<string>, skipped: seq<string>, rest: seq<string>)
    requires rest != [] && (s == opts + (skipped + rest) || s == opts + skipped + rest)
    ensures s == opts[..|opts|] + (skipped + [rest[0]]) + opts[|opts|..] + rest[1..]
  {
    assert rest == [rest[0]] + rest[1..];
  }

  /** n more elements are read as options. */
  lemma ShiftRest(opts: seq<string>, skipped: seq<string>, rest: seq<string>, k: nat, n: nat)
    requires k <= |opts| && n <= |rest|
    ensures opts[..k] + skipped + opts[k..] + rest
         == (opts + rest[..n])[..k] + skipped + (opts + rest[..n])[k..] + rest[n..]
    ensures skipped == [] ==> opts[..k] + skipped + opts[k..] + rest == opts + rest[..n] + rest[n..]
    ensures n == 1 ==> rest[..1] == [rest[0]]
  {
    assert rest == rest[..n] + rest[n..];
    assert (opts + rest[..n])[k..] == opts[k..] + rest[..n];
  }

  lemma QuoteMeans(opts: seq<string>, skipped: seq<string>, rest: seq<string>)
    requires rest != []
    ensures opts + [rest[0]] + skipped + rest[1..] == opts + [rest[0]] + (skipped + rest[1..])
    ensures rest == [rest[0]] + rest[1..]
  {
  }

  lemma BlocksSwapped(s: seq<string>, s': seq<string>, i: nat, j: nat, len: nat)
    requires i + len <= j && j + len <= |s| == |s'|
    requires forall x | 0 <= x < |s| :: s'[x] == s[Source(i, j, len, x)]
    ensures s' == Blocked(s, i, j, len)
  {
    assert s'[..i] == s[..i] && s'[i..i + len] == s[j..j + len] && s'[i + len..j] == s[i + len..j];
    assert s'[j..j + len] == s[i..i + len] && s'[j + len..] == s[j + len..];
    assert s'[..j] == s'[..i] + s'[i..i + len] + s'[i + len..j];
    assert s' == s'[..j] + s'[j..j + len] + s'[j + len..];
  }

  lemma SwappedParts(q: seq<string>, x: seq<string>, y: seq<string>, r: seq<string>)
    ensures Swapped(q + x + y + r, |q|, |q| + |x|, |q| + |x| + |y|) == q + y + x + r
  {
    var s := q + x + y + r;
    assert s[..|q|] == q && s[|q|..|q| + |x|] == x && s[|q| + |x|..|q| + |x| + |y|] == y && s[|q| + |x| + |y|..] == r;
  }

  lemma NothingSkipped(opts: seq<string>, skipped: seq<string>, rest: seq<string>)
    requires skipped == []
    ensures opts + skipped + rest == opts + rest && skipped + rest == rest
    ensures opts[..|opts|] + skipped + opts[|opts|..] + rest == opts + rest
  {
  }

  /** What exchange does to the picture of the invariant. */
  lemma ExchangeMeans(s: seq<string>, start: nat, opts: seq<string>, skipped: seq<string>, rest: seq<string>, k: nat,
                      s': seq<string>)
    requires start <= |s| && k <= |opts| && s[start..] == opts[..k] + skipped + opts[k..] + rest
    requires s' == Swapped(s, start + k, start + k + |skipped|, start + |opts| + |skipped|)
    ensures |s'| == |s| && s'[start..] == opts + (skipped + rest) && s'[start + |opts|..] == skipped + rest
  {
    assert opts == opts[..k] + opts[k..];
    ExchangeParts(s, s[..start], opts[..k], skipped, opts[k..], rest, s');
  }

  lemma ExchangeParts(s: seq<string>, p: seq<string>, a: seq<string>, x: seq<string>, b: seq<string>, r: seq<string>,
                      s': seq<string>)
    requires |p| <= |s| && p == s[..|p|] && s[|p|..] == a + x + b + r
    requires s' == Swapped(s, |p| + |a|, |p| + |a| + |x|, |p| + |a| + |x| + |b|)
    ensures |s'| == |s| && s'[|p|..] == a + b + (x + r) && s'[|p| + |a + b|..] == x + r
  {
    Regroup(s, p, a, x, b, r);
    SwappedParts(p + a, x, b, r);
    assert s' == p + (a + b) + (x + r);
    Fronts(s', p, a + b, x + r);
  }

  lemma Regroup(s: seq<string>, p: seq<string>, a: seq<string>, x: seq<string>, y: seq<string>, r: seq<string>)
    requires |p| <= |s| && p == s[..|p|] && s[|p|..] == a + x + y + r
    ensures s == p + a + x + y + r
  {
    assert s == p + s[|p|..];
  }

  /** Taking known fronts off a sequence. */
  lemma Fronts(s: seq<string>, p: seq<string>, o: seq<string>, r: seq<string>)
    requires s == p + o + r
    ensures s[|p|..] == o + r && s[|p| + |o|..] == r
  {
  }

  lemma SwappedNothing(s: seq<string>, b: nat, m: nat, t: nat)
    requires b <= m <= t <= |s| && (b == m || m == t)
    ensures Swapped(s, b, m, t) == s
  {
    assert s[b..m] == [] || s[m..t] == [];
  }

  lemma SwapTop(s: seq<string>, s': seq<string>, b: nat, m: nat, t: nat, t': nat)
    requires b < m < t <= |s| && m - b < t - m && t' + (m - b) == t
    requires s' == Blocked(s, b, t', m - b)
    ensures Swapped(s', b, m, t') == Swapped(s, b, m, t)
  {
    assert s'[..b] == s[..b] && s'[m..t'] == s[m..t'] && s'[b..m] == s[t'..t] && s'[t'..] == s[b..m] + s[t..];
    assert s[m..t] == s[m..t'] + s[t'..t];
  }

  lemma SwapBottom(s: seq<string>, s': seq<string>, b: nat, m: nat, t: nat, b': nat)
    requires b < m < t <= |s| && t - m <= m - b && b' == b + (t - m)
    requires s' == Blocked(s, b, m, t - m)
    ensures Swapped(s', b', m, t) == Swapped(s, b, m, t)
  {
    assert s'[..b'] == s[..b] + s[m..t] && s'[m..t] == s[b..b'] && s'[b'..m] == s[b'..m] && s'[t..] == s[t..];
    assert s[b..m] == s[b..b'] + s[b'..m];
  }
}
