/** What a run of argp_parse over an argument vector should mean: the vector is read item by item,
    options with their attached arguments are delivered in order, operands after them. */
module ArgpSpec {
  import opened Basics
  import opened ArgpOptions

  datatype Ordering = REQUIRE_ORDER | PERMUTE | RETURN_IN_ORDER

  /** `shortOpts` is parser->short_opts, consulted only under ARGP_LONG_ONLY. */
  datatype Config = Config(table: Table, ordering: Ordering, longOnly: bool, shortOpts: string)

  /** A call of a parser: an option key with its value, or ARGP_KEY_ARG. */
  datatype Event = OptionEvent(slot: Slot, value: Maybe<string>) | ArgEvent(arg: string)

  datatype ArgType = Arg | Quote | ShortOption(text: string) | LongOption(text: string)

  /** classify_arg; ARG_LONG_OPTION and ARG_LONG_ONLY_OPTION differ only in their messages. */
  function Classify(cfg: Config, arg: string): (r: ArgType)
    ensures r.Arg? <==> !("-" < arg)
    ensures r.Quote? <==> arg == "--"
    ensures r.ShortOption? ==> r.text != "" && r.text[0] != '-' && arg == "-" + r.text
    ensures r.LongOption? ==> r.text != "" && (arg == "--" + r.text || (cfg.longOnly && arg == "-" + r.text))
    ensures r.ShortOption? <==>
            "-" < arg && arg[1] != '-' && (cfg.longOnly ==> |arg| == 2 && arg[1] in cfg.shortOpts)
  {
    if arg == "" || arg[0] != '-' || |arg| == 1 then Arg
    else if arg[1] == '-' then (if |arg| == 2 then Quote else LongOption(arg[2..]))
    else if cfg.longOnly && (|arg| > 2 || arg[1] !in cfg.shortOpts) then LongOption(arg[1..])
    else ShortOption(arg[1..])
  }

  /** What an option element delivers, how many further elements it takes, and whether it is
      well-formed. */
  datatype Reading = Reading(events: seq<Event>, extra: nat, ok: bool)

  /** The value of an option that was written with `inline`, or takes its argument from `rest`. */
  ghost function Attach(o: Opt, slot: Slot, written: Maybe<string>, rest: seq<string>): Reading {
    if written.Just? && !o.arg then Reading([], 0, false)
    else if o.arg && written.Nothing? && !o.argOptional then
      if rest == [] then Reading([], 0, false) else Reading([OptionEvent(slot, Just(rest[0]))], 1, true)
    else Reading([OptionEvent(slot, written)], 0, true)
  }

  /** A cluster of short options.  A character beyond ASCII trips an assertion of the source. */
  ghost function Cluster(cfg: Config, cs: string, rest: seq<string>): (r: Reading)
    requires cs != ""
    ensures r.extra <= |rest| && r.extra <= 1
  {
    var s := if cs[0] as int < 128 then FindShort(cfg.table, cs[0] as int) else Nothing;
    if s.Nothing? then Reading([], 0, false)
    else
      var o := At(cfg.table, s.value);
      if o.arg then Attach(o, s.value, if |cs| > 1 then Just(cs[1..]) else Nothing, rest)
      else if |cs| == 1 then Reading([OptionEvent(s.value, Nothing)], 0, true)
      else var r := Cluster(cfg, cs[1..], rest);
           r.(events := [OptionEvent(s.value, Nothing)] + r.events)
  }

  /** The text after the first '=', if there is one. */
  function Written(text: string): Maybe<string> {
    if |Stem(text)| < |text| then Just(text[|Stem(text)| + 1..]) else Nothing
  }

  ghost function FindLong(t: Table, arg: string): Maybe<Slot> {
    var exact, partial := FirstFrom(t, MatchIs(arg, Exact), Slot(0, 0)),
      FirstFrom(t, MatchIs(arg, Partial), Slot(0, 0));
    if exact.Just? then exact
    else if partial.Just? && Unambiguous(t, arg, partial.value) then partial else Nothing
  }

  ghost function Long(cfg: Config, text: string, rest: seq<string>): (r: Reading)
    ensures r.extra <= |rest|
  {
    var s := FindLong(cfg.table, text);
    if s.Nothing? then Reading([], 0, false) else Attach(At(cfg.table, s.value), s.value, Written(text), rest)
  }

  /** `ok` is false when an option was unknown, ambiguous or lacked its argument. */
  datatype Outcome = Outcome(argv: seq<string>, events: seq<Event>, ok: bool)

  function ArgEvents(args: seq<string>): seq<Event> {
    seq(|args|, i requires 0 <= i < |args| => ArgEvent(args[i]))
  }

  /** The end of the run, once `opts` have been read, `skipped` set aside and `ev` delivered. */
  ghost function Finish(cfg: Config, opts: seq<string>, skipped: seq<string>, ev: seq<Event>,
                        rest: seq<string>): Outcome
    decreases |rest|, 0
  {
    if rest == [] then Outcome(opts + skipped, ev + ArgEvents(skipped), true)
    else
      match Classify(cfg, rest[0])
      case Arg =>
        (match cfg.ordering
         case PERMUTE => Finish(cfg, opts, skipped + [rest[0]], ev, rest[1..])
         case REQUIRE_ORDER => Outcome(opts + skipped + rest, ev + ArgEvents(skipped + rest), true)
         case RETURN_IN_ORDER => Finish(cfg, opts + [rest[0]], skipped, ev + [ArgEvent(rest[0])], rest[1..]))
      case Quote =>
        Outcome(opts + [rest[0]] + skipped + rest[1..], ev + ArgEvents(skipped + rest[1..]), true)
      case ShortOption(cs) => FinishReading(cfg, Cluster(cfg, cs, rest[1..]), opts + [rest[0]], skipped, ev, rest[1..])
      case LongOption(text) => FinishReading(cfg, Long(cfg, text, rest[1..]), opts + [rest[0]], skipped, ev, rest[1..])
  }

  ghost function FinishReading(cfg: Config, r: Reading, opts: seq<string>, skipped: seq<string>, ev: seq<Event>,
                               rest: seq<string>): Outcome
    requires r.extra <= |rest|
    decreases |rest|, 1
  {
    if !r.ok then Outcome([], ev + r.events, false)
    else Finish(cfg, opts + rest[..r.extra], skipped, ev + r.events, rest[r.extra..])
  }

  /** The meaning of a whole run. */
  ghost function Meaning(cfg: Config, args: seq<string>): Outcome {
    Finish(cfg, [], [], [], args)
  }
}
