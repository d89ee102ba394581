/** The keys a parser is called with, over a whole argp_parse: parser_init, parser_parse_arg and
    parser_finalize of src/argp/argp-parse.c, for any answers the parsers give. */
module ArgpProtocol {
  import opened Basics
  import opened ArgpOptions
  import opened ArgpGroups

  const EBADKEY := 7
  const EINVAL := 22

  datatype Key = Init | Arg | Args | Switch(code: int) | NoArgs | End | Success | Error | Fini

  /** What a parser does when called: the error it returns, where it leaves `next` and its hook, and what it stores in
      its child inputs. */
  datatype Answer = Answer(err: int, next: int, hook: int, children: int -> int)

  /** One call of a parser: what it saw in the state block and what it left there.  For the two argument keys, start is
      where the argument stands in argv. */
  datatype Event = Event(group: nat, key: Key, start: int, argNum: nat, input: int, hookIn: int, hookOut: int,
                         next: int, err: int)

  /** An error that stops a pass over the parsers. */
  predicate Real(err: int) {
    err != 0 && err != EBADKEY
  }

  // ---------------------------------------------------------------- what the log says

  /** Arguments the call handled: all that are left for ARGP_KEY_ARGS, and none if `next` was set back. */
  function Gain(e: Event, argc: int): nat {
    if e.err != 0 || (e.key != Arg && e.key != Args) then 0
    else
      var reached := if e.key == Arg then e.next else argc;
      if reached > e.start then reached - e.start else 0
  }

  /** The calls of a run, the latest outermost. */
  datatype Log = Start | After(before: Log, last: Event)

  function Events(log: Log): seq<Event> {
    match log
    case Start => []
    case After(before, last) => Events(before) + [last]
  }

  /** later is log followed by the calls in seg. */
  predicate Extends(log: Log, seg: seq<Event>, later: Log) {
    Events(later) == Events(log) + seg
  }

  lemma ExtendsPush(log: Log, seg: seq<Event>, later: Log, more: Maybe<Event>)
    requires Extends(log, seg, later)
    ensures Extends(log, Grown(seg, more), if more.Just? then After(later, more.value) else later)
  {
    if more.Just? {
      assert Events(log) + (seg + [more.value]) == (Events(log) + seg) + [more.value];
    }
  }

  lemma ExtendsOn(log: Log, seg: seq<Event>, mid: Log, more: seq<Event>, later: Log)
    requires Extends(log, seg, mid) && Extends(mid, more, later)
    ensures Extends(log, seg + more, later)
  {
    assert Events(log) + (seg + more) == (Events(log) + seg) + more;
  }

  function Length(log: Log): nat {
    match log
    case Start => 0
    case After(before, _) => Length(before) + 1
  }

  lemma {:induction false} LengthOfLog(log: Log)
    ensures |Events(log)| == Length(log)
  {
    if log.After? {
      LengthOfLog(log.before);
    }
  }

  function Consumed(log: Log, g: nat, argc: int): nat {
    match log
    case Start => 0
    case After(before, e) => Consumed(before, g, argc) + if e.group == g then Gain(e, argc) else 0
  }

  function LastHook(log: Log, g: nat): int {
    match log
    case Start => 0
    case After(before, e) => if e.group == g then e.hookOut else LastHook(before, g)
  }

  /** Every call found in the state block the hook its own group left there last, and the number of arguments its own
      group has handled. */
  predicate Coherent(log: Log, groups: seq<Member>, argc: int) {
    match log
    case Start => true
    case After(before, e) => Coherent(before, groups, argc) && Found(before, e, groups, argc)
  }

  predicate Found(log: Log, e: Event, groups: seq<Member>, argc: int) {
    && e.group < |groups| && groups[e.group].argp.parser
    && e.hookIn == LastHook(log, e.group)
    && e.argNum == Consumed(log, e.group, argc)
  }

  // ---------------------------------------------------------------- inputs

  /** How many of the first g groups have a parser. */
  function Parsers(groups: seq<Member>, g: nat): nat
    requires g <= |groups|
  {
    if g == 0 then 0 else Parsers(groups, g - 1) + if groups[g - 1].argp.parser then 1 else 0
  }

  /** The input group g gets: what its parent has in the child input for it. */
  function Given(groups: seq<Member>, g: nat, root: int, answers: nat -> Answer): int
    requires LinkedFrom(groups, 0) && g < |groups|
    decreases g, 0
  {
    var m := groups[g];
    if m.parent.Nothing? then if g == 0 then root else 0
    else
      assert Linked(groups, g);
      Deposit(groups, m.parent.value, m.parentIndex, root, answers)
  }

  /** What group p has in child input j after its own ARGP_KEY_INIT: what its parser stored there; without a parser, its
      own input for the first child. */
  function Deposit(groups: seq<Member>, p: nat, j: nat, root: int, answers: nat -> Answer): int
    requires LinkedFrom(groups, 0) && p < |groups|
    decreases p, 1
  {
    if groups[p].argp.parser then answers(Parsers(groups, p)).children(j)
    else if j == 0 then Given(groups, p, root, answers)
    else 0
  }

  /** The child inputs of m. */
  function Window(vector: seq<int>, m: Member): seq<int>
    requires Between(m, 0, |vector|)
  {
    vector[m.slots..m.slots + |m.argp.children|]
  }

  /** What the child inputs of group k should hold when the first n groups have had their turn. */
  function Row(groups: seq<Member>, n: nat, k: nat, root: int, answers: nat -> Answer): (r: seq<int>)
    requires LinkedFrom(groups, 0) && k < |groups|
    ensures |r| == |groups[k].argp.children|
  {
    seq(|groups[k].argp.children|, j requires 0 <= j => if k < n then Deposit(groups, k, j, root, answers) else 0)
  }

  ghost predicate Deposited(groups: seq<Member>, n: nat, vector: seq<int>, root: int, answers: nat -> Answer)
    requires LinkedFrom(groups, 0) && Windows(groups, 0, |vector|)
  {
    forall k :: 0 <= k < |groups| ==> Window(vector, groups[k]) == Row(groups, n, k, root, answers)
  }

  lemma FrontKeeps(before: seq<int>, after: seq<int>, end: nat, m: Member)
    requires |before| == |after| && end <= |before| && before[..end] == after[..end]
    requires m.slots + |m.argp.children| <= end
    ensures Window(before, m) == Window(after, m)
  {
    forall j | m.slots <= j < m.slots + |m.argp.children|
      ensures before[j] == after[j]
    {
      assert before[..end][j] == after[..end][j];
    }
  }

  lemma BackKeeps(before: seq<int>, after: seq<int>, start: nat, m: Member)
    requires |before| == |after| && start <= |before| && before[start..] == after[start..]
    requires start <= m.slots && m.slots + |m.argp.children| <= |before|
    ensures Window(before, m) == Window(after, m)
  {
    forall j | m.slots <= j < m.slots + |m.argp.children|
      ensures before[j] == after[j]
    {
      assert before[start..][j - start] == after[start..][j - start];
    }
  }

  /** Group n's turn changes its own child inputs only. */
  lemma DepositStep(groups: seq<Member>, n: nat, before: seq<int>, after: seq<int>, root: int, answers: nat -> Answer)
    requires LinkedFrom(groups, 0) && Windows(groups, 0, |before|) && n < |groups| && |after| == |before|
    requires Deposited(groups, n, before, root, answers)
    requires before[..groups[n].slots] == after[..groups[n].slots]
    requires var end := groups[n].slots + |groups[n].argp.children|;
             end <= |before| && before[end..] == after[end..]
    requires Window(after, groups[n]) == Row(groups, n + 1, n, root, answers)
    ensures Deposited(groups, n + 1, after, root, answers)
  {
    forall k | 0 <= k < |groups| ensures Window(after, groups[k]) == Row(groups, n + 1, k, root, answers) {
      if k != n {
        assert Between(groups[k], 0, |before|) && Window(before, groups[k]) == Row(groups, n, k, root, answers);
        assert Row(groups, n, k, root, answers) == Row(groups, n + 1, k, root, answers);
        if k < n {
          assert Separate(groups[k], groups[n]);
          FrontKeeps(before, after, groups[n].slots, groups[k]);
        } else {
          assert Separate(groups[n], groups[k]);
          BackKeeps(before, after, groups[n].slots + |groups[n].argp.children|, groups[k]);
        }
      }
    }
  }

  /** The child inputs after the parser of m has written its own. */
  function Stored(vector: seq<int>, m: Member, children: int -> int): (r: seq<int>)
    requires Between(m, 0, |vector|)
    ensures |r| == |vector|
  {
    vector[..m.slots] + seq(|m.argp.children|, j => children(j)) + vector[m.slots + |m.argp.children|..]
  }

  /** ...and when m has no parser, and parser_init passes its input on to its first child. */
  function PassedOn(vector: seq<int>, m: Member, input: int): (r: seq<int>)
    requires Between(m, 0, |vector|)
    ensures |r| == |vector|
  {
    if m.argp.children == [] then vector else vector[m.slots := input]
  }

  lemma StoredDeposits(groups: seq<Member>, n: nat, vector: seq<int>, root: int, answers: nat -> Answer)
    requires LinkedFrom(groups, 0) && Windows(groups, 0, |vector|) && n < |groups|
    requires Deposited(groups, n, vector, root, answers) && groups[n].argp.parser
    ensures Between(groups[n], 0, |vector|)
    ensures Deposited(groups, n + 1, Stored(vector, groups[n], answers(Parsers(groups, n)).children), root, answers)
  {
    assert Between(groups[n], 0, |vector|);
    var after := Stored(vector, groups[n], answers(Parsers(groups, n)).children);
    assert Window(after, groups[n]) == Row(groups, n + 1, n, root, answers);
    DepositStep(groups, n, vector, after, root, answers);
  }

  lemma PassedOnDeposits(groups: seq<Member>, n: nat, vector: seq<int>, root: int, answers: nat -> Answer)
    requires LinkedFrom(groups, 0) && Windows(groups, 0, |vector|) && n < |groups|
    requires Deposited(groups, n, vector, root, answers) && !groups[n].argp.parser
    ensures Between(groups[n], 0, |vector|)
    ensures Deposited(groups, n + 1, PassedOn(vector, groups[n], Given(groups, n, root, answers)), root, answers)
  {
    assert Between(groups[n], 0, |vector|);
    var after := PassedOn(vector, groups[n], Given(groups, n, root, answers));
    assert Window(vector, groups[n]) == Row(groups, n, n, root, answers);
    var w := Window(vector, groups[n]);
    assert Window(after, groups[n]) == if w == [] then w else w[0 := Given(groups, n, root, answers)];
    assert Window(after, groups[n]) == Row(groups, n + 1, n, root, answers);
    DepositStep(groups, n, vector, after, root, answers);
  }

  /** Every call found the input its group is given, and comes after one call for each parser before it. */
  ghost predicate Fed(seg: seq<Event>, groups: seq<Member>, root: int, answers: nat -> Answer)
    requires LinkedFrom(groups, 0)
  {
    forall i :: 0 <= i < |seg| ==>
      seg[i].group < |groups| && i == Parsers(groups, seg[i].group)
      && seg[i].input == Given(groups, seg[i].group, root, answers)
  }

  /** Every call was of a group with a parser. */
  predicate AllParsers(seg: seq<Event>, groups: seq<Member>) {
    forall i :: 0 <= i < |seg| ==> seg[i].group < |groups| && groups[seg[i].group].argp.parser
  }

  /** The inputs of all groups, once the parsers have been called in seg: the root's from the caller; a child's from
      what the parser of its parent stored for it; without one, the first child has the parent's own and others none. */
  ghost predicate Inherited(seg: seq<Event>, groups: seq<Member>, input: seq<int>, root: int, answers: nat -> Answer) {
    && |input| == |groups|
    && (forall g :: 0 <= g < |groups| ==> Inherits(groups, input, g, root))
    && (forall i :: 0 <= i < |seg| ==> seg[i].group < |groups| && seg[i].input == input[seg[i].group])
    && (forall i, j :: 0 <= i < |seg| && 0 <= j < |seg| && groups[seg[i].group].parent == Just(seg[j].group) ==>
          seg[i].input == answers(j).children(groups[seg[i].group].parentIndex))
  }

  predicate Inherits(groups: seq<Member>, input: seq<int>, g: nat, root: int)
    requires g < |groups| == |input|
  {
    var m := groups[g];
    if m.parent.Nothing? then input[g] == if g == 0 then root else 0
    else
      m.parent.value < |groups| && (!groups[m.parent.value].argp.parser ==>
        input[g] == if m.parentIndex == 0 then input[m.parent.value] else 0)
  }

  lemma FedInherits(seg: seq<Event>, groups: seq<Member>, input: seq<int>, root: int, answers: nat -> Answer)
    requires LinkedFrom(groups, 0) && Fed(seg, groups, root, answers) && |input| == |groups|
    requires AllParsers(seg, groups)
    requires forall k :: 0 <= k < |groups| ==> input[k] == Given(groups, k, root, answers)
    ensures Inherited(seg, groups, input, root, answers)
  {
    forall g | 0 <= g < |groups| ensures Inherits(groups, input, g, root) {
      GivenMeans(groups, g, root, answers);
    }
    forall i, j | 0 <= i < |seg| && 0 <= j < |seg| && groups[seg[i].group].parent == Just(seg[j].group)
      ensures seg[i].input == answers(j).children(groups[seg[i].group].parentIndex)
    {
      GivenMeans(groups, seg[i].group, root, answers);
    }
  }

  lemma GivenMeans(groups: seq<Member>, g: nat, root: int, answers: nat -> Answer)
    requires LinkedFrom(groups, 0) && g < |groups|
    ensures var m, x := groups[g], Given(groups, g, root, answers);
            if m.parent.Nothing? then x == if g == 0 then root else 0
            else
              var p := m.parent.value;
              p < g && x == if groups[p].argp.parser then answers(Parsers(groups, p)).children(m.parentIndex)
                            else if m.parentIndex == 0 then Given(groups, p, root, answers) else 0
  {
    assert Linked(groups, g);
    if groups[g].parent.Just? {
      var p, j := groups[g].parent.value, groups[g].parentIndex;
      assert Given(groups, g, root, answers) == Deposit(groups, p, j, root, answers);
    }
  }

  lemma FedNothing(groups: seq<Member>, root: int, answers: nat -> Answer)
    requires LinkedFrom(groups, 0)
    ensures Fed([], groups, root, answers) && AllParsers([], groups)
  {
  }

  lemma FedPush(seg: seq<Event>, more: Maybe<Event>, n: nat, groups: seq<Member>, root: int, answers: nat -> Answer)
    requires LinkedFrom(groups, 0) && Fed(seg, groups, root, answers) && n < |groups| && |seg| == Parsers(groups, n)
    requires AllParsers(seg, groups)
    requires more.Just? ==>
               more.value.group == n && more.value.input == Given(groups, n, root, answers) && groups[n].argp.parser
    ensures Fed(Grown(seg, more), groups, root, answers)
    ensures AllParsers(Grown(seg, more), groups)
  {
  }

  // ---------------------------------------------------------------- passes over the parsers

  /** One pass with the key, upwards or downwards through the groups. */
  ghost predicate Pass(seg: seq<Event>, up: bool, key: Key) {
    && (forall i :: 0 <= i < |seg| ==> seg[i].key == key)
    && (forall i, j :: 0 <= i < j < |seg| ==> if up then seg[i].group < seg[j].group else seg[i].group > seg[j].group)
  }

  ghost predicate Called(seg: seq<Event>, g: nat) {
    exists i :: 0 <= i < |seg| && seg[i].group == g
  }

  /** A group has a parser and, if only the idle ones count, has handled no argument. */
  ghost predicate Due(groups: seq<Member>, idle: bool, handled: seq<nat>, g: nat)
    requires |handled| == |groups| && g < |groups|
  {
    groups[g].argp.parser && (idle ==> handled[g] == 0)
  }

  ghost predicate Complete(seg: seq<Event>, groups: seq<Member>, idle: bool, handled: seq<nat>)
    requires |handled| == |groups|
  {
    forall g :: 0 <= g < |groups| && Due(groups, idle, handled, g) ==> Called(seg, g)
  }

  /** Only groups that have handled no argument were called. */
  ghost predicate Idle(seg: seq<Event>, handled: seq<nat>) {
    forall i :: 0 <= i < |seg| ==> seg[i].group < |handled| && handled[seg[i].group] == 0
  }

  /** No call but perhaps the last ended in an error that stops the pass. */
  ghost predicate Stopped(seg: seq<Event>, err0: int, err: int) {
    && (forall i :: 0 <= i < |seg| - 1 ==> !Real(seg[i].err))
    && (Real(err0) ==> seg == [] && err == err0)
    && (Real(err) && !Real(err0) ==> seg != [])
    && (seg != [] && (Real(err) || Real(seg[|seg| - 1].err)) ==> seg[|seg| - 1].err == err)
  }

  /** Every call was answered without an error that stops a pass. */
  ghost predicate Quiet(seg: seq<Event>) {
    forall i :: 0 <= i < |seg| ==> !Real(seg[i].err)
  }

  /** The error after calls that the first such error ended: 0, or that error, which the last call returned. */
  ghost predicate Verdict(seg: seq<Event>, err: int) {
    if Quiet(seg) then err == 0
    else Quiet(seg[..|seg| - 1]) && err == seg[|seg| - 1].err
  }

  /** Where the calls leave `next`. */
  function NextAfter(seg: seq<Event>, next: int): int {
    if seg == [] then next else seg[|seg| - 1].next
  }

  lemma StoppedMeans(seg: seq<Event>, err0: int, err: int)
    requires Stopped(seg, err0, err) && !Real(err0)
    ensures Real(err) <==> !Quiet(seg)
    ensures Verdict(seg, if Real(err) then err else 0)
  {
    if seg != [] && !Quiet(seg) {
      assert Real(seg[|seg| - 1].err);
    }
  }

  lemma QuietNothing()
    ensures Quiet([]) && Verdict([], 0)
  {
  }

  lemma StoppedTwice(a: seq<Event>, b: seq<Event>, err1: int, err: int)
    requires Stopped(a, 0, err1) && Stopped(b, err1, err)
    ensures Verdict(a + b, if err == EBADKEY then 0 else err) && (Quiet(a + b) <==> Quiet(a) && Quiet(b))
    ensures (Real(err1) ==> err == err1) && (Quiet(a + b) <==> err == 0 || err == EBADKEY)
  {
    StoppedMeans(a, 0, err1);
    if !Real(err1) {
      StoppedMeans(b, err1, err);
    }
    VerdictJoin(a, b, if err == EBADKEY then 0 else err);
  }

  /** Two passes, the second left out if the first was stopped. */
  lemma VerdictJoin(a: seq<Event>, b: seq<Event>, err: int)
    requires if Quiet(a) then Verdict(b, err) else b == [] && Verdict(a, err)
    ensures Verdict(a + b, err) && (Quiet(a + b) <==> Quiet(a) && Quiet(b))
  {
    var c := a + b;
    assert forall i :: 0 <= i < |a| ==> c[i] == a[i];
    assert forall i :: 0 <= i < |b| ==> c[|a| + i] == b[i];
    if Quiet(a) && !Quiet(b) {
      assert c[..|c| - 1] == a + b[..|b| - 1];
    } else if !Quiet(a) {
      assert c == a;
    }
  }

  /** The n-th group of a pass; its own inverse. */
  function Turn(up: bool, len: nat, n: int): int {
    if up then n else len - 1 - n
  }

  /** The first n steps of a pass that met no reason to stop. */
  ghost predicate Swept(seg: seq<Event>, n: nat, up: bool, key: Key, idle: bool, groups: seq<Member>, handled: seq<nat>)
    requires |handled| == |groups|
  {
    && (forall i :: 0 <= i < |seg| ==> seg[i].key == key)
    && (idle ==> Idle(seg, handled))
    && (forall i :: 0 <= i < |seg| ==> Turn(up, |groups|, seg[i].group) < n)
    && (forall i, j :: 0 <= i < j < |seg| ==> Turn(up, |groups|, seg[i].group) < Turn(up, |groups|, seg[j].group))
    && (forall g :: 0 <= g < |groups| && Turn(up, |groups|, g) < n && Due(groups, idle, handled, g) ==> Called(seg, g))
  }

  lemma CompleteAnyway(seg: seq<Event>, groups: seq<Member>, handled: seq<nat>, handled': seq<nat>)
    requires |handled| == |handled'| == |groups| && Complete(seg, groups, false, handled)
    ensures Complete(seg, groups, false, handled')
  {
    assert forall g :: 0 <= g < |groups| ==> (Due(groups, false, handled', g) <==> Due(groups, false, handled, g));
  }

  lemma CalledPush(seg: seq<Event>, e: Event, g: nat)
    requires Called(seg, g) || e.group == g
    ensures Called(seg + [e], g)
  {
    if e.group == g {
      assert (seg + [e])[|seg|].group == g;
    } else {
      var i :| 0 <= i < |seg| && seg[i].group == g;
      assert (seg + [e])[i].group == g;
    }
  }

  lemma SweptPush(seg: seq<Event>, n: nat, up: bool, key: Key, idle: bool, groups: seq<Member>, handled: seq<nat>,
                  e: Event)
    requires |handled| == |groups| && n < |groups| && Swept(seg, n, up, key, idle, groups, handled)
    requires e.group == Turn(up, |groups|, n) && e.key == key && (idle ==> handled[e.group] == 0)
    ensures Swept(seg + [e], n + 1, up, key, idle, groups, handled)
  {
    forall g | 0 <= g < |groups| && Turn(up, |groups|, g) < n + 1 && Due(groups, idle, handled, g)
      ensures Called(seg + [e], g)
    {
      CalledPush(seg, e, g);
    }
  }

  ghost predicate Hooks(log: Log, hook: seq<int>) {
    forall g :: 0 <= g < |hook| ==> hook[g] == LastHook(log, g)
  }

  /** The counters are the arguments handled, but for the last `extra` of group h. */
  ghost predicate Tally(log: Log, handled: seq<nat>, argc: int, h: nat, extra: nat) {
    forall g :: 0 <= g < |handled| ==> Consumed(log, g, argc) == handled[g] + if g == h then extra else 0
  }

  lemma SweptDone(seg: seq<Event>, n: nat, up: bool, key: Key, idle: bool, groups: seq<Member>, handled: seq<nat>)
    requires |handled| == |groups| && Swept(seg, n, up, key, idle, groups, handled)
    ensures Pass(seg, up, key) && (n == |groups| ==> Complete(seg, groups, idle, handled))
    ensures idle ==> Idle(seg, handled)
  {
  }

  lemma SweptSkip(seg: seq<Event>, n: nat, up: bool, key: Key, idle: bool, groups: seq<Member>, handled: seq<nat>)
    requires |handled| == |groups| && n < |groups| && Swept(seg, n, up, key, idle, groups, handled)
    requires !Due(groups, idle, handled, Turn(up, |groups|, n))
    ensures Swept(seg, n + 1, up, key, idle, groups, handled)
  {
  }

  lemma StoppedStep(seg: seq<Event>, more: Maybe<Event>, err0: int, err: int, err': int)
    requires Stopped(seg, err0, err) && !Real(err)
    requires if more.Just? then more.value.err == err' else err' == err || err' == EBADKEY
    ensures Stopped(Grown(seg, more), err0, err')
  {
  }

  function Grown(seg: seq<Event>, more: Maybe<Event>): seq<Event> {
    if more.Just? then seg + [more.value] else seg
  }

  // ---------------------------------------------------------------- offering an argument

  /** An argument is offered to one parser after the other, first alone and then with all that follow it, until one does
      not refuse. */
  ghost predicate Offers(seg: seq<Event>, start: int) {
    && (forall i :: 0 <= i < |seg| ==> seg[i].start == start && seg[i].key == (if i % 2 == 0 then Arg else Args))
    && (forall i :: 0 < i < |seg| ==>
          if i % 2 == 1 then seg[i - 1].group == seg[i].group else seg[i - 1].group < seg[i].group)
    && (forall i :: 0 <= i < |seg| - 1 ==> seg[i].err == EBADKEY)
  }

  /** The first n parsers have all refused it twice. */
  ghost predicate Refused(seg: seq<Event>, start: int, n: nat, groups: seq<Member>) {
    && Offers(seg, start) && |seg| % 2 == 0
    && (seg != [] ==> seg[|seg| - 1].err == EBADKEY && seg[|seg| - 1].group < n)
    && (forall g :: 0 <= g < n && g < |groups| && groups[g].argp.parser ==> Called(seg, g))
  }

  lemma RefusedSkip(seg: seq<Event>, start: int, n: nat, groups: seq<Member>)
    requires Refused(seg, start, n, groups) && n < |groups| && !groups[n].argp.parser
    ensures Refused(seg, start, n + 1, groups)
  {
  }

  lemma OffersFirst(seg: seq<Event>, start: int, n: nat, groups: seq<Member>, e: Event)
    requires Refused(seg, start, n, groups) && e.group == n && e.key == Arg && e.start == start
    ensures Offers(seg + [e], start)
  {
  }

  lemma OffersSecond(seg: seq<Event>, start: int, n: nat, groups: seq<Member>, e: Event, d: Event)
    requires Refused(seg, start, n, groups) && e.group == n && e.key == Arg && e.start == start && e.err == EBADKEY
    requires d.group == n && d.key == Args && d.start == start
    ensures Offers(seg + [e, d], start)
    ensures d.err == EBADKEY ==> Refused(seg + [e, d], start, n + 1, groups)
  {
    hide Called;
    OffersFirst(seg, start, n, groups, e);
    var both := seg + [e];
    assert seg + [e, d] == both + [d];
    assert Offers(both + [d], start);
    forall g | 0 <= g < n + 1 && g < |groups| && groups[g].argp.parser ensures Called(both + [d], g) {
      CalledPush(seg, e, g);
      CalledPush(both, d, g);
    }
  }

  // ---------------------------------------------------------------- a whole run

  /** What parser_parse_next does between two calls of it is up to the arguments and the parsers: it may have set `next`
      and args_only, and has found an option of a group, one of no group, or an operand. */
  datatype What = Option(group: nat, code: int) | Unknown | Operand
  datatype Move = Move(next: int, argsOnly: bool, what: What)

  /** The calls that one call of parser_parse_next makes, the error it returns, and where it leaves `next`: an operand
      is offered, and the parser of an option's group, if it has one, is called for it. */
  ghost predicate Handles(part: seq<Event>, move: Move, groups: seq<Member>, argc: int, err: int, next: int) {
    && (match move.what
        case Operand =>
          && Offers(part, move.next)
          && (if err == EBADKEY then Refused(part, move.next, |groups|, groups)
              else part != [] && part[|part| - 1].err == err)
        case Unknown => part == [] && err == EBADKEY
        case Option(g, code) =>
          if g < |groups| && groups[g].argp.parser then
            |part| == 1 && part[0].group == g && part[0].key == Switch(code) && part[0].err == err
          else
            part == [] && err == EBADKEY)
    && next == if err == 0 && part != [] && part[|part| - 1].key == Args then argc else NextAfter(part, move.next)
  }

  /** What the loop of __argp_parse does for the first so many moves: the calls of each, in order, none but the last in
      error. */
  ghost predicate Loops(seg: seq<Event>, n: nat, moves: seq<Move>, groups: seq<Member>, argc: int, first: int,
                        err: int, next: int)
    decreases n, 1
  {
    n <= |moves| &&
    if n == 0 then seg == [] && err == 0 && next == first
    else exists k: nat, was: int :: LoopsLast(seg, k, was, n, moves, groups, argc, first, err, next)
  }

  ghost predicate LoopsLast(seg: seq<Event>, k: nat, was: int, n: nat, moves: seq<Move>, groups: seq<Member>, argc: int,
                            first: int, err: int, next: int)
    requires 0 < n <= |moves|
    decreases n, 0
  {
    && k <= |seg| && Loops(seg[..k], n - 1, moves, groups, argc, first, 0, was)
    && Handles(seg[k..], moves[n - 1], groups, argc, err, next)
  }

  lemma LoopsOn(seg: seq<Event>, part: seq<Event>, n: nat, moves: seq<Move>, groups: seq<Member>, argc: int, first: int,
                was: int, err: int, next: int)
    requires Loops(seg, n, moves, groups, argc, first, 0, was) && n < |moves|
    requires Handles(part, moves[n], groups, argc, err, next)
    ensures Loops(seg + part, n + 1, moves, groups, argc, first, err, next)
  {
    var c, k := seg + part, |seg|;
    assert c[..k] == seg && c[k..] == part;
    assert LoopsLast(c, k, was, n + 1, moves, groups, argc, first, err, next);
  }

  lemma LoopsNot(moves: seq<Move>, groups: seq<Member>, argc: int, first: int)
    ensures Loops([], 0, moves, groups, argc, first, 0, first)
  {
  }

  predicate Midway(seg: seq<Event>) {
    forall i :: 0 <= i < |seg| ==> seg[i].key == Arg || seg[i].key == Args || seg[i].key.Switch?
  }

  /** The calls of a run, stage by stage; allDone says that all arguments were consumed, good that the parsers were told
      of success. */
  datatype Stages = Stages(inits: seq<Event>, middle: seq<Event>, noArgs: seq<Event>, ends: seq<Event>,
                           outcome: seq<Event>, finis: seq<Event>, allDone: bool, good: bool)
  {
    /** The loop ended with this error, `arg_ebadkey` and `next`; the caller has not asked for the end index, or has. */
    ghost predicate Begun(loop: int, argEbadkey: bool) { loop == 0 || (loop == EBADKEY && argEbadkey) }
    /** All arguments were parsed, or those that are left are returned. */
    ghost predicate Enough(loop: int, argEbadkey: bool, next: int, argc: int, wanted: bool) {
      Begun(loop, argEbadkey) && (next == argc || wanted)
    }
    /** What parser_finalize returns. */
    ghost predicate Returns(loop: int, argEbadkey: bool, next: int, argc: int, wanted: bool, err: int) {
      && (allDone <==> Begun(loop, argEbadkey) && next == argc)
      && (good <==> Enough(loop, argEbadkey, next, argc, wanted) && Quiet(noArgs) && Quiet(ends))
      && (if !Begun(loop, argEbadkey) then err == if loop == EBADKEY then EINVAL else loop
          else if !Enough(loop, argEbadkey, next, argc, wanted) then err == EINVAL
          else if !good then Verdict(noArgs + ends, err)
          else Verdict(outcome, err))
    }
    /** The end index it stores. */
    ghost predicate Stores(loop: int, argEbadkey: bool, next: int, wanted: bool, ended: Maybe<int>) {
      ended == if wanted && Begun(loop, argEbadkey) then Just(NextAfter(noArgs + ends, next)) else Nothing
    }

    function Tail(): seq<Event> { noArgs + (ends + (outcome + finis)) }
    function All(): seq<Event> { inits + (middle + Tail()) }
  }

  ghost predicate Finished(r: Stages, groups: seq<Member>, handled: seq<nat>)
    requires |handled| == |groups|
  {
    && Pass(r.noArgs, true, NoArgs) && Idle(r.noArgs, handled)
    && Pass(r.ends, false, End)
    && (!r.allDone ==> r.noArgs == [] && r.ends == [])
    && (r.allDone && r.good ==> Complete(r.noArgs, groups, true, handled) && Complete(r.ends, groups, false, handled))
    && (if r.good then Pass(r.outcome, false, Success)
        else Pass(r.outcome, true, Error) && Complete(r.outcome, groups, false, handled))
    && Pass(r.finis, false, Fini) && Complete(r.finis, groups, false, handled)
  }

  ghost predicate Protocol(r: Stages, groups: seq<Member>, handled: seq<nat>)
    requires |handled| == |groups|
  {
    && Pass(r.inits, true, Init) && Complete(r.inits, groups, false, handled)
    && Midway(r.middle)
    && Finished(r, groups, handled)
  }

  /** parser_finalize returns 0 exactly if all went well. */
  lemma ReturnsZero(r: Stages, loop: int, argEbadkey: bool, next: int, argc: int, wanted: bool, err: int)
    requires r.Returns(loop, argEbadkey, next, argc, wanted, err) && loop != 0
    ensures err == 0 <==>
            r.Enough(loop, argEbadkey, next, argc, wanted) && Quiet(r.noArgs) && Quiet(r.ends) && Quiet(r.outcome)
  {
    var c := r.noArgs + r.ends;
    assert forall i :: 0 <= i < |r.noArgs| ==> c[i] == r.noArgs[i];
    assert forall i :: 0 <= i < |r.ends| ==> c[|r.noArgs| + i] == r.ends[i];
  }

  class Session {
    const groups: seq<Member>
    const total: nat
    const argc: int
    const answers: nat -> Answer
    /** Per group: input, hook and args_processed. */
    var input: seq<int>
    var hook: seq<int>
    var handled: seq<nat>
    /** The child inputs of all groups. */
    var vector: seq<int>
    var next: int
    var argsOnly: bool
    var calls: nat
    ghost var log: Log

    /** Everything but the account of the arguments handled. */
    ghost predicate Settled()
      reads this
    {
      && WellFormed(groups, total)
      && |input| == |hook| == |handled| == |groups| && |vector| == total
      && calls == Length(log)
      && Coherent(log, groups, argc)
      && Hooks(log, hook)
    }

    ghost predicate Valid()
      reads this
    {
      Settled() && Tally(log, handled, argc, 0, 0)
    }

    constructor (groups: seq<Member>, total: nat, argc: int, answers: nat -> Answer)
      requires WellFormed(groups, total)
      ensures Valid() && log == Start && next == 0
      ensures this.groups == groups && this.total == total && this.argc == argc && this.answers == answers
      ensures forall i :: 0 <= i < total ==> vector[i] == 0
      ensures forall g :: 0 <= g < |groups| ==> input[g] == 0
    {
      this.groups, this.total, this.argc, this.answers := groups, total, argc, answers;
      input, hook := seq(|groups|, i => 0), seq(|groups|, i => 0);
      handled, vector := seq(|groups|, i => 0), seq(total, i => 0);
      next, argsOnly, calls, log := 0, false, 0, Start;
    }

    /** What a call of group g with the key adds to the log. */
    ghost function Next(g: nat, key: Key, start: int): Event
      reads this
      requires g < |input| && g < |hook| && g < |handled|
    {
      var a := answers(calls);
      Event(g, key, start, handled[g], input[g], hook[g], a.hook, a.next, a.err)
    }

    /** group_parse for a group that has a parser. */
    method Call(g: nat, key: Key, ghost start: int) returns (err: int)
      requires Valid() && g < |groups| && groups[g].argp.parser
      modifies this`hook, this`vector, this`next, this`calls, this`log
      ensures log == After(old(log), old(Next(g, key, start)))
      ensures next == old(answers(calls)).next && err == old(answers(calls)).err
      ensures Settled() && Tally(log, handled, argc, g, Gain(log.last, argc))
      ensures Between(groups[g], 0, total) && vector == Stored(old(vector), groups[g], old(answers(calls)).children)
    {
      var a := answers(calls);
      ghost var e := Next(g, key, start);
      assert Between(groups[g], 0, total);
      hook := hook[g := a.hook];
      vector := Stored(vector, groups[g], a.children);
      next := a.next;
      calls := calls + 1;
      log := After(log, e);
      err := a.err;
    }

    /** group_parse. */
    method Deliver(g: nat, key: Key, ghost start: int) returns (err: int)
      requires Valid() && g < |groups|
      modifies this`hook, this`vector, this`next, this`calls, this`log
      ensures Settled()
      ensures !groups[g].argp.parser ==> err == EBADKEY && unchanged(this) && Valid()
      ensures groups[g].argp.parser ==> log == After(old(log), old(Next(g, key, start)))
      ensures groups[g].argp.parser ==> next == old(answers(calls)).next && err == old(answers(calls)).err
      ensures groups[g].argp.parser ==> Tally(log, handled, argc, g, Gain(log.last, argc))
      ensures groups[g].argp.parser ==>
              Between(groups[g], 0, total)
              && vector == Stored(old(vector), groups[g], old(answers(calls)).children)
    {
      if groups[g].argp.parser {
        err := Call(g, key, start);
      } else {
        err := EBADKEY;
      }
    }

    /** group_parse with a key that is not about arguments. */
    method Visit(g: nat, key: Key) returns (err: int)
      requires Valid() && g < |groups| && key != Arg && key != Args
      modifies this`hook, this`vector, this`next, this`calls, this`log
      ensures Valid()
      ensures !groups[g].argp.parser ==> err == EBADKEY && unchanged(this)
      ensures groups[g].argp.parser ==> log == After(old(log), old(Next(g, key, next)))
      ensures groups[g].argp.parser ==> log.last.err == err && log.last.next == next
    {
      err := Deliver(g, key, next);
    }

    /** The loops of parser_finalize, forwards or backwards, stopped by an error or heedless of it, over all groups or
        over the idle ones. */
    method Sweep(up: bool, key: Key, heed: bool, idle: bool, err0: int)
      returns (err: int, ghost seg: seq<Event>, n: nat)
      requires Valid() && key != Arg && key != Args
      modifies this`hook, this`vector, this`next, this`calls, this`log
      ensures Valid() && Extends(old(log), seg, log)
      ensures Swept(seg, n, up, key, idle, groups, handled) && (!heed || !Real(err) ==> n == |groups|)
      ensures if heed then Stopped(seg, err0, err) else err == err0
      ensures next == NextAfter(seg, old(next))
    {
      hide Swept, Extends, Stopped;
      err, seg, n := err0, [], 0;
      SweepStart(log, up, key, idle, err0, groups, handled);
      while n < |groups| && (!heed || !Real(err))
        invariant Valid() && Extends(old(log), seg, log) && n <= |groups|
        invariant Swept(seg, n, up, key, idle, groups, handled)
        invariant if heed then Stopped(seg, err0, err) else err == err0
        invariant next == NextAfter(seg, old(next))
      {
        ghost var before := log;
        var r, more := Take(n, up, key, idle, err, seg);
        ExtendsPush(old(log), seg, before, more);
        if heed {
          StoppedStep(seg, more, err0, err, r);
          err := r;
        }
        seg, n := Grown(seg, more), n + 1;
      }
    }

    /** One turn of such a loop. */
    method Take(n: nat, up: bool, key: Key, idle: bool, err0: int, ghost seg: seq<Event>)
      returns (err: int, ghost more: Maybe<Event>)
      requires Valid() && n < |groups| && key != Arg && key != Args
      requires Swept(seg, n, up, key, idle, groups, handled)
      modifies this`hook, this`vector, this`next, this`calls, this`log
      ensures Valid()
      ensures Swept(Grown(seg, more), n + 1, up, key, idle, groups, handled)
      ensures log == if more.Just? then After(old(log), more.value) else old(log)
      ensures if more.Just? then more.value.err == err else err == err0 || err == EBADKEY
      ensures next == if more.Just? then more.value.next else old(next)
    {
      var g := Turn(up, |groups|, n);
      if idle && handled[g] != 0 {
        SweptSkip(seg, n, up, key, idle, groups, handled);
        return err0, Nothing;
      }
      ghost var e := Next(g, key, next);
      if groups[g].argp.parser {
        SweptPush(seg, n, up, key, idle, groups, handled, e);
        more := Just(e);
      } else {
        SweptSkip(seg, n, up, key, idle, groups, handled);
        more := Nothing;
      }
      err := Visit(g, key);
    }

    ghost predicate Primed(n: nat, root: int)
      reads this
      requires Valid() && n <= |groups|
    {
      && Deposited(groups, n, vector, root, answers)
      && calls == Parsers(groups, n)
      && forall k :: 0 <= k < |groups| ==>
           input[k] == if k < n then Given(groups, k, root, answers) else if k == 0 then root else 0
    }

    /** One turn of the loop of parser_init that introduces the parsers. */
    method Introduce(n: nat, ghost root: int, ghost seg: seq<Event>) returns (err: int, ghost more: Maybe<Event>)
      requires Valid() && n < |groups| && Primed(n, root)
      requires Swept(seg, n, true, Init, false, groups, handled)
      modifies this`input, this`hook, this`vector, this`next, this`calls, this`log
      ensures Valid() && Primed(n + 1, root)
      ensures Swept(Grown(seg, more), n + 1, true, Init, false, groups, handled)
      ensures log == if more.Just? then After(old(log), more.value) else old(log)
      ensures err == if more.Just? then more.value.err else EBADKEY
      ensures more.Just? ==> more.value.group == n && more.value.input == Given(groups, n, root, answers)
      ensures more.Just? <==> groups[n].argp.parser
      ensures calls == old(calls) + if more.Just? then 1 else 0
    {
      Fetch(n, root);
      if groups[n].argp.parser {
        StoredDeposits(groups, n, vector, root, answers);
      } else {
        PassedOnDeposits(groups, n, vector, root, answers);
        vector := PassedOn(vector, groups[n], input[n]);
      }
      err, more := Greet(n, seg);
    }

    /** A child's input is what its parent has for it. */
    method Fetch(n: nat, ghost root: int)
      requires Valid() && n < |groups| && Primed(n, root)
      modifies this`input
      ensures Valid() && input == old(input)[n := Given(groups, n, root, answers)]
    {
      assert Linked(groups, n);
      if groups[n].parent.Just? {
        var p, j := groups[n].parent.value, groups[n].parentIndex;
        assert Between(groups[p], 0, total) && Window(vector, groups[p])[j] == Row(groups, n, p, root, answers)[j];
        input := input[n := vector[groups[p].slots + j]];
      }
    }

    /** The call itself. */
    method Greet(n: nat, ghost seg: seq<Event>) returns (err: int, ghost more: Maybe<Event>)
      requires Valid() && n < |groups|
      requires Swept(seg, n, true, Init, false, groups, handled)
      modifies this`hook, this`vector, this`next, this`calls, this`log
      ensures Valid()
      ensures Swept(Grown(seg, more), n + 1, true, Init, false, groups, handled)
      ensures more == if groups[n].argp.parser then Just(old(Next(n, Init, next))) else Nothing
      ensures log == if more.Just? then After(old(log), more.value) else old(log)
      ensures err == if more.Just? then more.value.err else EBADKEY
      ensures calls == old(calls) + if more.Just? then 1 else 0
      ensures Between(groups[n], 0, total)
      ensures vector == if more.Just? then Stored(old(vector), groups[n], answers(old(calls)).children) else old(vector)
    {
      if groups[n].argp.parser {
        SweptPush(seg, n, true, Init, false, groups, handled, Next(n, Init, next));
        more := Just(Next(n, Init, next));
      } else {
        SweptSkip(seg, n, true, Init, false, groups, handled);
        more := Nothing;
      }
      err := Deliver(n, Init, next);
    }

    /** The end of parser_init: every parser is called once; the error is 0 when none objects. */
    method Initialize(root: int) returns (err: int, ghost seg: seq<Event>)
      requires Valid() && log == Start
      requires forall i :: 0 <= i < total ==> vector[i] == 0
      requires forall g :: 0 <= g < |groups| ==> input[g] == 0
      modifies this`input, this`hook, this`vector, this`next, this`calls, this`log
      ensures Valid() && Events(log) == seg && err != EBADKEY
      ensures Pass(seg, true, Init) && Stopped(seg, 0, err)
      ensures err == 0 ==> Complete(seg, groups, false, handled) && Inherited(seg, groups, input, root, answers)
      ensures Fed(seg, groups, root, answers)
    {
      if groups != [] {
        input := input[0 := root];
      }
      forall k | 0 <= k < |groups| ensures Window(vector, groups[k]) == Row(groups, 0, k, root, answers) {
        assert Between(groups[k], 0, total);
      }
      err, seg := IntroduceAll(root);
      if !Real(err) {
        FedInherits(seg, groups, input, root, answers);
      }
      if err == EBADKEY {
        err := 0;
      }
    }

    lemma PrimedCalls(n: nat, root: int)
      requires Valid() && n <= |groups| && Primed(n, root)
      ensures |Events(log)| == Parsers(groups, n)
    {
      LengthOfLog(log);
    }

    /** The loop of parser_init. */
    method IntroduceAll(root: int) returns (err: int, ghost seg: seq<Event>)
      requires Valid() && log == Start && Primed(0, root)
      modifies this`input, this`hook, this`vector, this`next, this`calls, this`log
      ensures Valid() && Events(log) == seg && Pass(seg, true, Init) && Stopped(seg, 0, err)
      ensures !Real(err) ==> Complete(seg, groups, false, handled) && Primed(|groups|, root)
      ensures Fed(seg, groups, root, answers) && AllParsers(seg, groups)
    {
      hide Swept, Stopped, Given, Parsers, Primed, Fed, AllParsers, Coherent, Tally, Hooks, LinkedFrom, Windows, Pass,
           Complete, NeedsGroup;
      err, seg := 0, [];
      FedNothing(groups, root, answers);
      PrimedCalls(0, root);
      SweepStart(log, true, Init, false, 0, groups, handled);
      var n := 0;
      while n < |groups| && !Real(err)
        invariant Valid() && Events(log) == seg && n <= |groups| && Primed(n, root) && |seg| == Parsers(groups, n)
        invariant Swept(seg, n, true, Init, false, groups, handled) && Stopped(seg, 0, err)
        invariant Fed(seg, groups, root, answers)
        invariant AllParsers(seg, groups)
      {
        var r, more := Introduce(n, root, seg);
        StoppedStep(seg, more, 0, err, r);
        FedPush(seg, more, n, groups, root, answers);
        PrimedCalls(n + 1, root);
        err, seg, n := r, Grown(seg, more), n + 1;
      }
      SweptDone(seg, n, true, Init, false, groups, handled);
    }

    /** Group g is offered the argument at start; key says how it was last called. */
    method Offer(g: nat, start: int, ghost seg: seq<Event>) returns (err: int, key: Key, ghost more: seq<Event>)
      requires Valid() && g < |groups| && Refused(seg, start, g, groups) && next == NextAfter(seg, start)
      modifies this`hook, this`vector, this`next, this`calls, this`log
      ensures Extends(old(log), more, log) && Offering(g + 1, start, key, err, seg + more)
    {
      more := [];
      next := next + 1;
      key := Arg;
      err := Deliver(g, key, start);
      if !groups[g].argp.parser {
        RefusedSkip(seg, start, g, groups);
        assert seg + more == seg && Events(log) + more == Events(log);
        next := next - 1;
        key := Args;
        err := Deliver(g, key, start);
        return;
      }
      ghost var e := log.last;
      more := [e];
      OffersFirst(seg, start, g, groups, e);
      if err == EBADKEY {
        next := next - 1;
        key := Args;
        ghost var before := log;
        err := Deliver(g, key, start);
        OffersSecond(seg, start, g, groups, e, log.last);
        assert Events(old(log)) + [e, log.last] == (Events(old(log)) + [e]) + [log.last];
        more := [e, log.last];
      }
    }

    /** The last call was of group g, about the argument at start, and is not yet on its account. */
    ghost predicate Answered(g: nat, start: int, key: Key, err: int)
      reads this
    {
      && log.After? && log.last.group == g < |groups| && log.last.key == key && log.last.start == start
      && log.last.err == err && next == log.last.next && (key == Arg || key == Args)
      && |handled| == |groups| && Tally(log, handled, argc, g, Gain(log.last, argc))
    }

    /** parser_parse_arg. */
    method ParseArg() returns (err: int, ghost seg: seq<Event>)
      requires Valid()
      modifies this
      ensures Valid() && Extends(old(log), seg, log) && Offers(seg, old(next)) && input == old(input)
      ensures err == EBADKEY ==> Refused(seg, old(next), |groups|, groups)
      ensures err != 0 ==> handled == old(handled)
      ensures err != EBADKEY ==> seg != [] && seg[|seg| - 1].err == err
      ensures next == if err == 0 && seg[|seg| - 1].key == Args then argc else NextAfter(seg, old(next))
      ensures err == 0 && next <= old(next) ==> !argsOnly
      ensures err == 0 && next > old(next) ==> argsOnly == old(argsOnly)
    {
      var start := next;
      var g, key;
      err, key, g, seg := OfferAll(start);
      if err == 0 {
        Account(g - 1, start, key);
      }
    }

    /** The argument at start has been offered to the first g parsers. */
    ghost predicate Offering(g: nat, start: int, key: Key, err: int, seg: seq<Event>)
      reads this
    {
      if err == EBADKEY then
        g <= |groups| && Valid() && Refused(seg, start, g, groups) && next == NextAfter(seg, start)
      else
        0 < g <= |groups| && Settled() && Answered(g - 1, start, key, err) && Offers(seg, start) && seg != []
        && seg[|seg| - 1] == log.last
    }

    /** The loop of parser_parse_arg. */
    method OfferAll(start: int) returns (err: int, key: Key, g: nat, ghost seg: seq<Event>)
      requires Valid() && next == start
      modifies this`hook, this`vector, this`next, this`calls, this`log
      ensures Extends(old(log), seg, log) && Offering(g, start, key, err, seg) && (err == EBADKEY ==> g == |groups|)
    {
      g, key := 0, Arg;
      err, seg := EBADKEY, [];
      while g < |groups| && err == EBADKEY
        invariant Extends(old(log), seg, log) && Offering(g, start, key, err, seg)
      {
        ghost var before, more := log, [];
        err, key, more := Offer(g, start, seg);
        ExtendsOn(old(log), seg, before, more, log);
        seg, g := seg + more, g + 1;
      }
    }

    /** The end of parser_parse_arg: what group g has handled goes on its account. */
    method Account(g: nat, start: int, key: Key)
      requires g < |groups| && Settled() && Answered(g, start, key, 0)
      modifies this`next, this`handled, this`argsOnly
      ensures Valid()
      ensures next == if key == Args then argc else old(next)
      ensures next <= start ==> !argsOnly && handled == old(handled)
      ensures next > start ==>
              argsOnly == old(argsOnly)
              && handled == old(handled)[g := old(handled)[g] + (next - start)]
    {
      if key == Args {
        next := argc;
      }
      if next > start {
        handled := handled[g := handled[g] + (next - start)];
      } else {
        argsOnly := false;
      }
    }

    /** One call of parser_parse_next. */
    method Step(move: Move) returns (err: int, ghost seg: seq<Event>)
      requires Valid()
      modifies this
      ensures Valid() && Extends(old(log), seg, log) && Midway(seg) && input == old(input)
      ensures Handles(seg, move, groups, argc, err, next)
    {
      next, argsOnly, seg := move.next, move.argsOnly, [];
      match move.what
      case Operand =>
        err, seg := ParseArg();
      case Unknown =>
        err := EBADKEY;
      case Option(g, code) =>
        err := EBADKEY;
        if g < |groups| {
          err := Visit(g, Switch(code));
          seg := if groups[g].argp.parser then [log.last] else [];
        }
    }

    /** The loop of __argp_parse: until an error, or the end of the arguments. */
    method Parse(moves: seq<Move>) returns (err: int, ghost seg: seq<Event>, ghost n: nat)
      requires Valid()
      modifies this
      ensures Valid() && Extends(old(log), seg, log) && Midway(seg) && input == old(input)
      ensures Loops(seg, n, moves, groups, argc, old(next), err, next) && (err == 0 ==> n == |moves|)
    {
      hide Handles, Loops;
      LoopsNot(moves, groups, argc, next);
      err, seg, n := 0, [], 0;
      var i := 0;
      while i < |moves| && err == 0
        invariant Valid() && Extends(old(log), seg, log) && Midway(seg) && input == old(input)
        invariant n == i <= |moves| && Loops(seg, n, moves, groups, argc, old(next), err, next)
      {
        ghost var before, more, was := log, [], next;
        err, more := Step(moves[i]);
        ExtendsOn(old(log), seg, before, more, log);
        LoopsOn(seg, more, i, moves, groups, argc, old(next), was, err, next);
        seg, i, n := seg + more, i + 1, n + 1;
      }
    }

    /** The first half of parser_finalize: the calls for a run without an error. */
    method Conclude(err0: int, wanted: bool)
      returns (err: int, ended: Maybe<int>, ghost noArgs: seq<Event>, ghost ends: seq<Event>)
      requires Valid()
      modifies this`hook, this`vector, this`next, this`calls, this`log
      ensures Valid() && Extends(old(log), noArgs + ends, log)
      ensures Pass(noArgs, true, NoArgs) && Idle(noArgs, handled) && Pass(ends, false, End)
      ensures !(err0 == 0 && old(next) == argc) ==> noArgs == [] && ends == []
      ensures err == 0 && old(next) == argc ==>
                Complete(noArgs, groups, true, handled) && Complete(ends, groups, false, handled)
      ensures err0 != 0 ==> err == err0
      ensures err0 == 0 && old(next) != argc ==> err == if wanted then 0 else EBADKEY
      ensures err0 == 0 && old(next) == argc ==>
                Verdict(noArgs + ends, err) && err != EBADKEY && (err == 0 <==> Quiet(noArgs + ends))
      ensures Quiet(noArgs + ends) <==> Quiet(noArgs) && Quiet(ends)
      ensures ended == if err0 == 0 && wanted then Just(NextAfter(noArgs + ends, old(next))) else Nothing
    {
      err, ended, noArgs, ends := err0, Nothing, [], [];
      if err == 0 {
        if next == argc {
          err, noArgs, ends := LastCalls();
          if wanted {
            ended := Just(next);
          }
        } else if wanted {
          ended := Just(next);
        } else {
          err := EBADKEY;
        }
      }
    }

    method LastCalls() returns (err: int, ghost noArgs: seq<Event>, ghost ends: seq<Event>)
      requires Valid()
      modifies this`hook, this`vector, this`next, this`calls, this`log
      ensures Valid() && Extends(old(log), noArgs + ends, log) && err != EBADKEY
      ensures Pass(noArgs, true, NoArgs) && Idle(noArgs, handled) && Pass(ends, false, End)
      ensures err == 0 ==> Complete(noArgs, groups, true, handled) && Complete(ends, groups, false, handled)
      ensures Verdict(noArgs + ends, err) && (Quiet(noArgs + ends) <==> Quiet(noArgs) && Quiet(ends))
      ensures err == 0 <==> Quiet(noArgs + ends)
      ensures next == NextAfter(noArgs + ends, old(next))
    {
      hide Swept, Stopped, Extends, Quiet, Verdict;
      ghost var n;
      err, noArgs, n := Sweep(true, NoArgs, true, true, 0);
      SweptDone(noArgs, n, true, NoArgs, true, groups, handled);
      StoppedMeans(noArgs, 0, err);
      ghost var mid, err1 := log, err;
      err, ends, n := Sweep(false, End, true, false, err);
      SweptDone(ends, n, false, End, false, groups, handled);
      ExtendsOn(old(log), noArgs, mid, ends, log);
      StoppedTwice(noArgs, ends, err1, err);
      if err == EBADKEY {
        err := 0;
      }
    }

    /** The second half: success or error, and the last call. */
    method Close(err0: int) returns (err: int, ghost outcome: seq<Event>, ghost finis: seq<Event>)
      requires Valid()
      modifies this`hook, this`vector, this`next, this`calls, this`log
      ensures Valid() && Extends(old(log), outcome + finis, log)
      ensures if err0 == 0 then Pass(outcome, false, Success)
              else Pass(outcome, true, Error) && Complete(outcome, groups, false, handled)
      ensures Pass(finis, false, Fini) && Complete(finis, groups, false, handled)
      ensures err == 0 ==> err0 == 0 && Complete(outcome, groups, false, handled)
      ensures err0 != 0 ==> err == if err0 == EBADKEY then EINVAL else err0
      ensures err0 == 0 ==> Verdict(outcome, err)
      ensures err != EBADKEY
    {
      err, outcome := Tell(err0);
      ghost var mid, n := log, 0;
      var _, last, k := Sweep(false, Fini, false, false, err);
      finis, n := last, k;
      SweptDone(finis, n, false, Fini, false, groups, handled);
      ExtendsOn(old(log), outcome, mid, finis, log);
      if err == EBADKEY {
        err := EINVAL;
      }
    }

    method Tell(err0: int) returns (err: int, ghost outcome: seq<Event>)
      requires Valid()
      modifies this`hook, this`vector, this`next, this`calls, this`log
      ensures Valid() && Extends(old(log), outcome, log)
      ensures if err0 == 0 then Pass(outcome, false, Success) && err != EBADKEY
              else Pass(outcome, true, Error) && Complete(outcome, groups, false, handled) && err == err0
      ensures err == 0 ==> Complete(outcome, groups, false, handled)
      ensures err0 == 0 ==> Verdict(outcome, err)
    {
      hide Swept, Stopped, Extends, Quiet, Verdict;
      ghost var n;
      if err0 != 0 {
        err, outcome, n := Sweep(true, Error, false, false, err0);
        SweptDone(outcome, n, true, Error, false, groups, handled);
      } else {
        err, outcome, n := Sweep(false, Success, true, false, 0);
        SweptDone(outcome, n, false, Success, false, groups, handled);
        StoppedMeans(outcome, 0, err);
        if err == EBADKEY {
          err := 0;
        }
      }
    }

    /** parser_finalize. */
    method Finalize(err0: int, argEbadkey: bool, wanted: bool)
      returns (err: int, ended: Maybe<int>, ghost r: Stages)
      requires Valid()
      modifies this`hook, this`vector, this`next, this`calls, this`log
      ensures Valid() && Extends(old(log), r.Tail(), log) && r.inits == r.middle == []
      ensures Finished(r, groups, handled)
      ensures r.allDone <==> (err0 == 0 || (err0 == EBADKEY && argEbadkey)) && old(next) == argc
      ensures err == 0 ==> r.good && Complete(r.outcome, groups, false, handled)
      ensures r.Returns(err0, argEbadkey, old(next), argc, wanted, err) && err != EBADKEY
      ensures r.Stores(err0, argEbadkey, old(next), wanted, ended)
    {
      hide Quiet, Verdict, Pass, Idle, Complete, Extends, NextAfter;
      QuietNothing();
      var e := if err0 == EBADKEY && argEbadkey then 0 else err0;
      ghost var allDone := e == 0 && next == argc;
      ghost var noArgs, ends, outcome, finis;
      e, ended, noArgs, ends := Conclude(e, wanted);
      ghost var mid := log;
      err, outcome, finis := Close(e);
      ExtendsOn(old(log), noArgs + ends, mid, outcome + finis, log);
      assert (noArgs + ends) + (outcome + finis) == noArgs + (ends + (outcome + finis));
      r := Stages([], [], noArgs, ends, outcome, finis, allDone, e == 0);
    }

    /** __argp_parse: parser_init, the loop, parser_finalize.  stop is the error that ends the loop when no parser
        returns one; it comes with the value of arg_ebadkey. */
    method Run(root: int, first: int, moves: seq<Move>, stop: int, argEbadkey: bool, wanted: bool)
      returns (err: int, ended: Maybe<int>, ghost r: Maybe<Stages>, ghost n: nat, ghost loop: int, ghost reached: int)
      requires Valid() && log == Start && stop != 0
      requires forall i :: 0 <= i < total ==> vector[i] == 0
      requires forall g :: 0 <= g < |groups| ==> input[g] == 0
      modifies this
      ensures Valid()
      ensures r.Nothing? ==> Real(err) && !Quiet(Events(log)) && Verdict(Events(log), err)
      ensures r.Just? ==>
              && Quiet(r.value.inits)
              && (Loops(r.value.middle, n, moves, groups, argc, first, loop, reached)
                  || (n == |moves| && loop == stop && Loops(r.value.middle, n, moves, groups, argc, first, 0, reached)))
              && r.value.Returns(loop, argEbadkey, reached, argc, wanted, err)
              && r.value.Stores(loop, argEbadkey, reached, wanted, ended)
      ensures err == 0 <==>
              r.Just? && r.value.Enough(loop, argEbadkey, reached, argc, wanted)
              && Quiet(r.value.noArgs) && Quiet(r.value.ends) && Quiet(r.value.outcome)
      ensures r.Just? ==> Events(log) == r.value.All() && Protocol(r.value, groups, handled)
      ensures r.Just? ==> Inherited(r.value.inits, groups, input, root, answers) && err != EBADKEY
      ensures r.Just? && err == 0 ==> r.value.good && Complete(r.value.outcome, groups, false, handled)
    {
      hide Quiet, Verdict, Loops, Inherited, Pass, Complete, Idle, Midway;
      ghost var inits, middle, s;
      n, loop, reached := 0, 0, 0;
      err, inits := Initialize(root);
      StoppedMeans(inits, 0, err);
      if err != 0 {
        ended, r := Nothing, Nothing;
        return;
      }
      ghost var l0, was := log, handled;
      next := first;
      err, middle, n := Parse(moves);
      ghost var l1 := log;
      if err == 0 {
        err := stop;
      }
      loop, reached := err, next;
      err, ended, s := Finalize(err, argEbadkey, wanted);
      ReturnsZero(s, loop, argEbadkey, reached, argc, wanted, err);
      ExtendsOn(l0, middle, l1, s.Tail(), log);
      ghost var t := s.(inits := inits, middle := middle);
      CompleteAnyway(inits, groups, was, handled);
      assert Finished(t, groups, handled) && t.Tail() == s.Tail();
      r := Just(t);
    }
  }

  // ---------------------------------------------------------------- what each parser sees

  /** The keys group g was called with. */
  function Keys(seg: seq<Event>, g: nat): seq<Key> {
    if seg == [] then []
    else Keys(seg[..|seg| - 1], g) + if seg[|seg| - 1].group == g then [seg[|seg| - 1].key] else []
  }

  lemma {:induction false} KeysJoin(a: seq<Event>, b: seq<Event>, g: nat)
    ensures Keys(a + b, g) == Keys(a, g) + Keys(b, g)
    decreases |b|
  {
    if b == [] {
      assert a + b == a;
    } else {
      var b', e := b[..|b| - 1], b[|b| - 1];
      assert (a + b)[..|a + b| - 1] == a + b';
      KeysJoin(a, b', g);
    }
  }

  lemma {:induction false} KeysOfPass(seg: seq<Event>, up: bool, key: Key, g: nat)
    requires Pass(seg, up, key)
    ensures Keys(seg, g) == if Called(seg, g) then [key] else []
  {
    if seg != [] {
      KeysOfPass(seg[..|seg| - 1], up, key, g);
      CalledLast(seg, g);
      if seg[|seg| - 1].group == g {
        assert !Called(seg[..|seg| - 1], g);
      }
    }
  }

  lemma CalledLast(seg: seq<Event>, g: nat)
    requires seg != []
    ensures Called(seg, g) <==> Called(seg[..|seg| - 1], g) || seg[|seg| - 1].group == g
  {
    if Called(seg[..|seg| - 1], g) {
      var i :| 0 <= i < |seg| - 1 && seg[..|seg| - 1][i].group == g;
      assert seg[i].group == g;
    }
    if Called(seg, g) {
      var i :| 0 <= i < |seg| && seg[i].group == g;
      assert i < |seg| - 1 ==> seg[..|seg| - 1][i].group == g;
    }
  }

  function Once(called: bool, key: Key): seq<Key> {
    if called then [key] else []
  }

  ghost function Closing(r: Stages, g: nat): seq<Key> {
    Once(Called(r.noArgs, g), NoArgs) + (Once(Called(r.ends, g), End)
      + (Once(Called(r.outcome, g), if r.good then Success else Error) + [Fini]))
  }

  /** A parser is called with INIT once and first; then about arguments and options; then at most once with NO_ARGS and
      with END, and with one of SUCCESS and ERROR; and with FINI once and last.  NO_ARGS and END are for runs that
      consumed all arguments only. */
  lemma History(r: Stages, groups: seq<Member>, handled: seq<nat>, g: nat)
    requires |handled| == |groups| && Protocol(r, groups, handled) && g < |groups| && groups[g].argp.parser
    ensures Keys(r.All(), g) == [Init] + (Keys(r.middle, g) + Closing(r, g))
    ensures forall k :: k in Keys(r.middle, g) ==> k == Arg || k == Args || k.Switch?
    ensures Called(r.noArgs, g) || Called(r.ends, g) ==> r.allDone
    ensures r.allDone && r.good ==> Called(r.ends, g) && (handled[g] == 0 ==> Called(r.noArgs, g))
    ensures !r.good ==> Called(r.outcome, g)
  {
    assert Due(groups, false, handled, g);
    KeysOfPass(r.inits, true, Init, g);
    KeysOfPass(r.finis, false, Fini, g);
    KeysOfTail(r, groups, handled, g);
    KeysJoin(r.inits, r.middle + r.Tail(), g);
    KeysJoin(r.middle, r.Tail(), g);
    KeysMidway(r.middle, g);
    assert handled[g] == 0 ==> Due(groups, true, handled, g);
  }

  lemma KeysOfTail(r: Stages, groups: seq<Member>, handled: seq<nat>, g: nat)
    requires |handled| == |groups| && Finished(r, groups, handled) && g < |groups| && groups[g].argp.parser
    ensures Keys(r.Tail(), g) == Closing(r, g)
  {
    assert Due(groups, false, handled, g);
    KeysOfPass(r.noArgs, true, NoArgs, g);
    KeysOfPass(r.ends, false, End, g);
    if r.good {
      KeysOfPass(r.outcome, false, Success, g);
    } else {
      KeysOfPass(r.outcome, true, Error, g);
    }
    KeysOfPass(r.finis, false, Fini, g);
    KeysJoin(r.noArgs, r.ends + (r.outcome + r.finis), g);
    KeysJoin(r.ends, r.outcome + r.finis, g);
    KeysJoin(r.outcome, r.finis, g);
  }

  lemma {:induction false} KeysMidway(seg: seq<Event>, g: nat)
    requires Midway(seg)
    ensures forall k :: k in Keys(seg, g) ==> k == Arg || k == Args || k.Switch?
  {
    if seg != [] {
      KeysMidway(seg[..|seg| - 1], g);
    }
  }

  lemma {:induction false} NothingConsumed(log: Log, g: nat, argc: int)
    requires Consumed(log, g, argc) == 0
    ensures forall e :: e in Events(log) && e.group == g ==> Gain(e, argc) == 0
  {
    if log.After? {
      NothingConsumed(log.before, g, argc);
    }
  }

  /** A parser told that there were no arguments has handled none. */
  lemma NoArgsMeansNone(s: Session, r: Stages, e: Event, d: Event)
    requires s.Valid() && Protocol(r, s.groups, s.handled) && Events(s.log) == r.All()
    requires e in r.noArgs && d in Events(s.log) && d.group == e.group
    ensures Gain(d, s.argc) == 0
  {
    var i :| 0 <= i < |r.noArgs| && r.noArgs[i] == e;
    assert r.noArgs[i].group < |s.handled| && s.handled[r.noArgs[i].group] == 0;
    NothingConsumed(s.log, e.group, s.argc);
  }

  predicate AreAt(seg: seq<Event>, i: nat, g: nat, j: nat, h: nat) {
    i < |seg| && j < |seg| && seg[i].group == g && seg[j].group == h
  }

  /** A parent is initialized before its child, and ended, told of success and finished after it. */
  lemma ParentFirst(r: Stages, groups: seq<Member>, handled: seq<nat>, g: nat, i: nat, j: nat)
    requires |handled| == |groups| && Protocol(r, groups, handled) && LinkedFrom(groups, 0)
    requires g < |groups| && groups[g].parent.Just?
    ensures AreAt(r.inits, i, groups[g].parent.value, j, g) ==> i < j
    ensures AreAt(r.ends, i, groups[g].parent.value, j, g) ==> j < i
    ensures r.good && AreAt(r.outcome, i, groups[g].parent.value, j, g) ==> j < i
    ensures AreAt(r.finis, i, groups[g].parent.value, j, g) ==> j < i
  {
    assert Linked(groups, g);
  }

  /** The same for every ancestor in the tree of argps, whether the argps in between have groups or not. */
  lemma AncestorFirst(a: Argp, r: Stages, handled: seq<nat>, p: seq<nat>, q: seq<nat>, i: nat, j: nat)
    requires IsPlace(a, p + q) && IsPlace(a, p) && q != [] && NeedsGroup(Sub(a, p)) && NeedsGroup(Sub(a, p + q))
    requires |handled| == Groups(a) && Protocol(r, Flatten(a, Nothing, 0, 0, 0), handled)
    ensures var groups, g, h := Flatten(a, Nothing, 0, 0, 0), GroupAt(a, p), GroupAt(a, p + q);
            && g < |groups| && h < |groups| && groups[g].argp == Sub(a, p) && groups[h].argp == Sub(a, p + q)
            && (AreAt(r.inits, i, g, j, h) ==> i < j)
            && (AreAt(r.ends, i, g, j, h) ==> j < i)
            && (r.good && AreAt(r.outcome, i, g, j, h) ==> j < i)
            && (AreAt(r.finis, i, g, j, h) ==> j < i)
  {
    GroupAtHolds(a, p, Nothing, 0, 0, 0);
    GroupAtHolds(a, p + q, Nothing, 0, 0, 0);
    AncestorBefore(a, p, q);
  }

  lemma SweepStart(log: Log, up: bool, key: Key, idle: bool, err0: int, groups: seq<Member>, handled: seq<nat>)
    requires |handled| == |groups|
    ensures Extends(log, [], log) && Swept([], 0, up, key, idle, groups, handled) && Stopped([], err0, err0)
  {
  }

  /** Nobody else touches a parser's hook: each call finds what the same group's last call left, and 0 at first. */
  lemma HookIsPrivate(s: Session, before: Log, e: Event, rest: seq<Event>)
    requires s.Valid() && Extends(After(before, e), rest, s.log)
    ensures e.hookIn == LastHook(before, e.group) && e.argNum == Consumed(before, e.group, s.argc)
  {
    CoherentPrefix(s.log, s.groups, s.argc, before, e, rest);
  }

  lemma {:induction false} CoherentPrefix(log: Log, groups: seq<Member>, argc: int, before: Log, e: Event,
                                          rest: seq<Event>)
    requires Coherent(log, groups, argc) && Extends(After(before, e), rest, log)
    ensures Found(before, e, groups, argc)
    decreases |rest|
  {
    assert log.After?;
    if rest == [] {
      assert Events(log) == Events(before) + [e];
      assert log.last == Events(log)[|Events(log)| - 1] == e;
      assert Events(log)[..|Events(log)| - 1] == Events(log.before);
      EventsInjective(log.before, before);
    } else {
      assert Events(log)[..|Events(log)| - 1] == Events(log.before);
      assert (Events(before) + [e] + rest)[..|Events(log)| - 1] == Events(before) + [e] + rest[..|rest| - 1];
      CoherentPrefix(log.before, groups, argc, before, e, rest[..|rest| - 1]);
    }
  }

  lemma {:induction false} EventsInjective(a: Log, b: Log)
    requires Events(a) == Events(b)
    ensures a == b
  {
    if a.After? && b.After? {
      assert Events(a)[..|Events(a)| - 1] == Events(a.before);
      assert Events(b)[..|Events(b)| - 1] == Events(b.before);
      EventsInjective(a.before, b.before);
    }
  }
}
