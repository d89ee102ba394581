/** The usage patterns of src/argp/argp-help.c: argp_args_levels, argp_args_usage and the loop of
    _help that prints one line per combination of alternatives.  No help filter is installed. */
module UsageOdometer {

  /** struct argp, as far as args_doc goes; "" also stands for a missing args_doc. */
  datatype Argp = Argp(doc: string, children: seq<Argp>)

  /** The range of `char`: the level bytes are plain chars. */
  datatype Char = Signed | Unsigned {
    function Max(): int { if Signed? then 127 else 255 }
    function Min(): int { if Signed? then -128 else 0 }
    function Increment(c: int): int { if c == Max() then Min() else c + 1 }
  }

  // ---------------------------------------------------------------- alternatives

  function Lines(doc: string): (r: seq<string>)
    ensures |r| >= 1
  {
    if doc == "" then [""]
    else var r := Lines(doc[1..]);
         if doc[0] == '\n' then [""] + r else [[doc[0]] + r[0]] + r[1..]
  }

  function Glued(lines: seq<string>): string {
    if lines == [] then "" else if |lines| == 1 then lines[0] else lines[0] + "\n" + Glued(lines[1..])
  }

  /** The alternatives are the pieces of the doc between its newlines. */
  lemma {:induction false} LinesMeans(doc: string)
    ensures (forall i :: 0 <= i < |Lines(doc)| ==> '\n' !in Lines(doc)[i]) && Glued(Lines(doc)) == doc
  {
    if doc != "" {
      LinesMeans(doc[1..]);
      var r := Lines(doc[1..]);
      if doc[0] == '\n' {
        assert ([""] + r)[1..] == r;
      } else {
        var s := [[doc[0]] + r[0]] + r[1..];
        assert s[1..] == r[1..];
        assert Glued(s) == [doc[0]] + Glued(r);
      }
      assert doc == [doc[0]] + doc[1..];
    }
  }

  /** There is no other way to cut it. */
  lemma {:induction false} OnlyLines(lines: seq<string>)
    requires lines != [] && forall i :: 0 <= i < |lines| ==> '\n' !in lines[i]
    ensures Lines(Glued(lines)) == lines
    decreases lines
  {
    if |lines| == 1 {
      FirstLine(lines[0], "");
      assert lines[0] + "" == lines[0] && lines == [lines[0]];
    } else {
      OnlyLines(lines[1..]);
      FirstLine(lines[0], "\n" + Glued(lines[1..]));
      assert lines[0] + ("\n" + Glued(lines[1..])) == Glued(lines);
      assert ("\n" + Glued(lines[1..]))[1..] == Glued(lines[1..]);
      assert lines == [lines[0]] + lines[1..];
    }
  }

  lemma {:induction false} FirstLine(x: string, rest: string)
    requires '\n' !in x && (rest == "" || rest[0] == '\n')
    ensures Lines(x + rest) == [x] + if rest == "" then [] else Lines(rest[1..])
  {
    if x == "" {
      assert x + rest == rest;
    } else {
      assert (x + rest)[1..] == x[1..] + rest;
      FirstLine(x[1..], rest);
      assert [x[0]] + x[1..] == x;
    }
  }

  function Count(a: Argp): nat { |Lines(a.doc)| }

  predicate Multiple(a: Argp) { Count(a) > 1 }

  // ---------------------------------------------------------------- the level bytes

  /** argp_args_levels. */
  function Levels(a: Argp): nat
    decreases a, 1
  {
    (if Multiple(a) then 1 else 0) + LevelsOf(a.children)
  }

  function LevelsOf(cs: seq<Argp>): nat
    decreases cs, 0
  {
    if cs == [] then 0 else Levels(cs[0]) + LevelsOf(cs[1..])
  }

  /** The level byte of a itself, and those of its children. */
  function Own(a: Argp, l: seq<int>): int
    requires |l| == Levels(a)
  {
    if Multiple(a) then l[0] else 0
  }

  function Below(a: Argp, l: seq<int>): seq<int>
    requires |l| == Levels(a)
  {
    if Multiple(a) then l[1..] else l
  }

  function WithOwn(a: Argp, own: int, below: seq<int>): seq<int> {
    if Multiple(a) then [own] + below else below
  }

  /** Every level byte is below its number of alternatives and fits a char. */
  predicate InRange(ch: Char, a: Argp, l: seq<int>)
    decreases a, 1
  {
    && |l| == Levels(a)
    && ch.Min() <= Own(a, l) <= ch.Max() && Own(a, l) < Count(a)
    && InRangeOf(ch, a.children, Below(a, l))
  }

  predicate InRangeOf(ch: Char, cs: seq<Argp>, l: seq<int>)
    decreases cs, 0
  {
    && |l| == LevelsOf(cs)
    && (cs != [] ==> InRange(ch, cs[0], l[..Levels(cs[0])]) && InRangeOf(ch, cs[1..], l[Levels(cs[0])..]))
  }

  /** What argp_args_usage does to the level bytes: the new bytes, and whether the caller should
      advance as well. */
  function Step(ch: Char, a: Argp, l: seq<int>, advance: bool): (r: (seq<int>, bool))
    requires |l| == Levels(a)
    ensures |r.0| == Levels(a)
    decreases a, 1
  {
    var (below, carry) := StepOf(ch, a.children, Below(a, l), advance);
    var own := Own(a, l);
    if carry && Multiple(a) then
      if own + 1 < Count(a) then (WithOwn(a, ch.Increment(own), below), false)
      else (WithOwn(a, if own > 0 then 0 else own, below), true)
    else (WithOwn(a, own, below), carry)
  }

  function StepOf(ch: Char, cs: seq<Argp>, l: seq<int>, advance: bool): (r: (seq<int>, bool))
    requires |l| == LevelsOf(cs)
    ensures |r.0| == LevelsOf(cs)
    decreases cs, 0
  {
    if cs == [] then (l, advance)
    else
      var (head, carry) := Step(ch, cs[0], l[..Levels(cs[0])], advance);
      var (tail, carry') := StepOf(ch, cs[1..], l[Levels(cs[0])..], carry);
      (head + tail, carry')
  }

  /** What argp_args_usage prints: the chosen alternative of every argp, in pre-order. */
  function Pattern(a: Argp, l: seq<int>): seq<string>
    requires |l| == Levels(a)
    decreases a, 1
  {
    var own := Own(a, l);
    (if a.doc == "" then [] else [Lines(a.doc)[if 0 < own < Count(a) then own else 0]])
      + PatternOf(a.children, Below(a, l))
  }

  function PatternOf(cs: seq<Argp>, l: seq<int>): seq<string>
    requires |l| == LevelsOf(cs)
    decreases cs, 0
  {
    if cs == [] then []
    else Pattern(cs[0], l[..Levels(cs[0])]) + PatternOf(cs[1..], l[Levels(cs[0])..])
  }

  // ---------------------------------------------------------------- the code

  /** argp_args_levels. */
  method ArgsLevels(a: Argp) returns (levels: nat)
    ensures levels == Levels(a)
    decreases a
  {
    levels := if Multiple(a) then 1 else 0;
    var i := 0;
    while i < |a.children|
      invariant i <= |a.children| && Levels(a) == levels + LevelsOf(a.children[i..])
    {
      var n := ArgsLevels(a.children[i]);
      assert a.children[i..][1..] == a.children[i + 1..];
      levels, i := levels + n, i + 1;
    }
  }

  /** The sequence s with x in place of what stands at pos. */
  function Put(s: seq<int>, pos: nat, x: seq<int>): seq<int>
    requires pos + |x| <= |s|
  {
    s[..pos] + x + s[pos + |x|..]
  }

  lemma PutRest(s: seq<int>, pos: nat, x: seq<int>, m: nat)
    requires pos + |x| + m <= |s|
    ensures Put(s, pos, x)[pos + |x|..pos + |x| + m] == s[pos + |x|..pos + |x| + m]
  {
  }

  lemma PutPut(s: seq<int>, pos: nat, x: seq<int>, y: seq<int>)
    requires pos + |x| + |y| <= |s|
    ensures Put(Put(s, pos, x), pos + |x|, y) == Put(s, pos, x + y)
  {
    assert Put(s, pos, x)[..pos + |x|] == s[..pos] + x;
  }

  lemma PutOwn(s: seq<int>, pos: nat, own: int, x: seq<int>)
    requires pos + 1 + |x| <= |s|
    ensures Put(s, pos + 1, x)[pos := own] == Put(s, pos, [own] + x)
    ensures Put(s, pos + 1, x)[pos] == s[pos]
    ensures Put(s, pos + 1, x) == Put(s, pos, [s[pos]] + x)
  {
  }

  lemma Slices(s: seq<int>, pos: nat, n: nat, m: nat)
    requires pos + n + m <= |s|
    ensures s[pos..pos + n + m][..n] == s[pos..pos + n] && s[pos..pos + n + m][n..] == s[pos + n..pos + n + m]
  {
  }

  /** argp_args_usage: `levels` points at pos and is moved past the bytes of a.  s is what bytes holds before. */
  method ArgsUsage(ch: Char, a: Argp, bytes: array<int>, pos: nat, advance0: bool, ghost l: seq<int>, ghost s: seq<int>)
      returns (more: bool, pos': nat, out: seq<string>)
    requires s == bytes[..] && pos + Levels(a) <= |s| && l == s[pos..pos + Levels(a)] && InRange(ch, a, l)
    modifies bytes
    ensures pos' == pos + Levels(a) && out == Pattern(a, l)
    ensures bytes[..] == Put(s, pos, Step(ch, a, l, advance0).0) && more == !Step(ch, a, l, advance0).1
    decreases a, 1
  {
    hide Lines, PatternOf, StepOf, InRangeOf, Carried, Put;
    StepParts(ch, a, l, advance0, s, pos);
    var cp, nl: nat := 0, 0;
    nl := Newline(a.doc, 0);
    LineAt(a.doc, 0, cp, nl);
    var multiple := nl < |a.doc|;
    if multiple {
      cp, nl := Skip(a.doc, nl, bytes[pos]);
    }
    out := if a.doc == "" then [] else [a.doc[cp..nl]];
    var below := if multiple then pos + 1 else pos;
    var advance, rest;
    advance, pos', rest := ChildrenUsage(ch, a.children, bytes, below, advance0, Below(a, l), s);
    out := out + rest;
    if multiple {
      advance := Carry(ch, nl < |a.doc|, bytes, pos, advance);
    }
    more := !advance;
  }

  /** The end of argp_args_usage for an argp with alternatives. */
  method Carry(ch: Char, others: bool, bytes: array<int>, pos: nat, advance0: bool) returns (advance: bool)
    requires pos < bytes.Length
    modifies bytes
    ensures bytes[..] == Carried(ch, others, old(bytes[..]), pos, advance0)
    ensures advance == (advance0 && !others)
  {
    advance := advance0;
    if advance {
      if others {
        bytes[pos] := ch.Increment(bytes[pos]);
        advance := false;
      } else if bytes[pos] > 0 {
        bytes[pos] := 0;
      }
    }
  }

  function Carried(ch: Char, others: bool, s: seq<int>, pos: nat, advance: bool): seq<int>
    requires pos < |s|
  {
    if !advance then s
    else if others then s[pos := ch.Increment(s[pos])]
    else if s[pos] > 0 then s[pos := 0]
    else s
  }

  /** What a step does to the buffer, by what it does below and to the byte of a itself. */
  lemma StepParts(ch: Char, a: Argp, l: seq<int>, advance: bool, s: seq<int>, pos: nat)
    requires pos + Levels(a) <= |s| && l == s[pos..pos + Levels(a)] && InRange(ch, a, l)
    ensures var r := StepOf(ch, a.children, Below(a, l), advance);
            if Multiple(a) then
              && Levels(a) == 1 + LevelsOf(a.children) && s[pos] == l[0] && Below(a, l) == s[pos + 1..pos + Levels(a)]
              && Put(s, pos, Step(ch, a, l, advance).0)
                 == Carried(ch, Shown(l[0]) + 1 < Count(a), Put(s, pos + 1, r.0), pos, r.1)
              && Step(ch, a, l, advance).1 == (r.1 && Shown(l[0]) + 1 >= Count(a))
            else
              Levels(a) == LevelsOf(a.children) && Below(a, l) == l && Step(ch, a, l, advance) == r
  {
    if Multiple(a) {
      var x := StepOf(ch, a.children, Below(a, l), advance).0;
      Slices(s, pos, 1, LevelsOf(a.children));
      PutOwn(s, pos, 0, x);
      PutOwn(s, pos, ch.Increment(l[0]), x);
    }
  }

  /** The alternative that a level byte stands for. */
  function Shown(level: int): nat {
    if level > 0 then level else 0
  }

  /** strchrnul. */
  method Newline(doc: string, from: nat) returns (nl: nat)
    requires from <= |doc|
    ensures from <= nl <= |doc| && '\n' !in doc[from..nl] && (nl < |doc| ==> doc[nl] == '\n')
  {
    nl := from;
    while nl < |doc| && doc[nl] != '\n'
      invariant from <= nl <= |doc| && '\n' !in doc[from..nl]
    {
      assert doc[from..nl + 1] == doc[from..nl] + [doc[nl]];
      nl := nl + 1;
    }
  }

  /** Alternative i starts at cp. */
  ghost predicate Begins(doc: string, i: nat, cp: nat) {
    i < |Lines(doc)| && cp <= |doc| && Lines(doc)[i..] == Lines(doc[cp..])
  }

  lemma LineAt(doc: string, i: nat, cp: nat, nl: nat)
    requires cp <= nl <= |doc| && '\n' !in doc[cp..nl] && (nl < |doc| ==> doc[nl] == '\n')
    requires i == cp == 0 || Begins(doc, i, cp)
    ensures Begins(doc, i, cp) && doc[cp..nl] == Lines(doc)[i] && (nl < |doc| <==> i + 1 < |Lines(doc)|)
    ensures nl < |doc| ==> Begins(doc, i + 1, nl + 1)
  {
    assert doc[cp..] == doc[cp..nl] + doc[nl..];
    FirstLine(doc[cp..nl], doc[nl..]);
    if i == 0 && cp == 0 {
      assert doc[cp..] == doc && Lines(doc)[i..] == Lines(doc);
    }
    var lines := Lines(doc);
    assert lines[i..][0] == lines[i];
    if nl < |doc| {
      assert doc[nl..][1..] == doc[nl + 1..];
      assert lines[i + 1..] == lines[i..][1..];
    }
  }

  /** The loop that skips one newline for each unit of the level byte, from the first on. */
  method Skip(doc: string, first: nat, level: int) returns (cp: nat, nl: nat)
    requires first < |doc| && '\n' !in doc[..first] && doc[first] == '\n' && level < |Lines(doc)|
    ensures cp <= nl <= |doc| && doc[cp..nl] == Lines(doc)[Shown(level)]
    ensures nl < |doc| <==> Shown(level) + 1 < |Lines(doc)|
  {
    hide Lines;
    cp, nl := 0, first;
    assert doc[0..first] == doc[..first];
    LineAt(doc, 0, cp, nl);
    var i: nat := 0;
    while i < level
      invariant i <= Shown(level) < |Lines(doc)| && cp <= nl <= |doc|
      invariant '\n' !in doc[cp..nl] && (nl < |doc| ==> doc[nl] == '\n') && Begins(doc, i, cp)
    {
      LineAt(doc, i, cp, nl);
      cp := nl + 1;
      nl := Newline(doc, cp);
      i := i + 1;
    }
    LineAt(doc, i, cp, nl);
  }

  /** The loop over the children. */
  method ChildrenUsage(ch: Char, cs: seq<Argp>, bytes: array<int>, pos: nat, advance0: bool, ghost l: seq<int>,
                       ghost s: seq<int>) returns (advance: bool, pos': nat, out: seq<string>)
    requires s == bytes[..] && pos + LevelsOf(cs) <= |s| && l == s[pos..pos + LevelsOf(cs)] && InRangeOf(ch, cs, l)
    modifies bytes
    ensures pos' == pos + LevelsOf(cs) && out == PatternOf(cs, l)
    ensures bytes[..] == Put(s, pos, StepOf(ch, cs, l, advance0).0) && advance == StepOf(ch, cs, l, advance0).1
    decreases cs, 0, 1
  {
    if cs == [] {
      advance, pos', out := advance0, pos, [];
    } else {
      advance, pos', out := SomeUsage(ch, cs, bytes, pos, advance0, l, s);
    }
  }

  method SomeUsage(ch: Char, cs: seq<Argp>, bytes: array<int>, pos: nat, advance0: bool, ghost l: seq<int>,
                   ghost s: seq<int>) returns (advance: bool, pos': nat, out: seq<string>)
    requires cs != []
    requires s == bytes[..] && pos + LevelsOf(cs) <= |s| && l == s[pos..pos + LevelsOf(cs)] && InRangeOf(ch, cs, l)
    modifies bytes
    ensures pos' == pos + LevelsOf(cs) && out == PatternOf(cs, l)
    ensures bytes[..] == Put(s, pos, StepOf(ch, cs, l, advance0).0) && advance == StepOf(ch, cs, l, advance0).1
    decreases cs, 0, 0
  {
    hide Put, Step, StepOf, Pattern, PatternOf, Levels, LevelsOf, InRange, InRangeOf;
    ghost var l0, l1, x, y := Parts(ch, cs, l, advance0);
    ghost var s1 := Buffers(s, pos, l, l0, l1, x, y);
    var more, mid, head, tail;
    more, mid, head := ArgsUsage(ch, cs[0], bytes, pos, advance0, l0, s);
    assert bytes[..] == s1;
    advance, pos', tail := ChildrenUsage(ch, cs[1..], bytes, mid, !more, l1, s1);
    assert bytes[..] == Put(s1, mid, y);
    out := head + tail;
  }

  /** A list of children: the bytes of the first and of the others, before the step and after it. */
  lemma Parts(ch: Char, cs: seq<Argp>, l: seq<int>, advance: bool)
      returns (l0: seq<int>, l1: seq<int>, x: seq<int>, y: seq<int>)
    requires cs != [] && InRangeOf(ch, cs, l)
    ensures |l0| == |x| == Levels(cs[0]) && |l1| == |y| == LevelsOf(cs[1..]) && l == l0 + l1
    ensures LevelsOf(cs) == Levels(cs[0]) + LevelsOf(cs[1..])
    ensures InRange(ch, cs[0], l0) && InRangeOf(ch, cs[1..], l1)
    ensures PatternOf(cs, l) == Pattern(cs[0], l0) + PatternOf(cs[1..], l1)
    ensures x == Step(ch, cs[0], l0, advance).0
    ensures y == StepOf(ch, cs[1..], l1, Step(ch, cs[0], l0, advance).1).0
    ensures StepOf(ch, cs, l, advance) == (x + y, StepOf(ch, cs[1..], l1, Step(ch, cs[0], l0, advance).1).1)
  {
    l0, l1 := l[..Levels(cs[0])], l[Levels(cs[0])..];
    var h := Step(ch, cs[0], l0, advance);
    x, y := h.0, StepOf(ch, cs[1..], l1, h.1).0;
  }

  /** ...and in the buffer. */
  lemma Buffers(s: seq<int>, pos: nat, l: seq<int>, l0: seq<int>, l1: seq<int>, x: seq<int>, y: seq<int>)
      returns (s1: seq<int>)
    requires l == l0 + l1 && |x| == |l0| && |y| == |l1| && pos + |l| <= |s| && l == s[pos..pos + |l|]
    ensures s1 == Put(s, pos, x) && |s1| == |s| && Put(s1, pos + |x|, y) == Put(s, pos, x + y)
    ensures l0 == s[pos..pos + |l0|] && l1 == s1[pos + |x|..pos + |x| + |l1|]
  {
    s1 := Put(s, pos, x);
    Slices(s, pos, |l0|, |l1|);
    assert l0 == l[..|l0|] && l1 == l[|l0|..];
    PutRest(s, pos, x, |l1|);
    PutPut(s, pos, x, y);
  }

  // ---------------------------------------------------------------- the odometer

  /** The number of combinations of alternatives. */
  function Size(a: Argp): nat
    decreases a, 1
  {
    Count(a) * SizeOf(a.children)
  }

  function SizeOf(cs: seq<Argp>): nat
    decreases cs, 0
  {
    if cs == [] then 1 else Size(cs[0]) * SizeOf(cs[1..])
  }

  /** The reading of the level bytes as a mixed-radix number: the first child is the least
      significant digit, an argp more significant than its children. */
  function Val(a: Argp, l: seq<int>): int
    requires |l| == Levels(a)
    decreases a, 1
  {
    ValOf(a.children, Below(a, l)) + Own(a, l) * SizeOf(a.children)
  }

  function ValOf(cs: seq<Argp>, l: seq<int>): int
    requires |l| == LevelsOf(cs)
    decreases cs, 0
  {
    if cs == [] then 0
    else Val(cs[0], l[..Levels(cs[0])]) + ValOf(cs[1..], l[Levels(cs[0])..]) * Size(cs[0])
  }

  /** The level bytes of a combination of alternatives. */
  predicate Proper(a: Argp, l: seq<int>)
    decreases a, 1
  {
    |l| == Levels(a) && 0 <= Own(a, l) < Count(a) && ProperOf(a.children, Below(a, l))
  }

  predicate ProperOf(cs: seq<Argp>, l: seq<int>)
    decreases cs, 0
  {
    && |l| == LevelsOf(cs)
    && (cs != [] ==> Proper(cs[0], l[..Levels(cs[0])]) && ProperOf(cs[1..], l[Levels(cs[0])..]))
  }

  /** No argp has more alternatives than a char can count. */
  predicate Small(ch: Char, a: Argp)
    decreases a, 1
  {
    Count(a) <= ch.Max() + 1 && SmallOf(ch, a.children)
  }

  predicate SmallOf(ch: Char, cs: seq<Argp>)
    decreases cs, 0
  {
    cs != [] ==> Small(ch, cs[0]) && SmallOf(ch, cs[1..])
  }

  /** A digit o above a number c below S. */
  lemma Digit(c: int, o: int, n: int, S: int)
    requires 0 <= c < S && 0 <= o < n
    ensures 0 <= c + o * S < n * S
    ensures (o + 1) * S == o * S + S
    ensures o + 1 == n ==> c + o * S + 1 <= n * S && (c + 1 == S ==> c + o * S + 1 == n * S)
    ensures o + 1 < n || c + 1 < S ==> c + o * S + 1 < n * S
  {
    assert (o + 1) * S == o * S + S;
    assert o * S >= 0;
    if o + 1 < n {
      assert (o + 2) * S == o * S + 2 * S;
      MulMono(o + 2, n, S);
    } else {
      MulMono(o + 1, n, S);
    }
  }

  lemma MulMono(x: int, y: int, S: int)
    requires x <= y && S >= 0
    ensures x * S <= y * S
  {
  }

  lemma DigitsUnique(c: int, o: int, c': int, o': int, S: int)
    requires 0 <= c < S && 0 <= c' < S && c + o * S == c' + o' * S
    ensures c == c' && o == o'
  {
    assert (o + 1) * S == o * S + S && (o' + 1) * S == o' * S + S;
    if o < o' {
      MulMono(o + 1, o', S);
    } else if o' < o {
      MulMono(o' + 1, o, S);
    }
  }

  lemma {:induction false} ValBound(a: Argp, l: seq<int>)
    requires Proper(a, l)
    ensures 0 <= Val(a, l) < Size(a)
    decreases a, 1
  {
    ValBoundOf(a.children, Below(a, l));
    Digit(ValOf(a.children, Below(a, l)), Own(a, l), Count(a), SizeOf(a.children));
  }

  lemma {:induction false} ValBoundOf(cs: seq<Argp>, l: seq<int>)
    requires ProperOf(cs, l)
    ensures 0 <= ValOf(cs, l) < SizeOf(cs)
    decreases cs, 0
  {
    if cs != [] {
      var h, t := l[..Levels(cs[0])], l[Levels(cs[0])..];
      ValBound(cs[0], h);
      ValBoundOf(cs[1..], t);
      Digit(Val(cs[0], h), ValOf(cs[1..], t), SizeOf(cs[1..]), Size(cs[0]));
      assert SizeOf(cs[1..]) * Size(cs[0]) == SizeOf(cs);
    }
  }

  /** Different combinations have different numbers. */
  lemma {:induction false} ValInjective(a: Argp, l: seq<int>, l': seq<int>)
    requires Proper(a, l) && Proper(a, l') && Val(a, l) == Val(a, l')
    ensures l == l'
    decreases a, 1
  {
    var b, b' := Below(a, l), Below(a, l');
    ValBoundOf(a.children, b);
    ValBoundOf(a.children, b');
    DigitsUnique(ValOf(a.children, b), Own(a, l), ValOf(a.children, b'), Own(a, l'), SizeOf(a.children));
    ValInjectiveOf(a.children, b, b');
    assert l == WithOwn(a, Own(a, l), b) && l' == WithOwn(a, Own(a, l'), b');
  }

  lemma {:induction false} ValInjectiveOf(cs: seq<Argp>, l: seq<int>, l': seq<int>)
    requires ProperOf(cs, l) && ProperOf(cs, l') && ValOf(cs, l) == ValOf(cs, l')
    ensures l == l'
    decreases cs, 0
  {
    if cs != [] {
      var n := Levels(cs[0]);
      ValBound(cs[0], l[..n]);
      ValBound(cs[0], l'[..n]);
      DigitsUnique(Val(cs[0], l[..n]), ValOf(cs[1..], l[n..]), Val(cs[0], l'[..n]), ValOf(cs[1..], l'[n..]),
        Size(cs[0]));
      ValInjective(cs[0], l[..n], l'[..n]);
      ValInjectiveOf(cs[1..], l[n..], l'[n..]);
      assert l == l[..n] + l[n..] && l' == l'[..n] + l'[n..];
    }
  }

  /** Without advance nothing moves. */
  lemma {:induction false} StepIdle(ch: Char, a: Argp, l: seq<int>)
    requires |l| == Levels(a)
    ensures Step(ch, a, l, false) == (l, false)
    decreases a, 1
  {
    StepIdleOf(ch, a.children, Below(a, l));
    assert l == WithOwn(a, Own(a, l), Below(a, l));
  }

  lemma {:induction false} StepIdleOf(ch: Char, cs: seq<Argp>, l: seq<int>)
    requires |l| == LevelsOf(cs)
    ensures StepOf(ch, cs, l, false) == (l, false)
    decreases cs, 0
  {
    if cs != [] {
      StepIdle(ch, cs[0], l[..Levels(cs[0])]);
      StepIdleOf(ch, cs[1..], l[Levels(cs[0])..]);
      assert l == l[..Levels(cs[0])] + l[Levels(cs[0])..];
    }
  }

  /** A step is +1 on the number, with carry out exactly at the last one, which returns to 0. */
  ghost predicate Plus1(v: int, v': int, carry: bool, size: int) {
    if v + 1 < size then !carry && v' == v + 1 else carry && v' == 0
  }

  lemma {:induction false} StepCounts(ch: Char, a: Argp, l: seq<int>)
    requires Proper(a, l) && Small(ch, a)
    ensures var r := Step(ch, a, l, true);
            Proper(a, r.0) && Plus1(Val(a, l), Val(a, r.0), r.1, Size(a))
    decreases a, 1
  {
    hide Lines, StepOf, ProperOf, ValOf, SizeOf, SmallOf, LevelsOf;
    var cs, b, own := a.children, Below(a, l), Own(a, l);
    StepCountsOf(ch, cs, b);
    ValBoundOf(cs, b);
    Digit(ValOf(cs, b), own, Count(a), SizeOf(cs));
    var r := StepOf(ch, cs, b, true);
    assert own * SizeOf(cs) >= 0 && 0 * SizeOf(cs) == 0;
  }

  lemma {:induction false} StepCountsOf(ch: Char, cs: seq<Argp>, l: seq<int>)
    requires ProperOf(cs, l) && SmallOf(ch, cs)
    ensures var r := StepOf(ch, cs, l, true);
            ProperOf(cs, r.0) && Plus1(ValOf(cs, l), ValOf(cs, r.0), r.1, SizeOf(cs))
    decreases cs, 0
  {
    if cs != [] {
      var n := Levels(cs[0]);
      var h, t := l[..n], l[n..];
      StepCounts(ch, cs[0], h);
      ValBound(cs[0], h);
      ValBoundOf(cs[1..], t);
      Digit(Val(cs[0], h), ValOf(cs[1..], t), SizeOf(cs[1..]), Size(cs[0]));
      assert SizeOf(cs[1..]) * Size(cs[0]) == SizeOf(cs);
      var r := Step(ch, cs[0], h, true);
      if r.1 {
        StepCountsOf(ch, cs[1..], t);
      } else {
        StepIdleOf(ch, cs[1..], t);
      }
      var r' := StepOf(ch, cs[1..], t, r.1);
      assert (r.0 + r'.0)[..n] == r.0 && (r.0 + r'.0)[n..] == r'.0;
    }
  }

  lemma {:induction false} ProperInRange(ch: Char, a: Argp, l: seq<int>)
    requires Proper(a, l) && Small(ch, a)
    ensures InRange(ch, a, l)
    decreases a, 1
  {
    ProperInRangeOf(ch, a.children, Below(a, l));
  }

  lemma {:induction false} ProperInRangeOf(ch: Char, cs: seq<Argp>, l: seq<int>)
    requires ProperOf(cs, l) && SmallOf(ch, cs)
    ensures InRangeOf(ch, cs, l)
    decreases cs, 0
  {
    if cs != [] {
      ProperInRange(ch, cs[0], l[..Levels(cs[0])]);
      ProperInRangeOf(ch, cs[1..], l[Levels(cs[0])..]);
    }
  }

  /** The bytes stay in range, and the carry never gets past an argp with more alternatives than a
      char can count: its byte wraps round instead. */
  lemma {:induction false} StepInRange(ch: Char, a: Argp, l: seq<int>, advance: bool)
    requires InRange(ch, a, l)
    ensures var r := Step(ch, a, l, advance); InRange(ch, a, r.0) && (!Small(ch, a) ==> !r.1)
    decreases a, 1
  {
    StepInRangeOf(ch, a.children, Below(a, l), advance);
  }

  lemma {:induction false} StepInRangeOf(ch: Char, cs: seq<Argp>, l: seq<int>, advance: bool)
    requires InRangeOf(ch, cs, l)
    ensures var r := StepOf(ch, cs, l, advance); InRangeOf(ch, cs, r.0) && (!SmallOf(ch, cs) ==> !r.1)
    decreases cs, 0
  {
    if cs != [] {
      var n := Levels(cs[0]);
      var r := Step(ch, cs[0], l[..n], advance);
      StepInRange(ch, cs[0], l[..n], advance);
      StepInRangeOf(ch, cs[1..], l[n..], r.1);
      StepIdleOf(ch, cs[1..], l[n..]);
      var r' := StepOf(ch, cs[1..], l[n..], r.1);
      assert (r.0 + r'.0)[..n] == r.0 && (r.0 + r'.0)[n..] == r'.0;
    }
  }

  function Zeros(n: nat): seq<int> {
    seq(n, _ => 0)
  }

  lemma {:induction false} ZerosProper(ch: Char, a: Argp)
    ensures Proper(a, Zeros(Levels(a))) && Val(a, Zeros(Levels(a))) == 0 && InRange(ch, a, Zeros(Levels(a)))
    decreases a, 1
  {
    assert Below(a, Zeros(Levels(a))) == Zeros(LevelsOf(a.children));
    ZerosProperOf(ch, a.children);
  }

  lemma {:induction false} ZerosProperOf(ch: Char, cs: seq<Argp>)
    ensures ProperOf(cs, Zeros(LevelsOf(cs))) && ValOf(cs, Zeros(LevelsOf(cs))) == 0
            && InRangeOf(ch, cs, Zeros(LevelsOf(cs)))
    decreases cs, 0
  {
    if cs != [] {
      var n := Levels(cs[0]);
      var z := Zeros(LevelsOf(cs));
      assert z[..n] == Zeros(n) && z[n..] == Zeros(LevelsOf(cs[1..]));
      ZerosProper(ch, cs[0]);
      ZerosProperOf(ch, cs[1..]);
    }
  }

  // ---------------------------------------------------------------- what the patterns show

  /** The args_docs of a tree, in pre-order. */
  function Docs(a: Argp): seq<string>
    decreases a, 1
  {
    [a.doc] + DocsOf(a.children)
  }

  function DocsOf(cs: seq<Argp>): seq<string>
    decreases cs, 0
  {
    if cs == [] then [] else Docs(cs[0]) + DocsOf(cs[1..])
  }

  /** One alternative for each of them. */
  predicate Combination(docs: seq<string>, c: seq<nat>) {
    |c| == |docs| && forall i :: 0 <= i < |docs| ==> c[i] < |Lines(docs[i])|
  }

  /** The line shows these alternatives, in order; an empty doc has nothing to show. */
  predicate Shows(line: seq<string>, docs: seq<string>, c: seq<nat>)
    requires Combination(docs, c)
  {
    if docs == [] then line == []
    else if docs[0] == "" then Shows(line, docs[1..], c[1..])
    else line != [] && line[0] == Lines(docs[0])[c[0]] && Shows(line[1..], docs[1..], c[1..])
  }

  /** If no doc repeats an alternative, a line shows one combination only. */
  lemma {:induction false} ShowsOne(line: seq<string>, docs: seq<string>, c: seq<nat>, d: seq<nat>)
    requires Combination(docs, c) && Combination(docs, d) && Shows(line, docs, c) && Shows(line, docs, d)
    requires forall k, i, j :: 0 <= k < |docs| && 0 <= i < j < |Lines(docs[k])| ==>
               Lines(docs[k])[i] != Lines(docs[k])[j]
    ensures c == d
    decreases docs
  {
    if docs != [] {
      var first := Lines(docs[0]);
      assert forall i, j :: 0 <= i < |first| && 0 <= j < |first| && first[i] == first[j] ==> i == j;
      assert forall k :: 0 <= k < |docs[1..]| ==> docs[1..][k] == docs[k + 1];
      ShowsOne(if docs[0] == "" then line else line[1..], docs[1..], c[1..], d[1..]);
      assert c == [c[0]] + c[1..] && d == [d[0]] + d[1..];
    }
  }

  lemma CombinationJoin(a: seq<string>, b: seq<string>, c: seq<nat>, d: seq<nat>)
    requires Combination(a, c) && Combination(b, d)
    ensures Combination(a + b, c + d)
  {
    assert forall i :: 0 <= i < |a| ==> (a + b)[i] == a[i] && (c + d)[i] == c[i];
    assert forall i :: 0 <= i < |b| ==> (a + b)[|a| + i] == b[i] && (c + d)[|a| + i] == d[i];
  }

  lemma {:induction false} ShowsJoin(x: seq<string>, y: seq<string>, a: seq<string>, b: seq<string>, c: seq<nat>,
                                     d: seq<nat>)
    requires Combination(a, c) && Combination(b, d) && Shows(x, a, c) && Shows(y, b, d)
    ensures Combination(a + b, c + d) && Shows(x + y, a + b, c + d)
    decreases a
  {
    hide Lines;
    CombinationJoin(a, b, c, d);
    if a == [] {
      assert x + y == y && a + b == b && c + d == d;
    } else {
      assert (a + b)[1..] == a[1..] + b && (c + d)[1..] == c[1..] + d && (x != [] ==> (x + y)[1..] == x[1..] + y);
      ShowsJoin(if a[0] == "" then x else x[1..], y, a[1..], b, c[1..], d);
    }
  }

  /** The combination that the level bytes stand for. */
  function Choice(a: Argp, l: seq<int>): seq<nat>
    requires |l| == Levels(a)
    decreases a, 1
  {
    [Shown(Own(a, l))] + ChoiceOf(a.children, Below(a, l))
  }

  function ChoiceOf(cs: seq<Argp>, l: seq<int>): seq<nat>
    requires |l| == LevelsOf(cs)
    decreases cs, 0
  {
    if cs == [] then [] else Choice(cs[0], l[..Levels(cs[0])]) + ChoiceOf(cs[1..], l[Levels(cs[0])..])
  }

  /** A pattern shows, for every argp in pre-order, the alternative that its level byte stands for. */
  lemma {:induction false} PatternShows(ch: Char, a: Argp, l: seq<int>)
    requires InRange(ch, a, l)
    ensures Combination(Docs(a), Choice(a, l)) && Shows(Pattern(a, l), Docs(a), Choice(a, l))
    decreases a, 1
  {
    var own := Own(a, l);
    var front := if a.doc == "" then [] else [Lines(a.doc)[Shown(own)]];
    PatternShowsOf(ch, a.children, Below(a, l));
    assert Shows(front, [a.doc], [Shown(own)]) by {
      assert [a.doc][1..] == [] && [Shown(own)][1..] == [] && (front != [] ==> front[1..] == []);
      assert Shows([], [a.doc][1..], [Shown(own)][1..]);
    }
    ShowsJoin(front, PatternOf(a.children, Below(a, l)), [a.doc], DocsOf(a.children), [Shown(own)],
              ChoiceOf(a.children, Below(a, l)));
  }

  lemma {:induction false} PatternShowsOf(ch: Char, cs: seq<Argp>, l: seq<int>)
    requires InRangeOf(ch, cs, l)
    ensures Combination(DocsOf(cs), ChoiceOf(cs, l)) && Shows(PatternOf(cs, l), DocsOf(cs), ChoiceOf(cs, l))
    decreases cs, 0
  {
    if cs != [] {
      var h, t := l[..Levels(cs[0])], l[Levels(cs[0])..];
      PatternShows(ch, cs[0], h);
      PatternShowsOf(ch, cs[1..], t);
      ShowsJoin(Pattern(cs[0], h), PatternOf(cs[1..], t), Docs(cs[0]), DocsOf(cs[1..]), Choice(cs[0], h),
                ChoiceOf(cs[1..], t));
    }
  }

  /** Every combination is that of some level bytes, and of no others. */
  lemma {:induction false} ChoiceMade(a: Argp, c: seq<nat>) returns (l: seq<int>)
    requires Combination(Docs(a), c)
    ensures Proper(a, l) && Choice(a, l) == c
    decreases a, 1
  {
    hide Lines, ProperOf, ChoiceOf, DocsOf;
    var rest := DocsOf(a.children);
    assert Docs(a)[0] == a.doc && forall i :: 0 <= i < |rest| ==> Docs(a)[i + 1] == rest[i];
    var b := ChoiceMadeOf(a.children, c[1..]);
    l := WithOwn(a, c[0], b);
    assert Below(a, l) == b;
    assert c == [c[0]] + c[1..];
  }

  lemma {:induction false} ChoiceMadeOf(cs: seq<Argp>, c: seq<nat>) returns (l: seq<int>)
    requires Combination(DocsOf(cs), c)
    ensures |l| == LevelsOf(cs) && ProperOf(cs, l) && ChoiceOf(cs, l) == c
    decreases cs, 0
  {
    if cs == [] {
      l := [];
    } else {
      var x, y := Docs(cs[0]), DocsOf(cs[1..]);
      assert forall i :: 0 <= i < |x| ==> (x + y)[i] == x[i];
      assert forall i :: 0 <= i < |y| ==> (x + y)[|x| + i] == y[i];
      var h := ChoiceMade(cs[0], c[..|x|]);
      var t := ChoiceMadeOf(cs[1..], c[|x|..]);
      l := h + t;
      assert l[..Levels(cs[0])] == h && l[Levels(cs[0])..] == t;
      assert c == c[..|x|] + c[|x|..];
    }
  }

  lemma {:induction false} ChoiceSize(a: Argp, l: seq<int>)
    requires |l| == Levels(a)
    ensures |Choice(a, l)| == |Docs(a)|
    decreases a, 1
  {
    ChoiceSizeOf(a.children, Below(a, l));
  }

  lemma {:induction false} ChoiceSizeOf(cs: seq<Argp>, l: seq<int>)
    requires |l| == LevelsOf(cs)
    ensures |ChoiceOf(cs, l)| == |DocsOf(cs)|
    decreases cs, 0
  {
    if cs != [] {
      ChoiceSize(cs[0], l[..Levels(cs[0])]);
      ChoiceSizeOf(cs[1..], l[Levels(cs[0])..]);
    }
  }

  lemma {:induction false} ChoiceInjective(a: Argp, l: seq<int>, l': seq<int>)
    requires Proper(a, l) && Proper(a, l') && Choice(a, l) == Choice(a, l')
    ensures l == l'
    decreases a, 1
  {
    var b, b' := Below(a, l), Below(a, l');
    assert Choice(a, l)[0] == Choice(a, l')[0] && Choice(a, l)[1..] == Choice(a, l')[1..];
    assert Choice(a, l)[1..] == ChoiceOf(a.children, b) && Choice(a, l')[1..] == ChoiceOf(a.children, b');
    ChoiceInjectiveOf(a.children, b, b');
    assert l == WithOwn(a, Own(a, l), b) && l' == WithOwn(a, Own(a, l'), b');
  }

  lemma {:induction false} ChoiceInjectiveOf(cs: seq<Argp>, l: seq<int>, l': seq<int>)
    requires ProperOf(cs, l) && ProperOf(cs, l') && ChoiceOf(cs, l) == ChoiceOf(cs, l')
    ensures l == l'
    decreases cs, 0
  {
    if cs != [] {
      var n := Levels(cs[0]);
      ChoiceSize(cs[0], l[..n]);
      ChoiceSize(cs[0], l'[..n]);
      var m := |Docs(cs[0])|;
      assert ChoiceOf(cs, l)[..m] == Choice(cs[0], l[..n]) && ChoiceOf(cs, l)[m..] == ChoiceOf(cs[1..], l[n..]);
      assert ChoiceOf(cs, l')[..m] == Choice(cs[0], l'[..n]) && ChoiceOf(cs, l')[m..] == ChoiceOf(cs[1..], l'[n..]);
      ChoiceInjective(cs[0], l[..n], l'[..n]);
      ChoiceInjectiveOf(cs[1..], l[n..], l'[n..]);
      assert l == l[..n] + l[n..] && l' == l'[..n] + l'[n..];
    }
  }

  /** The k-th line shows the combination choices[k]. */
  ghost predicate Displays(docs: seq<string>, lines: seq<seq<string>>, choices: seq<seq<nat>>) {
    && |choices| == |lines|
    && forall k :: 0 <= k < |lines| ==> Combination(docs, choices[k]) && Shows(lines[k], docs, choices[k])
  }

  lemma DisplaysPush(docs: seq<string>, lines: seq<seq<string>>, choices: seq<seq<nat>>, line: seq<string>, c: seq<nat>)
    requires Displays(docs, lines, choices) && Combination(docs, c) && Shows(line, docs, c)
    ensures Displays(docs, lines + [line], choices + [c])
  {
  }

  /** These are the choices of these level bytes. */
  ghost predicate Chosen(a: Argp, states: seq<seq<int>>, choices: seq<seq<nat>>) {
    |choices| == |states|
    && forall k | 0 <= k < |states| :: |states[k]| == Levels(a) && choices[k] == Choice(a, states[k])
  }

  predicate AllDiffer(choices: seq<seq<nat>>) {
    forall i, j :: 0 <= i < j < |choices| ==> choices[i] != choices[j]
  }

  lemma CountedChoices(a: Argp, lines: seq<seq<string>>, states: seq<seq<int>>, choices: seq<seq<nat>>)
    requires Counted(a, lines, states) && Chosen(a, states, choices)
    ensures AllDiffer(choices)
    ensures |lines| == Size(a) ==> forall c :: Combination(Docs(a), c) ==> c in choices
  {
    forall i, j | 0 <= i < j < |choices| ensures choices[i] != choices[j] {
      if choices[i] == choices[j] {
        ChoiceInjective(a, states[i], states[j]);
      }
    }
    if |lines| == Size(a) {
      forall c | Combination(Docs(a), c) ensures c in choices {
        var l := ChoiceMade(a, c);
        EveryCombinationOnce(a, lines, states, l);
        assert choices[Val(a, l)] == c;
      }
    }
  }

  /** The k-th line shows the combination with the number k. */
  ghost predicate Counted(a: Argp, lines: seq<seq<string>>, states: seq<seq<int>>) {
    |lines| == |states| &&
    forall k | 0 <= k < |lines| ::
      |states[k]| == Levels(a) && lines[k] == Pattern(a, states[k]) && Proper(a, states[k]) && Val(a, states[k]) == k
  }

  /** The pattern loop of _help, cut off after `limit` lines.  It ends by itself exactly if no argp
      has more alternatives than a char can count (and the limit allows it), and then after exactly
      the product of the numbers of alternatives; otherwise it would go on for ever. */
  method Patterns(ch: Char, a: Argp, limit: nat)
      returns (lines: seq<seq<string>>, ended: bool, ghost states: seq<seq<int>>, ghost choices: seq<seq<nat>>)
    ensures ended <==> Small(ch, a) && Size(a) <= limit
    ensures |lines| == if ended then Size(a) else limit
    ensures Small(ch, a) ==> Counted(a, lines, states)
    ensures Displays(Docs(a), lines, choices) && (Small(ch, a) ==> AllDiffer(choices))
    ensures ended ==> forall c :: Combination(Docs(a), c) ==> c in choices
  {
    var n := ArgsLevels(a);
    var bytes := new int[n](_ => 0);
    assert bytes[..] == Zeros(n);
    ZerosProper(ch, a);
    lines, ended, states, choices := [], false, [], [];
    ghost var l := bytes[..];
    ValBound(a, l);
    while !ended && |lines| < limit
      invariant !ended ==> l == bytes[..] && InRange(ch, a, l) && |lines| <= limit
      invariant Small(ch, a) ==> Counted(a, lines, states)
      invariant Displays(Docs(a), lines, choices) && Chosen(a, states, choices)
      invariant Small(ch, a) && !ended ==> Proper(a, l) && Val(a, l) == |lines| < Size(a)
      invariant ended ==> Small(ch, a) && |lines| == Size(a) <= limit
      decreases !ended, limit - |lines|
    {
      StepInRange(ch, a, l, true);
      if Small(ch, a) {
        StepCounts(ch, a, l);
        ValBound(a, l);
        CountedPush(a, lines, states, l);
      }
      var more, line := OneLine(ch, a, bytes, l);
      PatternShows(ch, a, l);
      DisplaysPush(Docs(a), lines, choices, line, Choice(a, l));
      lines, states, choices := lines + [line], states + [l], choices + [Choice(a, l)];
      l := Step(ch, a, l, true).0;
      ended := !more;
    }
    if Small(ch, a) {
      CountedChoices(a, lines, states, choices);
    }
  }

  /** The args_doc with n line breaks: n + 1 alternatives, all empty. */
  function Breaks(n: nat): string {
    if n == 0 then "" else ['\n'] + Breaks(n - 1)
  }

  lemma {:induction false} BreaksCount(n: nat)
    ensures |Lines(Breaks(n))| == n + 1
  {
    if n > 0 {
      BreaksCount(n - 1);
      assert Breaks(n)[1..] == Breaks(n - 1);
    }
  }

  /** With 129 alternatives and a signed char the loop has not ended after any number of lines; with 128 it ends after
      128. */
  method NeverEnds(limit: nat) returns (lines: seq<seq<string>>, ended: bool)
    ensures !ended && |lines| == limit
  {
    BreaksCount(128);
    ghost var states, choices;
    lines, ended, states, choices := Patterns(Signed, Argp(Breaks(128), []), limit);
  }

  method EndsOnce() returns (lines: seq<seq<string>>, ended: bool)
    ensures ended && |lines| == 128
  {
    BreaksCount(127);
    var a := Argp(Breaks(127), []);
    assert Size(a) == 128 && Small(Signed, a);
    ghost var states, choices;
    lines, ended, states, choices := Patterns(Signed, a, 128);
  }

  /** One pattern, with `levels` back at the first byte. */
  method OneLine(ch: Char, a: Argp, bytes: array<int>, ghost l: seq<int>) returns (more: bool, line: seq<string>)
    requires l == bytes[..] && InRange(ch, a, l)
    modifies bytes
    ensures line == Pattern(a, l) && bytes[..] == Step(ch, a, l, true).0 && more == !Step(ch, a, l, true).1
  {
    assert l == l[0..Levels(a)];
    var pos;
    more, pos, line := ArgsUsage(ch, a, bytes, 0, true, l, l);
  }

  lemma CountedPush(a: Argp, lines: seq<seq<string>>, states: seq<seq<int>>, l: seq<int>)
    requires Counted(a, lines, states) && |l| == Levels(a) && Proper(a, l) && Val(a, l) == |lines|
    ensures Counted(a, lines + [Pattern(a, l)], states + [l])
  {
  }

  /** So when it ends, every combination of alternatives has been printed exactly once. */
  lemma EveryCombinationOnce(a: Argp, lines: seq<seq<string>>, states: seq<seq<int>>, l: seq<int>)
    requires Counted(a, lines, states) && |lines| == Size(a) && Proper(a, l)
    ensures 0 <= Val(a, l) < |lines| && lines[Val(a, l)] == Pattern(a, l)
    ensures forall k | 0 <= k < |states| :: states[k] == l <==> k == Val(a, l)
  {
    ValBound(a, l);
    ValInjective(a, l, states[Val(a, l)]);
  }
}
