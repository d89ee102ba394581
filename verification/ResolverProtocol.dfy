/** resolve_native of src/compat/pthread.c as a state machine: one packed status word, N function
    pointers, any number of threads, re-entry from the dynamic linker, and fork. */
module ResolverProtocol {
  import opened Basics

  const HALF := 0x1_0000_0000
  const UNINITIALIZED: nat := 0
  const RUNNING: nat := 1
  const READY: nat := 2
  const FAILED: nat := 3
  const ENOSYS: nat := 38

  /** RESOLVER_STATUS: the pid in the upper half, the state in the lower. */
  function Status(pid: nat, state: nat): nat { pid * HALF + state }
  function StateOf(w: nat): nat { w % HALF }
  function PidOf(w: nat): nat { w / HALF }

  lemma Unpack(pid: nat, state: nat)
    requires state < HALF
    ensures StateOf(Status(pid, state)) == state && PidOf(Status(pid, state)) == pid
  {
  }

  datatype Pc =
    | Load                               // load of the status word
    | Reset(seen: nat)                   // compare-exchange of an ancestor's RUNNING word to 0
    | Claim                              // compare-exchange of 0 to our RUNNING word
    | Resolving(k: nat, missing: bool)   // pointer k is next
    | Publish(missing: bool)             // final store
    | Return(code: nat)

  datatype Pos = Pos(t: nat, i: nat)

  /** One process.  resolver_active of a thread is true exactly while it has a Resolving activation.  `owner` and
      `claims` are history: the activation whose RUNNING word of this process stands, and how many activations of this
      process have begun to resolve. */
  datatype State = State(pid: nat, word: nat, pointers: seq<bool>, owner: Maybe<Pos>, claims: nat,
                         ancestors: set<nat>, threads: map<nat, seq<Pc>>)

  predicate Live(s: State, p: Pos) {
    p.t in s.threads && p.i < |s.threads[p.t]|
  }

  function At(s: State, p: Pos): Pc
    requires Live(s, p)
  {
    s.threads[p.t][p.i]
  }

  predicate Busy(s: State, t: nat) {
    t in s.threads && s.threads[t] != []
  }

  function Top(s: State, t: nat): Pos
    requires Busy(s, t)
  {
    Pos(t, |s.threads[t]| - 1)
  }

  predicate ResolverActive(s: State, t: nat) {
    t in s.threads && exists i | 0 <= i < |s.threads[t]| :: s.threads[t][i].Resolving?
  }

  function SetPc(s: State, t: nat, pc: Pc): State
    requires Busy(s, t)
  {
    s.(threads := s.threads[t := s.threads[t][|s.threads[t]| - 1 := pc]])
  }

  /** The next access of thread t; `found` is the answer of dlsym. */
  function Advance(s: State, t: nat, found: bool): State
    requires Busy(s, t)
  {
    var p := Top(s, t);
    match At(s, p)
    case Load =>
      var state := StateOf(s.word);
      if state == READY then SetPc(s, t, Return(0))
      else if state == FAILED then SetPc(s, t, Return(ENOSYS))
      else if state == RUNNING then
        if ResolverActive(s, t) then SetPc(s, t, Return(ENOSYS))
        else if PidOf(s.word) != s.pid then SetPc(s, t, Reset(s.word))
        else s
      else SetPc(s, t, Claim)
    case Reset(seen) =>
      SetPc(if s.word == seen then s.(word := 0) else s, t, Load)
    case Claim =>
      if s.word == UNINITIALIZED
      then SetPc(s.(word := Status(s.pid, RUNNING), owner := Just(p), claims := s.claims + 1), t, Resolving(0, false))
      else SetPc(s, t, Load)
    case Resolving(k, missing) =>
      if k < |s.pointers|
      then SetPc(s.(pointers := s.pointers[k := found]), t, Resolving(k + 1, missing || !found))
      else SetPc(s, t, Publish(missing))
    case Publish(missing) =>
      SetPc(s.(word := Status(s.pid, if missing then FAILED else READY), owner := Nothing), t,
            Return(if missing then ENOSYS else 0))
    case Return(code) =>
      s.(threads := s.threads[t := s.threads[t][..|s.threads[t]| - 1]])
  }

  /** A thread calls resolve_native, perhaps from inside dlsym while it resolves. */
  ghost predicate Call(s: State, s': State, t: nat) {
    && t in s.threads && (s.threads[t] == [] || At(s, Top(s, t)).Resolving?)
    && s' == s.(threads := s.threads[t := s.threads[t] + [Load]])
  }

  ghost predicate Spawn(s: State, s': State, t: nat) {
    t !in s.threads && s' == s.(threads := s.threads[t := []])
  }

  ghost predicate Fork(s: State, s': State, t: nat, pid: nat) {
    && t in s.threads && s.threads[t] == [] && pid > 0 && pid !in s.ancestors
    && s' == s.(pid := pid, owner := Nothing, claims := 0, ancestors := s.ancestors + {pid}, threads := map[t := []])
  }

  ghost predicate Acts(s: State, s': State, t: nat) {
    Busy(s, t) && exists found :: s' == Advance(s, t, found)
  }

  ghost predicate Happens(s: State, s': State, t: nat) {
    Call(s, s', t) || Spawn(s, s', t) || exists pid :: Fork(s, s', t, pid)
  }

  ghost predicate Next(s: State, s': State) {
    exists t: nat :: Acts(s, s', t) || Happens(s, s', t)
  }

  ghost predicate Init(s: State) {
    && s.pid > 0 && s.word == UNINITIALIZED && s.owner == Nothing && s.claims == 0 && s.ancestors == {s.pid}
    && (forall k | 0 <= k < |s.pointers| :: !s.pointers[k])
    && forall t | t in s.threads :: s.threads[t] == []
  }

  // ---------------------------------------------------------------- the invariant

  ghost predicate AllResolved(s: State) {
    forall k | 0 <= k < |s.pointers| :: s.pointers[k]
  }

  ghost predicate ResolvedTo(s: State, k: nat) {
    k <= |s.pointers| && forall j | 0 <= j < k :: s.pointers[j]
  }

  ghost predicate FrameOk(s: State, p: Pos, pc: Pc) {
    match pc
    case Reset(seen) => StateOf(seen) == RUNNING && PidOf(seen) != s.pid
    case Resolving(k, missing) => s.owner == Just(p) && k <= |s.pointers| && (missing <==> !ResolvedTo(s, k))
    case Publish(missing) => s.owner == Just(p) && (missing <==> !AllResolved(s))
    case Return(code) =>
      if code == 0 then s.word == Status(PidOf(s.word), READY)
      else code == ENOSYS && (p.i > 0 || s.word == Status(PidOf(s.word), FAILED))
    case _ => true
  }

  /** The word: free, final, ours with a live resolver, or left behind by an ancestor.  While it is free, or an
      ancestor's, nothing in this process has begun to resolve. */
  ghost predicate WordOk(s: State) {
    if s.owner.Just? then s.word == Status(s.pid, RUNNING) && s.claims == 1
    else || (s.word == UNINITIALIZED && s.claims == 0)
         || (s.claims == 0 && exists a :: a in s.ancestors && a != s.pid && s.word == Status(a, RUNNING))
         || (!AllResolved(s) && exists a :: a in s.ancestors && s.word == Status(a, FAILED))
         || (exists a :: a in s.ancestors && s.word == Status(a, READY) && AllResolved(s))
  }

  predicate Resolves(s: State, p: Pos) {
    Live(s, p) && (At(s, p).Resolving? || At(s, p).Publish?)
  }

  ghost predicate Inv(s: State) {
    && s.pid in s.ancestors && 0 !in s.ancestors && WordOk(s) && s.claims <= 1
    && (forall p | Live(s, p) :: FrameOk(s, p, At(s, p)))
    && (forall p | Live(s, p) :: p.i == |s.threads[p.t]| - 1 || At(s, p).Resolving?)
    && (s.owner.Just? ==> Resolves(s, s.owner.value))
  }

  lemma InitInv(s: State)
    requires Init(s)
    ensures Inv(s)
  {
  }

  lemma SetPcAt(s: State, t: nat, pc: Pc)
    requires Busy(s, t)
    ensures var s' := SetPc(s, t, pc);
            forall q :: (Live(s', q) <==> Live(s, q))
                        && (Live(s, q) ==> At(s', q) == if q == Top(s, t) then pc else At(s, q))
  {
  }

  /** What the word says, in every state. */
  lemma WordFacts(s: State)
    requires Inv(s)
    ensures StateOf(s.word) == RUNNING && PidOf(s.word) == s.pid <==> s.owner.Just?
    ensures StateOf(s.word) == READY ==> AllResolved(s) && s.word == Status(PidOf(s.word), READY)
    ensures StateOf(s.word) == FAILED ==> !AllResolved(s) && s.word == Status(PidOf(s.word), FAILED)
    ensures StateOf(s.word) == UNINITIALIZED ==> s.word == UNINITIALIZED && s.claims == 0
    ensures StateOf(s.word) == RUNNING && PidOf(s.word) != s.pid ==> s.claims == 0
    ensures StateOf(s.word) <= FAILED
  {
    forall a: nat, st: nat | st < HALF
      ensures StateOf(Status(a, st)) == st && PidOf(Status(a, st)) == a
    {
      Unpack(a, st);
    }
  }

  /** Steps that change no shared variable. */
  lemma LocalInv(s: State, t: nat, pc: Pc)
    requires Inv(s) && Busy(s, t) && FrameOk(s, Top(s, t), pc)
    requires At(s, Top(s, t)).Resolving? || At(s, Top(s, t)).Publish? ==> pc.Resolving? || pc.Publish?
    ensures Inv(SetPc(s, t, pc))
  {
    SetPcAt(s, t, pc);
  }

  lemma LoadInv(s: State, t: nat)
    requires Inv(s) && Busy(s, t) && At(s, Top(s, t)) == Load
    ensures Inv(Advance(s, t, false)) && Advance(s, t, true) == Advance(s, t, false)
  {
    WordFacts(s);
    var state := StateOf(s.word);
    if state == READY {
      LocalInv(s, t, Return(0));
    } else if state == FAILED || (state == RUNNING && ResolverActive(s, t)) {
      LocalInv(s, t, Return(ENOSYS));
    } else if state == RUNNING && PidOf(s.word) != s.pid {
      LocalInv(s, t, Reset(s.word));
    } else if state != RUNNING {
      LocalInv(s, t, Claim);
    }
  }

  lemma ResetInv(s: State, t: nat, seen: nat)
    requires Inv(s) && Busy(s, t) && At(s, Top(s, t)) == Reset(seen)
    ensures Inv(Advance(s, t, false)) && Advance(s, t, true) == Advance(s, t, false)
  {
    WordFacts(s);
    assert FrameOk(s, Top(s, t), Reset(seen));
    if s.word == seen {
      SetPcAt(s.(word := 0), t, Load);
      var s' := SetPc(s.(word := 0), t, Load);
      Unpack(PidOf(s.word), READY);
      forall q | Live(s', q)
        ensures FrameOk(s', q, At(s', q))
      {
        assert q == Top(s, t) || FrameOk(s, q, At(s, q));
      }
    } else {
      LocalInv(s, t, Load);
    }
  }

  lemma ClaimInv(s: State, t: nat)
    requires Inv(s) && Busy(s, t) && At(s, Top(s, t)) == Claim
    ensures Inv(Advance(s, t, false)) && Advance(s, t, true) == Advance(s, t, false)
  {
    WordFacts(s);
    if s.word == UNINITIALIZED {
      var u := s.(word := Status(s.pid, RUNNING), owner := Just(Top(s, t)), claims := s.claims + 1);
      SetPcAt(u, t, Resolving(0, false));
      var s' := SetPc(u, t, Resolving(0, false));
      Unpack(PidOf(s.word), READY);
      forall q | Live(s', q)
        ensures FrameOk(s', q, At(s', q))
      {
        assert q == Top(s, t) || FrameOk(s, q, At(s, q));
      }
    } else {
      LocalInv(s, t, Load);
    }
  }

  lemma ResolvedOneMore(s: State, s': State, k: nat, found: bool)
    requires k < |s.pointers| && s'.pointers == s.pointers[k := found]
    ensures ResolvedTo(s', k + 1) <==> ResolvedTo(s, k) && found
  {
    assert forall j :: 0 <= j < k ==> s'.pointers[j] == s.pointers[j];
    assert s'.pointers[k] == found;
  }

  lemma ResolveInv(s: State, t: nat, k: nat, missing: bool, found: bool)
    requires Inv(s) && Busy(s, t) && At(s, Top(s, t)) == Resolving(k, missing)
    ensures Inv(Advance(s, t, found))
  {
    assert FrameOk(s, Top(s, t), Resolving(k, missing));
    if k < |s.pointers| {
      var u := s.(pointers := s.pointers[k := found]);
      var pc := Resolving(k + 1, missing || !found);
      SetPcAt(u, t, pc);
      var s' := SetPc(u, t, pc);
      WordFacts(s);
      ResolvedOneMore(s, s', k, found);
      forall q | Live(s', q)
        ensures FrameOk(s', q, At(s', q))
      {
        assert q == Top(s, t) || FrameOk(s, q, At(s, q));
        Unpack(s.pid, RUNNING);
        Unpack(PidOf(s.word), READY);
      }
      assert WordOk(s');
    } else {
      LocalInv(s, t, Publish(missing));
    }
  }

  lemma PublishInv(s: State, t: nat, missing: bool)
    requires Inv(s) && Busy(s, t) && At(s, Top(s, t)) == Publish(missing)
    ensures Inv(Advance(s, t, false)) && Advance(s, t, true) == Advance(s, t, false)
  {
    WordFacts(s);
    assert FrameOk(s, Top(s, t), Publish(missing));
    var state := if missing then FAILED else READY;
    var u := s.(word := Status(s.pid, state), owner := Nothing);
    var pc := Return(if missing then ENOSYS else 0);
    SetPcAt(u, t, pc);
    var s' := SetPc(u, t, pc);
    Unpack(s.pid, state);
    Unpack(PidOf(s.word), READY);
    forall q | Live(s', q)
      ensures FrameOk(s', q, At(s', q))
    {
      assert q == Top(s, t) || FrameOk(s, q, At(s, q));
    }
    assert WordOk(s');
  }

  lemma AdvanceInv(s: State, t: nat, found: bool)
    requires Inv(s) && Busy(s, t)
    ensures Inv(Advance(s, t, found))
  {
    match At(s, Top(s, t))
    case Load => LoadInv(s, t);
    case Reset(seen) => ResetInv(s, t, seen);
    case Claim => ClaimInv(s, t);
    case Resolving(k, missing) => ResolveInv(s, t, k, missing, found);
    case Publish(missing) => PublishInv(s, t, missing);
    case Return(_) => ReturnInv(s, t, found);
  }

  lemma ReturnInv(s: State, t: nat, found: bool)
    requires Inv(s) && Busy(s, t) && At(s, Top(s, t)).Return?
    ensures Inv(Advance(s, t, found))
  {
    var s' := Advance(s, t, found);
    assert forall q :: (Live(s', q) <==> Live(s, q) && q != Top(s, t)) && (Live(s', q) ==> At(s', q) == At(s, q));
  }

  lemma NextInv(s: State, s': State)
    requires Inv(s) && Next(s, s')
    ensures Inv(s')
  {
    var t: nat :| Acts(s, s', t) || Happens(s, s', t);
    if Acts(s, s', t) {
      var found :| s' == Advance(s, t, found);
      AdvanceInv(s, t, found);
    } else {
      HappensInv(s, s', t);
    }
  }

  lemma HappensInv(s: State, s': State, t: nat)
    requires Inv(s) && Happens(s, s', t)
    ensures Inv(s')
  {
    if Call(s, s', t) {
      var p := Pos(t, |s.threads[t]|);
      assert forall q :: (Live(s', q) <==> Live(s, q) || q == p) && (Live(s, q) ==> At(s', q) == At(s, q));
    } else if Spawn(s, s', t) {
      assert forall q :: (Live(s', q) <==> Live(s, q)) && (Live(s, q) ==> At(s', q) == At(s, q));
    } else {
      assert forall q :: !Live(s', q);
    }
  }

  ghost predicate Run(r: seq<State>) {
    |r| > 0 && Init(r[0]) && forall i | 0 <= i < |r| - 1 :: Next(r[i], r[i + 1])
  }

  lemma {:induction false} RunInv(r: seq<State>)
    requires Run(r)
    ensures Inv(r[|r| - 1])
  {
    if |r| == 1 {
      InitInv(r[0]);
    } else {
      RunInv(r[..|r| - 1]);
      NextInv(r[|r| - 2], r[|r| - 1]);
    }
  }

  // ---------------------------------------------------------------- the results

  /** In the life of a process at most one activation resolves, whatever comes of it. */
  lemma OneResolution(r: seq<State>)
    requires Run(r)
    ensures r[|r| - 1].claims <= 1
  {
    RunInv(r);
  }

  /** At any time at most one activation of a process resolves. */
  lemma OneResolver(r: seq<State>, p: Pos, q: Pos)
    requires Run(r)
    requires Resolves(r[|r| - 1], p) && Resolves(r[|r| - 1], q)
    ensures p == q
  {
    RunInv(r);
    var s := r[|r| - 1];
    assert FrameOk(s, p, At(s, p)) && FrameOk(s, q, At(s, q));
  }

  /** Whoever gets 0 finds every pointer resolved, in the process that resolved or in a child. */
  lemma ZeroMeansResolved(r: seq<State>, p: Pos)
    requires Run(r) && Live(r[|r| - 1], p) && At(r[|r| - 1], p) == Return(0)
    ensures AllResolved(r[|r| - 1])
  {
    RunInv(r);
    var s := r[|r| - 1];
    assert FrameOk(s, p, At(s, p));
    Unpack(PidOf(s.word), READY);
    WordFacts(s);
  }

  /** The final store of the resolver says whether every pointer is resolved, and its caller gets 0 or ENOSYS
      accordingly. */
  lemma FinalWord(r: seq<State>, t: nat, found: bool)
    requires Run(r) && Busy(r[|r| - 1], t) && At(r[|r| - 1], Top(r[|r| - 1], t)).Publish?
    ensures var s, s' := r[|r| - 1], Advance(r[|r| - 1], t, found);
            && StateOf(s'.word) == (if AllResolved(s) then READY else FAILED)
            && At(s', Top(s, t)) == Return(if AllResolved(s) then 0 else ENOSYS) && s'.pointers == s.pointers
  {
    RunInv(r);
    var s := r[|r| - 1];
    var p := Top(s, t);
    assert FrameOk(s, p, At(s, p));
    Unpack(s.pid, READY);
    Unpack(s.pid, FAILED);
  }

  /** The word is READY only while every pointer is resolved, and FAILED only while one is missing. */
  lemma WordTells(r: seq<State>)
    requires Run(r)
    ensures var s := r[|r| - 1];
            (StateOf(s.word) == READY ==> AllResolved(s)) && (StateOf(s.word) == FAILED ==> !AllResolved(s))
  {
    RunInv(r);
    WordFacts(r[|r| - 1]);
  }

  /** ENOSYS is for a caller that finds a pointer missing for good, or that has been called from inside dlsym. */
  lemma EnosysMeans(r: seq<State>, p: Pos, code: nat)
    requires Run(r) && Live(r[|r| - 1], p) && At(r[|r| - 1], p) == Return(code) && code != 0
    ensures var s := r[|r| - 1];
            code == ENOSYS && (p.i > 0 || (StateOf(s.word) == FAILED && !AllResolved(s)))
  {
    RunInv(r);
    var s := r[|r| - 1];
    assert FrameOk(s, p, At(s, p));
    Unpack(PidOf(s.word), FAILED);
    WordFacts(s);
  }

  /** A call from inside dlsym returns ENOSYS at its first look at the word: the resolver never waits for itself. */
  lemma ReentryReturns(r: seq<State>, p: Pos)
    requires Run(r) && Live(r[|r| - 1], p) && p.i > 0 && At(r[|r| - 1], p) == Load
    ensures var s := r[|r| - 1];
            Busy(s, p.t) && p == Top(s, p.t) && At(Advance(s, p.t, false), p) == Return(ENOSYS)
  {
    RunInv(r);
    var s := r[|r| - 1];
    WordFacts(s);
    var q := Pos(p.t, p.i - 1);
    assert Live(s, q) && FrameOk(s, q, At(s, q));
  }

  /** READY is for ever, and no pointer changes after it. */
  lemma ReadyStays(r: seq<State>, s': State)
    requires Run(r) && Next(r[|r| - 1], s') && StateOf(r[|r| - 1].word) == READY
    ensures s'.word == r[|r| - 1].word && s'.pointers == r[|r| - 1].pointers
  {
    RunInv(r);
    var s := r[|r| - 1];
    WordFacts(s);
    var t: nat :| Acts(s, s', t) || Happens(s, s', t);
    if Acts(s, s', t) {
      assert FrameOk(s, Top(s, t), At(s, Top(s, t)));
    }
  }

  /** FAILED is for ever as well. */
  lemma FailedStays(r: seq<State>, s': State)
    requires Run(r) && Next(r[|r| - 1], s') && StateOf(r[|r| - 1].word) == FAILED
    ensures s'.word == r[|r| - 1].word && s'.pointers == r[|r| - 1].pointers
  {
    RunInv(r);
    var s := r[|r| - 1];
    WordFacts(s);
    var t: nat :| Acts(s, s', t) || Happens(s, s', t);
    if Acts(s, s', t) {
      assert FrameOk(s, Top(s, t), At(s, Top(s, t)));
    }
  }

  /** A thread spins only while a live activation of its own process resolves: a child never waits
      for a resolver that stayed behind in its parent. */
  lemma SpinsForLiveResolver(r: seq<State>, t: nat)
    requires Run(r) && Busy(r[|r| - 1], t) && At(r[|r| - 1], Top(r[|r| - 1], t)) == Load
    requires Advance(r[|r| - 1], t, false) == r[|r| - 1]
    ensures var s := r[|r| - 1]; exists q :: Resolves(s, q)
  {
    RunInv(r);
    var s := r[|r| - 1];
    WordFacts(s);
    SetPcAt(s, t, Return(0));
    SetPcAt(s, t, Return(ENOSYS));
    SetPcAt(s, t, Reset(s.word));
    SetPcAt(s, t, Claim);
    assert Resolves(s, s.owner.value);
  }
}
