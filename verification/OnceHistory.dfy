/** How often init() completes along a whole ancestry of processes: a fork that comes between the end of init() and the
    store of DONE makes the child forget that completion. */
module OnceHistory {
  import opened Basics
  import opened OnceProtocol

  /** init() of control c returns in this step. */
  ghost predicate Completes(s: State, s': State, c: nat) {
    exists t: nat :: InitReturns(s, s', t) && At(s, Top(s, t)).c == c
  }

  /** init() of control c has returned, and DONE is not stored yet. */
  ghost predicate Storing(s: State, c: nat) {
    exists p :: Live(s, p) && At(s, p) == Frame(c, DoneStore)
  }

  ghost predicate Forks(s: State, s': State) {
    exists t: nat, pid :: Fork(s, s', t, pid)
  }

  /** The completions of init() in a process and all its ancestors. */
  ghost function Completions(r: seq<State>, c: nat): nat {
    if |r| <= 1 then 0
    else Completions(r[..|r| - 1], c) + if Completes(r[|r| - 2], r[|r| - 1], c) then 1 else 0
  }

  /** The forks that found an activation between the end of init() and the store of DONE. */
  ghost function Losses(r: seq<State>, c: nat): nat {
    if |r| <= 1 then 0
    else Losses(r[..|r| - 1], c) + if Forks(r[|r| - 2], r[|r| - 1]) && Storing(r[|r| - 2], c) then 1 else 0
  }

  // ---------------------------------------------------------------- one step

  /** A completion stands exactly while DONE is stored or about to be. */
  lemma Stands(s: State, c: nat)
    requires Inv(s) && c < |s.g.control|
    ensures s.g.completed[c] == if s.g.control[c] == DONE || Storing(s, c) then 1 else 0
  {
    assert WordOk(s.g, c);
    if p :| Live(s, p) && At(s, p) == Frame(c, DoneStore) {
      assert FrameOk(s.g, p, At(s, p));
    } else if s.g.owner[c].Just? {
      var p := s.g.owner[c].value;
      assert OwnerOk(s, c, p);
      assert At(s, p) == Frame(c, At(s, p).pc);
      assert s.g.control[c] == s.g.generation + 1;
    }
  }

  lemma ForkAccounts(s: State, s': State, c: nat)
    requires Inv(s) && Forks(s, s') && c < |s.g.control|
    ensures !Completes(s, s', c) && |s'.g.control| == |s.g.control| == |s'.g.completed|
    ensures s'.g.completed[c] + (if Storing(s, c) then 1 else 0) == s.g.completed[c]
  {
    Stands(s, c);
    assert s'.g.pid != s.g.pid;
    if Storing(s, c) {
      var p :| Live(s, p) && At(s, p) == Frame(c, DoneStore);
      assert FrameOk(s.g, p, At(s, p)) && WordOk(s.g, c);
    }
  }

  lemma ReturnAccounts(s: State, s': State, t: nat, c: nat)
    requires Inv(s) && InitReturns(s, s', t) && c < |s.g.control|
    ensures !Forks(s, s') && |s'.g.control| == |s.g.control| == |s'.g.completed|
    ensures s'.g.completed[c] == s.g.completed[c] + if Completes(s, s', c) then 1 else 0
  {
    var k := At(s, Top(s, t)).c;
    assert s'.g.completed[k] == s.g.completed[k] + 1;
    assert k == c ==> Completes(s, s', c);
  }

  /** Any other step completes nothing and forgets nothing. */
  lemma OtherAccounts(s: State, s': State, t: nat, c: nat)
    requires Inv(s) && c < |s.g.control| && (Acts(s, s', t) || Happens(s, s', t))
    requires !Forks(s, s') && !InitReturns(s, s', t)
    ensures !Completes(s, s', c) && |s'.g.control| == |s.g.control| == |s'.g.completed|
    ensures s'.g.completed[c] == s.g.completed[c]
  {
    assert s'.g.completed == s.g.completed;
  }

  lemma StepAccounts(s: State, s': State, c: nat)
    requires Inv(s) && Next(s, s') && c < |s.g.control|
    ensures |s'.g.control| == |s.g.control| == |s'.g.completed|
    ensures s'.g.completed[c] + (if Forks(s, s') && Storing(s, c) then 1 else 0)
         == s.g.completed[c] + (if Completes(s, s', c) then 1 else 0)
  {
    var t: nat :| Acts(s, s', t) || Happens(s, s', t);
    if Forks(s, s') {
      ForkAccounts(s, s', c);
    } else if InitReturns(s, s', t) {
      ReturnAccounts(s, s', t, c);
    } else {
      OtherAccounts(s, s', t, c);
    }
  }

  // ---------------------------------------------------------------- whole runs

  lemma {:induction false} Accounts(r: seq<State>, n: nat, c: nat)
    requires Run(r, n) && NotWrapped(r[|r| - 1]) && c < n
    ensures var s := r[|r| - 1];
            && c < |s.g.control| == |s.g.completed|
            && Completions(r, c) == s.g.completed[c] + Losses(r, c)
  {
    if |r| > 1 {
      var s, s' := r[|r| - 2], r[|r| - 1];
      ForksGrow(s, s');
      Accounts(r[..|r| - 1], n, c);
      RunInv(r[..|r| - 1], n);
      StepAccounts(s, s', c);
    }
  }

  /** Along an ancestry init() completes once, and once more for every fork that found it completed and DONE not yet
      stored. */
  lemma InitOnceEver(r: seq<State>, n: nat, c: nat)
    requires Run(r, n) && NotWrapped(r[|r| - 1]) && c < n
    ensures var s := r[|r| - 1];
            && c < |s.g.control|
            && Completions(r, c) == Losses(r, c) + if s.g.control[c] == DONE || Storing(s, c) then 1 else 0
    ensures Completions(r, c) > 1 ==> Losses(r, c) > 0
  {
    Accounts(r, n, c);
    RunInv(r, n);
    Stands(r[|r| - 1], c);
  }

  // ---------------------------------------------------------------- a run in which it completes twice

  lemma Extend(r: seq<State>, s': State) returns (r': seq<State>)
    requires Run(r, 1) && Next(r[|r| - 1], s')
    ensures r' == r + [s'] && Run(r', 1) && Losses(r', 0) >= Losses(r, 0)
    ensures Forks(r[|r| - 1], s') && Storing(r[|r| - 1], 0) ==> Losses(r', 0) == Losses(r, 0) + 1
  {
    r' := r + [s'];
    assert r'[..|r'| - 1] == r;
    forall i | 0 <= i < |r'| - 1
      ensures Next(r'[i], r'[i + 1])
    {
      assert i < |r| - 1 ==> Next(r[i], r[i + 1]);
    }
  }

  /** The state with these shared words in which thread t has one activation, on control 0. */
  function With(s: State, g: Globals, t: nat, pc: Pc): State {
    State(g, s.threads[t := Thread([Frame(0, pc)], false)])
  }

  ghost predicate OneControl(g: Globals) {
    |g.control| == |g.owner| == |g.completed| == 1
  }

  lemma Puts(s: State, g: Globals, t: nat, pc: Pc, g': Globals, pc': Pc)
    ensures SetPc(With(s, g, t, pc).(g := g'), t, pc') == With(s, g', t, pc')
  {
    assert [Frame(0, pc)][0 := Frame(0, pc')] == [Frame(0, pc')];
  }

  /** What the next access does to the shared words, and where it leads. */
  lemma Go(r: seq<State>, s: State, g: Globals, t: nat, pc: Pc, g': Globals, pc': Pc) returns (r': seq<State>)
    requires Run(r, 1) && r[|r| - 1] == With(s, g, t, pc) && OneControl(g)
    requires Advance(With(s, g, t, pc), t) == SetPc(With(s, g, t, pc).(g := g'), t, pc')
    ensures Run(r', 1) && r'[|r'| - 1] == With(s, g', t, pc') && Losses(r', 0) >= Losses(r, 0)
  {
    var u := With(s, g, t, pc);
    Puts(s, g, t, pc, g', pc');
    assert InRange(u, t) && Acts(u, Advance(u, t), t);
    r' := Extend(r, Advance(u, t));
  }

  /** A thread in a process that has not used pthread_once yet publishes the generation. */
  lemma Publishes(r: seq<State>, s: State, g: Globals, t: nat) returns (r': seq<State>, g': Globals)
    requires Run(r, 1) && r[|r| - 1] == With(s, g, t, PidLoad) && OneControl(g)
    requires g.oncePid != g.pid && g.oncePid != -g.pid && g.generation % 4 == 0 && g.generation + 4 < WORD
    ensures g' == g.(oncePid := g.pid, generation := g.generation + 4, publisher := Nothing)
    ensures Run(r', 1) && r'[|r'| - 1] == With(s, g', t, CtlLoad(g'.generation)) && Losses(r', 0) >= Losses(r, 0)
  {
    hide Run, Losses;
    var gen := g.generation + 4;
    var won := g.(oncePid := -g.pid, publisher := Just(Pos(t, 0)));
    var raised := won.(generation := gen);
    g' := raised.(oncePid := g.pid, publisher := Nothing);
    r' := Go(r, s, g, t, PidLoad, g, PidCas(g.oncePid));
    r' := Go(r', s, g, t, PidCas(g.oncePid), won, GenAdd);
    r' := Go(r', s, won, t, GenAdd, raised, PidStore(gen));
    r' := Go(r', s, raised, t, PidStore(gen), g', CtlLoad(gen));
  }

  /** ...raises the control, which is free or left behind by an ancestor, and goes through init(). */
  lemma Completing(r: seq<State>, s: State, g: Globals, t: nat) returns (r': seq<State>, g': Globals)
    requires Run(r, 1) && r[|r| - 1] == With(s, g, t, CtlLoad(g.generation)) && OneControl(g)
    requires g.generation % 4 == 0 && (g.control[0] == 0 || g.control[0] == g.generation - 3)
    ensures g' == g.(control := [g.generation + 1], owner := [Just(Pos(t, 0))], completed := [g.completed[0] + 1])
    ensures Run(r', 1) && r'[|r'| - 1] == With(s, g', t, DoneStore) && Losses(r', 0) >= Losses(r, 0)
  {
    hide Run, Losses;
    var gen, seen := g.generation, g.control[0];
    var inside := g.(control := g.control[0 := gen + 1], owner := g.owner[0 := Just(Pos(t, 0))]);
    g' := inside.(completed := inside.completed[0 := inside.completed[0] + 1]);
    r' := Go(r, s, g, t, CtlLoad(gen), g, CtlCas(gen, seen));
    r' := Go(r', s, g, t, CtlCas(gen, seen), inside, InInit);
    var u, v := With(s, inside, t, InInit), With(s, g', t, DoneStore);
    Puts(s, inside, t, InInit, g', DoneStore);
    assert InitReturns(u, v, t) && Happens(u, v, t);
    r' := Extend(r', v);
  }

  /** An idle thread calls pthread_once and finds no DONE. */
  lemma Calls(r: seq<State>, s: State, t: nat) returns (r': seq<State>)
    requires Run(r, 1) && r[|r| - 1] == s && t in s.threads && s.threads[t] == Thread([], false) && OneControl(s.g)
    requires Bits(s.g.control[0]) != DONE
    ensures Run(r', 1) && r'[|r'| - 1] == With(s, s.g, t, PidLoad) && Losses(r', 0) >= Losses(r, 0)
  {
    hide Run, Losses;
    var called := With(s, s.g, t, First);
    assert [] + [Frame(0, First)] == [Frame(0, First)];
    assert Call(s, called, t, 0) && Happens(s, called, t);
    r' := Extend(r, called);
    r' := Go(r', s, s.g, t, First, s.g, PidLoad);
  }

  /** A whole call of an idle thread, up to the end of init(). */
  lemma Attempt(r: seq<State>, s: State, t: nat) returns (r': seq<State>, g': Globals)
    requires Run(r, 1) && r[|r| - 1] == s && t in s.threads && s.threads[t] == Thread([], false) && OneControl(s.g)
    requires s.g.oncePid != s.g.pid && s.g.oncePid != -s.g.pid
    requires s.g.generation % 4 == 0 && s.g.generation + 4 < WORD
    requires s.g.control[0] == 0 || s.g.control[0] == s.g.generation + 1
    ensures g' == s.g.(oncePid := s.g.pid, generation := s.g.generation + 4, publisher := Nothing,
                       control := [s.g.generation + 5], owner := [Just(Pos(t, 0))], completed := [s.g.completed[0] + 1])
    ensures Run(r', 1) && r'[|r'| - 1] == With(s, g', t, DoneStore) && Losses(r', 0) >= Losses(r, 0)
  {
    hide Run, Losses;
    r' := Calls(r, s, t);
    r', g' := Publishes(r', s, s.g, t);
    r', g' := Completing(r', s, g', t);
  }

  const IDLE := Thread([], false)

  /** Two threads of a new process, one control. */
  function Fresh(): State {
    State(Globals(1, 0, 0, [0], [Nothing], Nothing, [0], 0, {1}, 0), map[0 := IDLE, 1 := IDLE])
  }

  lemma FreshRun()
    ensures Run([Fresh()], 1)
  {
    var none: seq<Maybe<Pos>> := [Nothing];
    assert seq(1, _ => 0) == [0] && seq(1, _ => Nothing) == none;
    assert Init(Fresh(), 1);
  }

  /** The child that thread 1 makes while thread 0 is about to store DONE. */
  function Child(g: Globals): State {
    State(g.(pid := 2, ancestors := g.ancestors + {2}, forks := g.forks + 1, owner := [Nothing], publisher := Nothing,
             base := g.generation, completed := [0]), map[1 := IDLE])
  }

  lemma ForksNow(r: seq<State>, g: Globals) returns (r': seq<State>)
    requires Run(r, 1) && OneControl(g) && r[|r| - 1] == With(Fresh(), g, 0, DoneStore)
    requires g.control[0] != DONE && 2 !in g.ancestors
    ensures r' == r + [Child(g)] && Run(r', 1) && Losses(r', 0) > 0
  {
    var u, v := With(Fresh(), g, 0, DoneStore), Child(g);
    var none: seq<Maybe<Pos>> := [Nothing];
    assert seq(1, _ => Nothing) == none && seq(1, _ => 0) == [0];
    assert Fork(u, v, 1, 2) && Happens(u, v, 1);
    assert At(u, Pos(0, 0)) == Frame(0, DoneStore);
    r' := Extend(r, v);
  }

  /** Thread 0 ends init(); before it stores DONE, thread 1 forks; the child goes through init() once more. */
  lemma CompletesTwice()
    ensures exists r :: Run(r, 1) && NotWrapped(r[|r| - 1]) && Completions(r, 0) >= 2
  {
    hide Run, Losses, Completions;
    FreshRun();
    var r := [Fresh()];
    var parent, child;
    r, parent := Attempt(r, Fresh(), 0);
    r := ForksNow(r, parent);
    r, child := Attempt(r, Child(parent), 1);
    Accounts(r, 1, 0);
  }
}
