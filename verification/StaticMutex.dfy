/** glibc_prepare_static_mutex of src/compat/glibc_pthread_abi.h: any number of callers turn a
    foreign static initializer into the native one, with atomic accesses to two of its words. */
module StaticMutex {

  const ENOTSUP: nat := 95

  /** The kinds that have a native counterpart: recursive and error-checking. */
  predicate Supported(kind: nat) { kind == 1 || kind == 2 }

  datatype Pc =
    | LoadType             // load of word 0
    | LoadKind             // load of word 4; word 0 was 0
    | Exchange(kind: nat)  // compare-exchange of word 0 from 0 to the kind
    | ClearKind            // relaxed store of 0 to word 4
    | Return(code: nat)

  /** `published` counts the successful exchanges. */
  datatype State = State(word0: nat, word4: nat, published: nat, pcs: map<nat, Pc>)

  function SetPc(s: State, t: nat, pc: Pc): State {
    s.(pcs := s.pcs[t := pc])
  }

  function Advance(s: State, t: nat): State
    requires t in s.pcs
  {
    match s.pcs[t]
    case LoadType => if s.word0 != 0 then SetPc(s, t, Return(0)) else SetPc(s, t, LoadKind)
    case LoadKind =>
      if s.word4 == 0 then SetPc(s, t, Return(0))
      else if !Supported(s.word4) then SetPc(s, t, Return(ENOTSUP))
      else SetPc(s, t, Exchange(s.word4))
    case Exchange(kind) =>
      if s.word0 == 0
      then SetPc(s.(word0 := kind, published := s.published + 1), t, ClearKind)
      else SetPc(s, t, LoadType)
    case ClearKind => SetPc(s.(word4 := 0), t, Return(0))
    case Return(_) => s
  }

  ghost predicate Next(s: State, s': State) {
    exists t: nat :: (t in s.pcs && s' == Advance(s, t))
                  || (t !in s.pcs && s' == SetPc(s, t, LoadType))
  }

  /** An untouched static mutex of the given foreign kind; every caller is still to come. */
  ghost predicate Run(r: seq<State>, kind: nat) {
    |r| > 0 && r[0] == State(0, kind, 0, map[]) && forall i | 0 <= i < |r| - 1 :: Next(r[i], r[i + 1])
  }

  /** The caller has published the kind and has not cleared word 4 yet. */
  predicate Clears(s: State, t: nat) {
    t in s.pcs && s.pcs[t].ClearKind?
  }

  ghost predicate ClearedOnce(s: State) {
    && (s.word0 != 0 ==> (s.word4 == 0 <==> forall t :: !Clears(s, t)))
    && (forall t, u :: Clears(s, t) && Clears(s, u) ==> t == u)
    && (s.word0 == 0 ==> forall t :: !Clears(s, t))
  }

  ghost predicate Inv(s: State, kind: nat) {
    && s.published == (if s.word0 == 0 then 0 else 1)
    && (s.word0 != 0 ==> s.word0 == kind && Supported(kind))
    && (s.word4 == kind || (s.word4 == 0 && s.word0 == kind))
    && ClearedOnce(s)
    && forall t | t in s.pcs ::
         match s.pcs[t]
         case Exchange(k) => k == kind && Supported(kind)
         case ClearKind => s.word0 == kind && Supported(kind)
         case Return(code) =>
           if Supported(kind) then code == 0 && s.word0 == kind else code == if kind == 0 then 0 else ENOTSUP
         case _ => true
  }

  lemma {:induction false} RunInv(r: seq<State>, kind: nat)
    requires Run(r, kind)
    ensures Inv(r[|r| - 1], kind)
  {
    if |r| > 1 {
      RunInv(r[..|r| - 1], kind);
      assert Next(r[|r| - 2], r[|r| - 1]);
      NextInv(r[|r| - 2], r[|r| - 1], kind);
    }
  }

  lemma ClearsOnce(s: State, s': State, t: nat, kind: nat)
    requires Inv(s, kind) && ((t in s.pcs && s' == Advance(s, t)) || (t !in s.pcs && s' == SetPc(s, t, LoadType)))
    ensures ClearedOnce(s')
  {
    assert forall u :: u != t ==> (Clears(s', u) <==> Clears(s, u));
    if Clears(s, t) {
      assert forall u :: !Clears(s', u);
    } else if Clears(s', t) {
      assert forall u :: Clears(s', u) ==> u == t;
    } else {
      assert forall u :: Clears(s', u) <==> Clears(s, u);
    }
  }

  lemma NextInv(s: State, s': State, kind: nat)
    requires Inv(s, kind) && Next(s, s')
    ensures Inv(s', kind)
  {
    hide ClearedOnce;
    var t: nat :| (t in s.pcs && s' == Advance(s, t)) || (t !in s.pcs && s' == SetPc(s, t, LoadType));
    ClearsOnce(s, s', t, kind);
  }

  /** The foreign kind is gone as soon as the one caller that published the native one has cleared it, and it stays
      gone. */
  lemma KindCleared(r: seq<State>, kind: nat)
    requires Run(r, kind) && r[|r| - 1].word0 != 0
    ensures var s := r[|r| - 1];
            && (s.word4 == 0 <==> forall t :: !Clears(s, t))
            && (forall t, u :: Clears(s, t) && Clears(s, u) ==> t == u)
            && forall s' :: Next(s, s') && s.word4 == 0 ==> s'.word4 == 0
  {
    RunInv(r, kind);
    var s := r[|r| - 1];
    forall s' | Next(s, s') && s.word4 == 0 ensures s'.word4 == 0 {
      NextInv(s, s', kind);
    }
  }

  /** In every interleaving: a supported kind is published at most once, and by the time anybody
      returns exactly once; each caller gets 0 and leaves with word 0 equal to the kind.  Kind 0
      stays 0 with result 0; any other kind is refused and the mutex left alone. */
  lemma Translation(r: seq<State>, kind: nat, t: nat, code: nat)
    requires Run(r, kind) && t in r[|r| - 1].pcs && r[|r| - 1].pcs[t] == Return(code)
    ensures var s := r[|r| - 1];
            if Supported(kind) then code == 0 && s.word0 == kind && s.published == 1
            else code == (if kind == 0 then 0 else ENOTSUP) && s.word0 == 0 && s.word4 == kind && s.published == 0
  {
    RunInv(r, kind);
  }

  /** The published kind is never withdrawn or replaced. */
  lemma PublishedStays(r: seq<State>, kind: nat, s': State)
    requires Run(r, kind) && Next(r[|r| - 1], s') && r[|r| - 1].word0 != 0
    ensures s'.word0 == r[|r| - 1].word0 == kind
  {
    RunInv(r, kind);
  }

  /** Nobody retries for ever: a failed exchange means that the next look at word 0 returns. */
  lemma RetryReturns(r: seq<State>, kind: nat, t: nat, k: nat)
    requires Run(r, kind) && t in r[|r| - 1].pcs && r[|r| - 1].pcs[t] == Exchange(k) && r[|r| - 1].word0 != 0
    ensures var s' := Advance(r[|r| - 1], t);
            t in s'.pcs && Advance(s', t).pcs[t] == Return(0)
  {
    RunInv(r, kind);
  }
}
