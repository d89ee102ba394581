/** pthread_once of src/compat/pthread.c as a state machine: every atomic access of any thread is
    one step; init routines may call pthread_once on other controls, be cancelled, and any idle
    thread may fork.  A state is one process; forking leads to the state of the child. */
module OnceProtocol {
  import opened Basics

  const WORD := 0x1_0000_0000
  const DONE: nat := 2

  // control words: generation in the high 30 bits, IN PROGRESS bit 0, DONE bit 1
  function Bits(w: nat): nat { w % 4 }
  function GenOf(w: nat): nat { w - w % 4 }
  predicate InProgress(w: nat) { w % 2 == 1 }

  /** Where an activation of pthread_once stands; the names follow the accesses to come. */
  datatype Pc =
    | First                        // first load of the control
    | PidLoad                      // process_once_generation: load of once_pid
    | PidCas(pid: int)             // compare-exchange of once_pid to -pid
    | GenAdd                       // won: the generation is to be raised
    | PidStore(gen: nat)           // ... and pid published
    | GenLoad                      // once_pid is ours: load of once_generation
    | CtlLoad(gen: nat)            // load of the control
    | CtlCas(gen: nat, seen: nat)  // compare-exchange of the control
    | InInit                       // inside init()
    | DoneStore                    // init() returned
    | DoneWake
    | Wait(gen: nat, seen: nat)    // about to call futex_wait
    | Asleep
    | CancelStore                  // once_cancel
    | CancelWake

  datatype Frame = Frame(c: nat, pc: Pc)
  datatype Thread = Thread(frames: seq<Frame>, cancelled: bool)
  datatype Pos = Pos(t: nat, i: nat)

  /** The shared words, and history: the activation that raised each IN PROGRESS word of this
      process, the one that is publishing the generation, how often init has completed since the
      last fork that did not find DONE, the generation at the last fork, and the ancestry. */
  datatype Globals = Globals(
    pid: int, oncePid: int, generation: nat, control: seq<nat>,
    owner: seq<Maybe<Pos>>, publisher: Maybe<Pos>, completed: seq<nat>,
    base: nat, ancestors: set<int>, forks: nat)

  datatype State = State(g: Globals, threads: map<nat, Thread>)

  function At(s: State, p: Pos): Frame
    requires p.t in s.threads && p.i < |s.threads[p.t].frames|
  {
    s.threads[p.t].frames[p.i]
  }

  predicate Live(s: State, p: Pos) {
    p.t in s.threads && p.i < |s.threads[p.t].frames|
  }

  /** The running activation of a thread is its innermost one. */
  function Top(s: State, t: nat): Pos
    requires t in s.threads && s.threads[t].frames != []
  {
    Pos(t, |s.threads[t].frames| - 1)
  }

  predicate Running(s: State, t: nat, pc: Pc) {
    t in s.threads && s.threads[t].frames != [] && At(s, Top(s, t)).pc == pc
  }

  function SetPc(s: State, t: nat, pc: Pc): State
    requires t in s.threads && s.threads[t].frames != []
  {
    var fs := s.threads[t].frames;
    s.(threads := s.threads[t := s.threads[t].(frames := fs[|fs| - 1 := fs[|fs| - 1].(pc := pc)])])
  }

  /** pthread_once returns 0: the activation ends. */
  function Pop(s: State, t: nat): State
    requires t in s.threads && s.threads[t].frames != []
  {
    var fs := s.threads[t].frames;
    s.(threads := s.threads[t := s.threads[t].(frames := fs[..|fs| - 1])])
  }

  /** futex_wake of everybody who sleeps on the control. */
  function Wake(f: Frame, c: nat): Frame {
    if f.c == c && f.pc == Asleep then f.(pc := PidLoad) else f
  }

  function WakeAll(s: State, c: nat): State {
    s.(threads := map t | t in s.threads ::
         s.threads[t].(frames := seq(|s.threads[t].frames|, i requires 0 <= i < |s.threads[t].frames| =>
                                       Wake(s.threads[t].frames[i], c))))
  }

  // ---------------------------------------------------------------- the steps

  /** The next access of thread t, as a function of the state: everything but the choices of the
      environment (call, return and cancellation of init, fork, spurious wake-up). */
  function Advance(s: State, t: nat): State
    requires t in s.threads && s.threads[t].frames != []
    requires At(s, Top(s, t)).c < |s.g.control| == |s.g.owner| == |s.g.completed|
  {
    var g := s.g;
    var p := Top(s, t);
    var c := At(s, p).c;
    match At(s, p).pc
    case First =>
      if Bits(g.control[c]) == DONE then Pop(s, t) else SetPc(s, t, PidLoad)
    case PidLoad =>
      if g.oncePid == g.pid then SetPc(s, t, GenLoad)
      else if g.oncePid == -g.pid then s
      else SetPc(s, t, PidCas(g.oncePid))
    case PidCas(pid) =>
      if g.oncePid == pid
      then SetPc(s.(g := g.(oncePid := -g.pid, publisher := Just(p))), t, GenAdd)
      else SetPc(s, t, PidLoad)
    case GenAdd =>
      var n := (g.generation + 4) % WORD;
      SetPc(s.(g := g.(generation := n)), t, PidStore(GenOf(n)))
    case PidStore(gen) =>
      SetPc(s.(g := g.(oncePid := g.pid, publisher := Nothing)), t, CtlLoad(gen))
    case GenLoad =>
      SetPc(s, t, CtlLoad(g.generation))
    case CtlLoad(gen) =>
      var w := g.control[c];
      if Bits(w) == DONE then Pop(s, t)
      else if !InProgress(w) || GenOf(w) != gen then SetPc(s, t, CtlCas(gen, w))
      else SetPc(s, t, Wait(gen, w))
    case CtlCas(gen, seen) =>
      if g.control[c] == seen
      then SetPc(s.(g := g.(control := g.control[c := gen + 1], owner := g.owner[c := Just(p)])), t, InInit)
      else SetPc(s, t, PidLoad)
    case DoneStore =>
      SetPc(s.(g := g.(control := g.control[c := DONE], owner := g.owner[c := Nothing])), t, DoneWake)
    case DoneWake =>
      Pop(WakeAll(s, c), t)
    case Wait(gen, seen) =>
      if g.control[c] == seen then SetPc(s, t, Asleep) else SetPc(s, t, PidLoad)
    case CancelStore =>
      SetPc(s.(g := g.(control := g.control[c := 0], owner := g.owner[c := Nothing])), t, CancelWake)
    case CancelWake =>
      var u := Pop(WakeAll(s, c), t);
      if u.threads[t].frames == [] then u.(threads := u.threads - {t}) else SetPc(u, t, CancelStore)
    case InInit => s
    case Asleep => s
  }

  /** A thread with no activation, or inside init, calls pthread_once on control c. */
  ghost predicate Call(s: State, s': State, t: nat, c: nat) {
    && t in s.threads && c < |s.g.control|
    && (s.threads[t].frames == [] || Running(s, t, InInit)) && !s.threads[t].cancelled
    && s' == s.(threads := s.threads[t := s.threads[t].(frames := s.threads[t].frames + [Frame(c, First)])])
  }

  /** init() returns. */
  ghost predicate InitReturns(s: State, s': State, t: nat) {
    && Running(s, t, InInit) && !s.threads[t].cancelled
    && var c := At(s, Top(s, t)).c;
    && c < |s.g.completed|
    && s' == SetPc(s.(g := s.g.(completed := s.g.completed[c := s.g.completed[c] + 1])), t, DoneStore)
  }

  /** The thread is cancelled inside init(): the cleanup handlers run, innermost first. */
  ghost predicate Cancel(s: State, s': State, t: nat) {
    && Running(s, t, InInit) && !s.threads[t].cancelled
    && s' == SetPc(s.(threads := s.threads[t := s.threads[t].(cancelled := true)]), t, CancelStore)
  }

  ghost predicate Spurious(s: State, s': State, t: nat) {
    Running(s, t, Asleep) && s' == SetPc(s, t, PidLoad)
  }

  ghost predicate Spawn(s: State, s': State, t: nat) {
    t !in s.threads && s' == s.(threads := s.threads[t := Thread([], false)])
  }

  /** The child has a copy of the memory and only the forking thread, which is not inside an init
      routine; its pid differs from those of all its ancestors. */
  ghost predicate Fork(s: State, s': State, t: nat, pid: int) {
    && t in s.threads && s.threads[t].frames == []
    && pid > 0 && pid !in s.g.ancestors
    && s'.threads == map[t := s.threads[t]]
    && s'.g == s.g.(pid := pid, ancestors := s.g.ancestors + {pid}, forks := s.g.forks + 1,
                    owner := seq(|s.g.owner|, _ => Nothing), publisher := Nothing, base := s.g.generation,
                    completed := seq(|s.g.completed|, i requires 0 <= i < |s.g.completed| =>
                                       if i < |s.g.control| && s.g.control[i] == DONE then s.g.completed[i] else 0))
  }

  /** Thread t does its next access. */
  ghost predicate Acts(s: State, s': State, t: nat) {
    t in s.threads && s.threads[t].frames != [] && InRange(s, t) && s' == Advance(s, t)
  }

  /** Something happens to thread t that its code does not decide. */
  ghost predicate Happens(s: State, s': State, t: nat) {
    || (exists c: nat :: Call(s, s', t, c))
    || InitReturns(s, s', t) || Cancel(s, s', t) || Spurious(s, s', t) || Spawn(s, s', t)
    || (exists pid :: Fork(s, s', t, pid))
  }

  ghost predicate Next(s: State, s': State) {
    exists t: nat :: Acts(s, s', t) || Happens(s, s', t)
  }

  predicate InRange(s: State, t: nat)
    requires t in s.threads && s.threads[t].frames != []
  {
    At(s, Top(s, t)).c < |s.g.control| == |s.g.owner| == |s.g.completed|
  }

  /** n controls, all PTHREAD_ONCE_INIT, in a process that has never used pthread_once. */
  ghost predicate Init(s: State, n: nat) {
    && s.g.pid > 0 && s.g.oncePid == 0 && s.g.generation == 0 && s.g.forks == 0
    && s.g.ancestors == {s.g.pid} && s.g.publisher == Nothing && s.g.base == 0
    && s.g.control == seq(n, _ => 0) && s.g.owner == seq(n, _ => Nothing) && s.g.completed == seq(n, _ => 0)
    && forall t | t in s.threads :: s.threads[t] == Thread([], false)
  }

  // ---------------------------------------------------------------- the invariant

  predicate Published(g: Globals) { g.oncePid == g.pid }

  predicate OwnerPc(pc: Pc) { pc == InInit || pc == DoneStore || pc == CancelStore }

  predicate WakerPc(pc: Pc) { pc == DoneWake || pc == CancelWake }

  /** What an activation knows about the shared words. */
  ghost predicate FrameOk(g: Globals, p: Pos, f: Frame) {
    && f.c < |g.control| == |g.owner| == |g.completed|
    && match f.pc
       case PidCas(pid) => pid != g.pid && pid != -g.pid
       case GenAdd => g.publisher == Just(p) && g.generation == g.base
       case PidStore(gen) => g.publisher == Just(p) && g.generation == gen == g.base + 4
       case GenLoad => Published(g)
       case CtlLoad(gen) => Published(g) && gen == g.generation
       case CtlCas(gen, seen) => Published(g) && gen == g.generation && seen != gen + 1 && Bits(seen) != DONE
       case Wait(gen, seen) => Published(g) && gen == g.generation && seen == gen + 1
       case InInit => g.owner[f.c] == Just(p)
       case DoneStore => g.owner[f.c] == Just(p) && g.completed[f.c] == 1
       case CancelStore => g.owner[f.c] == Just(p)
       case DoneWake => g.control[f.c] == DONE
       case _ => true
  }

  /** A control word: done, raised by a live activation of this process, or idle, or left in
      progress by a thread of an ancestor. */
  ghost predicate WordOk(g: Globals, c: nat)
    requires c < |g.control| == |g.owner| == |g.completed|
  {
    var w := g.control[c];
    if g.owner[c].Just? then Published(g) && w == g.generation + 1 && g.completed[c] <= 1
    else if w == DONE then g.completed[c] == 1
    else g.completed[c] == 0 && (w == 0 || (w % 4 == 1 && w - 1 <= g.base))
  }

  ghost predicate GlobalsOk(g: Globals) {
    && |g.control| == |g.owner| == |g.completed|
    && g.pid in g.ancestors && (forall a | a in g.ancestors :: a > 0)
    && (g.oncePid == 0 || g.oncePid in g.ancestors || -g.oncePid in g.ancestors)
    && (g.publisher.Just? <==> g.oncePid == -g.pid)
    && g.base % 4 == 0 && g.generation % 4 == 0 && g.base <= 4 * g.forks
    && g.generation == (if Published(g) then g.base + 4 else if g.publisher.Just? then g.generation else g.base)
    && (g.generation == g.base || g.generation == g.base + 4)
    && forall c: nat | c < |g.control| :: WordOk(g, c)
  }

  ghost predicate OwnerOk(s: State, c: nat, p: Pos) {
    Live(s, p) && At(s, p).c == c && OwnerPc(At(s, p).pc) &&
    (c < |s.g.completed| && s.g.completed[c] == 1 ==> At(s, p).pc == DoneStore)
  }

  ghost predicate PublisherOk(s: State, p: Pos) {
    Live(s, p) && (At(s, p).pc == GenAdd || At(s, p).pc == PidStore(s.g.generation))
  }

  ghost predicate Waker(s: State, c: nat, p: Pos) {
    Live(s, p) && At(s, p).c == c && WakerPc(At(s, p).pc)
  }

  /** Someone will wake the sleepers on c: the owner of its word, or a wake that is due. */
  ghost predicate Attended(s: State, c: nat) {
    (c < |s.g.owner| && s.g.owner[c].Just?) || exists p :: Waker(s, c, p)
  }

  ghost predicate OwnersOk(s: State) {
    forall c | 0 <= c < |s.g.owner| && s.g.owner[c].Just? :: OwnerOk(s, c, s.g.owner[c].value)
  }

  ghost predicate Inv(s: State) {
    && GlobalsOk(s.g)
    && (forall p | Live(s, p) :: FrameOk(s.g, p, At(s, p)))
    && (forall p | Live(s, p) :: p.i == |s.threads[p.t].frames| - 1 || At(s, p).pc == InInit)
    && OwnersOk(s)
    && (s.g.publisher.Just? ==> PublisherOk(s, s.g.publisher.value))
    && (forall p | Live(s, p) && At(s, p).pc == Asleep :: Attended(s, At(s, p).c))
  }

  lemma InitInv(s: State, n: nat)
    requires Init(s, n)
    ensures Inv(s)
  {
  }

  // ---------------------------------------------------------------- preservation

  lemma SetPcAt(s: State, t: nat, pc: Pc)
    requires t in s.threads && s.threads[t].frames != []
    ensures var s' := SetPc(s, t, pc);
            forall q :: (Live(s', q) <==> Live(s, q)) &&
                        (Live(s, q) ==> At(s', q) == if q == Top(s, t) then At(s, q).(pc := pc) else At(s, q))
  {
  }

  lemma PopAt(s: State, t: nat)
    requires t in s.threads && s.threads[t].frames != []
    ensures var s' := Pop(s, t);
            forall q :: (Live(s', q) <==> Live(s, q) && q != Top(s, t)) && (Live(s', q) ==> At(s', q) == At(s, q))
  {
  }

  lemma WakeAt(s: State, c: nat)
    ensures var s' := WakeAll(s, c);
            && s'.g == s.g && s'.threads.Keys == s.threads.Keys
            && (forall t | t in s.threads :: |s'.threads[t].frames| == |s.threads[t].frames|)
            && forall q :: (Live(s', q) <==> Live(s, q)) && (Live(s, q) ==> At(s', q) == Wake(At(s, q), c))
  {
  }

  /** Steps of an activation that change no shared word. */
  lemma LocalInv(s: State, t: nat, pc: Pc)
    requires Inv(s) && t in s.threads && s.threads[t].frames != []
    requires FrameOk(s.g, Top(s, t), At(s, Top(s, t)).(pc := pc))
    requires var was := At(s, Top(s, t)).pc; !OwnerPc(was) && !WakerPc(was) && !was.GenAdd? && !was.PidStore?
    requires pc == Asleep ==> Attended(s, At(s, Top(s, t)).c)
    requires !WakerPc(pc)
    ensures Inv(SetPc(s, t, pc))
  {
    SetPcAt(s, t, pc);
    var s' := SetPc(s, t, pc);
    forall p | Live(s', p) && At(s', p).pc == Asleep
      ensures Attended(s', At(s', p).c)
    {
      KeepAttended(s, s', At(s, p).c);
    }
  }

  lemma KeepAttended(s: State, s': State, c: nat)
    requires Attended(s, c) && s'.g.owner == s.g.owner
    requires forall q | Waker(s, c, q) :: Waker(s', c, q)
    ensures Attended(s', c)
  {
  }

  lemma PopInv(s: State, t: nat)
    requires Inv(s) && t in s.threads && s.threads[t].frames != []
    requires var pc := At(s, Top(s, t)).pc; !OwnerPc(pc) && !WakerPc(pc) && !pc.GenAdd? && !pc.PidStore?
    ensures Inv(Pop(s, t))
  {
    PopAt(s, t);
    var s' := Pop(s, t);
    forall p | Live(s', p) && At(s', p).pc == Asleep
      ensures Attended(s', At(s', p).c)
    {
      KeepAttended(s, s', At(s, p).c);
    }
  }

  /** The wake leaves nobody asleep on c. */
  lemma WakeAllInv(s: State, c: nat)
    requires Inv(s)
    ensures Inv(WakeAll(s, c))
    ensures forall p | Live(WakeAll(s, c), p) && At(WakeAll(s, c), p).c == c :: At(WakeAll(s, c), p).pc != Asleep
  {
    WakeAt(s, c);
    var s' := WakeAll(s, c);
    forall p | Live(s', p) && At(s', p).pc == Asleep
      ensures Attended(s', At(s', p).c)
    {
      KeepAttended(s, s', At(s, p).c);
    }
  }

  /** So its caller may go. */
  lemma WakerPopInv(s: State, t: nat)
    requires Inv(s) && t in s.threads && s.threads[t].frames != [] && WakerPc(At(s, Top(s, t)).pc)
    requires forall p | Live(s, p) && At(s, p).c == At(s, Top(s, t)).c :: At(s, p).pc != Asleep
    ensures Inv(Pop(s, t))
  {
    PopAt(s, t);
    var s' := Pop(s, t);
    forall p | Live(s', p) && At(s', p).pc == Asleep
      ensures Attended(s', At(s', p).c)
    {
      KeepAttended(s, s', At(s, p).c);
    }
  }

  lemma TopOk(s: State, t: nat)
    requires Inv(s) && t in s.threads && s.threads[t].frames != []
    ensures Live(s, Top(s, t)) && FrameOk(s.g, Top(s, t), At(s, Top(s, t)))
  {
  }

  /** What a step has to show that changes shared words and moves the activation at the top of t. */
  lemma StepInv(s: State, t: nat, g: Globals, pc: Pc)
    requires Inv(s) && t in s.threads && s.threads[t].frames != [] && pc != Asleep
    requires GlobalsOk(g) && FrameOk(g, Top(s, t), At(s, Top(s, t)).(pc := pc))
    requires forall q | Live(s, q) && q != Top(s, t) :: FrameOk(g, q, At(s, q))
    requires var s' := SetPc(s.(g := g), t, pc);
             && (forall c | 0 <= c < |g.owner| && g.owner[c].Just? :: OwnerOk(s', c, g.owner[c].value))
             && (g.publisher.Just? ==> PublisherOk(s', g.publisher.value))
             && (forall c: nat | Attended(s, c) :: Attended(s', c))
    ensures Inv(SetPc(s.(g := g), t, pc))
  {
    SetPcAt(s.(g := g), t, pc);
    var s' := SetPc(s.(g := g), t, pc);
    forall q | Live(s', q)
      ensures FrameOk(s'.g, q, At(s', q)) && (q.i == |s'.threads[q.t].frames| - 1 || At(s', q).pc == InInit)
      ensures At(s', q).pc == Asleep ==> Attended(s', At(s', q).c)
    {
      assert Live(s, q) && At(s', q) == if q == Top(s, t) then At(s, q).(pc := pc) else At(s, q);
    }
  }

  lemma PidCasGlobals(g: Globals, p: Pos)
    requires GlobalsOk(g) && g.oncePid != g.pid && g.oncePid != -g.pid
    ensures GlobalsOk(g.(oncePid := -g.pid, publisher := Just(p)))
  {
    var g' := g.(oncePid := -g.pid, publisher := Just(p));
    forall c: nat | c < |g.control|
      ensures WordOk(g', c)
    {
      assert WordOk(g, c);
    }
  }

  /** Steps that touch no owner and no completion, by an activation that is neither owner nor waker. */
  lemma QuietInv(s: State, t: nat, g: Globals, pc: Pc)
    requires Inv(s) && t in s.threads && s.threads[t].frames != [] && pc != Asleep
    requires GlobalsOk(g) && g.owner == s.g.owner && g.completed == s.g.completed
    requires !OwnerPc(At(s, Top(s, t)).pc) && !WakerPc(At(s, Top(s, t)).pc)
    requires FrameOk(g, Top(s, t), At(s, Top(s, t)).(pc := pc))
    requires forall q | Live(s, q) && q != Top(s, t) :: FrameOk(g, q, At(s, q))
    requires g.publisher.Just? ==> g.publisher.value == Top(s, t) && (pc == GenAdd || pc == PidStore(g.generation))
    ensures Inv(SetPc(s.(g := g), t, pc))
  {
    QuietOwners(s, t, g, pc);
    StepInv(s, t, g, pc);
  }

  lemma QuietOwners(s: State, t: nat, g: Globals, pc: Pc)
    requires OwnersOk(s) && t in s.threads && s.threads[t].frames != []
    requires g.owner == s.g.owner && g.completed == s.g.completed
    requires !OwnerPc(At(s, Top(s, t)).pc) && !WakerPc(At(s, Top(s, t)).pc)
    requires g.publisher.Just? ==> g.publisher.value == Top(s, t) && (pc == GenAdd || pc == PidStore(g.generation))
    ensures var s' := SetPc(s.(g := g), t, pc);
            && (forall c: nat | c < |g.owner| && g.owner[c].Just? :: OwnerOk(s', c, g.owner[c].value))
            && (g.publisher.Just? ==> PublisherOk(s', g.publisher.value))
            && (forall c: nat | Attended(s, c) :: Attended(s', c))
  {
    SetPcAt(s.(g := g), t, pc);
    var s' := SetPc(s.(g := g), t, pc);
    AttendedSame(s, s');
    OwnersSame(s, s');
  }

  lemma AttendedSame(s: State, s': State)
    requires s'.g.owner == s.g.owner
    requires forall q | Live(s, q) && WakerPc(At(s, q).pc) :: Live(s', q) && At(s', q) == At(s, q)
    ensures forall c: nat | Attended(s, c) :: Attended(s', c)
  {
    forall c: nat | Attended(s, c)
      ensures Attended(s', c)
    {
      KeepAttended(s, s', c);
    }
  }

  lemma OwnersSame(s: State, s': State)
    requires OwnersOk(s) && s'.g.owner == s.g.owner && s'.g.completed == s.g.completed
    requires forall q | Live(s, q) && OwnerPc(At(s, q).pc) :: Live(s', q) && At(s', q) == At(s, q)
    ensures forall c: nat | c < |s'.g.owner| && s'.g.owner[c].Just? :: OwnerOk(s', c, s'.g.owner[c].value)
  {
    forall c: nat | c < |s'.g.owner| && s'.g.owner[c].Just?
      ensures OwnerOk(s', c, s'.g.owner[c].value)
    {
      assert OwnerOk(s, c, s.g.owner[c].value);
    }
  }

  lemma PidCasFrame(g: Globals, p: Pos, q: Pos, f: Frame)
    requires FrameOk(g, q, f) && !Published(g) && g.publisher.Nothing?
    ensures FrameOk(g.(oncePid := -g.pid, publisher := Just(p)), q, f)
  {
  }

  /** The compare-exchange of once_pid succeeds. */
  lemma PidCasInv(s: State, t: nat)
    requires Inv(s) && t in s.threads && s.threads[t].frames != []
    requires At(s, Top(s, t)).pc == PidCas(s.g.oncePid)
    ensures Inv(SetPc(s.(g := s.g.(oncePid := -s.g.pid, publisher := Just(Top(s, t)))), t, GenAdd))
  {
    var g := s.g.(oncePid := -s.g.pid, publisher := Just(Top(s, t)));
    TopOk(s, t);
    PidCasGlobals(s.g, Top(s, t));
    forall q | Live(s, q) && q != Top(s, t)
      ensures FrameOk(g, q, At(s, q))
    {
      PidCasFrame(s.g, Top(s, t), q, At(s, q));
    }
    QuietInv(s, t, g, GenAdd);
  }

  lemma GenAddGlobals(g: Globals)
    requires GlobalsOk(g) && !Published(g) && g.publisher.Just? && g.generation == g.base
    ensures GlobalsOk(g.(generation := g.generation + 4))
  {
    var g' := g.(generation := g.generation + 4);
    assert g'.generation % 4 == 0;
    forall c: nat | c < |g.control|
      ensures WordOk(g', c)
    {
      assert WordOk(g, c);
    }
  }

  lemma GenAddFrame(g: Globals, q: Pos, f: Frame)
    requires FrameOk(g, q, f) && !Published(g) && g.publisher.Just? && g.publisher.value != q
    ensures FrameOk(g.(generation := g.generation + 4), q, f)
  {
  }

  lemma GenAddFrames(s: State, t: nat)
    requires Inv(s) && t in s.threads && s.threads[t].frames != [] && At(s, Top(s, t)).pc == GenAdd
    ensures s.g.publisher == Just(Top(s, t)) && !Published(s.g) && s.g.generation == s.g.base
    ensures var g := s.g.(generation := s.g.generation + 4);
            forall q | Live(s, q) && q != Top(s, t) :: FrameOk(g, q, At(s, q))
  {
    TopOk(s, t);
    forall q | Live(s, q) && q != Top(s, t)
      ensures FrameOk(s.g.(generation := s.g.generation + 4), q, At(s, q))
    {
      GenAddFrame(s.g, q, At(s, q));
    }
  }

  lemma GenAddInv(s: State, t: nat)
    requires Inv(s) && t in s.threads && s.threads[t].frames != [] && At(s, Top(s, t)).pc == GenAdd
    ensures Inv(SetPc(s.(g := s.g.(generation := s.g.generation + 4)), t, PidStore(s.g.generation + 4)))
  {
    var g := s.g.(generation := s.g.generation + 4);
    GenAddFrames(s, t);
    GenAddGlobals(s.g);
    QuietInv(s, t, g, PidStore(g.generation));
  }

  lemma PidStoreGlobals(g: Globals)
    requires GlobalsOk(g) && g.publisher.Just? && g.generation == g.base + 4
    ensures GlobalsOk(g.(oncePid := g.pid, publisher := Nothing))
  {
    var g' := g.(oncePid := g.pid, publisher := Nothing);
    forall c: nat | c < |g.control|
      ensures WordOk(g', c)
    {
      assert WordOk(g, c);
    }
  }

  lemma PidStoreFrame(g: Globals, q: Pos, f: Frame)
    requires FrameOk(g, q, f) && g.publisher.Just? && g.oncePid == -g.pid && g.pid > 0 && g.publisher.value != q
    ensures FrameOk(g.(oncePid := g.pid, publisher := Nothing), q, f)
  {
  }

  lemma PidStoreInv(s: State, t: nat)
    requires Inv(s) && t in s.threads && s.threads[t].frames != [] && At(s, Top(s, t)).pc.PidStore?
    ensures Inv(SetPc(s.(g := s.g.(oncePid := s.g.pid, publisher := Nothing)), t, CtlLoad(At(s, Top(s, t)).pc.gen)))
  {
    var g := s.g.(oncePid := s.g.pid, publisher := Nothing);
    TopOk(s, t);
    PidStoreGlobals(s.g);
    forall q | Live(s, q) && q != Top(s, t)
      ensures FrameOk(g, q, At(s, q))
    {
      PidStoreFrame(s.g, q, At(s, q));
    }
    QuietInv(s, t, g, CtlLoad(g.generation));
  }

  lemma CtlCasGlobals(g: Globals, c: nat, p: Pos)
    requires GlobalsOk(g) && Published(g) && c < |g.control|
    requires g.control[c] != g.generation + 1 && Bits(g.control[c]) != DONE
    ensures g.owner[c] == Nothing && g.completed[c] == 0
    ensures GlobalsOk(g.(control := g.control[c := g.generation + 1], owner := g.owner[c := Just(p)]))
  {
    var g' := g.(control := g.control[c := g.generation + 1], owner := g.owner[c := Just(p)]);
    assert WordOk(g, c);
    forall k: nat | k < |g.control|
      ensures WordOk(g', k)
    {
      assert WordOk(g, k);
    }
  }

  lemma CtlCasFrame(g: Globals, c: nat, p: Pos, q: Pos, f: Frame)
    requires FrameOk(g, q, f) && c < |g.control| && g.owner[c] == Nothing && Bits(g.control[c]) != DONE
    ensures FrameOk(g.(control := g.control[c := g.generation + 1], owner := g.owner[c := Just(p)]), q, f)
  {
  }

  lemma StoreFrame(g: Globals, c: nat, w: nat, p: Pos, q: Pos, f: Frame)
    requires FrameOk(g, q, f) && c < |g.control| && g.owner[c] == Just(p) && p != q && g.control[c] != DONE
    ensures FrameOk(g.(control := g.control[c := w], owner := g.owner[c := Nothing]), q, f)
  {
  }

  /** The activation that moved is at control c: the owners of the others have not. */
  lemma OwnersOthers(s: State, s': State, c: nat)
    requires OwnersOk(s) && |s'.g.owner| == |s.g.owner| && s'.g.completed == s.g.completed
    requires forall k: nat | k < |s.g.owner| && k != c :: s'.g.owner[k] == s.g.owner[k]
    requires forall q | Live(s, q) && At(s, q).c != c :: Live(s', q) && At(s', q) == At(s, q)
    ensures forall k: nat | k < |s'.g.owner| && k != c && s'.g.owner[k].Just? :: OwnerOk(s', k, s'.g.owner[k].value)
  {
    forall k: nat | k < |s'.g.owner| && k != c && s'.g.owner[k].Just?
      ensures OwnerOk(s', k, s'.g.owner[k].value)
    {
      assert OwnerOk(s, k, s.g.owner[k].value);
    }
  }

  /** The compare-exchange of the control succeeds: nobody owned the word. */
  lemma CtlCasInv(s: State, t: nat, c: nat)
    requires Inv(s) && t in s.threads && s.threads[t].frames != [] && At(s, Top(s, t)).c == c < |s.g.control|
    requires At(s, Top(s, t)).pc.CtlCas? && At(s, Top(s, t)).pc.seen == s.g.control[c]
    ensures var g := s.g.(control := s.g.control[c := At(s, Top(s, t)).pc.gen + 1],
                          owner := s.g.owner[c := Just(Top(s, t))]);
            Inv(SetPc(s.(g := g), t, InInit))
  {
    hide SetPc, OwnerOk, PublisherOk, Attended, WordOk;
    var g := s.g.(control := s.g.control[c := At(s, Top(s, t)).pc.gen + 1], owner := s.g.owner[c := Just(Top(s, t))]);
    TopOk(s, t);
    CtlCasGlobals(s.g, c, Top(s, t));
    OwnerMoves(s, t, c, g, InInit);
    forall q | Live(s, q) && q != Top(s, t)
      ensures FrameOk(g, q, At(s, q))
    {
      CtlCasFrame(s.g, c, Top(s, t), q, At(s, q));
    }
    StepInv(s, t, g, InInit);
  }

  /** One control has an owner or a waker now, and nothing has changed for the others. */
  lemma AttendedOthers(s: State, s': State, c: nat)
    requires |s.g.owner| == |s'.g.owner| && Attended(s', c)
    requires forall k: nat | k < |s.g.owner| && k != c :: s'.g.owner[k] == s.g.owner[k]
    requires forall q | Live(s, q) && WakerPc(At(s, q).pc) :: Live(s', q) && At(s', q) == At(s, q)
    ensures forall k: nat | Attended(s, k) :: Attended(s', k)
  {
    forall k: nat | Attended(s, k) && k != c
      ensures Attended(s', k)
    {
      if k >= |s.g.owner| || s.g.owner[k].Nothing? {
        var p :| Waker(s, k, p);
        assert Waker(s', k, p);
      }
    }
  }

  /** The activation at the top of t takes the word of control c, or leaves it with a wake to do. */
  lemma OwnerMoves(s: State, t: nat, c: nat, g: Globals, pc: Pc)
    requires OwnersOk(s) && (s.g.publisher.Just? ==> PublisherOk(s, s.g.publisher.value))
    requires t in s.threads && s.threads[t].frames != [] && At(s, Top(s, t)).c == c < |s.g.owner|
    requires var was := At(s, Top(s, t)).pc; !WakerPc(was) && !was.GenAdd? && !was.PidStore?
    requires |g.owner| == |s.g.owner| && forall k: nat | k < |s.g.owner| && k != c :: g.owner[k] == s.g.owner[k]
    requires g.completed == s.g.completed && g.publisher == s.g.publisher && g.generation == s.g.generation
    requires c < |g.completed|
    requires if WakerPc(pc) then g.owner[c] == Nothing
             else g.owner[c] == Just(Top(s, t)) && OwnerPc(pc) && g.completed[c] == 0
    ensures var s' := SetPc(s.(g := g), t, pc);
            && (forall k | 0 <= k < |g.owner| && g.owner[k].Just? :: OwnerOk(s', k, g.owner[k].value))
            && (g.publisher.Just? ==> PublisherOk(s', g.publisher.value))
            && (forall k: nat | Attended(s, k) :: Attended(s', k))
  {
    SetPcAt(s.(g := g), t, pc);
    var s' := SetPc(s.(g := g), t, pc);
    assert WakerPc(pc) ==> Waker(s', c, Top(s, t));
    AttendedOthers(s, s', c);
    OwnersOthers(s, s', c);
  }

  lemma StoreGlobals(s: State, t: nat, c: nat, w: nat)
    requires Inv(s) && t in s.threads && s.threads[t].frames != [] && At(s, Top(s, t)).c == c < |s.g.control|
    requires At(s, Top(s, t)).pc == if w == DONE then DoneStore else CancelStore
    requires w == 0 || w == DONE
    ensures GlobalsOk(s.g.(control := s.g.control[c := w], owner := s.g.owner[c := Nothing]))
    ensures s.g.owner[c] == Just(Top(s, t)) && s.g.control[c] != DONE
  {
    var g := s.g.(control := s.g.control[c := w], owner := s.g.owner[c := Nothing]);
    TopOk(s, t);
    assert OwnerOk(s, c, Top(s, t)) && WordOk(s.g, c) && s.g.control[c] % 4 == 1;
    forall c: nat | c < |g.control|
      ensures WordOk(g, c)
    {
      assert WordOk(s.g, c);
    }
  }

  /** The owner gives its word up, for good or for the next caller; its wake is due. */
  lemma StoreInv(s: State, t: nat, c: nat, w: nat)
    requires Inv(s) && t in s.threads && s.threads[t].frames != [] && At(s, Top(s, t)).c == c < |s.g.control|
    requires At(s, Top(s, t)).pc == if w == DONE then DoneStore else CancelStore
    requires w == 0 || w == DONE
    ensures var g := s.g.(control := s.g.control[c := w], owner := s.g.owner[c := Nothing]);
            Inv(SetPc(s.(g := g), t, if w == DONE then DoneWake else CancelWake))
  {
    hide SetPc, PublisherOk, Attended, GlobalsOk, WordOk, OwnerOk;
    var pc := if w == DONE then DoneWake else CancelWake;
    var g := s.g.(control := s.g.control[c := w], owner := s.g.owner[c := Nothing]);
    TopOk(s, t);
    StoreGlobals(s, t, c, w);
    OwnerMoves(s, t, c, g, pc);
    forall q | Live(s, q) && q != Top(s, t)
      ensures FrameOk(g, q, At(s, q))
    {
      StoreFrame(s.g, c, w, Top(s, t), q, At(s, q));
    }
    StepInv(s, t, g, pc);
  }

  lemma InitReturnsInv(s: State, t: nat, c: nat)
    requires Inv(s) && Running(s, t, InInit) && At(s, Top(s, t)).c == c < |s.g.completed|
    ensures Inv(SetPc(s.(g := s.g.(completed := s.g.completed[c := s.g.completed[c] + 1])), t, DoneStore))
  {
    var g := s.g.(completed := s.g.completed[c := s.g.completed[c] + 1]);
    assert OwnerOk(s, c, Top(s, t)) && WordOk(s.g, c);
    SetPcAt(s.(g := g), t, DoneStore);
    TopOk(s, t);
    forall c: nat | c < |g.control|
      ensures WordOk(g, c)
    {
      assert WordOk(s.g, c);
    }
    AttendedSame(s, SetPc(s.(g := g), t, DoneStore));
    forall q | Live(s, q) && q != Top(s, t)
      ensures FrameOk(g, q, At(s, q))
    {
      assert FrameOk(s.g, q, At(s, q));
    }
    StepInv(s, t, g, DoneStore);
  }

  lemma CallInv(s: State, s': State, t: nat, c: nat)
    requires Inv(s) && Call(s, s', t, c)
    ensures Inv(s')
  {
    var p := Pos(t, |s.threads[t].frames|);
    assert forall q :: (Live(s', q) <==> Live(s, q) || q == p) && (Live(s, q) ==> At(s', q) == At(s, q));
    AttendedSame(s, s');
    forall q | Live(s', q)
      ensures FrameOk(s'.g, q, At(s', q)) && (q.i == |s'.threads[q.t].frames| - 1 || At(s', q).pc == InInit)
      ensures At(s', q).pc == Asleep ==> Attended(s', At(s', q).c)
    {
      assert q == p || Live(s, q);
    }
  }

  /** The same activations under another bookkeeping of the threads. */
  lemma SameInv(s: State, s': State)
    requires Inv(s) && s'.g == s.g
    requires forall q :: (Live(s', q) <==> Live(s, q)) && (Live(s, q) ==> At(s', q) == At(s, q))
    requires forall t | t in s'.threads && s'.threads[t].frames != [] ::
               t in s.threads && |s.threads[t].frames| == |s'.threads[t].frames|
    ensures Inv(s')
  {
    AttendedSame(s, s');
    forall p | Live(s', p)
      ensures FrameOk(s'.g, p, At(s', p)) && (p.i == |s'.threads[p.t].frames| - 1 || At(s', p).pc == InInit)
      ensures At(s', p).pc == Asleep ==> Attended(s', At(s', p).c)
    {
      assert Live(s, p);
    }
  }

  /** The handler of an activation inside init() takes over. */
  lemma HandlerInv(s: State, t: nat)
    requires Inv(s) && Running(s, t, InInit)
    ensures Inv(SetPc(s, t, CancelStore))
  {
    TopOk(s, t);
    SetPcAt(s, t, CancelStore);
    var s' := SetPc(s, t, CancelStore);
    assert s.(g := s.g) == s;
    forall c: nat | c < |s.g.owner| && s.g.owner[c].Just?
      ensures OwnerOk(s', c, s.g.owner[c].value)
    {
      assert OwnerOk(s, c, s.g.owner[c].value);
    }
    AttendedSame(s, s');
    StepInv(s, t, s.g, CancelStore);
  }

  lemma CancelInv(s: State, s': State, t: nat)
    requires Inv(s) && Cancel(s, s', t)
    ensures Inv(s')
  {
    var u := s.(threads := s.threads[t := s.threads[t].(cancelled := true)]);
    SameInv(s, u);
    HandlerInv(u, t);
  }

  lemma SpawnInv(s: State, s': State, t: nat)
    requires Inv(s) && Spawn(s, s', t)
    ensures Inv(s')
  {
    assert forall q :: (Live(s', q) <==> Live(s, q)) && (Live(s, q) ==> At(s', q) == At(s, q));
    AttendedSame(s, s');
  }

  /** The child: every word in progress is stale, since the generation of the child will be larger. */
  lemma ForkInv(s: State, s': State, t: nat, pid: int)
    requires Inv(s) && Fork(s, s', t, pid)
    ensures Inv(s')
  {
    assert forall q :: !Live(s', q);
    forall c: nat | c < |s'.g.control|
      ensures WordOk(s'.g, c)
    {
      assert WordOk(s.g, c);
    }
  }

  /** A cancelled thread leaves its innermost activation; the next handler runs, if any. */
  lemma UnwindInv(s: State, t: nat)
    requires Inv(s) && t in s.threads && s.threads[t].frames != [] && At(s, Top(s, t)).pc == CancelWake
    requires InRange(s, t)
    ensures Inv(Advance(s, t))
  {
    var c := At(s, Top(s, t)).c;
    WakeAllInv(s, c);
    WakeAt(s, c);
    WakerPopInv(WakeAll(s, c), t);
    var u := Pop(WakeAll(s, c), t);
    if u.threads[t].frames == [] {
      SameInv(u, u.(threads := u.threads - {t}));
    } else {
      PopAt(WakeAll(s, c), t);
      assert Live(s, Top(u, t)) && At(s, Top(u, t)).pc == InInit;
      HandlerInv(u, t);
    }
  }

  /** What a load of a control word tells an activation that knows the generation. */
  lemma WordFacts(g: Globals, c: nat)
    requires GlobalsOk(g) && c < |g.control| && Published(g)
    ensures var w := g.control[c];
            && ((InProgress(w) && GenOf(w) == g.generation) <==> w == g.generation + 1)
            && (w == g.generation + 1 ==> g.owner[c].Just? && Bits(w) != DONE)
  {
    assert WordOk(g, c);
    WordArithmetic(g.control[c], g.generation);
  }

  lemma WordArithmetic(w: nat, gen: nat)
    requires gen % 4 == 0 && (w % 4 == 1 || w == 0 || w == 2)
    ensures (InProgress(w) && GenOf(w) == gen) <==> w == gen + 1
    ensures w == gen + 1 ==> w % 4 == 1
  {
    if w % 4 == 1 {
      assert w == 4 * (w / 4) + 1;
    }
  }

  lemma GenAddStep(s: State, t: nat)
    requires Inv(s) && Running(s, t, GenAdd) && InRange(s, t) && s.g.forks < WORD / 4 - 1
    ensures Inv(Advance(s, t))
  {
    TopOk(s, t);
    GenAddInv(s, t);
    GenAddIs(s, t);
  }

  lemma GenAddIs(s: State, t: nat)
    requires Running(s, t, GenAdd) && InRange(s, t) && s.g.forks < WORD / 4 - 1
    requires s.g.generation % 4 == 0 && s.g.generation <= 4 * s.g.forks
    ensures Advance(s, t) == SetPc(s.(g := s.g.(generation := s.g.generation + 4)), t, PidStore(s.g.generation + 4))
  {
    NextGeneration(s.g.generation, s.g.forks);
  }

  lemma NextGeneration(gen: nat, forks: nat)
    requires gen % 4 == 0 && gen <= 4 * forks && forks < WORD / 4 - 1
    ensures (gen + 4) % WORD == gen + 4 && GenOf(gen + 4) == gen + 4
  {
  }

  lemma PidLoadStep(s: State, t: nat)
    requires Inv(s) && Running(s, t, PidLoad) && InRange(s, t)
    ensures Inv(Advance(s, t))
  {
    TopOk(s, t);
    if s.g.oncePid == s.g.pid {
      LocalInv(s, t, GenLoad);
    } else if s.g.oncePid != -s.g.pid {
      LocalInv(s, t, PidCas(s.g.oncePid));
    }
  }

  lemma PidCasStep(s: State, t: nat, pid: int)
    requires Inv(s) && Running(s, t, PidCas(pid)) && InRange(s, t)
    ensures Inv(Advance(s, t))
  {
    PidCasIs(s, t, pid);
    if s.g.oncePid == pid {
      PidCasInv(s, t);
    } else {
      LocalInv(s, t, PidLoad);
    }
  }

  lemma PidCasIs(s: State, t: nat, pid: int)
    requires Running(s, t, PidCas(pid)) && InRange(s, t)
    ensures Advance(s, t) ==
            if s.g.oncePid == pid
            then SetPc(s.(g := s.g.(oncePid := -s.g.pid, publisher := Just(Top(s, t)))), t, GenAdd)
            else SetPc(s, t, PidLoad)
  {
  }

  lemma CtlLoadStep(s: State, t: nat, gen: nat)
    requires Inv(s) && Running(s, t, CtlLoad(gen)) && InRange(s, t)
    ensures Inv(Advance(s, t))
  {
    TopOk(s, t);
    var c := At(s, Top(s, t)).c;
    var w := s.g.control[c];
    WordFacts(s.g, c);
    if Bits(w) == DONE {
      PopInv(s, t);
    } else if !InProgress(w) || GenOf(w) != gen {
      LocalInv(s, t, CtlCas(gen, w));
    } else {
      LocalInv(s, t, Wait(gen, w));
    }
  }

  lemma WaitStep(s: State, t: nat, gen: nat, seen: nat)
    requires Inv(s) && Running(s, t, Wait(gen, seen)) && InRange(s, t)
    ensures Inv(Advance(s, t))
  {
    TopOk(s, t);
    var c := At(s, Top(s, t)).c;
    WordFacts(s.g, c);
    if s.g.control[c] == seen {
      LocalInv(s, t, Asleep);
    } else {
      LocalInv(s, t, PidLoad);
    }
  }

  lemma AdvanceGenerationInv(s: State, t: nat)
    requires Inv(s) && t in s.threads && s.threads[t].frames != [] && InRange(s, t)
    requires s.g.forks < WORD / 4 - 1
    requires var pc := At(s, Top(s, t)).pc; pc.PidLoad? || pc.PidCas? || pc.GenAdd? || pc.PidStore? || pc.GenLoad?
    ensures Inv(Advance(s, t))
  {
    TopOk(s, t);
    match At(s, Top(s, t)).pc
    case PidLoad => PidLoadStep(s, t);
    case PidCas(pid) => PidCasStep(s, t, pid);
    case GenAdd => GenAddStep(s, t);
    case PidStore(gen) => PidStoreInv(s, t);
    case GenLoad => LocalInv(s, t, CtlLoad(s.g.generation));
  }

  lemma AdvanceStoreInv(s: State, t: nat)
    requires Inv(s) && t in s.threads && s.threads[t].frames != [] && InRange(s, t)
    requires var pc := At(s, Top(s, t)).pc; pc.CtlCas? || pc == DoneStore || pc == CancelStore
    ensures Inv(Advance(s, t))
  {
    TopOk(s, t);
    var c := At(s, Top(s, t)).c;
    match At(s, Top(s, t)).pc
    case CtlCas(gen, seen) =>
      if s.g.control[c] == seen {
        CtlCasInv(s, t, c);
      } else {
        LocalInv(s, t, PidLoad);
      }
    case DoneStore => StoreInv(s, t, c, DONE);
    case CancelStore => StoreInv(s, t, c, 0);
  }

  lemma AdvanceWakeInv(s: State, t: nat)
    requires Inv(s) && t in s.threads && s.threads[t].frames != [] && InRange(s, t)
    requires WakerPc(At(s, Top(s, t)).pc)
    ensures Inv(Advance(s, t))
  {
    if At(s, Top(s, t)).pc == CancelWake {
      UnwindInv(s, t);
    } else {
      var c := At(s, Top(s, t)).c;
      WakeAllInv(s, c);
      WakeAt(s, c);
      WakerPopInv(WakeAll(s, c), t);
    }
  }

  lemma AdvanceInv(s: State, t: nat)
    requires Inv(s) && t in s.threads && s.threads[t].frames != [] && InRange(s, t)
    requires s.g.forks < WORD / 4 - 1
    ensures Inv(Advance(s, t))
  {
    var c := At(s, Top(s, t)).c;
    match At(s, Top(s, t)).pc
    case InInit =>
    case Asleep =>
    case First =>
      if Bits(s.g.control[c]) == DONE {
        PopInv(s, t);
      } else {
        LocalInv(s, t, PidLoad);
      }
    case CtlLoad(gen) => CtlLoadStep(s, t, gen);
    case Wait(gen, seen) => WaitStep(s, t, gen, seen);
    case CtlCas(_, _) => AdvanceStoreInv(s, t);
    case DoneStore => AdvanceStoreInv(s, t);
    case DoneWake => AdvanceWakeInv(s, t);
    case CancelStore => AdvanceStoreInv(s, t);
    case CancelWake => AdvanceWakeInv(s, t);
    case _ => AdvanceGenerationInv(s, t);
  }

  lemma NextInv(s: State, s': State)
    requires Inv(s) && Next(s, s') && s.g.forks < WORD / 4 - 1
    ensures Inv(s')
  {
    var t: nat :| Acts(s, s', t) || Happens(s, s', t);
    if Acts(s, s', t) {
      AdvanceInv(s, t);
    } else {
      HappensInv(s, s', t);
    }
  }

  lemma HappensInv(s: State, s': State, t: nat)
    requires Inv(s) && Happens(s, s', t)
    ensures Inv(s')
  {
    if c: nat :| Call(s, s', t, c) {
      CallInv(s, s', t, c);
    } else if InitReturns(s, s', t) {
      InitReturnsInv(s, t, At(s, Top(s, t)).c);
    } else if Cancel(s, s', t) {
      CancelInv(s, s', t);
    } else if Spurious(s, s', t) {
      LocalInv(s, t, PidLoad);
    } else if Spawn(s, s', t) {
      SpawnInv(s, s', t);
    } else {
      var pid :| Fork(s, s', t, pid);
      ForkInv(s, s', t, pid);
    }
  }

  // ---------------------------------------------------------------- whole runs

  /** A history of one process and its ancestors. */
  ghost predicate Run(r: seq<State>, n: nat) {
    |r| > 0 && Init(r[0], n) && forall i | 0 <= i < |r| - 1 :: Next(r[i], r[i + 1])
  }

  /** Fewer forks along the ancestry than there are generations. */
  predicate NotWrapped(s: State) {
    s.g.forks < WORD / 4 - 1
  }

  lemma ForksGrow(s: State, s': State)
    requires Next(s, s')
    ensures s.g.forks <= s'.g.forks
  {
    var t: nat :| Acts(s, s', t) || Happens(s, s', t);
  }

  lemma {:induction false} RunInv(r: seq<State>, n: nat)
    requires Run(r, n) && NotWrapped(r[|r| - 1])
    ensures Inv(r[|r| - 1])
  {
    if |r| == 1 {
      InitInv(r[0], n);
    } else {
      var s, s' := r[|r| - 2], r[|r| - 1];
      ForksGrow(s, s');
      RunInv(r[..|r| - 1], n);
      NextInv(s, s');
    }
  }

  ghost predicate Reachable(s: State) {
    exists r, n :: Run(r, n) && r[|r| - 1] == s && NotWrapped(s)
  }

  lemma ReachableInv(s: State)
    requires Reachable(s)
    ensures Inv(s)
  {
    var r, n :| Run(r, n) && r[|r| - 1] == s && NotWrapped(s);
    RunInv(r, n);
  }

  /** At most one activation of a process is inside init(), or between init() and the store that
      ends the attempt, for each control. */
  lemma MutualExclusion(s: State, p: Pos, q: Pos)
    requires Reachable(s) && Live(s, p) && Live(s, q) && At(s, p).c == At(s, q).c
    requires OwnerPc(At(s, p).pc) && OwnerPc(At(s, q).pc)
    ensures p == q
  {
    ReachableInv(s);
    assert FrameOk(s.g, p, At(s, p)) && FrameOk(s.g, q, At(s, q));
  }

  /** Thread t is about to return 0 from its innermost activation. */
  predicate ReturnsZero(s: State, t: nat) {
    t in s.threads && s.threads[t].frames != [] && InRange(s, t) &&
    var f := At(s, Top(s, t));
    ((f.pc == First || f.pc.CtlLoad?) && Bits(s.g.control[f.c]) == DONE) || f.pc == DoneWake
  }

  /** init() completes at most once in a process, and every return of 0 follows its completion. */
  lemma InitOnce(s: State, t: nat)
    requires Reachable(s)
    ensures forall c | 0 <= c < |s.g.completed| :: s.g.completed[c] <= 1
    ensures ReturnsZero(s, t) ==> var c := At(s, Top(s, t)).c; s.g.completed[c] == 1 && s.g.control[c] == DONE
  {
    ReachableInv(s);
    forall c: nat | c < |s.g.completed|
      ensures s.g.completed[c] <= 1
    {
      assert WordOk(s.g, c);
    }
    if ReturnsZero(s, t) {
      TopOk(s, t);
      assert WordOk(s.g, At(s, Top(s, t)).c);
    }
  }

  /** DONE is for ever, in the process and in its children. */
  lemma DoneStays(s: State, s': State, c: nat)
    requires Reachable(s) && Next(s, s') && c < |s.g.control| && s.g.control[c] == DONE
    ensures c < |s'.g.control| && s'.g.control[c] == DONE
  {
    ReachableInv(s);
    var t: nat :| Acts(s, s', t) || Happens(s, s', t);
    if Acts(s, s', t) {
      DoneStaysHere(s, t, c);
    }
  }

  lemma DoneStaysHere(s: State, t: nat, c: nat)
    requires Inv(s) && t in s.threads && s.threads[t].frames != [] && InRange(s, t)
    requires c < |s.g.control| && s.g.control[c] == DONE
    ensures var g := Advance(s, t).g; c < |g.control| && g.control[c] == DONE
  {
    TopOk(s, t);
    assert WordOk(s.g, c);
    assert s.g.control[c] != s.g.generation + 1;
  }

  /** No stranded waiter: while somebody sleeps on a control, or is about to find its word
      unchanged and go to sleep, an activation that exists in this very process is inside init()
      (or ending the attempt), or a wake of all sleepers is due.  So a forked child never waits
      for a thread of its parent. */
  lemma NoStrandedWaiter(s: State, p: Pos)
    requires Reachable(s) && Live(s, p)
    requires At(s, p).pc == Asleep
          || (At(s, p).pc.Wait? && At(s, p).c < |s.g.control| && s.g.control[At(s, p).c] == At(s, p).pc.seen)
    ensures exists q :: Live(s, q) && At(s, q).c == At(s, p).c && (OwnerPc(At(s, q).pc) || WakerPc(At(s, q).pc))
  {
    ReachableInv(s);
    var c := At(s, p).c;
    assert FrameOk(s.g, p, At(s, p));
    if At(s, p).pc.Wait? {
      WordFacts(s.g, c);
    }
    if c < |s.g.owner| && s.g.owner[c].Just? {
      assert OwnerOk(s, c, s.g.owner[c].value);
    } else {
      var q :| Waker(s, c, q);
    }
  }

  /** A thread spins on once_pid only while a live activation of its own process is about to publish it: a child forked
      while its parent was publishing does not wait for the thread left behind. */
  lemma SpinsForLivePublisher(s: State, t: nat)
    requires Reachable(s) && t in s.threads && s.threads[t].frames != [] && InRange(s, t)
    requires At(s, Top(s, t)).pc == PidLoad && Advance(s, t) == s
    ensures exists q :: Live(s, q) && (At(s, q).pc == GenAdd || At(s, q).pc.PidStore?)
  {
    ReachableInv(s);
    SetPcAt(s, t, GenLoad);
    SetPcAt(s, t, PidCas(s.g.oncePid));
    assert At(s, Top(s, t)).pc == PidLoad;
    assert PublisherOk(s, s.g.publisher.value);
  }

  /** A caller that finds a control not done goes to wait exactly when a live activation of its own process has raised
      the word; a word left in progress by an ancestor is taken over. */
  lemma WaitsForLiveOwner(s: State, t: nat, gen: nat)
    requires Reachable(s) && t in s.threads && s.threads[t].frames != [] && InRange(s, t)
    requires At(s, Top(s, t)).pc == CtlLoad(gen) && Bits(s.g.control[At(s, Top(s, t)).c]) != DONE
    ensures var c, w, s' := At(s, Top(s, t)).c, s.g.control[At(s, Top(s, t)).c], Advance(s, t);
            && s' == SetPc(s, t, if s.g.owner[c].Just? then Wait(gen, w) else CtlCas(gen, w))
            && (s.g.owner[c].Just? ==> OwnerOk(s, c, s.g.owner[c].value))
  {
    ReachableInv(s);
    TopOk(s, t);
    var c := At(s, Top(s, t)).c;
    assert WordOk(s.g, c);
    WordFacts(s.g, c);
    WordArithmetic(s.g.control[c], gen);
  }
}
