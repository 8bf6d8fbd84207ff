/**
 The two mutexes of the service, `clipMutex_` and `observerMutex_`, under any interleaving of any
 number of calls.

 Each call is a thread that moves through the steps of its handler: taking a lock, one access to a
 shared map, one observer callback, releasing a lock. A scheduler picks the thread to move; a thread
 that waits for a taken lock stays where it is. The machine keeps two logs for the proofs: `log` has
 one entry at the moment a call takes effect and one at the end of each notification round, `calls`
 has one entry for each observer callback.
 */
module LockProtocol {
  import opened Wrappers
  import opened PasteDataModel
  import opened ServiceModel

  datatype Op =
    | OpSet(user: int, data: Contents)
    | OpGet(user: int)
    | OpHas(user: int)
    | OpClear(user: int)
    | OpAdd(user: int, observer: Option<Observer>)
    | OpRemove(user: int, observer: Option<Observer>)
    | OpRemoveAll(user: int)
  {
    predicate OnClips()
    {
      OpSet? || OpGet? || OpHas? || OpClear?
    }

    /** The call reaches the maps: its user id resolved and its observer, if it takes one, is not null. */
    predicate Effective()
    {
      user != ERROR_USERID && ((OpAdd? || OpRemove?) ==> observer.Some?)
    }

    /** The call returns before it takes any lock. `OpAdd` looks at the user id under its lock only. */
    predicate ReturnsAtOnce()
    {
      !Effective() && !(OpAdd? && observer.Some?)
    }

    /** What a call returns that does not get through to the maps. */
    function Failure(): Result
    {
      if OpGet? then Data(None) else if OpHas? then Flag(false) else Unit
    }
  }

  datatype Result = Unit | Data(clip: Option<Contents>) | Flag(has: bool)

  datatype PC =
    | Start
    | WantClip                    // about to lock clipMutex_
    | HoldClip                    // holds it, has not looked at the clips yet
    | Erased                      // a set, between erase and insert
    | Updated                     // the clips changed; about to lock observerMutex_ for the round
    | Notifying(done: seq<Reg>)   // inside the round, holding both; `done` were called
    | LeaveClip                   // about to release clipMutex_
    | WantObs                     // about to lock observerMutex_
    | HoldObs                     // holds it, has not looked at the observers yet
    | SetReady                    // an add, between creating the user's set and inserting
    | LeaveObs                    // about to release observerMutex_
    | Finished

  datatype Thread = Thread(op: Op, pc: PC, result: Result)

  datatype Entry = Did(t: nat, op: Op, result: Result) | Round(t: nat, round: seq<Reg>)

  datatype Callback = Callback(t: nat, reg: Reg)

  datatype Machine = Machine(
    threads: seq<Thread>,
    clipLock: Option<nat>,
    obsLock: Option<nat>,
    clips: Clips,
    regs: Registry,
    log: seq<Entry>,
    calls: seq<Callback>)

  function Initial(ops: seq<Op>): Machine
  {
    Machine(seq(|ops|, i requires 0 <= i < |ops| => Thread(ops[i], Start, ops[i].Failure())),
            None, None, map[], map[], [], [])
  }

  // The steps.

  function Moved(m: Machine, t: nat, pc: PC): Machine
    requires t < |m.threads|
  {
    m.(threads := m.threads[t := m.threads[t].(pc := pc)])
  }

  /** Moves the thread, records its result and logs that its call took effect. */
  function TookEffect(m: Machine, t: nat, pc: PC, result: Result): Machine
    requires t < |m.threads|
  {
    var op := m.threads[t].op;
    m.(threads := m.threads[t := Thread(op, pc, result)], log := m.log + [Did(t, op, result)])
  }

  /** What the iteration of a round still has ahead of it, in the maps as they are now. */
  ghost function Ahead(regs: Registry, done: seq<Reg>): set<Reg>
  {
    set p | p in RegSet(regs) && (done == [] || Before(done[|done| - 1], p))
  }

  predicate Enabled(m: Machine, t: nat)
  {
    t < |m.threads|
    && var pc := m.threads[t].pc;
       pc != Finished
       && (pc == WantClip ==> m.clipLock.None?)
       && (pc == Updated || pc == WantObs ==> m.obsLock.None?)
  }

  ghost function NotifyStep(m: Machine, t: nat): Machine
    requires t < |m.threads| && m.threads[t].pc.Notifying?
  {
    var done := m.threads[t].pc.done;
    if Ahead(m.regs, done) == {} then
      Moved(m, t, LeaveClip).(obsLock := None, log := m.log + [Round(t, done)])
    else
      LeastRegExists(Ahead(m.regs, done));
      var p :| IsLeast(Ahead(m.regs, done), p);
      Moved(m, t, Notifying(done + [p])).(calls := m.calls + [Callback(t, p)])
  }

  function ClipStep(m: Machine, t: nat): Machine
    requires t < |m.threads| && m.threads[t].op.OnClips()
  {
    var op := m.threads[t].op;
    match op
    case OpSet(user, _) => Moved(m, t, Erased).(clips := m.clips - {user})
    case OpGet(user) =>
      TookEffect(m, t, LeaveClip, Data(if user in m.clips then Some(m.clips[user]) else None))
    case OpHas(user) => TookEffect(m, t, LeaveClip, Flag(user in m.clips))
    case OpClear(user) =>
      if user in m.clips then TookEffect(m, t, Updated, Unit).(clips := m.clips - {user})
      else TookEffect(m, t, LeaveClip, Unit)
  }

  function ObserverStep(m: Machine, t: nat): Machine
    requires t < |m.threads| && !m.threads[t].op.OnClips()
    requires m.threads[t].op.Effective() || m.threads[t].op.OpAdd?
  {
    var op := m.threads[t].op;
    match op
    case OpAdd(user, _) =>
      if user == ERROR_USERID then Moved(m, t, LeaveObs)
      else Moved(m, t, SetReady).(regs := WithUser(m.regs, user))
    case OpRemove(user, o) =>
      TookEffect(m, t, LeaveObs, Unit).(regs := RegsWithout(m.regs, user, o.value.remote))
    case OpRemoveAll(user) => TookEffect(m, t, LeaveObs, Unit).(regs := m.regs - {user})
  }

  /** Where a thread can be, given its call. */
  ghost predicate Typed(th: Thread)
  {
    match th.pc
    case Start => true
    case Finished => true
    case WantClip => th.op.OnClips() && th.op.Effective()
    case HoldClip => th.op.OnClips() && th.op.Effective()
    case Erased => th.op.OpSet? && th.op.Effective()
    case Updated => (th.op.OpSet? || th.op.OpClear?) && th.op.Effective()
    case Notifying(_) => (th.op.OpSet? || th.op.OpClear?) && th.op.Effective()
    case LeaveClip => th.op.OnClips() && th.op.Effective()
    case WantObs => !th.op.OnClips() && !th.op.ReturnsAtOnce()
    case HoldObs => !th.op.OnClips() && !th.op.ReturnsAtOnce()
    case SetReady => th.op.OpAdd? && th.op.Effective()
    case LeaveObs => !th.op.OnClips() && !th.op.ReturnsAtOnce()
  }

  /** The step of an enabled thread. */
  ghost function Fire(m: Machine, t: nat): Machine
    requires Enabled(m, t) && Typed(m.threads[t])
  {
    var op := m.threads[t].op;
    match m.threads[t].pc
    case Start => Moved(m, t, if op.ReturnsAtOnce() then Finished else if op.OnClips() then WantClip else WantObs)
    case WantClip => Moved(m, t, HoldClip).(clipLock := Some(t))
    case HoldClip => ClipStep(m, t)
    case Erased => TookEffect(m, t, Updated, Unit).(clips := m.clips[op.user := op.data])
    case Updated => Moved(m, t, Notifying([])).(obsLock := Some(t))
    case Notifying(_) => NotifyStep(m, t)
    case LeaveClip => Moved(m, t, Finished).(clipLock := None)
    case WantObs => Moved(m, t, HoldObs).(obsLock := Some(t))
    case HoldObs => ObserverStep(m, t)
    case SetReady => TookEffect(m, t, LeaveObs, Unit).(regs := RegsWith(m.regs, op.user, op.observer.value))
    case LeaveObs => Moved(m, t, Finished).(obsLock := None)
  }

  // The sequential specification that the log is read against.

  /** Plain maps, and the thread that owes a notification round for the update it made. */
  datatype Spec = Spec(clips: Clips, regs: Registry, owes: Option<nat>)

  /** One log entry as an atomic call on the plain maps; None when it is not a possible next entry. */
  ghost function SpecStep(s: Spec, e: Entry): Option<Spec>
  {
    match e
    case Round(t, round) =>
      if s.owes == Some(t) && IsRound(s.regs, round) then Some(s.(owes := None)) else None
    case Did(t, op, result) =>
      if !op.Effective() || (op.OnClips() && s.owes.Some?) then None
      else
        match op
        case OpSet(user, data) =>
          if result == Unit then Some(s.(clips := s.clips[user := data], owes := Some(t))) else None
        case OpGet(user) =>
          if result == Data(if user in s.clips then Some(s.clips[user]) else None) then Some(s) else None
        case OpHas(user) => if result == Flag(user in s.clips) then Some(s) else None
        case OpClear(user) =>
          if result != Unit then None
          else if user in s.clips then Some(s.(clips := s.clips - {user}, owes := Some(t)))
          else Some(s)
        case OpAdd(user, o) =>
          if result == Unit then Some(s.(regs := RegsWith(s.regs, user, o.value))) else None
        case OpRemove(user, o) =>
          if result == Unit then Some(s.(regs := RegsWithout(s.regs, user, o.value.remote))) else None
        case OpRemoveAll(user) => if result == Unit then Some(s.(regs := s.regs - {user})) else None
  }

  /** The log replayed as a sequence of atomic calls from empty maps. */
  ghost function Replay(log: seq<Entry>): Option<Spec>
    decreases |log|
  {
    if log == [] then Some(Spec(map[], map[], None))
    else
      var before := Replay(log[..|log| - 1]);
      if before.None? then None else SpecStep(before.value, log[|log| - 1])
  }

  lemma ReplayAppend(log: seq<Entry>, e: Entry)
    requires Replay(log).Some?
    ensures Replay(log + [e]) == SpecStep(Replay(log).value, e)
  {
    assert (log + [e])[..|log|] == log;
  }

  // The invariant.

  predicate HasClip(pc: PC)
  {
    pc.HoldClip? || pc.Erased? || pc.Updated? || pc.Notifying? || pc.LeaveClip?
  }

  predicate HasObs(pc: PC)
  {
    pc.Notifying? || pc.HoldObs? || pc.SetReady? || pc.LeaveObs?
  }

  /** A lock is held by the one thread that is between taking and releasing it. */
  ghost predicate LocksOk(m: Machine)
  {
    (forall t :: 0 <= t < |m.threads| ==>
                   (HasClip(m.threads[t].pc) <==> m.clipLock == Some(t))
                   && (HasObs(m.threads[t].pc) <==> m.obsLock == Some(t)))
    && (m.clipLock.Some? ==> m.clipLock.value < |m.threads|)
    && (m.obsLock.Some? ==> m.obsLock.value < |m.threads|)
  }

  ghost predicate AllTyped(m: Machine)
  {
    forall t :: 0 <= t < |m.threads| ==> Typed(m.threads[t])
  }

  /** The call of the thread has taken effect. */
  predicate InEffect(th: Thread)
  {
    th.op.Effective()
    && (th.pc.Updated? || th.pc.Notifying? || th.pc.LeaveClip? || th.pc.LeaveObs? || th.pc.Finished?)
  }

  predicate IsEntryOf(e: Entry, t: nat)
  {
    e.Did? && e.t == t
  }

  /** The log holds each call in effect exactly once, with its result, and no other call. */
  ghost predicate LogOk(m: Machine)
  {
    (forall i :: 0 <= i < |m.log| && m.log[i].Did? ==>
                   m.log[i].t < |m.threads|
                   && var th := m.threads[m.log[i].t];
                      InEffect(th) && m.log[i].op == th.op && m.log[i].result == th.result)
    && (forall t :: 0 <= t < |m.threads| && InEffect(m.threads[t]) ==>
                      exists i :: 0 <= i < |m.log| && IsEntryOf(m.log[i], t))
    && (forall i, k :: 0 <= i < k < |m.log| && m.log[i].Did? && m.log[k].Did? ==> m.log[i].t != m.log[k].t)
    && (forall t :: 0 <= t < |m.threads| && !InEffect(m.threads[t]) ==>
                      m.threads[t].result == m.threads[t].op.Failure())
  }

  /** The position of the thread that holds the clip lock, Finished when it is free. */
  function ClipPC(m: Machine): PC
  {
    if m.clipLock.Some? && m.clipLock.value < |m.threads| then m.threads[m.clipLock.value].pc else Finished
  }

  function ObsPC(m: Machine): PC
  {
    if m.obsLock.Some? && m.obsLock.value < |m.threads| then m.threads[m.obsLock.value].pc else Finished
  }

  /** The maps agree with the replayed log, except in the middle of a set or of an add. */
  ghost predicate Simulates(m: Machine)
  {
    Replay(m.log).Some?
    && var s := Replay(m.log).value;
       m.clips == (if ClipPC(m).Erased? then s.clips - {m.threads[m.clipLock.value].op.user} else s.clips)
       && m.regs == (if ObsPC(m).SetReady? then WithUser(s.regs, m.threads[m.obsLock.value].op.user) else s.regs)
       && s.owes == (if ClipPC(m).Updated? || ClipPC(m).Notifying? then m.clipLock else None)
  }

  /** The calls made so far in a round: an initial part of the iteration over the registrations. */
  ghost predicate PartialRound(regs: Registry, done: seq<Reg>)
  {
    Ordered(done)
    && (forall p :: p in done ==> Registered(regs, p))
    && (forall p, q :: p in done && Registered(regs, q) && q !in done ==> Before(p, q))
  }

  ghost function CallbacksOf(t: nat, round: seq<Reg>): seq<Callback>
  {
    seq(|round|, i requires 0 <= i < |round| => Callback(t, round[i]))
  }

  /** The callbacks of the finished rounds, one round after the other. */
  ghost function RoundCalls(log: seq<Entry>): seq<Callback>
    decreases |log|
  {
    if log == [] then []
    else
      var last := log[|log| - 1];
      RoundCalls(log[..|log| - 1]) + (if last.Round? then CallbacksOf(last.t, last.round) else [])
  }

  /** The callbacks made are those of the finished rounds, then those of the round in progress. */
  ghost predicate CallsOk(m: Machine)
  {
    (ObsPC(m).Notifying? ==> PartialRound(m.regs, ObsPC(m).done))
    && m.calls == RoundCalls(m.log) + (if ObsPC(m).Notifying? then CallbacksOf(m.obsLock.value, ObsPC(m).done) else [])
  }

  ghost predicate Inv(m: Machine)
  {
    LocksOk(m) && AllTyped(m) && LogOk(m) && Simulates(m) && CallsOk(m)
  }

  // Every step keeps the invariant.

  /** A step takes a free lock for its thread, releases one its thread has, or leaves it alone. */
  predicate LockMove(had: bool, has: bool, before: Option<nat>, after: Option<nat>, t: nat)
  {
    if had == has then after == before
    else if has then before.None? && after == Some(t)
    else after.None?
  }

  /** What all steps have in common: one thread moves, and the locks with it. */
  ghost predicate OneMoves(m: Machine, m': Machine, t: nat)
    requires t < |m.threads|
  {
    |m'.threads| == |m.threads| && m'.threads == m.threads[t := m'.threads[t]]
    && m'.threads[t].op == m.threads[t].op && Typed(m'.threads[t])
    && LockMove(HasClip(m.threads[t].pc), HasClip(m'.threads[t].pc), m.clipLock, m'.clipLock, t)
    && LockMove(HasObs(m.threads[t].pc), HasObs(m'.threads[t].pc), m.obsLock, m'.obsLock, t)
  }

  lemma NotifyMoves(m: Machine, t: nat)
    requires t < |m.threads| && m.threads[t].pc.Notifying? && Typed(m.threads[t])
    ensures OneMoves(m, NotifyStep(m, t), t)
  {
    hide Ahead;
  }

  lemma ClipStepMoves(m: Machine, t: nat)
    requires t < |m.threads| && m.threads[t].pc.HoldClip? && Typed(m.threads[t])
    ensures OneMoves(m, ClipStep(m, t), t)
  {
  }

  lemma ObserverStepMoves(m: Machine, t: nat)
    requires t < |m.threads| && m.threads[t].pc.HoldObs? && Typed(m.threads[t])
    ensures OneMoves(m, ObserverStep(m, t), t)
  {
    hide WithUser, RegsWithout;
  }

  lemma StepShape(m: Machine, t: nat)
    requires Enabled(m, t) && Typed(m.threads[t])
    ensures OneMoves(m, Fire(m, t), t)
  {
    hide NotifyStep, ClipStep, ObserverStep, RegsWith;
    match m.threads[t].pc
    case Notifying(_) => NotifyMoves(m, t);
    case HoldClip => ClipStepMoves(m, t);
    case HoldObs => ObserverStepMoves(m, t);
    case _ =>
  }

  lemma LocksKept(m: Machine, t: nat)
    requires LocksOk(m) && AllTyped(m) && Enabled(m, t)
    ensures LocksOk(Fire(m, t)) && AllTyped(Fire(m, t))
  {
    hide Fire, Typed, HasClip, HasObs;
    StepShape(m, t);
  }

  /** A step logs nothing, or the end of a round, or that the call of its thread took effect. */
  lemma StepLog(m: Machine, t: nat)
    requires Enabled(m, t) && Typed(m.threads[t])
    ensures var m' := Fire(m, t); var th, th' := m.threads[t], m'.threads[t];
            if InEffect(th') && !InEffect(th)
            then m'.log == m.log + [Did(t, th.op, th'.result)]
            else InEffect(th') == InEffect(th) && th'.result == th.result
                 && (m'.log == m.log || (m'.log != [] && m'.log == m.log + [Round(t, m'.log[|m'.log| - 1].round)]))
  {
    hide Ahead, WithUser, RegsWith, RegsWithout;
    match m.threads[t].pc
    case Notifying(_) => assert Fire(m, t) == NotifyStep(m, t);
    case HoldClip => assert Fire(m, t) == ClipStep(m, t);
    case HoldObs => assert Fire(m, t) == ObserverStep(m, t);
    case _ =>
  }

  lemma LogKept(m: Machine, t: nat)
    requires AllTyped(m) && LogOk(m) && Enabled(m, t)
    ensures LogOk(Fire(m, t))
  {
    hide Fire, Typed, InEffect;
    StepShape(m, t);
    StepLog(m, t);
    var m' := Fire(m, t);
    forall u | 0 <= u < |m'.threads| && InEffect(m'.threads[u])
      ensures exists i :: 0 <= i < |m'.log| && IsEntryOf(m'.log[i], u)
    {
      if InEffect(m.threads[u]) {
        var i :| 0 <= i < |m.log| && IsEntryOf(m.log[i], u);
        assert IsEntryOf(m'.log[i], u);
      } else {
        assert IsEntryOf(m'.log[|m.log|], u);
      }
    }
  }

  /** Where the lock holders stand after a step. */
  lemma HoldersMove(m: Machine, t: nat)
    requires LocksOk(m) && AllTyped(m) && Enabled(m, t)
    ensures var m' := Fire(m, t); var pc, pc' := m.threads[t].pc, m'.threads[t].pc;
            ClipPC(m') == (if HasClip(pc') then pc' else if HasClip(pc) then Finished else ClipPC(m))
            && ObsPC(m') == (if HasObs(pc') then pc' else if HasObs(pc) then Finished else ObsPC(m))
            && (HasClip(pc) ==> ClipPC(m) == pc && m.clipLock == Some(t))
            && (HasObs(pc) ==> ObsPC(m) == pc && m.obsLock == Some(t))
            && (HasClip(pc') ==> m'.clipLock == Some(t))
            && (HasObs(pc') ==> m'.obsLock == Some(t))
            && (!HasClip(pc) && HasClip(pc') ==> m.clipLock.None?)
            && (!HasObs(pc) && HasObs(pc') ==> m.obsLock.None?)
            && (!HasClip(pc) && !HasClip(pc') ==> m'.clipLock == m.clipLock)
            && (!HasObs(pc) && !HasObs(pc') ==> m'.obsLock == m.obsLock)
            && (forall u :: 0 <= u < |m.threads| ==> m'.threads[u].op == m.threads[u].op)
  {
    hide Fire, Typed, HasClip, HasObs;
    StepShape(m, t);
  }

  lemma RoundIsComplete(regs: Registry, done: seq<Reg>)
    requires PartialRound(regs, done) && Ahead(regs, done) == {}
    ensures IsRound(regs, done)
  {
    forall q | Registered(regs, q)
      ensures q in done
    {
      assert q in RegSet(regs) && q !in Ahead(regs, done);
    }
  }

  lemma RoundGrows(regs: Registry, done: seq<Reg>, p: Reg)
    requires PartialRound(regs, done) && IsLeast(Ahead(regs, done), p)
    ensures PartialRound(regs, done + [p])
  {
    forall q | Registered(regs, q) && q !in done + [p]
      ensures Before(p, q)
    {
      assert q in RegSet(regs);
      assert q in Ahead(regs, done);
    }
  }

  /** Steps that only move between locks, or make one callback: nothing to simulate. */
  lemma QuietStepSimulates(m: Machine, t: nat)
    requires LocksOk(m) && AllTyped(m) && Simulates(m) && Enabled(m, t)
    requires var pc := m.threads[t].pc;
             pc.Start? || pc.WantClip? || pc.Updated? || pc.LeaveClip? || pc.WantObs? || pc.LeaveObs?
             || (pc.Notifying? && Ahead(m.regs, pc.done) != {})
    ensures Simulates(Fire(m, t))
  {
    HoldersMove(m, t);
    assert Typed(m.threads[t]);
    var m' := Fire(m, t);
    assert m'.clips == m.clips && m'.regs == m.regs && m'.log == m.log by {
      if m.threads[t].pc.Notifying? {
        assert m' == NotifyStep(m, t);
      }
    }
    hide Fire, RegsWith, WithUser, Replay;
  }

  lemma RoundEndSimulates(m: Machine, t: nat)
    requires LocksOk(m) && AllTyped(m) && Simulates(m) && CallsOk(m) && Enabled(m, t)
    requires m.threads[t].pc.Notifying? && Ahead(m.regs, m.threads[t].pc.done) == {}
    ensures Simulates(Fire(m, t))
  {
    hide WithUser, Replay, IsRound, Ahead, PartialRound, RoundCalls;
    HoldersMove(m, t);
    var done := m.threads[t].pc.done;
    assert Fire(m, t) == NotifyStep(m, t);
    RoundIsComplete(m.regs, done);
    ReplayAppend(m.log, Round(t, done));
  }

  lemma ClipStepSimulates(m: Machine, t: nat)
    requires LocksOk(m) && AllTyped(m) && Simulates(m) && Enabled(m, t)
    requires m.threads[t].pc.HoldClip? || m.threads[t].pc.Erased?
    ensures Simulates(Fire(m, t))
  {
    hide WithUser, Replay;
    HoldersMove(m, t);
    assert Typed(m.threads[t]);
    var m' := Fire(m, t);
    StepLog(m, t);
    if InEffect(m'.threads[t]) {
      ReplayAppend(m.log, Did(t, m.threads[t].op, m'.threads[t].result));
    }
  }

  lemma ObserverStepSimulates(m: Machine, t: nat)
    requires LocksOk(m) && AllTyped(m) && Simulates(m) && Enabled(m, t)
    requires m.threads[t].pc.HoldObs? || m.threads[t].pc.SetReady?
    ensures Simulates(Fire(m, t))
  {
    hide WithUser, Replay, RegsWith, RegsWithout;
    HoldersMove(m, t);
    assert Typed(m.threads[t]);
    var op, m' := m.threads[t].op, Fire(m, t);
    StepLog(m, t);
    if m.threads[t].pc.SetReady? {
      CreatingThenInserting(Replay(m.log).value.regs, op.user, op.observer.value);
    }
    if InEffect(m'.threads[t]) {
      ReplayAppend(m.log, Did(t, op, m'.threads[t].result));
    }
  }

  lemma SimulationKept(m: Machine, t: nat)
    requires LocksOk(m) && AllTyped(m) && Simulates(m) && CallsOk(m) && Enabled(m, t)
    ensures Simulates(Fire(m, t))
  {
    hide Fire, Simulates, Typed, CallsOk, LocksOk, Ahead;
    match m.threads[t].pc
    case HoldClip => ClipStepSimulates(m, t);
    case Erased => ClipStepSimulates(m, t);
    case HoldObs => ObserverStepSimulates(m, t);
    case SetReady => ObserverStepSimulates(m, t);
    case Finished =>
    case Notifying(done) =>
      if Ahead(m.regs, done) == {} {
        RoundEndSimulates(m, t);
      } else {
        QuietStepSimulates(m, t);
      }
    case _ => QuietStepSimulates(m, t);
  }

  lemma RoundCallsAppend(log: seq<Entry>, e: Entry)
    ensures RoundCalls(log + [e]) == RoundCalls(log) + (if e.Round? then CallbacksOf(e.t, e.round) else [])
  {
    assert (log + [e])[..|log|] == log;
  }

  lemma NotifyKeepsCalls(m: Machine, t: nat)
    requires LocksOk(m) && AllTyped(m) && CallsOk(m) && Enabled(m, t)
    requires m.threads[t].pc.Notifying?
    ensures CallsOk(Fire(m, t))
  {
    hide Ahead, PartialRound, RoundCalls;
    HoldersMove(m, t);
    var done, m' := m.threads[t].pc.done, NotifyStep(m, t);
    assert Fire(m, t) == m';
    if Ahead(m.regs, done) == {} {
      RoundCallsAppend(m.log, Round(t, done));
    } else {
      var p := m'.threads[t].pc.done[|done|];
      RoundGrows(m.regs, done, p);
      assert CallbacksOf(t, done + [p]) == CallbacksOf(t, done) + [Callback(t, p)];
    }
  }

  /** Only a thread in its round makes callbacks, only one with the observer lock changes observers. */
  lemma SilentStep(m: Machine, t: nat)
    requires Enabled(m, t) && Typed(m.threads[t]) && !m.threads[t].pc.Notifying?
    ensures Fire(m, t).calls == m.calls && (HasObs(m.threads[t].pc) || Fire(m, t).regs == m.regs)
    ensures m.threads[t].pc.Updated? ==> Fire(m, t).threads[t].pc == Notifying([])
    ensures Fire(m, t).threads[t].pc.Notifying? ==> m.threads[t].pc.Updated?
  {
    hide RegsWith, RegsWithout, WithUser, NotifyStep;
    match m.threads[t].pc
    case HoldClip => assert Fire(m, t) == ClipStep(m, t);
    case HoldObs => assert Fire(m, t) == ObserverStep(m, t);
    case _ =>
  }

  lemma CallsKept(m: Machine, t: nat)
    requires LocksOk(m) && AllTyped(m) && CallsOk(m) && Enabled(m, t)
    ensures CallsOk(Fire(m, t))
  {
    hide RoundCalls, PartialRound, Ahead, RegsWith, RegsWithout, WithUser;
    if m.threads[t].pc.Notifying? {
      NotifyKeepsCalls(m, t);
    } else {
      HoldersMove(m, t);
      var m' := Fire(m, t);
      assert Typed(m.threads[t]);
      SilentStep(m, t);
      hide Fire;
      if m.threads[t].pc.Updated? {
        NothingCalledYet(m.regs);
      }
      StepLog(m, t);
      if m'.log != m.log {
        RoundCallsAppend(m.log, m'.log[|m.log|]);
      }
    }
  }

  lemma NothingCalledYet(regs: Registry)
    ensures PartialRound(regs, [])
  {
  }

  /** Each step of each thread keeps the whole invariant. */
  lemma StepKeepsInvariant(m: Machine, t: nat)
    requires Inv(m) && Enabled(m, t)
    ensures Inv(Fire(m, t))
  {
    hide Fire, LocksOk, AllTyped, LogOk, Simulates, CallsOk;
    LocksKept(m, t);
    LogKept(m, t);
    SimulationKept(m, t);
    CallsKept(m, t);
  }

  lemma InitialInvariant(ops: seq<Op>)
    ensures Inv(Initial(ops))
  {
  }
}
