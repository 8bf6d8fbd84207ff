/**
 What the lock protocol guarantees over every run: mutual exclusion, results that match a sequential
 order of the same calls, rounds that neither overlap nor leave an observer out, no deadlock, and
 termination.
 */
module LockTheorems {
  import opened Wrappers
  import opened PasteDataModel
  import opened ServiceModel
  import opened LockProtocol

  /** One turn of a thread. It is lost on a blocked or finished one. */
  ghost function Turn(m: Machine, t: nat): (m': Machine)
    requires Inv(m)
    ensures Inv(m')
  {
    if Enabled(m, t) then
      StepKeepsInvariant(m, t);
      Fire(m, t)
    else m
  }

  /** The machine after `k` turns of a schedule. */
  ghost function After(m: Machine, schedule: nat -> nat, k: nat): (m': Machine)
    requires Inv(m)
    ensures Inv(m')
    decreases k
  {
    if k == 0 then m else Turn(After(m, schedule, k - 1), schedule(k - 1))
  }

  /** A state that some schedule of these calls reaches. */
  ghost function Reached(ops: seq<Op>, schedule: nat -> nat, k: nat): (m: Machine)
    ensures Inv(m)
  {
    InitialInvariant(ops);
    After(Initial(ops), schedule, k)
  }

  predicate BetweenClipLockAndUnlock(pc: PC)
  {
    match pc
    case HoldClip => true
    case Erased => true
    case Updated => true
    case Notifying(_) => true
    case LeaveClip => true
    case _ => false
  }

  predicate BetweenObsLockAndUnlock(pc: PC)
  {
    match pc
    case Notifying(_) => true
    case HoldObs => true
    case SetReady => true
    case LeaveObs => true
    case _ => false
  }

  /** A thread that has not returned waits only for a mutex that is taken. */
  lemma BlockedOnlyByTakenLock(m: Machine, t: nat)
    requires t < |m.threads| && !m.threads[t].pc.Finished?
    ensures !Enabled(m, t) <==> (m.threads[t].pc == WantClip && m.clipLock.Some?)
                                || ((m.threads[t].pc == Updated || m.threads[t].pc == WantObs) && m.obsLock.Some?)
  {
  }

  /** In no reachable state do two threads hold the same mutex. */
  lemma MutualExclusion(ops: seq<Op>, schedule: nat -> nat, k: nat, t: nat, u: nat)
    ensures var m := Reached(ops, schedule, k);
            t < |m.threads| && u < |m.threads| ==>
              var pt, pu := m.threads[t].pc, m.threads[u].pc;
              (HasClip(pt) && HasClip(pu) ==> t == u) && (HasObs(pt) && HasObs(pu) ==> t == u)
    ensures var m := Reached(ops, schedule, k);
            t < |m.threads| && u < |m.threads| && t != u ==>
              !(BetweenClipLockAndUnlock(m.threads[t].pc) && BetweenClipLockAndUnlock(m.threads[u].pc))
              && !(BetweenObsLockAndUnlock(m.threads[t].pc) && BetweenObsLockAndUnlock(m.threads[u].pc))
  {
    hide Reached, AllTyped, LogOk, Simulates, CallsOk;
    assert LocksOk(Reached(ops, schedule, k));
  }

  // Results match a sequential order.

  lemma TurnKeepsThreads(m: Machine, t: nat)
    requires Inv(m)
    ensures var m' := Turn(m, t);
            |m'.threads| == |m.threads| && m.log <= m'.log
            && forall u :: 0 <= u < |m.threads| ==> m'.threads[u].op == m.threads[u].op
  {
    hide LocksOk, LogOk, Simulates, CallsOk, Fire, Typed;
    if Enabled(m, t) {
      assert Typed(m.threads[t]);
      StepShape(m, t);
      StepLog(m, t);
    }
  }

  /** A run starts no thread anew and takes nothing back from the log. */
  lemma {:induction false} ThreadsStay(m: Machine, schedule: nat -> nat, k1: nat, k2: nat)
    requires Inv(m) && k1 <= k2
    ensures var m1, m2 := After(m, schedule, k1), After(m, schedule, k2);
            |m2.threads| == |m1.threads| && m1.log <= m2.log
            && forall t :: 0 <= t < |m1.threads| ==> m2.threads[t].op == m1.threads[t].op
    decreases k2
  {
    hide Inv, Turn;
    if k1 < k2 {
      ThreadsStay(m, schedule, k1, k2 - 1);
      TurnKeepsThreads(After(m, schedule, k2 - 1), schedule(k2 - 1));
    }
  }

  /**
   Linearizability. In every reachable state the log, replayed as atomic calls on plain maps, is
   accepted; it gives the maps themselves whenever no lock is held; and a call that returned has
   exactly one entry in it, with the result it returned, if its user id resolved and its observer, should
   it take one, is not null. Any other call returned nothing, or false.
   */
  lemma Linearizable(ops: seq<Op>, schedule: nat -> nat, k: nat)
    ensures var m := Reached(ops, schedule, k);
            Replay(m.log).Some?
            && (m.clipLock.None? ==> m.clips == Replay(m.log).value.clips)
            && (m.obsLock.None? ==> m.regs == Replay(m.log).value.regs)
    ensures var m := Reached(ops, schedule, k);
            |m.threads| == |ops|
            && forall t :: 0 <= t < |ops| && m.threads[t].pc.Finished? ==>
                             var result := m.threads[t].result;
                             if ops[t].user != -1 && (ops[t].OpAdd? || ops[t].OpRemove? ==> ops[t].observer.Some?)
                             then (exists i :: 0 <= i < |m.log| && m.log[i] == Did(t, ops[t], result)
                                               && forall j :: 0 <= j < |m.log| && IsEntryOf(m.log[j], t) ==> j == i)
                             else result == (if ops[t].OpGet? then Data(None)
                                             else if ops[t].OpHas? then Flag(false) else Unit)
  {
    InitialInvariant(ops);
    ThreadsStay(Initial(ops), schedule, 0, k);
    var m := Reached(ops, schedule, k);
    hide Reached, LocksOk, AllTyped, CallsOk, Replay;
    forall t | 0 <= t < |ops| && m.threads[t].pc.Finished? && ops[t].Effective()
      ensures exists i :: 0 <= i < |m.log| && m.log[i] == Did(t, ops[t], m.threads[t].result)
                          && forall j :: 0 <= j < |m.log| && IsEntryOf(m.log[j], t) ==> j == i
    {
      assert InEffect(m.threads[t]);
      var i :| 0 <= i < |m.log| && IsEntryOf(m.log[i], t);
      assert m.log[i] == Did(t, ops[t], m.threads[t].result);
    }
  }

  /**
   The order of the log respects real time: when one call has returned before another one starts, its
   entry comes first.
   */
  lemma RealTimeOrder(ops: seq<Op>, schedule: nat -> nat, k1: nat, k2: nat, t: nat, u: nat)
    requires k1 <= k2
    ensures var log := Reached(ops, schedule, k2).log;
            ReturnedBefore(Reached(ops, schedule, k1), t, u) ==>
              forall i, j :: 0 <= i < |log| && 0 <= j < |log| && IsEntryOf(log[i], t) && IsEntryOf(log[j], u) ==> i < j
  {
    hide Inv, Turn, After;
    InitialInvariant(ops);
    ThreadsStay(Initial(ops), schedule, k1, k2);
    var m1, m2 := Reached(ops, schedule, k1), Reached(ops, schedule, k2);
    if ReturnedBefore(m1, t, u) {
      forall i, j | 0 <= i < |m2.log| && 0 <= j < |m2.log| && IsEntryOf(m2.log[i], t) && IsEntryOf(m2.log[j], u)
        ensures i < j
      {
        EntriesBefore(m1, m2, t, u, i, j);
      }
    }
  }

  /** The call of thread `t` has returned and that of thread `u` has not started. */
  predicate ReturnedBefore(m: Machine, t: nat, u: nat)
  {
    t < |m.threads| && u < |m.threads| && m.threads[t].pc.Finished? && m.threads[u].pc.Start?
  }

  lemma EntriesBefore(m1: Machine, m2: Machine, t: nat, u: nat, i: nat, j: nat)
    requires Inv(m1) && Inv(m2) && m1.log <= m2.log && |m1.threads| == |m2.threads|
    requires t < |m1.threads| && u < |m1.threads| && m1.threads[t].pc.Finished? && m1.threads[u].pc.Start?
    requires m1.threads[t].op == m2.threads[t].op
    requires i < |m2.log| && j < |m2.log| && IsEntryOf(m2.log[i], t) && IsEntryOf(m2.log[j], u)
    ensures i < j
  {
    hide LocksOk, AllTyped, Simulates, CallsOk;
    assert InEffect(m1.threads[t]);
    var i1 :| 0 <= i1 < |m1.log| && IsEntryOf(m1.log[i1], t);
    assert m2.log[i1] == m1.log[i1];
    assert i1 == i;
    assert forall n :: 0 <= n < |m1.log| ==> !IsEntryOf(m1.log[n], u) && m1.log[n] == m2.log[n];
  }

  // The log entries as calls of the sequential service.

  /** The call of the sequential service that a log entry stands for. */
  ghost function CallOf(op: Op): Call
  {
    match op
    case OpSet(user, data) => Set(Caller(user, None, "", 0, 0), data)
    case OpGet(user) => Get(Caller(user, None, "", 0, 0))
    case OpHas(user) => Has(user)
    case OpClear(user) => Clear(user)
    case OpAdd(user, o) => AddObserver(user, o)
    case OpRemove(user, o) => RemoveObserver(user, o)
    case OpRemoveAll(user) => RemoveAll(user)
  }

  ghost function CallsOf(log: seq<Entry>): seq<Call>
    decreases |log|
  {
    if log == [] then []
    else CallsOf(log[..|log| - 1]) + (if log[|log| - 1].Did? then [CallOf(log[|log| - 1].op)] else [])
  }

  lemma EntryIsSequentialCall(spec: Spec, e: Entry, s: State)
    requires SpecStep(spec, e).Some? && s.clips == spec.clips && s.regs == spec.regs
    ensures var s' := if e.Did? then Step(s, CallOf(e.op)) else s; var spec' := SpecStep(spec, e).value;
            s'.clips == spec'.clips && s'.regs == spec'.regs
  {
    hide RegsWith, RegsWithout, IsRound, RoundOf, RingPush, HistoryEntry;
  }

  /** The interleaved service leaves the same clips and registrations as the sequential one. */
  lemma {:induction false} ReplayIsSequentialRun(log: seq<Entry>)
    requires Replay(log).Some?
    ensures StateAfter(CallsOf(log)).clips == Replay(log).value.clips
    ensures StateAfter(CallsOf(log)).regs == Replay(log).value.regs
    decreases |log|
  {
    hide Step, SpecStep, CallOf;
    if log != [] {
      var before, e := log[..|log| - 1], log[|log| - 1];
      ReplayIsSequentialRun(before);
      EntryIsSequentialCall(Replay(before).value, e, StateAfter(CallsOf(before)));
      if e.Did? {
        assert CallsOf(log)[..|CallsOf(log)| - 1] == CallsOf(before);
      } else {
        assert CallsOf(log) == CallsOf(before);
      }
    }
  }

  lemma {:induction false} ReplayOfPrefix(log: seq<Entry>, n: nat)
    requires Replay(log).Some? && n <= |log|
    ensures Replay(log[..n]).Some?
    ensures n < |log| ==> SpecStep(Replay(log[..n]).value, log[n]).Some?
    decreases |log|
  {
    if n == |log| {
      assert log[..n] == log;
    } else if n < |log| - 1 {
      ReplayOfPrefix(log[..|log| - 1], n);
      assert log[..|log| - 1][..n] == log[..n];
    }
  }

  /**
   Under every interleaving a get that returned answers from the latest set or clear of its user that
   took effect before it, and from no other user's.
   */
  lemma ConcurrentGetReadsLatestSet(ops: seq<Op>, schedule: nat -> nat, k: nat, t: nat)
    requires t < |ops| && ops[t].OpGet? && ops[t].user != -1
    ensures var m := Reached(ops, schedule, k);
            |m.threads| == |ops|
            && (m.threads[t].pc.Finished? ==>
                  exists i :: 0 <= i < |m.log| && IsEntryOf(m.log[i], t)
                              && m.threads[t].result == Data(ClipFor(CallsOf(m.log[..i]), ops[t].user))
                              && m.threads[t].result == Data(ClipByLog(m.log[..i], ops[t].user)))
  {
    var m := Reached(ops, schedule, k);
    Linearizable(ops, schedule, k);
    hide Reached, Replay, IsRound, ClipFor, CallsOf, ClipByLog, RegisteredByLog;
    if m.threads[t].pc.Finished? {
      var i :| 0 <= i < |m.log| && m.log[i] == Did(t, ops[t], m.threads[t].result)
               && forall j :: 0 <= j < |m.log| && IsEntryOf(m.log[j], t) ==> j == i;
      ReplayOfPrefix(m.log, i);
      ReplayIsSequentialRun(m.log[..i]);
      TraceRefinement(CallsOf(m.log[..i]), ops[t].user);
      ReplayReadsLog(m.log[..i], ops[t].user, 0);
      assert IsEntryOf(m.log[i], t);
    }
  }

  /** Under every interleaving a has that returned says whether a get in its place would find a clip. */
  lemma ConcurrentHasReadsLatestSet(ops: seq<Op>, schedule: nat -> nat, k: nat, t: nat)
    requires t < |ops| && ops[t].OpHas? && ops[t].user != -1
    ensures var m := Reached(ops, schedule, k);
            |m.threads| == |ops|
            && (m.threads[t].pc.Finished? ==>
                  exists i :: 0 <= i < |m.log| && IsEntryOf(m.log[i], t)
                              && m.threads[t].result == Flag(ClipByLog(m.log[..i], ops[t].user).Some?))
  {
    var m := Reached(ops, schedule, k);
    Linearizable(ops, schedule, k);
    hide Reached, Replay, IsRound, ClipByLog, RegisteredByLog;
    if m.threads[t].pc.Finished? {
      var i :| 0 <= i < |m.log| && m.log[i] == Did(t, ops[t], m.threads[t].result)
               && forall j :: 0 <= j < |m.log| && IsEntryOf(m.log[j], t) ==> j == i;
      ReplayOfPrefix(m.log, i);
      ReplayReadsLog(m.log[..i], ops[t].user, 0);
      assert IsEntryOf(m.log[i], t);
    }
  }

  /** The clip of a user as read off the log: its latest set, unless it was cleared later. */
  ghost function ClipByLog(log: seq<Entry>, user: int): Option<Contents>
    decreases |log|
  {
    if log == [] then None
    else
      var e := log[|log| - 1];
      if e.Did? && e.op.OpSet? && e.op.user == user then Some(e.op.data)
      else if e.Did? && e.op.OpClear? && e.op.user == user then None
      else ClipByLog(log[..|log| - 1], user)
  }

  /** Whether a remote object is registered for a user, as read off the log: added and not removed since. */
  ghost function RegisteredByLog(log: seq<Entry>, user: int, remote: int): bool
    decreases |log|
  {
    if log == [] then false
    else
      var e := log[|log| - 1];
      if e.Did? && e.op.OpRemoveAll? && e.op.user == user then false
      else if e.Did? && e.op.OpRemove? && e.op.user == user && e.op.observer.Some?
              && e.op.observer.value.remote == remote then false
      else if e.Did? && e.op.OpAdd? && e.op.user == user && e.op.observer.Some?
              && e.op.observer.value.remote == remote then true
      else RegisteredByLog(log[..|log| - 1], user, remote)
  }

  lemma EntryReadsLog(s: Spec, e: Entry, user: int, remote: int)
    requires SpecStep(s, e).Some?
    ensures var s' := SpecStep(s, e).value;
            (if user in s'.clips then Some(s'.clips[user]) else None)
            == (if e.Did? && e.op.OpSet? && e.op.user == user then Some(e.op.data)
                else if e.Did? && e.op.OpClear? && e.op.user == user then None
                else if user in s.clips then Some(s.clips[user]) else None)
    ensures var s' := SpecStep(s, e).value;
            (user in s'.regs && remote in s'.regs[user])
            <==> if e.Did? && e.op.OpRemoveAll? && e.op.user == user then false
                 else if e.Did? && e.op.OpRemove? && e.op.user == user && e.op.observer.Some?
                         && e.op.observer.value.remote == remote then false
                 else if e.Did? && e.op.OpAdd? && e.op.user == user && e.op.observer.Some?
                         && e.op.observer.value.remote == remote then true
                 else user in s.regs && remote in s.regs[user]
  {
    hide IsRound;
  }

  /** The replayed maps are what the log says of each user and observer. */
  lemma {:induction false} ReplayReadsLog(log: seq<Entry>, user: int, remote: int)
    requires Replay(log).Some?
    ensures var s := Replay(log).value;
            ClipByLog(log, user) == (if user in s.clips then Some(s.clips[user]) else None)
            && (RegisteredByLog(log, user, remote) <==> user in s.regs && remote in s.regs[user])
    decreases |log|
  {
    hide SpecStep;
    if log != [] {
      ReplayReadsLog(log[..|log| - 1], user, remote);
      EntryReadsLog(Replay(log[..|log| - 1]).value, log[|log| - 1], user, remote);
    }
  }

  /** The maps of the service, whenever no thread is inside their lock, are what the log says. */
  lemma MapsFollowLog(ops: seq<Op>, schedule: nat -> nat, k: nat, user: int, remote: int)
    ensures var m := Reached(ops, schedule, k);
            m.clipLock.None? ==> ClipByLog(m.log, user) == (if user in m.clips then Some(m.clips[user]) else None)
    ensures var m := Reached(ops, schedule, k);
            m.obsLock.None? ==> (RegisteredByLog(m.log, user, remote) <==> user in m.regs && remote in m.regs[user])
  {
    Linearizable(ops, schedule, k);
    hide Reached, Replay, ClipByLog, RegisteredByLog;
    ReplayReadsLog(Reached(ops, schedule, k).log, user, remote);
  }

  // Notification rounds.

  predicate Updates(e: Entry)
  {
    e.Did? && (e.op.OpSet? || e.op.OpClear?)
  }

  predicate OnObservers(e: Entry)
  {
    e.Did? && !e.op.OnClips()
  }

  /** Who owes a round made the update; nothing but observer calls has taken effect since. */
  lemma {:induction false} OwedSince(log: seq<Entry>)
    requires Replay(log).Some? && Replay(log).value.owes.Some?
    ensures exists j :: 0 <= j < |log| && Updates(log[j]) && Replay(log).value.owes == Some(log[j].t)
                        && forall i :: j < i < |log| ==> OnObservers(log[i])
    decreases |log|
  {
    hide RegsWith, RegsWithout, IsRound;
    var before, e := log[..|log| - 1], log[|log| - 1];
    if Updates(e) && Replay(before).value.owes.None? {
      assert Updates(log[|log| - 1]);
    } else {
      OwedSince(before);
      var j :| 0 <= j < |before| && Updates(before[j]) && Replay(before).value.owes == Some(before[j].t)
               && forall i :: j < i < |before| ==> OnObservers(before[i]);
      assert Updates(log[j]);
    }
  }

  /**
   Rounds follow clip updates. In every reachable log a round belongs to an update of the same thread,
   calls exactly the registrations there are when it ends, each once, and between the update and the
   end of its round no other clip call takes effect and no other round ends.
   */
  lemma RoundsFollowTheirUpdate(ops: seq<Op>, schedule: nat -> nat, k: nat, n: nat)
    requires n < |Reached(ops, schedule, k).log| && Reached(ops, schedule, k).log[n].Round?
    ensures var log := Reached(ops, schedule, k).log;
            (exists j :: 0 <= j < n && Updates(log[j]) && log[j].t == log[n].t
                         && forall i :: j < i < n ==> OnObservers(log[i]))
            && Replay(log[..n]).Some? && IsRound(Replay(log[..n]).value.regs, log[n].round)
  {
    var log := Reached(ops, schedule, k).log;
    Linearizable(ops, schedule, k);
    hide Reached, Replay, IsRound;
    ReplayOfPrefix(log, n);
    OwedSince(log[..n]);
    var j :| 0 <= j < n && Updates(log[..n][j]) && Replay(log[..n]).value.owes == Some(log[..n][j].t)
             && forall i :: j < i < n ==> OnObservers(log[..n][i]);
    assert Updates(log[j]) && log[j].t == log[n].t;
    assert forall i :: j < i < n ==> OnObservers(log[..n][i]) && log[..n][i] == log[i];
  }

  /** A round calls exactly who is registered when it ends, and nobody twice: by user, then by remote object. */
  lemma RoundCallsWhoIsRegistered(ops: seq<Op>, schedule: nat -> nat, k: nat, n: nat, user: int, remote: int)
    ensures var log := Reached(ops, schedule, k).log;
            n < |log| && log[n].Round? ==>
              (Reg(user, remote) in log[n].round <==> RegisteredByLog(log[..n], user, remote))
              && forall i, l :: 0 <= i < l < |log[n].round| ==>
                                  log[n].round[i].user < log[n].round[l].user
                                  || (log[n].round[i].user == log[n].round[l].user
                                      && log[n].round[i].remote < log[n].round[l].remote)
  {
    var log := Reached(ops, schedule, k).log;
    hide Reached, Replay, RegisteredByLog, ClipByLog;
    if n < |log| && log[n].Round? {
      RoundsFollowTheirUpdate(ops, schedule, k, n);
      ReplayReadsLog(log[..n], user, remote);
      assert Ordered(log[n].round) by { RoundIsOrdered(Replay(log[..n]).value.regs, log[n].round); }
      assert Reg(user, remote) in log[n].round <==> Registered(Replay(log[..n]).value.regs, Reg(user, remote));
    }
  }

  lemma RoundIsOrdered(regs: Registry, round: seq<Reg>)
    requires IsRound(regs, round)
    ensures Ordered(round)
  {
  }

  /** How many callbacks the rounds among the first `n` entries make. */
  ghost function CallsBefore(log: seq<Entry>, n: nat): nat
    requires n <= |log|
    decreases n
  {
    if n == 0 then 0 else CallsBefore(log, n - 1) + (if log[n - 1].Round? then |log[n - 1].round| else 0)
  }

  lemma {:induction false} RoundCallsAt(log: seq<Entry>, m: nat, n: nat)
    requires n < m <= |log| && log[n].Round?
    ensures var calls := RoundCalls(log[..m]); var from := CallsBefore(log, n);
            |calls| == CallsBefore(log, m) && from + |log[n].round| <= |calls|
            && forall i :: 0 <= i < |log[n].round| ==> calls[from + i] == Callback(log[n].t, log[n].round[i])
    decreases m
  {
    assert log[..m][..m - 1] == log[..m - 1] && log[..m][m - 1] == log[m - 1];
    if n < m - 1 {
      RoundCallsAt(log, m - 1, n);
    } else {
      RoundCallsLength(log, m - 1);
    }
  }

  lemma {:induction false} RoundCallsLength(log: seq<Entry>, n: nat)
    requires n <= |log|
    ensures |RoundCalls(log[..n])| == CallsBefore(log, n)
    decreases n
  {
    if n > 0 {
      RoundCallsLength(log, n - 1);
      assert log[..n][..n - 1] == log[..n - 1] && log[..n][n - 1] == log[n - 1];
    }
  }

  /**
   Every finished round was made: the callbacks of a round stand together, in its order, made by its
   thread, after those of all rounds before it. Beyond the finished rounds there are only the callbacks
   of the round in progress.
   */
  lemma RoundsWereMade(ops: seq<Op>, schedule: nat -> nat, k: nat, n: nat)
    ensures var m := Reached(ops, schedule, k);
            n < |m.log| && m.log[n].Round? ==>
              var from := CallsBefore(m.log, n);
              from + |m.log[n].round| <= |m.calls|
              && forall i :: 0 <= i < |m.log[n].round| ==>
                               m.calls[from + i] == Callback(m.log[n].t, m.log[n].round[i])
    ensures var m := Reached(ops, schedule, k);
            |m.calls| == CallsBefore(m.log, |m.log|) + (if ObsPC(m).Notifying? then |ObsPC(m).done| else 0)
  {
    CallbacksComeInRounds(ops, schedule, k);
    var m := Reached(ops, schedule, k);
    hide Reached, RoundCalls, CallsBefore, PartialRound;
    assert m.log[..|m.log|] == m.log;
    RoundCallsLength(m.log, |m.log|);
    if n < |m.log| && m.log[n].Round? {
      RoundCallsAt(m.log, |m.log|, n);
    }
  }

  /** The entry changed the clips: a set, or a clear of a user that had a clip. */
  ghost predicate ChangedClips(log: seq<Entry>, j: nat)
    requires j < |log|
  {
    log[j].Did? && Replay(log[..j]).Some?
    && (log[j].op.OpSet? || (log[j].op.OpClear? && log[j].op.user in Replay(log[..j]).value.clips))
  }

  predicate IsRoundOf(e: Entry, t: nat)
  {
    e.Round? && e.t == t
  }

  /** After a change of the clips its thread owes a round until that round has come. */
  lemma {:induction false} OwesOrRoundCame(log: seq<Entry>, j: nat)
    requires Replay(log).Some? && j < |log| && ChangedClips(log, j)
    ensures Replay(log).value.owes == Some(log[j].t) || exists n :: j < n < |log| && IsRoundOf(log[n], log[j].t)
    decreases |log|
  {
    hide RegsWith, RegsWithout, IsRound;
    var before, e := log[..|log| - 1], log[|log| - 1];
    if j < |log| - 1 {
      assert before[..j] == log[..j] && before[j] == log[j];
      OwesOrRoundCame(before, j);
      if Replay(before).value.owes == Some(log[j].t) {
        if e.Round? {
          assert IsRoundOf(log[|log| - 1], log[j].t);
        }
      } else {
        var n :| j < n < |before| && IsRoundOf(before[n], log[j].t);
        assert IsRoundOf(log[n], log[j].t);
      }
    }
  }

  /** A finished thread owes nothing. */
  lemma FinishedOwesNothing(m: Machine, t: nat)
    requires Inv(m) && t < |m.threads| && m.threads[t].pc.Finished?
    ensures Replay(m.log).value.owes != Some(t)
  {
    hide LogOk, CallsOk, AllTyped, Replay;
  }

  /**
   Every change of the clips is notified: in every reachable state, a set that took effect, or a clear
   that removed a clip, whose call has returned, has exactly one round in the log, and it came after.
   */
  lemma EveryUpdateGetsItsRound(ops: seq<Op>, schedule: nat -> nat, k: nat, j: nat)
    ensures var m := Reached(ops, schedule, k);
            ReturnedUpdate(m, j) ==> exists n :: j < n && OnlyRoundOf(m.log, m.log[j].t, n)
  {
    var m := Reached(ops, schedule, k);
    Linearizable(ops, schedule, k);
    hide Reached, Replay, IsRound, LocksOk, AllTyped, LogOk, Simulates, CallsOk;
    if ReturnedUpdate(m, j) {
      var t := m.log[j].t;
      OwesOrRoundCame(m.log, j);
      FinishedOwesNothing(m, t);
      var n :| j < n < |m.log| && IsRoundOf(m.log[n], t);
      forall i | 0 <= i < |m.log| && IsRoundOf(m.log[i], t)
        ensures i == n
      {
        RoundsOfOneThread(ops, schedule, k, i, n);
      }
      assert OnlyRoundOf(m.log, t, n);
    }
  }

  /** The entry changed the clips and the call it belongs to has returned. */
  ghost predicate ReturnedUpdate(m: Machine, j: nat)
  {
    j < |m.log| && ChangedClips(m.log, j) && m.log[j].t < |m.threads| && m.threads[m.log[j].t].pc.Finished?
  }

  /** Entry `n` is the round of the thread, and the only one. */
  ghost predicate OnlyRoundOf(log: seq<Entry>, t: nat, n: int)
  {
    0 <= n < |log| && IsRoundOf(log[n], t) && forall i :: 0 <= i < |log| && IsRoundOf(log[i], t) ==> i == n
  }

  /** A thread has at most one round. */
  lemma RoundsOfOneThread(ops: seq<Op>, schedule: nat -> nat, k: nat, i: nat, n: nat)
    ensures var log := Reached(ops, schedule, k).log;
            i < |log| && n < |log| && log[i].Round? && log[n].Round? && log[i].t == log[n].t ==> i == n
  {
    var m := Reached(ops, schedule, k);
    var log := m.log;
    assert LogOk(m);
    hide Reached, Replay, IsRound, Inv, InEffect;
    if i < |log| && n < |log| && log[i].Round? && log[n].Round? && log[i].t == log[n].t {
      RoundsFollowTheirUpdate(ops, schedule, k, i);
      RoundsFollowTheirUpdate(ops, schedule, k, n);
      var a :| 0 <= a < i && Updates(log[a]) && log[a].t == log[i].t && forall l :: a < l < i ==> OnObservers(log[l]);
      var b :| 0 <= b < n && Updates(log[b]) && log[b].t == log[n].t && forall l :: b < l < n ==> OnObservers(log[l]);
      assert a == b;
      assert !OnObservers(log[i]) && !OnObservers(log[n]);
    }
  }

  /**
   Callbacks never interleave: in every reachable state the callbacks made so far are the finished
   rounds one after the other, then the initial part of the one round in progress.
   */
  lemma CallbacksComeInRounds(ops: seq<Op>, schedule: nat -> nat, k: nat)
    ensures var m := Reached(ops, schedule, k);
            m.calls == RoundCalls(m.log)
                       + (if ObsPC(m).Notifying? then CallbacksOf(m.obsLock.value, ObsPC(m).done) else [])
            && (ObsPC(m).Notifying? ==> PartialRound(m.regs, ObsPC(m).done))
  {
    hide Reached, LocksOk, AllTyped, LogOk, Simulates;
    assert Inv(Reached(ops, schedule, k));
  }

  // Progress.

  ghost predicate AllFinished(m: Machine)
  {
    forall t :: 0 <= t < |m.threads| ==> m.threads[t].pc.Finished?
  }

  /** No deadlock: as long as some call has not returned, some thread can move. */
  lemma NoDeadlock(m: Machine)
    requires Inv(m) && !AllFinished(m)
    ensures exists t :: Enabled(m, t)
  {
    hide LogOk, Simulates, CallsOk, AllTyped;
    if m.obsLock.Some? {
      assert Enabled(m, m.obsLock.value);
    } else if m.clipLock.Some? {
      assert Enabled(m, m.clipLock.value);
    } else {
      var t: nat :| t < |m.threads| && !m.threads[t].pc.Finished?;
      assert Enabled(m, t);
    }
  }

  /** A bound on the steps of a call, not counting its callbacks. */
  function Weight(pc: PC): nat
  {
    match pc
    case Start => 8
    case WantClip => 7
    case HoldClip => 6
    case Erased => 5
    case Updated => 4
    case Notifying(_) => 3
    case LeaveClip => 1
    case WantObs => 7
    case HoldObs => 6
    case SetReady => 5
    case LeaveObs => 1
    case Finished => 0
  }

  function Work(threads: seq<Thread>): nat
    decreases |threads|
  {
    if threads == [] then 0 else Work(threads[..|threads| - 1]) + Weight(threads[|threads| - 1].pc)
  }

  /** The callbacks still ahead in the round in progress. */
  ghost function CallsAhead(m: Machine): nat
  {
    if ObsPC(m).Notifying? then |Ahead(m.regs, ObsPC(m).done)| else 0
  }

  lemma {:induction false} WorkUpdate(threads: seq<Thread>, t: nat, th: Thread)
    requires t < |threads|
    ensures Work(threads[t := th]) == Work(threads) - Weight(threads[t].pc) + Weight(th.pc)
    decreases |threads|
  {
    var shorter := threads[..|threads| - 1];
    if t == |threads| - 1 {
      assert threads[t := th][..|threads| - 1] == shorter;
    } else {
      WorkUpdate(shorter, t, th);
      assert threads[t := th][..|threads| - 1] == shorter[t := th];
    }
  }

  lemma NotifyWeight(m: Machine, t: nat)
    requires t < |m.threads| && m.threads[t].pc.Notifying?
    ensures var m' := NotifyStep(m, t); var pc, pc' := m.threads[t].pc, m'.threads[t].pc;
            pc' == LeaveClip
            || (pc'.Notifying? && m'.regs == m.regs && |Ahead(m.regs, pc'.done)| < |Ahead(m.regs, pc.done)|)
  {
    hide Ahead;
    var done := m.threads[t].pc.done;
    if Ahead(m.regs, done) != {} {
      FewerAhead(m.regs, done, NotifyStep(m, t).threads[t].pc.done[|done|]);
    }
  }

  lemma StepWeight(m: Machine, t: nat)
    requires Enabled(m, t) && Typed(m.threads[t])
    ensures var m' := Fire(m, t); var pc, pc' := m.threads[t].pc, m'.threads[t].pc;
            Weight(pc') < Weight(pc)
            || (pc.Notifying? && pc'.Notifying? && m'.regs == m.regs
                && |Ahead(m.regs, pc'.done)| < |Ahead(m.regs, pc.done)|)
  {
    hide WithUser, RegsWith, RegsWithout, Ahead, NotifyStep;
    match m.threads[t].pc
    case Notifying(_) => NotifyWeight(m, t);
    case HoldClip => assert Fire(m, t) == ClipStep(m, t);
    case HoldObs => assert Fire(m, t) == ObserverStep(m, t);
    case _ =>
  }

  lemma FewerAhead(regs: Registry, done: seq<Reg>, p: Reg)
    requires p in Ahead(regs, done)
    ensures |Ahead(regs, done + [p])| < |Ahead(regs, done)|
  {
    var fewer, more := Ahead(regs, done + [p]), Ahead(regs, done);
    assert fewer <= more - {p};
    SubsetIsNoLarger(fewer, more - {p});
  }

  lemma SubsetIsNoLarger(a: set<Reg>, b: set<Reg>)
    requires a <= b
    ensures |a| <= |b|
  {
    assert b == a + (b - a);
  }

  /** Each step leaves less to do. */
  lemma StepMakesProgress(m: Machine, t: nat)
    requires Inv(m) && Enabled(m, t)
    ensures var m' := Fire(m, t);
            Work(m'.threads) < Work(m.threads)
            || (Work(m'.threads) == Work(m.threads) && CallsAhead(m') < CallsAhead(m))
  {
    hide Fire, Work, Weight, Ahead, LocksOk, AllTyped, LogOk, Simulates, CallsOk, Typed;
    assert AllTyped(m) && Typed(m.threads[t]) by { ThreadTyped(m, t); }
    StepShape(m, t);
    StepWeight(m, t);
    HoldersMove(m, t);
    WorkUpdate(m.threads, t, Fire(m, t).threads[t]);
    NotifyingHasWeight(m.threads[t].pc, Fire(m, t).threads[t].pc);
  }

  lemma ThreadTyped(m: Machine, t: nat)
    requires Inv(m) && t < |m.threads|
    ensures AllTyped(m) && Typed(m.threads[t])
  {
  }

  lemma NotifyingHasWeight(a: PC, b: PC)
    ensures a.Notifying? && b.Notifying? ==> Weight(a) == Weight(b)
  {
  }

  /** As long as some call has not returned, sooner or later a turn goes to a thread that can move. */
  ghost predicate KeepsMoving(ops: seq<Op>, schedule: nat -> nat)
  {
    forall k: nat :: MovesAfter(ops, schedule, k)
  }

  ghost predicate MovesAfter(ops: seq<Op>, schedule: nat -> nat, k: nat)
  {
    exists n: nat :: n >= k && MovesAt(ops, schedule, n)
  }

  ghost predicate MovesAt(ops: seq<Op>, schedule: nat -> nat, n: nat)
  {
    AllFinished(Reached(ops, schedule, n)) || Enabled(Reached(ops, schedule, n), schedule(n))
  }

  /** The schedule gives no turn to a blocked thread while some call has not returned. */
  ghost predicate WastesNoTurn(ops: seq<Op>, schedule: nat -> nat)
  {
    forall k: nat :: !AllFinished(Reached(ops, schedule, k)) ==> Enabled(Reached(ops, schedule, k), schedule(k))
  }

  /** Every thread gets a turn again and again; the turns it gets while blocked are lost. */
  ghost predicate Fair(ops: seq<Op>, schedule: nat -> nat)
  {
    forall t: nat, k: nat :: t < |ops| ==> GetsTurnAfter(schedule, t, k)
  }

  ghost predicate GetsTurnAfter(schedule: nat -> nat, t: nat, k: nat)
  {
    exists n: nat :: n >= k && schedule(n) == t
  }

  lemma TurnMakesProgress(ops: seq<Op>, schedule: nat -> nat, k: nat)
    requires Enabled(Reached(ops, schedule, k), schedule(k))
    ensures var now, next := Reached(ops, schedule, k), Reached(ops, schedule, k + 1);
            Work(next.threads) < Work(now.threads)
            || (Work(next.threads) == Work(now.threads) && CallsAhead(next) < CallsAhead(now))
  {
    hide Inv, Work, CallsAhead, Fire, Enabled;
    InitialInvariant(ops);
    StepMakesProgress(Reached(ops, schedule, k), schedule(k));
    assert Reached(ops, schedule, k + 1) == Turn(Reached(ops, schedule, k), schedule(k));
  }

  lemma LostTurn(ops: seq<Op>, schedule: nat -> nat, k: nat)
    requires !Enabled(Reached(ops, schedule, k), schedule(k))
    ensures Reached(ops, schedule, k + 1) == Reached(ops, schedule, k)
  {
    hide Inv, Fire, Enabled;
    InitialInvariant(ops);
    assert Reached(ops, schedule, k + 1) == Turn(Reached(ops, schedule, k), schedule(k));
  }

  lemma NextMove(ops: seq<Op>, schedule: nat -> nat, k: nat) returns (n: nat)
    requires KeepsMoving(ops, schedule)
    ensures n >= k && MovesAt(ops, schedule, n)
  {
    hide MovesAt;
    assert MovesAfter(ops, schedule, k);
    n :| n >= k && MovesAt(ops, schedule, n);
  }

  lemma FinishesFrom(ops: seq<Op>, schedule: nat -> nat, k: nat, n: nat)
    requires KeepsMoving(ops, schedule) && n >= k && MovesAt(ops, schedule, n)
    ensures exists f: nat :: AllFinished(Reached(ops, schedule, f))
    decreases Work(Reached(ops, schedule, k).threads), CallsAhead(Reached(ops, schedule, k)), n - k
  {
    hide Inv, Work, CallsAhead, Reached, AllFinished, Enabled, KeepsMoving;
    if AllFinished(Reached(ops, schedule, k)) {
    } else if Enabled(Reached(ops, schedule, k), schedule(k)) {
      TurnMakesProgress(ops, schedule, k);
      var n' := NextMove(ops, schedule, k + 1);
      FinishesFrom(ops, schedule, k + 1, n');
    } else {
      LostTurn(ops, schedule, k);
      FinishesFrom(ops, schedule, k + 1, n);
    }
  }

  lemma MovingSchedulesFinish(ops: seq<Op>, schedule: nat -> nat)
    requires KeepsMoving(ops, schedule)
    ensures exists n: nat :: AllFinished(Reached(ops, schedule, n))
  {
    hide MovesAt, Reached, AllFinished;
    var n := NextMove(ops, schedule, 0);
    FinishesFrom(ops, schedule, 0, n);
  }

  /** Any schedule that wastes no turns reaches a state where all calls have returned. */
  lemma WastelessScheduleFinishes(ops: seq<Op>, schedule: nat -> nat)
    requires WastesNoTurn(ops, schedule)
    ensures exists n: nat :: AllFinished(Reached(ops, schedule, n))
  {
    hide AllFinished, Reached, Enabled;
    assert KeepsMoving(ops, schedule) by {
      forall k: nat
        ensures MovesAfter(ops, schedule, k)
      {
        assert MovesAt(ops, schedule, k);
      }
    }
    MovingSchedulesFinish(ops, schedule);
  }

  /** Until the next turn of an enabled thread something moves. */
  lemma EnabledThreadForcesMove(ops: seq<Op>, schedule: nat -> nat, t: nat, k: nat, n: nat)
    requires Enabled(Reached(ops, schedule, k), t) && k <= n && schedule(n) == t
    ensures MovesAfter(ops, schedule, k)
    decreases n - k
  {
    hide AllFinished, Reached, Enabled;
    if Enabled(Reached(ops, schedule, k), schedule(k)) {
      assert MovesAt(ops, schedule, k);
    } else {
      LostTurn(ops, schedule, k);
      EnabledThreadForcesMove(ops, schedule, t, k + 1, n);
    }
  }

  /** Every call returns, under every fair schedule. */
  lemma EveryCallReturns(ops: seq<Op>, schedule: nat -> nat)
    requires Fair(ops, schedule)
    ensures exists n: nat :: AllFinished(Reached(ops, schedule, n))
  {
    assert KeepsMoving(ops, schedule) by {
      forall k: nat
        ensures MovesAfter(ops, schedule, k)
      {
        FairScheduleMoves(ops, schedule, k);
      }
    }
    MovingSchedulesFinish(ops, schedule);
  }

  /** The thread whose turn it is when `size` threads take turns in rotation. */
  function Rotation(size: nat, k: nat): (t: nat)
    requires size > 0
    ensures t < size
  {
    if k == 0 || Rotation(size, k - 1) + 1 == size then 0 else Rotation(size, k - 1) + 1
  }

  lemma {:induction false} TurnComes(size: nat, t: nat, k: nat)
    requires t < size
    ensures GetsTurnAfter(n => Rotation(size, n), t, k)
    decreases if Rotation(size, k) <= t then t - Rotation(size, k) else size - Rotation(size, k) + t
  {
    var schedule: nat -> nat := n => Rotation(size, n);
    if Rotation(size, k) == t {
      assert schedule(k) == t;
    } else {
      TurnComes(size, t, k + 1);
      var n: nat :| n >= k + 1 && schedule(n) == t;
    }
  }

  /** Fair schedules exist: turns in rotation, so any calls return under it. */
  lemma RotationIsFair(ops: seq<Op>)
    requires ops != []
    ensures Fair(ops, n => Rotation(|ops|, n))
  {
    var schedule: nat -> nat := n => Rotation(|ops|, n);
    forall t: nat, k: nat | t < |ops|
      ensures GetsTurnAfter(schedule, t, k)
    {
      TurnComes(|ops|, t, k);
    }
  }

  lemma EnabledIsThread(ops: seq<Op>, schedule: nat -> nat, k: nat, t: nat)
    ensures Enabled(Reached(ops, schedule, k), t) ==> t < |ops|
  {
    hide Reached;
    Linearizable(ops, schedule, k);
  }

  lemma FairScheduleMoves(ops: seq<Op>, schedule: nat -> nat, k: nat)
    requires Fair(ops, schedule)
    ensures MovesAfter(ops, schedule, k)
  {
    hide AllFinished, Reached, Enabled;
    if AllFinished(Reached(ops, schedule, k)) {
      assert MovesAt(ops, schedule, k);
    } else {
      NoDeadlock(Reached(ops, schedule, k));
      var t: nat :| Enabled(Reached(ops, schedule, k), t);
      assert t < |ops| by { EnabledIsThread(ops, schedule, k, t); }
      assert GetsTurnAfter(schedule, t, k);
      var n: nat :| n >= k && schedule(n) == t;
      EnabledThreadForcesMove(ops, schedule, t, k, n);
    }
  }

  // Such schedules exist: in every state that is not the end some thread is enabled.

  /** A thread that can move, if there is one. */
  ghost function SomeEnabled(m: Machine): nat
  {
    if exists t: nat :: Enabled(m, t) then
      var t: nat :| Enabled(m, t);
      t
    else 0
  }

  /** The machine after `k` turns, each given to a thread that can move. */
  ghost function Driven(ops: seq<Op>, k: nat): (m: Machine)
    ensures Inv(m)
    decreases k
  {
    if k == 0 then
      InitialInvariant(ops);
      Initial(ops)
    else Turn(Driven(ops, k - 1), SomeEnabled(Driven(ops, k - 1)))
  }

  lemma {:induction false} DrivenIsReached(ops: seq<Op>, k: nat)
    ensures Reached(ops, n => SomeEnabled(Driven(ops, n)), k) == Driven(ops, k)
    decreases k
  {
    hide Inv, Turn, SomeEnabled, Initial;
    InitialInvariant(ops);
    if k > 0 {
      DrivenIsReached(ops, k - 1);
    }
  }

  /** For any calls there is a schedule that wastes no turn, so all of them can return. */
  lemma CallsCanReturn(ops: seq<Op>)
    ensures exists schedule: nat -> nat, n: nat ::
              WastesNoTurn(ops, schedule) && AllFinished(Reached(ops, schedule, n))
  {
    hide Inv, Turn, Driven, AllFinished, Enabled, Reached;
    var schedule: nat -> nat := n => SomeEnabled(Driven(ops, n));
    forall k: nat | !AllFinished(Reached(ops, schedule, k))
      ensures Enabled(Reached(ops, schedule, k), schedule(k))
    {
      DrivenIsReached(ops, k);
      NoDeadlock(Driven(ops, k));
    }
    WastelessScheduleFinishes(ops, schedule);
  }
}
