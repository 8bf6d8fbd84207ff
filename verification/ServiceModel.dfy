/**
 The service as a state machine: what each call does to the clips, the observer registrations, the
 access ring and the notification log, and which telemetry it makes. Notifications assume that
 observer callbacks return and do not call back into the service.
 */
module ServiceModel {
  import opened Wrappers
  import opened Sequences
  import opened PasteDataRecords
  import opened PasteDataModel
  import opened ConsumingTables
  import opened AppCounters

  const ERROR_USERID := -1
  const DATA_HISTORY_SIZE := 10
  const DEFAULT_BUNDLE := "com.pasteboard.default"

  type Clips = map<int, Contents>

  /** An observer proxy; two proxies of one remote object compare equal in the observer sets. */
  datatype Observer = Observer(remote: int, handle: int)

  /** Per user, the observers by the address of their remote object. */
  type Registry = map<int, map<int, Observer>>

  datatype Reg = Reg(user: int, remote: int)

  predicate Registered(regs: Registry, p: Reg)
  {
    p.user in regs && p.remote in regs[p.user]
  }

  /** The order in which the maps are iterated: by user, then by remote object. */
  predicate Before(a: Reg, b: Reg)
  {
    a.user < b.user || (a.user == b.user && a.remote < b.remote)
  }

  ghost predicate Ordered(calls: seq<Reg>)
  {
    forall i, k :: 0 <= i < k < |calls| ==> Before(calls[i], calls[k])
  }

  /** A notification round: every registration once, in iteration order. */
  ghost predicate IsRound(regs: Registry, calls: seq<Reg>)
  {
    Ordered(calls) && forall p :: p in calls <==> Registered(regs, p)
  }

  function RegsWith(regs: Registry, user: int, o: Observer): Registry
  {
    var own := if user in regs then regs[user] else map[];
    regs[user := if o.remote in own then own else own[o.remote := o]]
  }

  /** The user's set exists, empty if there was none. */
  function WithUser(regs: Registry, user: int): Registry
  {
    if user in regs then regs else regs[user := map[]]
  }

  lemma CreatingThenInserting(regs: Registry, user: int, o: Observer)
    ensures RegsWith(WithUser(regs, user), user, o) == RegsWith(regs, user, o)
  {
  }

  function RegsWithout(regs: Registry, user: int, remote: int): Registry
  {
    if user in regs then regs[user := regs[user] - {remote}] else regs
  }

  // Rounds are determined by the registrations.

  ghost function RegSet(regs: Registry): set<Reg>
  {
    set u, r | u in regs && r in regs[u] :: Reg(u, r)
  }

  ghost predicate IsLeast(s: set<Reg>, p: Reg)
  {
    p in s && forall q :: q in s ==> q == p || Before(p, q)
  }

  lemma {:induction false} LeastRegExists(s: set<Reg>)
    requires s != {}
    ensures exists p :: IsLeast(s, p)
    decreases |s|
  {
    var x :| x in s;
    var others := s - {x};
    assert s == others + {x};
    if others == {} {
      assert IsLeast(s, x);
    } else {
      LeastRegExists(others);
      var y :| IsLeast(others, y);
      assert IsLeast(s, if Before(x, y) then x else y);
    }
  }

  ghost function SortedRegs(s: set<Reg>): (calls: seq<Reg>)
    ensures Ordered(calls) && forall p :: p in calls <==> p in s
    decreases |s|
  {
    if s == {} then []
    else
      LeastRegExists(s);
      var p :| IsLeast(s, p);
      [p] + SortedRegs(s - {p})
  }

  ghost function RoundOf(regs: Registry): (calls: seq<Reg>)
    ensures IsRound(regs, calls)
  {
    SortedRegs(RegSet(regs))
  }

  lemma NoMembersMeansEmpty(s: seq<Reg>)
    ensures (forall p :: p !in s) ==> s == []
  {
    assert s == [] || s[0] in s;
  }

  lemma {:induction false} OrderedUnique(a: seq<Reg>, b: seq<Reg>)
    requires Ordered(a) && Ordered(b)
    requires forall p :: p in a <==> p in b
    ensures a == b
    decreases |a|
  {
    if a == [] {
      NoMembersMeansEmpty(b);
    } else {
      assert a[0] in b && b[0] in a;
      assert a[0] == b[0];
      forall p
        ensures p in a[1..] <==> p in b[1..]
      {
        assert p in a <==> p == a[0] || p in a[1..];
        assert p in b <==> p == b[0] || p in b[1..];
      }
      OrderedUnique(a[1..], b[1..]);
    }
  }

  lemma RoundIsUnique(regs: Registry, calls: seq<Reg>)
    requires IsRound(regs, calls)
    ensures calls == RoundOf(regs)
  {
    OrderedUnique(calls, RoundOf(regs));
  }

  /** A round has every registration in it, nothing else, and nothing twice: by user, then by remote object. */
  lemma RoundCallsEachOnce(regs: Registry, user: int, remote: int)
    ensures Reg(user, remote) in RoundOf(regs) <==> user in regs && remote in regs[user]
    ensures var round := RoundOf(regs);
            forall i, k :: 0 <= i < k < |round| ==>
                             round[i].user < round[k].user
                             || (round[i].user == round[k].user && round[i].remote < round[k].remote)
  {
    var round := RoundOf(regs);
    assert Reg(user, remote) in round <==> Registered(regs, Reg(user, remote));
    assert forall i, k :: 0 <= i < k < |round| ==> Before(round[i], round[k]);
  }

  /** What the environment supplies with a set or get: user id, bundle name lookup, clock readings. */
  datatype Caller = Caller(user: int, bundle: Option<string>, stamp: string, start: nat, end: nat)
  {
    function BundleName(): string
    {
      if bundle.Some? then bundle.value else DEFAULT_BUNDLE
    }
  }

  datatype Call =
    | Set(caller: Caller, data: Contents)
    | Get(caller: Caller)
    | Has(user: int)
    | Clear(user: int)
    | AddObserver(user: int, observer: Option<Observer>)
    | RemoveObserver(user: int, observer: Option<Observer>)
    | RemoveAll(user: int)
    | TimerFlush(copySlots: seq<Slot>, pasteSlots: seq<Slot>)

  datatype State = State(clips: Clips, regs: Registry, rounds: seq<seq<Reg>>, history: seq<string>)

  const INITIAL := State(map[], map[], [], [])

  function HistoryEntry(c: Caller, state: string): string
  {
    c.stamp + "  " + c.BundleName() + "    " + state
  }

  function RingPush(history: seq<string>, entry: string): seq<string>
  {
    (if |history| == DATA_HISTORY_SIZE then history[1..] else history) + [entry]
  }

  ghost function Notified(s: State): State
  {
    s.(rounds := s.rounds + [RoundOf(s.regs)])
  }

  ghost function Step(s: State, c: Call): State
  {
    match c
    case Set(caller, data) =>
      var logged := s.(history := RingPush(s.history, HistoryEntry(caller, "Set")));
      if caller.user == ERROR_USERID then logged
      else Notified(logged.(clips := s.clips[caller.user := data]))
    case Get(caller) => s.(history := RingPush(s.history, HistoryEntry(caller, "Get")))
    case Has(_) => s
    case Clear(user) =>
      if user == ERROR_USERID || user !in s.clips then s else Notified(s.(clips := s.clips - {user}))
    case AddObserver(user, o) =>
      if o.None? || user == ERROR_USERID then s else s.(regs := RegsWith(s.regs, user, o.value))
    case RemoveObserver(user, o) =>
      if o.None? || user == ERROR_USERID then s else s.(regs := RegsWithout(s.regs, user, o.value.remote))
    case RemoveAll(user) => if user == ERROR_USERID then s else s.(regs := s.regs - {user})
    case TimerFlush(_, _) => s
  }

  ghost function StateAfter(calls: seq<Call>): State
    decreases |calls|
  {
    if calls == [] then INITIAL else Step(StateAfter(calls[..|calls| - 1]), calls[|calls| - 1])
  }

  function GetReply(s: State, user: int): Option<Contents>
  {
    if user != ERROR_USERID && user in s.clips then Some(s.clips[user]) else None
  }

  // Clips: refinement of independent per-user cells.

  /** The clip of a user as read off the call history: its latest set, unless it cleared later. */
  ghost function ClipFor(calls: seq<Call>, user: int): Option<Contents>
    decreases |calls|
  {
    if calls == [] || user == ERROR_USERID then None
    else
      var last := calls[|calls| - 1];
      if last.Set? && last.caller.user == user then Some(last.data)
      else if last.Clear? && last.user == user then None
      else ClipFor(calls[..|calls| - 1], user)
  }

  /**
   Trace refinement: after any calls by any users, Get for a user answers with the data of its
   latest Set, or with nothing if it never set or cleared since; -1 never becomes a key.
   */
  lemma {:induction false} TraceRefinement(calls: seq<Call>, user: int)
    ensures GetReply(StateAfter(calls), user) == ClipFor(calls, user)
    ensures ERROR_USERID !in StateAfter(calls).clips && ERROR_USERID !in StateAfter(calls).regs
    ensures -1 !in StateAfter(calls).clips && -1 !in StateAfter(calls).regs
    ensures user == -1 ==> GetReply(StateAfter(calls), user).None?
    decreases |calls|
  {
    if calls != [] {
      TraceRefinement(calls[..|calls| - 1], user);
    }
  }

  /** The sets and clears of one user, in order. */
  ghost function OwnUpdates(calls: seq<Call>, user: int): seq<Call>
    decreases |calls|
  {
    if calls == [] then []
    else
      var last := calls[|calls| - 1];
      OwnUpdates(calls[..|calls| - 1], user)
      + (if (last.Set? && last.caller.user == user) || (last.Clear? && last.user == user) then [last] else [])
  }

  /** Isolation: erasing everything but a user's own sets and clears changes none of its answers. */
  lemma OthersNeverChangeClip(calls: seq<Call>, user: int)
    ensures GetReply(StateAfter(calls), user) == GetReply(StateAfter(OwnUpdates(calls, user)), user)
    decreases |calls|
  {
    OwnUpdatesSuffice(calls, user);
    TraceRefinement(calls, user);
    TraceRefinement(OwnUpdates(calls, user), user);
  }

  lemma {:induction false} OwnUpdatesSuffice(calls: seq<Call>, user: int)
    ensures ClipFor(OwnUpdates(calls, user), user) == ClipFor(calls, user)
    decreases |calls|
  {
    if calls != [] {
      var own := OwnUpdates(calls[..|calls| - 1], user);
      OwnUpdatesSuffice(calls[..|calls| - 1], user);
      assert OwnUpdates(calls, user)[..|OwnUpdates(calls, user)|] == OwnUpdates(calls, user);
      if OwnUpdates(calls, user) != own {
        assert OwnUpdates(calls, user) == own + [calls[|calls| - 1]];
      }
    }
  }

  // Observers.

  /** The proxy that a user's registration of a remote object holds, read off the call history. */
  ghost function ObserverFor(calls: seq<Call>, p: Reg): Option<Observer>
    decreases |calls|
  {
    if calls == [] || p.user == ERROR_USERID then None
    else
      var last := calls[|calls| - 1];
      var earlier := ObserverFor(calls[..|calls| - 1], p);
      if last.RemoveAll? && last.user == p.user then None
      else if last.RemoveObserver? && last.user == p.user && last.observer.Some?
              && last.observer.value.remote == p.remote then None
      else if last.AddObserver? && last.user == p.user && last.observer.Some?
              && last.observer.value.remote == p.remote && earlier.None? then last.observer
      else earlier
  }

  /**
   After any calls, exactly the remote objects added and not removed since are registered, each with
   the first proxy added for it: duplicates have no effect, nor have calls of other users.
   */
  lemma {:induction false} RegistrationsFollowHistory(calls: seq<Call>, p: Reg)
    ensures var regs := StateAfter(calls).regs;
            ObserverFor(calls, p) == if Registered(regs, p) then Some(regs[p.user][p.remote]) else None
    ensures Registered(StateAfter(calls).regs, p) ==> StateAfter(calls).regs[p.user][p.remote].remote == p.remote
    decreases |calls|
  {
    if calls != [] {
      RegistrationsFollowHistory(calls[..|calls| - 1], p);
      TraceRefinement(calls[..|calls| - 1], p.user);
    }
  }

  /** Adding a new observer and removing it again restores the registration relation. */
  lemma AddThenRemoveRestores(s: State, user: int, o: Observer)
    requires !Registered(s.regs, Reg(user, o.remote))
    ensures var after := Step(Step(s, AddObserver(user, Some(o))), RemoveObserver(user, Some(o)));
            RegSet(after.regs) == RegSet(s.regs)
            && forall p :: Registered(s.regs, p) ==> after.regs[p.user][p.remote] == s.regs[p.user][p.remote]
    ensures var once := Step(s, AddObserver(user, Some(o)));
            forall o': Observer :: o'.remote == o.remote ==> Step(once, AddObserver(user, Some(o'))) == once
  {
  }

  // Notification rounds.

  /** Whether a call makes a round: an effective set, or a clear that removed a clip. */
  ghost predicate Notifies(calls: seq<Call>, k: nat)
    requires k < |calls|
  {
    match calls[k]
    case Set(caller, _) => caller.user != ERROR_USERID
    case Clear(user) => ClipFor(calls[..k], user).Some?
    case _ => false
  }

  /** One round for each notifying call, in call order. */
  ghost function ExpectedRounds(calls: seq<Call>, n: nat): seq<seq<Reg>>
    requires n <= |calls|
    decreases n
  {
    if n == 0 then []
    else
      ExpectedRounds(calls, n - 1) + (if Notifies(calls, n - 1) then [RoundOf(StateAfter(calls[..n - 1]).regs)] else [])
  }

  /**
   Over any run, the rounds are one per effective Set and per Clear that removed a clip, in the
   order of those calls, and each round calls every registration present then exactly once.
   */
  lemma {:induction false} RoundsFollowUpdates(calls: seq<Call>, n: nat)
    requires n <= |calls|
    ensures StateAfter(calls[..n]).rounds == ExpectedRounds(calls, n)
    decreases n
  {
    if n > 0 {
      RoundsFollowUpdates(calls, n - 1);
      assert calls[..n][..n - 1] == calls[..n - 1];
      assert calls[..n][n - 1] == calls[n - 1];
      if calls[n - 1].Clear? {
        TraceRefinement(calls[..n - 1], calls[n - 1].user);
      }
    }
  }

  // The access ring.

  /** The time stamp, the app that was looked up or the default, and what it did. */
  ghost function AccessEntry(caller: Caller, action: string): string
  {
    caller.stamp + "  " + (if caller.bundle.Some? then caller.bundle.value else "com.pasteboard.default")
    + "    " + action
  }

  ghost function AccessEntries(calls: seq<Call>): seq<string>
    decreases |calls|
  {
    if calls == [] then []
    else
      var last := calls[|calls| - 1];
      AccessEntries(calls[..|calls| - 1])
      + (if last.Set? then [AccessEntry(last.caller, "Set")]
         else if last.Get? then [AccessEntry(last.caller, "Get")] else [])
  }

  lemma HistoryEntryIsAccessEntry(caller: Caller, action: string)
    ensures HistoryEntry(caller, action) == AccessEntry(caller, action)
  {
  }

  lemma RingPushKeepsLastTen(entries: seq<string>, entry: string)
    ensures RingPush(Last(DATA_HISTORY_SIZE, entries), entry) == Last(DATA_HISTORY_SIZE, entries + [entry])
  {
  }

  /** After any run the ring holds the last ten Set and Get entries, oldest first. */
  lemma {:induction false} RingHoldsLastTen(calls: seq<Call>)
    ensures StateAfter(calls).history == Last(DATA_HISTORY_SIZE, AccessEntries(calls))
    decreases |calls|
  {
    if calls != [] {
      hide RingPush, Last, HistoryEntry, AccessEntry;
      var before, last := calls[..|calls| - 1], calls[|calls| - 1];
      RingHoldsLastTen(before);
      if last.Set? || last.Get? {
        HistoryEntryIsAccessEntry(last.caller, if last.Set? then "Set" else "Get");
        RingPushKeepsLastTen(AccessEntries(before), AccessEntry(last.caller, if last.Set? then "Set" else "Get"));
      } else {
        assert AccessEntries(calls) == AccessEntries(before);
      }
    }
  }

  /** The ring, entry by entry. */
  lemma RingEntries(calls: seq<Call>)
    ensures var ring, entries := StateAfter(calls).history, AccessEntries(calls);
            |ring| == (if |entries| < 10 then |entries| else 10)
            && forall i :: 0 <= i < |ring| ==> ring[i] == entries[|entries| - |ring| + i]
  {
    hide StateAfter, AccessEntries;
    RingHoldsLastTen(calls);
  }

  // Telemetry.

  /** The size the service measures: the text length of the last record. */
  function GetDataSize(data: Contents): nat
  {
    if |data.records| == 0 then 0
    else
      var record := data.records[|data.records| - 1];
      if record.Some? then |record.value.ConvertToText()| else 0
  }

  /** The measurement dereferences no null record. */
  predicate Measurable(data: Contents)
  {
    data.records != [] ==> data.records[|data.records| - 1].Some?
  }

  lemma NonemptyHasMember(s: set<int>)
    ensures s != {} <==> exists x :: x in s
  {
    if forall x :: x !in s {
      assert s == {};
    }
  }

  predicate IsGreatest(s: set<int>, k: int)
  {
    k in s && forall j :: j in s ==> j <= k
  }

  lemma {:induction false} GreatestExists(s: set<int>)
    requires s != {}
    ensures exists k :: IsGreatest(s, k)
    decreases |s|
  {
    NonemptyHasMember(s);
    var x: int :| x in s;
    var others := s - {x};
    assert s == others + {x};
    if others == {} {
      assert IsGreatest(s, x);
    } else {
      GreatestExists(others);
      var y :| IsGreatest(others, y);
      assert IsGreatest(s, if x > y then x else y);
    }
  }

  /** `clips_.rbegin()`: the clip of the greatest user id, whoever is calling. */
  function LastClip(clips: Clips): (last: Contents)
    requires clips != map[]
    ensures exists k :: IsGreatest(clips.Keys, k) && last == clips[k]
  {
    GreatestExists(clips.Keys);
    var k :| IsGreatest(clips.Keys, k);
    clips[k]
  }

  /**
   Which clip `LastClip` is: knowing only who has clips, it is certain to be a given user's own
   exactly when nobody greater has one.
   */
  lemma LastClipIsOwnIff(keys: set<int>, user: int)
    requires user in keys
    ensures (forall clips: Clips :: clips.Keys == keys ==> LastClip(clips) == clips[user])
            <==> forall v :: v in keys ==> v <= user
  {
    if exists v :: v in keys && v > user {
      var own, other := EMPTY, Contents([None], []);
      var clips: Clips := map v | v in keys :: if v == user then own else other;
      assert clips.Keys == keys;
      assert LastClip(clips) == other && clips[user] == own;
    }
  }

  /** The measurement a call reports, if any. */
  function StatOf(s: State, c: Call): Option<Stat>
  {
    match c
    case Set(caller, data) => Some(Measured(GetDataSize(data), SPS_COPY_STATE, caller.start, caller.end))
    case Get(caller) =>
      if s.clips == map[] then None
      else Some(Measured(GetDataSize(LastClip(s.clips)), SPS_PASTE_STATE, caller.start, caller.end))
    case _ => None
  }

  function StatOps(s: State, c: Call): seq<TableOp>
  {
    if StatOf(s, c).Some? then [Report(StatOf(s, c).value)] else if c.TimerFlush? then [Flush] else []
  }

  function AppOps(c: Call): seq<AppOp>
  {
    match c
    case Set(caller, _) => [Note(BPS_COPY_STATE, caller.BundleName())]
    case Get(caller) => [Note(BPS_PASTE_STATE, caller.BundleName())]
    case TimerFlush(copySlots, pasteSlots) => [FlushApps(copySlots, pasteSlots)]
    case _ => []
  }

  /** The greatest user that has a clip after these calls. */
  ghost predicate GreatestHolder(calls: seq<Call>, w: int)
  {
    ClipFor(calls, w).Some? && forall v :: ClipFor(calls, v).Some? ==> v <= w
  }

  /**
   What a get measures, over any calls: as soon as anyone has a clip, the clip of the greatest user
   that has one. That holds for every caller, also one without a clip or with an unresolved user id.
   */
  lemma GetMeasuresGreatestHolder(calls: seq<Call>, caller: Caller)
    ensures StatOf(StateAfter(calls), Get(caller)).Some? <==> SomeoneHasClip(calls)
    ensures SomeoneHasClip(calls) ==>
              exists w :: GreatestHolder(calls, w)
                          && LastClip(StateAfter(calls).clips) == ClipFor(calls, w).value
                          && StatOf(StateAfter(calls), Get(caller))
                             == Some(Measured(GetDataSize(ClipFor(calls, w).value), SPS_PASTE_STATE,
                                              caller.start, caller.end))
  {
    hide Measured, GetDataSize;
    SomeClipIff(calls);
    if SomeoneHasClip(calls) {
      var clips := StateAfter(calls).clips;
      var last := LastClip(clips);
      var w :| IsGreatest(clips.Keys, w) && last == clips[w];
      forall v
        ensures ClipFor(calls, v) == if v in clips then Some(clips[v]) else None
      {
        TraceRefinement(calls, v);
      }
      assert GreatestHolder(calls, w) && last == ClipFor(calls, w).value;
    }
  }

  /** The same users have clips after both histories. */
  ghost predicate SameHolders(a: seq<Call>, b: seq<Call>)
  {
    forall v :: ClipFor(a, v).Some? <==> ClipFor(b, v).Some?
  }

  /**
   A get of a user that has a clip measures that clip, whatever the clips hold, if and only if no
   greater user has one.
   */
  lemma GetMeasuresOwnClipIff(calls: seq<Call>, user: int)
    requires ClipFor(calls, user).Some?
    ensures (forall others: seq<Call> :: SameHolders(calls, others) ==>
               LastClipOf(others) == ClipFor(others, user))
            <==> GreatestHolder(calls, user)
  {
    if GreatestHolder(calls, user) {
      forall others: seq<Call> | SameHolders(calls, others)
        ensures LastClipOf(others) == ClipFor(others, user)
      {
        LastClipOfHolder(others);
        var w :| GreatestHolder(others, w) && LastClipOf(others) == ClipFor(others, w);
        assert ClipFor(calls, w).Some?;
        assert w == user;
      }
    } else {
      LastClipOfHolder(calls);
      var w :| GreatestHolder(calls, w) && LastClipOf(calls) == ClipFor(calls, w);
      var own := ClipFor(calls, user).value;
      var different := if own == EMPTY then Contents([None], []) else EMPTY;
      var others := calls + [Set(Caller(w, None, "", 0, 0), different)];
      assert others[..|others| - 1] == calls;
      assert SameHolders(calls, others);
      assert ClipFor(others, user) == Some(own) && ClipFor(others, w) == Some(different);
      LastClipOfHolder(others);
      var w' :| GreatestHolder(others, w') && LastClipOf(others) == ClipFor(others, w');
      assert w' == w;
    }
  }

  /** The clip the next get would measure, None when nobody has one. */
  ghost function LastClipOf(calls: seq<Call>): Option<Contents>
  {
    if StateAfter(calls).clips == map[] then None else Some(LastClip(StateAfter(calls).clips))
  }

  lemma LastClipOfHolder(calls: seq<Call>)
    requires SomeoneHasClip(calls)
    ensures exists w :: GreatestHolder(calls, w) && LastClipOf(calls) == ClipFor(calls, w)
  {
    SomeClipIff(calls);
    GetMeasuresGreatestHolder(calls, Caller(0, None, "", 0, 0));
  }

  /** Two users set, the lower one gets: its clip has one character, the measured one none. */
  lemma GetMeasuresOtherUsersClip()
    ensures var own := Refreshed([NewPlaintTextRecord("a")]);
            var calls := [Set(Caller(1, None, "", 0, 0), own), Set(Caller(2, None, "", 0, 0), EMPTY)];
            var stat := StatOf(StateAfter(calls), Get(Caller(1, None, "", 0, 0)));
            ClipFor(calls, 1) == Some(own) && GetDataSize(own) == 1
            && stat == Some(Measured(0, SPS_PASTE_STATE, 0, 0)) && stat != Some(Measured(1, SPS_PASTE_STATE, 0, 0))
  {
    var own := Refreshed([NewPlaintTextRecord("a")]);
    var calls := [Set(Caller(1, None, "", 0, 0), own), Set(Caller(2, None, "", 0, 0), EMPTY)];
    assert calls[..1] == [Set(Caller(1, None, "", 0, 0), own)];
    assert ClipFor(calls, 2) == Some(EMPTY);
    assert ClipFor(calls, 1) == ClipFor(calls[..1], 1) == Some(own);
    assert SomeoneHasClip(calls);
    GetMeasuresGreatestHolder(calls, Caller(1, None, "", 0, 0));
    var w :| GreatestHolder(calls, w) && LastClip(StateAfter(calls).clips) == ClipFor(calls, w).value
             && StatOf(StateAfter(calls), Get(Caller(1, None, "", 0, 0)))
                == Some(Measured(GetDataSize(ClipFor(calls, w).value), SPS_PASTE_STATE, 0, 0));
    assert w == 2 by {
      if w > 2 {
        assert ClipFor(calls[..1][..0], w).None?;
      }
    }
  }

  ghost function AllStatOps(calls: seq<Call>): seq<TableOp>
    decreases |calls|
  {
    if calls == [] then []
    else AllStatOps(calls[..|calls| - 1]) + StatOps(StateAfter(calls[..|calls| - 1]), calls[|calls| - 1])
  }

  ghost function AllAppOps(calls: seq<Call>): seq<AppOp>
    decreases |calls|
  {
    if calls == [] then [] else AllAppOps(calls[..|calls| - 1]) + AppOps(calls[|calls| - 1])
  }

  ghost predicate SomeoneHasClip(calls: seq<Call>)
  {
    exists user :: ClipFor(calls, user).Some?
  }

  /** Set calls for PasteState, get calls made while some user had a clip for CopyState. */
  ghost function MeasuredCalls(calls: seq<Call>, tag: Label): nat
    decreases |calls|
  {
    if calls == [] then 0
    else
      var before, last := calls[..|calls| - 1], calls[|calls| - 1];
      MeasuredCalls(before, tag)
      + (if (tag == PasteState && last.Set?) || (tag == CopyState && last.Get? && SomeoneHasClip(before)) then 1 else 0)
  }

  lemma SomeClipIff(calls: seq<Call>)
    ensures StateAfter(calls).clips != map[] <==> SomeoneHasClip(calls)
  {
    if StateAfter(calls).clips != map[] {
      var clips := StateAfter(calls).clips;
      NonemptyHasMember(clips.Keys);
      var user :| user in clips;
      TraceRefinement(calls, user);
    } else {
      forall user
        ensures ClipFor(calls, user).None?
      {
        TraceRefinement(calls, user);
      }
    }
  }

  /**
   Telemetry conservation over any run of calls and flushes: what the paste table holds plus what was
   emitted as PasteState is the number of sets; what the copy table holds plus what was emitted as
   CopyState is the number of gets made while some clip existed. No measurement is lost, and each is
   counted under the other label.
   */
  lemma {:induction false} TelemetryConservation(calls: seq<Call>, tag: Label)
    ensures Total(TablesAfter(AllStatOps(calls)), tag) == MeasuredCalls(calls, tag)
    decreases |calls|
  {
    if calls == [] {
      NothingCounted(tag);
    } else {
      hide Total, StatOf, StatOps, MeasuredCalls, KnownLevels, Step;
      var before, last := calls[..|calls| - 1], calls[|calls| - 1];
      TelemetryConservation(before, tag);
      StatOpsOfCall(StateAfter(before), last);
      StatOpsTotal(AllStatOps(before), StatOps(StateAfter(before), last), tag);
      MeasuredCallsStep(calls, tag);
    }
  }

  lemma StatOpsOfCall(s: State, c: Call)
    ensures var ops := StatOps(s, c);
            |ops| <= 1 && (ops != [] && ops[0].Report? <==> StatOf(s, c).Some?)
            && (ops != [] && ops[0].Report? ==> ops[0].stat == StatOf(s, c).value && KnownLevels(ops[0].stat))
  {
    hide KnownLevels, Measured;
    if StatOf(s, c).Some? {
      StatsAreKnown(s, c);
    }
  }

  lemma MeasuredCallsStep(calls: seq<Call>, tag: Label)
    requires calls != []
    ensures var before, last := calls[..|calls| - 1], calls[|calls| - 1]; var stat := StatOf(StateAfter(before), last);
            MeasuredCalls(calls, tag)
            == MeasuredCalls(before, tag) + (if stat.Some? && stat.value.state == StateUnder(tag) then 1 else 0)
  {
    hide CalculateData, CalculateTime, GetDataSize, LastClip;
    SomeClipIff(calls[..|calls| - 1]);
  }

  lemma StatOpsTotal(ops: seq<TableOp>, more: seq<TableOp>, tag: Label)
    requires |more| <= 1 && (more != [] && more[0].Report? ==> KnownLevels(more[0].stat))
    ensures Total(TablesAfter(ops + more), tag)
            == Total(TablesAfter(ops), tag)
               + (if more != [] && more[0].Report? && more[0].stat.state == StateUnder(tag) then 1 else 0)
  {
    hide Total, KnownLevels;
    if more == [] {
      assert ops + more == ops;
    } else {
      assert (ops + more)[..|ops|] == ops;
      match more[0]
      case Report(stat) => ReportAddsToTotal(TablesAfter(ops), stat, tag);
      case Flush => FlushKeepsTotal(TablesAfter(ops), tag);
    }
  }

  lemma NothingCounted(tag: Label)
    ensures Total(NO_TABLES, tag) == 0
  {
  }

  lemma StatsAreKnown(s: State, c: Call)
    requires StatOf(s, c).Some?
    ensures KnownLevels(StatOf(s, c).value) && StatOf(s, c).value.data != DR_HUNDRED_TO_FIVE_HUNDREDS_KB
  {
    if c.Set? {
      MeasuredLevelsKnown(GetDataSize(c.data), SPS_COPY_STATE, c.caller.start, c.caller.end);
    } else {
      MeasuredLevelsKnown(GetDataSize(LastClip(s.clips)), SPS_PASTE_STATE, c.caller.start, c.caller.end);
    }
  }

  /** The size a call is measured with, None when it is not measured. */
  ghost function SizeMeasured(before: seq<Call>, c: Call, tag: Label): Option<nat>
  {
    if tag == PasteState && c.Set? then Some(GetDataSize(c.data))
    else if tag == CopyState && c.Get? && LastClipOf(before).Some? then Some(GetDataSize(LastClipOf(before).value))
    else None
  }

  /** The calls counted under a label whose measured size and time fall in the given classes. */
  ghost function MeasuredIn(calls: seq<Call>, tag: Label, i: nat, j: nat): nat
    decreases |calls|
  {
    if calls == [] then 0
    else
      var before, last := calls[..|calls| - 1], calls[|calls| - 1];
      var size := SizeMeasured(before, last, tag);
      MeasuredIn(before, tag, i, j)
      + (if size.Some? && CalculateData(size.value) == i
            && CalculateTime((last.caller.end - last.caller.start) % 0x1_0000_0000_0000_0000) == j then 1 else 0)
  }

  lemma ReportsAppend(ops: seq<TableOp>, more: seq<TableOp>, state: int, i: nat, j: nat)
    requires |more| <= 1
    ensures Reports(ops + more, state, i, j)
            == Reports(ops, state, i, j) + (if more != [] && more[0] == Report(Stat(state, i, j)) then 1 else 0)
  {
    if more == [] {
      assert ops + more == ops;
    } else {
      assert (ops + more)[..|ops|] == ops;
    }
  }

  lemma ReportOfCall(before: seq<Call>, c: Call, tag: Label, i: nat, j: nat)
    ensures var more := StatOps(StateAfter(before), c); var size := SizeMeasured(before, c, tag);
            |more| <= 1
            && (more != [] && more[0] == Report(Stat(StateUnder(tag), i, j))
                <==> size.Some? && CalculateData(size.value) == i
                     && CalculateTime((c.caller.end - c.caller.start) % 0x1_0000_0000_0000_0000) == j)
  {
    hide CalculateData, CalculateTime, GetDataSize, LastClip;
  }

  lemma {:induction false} ReportsAreMeasuredCalls(calls: seq<Call>, tag: Label, i: nat, j: nat)
    ensures Reports(AllStatOps(calls), StateUnder(tag), i, j) == MeasuredIn(calls, tag, i, j)
    decreases |calls|
  {
    if calls != [] {
      hide Reports, StatOps, SizeMeasured, CalculateData, CalculateTime;
      var before, last := calls[..|calls| - 1], calls[|calls| - 1];
      ReportsAreMeasuredCalls(before, tag, i, j);
      ReportOfCall(before, last, tag, i, j);
      ReportsAppend(AllStatOps(before), StatOps(StateAfter(before), last), StateUnder(tag), i, j);
    }
  }

  /**
   Telemetry conservation cell by cell: over any calls and flushes, what a cell holds plus what was
   emitted for it is, under PasteState, the number of sets whose measured size and time fall in it, and
   under CopyState the number of gets, measured on the clip of the greatest user that has one.
   */
  lemma CellsCountMeasuredCalls(calls: seq<Call>, tag: Label, i: nat, j: nat)
    requires i < 7 && j < 11
    ensures var t := TablesAfter(AllStatOps(calls));
            Cell(TableFor(t, tag), i, j) + Emitted(t.rows, tag, GetDataLevel(i), j) == MeasuredIn(calls, tag, i, j)
  {
    hide GetDataLevel, Emitted, Reports, MeasuredIn;
    CellConservation(AllStatOps(calls), i, j);
    ReportsAreMeasuredCalls(calls, tag, i, j);
  }

  /**
   The classification never uses its second range, so over any run of the service every emitted cell
   of the level HUNDRED_TO_FIVE_HUNDREDS_KB adds up to zero, under both labels.
   */
  lemma SecondLevelStaysEmpty(calls: seq<Call>, tag: Label, j: nat)
    requires j < TIME_LEVEL_NUMBERS
    ensures Emitted(TablesAfter(AllStatOps(calls)).rows, tag, "HUNDRED_TO_FIVE_HUNDREDS_KB", j)
            + Cell(if tag == CopyState then TablesAfter(AllStatOps(calls)).copy
                   else TablesAfter(AllStatOps(calls)).paste, 1, j) == 0
  {
    CellConservation(AllStatOps(calls), 1, j);
    NoSecondLevelReports(calls, SPS_COPY_STATE, j);
    NoSecondLevelReports(calls, SPS_PASTE_STATE, j);
    assert GetDataLevel(1) == "HUNDRED_TO_FIVE_HUNDREDS_KB";
  }

  lemma {:induction false} NoSecondLevelReports(calls: seq<Call>, state: int, j: nat)
    ensures Reports(AllStatOps(calls), state, 1, j) == 0
    decreases |calls|
  {
    if calls != [] {
      var before, last := calls[..|calls| - 1], calls[|calls| - 1];
      NoSecondLevelReports(before, state, j);
      var ops, more := AllStatOps(before), StatOps(StateAfter(before), last);
      if more == [] {
        assert ops + more == ops;
      } else {
        assert (ops + more)[..|ops + more| - 1] == ops;
        if StatOf(StateAfter(before), last).Some? {
          StatsAreKnown(StateAfter(before), last);
        }
      }
    }
  }

  ghost function SetsAndGets(calls: seq<Call>): nat
    decreases |calls|
  {
    if calls == [] then 0
    else SetsAndGets(calls[..|calls| - 1]) + (if calls[|calls| - 1].Set? || calls[|calls| - 1].Get? then 1 else 0)
  }

  /** One more operation of a run, or none. */
  lemma AppOpsTotal(ops: seq<AppOp>, more: seq<AppOp>)
    requires |more| <= 1 && Trace(ops + more)
    requires more != [] && more[0].Note? ==> more[0].state in {BPS_COPY_STATE, BPS_PASTE_STATE}
    ensures Trace(ops)
    ensures AppTotal(AppsAfter(ops + more))
            == AppTotal(AppsAfter(ops)) + (if more != [] && more[0].Note? then 1 else 0)
  {
    hide AppTotal, Allowed, Did;
    if more == [] {
      assert ops + more == ops;
    } else {
      assert (ops + more)[..|ops|] == ops;
      AppStepTotal(AppsAfter(ops), more[0]);
    }
  }

  /**
   Behaviour counters over any run whose flushes are defined: the counts stored and the counts shown
   in top-ten reports add up to all Set and Get calls, also those whose user id did not resolve.
   */
  lemma {:induction false} BehaviourConservation(calls: seq<Call>)
    requires Trace(AllAppOps(calls))
    ensures AppTotal(AppsAfter(AllAppOps(calls))) == SetsAndGets(calls)
    decreases |calls|
  {
    if calls != [] {
      hide AppTotal, AppsAfter, Trace, AppOps;
      var before, last := calls[..|calls| - 1], calls[|calls| - 1];
      AppOpsOfCall(last);
      AppOpsTotal(AllAppOps(before), AppOps(last));
      BehaviourConservation(before);
    } else {
      NoAppsCounted();
    }
  }

  lemma AppOpsOfCall(c: Call)
    ensures |AppOps(c)| <= 1 && (AppOps(c) != [] && AppOps(c)[0].Note? <==> c.Set? || c.Get?)
    ensures AppOps(c) != [] && AppOps(c)[0].Note? ==> AppOps(c)[0].state in {BPS_COPY_STATE, BPS_PASTE_STATE}
  {
  }

  lemma NoAppsCounted()
    ensures AppTotal(AppsAfter([])) == 0
  {
  }

  /** The name that was looked up for the caller, or the default where the lookup failed. */
  predicate NamedApp(caller: Caller, app: string)
  {
    caller.bundle == Some(app) || (caller.bundle.None? && app == "com.pasteboard.default")
  }

  predicate ByApp(c: Call, state: int, app: string)
  {
    ((c.Set? && state == BPS_COPY_STATE) || (c.Get? && state == BPS_PASTE_STATE)) && NamedApp(c.caller, app)
  }

  /** The set calls (for the copy state) or get calls (for the paste state) an app made. */
  ghost function CallsByApp(calls: seq<Call>, state: int, app: string): nat
    decreases |calls|
  {
    if calls == [] then 0
    else CallsByApp(calls[..|calls| - 1], state, app) + (if ByApp(calls[|calls| - 1], state, app) then 1 else 0)
  }

  lemma NotesAppend(ops: seq<AppOp>, more: seq<AppOp>, state: int, app: string)
    requires |more| <= 1
    ensures Notes(ops + more, state, app)
            == Notes(ops, state, app) + (if more != [] && more[0] == Note(state, app) then 1 else 0)
  {
    if more == [] {
      assert ops + more == ops;
    } else {
      assert (ops + more)[..|ops|] == ops;
    }
  }

  lemma {:induction false} NotesAreCalls(calls: seq<Call>, state: int, app: string)
    ensures Notes(AllAppOps(calls), state, app) == CallsByApp(calls, state, app)
    decreases |calls|
  {
    if calls != [] {
      hide Notes, AppOps, ByApp;
      NotesAreCalls(calls[..|calls| - 1], state, app);
      NoteOfCall(calls[|calls| - 1], state, app);
      NotesAppend(AllAppOps(calls[..|calls| - 1]), AppOps(calls[|calls| - 1]), state, app);
    }
  }

  lemma NoteOfCall(c: Call, state: int, app: string)
    ensures |AppOps(c)| <= 1 && (AppOps(c) != [] && AppOps(c)[0] == Note(state, app) <==> ByApp(c, state, app))
  {
  }

  /**
   For each app, its stored counts plus what top-ten reports have shown for it are its set calls, and
   likewise its get calls, whether or not their user ids resolved.
   */
  lemma AppBehaviourConservation(calls: seq<Call>, app: string)
    requires Trace(AllAppOps(calls))
    ensures var apps := AppsAfter(AllAppOps(calls));
            Pending(apps.copy, app) + ReportedFor(apps.reports, CopyState, app) == CallsByApp(calls, BPS_COPY_STATE, app)
            && Pending(apps.paste, app) + ReportedFor(apps.reports, PasteState, app)
               == CallsByApp(calls, BPS_PASTE_STATE, app)
  {
    AppConservation(AllAppOps(calls), app);
    NotesAreCalls(calls, BPS_COPY_STATE, app);
    NotesAreCalls(calls, BPS_PASTE_STATE, app);
  }
}
