/**
 The service object. Its observer sets are heap objects shared through the per-user map, as in the
 source; `Abstract` forgets the sharing, and each method is proved to act on the abstract state as
 the state machine of ServiceModel does. Its methods run one at a time here; LockProtocol covers
 their interleaving.
 */
module PasteboardServices {
  import opened Wrappers
  import opened Sequences
  import opened PasteDataModel
  import opened PasteDatas
  import opened ConsumingTables
  import opened AppCounters
  import opened HiViewAdapters
  import opened ServiceModel

  /** `std::set` of observers ordered by remote object: inserting an equal one changes nothing. */
  class ObserverSet {
    var members: map<int, Observer>

    constructor ()
      ensures members == map[]
    {
      members := map[];
    }

    method Insert(o: Observer)
      modifies this
      ensures members == if o.remote in old(members) then old(members) else old(members)[o.remote := o]
    {
      if o.remote !in members {
        members := members[o.remote := o];
      }
    }

    method Erase(o: Observer)
      modifies this
      ensures members == old(members) - {o.remote}
    {
      members := members - {o.remote};
    }
  }

  /** Measures the time between its construction and `Finish`, which stands for the destructor. */
  class CalculateTimeConsuming {
    var pasteboardData: int
    var pasteboardState: int
    var lastTime: nat

    constructor (size: nat, state: int, now: nat)
      ensures pasteboardData == CalculateData(size) && pasteboardState == state && lastTime == now
    {
      pasteboardState := state;
      lastTime := now;
      pasteboardData := CalculateData(size);
    }

    method Finish(adapter: HiViewAdapter, now: nat)
      requires adapter.Valid()
      modifies adapter`copyTimeConsumingStat, adapter`pasteTimeConsumingStat
      ensures adapter.Valid()
      ensures adapter.Stats()
              == Reported(old(adapter.Stats()),
                          Stat(pasteboardState, pasteboardData, CalculateTime((now - lastTime) % MAX_UINT64)))
    {
      var delta := (now - lastTime) % MAX_UINT64;
      adapter.ReportTimeConsumingStatistic(Stat(pasteboardState, pasteboardData, CalculateTime(delta)));
    }
  }

  /** The adapter after the telemetry of one call. */
  ghost function StatsAfter(t: Tables, ops: seq<TableOp>): Tables
    requires Shape(t) && |ops| <= 1
  {
    if ops == [] then t else TableStep(t, ops[0])
  }

  ghost function AppsAfterOps(apps: Apps, ops: seq<AppOp>): Apps
    requires |ops| <= 1
  {
    if ops == [] then apps else Did(apps, ops[0])
  }

  /**
   One more call of a history: the service methods move the state and the adapter from what the
   history before the call gives to what the history with it gives, so that the laws about all
   histories are laws about the objects.
   */
  lemma OneMoreCall(calls: seq<Call>, c: Call)
    ensures StateAfter(calls + [c]) == Step(StateAfter(calls), c)
    ensures |StatOps(StateAfter(calls), c)| <= 1 && |AppOps(c)| <= 1
    ensures TablesAfter(AllStatOps(calls + [c]))
            == StatsAfter(TablesAfter(AllStatOps(calls)), StatOps(StateAfter(calls), c))
    ensures AppsAfter(AllAppOps(calls + [c])) == AppsAfterOps(AppsAfter(AllAppOps(calls)), AppOps(c))
  {
    hide Step, StatOps, AppOps, TableStep, Did;
    assert (calls + [c])[..|calls|] == calls;
    StatOpsOfCall(StateAfter(calls), c);
    AppOpsOfCall(c);
    var tableOps, moreTable := AllStatOps(calls), StatOps(StateAfter(calls), c);
    if moreTable == [] {
      assert tableOps + moreTable == tableOps;
    } else {
      assert (tableOps + moreTable)[..|tableOps|] == tableOps;
    }
    var appOps, moreApp := AllAppOps(calls), AppOps(c);
    if moreApp == [] {
      assert appOps + moreApp == appOps;
    } else {
      assert (appOps + moreApp)[..|appOps|] == appOps;
    }
  }

  class PasteboardService {
    const adapter: HiViewAdapter
    var clips: Clips
    var observerMap: map<int, ObserverSet>
    var dataHistory: seq<string>
    var rounds: seq<seq<Reg>>

    /** The registrations without the sharing. */
    ghost function Registrations(): Registry
      reads this`observerMap, observerMap.Values
    {
      map u | u in observerMap :: observerMap[u].members
    }

    ghost function Abstract(): State
      reads this, observerMap.Values
    {
      State(clips, Registrations(), rounds, dataHistory)
    }

    /** Different users never share a set object, and every clip can be measured. */
    ghost predicate Valid()
      reads this, adapter, observerMap.Values
    {
      adapter.Valid()
      && (forall u, v :: u in observerMap && v in observerMap && u != v ==> observerMap[u] != observerMap[v])
      && (forall u :: u in clips ==> Measurable(clips[u]))
    }

    constructor (adapter: HiViewAdapter)
      requires adapter.Valid()
      ensures Valid() && this.adapter == adapter && Abstract() == INITIAL
    {
      this.adapter := adapter;
      clips, observerMap, dataHistory, rounds := map[], map[], [], [];
    }

    method SetPasteboardHistory(caller: Caller, state: string)
      modifies this`dataHistory
      ensures dataHistory == RingPush(old(dataHistory), HistoryEntry(caller, state))
    {
      var bundleName := DEFAULT_BUNDLE;
      if caller.bundle.Some? {
        bundleName := caller.bundle.value;
      }
      var entry := caller.stamp + "  " + bundleName + "    " + state;
      if |dataHistory| == DATA_HISTORY_SIZE {
        dataHistory := dataHistory[1..];
      }
      dataHistory := dataHistory + [entry];
    }

    method SetPasteDataDot(caller: Caller, pasteData: Contents)
      requires Valid() && Measurable(pasteData)
      modifies this`dataHistory, adapter
      ensures Valid()
      ensures dataHistory == RingPush(old(dataHistory), HistoryEntry(caller, "Set"))
      ensures adapter.Stats() == StatsAfter(old(adapter.Stats()), StatOps(old(Abstract()), Set(caller, pasteData)))
      ensures adapter.Behaviour() == AppsAfterOps(old(adapter.Behaviour()), AppOps(Set(caller, pasteData)))
    {
      hide CalculateData, CalculateTime, Reported, Noted, GetDataSize, LastClip, RingPush, HistoryEntry;
      SetPasteboardHistory(caller, "Set");
      adapter.ReportPasteboardBehaviour(BPS_COPY_STATE, caller.BundleName());
      var dataSize := GetDataSize(pasteData);
      var timeC := new CalculateTimeConsuming(dataSize, SPS_COPY_STATE, caller.start);
      timeC.Finish(adapter, caller.end);
    }

    method GetPasteDataDot(caller: Caller)
      requires Valid()
      modifies this`dataHistory, adapter
      ensures Valid()
      ensures dataHistory == RingPush(old(dataHistory), HistoryEntry(caller, "Get"))
      ensures adapter.Stats() == StatsAfter(old(adapter.Stats()), StatOps(old(Abstract()), Get(caller)))
      ensures adapter.Behaviour() == AppsAfterOps(old(adapter.Behaviour()), AppOps(Get(caller)))
    {
      hide CalculateData, CalculateTime, Reported, Noted, GetDataSize, LastClip, RingPush, HistoryEntry;
      SetPasteboardHistory(caller, "Get");
      adapter.ReportPasteboardBehaviour(BPS_PASTE_STATE, caller.BundleName());
      if clips != map[] {
        var dataSize := GetDataSize(LastClip(clips));
        var timeC := new CalculateTimeConsuming(dataSize, SPS_PASTE_STATE, caller.start);
        timeC.Finish(adapter, caller.end);
      }
    }

    /** Calls every observer of one user, after the calls made so far for users before it. */
    method NotifyUser(user: int, made: seq<Reg>) returns (round: seq<Reg>)
      requires user in observerMap
      requires Ordered(made) && forall p :: p in made ==> p.user < user
      ensures Ordered(round)
      ensures forall p :: p in round <==> p in made || (p.user == user && p.remote in observerMap[user].members)
    {
      round := made;
      var pending := observerMap[user].members.Keys;
      while pending != {}
        invariant pending <= observerMap[user].members.Keys
        invariant Ordered(round)
        invariant forall p :: p in round <==>
                              p in made || (p.user == user && p.remote in observerMap[user].members && p.remote !in pending)
        invariant forall p, r :: p in round && r in pending ==> Before(p, Reg(user, r))
        decreases |pending|
      {
        var remote := Least(pending);
        round := round + [Reg(user, remote)];
        pending := pending - {remote};
      }
    }

    /** Calls every observer of every user; the round it made is logged. */
    method NotifyObservers()
      modifies this`rounds
      ensures rounds == old(rounds) + [RoundOf(Registrations())]
    {
      var round: seq<Reg> := [];
      var users := observerMap.Keys;
      while users != {}
        invariant users <= observerMap.Keys && rounds == old(rounds)
        invariant Ordered(round)
        invariant forall p :: p in round <==> Registered(Registrations(), p) && p.user !in users
        invariant forall p, u :: p in round && u in users ==> p.user < u
        decreases |users|
      {
        var user := Least(users);
        round := NotifyUser(user, round);
        users := users - {user};
      }
      RoundIsUnique(Registrations(), round);
      ghost var regs := Registrations();
      rounds := rounds + [round];
      assert Registrations() == regs;
    }

    method ClearClip(user: int)
      requires Valid()
      modifies this`clips, this`rounds
      ensures Valid() && Abstract() == Step(old(Abstract()), Clear(user))
    {
      if user == ERROR_USERID {
        return;
      }
      if user in clips {
        clips := clips - {user};
        NotifyObservers();
      }
    }

    method GetPasteData(caller: Caller, data: PasteData) returns (ok: bool)
      requires Valid()
      modifies this`dataHistory, adapter, data
      ensures Valid() && Abstract() == Step(old(Abstract()), Get(caller))
      ensures adapter.Stats() == StatsAfter(old(adapter.Stats()), StatOps(old(Abstract()), Get(caller)))
      ensures adapter.Behaviour() == AppsAfterOps(old(adapter.Behaviour()), AppOps(Get(caller)))
      ensures var reply := GetReply(old(Abstract()), caller.user);
              ok == reply.Some? && data.Value() == (if ok then reply.value else old(data.Value()))
    {
      GetPasteDataDot(caller);
      if caller.user == ERROR_USERID {
        return false;
      }
      if caller.user in clips {
        data.CopyFrom(clips[caller.user]);
        return true;
      }
      return false;
    }

    method HasPasteData(user: int) returns (has: bool)
      requires Valid()
      ensures has <==> GetReply(Abstract(), user).Some?
    {
      if user == ERROR_USERID {
        return false;
      }
      return user in clips;
    }

    method SetPasteData(caller: Caller, pasteData: PasteData)
      requires Valid() && Measurable(pasteData.Value())
      modifies this`dataHistory, this`clips, this`rounds, adapter
      ensures Valid() && Abstract() == Step(old(Abstract()), Set(caller, old(pasteData.Value())))
      ensures adapter.Stats()
              == StatsAfter(old(adapter.Stats()), StatOps(old(Abstract()), Set(caller, old(pasteData.Value()))))
      ensures adapter.Behaviour()
              == AppsAfterOps(old(adapter.Behaviour()), AppOps(Set(caller, old(pasteData.Value()))))
    {
      hide StatOps, AppOps, StatsAfter, AppsAfterOps, RoundOf, RingPush, HistoryEntry;
      SetPasteDataDot(caller, pasteData.Value());
      if caller.user == ERROR_USERID {
        return;
      }
      if caller.user in clips {
        clips := clips - {caller.user};
      }
      clips := clips[caller.user := pasteData.Value()];
      assert clips == old(clips)[caller.user := old(pasteData.Value())];
      NotifyObservers();
    }

    /** The set object of the user, created empty when there is none. */
    method ObserversOf(user: int) returns (observers: ObserverSet)
      requires Valid()
      modifies this`observerMap
      ensures Valid() && user in observerMap && observerMap[user] == observers
      ensures user in old(observerMap) ==> observerMap == old(observerMap)
      ensures user !in old(observerMap) ==>
                fresh(observers) && observers.members == map[] && observerMap == old(observerMap)[user := observers]
    {
      if user in observerMap {
        observers := observerMap[user];
      } else {
        observers := new ObserverSet();
        observerMap := observerMap[user := observers];
      }
    }

    /** An insert into one user's set object leaves the registrations of all others alone. */
    method InsertInto(user: int, observers: ObserverSet, o: Observer)
      requires Valid() && user in observerMap && observerMap[user] == observers
      modifies observers
      ensures Valid() && Registrations() == RegsWith(old(Registrations()), user, o)
    {
      hide HiViewAdapter.Valid, Measurable;
      observers.Insert(o);
      assert forall u :: u in observerMap && u != user ==> observerMap[u].members == old(observerMap[u].members);
    }

    /** Inserts into the user's set object in place, creating it first when there is none. */
    method AddPasteboardChangedObserver(user: int, observer: Option<Observer>)
      requires Valid()
      modifies this`observerMap, observerMap.Values
      ensures Valid() && Abstract() == Step(old(Abstract()), AddObserver(user, observer))
    {
      if observer.None? {
        return;
      }
      if user == ERROR_USERID {
        return;
      }
      var observers := ObserversOf(user);
      assert Registrations() == WithUser(old(Registrations()), user);
      InsertInto(user, observers, observer.value);
      CreatingThenInserting(old(Registrations()), user, observer.value);
    }

    method RemovePasteboardChangedObserver(user: int, observer: Option<Observer>)
      requires Valid()
      modifies observerMap.Values
      ensures Valid() && Abstract() == Step(old(Abstract()), RemoveObserver(user, observer))
    {
      if observer.None? {
        return;
      }
      if user == ERROR_USERID {
        return;
      }
      if user !in observerMap {
        return;
      }
      observerMap[user].Erase(observer.value);
      assert forall u :: u in observerMap && u != user ==> observerMap[u].members == old(observerMap[u].members);
      assert Registrations().Keys == old(Registrations()).Keys;
      assert Registrations() == RegsWithout(old(Registrations()), user, observer.value.remote);
    }

    method RemoveAllChangedObserver(user: int)
      requires Valid()
      modifies this`observerMap
      ensures Valid() && Abstract() == Step(old(Abstract()), RemoveAll(user))
    {
      if user == ERROR_USERID {
        return;
      }
      if user !in observerMap {
        return;
      }
      observerMap := observerMap - {user};
      assert Registrations() == old(Registrations()) - {user};
    }

    /** The access history, newest entry first. */
    method DumpHistory() returns (result: string)
      ensures result == RenderedHistory(Reverse(dataHistory))
    {
      if dataHistory == [] {
        return "Access history fail! dataHistory_ no data.\n";
      }
      result := "Access history last ten times: \n";
      var newest := Reverse(dataHistory);
      assert newest[0..] == newest;
      for i := 0 to |dataHistory|
        invariant result + RenderedLines(newest[i..]) == RenderedHistory(newest)
      {
        assert newest[i..][0] == newest[i] && newest[i..][1..] == newest[i + 1..];
        result := result + "          " + dataHistory[|dataHistory| - 1 - i] + "\n";
      }
    }
  }

  function RenderedLines(entries: seq<string>): string
  {
    if entries == [] then "" else "          " + entries[0] + "\n" + RenderedLines(entries[1..])
  }

  /** The dump of a list of entries in the order they are shown. */
  function RenderedHistory(entries: seq<string>): string
  {
    if entries == [] then "Access history fail! dataHistory_ no data.\n"
    else "Access history last ten times: \n" + RenderedLines(entries)
  }

  /**
   The dump of a ring, oldest entry first in the ring: the newest entry gets the first line, under the
   header, and the rest follow as they stood.
   */
  lemma DumpShowsNewestFirst(history: seq<string>, entry: string)
    ensures history != [] ==>
              |RenderedHistory(Reverse(history))| >= |"Access history last ten times: \n"|
              && RenderedHistory(Reverse(history + [entry]))
                 == "Access history last ten times: \n" + "          " + entry + "\n"
                    + RenderedHistory(Reverse(history))[|"Access history last ten times: \n"|..]
    ensures RenderedHistory(Reverse([entry])) == "Access history last ten times: \n" + "          " + entry + "\n"
    ensures RenderedHistory(Reverse<string>([])) == "Access history fail! dataHistory_ no data.\n"
  {
    assert Reverse(history + [entry]) == [entry] + Reverse(history);
    assert ([entry] + Reverse(history))[1..] == Reverse(history);
    assert Reverse([entry]) == [entry] && [entry][1..] == [];
    assert RenderedLines([entry]) == "          " + entry + "\n" + RenderedLines([]);
  }

  /** The first key in the iteration order of an ordered container. */
  method Least(s: set<int>) returns (least: int)
    requires s != {}
    ensures least in s && forall x :: x in s ==> least <= x
  {
    NonemptyHasMember(s);
    least :| least in s;
    var left := s - {least};
    while left != {}
      invariant left <= s && least in s
      invariant forall x :: x in s ==> x in left || least <= x
      decreases |left|
    {
      NonemptyHasMember(left);
      var x: int :| x in left;
      if x < least {
        least := x;
      }
      left := left - {x};
    }
  }
}
