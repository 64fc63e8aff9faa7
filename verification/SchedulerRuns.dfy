/** Whole histories of the scheduler from an empty store: when the cron runner agrees with the
    store, and what a reload that fails leaves behind. */
module SchedulerRuns {
  import opened Common
  import opened Scheduler

  /** The states of a history of requests, one more than the requests. */
  ghost predicate History(validCron: string -> bool, hasBackups: bool, rs: seq<Request>, ss: seq<Sys>) {
    && |ss| == |rs| + 1
    && ss[0] == Sys(map[], [], false)
    && forall k :: 0 <= k < |rs| ==> Handles(validCron, hasBackups, rs[k], ss[k], ss[k + 1])
  }

  /** The request rebuilt the runner. */
  ghost predicate Loads(validCron: string -> bool, r: Request) {
    match r
    case Boot(listOk) => listOk
    case Put(sc, putOk, listOk) => Accepted(validCron, sc) && putOk && listOk
    case Delete(_, deleteOk, listOk) => deleteOk && listOk
    case _ => false
  }

  /** The request changed the store and could not rebuild the runner. */
  ghost predicate Misses(validCron: string -> bool, r: Request) {
    match r
    case Put(sc, putOk, listOk) => Accepted(validCron, sc) && putOk && !listOk
    case Delete(_, deleteOk, listOk) => deleteOk && !listOk
    case _ => false
  }

  /** No change since the last reload went unloaded. */
  ghost predicate Current(validCron: string -> bool, rs: seq<Request>, k: nat)
    requires k <= |rs|
  {
    k == 0 || Loads(validCron, rs[k - 1]) || (!Misses(validCron, rs[k - 1]) && Current(validCron, rs, k - 1))
  }

  /** The store as the runner last read it. */
  ghost function Loaded(validCron: string -> bool, rs: seq<Request>, ss: seq<Sys>, k: nat): map<string, Schedule>
    requires |ss| == |rs| + 1 && k <= |rs|
  {
    if k == 0 then map[]
    else if Loads(validCron, rs[k - 1]) then ss[k].stored
    else Loaded(validCron, rs, ss, k - 1)
  }

  /** The two stores enable the same schedules with the same definitions. */
  ghost predicate SameRunning(a: map<string, Schedule>, b: map<string, Schedule>) {
    forall id: string ::
      && (Runs(a, id) <==> Runs(b, id))
      && (Runs(a, id) ==> SameDefinition(a[id], b[id]))
  }

  predicate Runs(stored: map<string, Schedule>, id: string) { id in stored && stored[id].enabled }

  // ---------------------------------------------------------------- one request

  lemma KeyedStep(validCron: string -> bool, hasBackups: bool, r: Request, s: Sys, t: Sys)
    requires Handles(validCron, hasBackups, r, s, t) && KeyedById(s.stored)
    ensures KeyedById(t.stored)
  {
    hide Accepted, Outcome, Reloads;
  }

  /** Only a reload changes the runner, and it brings agreement. */
  lemma RunnerStep(validCron: string -> bool, hasBackups: bool, r: Request, s: Sys, t: Sys)
    requires Handles(validCron, hasBackups, r, s, t)
    ensures if Loads(validCron, r) then Agree(t.stored, t.entries) else t.entries == s.entries
  {
    hide Accepted, Outcome, Agree;
  }

  /** Without an unloaded change, every request keeps agreement. */
  lemma AgreeStep(validCron: string -> bool, hasBackups: bool, r: Request, s: Sys, t: Sys)
    requires Handles(validCron, hasBackups, r, s, t) && KeyedById(s.stored) && Agree(s.stored, s.entries)
    requires !Misses(validCron, r)
    ensures Agree(t.stored, t.entries)
  {
    hide Accepted, Outcome, Recorded, SameDefinition;
    match r {
      case Fire(i, answers, now, putOk) =>
        if i < |s.entries| && |answers| == |s.entries[i].steps| {
          var sc := s.entries[i];
          assert sc in s.entries;
          RecordAgrees(s.stored, s.entries, sc, now, Outcome(sc, hasBackups, answers));
        }
      case Manual(id, answers, now, putOk) =>
        if id in s.stored && |answers| == |s.stored[id].steps| {
          var sc := s.stored[id];
          SameAsItself(sc);
          RecordAgrees(s.stored, s.entries, sc, now, Outcome(sc, hasBackups, answers));
        }
      case _ =>
    }
  }

  lemma SameAsItself(sc: Schedule)
    ensures SameDefinition(sc, sc)
  {
  }

  lemma SameAlong(a: Schedule, b: Schedule, c: Schedule)
    requires SameDefinition(a, b)
    ensures SameDefinition(b, a) && a.id == b.id && a.enabled == b.enabled
    ensures SameDefinition(b, c) <==> SameDefinition(a, c)
  {
  }

  // ---------------------------------------------------------------- whole histories

  lemma {:induction false} HistoryKeeps(validCron: string -> bool, hasBackups: bool, rs: seq<Request>,
                                        ss: seq<Sys>, k: nat)
    requires History(validCron, hasBackups, rs, ss) && k <= |rs|
    ensures KeyedById(ss[k].stored) && KeyedById(Loaded(validCron, rs, ss, k))
    ensures Agree(Loaded(validCron, rs, ss, k), ss[k].entries)
    ensures Current(validCron, rs, k) ==> Agree(ss[k].stored, ss[k].entries)
    decreases k
  {
    hide Handles, Loads, Misses;
    if k > 0 {
      var r, s, t := rs[k - 1], ss[k - 1], ss[k];
      HistoryKeeps(validCron, hasBackups, rs, ss, k - 1);
      KeyedStep(validCron, hasBackups, r, s, t);
      RunnerStep(validCron, hasBackups, r, s, t);
      hide Agree;
      if Current(validCron, rs, k) && !Loads(validCron, r) {
        AgreeStep(validCron, hasBackups, r, s, t);
      }
    }
  }

  /** In every history from an empty store, as long as no change went unloaded since the last
      reload, the runner's entries are exactly the enabled stored schedules. */
  lemma RunnerAgrees(validCron: string -> bool, hasBackups: bool, rs: seq<Request>, ss: seq<Sys>, k: nat)
    requires History(validCron, hasBackups, rs, ss) && k <= |rs|
    ensures Current(validCron, rs, k) ==> Agree(ss[k].stored, ss[k].entries)
    ensures (forall j :: 0 <= j < k ==> !Misses(validCron, rs[j])) ==> Current(validCron, rs, k)
  {
    HistoryKeeps(validCron, hasBackups, rs, ss, k);
    NothingMissed(validCron, rs, k);
  }

  lemma {:induction false} NothingMissed(validCron: string -> bool, rs: seq<Request>, k: nat)
    requires k <= |rs|
    ensures (forall j :: 0 <= j < k ==> !Misses(validCron, rs[j])) ==> Current(validCron, rs, k)
    decreases k
  {
    hide Misses, Loads;
    if k > 0 {
      NothingMissed(validCron, rs, k - 1);
    }
  }

  /** A failed reload leaves the runner with the schedules it last loaded, and it then agrees with
      the store exactly when the store still enables just those, with the same definitions. */
  lemma RunnerAgreesIff(validCron: string -> bool, hasBackups: bool, rs: seq<Request>, ss: seq<Sys>, k: nat)
    requires History(validCron, hasBackups, rs, ss) && k <= |rs|
    ensures var loaded := Loaded(validCron, rs, ss, k);
      && Agree(loaded, ss[k].entries)
      && (Agree(ss[k].stored, ss[k].entries) <==> SameRunning(loaded, ss[k].stored))
  {
    hide Loaded, Agree, KeyedById, SameRunning, Handles;
    HistoryKeeps(validCron, hasBackups, rs, ss, k);
    AgreeIff(Loaded(validCron, rs, ss, k), ss[k].stored, ss[k].entries);
  }

  lemma AgreeIff(loaded: map<string, Schedule>, stored: map<string, Schedule>, entries: seq<Schedule>)
    requires KeyedById(loaded) && KeyedById(stored) && Agree(loaded, entries)
    ensures Agree(stored, entries) <==> SameRunning(loaded, stored)
  {
    hide SameDefinition;
    if Agree(stored, entries) {
      forall id: string
        ensures Runs(loaded, id) <==> Runs(stored, id)
        ensures Runs(loaded, id) ==> SameDefinition(loaded[id], stored[id])
      {
        if Runs(loaded, id) || Runs(stored, id) {
          var sc :| sc in entries && sc.id == id;
          SameAlong(loaded[id], sc, sc);
          SameAlong(stored[id], sc, loaded[id]);
          SameAlong(stored[id], loaded[id], sc);
        }
      }
    }
    if SameRunning(loaded, stored) {
      forall sc | sc in entries
        ensures sc.id in stored && SameDefinition(stored[sc.id], sc)
      {
        SameAlong(loaded[sc.id], sc, sc);
        assert Runs(loaded, sc.id);
        SameAlong(loaded[sc.id], stored[sc.id], sc);
      }
      forall id | id in stored && stored[id].enabled
        ensures exists sc <- entries :: sc.id == id
      {
        assert Runs(stored, id);
      }
    }
  }

  /** A fire of what the runner last loaded puts that definition back into the store: an edit or a
      deletion that could not be loaded is undone. */
  lemma FireUndoesUnloaded(validCron: string -> bool, hasBackups: bool, rs: seq<Request>, ss: seq<Sys>, k: nat)
    requires History(validCron, hasBackups, rs, ss) && k < |rs| && rs[k].Fire? && rs[k].putOk
    requires rs[k].i < |ss[k].entries| && |rs[k].answers| == |ss[k].entries[rs[k].i].steps|
    ensures var id, loaded := ss[k].entries[rs[k].i].id, Loaded(validCron, rs, ss, k);
      id in loaded && id in ss[k + 1].stored && SameDefinition(loaded[id], ss[k + 1].stored[id])
  {
    hide Loaded, SameDefinition, Recorded, Outcome;
    HistoryKeeps(validCron, hasBackups, rs, ss, k);
    var e := ss[k].entries[rs[k].i];
    var err := Outcome(e, hasBackups, rs[k].answers);
    assert e in ss[k].entries && Handles(validCron, hasBackups, rs[k], ss[k], ss[k + 1]);
    RecordAgrees(ss[k].stored, ss[k].entries, e, rs[k].now, err);
    SameAlong(Loaded(validCron, rs, ss, k)[e.id], e, Recorded(e, rs[k].now, err));
  }

  /** Such a history: the daily backup is moved by an hour, stored, and not loaded. */
  lemma UnloadedEdit(validCron: string -> bool, hasBackups: bool) returns (rs: seq<Request>, ss: seq<Sys>)
    requires validCron("0 4 * * *") && validCron("0 5 * * *")
    ensures History(validCron, hasBackups, rs, ss) && |rs| == 2
    ensures Agree(ss[1].stored, ss[1].entries) && !Agree(ss[2].stored, ss[2].entries)
  {
    var was := Schedule("a", "s", "", "0 4 * * *", [Step(BACKUP, "", 0, "")], true, 0, "", "");
    var edited := was.(cron := "0 5 * * *");
    StaleFireExample(validCron, 0);
    hide Accepted, Recorded;
    assert "0 4 * * *"[2] != "0 5 * * *"[2];
    SameAsItself(was);
    rs := [Put(was, true, true), Put(edited, true, false)];
    ss := [Sys(map[], [], false), Sys(map["a" := was], [was], true), Sys(map["a" := edited], [was], true)];
    assert map[]["a" := was] == map["a" := was] && map["a" := was]["a" := edited] == map["a" := edited];
    assert was in [was] && was.id == "a";
    assert Agree(ss[1].stored, ss[1].entries);
    assert was in ss[2].entries && !SameDefinition(ss[2].stored["a"], was);
  }
}
