/** Server automations: the cron runner rebuilt from the store, the execution of a script,
    and the int64 budget of a run. */
module Scheduler {
  import opened Common
  import opened Machine
  import Text

  datatype Step = Step(kind: string, command: string, seconds: int, power: string)

  datatype Schedule = Schedule(
    id: string,
    serverID: string,
    name: string,
    cron: string,
    steps: seq<Step>,
    enabled: bool,
    lastRunAt: int,
    lastStatus: string,
    lastError: string)

  const COMMAND := "command"
  const WAIT := "wait"
  const POWER := "power"
  const BACKUP := "backup"

  // ---------------------------------------------------------------- acceptance

  function ValidateStep(st: Step): Option<string> {
    if st.kind == COMMAND then
      (if st.command == "" then Some("command step requires a command") else None)
    else if st.kind == WAIT then
      (if st.seconds < 1 || st.seconds > 86_400 then Some("wait step seconds must be 1..86400") else None)
    else if st.kind == POWER then
      (if st.power in {"start", "stop", "restart"} then None else Some("power step must be start|stop|restart"))
    else if st.kind == BACKUP then None
    else Some("unknown step type")
  }

  /** The steps a script may have. */
  lemma StepAccepted(st: Step)
    ensures ValidateStep(st).None? <==>
      || (st.kind == "command" && st.command != "")
      || (st.kind == "wait" && 1 <= st.seconds <= 24 * 60 * 60)
      || (st.kind == "power" && st.power in {"start", "stop", "restart"})
      || st.kind == "backup"
  {
  }

  ghost predicate ValidScript(steps: seq<Step>) {
    forall st <- steps :: ValidateStep(st).None?
  }

  /** What Upsert demands; whether a cron expression parses is left to `validCron`. */
  ghost predicate Accepted(validCron: string -> bool, sc: Schedule) {
    sc.id != "" && sc.serverID != "" && sc.steps != [] && ValidScript(sc.steps) && validCron(sc.cron)
  }

  // ---------------------------------------------------------------- runner against store

  /** Everything about a schedule except the record of its last run. */
  predicate SameDefinition(a: Schedule, b: Schedule) {
    a.(lastRunAt := b.lastRunAt, lastStatus := b.lastStatus, lastError := b.lastError) == b
  }

  /** The runner holds exactly the enabled stored schedules, once each, as stored. */
  ghost predicate Agree(stored: map<string, Schedule>, runner: seq<Schedule>) {
    && (forall i, j :: 0 <= i < j < |runner| ==> runner[i].id != runner[j].id)
    && (forall sc <- runner :: sc.enabled && sc.id in stored && SameDefinition(stored[sc.id], sc))
    && (forall id <- stored :: stored[id].enabled ==> exists sc <- runner :: sc.id == id)
  }

  ghost predicate KeyedById(stored: map<string, Schedule>) {
    forall id <- stored :: stored[id].id == id
  }

  /** Storing a schedule without rebuilding the runner keeps them in agreement exactly when
      it changes no definition the runner could see. A fire does just that with the snapshot
      it captured, so it is harmless unless the schedule was edited or removed meanwhile. */
  lemma PutWithoutReload(stored: map<string, Schedule>, runner: seq<Schedule>, sc: Schedule)
    requires KeyedById(stored) && Agree(stored, runner)
    ensures Agree(stored[sc.id := sc], runner) <==>
      if sc.id in stored && stored[sc.id].enabled then SameDefinition(stored[sc.id], sc) else !sc.enabled
  {
    var after := stored[sc.id := sc];
    if sc.id in stored && stored[sc.id].enabled {
      var r :| r in runner && r.id == sc.id;
      assert SameDefinition(stored[sc.id], r);
      if SameDefinition(stored[sc.id], sc) {
        forall x | x in runner
          ensures x.id in after && SameDefinition(after[x.id], x)
        {
        }
        forall id | id in after && after[id].enabled
          ensures exists x <- runner :: x.id == id
        {
          assert id in stored && stored[id].enabled;
        }
      } else {
        assert !SameDefinition(after[r.id], r);
      }
    } else {
      assert forall x <- runner :: x.id != sc.id;
      if !sc.enabled {
        forall id | id in after && after[id].enabled
          ensures exists x <- runner :: x.id == id
        {
          assert id in stored && stored[id].enabled;
        }
      } else {
        assert after[sc.id].enabled;
      }
    }
  }

  /** A fire that began before an edit of its schedule puts the old definition back into the store
      and parts it from the runner, which already holds the new one. */
  lemma StaleFireDisagrees(was: Schedule, edited: Schedule, now: int, err: Option<string>)
    requires was.id == edited.id && edited.enabled && !SameDefinition(edited, Recorded(was, now, err))
    ensures Agree(map[edited.id := edited], [edited])
    ensures !Agree(map[edited.id := edited][was.id := Recorded(was, now, err)], [edited])
  {
    var stored := map[edited.id := edited];
    assert edited in [edited] && edited.id == edited.id;
    PutWithoutReload(stored, [edited], Recorded(was, now, err));
  }

  /** Such an edit: a daily backup moved by an hour while it ran. */
  lemma StaleFireExample(validCron: string -> bool, now: int)
    requires validCron("0 4 * * *") && validCron("0 5 * * *")
    ensures var was := Schedule("a", "s", "", "0 4 * * *", [Step(BACKUP, "", 0, "")], true, 0, "", "");
      var edited := was.(cron := "0 5 * * *");
      && Accepted(validCron, was) && Accepted(validCron, edited)
      && Agree(map["a" := edited], [edited])
      && !Agree(map["a" := edited]["a" := Recorded(was, now, None)], [edited])
  {
    var was := Schedule("a", "s", "", "0 4 * * *", [Step(BACKUP, "", 0, "")], true, 0, "", "");
    var edited := was.(cron := "0 5 * * *");
    assert "0 4 * * *"[2] != "0 5 * * *"[2];
    StaleFireDisagrees(was, edited, now, None);
  }

  // ---------------------------------------------------------------- running a script

  /** What a step asks of the outside world. */
  datatype Effect = SendCommand(line: string) | Sleep(seconds: int) | Power(action: string) | RunBackup | NoEffect

  function EffectOf(st: Step, hasBackups: bool): Effect {
    if st.kind == COMMAND then SendCommand(st.command)
    else if st.kind == WAIT then Sleep(st.seconds)
    else if st.kind == POWER && st.power in {"start", "stop", "restart"} then Power(st.power)
    else if st.kind == BACKUP && hasBackups then RunBackup
    else NoEffect
  }

  /** The error of a step, given what the world answered to its effect. */
  function StepError(st: Step, hasBackups: bool, answer: Option<string>): Option<string> {
    if st.kind == COMMAND || st.kind == WAIT then answer
    else if st.kind == POWER then
      (if st.power in {"start", "stop", "restart"} then answer else Some("unknown power action"))
    else if st.kind == BACKUP then (if hasBackups then answer else Some("backups are unavailable on this node"))
    else Some("unknown step type")
  }

  /** Index of the first failing step, or the length of the script. */
  function FirstFailure(steps: seq<Step>, hasBackups: bool, answers: seq<Option<string>>): (n: nat)
    requires |answers| == |steps|
    ensures n <= |steps|
    ensures forall i :: 0 <= i < n ==> StepError(steps[i], hasBackups, answers[i]).None?
    ensures n < |steps| ==> StepError(steps[n], hasBackups, answers[n]).Some?
  {
    if steps == [] || StepError(steps[0], hasBackups, answers[0]).Some? then 0
    else 1 + FirstFailure(steps[1..], hasBackups, answers[1..])
  }

  /** A schedule with the outcome of a run. */
  function Recorded(sc: Schedule, now: int, err: Option<string>): Schedule {
    match err
    case None => sc.(lastRunAt := now, lastStatus := "ok", lastError := "")
    case Some(detail) => sc.(lastRunAt := now, lastStatus := "error", lastError := detail)
  }

  /** What the store must hold after a run of `sc`: when it ran, `ok` exactly when no step failed,
      and otherwise `error` with the number, the type and the error of the first step that did. */
  ghost predicate Logged(r: Schedule, sc: Schedule, hasBackups: bool, answers: seq<Option<string>>, now: int)
    requires |answers| == |sc.steps|
  {
    var n := FirstFailure(sc.steps, hasBackups, answers);
    && r.lastRunAt == now
    && (r.lastStatus == "ok" <==>
          forall i :: 0 <= i < |sc.steps| ==> StepError(sc.steps[i], hasBackups, answers[i]).None?)
    && (r.lastStatus != "ok" ==> r.lastStatus == "error")
    && r.lastError == (if n == |sc.steps| then ""
                       else "step " + Text.Decimal(n + 1) + " (" + sc.steps[n].kind + "): " +
                            StepError(sc.steps[n], hasBackups, answers[n]).value)
    && SameDefinition(sc, r)
  }

  lemma RecordedIsLogged(sc: Schedule, hasBackups: bool, answers: seq<Option<string>>, now: int)
    requires |answers| == |sc.steps|
    ensures Logged(Recorded(sc, now, Outcome(sc, hasBackups, answers)), sc, hasBackups, answers, now)
    ensures Recorded(sc, now, Outcome(sc, hasBackups, answers)).id == sc.id
  {
    hide StepError, FirstFailure;
    assert "ok" != "error";
  }

  /** Recording the outcome of a current snapshot changes no definition. */
  lemma RecordAgrees(stored: map<string, Schedule>, runner: seq<Schedule>, sc: Schedule, now: int, err: Option<string>)
    requires KeyedById(stored)
    ensures sc.id in stored && SameDefinition(stored[sc.id], sc) && Agree(stored, runner) ==>
      Agree(stored[sc.id := Recorded(sc, now, err)], runner)
    ensures var r := Recorded(sc, now, err);
      r.id == sc.id && r.serverID == sc.serverID && r.cron == sc.cron && r.steps == sc.steps && SameDefinition(sc, r)
  {
    hide Agree;
    if sc.id in stored && SameDefinition(stored[sc.id], sc) && Agree(stored, runner) {
      PutWithoutReload(stored, runner, Recorded(sc, now, err));
    }
  }

  lemma FailsAt(steps: seq<Step>, hasBackups: bool, answers: seq<Option<string>>, n: nat)
    requires |answers| == |steps| && n < |steps| && StepError(steps[n], hasBackups, answers[n]).Some?
    requires forall j :: 0 <= j < n ==> StepError(steps[j], hasBackups, answers[j]).None?
    ensures FirstFailure(steps, hasBackups, answers) == n
  {
    hide StepError, FirstFailure;
  }

  lemma NeverFails(steps: seq<Step>, hasBackups: bool, answers: seq<Option<string>>)
    requires |answers| == |steps|
    ensures (forall j :: 0 <= j < |steps| ==> StepError(steps[j], hasBackups, answers[j]).None?) ==>
      FirstFailure(steps, hasBackups, answers) == |steps|
  {
    hide StepError, FirstFailure;
  }

  /** The recorded error names the failing step, counted from one, and its type. */
  function RunError(i: nat, st: Step, detail: string): string {
    "step " + Text.Decimal(i + 1) + " (" + st.kind + "): " + detail
  }

  // ---------------------------------------------------------------- requests

  /** A step of the daemon, with what the world answers: whether the store could be read or
      written, and what each script step came to. */
  datatype Request =
    | Boot(listOk: bool)
    | Put(sc: Schedule, putOk: bool, listOk: bool)
    | Delete(id: string, deleteOk: bool, listOk: bool)
    | Fire(i: nat, answers: seq<Option<string>>, now: int, putOk: bool)
    | Manual(id: string, answers: seq<Option<string>>, now: int, putOk: bool)

  /** The store and the cron runner. */
  datatype Sys = Sys(stored: map<string, Schedule>, entries: seq<Schedule>, running: bool)

  /** A rebuilt runner holds the store's schedules; one that could not be rebuilt stays as it was. */
  ghost predicate Reloads(listOk: bool, s: Sys, t: Sys) {
    if listOk then t.running && Agree(t.stored, t.entries) else t.entries == s.entries && t.running == s.running
  }

  /** How a run of a script ended: the error of its first failing step, if any. */
  function Outcome(sc: Schedule, hasBackups: bool, answers: seq<Option<string>>): Option<string>
    requires |answers| == |sc.steps|
  {
    var n := FirstFailure(sc.steps, hasBackups, answers);
    if n == |sc.steps| then None
    else Some(RunError(n, sc.steps[n], StepError(sc.steps[n], hasBackups, answers[n]).value))
  }

  /** A run of `sc` leaves its outcome in the store and touches nothing else. */
  ghost predicate Fired(hasBackups: bool, sc: Schedule, answers: seq<Option<string>>, now: int, putOk: bool,
                        s: Sys, t: Sys)
    requires |answers| == |sc.steps|
  {
    t == if putOk then s.(stored := s.stored[sc.id := Recorded(sc, now, Outcome(sc, hasBackups, answers))]) else s
  }

  /** What each request does to the store and the runner. */
  ghost predicate Handles(validCron: string -> bool, hasBackups: bool, r: Request, s: Sys, t: Sys) {
    match r
    case Boot(listOk) => t.stored == s.stored && Reloads(listOk, s, t)
    case Put(sc, putOk, listOk) =>
      if Accepted(validCron, sc) && putOk then t.stored == s.stored[sc.id := sc] && Reloads(listOk, s, t) else t == s
    case Delete(id, deleteOk, listOk) =>
      if deleteOk then t.stored == s.stored - {id} && Reloads(listOk, s, t) else t == s
    case Fire(i, answers, now, putOk) =>
      if i < |s.entries| && |answers| == |s.entries[i].steps|
      then Fired(hasBackups, s.entries[i], answers, now, putOk, s, t)
      else t == s
    case Manual(id, answers, now, putOk) =>
      if id in s.stored && |answers| == |s.stored[id].steps|
      then Fired(hasBackups, s.stored[id], answers, now, putOk, s, t)
      else t == s
  }

  class Runner {
    var stored: map<string, Schedule>
    var entries: seq<Schedule>   // the cron runner's entries, each with its captured schedule
    var running: bool
    const hasBackups: bool
    const validCron: string -> bool

    ghost predicate Valid()
      reads this
    {
      && KeyedById(stored) && (forall id <- stored :: Accepted(validCron, stored[id]))
      && (forall sc <- entries :: Accepted(validCron, sc))
    }

    function State(): Sys
      reads this
    {
      Sys(stored, entries, running)
    }

    constructor (hasBackups: bool, validCron: string -> bool)
      ensures Valid() && stored == map[] && entries == [] && !running
      ensures this.hasBackups == hasBackups && this.validCron == validCron
    {
      this.hasBackups, this.validCron := hasBackups, validCron;
      stored, entries, running := map[], [], false;
    }

    /** Rebuilds the runner from the store. `listOk` is whether the store could be read. */
    method Reload(listOk: bool) returns (ok: bool)
      requires Valid()
      modifies this`entries, this`running
      ensures Valid() && ok == listOk
      ensures Reloads(listOk, old(State()), State())
      ensures listOk ==> running && Agree(stored, entries)
      ensures !listOk ==> entries == old(entries) && running == old(running)
    {
      if !listOk {
        return false;
      }
      var c: seq<Schedule> := [];
      var todo := stored.Keys;
      while todo != {}
        invariant todo <= stored.Keys
        invariant forall i, j :: 0 <= i < j < |c| ==> c[i].id != c[j].id
        invariant forall sc <- c :: sc.enabled && sc.id in stored && sc.id !in todo && stored[sc.id] == sc
        invariant forall id <- stored :: id !in todo && stored[id].enabled ==> stored[id] in c
        decreases todo
      {
        var id :| id in todo;
        todo := todo - {id};
        var sc := stored[id];
        if !sc.enabled {
          continue;
        }
        if validCron(sc.cron) {
          c := c + [sc];
        }
      }
      entries, running := c, true;
      return true;
    }

    method Start(listOk: bool) returns (ok: bool)
      requires Valid()
      modifies this
      ensures Valid() && stored == old(stored) && ok == listOk
      ensures Handles(validCron, hasBackups, Boot(listOk), old(State()), State())
      ensures ok ==> running && Agree(stored, entries)
    {
      ok := Reload(listOk);
    }

    /** Only an accepted schedule is stored; the runner then agrees with the new store. */
    method Upsert(sc: Schedule, putOk: bool, listOk: bool) returns (ok: bool)
      requires Valid()
      modifies this
      ensures Valid() && ok == (Accepted(validCron, sc) && putOk && listOk)
      ensures Handles(validCron, hasBackups, Put(sc, putOk, listOk), old(State()), State())
      ensures stored == if Accepted(validCron, sc) && putOk then old(stored)[sc.id := sc] else old(stored)
      ensures sc.id == "" || sc.serverID == "" || sc.steps == [] || !validCron(sc.cron) ==>
        !ok && stored == old(stored)
      ensures ok ==> running && Agree(stored, entries)
      ensures !ok ==> entries == old(entries) && running == old(running)
    {
      if sc.id == "" || sc.serverID == "" || |sc.steps| == 0 {
        return false;
      }
      for i := 0 to |sc.steps|
        invariant forall j :: 0 <= j < i ==> ValidateStep(sc.steps[j]).None?
      {
        if ValidateStep(sc.steps[i]).Some? {
          assert sc.steps[i] in sc.steps;
          return false;
        }
      }
      if !validCron(sc.cron) || !putOk {
        return false;
      }
      stored := stored[sc.id := sc];
      ok := Reload(listOk);
    }

    method Remove(id: string, deleteOk: bool, listOk: bool) returns (ok: bool)
      requires Valid()
      modifies this
      ensures Valid() && ok == (deleteOk && listOk)
      ensures Handles(validCron, hasBackups, Delete(id, deleteOk, listOk), old(State()), State())
      ensures stored == if deleteOk then old(stored) - {id} else old(stored)
      ensures ok ==> running && Agree(stored, entries)
      ensures !ok ==> entries == old(entries) && running == old(running)
    {
      if !deleteOk {
        return false;
      }
      stored := stored - {id};
      ok := Reload(listOk);
    }

    /** Runs a script up to its first failing step and records the outcome. A cron fire passes
        the snapshot its runner entry captured, a manual run the stored schedule. */
    method FireCtx(sc: Schedule, answers: seq<Option<string>>, now: int, putOk: bool)
      returns (effects: seq<Effect>, err: Option<string>)
      requires Valid() && Accepted(validCron, sc) && |answers| == |sc.steps|
      modifies this`stored
      ensures Valid()
      ensures var n := FirstFailure(sc.steps, hasBackups, answers);
        var ran := if n < |sc.steps| then n + 1 else n;
        && |effects| == ran
        && (forall i :: 0 <= i < ran ==> effects[i] == EffectOf(sc.steps[i], hasBackups))
        && (err.None? <==> n == |sc.steps|)
        && (err.Some? ==> err == Some(RunError(n, sc.steps[n], StepError(sc.steps[n], hasBackups, answers[n]).value)))
      ensures stored == if putOk then old(stored)[sc.id := Recorded(sc, now, err)] else old(stored)
      ensures putOk ==> Logged(stored[sc.id], sc, hasBackups, answers, now)
      ensures err == Outcome(sc, hasBackups, answers)
      ensures sc.id in old(stored) && SameDefinition(old(stored)[sc.id], sc) && Agree(old(stored), entries) ==>
        Agree(stored, entries)
    {
      hide StepError, EffectOf, Agree, RunError, FirstFailure, SameDefinition, ValidateStep, Recorded, Logged;
      effects, err := [], None;
      for i := 0 to |sc.steps|
        invariant err.None? && |effects| == i
        invariant forall j :: 0 <= j < i ==> StepError(sc.steps[j], hasBackups, answers[j]).None?
        invariant forall j :: 0 <= j < i ==> effects[j] == EffectOf(sc.steps[j], hasBackups)
      {
        effects := effects + [EffectOf(sc.steps[i], hasBackups)];
        var stepErr := StepError(sc.steps[i], hasBackups, answers[i]);
        if stepErr.Some? {
          err := Some(RunError(i, sc.steps[i], stepErr.value));
          FailsAt(sc.steps, hasBackups, answers, i);
          break;
        }
      }
      NeverFails(sc.steps, hasBackups, answers);
      RecordAgrees(stored, entries, sc, now, err);
      RecordedIsLogged(sc, hasBackups, answers, now);
      if putOk {
        stored := stored[sc.id := Recorded(sc, now, err)];
      }
    }

    /** A cron tick of entry `i`, with the snapshot its last reload captured. */
    method Tick(i: nat, answers: seq<Option<string>>, now: int, putOk: bool) returns (err: Option<string>)
      requires Valid() && i < |entries| && |answers| == |entries[i].steps|
      modifies this`stored
      ensures Valid()
      ensures Handles(validCron, hasBackups, Fire(i, answers, now, putOk), old(State()), State())
      ensures var sc := entries[i];
        if putOk then sc.id in stored && Logged(stored[sc.id], sc, hasBackups, answers, now) else stored == old(stored)
      ensures old(Agree(stored, entries)) ==>
        && Agree(stored, entries) && stored.Keys == old(stored).Keys
        && forall id <- stored :: SameDefinition(old(stored)[id], stored[id])
    {
      hide Logged, Recorded, Outcome, FirstFailure, StepError, EffectOf, RunError;
      var sc := entries[i];
      assert sc in entries;
      var effects;
      effects, err := FireCtx(sc, answers, now, putOk);
    }

    /** The panel's "run now", on the stored schedule whether enabled or not. */
    method RunNow(id: string, answers: seq<Option<string>>, now: int, putOk: bool) returns (found: bool)
      requires Valid() && (id in stored ==> |answers| == |stored[id].steps|)
      modifies this`stored
      ensures Valid() && found == (id in old(stored)) && stored.Keys == old(stored).Keys
      ensures Handles(validCron, hasBackups, Manual(id, answers, now, putOk), old(State()), State())
      ensures if found && putOk then Logged(stored[id], old(stored)[id], hasBackups, answers, now)
              else stored == old(stored)
      ensures forall x <- stored :: SameDefinition(old(stored)[x], stored[x])
      ensures Agree(old(stored), entries) ==> Agree(stored, entries)
    {
      hide Logged, Outcome, FirstFailure, StepError, EffectOf, RunError;
      if id !in stored {
        return false;
      }
      var effects, err := FireCtx(stored[id], answers, now, putOk);
      return true;
    }
  }

  /** An accepted script never reaches the branches for unknown types or power actions: a
      step without an effect is a backup on a node that has no backup manager. */
  lemma NoUnknownBranch(steps: seq<Step>, i: nat, hasBackups: bool)
    requires ValidScript(steps) && i < |steps|
    ensures EffectOf(steps[i], hasBackups).NoEffect? <==> steps[i].kind == BACKUP && !hasBackups
    ensures hasBackups ==> forall answer: Option<string> :: StepError(steps[i], hasBackups, answer) == answer
  {
    assert steps[i] in steps;
  }

  /** What a step does and when it fails: an effect fails as the world answers; a backup on a node
      without backups, and whatever has no effect, always fails. */
  lemma StepMeans(st: Step, hasBackups: bool, answer: Option<string>)
    ensures var effect, err := EffectOf(st, hasBackups), StepError(st, hasBackups, answer);
      && (st.kind == "command" ==> effect == SendCommand(st.command) && err == answer)
      && (st.kind == "wait" ==> effect == Sleep(st.seconds) && err == answer)
      && (st.kind == "power" && st.power in {"start", "stop", "restart"} ==>
            effect == Power(st.power) && err == answer)
      && (st.kind == "backup" && hasBackups ==> effect == RunBackup && err == answer)
      && (st.kind == "backup" && !hasBackups ==>
            effect == NoEffect && err == Some("backups are unavailable on this node"))
      && (effect == NoEffect ==> err.Some?)
  {
  }

  // ---------------------------------------------------------------- the budget of a run

  const SECOND := 1_000_000_000
  const MINUTE := 60 * SECOND
  const SIX_HOURS := 360 * MINUTE

  /** The largest number of steps whose budget is sure to fit. */
  const SAFE_STEPS := 106_751

  function Cost(st: Step): int {
    if st.kind == WAIT then st.seconds * SECOND
    else if st.kind == BACKUP then 30 * MINUTE
    else 30 * SECOND
  }

  /** In nanoseconds: a wait takes as long as it says, a backup half an hour, all else half a minute. */
  lemma CostIs(st: Step)
    requires ValidateStep(st).None?
    ensures Cost(st) == 1_000_000_000 *
      (if st.kind == "wait" then st.seconds else if st.kind == "backup" then 1_800 else 30)
  {
  }

  /** The budget before capping, in exact arithmetic. */
  function Total(steps: seq<Step>): int {
    if steps == [] then MINUTE else Total(steps[..|steps| - 1]) + Cost(steps[|steps| - 1])
  }

  function Budget(steps: seq<Step>): int { Minimum(Total(steps), SIX_HOURS) }

  method ScriptTimeout(steps: seq<Step>) returns (total: int)
    ensures total == Minimum(Wrap64(Total(steps)), SIX_HOURS)
    ensures ValidScript(steps) && |steps| <= SAFE_STEPS ==>
      && total == Budget(steps)
      && total == (if Total(steps) <= 21_600_000_000_000 then Total(steps) else 21_600_000_000_000)
      && total >= 60_000_000_000
  {
    total := MINUTE;
    for i := 0 to |steps|
      invariant total == Wrap64(Total(steps[..i]))
    {
      assert steps[..i + 1][..i] == steps[..i];
      var st := steps[i];
      if st.kind == WAIT {
        WrapSum(st.seconds * SECOND, total);
        total := Wrap64(total + Wrap64(st.seconds * SECOND));
      } else if st.kind == BACKUP {
        total := Wrap64(total + 30 * MINUTE);
      } else {
        total := Wrap64(total + 30 * SECOND);
      }
      WrapSum(Total(steps[..i]), Cost(st));
    }
    assert steps[..|steps|] == steps;
    if total > SIX_HOURS {
      total := SIX_HOURS;
    }
    if ValidScript(steps) && |steps| <= SAFE_STEPS {
      TotalBounds(steps);
      WrapIdentity(Total(steps));
    }
  }

  lemma {:induction false} TotalBounds(steps: seq<Step>)
    requires ValidScript(steps)
    ensures 60_000_000_000 + 1_000_000_000 * |steps| <= Total(steps) <= 60_000_000_000 + 86_400_000_000_000 * |steps|
    decreases |steps|
  {
    if steps != [] {
      assert steps[|steps| - 1] in steps;
      TotalBounds(steps[..|steps| - 1]);
    }
  }

  /** For validated scripts of any length, the machine's budget is the intended one exactly
      when the sum fits or happens to wrap to at least the cap. */
  lemma TimeoutIff(steps: seq<Step>)
    requires ValidScript(steps)
    ensures Minimum(Wrap64(Total(steps)), SIX_HOURS) == Budget(steps) <==>
      Total(steps) < TWO_63 || Wrap64(Total(steps)) >= SIX_HOURS
  {
    TotalBounds(steps);
    if Total(steps) < TWO_63 {
      WrapIdentity(Total(steps));
    }
  }

  /** One step more than `SAFE_STEPS` and the bound fails: the budget comes out negative. */
  lemma BudgetOverflows() returns (steps: seq<Step>)
    ensures |steps| == SAFE_STEPS + 1 && ValidScript(steps)
    ensures Minimum(Wrap64(Total(steps)), SIX_HOURS) < 0
  {
    steps := Waits(SAFE_STEPS + 1);
    TotalOfWaits(SAFE_STEPS + 1);
  }

  function Waits(n: nat): (steps: seq<Step>)
    ensures |steps| == n && ValidScript(steps)
  {
    if n == 0 then [] else Waits(n - 1) + [Step(WAIT, "", 86_400, "")]
  }

  lemma {:induction false} TotalOfWaits(n: nat)
    ensures Total(Waits(n)) == MINUTE + 86_400 * SECOND * n
    decreases n
  {
    hide ValidScript, ValidateStep, Cost, Total;
    if n == 0 {
      NoSteps();
    } else {
      var last := Step(WAIT, "", 86_400, "");
      TotalOfWaits(n - 1);
      TotalAppend(Waits(n - 1), last);
      LongestWait(last);
    }
  }

  lemma NoSteps()
    ensures Total([]) == MINUTE
  {
  }

  lemma TotalAppend(steps: seq<Step>, st: Step)
    ensures Total(steps + [st]) == Total(steps) + Cost(st)
  {
    assert (steps + [st])[..|steps|] == steps;
  }

  lemma LongestWait(st: Step)
    requires st.kind == WAIT && st.seconds == 86_400
    ensures Cost(st) == 86_400 * SECOND
  {
  }

  /** Appending a step never shortens the budget. */
  lemma BudgetIsMonotone(steps: seq<Step>, st: Step)
    requires ValidScript(steps + [st])
    ensures Budget(steps) <= Budget(steps + [st])
  {
    assert (steps + [st])[..|steps|] == steps;
    assert st in steps + [st];
  }
}
