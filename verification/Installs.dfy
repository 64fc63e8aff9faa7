/** The tracker of background installs: registrations, finishes and deletes of any number of
    servers interleave freely, each atomic under the manager's mutex. */
module Installs {
  import opened Common

  /** A registration is tagged by its position in the history, so tags are unique. */
  datatype Event =
    | Registered(id: string, tag: nat)
    | Finished(id: string, tag: nat, failure: Option<string>)
    | Deleted(id: string)

  datatype Status = Absent | Installing(tag: nat) | Failed(tag: nat, err: string)

  // ---------------------------------------------------------------- the reference

  /** Position of the registration in force for a server: its last registration, unless a
      delete came later. */
  function InForce(h: seq<Event>, id: string): (r: Option<nat>)
    ensures r.Some? ==> r.value < |h| && h[r.value].Registered? && h[r.value].id == id
    ensures r.Some? ==> forall k :: r.value < k < |h| ==> h[k].Finished? || h[k].id != id
  {
    if h == [] then None
    else
      var e := h[|h| - 1];
      if e.id == id && e.Registered? then Some(|h| - 1)
      else if e.id == id && e.Deleted? then None
      else InForce(h[..|h| - 1], id)
  }

  /** How the install registered under `tag` ended: its first finish at or after `from`. */
  function FirstFinish(h: seq<Event>, from: nat, id: string, tag: nat): Option<Event>
    requires from <= |h|
    decreases |h| - from
  {
    if from == |h| then None
    else if h[from].Finished? && h[from].id == id && h[from].tag == tag then Some(h[from])
    else FirstFinish(h, from + 1, id, tag)
  }

  /** What the tracker should report for a server after a history. */
  function StatusOf(h: seq<Event>, id: string): Status {
    match InForce(h, id)
    case None => Absent
    case Some(j) =>
      match FirstFinish(h, j + 1, id, h[j].tag)
      case None => Installing(h[j].tag)
      case Some(e) => if e.Finished? && e.failure.Some? then Failed(h[j].tag, e.failure.value) else Absent
  }

  lemma {:induction false} FirstFinishAppend(h: seq<Event>, e: Event, from: nat, id: string, tag: nat)
    requires from <= |h|
    ensures FirstFinish(h + [e], from, id, tag) ==
      if FirstFinish(h, from, id, tag).Some? then FirstFinish(h, from, id, tag)
      else if e.Finished? && e.id == id && e.tag == tag then Some(e) else None
    decreases |h| - from
  {
    if from < |h| {
      FirstFinishAppend(h, e, from + 1, id, tag);
    }
  }

  /** Only the events of a server move its status, and a finish only if its registration is
      still the one installing. */
  lemma StatusStep(h: seq<Event>, e: Event, id: string)
    ensures StatusOf(h + [e], id) ==
      if e.id != id then StatusOf(h, id)
      else match e
        case Registered(_, tag) => Installing(tag)
        case Deleted(_) => Absent
        case Finished(_, tag, failure) =>
          if StatusOf(h, id) != Installing(tag) then StatusOf(h, id)
          else if failure.Some? then Failed(tag, failure.value) else Absent
  {
    assert (h + [e])[..|h|] == h;
    match InForce(h, id) {
      case Some(j) => FirstFinishAppend(h, e, j + 1, id, h[j].tag);
      case None =>
    }
  }

  // ---------------------------------------------------------------- the tracker

  const INSTALLING := "installing"
  const FAILED := "failed"

  /** One record of the tracker; finishing compares records by identity. */
  class InstallStatus {
    const state: string
    const err: string
    const cancellable: bool
    var aborted: bool  // its install context was cancelled

    constructor (state: string, err: string, cancellable: bool)
      ensures this.state == state && this.err == err && this.cancellable == cancellable && !aborted
    {
      this.state, this.err, this.cancellable := state, err, cancellable;
      aborted := false;
    }
  }

  class Manager {
    var installs: map<string, InstallStatus>
    ghost var history: seq<Event>
    ghost var tagOf: map<InstallStatus, nat>  // the registration behind each in-flight record

    ghost predicate Shows(id: string, s: Status)
      reads this
    {
      match s
      case Absent => id !in installs
      case Installing(tag) =>
        id in installs && installs[id] in tagOf && tagOf[installs[id]] == tag &&
        installs[id].state == INSTALLING && installs[id].cancellable
      case Failed(_, err) =>
        id in installs && installs[id] !in tagOf &&
        installs[id].state == FAILED && installs[id].err == err && !installs[id].cancellable
    }

    ghost predicate Valid()
      reads this
    {
      && (forall st <- tagOf :: tagOf[st] < |history|)
      && (forall a, b :: a in tagOf && b in tagOf && tagOf[a] == tagOf[b] ==> a == b)
      && (forall id: string :: Shows(id, StatusOf(history, id)))
    }

    constructor ()
      ensures Valid() && history == []
    {
      installs, history, tagOf := map[], [], map[];
    }

    method GetInstall(serverID: string) returns (st: InstallStatus?)
      requires Valid()
      ensures st == null <==> StatusOf(history, serverID).Absent?
      ensures st != null ==> serverID in installs && st == installs[serverID]
      ensures match StatusOf(history, serverID)
        case Absent => st == null
        case Installing(_) => st != null && st.state == "installing" && st.cancellable
        case Failed(_, err) => st != null && st.state == "failed" && st.err == err && !st.cancellable
    {
      assert Shows(serverID, StatusOf(history, serverID));
      st := if serverID in installs then installs[serverID] else null;
    }

    /** The registration part of Create. It does not look again at what `GetInstall` saw. */
    method Register(serverID: string) returns (st: InstallStatus)
      requires Valid()
      modifies this
      ensures Valid() && fresh(st) && st.state == INSTALLING && !st.aborted
      ensures history == old(history) + [Registered(serverID, |old(history)|)]
      ensures tagOf == old(tagOf)[st := |old(history)|]
    {
      st := new InstallStatus(INSTALLING, "", true);
      installs := installs[serverID := st];
      tagOf := tagOf[st := |history|];
      history := history + [Registered(serverID, |history|)];
      forall id: string
        ensures Shows(id, StatusOf(history, id))
      {
        StatusStep(old(history), Registered(serverID, |old(history)|), id);
        assert old(Shows(id, StatusOf(history, id)));
      }
    }

    /** Called by an install's own goroutine with the record it registered. */
    method FinishInstall(serverID: string, want: InstallStatus, failErr: Option<string>)
      requires Valid() && want in tagOf
      modifies this
      ensures Valid() && tagOf == old(tagOf)
      ensures history == old(history) + [Finished(serverID, tagOf[want], failErr)]
    {
      ghost var e := Finished(serverID, tagOf[want], failErr);
      history := history + [e];
      forall id: string
        ensures StatusOf(history, id) == StatusOf(old(history), id) ||
          (id == serverID && old(Shows(id, Installing(tagOf[want]))))
      {
        StatusStep(old(history), e, id);
        assert old(Shows(id, StatusOf(history, id)));
      }
      StatusStep(old(history), e, serverID);
      assert old(Shows(serverID, StatusOf(history, serverID)));
      if serverID !in installs || installs[serverID] != want {
        assert forall id: string :: old(Shows(id, StatusOf(history, id))) ==> Shows(id, StatusOf(history, id));
        return;
      }
      if failErr.None? {
        installs := installs - {serverID};
      } else {
        var failed := new InstallStatus(FAILED, failErr.value, false);
        installs := installs[serverID := failed];
      }
      forall id: string
        ensures Shows(id, StatusOf(history, id))
      {
        StatusStep(old(history), e, id);
        assert old(Shows(id, StatusOf(history, id)));
      }
    }

    /** Used by Delete: aborts the in-flight install, if any, and drops the record. */
    method CancelInstall(serverID: string)
      requires Valid()
      modifies this, installs.Values
      ensures Valid() && tagOf == old(tagOf)
      ensures history == old(history) + [Deleted(serverID)]
      ensures serverID !in installs
      ensures old(StatusOf(history, serverID)).Installing? ==> old(installs[serverID]).aborted
    {
      assert Shows(serverID, StatusOf(history, serverID));
      if serverID in installs {
        var st := installs[serverID];
        if st.cancellable {
          st.aborted := true;
        }
        installs := installs - {serverID};
      }
      history := history + [Deleted(serverID)];
      forall id: string
        ensures Shows(id, StatusOf(history, id))
      {
        StatusStep(old(history), Deleted(serverID), id);
        assert old(Shows(id, StatusOf(history, id)));
      }
    }
  }

  // ---------------------------------------------------------------- consequences for every interleaving

  /** After a delete nothing registered earlier can put an entry back: the server stays absent
      through any events that do not register it anew. */
  lemma {:induction false} DeleteIsFinal(h: seq<Event>, id: string, more: seq<Event>)
    requires forall e <- more :: !(e.Registered? && e.id == id)
    ensures StatusOf(h + [Deleted(id)] + more, id) == Absent
    decreases |more|
  {
    if more == [] {
      assert h + [Deleted(id)] + more == h + [Deleted(id)];
      StatusStep(h, Deleted(id), id);
    } else {
      var init, e := more[..|more| - 1], more[|more| - 1];
      assert h + [Deleted(id)] + more == (h + [Deleted(id)] + init) + [e];
      DeleteIsFinal(h, id, init);
      StatusStep(h + [Deleted(id)] + init, e, id);
    }
  }

  /** A registration stays installing until it finishes, is deleted or is registered over;
      finishers of other registrations never touch it. */
  lemma {:induction false} StaleFinishersAreIgnored(h: seq<Event>, id: string, tag: nat, more: seq<Event>)
    requires forall e <- more :: e.id == id ==> e.Finished? && e.tag != tag
    ensures StatusOf(h + [Registered(id, tag)] + more, id) == Installing(tag)
    decreases |more|
  {
    if more == [] {
      assert h + [Registered(id, tag)] + more == h + [Registered(id, tag)];
      StatusStep(h, Registered(id, tag), id);
    } else {
      var init, e := more[..|more| - 1], more[|more| - 1];
      assert h + [Registered(id, tag)] + more == (h + [Registered(id, tag)] + init) + [e];
      StaleFinishersAreIgnored(h, id, tag, init);
      StatusStep(h + [Registered(id, tag)] + init, e, id);
    }
  }

  lemma {:induction false} FirstFinishFound(h: seq<Event>, from: nat, id: string, tag: nat) returns (k: nat)
    requires from <= |h| && FirstFinish(h, from, id, tag).Some?
    ensures from <= k < |h| && h[k] == FirstFinish(h, from, id, tag).value
    ensures h[k].Finished? && h[k].id == id && h[k].tag == tag
    decreases |h| - from
  {
    if h[from].Finished? && h[from].id == id && h[from].tag == tag {
      k := from;
    } else {
      k := FirstFinishFound(h, from + 1, id, tag);
    }
  }

  /** A reported failure is the finish of the registration it replaced, and no registration
      or delete of that server has happened since. */
  lemma FailureComesFromItsRegistration(h: seq<Event>, id: string) returns (j: nat, k: nat)
    requires StatusOf(h, id).Failed?
    ensures j < k < |h| && h[j] == Registered(id, StatusOf(h, id).tag)
    ensures h[k] == Finished(id, StatusOf(h, id).tag, Some(StatusOf(h, id).err))
    ensures forall i :: j < i < |h| && h[i].id == id ==> h[i].Finished?
  {
    j := InForce(h, id).value;
    k := FirstFinishFound(h, j + 1, id, h[j].tag);
  }
}
