/** The in-memory SFTP credential store: two maps that stand for one history of grants. */
module SftpStore {
  import opened Common

  /** SHA-256 taken as collision-free. */
  datatype Digest = Sha256(text: string)

  /** `Entry` is the stored side of a credential, `Session` what the panel is shown once. */
  datatype Entry = Entry(serverID: string, passHash: Digest, expiresAt: int)

  datatype Session = Session(username: string, password: string, expiresAt: int)

  datatype Info = Inactive | Active(username: string, expiresAt: int)

  // ---------------------------------------------------------------- the reference: a history

  datatype Event = Minted(server: string, session: Session) | Revoked(server: string)

  /** The credential in force for a server: its latest event, if that is a mint. */
  function Latest(h: seq<Event>, server: string): Option<Session> {
    if h == [] then None
    else
      var e := h[|h| - 1];
      if e.server != server then Latest(h[..|h| - 1], server)
      else if e.Minted? then Some(e.session) else None
  }

  /** What the history says a login should open. Expiry is inclusive. */
  predicate Grants(h: seq<Event>, server: string, username: string, password: string, now: int) {
    match Latest(h, server)
    case Some(c) => c.username == username && c.password == password && now <= c.expiresAt
    case None => false
  }

  lemma LatestAppend(h: seq<Event>, e: Event, server: string)
    ensures Latest(h + [e], server)
         == if e.server != server then Latest(h, server) else if e.Minted? then Some(e.session) else None
  {
    assert (h + [e])[..|h|] == h;
  }

  // ---------------------------------------------------------------- the store

  /** The two maps are mutually inverse. */
  ghost predicate Inverse(byUser: map<string, Entry>, byServer: map<string, string>) {
    && (forall u <- byUser :: byUser[u].serverID in byServer && byServer[byUser[u].serverID] == u)
    && (forall s <- byServer :: byServer[s] in byUser && byUser[byServer[s]].serverID == s)
  }

  /** A server's entry is its latest mint; only an expired one may have been reaped. */
  ghost predicate FaithfulAt(byUser: map<string, Entry>, byServer: map<string, string>, h: seq<Event>, clock: int,
                             s: string)
  {
    match Latest(h, s)
    case Some(c) =>
      if s in byServer
      then
        && byServer[s] == c.username && c.username in byUser
        && byUser[c.username] == Entry(s, Sha256(c.password), c.expiresAt)
      else c.expiresAt < clock
    case None => s !in byServer
  }

  lemma MintKeepsInverse(byUser: map<string, Entry>, byServer: map<string, string>, s: string, u: string, e: Entry)
    requires Inverse(byUser, byServer) && u !in byUser && e.serverID == s
    ensures var kept := if s in byServer then byUser - {byServer[s]} else byUser;
      Inverse(kept[u := e], byServer[s := u])
  {
  }

  lemma DropKeepsInverse(byUser: map<string, Entry>, byServer: map<string, string>, s: string)
    requires Inverse(byUser, byServer) && s in byServer
    ensures Inverse(byUser - {byServer[s]}, byServer - {s})
  {
  }

  lemma LaterKeepsFaith(byUser: map<string, Entry>, byServer: map<string, string>, h: seq<Event>, clock: int, now: int)
    requires clock <= now && forall s: string :: FaithfulAt(byUser, byServer, h, clock, s)
    ensures forall s: string :: FaithfulAt(byUser, byServer, h, now, s)
  {
    forall s: string
      ensures FaithfulAt(byUser, byServer, h, now, s)
    {
      assert FaithfulAt(byUser, byServer, h, clock, s);
    }
  }

  class Store {
    var byUser: map<string, Entry>
    var byServer: map<string, string>
    const ttl: int

    ghost var history: seq<Event>
    ghost var clock: int  // the latest time an expiry was judged against

    ghost predicate Valid()
      reads this
    {
      Inverse(byUser, byServer) && forall s: string :: FaithfulAt(byUser, byServer, history, clock, s)
    }

    constructor (ttl: int)
      ensures Valid() && history == [] && this.ttl == ttl
    {
      byUser, byServer := map[], map[];
      this.ttl := ttl;
      history, clock := [], 0;
    }

    /** The answer to a login attempt, reaping aside. */
    function Lookup(username: string, password: string, now: int): Option<string>
      reads this
    {
      if username !in byUser || now > byUser[username].expiresAt || Sha256(password) != byUser[username].passHash
      then None
      else Some(byUser[username].serverID)
    }

    /** Replaces the credential of a server. `user` and `pass` are the fresh random strings
        and `now` the time read before the lock is taken. */
    method Mint(serverID: string, user: string, pass: string, now: int) returns (s: Session)
      requires Valid() && "srv-" + user !in byUser
      modifies this
      ensures Valid() && clock == old(clock)
      ensures s == Session("srv-" + user, pass, now + ttl)
      ensures history == old(history) + [Minted(serverID, s)]
    {
      var username := "srv-" + user;
      s := Session(username, pass, now + ttl);
      MintKeepsInverse(byUser, byServer, serverID, username, Entry(serverID, Sha256(pass), now + ttl));
      if serverID in byServer {
        byUser := byUser - {byServer[serverID]};
      }
      byUser := byUser[username := Entry(serverID, Sha256(pass), now + ttl)];
      byServer := byServer[serverID := username];
      history := history + [Minted(serverID, s)];
      forall x: string
        ensures FaithfulAt(byUser, byServer, history, clock, x)
      {
        LatestAppend(old(history), Minted(serverID, s), x);
        assert old(FaithfulAt(byUser, byServer, history, clock, x));
      }
    }

    /** A login opens a server exactly when the history grants it. */
    method Authenticate(username: string, password: string, now: int) returns (r: Option<string>)
      requires Valid() && clock <= now
      modifies this
      ensures Valid() && history == old(history) && clock == now
      ensures r == old(Lookup(username, password, now))
      ensures forall s: string :: r == Some(s) <==> Grants(history, s, username, password, now)
    {
      LookupMeansGranted(username, password, now);
      LaterKeepsFaith(byUser, byServer, history, clock, now);
      clock := now;
      if username !in byUser {
        return None;
      }
      var sess := byUser[username];
      if now > sess.expiresAt {
        ReapKeepsFaith(username);
        RemoveLocked(username, sess.serverID);
        return None;
      }
      if Sha256(password) != sess.passHash {
        return None;
      }
      return Some(sess.serverID);
    }

    /** Reports the credential in force, and only an unexpired one. */
    method Active(serverID: string, now: int) returns (info: Info)
      requires Valid() && clock <= now
      modifies this
      ensures Valid() && history == old(history) && clock == now
      ensures info == (match Latest(history, serverID)
        case Some(c) => if now <= c.expiresAt then Info.Active(c.username, c.expiresAt) else Inactive
        case None => Inactive)
    {
      assert FaithfulAt(byUser, byServer, history, clock, serverID);
      LaterKeepsFaith(byUser, byServer, history, clock, now);
      clock := now;
      if serverID !in byServer {
        return Inactive;
      }
      var username := byServer[serverID];
      if username !in byUser || now > byUser[username].expiresAt {
        ReapKeepsFaith(username);
        RemoveLocked(username, serverID);
        return Inactive;
      }
      return Info.Active(username, byUser[username].expiresAt);
    }

    method Revoke(serverID: string)
      requires Valid()
      modifies this
      ensures Valid() && clock == old(clock)
      ensures history == old(history) + [Revoked(serverID)]
    {
      history := history + [Revoked(serverID)];
      if serverID in byServer {
        RemoveLocked(byServer[serverID], serverID);
      }
      forall x: string
        ensures FaithfulAt(byUser, byServer, history, clock, x)
      {
        LatestAppend(old(history), Revoked(serverID), x);
        assert old(FaithfulAt(byUser, byServer, history, clock, x));
      }
    }

    /** Drops one pair; whether that loses a credential is the caller's concern. */
    method RemoveLocked(username: string, serverID: string)
      requires Inverse(byUser, byServer) && serverID in byServer && byServer[serverID] == username
      modifies this`byUser, this`byServer
      ensures Inverse(byUser, byServer)
      ensures byUser == old(byUser) - {username} && byServer == old(byServer) - {serverID}
    {
      DropKeepsInverse(byUser, byServer, serverID);
      byUser := byUser - {username};
      byServer := byServer - {serverID};
    }

    /** Reaps every expired entry and nothing else. */
    method Sweep(now: int)
      requires Valid() && clock <= now
      modifies this
      ensures Valid() && history == old(history) && clock == now
      ensures byUser == map u | u in old(byUser) && now <= old(byUser[u]).expiresAt :: old(byUser[u])
    {
      LaterKeepsFaith(byUser, byServer, history, clock, now);
      clock := now;
      var todo := byUser.Keys;
      while todo != {}
        invariant Valid() && history == old(history) && clock == now
        invariant todo <= byUser.Keys <= old(byUser).Keys
        invariant forall u <- byUser :: byUser[u] == old(byUser)[u]
        invariant forall u <- old(byUser) :: now <= old(byUser)[u].expiresAt ==> u in byUser
        invariant forall u <- byUser :: u !in todo ==> now <= byUser[u].expiresAt
        decreases todo
      {
        var username :| username in todo;
        todo := todo - {username};
        var sess := byUser[username];
        if now > sess.expiresAt {
          ReapKeepsFaith(username);
          RemoveLocked(username, sess.serverID);
        }
      }
    }

    /** Dropping an expired pair keeps every server faithful. */
    lemma ReapKeepsFaith(username: string)
      requires Valid() && username in byUser && byUser[username].expiresAt < clock
      ensures forall s: string ::
        FaithfulAt(byUser - {username}, byServer - {byUser[username].serverID}, history, clock, s)
    {
      forall s: string
        ensures FaithfulAt(byUser - {username}, byServer - {byUser[username].serverID}, history, clock, s)
      {
        assert FaithfulAt(byUser, byServer, history, clock, s);
      }
    }

    /** The maps answer exactly as the history does. */
    lemma LookupMeansGranted(username: string, password: string, now: int)
      requires Valid() && clock <= now
      ensures forall s: string ::
        Lookup(username, password, now) == Some(s) <==> Grants(history, s, username, password, now)
    {
      forall s: string
        ensures Lookup(username, password, now) == Some(s) <==> Grants(history, s, username, password, now)
      {
        assert FaithfulAt(byUser, byServer, history, clock, s);
      }
    }
  }

  // ---------------------------------------------------------------- consequences

  /** Reaping is unobservable: two stores with one history answer every login alike, however
      differently they have been swept. */
  lemma ReapingIsInvisible(a: Store, b: Store, username: string, password: string, now: int)
    requires a.Valid() && b.Valid() && a.history == b.history && a.clock <= now && b.clock <= now
    ensures a.Lookup(username, password, now) == b.Lookup(username, password, now)
  {
    a.LookupMeansGranted(username, password, now);
    b.LookupMeansGranted(username, password, now);
    assert forall s: string ::
      a.Lookup(username, password, now) == Some(s) <==> b.Lookup(username, password, now) == Some(s);
  }

  /** A credential opens at most one server, and a server accepts at most one credential. */
  lemma OneCredentialPerServer(a: Store, s: string, t: string, u: string, v: string, p: string, q: string, now: int)
    requires a.Valid() && a.clock <= now
    requires Grants(a.history, s, u, p, now) && Grants(a.history, t, v, q, now)
    ensures s == t <==> u == v
    ensures s == t ==> p == q
  {
    assert FaithfulAt(a.byUser, a.byServer, a.history, a.clock, s);
    assert FaithfulAt(a.byUser, a.byServer, a.history, a.clock, t);
  }

  /** Events of other servers never matter, and a mint or a revocation ends all earlier grants. */
  lemma {:induction false} LaterEventsDecide(h: seq<Event>, e: Event, more: seq<Event>, username: string,
                                             password: string, now: int)
    requires forall x <- more :: x.server != e.server
    ensures Grants(h + [e] + more, e.server, username, password, now) <==>
      e.Minted? && e.session.username == username && e.session.password == password && now <= e.session.expiresAt
    decreases |more|
  {
    if more == [] {
      assert h + [e] + more == h + [e];
      LatestAppend(h, e, e.server);
    } else {
      var init, x := more[..|more| - 1], more[|more| - 1];
      assert h + [e] + more == (h + [e] + init) + [x];
      LatestAppend(h + [e] + init, x, e.server);
      LaterEventsDecide(h, e, init, username, password, now);
    }
  }
}
