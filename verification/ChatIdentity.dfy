/**
 * When the registry names exactly the live sessions: the exact condition over runs, and what the
 * handlers then do for the users.
 */
module ChatIdentity {
  import opened Wrappers
  import opened Roster
  import opened ChatSpec
  import opened ChatWorld

  /** The list holds exactly one entry for each live session and nothing else. */
  ghost predicate Exact(w: World) {
    forall e :: multiset(w.srv.online)[e] == if e.sfd in w.live && w.live[e.sfd] == e.name then 1 else 0
  }

  /** In an exact state searchName finds a live session of the user, if there is one. */
  lemma SearchFindsALiveSession(w: World, name: string)
    requires Exact(w)
    ensures Leads(w, name)
    ensures Find(w.srv.online, name) == None <==> Sessions(w.live, name) == {}
  {
    FoundIsListed(w.srv.online, name);
    match Find(w.srv.online, name)
    case Some(to) =>
      assert multiset(w.srv.online)[Entry(name, to)] > 0;
      assert to in Sessions(w.live, name);
    case None =>
      forall f | f in w.live ensures w.live[f] != name {
        assert Entry(w.live[f], f) in w.srv.online ==> Entry(w.live[f], f).name != name;
        assert multiset(w.srv.online)[Entry(w.live[f], f)] == 1;
      }
  }

  predicate DistinctNames(live: map<int, string>) {
    forall f, g | f in live && g in live && live[f] == live[g] :: f == g
  }

  /** With distinct live names searchName answers with exactly the session of that name. */
  lemma SearchNamesTheSession(w: World, name: string, fd: int)
    requires Exact(w) && DistinctNames(w.live)
    ensures Find(w.srv.online, name) == Some(fd) <==> fd in w.live && w.live[fd] == name
  {
    SearchFindsALiveSession(w, name);
    assert fd in w.live && w.live[fd] == name ==> fd in Sessions(w.live, name);
  }

  /**
   * Leaving takes the session's own entry off the list exactly when searchName would have found
   * that session; otherwise another session of the same name loses its entry.
   */
  lemma LeavingIsExactIff(w: World, fd: int)
    requires Exact(w) && fd in w.live
    ensures Exact(Step(w, Disconnect(fd))) <==> Find(w.srv.online, w.live[fd]) == Some(fd)
  {
    var (name, w') := (w.live[fd], Step(w, Disconnect(fd)));
    var own := Entry(name, fd);
    RemoveIsOneLess(w.srv.online, name);
    FoundIsListed(w.srv.online, name);
    assert multiset(w.srv.online)[own] == 1;
    if Find(w.srv.online, name) == Some(fd) {
      OneEntryLess(w, own);
    } else {
      assert multiset(w'.srv.online)[own] == 1 && fd !in w'.live;
    }
  }

  lemma OneEntryLess(w: World, own: Entry)
    requires Exact(w) && own in w.srv.online
    ensures var less := multiset(w.srv.online) - multiset{own};
            forall e :: less[e] == if e.sfd in w.live - {own.sfd} && w.live[e.sfd] == e.name then 1 else 0
  {
    assert multiset(w.srv.online)[own] > 0;
    forall e ensures (multiset(w.srv.online) - multiset{own})[e]
                  == if e.sfd in w.live - {own.sfd} && w.live[e.sfd] == e.name then 1 else 0 {
      assert multiset(w.srv.online)[e] == if e.sfd in w.live && w.live[e.sfd] == e.name then 1 else 0;
    }
  }

  // ---------- exactly over which runs ----------

  /** A session that leaves is the one that searchName finds for its user. */
  predicate LeavesFound(w: World, e: Event) {
    Enabled(w, e) && e.Disconnect? ==> Find(w.srv.online, w.live[e.fd]) == Some(e.fd)
  }

  lemma ConnectKeepsExact(w: World, fd: int, name: string)
    requires Exact(w) && Enabled(w, Connect(fd, name))
    ensures Exact(Step(w, Connect(fd, name)))
  {
    var w' := Step(w, Connect(fd, name));
    forall x ensures multiset(w'.srv.online)[x] == if x.sfd in w'.live && w'.live[x.sfd] == x.name then 1 else 0 {
      assert multiset(w.srv.online)[x] == if x.sfd in w.live && w.live[x.sfd] == x.name then 1 else 0;
    }
  }

  lemma ExactStep(w: World, e: Event)
    requires Exact(w)
    ensures Exact(Step(w, e)) <==> LeavesFound(w, e)
  {
    if Enabled(w, e) {
      match e
      case Connect(fd, name) => ConnectKeepsExact(w, fd, name);
      case Disconnect(fd) => LeavingIsExactIff(w, fd);
      case ServerReads(i) => ServeKeepsList(w.srv, w.flight[i].msg, w.flight[i].fd);
      case _ =>
    }
  }

  /** Every state of the run is exact. */
  ghost predicate AlwaysExact(w: World, es: seq<Event>)
    decreases |es|
  {
    Exact(w) && (es == [] || AlwaysExact(Step(w, es[0]), es[1..]))
  }

  /** Of several sessions of one user it is always the one found by name that leaves. */
  predicate AlwaysLeavesFound(w: World, es: seq<Event>)
    decreases |es|
  {
    es == [] || (LeavesFound(w, es[0]) && AlwaysLeavesFound(Step(w, es[0]), es[1..]))
  }

  /** The registry is exact in every state of a run iff no session leaves that its name does not lead to. */
  lemma {:induction false} AlwaysExactIff(w: World, es: seq<Event>)
    requires Exact(w)
    ensures AlwaysExact(w, es) <==> AlwaysLeavesFound(w, es)
    decreases |es|
  {
    if es != [] {
      ExactStep(w, es[0]);
      if LeavesFound(w, es[0]) {
        AlwaysExactIff(Step(w, es[0]), es[1..]);
      }
    }
  }

  lemma StartIsExact(users: set<string>, friends: multiset<(string, string)>, es: seq<Event>)
    ensures AlwaysExact(Start(users, friends), es) <==> AlwaysLeavesFound(Start(users, friends), es)
  {
    AlwaysExactIff(Start(users, friends), es);
  }

  /** Nobody who is online logs in again. */
  predicate NoSecondLogin(w: World, e: Event) {
    e.Connect? ==> forall fd | fd in w.live :: w.live[fd] != e.name
  }

  predicate RunWithoutSecondLogin(w: World, es: seq<Event>)
    decreases |es|
  {
    es == [] || (NoSecondLogin(w, es[0]) && RunWithoutSecondLogin(Step(w, es[0]), es[1..]))
  }

  /** Without second logins this is always so; names then stay distinct, too. */
  lemma {:induction false} SingleLoginsLeaveFound(w: World, es: seq<Event>)
    requires Exact(w) && DistinctNames(w.live) && RunWithoutSecondLogin(w, es)
    ensures AlwaysLeavesFound(w, es) && DistinctNames(Run(w, es).live)
    decreases |es|
  {
    if es != [] {
      if Enabled(w, es[0]) && es[0].Disconnect? {
        SearchNamesTheSession(w, w.live[es[0].fd], es[0].fd);
      }
      ExactStep(w, es[0]);
      SingleLoginsLeaveFound(Step(w, es[0]), es[1..]);
    }
  }

  /** A second login does no harm as long as the newer session leaves first. */
  lemma NewerSessionLeavesFirst()
    ensures AlwaysLeavesFound(Start({"a"}, multiset{}), [Connect(1, "a"), Connect(2, "a"), Disconnect(2)])
  {
    var (w, e1, e2, e3) := (Start({"a"}, multiset{}), Connect(1, "a"), Connect(2, "a"), Disconnect(2));
    assert [e1, e2, e3][1..] == [e2, e3] && [e2, e3][1..] == [e3] && [e3][1..] == [];
    assert Step(Step(w, e1), e2).srv.online[0] == Entry("a", 2);
  }

  /**
   * When the older one leaves first, its entry stays, and the socket can be given to somebody else:
   * then a user who is online is reached at another user's socket.
   */
  lemma SecondLoginMisplacesAnEntry(friends: multiset<(string, string)>)
    ensures var w := Run(Start({}, friends), StaleRun() + [Connect(1, "b")]);
            w == StaleAndTaken(friends) && Find(w.srv.online, "a") == Some(1) && DistinctNames(w.live)
  {
    StaleRunLeadsThere(friends);
    RunAppend(Start({}, friends), StaleRun(), [Connect(1, "b")]);
    RunOne(StaleWorld(friends), Connect(1, "b"), []);
    assert [Connect(1, "b")] + [] == [Connect(1, "b")];
    assert [Entry("b", 1), Entry("a", 1)][1..] == [Entry("a", 1)];
  }

  function StaleAndTaken(friends: multiset<(string, string)>): (w: World) {
    Start({}, friends).(
      srv := State([Entry("b", 1), Entry("a", 1)], {"a", "b"}, friends, []),
      live := map[1 := "b", 2 := "a"])
  }

  // ---------- what the handlers do for the users ----------

  /** No one-to-one message goes astray in a run whose states are exact. */
  lemma {:induction false} ExactRunsLoseNothing(w: World, es: seq<Event>)
    requires AlwaysExact(w, es) && FlightLive(w)
    ensures StrayCount(w, es) == 0 && Astray(Run(w, es)) == Astray(w)
    decreases |es|
  {
    AstrayIsStrayCount(w, es);
    if es != [] {
      if Enabled(w, es[0]) && es[0].ServerReads? {
        SearchFindsALiveSession(w, w.flight[es[0].i].msg.des);
      }
      StepKeepsFlightLive(w, es[0]);
      ExactRunsLoseNothing(Step(w, es[0]), es[1..]);
    }
  }

  /** A broadcast goes to each live session of a friend exactly once, and to nobody else. */
  lemma BroadcastToLiveFriends(w: World, m: Msg, d: Delivery)
    requires Exact(w)
    ensures multiset(Broadcast(w.srv.friends, w.srv.online, m))[d] ==
      if d.msg == m && d.fd in w.live && AreFriends(w.srv, m.src, w.live[d.fd]) then 1 else 0
  {
    BroadcastReachesFriends(w.srv.friends, w.srv.online, m, d);
    forall e | e in w.srv.online ensures e.sfd in w.live && w.live[e.sfd] == e.name {
      assert multiset(w.srv.online)[e] > 0;
    }
    var name := if d.fd in w.live then w.live[d.fd] else "";
    ListedOnce(w.srv.friends, w.srv.online, m.src, d.fd, name);
    assert multiset(w.srv.online)[Entry(name, d.fd)] == if d.fd in w.live then 1 else 0;
  }

  lemma {:induction false} ListedOnce(friends: multiset<(string, string)>, es: seq<Entry>, src: string,
                                      fd: int, name: string)
    requires forall e | e in es && e.sfd == fd :: e.name == name
    ensures Listed(friends, es, src, fd) == if friends[(src, name)] > 0 then multiset(es)[Entry(name, fd)] else 0
  {
    if es != [] {
      assert es == [es[0]] + es[1..];
      ListedOnce(friends, es[1..], src, fd, name);
    }
  }

  /**
   * Between friends a private message is put on a live session of its receiver, or stored when
   * there is none; otherwise its sender gets it back.
   */
  lemma PrivateMessageIsRouted(w: World, i: nat)
    requires Exact(w) && FlightLive(w) && Enabled(w, ServerReads(i)) && IsBooked(w.flight[i].msg)
    ensures var (p, m, w') := (w.flight[i], w.flight[i].msg, Step(w, ServerReads(i)));
            var rest := Take(w.flight, i);
            if w.srv.friends[(m.src, m.des)] == 0 then
              w'.srv == w.srv && w'.flight == rest + [ToClient(p.fd, m.(body := Over(NotFriends, m.body)))]
            else if Sessions(w.live, m.des) == {} then
              w'.srv == w.srv.(stored := w.srv.stored + [m]) && w'.flight == rest
            else
              w'.srv == w.srv && exists to | to in Sessions(w.live, m.des) :: w'.flight == rest + [ToClient(to, m)]
  {
    var p := w.flight[i];
    assert p in w.flight;
    SearchFindsALiveSession(w, p.msg.des);
    OnePacket(p.fd, p.msg.(body := Over(NotFriends, p.msg.body)), w.live);
    match Find(w.srv.online, p.msg.des)
    case None =>
    case Some(to) =>
      OnePacket(to, p.msg, w.live);
      assert to in Sessions(w.live, p.msg.des);
  }

  /**
   * A friend request is put on a live session of the user it asks, and is lost when that user is
   * registered but not online; its sender hears of it only when there is no such user.
   */
  lemma RequestIsRouted(w: World, i: nat)
    requires Exact(w) && FlightLive(w) && Enabled(w, ServerReads(i)) && w.flight[i].msg.kind == AddFriend
    requires w.flight[i].msg.body != Text("exit")
    ensures var (p, m, w') := (w.flight[i], w.flight[i].msg, Step(w, ServerReads(i)));
            var rest := Take(w.flight, i);
            w'.srv == w.srv &&
            if m.des !in w.srv.users then
              w'.flight == rest + [ToClient(p.fd, m.(body := Over(NoSuchUser, m.body)))]
            else if Sessions(w.live, m.des) == {} then w'.flight == rest
            else exists to | to in Sessions(w.live, m.des) :: w'.flight == rest + [ToClient(to, m)]
  {
    var p := w.flight[i];
    assert p in w.flight;
    SearchFindsALiveSession(w, p.msg.des);
    OnePacket(p.fd, p.msg.(body := Over(NoSuchUser, p.msg.body)), w.live);
    match Find(w.srv.online, p.msg.des)
    case None =>
    case Some(to) =>
      OnePacket(to, p.msg, w.live);
      assert to in Sessions(w.live, p.msg.des);
  }
}
