/**
 * What the events of the chat system do, in terms of sockets, tables and names alone: each kind of
 * message that the server reads, each fetch, and each answer of the add-friend handshake.
 */
module ChatLaws {
  import opened Wrappers
  import opened Roster
  import opened ChatSpec
  import opened ChatWorld
  import opened ChatIdentity
  import opened ChatHandshake

  // ---------- messages that the server reads ----------

  lemma {:induction false} PacketsCount(out: seq<Delivery>, live: map<int, string>, q: Packet)
    ensures multiset(Packets(out, live))[q] ==
      if q.ToClient? && q.fd in live then multiset(out)[Delivery(q.fd, q.msg)] else 0
  {
    if out != [] {
      PacketsCount(out[1..], live, q);
      assert out == [out[0]] + out[1..];
    }
  }

  lemma TakenOut(ps: seq<Packet>, i: nat)
    requires i < |ps|
    ensures multiset(Take(ps, i)) == multiset(ps) - multiset{ps[i]}
  {
    assert ps == ps[..i] + [ps[i]] + ps[i + 1..];
  }

  /**
   * A broadcast that the server reads is put on the socket of each live session of a friend of its
   * sender, once, and on no other; nothing else changes.
   */
  lemma BroadcastReachesLiveFriends(w: World, i: nat)
    requires Exact(w) && Enabled(w, ServerReads(i)) && w.flight[i].msg.kind == SendAll
    requires w.flight[i].msg.body != Text("exit")
    ensures var (p, m, w') := (w.flight[i], w.flight[i].msg, Step(w, ServerReads(i)));
      && w'.srv == w.srv
      && forall q :: multiset(w'.flight)[q] == (multiset(w.flight) - multiset{p})[q] +
           (if q.ToClient? && q.msg == m && q.fd in w.live && w.srv.friends[(m.src, w.live[q.fd])] > 0 then 1 else 0)
  {
    var (p, m, w') := (w.flight[i], w.flight[i].msg, Step(w, ServerReads(i)));
    var out := Broadcast(w.srv.friends, w.srv.online, m);
    TakenOut(w.flight, i);
    forall q ensures multiset(w'.flight)[q] == (multiset(w.flight) - multiset{p})[q] +
      (if q.ToClient? && q.msg == m && q.fd in w.live && w.srv.friends[(m.src, w.live[q.fd])] > 0 then 1 else 0)
    {
      PacketsCount(out, w.live, q);
      BroadcastToLiveFriends(w, m, Delivery(q.fd, q.msg));
      assert multiset(w'.flight) == multiset(Take(w.flight, i)) + multiset(Packets(out, w.live));
    }
  }

  /** A message that a user sends is the one that the server reads, whatever its kind. */
  lemma UserSendsServerReads(w: World, fd: int, kind: Kind, des: string, text: string)
    requires fd in w.live
    ensures var (m, w') := (Msg(kind, w.live[fd], des, Text(text)),
                            Run(w, [UserSends(fd, kind, des, text), ServerReads(|w.flight|)]));
      && w'.srv == Serve(w.srv, m, fd).0 && w'.live == w.live
      && w'.flight == w.flight + Packets(Serve(w.srv, m, fd).1, w.live)
  {
    var (e1, e2) := (UserSends(fd, kind, des, text), ServerReads(|w.flight|));
    var m := Msg(kind, w.live[fd], des, Text(text));
    var w1 := Step(w, e1);
    assert w1.flight == w.flight + [ToServer(fd, m)];
    assert Take(w1.flight, |w.flight|) == w.flight;
    RunOne(w, e1, [e2]);
    RunOne(w1, e2, []);
    assert [e1] + [e2] == [e1, e2] && [e2] + [] == [e2];
  }

  /** The same from the moment that a user sends it. */
  lemma ABroadcastArrives(w: World, fd: int, des: string, text: string)
    requires Exact(w) && fd in w.live && text != "exit"
    ensures var w' := Run(w, [UserSends(fd, SendAll, des, text), ServerReads(|w.flight|)]);
      && w'.srv == w.srv
      && forall g, m :: multiset(w'.flight)[ToClient(g, m)] == multiset(w.flight)[ToClient(g, m)] +
           (if m == Msg(SendAll, w.live[fd], des, Text(text)) && g in w.live
               && w.srv.friends[(w.live[fd], w.live[g])] > 0 then 1 else 0)
  {
    var sent := Msg(SendAll, w.live[fd], des, Text(text));
    UserSendsServerReads(w, fd, SendAll, des, text);
    forall g, m ensures multiset(Packets(Broadcast(w.srv.friends, w.srv.online, sent), w.live))[ToClient(g, m)] ==
      (if m == sent && g in w.live && w.srv.friends[(w.live[fd], w.live[g])] > 0 then 1 else 0)
    {
      PacketsCount(Broadcast(w.srv.friends, w.srv.online, sent), w.live, ToClient(g, m));
      BroadcastToLiveFriends(w, sent, Delivery(g, m));
    }
  }

  /**
   * A request to delete a friend: when the table has a row of the pair, none is left in either
   * direction, and the sender is told so; otherwise it gets the message back and nothing changes.
   */
  lemma DeletionIsTold(w: World, i: nat)
    requires FlightLive(w) && Enabled(w, ServerReads(i)) && w.flight[i].msg.kind == DelFriend
    requires w.flight[i].msg.body != Text("exit")
    ensures var (p, m, w') := (w.flight[i], w.flight[i].msg, Step(w, ServerReads(i)));
      var told := w.srv.friends[(m.src, m.des)] > 0;
      && w'.srv == w.srv.(friends := w'.srv.friends)
      && w'.flight == Take(w.flight, i)
           + [ToClient(p.fd, m.(body := if told then Only(DeleteDone) else Over(NotInFriendList, m.body)))]
      && forall a, b :: w'.srv.friends[(a, b)] ==
           if told && ((a, b) == (m.src, m.des) || (b, a) == (m.src, m.des)) then 0 else w.srv.friends[(a, b)]
  {
    var (p, m) := (w.flight[i], w.flight[i].msg);
    assert p in w.flight;
    OnePacket(p.fd, m.(body := Only(DeleteDone)), w.live);
    OnePacket(p.fd, m.(body := Over(NotInFriendList, m.body)), w.live);
  }

  /** A piece of a file goes on as it is to a live session of its receiver, or its sender is told that there is none. */
  lemma FileIsRouted(w: World, i: nat)
    requires Exact(w) && FlightLive(w) && Enabled(w, ServerReads(i)) && w.flight[i].msg.kind == SendFile
    requires w.flight[i].msg.body != Text("exit")
    ensures var (p, m, w') := (w.flight[i], w.flight[i].msg, Step(w, ServerReads(i)));
      var rest := Take(w.flight, i);
      w'.srv == w.srv &&
      if Sessions(w.live, m.des) == {} then
        w'.flight == rest + [ToClient(p.fd, m.(body := Only(ReceiverOffline)))]
      else exists to | to in Sessions(w.live, m.des) :: w'.flight == rest + [ToClient(to, m)]
  {
    var p := w.flight[i];
    assert p in w.flight;
    SearchFindsALiveSession(w, p.msg.des);
    OnePacket(p.fd, p.msg.(body := Only(ReceiverOffline)), w.live);
    match Find(w.srv.online, p.msg.des)
    case None =>
    case Some(to) =>
      OnePacket(to, p.msg, w.live);
      assert to in Sessions(w.live, p.msg.des);
  }

  /** A message that reads "exit" is dropped, and so is one of a kind that the server only prints. */
  lemma OthersAreDropped(w: World, i: nat)
    requires Enabled(w, ServerReads(i))
    requires var m := w.flight[i].msg;
      m.body == Text("exit") || m.kind == ShowAll || m.kind == ShowFriend || m.kind == BanOne || m.kind == Logout
    ensures var w' := Step(w, ServerReads(i));
      w'.srv == w.srv && w'.flight == Take(w.flight, i)
  {
    assert Take(w.flight, i) + [] == Take(w.flight, i);
  }

  // ---------- offline messages ----------

  lemma {:induction false} TableIsSorted(ms: seq<Msg>, name: string) returns (own: seq<nat>, others: seq<nat>)
    ensures Sorted(ms, name, For(ms, name), NotFor(ms, name), own, others)
    decreases |ms|
  {
    own, others := [], [];
    if ms != [] {
      var (rest, m) := (ms[..|ms| - 1], ms[|ms| - 1]);
      own, others := TableIsSorted(rest, name);
      SortedNext(rest, name, For(rest, name), NotFor(rest, name), own, others, m);
      assert ms == rest + [m];
      if m.des == name {
        own := own + [|rest|];
      } else {
        others := others + [|rest|];
      }
    }
  }

  /**
   * A fetch shows its user exactly the stored messages that name this user as receiver, in the order
   * of the table, and leaves exactly the others, in theirs.
   */
  lemma FetchShowsOwn(w: World, fd: int) returns (shown: seq<Msg>, own: seq<nat>, others: seq<nat>)
    requires Enabled(w, Fetch(fd))
    ensures var (me, w') := (w.live[fd], Step(w, Fetch(fd)));
      && w'.ledger == w.ledger.(shown := w.ledger.shown + multiset(shown)) && w'.srv == w.srv.(stored := w'.srv.stored)
      && PicksAt(w.srv.stored, me, true, shown, own) && PicksAt(w.srv.stored, me, false, w'.srv.stored, others)
      && forall m :: multiset(shown)[m] == (if m.des == me then multiset(w.srv.stored)[m] else 0)
                  && multiset(w'.srv.stored)[m] == (if m.des == me then 0 else multiset(w.srv.stored)[m])
  {
    shown := For(w.srv.stored, w.live[fd]);
    own, others := TableIsSorted(w.srv.stored, w.live[fd]);
    ForCounts(w.srv.stored, w.live[fd]);
  }

  /** How often m stands in the table when its receiver fetches. */
  function ShownToReceiver(w: World, es: seq<Event>, m: Msg): (n: nat)
    decreases |es|
  {
    if es == [] then 0 else
    (if Enabled(w, es[0]) && es[0].Fetch? && w.live[es[0].fd] == m.des then multiset(w.srv.stored)[m] else 0)
    + ShownToReceiver(Step(w, es[0]), es[1..], m)
  }

  /** Over every run: whatever has been shown has been shown by a fetch of its receiver. */
  lemma {:induction false} ShownIsShownToReceiver(w: World, es: seq<Event>, m: Msg)
    ensures Run(w, es).ledger.shown[m] == w.ledger.shown[m] + ShownToReceiver(w, es, m)
    decreases |es|
  {
    if es != [] {
      if Enabled(w, es[0]) && es[0].Fetch? {
        var shown, own, others := FetchShowsOwn(w, es[0].fd);
      }
      ShownIsShownToReceiver(Step(w, es[0]), es[1..], m);
    }
  }

  // ---------- answers of the handshake ----------

  /**
   * A request that a user accepts is answered with "agreed" and puts both rows of the pair in the
   * table; one that the user declines is answered with "rejected" and leaves the table as it is.
   */
  lemma AnswerTellsTheOutcome(w: World, i: nat, accept: bool)
    requires Enabled(w, ClientReads(i, accept)) && w.flight[i].msg.kind == AddFriend
    requires w.flight[i].msg.src != w.live[w.flight[i].fd]
    ensures var (fd, m, w') := (w.flight[i].fd, w.flight[i].msg, Step(w, ClientReads(i, accept)));
      var pair := multiset{(m.src, w.live[fd]), (w.live[fd], m.src)};
      var body := if accept then Only(Agreed) else Only(Rejected);
      && w'.flight == Take(w.flight, i) + [ToServer(fd, Msg(AddFriend, m.src, m.src, body))]
      && w'.srv == w.srv.(friends := w.srv.friends + if accept then pair else multiset{})
      && (body == Only(Agreed) <==> w'.srv.friends != w.srv.friends)
  {
    var (fd, m, w') := (w.flight[i].fd, w.flight[i].msg, Step(w, ClientReads(i, accept)));
    assert w'.srv.friends[(m.src, w.live[fd])] > w.srv.friends[(m.src, w.live[fd])] <==> accept;
  }

  /** An answer "agreed" under way means that a request of the user it goes to has been accepted. */
  ghost predicate AgreedOnRecord(w: World) {
    forall p | p in w.flight && p.msg.kind == AddFriend && p.msg.body == Only(Notice.Agreed) ::
      exists x :: x in w.accepted && x.requester == p.msg.src
  }

  lemma ServePassesAgreed(s: State, m: Msg, fd: int)
    ensures forall d | d in Serve(s, m, fd).1 ::
      d.msg.kind == AddFriend && d.msg.body == Only(Notice.Agreed) ==> d.msg == m
  {
    BroadcastKeepsMessage(s.friends, s.online, m);
  }

  lemma AgreedStep(w: World, e: Event)
    requires AgreedOnRecord(w)
    ensures AgreedOnRecord(Step(w, e))
  {
    if Enabled(w, e) {
      match e
      case Disconnect(fd) => WithoutFilters(w.flight, fd);
      case ServerReads(i) =>
        var p := w.flight[i];
        assert p in w.flight;
        ServePassesAgreed(w.srv, p.msg, p.fd);
        PacketsAreDeliveries(Serve(w.srv, p.msg, p.fd).1, w.live);
      case ClientReads(i, accept) =>
        var (m, me) := (w.flight[i].msg, w.live[w.flight[i].fd]);
        assert w.flight[i] in w.flight;
        if accept && m.kind == AddFriend && m.src != me {
          assert Acceptance(m.src, m.des, me) in Step(w, e).accepted;
        }
      case _ =>
    }
  }

  lemma {:induction false} AgreedRun(w: World, es: seq<Event>)
    requires AgreedOnRecord(w)
    ensures AgreedOnRecord(Run(w, es))
    decreases |es|
  {
    if es != [] {
      AgreedStep(w, es[0]);
      AgreedRun(Step(w, es[0]), es[1..]);
    }
  }

  lemma {:induction false} ConsentAtTheEnd(w: World, es: seq<Event>, origin: multiset<(string, string)>)
    requires AlwaysConsent(w, es, origin)
    ensures Consent(Run(w, es), origin)
    decreases |es|
  {
    if es != [] {
      ConsentAtTheEnd(Step(w, es[0]), es[1..], origin);
    }
  }

  /**
   * From the start on, and as long as only sessions leave that their names lead to: when an answer
   * "agreed" is under way, a user has accepted a request that its requester issued to that user.
   */
  lemma AgreedAnswersAreTrue(users: set<string>, friends: multiset<(string, string)>, es: seq<Event>, p: Packet)
    requires AlwaysLeavesFound(Start(users, friends), es)
    requires var w := Run(Start(users, friends), es);
      p in w.flight && p.msg.kind == AddFriend && p.msg.body == Only(Notice.Agreed)
    ensures var w := Run(Start(users, friends), es);
      exists b :: (p.msg.src, b) in w.asked && Acceptance(p.msg.src, b, b) in w.accepted
  {
    var (s, w) := (Start(users, friends), Run(Start(users, friends), es));
    ReachableHandshakes(users, friends, es);
    ConsentAtTheEnd(s, es, friends);
    AgreedRun(s, es);
    var x :| x in w.accepted && x.requester == p.msg.src;
    assert x == Acceptance(p.msg.src, x.addressee, x.addressee);
  }
}
