/**
 * Messages under way over whole runs: exactly when they only reach the users they name, and what
 * follows for the add-friend handshake: it is safe, rests on consent, and ends.
 */
module ChatHandshake {
  import opened Wrappers
  import opened Roster
  import opened ChatSpec
  import opened ChatWorld
  import opened ChatIdentity

  /** A notice that a message or a file could not be passed on. */
  predicate IsBounce(body: Body) {
    body == Only(ReceiverOffline) || (body.Over? && body.notice == NotFriends)
  }

  /**
   * A message on its way. To the server it comes from the user it names as sender, except that an
   * answer of the handshake names its receiver as both. To a client, a private message or a piece
   * of a file goes to the user it names as receiver, or back to its sender as a notice; a message
   * of the handshake is the outcome of the client's own request, or a request that its sender has
   * issued to this very client.
   */
  ghost predicate PacketOk(w: World, p: Packet) {
    && p.fd in w.live
    && (p.msg.kind == AddFriend ==> p.msg.src in w.srv.users)
    && match p
       case ToServer(fd, m) =>
         if m.kind == AddFriend then m.src == m.des || (m.src == w.live[fd] && (m.src, m.des) in w.asked)
         else m.src == w.live[fd] && m.body.Text?
       case ToClient(fd, m) =>
         match m.kind
         case AddFriend => m.src == w.live[fd] || (m.des == w.live[fd] && (m.src, m.des) in w.asked)
         case SendOne => m.des == w.live[fd] || (m.src == w.live[fd] && IsBounce(m.body))
         case SendFile => m.des == w.live[fd] || (m.src == w.live[fd] && IsBounce(m.body))
         case _ => true
  }

  ghost predicate FlightOk(w: World) {
    && (forall p | p in w.flight :: PacketOk(w, p))
    && (forall fd | fd in w.live :: w.live[fd] in w.srv.users)
  }

  /** The message is one that is passed on to the socket searchName finds. */
  predicate PassedOn(s: State, m: Msg) {
    m.body != Text("exit") &&
    match m.kind
    case AddFriend => m.des in s.users
    case SendOne => AreFriends(s, m.src, m.des)
    case SendFile => true
    case _ => false
  }

  /**
   * What the server could check before it passes a message on: the socket found, if it is open,
   * belongs to the user the message names as receiver (or, in the handshake, as sender).
   */
  predicate ServedRight(w: World, p: Packet) {
    PassedOn(w.srv, p.msg) ==>
      match Find(w.srv.online, p.msg.des)
      case None => true
      case Some(to) =>
        to in w.live ==> w.live[to] == p.msg.des || (p.msg.kind == AddFriend && w.live[to] == p.msg.src)
  }

  predicate RoutedRight(w: World, e: Event) {
    Enabled(w, e) && e.ServerReads? ==> ServedRight(w, w.flight[e.i])
  }

  lemma {:induction false} BroadcastKeepsMessage(friends: multiset<(string, string)>, es: seq<Entry>, m: Msg)
    ensures forall d | d in Broadcast(friends, es, m) :: d.msg == m
  {
    if es != [] {
      BroadcastKeepsMessage(friends, es[1..], m);
    }
  }

  lemma ServeKeepsNames(s: State, m: Msg, fd: int)
    ensures forall d | d in Serve(s, m, fd).1 :: d.msg.src == m.src && d.msg.des == m.des && d.msg.kind == m.kind
  {
    BroadcastKeepsMessage(s.friends, s.online, m);
  }

  /** What the server makes of a good message is good exactly when the message is served right. */
  lemma ServerKeepsPacket(w: World, p: Packet)
    requires FlightOk(w) && p.ToServer? && PacketOk(w, p)
    ensures (forall q | q in Packets(Serve(w.srv, p.msg, p.fd).1, w.live) :: PacketOk(w, q)) <==> ServedRight(w, p)
  {
    var out := Serve(w.srv, p.msg, p.fd).1;
    ServeKeepsNames(w.srv, p.msg, p.fd);
    PacketsAreDeliveries(out, w.live);
    if PassedOn(w.srv, p.msg) {
      match Find(w.srv.online, p.msg.des)
      case None =>
      case Some(to) =>
        OnePacket(to, p.msg, w.live);
        assert out == [Delivery(to, p.msg)];
        assert to in w.live ==> ToClient(to, p.msg) in Packets(out, w.live);
    }
  }

  /** The same users, sessions and requests. */
  lemma SamePackets(w: World, w': World, ps: seq<Packet>)
    requires w'.live == w.live && w'.srv.users == w.srv.users && w'.asked == w.asked
    ensures (forall q | q in ps :: PacketOk(w', q)) <==> (forall q | q in ps :: PacketOk(w, q))
  {
    assert forall q | q in ps :: PacketOk(w', q) <==> PacketOk(w, q);
  }

  lemma TakeIsPart(ps: seq<Packet>, i: nat)
    requires i < |ps|
    ensures forall q | q in Take(ps, i) :: q in ps
  {
  }

  lemma ServerStepKeepsFlight(w: World, i: nat)
    requires FlightOk(w) && Enabled(w, ServerReads(i))
    ensures FlightOk(Step(w, ServerReads(i))) <==> ServedRight(w, w.flight[i])
  {
    var p, w' := w.flight[i], Step(w, ServerReads(i));
    var rest, ps := Take(w.flight, i), Packets(Serve(w.srv, p.msg, p.fd).1, w.live);
    ServeKeepsList(w.srv, p.msg, p.fd);
    ServerKeepsPacket(w, p);
    TakeIsPart(w.flight, i);
    SamePackets(w, w', rest);
    SamePackets(w, w', ps);
    assert w'.flight == rest + ps;
  }

  lemma ClientStepKeepsFlight(w: World, i: nat, accept: bool)
    requires FlightOk(w) && Enabled(w, ClientReads(i, accept))
    ensures FlightOk(Step(w, ClientReads(i, accept)))
  {
    var p, w' := w.flight[i], Step(w, ClientReads(i, accept));
    assert p in w.flight && PacketOk(w, p);
    forall q | q in w'.flight ensures PacketOk(w', q) {
      assert q in w.flight || q == ToServer(p.fd, Answer(p.msg, accept));
    }
  }

  lemma FlightStep(w: World, e: Event)
    requires FlightOk(w)
    ensures FlightOk(Step(w, e)) <==> RoutedRight(w, e)
  {
    if Enabled(w, e) {
      match e
      case Disconnect(fd) => WithoutFilters(w.flight, fd);
      case ServerReads(i) => ServerStepKeepsFlight(w, i);
      case ClientReads(i, accept) => ClientStepKeepsFlight(w, i, accept);
      case _ =>
    }
  }

  ghost predicate AlwaysFlightOk(w: World, es: seq<Event>)
    decreases |es|
  {
    FlightOk(w) && (es == [] || AlwaysFlightOk(Step(w, es[0]), es[1..]))
  }

  predicate AlwaysRoutedRight(w: World, es: seq<Event>)
    decreases |es|
  {
    es == [] || (RoutedRight(w, es[0]) && AlwaysRoutedRight(Step(w, es[0]), es[1..]))
  }

  /** In every state of a run messages only reach the users they name iff the server always routes right. */
  lemma {:induction false} AlwaysFlightOkIff(w: World, es: seq<Event>)
    requires FlightOk(w)
    ensures AlwaysFlightOk(w, es) <==> AlwaysRoutedRight(w, es)
    decreases |es|
  {
    if es != [] {
      FlightStep(w, es[0]);
      if RoutedRight(w, es[0]) {
        AlwaysFlightOkIff(Step(w, es[0]), es[1..]);
      }
    }
  }

  /** It does wherever the registry is exact. */
  lemma {:induction false} ExactRunsRouteRight(w: World, es: seq<Event>)
    requires AlwaysExact(w, es)
    ensures AlwaysRoutedRight(w, es)
    decreases |es|
  {
    if es != [] {
      if Enabled(w, es[0]) && es[0].ServerReads? {
        SearchFindsALiveSession(w, w.flight[es[0].i].msg.des);
      }
      ExactRunsRouteRight(Step(w, es[0]), es[1..]);
    }
  }

  /**
   * The handshake is safe: a client that reads an answer shows it and sends nothing, and whatever
   * it takes for a request was issued by its sender to this very user.
   */
  lemma HandshakeIsSafe(w: World, i: nat, accept: bool)
    requires FlightOk(w) && Enabled(w, ClientReads(i, accept)) && w.flight[i].msg.kind == AddFriend
    ensures var (m, me, w') := (w.flight[i].msg, w.live[w.flight[i].fd], Step(w, ClientReads(i, accept)));
            (m.src == m.des ==> m.src == me) &&
            (m.src == me ==> w' == w.(flight := Take(w.flight, i))) &&
            (m.src != me ==> m.des == me && (m.src, me) in w.asked) &&
            (m.src != me ==> w'.accepted == w.accepted + if accept then {Acceptance(m.src, me, me)} else {})
  {
    assert w.flight[i] in w.flight && PacketOk(w, w.flight[i]);
  }

  // ---------- consent ----------

  /** A message of the handshake is an answer, or a request that its sender has issued to its receiver. */
  ghost predicate Genuine(w: World) {
    forall p | p in w.flight && p.msg.kind == AddFriend :: p.msg.src == p.msg.des || (p.msg.src, p.msg.des) in w.asked
  }

  lemma GenuineStep(w: World, e: Event)
    requires Genuine(w)
    ensures Genuine(Step(w, e))
  {
    if Enabled(w, e) {
      match e
      case Disconnect(fd) => WithoutFilters(w.flight, fd);
      case ServerReads(i) =>
        var p := w.flight[i];
        assert p in w.flight;
        ServeKeepsNames(w.srv, p.msg, p.fd);
        PacketsAreDeliveries(Serve(w.srv, p.msg, p.fd).1, w.live);
      case ClientReads(i, _) => assert w.flight[i] in w.flight;
      case _ =>
    }
  }

  /** b has accepted a request that a issued to b. */
  ghost predicate Agreed(w: World, a: string, b: string) {
    (a, b) in w.asked && Acceptance(a, b, b) in w.accepted
  }

  /** A pair is in the friends table rightly: from the start, or because one has accepted the other's request. */
  ghost predicate Backed(w: World, origin: multiset<(string, string)>, a: string, b: string) {
    origin[(a, b)] > 0 || Agreed(w, a, b) || Agreed(w, b, a)
  }

  ghost predicate TableConsent(w: World, origin: multiset<(string, string)>) {
    forall a, b :: w.srv.friends[(a, b)] > 0 ==> Backed(w, origin, a, b)
  }

  /** Moreover, every accepted request was issued to the user who accepted it. */
  ghost predicate Consent(w: World, origin: multiset<(string, string)>) {
    && (forall x | x in w.accepted :: x.acceptor == x.addressee && (x.requester, x.addressee) in w.asked)
    && TableConsent(w, origin)
  }

  /** A user accepts a message of the handshake that names somebody else as its receiver. */
  predicate TakesForeign(w: World, e: Event) {
    && Enabled(w, e) && e.ClientReads? && e.accept
    && var (m, me) := (w.flight[e.i].msg, w.live[w.flight[e.i].fd]);
       m.kind == AddFriend && m.src != me && m.des != me
  }

  /** ... and its sender and this user are not friends rightly already. */
  ghost predicate TakesUnbacked(w: World, e: Event, origin: multiset<(string, string)>) {
    && TakesForeign(w, e)
    && var (a, me) := (w.flight[e.i].msg.src, w.live[w.flight[e.i].fd]);
       !(Backed(w, origin, a, me) && Backed(w, origin, me, a))
  }

  lemma TableClientStep(w: World, i: nat, accept: bool, origin: multiset<(string, string)>)
    requires Genuine(w) && TableConsent(w, origin) && Enabled(w, ClientReads(i, accept))
    ensures TableConsent(ClientStep(w, i, accept), origin) <==> !TakesUnbacked(w, ClientReads(i, accept), origin)
  {
    var (m, me, w') := (w.flight[i].msg, w.live[w.flight[i].fd], ClientStep(w, i, accept));
    assert w.flight[i] in w.flight;
    if accept && m.kind == AddFriend && m.src != me {
      assert w'.srv.friends[(m.src, me)] > 0 && w'.srv.friends[(me, m.src)] > 0;
      assert forall a, b :: Agreed(w', a, b) <==> Agreed(w, a, b) || (m.des == me && (a, b) == (m.src, me));
      forall a, b | w'.srv.friends[(a, b)] > 0 && !TakesUnbacked(w, ClientReads(i, accept), origin)
        ensures Backed(w', origin, a, b)
      {
        assert w.srv.friends[(a, b)] > 0 || (a, b) == (m.src, me) || (a, b) == (me, m.src);
      }
    }
  }

  lemma TableStep(w: World, e: Event, origin: multiset<(string, string)>)
    requires Genuine(w) && TableConsent(w, origin)
    ensures TableConsent(Step(w, e), origin) <==> !TakesUnbacked(w, e, origin)
  {
    if Enabled(w, e) {
      match e
      case ServerReads(i) => ServeOnlyRemoves(w.srv, w.flight[i].msg, w.flight[i].fd);
      case ClientReads(i, accept) => TableClientStep(w, i, accept, origin);
      case _ =>
    }
  }

  ghost predicate AlwaysTableConsent(w: World, es: seq<Event>, origin: multiset<(string, string)>)
    decreases |es|
  {
    TableConsent(w, origin) && (es == [] || AlwaysTableConsent(Step(w, es[0]), es[1..], origin))
  }

  ghost predicate NeverTakesUnbacked(w: World, es: seq<Event>, origin: multiset<(string, string)>)
    decreases |es|
  {
    es == [] || (!TakesUnbacked(w, es[0], origin) && NeverTakesUnbacked(Step(w, es[0]), es[1..], origin))
  }

  /**
   * The friends table rests on consent in every state of a run iff no user accepts a foreign request
   * of somebody who is not rightly a friend already.
   */
  lemma {:induction false} AlwaysTableConsentIff(w: World, es: seq<Event>, origin: multiset<(string, string)>)
    requires Genuine(w) && TableConsent(w, origin)
    ensures AlwaysTableConsent(w, es, origin) <==> NeverTakesUnbacked(w, es, origin)
    decreases |es|
  {
    if es != [] {
      TableStep(w, es[0], origin);
      if !TakesUnbacked(w, es[0], origin) {
        GenuineStep(w, es[0]);
        AlwaysTableConsentIff(Step(w, es[0]), es[1..], origin);
      }
    }
  }

  lemma ConsentStep(w: World, e: Event, origin: multiset<(string, string)>)
    requires Genuine(w) && Consent(w, origin)
    ensures Consent(Step(w, e), origin) <==> !TakesForeign(w, e)
  {
    TableStep(w, e, origin);
    if TakesForeign(w, e) {
      var (m, me) := (w.flight[e.i].msg, w.live[w.flight[e.i].fd]);
      assert Acceptance(m.src, m.des, me) in Step(w, e).accepted;
    } else if Enabled(w, e) && e.ClientReads? {
      assert w.flight[e.i] in w.flight;
    }
  }

  lemma ServeOnlyRemoves(s: State, m: Msg, fd: int)
    ensures forall p :: Serve(s, m, fd).0.friends[p] <= s.friends[p]
  {
    ServeKeepsList(s, m, fd);
  }

  ghost predicate AlwaysConsent(w: World, es: seq<Event>, origin: multiset<(string, string)>)
    decreases |es|
  {
    Consent(w, origin) && (es == [] || AlwaysConsent(Step(w, es[0]), es[1..], origin))
  }

  predicate NeverTakesForeign(w: World, es: seq<Event>)
    decreases |es|
  {
    es == [] || (!TakesForeign(w, es[0]) && NeverTakesForeign(Step(w, es[0]), es[1..]))
  }

  /** Friendship rests on consent in every state of a run iff no user accepts a foreign request. */
  lemma {:induction false} AlwaysConsentIff(w: World, es: seq<Event>, origin: multiset<(string, string)>)
    requires Genuine(w) && Consent(w, origin)
    ensures AlwaysConsent(w, es, origin) <==> NeverTakesForeign(w, es)
    decreases |es|
  {
    if es != [] {
      ConsentStep(w, es[0], origin);
      if !TakesForeign(w, es[0]) {
        GenuineStep(w, es[0]);
        AlwaysConsentIff(Step(w, es[0]), es[1..], origin);
      }
    }
  }

  /** No user can where messages are routed right, because none gets such a request. */
  lemma {:induction false} RoutedRunsTakeNothingForeign(w: World, es: seq<Event>)
    requires AlwaysFlightOk(w, es)
    ensures NeverTakesForeign(w, es)
    decreases |es|
  {
    if es != [] {
      if Enabled(w, es[0]) && es[0].ClientReads? {
        assert w.flight[es[0].i] in w.flight && PacketOk(w, w.flight[es[0].i]);
      }
      RoutedRunsTakeNothingForeign(Step(w, es[0]), es[1..]);
    }
  }

  /**
   * From the start on, and as long as only sessions leave that their names lead to: messages reach
   * the users they name, and friendship rests on consent.
   */
  lemma ReachableHandshakes(users: set<string>, friends: multiset<(string, string)>, es: seq<Event>)
    requires AlwaysLeavesFound(Start(users, friends), es)
    ensures AlwaysFlightOk(Start(users, friends), es) && AlwaysConsent(Start(users, friends), es, friends)
  {
    var w := Start(users, friends);
    StartIsExact(users, friends, es);
    ExactRunsRouteRight(w, es);
    AlwaysFlightOkIff(w, es);
    RoutedRunsTakeNothingForeign(w, es);
    AlwaysConsentIff(w, es, friends);
  }

  // ---------- where the registry misleads ----------

  /** The server passes a message of the handshake on, to whatever socket it finds. */
  lemma PassedToSocket(w: World, fd: int, m: Msg, to: int)
    requires w.flight == [ToServer(fd, m)] && m.kind == AddFriend && m.body != Text("exit") && m.des in w.srv.users
    requires Find(w.srv.online, m.des) == Some(to) && to in w.live
    ensures Step(w, ServerReads(0)) == w.(flight := [ToClient(to, m)])
  {
    OnePacket(to, m, w.live);
  }

  /** One round of a handshake whose message is passed on to somebody who is not its sender. */
  lemma OneRound(w: World, fd: int, m: Msg, to: int, accept: bool)
    requires w.flight == [ToServer(fd, m)] && m.kind == AddFriend && m.body != Text("exit") && m.des in w.srv.users
    requires Find(w.srv.online, m.des) == Some(to) && to in w.live && w.live[to] != m.src
    ensures Step(w, ServerReads(0)) == w.(flight := [ToClient(to, m)])
    ensures Run(w, [ServerReads(0), ClientReads(0, accept)]) == ClientStep(w.(flight := [ToClient(to, m)]), 0, accept)
    ensures ClientStep(w.(flight := [ToClient(to, m)]), 0, accept).flight == [ToServer(to, Answer(m, accept))]
  {
    PassedToSocket(w, fd, m, to);
    var (read, answer) := (ServerReads(0), ClientReads(0, accept));
    RunOne(w, read, [answer]);
    RunOne(Step(w, read), answer, []);
    assert [read] + [answer] == [read, answer] && [answer] + [] == [answer];
  }

  /** User c, who has come later, asks a. */
  function CAsksA(): (w: World) {
    StaleAndTaken(multiset{}).(
      srv := State([Entry("c", 3), Entry("b", 1), Entry("a", 1)], {"a", "b", "c"}, multiset{}, []),
      live := map[1 := "b", 2 := "a", 3 := "c"],
      flight := [ToServer(3, Msg(AddFriend, "c", "a", Text("hi")))],
      asked := {("c", "a")})
  }

  lemma CAsks()
    ensures Run(StaleAndTaken(multiset{}), [Register("c"), Connect(3, "c"), UserSends(3, AddFriend, "a", "hi")])
         == CAsksA()
  {
    RunThree(StaleAndTaken(multiset{}), Register("c"), Connect(3, "c"), UserSends(3, AddFriend, "a", "hi"));
  }

  /**
   * Without consent: b has the socket that a's stale entry names, gets the request that c issues
   * to a, and accepts it, although all live names are distinct.
   */
  lemma AForeignRequestIsAccepted()
    ensures var es := [Register("c"), Connect(3, "c"), UserSends(3, AddFriend, "a", "hi")]
                      + [ServerReads(0), ClientReads(0, true)];
            var w := Run(StaleAndTaken(multiset{}), es);
            && w.live == map[1 := "b", 2 := "a", 3 := "c"] && w.asked == {("c", "a")}
            && w.accepted == {Acceptance("c", "a", "b")} && w.srv.friends[("c", "b")] == 1
  {
    CAsks();
    RunAppend(StaleAndTaken(multiset{}), [Register("c"), Connect(3, "c"), UserSends(3, AddFriend, "a", "hi")],
              [ServerReads(0), ClientReads(0, true)]);
    var es := CAsksA().srv.online;
    assert es[1..] == [Entry("b", 1), Entry("a", 1)] && es[1..][1..] == [Entry("a", 1)];
    OneRound(CAsksA(), 3, Msg(AddFriend, "c", "a", Text("hi")), 1, true);
  }

  /** A rejection on its way to a, whose name leads to the very socket of b that it comes from. */
  function EndlessWorld(): (w: World) {
    StaleAndTaken(multiset{}).(flight := [ToServer(1, Msg(AddFriend, "a", "a", Only(Rejected)))], asked := {("a", "b")})
  }

  lemma EndlessStarts()
    ensures var es := [UserSends(2, AddFriend, "b", "hi")] + [ServerReads(0), ClientReads(0, false)];
            Run(StaleAndTaken(multiset{}), es) == EndlessWorld()
  {
    var w := StaleAndTaken(multiset{});
    var e := UserSends(2, AddFriend, "b", "hi");
    RunOne(w, e, [ServerReads(0), ClientReads(0, false)]);
    OneRound(Step(w, e), 2, Msg(AddFriend, "a", "b", Text("hi")), 1, false);
  }

  function Rounds(n: nat): (es: seq<Event>) {
    if n == 0 then [] else [ServerReads(0)] + ([ClientReads(0, false)] + Rounds(n - 1))
  }

  /** b takes the answer for a request and answers it again, for ever: one request, any number of reads. */
  lemma {:induction false} ExchangeNeverEnds(n: nat)
    ensures Run(EndlessWorld(), Rounds(n)) == EndlessWorld()
    ensures Reads(AllReads, EndlessWorld(), Rounds(n)) == 2 * n && Requests(EndlessWorld(), Rounds(n)) == 0
  {
    if n > 0 {
      var w := EndlessWorld();
      var m := Msg(AddFriend, "a", "a", Only(Rejected));
      var after := [ClientReads(0, false)] + Rounds(n - 1);
      assert w.srv.online[1..] == [Entry("a", 1)];
      OneRound(w, 1, m, 1, false);
      assert ClientStep(w.(flight := [ToClient(1, m)]), 0, false) == w;
      assert Rounds(n)[1..] == after && after[1..] == Rounds(n - 1);
      ExchangeNeverEnds(n - 1);
    }
  }

  // ---------- the handshake ends ----------

  /** Which reads of handshake messages are counted: the server's forwards only, or the clients' reads too. */
  datatype Scope = Forwards | AllReads

  /**
   * Reads this message can still cause, itself included: an answer on its way to the client 1, to
   * the server 2, a request on its way to the client 3, to the server 4; half of it are forwards.
   */
  function Rank(c: Scope, live: map<int, string>, p: Packet): (n: nat) {
    if p.msg.kind != AddFriend then 0
    else
      var left := match p
        case ToServer(_, m) => if m.src == m.des then 2 else 4
        case ToClient(fd, m) => if fd in live && m.src == live[fd] then 1 else 3;
      if c == Forwards then left / 2 else left
  }

  function Weight(c: Scope, live: map<int, string>, ps: seq<Packet>): (n: nat) {
    if ps == [] then 0 else Rank(c, live, ps[0]) + Weight(c, live, ps[1..])
  }

  lemma {:induction false} WeightAppend(c: Scope, live: map<int, string>, a: seq<Packet>, b: seq<Packet>)
    ensures Weight(c, live, a + b) == Weight(c, live, a) + Weight(c, live, b)
  {
    if a == [] {
      assert a + b == b;
    } else {
      assert (a + b)[1..] == a[1..] + b;
      WeightAppend(c, live, a[1..], b);
    }
  }

  lemma WeightTake(c: Scope, live: map<int, string>, ps: seq<Packet>, i: nat)
    requires i < |ps|
    ensures Weight(c, live, Take(ps, i)) + Rank(c, live, ps[i]) == Weight(c, live, ps)
  {
    WeightAppend(c, live, ps[..i], ps[i + 1..]);
    WeightAppend(c, live, ps[..i], ps[i..]);
    assert ps == ps[..i] + ps[i..] && ps[i..][1..] == ps[i + 1..];
  }

  /** A served handshake message turns into at most one message, of smaller rank. */
  lemma ServeLowersRank(c: Scope, w: World, p: Packet)
    requires FlightOk(w) && p.ToServer? && PacketOk(w, p) && ServedRight(w, p)
    ensures var after := Weight(c, w.live, Packets(Serve(w.srv, p.msg, p.fd).1, w.live));
            after <= Rank(c, w.live, p) && (p.msg.kind == AddFriend ==> after < Rank(c, w.live, p))
  {
    var out := Serve(w.srv, p.msg, p.fd).1;
    if p.msg.kind == AddFriend {
      if |out| == 1 {
        assert out == [out[0]];
        OnePacket(out[0].fd, out[0].msg, w.live);
        assert Packets(out, w.live) != [] ==> Packets(out, w.live)[1..] == [];
      }
    } else {
      ServeKeepsNames(w.srv, p.msg, p.fd);
      PacketsAreDeliveries(out, w.live);
      WeightOfOthers(c, w.live, Packets(out, w.live));
    }
  }

  lemma {:induction false} WeightOfOthers(c: Scope, live: map<int, string>, ps: seq<Packet>)
    requires forall p | p in ps :: p.msg.kind != AddFriend
    ensures Weight(c, live, ps) == 0
  {
    if ps != [] {
      WeightOfOthers(c, live, ps[1..]);
    }
  }

  function Cost(c: Scope): (n: nat) {
    if c == Forwards then 2 else 4
  }

  predicate ReadsHandshake(c: Scope, w: World, e: Event) {
    && Enabled(w, e) && (e.ServerReads? || (e.ClientReads? && c == AllReads)) && w.flight[e.i].msg.kind == AddFriend
  }

  predicate AsksFriend(w: World, e: Event) {
    Enabled(w, e) && e.UserSends? && e.kind == AddFriend
  }

  lemma ClientReadLowersWeight(c: Scope, w: World, i: nat, accept: bool)
    requires Enabled(w, ClientReads(i, accept))
    ensures Weight(c, w.live, ClientStep(w, i, accept).flight) +
      (if c == AllReads && w.flight[i].msg.kind == AddFriend then 1 else 0) <= Weight(c, w.live, w.flight)
  {
    var q := ToServer(w.flight[i].fd, Answer(w.flight[i].msg, accept));
    WeightTake(c, w.live, w.flight, i);
    WeightAppend(c, w.live, Take(w.flight, i), [q]);
    assert [q][1..] == [];
  }

  /** Every read of a handshake message lowers the weight; only a new request raises it, by at most Cost. */
  lemma StepLowersWeight(c: Scope, w: World, e: Event)
    requires FlightOk(w) && RoutedRight(w, e)
    ensures var w' := Step(w, e);
            Weight(c, w'.live, w'.flight) + (if ReadsHandshake(c, w, e) then 1 else 0)
              <= Weight(c, w.live, w.flight) + (if AsksFriend(w, e) then Cost(c) else 0)
  {
    if Enabled(w, e) {
      var w' := Step(w, e);
      match e
      case Connect(fd, name) => WeightSame(c, w.live, w'.live, w.flight);
      case Disconnect(fd) =>
        WithoutLowersWeight(c, w.live, w.flight, fd);
        WithoutFilters(w.flight, fd);
        WeightSame(c, w.live, w'.live, w'.flight);
      case UserSends(fd, kind, des, text) =>
        var p := ToServer(fd, Msg(kind, w.live[fd], des, Text(text)));
        WeightAppend(c, w.live, w.flight, [p]);
        assert [p][1..] == [];
      case ServerReads(i) =>
        var p := w.flight[i];
        assert p in w.flight;
        ServeLowersRank(c, w, p);
        WeightTake(c, w.live, w.flight, i);
        WeightAppend(c, w.live, Take(w.flight, i), Packets(Serve(w.srv, p.msg, p.fd).1, w.live));
      case ClientReads(i, accept) =>
        ClientReadLowersWeight(c, w, i, accept);
      case _ =>
    }
  }

  lemma {:induction false} WeightSame(c: Scope, a: map<int, string>, b: map<int, string>, ps: seq<Packet>)
    requires forall p | p in ps :: p.fd in a && p.fd in b && a[p.fd] == b[p.fd]
    ensures Weight(c, a, ps) == Weight(c, b, ps)
  {
    if ps != [] {
      assert ps[0] in ps;
      WeightSame(c, a, b, ps[1..]);
    }
  }

  lemma {:induction false} WithoutLowersWeight(c: Scope, live: map<int, string>, ps: seq<Packet>, fd: int)
    ensures Weight(c, live, Without(ps, fd)) <= Weight(c, live, ps)
  {
    if ps != [] {
      WithoutLowersWeight(c, live, ps[1..], fd);
      assert ([ps[0]] + Without(ps[1..], fd))[1..] == Without(ps[1..], fd);
      assert [] + Without(ps[1..], fd) == Without(ps[1..], fd);
    }
  }

  function Reads(c: Scope, w: World, es: seq<Event>): (n: nat)
    decreases |es|
  {
    if es == [] then 0 else (if ReadsHandshake(c, w, es[0]) then 1 else 0) + Reads(c, Step(w, es[0]), es[1..])
  }

  function Requests(w: World, es: seq<Event>): (n: nat)
    decreases |es|
  {
    if es == [] then 0 else (if AsksFriend(w, es[0]) then 1 else 0) + Requests(Step(w, es[0]), es[1..])
  }

  /**
   * Termination over whole runs: each request causes at most two server forwards and at most four
   * reads of handshake messages, as long as these are routed right.
   */
  lemma {:induction false} HandshakesEnd(c: Scope, w: World, es: seq<Event>)
    requires FlightOk(w) && AlwaysRoutedRight(w, es)
    ensures Reads(c, w, es) <= Weight(c, w.live, w.flight) + Cost(c) * Requests(w, es)
    decreases |es|
  {
    if es != [] {
      StepLowersWeight(c, w, es[0]);
      FlightStep(w, es[0]);
      HandshakesEnd(c, Step(w, es[0]), es[1..]);
    }
  }
}
