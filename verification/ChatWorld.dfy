/**
 * The chat system as a state machine: the server of ChatSpec, its live sessions, the clients'
 * receiving side and the messages in flight, with invariants over all runs.
 */
module ChatWorld {
  import opened Wrappers
  import opened Roster
  import opened ChatSpec

  datatype Packet = ToServer(fd: int, msg: Msg) | ToClient(fd: int, msg: Msg)

  datatype Event =
    | Register(name: string)
    | Connect(fd: int, name: string)
    | Disconnect(fd: int)
    | UserSends(fd: int, kind: Kind, des: string, text: string)
    | ServerReads(i: nat)
    | ClientReads(i: nat, accept: bool)
    | Fetch(fd: int)

  datatype World = World(
    srv: State,
    live: map<int, string>,             // sessions: socket to user name
    flight: seq<Packet>,                // written and not yet read; any of them may be read next
    fetched: set<int>,                  // sessions that have fetched their offline messages
    asked: set<(string, string)>,       // friend requests issued, (requester, addressee)
    accepted: set<Acceptance>,          // friend requests accepted
    ledger: Ledger)

  /** The user `acceptor` accepts a friend request that names these two users. */
  datatype Acceptance = Acceptance(requester: string, addressee: string, acceptor: string)

  /**
   * The one-to-one messages that the server has handled, and what became of each of them: a notice
   * to its sender, the message on a socket of its receiver or of somebody else, a row in the table,
   * or nothing at all; and those shown by a fetch.
   */
  datatype Ledger = Ledger(
    handled: multiset<Msg>,
    bounced: multiset<Msg>,
    delivered: multiset<Msg>,
    misdelivered: multiset<Msg>,
    kept: multiset<Msg>,
    lost: multiset<Msg>,
    shown: multiset<Msg>)

  function Start(users: set<string>, friends: multiset<(string, string)>): (w: World) {
    World(State([], users, friends, []), map[], [], {}, {}, {},
          Ledger(multiset{}, multiset{}, multiset{}, multiset{}, multiset{}, multiset{}, multiset{}))
  }

  function Without(ps: seq<Packet>, fd: int): (r: seq<Packet>) {
    if ps == [] then [] else (if ps[0].fd == fd then [] else [ps[0]]) + Without(ps[1..], fd)
  }

  /** What the server's writes put in flight; a write to a closed socket is lost. */
  function Packets(out: seq<Delivery>, live: map<int, string>): (r: seq<Packet>) {
    if out == [] then []
    else (if out[0].fd in live then [ToClient(out[0].fd, out[0].msg)] else []) + Packets(out[1..], live)
  }

  function Take(ps: seq<Packet>, i: nat): (r: seq<Packet>)
    requires i < |ps|
  {
    ps[..i] + ps[i + 1..]
  }

  // ---------- what can be seen of a message that the server has read ----------

  /** The one who sent it has been told that it could not be passed on. */
  predicate WasBounced(p: Packet, out: seq<Packet>) {
    ToClient(p.fd, p.msg.(body := Over(NotFriends, p.msg.body))) in out
  }

  /** It is on its way to a session of the user it names. */
  predicate WasDelivered(live: map<int, string>, m: Msg, out: seq<Packet>) {
    exists q | q in out :: q.msg == m && q.fd in live && live[q.fd] == m.des
  }

  /** It is on its way to a session of another user. */
  predicate WasMisdelivered(live: map<int, string>, m: Msg, out: seq<Packet>) {
    exists q | q in out :: q.msg == m && q.fd in live && live[q.fd] != m.des
  }

  /** It is one more row of the table. */
  predicate WasKept(before: seq<Msg>, m: Msg, after: seq<Msg>) {
    after == before + [m]
  }

  /** Nothing has been put in flight and nothing has been stored. */
  predicate WasLost(before: seq<Msg>, after: seq<Msg>, out: seq<Packet>) {
    out == [] && after == before
  }

  function Once(m: Msg, yes: bool): (r: multiset<Msg>) {
    if yes then multiset{m} else multiset{}
  }

  /** Books a message that the handler of one-to-one messages has been given. */
  predicate IsBooked(m: Msg) {
    m.kind == SendOne && m.body != Text("exit")
  }

  /** Each account is kept by what can be seen afterwards, not by the branch that was taken. */
  function Book(w: World, p: Packet, after: State, out: seq<Packet>): (l: Ledger) {
    var (l, m) := (w.ledger, p.msg);
    if !IsBooked(m) then l else
    l.(handled := l.handled + multiset{m},
       bounced := l.bounced + Once(m, WasBounced(p, out)),
       delivered := l.delivered + Once(m, WasDelivered(w.live, m, out)),
       misdelivered := l.misdelivered + Once(m, WasMisdelivered(w.live, m, out)),
       kept := l.kept + Once(m, WasKept(w.srv.stored, m, after.stored)),
       lost := l.lost + Once(m, WasLost(w.srv.stored, after.stored, out)))
  }

  /** doProcAddFriendRequest: a request from somebody else is answered to its sender. */
  function Answer(m: Msg, accept: bool): (r: Msg) {
    m.(des := m.src, body := Only(if accept then Agreed else Rejected))
  }

  predicate Enabled(w: World, e: Event) {
    match e
    case Register(_) => true
    case Connect(fd, name) => fd !in w.live && name in w.srv.users
    case Disconnect(fd) => fd in w.live
    case UserSends(fd, _, _, _) => fd in w.live
    case ServerReads(i) => i < |w.flight| && w.flight[i].ToServer?
    case ClientReads(i, _) => i < |w.flight| && w.flight[i].ToClient? && w.flight[i].fd in w.live
    case Fetch(fd) => fd in w.live
  }

  function Step(w: World, e: Event): (r: World) {
    if !Enabled(w, e) then w else
    match e
    case Register(name) => w.(srv := w.srv.(users := w.srv.users + {name}))
    case Connect(fd, name) =>
      w.(srv := w.srv.(online := [Entry(name, fd)] + w.srv.online), live := w.live[fd := name])
    case Disconnect(fd) =>
      w.(srv := w.srv.(online := Remove(w.srv.online, w.live[fd])), live := w.live - {fd},
         flight := Without(w.flight, fd), fetched := w.fetched - {fd})
    case UserSends(fd, kind, des, text) =>
      var m := Msg(kind, w.live[fd], des, Text(text));
      w.(flight := w.flight + [ToServer(fd, m)],
         asked := if kind == AddFriend then w.asked + {(w.live[fd], des)} else w.asked)
    case ServerReads(i) =>
      var p := w.flight[i];
      var (s, out) := Serve(w.srv, p.msg, p.fd);
      var ps := Packets(out, w.live);
      w.(srv := s, flight := Take(w.flight, i) + ps, ledger := Book(w, p, s, ps))
    case ClientReads(i, accept) => ClientStep(w, i, accept)
    case Fetch(fd) =>
      var name := w.live[fd];
      w.(srv := w.srv.(stored := NotFor(w.srv.stored, name)), fetched := w.fetched + {fd},
         ledger := w.ledger.(shown := w.ledger.shown + multiset(For(w.srv.stored, name))))
  }

  function ClientStep(w: World, i: nat, accept: bool): (r: World)
    requires i < |w.flight| && w.flight[i].fd in w.live
  {
    var (fd, m) := (w.flight[i].fd, w.flight[i].msg);
    var rest := Take(w.flight, i);
    if m.kind != AddFriend || m.src == w.live[fd] then w.(flight := rest)
    else
      var w' := w.(flight := rest + [ToServer(fd, Answer(m, accept))]);
      if accept then w'.(srv := w.srv.(friends := Befriend(w.srv.friends, m.src, w.live[fd])),
                         accepted := w.accepted + {Acceptance(m.src, m.des, w.live[fd])})
      else w'
  }

  function Run(w: World, es: seq<Event>): (r: World)
    decreases |es|
  {
    if es == [] then w else Run(Step(w, es[0]), es[1..])
  }

  // ---------- invariants of every run, duplicate logins included ----------

  function Sessions(live: map<int, string>, name: string): (r: set<int>) {
    set fd | fd in live && live[fd] == name
  }

  /** The list has as many nodes of each name as there are live sessions of that name. */
  ghost predicate Counted(w: World) {
    forall name :: Count(w.srv.online, name) == |Sessions(w.live, name)|
  }

  /** Every handled message is in exactly one account, and every kept one is still stored or was shown. */
  ghost predicate Balanced(l: Ledger, stored: seq<Msg>) {
    && l.handled == l.bounced + l.delivered + l.misdelivered + l.kept + l.lost
    && l.kept == multiset(stored) + l.shown
  }

  ghost predicate Conserved(w: World) {
    Balanced(w.ledger, w.srv.stored)
  }

  /** Messages in flight belong to open sockets. */
  ghost predicate FlightLive(w: World) {
    forall p | p in w.flight :: p.fd in w.live
  }

  /** Nothing is stored for a user who has fetched and is still online. */
  ghost predicate NothingWaits(w: World) {
    && w.fetched <= w.live.Keys
    && forall fd, m | fd in w.fetched && m in w.srv.stored :: m.des != w.live[fd]
  }

  lemma CountedConnect(w: World, fd: int, name: string)
    requires Counted(w) && fd !in w.live
    ensures Counted(w.(srv := w.srv.(online := [Entry(name, fd)] + w.srv.online), live := w.live[fd := name]))
  {
    var online, live := [Entry(name, fd)] + w.srv.online, w.live[fd := name];
    forall n ensures Count(online, n) == |Sessions(live, n)| {
      assert online[1..] == w.srv.online;
      if n == name {
        assert Sessions(live, n) == Sessions(w.live, n) + {fd};
      } else {
        assert Sessions(live, n) == Sessions(w.live, n);
      }
    }
  }

  lemma CountedDisconnect(w: World, fd: int)
    requires Counted(w) && fd in w.live
    ensures Counted(Step(w, Disconnect(fd)))
  {
    var name, live := w.live[fd], w.live - {fd};
    var online := Remove(w.srv.online, name);
    forall n ensures Count(online, n) == |Sessions(live, n)| {
      CountAfterRemove(w.srv.online, name, n);
      assert Count(w.srv.online, n) == |Sessions(w.live, n)|;
      if n == name {
        assert fd in Sessions(w.live, n) && Sessions(live, n) == Sessions(w.live, n) - {fd};
      } else {
        assert Sessions(live, n) == Sessions(w.live, n);
      }
    }
  }

  lemma ServeKeepsList(s: State, m: Msg, fd: int)
    ensures Serve(s, m, fd).0.online == s.online && Serve(s, m, fd).0.users == s.users
    ensures m.kind != SendOne ==> Serve(s, m, fd).0.stored == s.stored
    ensures m.kind != DelFriend ==> Serve(s, m, fd).0.friends == s.friends
  {
  }

  /** One node per live session, for every event. */
  lemma StepKeepsCounted(w: World, e: Event)
    requires Counted(w)
    ensures Counted(Step(w, e))
  {
    if Enabled(w, e) {
      match e
      case Connect(fd, name) => CountedConnect(w, fd, name);
      case Disconnect(fd) => CountedDisconnect(w, fd);
      case ServerReads(i) => ServeKeepsList(w.srv, w.flight[i].msg, w.flight[i].fd);
      case _ =>
    }
  }

  lemma {:induction false} FetchSplits(ms: seq<Msg>, name: string)
    ensures multiset(ms) == multiset(For(ms, name)) + multiset(NotFor(ms, name))
    ensures forall m | m in NotFor(ms, name) :: m in ms && m.des != name
  {
    if ms != [] {
      FetchSplits(ms[..|ms| - 1], name);
      assert ms == ms[..|ms| - 1] + [ms[|ms| - 1]];
    }
  }

  lemma OnePacket(fd: int, m: Msg, live: map<int, string>)
    ensures Packets([Delivery(fd, m)], live) == if fd in live then [ToClient(fd, m)] else []
  {
    assert [Delivery(fd, m)][1..] == [];
  }

  /** The session that searchName leads to is one of the user it was asked for. */
  predicate Leads(w: World, name: string) {
    match Find(w.srv.online, name)
    case None => true
    case Some(to) => to in w.live && w.live[to] == name
  }

  /**
   * What becomes of a one-to-one message that the server reads, in any state: exactly one account
   * takes it, and it is lost or misdelivered exactly when sender and receiver are friends and the
   * entry found for the receiver is not a live session of that name.
   */
  lemma OneAccount(w: World, i: nat)
    requires FlightLive(w) && Enabled(w, ServerReads(i)) && IsBooked(w.flight[i].msg)
    ensures var (p, m) := (w.flight[i], w.flight[i].msg);
            var (s, out) := Serve(w.srv, m, p.fd);
            var ps := Packets(out, w.live);
            && (WasBounced(p, ps) <==> !AreFriends(w.srv, m.src, m.des))
            && (WasKept(w.srv.stored, m, s.stored) <==>
                AreFriends(w.srv, m.src, m.des) && Find(w.srv.online, m.des) == None)
            && (WasDelivered(w.live, m, ps) <==>
                AreFriends(w.srv, m.src, m.des) && Find(w.srv.online, m.des) != None && Leads(w, m.des))
            && (WasLost(w.srv.stored, s.stored, ps) || WasMisdelivered(w.live, m, ps) <==>
                AreFriends(w.srv, m.src, m.des) && !Leads(w, m.des))
            && !(WasLost(w.srv.stored, s.stored, ps) && WasMisdelivered(w.live, m, ps))
  {
    var p := w.flight[i];
    assert p in w.flight;
    var bounce := p.msg.(body := Over(NotFriends, p.msg.body));
    assert bounce.body != p.msg.body;
    OnePacket(p.fd, bounce, w.live);
    match Find(w.srv.online, p.msg.des)
    case None =>
    case Some(to) => OnePacket(to, p.msg, w.live);
  }

  /** An entry in exactly one of the five accounts keeps the balance. */
  lemma OneEntryBalances(l: Ledger, stored: seq<Msg>, m: Msg, a: bool, b: bool, c: bool, d: bool, e: bool)
    requires Balanced(l, stored)
    requires if a then !b && !c && !d && !e else if b then !c && !d && !e else if c then !d && !e else d != e
    ensures Balanced(
      l.(handled := l.handled + multiset{m}, bounced := l.bounced + Once(m, a), delivered := l.delivered + Once(m, b),
         misdelivered := l.misdelivered + Once(m, c), kept := l.kept + Once(m, d), lost := l.lost + Once(m, e)),
      if d then stored + [m] else stored)
  {
  }

  lemma BookKeepsBalance(w: World, i: nat)
    requires FlightLive(w) && Conserved(w) && Enabled(w, ServerReads(i)) && IsBooked(w.flight[i].msg)
    ensures Conserved(Step(w, ServerReads(i)))
  {
    var (p, m) := (w.flight[i], w.flight[i].msg);
    var (s, out) := Serve(w.srv, m, p.fd);
    var ps := Packets(out, w.live);
    OneAccount(w, i);
    OneEntryBalances(w.ledger, w.srv.stored, m,
                     WasBounced(p, ps), WasDelivered(w.live, m, ps), WasMisdelivered(w.live, m, ps),
                     WasKept(w.srv.stored, m, s.stored), WasLost(w.srv.stored, s.stored, ps));
  }

  lemma StepKeepsConserved(w: World, e: Event)
    requires FlightLive(w) && Conserved(w)
    ensures Conserved(Step(w, e))
  {
    if Enabled(w, e) {
      match e
      case ServerReads(i) =>
        if IsBooked(w.flight[i].msg) {
          BookKeepsBalance(w, i);
        } else {
          ServeKeepsList(w.srv, w.flight[i].msg, w.flight[i].fd);
        }
      case Fetch(fd) => FetchSplits(w.srv.stored, w.live[fd]);
      case _ =>
    }
  }

  lemma {:induction false} PacketsAreDeliveries(out: seq<Delivery>, live: map<int, string>)
    ensures forall p | p in Packets(out, live) :: p.ToClient? && p.fd in live && Delivery(p.fd, p.msg) in out
  {
    if out != [] {
      PacketsAreDeliveries(out[1..], live);
    }
  }

  lemma {:induction false} WithoutFilters(ps: seq<Packet>, fd: int)
    ensures forall p :: p in Without(ps, fd) <==> p in ps && p.fd != fd
  {
    if ps != [] {
      WithoutFilters(ps[1..], fd);
      assert ps == [ps[0]] + ps[1..];
    }
  }

  lemma StepKeepsFlightLive(w: World, e: Event)
    requires FlightLive(w)
    ensures FlightLive(Step(w, e))
  {
    if Enabled(w, e) {
      match e
      case Disconnect(fd) => WithoutFilters(w.flight, fd);
      case ServerReads(i) => PacketsAreDeliveries(Serve(w.srv, w.flight[i].msg, w.flight[i].fd).1, w.live);
      case ClientReads(i, _) => assert w.flight[i] in w.flight;
      case _ =>
    }
  }

  // ---------- messages that go astray ----------

  /** The server is about to lose or misdeliver a one-to-one message. */
  predicate Strays(w: World, e: Event) {
    && Enabled(w, e) && e.ServerReads? && IsBooked(w.flight[e.i].msg)
    && AreFriends(w.srv, w.flight[e.i].msg.src, w.flight[e.i].msg.des)
    && !Leads(w, w.flight[e.i].msg.des)
  }

  function Astray(w: World): (n: nat) {
    |w.ledger.lost| + |w.ledger.misdelivered|
  }

  function StrayCount(w: World, es: seq<Event>): (n: nat)
    decreases |es|
  {
    if es == [] then 0 else (if Strays(w, es[0]) then 1 else 0) + StrayCount(Step(w, es[0]), es[1..])
  }

  lemma StepStrays(w: World, e: Event)
    requires FlightLive(w)
    ensures Astray(Step(w, e)) == Astray(w) + if Strays(w, e) then 1 else 0
  {
    if Enabled(w, e) && e.ServerReads? && IsBooked(w.flight[e.i].msg) {
      OneAccount(w, e.i);
    }
  }

  /**
   * Over every run exactly those messages are lost or misdelivered that the server reads while the
   * entry it finds is not a live session of the receiver; so none goes astray iff this never happens.
   */
  lemma {:induction false} AstrayIsStrayCount(w: World, es: seq<Event>)
    requires FlightLive(w)
    ensures Astray(Run(w, es)) == Astray(w) + StrayCount(w, es)
    decreases |es|
  {
    if es != [] {
      StepStrays(w, es[0]);
      StepKeepsFlightLive(w, es[0]);
      AstrayIsStrayCount(Step(w, es[0]), es[1..]);
    }
  }

  lemma {:induction false} RunAppend(w: World, a: seq<Event>, b: seq<Event>)
    ensures Run(w, a + b) == Run(Run(w, a), b)
    decreases |a|
  {
    if a == [] {
      assert a + b == b;
    } else {
      assert (a + b)[1..] == a[1..] + b;
      RunAppend(Step(w, a[0]), a[1..], b);
    }
  }

  /** Of two sessions of user a the older one leaves, which takes the newer entry off the list. */
  function StaleRun(): (es: seq<Event>) {
    [Register("a"), Register("b"), Connect(1, "a"), Connect(2, "a"), Disconnect(1)]
  }

  function StaleWorld(friends: multiset<(string, string)>): (w: World) {
    Start({}, friends).(srv := State([Entry("a", 1)], {"a", "b"}, friends, []), live := map[2 := "a"])
  }

  lemma StaleRunLeadsThere(friends: multiset<(string, string)>)
    ensures Run(Start({}, friends), StaleRun()) == StaleWorld(friends)
  {
  }

  lemma RunOne(w: World, e: Event, es: seq<Event>)
    ensures Run(w, [e] + es) == Run(Step(w, e), es)
  {
    assert ([e] + es)[1..] == es;
  }

  lemma RunThree(w: World, a: Event, b: Event, c: Event)
    ensures Run(w, [a, b, c]) == Step(Step(Step(w, a), b), c)
  {
    RunOne(w, a, [b, c]);
    RunOne(Step(w, a), b, [c]);
    RunOne(Step(Step(w, a), b), c, []);
    assert [a] + [b, c] == [a, b, c] && [b] + [c] == [b, c] && [c] + [] == [c];
  }

  /** The server reads the only message in flight: its receiver's entry is a closed socket. */
  lemma LostAtOnce(w: World, m: Msg, fd: int, to: int)
    requires w.flight == [ToServer(fd, m)] && IsBooked(m) && AreFriends(w.srv, m.src, m.des)
    requires Find(w.srv.online, m.des) == Some(to) && to !in w.live
    ensures var w' := Step(w, ServerReads(0));
            w'.flight == [] && w'.srv == w.srv && w'.live == w.live && w'.ledger.lost == w.ledger.lost + multiset{m}
  {
    OnePacket(to, m, w.live);
  }

  /** After that a message to a, who is online, is written to the closed socket: it is lost. */
  lemma AMessageIsLost()
    ensures var friends := multiset{("a", "b"), ("b", "a")};
            var es := StaleRun() + [Connect(3, "b"), UserSends(3, SendOne, "a", "hello"), ServerReads(0)];
            var w := Run(Start({}, friends), es);
            && w.ledger.lost == multiset{Msg(SendOne, "b", "a", Text("hello"))}
            && w.flight == [] && w.srv.stored == [] && w.live == map[2 := "a", 3 := "b"]
  {
    var friends := multiset{("a", "b"), ("b", "a")};
    var (e1, e2, e3) := (Connect(3, "b"), UserSends(3, SendOne, "a", "hello"), ServerReads(0));
    StaleRunLeadsThere(friends);
    RunAppend(Start({}, friends), StaleRun(), [e1, e2, e3]);
    var w1 := Step(StaleWorld(friends), e1);
    assert w1.srv.online == [Entry("b", 3), Entry("a", 1)] && w1.srv.online[1..] == [Entry("a", 1)];
    var w2 := Step(w1, e2);
    LostAtOnce(w2, Msg(SendOne, "b", "a", Text("hello")), 3, 1);
    RunThree(StaleWorld(friends), e1, e2, e3);
  }

  lemma StepKeepsNothingWaits(w: World, e: Event)
    requires Counted(w) && NothingWaits(w)
    ensures NothingWaits(Step(w, e))
  {
    if Enabled(w, e) {
      match e
      case ServerReads(i) =>
        var m := w.flight[i].msg;
        ServeKeepsList(w.srv, m, w.flight[i].fd);
        if m.kind == SendOne && m.body != Text("exit") {
          SendOneIsExactlyOneFate(w.srv, m, w.flight[i].fd);
          forall fd | fd in w.fetched && FateOf(w.srv, m) == Kept ensures m.des != w.live[fd] {
            assert Count(w.srv.online, w.live[fd]) == |Sessions(w.live, w.live[fd])|;
            assert fd in Sessions(w.live, w.live[fd]);
          }
        }
      case Fetch(fd) => FetchSplits(w.srv.stored, w.live[fd]);
      case _ =>
    }
  }

  /** Deleting only removes pairs, and a server step does nothing else to the table. */
  lemma ServeKeepsFriends(s: State, m: Msg, fd: int)
    requires Symmetric(s.friends)
    ensures Symmetric(Serve(s, m, fd).0.friends) && Serve(s, m, fd).0.friends <= s.friends
  {
  }

  lemma StepKeepsSymmetric(w: World, e: Event)
    requires Symmetric(w.srv.friends)
    ensures Symmetric(Step(w, e).srv.friends)
  {
    if Enabled(w, e) {
      match e
      case ServerReads(i) => ServeKeepsFriends(w.srv, w.flight[i].msg, w.flight[i].fd);
      case ClientReads(i, accept) =>
        FriendshipStaysSymmetric(w.srv.friends, w.flight[i].msg.src, w.live[w.flight[i].fd]);
      case _ =>
    }
  }

  ghost predicate Inv(w: World) {
    Counted(w) && FlightLive(w) && Conserved(w) && NothingWaits(w) && Symmetric(w.srv.friends)
  }

  /** All of it holds in every reachable state. */
  lemma {:induction false} RunKeepsInv(w: World, es: seq<Event>)
    requires Inv(w)
    ensures Inv(Run(w, es))
    decreases |es|
  {
    if es != [] {
      StepKeepsCounted(w, es[0]);
      StepKeepsFlightLive(w, es[0]);
      StepKeepsConserved(w, es[0]);
      StepKeepsNothingWaits(w, es[0]);
      StepKeepsSymmetric(w, es[0]);
      RunKeepsInv(Step(w, es[0]), es[1..]);
    }
  }

  lemma ReachableStates(users: set<string>, friends: multiset<(string, string)>, es: seq<Event>)
    requires Symmetric(friends)
    ensures Inv(Run(Start(users, friends), es))
  {
    assert forall name :: Sessions(map[], name) == {};
    RunKeepsInv(Start(users, friends), es);
  }
}
