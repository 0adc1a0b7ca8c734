/**
 * The chat server's handlers as one function on its state: the online registry and the database
 * tables, each handler and each pair of SQL statements taken as one atomic step.
 */
module ChatSpec {
  import opened Roster

  datatype Notice = NoSuchUser | NotInFriendList | DeleteDone | NotFriends | ReceiverOffline | Agreed | Rejected

  /** A payload: text, a notice copied over the front of a payload, or a notice in a cleared payload. */
  datatype Body = Text(text: string) | Over(notice: Notice, under: Body) | Only(notice: Notice)

  datatype Kind = ShowAll | ShowFriend | AddFriend | DelFriend | SendOne | SendAll | SendFile | BanOne | Logout

  datatype Msg = Msg(kind: Kind, src: string, des: string, body: Body)

  /** A message written to a socket. */
  datatype Delivery = Delivery(fd: int, msg: Msg)

  datatype State = State(
    online: seq<Entry>,
    users: set<string>,
    friends: multiset<(string, string)>,
    stored: seq<Msg>)

  /** checkReciverIsFriend: some row of the friends table has this source and destination. */
  predicate AreFriends(s: State, src: string, des: string) {
    s.friends[(src, des)] > 0
  }

  /** deleteFriendFromMysql: both statements together. */
  function Unfriend(friends: multiset<(string, string)>, a: string, b: string): (r: multiset<(string, string)>) {
    friends[(a, b) := 0][(b, a) := 0]
  }

  /** insertFriend2Mysql: both statements together. */
  function Befriend(friends: multiset<(string, string)>, a: string, b: string): (r: multiset<(string, string)>) {
    friends + multiset{(a, b), (b, a)}
  }

  /** procSendMsg2All: every listed session of a friend of the sender, in list order. */
  function Broadcast(friends: multiset<(string, string)>, es: seq<Entry>, m: Msg): (r: seq<Delivery>) {
    if es == [] then []
    else (if friends[(m.src, es[0].name)] > 0 then [Delivery(es[0].sfd, m)] else []) + Broadcast(friends, es[1..], m)
  }

  /** The dispatch table of procClientRequest applied to one message read from socket fd. */
  function Handle(s: State, m: Msg, fd: int): (r: (State, seq<Delivery>)) {
    match m.kind
    case AddFriend =>
      if m.des !in s.users then (s, [Delivery(fd, m.(body := Over(NoSuchUser, m.body)))])
      else (match Find(s.online, m.des)
            case None => (s, [])
            case Some(to) => (s, [Delivery(to, m)]))
    case DelFriend =>
      if !AreFriends(s, m.src, m.des) then (s, [Delivery(fd, m.(body := Over(NotInFriendList, m.body)))])
      else (s.(friends := Unfriend(s.friends, m.src, m.des)), [Delivery(fd, m.(body := Only(DeleteDone)))])
    case SendOne =>
      if !AreFriends(s, m.src, m.des) then (s, [Delivery(fd, m.(body := Over(NotFriends, m.body)))])
      else (match Find(s.online, m.des)
            case None => (s.(stored := s.stored + [m]), [])
            case Some(to) => (s, [Delivery(to, m)]))
    case SendAll => (s, Broadcast(s.friends, s.online, m))
    case SendFile =>
      (match Find(s.online, m.des)
       case None => (s, [Delivery(fd, m.(body := Only(ReceiverOffline)))])
       case Some(to) => (s, [Delivery(to, m)]))
    case _ => (s, [])
  }

  /** The filter in front of the dispatch table: a payload that is the C string "exit" is dropped. */
  function Serve(s: State, m: Msg, fd: int): (r: (State, seq<Delivery>)) {
    if m.body == Text("exit") then (s, []) else Handle(s, m, fd)
  }

  /** The stored messages for a user, and the others. */
  function For(ms: seq<Msg>, name: string): (r: seq<Msg>) {
    if ms == [] then [] else
    var (rest, m) := (ms[..|ms| - 1], ms[|ms| - 1]);
    if m.des == name then For(rest, name) + [m] else For(rest, name)
  }

  function NotFor(ms: seq<Msg>, name: string): (r: seq<Msg>) {
    if ms == [] then [] else
    var (rest, m) := (ms[..|ms| - 1], ms[|ms| - 1]);
    if m.des == name then NotFor(rest, name) else NotFor(rest, name) + [m]
  }

  /**
   * part is what stands at these positions of ms: all those of messages for name, or all the others,
   * in the order of ms.
   */
  ghost predicate PicksAt(ms: seq<Msg>, name: string, own: bool, part: seq<Msg>, at: seq<nat>) {
    && |at| == |part|
    && (forall k | 0 <= k < |at| :: at[k] < |ms| && part[k] == ms[at[k]])
    && (forall j, k | 0 <= j < k < |at| :: at[j] < at[k])
    && (forall i | 0 <= i < |ms| :: i in at <==> (ms[i].des == name) == own)
  }

  /** One message more, at the end. */
  lemma PicksNext(ms: seq<Msg>, name: string, own: bool, part: seq<Msg>, at: seq<nat>, m: Msg)
    requires PicksAt(ms, name, own, part, at)
    ensures if (m.des == name) == own then PicksAt(ms + [m], name, own, part + [m], at + [|ms|])
            else PicksAt(ms + [m], name, own, part, at)
  {
    assert forall i | 0 <= i < |ms| :: (ms + [m])[i] == ms[i];
    assert forall i | i in at :: exists k :: 0 <= k < |at| && at[k] == i;
    if (m.des == name) == own {
      var at' := at + [|ms|];
      assert forall i :: i in at' <==> i in at || i == |ms|;
    }
  }

  /** The table ms as a fetch has gone through it: what has been shown, what is to stay, and where both stand. */
  ghost predicate Sorted(ms: seq<Msg>, name: string, shown: seq<Msg>, rest: seq<Msg>, own: seq<nat>, others: seq<nat>) {
    && shown == For(ms, name) && rest == NotFor(ms, name)
    && PicksAt(ms, name, true, shown, own) && PicksAt(ms, name, false, rest, others)
  }

  lemma SortedNext(ms: seq<Msg>, name: string, shown: seq<Msg>, rest: seq<Msg>, own: seq<nat>, others: seq<nat>, m: Msg)
    requires Sorted(ms, name, shown, rest, own, others)
    ensures if m.des == name then Sorted(ms + [m], name, shown + [m], rest, own + [|ms|], others)
            else Sorted(ms + [m], name, shown, rest + [m], own, others + [|ms|])
  {
    assert (ms + [m])[..|ms|] == ms;
    PicksNext(ms, name, true, shown, own, m);
    PicksNext(ms, name, false, rest, others, m);
  }

  /** What is picked, seen as a multiset. */
  lemma {:induction false} ForCounts(ms: seq<Msg>, name: string)
    ensures forall m :: multiset(For(ms, name))[m] == if m.des == name then multiset(ms)[m] else 0
    ensures forall m :: multiset(NotFor(ms, name))[m] == if m.des == name then 0 else multiset(ms)[m]
  {
    if ms != [] {
      ForCounts(ms[..|ms| - 1], name);
      assert ms == ms[..|ms| - 1] + [ms[|ms| - 1]];
    }
  }

  // ---------- what the handlers promise ----------

  /** Every entry of the list that names a friend of the sender gets the message, and nobody else. */
  lemma {:induction false} BroadcastReachesFriends(friends: multiset<(string, string)>, es: seq<Entry>, m: Msg,
                                                   d: Delivery)
    ensures multiset(Broadcast(friends, es, m))[d] ==
      if d.msg == m then Listed(friends, es, m.src, d.fd) else 0
  {
    if es != [] {
      BroadcastReachesFriends(friends, es[1..], m, d);
      var first := if friends[(m.src, es[0].name)] > 0 then [Delivery(es[0].sfd, m)] else [];
      var rest := Broadcast(friends, es[1..], m);
      assert multiset(first + rest) == multiset(first) + multiset(rest);
    }
  }

  lemma BroadcastStep(friends: multiset<(string, string)>, es: seq<Entry>, i: nat, m: Msg, before: seq<Delivery>)
    requires i < |es|
    ensures before + Broadcast(friends, es[i..], m) ==
      (before + if friends[(m.src, es[i].name)] > 0 then [Delivery(es[i].sfd, m)] else [])
      + Broadcast(friends, es[i + 1..], m)
  {
  }

  /** How many entries with this socket name a friend of src. */
  function Listed(friends: multiset<(string, string)>, es: seq<Entry>, src: string, fd: int): (n: nat) {
    if es == [] then 0
    else (if es[0].sfd == fd && friends[(src, es[0].name)] > 0 then 1 else 0) + Listed(friends, es[1..], src, fd)
  }

  /** The positions in the list of entries with this socket that name a friend of src. */
  function FriendsAt(friends: multiset<(string, string)>, es: seq<Entry>, src: string, fd: int): (r: set<nat>) {
    set k: nat | k < |es| && es[k].sfd == fd && friends[(src, es[k].name)] > 0
  }

  lemma FriendsAtNext(friends: multiset<(string, string)>, es: seq<Entry>, i: nat, src: string)
    requires i < |es|
    ensures forall fd :: |FriendsAt(friends, es[..i + 1], src, fd)| == |FriendsAt(friends, es[..i], src, fd)| +
                         (if es[i].sfd == fd && friends[(src, es[i].name)] > 0 then 1 else 0)
  {
    forall fd ensures |FriendsAt(friends, es[..i + 1], src, fd)| == |FriendsAt(friends, es[..i], src, fd)| +
                      (if es[i].sfd == fd && friends[(src, es[i].name)] > 0 then 1 else 0) {
      var next: set<nat> := if es[i].sfd == fd && friends[(src, es[i].name)] > 0 then {i} else {};
      assert FriendsAt(friends, es[..i + 1], src, fd) == FriendsAt(friends, es[..i], src, fd) + next;
    }
  }

  /** Each socket has been sent m once for each of these entries that names it and a friend, and nothing else. */
  ghost predicate Broadcasted(friends: multiset<(string, string)>, m: Msg, es: seq<Entry>, before: seq<Delivery>,
                              sent: seq<Delivery>) {
    forall d :: multiset(sent)[d] == multiset(before)[d] +
                (if d.msg == m then |FriendsAt(friends, es, m.src, d.fd)| else 0)
  }

  lemma BroadcastedNext(friends: multiset<(string, string)>, es: seq<Entry>, i: nat, m: Msg, before: seq<Delivery>,
                        sent: seq<Delivery>)
    requires i < |es| && Broadcasted(friends, m, es[..i], before, sent)
    ensures Broadcasted(friends, m, es[..i + 1], before,
                        sent + if friends[(m.src, es[i].name)] > 0 then [Delivery(es[i].sfd, m)] else [])
  {
    FriendsAtNext(friends, es, i, m.src);
  }

  lemma {:induction false} RestIsBroadcasted(friends: multiset<(string, string)>, es: seq<Entry>, i: nat, m: Msg,
                                             before: seq<Delivery>, sent: seq<Delivery>)
    requires i <= |es| && Broadcasted(friends, m, es[..i], before, sent)
    ensures Broadcasted(friends, m, es, before, sent + Broadcast(friends, es[i..], m))
    decreases |es| - i
  {
    if i == |es| {
      assert es[..i] == es && sent + [] == sent;
    } else {
      var first := if friends[(m.src, es[i].name)] > 0 then [Delivery(es[i].sfd, m)] else [];
      BroadcastStep(friends, es, i, m, sent);
      BroadcastedNext(friends, es, i, m, before, sent);
      RestIsBroadcasted(friends, es, i + 1, m, before, sent + first);
    }
  }

  lemma BroadcastIsBroadcasted(friends: multiset<(string, string)>, es: seq<Entry>, m: Msg, before: seq<Delivery>)
    ensures Broadcasted(friends, m, es, before, before + Broadcast(friends, es, m))
  {
    assert es[..0] == [] && es[0..] == es;
    RestIsBroadcasted(friends, es, 0, m, before, before);
  }

  /** A one-to-one message has exactly one of three fates. */
  datatype Fate = Bounced | Live(fd: int) | Kept

  function FateOf(s: State, m: Msg): (f: Fate) {
    if !AreFriends(s, m.src, m.des) then Bounced
    else match Find(s.online, m.des) case None => Kept case Some(to) => Live(to)
  }

  /**
   * What can be seen of each fate: a bounce is one notice to the sender's socket, a live delivery
   * is the message itself on one socket listed for the addressee, a kept message is one more row;
   * the last two happen only between friends, and no handler but these touches the tables' rest.
   */
  lemma SendOneIsExactlyOneFate(s: State, m: Msg, fd: int)
    requires m.kind == SendOne
    ensures var (s', out) := Handle(s, m, fd);
            s'.online == s.online && s'.users == s.users && s'.friends == s.friends &&
            match FateOf(s, m)
            case Bounced => s'.stored == s.stored && |out| == 1 && out[0].fd == fd && out[0].msg != m
            case Live(to) =>
              && s'.stored == s.stored && out == [Delivery(to, m)]
              && Entry(m.des, to) in s.online && AreFriends(s, m.src, m.des)
            case Kept =>
              && s'.stored == s.stored + [m] && out == []
              && Count(s.online, m.des) == 0 && AreFriends(s, m.src, m.des)
  {
    FoundIsListed(s.online, m.des);
    FindNoneIsCountZero(s.online, m.des);
    assert m.body != Over(NotFriends, m.body);
  }

  /**
   * Deleting a friend leaves no row of the pair in either direction and touches no other pair; the
   * sender, and nobody else, is told of success exactly when there was a row to delete.
   */
  lemma DeleteFriendTells(s: State, m: Msg, fd: int)
    requires m.kind == DelFriend && Symmetric(s.friends)
    ensures var (s', out) := Handle(s, m, fd);
            && s' == s.(friends := s'.friends)
            && s'.friends[(m.src, m.des)] == 0 == s'.friends[(m.des, m.src)]
            && (forall p | p != (m.src, m.des) && p != (m.des, m.src) :: s'.friends[p] == s.friends[p])
            && |out| == 1 && out[0].fd == fd
            && (out[0].msg.body == Only(DeleteDone) <==> s.friends[(m.src, m.des)] > 0)
  {
  }

  ghost predicate Symmetric(friends: multiset<(string, string)>) {
    forall a, b :: friends[(a, b)] == friends[(b, a)]
  }

  /** Paired inserts and deletes keep friendship symmetric; a delete removes the pair whatever its multiplicity. */
  lemma FriendshipStaysSymmetric(friends: multiset<(string, string)>, a: string, b: string)
    requires Symmetric(friends)
    ensures Symmetric(Befriend(friends, a, b)) && Symmetric(Unfriend(friends, a, b))
    ensures Unfriend(friends, a, b)[(a, b)] == 0 == Unfriend(friends, a, b)[(b, a)]
    ensures forall p | p != (a, b) && p != (b, a) :: Unfriend(friends, a, b)[p] == friends[p]
  {
  }
}
