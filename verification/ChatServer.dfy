/**
 * server_proc.c, server_mysql.c and the session loop of threadPool.c over the linked list and the
 * database tables, each handler proved to do what ChatSpec says to the state and to the sockets.
 */
module ChatServer {
  import opened Wrappers
  import opened Roster
  import opened LinkList
  import opened ChatSpec

  class ChatServer {
    const list: Registry
    var users: set<string>                       // table users
    var friends: multiset<(string, string)>      // table friends, rows (srcName, desName)
    var stored: seq<Msg>                         // table message
    var sent: seq<Delivery>                      // everything written to client sockets

    ghost predicate Valid()
      reads this, list, list.spine
    {
      list.Valid()
    }

    ghost function View(): (s: State)
      requires Valid()
      reads this, list, list.spine
    {
      State(list.Contents(), users, friends, stored)
    }

    constructor (users: set<string>, friends: multiset<(string, string)>)
      ensures Valid() && View() == State([], users, friends, []) && sent == []
    {
      this.list := new Registry();
      this.users, this.friends, this.stored, this.sent := users, friends, [], [];
    }

    /** The new state and the new writes are what `after` says. */
    twostate predicate Did(after: (State, seq<Delivery>))
      requires Valid()
      reads this, list, list.spine
    {
      View() == after.0 && sent == old(sent) + after.1
    }

    method Write(fd: int, m: Msg)
      modifies this`sent
      ensures sent == old(sent) + [Delivery(fd, m)]
    {
      sent := sent + [Delivery(fd, m)];
    }

    /** select * from friends where srcName = src and desName = des: the number of rows */
    method CheckReceiverIsFriend(src: string, des: string) returns (ok: bool)
      requires Valid()
      ensures ok == AreFriends(View(), src, des)
    {
      var rows := friends[(src, des)];
      ok := rows != 0;
    }

    method ProcAddFriend(m: Msg, fd: int)
      requires Valid() && m.kind == AddFriend
      modifies this`sent
      ensures Valid() && Did(Handle(old(View()), m, fd))
    {
      if m.des !in users {
        Write(fd, m.(body := Over(NoSuchUser, m.body)));
      } else {
        var node := list.Search(m.des);
        if node != null {
          Write(node.sfd, m);
        }
      }
    }

    method ProcDelFriend(m: Msg, fd: int)
      requires Valid() && m.kind == DelFriend
      modifies this`sent, this`friends
      ensures Valid() && Did(Handle(old(View()), m, fd))
    {
      var ok := CheckReceiverIsFriend(m.src, m.des);
      if !ok {
        Write(fd, m.(body := Over(NotInFriendList, m.body)));
      } else {
        friends := friends[(m.src, m.des) := 0];
        friends := friends[(m.des, m.src) := 0];
        Write(fd, m.(body := Only(DeleteDone)));
      }
    }

    method ProcSendMsg2One(m: Msg, fd: int)
      requires Valid() && m.kind == SendOne
      modifies this`sent, this`stored
      ensures Valid() && Did(Handle(old(View()), m, fd))
    {
      var ok := CheckReceiverIsFriend(m.src, m.des);
      if !ok {
        Write(fd, m.(body := Over(NotFriends, m.body)));
      } else {
        var node := list.Search(m.des);
        if node == null {
          stored := stored + [m];
        } else {
          Write(node.sfd, m);
        }
      }
    }

    /** One entry of the list. */
    method WriteIfFriend(m: Msg, name: string, sfd: int)
      requires Valid()
      modifies this`sent
      ensures sent == old(sent) + if friends[(m.src, name)] > 0 then [Delivery(sfd, m)] else []
    {
      var ok := CheckReceiverIsFriend(m.src, name);
      if ok {
        Write(sfd, m);
      }
    }

    /** The walk along the list. */
    method WriteToFriends(m: Msg)
      requires Valid()
      modifies this`sent
      ensures Valid() && sent == old(sent) + Broadcast(friends, list.Contents(), m)
    {
      var p := list.head.next;
      ghost var es, spine, i := list.Contents(), list.spine, 1;
      assert es[0..] == es;
      while p != null
        modifies this`sent
        invariant 1 <= i <= |spine| && p == (if i < |spine| then spine[i] else null)
        invariant sent + Broadcast(friends, es[i - 1..], m) == old(sent) + Broadcast(friends, es, m)
        decreases |spine| - i
      {
        assert es[i - 1] == p.ToEntry();
        BroadcastStep(friends, es, i - 1, m, sent);
        WriteIfFriend(m, p.name, p.sfd);
        p := p.next;
        i := i + 1;
      }
      assert es[i - 1..] == [];
    }

    method ProcSendMsg2All(m: Msg, fd: int)
      requires Valid() && m.kind == SendAll
      modifies this`sent
      ensures Valid() && Did(Handle(old(View()), m, fd))
      ensures Broadcasted(friends, m, list.Contents(), old(sent), sent)
    {
      BroadcastIsBroadcasted(friends, list.Contents(), m, sent);
      WriteToFriends(m);
    }

    method ProcSendFile2One(m: Msg, fd: int)
      requires Valid() && m.kind == SendFile
      modifies this`sent
      ensures Valid() && Did(Handle(old(View()), m, fd))
      ensures forall to | Find(list.Contents(), m.des) == Some(to) :: sent == old(sent) + [Delivery(to, m)]
      ensures Count(list.Contents(), m.des) == 0 ==>
        sent == old(sent) + [Delivery(fd, m.(body := Only(ReceiverOffline)))]
    {
      var pre, node;
      ghost var i;
      pre, node, i := list.Locate(m.des);
      if node == null {
        Absent(list.Contents(), m.des);
        FindNoneIsCountZero(list.Contents(), m.des);
        Write(fd, m.(body := Only(ReceiverOffline)));
      } else {
        RemoveAt(list.Contents(), m.des, i - 1);
        FindNoneIsCountZero(list.Contents(), m.des);
        Write(node.sfd, m);
      }
    }

    /** One round of procClientRequest on a message that has been read. */
    method ProcClientMessage(m: Msg, fd: int)
      requires Valid()
      modifies this`sent, this`stored, this`friends
      ensures Valid() && Did(Serve(old(View()), m, fd))
    {
      if m.body != Text("exit") {
        match m.kind {
          case AddFriend => ProcAddFriend(m, fd);
          case DelFriend => ProcDelFriend(m, fd);
          case SendOne => ProcSendMsg2One(m, fd);
          case SendAll => ProcSendMsg2All(m, fd);
          case SendFile => ProcSendFile2One(m, fd);
          case _ =>
        }
      }
    }

    /** The registration step of acceptClientConnect. */
    method AcceptClient(name: string, fd: int)
      requires Valid()
      modifies list, list.spine
      ensures Valid() && View() == old(View()).(online := [Entry(name, fd)] + old(View()).online)
    {
      list.Insert(name, fd);
    }

    /** procClientRequest when the peer has closed the connection. */
    method ClientGone(name: string)
      requires Valid()
      modifies list, list.spine
      ensures Valid() && View() == old(View()).(online := Remove(old(View()).online, name))
    {
      list.Delete(name);
    }

    /** The rows of the table one after the other: those for this user, and those that stay. */
    static method SortOut(ms: seq<Msg>, name: string)
      returns (shown: seq<Msg>, rest: seq<Msg>, ghost own: seq<nat>, ghost others: seq<nat>)
      ensures Sorted(ms, name, shown, rest, own, others)
    {
      shown, rest, own, others := [], [], [], [];
      for i := 0 to |ms|
        invariant Sorted(ms[..i], name, shown, rest, own, others)
      {
        assert ms[..i + 1] == ms[..i] + [ms[i]];
        SortedNext(ms[..i], name, shown, rest, own, others, ms[i]);
        if ms[i].des == name {
          shown, own := shown + [ms[i]], own + [i];
        } else {
          rest, others := rest + [ms[i]], others + [i];
        }
      }
      assert ms[..|ms|] == ms;
    }

    /** getUserMsgFromMysql: shows the rows for this user, oldest first, and deletes them. */
    method FetchMessages(name: string) returns (shown: seq<Msg>, ghost own: seq<nat>, ghost others: seq<nat>)
      requires Valid()
      modifies this`stored
      ensures Valid() && shown == For(old(stored), name)
      ensures View() == old(View()).(stored := NotFor(old(stored), name))
      ensures PicksAt(old(stored), name, true, shown, own) && PicksAt(old(stored), name, false, stored, others)
      ensures forall m :: multiset(shown)[m] == if m.des == name then multiset(old(stored))[m] else 0
      ensures forall m :: multiset(stored)[m] == if m.des == name then 0 else multiset(old(stored))[m]
    {
      ForCounts(stored, name);
      var rest;
      shown, rest, own, others := SortOut(stored, name);
      stored := rest;
    }
  }
}
