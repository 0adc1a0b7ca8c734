/** client_proc.c: the receiving half of the add-friend handshake, on the message buffer it works in. */
module ChatClient {
  import opened ChatSpec
  import opened ChatWorld

  /** The receive buffer of a client, holding one ADDFRIEND message. */
  class MsgBuffer {
    var src: string
    var des: string
    var body: Body

    constructor (m: Msg)
      ensures ToMsg() == m.(kind := AddFriend)
    {
      src, des, body := m.src, m.des, m.body;
    }

    function ToMsg(): (m: Msg)
      reads this
    {
      Msg(AddFriend, src, des, body)
    }
  }

  class Client {
    const name: string
    var friends: multiset<(string, string)>    // table friends, which the client writes itself
    var sent: seq<Msg>                         // messages written to the server

    constructor (name: string, friends: multiset<(string, string)>)
      ensures this.name == name && this.friends == friends && sent == []
    {
      this.name, this.friends, this.sent := name, friends, [];
    }

    /**
     * doProcAddFriendRequest: a message with the client's own name as sender is only shown; any other
     * is turned into its answer in place, which goes back with sender and receiver the same.
     */
    method DoProcAddFriendRequest(buf: MsgBuffer, choice: int) returns (shown: bool)
      modifies this, buf
      ensures shown <==> old(buf.src) == name
      ensures shown ==> sent == old(sent) && friends == old(friends) && buf.ToMsg() == old(buf.ToMsg())
      ensures !shown ==> buf.ToMsg() == Answer(old(buf.ToMsg()), choice == 0) && sent == old(sent) + [buf.ToMsg()]
      ensures !shown ==> friends == if choice == 0 then Befriend(old(friends), buf.src, name) else old(friends)
      ensures !shown ==>
        var (requester, pair) := (old(buf.src), multiset{(old(buf.src), name), (name, old(buf.src))});
        if choice == 0
        then friends == old(friends) + pair && sent == old(sent) + [Msg(AddFriend, requester, requester, Only(Agreed))]
        else friends == old(friends) && sent == old(sent) + [Msg(AddFriend, requester, requester, Only(Rejected))]
    {
      var sendName := buf.src;
      shown := sendName == name;
      if !shown {
        buf.des := sendName;
        if choice == 0 {
          friends := friends + multiset{(sendName, name)};
          friends := friends + multiset{(name, sendName)};
          buf.body := Only(Agreed);
        } else {
          buf.body := Only(Rejected);
        }
        sent := sent + [buf.ToMsg()];
      }
    }
  }
}
