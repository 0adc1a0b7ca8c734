/** linklist.c: the global list of online users, a singly linked list behind a sentinel node. */
module LinkList {
  import opened Roster

  class Node {
    const name: string
    const sfd: int
    var next: Node?

    constructor (name: string, sfd: int)
      ensures this.name == name && this.sfd == sfd && next == null
    {
      this.name, this.sfd, this.next := name, sfd, null;
    }

    function ToEntry(): (e: Entry) {
      Entry(name, sfd)
    }
  }

  function Entries(nodes: seq<Node>): (es: seq<Entry>)
    ensures |es| == |nodes|
    ensures forall i | 0 <= i < |es| :: es[i] == nodes[i].ToEntry()
  {
    seq(|nodes|, i requires 0 <= i < |nodes| => nodes[i].ToEntry())
  }

  class Registry {
    const head: Node
    ghost var spine: seq<Node>   // the sentinel and then the users, in list order

    ghost predicate Valid()
      reads this, spine
    {
      && spine != [] && spine[0] == head
      && (forall i, j | 0 <= i < j < |spine| :: spine[i] != spine[j])
      && (forall i {:trigger spine[i]} | 0 <= i < |spine| ::
            spine[i].next == if i + 1 < |spine| then spine[i + 1] else null)
    }

    ghost function Contents(): (es: seq<Entry>)
      requires spine != []
      reads this
    {
      Entries(spine[1..])
    }

    /** createList */
    constructor ()
      ensures Valid() && Contents() == [] && fresh(spine)
    {
      head := new Node("", 0);
      spine := [head];
    }

    /** insertNode: the new user goes directly behind the sentinel. */
    method Insert(name: string, sfd: int)
      requires Valid()
      modifies this, spine
      ensures Valid() && Contents() == [Entry(name, sfd)] + old(Contents())
    {
      var node := new Node(name, sfd);
      InsertedEntries(head, node, spine);
      node.next := head.next;
      head.next := node;
      spine := [head, node] + spine[1..];
      assert forall i | 2 <= i < |spine| :: spine[i] == old(spine)[i - 1];
    }

    static lemma InsertedEntries(head: Node, node: Node, nodes: seq<Node>)
      requires nodes != []
      ensures Entries(([head, node] + nodes[1..])[1..]) == [node.ToEntry()] + Entries(nodes[1..])
    {
    }

    /** searchName */
    method Search(name: string) returns (p: Node?)
      requires Valid()
      ensures match Find(Contents(), name)
              case None => p == null
              case Some(fd) => p != null && p in spine[1..] && p.name == name && p.sfd == fd
    {
      p := head.next;
      ghost var i := 1;
      while p != null
        invariant 1 <= i <= |spine| && p == (if i < |spine| then spine[i] else null)
        invariant forall k | 1 <= k < i :: spine[k].name != name
        decreases |spine| - i
      {
        assert spine[1..][i - 1] == p;
        if p.name == name {
          RemoveAt(Contents(), name, i - 1);
          return;
        }
        p := p.next;
        i := i + 1;
      }
      Absent(Contents(), name);
    }

    /** The walk of delNode: the first node of that name, or null, and the node in front of it. */
    method Locate(name: string) returns (pre: Node, p: Node?, ghost i: nat)
      requires Valid()
      ensures 1 <= i <= |spine| && pre == spine[i - 1] && p == (if i < |spine| then spine[i] else null)
      ensures forall k | 1 <= k < i :: spine[k].name != name
      ensures p != null ==> p.name == name
    {
      pre, p, i := head, head.next, 1;
      while p != null && p.name != name
        invariant 1 <= i <= |spine| && pre == spine[i - 1] && p == (if i < |spine| then spine[i] else null)
        invariant forall k | 1 <= k < i :: spine[k].name != name
        decreases |spine| - i
      {
        pre, p := p, p.next;
        i := i + 1;
      }
    }

    /** pre->next = p->next */
    method Unlink(pre: Node, p: Node, ghost i: nat)
      requires Valid() && 1 <= i < |spine| && pre == spine[i - 1] && p == spine[i]
      modifies this, spine
      ensures Valid() && spine == old(spine)[..i] + old(spine)[i + 1..]
    {
      pre.next := p.next;
      spine := spine[..i] + spine[i + 1..];
    }

    static lemma EntriesWithout(nodes: seq<Node>, i: nat)
      requires 0 < i < |nodes|
      ensures Entries((nodes[..i] + nodes[i + 1..])[1..]) == Entries(nodes[1..])[..i - 1] + Entries(nodes[1..])[i..]
    {
    }

    /** delNode: unlinks the first node of that name, whichever session it belongs to. */
    method Delete(name: string)
      requires Valid()
      modifies this, spine
      ensures Valid() && Contents() == Remove(old(Contents()), name)
    {
      ghost var was := Contents();
      var pre, p;
      ghost var i;
      pre, p, i := Locate(name);
      if p == null {
        Absent(was, name);
      } else {
        RemoveAt(was, name, i - 1);
        EntriesWithout(spine, i);
        Unlink(pre, p, i);
      }
    }

    /** destoryList: frees every node exactly once, the sentinel last. */
    method Destroy() returns (ghost freed: seq<Node>)
      requires Valid()
      modifies this, spine
      ensures freed == old(spine)[1..] + [head] && head.next == null
    {
      freed := [];
      var p := head.next;
      ghost var i := 1;
      while p != null
        invariant spine == old(spine) && 1 <= i <= |spine| && head.next == p
        invariant p == (if i < |spine| then spine[i] else null)
        invariant forall k {:trigger spine[k]} | 1 <= k < |spine| ::
                    spine[k].next == (if k + 1 < |spine| then spine[k + 1] else null)
        invariant freed == spine[1..i]
        decreases |spine| - i
      {
        assert p == spine[i] && p != head;
        head.next := p.next;
        freed := freed + [p];
        p := head.next;
        i := i + 1;
      }
      freed := freed + [head];
    }
  }
}
