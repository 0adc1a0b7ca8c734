/** The online registry as a sequence of entries, newest first: the view that the linked list refines. */
module Roster {
  import opened Wrappers

  datatype Entry = Entry(name: string, sfd: int)

  /** The first entry of that name. */
  function Find(es: seq<Entry>, name: string): (r: Option<int>) {
    if es == [] then None else if es[0].name == name then Some(es[0].sfd) else Find(es[1..], name)
  }

  /** es without its first entry of that name. */
  function Remove(es: seq<Entry>, name: string): (r: seq<Entry>) {
    if es == [] then [] else if es[0].name == name then es[1..] else [es[0]] + Remove(es[1..], name)
  }

  function Count(es: seq<Entry>, name: string): (n: nat) {
    if es == [] then 0 else (if es[0].name == name then 1 else 0) + Count(es[1..], name)
  }

  lemma {:induction false} FindNoneIsCountZero(es: seq<Entry>, name: string)
    ensures Find(es, name) == None <==> Count(es, name) == 0
  {
    if es != [] {
      FindNoneIsCountZero(es[1..], name);
    }
  }

  lemma {:induction false} CountAfterRemove(es: seq<Entry>, name: string, other: string)
    ensures Count(Remove(es, name), other) ==
      if other == name && Count(es, name) > 0 then Count(es, other) - 1 else Count(es, other)
  {
    if es != [] && es[0].name != name {
      CountAfterRemove(es[1..], name, other);
      assert ([es[0]] + Remove(es[1..], name))[1..] == Remove(es[1..], name);
    }
  }

  lemma {:induction false} FoundIsListed(es: seq<Entry>, name: string)
    ensures match Find(es, name)
            case None => forall e | e in es :: e.name != name
            case Some(fd) => Entry(name, fd) in es
  {
    if es != [] && es[0].name != name {
      FoundIsListed(es[1..], name);
    }
  }

  /** Removing by name takes away exactly the entry that Find reports, once. */
  lemma {:induction false} RemoveIsOneLess(es: seq<Entry>, name: string)
    ensures multiset(Remove(es, name)) ==
      match Find(es, name)
      case None => multiset(es)
      case Some(fd) => multiset(es) - multiset{Entry(name, fd)}
  {
    if es != [] {
      assert es == [es[0]] + es[1..];
      if es[0].name != name {
        RemoveIsOneLess(es[1..], name);
        FoundIsListed(es[1..], name);
      }
    }
  }

  /** Removal at a known position: nothing before it has that name. */
  lemma {:induction false} RemoveAt(es: seq<Entry>, name: string, i: nat)
    requires i < |es| && es[i].name == name
    requires forall k | 0 <= k < i :: es[k].name != name
    ensures Remove(es, name) == es[..i] + es[i + 1..] && Find(es, name) == Some(es[i].sfd)
  {
    if i > 0 {
      RemoveAt(es[1..], name, i - 1);
      assert es[..i] + es[i + 1..] == [es[0]] + (es[1..][..i - 1] + es[1..][i..]);
    }
  }

  lemma {:induction false} Absent(es: seq<Entry>, name: string)
    requires forall k | 0 <= k < |es| :: es[k].name != name
    ensures Remove(es, name) == es && Find(es, name) == None
  {
    if es != [] {
      Absent(es[1..], name);
    }
  }
}
