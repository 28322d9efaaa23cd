/** The packets of a client that wait for the REGACK of their topic; their number is kept in eight bits. */
module RegackList {
  import opened LinkedList
  import opened Sequences
  import opened SleepPath
  import opened Wrappers

  lemma OneMore(n: nat)
    ensures (n % 0x100 + 1) % 0x100 == (n + 1) % 0x100
  {
  }

  lemma OneLess(n: nat)
    requires n > 0
    ensures (n % 0x100 - 1) % 0x100 == (n - 1) % 0x100
  {
  }

  class RegackList {
    const links: Links<Waiting>
    var cnt: nat

    ghost function Waitings(): seq<Waiting>
      reads links
    {
      links.Values()
    }

    ghost predicate Valid()
      reads this, links, links.list
    {
      links.Valid() && cnt == |links.list| % 0x100
    }

    constructor ()
      ensures Valid() && Waitings() == [] && fresh(links)
    {
      links := new Links();
      cnt := 0;
    }

    method SetPacket(packet: SnPublish, msgId: nat)
      requires Valid()
      modifies this, links, links.list
      ensures Valid() && Waitings() == old(Waitings()) + [Waiting(packet, msgId)]
    {
      var elm := new Node(Waiting(packet, msgId));
      OneMore(|links.list|);
      links.Append(elm);
      cnt := (cnt + 1) % 0x100;
    }

    method Find(msgId: nat) returns (p: Node?<Waiting>, ghost i: nat)
      requires Valid()
      ensures p == At(links.list, FindWaiting(Waitings(), msgId)) && i == FindWaiting(Waitings(), msgId)
    {
      p := links.first;
      i := 0;
      while p != null
        invariant i <= |links.list| && p == At(links.list, i)
        invariant forall j :: 0 <= j < i ==> links.list[j].value.msgId != msgId
        decreases |links.list| - i
      {
        if p.value.msgId == msgId {
          break;
        }
        p := p.next;
        i := i + 1;
      }
      FirstOf(Waitings(), msgId, i);
    }

    method GetPacket(msgId: nat) returns (packet: Option<SnPublish>)
      requires Valid()
      ensures var k := FindWaiting(Waitings(), msgId);
              packet == if k < |Waitings()| then Some(Waitings()[k].packet) else None
    {
      var p, i := Find(msgId);
      packet := if p == null then None else Some(p.value.packet);
    }

    /** Unlinks the first packet with a message id. */
    method Erase(msgId: nat)
      requires Valid()
      modifies this, links, links.list
      ensures Valid()
      ensures var ws, k := old(Waitings()), FindWaiting(old(Waitings()), msgId);
              Waitings() == if k < |ws| then Without(ws, k) else ws
    {
      var p, i := Find(msgId);
      if p != null {
        Unlink(p, i);
      }
    }

    method Unlink(p: Node<Waiting>, ghost i: nat)
      requires Valid() && i < |links.list| && links.list[i] == p
      modifies this, links, links.list
      ensures Valid() && Waitings() == Without(old(Waitings()), i)
    {
      ghost var n := |links.list|;
      OneLess(n);
      ValuesWithout(links.list, i);
      links.Unlink(p, i);
      assert |links.list| == n - 1;
      cnt := (cnt - 1) % 0x100;
    }

    method GetCount() returns (n: nat)
      requires Valid()
      ensures n == |Waitings()| % 0x100
    {
      n := cnt;
    }
  }
}
