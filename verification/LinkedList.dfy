/**
 The doubly linked list behind the gateway's message tables. The ghost field list is the order of the
 nodes; Valid says that both chains of links follow it.
 */
module LinkedList {
  import opened Sequences

  class Node<T> {
    const value: T
    var next: Node?<T>
    var prev: Node?<T>

    constructor (value: T)
      ensures this.value == value && next == null && prev == null
    {
      this.value := value;
      next := null;
      prev := null;
    }
  }

  ghost function At<T>(ns: seq<Node<T>>, i: int): Node?<T> {
    if 0 <= i < |ns| then ns[i] else null
  }

  ghost function ValuesOf<T>(ns: seq<Node<T>>): (vs: seq<T>)
    ensures |vs| == |ns| && forall i :: 0 <= i < |ns| ==> vs[i] == ns[i].value
  {
    seq(|ns|, i requires 0 <= i < |ns| => ns[i].value)
  }

  lemma ValuesWithout<T>(ns: seq<Node<T>>, k: nat)
    requires k < |ns|
    ensures ValuesOf(Without(ns, k)) == Without(ValuesOf(ns), k)
  {
  }

  ghost predicate NextChain<T>(ns: seq<Node<T>>)
    reads ns
  {
    forall i {:trigger ns[i].next} :: 0 <= i < |ns| ==> ns[i].next == At(ns, i + 1)
  }

  ghost predicate PrevChain<T>(ns: seq<Node<T>>)
    reads ns
  {
    forall i {:trigger ns[i].prev} :: 0 <= i < |ns| ==> ns[i].prev == At(ns, i - 1)
  }

  /** The forward links skip the node at k. */
  ghost predicate BypassesNext<T>(ns: seq<Node<T>>, k: nat)
    requires k < |ns|
    reads ns
  {
    forall i {:trigger ns[i].next} :: 0 <= i < |ns| && i != k ==>
                                         ns[i].next == At(ns, if i == k - 1 then k + 1 else i + 1)
  }

  /** The backward links skip the node at k. */
  ghost predicate BypassesPrev<T>(ns: seq<Node<T>>, k: nat)
    requires k < |ns|
    reads ns
  {
    forall i {:trigger ns[i].prev} :: 0 <= i < |ns| && i != k ==>
                                         ns[i].prev == At(ns, if i == k + 1 then k - 1 else i - 1)
  }

  lemma BypassedNext<T>(ns: seq<Node<T>>, k: nat)
    requires k < |ns| && BypassesNext(ns, k)
    ensures NextChain(Without(ns, k))
  {
    var ws := Without(ns, k);
    forall i | 0 <= i < |ws| ensures ws[i].next == At(ws, i + 1) {
      var m := if i < k then i else i + 1;
      assert ws[i] == ns[m] && ns[m].next == At(ns, if m == k - 1 then k + 1 else m + 1);
    }
  }

  lemma BypassedPrev<T>(ns: seq<Node<T>>, k: nat)
    requires k < |ns| && BypassesPrev(ns, k)
    ensures PrevChain(Without(ns, k))
  {
    var ws := Without(ns, k);
    forall i | 0 <= i < |ws| ensures ws[i].prev == At(ws, i - 1) {
      var m := if i < k then i else i + 1;
      assert ws[i] == ns[m] && ns[m].prev == At(ns, if m == k + 1 then k - 1 else m - 1);
    }
  }

  ghost predicate Distinct<T>(s: seq<T>) {
    forall i, j :: 0 <= i < j < |s| ==> s[i] != s[j]
  }

  lemma WithoutDistinct<T>(s: seq<T>, k: nat)
    requires k < |s| && Distinct(s)
    ensures Distinct(Without(s, k))
  {
  }

  lemma WithoutEnds<T>(ns: seq<Node<T>>, k: nat)
    requires k < |ns|
    ensures At(Without(ns, k), 0) == At(ns, if k == 0 then 1 else 0)
    ensures At(Without(ns, k), |ns| - 2) == At(ns, if k == |ns| - 1 then k - 1 else |ns| - 1)
  {
  }

  class Links<T> {
    var first: Node?<T>
    var end: Node?<T>
    ghost var list: seq<Node<T>>

    ghost predicate Valid()
      reads this, list
    {
      && first == At(list, 0) && end == At(list, |list| - 1)
      && NextChain(list) && PrevChain(list)
      && Distinct(list)
    }

    ghost function Values(): seq<T>
      reads this
    {
      ValuesOf(list)
    }

    constructor ()
      ensures Valid() && list == []
    {
      first := null;
      end := null;
      list := [];
    }

    method Append(elm: Node<T>)
      requires Valid() && elm !in list && elm.next == null && elm.prev == null
      modifies this, list, elm
      ensures Valid() && list == old(list) + [elm] && Values() == old(Values()) + [elm.value]
    {
      if first == null {
        first := elm;
        end := elm;
      } else {
        elm.prev := end;
        end.next := elm;
        end := elm;
      }
      list := list + [elm];
    }

    /** Both chains and both ends skip the node at k, which is still in the ghost list. */
    ghost predicate Bypasses(k: nat)
      requires k < |list|
      reads this, list
    {
      && first == At(list, if k == 0 then 1 else 0) && end == At(list, if k == |list| - 1 then k - 1 else |list| - 1)
      && BypassesNext(list, k) && BypassesPrev(list, k) && Distinct(list)
    }

    /** Drops a bypassed node from the ghost list. */
    ghost method Forget(k: nat)
      requires k < |list| && Bypasses(k)
      modifies this`list
      ensures Valid() && list == Without(old(list), k)
    {
      BypassedNext(list, k);
      BypassedPrev(list, k);
      WithoutDistinct(list, k);
      WithoutEnds(list, k);
      list := Without(list, k);
    }

    /** Unlinks the node at position k. */
    method Unlink(p: Node<T>, ghost k: nat)
      requires Valid() && k < |list| && list[k] == p
      modifies this, list
      ensures Valid() && list == Without(old(list), k)
    {
      if p.prev == null {
        first := p.next;
      } else {
        p.prev.next := p.next;
      }
      if p.next == null {
        end := p.prev;
      } else {
        p.next.prev := p.prev;
      }
      Forget(k);
    }

    /** The same effect with the branches arranged around the head. */
    method UnlinkFromHead(p: Node<T>, ghost k: nat)
      requires Valid() && k < |list| && list[k] == p
      modifies this, list
      ensures Valid() && list == Without(old(list), k)
    {
      if p.prev == null {
        first := p.next;
        if first == null {
          end := null;
        } else {
          first.prev := null;
        }
      } else {
        p.prev.next := p.next;
        if p.next == null {
          end := p.prev;
        } else {
          p.next.prev := p.prev;
        }
      }
      Forget(k);
    }
  }
}
