/**
 The bounded queue under every event queue and stored-packet queue. Pop clears the back link of the element it
 removes and leaves that of the new head, so only the forward chain is kept; no operation follows a back link.
 */
module Que {
  import opened LinkedList
  import opened Wrappers

  class Que<T> {
    var head: Node?<T>
    var tail: Node?<T>
    var cnt: nat
    var maxSize: nat
    ghost var list: seq<Node<T>>

    ghost function Contents(): seq<T>
      reads this
    {
      ValuesOf(list)
    }

    ghost predicate Valid()
      reads this, list
    {
      && head == At(list, 0) && tail == At(list, |list| - 1) && cnt == |list|
      && NextChain(list) && Distinct(list)
    }

    /** A maximum size of 0 stands for no bound. */
    ghost predicate Full()
      reads this
    {
      maxSize != 0 && cnt >= maxSize
    }

    constructor ()
      ensures Valid() && Contents() == [] && maxSize == 0 && list == []
    {
      head := null;
      tail := null;
      cnt := 0;
      maxSize := 0;
      list := [];
    }

    method SetMaxSize(size: nat)
      requires Valid()
      modifies this`maxSize
      ensures Valid() && maxSize == size
    {
      maxSize := size;
    }

    method Pop()
      requires Valid()
      modifies this, list
      ensures Valid() && maxSize == old(maxSize)
      ensures Contents() == if old(Contents()) == [] then [] else old(Contents())[1..]
      ensures forall n :: n in list ==> n in old(list)
    {
      if head != null {
        var h := head;
        if head == tail {
          head := null;
          tail := null;
        } else {
          head := h.next;
          h.prev := null;
        }
        list := list[1..];
        cnt := cnt - 1;
      }
    }

    method Front() returns (t: Option<T>)
      requires Valid()
      ensures t == if Contents() == [] then None else Some(Contents()[0])
    {
      t := if head != null then Some(head.value) else None;
    }

    /** Returns the new size, or 0 when the queue is full. */
    method Post(t: T) returns (size: nat)
      requires Valid()
      modifies this, list
      ensures Valid() && maxSize == old(maxSize)
      ensures old(Full()) ==> size == 0 && Contents() == old(Contents()) && list == old(list)
      ensures !old(Full()) ==> size == |Contents()| && Contents() == old(Contents()) + [t]
      ensures forall n :: n in list ==> n in old(list) || fresh(n)
    {
      if maxSize == 0 || cnt < maxSize {
        var elm := new Node(t);
        Attach(elm);
        return cnt;
      }
      size := 0;
    }

    method Attach(elm: Node<T>)
      requires Valid() && elm !in list && elm.next == null
      modifies this`head, this`tail, this`cnt, this`list, list, elm
      ensures Valid() && list == old(list) + [elm]
    {
      if head != null {
        if tail == head {
          elm.prev := tail;
          tail := elm;
          head.next := elm;
        } else {
          tail.next := elm;
          elm.prev := tail;
          tail := elm;
        }
      } else {
        head := elm;
        tail := elm;
      }
      list := list + [elm];
      cnt := cnt + 1;
    }

    method Size() returns (n: nat)
      requires Valid()
      ensures n == |Contents()|
    {
      n := cnt;
    }
  }
}
