/**
 The aggregating gateway speaks to the broker for many clients. MessageIdTable remembers which client
 and which client message id stand behind a packet id that was forwarded to the broker.
 */
module MessageIdTable {
  import opened LinkedList
  import opened Sequences
  import opened Wrappers

  const MAX_MESSAGEID_TABLE_SIZE := 500

  /** A packet id towards the broker, and the client (by identity) and message id it stands for. */
  datatype Entry = Entry(msgId: nat, client: nat, clientMsgId: nat)

  // ----- packet ids

  /** The 16-bit counter restarts at 1 instead of reaching 0xffff. */
  function NextPacketId(counter: nat): (id: nat)
    ensures id <= 0xfffe && (counter < 0xffff ==> id != 0)
  {
    var c := (counter + 1) % 0x1_0000;
    if c == 0xffff then 1 else c
  }

  /** The id issued after n others. */
  ghost function IdOf(n: nat): nat {
    if n < 0xfffe then n + 1 else IdOf(n - 0xfffe)
  }

  lemma {:induction false} IdOfModulo(n: nat)
    ensures IdOf(n) == n % 0xfffe + 1
  {
    if n >= 0xfffe {
      IdOfModulo(n - 0xfffe);
    }
  }

  ghost function CounterAfter(n: nat): nat {
    if n == 0 then 0 else IdOf(n - 1)
  }

  lemma CounterStep(n: nat)
    ensures NextPacketId(CounterAfter(n)) == IdOf(n) == CounterAfter(n + 1)
  {
    IdOfModulo(n);
    if n > 0 {
      IdOfModulo(n - 1);
    }
  }

  /** Fewer than a whole period apart, equal ids were issued at the same moment. */
  lemma IdOfInjective(m: nat, n: nat, now: nat)
    requires IdOf(m) == IdOf(n) && m < now && n < now && now - m <= 0xfffe && now - n <= 0xfffe
    ensures m == n
  {
    IdOfModulo(m);
    IdOfModulo(n);
  }

  // ----- the table as a sequence of entries

  ghost function FindId(s: seq<Entry>, msgId: nat): (i: nat)
    ensures i <= |s| && (i < |s| ==> s[i].msgId == msgId) && forall j :: 0 <= j < i ==> s[j].msgId != msgId
  {
    FirstIndex(s, (e: Entry) => e.msgId == msgId)
  }

  predicate IsFor(e: Entry, client: nat, clientMsgId: nat) {
    e.clientMsgId == clientMsgId && e.client == client
  }

  ghost function FindKey(s: seq<Entry>, client: nat, clientMsgId: nat): (i: nat)
    ensures i <= |s| && (i < |s| ==> IsFor(s[i], client, clientMsgId))
    ensures forall j :: 0 <= j < i ==> !IsFor(s[j], client, clientMsgId)
  {
    FirstIndex(s, (e: Entry) => IsFor(e, client, clientMsgId))
  }

  ghost predicate KeysDistinct(s: seq<Entry>) {
    forall i, j :: 0 <= i < j < |s| ==> !IsFor(s[i], s[j].client, s[j].clientMsgId)
  }

  ghost predicate IdsDistinct(s: seq<Entry>) {
    forall i, j :: 0 <= i < j < |s| ==> s[i].msgId != s[j].msgId
  }

  ghost predicate Bounded(s: seq<Entry>) {
    KeysDistinct(s) && |s| <= MAX_MESSAGEID_TABLE_SIZE + 1
  }

  /** The table without the first entry for a packet id. */
  ghost function Dropped(s: seq<Entry>, msgId: nat): seq<Entry> {
    if FindId(s, msgId) < |s| then Without(s, FindId(s, msgId)) else s
  }

  // ----- steps

  /**
   Forward and Repeat come from clients, Answer and Withdraw name a packet id, TakeId is any other use of the counter.
   */
  datatype Op =
    | Forward(client: nat, clientMsgId: nat)
    | Repeat(client: nat, clientMsgId: nat)
    | Answer(msgId: nat)
    | Withdraw(msgId: nat)
    | TakeId

  datatype Outcome = Nothing | Issued(id: nat) | Again(id: nat) | Routed(client: nat, clientMsgId: nat)

  datatype State = State(table: seq<Entry>, counter: nat)

  ghost predicate Accepts(s: State, client: nat, clientMsgId: nat) {
    |s.table| <= MAX_MESSAGEID_TABLE_SIZE && FindKey(s.table, client, clientMsgId) == |s.table|
  }

  ghost function Step(s: State, op: Op): State {
    match op
    case Forward(c, m) =>
      if Accepts(s, c, m) then State(s.table + [Entry(NextPacketId(s.counter), c, m)], NextPacketId(s.counter)) else s
    case Repeat(_, _) => s
    case Answer(x) => s.(table := Dropped(s.table, x))
    case Withdraw(x) => s.(table := Dropped(s.table, x))
    case TakeId => s.(counter := NextPacketId(s.counter))
  }

  ghost function Result(s: State, op: Op): Outcome {
    match op
    case Forward(c, m) => if Accepts(s, c, m) then Issued(NextPacketId(s.counter)) else Nothing
    case Repeat(c, m) => var i := FindKey(s.table, c, m); if i < |s.table| then Again(s.table[i].msgId) else Nothing
    case Answer(x) =>
      var i := FindId(s.table, x); if i < |s.table| then Routed(s.table[i].client, s.table[i].clientMsgId) else Nothing
    case _ => Nothing
  }

  lemma StepBounded(s: State, op: Op)
    requires Bounded(s.table)
    ensures Bounded(Step(s, op).table)
  {
  }

  // ----- runs

  ghost function After(ops: seq<Op>): State {
    if ops == [] then State([], 0) else Step(After(ops[..|ops| - 1]), ops[|ops| - 1])
  }

  /** What operation i of a run gives. */
  ghost function Out(ops: seq<Op>, i: nat): Outcome
    requires i < |ops|
  {
    Result(After(ops[..i]), ops[i])
  }

  ghost predicate TakesId(ops: seq<Op>, i: nat)
    requires i < |ops|
  {
    ops[i].TakeId? || Out(ops, i).Issued?
  }

  /** How many ids the first n operations issue. */
  ghost function Count(ops: seq<Op>, n: nat): nat
    requires n <= |ops|
  {
    if n == 0 then 0 else Count(ops, n - 1) + (if TakesId(ops, n - 1) then 1 else 0)
  }

  /** Request i was forwarded and no later operation before n names its packet id: its answer is due. */
  ghost predicate Due(ops: seq<Op>, i: nat, n: nat)
    requires n <= |ops|
  {
    && i < n && Out(ops, i).Issued?
    && forall k :: i < k < n ==> ops[k] != Answer(Out(ops, i).id) && ops[k] != Withdraw(Out(ops, i).id)
  }

  /** While an answer is due, fewer ids are issued than the counter has. */
  ghost predicate Unhurried(ops: seq<Op>) {
    forall i, n :: 0 <= i < n <= |ops| && Due(ops, i, n) ==> Count(ops, n) - Count(ops, i) <= 0xfffe
  }

  lemma AfterNext(ops: seq<Op>, n: nat)
    requires n < |ops|
    ensures After(ops[..n + 1]) == Step(After(ops[..n]), ops[n])
  {
    assert ops[..n + 1][..n] == ops[..n];
  }

  lemma {:induction false} CounterIsCount(ops: seq<Op>, n: nat)
    requires n <= |ops|
    ensures After(ops[..n]).counter == CounterAfter(Count(ops, n))
  {
    if n > 0 {
      CounterIsCount(ops, n - 1);
      CounterMoves(ops, n - 1);
      CounterBy(Count(ops, n - 1), TakesId(ops, n - 1));
    }
  }

  lemma CounterBy(n: nat, takes: bool)
    ensures (if takes then NextPacketId(CounterAfter(n)) else CounterAfter(n))
            == CounterAfter(n + if takes then 1 else 0)
  {
    CounterStep(n);
  }

  lemma CounterMoves(ops: seq<Op>, n: nat)
    requires n < |ops|
    ensures var before := After(ops[..n]).counter;
            After(ops[..n + 1]).counter == if TakesId(ops, n) then NextPacketId(before) else before
  {
    AfterNext(ops, n);
  }

  lemma IssuedId(ops: seq<Op>, i: nat)
    requires i < |ops| && Out(ops, i).Issued?
    ensures Out(ops, i).id == IdOf(Count(ops, i))
  {
    CounterIsCount(ops, i);
    CounterStep(Count(ops, i));
  }

  lemma {:induction false} CountGrows(ops: seq<Op>, i: nat, n: nat)
    requires i <= n <= |ops|
    ensures Count(ops, i) <= Count(ops, n)
    ensures i < n && TakesId(ops, i) ==> Count(ops, i) < Count(ops, n)
    decreases n
  {
    if i < n {
      CountGrows(ops, i, n - 1);
    }
  }

  /** Two due requests with one packet id are one request. */
  lemma DueDistinct(ops: seq<Op>, i: nat, j: nat, n: nat)
    requires Unhurried(ops) && n <= |ops| && Due(ops, i, n) && Due(ops, j, n) && Out(ops, i) == Out(ops, j)
    ensures i == j
  {
    IssuedId(ops, i);
    IssuedId(ops, j);
    CountGrows(ops, i, n);
    CountGrows(ops, j, n);
    IdOfInjective(Count(ops, i), Count(ops, j), Count(ops, n));
    if i < j {
      CountGrows(ops, i, j);
    } else if j < i {
      CountGrows(ops, j, i);
    }
  }

  ghost predicate Stands(ops: seq<Op>, i: nat, e: Entry)
    requires i < |ops|
  {
    ops[i] == Forward(e.client, e.clientMsgId) && Out(ops, i) == Issued(e.msgId)
  }

  /** The table holds exactly the requests whose answer is due. */
  ghost predicate TableIsDue(ops: seq<Op>, n: nat)
    requires n <= |ops|
  {
    var t := After(ops[..n]).table;
    && Bounded(t) && IdsDistinct(t)
    && (forall e :: e in t ==> exists i :: 0 <= i < n && Due(ops, i, n) && Stands(ops, i, e))
    && (forall i :: 0 <= i < n && Due(ops, i, n) ==> Entry(Out(ops, i).id, ops[i].client, ops[i].clientMsgId) in t)
  }

  lemma DueStep(ops: seq<Op>, i: nat, n: nat)
    requires i <= n < |ops|
    ensures Due(ops, i, n + 1) <==>
            && Out(ops, i).Issued?
            && (i == n || (Due(ops, i, n) && ops[n] != Answer(Out(ops, i).id) && ops[n] != Withdraw(Out(ops, i).id)))
  {
  }

  /** The entry that a forwarded request leaves. */
  ghost function EntryOf(ops: seq<Op>, i: nat): Entry
    requires i < |ops| && Out(ops, i).Issued?
  {
    Entry(Out(ops, i).id, ops[i].client, ops[i].clientMsgId)
  }

  lemma ForwardAppends(ops: seq<Op>, n: nat)
    requires n < |ops| && Out(ops, n).Issued? && Bounded(After(ops[..n]).table)
    ensures After(ops[..n + 1]).table == After(ops[..n]).table + [EntryOf(ops, n)]
    ensures Bounded(After(ops[..n + 1]).table)
  {
    AfterNext(ops, n);
    StepBounded(After(ops[..n]), ops[n]);
  }

  /** A due request is not accepted a second time: its client and message id are in the table. */
  lemma ForwardMembers(ops: seq<Op>, n: nat, f: Entry)
    requires n < |ops| && TableIsDue(ops, n) && Out(ops, n).Issued?
    requires f in After(ops[..n]).table || f == EntryOf(ops, n)
    ensures exists i :: 0 <= i < n + 1 && Due(ops, i, n + 1) && Stands(ops, i, f)
  {
    if f in After(ops[..n]).table {
      var i :| 0 <= i < n && Due(ops, i, n) && Stands(ops, i, f);
      DueStep(ops, i, n);
    } else {
      DueStep(ops, n, n);
      assert Stands(ops, n, f);
    }
  }

  lemma ForwardDistinct(ops: seq<Op>, n: nat, f: Entry)
    requires n < |ops| && TableIsDue(ops, n) && Unhurried(ops) && Out(ops, n).Issued? && f in After(ops[..n]).table
    ensures f.msgId != EntryOf(ops, n).msgId
  {
    var i :| 0 <= i < n && Due(ops, i, n) && Stands(ops, i, f);
    DueStep(ops, i, n);
    DueStep(ops, n, n);
    if f.msgId == Out(ops, n).id {
      DueDistinct(ops, i, n, n + 1);
    }
  }

  lemma AppendedDistinct(s: seq<Entry>, e: Entry)
    requires IdsDistinct(s) && forall f :: f in s ==> f.msgId != e.msgId
    ensures IdsDistinct(s + [e])
  {
    assert forall i :: 0 <= i < |s| ==> s[i] in s;
  }

  lemma ForwardKeeps(ops: seq<Op>, n: nat)
    requires n < |ops| && TableIsDue(ops, n) && Unhurried(ops) && Out(ops, n).Issued?
    ensures TableIsDue(ops, n + 1)
  {
    ForwardAppends(ops, n);
    var s, t := After(ops[..n]).table, After(ops[..n + 1]).table;
    forall f | f in t ensures exists i :: 0 <= i < n + 1 && Due(ops, i, n + 1) && Stands(ops, i, f) {
      ForwardMembers(ops, n, f);
    }
    forall i | 0 <= i < n + 1 && Due(ops, i, n + 1)
      ensures Entry(Out(ops, i).id, ops[i].client, ops[i].clientMsgId) in t
    {
      DueStep(ops, i, n);
    }
    forall f | f in s ensures f.msgId != EntryOf(ops, n).msgId {
      ForwardDistinct(ops, n, f);
    }
    AppendedDistinct(s, EntryOf(ops, n));
  }

  lemma DropKeeps(ops: seq<Op>, n: nat)
    requires n < |ops| && TableIsDue(ops, n) && (ops[n].Answer? || ops[n].Withdraw?)
    ensures TableIsDue(ops, n + 1)
  {
    AfterNext(ops, n);
    var s, t, x := After(ops[..n]).table, After(ops[..n + 1]).table, ops[n].msgId;
    StepBounded(After(ops[..n]), ops[n]);
    DroppedMembers(s, x);
    forall f | f in t ensures exists i :: 0 <= i < n + 1 && Due(ops, i, n + 1) && Stands(ops, i, f) {
      var i :| 0 <= i < n && Due(ops, i, n) && Stands(ops, i, f);
      DueStep(ops, i, n);
    }
    forall i | 0 <= i < n + 1 && Due(ops, i, n + 1)
      ensures Entry(Out(ops, i).id, ops[i].client, ops[i].clientMsgId) in t
    {
      DueStep(ops, i, n);
    }
  }

  lemma DroppedMembers(s: seq<Entry>, x: nat)
    requires IdsDistinct(s)
    ensures IdsDistinct(Dropped(s, x)) && forall e :: e in Dropped(s, x) <==> e in s && e.msgId != x
  {
    var k, t := FindId(s, x), Dropped(s, x);
    if k < |s| {
      forall e | e in s && e.msgId != x ensures e in t {
        var i :| 0 <= i < |s| && s[i] == e;
        assert t[if i < k then i else i - 1] == e;
      }
    }
  }

  lemma IdleKeeps(ops: seq<Op>, n: nat)
    requires n < |ops| && TableIsDue(ops, n) && !Out(ops, n).Issued? && !ops[n].Answer? && !ops[n].Withdraw?
    ensures TableIsDue(ops, n + 1)
  {
    AfterNext(ops, n);
    forall f | f in After(ops[..n]).table
      ensures exists i :: 0 <= i < n + 1 && Due(ops, i, n + 1) && Stands(ops, i, f)
    {
      var i :| 0 <= i < n && Due(ops, i, n) && Stands(ops, i, f);
      DueStep(ops, i, n);
    }
    forall i | 0 <= i < n + 1 && Due(ops, i, n + 1) ensures Due(ops, i, n) {
      DueStep(ops, i, n);
    }
  }

  lemma {:induction false} TableIsAlwaysDue(ops: seq<Op>, n: nat)
    requires Unhurried(ops) && n <= |ops|
    ensures TableIsDue(ops, n)
  {
    if n > 0 {
      TableIsAlwaysDue(ops, n - 1);
      if Out(ops, n - 1).Issued? {
        ForwardKeeps(ops, n - 1);
      } else if ops[n - 1].Answer? || ops[n - 1].Withdraw? {
        DropKeeps(ops, n - 1);
      } else {
        IdleKeeps(ops, n - 1);
      }
    }
  }

  lemma IdFound(t: seq<Entry>, e: Entry)
    requires IdsDistinct(t) && e in t
    ensures var k := FindId(t, e.msgId); k < |t| && t[k] == e
  {
    var m :| 0 <= m < |t| && t[m] == e;
  }

  /** The answer to a forwarded request reaches the client that sent it, under the message id it chose. */
  lemma AnswerIsRouted(ops: seq<Op>, i: nat, j: nat)
    requires Unhurried(ops) && i < j < |ops| && Due(ops, i, j) && ops[j] == Answer(Out(ops, i).id)
    ensures Out(ops, j) == Routed(ops[i].client, ops[i].clientMsgId)
  {
    TableIsAlwaysDue(ops, j);
    IdFound(After(ops[..j]).table, Entry(Out(ops, i).id, ops[i].client, ops[i].clientMsgId));
  }

  lemma DueOf(ops: seq<Op>, n: nat, e: Entry) returns (i: nat)
    requires Unhurried(ops) && n <= |ops| && e in After(ops[..n]).table
    ensures i < n && Due(ops, i, n) && Stands(ops, i, e)
    ensures forall k :: 0 <= k < n && Due(ops, k, n) && Out(ops, k) == Out(ops, i) ==> k == i
  {
    TableIsAlwaysDue(ops, n);
    i :| 0 <= i < n && Due(ops, i, n) && Stands(ops, i, e);
    forall k | 0 <= k < n && Due(ops, k, n) && Out(ops, k) == Out(ops, i) ensures k == i {
      DueDistinct(ops, k, i, n);
    }
  }

  /** Nothing else is routed: every routed answer belongs to exactly one request, which is then due no more. */
  lemma RoutedIsDue(ops: seq<Op>, j: nat) returns (i: nat)
    requires Unhurried(ops) && j < |ops| && Out(ops, j).Routed?
    ensures i < j && Due(ops, i, j) && Stands(ops, i, Entry(ops[j].msgId, Out(ops, j).client, Out(ops, j).clientMsgId))
    ensures forall k :: 0 <= k < j && Due(ops, k, j) && Out(ops, k) == Out(ops, i) ==> k == i
    ensures forall n :: j < n <= |ops| ==> !Due(ops, i, n)
  {
    var t := After(ops[..j]).table;
    i := DueOf(ops, j, t[FindId(t, ops[j].msgId)]);
  }

  lemma KeyFound(t: seq<Entry>, e: Entry)
    requires KeysDistinct(t) && e in t
    ensures var k := FindKey(t, e.client, e.clientMsgId); k < |t| && t[k] == e
  {
    var m :| 0 <= m < |t| && t[m] == e;
  }

  lemma DueIsInTable(ops: seq<Op>, i: nat, n: nat)
    requires Unhurried(ops) && i < n <= |ops| && Due(ops, i, n)
    ensures var t := After(ops[..n]).table; var k := FindKey(t, ops[i].client, ops[i].clientMsgId);
            k < |t| && t[k].msgId == Out(ops, i).id
  {
    TableIsAlwaysDue(ops, n);
    KeyFound(After(ops[..n]).table, Entry(Out(ops, i).id, ops[i].client, ops[i].clientMsgId));
  }

  /** A repeated request goes out again exactly while its answer is due, under the packet id it was first given. */
  lemma RepeatIsDue(ops: seq<Op>, j: nat)
    requires Unhurried(ops) && j < |ops| && ops[j].Repeat?
    ensures Out(ops, j).Again? ==>
              exists i :: 0 <= i < j && Due(ops, i, j)
                          && Stands(ops, i, Entry(Out(ops, j).id, ops[j].client, ops[j].clientMsgId))
    ensures forall i :: 0 <= i < j && Due(ops, i, j) && ops[i] == Forward(ops[j].client, ops[j].clientMsgId) ==>
              Out(ops, j) == Again(Out(ops, i).id)
  {
    var t := After(ops[..j]).table;
    var k := FindKey(t, ops[j].client, ops[j].clientMsgId);
    if k < |t| {
      var i := DueOf(ops, j, t[k]);
    }
    forall i | 0 <= i < j && Due(ops, i, j) && ops[i] == Forward(ops[j].client, ops[j].clientMsgId)
      ensures Out(ops, j) == Again(Out(ops, i).id)
    {
      DueIsInTable(ops, i, j);
    }
  }

  lemma SameIdOf(m: nat, n: nat)
    requires m <= n
    ensures IdOf(m) == IdOf(n) <==> (n - m) % 0xfffe == 0
  {
    var d := n - m;
    IdOfModulo(m);
    IdOfModulo(n);
    assert n == m + d;
    if d % 0xfffe == 0 {
      var k := d / 0xfffe;
      assert n == m + k * 0xfffe;
    }
  }

  /**
   With m and k ids issued before two requests, the later one gets the packet id of the earlier one if and only if a
   whole number of periods lies between.
   */
  lemma SameIdIff(ops: seq<Op>, i: nat, n: nat, m: nat, k: nat)
    requires i < n < |ops| && Out(ops, i).Issued? && Out(ops, n).Issued? && m == Count(ops, i) && k == Count(ops, n)
    ensures Out(ops, i).id == Out(ops, n).id <==> (k - m) % 0xfffe == 0
  {
    IssuedId(ops, i);
    IssuedId(ops, n);
    CountGrows(ops, i, n);
    SameIdOf(m, k);
  }

  // ----- which requests are accepted

  /** The requests whose answer is due. */
  ghost function AllDue(ops: seq<Op>, n: nat): set<nat>
    requires n <= |ops|
  {
    set i | 0 <= i < n && Due(ops, i, n)
  }

  lemma {:induction false} DistinctSize(s: seq<Entry>)
    requires IdsDistinct(s)
    ensures |set e | e in s| == |s|
  {
    if s != [] {
      var t, e := s[..|s| - 1], s[|s| - 1];
      DistinctSize(t);
      assert s == t + [e];
      assert (set f | f in s) == (set f | f in t) + {e};
    }
  }

  /** As many indices as entries, when each index has its own entry and each entry an index. */
  lemma {:induction false} SameSize(indices: set<nat>, entries: set<Entry>, ops: seq<Op>)
    requires forall i :: i in indices ==> i < |ops| && Out(ops, i).Issued? && EntryOf(ops, i) in entries
    requires forall i, j :: i in indices && j in indices && EntryOf(ops, i) == EntryOf(ops, j) ==> i == j
    requires forall e :: e in entries ==> exists i :: i in indices && EntryOf(ops, i) == e
    ensures |indices| == |entries|
    decreases indices
  {
    if indices == {} {
      assert entries == {};
    } else {
      var i :| i in indices;
      SameSize(indices - {i}, entries - {EntryOf(ops, i)}, ops);
    }
  }

  lemma DueIsTable(ops: seq<Op>, n: nat)
    requires Unhurried(ops) && n <= |ops|
    ensures |AllDue(ops, n)| == |After(ops[..n]).table|
  {
    var t := After(ops[..n]).table;
    TableIsAlwaysDue(ops, n);
    DistinctSize(t);
    forall i, j | i in AllDue(ops, n) && j in AllDue(ops, n) && EntryOf(ops, i) == EntryOf(ops, j) ensures i == j {
      DueDistinct(ops, i, j, n);
    }
    forall e | e in t ensures exists i :: i in AllDue(ops, n) && EntryOf(ops, i) == e {
      var i :| 0 <= i < n && Due(ops, i, n) && Stands(ops, i, e);
      assert i in AllDue(ops, n) && EntryOf(ops, i) == e;
    }
    SameSize(AllDue(ops, n), (set e | e in t), ops);
  }

  ghost predicate DueFor(ops: seq<Op>, n: nat, client: nat, clientMsgId: nat)
    requires n <= |ops|
  {
    exists i :: 0 <= i < n && Due(ops, i, n) && ops[i] == Forward(client, clientMsgId)
  }

  lemma KeyIsDue(ops: seq<Op>, n: nat, c: nat, m: nat)
    requires n <= |ops| && TableIsDue(ops, n)
    ensures FindKey(After(ops[..n]).table, c, m) < |After(ops[..n]).table| <==> DueFor(ops, n, c, m)
  {
    var t := After(ops[..n]).table;
    var k := FindKey(t, c, m);
    if k < |t| {
      assert t[k] in t;
      var i :| 0 <= i < n && Due(ops, i, n) && Stands(ops, i, t[k]);
    }
    if DueFor(ops, n, c, m) {
      var i :| 0 <= i < n && Due(ops, i, n) && ops[i] == Forward(c, m);
      var e := Entry(Out(ops, i).id, ops[i].client, ops[i].clientMsgId);
      var j :| 0 <= j < |t| && t[j] == e;
    }
  }

  /**
   A request is forwarded exactly while at most 500 answers are due and none of them is for its client and message id.
   */
  lemma AcceptedIff(ops: seq<Op>, n: nat)
    requires Unhurried(ops) && n < |ops| && ops[n].Forward?
    ensures Out(ops, n).Issued? <==>
            |AllDue(ops, n)| <= 500 && !DueFor(ops, n, ops[n].client, ops[n].clientMsgId)
  {
    TableIsAlwaysDue(ops, n);
    DueIsTable(ops, n);
    KeyIsDue(ops, n, ops[n].client, ops[n].clientMsgId);
  }

  /** Packet ids go from 1 to 65534 and start again. */
  lemma IdsInOrder(ops: seq<Op>, i: nat)
    requires i < |ops| && Out(ops, i).Issued?
    ensures Out(ops, i).id == Count(ops, i) % 65534 + 1
  {
    IssuedId(ops, i);
    IdOfModulo(Count(ops, i));
  }

  /** One request and k further uses of the counter. */
  ghost function Flood(k: nat): seq<Op> {
    [Forward(0, 1)] + seq(k, _ => TakeId)
  }

  lemma {:induction false} FloodTable(k: nat)
    ensures After(Flood(k)) == State([Entry(1, 0, 1)], CounterAfter(k + 1))
  {
    if k == 0 {
      assert Flood(0)[..0] == [];
    } else {
      FloodTable(k - 1);
      assert Flood(k)[..k] == Flood(k - 1);
      CounterStep(k);
    }
  }

  /**
   The bound is tight: after 65534 ids a second client's request gets the packet id that is still due for the first.
   */
  lemma HurriedClash()
    ensures After(Flood(0xfffd) + [Forward(1, 1)]).table == [Entry(1, 0, 1), Entry(1, 1, 1)]
  {
    FloodTable(0xfffd);
    var ops := Flood(0xfffd) + [Forward(1, 1)];
    assert ops[..|ops| - 1] == Flood(0xfffd);
  }

  // ----- the objects

  /** The packet id counter of a client. */
  class PacketIds {
    var packetId: nat

    constructor ()
      ensures packetId == 0
    {
      packetId := 0;
    }

    method GetNextPacketId() returns (id: nat)
      modifies this
      ensures packetId == NextPacketId(old(packetId)) && id == packetId
    {
      packetId := (packetId + 1) % 0x1_0000;
      if packetId == 0xffff {
        packetId := 1;
      }
      id := packetId;
    }
  }

  class MessageIdTable {
    const links: Links<Entry>
    var cnt: nat

    ghost predicate Valid()
      reads this, links, links.list
    {
      links.Valid() && cnt == |links.list| && Bounded(links.Values())
    }

    constructor ()
      ensures Valid() && links.Values() == [] && fresh(links)
    {
      links := new Links();
      cnt := 0;
    }

    method FindByMsgId(msgId: nat) returns (p: Node?<Entry>, ghost i: nat)
      requires Valid()
      ensures p == At(links.list, FindId(links.Values(), msgId)) && i == FindId(links.Values(), msgId)
    {
      p := links.first;
      i := 0;
      while p != null
        invariant i <= |links.list| && p == At(links.list, i)
        invariant forall j :: 0 <= j < i ==> links.list[j].value.msgId != msgId
        decreases |links.list| - i
      {
        if p.value.msgId == msgId {
          break;
        }
        p := p.next;
        i := i + 1;
      }
    }

    method FindByClient(client: nat, clientMsgId: nat) returns (p: Node?<Entry>)
      requires Valid()
      ensures p == At(links.list, FindKey(links.Values(), client, clientMsgId))
    {
      p := links.first;
      ghost var i := 0;
      while p != null
        invariant i <= |links.list| && p == At(links.list, i)
        invariant forall j :: 0 <= j < i ==> !IsFor(links.list[j].value, client, clientMsgId)
        decreases |links.list| - i
      {
        if IsFor(p.value, client, clientMsgId) {
          break;
        }
        p := p.next;
        i := i + 1;
      }
    }

    /** A new entry under the next packet id, or null when the table is full or knows the request. */
    method Add(ids: PacketIds, client: nat, clientMsgId: nat) returns (elm: Node?<Entry>)
      requires Valid()
      modifies this, links, links.list, ids
      ensures Valid()
      ensures State(links.Values(), ids.packetId) ==
              Step(State(old(links.Values()), old(ids.packetId)), Forward(client, clientMsgId))
      ensures Result(State(old(links.Values()), old(ids.packetId)), Forward(client, clientMsgId)) ==
              if elm == null then Nothing else Issued(elm.value.msgId)
    {
      elm := null;
      if cnt > MAX_MESSAGEID_TABLE_SIZE {
        return;
      }
      if links.first == null {
        elm := Attach(ids, client, clientMsgId);
      } else {
        var p := FindByClient(client, clientMsgId);
        if p == null {
          elm := Attach(ids, client, clientMsgId);
        }
      }
    }

    method Attach(ids: PacketIds, client: nat, clientMsgId: nat) returns (elm: Node<Entry>)
      requires Valid() && Accepts(State(links.Values(), ids.packetId), client, clientMsgId)
      modifies this, links, links.list, ids
      ensures Valid() && ids.packetId == NextPacketId(old(ids.packetId))
      ensures elm.value == Entry(ids.packetId, client, clientMsgId)
              && links.Values() == old(links.Values()) + [elm.value]
    {
      StepBounded(State(links.Values(), ids.packetId), Forward(client, clientMsgId));
      var id := ids.GetNextPacketId();
      elm := new Node(Entry(id, client, clientMsgId));
      links.Append(elm);
      cnt := cnt + 1;
    }

    method Clear(p: Node?<Entry>, ghost i: nat)
      requires Valid() && p == At(links.list, i) && i <= |links.list|
      modifies this, links, links.list
      ensures Valid()
      ensures links.Values() == if p == null then old(links.Values()) else Without(old(links.Values()), i)
    {
      if p == null {
        return;
      }
      ValuesWithout(links.list, i);
      links.UnlinkFromHead(p, i);
      cnt := cnt - 1;
    }

    method Erase(msgId: nat)
      requires Valid()
      modifies this, links, links.list
      ensures Valid() && links.Values() == Dropped(old(links.Values()), msgId)
    {
      var p, i := FindByMsgId(msgId);
      Clear(p, i);
    }

    /** The client and its message id behind a packet id; the entry is forgotten. */
    method GetClientMsgId(msgId: nat) returns (client: Option<nat>, clientMsgId: nat)
      requires Valid()
      modifies this, links, links.list
      ensures Valid() && links.Values() == Dropped(old(links.Values()), msgId)
      ensures Result(State(old(links.Values()), 0), Answer(msgId)) ==
              (match client case Some(c) => Routed(c, clientMsgId) case None => Nothing)
      ensures client == None ==> clientMsgId == 0
    {
      client, clientMsgId := None, 0;
      var p, i := FindByMsgId(msgId);
      if p != null {
        client, clientMsgId := Some(p.value.client), p.value.clientMsgId;
        Clear(p, i);
      }
    }

    /** The packet id of a known request, or 0. */
    method GetMsgId(client: nat, clientMsgId: nat) returns (msgId: nat)
      requires Valid()
      ensures Result(State(links.Values(), 0), Repeat(client, clientMsgId)) == Nothing ==> msgId == 0
      ensures Result(State(links.Values(), 0), Repeat(client, clientMsgId)) != Nothing ==>
                Result(State(links.Values(), 0), Repeat(client, clientMsgId)) == Again(msgId)
    {
      msgId := 0;
      var p := FindByClient(client, clientMsgId);
      if p != null {
        msgId := p.value.msgId;
      }
    }

    /**
     A SUBSCRIBE or UNSUBSCRIBE of an aggregated client: the packet id it is sent on with, or 0 when it is
     not sent. A duplicate keeps its first packet id.
     */
    method TranslateRequest(ids: PacketIds, client: nat, clientMsgId: nat, duplicate: bool) returns (msgId: nat)
      requires Valid() && ids.packetId < 0xffff
      modifies this, links, links.list, ids
      ensures Valid()
      ensures var op := if duplicate then Repeat(client, clientMsgId) else Forward(client, clientMsgId);
              var s := State(old(links.Values()), old(ids.packetId));
              && State(links.Values(), ids.packetId) == Step(s, op)
              && (match Result(s, op) case Issued(id) => msgId == id case Again(id) => msgId == id case _ => msgId == 0)
    {
      if duplicate {
        msgId := GetMsgId(client, clientMsgId);
      } else {
        var elm := Add(ids, client, clientMsgId);
        msgId := if elm == null then 0 else elm.value.msgId;
      }
    }
  }
}
