/**
 The map from message ids to the topic ids of requests that wait for an acknowledgement from the
 broker. One map serves PUBLISH, a second one SUBSCRIBE.
 */
module TopicIdMap {
  import opened LinkedList
  import opened Sequences
  import TopicRegistry
  import opened Wrappers

  const MAX_INFLIGHTMESSAGES := 10

  datatype Request = Request(msgId: nat, topicId: nat, kind: TopicRegistry.TopicType, wildcard: bool)

  /** A request for a wildcard filter is answered with topic id 0. */
  function ReplyId(r: Request): nat {
    if r.wildcard then 0 else r.topicId
  }

  function NewRequest(msgId: nat, topicId: nat, kind: TopicRegistry.TopicType, name: string): Request {
    Request(msgId, topicId, kind, kind.NORMAL? && ('#' in name || '+' in name))
  }

  // ----- the table as a sequence of requests

  ghost function Find(s: seq<Request>, msgId: nat): (i: nat)
    ensures i <= |s| && (i < |s| ==> s[i].msgId == msgId) && forall j :: 0 <= j < i ==> s[j].msgId != msgId
  {
    FirstIndex(s, (r: Request) => r.msgId == msgId)
  }

  ghost predicate UniqueIds(s: seq<Request>) {
    forall i, j :: 0 <= i < j < |s| ==> s[i].msgId != s[j].msgId
  }

  ghost function Lookup(s: seq<Request>, msgId: nat): Option<Request> {
    if Find(s, msgId) < |s| then Some(s[Find(s, msgId)]) else None
  }

  ghost function Dropped(s: seq<Request>, msgId: nat): seq<Request> {
    if Find(s, msgId) < |s| then Without(s, Find(s, msgId)) else s
  }

  ghost predicate Acceptable(open: nat, r: Request) {
    open <= MAX_INFLIGHTMESSAGES * 2 && (r.topicId != 0 || r.kind.SHORT?)
  }

  ghost function Recorded(s: seq<Request>, r: Request): seq<Request> {
    if Acceptable(|s|, r) then Dropped(s, r.msgId) + [r] else s
  }

  lemma UniqueFind(s: seq<Request>, i: nat)
    requires UniqueIds(s) && i < |s|
    ensures Find(s, s[i].msgId) == i
  {
  }

  lemma DroppedLookup(s: seq<Request>, msgId: nat)
    requires UniqueIds(s)
    ensures UniqueIds(Dropped(s, msgId)) && Lookup(Dropped(s, msgId), msgId) == None
    ensures forall m :: m != msgId ==> Lookup(Dropped(s, msgId), m) == Lookup(s, m)
    ensures |Dropped(s, msgId)| == |s| - (if Lookup(s, msgId).Some? then 1 else 0)
  {
    var k, t := Find(s, msgId), Dropped(s, msgId);
    if k < |s| {
      assert UniqueIds(t);
      forall m | m != msgId ensures Lookup(t, m) == Lookup(s, m) {
        var i := Find(s, m);
        if i < |s| {
          var j := if i < k then i else i - 1;
          assert t[j] == s[i];
          UniqueFind(t, j);
        } else {
          assert forall j :: 0 <= j < |t| ==> t[j].msgId != m;
        }
      }
      assert forall j :: 0 <= j < |t| ==> t[j].msgId != msgId;
    }
  }

  lemma AppendedLookup(s: seq<Request>, r: Request)
    requires UniqueIds(s) && Lookup(s, r.msgId) == None
    ensures UniqueIds(s + [r])
    ensures forall m :: Lookup(s + [r], m) == if m == r.msgId then Some(r) else Lookup(s, m)
  {
    var t := s + [r];
    assert UniqueIds(t);
    forall m ensures Lookup(t, m) == if m == r.msgId then Some(r) else Lookup(s, m) {
      if m == r.msgId {
        UniqueFind(t, |s|);
      } else if Find(s, m) < |s| {
        assert t[Find(s, m)] == s[Find(s, m)];
        UniqueFind(t, Find(s, m));
      } else {
        assert forall j :: 0 <= j < |t| ==> t[j].msgId != m;
      }
    }
  }

  // ----- runs

  /** What happens to one of a client's maps: a request is offered, an acknowledgement comes, a clean session starts. */
  datatype Event =
    | Record(msgId: nat, topicId: nat, kind: TopicRegistry.TopicType, name: string)
    | Ack(msgId: nat)
    | Clear

  ghost predicate SixteenBit(evs: seq<Event>) {
    forall i :: 0 <= i < |evs| && evs[i].Record? ==> evs[i].msgId < 0x1_0000
  }

  function RequestOf(e: Event): Request
    requires e.Record?
  {
    NewRequest(e.msgId, e.topicId, e.kind, e.name)
  }

  ghost function Step(s: seq<Request>, e: Event): seq<Request> {
    match e
    case Record(_, _, _, _) => Recorded(s, RequestOf(e))
    case Ack(m) => Dropped(s, m)
    case Clear => []
  }

  ghost function Table(evs: seq<Event>): seq<Request> {
    if evs == [] then [] else Step(Table(evs[..|evs| - 1]), evs[|evs| - 1])
  }

  /** With at most 20 requests open one is taken that has a topic id or names a short topic. */
  ghost predicate Takes(open: nat, e: Event)
    requires e.Record?
  {
    open <= 20 && (e.topicId != 0 || e.kind == TopicRegistry.SHORT)
  }

  /** Where the latest request with a message id was taken that has not been answered, read off the history alone. */
  ghost function Latest(evs: seq<Event>, msgId: nat): (r: Option<nat>)
    ensures r.Some? ==> r.value < |evs| && evs[r.value].Record? && evs[r.value].msgId == msgId
    decreases |evs|, 0
  {
    if evs == [] then None
    else
      var before, e := evs[..|evs| - 1], evs[|evs| - 1];
      match e
      case Record(m, _, _, _) => if m == msgId && Takes(|Open(before)|, e) then Some(|before|)
          else Latest(before, msgId)
      case Ack(m) => if m == msgId then None else Latest(before, msgId)
      case Clear => None
  }

  /** The message ids that wait for an answer. */
  ghost function Open(evs: seq<Event>): set<nat>
    decreases |evs|, 1
  {
    set m | 0 <= m < 0x1_0000 && Latest(evs, m).Some? :: m
  }

  ghost function Recalled(evs: seq<Event>, msgId: nat): Option<Request> {
    match Latest(evs, msgId)
    case Some(i) => Some(RequestOf(evs[i]))
    case None => None
  }

  lemma LatestStep(before: seq<Event>, e: Event, m: nat)
    ensures Recalled(before + [e], m) ==
            match e
            case Record(k, _, _, _) => if k == m && Takes(|Open(before)|, e) then Some(RequestOf(e))
                else Recalled(before, m)
            case Ack(k) => if k == m then None else Recalled(before, m)
            case Clear => None
  {
    assert (before + [e])[..|before|] == before;
  }

  ghost function OpenAfter(open: set<nat>, e: Event): set<nat> {
    match e
    case Record(m, _, _, _) => if Takes(|open|, e) then open + {m} else open
    case Ack(k) => open - {k}
    case Clear => {}
  }

  lemma OpenIsRecalled(evs: seq<Event>, m: nat)
    ensures m in Open(evs) <==> m < 0x1_0000 && Recalled(evs, m).Some?
  {
  }

  lemma OpenStep(before: seq<Event>, e: Event)
    requires e.Record? ==> e.msgId < 0x1_0000
    ensures Open(before + [e]) == OpenAfter(Open(before), e)
  {
    forall m: nat ensures m in Open(before + [e]) <==> m in OpenAfter(Open(before), e) {
      LatestStep(before, e, m);
      OpenIsRecalled(before, m);
      OpenIsRecalled(before + [e], m);
    }
  }

  ghost predicate Agrees(s: seq<Request>, evs: seq<Event>) {
    && UniqueIds(s) && |s| == |Open(evs)| && |s| <= MAX_INFLIGHTMESSAGES * 2 + 1
    && Tells(s, evs)
  }

  /** What a table says about every message id is what the history says. */
  ghost predicate Tells(s: seq<Request>, evs: seq<Event>) {
    forall m: nat :: Lookup(s, m) == Recalled(evs, m) && (Recalled(evs, m).Some? ==> m < 0x1_0000)
  }

  lemma RecordTells(s: seq<Request>, before: seq<Event>, e: Event)
    requires Agrees(s, before) && e.Record? && e.msgId < 0x1_0000
    ensures Tells(Recorded(s, RequestOf(e)), before + [e])
  {
    var r := RequestOf(e);
    if Acceptable(|s|, r) {
      DroppedLookup(s, r.msgId);
      AppendedLookup(Dropped(s, r.msgId), r);
    }
    forall m: nat
      ensures Lookup(Recorded(s, r), m) == Recalled(before + [e], m)
              && (Recalled(before + [e], m).Some? ==> m < 0x1_0000)
    {
      LatestStep(before, e, m);
    }
  }

  lemma AckTells(s: seq<Request>, before: seq<Event>, k: nat)
    requires Agrees(s, before)
    ensures Tells(Dropped(s, k), before + [Ack(k)])
  {
    DroppedLookup(s, k);
    forall m: nat
      ensures Lookup(Dropped(s, k), m) == Recalled(before + [Ack(k)], m)
              && (Recalled(before + [Ack(k)], m).Some? ==> m < 0x1_0000)
    {
      LatestStep(before, Ack(k), m);
    }
  }

  lemma ClearTells(before: seq<Event>)
    ensures Tells([], before + [Clear])
  {
    forall m: nat ensures Recalled(before + [Clear], m) == None {
      LatestStep(before, Clear, m);
    }
  }

  lemma MemberCounts(open: set<nat>, m: nat)
    ensures |open + {m}| == |open| + (if m in open then 0 else 1)
    ensures |open - {m}| == |open| - (if m in open then 1 else 0)
  {
    assert m in open ==> open + {m} == open;
    assert m !in open ==> open - {m} == open;
  }

  lemma RecordSize(s: seq<Request>, r: Request)
    requires UniqueIds(s) && |s| <= MAX_INFLIGHTMESSAGES * 2 + 1
    ensures var t := Recorded(s, r);
            && UniqueIds(t) && |t| <= MAX_INFLIGHTMESSAGES * 2 + 1
            && |t| == |s| + (if Acceptable(|s|, r) && Lookup(s, r.msgId) == None then 1 else 0)
  {
    if Acceptable(|s|, r) {
      DroppedLookup(s, r.msgId);
      AppendedLookup(Dropped(s, r.msgId), r);
    }
  }

  lemma StepSize(s: seq<Request>, before: seq<Event>, e: Event)
    requires Agrees(s, before) && (e.Record? ==> e.msgId < 0x1_0000)
    ensures var t := Step(s, e);
            UniqueIds(t) && |t| == |OpenAfter(Open(before), e)| && |t| <= MAX_INFLIGHTMESSAGES * 2 + 1
  {
    match e
    case Record(m, _, _, _) =>
      RecordSize(s, RequestOf(e));
      OpenIsRecalled(before, m);
      MemberCounts(Open(before), m);
    case Ack(k) =>
      DroppedLookup(s, k);
      OpenIsRecalled(before, k);
      MemberCounts(Open(before), k);
    case Clear =>
  }

  lemma StepAgrees(s: seq<Request>, before: seq<Event>, e: Event)
    requires Agrees(s, before) && (e.Record? ==> e.msgId < 0x1_0000)
    ensures Agrees(Step(s, e), before + [e])
  {
    OpenStep(before, e);
    StepSize(s, before, e);
    match e
    case Record(_, _, _, _) => RecordTells(s, before, e);
    case Ack(k) => AckTells(s, before, k);
    case Clear => ClearTells(before);
  }

  /** Over every run the table holds exactly the latest unanswered request of each message id, at most 21 of them. */
  lemma {:induction false} TableIsHistory(evs: seq<Event>)
    requires SixteenBit(evs)
    ensures UniqueIds(Table(evs)) && |Table(evs)| <= 21
    ensures forall m: nat :: Lookup(Table(evs), m) == Recalled(evs, m)
    ensures Agrees(Table(evs), evs)
  {
    if evs == [] {
      assert Open(evs) == {};
    } else {
      var before := evs[..|evs| - 1];
      TableIsHistory(before);
      StepAgrees(Table(before), before, evs[|evs| - 1]);
      assert before + [evs[|evs| - 1]] == evs;
    }
  }

  /** The answer to an acknowledgement, as a table has it. */
  ghost function ReplyTo(s: seq<Request>, msgId: nat): Option<nat> {
    match Lookup(s, msgId)
    case Some(r) => Some(ReplyId(r))
    case None => None
  }

  ghost predicate HasWildcard(name: string) {
    exists i :: 0 <= i < |name| && (name[i] == '#' || name[i] == '+')
  }

  /**
   Over every run an acknowledgement is answered for the latest request with its message id that was taken and has not
   been answered, if there is one: with 0 when that named a wildcard filter, otherwise with the topic id it was made
   with.
   */
  lemma ReplyOverRun(evs: seq<Event>, msgId: nat)
    requires SixteenBit(evs)
    ensures ReplyTo(Table(evs), msgId) ==
            match Latest(evs, msgId)
            case Some(i) =>
              Some(if evs[i].kind == TopicRegistry.NORMAL && HasWildcard(evs[i].name) then 0 else evs[i].topicId)
            case None => None
    ensures Latest(evs + [Ack(msgId)], msgId) == None && ReplyTo(Table(evs + [Ack(msgId)]), msgId) == None
  {
    TableIsHistory(evs);
    TableIsHistory(evs + [Ack(msgId)]);
    LatestStep(evs, Ack(msgId), msgId);
    var i := Latest(evs, msgId);
    if i.Some? {
      WildcardFound(evs[i.value].name);
    }
  }

  lemma WildcardFound(name: string)
    ensures HasWildcard(name) <==> '#' in name || '+' in name
  {
  }

  // ----- the object

  class TopicIdMap {
    const links: Links<Request>
    var cnt: int

    ghost predicate Valid()
      reads this, links, links.list
    {
      links.Valid() && UniqueIds(links.Values())
    }

    /** The count is right and the table is within its bound. */
    ghost predicate Counted()
      reads this, links
    {
      cnt == |links.list| <= MAX_INFLIGHTMESSAGES * 2 + 1
    }

    constructor ()
      ensures Valid() && Counted() && links.Values() == [] && fresh(links)
    {
      links := new Links();
      cnt := 0;
    }

    method GetElement(msgId: nat) returns (p: Node?<Request>)
      requires Valid()
      ensures p == At(links.list, Find(links.Values(), msgId))
    {
      p := links.first;
      ghost var i := 0;
      while p != null
        invariant i <= |links.list| && p == At(links.list, i)
        invariant forall j :: 0 <= j < i ==> links.list[j].value.msgId != msgId
        decreases |links.list| - i
      {
        if p.value.msgId == msgId {
          return;
        }
        p := p.next;
        i := i + 1;
      }
    }

    method Add(msgId: nat, topicId: nat, kind: TopicRegistry.TopicType, name: string) returns (p: Node?<Request>)
      requires Valid() && Counted()
      modifies this, links, links.list
      ensures Valid() && Counted()
      ensures links.Values() == Recorded(old(links.Values()), NewRequest(msgId, topicId, kind, name))
      ensures p == null <==> |old(links.Values())| > 20 || (topicId == 0 && kind != TopicRegistry.SHORT)
    {
      if cnt > MAX_INFLIGHTMESSAGES * 2 || (topicId == 0 && !kind.SHORT?) {
        return null;
      }
      DroppedLookup(links.Values(), msgId);
      EraseIfPresent(msgId);
      p := AppendRequest(NewRequest(msgId, topicId, kind, name));
    }

    method EraseIfPresent(msgId: nat)
      requires Valid() && Counted()
      modifies this`cnt, links, links.list
      ensures Valid() && Counted() && links.Values() == Dropped(old(links.Values()), msgId)
      ensures forall i :: 0 <= i < |links.list| ==> links.list[i] in old(links.list)
    {
      var q := GetElement(msgId);
      if q != null {
        Erase(msgId);
      }
    }

    method AppendRequest(r: Request) returns (p: Node<Request>)
      requires Valid() && cnt == |links.list| <= MAX_INFLIGHTMESSAGES * 2 && Lookup(links.Values(), r.msgId) == None
      modifies this`cnt, links, links.list
      ensures Valid() && Counted() && links.Values() == old(links.Values()) + [r]
    {
      AppendedLookup(links.Values(), r);
      p := new Node(r);
      links.Append(p);
      cnt := cnt + 1;
    }

    /** Decrements the count whether or not the message id is there. */
    method Erase(msgId: nat)
      requires Valid()
      modifies this`cnt, links, links.list
      ensures Valid() && links.Values() == Dropped(old(links.Values()), msgId) && cnt == old(cnt) - 1
      ensures forall n :: n in links.list ==> n in old(links.list)
      ensures old(Counted()) ==> (Counted() <==> Lookup(old(links.Values()), msgId).Some?)
    {
      var p := links.first;
      ghost var i := 0;
      while p != null && p.value.msgId != msgId
        invariant i <= |links.list| && p == At(links.list, i)
        invariant forall j :: 0 <= j < i ==> links.list[j].value.msgId != msgId
        decreases |links.list| - i
      {
        p := p.next;
        i := i + 1;
      }
      DroppedLookup(links.Values(), msgId);
      if p != null {
        ValuesWithout(links.list, i);
        links.Unlink(p, i);
      }
      cnt := cnt - 1;
    }

    method ClearAll()
      modifies this`cnt, links
      ensures Valid() && Counted() && links.Values() == []
    {
      links.first := null;
      links.end := null;
      links.list := [];
      cnt := 0;
    }

    /** An acknowledgement from the broker: answer with the recorded topic id and forget the request. */
    method Acknowledge(msgId: nat) returns (reply: Option<nat>)
      requires Valid() && Counted()
      modifies this, links, links.list
      ensures Valid() && Counted() && links.Values() == Dropped(old(links.Values()), msgId)
      ensures reply == ReplyTo(old(links.Values()), msgId)
      ensures forall r :: Lookup(old(links.Values()), msgId) == Some(r) ==>
                            reply == Some(if r.wildcard then 0 else r.topicId)
    {
      var p := GetElement(msgId);
      if p != null {
        reply := Some(ReplyId(p.value));
        Erase(msgId);
      } else {
        reply := None;
      }
    }
  }
}
