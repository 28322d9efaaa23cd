/**
 The order in which stored packets reach a client that wakes: when it is the stored order, what overtakes what, and
 when the held PINGREQ goes out.
 */
module WakeOrder {
  import opened ClientRuns
  import opened Sequences
  import opened SleepPath
  import opened TopicRegistry
  import opened WakeUp

  // ----- positions

  ghost predicate Increasing(ns: seq<nat>) {
    forall i, j :: 0 <= i < j < |ns| ==> ns[i] < ns[j]
  }

  /** Where the packets with one of some fates stand, counted from base. */
  ghost function Positions(fs: seq<Fate>, keep: set<Fate>, base: nat): seq<nat> {
    if fs == [] then [] else (if fs[0] in keep then [base] else []) + Positions(fs[1..], keep, base + 1)
  }

  lemma JoinedIncreasing(xs: seq<nat>, ys: seq<nat>)
    requires Increasing(xs) && Increasing(ys)
    ensures Increasing(xs + ys) <==> forall x, y :: 0 <= x < |xs| && 0 <= y < |ys| ==> xs[x] < ys[y]
  {
    if Increasing(xs + ys) {
      forall x, y | 0 <= x < |xs| && 0 <= y < |ys| ensures xs[x] < ys[y] {
        assert (xs + ys)[x] < (xs + ys)[|xs| + y];
      }
    }
  }

  lemma {:induction false} PositionAt(fs: seq<Fate>, keep: set<Fate>, base: nat, i: nat)
    requires i < |Positions(fs, keep, base)|
    ensures var n := Positions(fs, keep, base)[i]; base <= n < base + |fs| && fs[n - base] in keep
  {
    if i > 0 || fs[0] !in keep {
      PositionAt(fs[1..], keep, base + 1, if fs[0] in keep then i - 1 else i);
    }
  }

  lemma {:induction false} PositionsIncrease(fs: seq<Fate>, keep: set<Fate>, base: nat)
    ensures Increasing(Positions(fs, keep, base))
  {
    if fs != [] {
      var head, tail := if fs[0] in keep then [base] else [], Positions(fs[1..], keep, base + 1);
      PositionsIncrease(fs[1..], keep, base + 1);
      forall i | 0 <= i < |tail| ensures base < tail[i] {
        PositionAt(fs[1..], keep, base + 1, i);
      }
      JoinedIncreasing(head, tail);
    }
  }

  lemma PositionsSound(fs: seq<Fate>, keep: set<Fate>)
    ensures var ns := Positions(fs, keep, 0);
            Increasing(ns) && forall i :: 0 <= i < |ns| ==> ns[i] < |fs| && fs[ns[i]] in keep
  {
    PositionsIncrease(fs, keep, 0);
    forall i | 0 <= i < |Positions(fs, keep, 0)|
      ensures Positions(fs, keep, 0)[i] < |fs| && fs[Positions(fs, keep, 0)[i]] in keep
    {
      PositionAt(fs, keep, 0, i);
    }
  }

  lemma {:induction false} PositionsComplete(fs: seq<Fate>, keep: set<Fate>, base: nat, k: nat)
    requires k < |fs| && fs[k] in keep
    ensures base + k in Positions(fs, keep, base)
  {
    if k > 0 {
      PositionsComplete(fs[1..], keep, base + 1, k - 1);
    }
  }

  /** The packets picked are those at the positions. */
  lemma {:induction false} PickedAt(ps: seq<Publish>, fs: seq<Fate>, keep: set<Fate>, base: nat)
    requires |ps| == |fs|
    ensures var ns, qs := Positions(fs, keep, base), Pick(ps, fs, keep);
            |ns| == |qs| && forall i :: 0 <= i < |ns| ==> base <= ns[i] < base + |ps| && qs[i] == ps[ns[i] - base]
    decreases |ps|
  {
    if ps != [] {
      PickedAt(ps[1..], fs[1..], keep, base + 1);
    }
  }

  /** Packets got are those at some positions, by the topics es. */
  ghost predicate Gets(es: seq<Entry>, ps: seq<Publish>, order: seq<nat>, got: seq<SnPublish>) {
    && |got| == |order|
    && forall i :: 0 <= i < |order| ==>
                     order[i] < |ps| && Resolved(es, ps[order[i]]) && got[i] == Resolve(es, ps[order[i]])
  }

  lemma GetsPicked(es: seq<Entry>, ps: seq<Publish>, fs: seq<Fate>, keep: set<Fate>)
    requires |ps| == |fs| && AllResolved(es, Pick(ps, fs, keep))
    ensures Gets(es, ps, Positions(fs, keep, 0), Refs(es, Pick(ps, fs, keep)))
  {
    var order, qs := Positions(fs, keep, 0), Pick(ps, fs, keep);
    PickedAt(ps, fs, keep, 0);
    RefsAt(es, ps, order, qs);
  }

  lemma RefsAt(es: seq<Entry>, ps: seq<Publish>, order: seq<nat>, qs: seq<Publish>)
    requires AllResolved(es, qs) && |order| == |qs|
    requires forall i :: 0 <= i < |order| ==> order[i] < |ps| && qs[i] == ps[order[i]]
    ensures Gets(es, ps, order, Refs(es, qs))
  {
  }

  lemma GetsJoined(es: seq<Entry>, ps: seq<Publish>, order: seq<nat>, got: seq<SnPublish>, order': seq<nat>,
                   got': seq<SnPublish>)
    requires Gets(es, ps, order, got) && Gets(es, ps, order', got')
    ensures Gets(es, ps, order + order', got + got')
  {
  }

  /** The order in which packets get to the client: those sent at once, then those that wait. */
  ghost function DeliveryOrder(fs: seq<Fate>): seq<nat> {
    Positions(fs, {AtOnce}, 0) + Positions(fs, {Waits}, 0)
  }

  /** No packet that is sent at once stands behind one that must wait. */
  ghost predicate NoOvertaking(fs: seq<Fate>) {
    forall i, j :: 0 <= i < j < |fs| && fs[i].Waits? ==> !fs[j].AtOnce?
  }

  /** They get there in their own order exactly then. */
  lemma InOrderIff(fs: seq<Fate>)
    ensures Increasing(DeliveryOrder(fs)) <==> NoOvertaking(fs)
  {
    var now, later := Positions(fs, {AtOnce}, 0), Positions(fs, {Waits}, 0);
    PositionsSound(fs, {AtOnce});
    PositionsSound(fs, {Waits});
    JoinedIncreasing(now, later);
    if !NoOvertaking(fs) {
      var i, j :| 0 <= i < j < |fs| && fs[i].Waits? && fs[j].AtOnce?;
      PositionsComplete(fs, {AtOnce}, 0, j);
      PositionsComplete(fs, {Waits}, 0, i);
      var x :| 0 <= x < |now| && now[x] == j;
      var y :| 0 <= y < |later| && later[y] == i;
      assert !(now[x] < later[y]);
    }
  }

  // ----- by the topics and the names

  ghost function TopicsOf(ps: seq<Publish>): seq<string> {
    seq(|ps|, i requires 0 <= i < |ps| => ps[i].topic)
  }

  /** A packet's fate depends on the topics at the start and on the names of the packets before it that wait. */
  lemma {:induction false} FateAt(es: seq<Entry>, clean: bool, names: seq<string>, ps: seq<Publish>, k: nat)
    requires k < |ps|
    ensures var fs := Fates(es, clean, names, ps);
            fs[k] == FateOf(es, clean, names + TopicsOf(Pick(ps[..k], fs[..k], {Waits})), ps[k].topic)
    decreases |ps|
  {
    var fs := Fates(es, clean, names, ps);
    if k == 0 {
      assert names + TopicsOf([]) == names;
    } else {
      FateAt(es, clean, if fs[0].Waits? then names + [ps[0].topic] else names, ps[1..], k - 1);
      WaitingNames(names, ps, fs, k);
    }
  }

  lemma WaitingNames(names: seq<string>, ps: seq<Publish>, fs: seq<Fate>, k: nat)
    requires |ps| == |fs| && 0 < k <= |ps|
    ensures names + TopicsOf(Pick(ps[..k], fs[..k], {Waits})) ==
            (if fs[0].Waits? then names + [ps[0].topic] else names)
                + TopicsOf(Pick(ps[1..][..k - 1], fs[1..][..k - 1], {Waits}))
  {
    var qs := Pick(ps[1..][..k - 1], fs[1..][..k - 1], {Waits});
    assert ps[..k][1..] == ps[1..][..k - 1] && fs[..k][1..] == fs[1..][..k - 1];
    assert TopicsOf([ps[0]] + qs) == [ps[0].topic] + TopicsOf(qs);
  }

  lemma {:induction false} PickHas(ps: seq<Publish>, fs: seq<Fate>, keep: set<Fate>, i: nat)
    requires |ps| == |fs| && i < |ps| && fs[i] in keep
    ensures ps[i] in Pick(ps, fs, keep)
    decreases |ps|
  {
    if i > 0 {
      PickHas(ps[1..], fs[1..], keep, i - 1);
    }
  }

  lemma PickFrom(ps: seq<Publish>, fs: seq<Fate>, keep: set<Fate>, q: Publish)
    requires |ps| == |fs| && q in Pick(ps, fs, keep)
    ensures exists i :: 0 <= i < |ps| && fs[i] in keep && ps[i] == q
  {
    var ns, qs := Positions(fs, keep, 0), Pick(ps, fs, keep);
    PickedAt(ps, fs, keep, 0);
    PositionsSound(fs, keep);
    var k :| 0 <= k < |qs| && qs[k] == q;
    assert fs[ns[k]] in keep && ps[ns[k]] == q;
  }

  /**
   A packet is sent at once if its topic is short or known, or if one before it waits on the same topic, and only
   then.
   */
  lemma AtOnceIff(es: seq<Entry>, clean: bool, ps: seq<Publish>, j: nat)
    requires j < |ps|
    ensures var fs := Fates(es, clean, [], ps);
            fs[j].AtOnce? <==> || |ps[j].topic| <= 2 || ByName(es, ps[j].topic) < |es|
                               || exists i :: 0 <= i < j && fs[i].Waits? && ps[i].topic == ps[j].topic
  {
    var fs := Fates(es, clean, [], ps);
    var qs := Pick(ps[..j], fs[..j], {Waits});
    FateAt(es, clean, [], ps, j);
    assert [] + TopicsOf(qs) == TopicsOf(qs);
    if i :| 0 <= i < j && fs[i].Waits? && ps[i].topic == ps[j].topic {
      PickHas(ps[..j], fs[..j], {Waits}, i);
      var k :| 0 <= k < |qs| && qs[k] == ps[i];
      assert TopicsOf(qs)[k] == ps[j].topic;
    }
    if ps[j].topic in TopicsOf(qs) {
      var k :| 0 <= k < |qs| && TopicsOf(qs)[k] == ps[j].topic;
      PickFrom(ps[..j], fs[..j], {Waits}, qs[k]);
    }
  }

  /**
   By topics: packets reach the client in stored order if and only if behind one that waits none is on a short, a
   known or the same topic.
   */
  lemma InOrderByTopics(es: seq<Entry>, clean: bool, ps: seq<Publish>)
    ensures var fs := Fates(es, clean, [], ps);
            Increasing(DeliveryOrder(fs)) <==>
            forall i, j :: 0 <= i < j < |ps| && fs[i].Waits? ==>
                             |ps[j].topic| > 2 && ByName(es, ps[j].topic) == |es| && ps[i].topic != ps[j].topic
  {
    var fs := Fates(es, clean, [], ps);
    InOrderIff(fs);
    forall j | 0 <= j < |ps|
      ensures fs[j].AtOnce? <==> || |ps[j].topic| <= 2 || ByName(es, ps[j].topic) < |es|
                                 || exists i :: 0 <= i < j && fs[i].Waits? && ps[i].topic == ps[j].topic
    {
      AtOnceIff(es, clean, ps, j);
    }
  }

  /** A further packet on the topic of one that waits overtakes it. */
  lemma SameTopicOvertakes(es: seq<Entry>, clean: bool, ps: seq<Publish>, i: nat, j: nat)
    requires i < j < |ps| && ps[i].topic == ps[j].topic && Fates(es, clean, [], ps)[i].Waits?
    ensures Fates(es, clean, [], ps)[j].AtOnce? && !Increasing(DeliveryOrder(Fates(es, clean, [], ps)))
  {
    AtOnceIff(es, clean, ps, j);
    InOrderIff(Fates(es, clean, [], ps));
  }

  /** With ids for all topics every packet is sent at once. */
  lemma {:induction false} KnownTopics(es: seq<Entry>, clean: bool, ps: seq<Publish>)
    requires AllResolved(es, ps)
    ensures var fs := Fates(es, clean, [], ps); Pick(ps, fs, {AtOnce}) == ps && NoOvertaking(fs)
    ensures forall k :: 0 <= k < |ps| ==> Fates(es, clean, [], ps)[k] == AtOnce
    decreases |ps|
  {
    if ps != [] {
      assert Resolved(es, ps[0]);
      KnownTopics(es, clean, ps[1..]);
    }
  }

  // ----- what stands behind the PINGREQ

  /** The numbers of arrival, stored packets first, in the order in which the packets are handled. */
  ghost function HandlingOrder(stored: nat, later: nat): seq<nat> {
    seq(later + stored, i requires 0 <= i < later + stored => if i < later then stored + i else i - later)
  }

  /**
   After the PINGREQ the event queue holds the packets that came while it waited, then the stored ones: they are
   handled in the order of arrival if and only if no PUBLISH stands behind the PINGREQ.
   */
  lemma StoredBehindLater(s: State, rest: seq<Event>)
    requires (s.status.Asleep? || s.status.Awake?) && s.counter <= 0xffff && s.sleeping != []
    requires s.events == [ClientPacket(SnPingreq)] + rest && Taken(s, rest) != []
    ensures var stored, later := Taken(s, rest), PublishesIn(rest);
            var order, queue := HandlingOrder(|stored|, |later|), PublishesIn(Step(s, Handle).events);
            && |queue| == |order|
            && (forall i :: 0 <= i < |queue| ==> 0 <= order[i] < |order| && queue[i] == (stored + later)[order[i]])
            && (Increasing(order) <==> later == [])
  {
    QueueAfter(s, rest);
    OrderOfArrival(Taken(s, rest), PublishesIn(rest));
  }

  lemma QueueAfter(s: State, rest: seq<Event>)
    requires (s.status.Asleep? || s.status.Awake?) && s.counter <= 0xffff && s.sleeping != []
    requires s.events == [ClientPacket(SnPingreq)] + rest
    ensures PublishesIn(Step(s, Handle).events) == PublishesIn(rest) + Taken(s, rest)
  {
    PingreqHandled(s, rest);
    PublishesOf(Taken(s, rest));
    PublishesAppend(rest, AsEvents(Taken(s, rest)));
  }

  lemma OrderOfArrival(stored: seq<Publish>, later: seq<Publish>)
    requires stored != []
    ensures var order, queue := HandlingOrder(|stored|, |later|), later + stored;
            && |queue| == |order|
            && (forall i :: 0 <= i < |queue| ==> 0 <= order[i] < |order| && queue[i] == (stored + later)[order[i]])
            && (Increasing(order) <==> later == [])
  {
    var order := HandlingOrder(|stored|, |later|);
    if later != [] {
      assert order[0] == |stored| && order[|later|] == 0;
    }
  }

  // ----- the REGACKs

  /** A count in eight bits that goes down from n + k to n passes 0. */
  predicate PassesZero(n: nat, k: nat) {
    k > 0 && (n % 0x100 == 0 || n % 0x100 + k > 0x100)
  }

  lemma PassesStep(n: nat, k: nat)
    requires k > 0
    ensures PassesZero(n, k) <==> (n + k - 1) % 0x100 == 0 || PassesZero(n, k - 1)
  {
    var r := n % 0x100;
    assert (n + k - 1) % 0x100 == (r + k - 1) % 0x100;
  }

  ghost function Ids(ws: seq<Waiting>): seq<nat> {
    seq(|ws|, i requires 0 <= i < |ws| => ws[i].msgId)
  }

  ghost predicate Distinct(ids: seq<nat>) {
    forall i, j :: 0 <= i < j < |ids| ==> ids[i] != ids[j]
  }

  /** The client answers REGISTERs with these message ids one after the other. */
  ghost function Regacks(ids: seq<nat>): seq<Action> {
    if ids == [] then [] else [Offer(ClientPacket(SnRegack(ids[0]))), Handle] + Regacks(ids[1..])
  }

  lemma RunTwo(s: State, a: Action, b: Action, acts: seq<Action>)
    requires s.counter <= 0xffff
    ensures Run(s, [a, b] + acts) == Run(Step(Step(s, a), b), acts)
  {
    assert ([a, b] + acts)[1..] == [b] + acts;
    assert ([b] + acts)[1..] == acts;
  }

  /** Some packet waits under each of these message ids. */
  ghost predicate AllUsed(ws: seq<Waiting>, ids: seq<nat>) {
    forall k :: 0 <= k < |ids| ==> Under(ws, ids[k]) != []
  }

  /** The oldest packet under each of them. */
  ghost function Oldest(ws: seq<Waiting>, ids: seq<nat>): seq<SnPublish>
    requires AllUsed(ws, ids)
  {
    seq(|ids|, k requires 0 <= k < |ids| => Under(ws, ids[k])[0].packet)
  }

  /** The list without the oldest packet under each of them. */
  ghost function Answered(ws: seq<Waiting>, ids: seq<nat>): seq<Waiting>
    decreases |ids|
  {
    if ids == [] then ws
    else
      var k := FindWaiting(ws, ids[0]);
      Answered(if k < |ws| then Without(ws, k) else ws, ids[1..])
  }

  /** Under each of the ids the queue has moved up by one, under all others it stands still. */
  lemma {:induction false} AnsweredUnder(ws: seq<Waiting>, ids: seq<nat>, msgId: nat)
    requires Distinct(ids) && AllUsed(ws, ids)
    ensures Under(Answered(ws, ids), msgId) == if msgId in ids then Under(ws, msgId)[1..] else Under(ws, msgId)
    ensures |Answered(ws, ids)| == |ws| - |ids|
    decreases |ids|
  {
    if ids != [] {
      FirstTakenOff(ws, ids);
      var k := FindWaiting(ws, ids[0]);
      AnsweredUnder(Without(ws, k), ids[1..], msgId);
      UnderWithout(ws, k, msgId);
      assert ids == [ids[0]] + ids[1..];
    }
  }

  lemma FirstTakenOff(ws: seq<Waiting>, ids: seq<nat>)
    requires ids != [] && Distinct(ids) && AllUsed(ws, ids)
    ensures var k := FindWaiting(ws, ids[0]);
            && k < |ws| && ids[0] !in ids[1..] && Distinct(ids[1..]) && AllUsed(Without(ws, k), ids[1..])
            && Oldest(ws, ids) == [ws[k].packet] + Oldest(Without(ws, k), ids[1..])
  {
    var k := FindWaiting(ws, ids[0]);
    UnderFirst(ws, ids[0]);
    forall i | 1 <= i < |ids| ensures Under(Without(ws, k), ids[i]) == Under(ws, ids[i]) {
      UnderWithout(ws, k, ids[i]);
    }
  }

  /** Packets that wait under ids that no older packet has are the ones taken. */
  lemma {:induction false} AnsweredApart(before: seq<Waiting>, since: seq<Waiting>)
    requires forall i, j :: 0 <= i < |before| && 0 <= j < |since| ==> before[i].msgId != since[j].msgId
    ensures Answered(before + since, Ids(since)) == before
    decreases |since|
  {
    if since == [] {
      assert before + since == before;
    } else {
      var ws := before + since;
      assert ws[|before|] == since[0] && Ids(since)[0] == since[0].msgId && Ids(since)[1..] == Ids(since[1..]);
      FirstOf(ws, since[0].msgId, |before|);
      assert Without(ws, |before|) == before + since[1..];
      AnsweredApart(before, since[1..]);
    }
  }

  lemma RegackHandled(s: State, msgId: nat)
    requires (s.status.Active? || s.status.Awake?) && s.counter <= 0xffff && s.events == []
    ensures Step(Step(s, Offer(ClientPacket(SnRegack(msgId)))), Handle) == HandleRegack(s, msgId)
  {
    var u := Step(s, Offer(ClientPacket(SnRegack(msgId))));
    assert u.events == [ClientPacket(SnRegack(msgId))] && u.events[1..] == [];
  }

  /** A REGACK that finds a packet sends it, and a held PINGREQ if no other packet waits by the eight-bit count. */
  lemma RegackEffect(s: State, msgId: nat, k: nat)
    requires (s.status.Active? || s.status.Awake?) && k == FindWaiting(s.waiting, msgId) < |s.waiting|
    ensures var t, u := HandleRegack(s, msgId), s.(waiting := Without(s.waiting, k));
            var v := Send(u, SnPub(s.waiting[k].packet));
            t == if s.hold && (|s.waiting| - 1) % 0x100 == 0 then SendBroker(v, Pingreq).(hold := false) else v
    ensures Pubs(HandleRegack(s, msgId).toClient) == Pubs(s.toClient) + [s.waiting[k].packet]
  {
    PubsSnoc(s.toClient, SnPub(s.waiting[k].packet));
  }

  lemma RegackTurn(s: State, msgId: nat, k: nat)
    requires (s.status.Active? || s.status.Awake?) && s.counter <= 0xffff && s.events == []
    requires k == FindWaiting(s.waiting, msgId) < |s.waiting|
    ensures var t := Step(Step(s, Offer(ClientPacket(SnRegack(msgId)))), Handle);
            var last := (|s.waiting| - 1) % 0x100 == 0;
            && t.waiting == Without(s.waiting, k) && t.status == s.status && t.events == [] && t.counter == s.counter
            && Pubs(t.toClient) == Pubs(s.toClient) + [s.waiting[k].packet]
            && Pings(t) == Pings(s) + (if s.hold && last then 1 else 0) && t.hold == (s.hold && !last)
  {
    RegackHandled(s, msgId);
    RegackEffect(s, msgId, k);
  }

  /** Each REGACK sends the oldest packet under its id; the one that makes the count 0 lets the held PINGREQ go. */
  ghost predicate Emptied(s: State, ids: seq<nat>, t: State)
    requires AllUsed(s.waiting, ids) && |ids| <= |s.waiting|
  {
    var zero := PassesZero(|s.waiting| - |ids|, |ids|);
    && t.waiting == Answered(s.waiting, ids) && Pubs(t.toClient) == Pubs(s.toClient) + Oldest(s.waiting, ids)
    && Pings(t) == Pings(s) + (if s.hold && zero then 1 else 0) && t.hold == (s.hold && !zero)
  }

  lemma {:induction false} AllRegacked(s: State, ids: seq<nat>)
    requires (s.status.Active? || s.status.Awake?) && s.counter <= 0xffff && s.events == []
    requires Distinct(ids) && AllUsed(s.waiting, ids)
    ensures |ids| <= |s.waiting| && Emptied(s, ids, Run(s, Regacks(ids)))
    decreases |ids|
  {
    if ids == [] {
      assert Pubs(s.toClient) + Oldest(s.waiting, ids) == Pubs(s.toClient);
    } else {
      var k, ack := FindWaiting(s.waiting, ids[0]), Offer(ClientPacket(SnRegack(ids[0])));
      var t := Step(Step(s, ack), Handle);
      FirstTakenOff(s.waiting, ids);
      RegackTurn(s, ids[0], k);
      RunTwo(s, ack, Handle, Regacks(ids[1..]));
      AllRegacked(t, ids[1..]);
      OneMore(s, t, Run(t, Regacks(ids[1..])), ids);
    }
  }

  lemma OneMore(s: State, t: State, u: State, ids: seq<nat>)
    requires ids != [] && Distinct(ids) && AllUsed(s.waiting, ids) && |ids| <= |s.waiting|
    requires AllUsed(t.waiting, ids[1..]) && |ids| - 1 <= |t.waiting| && Emptied(t, ids[1..], u)
    requires var k, last := FindWaiting(s.waiting, ids[0]), (|s.waiting| - 1) % 0x100 == 0;
             && k < |s.waiting| && t.waiting == Without(s.waiting, k)
             && Pubs(t.toClient) == Pubs(s.toClient) + [s.waiting[k].packet]
             && Pings(t) == Pings(s) + (if s.hold && last then 1 else 0) && t.hold == (s.hold && !last)
    ensures Emptied(s, ids, u)
  {
    var k := FindWaiting(s.waiting, ids[0]);
    PassesStep(|s.waiting| - |ids|, |ids|);
    FirstTakenOff(s.waiting, ids);
    Joined(Pubs(s.toClient), [s.waiting[k].packet], Oldest(t.waiting, ids[1..]), Oldest(s.waiting, ids));
  }

  lemma {:induction false} AcksNoPing(ps: seq<Publish>)
    ensures multiset(Acks(ps))[Pingreq] == 0
  {
    if ps != [] {
      AcksNoPing(ps[1..]);
      assert multiset(Acks(ps)) == multiset(AckOf(ps[0])) + multiset(Acks(ps[1..]));
    }
  }

  /** What has been put on the REGACK list since. */
  ghost function Since(s: State, t: State): seq<Waiting> {
    if |s.waiting| <= |t.waiting| then t.waiting[|s.waiting|..] else []
  }

  // ----- message ids of packets that wait

  /** The eight-bit message id that comes i places behind the next one. */
  function IdAt(m: nat, i: nat): nat {
    (m % 0x100 + i) % 0xff + 1
  }

  /** From index n on, message ids follow the counter that stood at m. */
  ghost predicate IdsFrom(ws: seq<Waiting>, n: nat, m: nat) {
    forall i :: n <= i < |ws| ==> ws[i].msgId == IdAt(m, i - n)
  }

  lemma SamePlace(m: nat, k: nat)
    ensures IdAt(IdAt(m, 0), k) == IdAt(m, k + 1)
  {
    var r := m % 0x100;
    assert (r % 0xff + 1 + k) % 0xff == (r + 1 + k) % 0xff;
  }

  lemma IdsBack(ws: seq<Waiting>, n: nat, m: nat)
    requires n < |ws| && ws[n].msgId == IdAt(m, 0) && IdsFrom(ws, n + 1, IdAt(m, 0))
    ensures IdsFrom(ws, n, m)
  {
    forall i | n <= i < |ws| ensures ws[i].msgId == IdAt(m, i - n) {
      if i > n {
        SamePlace(m, i - (n + 1));
      }
    }
  }

  lemma IdsDiffer(ws: seq<Waiting>, m: nat)
    requires IdsFrom(ws, 0, m) && |ws| <= 0xff
    ensures Distinct(Ids(ws))
  {
    forall i, j | 0 <= i < j < |ws| ensures Ids(ws)[i] != Ids(ws)[j] {
      assert ws[i].msgId == IdAt(m, i) && ws[j].msgId == IdAt(m, j);
    }
  }

  lemma ForwardedId(s: State, p: Publish)
    requires s.counter <= 0xffff
    ensures var u := Forwarded(s, p);
            || (u.waiting == s.waiting && u.snMsgId == s.snMsgId)
            || (&& |u.waiting| == |s.waiting| + 1 && s.waiting <= u.waiting
                && u.waiting[|s.waiting|].msgId == u.snMsgId == IdAt(s.snMsgId, 0))
  {
    NextIsIdAt(s.snMsgId);
  }

  lemma NextIsIdAt(m: nat)
    ensures NextSnMsgId(m) == IdAt(m, 0)
  {
    assert (m + 1) % 0x100 == (m % 0x100 + 1) % 0x100;
  }

  lemma {:induction false} WaitIds(s: State, ps: seq<Publish>)
    requires s.counter <= 0xffff
    ensures var ws := After(s, ps).waiting; s.waiting <= ws && IdsFrom(ws, |s.waiting|, s.snMsgId)
    decreases |ps|
  {
    if ps != [] {
      var u, ws := Forwarded(s, ps[0]), After(s, ps).waiting;
      ForwardedId(s, ps[0]);
      WaitIds(u, ps[1..]);
      if u.waiting != s.waiting {
        assert ws[|s.waiting|] == u.waiting[|s.waiting|];
        IdsBack(ws, |s.waiting|, s.snMsgId);
      }
    }
  }

  /** The registry bounds how many packets are made to wait. */
  lemma {:induction false} FewTopics(s: State, ps: seq<Publish>)
    requires s.counter <= 0xffff
    ensures var n := |After(s, ps).topics|; n <= |s.topics| || n <= MAX_TOPIC_PAR_CLIENT
    decreases |ps|
  {
    if ps != [] {
      FewTopics(Forwarded(s, ps[0]), ps[1..]);
    }
  }

  lemma IdsOfRest(before: seq<Waiting>, since: seq<Waiting>, ws: seq<Waiting>, m: nat)
    requires ws == before + since && IdsFrom(ws, |before|, m)
    ensures IdsFrom(since, 0, m)
  {
    forall i | 0 <= i < |since| ensures since[i].msgId == IdAt(m, i) {
      assert since[i] == ws[|before| + i];
    }
  }

  // ----- the whole wake-up

  /** A client that may sleep has packets stored, and its PINGREQ is next. */
  ghost predicate Wakes(s: State, rest: seq<Event>) {
    && (s.status.Asleep? || s.status.Awake?) && s.counter <= 0xffff && s.sleeping != []
    && s.events == [ClientPacket(SnPingreq)] + rest && Quiet(rest)
  }

  /** The message ids of the packets that a wake-up makes wait are the next ones of the counter, all different. */
  lemma IdsSince(s: State, rest: seq<Event>)
    requires Wakes(s, rest)
    ensures var since := Since(s, Handled(s, rest));
            && |since| == |Pick(WakePackets(s, rest), WakeFates(s, rest), {Waits})| <= MAX_TOPIC_PAR_CLIENT
            && IdsFrom(since, 0, s.snMsgId) && Distinct(Ids(since))
  {
    var t := Handled(s, rest);
    WakeDelivers(s, rest);
    PartedIfDelivered(s, Woken(s, rest), WakePackets(s, rest), WakeFates(s, rest), t);
    WakeHandled(s, rest);
    FewTopics(Woken(s, rest), WakePackets(s, rest));
    WaitIds(Woken(s, rest), WakePackets(s, rest));
    IdsOfRest(s.waiting, Since(s, t), t.waiting, s.snMsgId);
    IdsDiffer(Since(s, t), s.snMsgId);
  }

  /** PINGREQ, everything in the event queue, then the REGACKs for what waits since. */
  ghost function WholeWake(s: State, rest: seq<Event>): State
    requires s.counter <= 0xffff
  {
    Run(Handled(s, rest), Regacks(Ids(Since(s, Handled(s, rest)))))
  }

  /** What a wake-up has done when its events have been handled, and before any REGACK. */
  ghost predicate Parted(s: State, ps: seq<Publish>, fs: seq<Fate>, t: State)
    requires |ps| == |fs|
  {
    && AllResolved(t.topics, Pick(ps, fs, {AtOnce})) && AllResolved(t.topics, Pick(ps, fs, {Waits}))
    && Pubs(t.toClient) == Pubs(s.toClient) + Refs(t.topics, Pick(ps, fs, {AtOnce}))
    && Packets(Since(s, t)) == Refs(t.topics, Pick(ps, fs, {Waits}))
    && t.waiting == s.waiting + Since(s, t) && Pings(t) == Pings(s)
  }

  lemma PacketsSince(s: State, t: State, refs: seq<SnPublish>)
    requires s.waiting <= t.waiting && Packets(t.waiting) == Packets(s.waiting) + refs
    ensures Packets(Since(s, t)) == refs && t.waiting == s.waiting + Since(s, t)
  {
    assert Packets(t.waiting)[|s.waiting|..] == Packets(Since(s, t));
  }

  lemma AcksPings(before: seq<ToBroker>, ps: seq<Publish>)
    ensures multiset(before + Acks(ps))[Pingreq] == multiset(before)[Pingreq]
  {
    AcksNoPing(ps);
    assert multiset(before + Acks(ps)) == multiset(before) + multiset(Acks(ps));
  }

  lemma PartedIfDelivered(s: State, w: State, ps: seq<Publish>, fs: seq<Fate>, t: State)
    requires |ps| == |fs| && Delivers(w, ps, fs, t)
    requires (w.toClient, w.toBroker, w.waiting) == (s.toClient, s.toBroker, s.waiting)
    ensures Parted(s, ps, fs, t)
  {
    AcksPings(s.toBroker, Pick(ps, fs, {Unwanted}));
    PacketsSince(s, t, Refs(t.topics, Pick(ps, fs, {Waits})));
  }

  /** Every packet that waits since waits under its own id, behind the older ones under that id. */
  lemma UnderSince(before: seq<Waiting>, since: seq<Waiting>, k: nat)
    requires k < |since| && Distinct(Ids(since))
    ensures Under(before + since, since[k].msgId) == Under(before, since[k].msgId) + [since[k]]
  {
    var m := since[k].msgId;
    UnderAppend(before, since, m);
    UnderSplit(since, k, m);
    assert Ids(since)[k] == m && forall j :: 0 <= j < |since| ==> Ids(since)[j] == since[j].msgId;
    UnderNone(since[..k], m);
    UnderNone(since[k + 1..], m);
  }

  /** What the REGACK for the k-th packet that waits since sends. */
  ghost function AnswerTo(s: State, since: seq<Waiting>, k: nat): SnPublish
    requires k < |since|
  {
    var older := Under(s.waiting, since[k].msgId);
    if older == [] then since[k].packet else older[0].packet
  }

  lemma OldestSince(s: State, since: seq<Waiting>)
    requires Distinct(Ids(since))
    ensures AllUsed(s.waiting + since, Ids(since))
    ensures Oldest(s.waiting + since, Ids(since)) == seq(|since|, k requires 0 <= k < |since| => AnswerTo(s, since, k))
  {
    forall k | 0 <= k < |since|
      ensures Under(s.waiting + since, Ids(since)[k]) != []
              && Under(s.waiting + since, Ids(since)[k])[0].packet == AnswerTo(s, since, k)
    {
      UnderSince(s.waiting, since, k);
    }
  }

  lemma WakeWaits(s: State, rest: seq<Event>)
    requires Wakes(s, rest)
    ensures var t := Handled(s, rest);
            var ids := Ids(Since(s, t));
            && Parted(s, WakePackets(s, rest), WakeFates(s, rest), t) && t.hold
            && AllUsed(t.waiting, ids) && |ids| <= |t.waiting| && Emptied(t, ids, WholeWake(s, rest))
  {
    var t := Handled(s, rest);
    WakeDelivers(s, rest);
    PartedIfDelivered(s, Woken(s, rest), WakePackets(s, rest), WakeFates(s, rest), t);
    IdsSince(s, rest);
    OldestSince(s, Since(s, t));
    AllRegacked(t, Ids(Since(s, t)));
  }

  /** No packet waits under one of the next n message ids. */
  ghost predicate FreeIds(s: State, n: nat) {
    forall i, j :: 0 <= i < |s.waiting| && 0 <= j < n ==> s.waiting[i].msgId != IdAt(s.snMsgId, j)
  }

  lemma FreeIff(s: State, since: seq<Waiting>)
    requires IdsFrom(since, 0, s.snMsgId)
    ensures FreeIds(s, |since|) <==> forall k :: 0 <= k < |since| ==> Under(s.waiting, since[k].msgId) == []
  {
    forall k | 0 <= k < |since|
      ensures Under(s.waiting, since[k].msgId) == [] <==>
              forall i :: 0 <= i < |s.waiting| ==> s.waiting[i].msgId != IdAt(s.snMsgId, k)
    {
      UnderNone(s.waiting, since[k].msgId);
    }
    if !FreeIds(s, |since|) {
      var i, k :| 0 <= i < |s.waiting| && 0 <= k < |since| && s.waiting[i].msgId == IdAt(s.snMsgId, k);
      assert Under(s.waiting, since[k].msgId) != [];
    }
  }

  /**
   What the REGACKs of a wake-up send, whatever waits from before: each the oldest packet that waits under its message
   id, or its own if there is none, and under every id the queue has moved up by one exactly where one of them came.
   All send their own if and only if the next message ids are free.
   */
  lemma WakeAnswers(s: State, rest: seq<Event>)
    requires Wakes(s, rest)
    ensures var t, u := Handled(s, rest), WholeWake(s, rest);
            var since := Since(s, t);
            && Pubs(u.toClient) == Pubs(t.toClient) + seq(|since|, k requires 0 <= k < |since| => AnswerTo(s, since, k))
            && (forall k :: 0 <= k < |since| ==>
                              Under(u.waiting, since[k].msgId) == (Under(s.waiting, since[k].msgId) + [since[k]])[1..])
            && (forall m :: m !in Ids(since) ==> Under(u.waiting, m) == Under(t.waiting, m))
            && (FreeIds(s, |since|) <==> forall k :: 0 <= k < |since| ==> Under(s.waiting, since[k].msgId) == [])
  {
    WakeWaits(s, rest);
    IdsSince(s, rest);
    FreeIff(s, Since(s, Handled(s, rest)));
    OldestSince(s, Since(s, Handled(s, rest)));
    QueuesMoved(s.waiting, Since(s, Handled(s, rest)));
  }

  lemma QueuesMoved(before: seq<Waiting>, since: seq<Waiting>)
    requires Distinct(Ids(since)) && AllUsed(before + since, Ids(since))
    ensures var ws, ids := before + since, Ids(since);
            && (forall k :: 0 <= k < |since| ==>
                    Under(Answered(ws, ids), since[k].msgId) == (Under(before, since[k].msgId) + [since[k]])[1..])
            && (forall m :: m !in ids ==> Under(Answered(ws, ids), m) == Under(ws, m))
  {
    var ws, ids := before + since, Ids(since);
    forall k | 0 <= k < |since|
      ensures Under(Answered(ws, ids), since[k].msgId) == (Under(before, since[k].msgId) + [since[k]])[1..]
    {
      assert ids[k] == since[k].msgId;
      AnsweredUnder(ws, ids, since[k].msgId);
      UnderSince(before, since, k);
    }
    forall m | m !in ids ensures Under(Answered(ws, ids), m) == Under(ws, m) {
      AnsweredUnder(ws, ids, m);
    }
  }

  /**
   With the next message ids free, every packet that is not lost reaches the client, in the delivery order, and
   nothing new is left waiting. That order is the one in which they stood in the queues if and only if none is sent at
   once behind one that must wait.
   */
  lemma WakeCompletes(s: State, rest: seq<Event>)
    requires Wakes(s, rest)
    requires FreeIds(s, |Pick(WakePackets(s, rest), WakeFates(s, rest), {Waits})|)
    ensures var u, es, order := WholeWake(s, rest), Handled(s, rest).topics, DeliveryOrder(WakeFates(s, rest));
            && u.waiting == s.waiting && Pubs(s.toClient) <= Pubs(u.toClient)
            && Gets(es, WakePackets(s, rest), order, Pubs(u.toClient)[|Pubs(s.toClient)|..])
            && (Increasing(order) <==> NoOvertaking(WakeFates(s, rest)))
  {
    var t := Handled(s, rest);
    WakeWaits(s, rest);
    IdsSince(s, rest);
    InOrderIff(WakeFates(s, rest));
    OwnAnswers(s, Since(s, t));
    Got(s, t, WholeWake(s, rest), WakePackets(s, rest), WakeFates(s, rest));
  }

  lemma OwnAnswers(s: State, since: seq<Waiting>)
    requires Distinct(Ids(since)) && IdsFrom(since, 0, s.snMsgId) && FreeIds(s, |since|)
    ensures AllUsed(s.waiting + since, Ids(since)) && Oldest(s.waiting + since, Ids(since)) == Packets(since)
    ensures Answered(s.waiting + since, Ids(since)) == s.waiting
  {
    OldestSince(s, since);
    AnsweredApart(s.waiting, since);
    FreeIff(s, since);
  }

  lemma Got(s: State, t: State, u: State, ps: seq<Publish>, fs: seq<Fate>)
    requires |ps| == |fs| && Parted(s, ps, fs, t) && Pubs(u.toClient) == Pubs(t.toClient) + Packets(Since(s, t))
    ensures Pubs(s.toClient) <= Pubs(u.toClient)
    ensures Gets(t.topics, ps, DeliveryOrder(fs), Pubs(u.toClient)[|Pubs(s.toClient)|..])
  {
    var now, later := Refs(t.topics, Pick(ps, fs, {AtOnce})), Packets(Since(s, t));
    GetsPicked(t.topics, ps, fs, {AtOnce});
    GetsPicked(t.topics, ps, fs, {Waits});
    GetsJoined(t.topics, ps, Positions(fs, {AtOnce}, 0), now, Positions(fs, {Waits}, 0), later);
    Chain(Pubs(s.toClient), now, Pubs(t.toClient), later, Pubs(u.toClient), now + later);
    assert Pubs(u.toClient)[|Pubs(s.toClient)|..] == now + later;
  }

  /**
   The PINGREQ held by the wake-up goes to the broker in the course of it if and only if the REGACKs take the
   eight-bit count of waiting packets through 0; when none waits from before, if and only if some packet had to wait.
   Otherwise it is still held.
   */
  lemma WakePing(s: State, rest: seq<Event>)
    requires Wakes(s, rest)
    ensures var u, fs := WholeWake(s, rest), WakeFates(s, rest);
            var sent := PassesZero(|s.waiting|, |Pick(WakePackets(s, rest), fs, {Waits})|);
            && Pings(u) == Pings(s) + (if sent then 1 else 0) && u.hold == !sent
            && (s.waiting == [] ==> (sent <==> Waits in fs))
  {
    WakeWaits(s, rest);
    IdsSince(s, rest);
    WaitsPicked(WakePackets(s, rest), WakeFates(s, rest));
  }

  lemma {:induction false} WaitsPicked(ps: seq<Publish>, fs: seq<Fate>)
    requires |ps| == |fs|
    ensures Pick(ps, fs, {Waits}) == [] <==> Waits !in fs
    decreases |ps|
  {
    if ps != [] {
      WaitsPicked(ps[1..], fs[1..]);
      assert fs == [fs[0]] + fs[1..];
    }
  }

  // ----- an input where the order is lost

  /**
   Two packets on one subscribed topic without an id: the second is sent with the id that the first still registers.
   */
  lemma SecondIsSent(w: State, p: Publish, q: Publish)
    requires w.counter <= 0xffff && p.topic == q.topic && !Resolved(w.topics, p)
    requires Wanted(w.topics, p.topic) && |w.topics| < MAX_TOPIC_PAR_CLIENT
    ensures var t, m, id := After(w, [p, q]), NextSnMsgId(w.snMsgId), NextId(w.counter);
            && t.toClient == w.toClient + [Register(id, m, p.topic), SnPub(SnPublish(q.msg, Normal(id)))]
            && t.waiting == w.waiting + [Waiting(SnPublish(p.msg, Normal(id)), m)]
  {
    var u := Forwarded(w, p);
    AddedFound(w.topics, w.counter, p.topic);
    assert u == Registered(w, p) && Forwarded(u, q) == Send(u, SnPub(Resolve(u.topics, q)));
    assert [p, q][1..] == [q] && [q][1..] == [];
    assert After(w, [p, q]) == After(u, [q]) == Forwarded(u, q);
  }

  lemma BothTaken(s: State, p: Publish, q: Publish)
    requires s.sleeping == [p, q] && (s.maxEvents == 0 || s.maxEvents >= 2)
    ensures Taken(s, []) == WakePackets(s, []) == [p, q]
  {
    assert [p, q][..2] == [p, q] && [] + [p, q] == [p, q];
  }

  lemma ThreeTurns(s: State)
    requires s.counter <= 0xffff && |Taken(s, [])| == 2
    ensures Run(s, [Handle, Handle, Handle]) == Handled(s, [])
  {
    assert Turns(3) == [Handle, Handle, Handle];
  }

  lemma BothHandled(s: State, p: Publish, q: Publish)
    requires s.status.Asleep? && s.counter <= 0xffff && s.events == [ClientPacket(SnPingreq)] && s.sleeping == [p, q]
    requires s.maxEvents == 0 || s.maxEvents >= 2
    ensures Run(s, [Handle, Handle, Handle]) == After(Woken(s, []), [p, q])
  {
    BothTaken(s, p, q);
    ThreeTurns(s);
    assert s.events == [ClientPacket(SnPingreq)] + [];
    WakeHandled(s, []);
  }

  /** The same of two stored packets at a wake-up. */
  lemma SecondOvertakesFirst(s: State, p: Publish, q: Publish)
    requires s.status.Asleep? && s.counter <= 0xffff && s.events == [ClientPacket(SnPingreq)] && s.sleeping == [p, q]
    requires s.maxEvents == 0 || s.maxEvents >= 2
    requires p.topic == q.topic && !Resolved(s.topics, p) && Wanted(s.topics, p.topic)
            && |s.topics| < MAX_TOPIC_PAR_CLIENT
    ensures var t, m, id := Run(s, [Handle, Handle, Handle]), NextSnMsgId(s.snMsgId), NextId(s.counter);
            && t.toClient == s.toClient + [Register(id, m, p.topic), SnPub(SnPublish(q.msg, Normal(id)))]
            && t.waiting == s.waiting + [Waiting(SnPublish(p.msg, Normal(id)), m)]
  {
    BothHandled(s, p, q);
    SecondIsSent(Woken(s, []), p, q);
  }

  // ----- a whole sleep

  /** Publishes that come one by one, each handled before the next. */
  ghost function Arrivals(ps: seq<Publish>): seq<Action> {
    if ps == [] then [] else [Offer(BrokerPublish(ps[0])), Handle] + Arrivals(ps[1..])
  }

  lemma ArrivalStored(s: State, p: Publish)
    requires s.status.Asleep? && s.counter <= 0xffff && s.events == [] && |s.sleeping| < MAX_SAVED_PUBLISH
    ensures Step(Step(s, Offer(BrokerPublish(p))), Handle) ==
            s.(sleeping := s.sleeping + [p], offered := s.offered + [p.msg], toBroker := s.toBroker + AckOf(p))
  {
    var t := Step(s, Offer(BrokerPublish(p)));
    assert t.events == [BrokerPublish(p)] && t.events[1..] == s.events;
  }

  /** The state after packets have been stored. */
  ghost function Storing(s: State, ps: seq<Publish>): State {
    s.(sleeping := s.sleeping + ps, offered := s.offered + Messages(ps), toBroker := s.toBroker + Acks(ps))
  }

  lemma StoringOne(s: State, ps: seq<Publish>)
    requires ps != []
    ensures var t := s.(sleeping := s.sleeping + [ps[0]], offered := s.offered + [ps[0].msg],
                        toBroker := s.toBroker + AckOf(ps[0]));
            Storing(t, ps[1..]) == Storing(s, ps)
  {
    Joined(s.sleeping, [ps[0]], ps[1..], ps);
    Joined(s.offered, [ps[0].msg], Messages(ps[1..]), Messages(ps));
    Joined(s.toBroker, AckOf(ps[0]), Acks(ps[1..]), Acks(ps));
  }

  lemma {:induction false} ArrivalsStored(s: State, ps: seq<Publish>)
    requires s.status.Asleep? && s.counter <= 0xffff && s.events == [] && |s.sleeping| + |ps| <= MAX_SAVED_PUBLISH
    ensures Run(s, Arrivals(ps)) == Storing(s, ps)
    decreases |ps|
  {
    if ps == [] {
      assert s.offered + Messages([]) == s.offered;
    } else {
      var t := Step(Step(s, Offer(BrokerPublish(ps[0]))), Handle);
      ArrivalStored(s, ps[0]);
      RunTwo(s, Offer(BrokerPublish(ps[0])), Handle, Arrivals(ps[1..]));
      ArrivalsStored(t, ps[1..]);
      StoringOne(s, ps);
    }
  }

  lemma ByeHandled(s: State, duration: nat)
    requires s.status.Active? && s.counter <= 0xffff && s.events == [] && duration > 0
    ensures Step(Step(s, Offer(ClientPacket(SnBye(duration)))), Handle) ==
            s.(status := Asleep, toClient := s.toClient + [SnDisconnect])
  {
    var u := Step(s, Offer(ClientPacket(SnBye(duration))));
    assert u.events == [ClientPacket(SnBye(duration))] && u.events[1..] == s.events;
  }

  lemma GoodNight(s: State, duration: nat, acts: seq<Action>)
    requires s.status.Active? && s.counter <= 0xffff && s.events == [] && duration > 0
    ensures Run(s, [Offer(ClientPacket(SnBye(duration))), Handle] + acts) ==
            Run(s.(status := Asleep, toClient := s.toClient + [SnDisconnect]), acts)
  {
    RunTwo(s, Offer(ClientPacket(SnBye(duration))), Handle, acts);
    ByeHandled(s, duration);
  }

  /** The client asleep with its packets stored and its PINGREQ in the event queue. */
  ghost function Slept(s: State, ps: seq<Publish>): State {
    Storing(s.(status := Asleep, toClient := s.toClient + [SnDisconnect]), ps).(events := [ClientPacket(SnPingreq)])
  }

  /**
   DISCONNECT with a duration, publishes that arrive one by one, PINGREQ, and the turns it takes to handle what it
   brings.
   */
  ghost function Night(s: State, duration: nat, ps: seq<Publish>): seq<Action> {
    [Offer(ClientPacket(SnBye(duration))), Handle]
        + (Arrivals(ps) + ([Offer(ClientPacket(SnPingreq))] + Turns(1 + |Taken(Slept(s, ps), [])|)))
  }

  /**
   A whole sleep with up to 20 publishes on any topics: the broker gets its acknowledgements as they arrive; at the
   PINGREQ each packet that the event queue takes meets its fate by the client's topics and the names of the packets
   before it.
   */
  lemma SleepCycle(s: State, duration: nat, ps: seq<Publish>)
    requires s.status.Active? && s.counter <= 0xffff && s.events == [] && s.sleeping == [] && duration > 0
    requires 0 < |ps| <= MAX_SAVED_PUBLISH
    ensures Slept(s, ps).sleeping == ps && Slept(s, ps).toBroker == s.toBroker + Acks(ps)
    ensures Run(s, Night(s, duration, ps)) == Handled(Slept(s, ps), [])
    ensures Delivers(Woken(Slept(s, ps), []), WakePackets(Slept(s, ps), []), WakeFates(Slept(s, ps), []),
            Run(s, Night(s, duration, ps)))
  {
    var t := s.(status := Asleep, toClient := s.toClient + [SnDisconnect]);
    var v := Slept(s, ps);
    var ping, turns := Offer(ClientPacket(SnPingreq)), Turns(1 + |Taken(v, [])|);
    GoodNight(s, duration, Arrivals(ps) + ([ping] + turns));
    RunAppend(t, Arrivals(ps), [ping] + turns);
    ArrivalsStored(t, ps);
    PingreqOffered(Storing(t, ps), turns);
    assert v.events == [ClientPacket(SnPingreq)] + [];
    WakeDelivers(v, []);
  }

  lemma PingreqOffered(s: State, turns: seq<Action>)
    requires s.counter <= 0xffff && s.events == []
    ensures Run(s, [Offer(ClientPacket(SnPingreq))] + turns) == Run(s.(events := [ClientPacket(SnPingreq)]), turns)
  {
    assert ([Offer(ClientPacket(SnPingreq))] + turns)[1..] == turns;
    assert s.events + [ClientPacket(SnPingreq)] == [ClientPacket(SnPingreq)];
  }
}
