/**
 What a sleeping client gets when it wakes: which stored packets are sent at once, which wait for a REGACK, which are
 lost, and when the order in which they were stored survives.
 */
module WakeUp {
  import opened ClientRuns
  import opened Sequences
  import opened SleepPath
  import opened TopicRegistry

  // ----- draining the sleep queue

  ghost function AsEvents(ps: seq<Publish>): seq<Event> {
    seq(|ps|, i requires 0 <= i < |ps| => BrokerPublish(ps[i]))
  }

  ghost function Messages(ps: seq<Publish>): seq<Message> {
    seq(|ps|, i requires 0 <= i < |ps| => ps[i].msg)
  }

  /** How many stored packets the event queue still takes. */
  ghost function Room(s: State): nat {
    if s.maxEvents == 0 || |s.events| + |s.sleeping| <= s.maxEvents then |s.sleeping|
    else if |s.events| <= s.maxEvents then s.maxEvents - |s.events|
    else 0
  }

  /** What the event queue takes of the sleep queue goes there in order; the rest is discarded. */
  ghost function Drained(s: State): State {
    s.(sleeping := [], events := s.events + AsEvents(s.sleeping[..Room(s)]),
       discarded := s.discarded + Messages(s.sleeping[Room(s)..]))
  }

  /** The loop empties the sleep queue, oldest packet first. */
  lemma {:induction false} StoredInOrder(s: State)
    ensures SendStored(s) == Drained(s)
    decreases |s.sleeping|
  {
    if s.sleeping == [] {
      assert s.events + AsEvents([]) == s.events && s.discarded + Messages([]) == s.discarded;
    } else {
      StoredInOrder(Post(s, BrokerPublish(s.sleeping[0])).(sleeping := s.sleeping[1..]));
      if Room(s) == 0 {
        NoneTaken(s);
      } else {
        FirstTaken(s);
      }
    }
  }

  lemma FirstTaken(s: State)
    requires s.sleeping != [] && Room(s) > 0
    ensures Drained(Post(s, BrokerPublish(s.sleeping[0])).(sleeping := s.sleeping[1..])) == Drained(s)
  {
    var t, n := Post(s, BrokerPublish(s.sleeping[0])).(sleeping := s.sleeping[1..]), Room(s);
    assert Room(t) == n - 1;
    SplitFirst(s.sleeping, n);
    Joined(s.events, [BrokerPublish(s.sleeping[0])], AsEvents(t.sleeping[..n - 1]), AsEvents(s.sleeping[..n]));
  }

  lemma NoneTaken(s: State)
    requires s.sleeping != [] && Room(s) == 0
    ensures Drained(Post(s, BrokerPublish(s.sleeping[0])).(sleeping := s.sleeping[1..])) == Drained(s)
  {
    var t := Post(s, BrokerPublish(s.sleeping[0])).(sleeping := s.sleeping[1..]);
    assert Room(t) == 0;
    SplitFirst(s.sleeping, 0);
    Joined(s.discarded, [s.sleeping[0].msg], Messages(t.sleeping), Messages(s.sleeping[0..]));
    assert t.sleeping[0..] == t.sleeping && AsEvents(t.sleeping[..0]) == [];
  }

  lemma SplitFirst(ps: seq<Publish>, k: nat)
    requires ps != [] && k <= |ps|
    ensures k > 0 ==> AsEvents(ps[..k]) == [BrokerPublish(ps[0])] + AsEvents(ps[1..][..k - 1])
    ensures k > 0 ==> ps[k..] == ps[1..][k - 1..]
    ensures k == 0 ==> AsEvents(ps[..k]) == [] && Messages(ps[k..]) == [ps[0].msg] + Messages(ps[1..])
  {
  }

  // ----- turns of the packet task

  ghost function Turns(n: nat): seq<Action> {
    if n == 0 then [] else [Handle] + Turns(n - 1)
  }

  lemma {:induction false} RunAppend(s: State, xs: seq<Action>, ys: seq<Action>)
    requires s.counter <= 0xffff
    ensures Run(s, xs + ys) == Run(Run(s, xs), ys)
    decreases |xs|
  {
    if xs == [] {
      assert xs + ys == ys;
    } else {
      RunAppend(Step(s, xs[0]), xs[1..], ys);
      assert (xs + ys)[1..] == xs[1..] + ys;
    }
  }

  // ----- what becomes of a packet

  datatype Fate = AtOnce | Waits | Unwanted | NoRoom

  /** Some topic stands for the name, or was registered for it since. */
  ghost predicate Named(es: seq<Entry>, names: seq<string>, t: string) {
    ByName(es, t) < |es| || t in names
  }

  ghost predicate WantedBy(es: seq<Entry>, names: seq<string>, t: string) {
    Wanted(es, t) || exists n :: n in names && IsFilterOf(n, t)
  }

  /** The fate of a PUBLISH on topic t to a client with these topics, after names have been registered in addition. */
  ghost function FateOf(es: seq<Entry>, clean: bool, names: seq<string>, t: string): Fate {
    if |t| <= 2 || Named(es, names, t) then AtOnce
    else if clean && !WantedBy(es, names, t) then Unwanted
    else if |es| + |names| >= MAX_TOPIC_PAR_CLIENT then NoRoom
    else Waits
  }

  ghost function Fates(es: seq<Entry>, clean: bool, names: seq<string>, ps: seq<Publish>): (fs: seq<Fate>)
    ensures |fs| == |ps|
    decreases |ps|
  {
    if ps == [] then []
    else
      var f := FateOf(es, clean, names, ps[0].topic);
      [f] + Fates(es, clean, if f.Waits? then names + [ps[0].topic] else names, ps[1..])
  }

  /** The packets with one of some fates, in their order. */
  ghost function Pick(ps: seq<Publish>, fs: seq<Fate>, keep: set<Fate>): seq<Publish>
    requires |ps| == |fs|
    decreases |ps|
  {
    if ps == [] then [] else (if fs[0] in keep then [ps[0]] else []) + Pick(ps[1..], fs[1..], keep)
  }

  /** The topics es with names behind them. */
  ghost predicate Grown(es: seq<Entry>, names: seq<string>, es': seq<Entry>) {
    && |es'| == |es| + |names| && es <= es'
    && forall k :: 0 <= k < |names| ==> es'[|es| + k].name == names[k]
  }

  lemma GrownNames(es: seq<Entry>, names: seq<string>, es': seq<Entry>, t: string)
    requires Grown(es, names, es')
    ensures ByName(es', t) < |es'| <==> Named(es, names, t)
    ensures Wanted(es', t) <==> WantedBy(es, names, t)
  {
    if ByName(es, t) < |es| {
      assert es'[ByName(es, t)].name == t;
    }
    if t in names {
      var k :| 0 <= k < |names| && names[k] == t;
      assert es'[|es| + k].name == t;
    }
    if ByName(es', t) < |es'| && ByName(es', t) >= |es| {
      assert names[ByName(es', t) - |es|] == t;
    }
    GrownWanted(es, names, es', t);
  }

  lemma GrownWanted(es: seq<Entry>, names: seq<string>, es': seq<Entry>, t: string)
    requires Grown(es, names, es')
    ensures Wanted(es', t) <==> WantedBy(es, names, t)
  {
    if Wanted(es', t) {
      var i :| 0 <= i < |es'| && IsFilterOf(es'[i].name, t);
      if i < |es| {
        assert es[i] in es;
      } else {
        assert names[i - |es|] in names;
      }
    }
    if Wanted(es, t) {
      var i :| 0 <= i < |es| && IsFilterOf(es[i].name, t);
      assert es'[i] in es';
    }
    if exists n :: n in names && IsFilterOf(n, t) {
      var k :| 0 <= k < |names| && IsFilterOf(names[k], t);
      assert es'[|es| + k] in es';
    }
  }

  /** More topics do not change what a resolved topic stands for. */
  lemma ResolveStable(es: seq<Entry>, es': seq<Entry>, p: Publish)
    requires es <= es' && Resolved(es, p)
    ensures Resolved(es', p) && Resolve(es', p) == Resolve(es, p)
  {
    if |p.topic| > 2 {
      var i := ByName(es, p.topic);
      assert es'[i] == es[i] && forall j :: 0 <= j < i ==> es'[j] == es[j];
    }
  }

  /** The packets as the client gets them, by the topics at the end. */
  ghost function Refs(es: seq<Entry>, ps: seq<Publish>): (rs: seq<SnPublish>)
    requires forall i :: 0 <= i < |ps| ==> Resolved(es, ps[i])
    ensures |rs| == |ps| && forall i :: 0 <= i < |ps| ==> rs[i] == Resolve(es, ps[i])
  {
    seq(|ps|, i requires 0 <= i < |ps| => Resolve(es, ps[i]))
  }

  ghost function Packets(ws: seq<Waiting>): (rs: seq<SnPublish>)
    ensures |rs| == |ws| && forall i :: 0 <= i < |ws| ==> rs[i] == ws[i].packet
  {
    seq(|ws|, i requires 0 <= i < |ws| => ws[i].packet)
  }

  ghost predicate AllResolved(es: seq<Entry>, ps: seq<Publish>) {
    forall i :: 0 <= i < |ps| ==> Resolved(es, ps[i])
  }

  /** The state after packets have been forwarded one by one. */
  ghost function After(s: State, ps: seq<Publish>): (t: State)
    requires s.counter <= 0xffff
    ensures t.counter <= 0xffff
    decreases |ps|
  {
    if ps == [] then s else After(Forwarded(s, ps[0]), ps[1..])
  }

  ghost function Acks(ps: seq<Publish>): seq<ToBroker> {
    if ps == [] then [] else AckOf(ps[0]) + Acks(ps[1..])
  }

  ghost predicate SameRest(s: State, t: State) {
    && (t.status, t.clean, t.hold, t.events, t.maxEvents) == (s.status, s.clean, s.hold, s.events, s.maxEvents)
    && (t.sleeping, t.offered) == (s.sleeping, s.offered)
  }

  /** Forwarding packets with these fates leads from one state to another. */
  ghost predicate Delivers(s: State, ps: seq<Publish>, fs: seq<Fate>, t: State)
    requires |ps| == |fs|
  {
    && SameRest(s, t) && s.topics <= t.topics
    && AllResolved(t.topics, Pick(ps, fs, {AtOnce})) && AllResolved(t.topics, Pick(ps, fs, {Waits}))
    && Pubs(t.toClient) == Pubs(s.toClient) + Refs(t.topics, Pick(ps, fs, {AtOnce}))
    && s.waiting <= t.waiting && Packets(t.waiting) == Packets(s.waiting) + Refs(t.topics, Pick(ps, fs, {Waits}))
    && t.discarded == s.discarded + Messages(Pick(ps, fs, {Unwanted, NoRoom}))
    && t.toBroker == s.toBroker + Acks(Pick(ps, fs, {Unwanted}))
  }

  lemma PickOne(p: Publish, f: Fate, keep: set<Fate>)
    ensures Pick([p], [f], keep) == if f in keep then [p] else []
  {
    assert [p][1..] == [] && [f][1..] == [];
  }

  lemma AcksOne(p: Publish)
    ensures Acks([p]) == AckOf(p) && Messages([p]) == [p.msg]
  {
    assert [p][1..] == [];
  }

  lemma PicksOne(p: Publish, f: Fate)
    ensures Pick([p], [f], {AtOnce}) == if f.AtOnce? then [p] else []
    ensures Pick([p], [f], {Waits}) == if f.Waits? then [p] else []
    ensures Pick([p], [f], {Unwanted, NoRoom}) == if f.Unwanted? || f.NoRoom? then [p] else []
    ensures Pick([p], [f], {Unwanted}) == if f.Unwanted? then [p] else []
  {
    PickOne(p, f, {AtOnce});
    PickOne(p, f, {Waits});
    PickOne(p, f, {Unwanted, NoRoom});
    PickOne(p, f, {Unwanted});
  }

  lemma Nothing(s: State, es: seq<Entry>)
    ensures s.discarded + Messages([]) == s.discarded && s.toBroker + Acks([]) == s.toBroker
    ensures Pubs(s.toClient) + Refs(es, []) == Pubs(s.toClient)
    ensures Packets(s.waiting) + Refs(es, []) == Packets(s.waiting)
  {
  }

  lemma OneAtOnce(s: State, p: Publish)
    requires s.counter <= 0xffff && Resolved(s.topics, p)
    ensures Delivers(s, [p], [AtOnce], Forwarded(s, p))
  {
    PubsSnoc(s.toClient, SnPub(Resolve(s.topics, p)));
    SentOnly(s, p, Forwarded(s, p));
  }

  ghost predicate Sends(s: State, p: Publish, t: State) {
    && SameRest(s, t) && t.topics == s.topics && t.waiting == s.waiting && Resolved(t.topics, p)
    && Pubs(t.toClient) == Pubs(s.toClient) + Refs(t.topics, [p])
    && t.discarded == s.discarded && t.toBroker == s.toBroker
  }

  lemma SentOnly(s: State, p: Publish, t: State)
    requires Sends(s, p, t)
    ensures Delivers(s, [p], [AtOnce], t)
  {
    PicksOne(p, AtOnce);
    Nothing(s, s.topics);
  }

  lemma OneLost(s: State, p: Publish, f: Fate)
    requires f.Unwanted? || f.NoRoom?
    ensures Delivers(s, [p], [f], if f.Unwanted? then Acknowledged(Discard(s, p), p) else Discard(s, p))
  {
    PicksOne(p, f);
    AcksOne(p);
    Nothing(s, s.topics);
  }

  lemma OneWaits(s: State, p: Publish)
    requires s.counter <= 0xffff && ByName(s.topics, p.topic) == |s.topics| < MAX_TOPIC_PAR_CLIENT && |p.topic| > 2
    ensures Delivers(s, [p], [Waits], Registered(s, p))
  {
    WaitsRefs(s, p);
    WaitsOnly(s, p, Registered(s, p));
  }

  ghost predicate Parks(s: State, p: Publish, t: State) {
    && SameRest(s, t) && s.topics <= t.topics && s.waiting <= t.waiting && Resolved(t.topics, p)
    && Pubs(t.toClient) == Pubs(s.toClient) && Packets(t.waiting) == Packets(s.waiting) + Refs(t.topics, [p])
    && t.discarded == s.discarded && t.toBroker == s.toBroker
  }

  lemma WaitsOnly(s: State, p: Publish, t: State)
    requires Parks(s, p, t)
    ensures Delivers(s, [p], [Waits], t)
  {
    PicksOne(p, Waits);
    Nothing(s, t.topics);
  }

  /** The packet that waits, by the topics with its name among them. */
  lemma WaitsRefs(s: State, p: Publish)
    requires s.counter <= 0xffff && ByName(s.topics, p.topic) == |s.topics| < MAX_TOPIC_PAR_CLIENT && |p.topic| > 2
    ensures Parks(s, p, Registered(s, p))
  {
    AddedFound(s.topics, s.counter, p.topic);
    var t := Registered(s, p);
    PubsSnoc(s.toClient, t.toClient[|s.toClient|]);
    assert Refs(t.topics, [p]) == [t.waiting[|s.waiting|].packet];
  }

  lemma PickSplit(ps: seq<Publish>, fs: seq<Fate>, keep: set<Fate>)
    requires |ps| == |fs| && ps != []
    ensures Pick(ps, fs, keep) == Pick(ps[..1], fs[..1], keep) + Pick(ps[1..], fs[1..], keep)
  {
    PickOne(ps[0], fs[0], keep);
    assert ps[..1] == [ps[0]] && fs[..1] == [fs[0]];
  }

  lemma {:induction false} AcksAppend(xs: seq<Publish>, ys: seq<Publish>)
    ensures Acks(xs + ys) == Acks(xs) + Acks(ys)
  {
    if xs == [] {
      assert xs + ys == ys;
    } else {
      AcksAppend(xs[1..], ys);
      var zs := xs + ys;
      assert zs[0] == xs[0] && zs[1..] == xs[1..] + ys;
      Joined(AckOf(xs[0]), Acks(xs[1..]), Acks(ys), Acks(zs[1..]));
    }
  }

  lemma RefsJoin(es: seq<Entry>, es': seq<Entry>, xs: seq<Publish>, ys: seq<Publish>)
    requires es <= es' && AllResolved(es, xs) && AllResolved(es', ys)
    ensures AllResolved(es', xs + ys) && Refs(es', xs + ys) == Refs(es, xs) + Refs(es', ys)
  {
    forall i | 0 <= i < |xs| ensures Resolved(es', xs[i]) && Resolve(es', xs[i]) == Resolve(es, xs[i]) {
      ResolveStable(es, es', xs[i]);
    }
  }

  lemma Chain<T>(a: seq<T>, x: seq<T>, b: seq<T>, y: seq<T>, c: seq<T>, whole: seq<T>)
    requires b == a + x && c == b + y && whole == x + y
    ensures c == a + whole
  {
  }

  lemma LossesJoin(a: seq<Message>, b: seq<Message>, c: seq<Message>, ps: seq<Publish>, fs: seq<Fate>, keep: set<Fate>)
    requires |ps| == |fs| && ps != []
    requires b == a + Messages(Pick(ps[..1], fs[..1], keep)) && c == b + Messages(Pick(ps[1..], fs[1..], keep))
    ensures c == a + Messages(Pick(ps, fs, keep))
  {
    var xs, ys := Pick(ps[..1], fs[..1], keep), Pick(ps[1..], fs[1..], keep);
    PickSplit(ps, fs, keep);
    assert Messages(xs + ys) == Messages(xs) + Messages(ys);
    Chain(a, Messages(xs), b, Messages(ys), c, Messages(xs + ys));
  }

  lemma AcksJoin(a: seq<ToBroker>, b: seq<ToBroker>, c: seq<ToBroker>, ps: seq<Publish>, fs: seq<Fate>, keep: set<Fate>)
    requires |ps| == |fs| && ps != []
    requires b == a + Acks(Pick(ps[..1], fs[..1], keep)) && c == b + Acks(Pick(ps[1..], fs[1..], keep))
    ensures c == a + Acks(Pick(ps, fs, keep))
  {
    var xs, ys := Pick(ps[..1], fs[..1], keep), Pick(ps[1..], fs[1..], keep);
    PickSplit(ps, fs, keep);
    AcksAppend(xs, ys);
    Chain(a, Acks(xs), b, Acks(ys), c, Acks(xs + ys));
  }

  /** The same for packets sent at once and packets that wait, by the topics at the end. */
  lemma RefsChain(a: seq<SnPublish>, b: seq<SnPublish>, c: seq<SnPublish>, es: seq<Entry>, es': seq<Entry>,
                  ps: seq<Publish>, fs: seq<Fate>, keep: set<Fate>)
    requires |ps| == |fs| && ps != [] && es <= es'
    requires AllResolved(es, Pick(ps[..1], fs[..1], keep)) && AllResolved(es', Pick(ps[1..], fs[1..], keep))
    requires b == a + Refs(es, Pick(ps[..1], fs[..1], keep)) && c == b + Refs(es', Pick(ps[1..], fs[1..], keep))
    ensures AllResolved(es', Pick(ps, fs, keep)) && c == a + Refs(es', Pick(ps, fs, keep))
  {
    var xs, ys := Pick(ps[..1], fs[..1], keep), Pick(ps[1..], fs[1..], keep);
    PickSplit(ps, fs, keep);
    RefsJoin(es, es', xs, ys);
    Chain(a, Refs(es, xs), b, Refs(es', ys), c, Refs(es', xs + ys));
  }

  lemma DeliversJoin(s: State, u: State, t: State, ps: seq<Publish>, fs: seq<Fate>)
    requires |ps| == |fs| && ps != []
    requires Delivers(s, ps[..1], fs[..1], u) && Delivers(u, ps[1..], fs[1..], t)
    ensures Delivers(s, ps, fs, t)
  {
    LossesJoin(s.discarded, u.discarded, t.discarded, ps, fs, {Unwanted, NoRoom});
    AcksJoin(s.toBroker, u.toBroker, t.toBroker, ps, fs, {Unwanted});
    RefsChain(Pubs(s.toClient), Pubs(u.toClient), Pubs(t.toClient), u.topics, t.topics, ps, fs, {AtOnce});
    RefsChain(Packets(s.waiting), Packets(u.waiting), Packets(t.waiting), u.topics, t.topics, ps, fs, {Waits});
  }

  /** What a fate means in the handler. */
  lemma FateDecides(s: State, p: Publish, es: seq<Entry>, names: seq<string>)
    requires s.counter <= 0xffff && Grown(es, names, s.topics)
    ensures match FateOf(es, s.clean, names, p.topic)
            case AtOnce => Resolved(s.topics, p)
            case Unwanted => Forwarded(s, p) == Acknowledged(Discard(s, p), p)
            case NoRoom => Forwarded(s, p) == Discard(s, p)
            case Waits =>
              |p.topic| > 2 && ByName(s.topics, p.topic) == |s.topics| < MAX_TOPIC_PAR_CLIENT
                  && Forwarded(s, p) == Registered(s, p)
  {
    GrownNames(es, names, s.topics, p.topic);
  }

  /** One packet meets its fate. */
  lemma FateMet(s: State, p: Publish, es: seq<Entry>, names: seq<string>)
    requires s.counter <= 0xffff && Grown(es, names, s.topics)
    ensures var f, t := FateOf(es, s.clean, names, p.topic), Forwarded(s, p);
            Delivers(s, [p], [f], t) && Grown(es, if f.Waits? then names + [p.topic] else names, t.topics)
  {
    FateDecides(s, p, es, names);
    match FateOf(es, s.clean, names, p.topic)
    case AtOnce => OneAtOnce(s, p);
    case Unwanted => OneLost(s, p, Unwanted);
    case NoRoom => OneLost(s, p, NoRoom);
    case Waits =>
      OneWaits(s, p);
      GrownMore(es, names, s.topics, p.topic, s.counter);
  }

  lemma GrownMore(es: seq<Entry>, names: seq<string>, es': seq<Entry>, name: string, counter: nat)
    requires counter <= 0xffff && Grown(es, names, es') && ByName(es', name) == |es'| < MAX_TOPIC_PAR_CLIENT
    ensures Grown(es, names + [name], Added(es', counter, name, 0).0)
  {
    AddedFound(es', counter, name);
  }

  /** All packets meet theirs: what goes to the client, to the REGACK list, to the ledger and to the broker. */
  lemma {:induction false} FatesMet(s: State, ps: seq<Publish>, es: seq<Entry>, names: seq<string>)
    requires s.counter <= 0xffff && Grown(es, names, s.topics)
    ensures Delivers(s, ps, Fates(es, s.clean, names, ps), After(s, ps))
    decreases |ps|
  {
    if ps == [] {
      Nothing(s, s.topics);
    } else {
      var p := ps[0];
      var f, u := FateOf(es, s.clean, names, p.topic), Forwarded(s, p);
      FateMet(s, p, es, names);
      FatesMet(u, ps[1..], es, if f.Waits? then names + [p.topic] else names);
      var fs := Fates(es, s.clean, names, ps);
      assert ps[..1] == [p] && fs[..1] == [f];
      DeliversJoin(s, u, After(s, ps), ps, fs);
    }
  }

  // ----- the REGISTERs

  ghost function Registers(out: seq<ToClient>): seq<ToClient> {
    if out == [] then []
    else
      var last := out[|out| - 1];
      Registers(out[..|out| - 1]) + if last.Register? then [last] else []
  }

  lemma RegistersSnoc(out: seq<ToClient>, x: ToClient)
    ensures Registers(out + [x]) == Registers(out) + if x.Register? then [x] else []
  {
    assert (out + [x])[..|out|] == out;
  }

  /** New topics, packets that wait and REGISTERs belong together one by one. */
  ghost predicate Announced(es: seq<Entry>, ws: seq<Waiting>, rs: seq<ToClient>) {
    && |es| == |ws| == |rs|
    && forall i :: 0 <= i < |es| ==>
                     && es[i].kind == NORMAL && ws[i].packet.topic == Normal(es[i].id)
                     && rs[i] == Register(es[i].id, ws[i].msgId, es[i].name)
  }

  /** From one state to another exactly the new topics have been announced, each for a packet that waits. */
  ghost predicate Announces(s: State, t: State) {
    && s.topics <= t.topics && s.waiting <= t.waiting && Registers(s.toClient) <= Registers(t.toClient)
    && Announced(t.topics[|s.topics|..], t.waiting[|s.waiting|..], Registers(t.toClient)[|Registers(s.toClient)|..])
  }

  lemma NoneAnnounced(s: State, t: State)
    requires t.topics == s.topics && t.waiting == s.waiting && Registers(t.toClient) == Registers(s.toClient)
    ensures Announces(s, t)
  {
  }

  lemma Last<T>(xs: seq<T>, x: T, ys: seq<T>)
    requires ys == xs + [x]
    ensures xs <= ys && ys[|xs|..] == [x]
  {
  }

  lemma OneRegistered(s: State, p: Publish)
    requires s.counter <= 0xffff && ByName(s.topics, p.topic) == |s.topics| < MAX_TOPIC_PAR_CLIENT
    ensures Announces(s, Registered(s, p))
  {
    var t, id, m := Registered(s, p), NextId(s.counter), NextSnMsgId(s.snMsgId);
    AddedFound(s.topics, s.counter, p.topic);
    RegistersSnoc(s.toClient, Register(id, m, p.topic));
    Last(s.topics, Entry(NORMAL, id, p.topic), t.topics);
    Last(s.waiting, Waiting(SnPublish(p.msg, Normal(id)), m), t.waiting);
    Last(Registers(s.toClient), Register(id, m, p.topic), Registers(t.toClient));
  }

  lemma OneAnnounced(s: State, p: Publish)
    requires s.counter <= 0xffff
    ensures Announces(s, Forwarded(s, p))
  {
    if Resolved(s.topics, p) {
      RegistersSnoc(s.toClient, SnPub(Resolve(s.topics, p)));
      NoneAnnounced(s, Forwarded(s, p));
    } else if (!Wanted(s.topics, p.topic) && s.clean) || |s.topics| >= MAX_TOPIC_PAR_CLIENT {
      NoneAnnounced(s, Forwarded(s, p));
    } else {
      OneRegistered(s, p);
    }
  }

  lemma Rest<T>(xs: seq<T>, ys: seq<T>, zs: seq<T>)
    requires xs <= ys <= zs
    ensures xs <= zs && zs[|xs|..] == ys[|xs|..] + zs[|ys|..]
  {
  }

  lemma AnnouncesJoin(s: State, u: State, t: State)
    requires Announces(s, u) && Announces(u, t)
    ensures Announces(s, t)
  {
    Rest(s.topics, u.topics, t.topics);
    Rest(s.waiting, u.waiting, t.waiting);
    Rest(Registers(s.toClient), Registers(u.toClient), Registers(t.toClient));
  }

  /** Forwarding packets sends one REGISTER for every packet that is put on the REGACK list, and no other. */
  lemma {:induction false} RegistersSent(s: State, ps: seq<Publish>)
    requires s.counter <= 0xffff
    ensures Announces(s, After(s, ps))
    decreases |ps|
  {
    if ps != [] {
      OneAnnounced(s, ps[0]);
      RegistersSent(Forwarded(s, ps[0]), ps[1..]);
      AnnouncesJoin(s, Forwarded(s, ps[0]), After(s, ps));
    }
  }

  // ----- the wake-up

  /** Events that leave the client's status alone and touch the packets only by bringing more. */
  ghost predicate Quiet(evs: seq<Event>) {
    forall i :: 0 <= i < |evs| ==> evs[i].BrokerPublish? || evs[i].Foreign?
  }

  ghost function PublishesIn(evs: seq<Event>): seq<Publish> {
    if evs == [] then [] else (if evs[0].BrokerPublish? then [evs[0].p] else []) + PublishesIn(evs[1..])
  }

  lemma {:induction false} PublishesAppend(xs: seq<Event>, ys: seq<Event>)
    ensures PublishesIn(xs + ys) == PublishesIn(xs) + PublishesIn(ys)
  {
    if xs == [] {
      assert xs + ys == ys;
    } else {
      PublishesAppend(xs[1..], ys);
      var zs := xs + ys;
      assert zs[0] == xs[0] && zs[1..] == xs[1..] + ys;
      var head := if xs[0].BrokerPublish? then [xs[0].p] else [];
      Joined(head, PublishesIn(xs[1..]), PublishesIn(ys), PublishesIn(zs[1..]));
    }
  }

  lemma {:induction false} PublishesOf(ps: seq<Publish>)
    ensures PublishesIn(AsEvents(ps)) == ps && Quiet(AsEvents(ps))
  {
    if ps != [] {
      PublishesOf(ps[1..]);
      assert AsEvents(ps)[1..] == AsEvents(ps[1..]);
    }
  }

  lemma {:induction false} AfterEvents(s: State, ps: seq<Publish>, evs: seq<Event>)
    requires s.counter <= 0xffff
    ensures After(s.(events := evs), ps) == After(s, ps).(events := evs)
    decreases |ps|
  {
    if ps != [] {
      AfterEvents(Forwarded(s, ps[0]), ps[1..], evs);
      assert Forwarded(s.(events := evs), ps[0]) == Forwarded(s, ps[0]).(events := evs);
    }
  }

  lemma QuietTurn(s: State, tail: seq<Event>, rest: seq<Event>)
    requires (s.status.Awake? || s.status.Active?) && s.counter <= 0xffff
    requires s.events != [] && s.events[1..] == tail && Quiet(s.events[..1])
    ensures var t := Step(s, Handle);
            && t.events == tail && t.status == s.status
            && t.(events := rest) == After(s.(events := rest), PublishesIn(s.events[..1]))
  {
    var ev := s.events[0];
    assert s.events[..1] == [ev] && [ev][1..] == [];
    assert ev.BrokerPublish? || ev.Foreign?;
    if ev.BrokerPublish? {
      assert PublishesIn([ev]) == [ev.p] && [ev.p][1..] == [];
    }
  }

  lemma {:induction false} AfterAppend(s: State, xs: seq<Publish>, ys: seq<Publish>)
    requires s.counter <= 0xffff
    ensures After(s, xs + ys) == After(After(s, xs), ys)
    decreases |xs|
  {
    if xs == [] {
      assert xs + ys == ys;
    } else {
      AfterAppend(Forwarded(s, xs[0]), xs[1..], ys);
      var zs := xs + ys;
      assert zs[0] == xs[0] && zs[1..] == xs[1..] + ys;
    }
  }

  /** Quiet events at the front of the queue are handled by forwarding their packets. */
  lemma {:induction false} QuietHandled(s: State, evs: seq<Event>, rest: seq<Event>)
    requires (s.status.Awake? || s.status.Active?) && s.counter <= 0xffff && s.events == evs + rest && Quiet(evs)
    ensures Run(s, Turns(|evs|)) == After(s.(events := rest), PublishesIn(evs))
    decreases |evs|
  {
    if evs == [] {
      assert s.events == rest && s == s.(events := rest);
    } else {
      assert s.events[..1] == evs[..1] && s.events[1..] == evs[1..] + rest && evs == evs[..1] + evs[1..];
      QuietTurn(s, evs[1..] + rest, rest);
      assert Turns(|evs|)[1..] == Turns(|evs[1..]|);
      QuietHandled(Step(s, Handle), evs[1..], rest);
      PublishesAppend(evs[..1], evs[1..]);
      AfterAppend(s.(events := rest), PublishesIn(evs[..1]), PublishesIn(evs[1..]));
    }
  }

  /** The packets of the sleep queue that the event queue takes, when only rest is in it. */
  ghost function Taken(s: State, rest: seq<Event>): seq<Publish> {
    s.sleeping[..Room(s.(events := rest))]
  }

  /** The state when the PINGREQ has been handled, without the event queue. */
  ghost function Woken(s: State, rest: seq<Event>): State {
    s.(status := Awake, hold := true, sleeping := [], events := [],
       discarded := s.discarded + Messages(s.sleeping[Room(s.(events := rest))..]))
  }

  lemma PingreqHandled(s: State, rest: seq<Event>)
    requires (s.status.Asleep? || s.status.Awake?) && s.counter <= 0xffff && s.sleeping != []
    requires s.events == [ClientPacket(SnPingreq)] + rest
    ensures Step(s, Handle) == Woken(s, rest).(events := rest + AsEvents(Taken(s, rest)))
  {
    assert s.events[1..] == rest;
    StoredInOrder(s.(events := rest));
  }

  /** The packets the wake-up brings: those that stand in the event queue, then the stored ones. */
  ghost function WakePackets(s: State, rest: seq<Event>): seq<Publish> {
    PublishesIn(rest) + Taken(s, rest)
  }

  ghost function WakeFates(s: State, rest: seq<Event>): (fs: seq<Fate>)
    ensures |fs| == |WakePackets(s, rest)|
  {
    Fates(s.topics, s.clean, [], WakePackets(s, rest))
  }

  /** How many events stand in the queue then. */
  ghost function Pending(s: State, rest: seq<Event>): nat {
    |rest| + |Taken(s, rest)|
  }

  /** The turns that handle the PINGREQ and all of them. */
  ghost function WakeTurns(s: State, rest: seq<Event>): seq<Action> {
    Turns(1 + Pending(s, rest))
  }

  /** The state after these turns. */
  ghost function Handled(s: State, rest: seq<Event>): State
    requires s.counter <= 0xffff
  {
    Run(s, WakeTurns(s, rest))
  }

  /**
   A PINGREQ of a sleeping client, whatever is stored: the packets that stand in the event queue and then the stored
   ones, as far as the event queue takes them, meet their fates by the client's topics and their own.
   */
  lemma WakeDelivers(s: State, rest: seq<Event>)
    requires (s.status.Asleep? || s.status.Awake?) && s.counter <= 0xffff && s.sleeping != []
    requires s.events == [ClientPacket(SnPingreq)] + rest && Quiet(rest)
    ensures Delivers(Woken(s, rest), WakePackets(s, rest), WakeFates(s, rest), Handled(s, rest))
    ensures Announces(Woken(s, rest), Handled(s, rest))
  {
    WakeHandled(s, rest);
    RegistersSent(Woken(s, rest), WakePackets(s, rest));
    FatesMet(Woken(s, rest), WakePackets(s, rest), s.topics, []);
  }

  /** The turn that handles the PINGREQ, with any number of turns behind it. */
  lemma FirstTurn(s: State, rest: seq<Event>, n: nat)
    requires (s.status.Asleep? || s.status.Awake?) && s.counter <= 0xffff && s.sleeping != []
    requires s.events == [ClientPacket(SnPingreq)] + rest
    ensures Run(s, Turns(1 + n)) == Run(Woken(s, rest).(events := rest + AsEvents(Taken(s, rest))), Turns(n))
  {
    PingreqHandled(s, rest);
    assert Turns(1 + n)[1..] == Turns(n);
  }

  lemma WakeHandled(s: State, rest: seq<Event>)
    requires (s.status.Asleep? || s.status.Awake?) && s.counter <= 0xffff && s.sleeping != []
    requires s.events == [ClientPacket(SnPingreq)] + rest && Quiet(rest)
    ensures Handled(s, rest) == After(Woken(s, rest), WakePackets(s, rest))
  {
    FirstTurn(s, rest, Pending(s, rest));
    RestHandled(s, rest);
  }

  lemma RestHandled(s: State, rest: seq<Event>)
    requires s.counter <= 0xffff && Quiet(rest)
    ensures Run(Woken(s, rest).(events := rest + AsEvents(Taken(s, rest))), Turns(Pending(s, rest))) ==
            After(Woken(s, rest), WakePackets(s, rest))
  {
    QueueForwarded(Woken(s, rest).(events := rest + AsEvents(Taken(s, rest))), Woken(s, rest), rest, Taken(s, rest));
  }

  lemma QueueForwarded(t: State, w: State, rest: seq<Event>, taken: seq<Publish>)
    requires (w.status.Awake? || w.status.Active?) && w.counter <= 0xffff && w.events == [] && Quiet(rest)
    requires t == w.(events := rest + AsEvents(taken))
    ensures Run(t, Turns(|rest| + |taken|)) == After(w, PublishesIn(rest) + taken)
  {
    var evs := rest + AsEvents(taken);
    PublishesOf(taken);
    PublishesAppend(rest, AsEvents(taken));
    QuietTogether(rest, AsEvents(taken));
    assert t.events == evs + [] && t.(events := []) == w;
    QuietHandled(t, evs, []);
  }

  lemma QuietTogether(xs: seq<Event>, ys: seq<Event>)
    requires Quiet(xs) && Quiet(ys)
    ensures Quiet(xs + ys)
  {
  }
}
