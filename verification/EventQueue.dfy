/**
 An event queue shared by any number of producers and one consumer: a mutex around the queue, a semaphore
 to sleep on. Each step is one access to shared state; the consumer looks at the size without the mutex.
 */
module EventQueue {
  import opened Wrappers

  /** Where a producer stands in post. */
  datatype Producer<E> = Idle | Calling(ev: E) | Locked(ev: E) | Posted | Leaving

  /** Where the consumer stands in wait or timedwait; token says that it came through the semaphore. */
  datatype Consumer<E> =
    | Outside
    | Checking(timed: bool)
    | Waiting(timed: bool)
    | Entering(timed: bool, token: bool)
    | Inside(timed: bool, token: bool)
    | Returning(timed: bool, got: Option<E>)

  datatype Owner = Free | Held(i: nat) | ByConsumer

  datatype State<E> = State(
    queue: seq<E>, maxSize: nat, sem: nat, mutex: Owner,
    producers: seq<Producer<E>>, consumer: Consumer<E>,
    accepted: seq<E>, refused: seq<E>, consumed: seq<E>, timeouts: nat)

  datatype Action<E> =
    | Post(i: nat, ev: E) | Lock(i: nat) | Enqueue(i: nat) | Signal(i: nat) | Unlock(i: nat)
    | Wait(timed: bool) | ReadSize | Acquire | Expire | Enter | Take | Return

  ghost function At<E>(s: State<E>, i: nat): Producer<E> {
    if i < |s.producers| then s.producers[i] else Leaving
  }

  ghost predicate Enabled<E>(s: State<E>, a: Action<E>) {
    match a
    case Post(i, _) => i < |s.producers| && At(s, i).Idle?
    case Lock(i) => i < |s.producers| && At(s, i).Calling? && s.mutex.Free?
    case Enqueue(i) => i < |s.producers| && At(s, i).Locked?
    case Signal(i) => i < |s.producers| && At(s, i).Posted?
    case Unlock(i) => i < |s.producers| && At(s, i).Leaving?
    case Wait(_) => s.consumer.Outside?
    case ReadSize => s.consumer.Checking?
    case Acquire => s.consumer.Waiting? && s.sem > 0
    case Expire => s.consumer.Waiting? && s.consumer.timed
    case Enter => s.consumer.Entering? && s.mutex.Free?
    case Take => s.consumer.Inside?
    case Return => s.consumer.Returning?
  }

  ghost predicate Full<E>(s: State<E>) {
    s.maxSize != 0 && |s.queue| >= s.maxSize
  }

  ghost function Step<E>(s: State<E>, a: Action<E>): State<E>
    requires Enabled(s, a)
  {
    match a
    case Post(i, ev) => s.(producers := s.producers[i := Calling(ev)])
    case Lock(i) => s.(mutex := Held(i), producers := s.producers[i := Locked(s.producers[i].ev)])
    case Enqueue(i) =>
      var ev := s.producers[i].ev;
      if Full(s) then s.(refused := s.refused + [ev], producers := s.producers[i := Leaving])
      else s.(queue := s.queue + [ev], accepted := s.accepted + [ev], producers := s.producers[i := Posted])
    case Signal(i) => s.(sem := s.sem + 1, producers := s.producers[i := Leaving])
    case Unlock(i) => s.(mutex := Free, producers := s.producers[i := Idle])
    case Wait(timed) => s.(consumer := Checking(timed))
    case ReadSize =>
      s.(consumer := if s.queue == [] then Waiting(s.consumer.timed) else Entering(s.consumer.timed, false))
    case Acquire => s.(sem := s.sem - 1, consumer := Entering(s.consumer.timed, true))
    case Expire => s.(consumer := Entering(true, false))
    case Enter => s.(mutex := ByConsumer, consumer := Inside(s.consumer.timed, s.consumer.token))
    case Take =>
      if s.queue == [] then s.(consumer := Returning(s.consumer.timed, None))
      else s.(queue := s.queue[1..], consumed := s.consumed + [s.queue[0]],
              consumer := Returning(s.consumer.timed, Some(s.queue[0])))
    case Return =>
      var empty := s.consumer.got == None;
      s.(mutex := Free, timeouts := s.timeouts + (if empty && s.consumer.timed then 1 else 0),
         consumer := if empty && !s.consumer.timed then Checking(false) else Outside)
  }

  ghost function Initial<E>(n: nat, maxSize: nat): State<E> {
    State([], maxSize, 0, Free, seq(n, _ => Idle), Outside, [], [], [], 0)
  }

  ghost predicate Legal<E>(s: State<E>, acts: seq<Action<E>>)
    decreases |acts|
  {
    acts == [] || (Enabled(s, acts[0]) && Legal(Step(s, acts[0]), acts[1..]))
  }

  ghost function Run<E>(s: State<E>, acts: seq<Action<E>>): State<E>
    requires Legal(s, acts)
    decreases |acts|
  {
    if acts == [] then s else Run(Step(s, acts[0]), acts[1..])
  }

  // ----- what every interleaving keeps

  ghost predicate Holds<E>(p: Producer<E>) {
    p.Locked? || p.Posted? || p.Leaving?
  }

  ghost predicate MutexKept<E>(s: State<E>) {
    && (forall i {:trigger s.producers[i]} :: 0 <= i < |s.producers| ==>
                                                (Holds(s.producers[i]) <==> s.mutex == Held(i)))
    && (s.mutex.Held? ==> s.mutex.i < |s.producers|)
    && (s.consumer.Inside? || s.consumer.Returning? <==> s.mutex.ByConsumer?)
  }

  /** An event is in the queue but its semaphore post is still to come. */
  ghost function Unsignalled<E>(s: State<E>): nat {
    if s.mutex.Held? && At(s, s.mutex.i).Posted? then 1 else 0
  }

  /** The consumer has taken the semaphore for an event it has not yet taken from the queue. */
  ghost function InHand<E>(s: State<E>): nat {
    if (s.consumer.Entering? || s.consumer.Inside?) && s.consumer.token then 1 else 0
  }

  ghost predicate Invariant<E>(s: State<E>) {
    && MutexKept(s)
    && |s.queue| <= s.sem + Unsignalled(s) + InHand(s)
    && s.consumed + s.queue == s.accepted
    && (s.maxSize != 0 ==> |s.queue| <= s.maxSize)
  }

  lemma MutexStep<E>(s: State<E>, a: Action<E>)
    requires MutexKept(s) && Enabled(s, a)
    ensures MutexKept(Step(s, a))
  {
  }

  lemma CountStep<E>(s: State<E>, a: Action<E>)
    requires Invariant(s) && Enabled(s, a)
    ensures var t := Step(s, a); |t.queue| <= t.sem + Unsignalled(t) + InHand(t)
  {
  }

  lemma OrderStep<E>(s: State<E>, a: Action<E>)
    requires Invariant(s) && Enabled(s, a)
    ensures var t := Step(s, a); t.consumed + t.queue == t.accepted && (t.maxSize != 0 ==> |t.queue| <= t.maxSize)
  {
  }

  lemma {:induction false} EveryRun<E>(s: State<E>, acts: seq<Action<E>>)
    requires Invariant(s) && Legal(s, acts)
    ensures Invariant(Run(s, acts))
    decreases |acts|
  {
    if acts != [] {
      MutexStep(s, acts[0]);
      CountStep(s, acts[0]);
      OrderStep(s, acts[0]);
      EveryRun(Step(s, acts[0]), acts[1..]);
    }
  }

  /** In every interleaving of n producers with the consumer. */
  lemma EveryInterleaving<E>(n: nat, maxSize: nat, acts: seq<Action<E>>)
    requires Legal(Initial(n, maxSize), acts)
    ensures Invariant(Run(Initial(n, maxSize), acts))
  {
    EveryRun(Initial<E>(n, maxSize), acts);
  }

  // ----- no event is left behind

  /** A consumer asleep on an empty semaphore while an event waits: that event's producer is about to wake it. */
  lemma NoLostWakeup<E>(s: State<E>)
    requires Invariant(s) && s.consumer.Waiting? && s.sem == 0 && s.queue != []
    ensures |s.queue| == 1 && s.mutex.Held? && Enabled(s, Signal(s.mutex.i))
    ensures Enabled(Step(s, Signal(s.mutex.i)), Acquire)
  {
  }

  /** The consumer is in a call that has not found its event yet. */
  ghost predicate Awaiting<E>(s: State<E>) {
    match s.consumer
    case Outside => false
    case Returning(timed, got) => !timed && got == None
    case _ => true
  }

  /** A step that brings the consumer nearer to the event at the front: the mutex holder's, or its own. */
  ghost function Helpful<E>(s: State<E>): Action<E>
    requires Awaiting(s)
  {
    if s.mutex.Held? then
      match At(s, s.mutex.i)
      case Locked(_) => Enqueue(s.mutex.i)
      case Posted => Signal(s.mutex.i)
      case _ => Unlock(s.mutex.i)
    else
      match s.consumer
      case Checking(_) => ReadSize
      case Waiting(_) => Acquire
      case Entering(_, _) => Enter
      case Inside(_, _) => Take
      case _ => Return
  }

  ghost function Distance<E>(s: State<E>): nat {
    (if s.mutex.Held? then match At(s, s.mutex.i) case Locked(_) => 3 case Posted => 2 case _ => 1 else 0)
    + match s.consumer
      case Returning(_, _) => 5
      case Checking(_) => 4
      case Waiting(_) => 3
      case Entering(_, _) => 2
      case _ => 1
  }

  lemma HelpfulStep<E>(s: State<E>)
    requires Invariant(s) && Awaiting(s) && s.queue != []
    ensures Enabled(s, Helpful(s))
    ensures var t := Step(s, Helpful(s));
            || (t.consumed == s.consumed + [s.queue[0]] && t.consumer == Returning(s.consumer.timed, Some(s.queue[0])))
            || (Awaiting(t) && t.consumed == s.consumed && t.queue != [] && t.queue[0] == s.queue[0]
                && Distance(t) < Distance(s))
  {
  }

  lemma Prepend<E>(s: State<E>, a: Action<E>, acts: seq<Action<E>>)
    requires Enabled(s, a) && Legal(Step(s, a), acts)
    ensures Legal(s, [a] + acts) && Run(s, [a] + acts) == Run(Step(s, a), acts)
  {
    assert ([a] + acts)[1..] == acts;
  }

  /**
   The threads that already run can always hand the front event to the waiting consumer: some eight steps of theirs do
   it.
   */
  lemma {:induction false} Delivery<E>(s: State<E>) returns (acts: seq<Action<E>>)
    requires Invariant(s) && Awaiting(s) && s.queue != []
    ensures |acts| <= Distance(s) <= 8 && Legal(s, acts)
    ensures forall a :: a in acts ==> !a.Post? && !a.Wait? && !a.Expire?
    ensures Run(s, acts).consumed == s.consumed + [s.queue[0]]
    decreases Distance(s)
  {
    var a := Helpful(s);
    HelpfulStep(s);
    MutexStep(s, a);
    CountStep(s, a);
    OrderStep(s, a);
    var t := Step(s, a);
    if t.consumed == s.consumed + [s.queue[0]] {
      acts := [];
    } else {
      acts := Delivery(t);
    }
    Prepend(s, a, acts);
    acts := [a] + acts;
  }

  // ----- other threads may interleave

  /** A step that brings the front event nearer in any case: one of the mutex holder or of the consumer. */
  ghost predicate Works<E>(a: Action<E>) {
    !a.Post? && !a.Lock?
  }

  /** Every enabled step but a further call of post and a producer's entry into the mutex shortens the way. */
  lemma StepDistance<E>(s: State<E>, a: Action<E>)
    requires Invariant(s) && Awaiting(s) && s.queue != [] && Enabled(s, a)
    ensures var t := Step(s, a);
            || (t.consumed == s.consumed + [s.queue[0]] && t.consumer == Returning(s.consumer.timed, Some(s.queue[0])))
            || (&& Awaiting(t) && t.consumed == s.consumed && t.queue != [] && t.queue[0] == s.queue[0]
                && Distance(t) <= Distance(s) + (if Works(a) then -1 else if a.Lock? then 3 else 0))
  {
  }

  ghost function Count<E>(acts: seq<Action<E>>, locks: bool): nat
    decreases |acts|
  {
    if acts == [] then 0
    else (if (if locks then acts[0].Lock? else Works(acts[0])) then 1 else 0) + Count(acts[1..], locks)
  }

  lemma {:induction false} ConsumedGrows<E>(s: State<E>, acts: seq<Action<E>>)
    requires Legal(s, acts)
    ensures s.consumed <= Run(s, acts).consumed
    decreases |acts|
  {
    if acts != [] {
      ConsumedGrows(Step(s, acts[0]), acts[1..]);
    }
  }

  /**
   In every interleaving the front event reaches the waiting consumer before the mutex holders and the consumer have
   made more than Distance steps and three for each time a producer has got the mutex.
   */
  lemma {:induction false} FrontArrives<E>(s: State<E>, acts: seq<Action<E>>)
    requires Invariant(s) && Awaiting(s) && s.queue != [] && Legal(s, acts)
    requires Count(acts, false) > Distance(s) + 3 * Count(acts, true)
    ensures s.consumed + [s.queue[0]] <= Run(s, acts).consumed
    decreases |acts|
  {
    var a, t := acts[0], Step(s, acts[0]);
    StepDistance(s, a);
    if t.consumed == s.consumed + [s.queue[0]] {
      ConsumedGrows(t, acts[1..]);
    } else {
      MutexStep(s, a);
      CountStep(s, a);
      OrderStep(s, a);
      FrontArrives(t, acts[1..]);
    }
  }

  ghost predicate Timed<E>(c: Consumer<E>) {
    match c
    case Outside => false
    case Checking(timed) => timed
    case Waiting(timed) => timed
    case Entering(timed, _) => timed
    case Inside(timed, _) => timed
    case Returning(timed, _) => timed
  }

  /** A call of the consumer is timed as it was made until it returns, and only a timed one gives up its wait. */
  lemma TimedStep<E>(s: State<E>, a: Action<E>)
    requires Enabled(s, a)
    ensures a.Wait? ==> Timed(Step(s, a).consumer) == a.timed
    ensures !a.Wait? && !Step(s, a).consumer.Outside? ==> Timed(Step(s, a).consumer) == Timed(s.consumer)
    ensures a.Expire? ==> Timed(s.consumer)
  {
  }

  /**
   The consumer sleeps on the semaphore exactly when it saw an empty queue, and goes for the mutex when that wakes it.
   */
  lemma CheckStep<E>(s: State<E>)
    requires s.consumer.Checking?
    ensures var t := Step(s, ReadSize);
            && (t.consumer.Waiting? <==> s.queue == []) && (t.consumer.Entering? <==> s.queue != [])
            && t == s.(consumer := t.consumer)
            && (t.consumer.Waiting? && t.sem > 0 ==>
                  Enabled(t, Acquire) && Step(t, Acquire).sem == t.sem - 1 && Step(t, Acquire).consumer.Entering?)
            && (t.consumer.Waiting? && t.sem == 0 ==> !Enabled(t, Acquire))
  {
  }

  // ----- which events are accepted

  /** A producer with the mutex gets its event into the queue exactly when there is no bound or room below it. */
  lemma EnqueueStep<E>(s: State<E>, i: nat, ev: E)
    requires i < |s.producers| && s.producers[i] == Locked(ev)
    ensures Enabled(s, Enqueue(i))
    ensures var t, room := Step(s, Enqueue(i)), s.maxSize == 0 || |s.queue| < s.maxSize;
            && t.queue == s.queue + (if room then [ev] else [])
            && t.accepted == s.accepted + (if room then [ev] else [])
            && t.refused == s.refused + (if room then [] else [ev])
            && t.producers == s.producers[i := if room then Posted else Leaving]
            && t == s.(queue := t.queue, accepted := t.accepted, refused := t.refused, producers := t.producers)
  {
  }

  /** The events that a run's producers bring to the queue: those that find room, or those that do not. */
  ghost function Brought<E>(s: State<E>, acts: seq<Action<E>>, room: bool): seq<E>
    requires Legal(s, acts)
    decreases |acts|
  {
    if acts == [] then []
    else
      var found := s.maxSize == 0 || |s.queue| < s.maxSize;
      (if acts[0].Enqueue? && found == room then [s.producers[acts[0].i].ev] else [])
      + Brought(Step(s, acts[0]), acts[1..], room)
  }

  lemma QueueStep<E>(s: State<E>, a: Action<E>)
    requires Enabled(s, a)
    ensures var t, found := Step(s, a), s.maxSize == 0 || |s.queue| < s.maxSize;
            && t.maxSize == s.maxSize
            && t.accepted == s.accepted + (if a.Enqueue? && found then [s.producers[a.i].ev] else [])
            && t.refused == s.refused + (if a.Enqueue? && !found then [s.producers[a.i].ev] else [])
  {
  }

  lemma Behind<T>(xs: seq<T>, ys: seq<T>, zs: seq<T>)
    ensures xs + ys + zs == xs + (ys + zs)
  {
  }

  /**
   Over every interleaving these are exactly the accepted and the refused ones, in order; with no bound none is
   refused.
   */
  lemma {:induction false} AcceptedOverRun<E>(s: State<E>, acts: seq<Action<E>>)
    requires Legal(s, acts)
    ensures var t := Run(s, acts);
            && t.accepted == s.accepted + Brought(s, acts, true) && t.refused == s.refused + Brought(s, acts, false)
            && t.maxSize == s.maxSize && (s.maxSize == 0 ==> t.refused == s.refused)
    decreases |acts|
  {
    if acts != [] {
      var t := Step(s, acts[0]);
      QueueStep(s, acts[0]);
      AcceptedOverRun(t, acts[1..]);
      var found := s.maxSize == 0 || |s.queue| < s.maxSize;
      var ev := if acts[0].Enqueue? then [s.producers[acts[0].i].ev] else [];
      Behind(s.accepted, if found then ev else [], Brought(t, acts[1..], true));
      Behind(s.refused, if found then [] else ev, Brought(t, acts[1..], false));
    }
  }

  /** The event in the hands of a producer: its post has been called and has not come to the queue. */
  ghost function InPost<E>(p: Producer<E>): multiset<E> {
    if p.Calling? || p.Locked? then multiset{p.ev} else multiset{}
  }

  ghost function InPosts<E>(ps: seq<Producer<E>>): multiset<E> {
    if ps == [] then multiset{} else InPost(ps[0]) + InPosts(ps[1..])
  }

  lemma {:induction false} InPostsUpdate<E>(ps: seq<Producer<E>>, i: nat, p: Producer<E>)
    requires i < |ps|
    ensures InPosts(ps[i := p]) + InPost(ps[i]) == InPosts(ps) + InPost(p)
  {
    var qs := ps[i := p];
    if i == 0 {
      assert qs[1..] == ps[1..];
    } else {
      InPostsUpdate(ps[1..], i - 1, p);
      assert qs[1..] == ps[1..][i - 1 := p] && qs[0] == ps[0] && ps[1..][i - 1] == ps[i];
      Regrouped(InPost(ps[0]), InPosts(qs[1..]), InPost(ps[i]), InPosts(ps[1..]), InPost(p));
    }
  }

  lemma Regrouped<E>(h: multiset<E>, a: multiset<E>, x: multiset<E>, b: multiset<E>, y: multiset<E>)
    requires a + x == b + y
    ensures h + a + x == h + b + y
  {
    assert h + a + x == h + (a + x);
    assert h + b + y == h + (b + y);
  }

  lemma {:induction false} NoneInPosts<E>(n: nat)
    ensures InPosts(seq(n, _ => Producer<E>.Idle)) == multiset{}
  {
    if n > 0 {
      NoneInPosts<E>(n - 1);
      assert seq(n, _ => Producer<E>.Idle)[1..] == seq(n - 1, _ => Producer<E>.Idle);
    }
  }

  /** The events for which post has been called. */
  ghost function PostedIn<E>(acts: seq<Action<E>>): multiset<E> {
    if acts == [] then multiset{}
    else (if acts[0].Post? then multiset{acts[0].ev} else multiset{}) + PostedIn(acts[1..])
  }

  /** All events a state has seen. */
  ghost function Seen<E>(s: State<E>): multiset<E> {
    multiset(s.accepted) + multiset(s.refused) + InPosts(s.producers)
  }

  lemma Cancelled<E>(a: multiset<E>, b: multiset<E>, x: multiset<E>, y: multiset<E>, z: multiset<E>)
    requires a + x == b + y && y == x + z
    ensures a == b + z
  {
    forall e ensures a[e] == (b + z)[e] {
      assert (a + x)[e] == (b + y)[e];
    }
  }

  lemma EnqueueSeen<E>(s: State<E>, i: nat)
    requires Enabled(s, Enqueue(i))
    ensures Seen(Step(s, Enqueue(i))) == Seen(s)
  {
    var t, ev := Step(s, Enqueue(i)), s.producers[i].ev;
    EnqueueStep(s, i, ev);
    InPostsUpdate(s.producers, i, t.producers[i]);
    Cancelled(InPosts(s.producers), InPosts(t.producers), InPost(t.producers[i]), InPost(s.producers[i]), multiset{ev});
    Moved(s.accepted, t.accepted, s.refused, t.refused, ev, InPosts(t.producers));
  }

  /** A producer's own step outside the queue. */
  ghost predicate Moves<E>(p: Producer<E>, p': Producer<E>, posted: bool) {
    if posted then p.Idle? && p'.Calling?
    else if p.Calling? then p' == Locked(p.ev)
    else !p.Locked? && !p'.Calling? && !p'.Locked?
  }

  lemma ProducerMoves<E>(s: State<E>, a: Action<E>)
    requires Enabled(s, a) && (a.Post? || a.Lock? || a.Signal? || a.Unlock?)
    ensures var p := Step(s, a).producers[a.i];
            && Moves(s.producers[a.i], p, a.Post?) && (a.Post? ==> p.ev == a.ev)
            && Step(s, a).producers == s.producers[a.i := p]
  {
  }

  lemma InPostMoves<E>(p: Producer<E>, p': Producer<E>, posted: bool)
    requires Moves(p, p', posted)
    ensures InPost(p') == InPost(p) + if posted then multiset{p'.ev} else multiset{}
  {
  }

  /** What a producer does outside the queue leaves in its hands what was there, but for a call of post. */
  lemma OtherSeen<E>(s: State<E>, a: Action<E>)
    requires Enabled(s, a) && (a.Post? || a.Lock? || a.Signal? || a.Unlock?)
    ensures InPosts(Step(s, a).producers) == InPosts(s.producers) + if a.Post? then multiset{a.ev} else multiset{}
  {
    var p, z := Step(s, a).producers[a.i], if a.Post? then multiset{a.ev} else multiset{};
    ProducerMoves(s, a);
    InPostMoves(s.producers[a.i], p, a.Post?);
    InPostsUpdate(s.producers, a.i, p);
    Cancelled(InPosts(s.producers[a.i := p]), InPosts(s.producers), InPost(s.producers[a.i]), InPost(p), z);
  }

  lemma SeenStep<E>(s: State<E>, a: Action<E>)
    requires Enabled(s, a)
    ensures Seen(Step(s, a)) == Seen(s) + if a.Post? then multiset{a.ev} else multiset{}
  {
    if a.Enqueue? {
      EnqueueSeen(s, a.i);
    } else {
      QueueStep(s, a);
      if a.Post? || a.Lock? || a.Signal? || a.Unlock? {
        OtherSeen(s, a);
      }
    }
  }

  lemma Moved<E>(xs: seq<E>, xs': seq<E>, ys: seq<E>, ys': seq<E>, ev: E, held: multiset<E>)
    requires (xs' == xs + [ev] && ys' == ys) || (xs' == xs && ys' == ys + [ev])
    ensures multiset(xs') + multiset(ys') + held == multiset(xs) + multiset(ys) + (held + multiset{ev})
  {
    assert multiset(xs + [ev]) == multiset(xs) + multiset{ev};
    assert multiset(ys + [ev]) == multiset(ys) + multiset{ev};
  }

  /** Over every interleaving each event posted is accepted, refused, or still in the hands of its producer. */
  lemma {:induction false} SeenOverRun<E>(s: State<E>, acts: seq<Action<E>>)
    requires Legal(s, acts)
    ensures Seen(Run(s, acts)) == Seen(s) + PostedIn(acts)
    decreases |acts|
  {
    if acts != [] {
      SeenStep(s, acts[0]);
      SeenOverRun(Step(s, acts[0]), acts[1..]);
    }
  }

  /** From the start, of n producers. */
  lemma EveryPost<E>(n: nat, maxSize: nat, acts: seq<Action<E>>)
    requires Legal(Initial(n, maxSize), acts)
    ensures var t := Run(Initial(n, maxSize), acts);
            && PostedIn(acts) == multiset(t.consumed + t.queue) + multiset(t.refused) + InPosts(t.producers)
            && (maxSize == 0 ==> t.refused == [])
  {
    var s := Initial<E>(n, maxSize);
    EveryInterleaving(n, maxSize, acts);
    AcceptedOverRun(s, acts);
    SeenOverRun(s, acts);
    NoneInPosts<E>(n);
    assert s.producers == seq(n, _ => Producer<E>.Idle);
  }

  /**
   The consumer with the mutex takes the front event; it gets none, and a timed call counts a timeout, only from an
   empty queue.
   */
  lemma TakeStep<E>(s: State<E>)
    requires s.consumer.Inside?
    ensures var t := Step(s, Take);
            && (s.queue != [] ==> t.queue == s.queue[1..] && t.consumed == s.consumed + [s.queue[0]]
                                  && t.consumer == Returning(s.consumer.timed, Some(s.queue[0])))
            && (s.queue == [] ==> t == s.(consumer := Returning(s.consumer.timed, None)))
            && Step(t, Return).timeouts == s.timeouts + (if s.queue == [] && s.consumer.timed then 1 else 0)
            && Step(t, Return).consumer == (if s.queue == [] && !s.consumer.timed then Checking(false) else Outside)
  {
  }
}
