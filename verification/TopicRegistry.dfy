/**
 The per-client topic registry: a singly linked list of topics, ids drawn from a wrapping 16-bit counter.
 Entries is its abstract value; Regular is what every operation keeps.
 */
module TopicRegistry {
  import opened Sequences
  import TopicMatch

  const MAX_TOPIC_PAR_CLIENT := 50

  datatype TopicType = NORMAL | PREDEFINED | SHORT

  datatype Entry = Entry(kind: TopicType, id: nat, name: string)

  // ----- ids

  /** The 16-bit counter skips 0xffff and 0. */
  function NextId(counter: nat): (id: nat)
    requires counter <= 0xffff
    ensures id <= 0xffff
  {
    var c := (counter + 1) % 0x1_0000;
    if c == 0xffff then (c + 2) % 0x1_0000 else c
  }

  /** Ids in issuing order, the last one being the counter. */
  ghost predicate IdRun(ids: seq<nat>, counter: nat) {
    && (forall i :: 0 <= i < |ids| ==> 1 <= ids[i] <= 0xfffe)
    && (forall i :: 0 <= i < |ids| - 1 ==> ids[i + 1] == NextId(ids[i]))
    && (ids != [] ==> ids[|ids| - 1] == counter)
  }

  lemma {:induction false} IdRunClosedForm(ids: seq<nat>, counter: nat, i: nat, j: nat)
    requires IdRun(ids, counter) && i <= j < |ids|
    ensures ids[j] == (ids[i] - 1 + (j - i)) % 0xfffe + 1
    decreases j - i
  {
    if i < j {
      IdRunClosedForm(ids, counter, i, j - 1);
      assert ids[j] == NextId(ids[j - 1]);
      NextIdIsStep(ids[j - 1], ids[i] - 1 + (j - 1 - i));
    }
  }

  lemma NextIdIsStep(id: nat, n: nat)
    requires id == n % 0xfffe + 1
    ensures NextId(id) == (n + 1) % 0xfffe + 1
  {
  }

  /** A run shorter than the counter's period repeats no id. */
  lemma IdRunDistinct(ids: seq<nat>, counter: nat)
    requires IdRun(ids, counter) && |ids| <= 0xfffe
    ensures forall i, j :: 0 <= i < j < |ids| ==> ids[i] != ids[j]
  {
    forall i, j | 0 <= i < j < |ids| ensures ids[i] != ids[j] {
      IdRunClosedForm(ids, counter, i, j);
    }
  }

  // ----- the abstract registry

  ghost function NormalIds(es: seq<Entry>): seq<nat> {
    if es == [] then []
    else if es[|es| - 1].kind == NORMAL then NormalIds(es[..|es| - 1]) + [es[|es| - 1].id]
    else NormalIds(es[..|es| - 1])
  }

  ghost predicate NamesDistinct(es: seq<Entry>) {
    forall i, j :: 0 <= i < j < |es| ==> es[i].name != es[j].name
  }

  ghost predicate Regular(es: seq<Entry>, counter: nat) {
    && NamesDistinct(es) && |es| <= MAX_TOPIC_PAR_CLIENT
    && counter <= 0xfffe && IdRun(NormalIds(es), counter)
  }

  /** Index of the first entry with a name, or |es|. */
  ghost function ByName(es: seq<Entry>, name: string): (i: nat)
    ensures i <= |es| && (i < |es| ==> es[i].name == name) && forall j :: 0 <= j < i ==> es[j].name != name
  {
    FirstIndex(es, (e: Entry) => e.name == name)
  }

  /** Index of the first entry with a type and an id, or |es|. */
  ghost function ById(es: seq<Entry>, kind: TopicType, id: nat): (i: nat)
    ensures i <= |es| && (i < |es| ==> es[i].kind == kind && es[i].id == id)
    ensures forall j :: 0 <= j < i ==> es[j].kind != kind || es[j].id != id
  {
    FirstIndex(es, (e: Entry) => e.kind == kind && e.id == id)
  }

  ghost function Added(es: seq<Entry>, counter: nat, name: string, id: nat): (seq<Entry>, nat)
    requires counter <= 0xffff
  {
    if |es| >= MAX_TOPIC_PAR_CLIENT || ByName(es, name) < |es| then (es, counter)
    else if id == 0 then (es + [Entry(NORMAL, NextId(counter), name)], NextId(counter))
    else (es + [Entry(PREDEFINED, id, name)], counter)
  }

  ghost function Predefined(es: seq<Entry>): seq<Entry> {
    if es == [] then []
    else if es[|es| - 1].kind != NORMAL then Predefined(es[..|es| - 1]) + [es[|es| - 1]]
    else Predefined(es[..|es| - 1])
  }

  lemma ByNameAppended(es: seq<Entry>, e: Entry)
    requires ByName(es, e.name) == |es|
    ensures ByName(es + [e], e.name) == |es|
  {
    assert (es + [e])[|es|] == e;
    assert forall i :: 0 <= i < |es| ==> (es + [e])[i] == es[i];
  }

  lemma AddedRegular(es: seq<Entry>, counter: nat, name: string, id: nat)
    requires Regular(es, counter)
    ensures Regular(Added(es, counter, name, id).0, Added(es, counter, name, id).1)
  {
    var (es', c) := Added(es, counter, name, id);
    if es' != es {
      assert es'[..|es' | - 1] == es;
    }
  }

  lemma {:induction false} PredefinedProps(es: seq<Entry>)
    ensures NormalIds(Predefined(es)) == [] && |Predefined(es)| <= |es|
    ensures forall e :: e in Predefined(es) <==> e in es && e.kind != NORMAL
  {
    if es != [] {
      var t, e := es[..|es| - 1], es[|es| - 1];
      PredefinedProps(t);
      assert es == t + [e];
      if e.kind != NORMAL {
        assert Predefined(es)[..|Predefined(t)|] == Predefined(t);
      }
    }
  }

  /** Topics are kept or erased one by one, in their order. */
  lemma {:induction false} PredefinedAppend(xs: seq<Entry>, ys: seq<Entry>)
    ensures Predefined(xs + ys) == Predefined(xs) + Predefined(ys)
    decreases |ys|
  {
    if ys == [] {
      assert xs + ys == xs;
    } else {
      var t, e, zs := ys[..|ys| - 1], ys[|ys| - 1], xs + ys;
      PredefinedAppend(xs, t);
      assert zs[..|zs| - 1] == xs + t && zs[|zs| - 1] == e;
    }
  }

  lemma PredefinedOne(e: Entry)
    ensures Predefined([e]) == if e.kind == NORMAL then [] else [e]
  {
    assert [e][..0] == [];
  }

  lemma {:induction false} PredefinedNames(es: seq<Entry>)
    requires NamesDistinct(es)
    ensures NamesDistinct(Predefined(es))
  {
    if es != [] {
      var t, e := es[..|es| - 1], es[|es| - 1];
      PredefinedNames(t);
      PredefinedProps(t);
      assert forall x :: x in t ==> x.name != e.name;
      DistinctAppend(Predefined(t), e);
    }
  }

  lemma DistinctAppend(es: seq<Entry>, e: Entry)
    ensures NamesDistinct(es) && (forall x :: x in es ==> x.name != e.name) ==> NamesDistinct(es + [e])
  {
  }

  lemma ErasedRegular(es: seq<Entry>, counter: nat)
    requires Regular(es, counter)
    ensures Regular(Predefined(es), counter)
  {
    PredefinedProps(es);
    PredefinedNames(es);
  }

  /** Where a normal entry stands among the normal ids. */
  lemma {:induction false} NormalRank(es: seq<Entry>, i: nat) returns (r: nat)
    requires i < |es| && es[i].kind == NORMAL
    ensures r < |NormalIds(es)| && NormalIds(es)[r] == es[i].id && r == |NormalIds(es[..i])|
  {
    var t := es[..|es| - 1];
    if i == |es| - 1 {
      r := |NormalIds(t)|;
    } else {
      r := NormalRank(t, i);
      assert t[..i] == es[..i];
    }
  }

  lemma {:induction false} NormalIdsGrow(es: seq<Entry>, i: nat, j: nat)
    requires i <= j <= |es|
    ensures |NormalIds(es[..i])| <= |NormalIds(es[..j])| <= j
    ensures i < j && es[i].kind == NORMAL ==> |NormalIds(es[..i])| < |NormalIds(es[..j])|
    decreases j
  {
    if i < j {
      assert es[..j][..j - 1] == es[..j - 1];
      NormalIdsGrow(es, i, j - 1);
    } else if j > 0 {
      NormalIdsGrow(es, 0, j - 1);
      assert es[..j][..j - 1] == es[..j - 1];
    }
  }

  /** Normal topics have pairwise distinct ids, so lookup by name and lookup by id invert each other. */
  lemma LookupsInverse(es: seq<Entry>, counter: nat, i: nat)
    requires Regular(es, counter) && i < |es|
    ensures ByName(es, es[i].name) == i
    ensures es[i].kind == NORMAL ==> ById(es, NORMAL, es[i].id) == i && 1 <= es[i].id <= 0xfffe
  {
    if es[i].kind == NORMAL {
      var k := ById(es, NORMAL, es[i].id);
      var r := NormalRank(es, i);
      var q := NormalRank(es, k);
      NormalIdsGrow(es, k, i);
      NormalIdsGrow(es, |es|, |es|);
      assert es[..|es|] == es;
      IdRunDistinct(NormalIds(es), counter);
    }
  }

  // ----- runs

  datatype Op = AddTopic(name: string, id: nat) | EraseNormals

  /** The entries and the id counter of a registry after a run of operations. */
  ghost function Registry(ops: seq<Op>): (r: (seq<Entry>, nat))
    ensures r.1 <= 0xffff
  {
    if ops == [] then ([], 0)
    else
      var (es, counter) := Registry(ops[..|ops| - 1]);
      match ops[|ops| - 1]
      case AddTopic(name, id) => Added(es, counter, name, id)
      case EraseNormals => (Predefined(es), counter)
  }

  /** In every reachable registry each topic is found by its name, and each normal topic by its id. */
  lemma {:induction false} EveryRegistry(ops: seq<Op>)
    ensures var (es, counter) := Registry(ops);
            && Regular(es, counter)
            && (forall i :: 0 <= i < |es| ==> ByName(es, es[i].name) == i)
            && (forall i :: 0 <= i < |es| && es[i].kind == NORMAL ==>
                  1 <= es[i].id <= 0xfffe && ById(es, NORMAL, es[i].id) == i)
  {
    var (es, counter) := Registry(ops);
    if ops != [] {
      var (es0, c0) := Registry(ops[..|ops| - 1]);
      EveryRegistry(ops[..|ops| - 1]);
      match ops[|ops| - 1]
      case AddTopic(name, id) => AddedRegular(es0, c0, name, id);
      case EraseNormals => ErasedRegular(es0, c0);
    }
    forall i | 0 <= i < |es|
      ensures ByName(es, es[i].name) == i
      ensures es[i].kind == NORMAL ==> 1 <= es[i].id <= 0xfffe && ById(es, NORMAL, es[i].id) == i
    {
      LookupsInverse(es, counter, i);
    }
  }

  // ----- the linked list

  class Topic {
    const kind: TopicType
    const topicId: nat
    const name: string
    var next: Topic?

    constructor (kind: TopicType, topicId: nat, name: string)
      ensures this.kind == kind && this.topicId == topicId && this.name == name && next == null
    {
      this.kind := kind;
      this.topicId := topicId;
      this.name := name;
      next := null;
    }

    ghost function Value(): Entry { Entry(kind, topicId, name) }
  }

  ghost function Values(ts: seq<Topic>): (es: seq<Entry>)
    ensures |es| == |ts| && forall i :: 0 <= i < |ts| ==> es[i] == ts[i].Value()
  {
    seq(|ts|, i requires 0 <= i < |ts| => ts[i].Value())
  }

  /** The topics from index i on, as the pointer that reaches them. */
  ghost function At(ts: seq<Topic>, i: nat): Topic? {
    if i < |ts| then ts[i] else null
  }

  ghost predicate Linked(first: Topic?, ts: seq<Topic>)
    reads ts
  {
    && first == At(ts, 0)
    && (forall i {:trigger ts[i].next} :: 0 <= i < |ts| ==> ts[i].next == At(ts, i + 1))
    && (forall i, j :: 0 <= i < j < |ts| ==> ts[i] != ts[j])
  }

  /** The topics that are not normal. */
  ghost function KeptOf(ts: seq<Topic>): seq<Topic> {
    if ts == [] then []
    else if ts[|ts| - 1].kind != NORMAL then KeptOf(ts[..|ts| - 1]) + [ts[|ts| - 1]]
    else KeptOf(ts[..|ts| - 1])
  }

  lemma {:induction false} KeptValues(ts: seq<Topic>)
    ensures Values(KeptOf(ts)) == Predefined(Values(ts))
  {
    if ts != [] {
      KeptValues(ts[..|ts| - 1]);
      assert Values(ts)[..|ts| - 1] == Values(ts[..|ts| - 1]);
    }
  }

  lemma {:induction false} KeptProps(ts: seq<Topic>, i: nat)
    requires i <= |ts| && forall j, k :: 0 <= j < k < |ts| ==> ts[j] != ts[k]
    ensures forall t :: t in KeptOf(ts[..i]) ==> t in ts
    ensures forall k, m :: 0 <= k < |KeptOf(ts[..i])| && i <= m < |ts| ==> KeptOf(ts[..i])[k] != ts[m]
    ensures forall j, k :: 0 <= j < k < |KeptOf(ts[..i])| ==> KeptOf(ts[..i])[j] != KeptOf(ts[..i])[k]
    ensures i < |ts| ==>
              KeptOf(ts[..i + 1]) == (if ts[i].kind == NORMAL then KeptOf(ts[..i]) else KeptOf(ts[..i]) + [ts[i]])
  {
    if i < |ts| {
      assert ts[..i + 1][..i] == ts[..i];
    }
    if i > 0 {
      KeptProps(ts, i - 1);
      assert ts[..i][..i - 1] == ts[..i - 1];
    }
  }

  class Topics {
    var first: Topic?
    var nextTopicId: nat
    var cnt: nat
    ghost var list: seq<Topic>

    ghost function Entries(): seq<Entry>
      reads this
    {
      Values(list)
    }

    ghost predicate Valid()
      reads this, list
    {
      Linked(first, list) && cnt == |list| && nextTopicId <= 0xffff
    }

    constructor ()
      ensures Valid() && Entries() == [] && nextTopicId == 0
    {
      first := null;
      nextTopicId := 0;
      cnt := 0;
      list := [];
    }

    method GetTopicByName(name: string) returns (t: Topic?)
      requires Valid()
      ensures t == At(list, ByName(Entries(), name))
    {
      var p := first;
      ghost var i := 0;
      while p != null
        invariant i <= |list| && p == At(list, i)
        invariant forall j :: 0 <= j < i ==> list[j].name != name
        decreases |list| - i
      {
        if p.name == name {
          return p;
        }
        p := p.next;
        i := i + 1;
      }
      t := null;
    }

    method GetTopicById(kind: TopicType, id: nat) returns (t: Topic?)
      requires Valid()
      ensures t == At(list, ById(Entries(), kind, id))
    {
      var p := first;
      ghost var i := 0;
      while p != null
        invariant i <= |list| && p == At(list, i)
        invariant forall j :: 0 <= j < i ==> list[j].kind != kind || list[j].topicId != id
        decreases |list| - i
      {
        if p.kind == kind && p.topicId == id {
          return p;
        }
        p := p.next;
        i := i + 1;
      }
      t := null;
    }

    method GetNextTopicId() returns (id: nat)
      requires nextTopicId <= 0xffff
      modifies this`nextTopicId
      ensures nextTopicId == NextId(old(nextTopicId)) && id == nextTopicId
    {
      nextTopicId := (nextTopicId + 1) % 0x1_0000;
      if nextTopicId == 0xffff {
        nextTopicId := (nextTopicId + 2) % 0x1_0000;
      }
      id := nextTopicId;
    }

    /** Adds a normal topic (id 0) or a predefined one. */
    method Add(name: string, id: nat) returns (t: Topic?)
      requires Valid()
      modifies this, list
      ensures Valid() && (Entries(), nextTopicId) == Added(old(Entries()), old(nextTopicId), name, id)
      ensures |list| == |old(list)| ==> list == old(list)
      ensures |list| > |old(list)| ==> list == old(list) + [t] && fresh(t)
      ensures old(|list|) >= MAX_TOPIC_PAR_CLIENT ==> t == null
      ensures old(|list|) < MAX_TOPIC_PAR_CLIENT ==> t == At(list, ByName(Entries(), name)) && t != null
    {
      if cnt >= MAX_TOPIC_PAR_CLIENT {
        return null;
      }
      t := GetTopicByName(name);
      if t != null {
        return;
      }
      ghost var es := Entries();
      t := NewTopic(name, id);
      Append(t);
      assert Entries() == es + [t.Value()];
      ByNameAppended(es, t.Value());
    }

    method NewTopic(name: string, id: nat) returns (topic: Topic)
      requires nextTopicId <= 0xffff
      modifies this`nextTopicId
      ensures fresh(topic) && topic.next == null
      ensures nextTopicId == if id == 0 then NextId(old(nextTopicId)) else old(nextTopicId)
      ensures topic.Value() == if id == 0 then Entry(NORMAL, nextTopicId, name) else Entry(PREDEFINED, id, name)
    {
      if id == 0 {
        var nid := GetNextTopicId();
        topic := new Topic(NORMAL, nid, name);
      } else {
        topic := new Topic(PREDEFINED, id, name);
      }
    }

    /** Counts a new topic and hangs it behind the last one. */
    method Append(topic: Topic)
      requires Linked(first, list) && cnt == |list| && topic !in list && topic.next == null
      modifies this`first, this`cnt, this`list, list
      ensures Linked(first, list) && cnt == |list| && list == old(list) + [topic]
    {
      cnt := cnt + 1;
      if first == null {
        first := topic;
      } else {
        var tp := first;
        ghost var i := 0;
        while tp.next != null
          invariant i < |list| && tp == list[i]
          decreases |list| - i
        {
          tp := tp.next;
          i := i + 1;
        }
        tp.next := topic;
      }
      list := list + [topic];
    }

    /** Adds the topic of a topic id structure; only normal topics are added this way. */
    method AddTopicId(kind: TopicType, name: string) returns (t: Topic?)
      requires Valid()
      modifies this, list
      ensures Valid()
      ensures kind != NORMAL ==> t == null && list == old(list) && nextTopicId == old(nextTopicId)
      ensures kind == NORMAL ==> (Entries(), nextTopicId) == Added(old(Entries()), old(nextTopicId), name, 0)
      ensures kind == NORMAL ==> t == At(list, ByName(Entries(), name))
    {
      if kind != NORMAL {
        return null;
      }
      t := GetTopicByName(name);
      if t != null {
        return;
      }
      t := Add(name, 0);
    }

    /** The first topic that matches a name as a filter. */
    method Match(kind: TopicType, name: string) returns (t: Topic?)
      requires Valid()
      ensures kind != NORMAL ==> t == null
      ensures kind == NORMAL ==>
                exists i :: 0 <= i <= |list| && t == At(list, i)
                            && (forall j :: 0 <= j < i ==> !IsFilterOf(list[j].name, name))
                            && (i < |list| ==> IsFilterOf(list[i].name, name))
    {
      if kind != NORMAL {
        return null;
      }
      t := first;
      ghost var i := 0;
      while t != null
        invariant i <= |list| && t == At(list, i)
        invariant forall j :: 0 <= j < i ==> !IsFilterOf(list[j].name, name)
        decreases |list| - i
      {
        var m := TopicMatch.IsMatch(t.name, name);
        if m {
          return;
        }
        t := t.next;
        i := i + 1;
      }
    }

    method EraseNormal()
      requires Valid()
      modifies this, list
      ensures Valid() && Entries() == Predefined(old(Entries())) && nextTopicId == old(nextTopicId)
    {
      ghost var es := Entries();
      KeptValues(list);
      UnlinkNormal();
      assert Entries() == Predefined(es);
    }

    /** The loop of EraseNormal; kept is what stays of the topics before i. */
    method UnlinkNormal()
      requires Linked(first, list) && cnt == |list|
      modifies this`first, this`cnt, this`list, list
      ensures Linked(first, list) && cnt == |list| && list == KeptOf(old(list))
    {
      ghost var all, i := list, 0;
      ghost var kept: seq<Topic> := [];
      var topic := first;
      var next: Topic? := null;
      var prev: Topic? := null;
      while topic != null
        invariant i <= |all| && topic == At(all, i) && list == all && cnt == |kept| + |all| - i
        invariant kept == KeptOf(all[..i])
        invariant forall k {:trigger all[k].next} :: i <= k < |all| ==> all[k].next == At(all, k + 1)
        invariant first == if kept == [] then topic else kept[0]
        invariant prev == if kept == [] then null else kept[|kept| - 1]
        invariant forall k {:trigger kept[k].next} :: 0 <= k < |kept| ==>
                    kept[k].next == if k == |kept| - 1 then topic else kept[k + 1]
        decreases |all| - i
      {
        KeptProps(all, i);
        if topic.kind == NORMAL {
          next := topic.next;
          if first == topic {
            first := next;
          }
          if prev != null {
            assert kept[|kept| - 1] in all;
            prev.next := next;
          }
          cnt := cnt - 1;
          topic := next;
        } else {
          kept := kept + [topic];
          prev := topic;
          topic := topic.next;
        }
        i := i + 1;
      }
      KeptProps(all, i);
      assert all[..i] == all;
      list := kept;
    }
  }

  ghost predicate IsFilterOf(filter: string, name: string) {
    TopicMatch.GatewayMatch(TopicMatch.Split(filter), TopicMatch.Split(name))
  }
}
