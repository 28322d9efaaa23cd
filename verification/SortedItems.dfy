/**
 Key-sorted sequences of (key, value) items, the abstract value of a 2-3 tree.
 Put and Drop are linear scans; the lemmas say how a scan may be confined to the part of the
 sequence that lies on one side of a separator, and what both do to the finite map a sequence denotes.
 */
module SortedItems {

  type Compare<!K> = (K, K) -> int

  /** The contract the tree expects of the `compare` member of its key class. */
  ghost predicate TotalOrder<K(!new)>(cmp: Compare<K>) {
    && (forall a, b :: cmp(a, b) == 0 <==> a == b)
    && (forall a, b :: cmp(a, b) < 0 <==> cmp(b, a) > 0)
    && (forall a, b, c :: cmp(a, b) < 0 && cmp(b, c) < 0 ==> cmp(a, c) < 0)
  }

  ghost predicate Sorted<K, V>(cmp: Compare<K>, s: seq<(K, V)>) {
    forall i, j :: 0 <= i < j < |s| ==> cmp(s[i].0, s[j].0) < 0
  }

  /** k compares consistently with the items of s: above a prefix, equal to at most one, below the rest. */
  ghost predicate Cut<K, V>(cmp: Compare<K>, s: seq<(K, V)>, k: K) {
    forall i, j :: 0 <= i < j < |s| && cmp(k, s[j].0) >= 0 ==> cmp(k, s[i].0) > 0
  }

  lemma SortedCut<K(!new), V>(cmp: Compare<K>, s: seq<(K, V)>, k: K)
    requires TotalOrder(cmp) && Sorted(cmp, s)
    ensures Cut(cmp, s, k)
  {
    forall i, j | 0 <= i < j < |s| && cmp(k, s[j].0) >= 0 ensures cmp(k, s[i].0) > 0 {
      assert cmp(s[i].0, s[j].0) < 0;
    }
  }

  /** Every key of s is strictly below k. */
  ghost predicate Below<K, V>(cmp: Compare<K>, s: seq<(K, V)>, k: K) {
    forall i :: 0 <= i < |s| ==> cmp(k, s[i].0) > 0
  }

  ghost function Put<K, V>(cmp: Compare<K>, s: seq<(K, V)>, e: (K, V)): seq<(K, V)> {
    if s == [] then [e]
    else if cmp(e.0, s[0].0) < 0 then [e] + s
    else if cmp(e.0, s[0].0) == 0 then [e] + s[1..]
    else [s[0]] + Put(cmp, s[1..], e)
  }

  ghost function Drop<K, V>(cmp: Compare<K>, s: seq<(K, V)>, k: K): seq<(K, V)> {
    if s == [] || cmp(k, s[0].0) < 0 then s
    else if cmp(k, s[0].0) == 0 then s[1..]
    else [s[0]] + Drop(cmp, s[1..], k)
  }

  ghost function MapOf<K, V>(s: seq<(K, V)>): map<K, V> {
    if s == [] then map[] else MapOf(s[1..])[s[0].0 := s[0].1]
  }

  /** What the comparison with a separator says about its two sides. */
  lemma CutSides<K, V>(cmp: Compare<K>, l: seq<(K, V)>, p: (K, V), r: seq<(K, V)>, k: K)
    requires Cut(cmp, l + [p] + r, k)
    ensures Cut(cmp, l, k) && Cut(cmp, r, k)
    ensures cmp(k, p.0) >= 0 ==> Below(cmp, l, k)
    ensures cmp(k, p.0) <= 0 ==> forall i :: 0 <= i < |r| ==> cmp(k, r[i].0) < 0
  {
    var s := l + [p] + r;
    assert forall i :: 0 <= i < |l| ==> l[i] == s[i];
    assert s[|l|] == p;
    assert forall i :: 0 <= i < |r| ==> r[i] == s[|l| + 1 + i];
  }

  /** A scan for a key below the separator never passes it. */
  lemma {:induction false} PutLeft<K, V>(cmp: Compare<K>, l: seq<(K, V)>, p: (K, V), r: seq<(K, V)>, e: (K, V))
    requires cmp(e.0, p.0) < 0
    ensures Put(cmp, l + [p] + r, e) == Put(cmp, l, e) + [p] + r
  {
    if l != [] {
      assert (l + [p] + r)[1..] == l[1..] + [p] + r;
      PutLeft(cmp, l[1..], p, r, e);
    }
  }

  /** A scan for a key above everything in l passes over l. */
  lemma {:induction false} PutSkip<K, V>(cmp: Compare<K>, l: seq<(K, V)>, r: seq<(K, V)>, e: (K, V))
    requires Below(cmp, l, e.0)
    ensures Put(cmp, l + r, e) == l + Put(cmp, r, e)
  {
    if l == [] {
      assert l + r == r;
    } else {
      assert (l + r)[0] == l[0] && (l + r)[1..] == l[1..] + r;
      assert Below(cmp, l[1..], e.0);
      PutSkip(cmp, l[1..], r, e);
    }
  }

  lemma {:induction false} DropLeft<K, V>(cmp: Compare<K>, l: seq<(K, V)>, p: (K, V), r: seq<(K, V)>, k: K)
    requires cmp(k, p.0) < 0
    ensures Drop(cmp, l + [p] + r, k) == Drop(cmp, l, k) + [p] + r
  {
    if l != [] {
      assert (l + [p] + r)[1..] == l[1..] + [p] + r;
      DropLeft(cmp, l[1..], p, r, k);
    }
  }

  lemma {:induction false} DropSkip<K, V>(cmp: Compare<K>, l: seq<(K, V)>, r: seq<(K, V)>, k: K)
    requires Below(cmp, l, k)
    ensures Drop(cmp, l + r, k) == l + Drop(cmp, r, k)
  {
    if l == [] {
      assert l + r == r;
    } else {
      assert (l + r)[0] == l[0] && (l + r)[1..] == l[1..] + r;
      assert Below(cmp, l[1..], k);
      DropSkip(cmp, l[1..], r, k);
    }
  }

  lemma PutPast<K, V>(cmp: Compare<K>, l: seq<(K, V)>, p: (K, V), r: seq<(K, V)>, e: (K, V))
    requires Below(cmp, l, e.0) && cmp(e.0, p.0) >= 0
    ensures Put(cmp, l + [p] + r, e) == if cmp(e.0, p.0) == 0 then l + [e] + r else l + [p] + Put(cmp, r, e)
  {
    assert l + [p] + r == l + ([p] + r);
    PutSkip(cmp, l, [p] + r, e);
    assert ([p] + r)[1..] == r;
  }

  lemma DropPast<K, V>(cmp: Compare<K>, l: seq<(K, V)>, p: (K, V), r: seq<(K, V)>, k: K)
    requires Below(cmp, l, k) && cmp(k, p.0) >= 0
    ensures Drop(cmp, l + [p] + r, k) == if cmp(k, p.0) == 0 then l + r else l + [p] + Drop(cmp, r, k)
  {
    assert l + [p] + r == l + ([p] + r);
    DropSkip(cmp, l, [p] + r, k);
    assert ([p] + r)[1..] == r;
  }

  /** The three ways a key compares with a separator, for Put. */
  lemma PutAt<K, V>(cmp: Compare<K>, l: seq<(K, V)>, p: (K, V), r: seq<(K, V)>, e: (K, V))
    requires Cut(cmp, l + [p] + r, e.0)
    ensures Cut(cmp, l, e.0) && Cut(cmp, r, e.0)
    ensures Put(cmp, l + [p] + r, e) ==
            if cmp(e.0, p.0) < 0 then Put(cmp, l, e) + [p] + r
            else if cmp(e.0, p.0) == 0 then l + [e] + r
            else l + [p] + Put(cmp, r, e)
  {
    CutSides(cmp, l, p, r, e.0);
    if cmp(e.0, p.0) < 0 {
      PutLeft(cmp, l, p, r, e);
    } else {
      PutPast(cmp, l, p, r, e);
    }
  }

  /** The three ways a key compares with a separator, for Drop. */
  lemma DropAt<K, V>(cmp: Compare<K>, l: seq<(K, V)>, p: (K, V), r: seq<(K, V)>, k: K)
    requires Cut(cmp, l + [p] + r, k)
    ensures Cut(cmp, l, k) && Cut(cmp, r, k)
    ensures Drop(cmp, l + [p] + r, k) ==
            if cmp(k, p.0) < 0 then Drop(cmp, l, k) + [p] + r
            else if cmp(k, p.0) == 0 then l + r
            else l + [p] + Drop(cmp, r, k)
  {
    CutSides(cmp, l, p, r, k);
    if cmp(k, p.0) < 0 {
      DropLeft(cmp, l, p, r, k);
    } else {
      DropPast(cmp, l, p, r, k);
    }
  }

  /** The five ways a key compares with two separators, for Put. */
  lemma PutAtTwo<K, V>(cmp: Compare<K>, l: seq<(K, V)>, p: (K, V), m: seq<(K, V)>, q: (K, V), r: seq<(K, V)>, e: (K, V))
    requires Cut(cmp, l + [p] + (m + [q] + r), e.0)
    ensures Cut(cmp, l, e.0) && Cut(cmp, m, e.0) && Cut(cmp, r, e.0)
    ensures Put(cmp, l + [p] + (m + [q] + r), e) ==
            if cmp(e.0, p.0) < 0 then Put(cmp, l, e) + [p] + (m + [q] + r)
            else if cmp(e.0, p.0) == 0 then l + [e] + (m + [q] + r)
            else if cmp(e.0, q.0) < 0 then l + [p] + (Put(cmp, m, e) + [q] + r)
            else if cmp(e.0, q.0) == 0 then l + [p] + (m + [e] + r)
            else l + [p] + (m + [q] + Put(cmp, r, e))
  {
    PutAt(cmp, l, p, m + [q] + r, e);
    PutAt(cmp, m, q, r, e);
  }

  /** The five ways a key compares with two separators, for Drop. */
  lemma DropAtTwo<K, V>(cmp: Compare<K>, l: seq<(K, V)>, p: (K, V), m: seq<(K, V)>, q: (K, V), r: seq<(K, V)>, k: K)
    requires Cut(cmp, l + [p] + (m + [q] + r), k)
    ensures Cut(cmp, l, k) && Cut(cmp, m, k) && Cut(cmp, r, k)
    ensures Drop(cmp, l + [p] + (m + [q] + r), k) ==
            if cmp(k, p.0) < 0 then Drop(cmp, l, k) + [p] + (m + [q] + r)
            else if cmp(k, p.0) == 0 then l + (m + [q] + r)
            else if cmp(k, q.0) < 0 then l + [p] + (Drop(cmp, m, k) + [q] + r)
            else if cmp(k, q.0) == 0 then l + [p] + (m + r)
            else l + [p] + (m + [q] + Drop(cmp, r, k))
  {
    DropAt(cmp, l, p, m + [q] + r, k);
    DropAt(cmp, m, q, r, k);
  }

  lemma {:induction false} MapOfKeys<K, V>(s: seq<(K, V)>, k: K)
    ensures k in MapOf(s) <==> exists i :: 0 <= i < |s| && s[i].0 == k
  {
    if s != [] {
      MapOfKeys(s[1..], k);
      if i :| 0 <= i < |s| && s[i].0 == k && i > 0 {
        assert s[1..][i - 1].0 == k;
      }
      if i :| 0 <= i < |s[1..]| && s[1..][i].0 == k {
        assert s[i + 1].0 == k;
      }
    }
  }

  lemma TailSorted<K(!new), V>(cmp: Compare<K>, s: seq<(K, V)>)
    requires TotalOrder(cmp) && Sorted(cmp, s) && s != []
    ensures Sorted(cmp, s[1..]) && s[0].0 !in MapOf(s[1..])
    ensures forall k :: cmp(k, s[0].0) < 0 ==> k !in MapOf(s)
  {
    var t := s[1..];
    assert forall i :: 0 <= i < |t| ==> t[i] == s[i + 1];
    MapOfKeys(t, s[0].0);
    forall k | cmp(k, s[0].0) < 0 ensures k !in MapOf(s) {
      MapOfKeys(s, k);
    }
  }

  lemma {:induction false} PutItems<K, V>(cmp: Compare<K>, s: seq<(K, V)>, e: (K, V))
    ensures forall x :: x in Put(cmp, s, e) ==> x == e || x in s
  {
    if s != [] && cmp(e.0, s[0].0) > 0 {
      PutItems(cmp, s[1..], e);
    }
  }

  lemma {:induction false} DropItems<K, V>(cmp: Compare<K>, s: seq<(K, V)>, k: K)
    ensures forall x :: x in Drop(cmp, s, k) ==> x in s
  {
    if s != [] && cmp(k, s[0].0) > 0 {
      DropItems(cmp, s[1..], k);
    }
  }

  /** A key in front of a sorted sequence that starts above it. */
  lemma ConsSorted<K(!new), V>(cmp: Compare<K>, e: (K, V), s: seq<(K, V)>)
    requires TotalOrder(cmp) && Sorted(cmp, s)
    requires forall x :: x in s ==> cmp(e.0, x.0) < 0
    ensures Sorted(cmp, [e] + s)
  {
    var t := [e] + s;
    forall i, j | 0 <= i < j < |t| ensures cmp(t[i].0, t[j].0) < 0 {
      assert t[j] == s[j - 1] && t[j] in s;
    }
  }

  lemma HeadBelowTail<K(!new), V>(cmp: Compare<K>, s: seq<(K, V)>, k: K)
    requires TotalOrder(cmp) && Sorted(cmp, s) && s != [] && cmp(k, s[0].0) <= 0
    ensures Sorted(cmp, s[1..])
    ensures forall x :: x in s[1..] ==> cmp(s[0].0, x.0) < 0 && cmp(k, x.0) < 0
  {
    forall x | x in s[1..] ensures cmp(s[0].0, x.0) < 0 && cmp(k, x.0) < 0 {
      var i :| 0 <= i < |s[1..]| && s[1..][i] == x;
      assert s[i + 1] == x;
    }
  }

  /** On a sorted sequence Put keeps the order. */
  lemma {:induction false} PutSorted<K(!new), V>(cmp: Compare<K>, s: seq<(K, V)>, e: (K, V))
    requires TotalOrder(cmp) && Sorted(cmp, s)
    ensures Sorted(cmp, Put(cmp, s, e))
  {
    if s != [] {
      HeadBelowTail(cmp, s, s[0].0);
      if cmp(e.0, s[0].0) <= 0 {
        HeadBelowTail(cmp, s, e.0);
        ConsSorted(cmp, e, if cmp(e.0, s[0].0) < 0 then s else s[1..]);
      } else {
        PutSorted(cmp, s[1..], e);
        PutItems(cmp, s[1..], e);
        ConsSorted(cmp, s[0], Put(cmp, s[1..], e));
      }
    }
  }

  /** On a sorted sequence Drop keeps the order. */
  lemma {:induction false} DropSorted<K(!new), V>(cmp: Compare<K>, s: seq<(K, V)>, k: K)
    requires TotalOrder(cmp) && Sorted(cmp, s)
    ensures Sorted(cmp, Drop(cmp, s, k))
  {
    if s != [] {
      HeadBelowTail(cmp, s, s[0].0);
      if cmp(k, s[0].0) > 0 {
        DropSorted(cmp, s[1..], k);
        DropItems(cmp, s[1..], k);
        ConsSorted(cmp, s[0], Drop(cmp, s[1..], k));
      }
    }
  }

  lemma UpdatesCommute<K, V>(m: map<K, V>, e: (K, V), f: (K, V))
    requires e.0 != f.0
    ensures m[e.0 := e.1][f.0 := f.1] == m[f.0 := f.1][e.0 := e.1]
    ensures m[f.0 := f.1] - {e.0} == (m - {e.0})[f.0 := f.1]
  {
  }

  /** Put updates the map a sequence denotes. */
  lemma {:induction false} PutIsUpdate<K, V>(cmp: Compare<K>, s: seq<(K, V)>, e: (K, V))
    requires forall k :: cmp(e.0, k) == 0 <==> e.0 == k
    ensures MapOf(Put(cmp, s, e)) == MapOf(s)[e.0 := e.1]
  {
    if s == [] || cmp(e.0, s[0].0) < 0 {
      assert ([e] + s)[1..] == s;
    } else if cmp(e.0, s[0].0) == 0 {
      assert Put(cmp, s, e)[1..] == s[1..];
    } else {
      PutIsUpdate(cmp, s[1..], e);
      assert Put(cmp, s, e)[1..] == Put(cmp, s[1..], e);
      UpdatesCommute(MapOf(s[1..]), e, s[0]);
    }
  }

  /** On a sorted sequence Drop removes exactly the key from the map. */
  lemma {:induction false} DropIsRemoval<K(!new), V>(cmp: Compare<K>, s: seq<(K, V)>, k: K)
    requires TotalOrder(cmp) && Sorted(cmp, s)
    ensures MapOf(Drop(cmp, s, k)) == MapOf(s) - {k}
  {
    if s != [] {
      TailSorted(cmp, s);
      if cmp(k, s[0].0) > 0 {
        DropIsRemoval(cmp, s[1..], k);
        DropStep(cmp, s, k);
      }
    }
  }

  lemma DropStep<K, V>(cmp: Compare<K>, s: seq<(K, V)>, k: K)
    requires s != [] && cmp(k, s[0].0) > 0 && k != s[0].0
    requires MapOf(Drop(cmp, s[1..], k)) == MapOf(s[1..]) - {k}
    ensures MapOf(Drop(cmp, s, k)) == MapOf(s) - {k}
  {
    assert Drop(cmp, s, k)[1..] == Drop(cmp, s[1..], k);
    UpdatesCommute(MapOf(s[1..]), (k, s[0].1), s[0]);
  }

  /** All that an insertion into a sorted sequence does. */
  lemma PutOnSorted<K(!new), V>(cmp: Compare<K>, s: seq<(K, V)>, e: (K, V))
    requires TotalOrder(cmp) && Sorted(cmp, s)
    ensures Cut(cmp, s, e.0) && Sorted(cmp, Put(cmp, s, e)) && MapOf(Put(cmp, s, e)) == MapOf(s)[e.0 := e.1]
  {
    SortedCut(cmp, s, e.0);
    PutSorted(cmp, s, e);
    PutIsUpdate(cmp, s, e);
  }

  /** All that a removal from a sorted sequence does. */
  lemma DropOnSorted<K(!new), V>(cmp: Compare<K>, s: seq<(K, V)>, k: K)
    requires TotalOrder(cmp) && Sorted(cmp, s)
    ensures Cut(cmp, s, k) && Sorted(cmp, Drop(cmp, s, k)) && MapOf(Drop(cmp, s, k)) == MapOf(s) - {k}
  {
    SortedCut(cmp, s, k);
    DropSorted(cmp, s, k);
    DropIsRemoval(cmp, s, k);
  }

  /** A sorted sequence has one item for each key of its map. */
  lemma {:induction false} MapOfSize<K(!new), V>(cmp: Compare<K>, s: seq<(K, V)>)
    requires TotalOrder(cmp) && Sorted(cmp, s)
    ensures |MapOf(s)| == |s|
  {
    if s != [] {
      TailSorted(cmp, s);
      MapOfSize(cmp, s[1..]);
      assert MapOf(s).Keys == MapOf(s[1..]).Keys + {s[0].0};
      assert |MapOf(s).Keys| == |MapOf(s[1..]).Keys| + 1;
    }
  }

  /** Where a key must be looked for, relative to a separator. */
  lemma MapAt<K, V>(cmp: Compare<K>, l: seq<(K, V)>, p: (K, V), r: seq<(K, V)>, k: K)
    requires Cut(cmp, l + [p] + r, k)
    requires forall x :: cmp(k, x) == 0 <==> k == x
    ensures Cut(cmp, l, k) && Cut(cmp, r, k)
    ensures k in MapOf(l + [p] + r) <==>
            if cmp(k, p.0) < 0 then k in MapOf(l) else cmp(k, p.0) == 0 || k in MapOf(r)
    ensures k in MapOf(l + [p] + r) ==>
              MapOf(l + [p] + r)[k] ==
              (if cmp(k, p.0) < 0 then MapOf(l)[k] else if cmp(k, p.0) == 0 then p.1 else MapOf(r)[k])
  {
    CutSides(cmp, l, p, r, k);
    MapAtSides(l, p, r, k, cmp(k, p.0));
  }

  lemma MapAtSides<K, V>(l: seq<(K, V)>, p: (K, V), r: seq<(K, V)>, k: K, c: int)
    requires c == 0 <==> k == p.0
    requires c <= 0 ==> forall x :: x in r ==> x.0 != k
    requires c >= 0 ==> forall x :: x in l ==> x.0 != k
    ensures k in MapOf(l + [p] + r) <==> if c < 0 then k in MapOf(l) else c == 0 || k in MapOf(r)
    ensures k in MapOf(l + [p] + r) ==>
              MapOf(l + [p] + r)[k] == (if c < 0 then MapOf(l)[k] else if c == 0 then p.1 else MapOf(r)[k])
  {
    MapOfConcat(l + [p], r);
    MapOfConcat(l, [p]);
    MapOfKeys(l, k);
    MapOfKeys(r, k);
    assert MapOf([p]) == map[p.0 := p.1];
  }

  lemma {:induction false} MapOfConcat<K, V>(l: seq<(K, V)>, r: seq<(K, V)>)
    ensures MapOf(l + r) == MapOf(r) + MapOf(l)
  {
    if l == [] {
      assert l + r == r;
    } else {
      assert (l + r)[1..] == l[1..] + r;
      MapOfConcat(l[1..], r);
    }
  }
}
