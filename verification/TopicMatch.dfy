/**
 Topic filters against topic names: the gateway's level walk, the client library's character walk, and
 the rule of section 4.7.1 of MQTT 3.1.1, on strings split at '/'.
 */
module TopicMatch {

  const NPOS := -1

  /** string::find for the level separator. */
  function FindSlash(s: string, pos: nat): (r: int)
    requires pos <= |s|
    ensures r == NPOS || pos <= r < |s|
    ensures r != NPOS ==> s[r] == '/'
    ensures forall k :: pos <= k < (if r == NPOS then |s| else r) ==> s[k] != '/'
    decreases |s| - pos
  {
    if pos == |s| then NPOS
    else if s[pos] == '/' then pos
    else FindSlash(s, pos + 1)
  }

  /** The levels of a topic from a position on; there is always at least one. */
  function Levels(s: string, pos: nat): (levels: seq<string>)
    requires pos <= |s|
    ensures levels != []
    decreases |s| - pos
  {
    var i := FindSlash(s, pos);
    if i == NPOS then [s[pos..]] else [s[pos..i]] + Levels(s, i + 1)
  }

  function Split(s: string): seq<string> {
    Levels(s, 0)
  }

  lemma LevelsTail(s: string, pos: nat)
    requires pos <= |s|
    ensures var i := FindSlash(s, pos);
            if i == NPOS then Levels(s, pos) == [s[pos..]]
            else Levels(s, pos)[0] == s[pos..i] && Levels(s, pos)[1..] == Levels(s, i + 1)
  {
  }

  lemma LevelsSingle(s: string, pos: nat, level: string)
    requires pos <= |s| && '/' !in level
    ensures Levels(s, pos) == [level] <==> s[pos..] == level
  {
    var i := FindSlash(s, pos);
    if i != NPOS {
      assert s[pos..][i - pos] == '/';
    }
  }

  ghost function Join(levels: seq<string>): string {
    if levels == [] then "" else if |levels| == 1 then levels[0] else levels[0] + "/" + Join(levels[1..])
  }

  /** The levels joined by '/' are the string again, and none of them holds one. */
  lemma {:induction false} LevelsJoin(s: string, pos: nat)
    requires pos <= |s|
    ensures Join(Levels(s, pos)) == s[pos..]
    ensures forall i :: 0 <= i < |Levels(s, pos)| ==> '/' !in Levels(s, pos)[i]
    decreases |s| - pos
  {
    var i, levels := FindSlash(s, pos), Levels(s, pos);
    LevelsTail(s, pos);
    if i != NPOS {
      LevelsJoin(s, i + 1);
      CutAtSlash(s, pos, i);
      assert forall k :: 1 <= k < |levels| ==> levels[k] == levels[1..][k - 1];
    }
  }

  lemma CutAtSlash(s: string, pos: nat, i: nat)
    requires pos <= i < |s| && s[i] == '/'
    ensures s[pos..] == s[pos..i] + "/" + s[i + 1..]
  {
  }

  lemma SplitJoins(s: string)
    ensures Join(Split(s)) == s && forall i :: 0 <= i < |Split(s)| ==> '/' !in Split(s)[i]
  {
    LevelsJoin(s, 0);
    assert s[0..] == s;
  }

  // ----- the gateway: Topic::isMatch

  /** What the loop of IsMatch decides, level by level. */
  ghost predicate GatewayMatch(f: seq<string>, n: seq<string>)
    requires f != [] && n != []
    decreases |f|
  {
    if |f| > 1 && |n| > 1 then
      f[0] == "#" || ((f[0] == "+" || f[0] == n[0]) && GatewayMatch(f[1..], n[1..]))
    else if |f| == 1 && |n| == 1 then
      f[0] == "#" || f[0] == "+" || f[0] == n[0]
    else if |n| == 1 then
      f[0] == n[0] && f[1..] == ["#"]
    else
      f[0] == "#"
  }

  lemma GatewayMatchHeads(f: seq<string>, n: seq<string>)
    requires f != [] && n != []
    ensures GatewayMatch(f, n) <==>
            if f[1..] != [] && n[1..] != [] then
              f[0] == "#" || ((f[0] == "+" || f[0] == n[0]) && GatewayMatch(f[1..], n[1..]))
            else if f[1..] == [] && n[1..] == [] then f[0] == "#" || f[0] == "+" || f[0] == n[0]
            else if f[1..] != [] then f[0] == n[0] && f[1..] == ["#"]
            else f[0] == "#"
  {
  }

  /** GatewayMatch on the rest of a filter and a name. */
  ghost predicate MatchFrom(filter: string, tpos: nat, name: string, pos: nat)
    requires tpos <= |filter| && pos <= |name|
  {
    GatewayMatch(Levels(filter, tpos), Levels(name, pos))
  }

  lemma MatchFromStep(filter: string, tpos: nat, name: string, pos: nat, tloc: int, loc: int)
    requires tpos <= |filter| && pos <= |name| && tloc == FindSlash(filter, tpos) && loc == FindSlash(name, pos)
    ensures MatchFrom(filter, tpos, name, pos) <==>
            if loc != NPOS && tloc != NPOS then
              filter[tpos..tloc] == "#"
              || ((filter[tpos..tloc] == "+" || filter[tpos..tloc] == name[pos..loc])
                  && MatchFrom(filter, tloc + 1, name, loc + 1))
            else if loc == NPOS && tloc == NPOS then
              filter[tpos..] == "#" || filter[tpos..] == "+" || filter[tpos..] == name[pos..]
            else if loc == NPOS then filter[tpos..tloc] == name[pos..] && filter[tloc + 1..] == "#"
            else filter[tpos..] == "#"
  {
    LevelsTail(name, pos);
    LevelsTail(filter, tpos);
    GatewayMatchHeads(Levels(filter, tpos), Levels(name, pos));
    if tloc != NPOS {
      LevelsSingle(filter, tloc + 1, "#");
    }
  }

  method IsMatch(filter: string, name: string) returns (r: bool)
    ensures r == GatewayMatch(Split(filter), Split(name))
  {
    var tpos, pos := 0, 0;
    while true
      invariant pos <= |name| && tpos <= |filter|
      invariant GatewayMatch(Split(filter), Split(name)) == MatchFrom(filter, tpos, name, pos)
      decreases |filter| - tpos
    {
      var loc := FindSlash(name, pos);
      var tloc := FindSlash(filter, tpos);
      MatchFromStep(filter, tpos, name, pos, tloc, loc);
      if loc != NPOS && tloc != NPOS {
        var subtopic := name[pos..loc];
        var subtopict := filter[tpos..tloc];
        if subtopict == "#" {
          return true;
        } else if subtopict == "+" {
          // tloc + 1 is at most the length of the filter: the test for more in the source never succeeds
          tpos := tloc + 1;
          pos := loc + 1;
        } else if subtopic != subtopict {
          return false;
        } else {
          tpos := tloc + 1;
          pos := loc + 1;
        }
      } else if loc == NPOS && tloc == NPOS {
        var subtopic := name[pos..];
        var subtopict := filter[tpos..];
        return subtopict == "#" || subtopict == "+" || subtopic == subtopict;
      } else if loc == NPOS {
        var subtopic := name[pos..];
        var subtopict := filter[tpos..tloc];
        if subtopic != subtopict {
          return false;
        }
        tpos := tloc + 1;
        return filter[tpos..] == "#";
      } else {
        return filter[tpos..] == "#";
      }
    }
  }

  // ----- section 4.7.1 of MQTT 3.1.1

  predicate LevelMatch(f: string, n: string) {
    f == "+" || f == n
  }

  /** '+' stands for one level; a last level '#' stands for the parent and any number of levels below it. */
  ghost predicate Matches(f: seq<string>, n: seq<string>)
    requires f != []
  {
    var k := |f| - 1;
    if f[k] == "#" then |n| >= k && forall i :: 0 <= i < k ==> LevelMatch(f[i], n[i])
    else |n| == |f| && forall i :: 0 <= i <= k ==> LevelMatch(f[i], n[i])
  }

  /** Wildcards fill a level; '#' is last. */
  ghost predicate WellFormed(f: seq<string>) {
    forall i :: 0 <= i < |f| ==> ('+' in f[i] ==> f[i] == "+") && ('#' in f[i] ==> f[i] == "#" && i == |f| - 1)
  }

  /** The name is the parent level of a filter that ends in the two levels "+" and "#". */
  ghost predicate ParentUnderPlus(f: seq<string>, n: seq<string>) {
    |f| > 1 && f[|f| - 1] == "#" && f[|f| - 2] == "+" && |n| == |f| - 1 && n[|n| - 1] != "+"
  }

  lemma MatchesTail(f: seq<string>, n: seq<string>)
    requires |f| > 1 && n != [] && f[0] != "#"
    ensures Matches(f, n) <==> LevelMatch(f[0], n[0]) && Matches(f[1..], n[1..])
    ensures ParentUnderPlus(f, n) && |n| > 1 ==> ParentUnderPlus(f[1..], n[1..])
    ensures |f| > 2 && ParentUnderPlus(f[1..], n[1..]) ==> ParentUnderPlus(f, n)
  {
    var f', n' := f[1..], n[1..];
    assert f'[|f'| - 1] == f[|f| - 1];
    if Matches(f, n) {
      assert LevelMatch(f[0], n[0]);
      forall i | 0 <= i < |f'| - 1 ensures |n'| > i && LevelMatch(f'[i], n'[i]) {
        assert LevelMatch(f[i + 1], n[i + 1]);
      }
      if f[|f| - 1] != "#" {
        assert LevelMatch(f[|f| - 1], n[|f| - 1]);
      }
    }
    if LevelMatch(f[0], n[0]) && Matches(f', n') {
      forall i | 0 <= i < |f| - 1 ensures |n| > i && LevelMatch(f[i], n[i]) {
        if i > 0 { assert LevelMatch(f'[i - 1], n'[i - 1]); }
      }
      if f[|f| - 1] != "#" {
        assert LevelMatch(f'[|f'| - 1], n'[|f'| - 1]);
      }
    }
  }

  /**
   Exactly where the gateway's match meets the standard, for every well-formed filter and every name:
   it differs on the parent level of a filter ending in "+/#", and nowhere else.
   */
  lemma {:induction false} GatewayMatchIsMatches(f: seq<string>, n: seq<string>)
    requires f != [] && n != [] && WellFormed(f)
    ensures GatewayMatch(f, n) <==> Matches(f, n) && !ParentUnderPlus(f, n)
    decreases |f|
  {
    if |f| > 1 {
      assert '#' in "#";
      assert f[0] != "#";
      MatchesTail(f, n);
      if |n| > 1 {
        WellFormedTail(f);
        GatewayMatchIsMatches(f[1..], n[1..]);
      } else {
        assert n[1..] == [];
        assert Matches(f[1..], []) <==> f[1..] == ["#"] by {
          if Matches(f[1..], []) { assert f[1..][|f| - 2] == "#"; }
        }
        if f[1..] == ["#"] { assert |f| == 2 && f[1] == "#"; }
      }
    }
  }

  lemma WellFormedTail(f: seq<string>)
    requires WellFormed(f)
    ensures f != [] ==> WellFormed(f[1..])
  {
    if f != [] {
      forall i | 0 <= i < |f| - 1
        ensures ('+' in f[1..][i] ==> f[1..][i] == "+") && ('#' in f[1..][i] ==> f[1..][i] == "#" && i == |f[1..]| - 1)
      {
        assert f[1..][i] == f[i + 1];
      }
    }
  }

  /** The gateway does not match "finance" against "+/#", which section 4.7.1.2 does. */
  lemma ParentUnderPlusDiffers()
    ensures Matches(["+", "#"], ["finance"]) && !GatewayMatch(["+", "#"], ["finance"])
  {
    assert LevelMatch(["+", "#"][0], ["finance"][0]);
  }

  // ----- the client library: isTopicMatched

  predicate Wild(level: string) {
    level == "+" || level == "#"
  }

  /** The standard's match without its parent-level case and without wildcards over empty levels. */
  ghost predicate StrictMatch(f: seq<string>, n: seq<string>)
    requires f != []
  {
    Matches(f, n) && |f| <= |n| && forall i :: 0 <= i < |f| && Wild(f[i]) ==> n[i] != ""
  }

  predicate HeadMatch(a: string, b: string) {
    if a == "+" then b != "" else a == b
  }

  lemma StrictOne(a: string, b: string, n: seq<string>)
    ensures StrictMatch([a], [b] + n) <==> if a == "#" then b != "" else HeadMatch(a, b) && n == []
  {
    var f, m := [a], [b] + n;
    assert f[0] == a && m[0] == b;
    if StrictMatch(f, m) {
      if a != "#" { assert LevelMatch(f[0], m[0]); }
      if Wild(f[0]) { assert m[0] != ""; }
    }
  }

  lemma StrictCons(a: string, f: seq<string>, b: string, n: seq<string>)
    requires f != [] && a != "#"
    ensures StrictMatch([a] + f, [b] + n) <==> HeadMatch(a, b) && StrictMatch(f, n)
  {
    var g, m := [a] + f, [b] + n;
    assert g[0] == a && m[0] == b && g[1..] == f && m[1..] == n;
    MatchesTail(g, m);
    if StrictMatch(g, m) {
      if Wild(g[0]) { assert m[0] != ""; }
      forall i | 0 <= i < |f| && Wild(f[i]) ensures n[i] != "" {
        assert Wild(g[i + 1]) && m[i + 1] != "";
      }
    }
    if HeadMatch(a, b) && StrictMatch(f, n) {
      forall i | 0 <= i < |g| && Wild(g[i]) ensures m[i] != "" {
        if i > 0 { assert Wild(f[i - 1]) && n[i - 1] != ""; }
      }
    }
  }

  /** Only whether the first levels match matters, not what they are. */
  lemma SameHead(f: seq<string>, n: seq<string>, g: seq<string>, m: seq<string>)
    requires f != [] && n != [] && g != [] && m != [] && f[1..] == g[1..] && n[1..] == m[1..]
    requires f[0] != "#" && g[0] != "#" && (HeadMatch(f[0], n[0]) <==> HeadMatch(g[0], m[0]))
    ensures StrictMatch(f, n) <==> StrictMatch(g, m)
  {
    assert f == [f[0]] + f[1..] && n == [n[0]] + n[1..] && g == [g[0]] + f[1..] && m == [m[0]] + n[1..];
    if f[1..] == [] {
      StrictOne(f[0], n[0], n[1..]);
      StrictOne(g[0], m[0], n[1..]);
    } else {
      StrictCons(f[0], f[1..], n[0], n[1..]);
      StrictCons(g[0], f[1..], m[0], n[1..]);
    }
  }

  lemma LevelsAtEnd(s: string)
    ensures Levels(s, |s|) == [""]
  {
    assert s[|s|..] == "";
  }

  lemma LevelsAtSlash(s: string, i: nat)
    requires i < |s| && s[i] == '/'
    ensures Levels(s, i) == [""] + Levels(s, i + 1)
  {
    assert FindSlash(s, i) == i && s[i..i] == "";
  }

  lemma LevelsAtChar(s: string, i: nat)
    requires i < |s| && s[i] != '/'
    ensures Levels(s, i)[0] == [s[i]] + Levels(s, i + 1)[0] && Levels(s, i)[1..] == Levels(s, i + 1)[1..]
  {
    var k := FindSlash(s, i + 1);
    assert FindSlash(s, i) == k;
    LevelsTail(s, i);
    LevelsTail(s, i + 1);
    if k == NPOS {
      assert s[i..] == [s[i]] + s[i + 1..];
    } else {
      assert s[i..k] == [s[i]] + s[i + 1..k];
    }
  }

  /** How the levels from one position follow from those of the next. */
  lemma LevelsNext(s: string, i: nat)
    requires i <= |s|
    ensures i == |s| ==> Levels(s, i) == [""]
    ensures i < |s| && s[i] == '/' ==> Levels(s, i) == [""] + Levels(s, i + 1)
    ensures i < |s| && s[i] != '/' ==>
              Levels(s, i)[0] == [s[i]] + Levels(s, i + 1)[0] && Levels(s, i)[1..] == Levels(s, i + 1)[1..]
  {
    if i == |s| {
      LevelsAtEnd(s);
    } else if s[i] == '/' {
      LevelsAtSlash(s, i);
    } else {
      LevelsAtChar(s, i);
    }
  }

  ghost predicate WalkFrom(filter: string, i: nat, name: string, j: nat)
    requires i <= |filter| && j <= |name|
  {
    StrictMatch(Levels(filter, i), Levels(name, j))
  }

  lemma WellFormedNext(s: string, i: nat)
    requires i < |s| && WellFormed(Levels(s, i))
    ensures WellFormed(Levels(s, i + 1))
    ensures s[i] == '+' ==> Levels(s, i)[0] == "+" && Levels(s, i + 1)[0] == ""
    ensures s[i] == '#' ==> Levels(s, i) == ["#"] && i + 1 == |s|
    ensures s[i] != '+' && s[i] != '#' ==> !Wild(Levels(s, i)[0])
    ensures s[i] !in "+#/" ==> !Wild(Levels(s, i + 1)[0])
  {
    LevelsNext(s, i);
    var f, g := Levels(s, i), Levels(s, i + 1);
    if s[i] == '/' {
      assert f[1..] == g;
      WellFormedTail(f);
    } else {
      assert s[i] in f[0];
      assert |f| == |g| && forall k :: 1 <= k < |f| ==> f[k] == f[1..][k - 1] && g[k] == g[1..][k - 1];
      assert forall c :: c in g[0] ==> c in f[0];
      if s[i] == '#' {
        LevelsNext(s, i + 1);
        assert |f| == 1 && f[0] == "#";
        assert g[0] == "";
      }
    }
  }

  /** Equal characters that are no wildcards. */
  lemma WalkSame(filter: string, i: nat, name: string, j: nat)
    requires i < |filter| && j < |name| && WellFormed(Levels(filter, i))
    requires filter[i] == name[j] && filter[i] != '+' && filter[i] != '#'
    ensures WalkFrom(filter, i, name, j) <==> WalkFrom(filter, i + 1, name, j + 1)
  {
    LevelsNext(filter, i);
    LevelsNext(name, j);
    WellFormedNext(filter, i);
    if filter[i] == '/' {
      StrictCons("", Levels(filter, i + 1), "", Levels(name, j + 1));
    } else {
      SameHead(Levels(filter, i), Levels(name, j), Levels(filter, i + 1), Levels(name, j + 1));
    }
  }

  lemma FindSlashAt(s: string, j: nat, k: nat)
    requires j <= k <= |s| && (forall x :: j <= x < k ==> s[x] != '/') && (k < |s| ==> s[k] == '/')
    ensures FindSlash(s, j) == if k < |s| then k else NPOS
  {
  }

  /** The level from j up to k, and what follows it. */
  lemma LevelUpTo(s: string, j: nat, k: nat)
    requires j < k <= |s| && (forall x :: j <= x < k ==> s[x] != '/') && (k < |s| ==> s[k] == '/')
    ensures Levels(s, j)[0] != "" && Levels(s, k)[0] == "" && Levels(s, j)[1..] == Levels(s, k)[1..]
  {
    FindSlashAt(s, j, k);
    LevelsTail(s, j);
    if k < |s| {
      LevelsAtSlash(s, k);
    } else {
      LevelsAtEnd(s);
    }
  }

  /** A '+' takes the rest of a non-empty level, up to k. */
  lemma WalkPlus(filter: string, i: nat, name: string, j: nat, k: nat)
    requires i < |filter| && j < k <= |name| && WellFormed(Levels(filter, i)) && filter[i] == '+'
    requires (forall x :: j <= x < k ==> name[x] != '/') && (k < |name| ==> name[k] == '/')
    ensures WalkFrom(filter, i, name, j) <==> WalkFrom(filter, i + 1, name, k)
  {
    LevelsAtChar(filter, i);
    WellFormedNext(filter, i);
    LevelUpTo(name, j, k);
    SameHead(Levels(filter, i), Levels(name, j), Levels(filter, i + 1), Levels(name, k));
  }

  lemma WalkHash(filter: string, i: nat, name: string, j: nat)
    requires i < |filter| && j < |name| && WellFormed(Levels(filter, i)) && filter[i] == '#' && name[j] != '/'
    ensures WalkFrom(filter, i, name, j) && i + 1 == |filter|
  {
    WellFormedNext(filter, i);
    LevelsNext(name, j);
    var n := Levels(name, j);
    assert n == [n[0]] + n[1..];
    StrictOne("#", n[0], n[1..]);
  }

  lemma FirstChar(s: string, i: nat)
    requires i < |s|
    ensures s[i] == '/' ==> Levels(s, i)[0] == ""
    ensures s[i] != '/' ==> Levels(s, i)[0] != "" && Levels(s, i)[0][0] == s[i]
  {
    LevelsNext(s, i);
  }

  lemma StrictNeedsHead(f: seq<string>, n: seq<string>)
    requires f != [] && n != [] && StrictMatch(f, n)
    ensures if f[0] == "#" && |f| == 1 then n[0] != "" else HeadMatch(f[0], n[0])
  {
    if Wild(f[0]) { assert n[0] != ""; }
    if |f| > 1 || f[0] != "#" { assert LevelMatch(f[0], n[0]); }
  }

  /** The two conditions on which the walk breaks off. */
  lemma WalkBlocked(filter: string, i: nat, name: string, j: nat)
    requires i < |filter| && j < |name| && WellFormed(Levels(filter, i))
    requires (name[j] == '/' && filter[i] != '/') || (filter[i] != '+' && filter[i] != '#' && filter[i] != name[j])
    ensures !WalkFrom(filter, i, name, j)
  {
    FirstChar(filter, i);
    FirstChar(name, j);
    WellFormedNext(filter, i);
    if WalkFrom(filter, i, name, j) {
      StrictNeedsHead(Levels(filter, i), Levels(name, j));
    }
  }

  /** What is left when the walk has used up the filter or the name. */
  lemma WalkEnd(filter: string, i: nat, name: string, j: nat)
    requires i <= |filter| && j <= |name| && (i == |filter| || j == |name|)
    ensures WalkFrom(filter, i, name, j) <==> i == |filter| && j == |name|
  {
    LevelsNext(filter, i);
    LevelsNext(name, j);
    var f, n := Levels(filter, i), Levels(name, j);
    assert f == [f[0]] + f[1..] && n == [n[0]] + n[1..];
    if f[1..] == [] {
      StrictOne(f[0], n[0], n[1..]);
    }
  }

  /** Where the level that holds position j ends. */
  function LevelEnd(s: string, j: nat): (k: nat)
    requires j <= |s|
    ensures j <= k <= |s| && (forall x :: j <= x < k ==> s[x] != '/') && (k < |s| ==> s[k] == '/')
  {
    var k := FindSlash(s, j);
    if k == NPOS then |s| else k
  }

  /** What the character walk decides from a position of the filter and one of the name. */
  predicate Walk(filter: string, i: nat, name: string, j: nat)
    requires i <= |filter| && j <= |name|
    decreases |filter| - i
  {
    if i == |filter| || j == |name| then i == |filter| && j == |name|
    else if name[j] == '/' && filter[i] != '/' then false
    else if filter[i] == '+' then Walk(filter, i + 1, name, LevelEnd(name, j + 1))
    else if filter[i] == '#' then Walk(filter, i + 1, name, |name|)
    else filter[i] == name[j] && Walk(filter, i + 1, name, j + 1)
  }

  /** For filters in the right format the walk is the standard's match on the levels, but for its two exceptions. */
  lemma {:induction false} WalkDecides(filter: string, i: nat, name: string, j: nat)
    requires i <= |filter| && j <= |name| && WellFormed(Levels(filter, i))
    ensures Walk(filter, i, name, j) <==> WalkFrom(filter, i, name, j)
    decreases |filter| - i
  {
    if i == |filter| || j == |name| {
      WalkEnd(filter, i, name, j);
    } else if (name[j] == '/' && filter[i] != '/') || (filter[i] != '+' && filter[i] != '#' && filter[i] != name[j]) {
      WalkBlocked(filter, i, name, j);
    } else {
      WellFormedNext(filter, i);
      if filter[i] == '+' {
        var k := LevelEnd(name, j + 1);
        WalkPlus(filter, i, name, j, k);
        WalkDecides(filter, i + 1, name, k);
      } else if filter[i] == '#' {
        WalkHash(filter, i, name, j);
      } else {
        WalkSame(filter, i, name, j);
        WalkDecides(filter, i + 1, name, j + 1);
      }
    }
  }

  /** topicFilter is the C string up to its terminating NUL. */
  method IsTopicMatched(topicFilter: string, topicName: string) returns (r: bool)
    ensures r == Walk(topicFilter, 0, topicName, 0)
    ensures WellFormed(Split(topicFilter)) ==> (r <==> StrictMatch(Split(topicFilter), Split(topicName)))
  {
    var curf, curn := 0, 0;
    while curf < |topicFilter| && curn < |topicName|
      invariant 0 <= curf <= |topicFilter| && 0 <= curn <= |topicName|
      invariant Walk(topicFilter, 0, topicName, 0) == Walk(topicFilter, curf, topicName, curn)
    {
      if topicName[curn] == '/' && topicFilter[curf] != '/' {
        break;
      }
      if topicFilter[curf] != '+' && topicFilter[curf] != '#' && topicFilter[curf] != topicName[curn] {
        break;
      }
      if topicFilter[curf] == '+' {
        ghost var end := LevelEnd(topicName, curn + 1);
        var nextpos := curn + 1;
        while nextpos < |topicName| && topicName[nextpos] != '/'
          invariant curn < |topicName| && nextpos == curn + 1 && LevelEnd(topicName, nextpos) == end
        {
          curn := curn + 1;
          nextpos := curn + 1;
        }
      } else if topicFilter[curf] == '#' {
        curn := |topicName| - 1;
      }
      curf := curf + 1;
      curn := curn + 1;
    }
    WalkMatches(topicFilter, topicName);
    r := curn == |topicName| && curf == |topicFilter|;
  }

  lemma WalkMatches(filter: string, name: string)
    ensures WellFormed(Split(filter)) ==> (Walk(filter, 0, name, 0) <==> StrictMatch(Split(filter), Split(name)))
  {
    if WellFormed(Split(filter)) {
      WalkDecides(filter, 0, name, 0);
    }
  }

  /**
   The client library's matcher against the gateway's, for every well-formed filter and every name: it
   asks in addition for at least as many levels in the name and for no empty level under a wildcard.
   */
  lemma MatchersCompared(f: seq<string>, n: seq<string>)
    requires f != [] && n != [] && WellFormed(f)
    ensures StrictMatch(f, n) <==>
            GatewayMatch(f, n) && |f| <= |n| && forall i :: 0 <= i < |f| && Wild(f[i]) ==> n[i] != ""
  {
    GatewayMatchIsMatches(f, n);
  }
}
