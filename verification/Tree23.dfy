/**
 The heap-allocated 2-3 tree of the gateway's process library.
 A ghost Shape value names the nodes of a subtree and what they hold; Rep says that the heap agrees
 with it. INSERT_ACTIVE and DELETE_ACTIVE nodes are the transient results of Add and Remove: the first
 is one level too high, the second holds one child where two are due. Every repair keeps the in-order
 items and restores the uniform depth.
 */
module Tree23 {
  import opened SortedItems
  import opened Wrappers

  const INSERT_ACTIVE := -2
  const DELETE_ACTIVE := -1
  const BI_NODE := 2
  const TRI_NODE := 3

  class Elm<K, V> {
    const key: K
    const val: V

    constructor (key: K, val: V)
      ensures this.key == key && this.val == val
    {
      this.key := key;
      this.val := val;
    }

    ghost function Item(): (K, V) { (key, val) }
  }

  class Node<K, V> {
    var kind: int
    var telm0: Elm?<K, V>
    var telm1: Elm?<K, V>
    var left: Node?<K, V>
    var midle: Node?<K, V>
    var right: Node?<K, V>

    constructor (kind: int, telm0: Elm?<K, V>, telm1: Elm?<K, V>,
                 left: Node?<K, V>, midle: Node?<K, V>, right: Node?<K, V>)
      ensures this.kind == kind && this.telm0 == telm0 && this.telm1 == telm1
      ensures this.left == left && this.midle == midle && this.right == right
    {
      this.kind := kind;
      this.telm0 := telm0;
      this.telm1 := telm1;
      this.left := left;
      this.midle := midle;
      this.right := right;
    }
  }

  datatype Shape<K, V> =
    | Nil
    | Bin(node: Node<K, V>, e: Elm<K, V>, l: Shape<K, V>, r: Shape<K, V>)
    | Tri(node: Node<K, V>, e: Elm<K, V>, e1: Elm<K, V>, l: Shape<K, V>, m: Shape<K, V>, r: Shape<K, V>)
    | Raised(node: Node<K, V>, e: Elm<K, V>, l: Shape<K, V>, r: Shape<K, V>)
    | Sunk(node: Node<K, V>, m: Shape<K, V>)

  ghost function Nodes<K, V>(t: Shape<K, V>): set<Node<K, V>> {
    match t
    case Nil => {}
    case Bin(x, _, l, r) => {x} + Nodes(l) + Nodes(r)
    case Tri(x, _, _, l, m, r) => {x} + Nodes(l) + Nodes(m) + Nodes(r)
    case Raised(x, _, l, r) => {x} + Nodes(l) + Nodes(r)
    case Sunk(x, m) => {x} + Nodes(m)
  }

  /** The heap below n has exactly the nodes, kinds, elements and links of t, and no node occurs twice. */
  ghost predicate Rep<K, V>(n: Node?<K, V>, t: Shape<K, V>)
    reads Nodes(t)
    decreases t
  {
    match t
    case Nil => n == null
    case Bin(x, e, l, r) =>
      && n == x && x.kind == BI_NODE && Fork(x, e, l, r) && Rep(x.left, l) && Rep(x.right, r)
    case Tri(x, e, e1, l, m, r) =>
      && n == x && x.kind == TRI_NODE && x.telm0 == e && x.telm1 == e1
      && x !in Nodes(l) + Nodes(m) + Nodes(r) && Nodes(l) !! Nodes(m) && Nodes(l) !! Nodes(r) && Nodes(m) !! Nodes(r)
      && Rep(x.left, l) && Rep(x.midle, m) && Rep(x.right, r)
    case Raised(x, e, l, r) =>
      && n == x && x.kind == INSERT_ACTIVE && Fork(x, e, l, r) && Rep(x.left, l) && Rep(x.right, r)
    case Sunk(x, m) =>
      && n == x && x.kind == DELETE_ACTIVE && x !in Nodes(m) && Rep(x.midle, m)
  }

  ghost predicate Fork<K, V>(x: Node<K, V>, e: Elm<K, V>, l: Shape<K, V>, r: Shape<K, V>)
    reads x
  {
    x.telm0 == e && x.midle == null && x !in Nodes(l) + Nodes(r) && Nodes(l) !! Nodes(r)
  }

  /** The items in key order, read left to right. */
  ghost function Items<K, V>(t: Shape<K, V>): seq<(K, V)> {
    match t
    case Nil => []
    case Bin(_, e, l, r) => Items(l) + [e.Item()] + Items(r)
    case Tri(_, e, e1, l, m, r) => Items(l) + [e.Item()] + (Items(m) + [e1.Item()] + Items(r))
    case Raised(_, e, l, r) => Items(l) + [e.Item()] + Items(r)
    case Sunk(_, m) => Items(m)
  }

  /** All leaves at depth h and no active node. */
  ghost predicate Balanced<K, V>(t: Shape<K, V>, h: nat) {
    match t
    case Nil => h == 0
    case Bin(_, _, l, r) => h > 0 && Balanced(l, h - 1) && Balanced(r, h - 1)
    case Tri(_, _, _, l, m, r) => h > 0 && Balanced(l, h - 1) && Balanced(m, h - 1) && Balanced(r, h - 1)
    case Raised(_, _, _, _) => false
    case Sunk(_, _) => false
  }

  /** What an insertion into a subtree of depth h may leave behind. */
  ghost predicate Grown<K, V>(t: Shape<K, V>, h: nat) {
    Balanced(t, h) || (t.Raised? && Balanced(t.l, h) && Balanced(t.r, h))
  }

  /** What a removal from a subtree of depth h may leave behind. */
  ghost predicate Shrunk<K, V>(t: Shape<K, V>, h: nat) {
    Balanced(t, h) || (h > 0 && t.Sunk? && Balanced(t.m, h - 1))
  }

  lemma NodesOf<K, V>(t: Shape<K, V>)
    ensures t.Bin? ==> forall k :: k in Nodes(t) ==> k == t.node || k in Nodes(t.l) || k in Nodes(t.r)
    ensures t.Tri? ==> forall k :: k in Nodes(t) ==>
                         k == t.node || k in Nodes(t.l) || k in Nodes(t.m) || k in Nodes(t.r)
  {
  }

  lemma {:induction false} NodesAllocated<K, V>(t: Shape<K, V>)
    ensures forall x :: x in Nodes(t) ==> allocated(x)
  {
    match t
    case Nil =>
    case Bin(_, _, l, r) => NodesAllocated(l); NodesAllocated(r);
    case Tri(_, _, _, l, m, r) => NodesAllocated(l); NodesAllocated(m); NodesAllocated(r);
    case Raised(_, _, l, r) => NodesAllocated(l); NodesAllocated(r);
    case Sunk(_, m) => NodesAllocated(m);
  }

  // ----- the node constructors the repairs use, at the level of shapes

  method NewBin<K, V>(e: Elm<K, V>, left: Node?<K, V>, right: Node?<K, V>, ghost l: Shape<K, V>, ghost r: Shape<K, V>)
    returns (x: Node<K, V>, ghost t: Shape<K, V>)
    requires Rep(left, l) && Rep(right, r) && Nodes(l) !! Nodes(r)
    ensures fresh(x) && t == Bin(x, e, l, r) && Rep(x, t)
  {
    NodesAllocated(l);
    NodesAllocated(r);
    x := new Node(BI_NODE, e, null, left, null, right);
    t := Bin(x, e, l, r);
  }

  method NewTri<K, V>(e: Elm<K, V>, e1: Elm<K, V>, left: Node?<K, V>, midle: Node?<K, V>, right: Node?<K, V>,
                      ghost l: Shape<K, V>, ghost m: Shape<K, V>, ghost r: Shape<K, V>)
    returns (x: Node<K, V>, ghost t: Shape<K, V>)
    requires Rep(left, l) && Rep(midle, m) && Rep(right, r)
    requires Nodes(l) !! Nodes(m) && Nodes(l) !! Nodes(r) && Nodes(m) !! Nodes(r)
    ensures fresh(x) && t == Tri(x, e, e1, l, m, r) && Rep(x, t)
  {
    NodesAllocated(l);
    NodesAllocated(m);
    NodesAllocated(r);
    x := new Node(TRI_NODE, e, e1, left, midle, right);
    t := Tri(x, e, e1, l, m, r);
  }

  method NewRaised<K, V>(e: Elm<K, V>, left: Node?<K, V>, right: Node?<K, V>,
                         ghost l: Shape<K, V>, ghost r: Shape<K, V>)
    returns (x: Node<K, V>, ghost t: Shape<K, V>)
    requires Rep(left, l) && Rep(right, r) && Nodes(l) !! Nodes(r)
    ensures fresh(x) && t == Raised(x, e, l, r) && Rep(x, t)
  {
    NodesAllocated(l);
    NodesAllocated(r);
    x := new Node(INSERT_ACTIVE, e, null, left, null, right);
    t := Raised(x, e, l, r);
  }

  lemma JoinsApart<T>(x: T, a: set<T>, b: set<T>, y: T, c: set<T>, d: set<T>)
    requires x != y && x !in c && x !in d && y !in a && y !in b
    requires a !! c && a !! d && b !! c && b !! d
    ensures ({x} + a + b) !! ({y} + c + d)
  {
  }

  method NewBinPair<K, V>(e: Elm<K, V>, e1: Elm<K, V>, n0: Node?<K, V>, n1: Node?<K, V>,
                          n2: Node?<K, V>, n3: Node?<K, V>,
                          ghost a: Shape<K, V>, ghost b: Shape<K, V>, ghost c: Shape<K, V>, ghost d: Shape<K, V>)
    returns (x: Node<K, V>, y: Node<K, V>, ghost l: Shape<K, V>, ghost r: Shape<K, V>)
    requires Rep(n0, a) && Rep(n1, b) && Rep(n2, c) && Rep(n3, d)
    requires Nodes(a) !! Nodes(b) !! Nodes(c) !! Nodes(d)
    ensures fresh(x) && fresh(y) && x != y
    ensures l == Bin(x, e, a, b) && r == Bin(y, e1, c, d) && Rep(x, l) && Rep(y, r)
    ensures Nodes(l) !! Nodes(r)
    ensures forall k :: k in Nodes(l) ==> fresh(k) || k in Nodes(a) || k in Nodes(b)
    ensures forall k :: k in Nodes(r) ==> fresh(k) || k in Nodes(c) || k in Nodes(d)
  {
    NodesAllocated(c);
    NodesAllocated(d);
    x, l := NewBin(e, n0, n1, a, b);
    NodesAllocated(l);
    y, r := NewBin(e1, n2, n3, c, d);
    assert y !in Nodes(l) && x !in Nodes(c) && x !in Nodes(d);
    JoinsApart(x, Nodes(a), Nodes(b), y, Nodes(c), Nodes(d));
  }

  method NewTriThen<K, V>(e: Elm<K, V>, f: Elm<K, V>, p: Elm<K, V>,
                          n0: Node?<K, V>, n1: Node?<K, V>, n2: Node?<K, V>, n3: Node?<K, V>,
                          ghost a: Shape<K, V>, ghost b: Shape<K, V>, ghost c: Shape<K, V>, ghost d: Shape<K, V>)
    returns (x: Node<K, V>, ghost y: Node<K, V>, ghost t: Shape<K, V>)
    requires Rep(n0, a) && Rep(n1, b) && Rep(n2, c) && Rep(n3, d)
    requires Nodes(a) !! Nodes(b) !! Nodes(c) !! Nodes(d)
    ensures t == Bin(x, p, Tri(y, e, f, a, b, c), d) && Rep(x, t)
    ensures forall k :: k in Nodes(t) ==> fresh(k) || k in Nodes(a) || k in Nodes(b) || k in Nodes(c) || k in Nodes(d)
  {
    NodesAllocated(d);
    var z, s := NewTri(e, f, n0, n1, n2, a, b, c);
    NodesAllocated(s);
    x, t := NewBin(p, z, n3, s, d);
    y := z;
    NodesOf(s);
    NodesOf(t);
  }

  method ThenNewTri<K, V>(e: Elm<K, V>, f: Elm<K, V>, p: Elm<K, V>,
                          n0: Node?<K, V>, n1: Node?<K, V>, n2: Node?<K, V>, n3: Node?<K, V>,
                          ghost a: Shape<K, V>, ghost b: Shape<K, V>, ghost c: Shape<K, V>, ghost d: Shape<K, V>)
    returns (x: Node<K, V>, ghost y: Node<K, V>, ghost t: Shape<K, V>)
    requires Rep(n0, a) && Rep(n1, b) && Rep(n2, c) && Rep(n3, d)
    requires Nodes(a) !! Nodes(b) !! Nodes(c) !! Nodes(d)
    ensures t == Bin(x, p, d, Tri(y, e, f, a, b, c)) && Rep(x, t)
    ensures forall k :: k in Nodes(t) ==> fresh(k) || k in Nodes(a) || k in Nodes(b) || k in Nodes(c) || k in Nodes(d)
  {
    NodesAllocated(d);
    var z, s := NewTri(e, f, n0, n1, n2, a, b, c);
    NodesAllocated(s);
    x, t := NewBin(p, n3, z, d, s);
    y := z;
    NodesOf(s);
    NodesOf(t);
  }

  method NewBinsThen<K, V>(e: Elm<K, V>, f: Elm<K, V>, p: Elm<K, V>, q: Elm<K, V>,
                           n0: Node?<K, V>, n1: Node?<K, V>, n2: Node?<K, V>, n3: Node?<K, V>, n4: Node?<K, V>,
                           ghost a: Shape<K, V>, ghost b: Shape<K, V>, ghost c: Shape<K, V>, ghost d: Shape<K, V>,
                           ghost g: Shape<K, V>)
    returns (x: Node<K, V>, ghost y: Node<K, V>, ghost z: Node<K, V>, ghost t: Shape<K, V>)
    requires Rep(n0, a) && Rep(n1, b) && Rep(n2, c) && Rep(n3, d) && Rep(n4, g)
    requires Nodes(a) !! Nodes(b) !! Nodes(c) !! Nodes(d) !! Nodes(g)
    ensures t == Tri(x, p, q, Bin(y, e, a, b), Bin(z, f, c, d), g) && Rep(x, t)
    ensures forall k :: k in Nodes(t) ==>
                          fresh(k) || k in Nodes(a) || k in Nodes(b) || k in Nodes(c) || k in Nodes(d) || k in Nodes(g)
  {
    NodesAllocated(g);
    var l, m, s, u := NewBinPair(e, f, n0, n1, n2, n3, a, b, c, d);
    x, t := NewTri(p, q, l, m, n4, s, u, g);
    y, z := l, m;
    NodesOf(t);
  }

  method ThenNewBins<K, V>(e: Elm<K, V>, f: Elm<K, V>, p: Elm<K, V>, q: Elm<K, V>,
                           n0: Node?<K, V>, n1: Node?<K, V>, n2: Node?<K, V>, n3: Node?<K, V>, n4: Node?<K, V>,
                           ghost a: Shape<K, V>, ghost b: Shape<K, V>, ghost c: Shape<K, V>, ghost d: Shape<K, V>,
                           ghost g: Shape<K, V>)
    returns (x: Node<K, V>, ghost y: Node<K, V>, ghost z: Node<K, V>, ghost t: Shape<K, V>)
    requires Rep(n0, a) && Rep(n1, b) && Rep(n2, c) && Rep(n3, d) && Rep(n4, g)
    requires Nodes(a) !! Nodes(b) !! Nodes(c) !! Nodes(d) !! Nodes(g)
    ensures t == Tri(x, p, q, g, Bin(y, e, a, b), Bin(z, f, c, d)) && Rep(x, t)
    ensures forall k :: k in Nodes(t) ==>
                          fresh(k) || k in Nodes(a) || k in Nodes(b) || k in Nodes(c) || k in Nodes(d) || k in Nodes(g)
  {
    NodesAllocated(g);
    var m, r, s, u := NewBinPair(e, f, n0, n1, n2, n3, a, b, c, d);
    x, t := NewTri(p, q, n4, m, r, g, s, u);
    y, z := m, r;
    NodesOf(t);
  }

  method NewSunk<K, V>(midle: Node?<K, V>, ghost m: Shape<K, V>) returns (x: Node<K, V>, ghost t: Shape<K, V>)
    requires Rep(midle, m)
    ensures fresh(x) && t == Sunk(x, m) && Rep(x, t)
  {
    NodesAllocated(m);
    x := new Node(DELETE_ACTIVE, null, null, null, midle, null);
    t := Sunk(x, m);
  }

  lemma Regroup<T>(a: seq<T>, x: T, b: seq<T>, y: T, c: seq<T>)
    ensures (a + [x] + b) + [y] + c == a + [x] + (b + [y] + c)
  {
  }

  lemma RegroupLeft<T>(a: seq<T>, x: T, b: seq<T>, y: T, c: seq<T>, z: T, d: seq<T>)
    ensures a + [x] + ((b + [y] + c) + [z] + d) == (a + [x] + b) + [y] + (c + [z] + d)
  {
  }

  lemma RegroupRight<T>(a: seq<T>, x: T, b: seq<T>, y: T, c: seq<T>, z: T, d: seq<T>)
    ensures (a + [x] + (b + [y] + c)) + [z] + d == (a + [x] + b) + [y] + (c + [z] + d)
  {
  }

  // ----- the insertion repairs

  method AddLeft2<K, V>(node: Node<K, V>, ghost t: Shape<K, V>, ghost h: nat)
    returns (res: Node<K, V>, ghost t': Shape<K, V>)
    requires Rep(node, t) && t.Bin? && Grown(t.l, h) && Balanced(t.r, h)
    ensures Rep(res, t') && (forall x :: x in Nodes(t') ==> x in Nodes(t) || fresh(x))
    ensures Items(t') == Items(t) && Balanced(t', h + 1)
  {
    var n := node.left;
    if n != null && n.kind == INSERT_ACTIVE {
      res, t' := NewTri(n.telm0, node.telm0, n.left, n.right, node.right, t.l.l, t.l.r, t.r);
      Regroup(Items(t.l.l), t.l.e.Item(), Items(t.l.r), t.e.Item(), Items(t.r));
    } else {
      res, t' := node, t;
    }
  }

  method AddRight2<K, V>(node: Node<K, V>, ghost t: Shape<K, V>, ghost h: nat)
    returns (res: Node<K, V>, ghost t': Shape<K, V>)
    requires Rep(node, t) && t.Bin? && Balanced(t.l, h) && Grown(t.r, h)
    ensures Rep(res, t') && (forall x :: x in Nodes(t') ==> x in Nodes(t) || fresh(x))
    ensures Items(t') == Items(t) && Balanced(t', h + 1)
  {
    var n := node.right;
    if n != null && n.kind == INSERT_ACTIVE {
      res, t' := NewTri(node.telm0, n.telm0, node.left, n.left, n.right, t.l, t.r.l, t.r.r);
    } else {
      res, t' := node, t;
    }
  }

  method AddLeft3<K, V>(node: Node<K, V>, ghost t: Shape<K, V>, ghost h: nat)
    returns (res: Node<K, V>, ghost t': Shape<K, V>)
    requires Rep(node, t) && t.Tri? && Grown(t.l, h) && Balanced(t.m, h) && Balanced(t.r, h)
    modifies Nodes(t.l)
    ensures Rep(res, t') && (forall x :: x in Nodes(t') ==> x in Nodes(t) || fresh(x))
    ensures Items(t') == Items(t) && Grown(t', h + 1)
  {
    var n := node.left;
    if n != null && n.kind == INSERT_ACTIVE {
      NodesAllocated(t.l);
      NodesAllocated(t.m);
      NodesAllocated(t.r);
      ghost var l := Settle(n, t.l);
      var nn, r := NewBin(node.telm1, node.midle, node.right, t.m, t.r);
      res, t' := NewRaised(node.telm0, n, nn, l, r);
    } else {
      res, t' := node, t;
    }
  }

  method AddRight3<K, V>(node: Node<K, V>, ghost t: Shape<K, V>, ghost h: nat)
    returns (res: Node<K, V>, ghost t': Shape<K, V>)
    requires Rep(node, t) && t.Tri? && Balanced(t.l, h) && Balanced(t.m, h) && Grown(t.r, h)
    modifies Nodes(t.r)
    ensures Rep(res, t') && (forall x :: x in Nodes(t') ==> x in Nodes(t) || fresh(x))
    ensures Items(t') == Items(t) && Grown(t', h + 1)
  {
    var n := node.right;
    if n != null && n.kind == INSERT_ACTIVE {
      NodesAllocated(t.r);
      NodesAllocated(t.l);
      NodesAllocated(t.m);
      ghost var r := Settle(n, t.r);
      var nn, l := NewBin(node.telm0, node.left, node.midle, t.l, t.m);
      res, t' := NewRaised(node.telm1, nn, n, l, r);
      Regroup(Items(t.l), t.e.Item(), Items(t.m), t.e1.Item(), Items(t.r));
    } else {
      res, t' := node, t;
    }
  }

  /** An active node that has found its place becomes an ordinary two-node. */
  method Settle<K, V>(n: Node<K, V>, ghost t: Shape<K, V>) returns (ghost t': Shape<K, V>)
    requires Rep(n, t) && t.Raised?
    modifies n
    ensures t' == Bin(n, t.e, t.l, t.r) && Rep(n, t')
  {
    n.kind := BI_NODE;
    t' := Bin(n, t.e, t.l, t.r);
  }

  /** Gives the active node n two new children that hold a, n.left and n.right, d. */
  method SpreadUnder<K, V>(n: Node<K, V>, telm0: Elm<K, V>, telm1: Elm<K, V>, left: Node?<K, V>, right: Node?<K, V>,
                           ghost e: Elm<K, V>, ghost a: Shape<K, V>, ghost b: Shape<K, V>, ghost c: Shape<K, V>,
                           ghost d: Shape<K, V>)
    returns (ghost t: Shape<K, V>)
    requires n.kind == INSERT_ACTIVE && n.telm0 == e && n.midle == null
    requires Rep(left, a) && Rep(n.left, b) && Rep(n.right, c) && Rep(right, d)
    requires Nodes(a) !! Nodes(b) !! Nodes(c) !! Nodes(d)
    requires n !in Nodes(a) + Nodes(b) + Nodes(c) + Nodes(d)
    modifies n
    ensures Rep(n, t) && fresh(Nodes(t) - {n} - Nodes(a) - Nodes(b) - Nodes(c) - Nodes(d))
    ensures t.Raised? && t.node == n && t.e == e
    ensures t.l.Bin? && t.l.e == telm0 && t.l.l == a && t.l.r == b
    ensures t.r.Bin? && t.r.e == telm1 && t.r.l == c && t.r.r == d
  {
    var newLeft, newRight, l, r := NewBinPair(telm0, telm1, left, n.left, n.right, right, a, b, c, d);
    n.left := newLeft;
    n.right := newRight;
    t := Raised(n, e, l, r);
  }

  method AddMidle3<K, V>(node: Node<K, V>, ghost t: Shape<K, V>, ghost h: nat)
    returns (res: Node<K, V>, ghost t': Shape<K, V>)
    requires Rep(node, t) && t.Tri? && Balanced(t.l, h) && Grown(t.m, h) && Balanced(t.r, h)
    modifies Nodes(t.m)
    ensures Rep(res, t') && (forall x :: x in Nodes(t') ==> x in Nodes(t) || fresh(x))
    ensures Items(t') == Items(t) && Grown(t', h + 1)
  {
    var n := node.midle;
    if n != null && n.kind == INSERT_ACTIVE {
      t' := SpreadUnder(n, node.telm0, node.telm1, node.left, node.right, t.m.e, t.l, t.m.l, t.m.r, t.r);
      res := n;
      Regroup(Items(t.m.l), t.m.e.Item(), Items(t.m.r), t.e1.Item(), Items(t.r));
      Regroup(Items(t.l), t.e.Item(), Items(t.m.l), t.m.e.Item(), Items(t'.r));
    } else {
      res, t' := node, t;
    }
  }

  // ----- replacing one child

  datatype Side = Left | Midle | Right

  ghost predicate Has<K, V>(t: Shape<K, V>, side: Side) {
    t.Tri? || (t.Bin? && side != Midle)
  }

  ghost function Child<K, V>(t: Shape<K, V>, side: Side): Shape<K, V>
    requires Has(t, side)
  {
    match side case Left => t.l case Midle => t.m case Right => t.r
  }

  function ChildOf<K, V>(n: Node<K, V>, side: Side): Node?<K, V>
    reads n
  {
    match side case Left => n.left case Midle => n.midle case Right => n.right
  }

  ghost function WithChild<K, V>(t: Shape<K, V>, side: Side, c: Shape<K, V>): Shape<K, V>
    requires Has(t, side)
  {
    match t
    case Bin(x, e, l, r) => if side == Left then Bin(x, e, c, r) else Bin(x, e, l, c)
    case Tri(x, e, e1, l, m, r) =>
      if side == Left then Tri(x, e, e1, c, m, r)
      else if side == Midle then Tri(x, e, e1, l, c, r)
      else Tri(x, e, e1, l, m, c)
  }

  /** The nodes of t outside one of its children. */
  ghost function Others<K, V>(t: Shape<K, V>, side: Side): set<Node<K, V>>
    requires Has(t, side)
  {
    {t.node} + (if side == Left then {} else Nodes(t.l)) + (if side == Right then {} else Nodes(t.r))
    + (if t.Bin? || side == Midle then {} else Nodes(t.m))
  }

  /** Rep(n, t) without what it says about one child. */
  ghost predicate RepAround<K, V>(n: Node<K, V>, t: Shape<K, V>, side: Side)
    requires Has(t, side)
    reads Others(t, side)
  {
    && n == t.node && n.telm0 == t.e
    && (t.Bin? ==> n.kind == BI_NODE && n.midle == null)
    && (t.Tri? ==> n.kind == TRI_NODE && n.telm1 == t.e1)
    && (side != Left ==> n !in Nodes(t.l) && Rep(n.left, t.l))
    && (side != Right ==> n !in Nodes(t.r) && Rep(n.right, t.r))
    && (side != Midle && t.Tri? ==> n !in Nodes(t.m) && Rep(n.midle, t.m))
    && (side == Midle ==> Nodes(t.l) !! Nodes(t.r))
    && (side == Left && t.Tri? ==> Nodes(t.m) !! Nodes(t.r))
    && (side == Right && t.Tri? ==> Nodes(t.l) !! Nodes(t.m))
  }

  lemma Around<K, V>(n: Node<K, V>, t: Shape<K, V>, side: Side)
    requires Rep(n, t) && Has(t, side)
    ensures RepAround(n, t, side) && Rep(ChildOf(n, side), Child(t, side))
    ensures Nodes(Child(t, side)) !! Others(t, side) && Nodes(t) == Nodes(Child(t, side)) + Others(t, side)
    ensures forall x :: x in Others(t, side) ==> allocated(x)
  {
    NodesAllocated(t);
  }

  method Link<K, V>(n: Node<K, V>, side: Side, c: Node?<K, V>, ghost t: Shape<K, V>, ghost s: Shape<K, V>)
    returns (ghost t': Shape<K, V>)
    requires Has(t, side) && RepAround(n, t, side) && Rep(c, s) && Nodes(s) !! Others(t, side)
    modifies n
    ensures t' == WithChild(t, side, s) && Rep(n, t') && Nodes(t') == Nodes(s) + Others(t, side)
  {
    match side {
      case Left => n.left := c;
      case Midle => n.midle := c;
      case Right => n.right := c;
    }
    t' := WithChild(t, side, s);
  }

  /** All children of t but one have depth h. */
  ghost predicate BalancedAround<K, V>(t: Shape<K, V>, side: Side, h: nat)
    requires Has(t, side)
  {
    && (side != Left ==> Balanced(t.l, h)) && (side != Right ==> Balanced(t.r, h))
    && (side != Midle && t.Tri? ==> Balanced(t.m, h))
  }

  /** The separator on the right of a left or middle child, replaced. */
  ghost function WithElm<K, V>(t: Shape<K, V>, side: Side, elm: Elm<K, V>): Shape<K, V>
    requires Has(t, side) && side != Right
  {
    if t.Bin? then Bin(t.node, elm, t.l, t.r)
    else if side == Left then Tri(t.node, elm, t.e1, t.l, t.m, t.r)
    else Tri(t.node, t.e, elm, t.l, t.m, t.r)
  }

  /** The comparisons that send a search for k into one child of t. */
  ghost predicate Goes<K, V>(cmp: Compare<K>, t: Shape<K, V>, side: Side, k: K) {
    && Has(t, side)
    && (side == Left ==> cmp(k, t.e.key) < 0)
    && (side == Midle ==> cmp(k, t.e.key) > 0 && cmp(k, t.e1.key) < 0)
    && (side == Right ==> cmp(k, t.e.key) > 0 && (t.Tri? ==> cmp(k, t.e1.key) > 0))
  }

  lemma CutChild<K, V>(cmp: Compare<K>, t: Shape<K, V>, side: Side, k: K)
    requires Has(t, side) && Cut(cmp, Items(t), k)
    ensures Cut(cmp, Items(Child(t, side)), k)
  {
    if t.Bin? {
      CutSides(cmp, Items(t.l), t.e.Item(), Items(t.r), k);
    } else {
      CutSides(cmp, Items(t.l), t.e.Item(), Items(t.m) + [t.e1.Item()] + Items(t.r), k);
      CutSides(cmp, Items(t.m), t.e1.Item(), Items(t.r), k);
    }
  }

  lemma PutChild<K, V>(cmp: Compare<K>, t: Shape<K, V>, side: Side, s: Shape<K, V>, e: (K, V))
    requires Goes(cmp, t, side, e.0) && Cut(cmp, Items(t), e.0) && Items(s) == Put(cmp, Items(Child(t, side)), e)
    ensures Items(WithChild(t, side, s)) == Put(cmp, Items(t), e)
  {
    if t.Bin? {
      PutAt(cmp, Items(t.l), t.e.Item(), Items(t.r), e);
    } else {
      PutAtTwo(cmp, Items(t.l), t.e.Item(), Items(t.m), t.e1.Item(), Items(t.r), e);
    }
  }

  lemma DropChild<K, V>(cmp: Compare<K>, t: Shape<K, V>, side: Side, s: Shape<K, V>, k: K)
    requires Goes(cmp, t, side, k) && Cut(cmp, Items(t), k) && Items(s) == Drop(cmp, Items(Child(t, side)), k)
    ensures Items(WithChild(t, side, s)) == Drop(cmp, Items(t), k)
  {
    if t.Bin? {
      DropAt(cmp, Items(t.l), t.e.Item(), Items(t.r), k);
    } else {
      DropAtTwo(cmp, Items(t.l), t.e.Item(), Items(t.m), t.e1.Item(), Items(t.r), k);
    }
  }

  /** A separator that equals the key is replaced by an insertion. */
  lemma PutHere<K, V>(cmp: Compare<K>, t: Shape<K, V>, elm: Elm<K, V>)
    requires (t.Bin? || t.Tri?) && Cut(cmp, Items(t), elm.key)
    ensures cmp(elm.key, t.e.key) == 0 ==> Items(WithElm(t, Left, elm)) == Put(cmp, Items(t), elm.Item())
    ensures t.Tri? && cmp(elm.key, t.e.key) > 0 && cmp(elm.key, t.e1.key) == 0 ==>
              Items(WithElm(t, Midle, elm)) == Put(cmp, Items(t), elm.Item())
  {
    if t.Bin? {
      PutAt(cmp, Items(t.l), t.e.Item(), Items(t.r), elm.Item());
    } else {
      PutAtTwo(cmp, Items(t.l), t.e.Item(), Items(t.m), t.e1.Item(), Items(t.r), elm.Item());
    }
  }

  /** A separator that equals the key is replaced by the last item of the child on its left. */
  lemma DropHere<K, V>(cmp: Compare<K>, t: Shape<K, V>, side: Side, s: Shape<K, V>, elm: Elm<K, V>, k: K)
    requires Has(t, side) && side != Right && Cut(cmp, Items(t), k) && Items(Child(t, side)) == Items(s) + [elm.Item()]
    requires if side == Left then cmp(k, t.e.key) == 0 else cmp(k, t.e.key) > 0 && cmp(k, t.e1.key) == 0
    ensures Items(WithChild(WithElm(t, side, elm), side, s)) == Drop(cmp, Items(t), k)
  {
    if t.Bin? {
      DropAt(cmp, Items(t.l), t.e.Item(), Items(t.r), k);
    } else {
      DropAtTwo(cmp, Items(t.l), t.e.Item(), Items(t.m), t.e1.Item(), Items(t.r), k);
    }
  }

  /** The same in a leaf. */
  lemma DropLeaf<K, V>(cmp: Compare<K>, t: Shape<K, V>, k: K)
    requires (t.Bin? && t.l.Nil? && t.r.Nil?) || (t.Tri? && t.l.Nil? && t.m.Nil? && t.r.Nil?)
    requires Cut(cmp, Items(t), k)
    ensures cmp(k, t.e.key) == 0 ==> Drop(cmp, Items(t), k) == if t.Bin? then [] else [t.e1.Item()]
    ensures t.Tri? && cmp(k, t.e.key) > 0 && cmp(k, t.e1.key) == 0 ==> Drop(cmp, Items(t), k) == [t.e.Item()]
  {
    if t.Bin? {
      DropAt(cmp, Items(t.l), t.e.Item(), Items(t.r), k);
    } else {
      DropAtTwo(cmp, Items(t.l), t.e.Item(), Items(t.m), t.e1.Item(), Items(t.r), k);
    }
  }

  method ReplaceElm<K, V>(n: Node<K, V>, side: Side, elm: Elm<K, V>, ghost t: Shape<K, V>)
      returns (ghost t': Shape<K, V>)
    requires Has(t, side) && side != Right && Rep(n, t)
    modifies n
    ensures t' == WithElm(t, side, elm) && Rep(n, t') && Nodes(t') == Nodes(t)
  {
    if side == Left {
      n.telm0 := elm;
    } else {
      n.telm1 := elm;
    }
    t' := WithElm(t, side, elm);
  }

  // ----- insertion

  /** Hangs the result of an insertion below n and repairs n. */
  method AddAt<K, V>(n: Node<K, V>, side: Side, c: Node<K, V>, ghost t: Shape<K, V>, ghost s: Shape<K, V>, ghost h: nat)
    returns (res: Node<K, V>, ghost t': Shape<K, V>)
    requires Has(t, side) && RepAround(n, t, side) && BalancedAround(t, side, h)
    requires Rep(c, s) && Nodes(s) !! Others(t, side) && Grown(s, h)
    modifies n, Nodes(s)
    ensures Rep(res, t') && Grown(t', h + 1) && Items(t') == Items(WithChild(t, side, s))
    ensures forall x :: x in Nodes(t') ==> x in Nodes(s) || x in Others(t, side) || fresh(x)
  {
    ghost var u := Link(n, side, c, t, s);
    if n.kind == BI_NODE {
      match side {
        case Left => res, t' := AddLeft2(n, u, h);
        case _ => res, t' := AddRight2(n, u, h);
      }
    } else {
      match side {
        case Left => res, t' := AddLeft3(n, u, h);
        case Midle => res, t' := AddMidle3(n, u, h);
        case Right => res, t' := AddRight3(n, u, h);
      }
    }
  }

  method AddTo<K, V>(cmp: Compare<K>, n: Node?<K, V>, elm: Elm<K, V>, ghost t: Shape<K, V>, ghost h: nat)
    returns (res: Node<K, V>, ghost t': Shape<K, V>)
    requires Rep(n, t) && Balanced(t, h) && Cut(cmp, Items(t), elm.key)
    modifies Nodes(t)
    ensures Rep(res, t') && (forall x :: x in Nodes(t') ==> x in Nodes(t) || fresh(x)) && Grown(t', h)
    ensures Items(t') == Put(cmp, Items(t), elm.Item())
    decreases t, 3
  {
    if n == null {
      res, t' := NewRaised(elm, null, null, Nil, Nil);
    } else if n.kind == BI_NODE {
      res, t' := AddTo2(cmp, n, elm, t, h);
    } else {
      res, t' := AddTo3(cmp, n, elm, t, h);
    }
  }

  /** Inserts below one child, which is not linked back yet. */
  method AddInto<K, V>(cmp: Compare<K>, n: Node<K, V>, side: Side, elm: Elm<K, V>, ghost t: Shape<K, V>, ghost h: nat)
    returns (c: Node<K, V>, ghost s: Shape<K, V>)
    requires Has(t, side) && Rep(n, t) && Balanced(t, h) && Cut(cmp, Items(Child(t, side)), elm.key)
    modifies Nodes(Child(t, side))
    ensures RepAround(n, t, side) && Rep(c, s) && Nodes(s) !! Others(t, side) && h > 0 && Grown(s, h - 1)
    ensures forall x :: x in Nodes(s) ==> x in Nodes(Child(t, side)) || fresh(x)
    ensures Items(s) == Put(cmp, Items(Child(t, side)), elm.Item())
    decreases t, 0
  {
    Around(n, t, side);
    c, s := AddTo(cmp, ChildOf(n, side), elm, Child(t, side), h - 1);
  }

  /** The recursive step of AddTo: insert below one child, link the result, repair. */
  method AddBelow<K, V>(cmp: Compare<K>, n: Node<K, V>, side: Side, elm: Elm<K, V>, ghost t: Shape<K, V>, ghost h: nat)
    returns (res: Node<K, V>, ghost t': Shape<K, V>)
    requires Goes(cmp, t, side, elm.key) && Rep(n, t) && Balanced(t, h) && Cut(cmp, Items(t), elm.key)
    modifies Nodes(t)
    ensures Rep(res, t') && (forall x :: x in Nodes(t') ==> x in Nodes(t) || fresh(x)) && Grown(t', h)
    ensures Items(t') == Put(cmp, Items(t), elm.Item())
    decreases t, 1
  {
    CutChild(cmp, t, side, elm.key);
    Around(n, t, side);
    var c, s := AddInto(cmp, n, side, elm, t, h);
    res, t' := AddAt(n, side, c, t, s, h - 1);
    PutChild(cmp, t, side, s, elm.Item());
  }

  method AddTo2<K, V>(cmp: Compare<K>, n: Node<K, V>, elm: Elm<K, V>, ghost t: Shape<K, V>, ghost h: nat)
    returns (res: Node<K, V>, ghost t': Shape<K, V>)
    requires t.Bin? && Rep(n, t) && Balanced(t, h) && Cut(cmp, Items(t), elm.key)
    modifies Nodes(t)
    ensures Rep(res, t') && (forall x :: x in Nodes(t') ==> x in Nodes(t) || fresh(x)) && Grown(t', h)
    ensures Items(t') == Put(cmp, Items(t), elm.Item())
    decreases t, 2
  {
    PutHere(cmp, t, elm);
    var cmp0 := cmp(elm.key, n.telm0.key);
    if cmp0 < 0 {
      res, t' := AddBelow(cmp, n, Left, elm, t, h);
    } else if cmp0 == 0 {
      t' := ReplaceElm(n, Left, elm, t);
      res := n;
    } else {
      res, t' := AddBelow(cmp, n, Right, elm, t, h);
    }
  }

  method AddTo3<K, V>(cmp: Compare<K>, n: Node<K, V>, elm: Elm<K, V>, ghost t: Shape<K, V>, ghost h: nat)
    returns (res: Node<K, V>, ghost t': Shape<K, V>)
    requires t.Tri? && Rep(n, t) && Balanced(t, h) && Cut(cmp, Items(t), elm.key)
    modifies Nodes(t)
    ensures Rep(res, t') && (forall x :: x in Nodes(t') ==> x in Nodes(t) || fresh(x)) && Grown(t', h)
    ensures Items(t') == Put(cmp, Items(t), elm.Item())
    decreases t, 2
  {
    PutHere(cmp, t, elm);
    var cmp0 := cmp(elm.key, n.telm0.key);
    var cmp1 := cmp(elm.key, n.telm1.key);
    if cmp0 < 0 {
      res, t' := AddBelow(cmp, n, Left, elm, t, h);
    } else if cmp0 == 0 {
      t' := ReplaceElm(n, Left, elm, t);
      res := n;
    } else if cmp1 < 0 {
      res, t' := AddBelow(cmp, n, Midle, elm, t, h);
    } else if cmp1 == 0 {
      t' := ReplaceElm(n, Midle, elm, t);
      res := n;
    } else {
      res, t' := AddBelow(cmp, n, Right, elm, t, h);
    }
  }

  // ----- the removal repairs

  method RemoveLeft2<K, V>(node: Node<K, V>, ghost t: Shape<K, V>, ghost h: nat)
    returns (res: Node<K, V>, ghost t': Shape<K, V>)
    requires Rep(node, t) && t.Bin? && Shrunk(t.l, h) && Balanced(t.r, h)
    ensures Rep(res, t') && (forall x :: x in Nodes(t') ==> x in Nodes(t) || fresh(x))
    ensures Items(t') == Items(t) && Shrunk(t', h + 1)
  {
    var n := node.left;
    if n != null && n.kind == DELETE_ACTIVE {
      var r := node.right;
      if r.kind == BI_NODE {
        var midle, m := NewTri(node.telm0, r.telm0, n.midle, r.left, r.right, t.l.m, t.r.l, t.r.r);
        res, t' := NewSunk(midle, m);
      } else {
        var left, right, a, b := NewBinPair(node.telm0, r.telm1, n.midle, r.left, r.midle, r.right, t.l.m, t.r.l,
            t.r.m, t.r.r);
        res, t' := NewBin(r.telm0, left, right, a, b);
        Regroup(Items(t.l.m), t.e.Item(), Items(t.r.l), t.r.e.Item(), Items(b));
      }
    } else {
      res, t' := node, t;
    }
  }

  method RemoveRight2<K, V>(node: Node<K, V>, ghost t: Shape<K, V>, ghost h: nat)
    returns (res: Node<K, V>, ghost t': Shape<K, V>)
    requires Rep(node, t) && t.Bin? && Balanced(t.l, h) && Shrunk(t.r, h)
    ensures Rep(res, t') && (forall x :: x in Nodes(t') ==> x in Nodes(t) || fresh(x))
    ensures Items(t') == Items(t) && Shrunk(t', h + 1)
  {
    var n := node.right;
    if n != null && n.kind == DELETE_ACTIVE {
      var l := node.left;
      if l.kind == BI_NODE {
        var midle, m := NewTri(l.telm0, node.telm0, l.left, l.right, n.midle, t.l.l, t.l.r, t.r.m);
        res, t' := NewSunk(midle, m);
        Regroup(Items(t.l.l), t.l.e.Item(), Items(t.l.r), t.e.Item(), Items(t.r.m));
      } else {
        var left, right, a, b := NewBinPair(l.telm0, node.telm0, l.left, l.midle, l.right, n.midle, t.l.l, t.l.m,
            t.l.r, t.r.m);
        res, t' := NewBin(l.telm1, left, right, a, b);
        RegroupRight(Items(t.l.l), t.l.e.Item(), Items(t.l.m), t.l.e1.Item(), Items(t.l.r), t.e.Item(), Items(t.r.m));
      }
    } else {
      res, t' := node, t;
    }
  }

  method RemoveLeft3<K, V>(node: Node<K, V>, ghost t: Shape<K, V>, ghost h: nat)
    returns (res: Node<K, V>, ghost t': Shape<K, V>)
    requires Rep(node, t) && t.Tri? && Shrunk(t.l, h) && Balanced(t.m, h) && Balanced(t.r, h)
    ensures Rep(res, t') && (forall x :: x in Nodes(t') ==> x in Nodes(t) || fresh(x))
    ensures Items(t') == Items(t) && Shrunk(t', h + 1)
  {
    var n := node.left;
    if n != null && n.kind == DELETE_ACTIVE {
      var m := node.midle;
      var r := node.right;
      if m.kind == BI_NODE {
        ghost var y;
        res, y, t' := NewTriThen(node.telm0, m.telm0, node.telm1, n.midle, m.left, m.right, r, t.l.m, t.m.l, t.m.r,
            t.r);
        Regroup(Items(t.l.m), t.e.Item(), Items(t.m), t.e1.Item(), Items(t.r));
      } else {
        ghost var y, z;
        res, y, z, t' := NewBinsThen(node.telm0, m.telm1, m.telm0, node.telm1, n.midle, m.left, m.midle, m.right, r,
                               t.l.m, t.m.l, t.m.m, t.m.r, t.r);
        RegroupLeft(Items(t.l.m), t.e.Item(), Items(t.m.l), t.m.e.Item(), Items(t'.m), t.e1.Item(), Items(t.r));
      }
    } else {
      res, t' := node, t;
    }
  }

  /** The three nodes that take up a delete-active middle child next to a 3-node. */
  method SpreadRight3<K, V>(node: Node<K, V>, n: Node<K, V>, r: Node<K, V>, ghost t: Shape<K, V>, ghost h: nat)
    returns (res: Node<K, V>, ghost t': Shape<K, V>)
    requires Rep(node, t) && t.Tri? && Balanced(t.l, h) && Shrunk(t.m, h) && Balanced(t.r, h)
    requires n == node.midle && r == node.right && t.m.Sunk? && t.r.Tri?
    ensures Rep(res, t') && (forall x :: x in Nodes(t') ==> x in Nodes(t) || fresh(x))
    ensures Items(t') == Items(t) && Shrunk(t', h + 1)
  {
    ghost var y, z;
    res, y, z, t' := ThenNewBins(node.telm1, r.telm1, node.telm0, r.telm0, n.midle, r.left, r.midle, r.right, node.left,
                           t.m.m, t.r.l, t.r.m, t.r.r, t.l);
    Regroup(Items(t.m.m), t.e1.Item(), Items(t.r.l), t.r.e.Item(), Items(t'.r));
  }

  method RemoveMidle3<K, V>(node: Node<K, V>, ghost t: Shape<K, V>, ghost h: nat)
    returns (res: Node<K, V>, ghost t': Shape<K, V>)
    requires Rep(node, t) && t.Tri? && Balanced(t.l, h) && Shrunk(t.m, h) && Balanced(t.r, h)
    ensures Rep(res, t') && (forall x :: x in Nodes(t') ==> x in Nodes(t) || fresh(x))
    ensures Items(t') == Items(t) && Shrunk(t', h + 1)
  {
    var n := node.midle;
    if n != null && n.kind == DELETE_ACTIVE {
      var l := node.left;
      var r := node.right;
      if r.kind == BI_NODE {
        ghost var y;
        res, y, t' := ThenNewTri(node.telm1, r.telm0, node.telm0, n.midle, r.left, r.right, l, t.m.m, t.r.l, t.r.r,
            t.l);
      } else {
        res, t' := SpreadRight3(node, n, r, t, h);
      }
    } else {
      res, t' := node, t;
    }
  }

  /** The three nodes that take up a delete-active right child next to a 3-node. */
  method SpreadMidle3<K, V>(node: Node<K, V>, m: Node<K, V>, n: Node<K, V>, ghost t: Shape<K, V>, ghost h: nat)
    returns (res: Node<K, V>, ghost t': Shape<K, V>)
    requires Rep(node, t) && t.Tri? && Balanced(t.l, h) && Balanced(t.m, h) && Shrunk(t.r, h)
    requires m == node.midle && n == node.right && t.m.Tri? && t.r.Sunk?
    ensures Rep(res, t') && (forall x :: x in Nodes(t') ==> x in Nodes(t) || fresh(x))
    ensures Items(t') == Items(t) && Shrunk(t', h + 1)
  {
    ghost var y, z;
    res, y, z, t' := ThenNewBins(m.telm0, node.telm1, node.telm0, m.telm1, m.left, m.midle, m.right, n.midle, node.left,
                           t.m.l, t.m.m, t.m.r, t.r.m, t.l);
    RegroupRight(Items(t.m.l), t.m.e.Item(), Items(t.m.m), t.m.e1.Item(), Items(t.m.r), t.e1.Item(), Items(t.r.m));
  }

  method RemoveRight3<K, V>(node: Node<K, V>, ghost t: Shape<K, V>, ghost h: nat)
    returns (res: Node<K, V>, ghost t': Shape<K, V>)
    requires Rep(node, t) && t.Tri? && Balanced(t.l, h) && Balanced(t.m, h) && Shrunk(t.r, h)
    ensures Rep(res, t') && (forall x :: x in Nodes(t') ==> x in Nodes(t) || fresh(x))
    ensures Items(t') == Items(t) && Shrunk(t', h + 1)
  {
    var n := node.right;
    if n != null && n.kind == DELETE_ACTIVE {
      var l := node.left;
      var m := node.midle;
      if m.kind == BI_NODE {
        ghost var y;
        res, y, t' := ThenNewTri(m.telm0, node.telm1, node.telm0, m.left, m.right, n.midle, l, t.m.l, t.m.r, t.r.m,
            t.l);
        Regroup(Items(t.m.l), t.m.e.Item(), Items(t.m.r), t.e1.Item(), Items(t.r.m));
      } else {
        res, t' := SpreadMidle3(node, m, n, t, h);
      }
    } else {
      res, t' := node, t;
    }
  }

  // ----- removal

  /** Hangs the result of a removal below n and repairs n. */
  method RemoveAt<K, V>(n: Node<K, V>, side: Side, c: Node?<K, V>, ghost t: Shape<K, V>, ghost s: Shape<K, V>,
                        ghost h: nat)
    returns (res: Node<K, V>, ghost t': Shape<K, V>)
    requires Has(t, side) && RepAround(n, t, side) && BalancedAround(t, side, h)
    requires Rep(c, s) && Nodes(s) !! Others(t, side) && Shrunk(s, h)
    modifies n
    ensures Rep(res, t') && Shrunk(t', h + 1) && Items(t') == Items(WithChild(t, side, s))
    ensures forall x :: x in Nodes(t') ==> x in Nodes(s) || x in Others(t, side) || fresh(x)
  {
    ghost var u := Link(n, side, c, t, s);
    if n.kind == BI_NODE {
      match side {
        case Left => res, t' := RemoveLeft2(n, u, h);
        case _ => res, t' := RemoveRight2(n, u, h);
      }
    } else {
      match side {
        case Left => res, t' := RemoveLeft3(n, u, h);
        case Midle => res, t' := RemoveMidle3(n, u, h);
        case Right => res, t' := RemoveRight3(n, u, h);
      }
    }
  }

  lemma LastOf<K, V>(t: Shape<K, V>, s: Shape<K, V>, x: (K, V))
    requires Has(t, Right) && Items(t.r) == Items(s) + [x]
    ensures Items(t) == Items(WithChild(t, Right, s)) + [x]
  {
    if t.Bin? {
      assert Items(t.l) + [t.e.Item()] + (Items(s) + [x]) == Items(t.l) + [t.e.Item()] + Items(s) + [x];
    } else {
      var a, b := Items(t.l) + [t.e.Item()], Items(t.m) + [t.e1.Item()];
      assert a + (b + (Items(s) + [x])) == a + (b + Items(s)) + [x];
    }
  }

  /** Takes the last item out of a non-empty subtree. */
  method RemoveMax<K, V>(node: Node<K, V>, ghost t: Shape<K, V>, ghost h: nat)
    returns (res: Node<K, V>, elm: Elm<K, V>, ghost t': Shape<K, V>)
    requires Rep(node, t) && Balanced(t, h)
    modifies Nodes(t)
    ensures Rep(res, t') && (forall x :: x in Nodes(t') ==> x in Nodes(t) || fresh(x)) && Shrunk(t', h)
    ensures Items(t) == Items(t') + [elm.Item()]
    decreases t, 2
  {
    if node.right == null {
      res, elm, t' := RemoveMaxLeaf(node, t, h);
    } else {
      res, elm, t' := RemoveMaxBelow(node, t, h);
    }
  }

  method RemoveMaxLeaf<K, V>(node: Node<K, V>, ghost t: Shape<K, V>, ghost h: nat)
    returns (res: Node<K, V>, elm: Elm<K, V>, ghost t': Shape<K, V>)
    requires Rep(node, t) && Balanced(t, h) && node.right == null
    ensures Rep(res, t') && (forall x :: x in Nodes(t') ==> fresh(x)) && Shrunk(t', h)
    ensures Items(t) == Items(t') + [elm.Item()]
  {
    if node.kind == BI_NODE {
      elm := new Elm(node.telm0.key, node.telm0.val);
      res, t' := NewSunk(null, Nil);
    } else {
      elm := new Elm(node.telm1.key, node.telm1.val);
      res, t' := NewBin(node.telm0, null, null, Nil, Nil);
    }
  }

  method RemoveMaxBelow<K, V>(node: Node<K, V>, ghost t: Shape<K, V>, ghost h: nat)
    returns (res: Node<K, V>, elm: Elm<K, V>, ghost t': Shape<K, V>)
    requires (t.Bin? || t.Tri?) && Rep(node, t) && Balanced(t, h) && node.right != null
    modifies Nodes(t)
    ensures Rep(res, t') && (forall x :: x in Nodes(t') ==> x in Nodes(t) || fresh(x)) && Shrunk(t', h)
    ensures Items(t) == Items(t') + [elm.Item()]
    decreases t, 1
  {
    Around(node, t, Right);
    var c;
    ghost var s;
    c, elm, s := RemoveMaxInto(node, Right, t, h);
    res, t' := RemoveAt(node, Right, c, t, s, h - 1);
    assert Items(t') == Items(WithChild(t, Right, s));
    LastOf(t, s, elm.Item());
  }

  /** Takes the last item out of one child, which is not linked back yet. */
  method RemoveMaxInto<K, V>(n: Node<K, V>, side: Side, ghost t: Shape<K, V>, ghost h: nat)
    returns (c: Node<K, V>, elm: Elm<K, V>, ghost s: Shape<K, V>)
    requires Has(t, side) && Rep(n, t) && Balanced(t, h) && ChildOf(n, side) != null
    modifies Nodes(Child(t, side))
    ensures RepAround(n, t, side) && Rep(c, s) && Nodes(s) !! Others(t, side) && h > 0 && Shrunk(s, h - 1)
    ensures forall x :: x in Nodes(s) ==> x in Nodes(Child(t, side)) || fresh(x)
    ensures Items(Child(t, side)) == Items(s) + [elm.Item()]
    decreases t, 0
  {
    Around(n, t, side);
    c, elm, s := RemoveMax(ChildOf(n, side), Child(t, side), h - 1);
  }

  method RemoveFrom<K, V>(cmp: Compare<K>, n: Node?<K, V>, k: K, ghost t: Shape<K, V>, ghost h: nat)
    returns (res: Node?<K, V>, ghost t': Shape<K, V>)
    requires Rep(n, t) && Balanced(t, h) && Cut(cmp, Items(t), k)
    modifies Nodes(t)
    ensures Rep(res, t') && (forall x :: x in Nodes(t') ==> x in Nodes(t) || fresh(x)) && Shrunk(t', h)
    ensures Items(t') == Drop(cmp, Items(t), k)
    decreases t, 3
  {
    if n == null {
      res, t' := null, t;
    } else if n.kind == BI_NODE {
      res, t' := RemoveFrom2(cmp, n, k, t, h);
    } else {
      res, t' := RemoveFrom3(cmp, n, k, t, h);
    }
  }

  /** Removes below one child, which is not linked back yet. */
  method RemoveInto<K, V>(cmp: Compare<K>, n: Node<K, V>, side: Side, k: K, ghost t: Shape<K, V>, ghost h: nat)
    returns (c: Node?<K, V>, ghost s: Shape<K, V>)
    requires Has(t, side) && Rep(n, t) && Balanced(t, h) && Cut(cmp, Items(Child(t, side)), k)
    modifies Nodes(Child(t, side))
    ensures RepAround(n, t, side) && Rep(c, s) && Nodes(s) !! Others(t, side) && h > 0 && Shrunk(s, h - 1)
    ensures forall x :: x in Nodes(s) ==> x in Nodes(Child(t, side)) || fresh(x)
    ensures Items(s) == Drop(cmp, Items(Child(t, side)), k)
    decreases t, 0
  {
    Around(n, t, side);
    c, s := RemoveFrom(cmp, ChildOf(n, side), k, Child(t, side), h - 1);
  }

  /** The recursive step of RemoveFrom: remove below one child, link the result, repair. */
  method RemoveBelow<K, V>(cmp: Compare<K>, n: Node<K, V>, side: Side, k: K, ghost t: Shape<K, V>, ghost h: nat)
    returns (res: Node<K, V>, ghost t': Shape<K, V>)
    requires Goes(cmp, t, side, k) && Rep(n, t) && Balanced(t, h) && Cut(cmp, Items(t), k)
    modifies Nodes(t)
    ensures Rep(res, t') && (forall x :: x in Nodes(t') ==> x in Nodes(t) || fresh(x)) && Shrunk(t', h)
    ensures Items(t') == Drop(cmp, Items(t), k)
    decreases t, 1
  {
    CutChild(cmp, t, side, k);
    Around(n, t, side);
    var c, s := RemoveInto(cmp, n, side, k, t, h);
    res, t' := RemoveAt(n, side, c, t, s, h - 1);
    DropChild(cmp, t, side, s, k);
  }

  method SetElm<K, V>(n: Node<K, V>, side: Side, elm: Elm<K, V>, ghost t: Shape<K, V>,
                      ghost c: Node<K, V>, ghost s: Shape<K, V>)
    returns (ghost u: Shape<K, V>)
    requires Has(t, side) && side != Right && RepAround(n, t, side)
    requires Rep(c, s) && Nodes(s) !! Others(t, side)
    modifies n
    ensures u == WithElm(t, side, elm) && Has(u, side) && Rep(c, s)
    ensures RepAround(n, u, side) && Others(u, side) == Others(t, side)
  {
    if side == Left {
      n.telm0 := elm;
    } else {
      n.telm1 := elm;
    }
    u := WithElm(t, side, elm);
  }

  /** Moves the last item of a child up into the separator on its right; the child is not linked back yet. */
  method LiftMax<K, V>(n: Node<K, V>, side: Side, ghost t: Shape<K, V>, ghost h: nat)
    returns (c: Node<K, V>, elm: Elm<K, V>, ghost s: Shape<K, V>, ghost u: Shape<K, V>)
    requires Has(t, side) && side != Right && Rep(n, t) && Balanced(t, h) && ChildOf(n, side) != null
    modifies Nodes(t)
    ensures u == WithElm(t, side, elm) && Has(u, side) && Others(u, side) == Others(t, side)
    ensures RepAround(n, u, side) && Rep(c, s) && Nodes(s) !! Others(u, side)
    ensures h > 0 && Shrunk(s, h - 1)
    ensures forall x :: x in Nodes(s) ==> x in Nodes(t) || fresh(x)
    ensures Items(Child(t, side)) == Items(s) + [elm.Item()]
  {
    Around(n, t, side);
    c, elm, s := RemoveMaxInto(n, side, t, h);
    u := SetElm(n, side, elm, t, c, s);
  }

  /** Removes a separator of an inner node. */
  method RemoveElm<K, V>(n: Node<K, V>, side: Side, ghost t: Shape<K, V>, ghost h: nat)
    returns (res: Node<K, V>, ghost t': Shape<K, V>, ghost s: Shape<K, V>, ghost elm: Elm<K, V>)
    requires Has(t, side) && side != Right && Rep(n, t) && Balanced(t, h) && ChildOf(n, side) != null
    modifies Nodes(t)
    ensures Rep(res, t') && (forall x :: x in Nodes(t') ==> x in Nodes(t) || fresh(x)) && Shrunk(t', h)
    ensures Items(Child(t, side)) == Items(s) + [elm.Item()]
    ensures Items(t') == Items(WithChild(WithElm(t, side, elm), side, s))
  {
    Around(n, t, side);
    var c, e;
    ghost var u;
    c, e, s, u := LiftMax(n, side, t, h);
    elm := e;
    res, t' := RemoveAt(n, side, c, u, s, h - 1);
  }

  method RemoveFrom2<K, V>(cmp: Compare<K>, n: Node<K, V>, k: K, ghost t: Shape<K, V>, ghost h: nat)
    returns (res: Node<K, V>, ghost t': Shape<K, V>)
    requires t.Bin? && Rep(n, t) && Balanced(t, h) && Cut(cmp, Items(t), k)
    modifies Nodes(t)
    ensures Rep(res, t') && (forall x :: x in Nodes(t') ==> x in Nodes(t) || fresh(x)) && Shrunk(t', h)
    ensures Items(t') == Drop(cmp, Items(t), k)
    decreases t, 2
  {
    var cmp0 := cmp(k, n.telm0.key);
    if cmp0 < 0 {
      res, t' := RemoveBelow(cmp, n, Left, k, t, h);
    } else if cmp0 == 0 {
      if n.left == null {
        DropLeaf(cmp, t, k);
        res, t' := NewSunk(null, Nil);
      } else {
        ghost var s, e;
        res, t', s, e := RemoveElm(n, Left, t, h);
        DropHere(cmp, t, Left, s, e, k);
      }
    } else {
      res, t' := RemoveBelow(cmp, n, Right, k, t, h);
    }
  }

  method RemoveFrom3<K, V>(cmp: Compare<K>, n: Node<K, V>, k: K, ghost t: Shape<K, V>, ghost h: nat)
    returns (res: Node<K, V>, ghost t': Shape<K, V>)
    requires t.Tri? && Rep(n, t) && Balanced(t, h) && Cut(cmp, Items(t), k)
    modifies Nodes(t)
    ensures Rep(res, t') && (forall x :: x in Nodes(t') ==> x in Nodes(t) || fresh(x)) && Shrunk(t', h)
    ensures Items(t') == Drop(cmp, Items(t), k)
    decreases t, 2
  {
    var cmp0 := cmp(k, n.telm0.key);
    var cmp1 := cmp(k, n.telm1.key);
    if cmp0 < 0 {
      res, t' := RemoveBelow(cmp, n, Left, k, t, h);
    } else if cmp0 == 0 {
      if n.left == null {
        DropLeaf(cmp, t, k);
        res, t' := NewBin(n.telm1, null, null, Nil, Nil);
      } else {
        ghost var s, e;
        res, t', s, e := RemoveElm(n, Left, t, h);
        DropHere(cmp, t, Left, s, e, k);
      }
    } else if cmp1 < 0 {
      res, t' := RemoveBelow(cmp, n, Midle, k, t, h);
    } else if cmp1 == 0 {
      if n.midle == null {
        DropLeaf(cmp, t, k);
        res, t' := NewBin(n.telm0, null, null, Nil, Nil);
      } else {
        ghost var s, e;
        res, t', s, e := RemoveElm(n, Midle, t, h);
        DropHere(cmp, t, Midle, s, e, k);
      }
    } else {
      res, t' := RemoveBelow(cmp, n, Right, k, t, h);
    }
  }

  // ----- the tree object

  ghost function Pow2(n: nat): nat {
    if n == 0 then 1 else 2 * Pow2(n - 1)
  }

  /** A tree of h levels holds at least 2^h - 1 items. */
  lemma {:induction false} DepthBoundsSize<K, V>(t: Shape<K, V>, h: nat)
    requires Balanced(t, h)
    ensures Pow2(h) <= |Items(t)| + 1
  {
    match t
    case Nil =>
    case Bin(_, _, l, r) =>
      DepthBoundsSize(l, h - 1);
      DepthBoundsSize(r, h - 1);
    case Tri(_, _, _, l, m, r) =>
      DepthBoundsSize(l, h - 1);
      DepthBoundsSize(m, h - 1);
      DepthBoundsSize(r, h - 1);
  }

  /** No node of a balanced tree is of an active kind. */
  lemma {:induction false} NoActiveNode<K, V>(n: Node?<K, V>, t: Shape<K, V>, h: nat)
    requires Rep(n, t) && Balanced(t, h)
    ensures forall x :: x in Nodes(t) ==> x.kind == BI_NODE || x.kind == TRI_NODE
  {
    match t
    case Nil =>
    case Bin(x, _, l, r) =>
      NoActiveNode(x.left, l, h - 1);
      NoActiveNode(x.right, r, h - 1);
    case Tri(x, _, _, l, m, r) =>
      NoActiveNode(x.left, l, h - 1);
      NoActiveNode(x.midle, m, h - 1);
      NoActiveNode(x.right, r, h - 1);
  }

  /** The comparison with the key is zero on the key alone. */
  ghost predicate Tells<K(!new)>(cmp: Compare<K>, key: K) {
    forall x :: cmp(key, x) == 0 <==> key == x
  }

  /** The value a tree holds under a key. */
  ghost function ValueAt<K, V>(t: Shape<K, V>, key: K): Option<V> {
    if key in MapOf(Items(t)) then Some(MapOf(Items(t))[key]) else None
  }

  /** One step of the search loops: the subtree to continue in. */
  lemma Descend<K(!new), V>(cmp: Compare<K>, t: Shape<K, V>, side: Side, h: nat, key: K)
    requires Tells(cmp, key) && Goes(cmp, t, side, key) && Balanced(t, h) && Cut(cmp, Items(t), key)
    ensures h > 0 && Balanced(Child(t, side), h - 1) && Cut(cmp, Items(Child(t, side)), key)
    ensures ValueAt(t, key) == ValueAt(Child(t, side), key)
  {
    if t.Bin? {
      MapAt(cmp, Items(t.l), t.e.Item(), Items(t.r), key);
    } else {
      MapAt(cmp, Items(t.l), t.e.Item(), Items(t.m) + [t.e1.Item()] + Items(t.r), key);
      if side != Left {
        MapAt(cmp, Items(t.m), t.e1.Item(), Items(t.r), key);
      }
    }
  }

  /** A separator that equals the key holds its value. */
  lemma Found<K(!new), V>(cmp: Compare<K>, t: Shape<K, V>, h: nat, key: K)
    requires Tells(cmp, key) && (t.Bin? || t.Tri?) && Balanced(t, h) && Cut(cmp, Items(t), key)
    ensures cmp(key, t.e.key) == 0 ==> ValueAt(t, key) == Some(t.e.val)
    ensures t.Tri? && cmp(key, t.e.key) > 0 && cmp(key, t.e1.key) == 0 ==> ValueAt(t, key) == Some(t.e1.val)
  {
    if t.Bin? {
      MapAt(cmp, Items(t.l), t.e.Item(), Items(t.r), key);
    } else {
      MapAt(cmp, Items(t.l), t.e.Item(), Items(t.m) + [t.e1.Item()] + Items(t.r), key);
      if cmp(key, t.e.key) > 0 {
        MapAt(cmp, Items(t.m), t.e1.Item(), Items(t.r), key);
      }
    }
  }

  method FindFrom<K(!new), V>(cmp: Compare<K>, root: Node?<K, V>, key: K, ghost shape: Shape<K, V>, ghost height: nat)
    returns (found: bool, ghost steps: nat)
    requires Rep(root, shape) && Balanced(shape, height) && Tells(cmp, key) && Cut(cmp, Items(shape), key)
    ensures found <==> key in MapOf(Items(shape))
    ensures steps <= height
  {
    var node := root;
    ghost var t, h := shape, height;
    steps := 0;
    while node != null
      invariant Rep(node, t) && Balanced(t, h) && Cut(cmp, Items(t), key)
      invariant ValueAt(shape, key) == ValueAt(t, key)
      invariant steps + h == height
      decreases h
    {
      Found(cmp, t, h, key);
      steps := steps + 1;
      ghost var side: Side;
      var cmp0 := cmp(key, node.telm0.key);
      if node.kind == BI_NODE {
        if cmp0 < 0 {
          node, side := node.left, Left;
        } else if cmp0 == 0 {
          return true, steps;
        } else {
          node, side := node.right, Right;
        }
      } else {
        var cmp1 := cmp(key, node.telm1.key);
        if cmp0 < 0 {
          node, side := node.left, Left;
        } else if cmp0 == 0 {
          return true, steps;
        } else if cmp1 < 0 {
          node, side := node.midle, Midle;
        } else if cmp1 == 0 {
          return true, steps;
        } else {
          node, side := node.right, Right;
        }
      }
      Descend(cmp, t, side, h, key);
      t, h := Child(t, side), h - 1;
    }
    found := false;
  }

  method GetValFrom<K(!new), V>(cmp: Compare<K>, root: Node?<K, V>, key: K, ghost shape: Shape<K, V>, ghost height: nat)
    returns (val: Option<V>, ghost steps: nat)
    requires Rep(root, shape) && Balanced(shape, height) && Tells(cmp, key) && Cut(cmp, Items(shape), key)
    ensures val == ValueAt(shape, key)
    ensures steps <= height
  {
    var node := root;
    ghost var t, h := shape, height;
    steps := 0;
    while node != null
      invariant Rep(node, t) && Balanced(t, h) && Cut(cmp, Items(t), key)
      invariant ValueAt(shape, key) == ValueAt(t, key)
      invariant steps + h == height
      decreases h
    {
      Found(cmp, t, h, key);
      steps := steps + 1;
      ghost var side: Side;
      var cmp0 := cmp(key, node.telm0.key);
      if node.kind == BI_NODE {
        if cmp0 < 0 {
          node, side := node.left, Left;
        } else if cmp0 == 0 {
          return Some(node.telm0.val), steps;
        } else {
          node, side := node.right, Right;
        }
      } else {
        var cmp1 := cmp(key, node.telm1.key);
        if cmp0 < 0 {
          node, side := node.left, Left;
        } else if cmp0 == 0 {
          return Some(node.telm0.val), steps;
        } else if cmp1 < 0 {
          node, side := node.midle, Midle;
        } else if cmp1 == 0 {
          return Some(node.telm1.val), steps;
        } else {
          node, side := node.right, Right;
        }
      }
      Descend(cmp, t, side, h, key);
      t, h := Child(t, side), h - 1;
    }
    val := None;
  }

  /** A search of at most h steps is logarithmic in the number of keys. */
  lemma SearchBound<K(!new), V>(cmp: Compare<K>, t: Shape<K, V>, h: nat)
    requires TotalOrder(cmp) && Balanced(t, h) && Sorted(cmp, Items(t))
    ensures forall steps: nat :: steps <= h ==> Pow2(steps) <= |MapOf(Items(t))| + 1
  {
    MapOfSize(cmp, Items(t));
    DepthBoundsSize(t, h);
    forall steps: nat | steps <= h ensures Pow2(steps) <= |MapOf(Items(t))| + 1 {
      PowMonotone(steps, h);
    }
  }

  /** Makes an active root left by an insertion an ordinary one; the tree grows by a level. */
  method SettleRoot<K, V>(n: Node<K, V>, ghost t: Shape<K, V>, ghost h: nat)
    returns (ghost t': Shape<K, V>, ghost h': nat)
    requires Rep(n, t) && Grown(t, h)
    modifies n
    ensures Rep(n, t') && Balanced(t', h') && Items(t') == Items(t) && Nodes(t') == Nodes(t) && h <= h' <= h + 1
  {
    n.kind := if n.kind < 0 then -n.kind else n.kind;
    t', h' := t, h;
    if t.Raised? {
      t', h' := Bin(n, t.e, t.l, t.r), h + 1;
    }
  }

  /** Skips an active root left by a removal; the tree shrinks by a level. */
  method SkipRoot<K, V>(n: Node?<K, V>, ghost t: Shape<K, V>, ghost h: nat)
    returns (root: Node?<K, V>, ghost t': Shape<K, V>, ghost h': nat)
    requires Rep(n, t) && Shrunk(t, h)
    ensures Rep(root, t') && Balanced(t', h') && Items(t') == Items(t) && Nodes(t') <= Nodes(t) && h - 1 <= h' <= h
  {
    root, t', h' := n, t, h;
    if n != null && n.kind == DELETE_ACTIVE {
      root, t', h' := n.midle, t.m, h - 1;
    }
  }

  method AddToRoot<K, V>(cmp: Compare<K>, root: Node?<K, V>, key: K, val: V, ghost t: Shape<K, V>, ghost h: nat)
    returns (n: Node<K, V>, ghost t': Shape<K, V>, ghost h': nat)
    requires Rep(root, t) && Balanced(t, h) && Cut(cmp, Items(t), key)
    modifies Nodes(t)
    ensures Rep(n, t') && Balanced(t', h') && h <= h' <= h + 1
    ensures forall x :: x in Nodes(t') ==> x in Nodes(t) || fresh(x)
    ensures Items(t') == Put(cmp, Items(t), (key, val))
  {
    NodesAllocated(t);
    var elm := new Elm(key, val);
    n, t' := AddTo(cmp, root, elm, t, h);
    t', h' := SettleRoot(n, t', h);
  }

  method RemoveFromRoot<K, V>(cmp: Compare<K>, root: Node?<K, V>, key: K, ghost t: Shape<K, V>, ghost h: nat)
    returns (n: Node?<K, V>, ghost t': Shape<K, V>, ghost h': nat)
    requires Rep(root, t) && Balanced(t, h) && Cut(cmp, Items(t), key)
    modifies Nodes(t)
    ensures Rep(n, t') && Balanced(t', h') && h - 1 <= h' <= h
    ensures forall x :: x in Nodes(t') ==> x in Nodes(t) || fresh(x)
    ensures Items(t') == Drop(cmp, Items(t), key)
  {
    n, t' := RemoveFrom(cmp, root, key, t, h);
    n, t', h' := SkipRoot(n, t', h);
  }

  class Tree23<K(!new), V> {
    const compare: Compare<K>
    var root: Node?<K, V>
    ghost var shape: Shape<K, V>
    ghost var height: nat

    ghost predicate Valid()
      reads this, Nodes(shape)
    {
      TotalOrder(compare) && Sorted(compare, Items(shape)) && Sound()
    }

    /** The part of Valid that does not depend on the order of the keys. */
    ghost predicate Sound()
      reads this, Nodes(shape)
    {
      Rep(root, shape) && Balanced(shape, height)
    }

    method Install(n: Node?<K, V>, ghost t: Shape<K, V>, ghost h: nat)
      requires Rep(n, t) && Balanced(t, h)
      modifies this
      ensures Sound() && root == n && shape == t && height == h
      ensures forall x :: x in Nodes(shape) ==> x.kind == BI_NODE || x.kind == TRI_NODE
    {
      root := n;
      shape, height := t, h;
      NoActiveNode(root, shape, height);
    }

    ghost function Contents(): map<K, V>
      reads this
    {
      MapOf(Items(shape))
    }

    constructor (compare: Compare<K>)
      requires TotalOrder(compare)
      ensures Valid() && Contents() == map[] && height == 0 && Nodes(shape) == {} && this.compare == compare
    {
      this.compare := compare;
      root := null;
      shape := Nil;
      height := 0;
    }

    method Add(key: K, val: V)
      requires Valid()
      modifies this, Nodes(shape)
      ensures Valid() && forall x :: x in Nodes(shape) ==> x in old(Nodes(shape)) || fresh(x)
      ensures Contents() == old(Contents())[key := val]
      ensures height == old(height) || height == old(height) + 1
      ensures forall x :: x in Nodes(shape) ==> x.kind == BI_NODE || x.kind == TRI_NODE
    {
      PutOnSorted(compare, Items(shape), (key, val));
      var n, t, h := AddToRoot(compare, root, key, val, shape, height);
      Install(n, t, h);
    }

    method Remove(key: K)
      requires Valid()
      modifies this, Nodes(shape)
      ensures Valid() && forall x :: x in Nodes(shape) ==> x in old(Nodes(shape)) || fresh(x)
      ensures Contents() == old(Contents()) - {key}
      ensures height == old(height) || height == old(height) - 1
      ensures forall x :: x in Nodes(shape) ==> x.kind == BI_NODE || x.kind == TRI_NODE
    {
      DropOnSorted(compare, Items(shape), key);
      var n, t, h := RemoveFromRoot(compare, root, key, shape, height);
      Install(n, t, h);
    }

    method Find(key: K) returns (found: bool, ghost steps: nat)
      requires Valid()
      ensures found <==> key in Contents()
      ensures Pow2(steps) <= |Contents()| + 1
    {
      SortedCut(compare, Items(shape), key);
      SearchBound(compare, shape, height);
      found, steps := FindFrom(compare, root, key, shape, height);
    }

    method GetVal(key: K) returns (val: Option<V>, ghost steps: nat)
      requires Valid()
      ensures val == if key in Contents() then Some(Contents()[key]) else None
      ensures Pow2(steps) <= |Contents()| + 1
    {
      SortedCut(compare, Items(shape), key);
      SearchBound(compare, shape, height);
      val, steps := GetValFrom(compare, root, key, shape, height);
    }
  }

  lemma {:induction false} PowMonotone(a: nat, b: nat)
    ensures a <= b ==> Pow2(a) <= Pow2(b)
  {
    if a < b {
      PowMonotone(a, b - 1);
    }
  }
}
