/** DSU: the union-find structure that closes the join equalities of a query. */
module UnionFind {
  // Parent arrays as values.

  /** A measure that falls along every parent link; only roots are their own parents. */
  ghost predicate Forest(pa: seq<nat>, level: seq<nat>) {
    |level| == |pa| && forall x :: 0 <= x < |pa| ==> pa[x] < |pa| && (pa[x] != x ==> level[pa[x]] < level[x])
  }

  ghost function Root(pa: seq<nat>, level: seq<nat>, x: nat): (r: nat)
    requires Forest(pa, level) && x < |pa|
    ensures r < |pa| && pa[r] == r && (pa[x] != x ==> level[r] < level[x])
    decreases level[x]
  {
    if pa[x] == x then x else Root(pa, level, pa[x])
  }

  /** Pointing x straight at its root changes no root. */
  lemma {:induction false} Compressed(pa: seq<nat>, level: seq<nat>, x: nat, z: nat)
    requires Forest(pa, level) && x < |pa| && z < |pa|
    ensures Forest(pa[x := Root(pa, level, x)], level)
    ensures Root(pa[x := Root(pa, level, x)], level, z) == Root(pa, level, z)
    decreases level[z]
  {
    if pa[z] != z && z != x { Compressed(pa, level, x, pa[z]); }
  }

  /** The measure after hanging the tree of root rx below root ry. */
  ghost function Raised(pa: seq<nat>, level: seq<nat>, rx: nat, up: nat): seq<nat>
    requires Forest(pa, level)
  {
    seq(|pa|, (z: int) requires 0 <= z < |pa| => if Root(pa, level, z) == rx then level[z] + up else level[z])
  }

  lemma LinkIsForest(pa: seq<nat>, level: seq<nat>, rx: nat, ry: nat)
    requires Forest(pa, level) && rx < |pa| && ry < |pa| && pa[rx] == rx && pa[ry] == ry
    ensures Forest(pa[rx := ry], Raised(pa, level, rx, level[ry] + 1))
  {
    var pa', level' := pa[rx := ry], Raised(pa, level, rx, level[ry] + 1);
    forall z | 0 <= z < |pa| ensures pa'[z] != z ==> level'[pa'[z]] < level'[z] {
      if z != rx && pa[z] != z { assert Root(pa, level, pa[z]) == Root(pa, level, z); }
    }
  }

  /** The two classes become one, and no other class changes. */
  lemma {:induction false} Linked(pa: seq<nat>, level: seq<nat>, rx: nat, ry: nat, z: nat)
    requires Forest(pa, level) && rx < |pa| && ry < |pa| && pa[rx] == rx && pa[ry] == ry && z < |pa|
    requires Forest(pa[rx := ry], Raised(pa, level, rx, level[ry] + 1))
    ensures Root(pa[rx := ry], Raised(pa, level, rx, level[ry] + 1), z)
         == if Root(pa, level, z) == rx then ry else Root(pa, level, z)
    decreases level[z]
  {
    var pa', level' := pa[rx := ry], Raised(pa, level, rx, level[ry] + 1);
    if z == rx {
      if ry != rx { assert Root(pa', level', ry) == ry; }
    } else if pa[z] != z {
      Linked(pa, level, rx, ry, pa[z]);
    }
  }

  // The equivalence closure of the united pairs.

  type Pairs = seq<(nat, nat)>

  /** Each element of the path equals the next or was united with it. */
  ghost predicate Path(pairs: Pairs, p: seq<nat>) {
    p != [] && forall i :: 0 <= i < |p| - 1 ==> Step(pairs, p[i], p[i + 1])
  }

  ghost predicate Step(pairs: Pairs, a: nat, b: nat) {
    a == b || (a, b) in pairs || (b, a) in pairs
  }

  ghost predicate Connected(pairs: Pairs, a: nat, b: nat) {
    exists p :: Path(pairs, p) && p[0] == a && p[|p| - 1] == b
  }

  lemma ConnectedRefl(pairs: Pairs, a: nat)
    ensures Connected(pairs, a, a)
  {
    assert Path(pairs, [a]);
  }

  lemma ConnectedStep(pairs: Pairs, a: nat, b: nat)
    requires Step(pairs, a, b)
    ensures Connected(pairs, a, b)
  {
    assert Path(pairs, [a, b]);
  }

  lemma ConnectedTrans(pairs: Pairs, a: nat, b: nat, c: nat)
    requires Connected(pairs, a, b) && Connected(pairs, b, c)
    ensures Connected(pairs, a, c)
  {
    var p :| Path(pairs, p) && p[0] == a && p[|p| - 1] == b;
    var q :| Path(pairs, q) && q[0] == b && q[|q| - 1] == c;
    var r := p + q;
    forall i | 0 <= i < |r| - 1 ensures Step(pairs, r[i], r[i + 1]) {
      if i < |p| - 1 { assert Step(pairs, p[i], p[i + 1]); }
      else if i >= |p| { assert Step(pairs, q[i - |p|], q[i - |p| + 1]); }
    }
    assert Path(pairs, r);
  }

  lemma ConnectedSym(pairs: Pairs, a: nat, b: nat)
    requires Connected(pairs, a, b)
    ensures Connected(pairs, b, a)
  {
    var p :| Path(pairs, p) && p[0] == a && p[|p| - 1] == b;
    var q := seq(|p|, (i: int) requires 0 <= i < |p| => p[|p| - 1 - i]);
    forall i | 0 <= i < |q| - 1 ensures Step(pairs, q[i], q[i + 1]) {
      assert Step(pairs, p[|p| - 2 - i], p[|p| - 2 - i + 1]);
    }
    assert Path(pairs, q);
  }

  lemma ConnectedMore(pairs: Pairs, more: (nat, nat), a: nat, b: nat)
    requires Connected(pairs, a, b)
    ensures Connected(pairs + [more], a, b)
  {
    var p :| Path(pairs, p) && p[0] == a && p[|p| - 1] == b;
    forall i | 0 <= i < |p| - 1 ensures Step(pairs + [more], p[i], p[i + 1]) { assert Step(pairs, p[i], p[i + 1]); }
    assert Path(pairs + [more], p);
  }

  /** Whatever every united pair agrees on, connected elements agree on. */
  lemma {:induction false} PathKeeps(pairs: Pairs, p: seq<nat>, f: nat -> nat)
    requires Path(pairs, p) && forall a, b :: (a, b) in pairs ==> f(a) == f(b)
    ensures f(p[0]) == f(p[|p| - 1])
  {
    if |p| > 1 {
      assert Step(pairs, p[|p| - 2], p[|p| - 2 + 1]);
      var q := p[..|p| - 1];
      forall i | 0 <= i < |q| - 1 ensures Step(pairs, q[i], q[i + 1]) { assert Step(pairs, p[i], p[i + 1]); }
      PathKeeps(pairs, q, f);
    }
  }

  /** Same root exactly if connected. */
  ghost predicate Closes(pa: seq<nat>, level: seq<nat>, pairs: Pairs) {
    && Forest(pa, level) && (forall a, b :: (a, b) in pairs ==> a < |pa| && b < |pa|)
    && forall a: nat, b: nat :: a < |pa| && b < |pa| ==>
      (Root(pa, level, a) == Root(pa, level, b) <==> Connected(pairs, a, b))
  }

  ghost function RootOr(pa: seq<nat>, level: seq<nat>, x: nat): nat
    requires Forest(pa, level)
  {
    if x < |pa| then Root(pa, level, x) else x
  }

  /** pa' has the classes of pa, but those of x and y are one. */
  ghost predicate Merged(pa: seq<nat>, level: seq<nat>, x: nat, y: nat, pa': seq<nat>, level': seq<nat>)
    requires Forest(pa, level) && x < |pa| && y < |pa|
  {
    && |pa'| == |pa| && Forest(pa', level')
    && forall z: nat :: z < |pa| ==>
         Root(pa', level', z) ==
           if Root(pa, level, z) == Root(pa, level, x) then Root(pa, level, y) else Root(pa, level, z)
  }

  lemma LinkMerges(pa: seq<nat>, level: seq<nat>, x: nat, y: nat)
    requires Forest(pa, level) && |level| == |pa| && x < |pa| && y < |pa|
    ensures var rx, ry := Root(pa, level, x), Root(pa, level, y);
      Merged(pa, level, x, y, pa[rx := ry], Raised(pa, level, rx, level[ry] + 1))
  {
    hide Root, Raised, Forest;
    var rx, ry := Root(pa, level, x), Root(pa, level, y);
    LinkIsForest(pa, level, rx, ry);
    var pa', level' := pa[rx := ry], Raised(pa, level, rx, level[ry] + 1);
    forall z: nat | z < |pa|
      ensures Root(pa', level', z) == if Root(pa, level, z) == rx then ry else Root(pa, level, z)
    {
      Linked(pa, level, rx, ry, z);
    }
  }

  lemma MergedCloses(pa: seq<nat>, level: seq<nat>, pairs: Pairs, x: nat, y: nat, pa': seq<nat>, level': seq<nat>)
    requires Closes(pa, level, pairs) && x < |pa| && y < |pa| && Merged(pa, level, x, y, pa', level')
    ensures Closes(pa', level', pairs + [(x, y)])
  {
    forall a: nat, b: nat | a < |pa| && b < |pa|
      ensures Root(pa', level', a) == Root(pa', level', b) <==> Connected(pairs + [(x, y)], a, b)
    {
      hide Root, Forest, Connected;
      if Root(pa', level', a) == Root(pa', level', b) {
        SameClass(pa, level, pairs, x, y, a, b);
      } else if Connected(pairs + [(x, y)], a, b) {
        OneClass(pa, level, pairs, x, y, pa', level', a, b);
      }
    }
  }

  lemma OneClass(pa: seq<nat>, level: seq<nat>, pairs: Pairs, x: nat, y: nat, pa': seq<nat>, level': seq<nat>, a: nat,
                 b: nat)
    requires Closes(pa, level, pairs) && x < |pa| && y < |pa| && Merged(pa, level, x, y, pa', level')
    requires a < |pa| && b < |pa| && Connected(pairs + [(x, y)], a, b)
    ensures Root(pa', level', a) == Root(pa', level', b)
  {
    PairsAgree(pa, level, pairs, x, y, pa', level');
    hide Closes, Merged;
    var p :| Path(pairs + [(x, y)], p) && p[0] == a && p[|p| - 1] == b;
    PathKeeps(pairs + [(x, y)], p, z => RootOr(pa', level', z));
  }

  lemma PairsAgree(pa: seq<nat>, level: seq<nat>, pairs: Pairs, x: nat, y: nat, pa': seq<nat>, level': seq<nat>)
    requires Closes(pa, level, pairs) && x < |pa| && y < |pa| && Merged(pa, level, x, y, pa', level')
    ensures forall a, b :: (a, b) in pairs + [(x, y)] ==> RootOr(pa', level', a) == RootOr(pa', level', b)
  {
    forall a, b | (a, b) in pairs + [(x, y)] ensures RootOr(pa', level', a) == RootOr(pa', level', b) {
      if (a, b) in pairs { ConnectedStep(pairs, a, b); }
    }
  }

  /** Elements that the union puts into one class are connected through the new pair. */
  lemma SameClass(pa: seq<nat>, level: seq<nat>, pairs: Pairs, x: nat, y: nat, a: nat, b: nat)
    requires Closes(pa, level, pairs) && x < |pa| && y < |pa| && a < |pa| && b < |pa|
    requires var rx, ry := Root(pa, level, x), Root(pa, level, y);
      (if Root(pa, level, a) == rx then ry else Root(pa, level, a)) ==
        (if Root(pa, level, b) == rx then ry else Root(pa, level, b))
    ensures Connected(pairs + [(x, y)], a, b)
  {
    if Root(pa, level, a) == Root(pa, level, b) {
      ConnectedMore(pairs, (x, y), a, b);
    } else if Root(pa, level, a) == Root(pa, level, x) {
      ThroughPair(pairs, x, y, a, b);
    } else {
      ThroughPair(pairs, x, y, b, a);
      ConnectedSym(pairs + [(x, y)], b, a);
    }
  }

  lemma ThroughPair(pairs: Pairs, x: nat, y: nat, a: nat, b: nat)
    requires Connected(pairs, a, x) && Connected(pairs, y, b)
    ensures Connected(pairs + [(x, y)], a, b)
  {
    ConnectedMore(pairs, (x, y), a, x);
    ConnectedMore(pairs, (x, y), y, b);
    ConnectedStep(pairs + [(x, y)], x, y);
    ConnectedTrans(pairs + [(x, y)], a, x, y);
    ConnectedTrans(pairs + [(x, y)], a, y, b);
  }

  lemma StartCloses(pa: seq<nat>, level: seq<nat>)
    requires |level| == |pa| && forall x :: 0 <= x < |pa| ==> pa[x] == x
    ensures Closes(pa, level, [])
  {
    forall a: nat, b: nat | a < |pa| && b < |pa|
      ensures Root(pa, level, a) == Root(pa, level, b) <==> Connected([], a, b)
    {
      if a == b {
        ConnectedRefl([], a);
      } else if Connected([], a, b) {
        var p :| Path([], p) && p[0] == a && p[|p| - 1] == b;
        PathKeeps([], p, z => z);
      }
    }
  }

  lemma ClosesForest(pa: seq<nat>, level: seq<nat>, pairs: Pairs)
    requires Closes(pa, level, pairs)
    ensures Forest(pa, level) && |level| == |pa|
  {
  }

  class DSU {
    const pa: array<nat>
    ghost var level: seq<nat>
    ghost var united: Pairs

    ghost predicate Valid()
      reads this, pa
    {
      Closes(pa[..], level, united)
    }

    constructor (size: nat)
      ensures Valid() && fresh(pa) && pa.Length == size && united == []
    {
      pa := new nat[size](i => i);
      new;
      level, united := seq(size, i => 0), [];
      StartCloses(pa[..], level);
    }

    /** The representative of x; on the way, every element passed is pointed straight at it. */
    method Find(x: nat) returns (r: nat)
      requires Forest(pa[..], level) && x < pa.Length
      modifies pa
      ensures Forest(pa[..], level) && r == old(Root(pa[..], level, x))
      ensures forall z: nat :: z < pa.Length ==> Root(pa[..], level, z) == old(Root(pa[..], level, z))
      decreases level[x]
    {
      if pa[x] == x {
        r := x;
      } else {
        r := Find(pa[x]);
        ghost var before := pa[..];
        forall z: nat | z < pa.Length
          ensures Forest(before[x := Root(before, level, x)], level)
            && Root(before[x := Root(before, level, x)], level, z) == Root(before, level, z)
        {
          Compressed(before, level, x, z);
        }
        pa[x] := r;
        assert pa[..] == before[x := r];
      }
    }

    /** Equal representatives mean related, before and after. */
    method Representative(x: nat) returns (r: nat)
      requires Valid() && x < pa.Length
      modifies pa
      ensures Valid() && r == old(Root(pa[..], level, x)) && r < pa.Length
      ensures forall z: nat :: z < pa.Length ==> Root(pa[..], level, z) == old(Root(pa[..], level, z))
    {
      r := Find(x);
    }

    method Unite(x: nat, y: nat)
      requires Valid() && x < pa.Length && y < pa.Length
      modifies this, pa
      ensures Valid() && united == old(united) + [(x, y)]
    {
      hide Closes, Raised, Merged;
      ClosesForest(pa[..], level, united);
      var ry := Representative(y);
      var rx := Representative(x);
      ClosesForest(pa[..], level, united);
      ghost var before, raised := pa[..], Raised(pa[..], level, rx, level[ry] + 1);
      LinkMerges(before, level, x, y);
      MergedCloses(before, level, united, x, y, before[rx := ry], raised);
      pa[rx] := ry;
      assert pa[..] == before[rx := ry];
      level, united := raised, united + [(x, y)];
    }

    /** joined_columns: the elements grouped by representative.  Two elements are in one group exactly if the united
        pairs relate them.  Every element is in one group only and is listed there once; groups are in rising order. */
    method Groups() returns (groups: map<nat, seq<nat>>)
      requires Valid()
      modifies pa
      ensures Valid()
      ensures forall a: nat, b: nat :: a < pa.Length && b < pa.Length ==>
        ((exists g :: g in groups && a in groups[g] && b in groups[g]) <==> Connected(united, a, b))
      ensures forall g: nat, a: nat :: g in groups && a in groups[g] ==> a < pa.Length
      ensures forall g :: g in groups ==> groups[g] != [] && Rising(groups[g])
      ensures forall a: nat :: a < pa.Length ==> HasGroup(groups, a)
      ensures forall g, h, a :: InGroup(groups, g, a) && InGroup(groups, h, a) ==> g == h
    {
      hide Closes, Connected, Grouped, Forest, Root, Rising, InGroup, HasGroup;
      groups := map[];
      ClosesForest(pa[..], level, united);
      ghost var was, n := pa[..], pa.Length;
      assert Closes(was, level, united);
      NoGroups(was, level);
      for i := 0 to pa.Length
        invariant Valid() && Forest(pa[..], level)
        invariant forall z: nat :: z < pa.Length ==> Root(pa[..], level, z) == Root(was, level, z)
        invariant Forest(was, level) && Grouped(was, level, groups, i)
        invariant forall g :: g in groups ==> groups[g] != [] && Rising(groups[g])
      {
        var root := Representative(i);
        ClosesForest(pa[..], level, united);
        GroupedNext(was, level, groups, i);
        GroupRises(was, level, groups, i);
        groups := groups[root := (if root in groups then groups[root] else []) + [i]];
      }
      GroupsInRange(was, level, groups, n);
      InOneGroup(was, level, groups);
      assert n == |was|;
      forall a: nat, b: nat | a < pa.Length && b < pa.Length
        ensures (exists g :: g in groups && a in groups[g] && b in groups[g]) <==> Connected(united, a, b)
      {
        GroupsClose(was, level, united, groups, a, b);
      }
    }
  }

  /** The elements below n are in the group of their root, and nothing else is. */
  ghost predicate Grouped(pa: seq<nat>, level: seq<nat>, groups: map<nat, seq<nat>>, n: nat)
    requires Forest(pa, level)
  {
    && (forall a: nat :: a < n && a < |pa| ==> Root(pa, level, a) in groups && a in groups[Root(pa, level, a)])
    && (forall g: nat, a: nat {:trigger a in groups[g]} :: g in groups && a in groups[g] ==>
          a < n && a < |pa| && Root(pa, level, a) == g)
  }

  /** Strictly increasing. */
  predicate Rising(members: seq<nat>) {
    forall i, j :: 0 <= i < j < |members| ==> members[i] < members[j]
  }

  predicate InGroup(groups: map<nat, seq<nat>>, g: nat, a: nat) {
    g in groups && a in groups[g]
  }

  ghost predicate HasGroup(groups: map<nat, seq<nat>>, a: nat) {
    exists g :: InGroup(groups, g, a)
  }

  lemma GroupRises(pa: seq<nat>, level: seq<nat>, groups: map<nat, seq<nat>>, n: nat)
    requires Forest(pa, level) && Grouped(pa, level, groups, n) && n < |pa|
    requires forall g :: g in groups ==> groups[g] != [] && Rising(groups[g])
    ensures var root := Root(pa, level, n);
      Rising((if root in groups then groups[root] else []) + [n])
  {
    hide Root, Forest;
    var root := Root(pa, level, n);
    if root in groups {
      forall i | 0 <= i < |groups[root]| ensures groups[root][i] < n { assert groups[root][i] in groups[root]; }
    }
  }

  lemma InOneGroup(pa: seq<nat>, level: seq<nat>, groups: map<nat, seq<nat>>)
    requires Forest(pa, level) && Grouped(pa, level, groups, |pa|)
    ensures forall a: nat :: a < |pa| ==> HasGroup(groups, a)
    ensures forall g, h, a :: InGroup(groups, g, a) && InGroup(groups, h, a) ==> g == h
  {
    hide Root, Forest;
    forall a: nat | a < |pa| ensures HasGroup(groups, a) {
      assert InGroup(groups, Root(pa, level, a), a);
    }
  }

  lemma NoGroups(pa: seq<nat>, level: seq<nat>)
    requires Forest(pa, level)
    ensures Grouped(pa, level, map[], 0)
  {
  }

  lemma GroupedNext(pa: seq<nat>, level: seq<nat>, groups: map<nat, seq<nat>>, n: nat)
    requires Forest(pa, level) && Grouped(pa, level, groups, n) && n < |pa|
    ensures var root := Root(pa, level, n);
      Grouped(pa, level, groups[root := (if root in groups then groups[root] else []) + [n]], n + 1)
  {
    hide Root, Forest;
    var root := Root(pa, level, n);
    var members := (if root in groups then groups[root] else []) + [n];
    var groups' := groups[root := members];
    assert members[|members| - 1] == n;
    forall a: nat | a < n + 1 ensures Root(pa, level, a) in groups' && a in groups'[Root(pa, level, a)] {
      if a < n && Root(pa, level, a) == root { assert a in groups[root]; }
    }
    forall g: nat, a: nat | g in groups' && a in groups'[g] ensures a < n + 1 && a < |pa| && Root(pa, level, a) == g {
      if g == root { assert a == n || a in groups[root]; }
    }
  }

  lemma GroupsInRange(pa: seq<nat>, level: seq<nat>, groups: map<nat, seq<nat>>, n: nat)
    requires Forest(pa, level) && Grouped(pa, level, groups, n)
    ensures forall g: nat, a: nat :: g in groups && a in groups[g] ==> a < |pa|
  {
  }

  lemma GroupsClose(pa: seq<nat>, level: seq<nat>, pairs: Pairs, groups: map<nat, seq<nat>>, a: nat, b: nat)
    requires Closes(pa, level, pairs) && Grouped(pa, level, groups, |pa|) && a < |pa| && b < |pa|
    ensures (exists g :: g in groups && a in groups[g] && b in groups[g]) <==> Connected(pairs, a, b)
  {
    if Connected(pairs, a, b) {
      var g := Root(pa, level, a);
      assert g in groups && a in groups[g] && b in groups[g];
    }
  }
}
