/** The rows that a join must produce: all pairs of a left and a right row with equal non-null keys. */
module Matching {
  import opened Bags
  import opened Options
  import opened Slab
  import opened Directory
  import opened Partitioning

  type Keys = seq<Option<int>>

  /** The nested-loop join: every pair of matching row numbers, once. */
  ghost function Matches(left: Keys, right: Keys): multiset<(nat, nat)> {
    Sum((l: nat) => LeftBag(left, right, l), |left|)
  }

  ghost function LeftBag(left: Keys, right: Keys, l: nat): multiset<(nat, nat)> {
    Sum((r: nat) => OnePair(left, right, l, r), |right|)
  }

  ghost function OnePair(left: Keys, right: Keys, l: nat, r: nat): multiset<(nat, nat)> {
    if l < |left| && r < |right| && left[l].Some? && left[l] == right[r] then multiset{(l, r)} else multiset{}
  }

  /** A join as the engine runs it: one side is hashed, the other probes. */
  datatype Task = Task(build: Keys, probe: Keys, buildLeft: bool) {
    function Pair(b: nat, g: nat): (nat, nat) {
      if buildLeft then (b, g) else (g, b)
    }

    ghost function PairBag(b: nat, g: nat): multiset<(nat, nat)> {
      if b < |build| && g < |probe| && probe[g].Some? && build[b] == probe[g] then multiset{Pair(b, g)} else multiset{}
    }

    /** The matches of probe row g. */
    ghost function RowBag(g: nat): multiset<(nat, nat)> {
      Sum((b: nat) => PairBag(b, g), |build|)
    }

    ghost function All(): multiset<(nat, nat)> {
      Sum((g: nat) => RowBag(g), |probe|)
    }
  }

  /** Whichever side is hashed, the pairs are the same. */
  lemma EitherSide(left: Keys, right: Keys, buildLeft: bool)
    ensures (if buildLeft then Task(left, right, true) else Task(right, left, false)).All() == Matches(left, right)
  {
    if buildLeft {
      var t := Task(left, right, true);
      var f := (l: nat, r: nat) => OnePair(left, right, l, r);
      forall g: nat ensures t.RowBag(g) == Sum((l: nat) => f(l, g), |left|) {
        forall b: nat ensures t.PairBag(b, g) == f(b, g) {}
        SumEqual((b: nat) => t.PairBag(b, g), (l: nat) => f(l, g), |left|);
      }
      SumEqual((g: nat) => t.RowBag(g), (g: nat) => Sum((l: nat) => f(l, g), |left|), |right|);
      SumSwap(f, |left|, |right|);
      var h := (l: nat) => Sum((r: nat) => f(l, r), |right|);
      forall l: nat ensures h(l) == LeftBag(left, right, l) {
        SumEqual((r: nat) => f(l, r), (r: nat) => OnePair(left, right, l, r), |right|);
      }
      SumEqual(h, (l: nat) => LeftBag(left, right, l), |left|);
    } else {
      var t := Task(right, left, false);
      forall g: nat | g < |left| ensures t.RowBag(g) == LeftBag(left, right, g) {
        forall b: nat ensures t.PairBag(b, g) == OnePair(left, right, g, b) {}
        SumEqual((b: nat) => t.PairBag(b, g), (r: nat) => OnePair(left, right, g, r), |right|);
      }
      SumEqual((g: nat) => t.RowBag(g), (l: nat) => LeftBag(left, right, l), |left|);
    }
  }

  // What a lookup contributes.

  function PairsOf(task: Task, g: nat, entries: seq<Entry>): seq<(nat, nat)> {
    seq(|entries|, (i: int) requires 0 <= i < |entries| => task.Pair(entries[i].row, g))
  }

  lemma {:induction false} PairsOfBag(task: Task, g: nat, entries: seq<Entry>)
    ensures multiset(PairsOf(task, g, entries)) == BagMap(entries, (e: Entry) => multiset{task.Pair(e.row, g)})
  {
    if entries != [] {
      var n := |entries| - 1;
      PairsOfBag(task, g, entries[..n]);
      assert PairsOf(task, g, entries) == PairsOf(task, g, entries[..n]) + [task.Pair(entries[n].row, g)];
    }
  }

  lemma PairsOfNext(task: Task, g: nat, entries: seq<Entry>, e: Entry)
    ensures multiset(PairsOf(task, g, entries + [e])) ==
      multiset(PairsOf(task, g, entries)) + multiset{task.Pair(e.row, g)}
  {
    assert PairsOf(task, g, entries + [e]) == PairsOf(task, g, entries) + [task.Pair(e.row, g)];
  }

  lemma WithKeyNext(es: seq<Entry>, e: Entry, key: int)
    ensures WithKey(es + [e], key) == if e.key == key then WithKey(es, key) + [e] else WithKey(es, key)
  {
    assert (es + [e])[..|es + [e]| - 1] == es;
  }

  lemma RowsNext(column: Keys, n: nat)
    requires n < |column|
    ensures Rows(column, 0, n + 1) ==
      if column[n].Some? then Rows(column, 0, n) + [Entry(column[n].value, n)] else Rows(column, 0, n)
  {
  }

  /** The rows of the build column with the key of probe row g, as the hash table's row list gives them. */
  lemma {:induction false} RowsWithKey(task: Task, g: nat, n: nat, f: nat -> multiset<(nat, nat)>)
    requires g < |task.probe| && task.probe[g].Some? && n <= |task.build|
    requires forall b: nat :: b < n ==> f(b) == task.PairBag(b, g)
    ensures multiset(PairsOf(task, g, WithKey(Rows(task.build, 0, n), task.probe[g].value))) == Sum(f, n)
  {
    hide Rows, WithKey, PairsOf, Sum, Task.PairBag;
    if n > 0 {
      RowsWithKey(task, g, n - 1, f);
      RowWithKey(task, g, n - 1);
      SumNext(f, n - 1);
      assert f(n - 1) == task.PairBag(n - 1, g);
    } else {
      NoRowsWithKey(task, g);
      SumNone(f);
    }
  }

  lemma NoRowsWithKey(task: Task, g: nat)
    requires g < |task.probe| && task.probe[g].Some?
    ensures PairsOf(task, g, WithKey(Rows(task.build, 0, 0), task.probe[g].value)) == []
  {
  }

  lemma RowWithKey(task: Task, g: nat, n: nat)
    requires g < |task.probe| && task.probe[g].Some? && n < |task.build|
    ensures var key := task.probe[g].value;
      multiset(PairsOf(task, g, WithKey(Rows(task.build, 0, n + 1), key)))
        == multiset(PairsOf(task, g, WithKey(Rows(task.build, 0, n), key))) + task.PairBag(n, g)
  {
    hide Rows, WithKey, PairsOf;
    var key, rows := task.probe[g].value, Rows(task.build, 0, n);
    RowsNext(task.build, n);
    if task.build[n].Some? {
      var e := Entry(task.build[n].value, n);
      WithKeyNext(rows, e, key);
      PairsOfNext(task, g, WithKey(rows, key), e);
    }
  }

  /** Any list that holds the build column's entries gives, filtered by key, exactly the matches of the probe row. */
  lemma LookupBag(task: Task, g: nat, es: seq<Entry>)
    requires g < |task.probe| && task.probe[g].Some?
    requires multiset(es) == multiset(Rows(task.build, 0, |task.build|))
    ensures multiset(PairsOf(task, g, WithKey(es, task.probe[g].value))) == task.RowBag(g)
  {
    var key, rows := task.probe[g].value, Rows(task.build, 0, |task.build|);
    RowsWithKey(task, g, |task.build|, (b: nat) => task.PairBag(b, g));
    forall e ensures multiset(WithKey(es, key))[e] == multiset(WithKey(rows, key))[e] {
      WithKeyCounts(es, key, e);
      WithKeyCounts(rows, key, e);
    }
    var f := (e: Entry) => multiset{task.Pair(e.row, g)};
    PairsOfBag(task, g, WithKey(es, key));
    PairsOfBag(task, g, WithKey(rows, key));
    BagMapPermutation(WithKey(es, key), WithKey(rows, key), f);
  }

  /** A probe row without a key matches nothing. */
  lemma NoKey(task: Task, g: nat)
    requires g < |task.probe| ==> task.probe[g].None?
    ensures task.RowBag(g) == multiset{}
  {
    SumEqual((b: nat) => task.PairBag(b, g), (b: nat) => multiset{}, |task.build|);
    SumEmpty<(nat, nat)>(|task.build|);
  }

  lemma {:induction false} RowsInRange(column: Keys, n: nat, e: Entry)
    requires n <= |column| && e in Rows(column, 0, n)
    ensures e.row < n && column[e.row] == Some(e.key)
  {
    if e in Rows(column, 0, n - 1) { RowsInRange(column, n - 1, e); }
  }

  // Probing unit by unit.

  /** The matches of the first k rows of the unit that starts at row `start`. */
  ghost function UnitBag(task: Task, start: nat, k: nat): multiset<(nat, nat)> {
    Sum((i: nat) => task.RowBag(start + i), k)
  }

  ghost function StartOf<T>(units: seq<seq<T>>, u: nat): nat {
    if u <= |units| then |Flatten(units[..u])| else 0
  }

  /** The matches found once done[u] rows of each unit u have been probed. */
  ghost function Found<T>(task: Task, units: seq<seq<T>>, done: seq<nat>): multiset<(nat, nat)> {
    Sum((u: nat) => UnitBag(task, StartOf(units, u), if u < |done| then done[u] else 0), |units|)
  }

  lemma NothingFound<T>(task: Task, units: seq<seq<T>>, done: seq<nat>)
    requires |done| == |units| && forall u :: 0 <= u < |done| ==> done[u] == 0
    ensures Found(task, units, done) == multiset{}
  {
    var f := (u: nat) => UnitBag(task, StartOf(units, u), if u < |done| then done[u] else 0);
    SumEqual(f, (u: nat) => multiset{}, |units|);
    SumEmpty<(nat, nat)>(|units|);
  }

  lemma FoundNext<T>(task: Task, units: seq<seq<T>>, done: seq<nat>, u: nat)
    requires |done| == |units| && u < |units|
    ensures Found(task, units, done[u := done[u] + 1])
         == Found(task, units, done) + task.RowBag(StartOf(units, u) + done[u])
  {
    hide StartOf, Task.RowBag;
    var done' := done[u := done[u] + 1];
    var f := (v: nat) => UnitBag(task, StartOf(units, v), if v < |done| then done[v] else 0);
    var g := (v: nat) => UnitBag(task, StartOf(units, v), if v < |done'| then done'[v] else 0);
    SumOne(f, g, |units|, u, task.RowBag(StartOf(units, u) + done[u]));
  }

  /** Probing every row of every unit finds everything. */
  lemma AllFound<T>(task: Task, units: seq<seq<T>>, done: seq<nat>)
    requires |done| == |units| && forall u :: 0 <= u < |units| ==> done[u] == |units[u]|
    requires |Flatten(units)| == |task.probe|
    ensures Found(task, units, done) == task.All()
  {
    var f := (v: nat) => UnitBag(task, StartOf(units, v), if v < |done| then done[v] else 0);
    FoundPrefix(task, units, f, |units|);
    assert units[..|units|] == units;
    SumEqual((g: nat) => task.RowBag(0 + g), (g: nat) => task.RowBag(g), |task.probe|);
  }

  lemma {:induction false} FoundPrefix<T>(task: Task, units: seq<seq<T>>, f: nat -> multiset<(nat, nat)>, n: nat)
    requires n <= |units| && forall u: nat :: u < n ==> f(u) == UnitBag(task, StartOf(units, u), |units[u]|)
    ensures Sum(f, n) == UnitBag(task, 0, |Flatten(units[..n])|)
  {
    hide UnitBag, Flatten, Sum;
    if n > 0 {
      FoundPrefix(task, units, f, n - 1);
      SumNext(f, n - 1);
      FlattenNext(units, n - 1);
      UnitSplit(task, StartOf(units, n - 1), |units[n - 1]|);
    } else {
      FlattenEnds(units);
      SumNone(f);
      UnitNone(task);
    }
  }

  lemma UnitNone(task: Task)
    ensures UnitBag(task, 0, 0) == multiset{}
  {
  }

  lemma UnitSplit(task: Task, m: nat, k: nat)
    ensures UnitBag(task, 0, m + k) == UnitBag(task, 0, m) + UnitBag(task, m, k)
  {
    hide UnitBag, Task.RowBag, Sum;
    var f, g := (i: nat) => task.RowBag(0 + i), (i: nat) => task.RowBag(m + i);
    UnitBagIs(task, 0, m + k, f);
    UnitBagIs(task, 0, m, f);
    UnitBagIs(task, m, k, g);
    SumSplit(f, m, k, g);
  }

  lemma UnitBagIs(task: Task, start: nat, k: nat, f: nat -> multiset<(nat, nat)>)
    requires forall i: nat :: f(i) == task.RowBag(start + i)
    ensures UnitBag(task, start, k) == Sum(f, k)
  {
    hide Task.RowBag;
    SumEqual((i: nat) => task.RowBag(start + i), f, k);
  }
}
