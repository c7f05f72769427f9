/** Rounds with distinct ids and distinct priorities, against a simple account of what a round
    does: two sets of elements, those kept from before and those added so far. */
module QueryContextRounds {
  import opened Options
  import opened QueryContext

  datatype Round = Round(kept: set<Elem>, added: set<Elem>)

  /** A kept element with the entry's id. */
  ghost predicate Hit(r: Round, e: Elem) { exists a :: a in r.kept && a.id == e.id }

  ghost predicate Stale(r: Round, e: Elem) { exists a :: a in r.kept && a.id == e.id && !Supersedes(e, a) }

  /** An entry replaces the kept element of its id, or else the kept element of its priority. */
  ghost function Advance(r: Round, e: Elem): Round {
    if Stale(r, e) then r
    else if Hit(r, e) then Round((set x | x in r.kept && x.id != e.id), r.added + {e})
    else Round((set x | x in r.kept && x.priority != e.priority), r.added + {e})
  }

  ghost function Advanced(r: Round, es: seq<Elem>): Round
    decreases |es|
  {
    if es == [] then r else Advanced(Advance(r, es[0]), es[1..])
  }

  ghost function Before(q: Cache): Round {
    Round((set x | x in q.tree), {})
  }

  predicate DistinctRound(es: seq<Elem>) {
    forall i, j :: 0 <= i < j < |es| ==> es[i].id != es[j].id && es[i].priority != es[j].priority
  }

  /** A kept element and an added one ended up with the same priority. */
  ghost predicate Clash(r: Round) {
    exists x, y :: x in r.kept && y in r.added && x.priority == y.priority
  }

  // ---------------------------------------------------------------------------
  // The maps and the sorted set in the middle of a round

  predicate IndexesByPriority(m: map<int, Elem>, s: set<Elem>) {
    && (forall x :: x in s ==> x.priority in m && m[x.priority] == x)
    && (forall p :: p in m ==> m[p] in s && m[p].priority == p)
  }

  /** Where two elements share a priority, the kept one comes first. */
  predicate KeptFirst(tree: seq<Elem>, r: Round) {
    forall i, j :: 0 <= i < j < |tree| && tree[i].priority == tree[j].priority ==>
      tree[i] in r.kept && tree[j] in r.added
  }

  ghost predicate Represents(q: Cache, r: Round) {
    && Indexed(q) && r.kept !! r.added
    && (forall x :: x in q.tree <==> x in r.kept + r.added)
    && IndexesByPriority(q.priorities, r.kept)
    && IndexesByPriority(q.intermediate, r.added)
    && KeptFirst(q.tree, r)
  }

  /** A kept element is the first of its priority, so removal finds it. */
  lemma KeptIsFirst(q: Cache, r: Round, a: Elem) returns (n: nat)
    requires Represents(q, r) && a in r.kept
    ensures n < |q.tree| && q.tree[n] == a && TreeRemove(q.tree, a) == Some(q.tree[..n] + q.tree[n + 1..])
  {
    n := BisectLeft(q.tree, a.priority);
    assert a in q.tree;
    var k :| 0 <= k < |q.tree| && q.tree[k] == a;
    assert n <= k;
  }

  lemma RemovedKeptFirst(tree: seq<Elem>, r: Round, n: nat, t: seq<Elem>)
    requires KeptFirst(tree, r) && DistinctIds(tree) && n < |tree| && t == tree[..n] + tree[n + 1..]
    ensures KeptFirst(t, Round(r.kept - {tree[n]}, r.added))
  {
    forall i, j | 0 <= i < j < |t| && t[i].priority == t[j].priority
      ensures t[i] in r.kept - {tree[n]} && t[j] in r.added
    {
      var i', j' := if i < n then i else i + 1, if j < n then j else j + 1;
      assert t[i] == tree[i'] && t[j] == tree[j'];
    }
  }

  lemma RemoveKept(q: Cache, r: Round, a: Elem)
    requires Represents(q, r) && a in r.kept
    ensures Remove(q, a).Some? && Represents(Remove(q, a).value, Round(r.kept - {a}, r.added))
    ensures a.id !in Remove(q, a).value.ids
  {
    var n := KeptIsFirst(q, r, a);
    var t := q.tree[..n] + q.tree[n + 1..];
    assert a in q.tree;
    RemovedTree(q.tree, n, t);
    RemovedKeptFirst(q.tree, r, n, t);
    RemoveIndexed(q, a);
    assert IndexesByPriority(q.priorities - {a.priority}, r.kept - {a});
  }

  lemma AddedKeptFirst(tree: seq<Elem>, r: Round, e: Elem, n: nat)
    requires KeptFirst(tree, r) && n <= |tree|
    requires forall x :: x in tree ==> x in r.kept || x in r.added
    requires forall x :: x in r.added ==> x.priority != e.priority
    requires forall i :: n <= i < |tree| ==> e.priority < tree[i].priority
    ensures KeptFirst(tree[..n] + [e] + tree[n..], Round(r.kept, r.added + {e}))
  {
    var t := tree[..n] + [e] + tree[n..];
    forall i, j | 0 <= i < j < |t| && t[i].priority == t[j].priority
      ensures t[i] in r.kept && t[j] in r.added + {e}
    {
      AddedAt(tree, e, n, i);
      AddedAt(tree, e, n, j);
    }
  }

  lemma AddToRound(q: Cache, r: Round, e: Elem)
    requires Represents(q, r) && e.id !in q.ids
    requires forall x :: x in r.added ==> x.priority != e.priority
    ensures Represents(Add(q, e), Round(r.kept, r.added + {e}))
  {
    AddIndexed(q, e);
    var n := TreeAddMeans(q.tree, e);
    AddedKeptFirst(q.tree, r, e, n);
    assert e !in r.kept by {
      assert e !in q.tree;
    }
  }

  lemma ReplaceKept(q: Cache, r: Round, a: Elem, e: Elem)
    requires Represents(q, r) && a in r.kept
    requires forall x :: x in r.added ==> x.priority != e.priority
    requires e.id == a.id || e.id !in q.ids
    ensures Replace(q, a, e).Some? && Represents(Replace(q, a, e).value, Round(r.kept - {a}, r.added + {e}))
  {
    RemoveKept(q, r, a);
    AddToRound(Remove(q, a).value, Round(r.kept - {a}, r.added), e);
  }

  lemma KeptWithout(q: Cache, r: Round, a: Elem)
    requires Represents(q, r) && a in r.kept
    ensures (set x | x in r.kept && x.id != a.id) == r.kept - {a}
    ensures (set x | x in r.kept && x.priority != a.priority) == r.kept - {a}
  {
    assert a in q.tree;
  }

  /** An entry for a cached id. */
  lemma HitAdvances(q: Cache, r: Round, e: Elem)
    requires Represents(q, r) && e.id in q.ids
    requires forall x :: x in r.added ==> x.id != e.id && x.priority != e.priority
    ensures Insert(q, e).Some? && Represents(Insert(q, e).value, Advance(r, e))
  {
    var a := q.ids[e.id];
    assert a in q.tree && a.id == e.id;
    assert a in r.kept;
    assert forall x :: x in r.kept && x.id == e.id ==> x in q.tree && x == a;
    if Supersedes(e, a) {
      ReplaceKept(q, r, a, e);
      KeptWithout(q, r, a);
    }
  }

  /** An entry for an id that is not cached. */
  lemma NewAdvances(q: Cache, r: Round, e: Elem)
    requires Represents(q, r) && e.id !in q.ids
    requires forall x :: x in r.added ==> x.id != e.id && x.priority != e.priority
    ensures Insert(q, e).Some? && Represents(Insert(q, e).value, Advance(r, e))
  {
    assert forall x :: x in r.kept ==> x in q.tree && x.id != e.id;
    if e.priority in q.priorities {
      var a := q.priorities[e.priority];
      ReplaceKept(q, r, a, e);
      KeptWithout(q, r, a);
    } else {
      AddToRound(q, r, e);
      assert (set x | x in r.kept && x.priority != e.priority) == r.kept;
    }
  }

  /** One insertion does what the simple account says, and does not raise. */
  lemma InsertAdvances(q: Cache, r: Round, e: Elem)
    requires Represents(q, r)
    requires forall x :: x in r.added ==> x.id != e.id && x.priority != e.priority
    ensures Insert(q, e).Some? && Represents(Insert(q, e).value, Advance(r, e))
  {
    if e.id in q.ids {
      HitAdvances(q, r, e);
    } else {
      NewAdvances(q, r, e);
    }
  }

  lemma {:induction false} RoundAdvances(q: Cache, r: Round, es: seq<Elem>)
    requires Represents(q, r) && DistinctRound(es)
    requires forall x, y :: x in r.added && y in es ==> x.id != y.id && x.priority != y.priority
    ensures InsertAll(q, es).Some? && Represents(InsertAll(q, es).value, Advanced(r, es))
    decreases |es|
  {
    if es != [] {
      InsertAdvances(q, r, es[0]);
      RoundAdvances(Insert(q, es[0]).value, Advance(r, es[0]), es[1..]);
    }
  }

  // ---------------------------------------------------------------------------
  // After the round

  lemma SyncedExact(q: Cache, r: Round)
    requires Represents(q, r) && !Clash(r)
    ensures Exact(Sync(q))
  {
    var s := Sync(q);
    forall i, j | 0 <= i < j < |q.tree| ensures q.tree[i].priority < q.tree[j].priority {
      assert q.tree[i].priority <= q.tree[j].priority;
    }
  }

  lemma ClashNotExact(q: Cache, r: Round)
    requires Represents(q, r) && Clash(r)
    ensures !Exact(Sync(q))
  {
    var x, y :| x in r.kept && y in r.added && x.priority == y.priority;
    assert x in q.tree && y in q.tree && x != y;
  }

  /** A round with distinct ids and priorities never raises, holds what the simple account says,
      and restores the exact priority index if and only if nothing clashed. */
  lemma RoundExactIffNoClash(q: Cache, es: seq<Elem>)
    requires Exact(q) && DistinctRound(es)
    ensures InsertAll(q, es).Some?
    ensures var s, r := Sync(InsertAll(q, es).value), Advanced(Before(q), es);
            && (forall x :: x in s.tree <==> x in r.kept + r.added)
            && (Exact(s) <==> !Clash(r))
  {
    assert Represents(q, Before(q));
    RoundAdvances(q, Before(q), es);
    var m, r := InsertAll(q, es).value, Advanced(Before(q), es);
    if Clash(r) {
      ClashNotExact(m, r);
    } else {
      SyncedExact(m, r);
    }
  }

  // ---------------------------------------------------------------------------
  // When a round clashes, told from the cache and the round alone

  lemma {:induction false} KeptShrinks(r: Round, es: seq<Elem>)
    ensures Advanced(r, es).kept <= r.kept && r.added <= Advanced(r, es).added
    decreases |es|
  {
    if es != [] {
      KeptShrinks(Advance(r, es[0]), es[1..]);
    }
  }

  lemma {:induction false} AdvancedSplits(r: Round, es: seq<Elem>, i: nat)
    requires i <= |es|
    ensures Advanced(r, es) == Advanced(Advanced(r, es[..i]), es[i..])
    decreases i
  {
    if i == 0 {
      assert es[..0] == [] && es[0..] == es;
    } else {
      AdvancedSplits(Advance(r, es[0]), es[1..], i - 1);
      assert es[1..][..i - 1] == es[..i][1..];
      assert es[1..][i - 1..] == es[i..];
    }
  }

  /** The round as it stands before its entry i. */
  ghost function At(r: Round, es: seq<Elem>, i: nat): Round
    requires i <= |es|
  {
    Advanced(r, es[..i])
  }

  lemma AtNext(r: Round, es: seq<Elem>, i: nat)
    requires i < |es|
    ensures At(r, es, i + 1) == Advance(At(r, es, i), es[i])
    ensures Advanced(r, es).kept <= At(r, es, i + 1).kept <= At(r, es, i).kept
    ensures At(r, es, i).added <= At(r, es, i + 1).added <= Advanced(r, es).added
  {
    AdvancedSplits(r, es[..i + 1], i);
    assert es[..i + 1][..i] == es[..i];
    assert es[..i + 1][i..] == [es[i]];
    assert [es[i]][1..] == [];
    AdvancedSplits(r, es, i + 1);
    KeptShrinks(At(r, es, i + 1), es[i + 1..]);
  }

  /** Everything added is an entry of the round. */
  lemma {:induction false} AddedBy(r: Round, es: seq<Elem>, y: Elem) returns (i: nat)
    requires y in Advanced(r, es).added && y !in r.added
    ensures i < |es| && es[i] == y && y in Advance(At(r, es, i), y).added && y !in At(r, es, i).added
    decreases |es|
  {
    if y in Advance(r, es[0]).added {
      i := 0;
      assert es[..0] == [];
    } else {
      var j := AddedBy(Advance(r, es[0]), es[1..], y);
      i := j + 1;
      assert es[..i][1..] == es[1..][..j];
    }
  }

  /** Entry i moves a kept element onto the priority of another kept one, `o`, that no entry moves. */
  ghost predicate Displaces(r: Round, es: seq<Elem>, i: nat, o: Elem)
    requires i < |es|
  {
    && Hit(At(r, es, i), es[i]) && !Stale(At(r, es, i), es[i])
    && o in At(r, es, i).kept && o.priority == es[i].priority && o.id != es[i].id
    && forall j :: 0 <= j < |es| && es[j].id == o.id ==> !Supersedes(es[j], o)
  }

  lemma {:induction false} StaysKept(r: Round, es: seq<Elem>, o: Elem, i: nat)
    requires DistinctRound(es) && i <= |es| && o in At(r, es, i).kept
    requires forall j :: 0 <= j < |es| && es[j].id == o.id ==> !Supersedes(es[j], o)
    requires forall x :: x in At(r, es, i).kept && x.id == o.id ==> x == o
    requires forall j :: i <= j < |es| && es[j].priority == o.priority ==> Hit(At(r, es, j), es[j])
    ensures o in Advanced(r, es).kept
    decreases |es| - i
  {
    if i == |es| {
      assert es[..i] == es;
    } else {
      AtNext(r, es, i);
      StaysKept(r, es, o, i + 1);
    }
  }

  /** A round clashes if and only if one of its entries displaces an element. */
  lemma ClashIffDisplaces(q: Cache, es: seq<Elem>)
    requires Exact(q) && DistinctRound(es)
    ensures Clash(Advanced(Before(q), es)) <==>
            exists i, o :: 0 <= i < |es| && Displaces(Before(q), es, i, o)
  {
    var r := Before(q);
    if Clash(Advanced(r, es)) {
      var x, y :| x in Advanced(r, es).kept && y in Advanced(r, es).added && x.priority == y.priority;
      var i := AddedBy(r, es, y);
      ClashDisplaces(r, es, x, i);
    }
    forall i, o | 0 <= i < |es| && Displaces(r, es, i, o) ensures Clash(Advanced(r, es)) {
      AtNext(r, es, i);
      forall x | x in At(r, es, i).kept ensures x in q.tree {
        KeptShrinks(r, es[..i]);
      }
      StaysKept(r, es, o, i);
      assert es[i] in Advanced(r, es).added;
    }
  }

  lemma ClashDisplaces(r: Round, es: seq<Elem>, o: Elem, i: nat)
    requires DistinctRound(es) && i < |es| && o in Advanced(r, es).kept && o.priority == es[i].priority
    requires es[i] in Advance(At(r, es, i), es[i]).added && es[i] !in At(r, es, i).added
    requires forall x, y :: x in r.kept && y in r.kept && x.id == y.id ==> x == y
    ensures Displaces(r, es, i, o)
  {
    AtNext(r, es, i);
    forall j | 0 <= j < |es| && es[j].id == o.id ensures !Supersedes(es[j], o) {
      AtNext(r, es, j);
      KeptShrinks(r, es[..j]);
    }
  }

  /** The round condition: a cached id moves onto another one's priority only if that one moves too. */
  predicate MovesTogether(tree: seq<Elem>, es: seq<Elem>) {
    forall a, o, e :: a in tree && o in tree && e in es && a.id == e.id && Supersedes(e, a)
                      && o.priority == e.priority && o.id != e.id ==>
      exists f :: f in es && f.id == o.id && Supersedes(f, o)
  }

  lemma MovesTogetherNoClash(q: Cache, es: seq<Elem>)
    requires Exact(q) && DistinctRound(es) && MovesTogether(q.tree, es)
    ensures !Clash(Advanced(Before(q), es))
  {
    ClashIffDisplaces(q, es);
    forall i, o | 0 <= i < |es| && Displaces(Before(q), es, i, o) ensures false {
      NotDisplaced(q, es, i, o);
    }
  }

  lemma NotDisplaced(q: Cache, es: seq<Elem>, i: nat, o: Elem)
    requires MovesTogether(q.tree, es) && i < |es|
    ensures !Displaces(Before(q), es, i, o)
  {
    var r := Before(q);
    KeptShrinks(r, es[..i]);
    if a :| a in At(r, es, i).kept && a.id == es[i].id {
      assert a in q.tree && es[i] in es;
    }
  }

  // ---------------------------------------------------------------------------
  // Trimming

  lemma {:induction false} TrimKeepsSmallest(q: Cache, capacity: nat)
    requires Exact(q)
    ensures Trim(q, capacity).Some? && Exact(Trim(q, capacity).value)
    ensures Trim(q, capacity).value.tree == if |q.tree| <= capacity then q.tree else q.tree[..capacity]
    decreases |q.tree|
  {
    DistinctSize(q.tree);
    if |q.tree| > capacity {
      RemoveLast(q);
      var next := Remove(q, q.tree[|q.tree| - 1]).value;
      TrimOnce(q, next, capacity);
      TrimKeepsSmallest(next, capacity);
      PrefixOfPrefix(q.tree, |q.tree| - 1, capacity);
    }
  }

  lemma PrefixOfPrefix(tree: seq<Elem>, n: nat, k: nat)
    requires k <= n <= |tree|
    ensures tree[..n][..k] == tree[..k] && (n == k ==> tree[..n] == tree[..k])
  {
  }

  lemma RemoveLast(q: Cache)
    requires Exact(q) && q.tree != []
    ensures var removed := Remove(q, q.tree[|q.tree| - 1]);
            removed.Some? && Exact(removed.value) && removed.value.tree == q.tree[..|q.tree| - 1]
  {
    var n := |q.tree| - 1;
    RemoveLastAlone(q);
    RemovedTree(q.tree, n, q.tree[..n] + q.tree[n + 1..]);
    assert q.tree[..n] + q.tree[n + 1..] == q.tree[..n];
  }

  /** `tree` holds the elements of `s`, or the `capacity` ones with the smallest priority numbers. */
  ghost predicate Smallest(tree: seq<Elem>, s: set<Elem>, capacity: nat) {
    && |tree| <= capacity
    && (forall x :: x in tree ==> x in s)
    && (|tree| < capacity ==> forall x :: x in s ==> x in tree)
    && forall x, y :: x in tree && y in s && y !in tree ==> x.priority < y.priority
  }

  lemma TrimmedSmallest(q: Cache, s: set<Elem>, capacity: nat)
    requires Exact(q) && forall x :: x in q.tree <==> x in s
    ensures Trim(q, capacity).Some? && Exact(Trim(q, capacity).value)
    ensures Smallest(Trim(q, capacity).value.tree, s, capacity)
  {
    TrimKeepsSmallest(q, capacity);
    var t := Trim(q, capacity).value.tree;
    forall x, y | x in t && y in s && y !in t ensures x.priority < y.priority {
      var i :| 0 <= i < |t| && t[i] == x;
      var j :| 0 <= j < |q.tree| && q.tree[j] == y;
      assert x == q.tree[i];
      assert y !in q.tree[..|t|];
      assert j >= |t|;
    }
  }

  /** A whole round that does not clash: nothing raises, the index is exact again, and of
      everything the simple account holds, precisely the smallest priority numbers stay. */
  lemma WholeRound(q: Cache, es: seq<Elem>, data: Data, capacity: nat)
    requires Exact(q) && DistinctRound(es) && !Clash(Advanced(Before(q), es))
    requires data.Entries? && ReadAll(data.entries) == Some(es)
    ensures var result, r := Deserialize(q, data, capacity), Advanced(Before(q), es);
            result.Some? && Exact(result.value) && Smallest(result.value.tree, r.kept + r.added, capacity)
  {
    var r := Advanced(Before(q), es);
    RoundExactIffNoClash(q, es);
    var s := Sync(InsertAll(q, es).value);
    assert Merge(q, data) == Some(s);
    TrimmedSmallest(s, r.kept + r.added, capacity);
  }

  lemma WellFormedRound(q: Cache, es: seq<Elem>, data: Data, capacity: nat)
    requires Exact(q) && DistinctRound(es) && MovesTogether(q.tree, es)
    requires data.Entries? && ReadAll(data.entries) == Some(es)
    ensures var result, r := Deserialize(q, data, capacity), Advanced(Before(q), es);
            result.Some? && Exact(result.value) && Smallest(result.value.tree, r.kept + r.added, capacity)
  {
    MovesTogetherNoClash(q, es);
    WholeRound(q, es, data, capacity);
  }

  // ---------------------------------------------------------------------------
  // When a round raises

  /** What a merged cache offers to trimming, exact or not. */
  ghost predicate Trimmable(q: Cache) {
    Indexed(q) && forall e :: e in q.tree ==> e.priority in q.priorities
  }

  /** Element j is not the first of its priority. */
  predicate Paired(tree: seq<Elem>, j: int) {
    1 <= j < |tree| && tree[j - 1].priority == tree[j].priority
  }

  lemma RemoveLastPaired(q: Cache)
    requires Indexed(q) && Paired(q.tree, |q.tree| - 1)
    ensures Remove(q, q.tree[|q.tree| - 1]).None?
  {
    var n := |q.tree| - 1;
    var last := q.tree[n];
    assert q.tree[n - 1].priority >= last.priority;
    assert BisectLeft(q.tree, last.priority) < n;
  }

  lemma TreeRemoveLast(tree: seq<Elem>)
    requires Sorted(tree) && tree != [] && !Paired(tree, |tree| - 1)
    ensures TreeRemove(tree, tree[|tree| - 1]) == Some(tree[..|tree| - 1])
    ensures forall i :: 0 <= i < |tree| - 1 ==> tree[i].priority < tree[|tree| - 1].priority
  {
    var n := |tree| - 1;
    var last := tree[n];
    forall i | 0 <= i < n ensures tree[i].priority < last.priority {
      assert tree[i].priority <= tree[n - 1].priority <= tree[n].priority;
    }
    assert BisectLeft(tree, last.priority) == n;
    assert tree[..n] + tree[n + 1..] == tree[..n];
  }

  lemma RemoveLastAlone(q: Cache)
    requires Trimmable(q) && q.tree != [] && !Paired(q.tree, |q.tree| - 1)
    ensures var removed := Remove(q, q.tree[|q.tree| - 1]);
            removed.Some? && Trimmable(removed.value) && removed.value.tree == q.tree[..|q.tree| - 1]
  {
    var last := q.tree[|q.tree| - 1];
    assert last in q.tree;
    TreeRemoveLast(q.tree);
    RemoveIndexed(q, last);
  }

  ghost predicate PairedFrom(tree: seq<Elem>, k: int) {
    exists j :: k <= j && Paired(tree, j)
  }

  lemma PairedInPrefix(tree: seq<Elem>, n: nat, k: int)
    requires n == |tree| - 1 && !Paired(tree, n)
    ensures PairedFrom(tree, k) <==> PairedFrom(tree[..n], k)
  {
    forall j ensures Paired(tree, j) <==> Paired(tree[..n], j) {
      if 1 <= j < n {
        assert tree[..n][j] == tree[j] && tree[..n][j - 1] == tree[j - 1];
      }
    }
  }

  /** Trimming raises exactly if it comes to an element that is not the first of its priority. */
  lemma {:induction false} TrimRaisesIffPaired(q: Cache, capacity: nat)
    requires Trimmable(q)
    ensures Trim(q, capacity).None? <==> PairedFrom(q.tree, capacity)
    ensures Trim(q, capacity).Some? ==>
              Trim(q, capacity).value.tree == if |q.tree| <= capacity then q.tree else q.tree[..capacity]
    decreases |q.tree|
  {
    var n := |q.tree| - 1;
    DistinctSize(q.tree);
    if n >= capacity {
      if Paired(q.tree, n) {
        RemoveLastPaired(q);
        TrimNever(q, capacity);
      } else {
        RemoveLastAlone(q);
        var next := Remove(q, q.tree[n]).value;
        TrimOnce(q, next, capacity);
        TrimRaisesIffPaired(next, capacity);
        PairedInPrefix(q.tree, n, capacity);
        PrefixOfPrefix(q.tree, n, capacity);
      }
    }
  }

  ghost function UpTo(s: set<Elem>, priority: int): set<Elem> {
    set x | x in s && x.priority <= priority
  }

  /** A kept and an added element share a priority, and with all those before them do not fit. */
  ghost predicate ClashBeyond(r: Round, capacity: int) {
    exists x, y :: x in r.kept && y in r.added && x.priority == y.priority &&
                   |UpTo(r.kept + r.added, y.priority)| > capacity
  }

  lemma AddedUpTo(q: Cache, r: Round, j: nat)
    requires Represents(q, r) && j < |q.tree| && q.tree[j] in r.added
    ensures UpTo(r.kept + r.added, q.tree[j].priority) == Elems(q.tree[..j + 1])
  {
    var upTo, prefix := UpTo(r.kept + r.added, q.tree[j].priority), q.tree[..j + 1];
    forall x | x in upTo ensures x in prefix {
      var k :| 0 <= k < |q.tree| && q.tree[k] == x;
      assert k <= j;
      assert prefix[k] == x;
    }
  }

  /** An added element stands behind everything of its priority. */
  lemma AddedRank(q: Cache, r: Round, j: nat)
    requires Represents(q, r) && j < |q.tree| && q.tree[j] in r.added
    ensures |UpTo(r.kept + r.added, q.tree[j].priority)| == j + 1
  {
    AddedUpTo(q, r, j);
    DistinctSize(q.tree[..j + 1]);
  }

  lemma PairedIsClash(q: Cache, r: Round, j: nat)
    requires Represents(q, r) && Paired(q.tree, j)
    ensures q.tree[j - 1] in r.kept && q.tree[j] in r.added
  {
  }

  lemma ClashIsPaired(q: Cache, r: Round, x: Elem, y: Elem) returns (j: nat)
    requires Represents(q, r) && x in r.kept && y in r.added && x.priority == y.priority
    ensures Paired(q.tree, j) && q.tree[j] == y
  {
    var i :| 0 <= i < |q.tree| && q.tree[i] == x;
    j :| 0 <= j < |q.tree| && q.tree[j] == y;
    assert i < j;
    assert q.tree[i].priority <= q.tree[j - 1].priority <= q.tree[j].priority;
  }

  lemma PairedIffClashBeyond(q: Cache, r: Round, capacity: nat)
    requires Represents(q, r)
    ensures PairedFrom(q.tree, capacity) <==> ClashBeyond(r, capacity)
  {
    if j :| capacity <= j && Paired(q.tree, j) {
      PairedIsClash(q, r, j);
      AddedRank(q, r, j);
    }
    if ClashBeyond(r, capacity) {
      var x, y :| x in r.kept && y in r.added && x.priority == y.priority &&
                  |UpTo(r.kept + r.added, y.priority)| > capacity;
      var j := ClashIsPaired(q, r, x, y);
      AddedRank(q, r, j);
    }
  }

  lemma MergedTrimmable(q: Cache, r: Round)
    requires Represents(q, r)
    ensures Trimmable(Sync(q))
  {
    forall e | e in q.tree ensures e.priority in Sync(q).priorities {
      assert e in r.kept || e in r.added;
    }
  }

  lemma MergedRaisesIff(m: Cache, r: Round, capacity: nat)
    requires Represents(m, r)
    ensures Trim(Sync(m), capacity).None? <==> ClashBeyond(r, capacity)
  {
    MergedTrimmable(m, r);
    TrimRaisesIffPaired(Sync(m), capacity);
    PairedIffClashBeyond(m, r, capacity);
  }

  /** The merging part of a round, on the simple account. */
  lemma RoundMerges(q: Cache, es: seq<Elem>, data: Data) returns (m: Cache)
    requires Exact(q) && DistinctRound(es)
    requires data.Entries? && ReadAll(data.entries) == Some(es)
    ensures Represents(m, Advanced(Before(q), es)) && Merge(q, data) == Some(Sync(m))
  {
    assert Represents(q, Before(q));
    RoundAdvances(q, Before(q), es);
    m := InsertAll(q, es).value;
  }

  /** A round of distinct ids and priorities raises if and only if an element it added shares its
      priority with one it kept, and the two do not fit into the capacity. */
  lemma RoundRaisesIffClashBeyond(q: Cache, es: seq<Elem>, data: Data, capacity: nat)
    requires Exact(q) && DistinctRound(es)
    requires data.Entries? && ReadAll(data.entries) == Some(es)
    ensures Deserialize(q, data, capacity).None? <==> ClashBeyond(Advanced(Before(q), es), capacity)
  {
    var m := RoundMerges(q, es, data);
    MergedRaisesIff(m, Advanced(Before(q), es), capacity);
  }

  lemma ClashTrimmedNotExact(m: Cache, r: Round, capacity: nat)
    requires Represents(m, r) && Clash(r) && Trim(Sync(m), capacity).Some?
    ensures !Exact(Trim(Sync(m), capacity).value)
  {
    var x, y :| x in r.kept && y in r.added && x.priority == y.priority;
    var j := ClashIsPaired(m, r, x, y);
    MergedTrimmable(m, r);
    TrimRaisesIffPaired(Sync(m), capacity);
    assert j < capacity;
    var tree := Trim(Sync(m), capacity).value.tree;
    assert tree[j - 1] == m.tree[j - 1] && tree[j] == m.tree[j];
  }

  /** It returns with an exact cache if and only if nothing clashed. */
  lemma RoundReturnsExactIffNoClash(q: Cache, es: seq<Elem>, data: Data, capacity: nat)
    requires Exact(q) && DistinctRound(es)
    requires data.Entries? && ReadAll(data.entries) == Some(es)
    ensures var result := Deserialize(q, data, capacity);
            result.Some? && Exact(result.value) <==> !Clash(Advanced(Before(q), es))
  {
    var r := Advanced(Before(q), es);
    if Clash(r) {
      var m := RoundMerges(q, es, data);
      if Deserialize(q, data, capacity).Some? {
        ClashTrimmedNotExact(m, r, capacity);
      }
    } else {
      WholeRound(q, es, data, capacity);
    }
  }

  // ---------------------------------------------------------------------------
  // Replaying the cache's own entries

  lemma {:induction false} ReadMapped(tree: seq<Elem>, f: Elem -> RawEntry)
    ensures (forall e :: e in tree ==> Read(f(e)).Some?) ==>
              && ReadAll(Mapped(tree, f)).Some? && |ReadAll(Mapped(tree, f)).value| == |tree|
              && forall i :: 0 <= i < |tree| ==> ReadAll(Mapped(tree, f)).value[i] == Read(f(tree[i])).value
    ensures ReadAll(Mapped(tree, f)).Some? ==> forall e :: e in tree ==> Read(f(e)).Some?
    decreases |tree|
  {
    if tree != [] {
      ReadMapped(tree[1..], f);
      assert Mapped(tree, f)[1..] == Mapped(tree[1..], f);
      assert tree == [tree[0]] + tree[1..];
    }
  }

  /** Entries that agree with the cache on id, timestamp and priority change nothing. */
  lemma {:induction false} KnownEntriesIgnored(q: Cache, es: seq<Elem>)
    requires forall e :: e in es ==> e.id in q.ids && q.ids[e.id].timestamp == e.timestamp
                                     && q.ids[e.id].priority == e.priority
    ensures InsertAll(q, es) == Some(q)
    decreases |es|
  {
    if es != [] {
      assert es[0] in es;
      KnownEntriesIgnored(q, es[1..]);
    }
  }

  lemma Sizes(q: Cache)
    requires Indexed(q)
    ensures |q.members| == |q.tree| && (q.members == {} <==> q.tree == [])
  {
    DistinctSize(q.tree);
  }

  lemma KnownRound(q: Cache, es: seq<Elem>, data: Data, capacity: int)
    requires q.intermediate == map[] && |q.members| <= capacity
    requires data.Entries? && ReadAll(data.entries) == Some(es)
    requires forall e :: e in es ==> e.id in q.ids && q.ids[e.id].timestamp == e.timestamp
                                     && q.ids[e.id].priority == e.priority
    ensures Deserialize(q, data, capacity) == Some(q)
  {
    KnownEntriesIgnored(q, es);
    assert Sync(q) == q;
  }

  lemma ExactMaps(q: Cache, s: Cache)
    requires Exact(q) && Exact(s) && forall x :: x in q.tree ==> x in s.tree
    ensures q.ids.Keys <= s.ids.Keys && forall id :: id in q.ids ==> s.ids[id] == q.ids[id]
    ensures q.priorities.Keys <= s.priorities.Keys && forall p :: p in q.priorities ==> s.priorities[p] == q.priorities[p]
  {
    forall id | id in q.ids ensures id in s.ids && s.ids[id] == q.ids[id] {
      assert q.ids[id] in s.tree;
    }
    forall p | p in q.priorities ensures p in s.priorities && s.priorities[p] == q.priorities[p] {
      assert q.priorities[p] in s.tree;
    }
  }

  lemma SameMap(m: map<int, Elem>, n: map<int, Elem>)
    requires m.Keys == n.Keys && forall k :: k in m.Keys ==> m[k] == n[k]
    ensures m == n
  {
    forall k: int | k in m.Keys ensures m[k] == n[k] {
    }
    assert m == n;
  }

  /** An exact cache is determined by its elements. */
  lemma ExactDetermined(q: Cache, s: Cache)
    requires Exact(q) && Exact(s) && forall x :: x in q.tree <==> x in s.tree
    ensures q == s
  {
    SameTree(q.tree, s.tree);
    ExactMaps(q, s);
    ExactMaps(s, q);
    SameMap(q.ids, s.ids);
    SameMap(q.priorities, s.priorities);
  }

  lemma EmptyTree(q: Cache)
    requires Exact(q) && q.tree == []
    ensures q == EMPTY
  {
    ExactDetermined(q, EMPTY);
  }

  /** Replaying the cache's own entries with their contexts unwrapped changes nothing. */
  lemma ReplayChangesNothing(q: Cache, capacity: int)
    requires Exact(q) && |q.tree| <= capacity
    ensures Deserialize(q, Serialize(q, Unwrapped), capacity) == Some(q)
  {
    Sizes(q);
    if q.tree == [] {
      EmptyTree(q);
    } else {
      ReadBack(q.tree);
      KnownRound(q, q.tree, Serialize(q, Unwrapped), capacity);
    }
  }

  lemma SameButContext(q: Cache, es: seq<Elem>)
    requires Exact(q) && |es| == |q.tree|
    requires forall i :: 0 <= i < |es| ==> es[i] == q.tree[i].(context := es[i].context)
    ensures forall e :: e in es ==> e.id in q.ids && q.ids[e.id].timestamp == e.timestamp
                                    && q.ids[e.id].priority == e.priority
  {
    forall e | e in es ensures e.id in q.ids && q.ids[e.id].timestamp == e.timestamp
                               && q.ids[e.id].priority == e.priority
    {
      var i :| 0 <= i < |es| && es[i] == e;
      assert q.tree[i] in q.tree;
    }
  }

  lemma WrappedContextsRaise(q: Cache, capacity: nat)
    requires Indexed(q) && exists e :: e in q.tree && !e.context.Absent?
    ensures Deserialize(q, Serialize(q, Wrapped), capacity) == Some(EMPTY)
  {
    ReadMapped(q.tree, Wrapped);
    var e :| e in q.tree && !e.context.Absent?;
    assert Read(Wrapped(e)).None?;
    assert Trim(EMPTY, capacity) == Some(EMPTY);
  }

  lemma WrappedAbsentIgnored(q: Cache, capacity: nat)
    requires Exact(q) && |q.tree| <= capacity && q.tree != []
    requires forall e :: e in q.tree ==> e.context.Absent?
    ensures Deserialize(q, Serialize(q, Wrapped), capacity) == Some(q)
  {
    Sizes(q);
    ReadMapped(q.tree, Wrapped);
    var es := ReadAll(Mapped(q.tree, Wrapped)).value;
    SameButContext(q, es);
    KnownRound(q, es, Serialize(q, Wrapped), capacity);
  }

  /** Replaying them as they are sent, contexts wrapped, changes nothing if and only if no entry
      carries a context; otherwise it empties the cache. */
  lemma WrappedReplayIffNoContext(q: Cache, capacity: nat)
    requires Exact(q) && |q.tree| <= capacity
    ensures Deserialize(q, Serialize(q, Wrapped), capacity)
            == Some(if forall e :: e in q.tree ==> e.context.Absent? then q else EMPTY)
  {
    if exists e :: e in q.tree && !e.context.Absent? {
      WrappedContextsRaise(q, capacity);
    } else if q.tree == [] {
      EmptyTree(q);
    } else {
      WrappedAbsentIgnored(q, capacity);
    }
  }

  lemma Inhabitant(t: seq<Elem>) returns (x: Elem)
    requires t != []
    ensures x in t
  {
    x := t[0];
  }

  /** Strictly sorted sequences with the same elements are equal. */
  lemma {:induction false} SameTree(s: seq<Elem>, t: seq<Elem>)
    requires forall i, j :: 0 <= i < j < |s| ==> s[i].priority < s[j].priority
    requires forall i, j :: 0 <= i < j < |t| ==> t[i].priority < t[j].priority
    requires forall x :: x in s <==> x in t
    ensures s == t
    decreases |s|
  {
    if s == [] {
      if t != [] {
        var _ := Inhabitant(t);
      }
    } else {
      assert s[0] in t && t[0] in s;
      assert s[0] == t[0];
      assert forall x :: x in s[1..] <==> x in s && x != s[0];
      assert forall x :: x in t[1..] <==> x in t && x != t[0];
      SameTree(s[1..], t[1..]);
    }
  }

  lemma {:induction false} AllNew(added: set<Elem>, es: seq<Elem>)
    ensures Advanced(Round({}, added), es) == Round({}, added + set x | x in es)
    decreases |es|
  {
    if es == [] {
      assert added + (set x | x in es) == added;
    } else {
      assert Advance(Round({}, added), es[0]) == Round({}, added + {es[0]});
      AllNew(added + {es[0]}, es[1..]);
      assert es == [es[0]] + es[1..];
      assert added + {es[0]} + (set x | x in es[1..]) == added + (set x | x in es);
    }
  }

  lemma FreshRound(q: Cache)
    requires Exact(q)
    ensures InsertAll(EMPTY, q.tree).Some? && Sync(InsertAll(EMPTY, q.tree).value) == q
  {
    assert Exact(EMPTY) && Before(EMPTY) == Round({}, {});
    assert DistinctRound(q.tree);
    RoundExactIffNoClash(EMPTY, q.tree);
    AllNew({}, q.tree);
    ExactDetermined(Sync(InsertAll(EMPTY, q.tree).value), q);
  }

  lemma FreshMerge(q: Cache, data: Data)
    requires Exact(q) && data.Entries? && ReadAll(data.entries) == Some(q.tree)
    ensures Merge(EMPTY, data) == Some(q)
  {
    FreshRound(q);
  }

  /** Reading the cache's own entries into an empty cache rebuilds it. */
  lemma ReloadRebuilds(q: Cache, capacity: nat)
    requires Exact(q) && |q.tree| <= capacity
    ensures Deserialize(EMPTY, Serialize(q, Unwrapped), capacity) == Some(q)
  {
    Sizes(q);
    if q.tree == [] {
      EmptyTree(q);
    } else {
      ReadBack(q.tree);
      FreshMerge(q, Serialize(q, Unwrapped));
    }
  }

  lemma ReadBack(es: seq<Elem>)
    ensures ReadAll(Mapped(es, Unwrapped)) == Some(es)
  {
    ReadMapped(es, Unwrapped);
    assert ReadAll(Mapped(es, Unwrapped)).value == es;
  }

  // ---------------------------------------------------------------------------
  // A move onto a priority whose holder does not move

  const FIRST := Elem(1, 1, 1, Absent)
  const SECOND := Elem(2, 1, 2, Absent)
  const MOVED := Elem(1, 2, 2, Absent)
  const THIRD := Elem(3, 1, 0, Absent)
  const FOURTH := Elem(4, 1, 1, Absent)
  const START := Cache(map[1 := FIRST, 2 := SECOND], map[1 := FIRST, 2 := SECOND], map[], [FIRST, SECOND], {FIRST, SECOND})

  lemma StartExact()
    ensures Exact(START) && DistinctRound([MOVED, THIRD, FOURTH])
  {
  }

  /** The first entry takes the place of the first element, at the second one's priority. */
  lemma UnmatchedMove()
    ensures Advanced(Before(START), [MOVED, THIRD, FOURTH]) == Round({SECOND}, {MOVED, THIRD, FOURTH})
  {
    var es := [MOVED, THIRD, FOURTH];
    assert es[1..] == [THIRD, FOURTH] && [THIRD, FOURTH][1..] == [FOURTH] && [FOURTH][1..] == [];
    var r := Before(START);
    assert FIRST in r.kept && r.kept == {FIRST, SECOND};
    assert Advance(r, MOVED) == Round({SECOND}, {MOVED});
    assert Advance(Round({SECOND}, {MOVED}), THIRD) == Round({SECOND}, {MOVED, THIRD});
    assert Advance(Round({SECOND}, {MOVED, THIRD}), FOURTH) == Round({SECOND}, {MOVED, THIRD, FOURTH});
    assert Advanced(Round({SECOND}, {MOVED, THIRD}), [FOURTH]) == Round({SECOND}, {MOVED, THIRD, FOURTH});
    assert Advanced(Round({SECOND}, {MOVED}), [THIRD, FOURTH]) == Round({SECOND}, {MOVED, THIRD, FOURTH});
  }

  /** Distinct ids and priorities are not enough: after such a move two elements share a priority,
      and trimming raises because removal meets the other one first. */
  lemma UnmatchedMoveRaises()
    ensures Exact(START) && DistinctRound([MOVED, THIRD, FOURTH])
    ensures Deserialize(START, Entries(Mapped([MOVED, THIRD, FOURTH], Unwrapped)), 2).None?
  {
    var es := [MOVED, THIRD, FOURTH];
    StartExact();
    ReadBack(es);
    UnmatchedMove();
    var r := Advanced(Before(START), es);
    assert UpTo(r.kept + r.added, 2) == {SECOND, MOVED, THIRD, FOURTH};
    assert SECOND in r.kept && MOVED in r.added && |UpTo(r.kept + r.added, MOVED.priority)| == 4;
    RoundRaisesIffClashBeyond(START, es, Entries(Mapped(es, Unwrapped)), 2);
  }
}
