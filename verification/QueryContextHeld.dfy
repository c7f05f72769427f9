/** What a round leaves in the query context cache, told from the cache, the timestamps and the
    priorities alone. */
module QueryContextHeld {
  import opened Options
  import opened QueryContext
  import opened QueryContextRounds

  /** Of two entries for one id, `e` is the one to hold: it is later, or as late and moved. */
  predicate Later(e: Elem, a: Elem) {
    a.timestamp < e.timestamp || (a.timestamp == e.timestamp && a.priority != e.priority)
  }

  /** Before entry i, an entry for another id has taken the place of `a`: one that has its priority
      and whose own id is not cached, or is no longer. */
  ghost predicate Evicted(q: Cache, es: seq<Elem>, a: Elem, i: nat)
    requires i <= |es|
    decreases i
  {
    exists j :: 0 <= j < i && es[j].priority == a.priority && es[j].id != a.id &&
                (es[j].id !in q.ids || Evicted(q, es, q.ids[es[j].id], j))
  }

  /** Entry j takes the place of `a`. */
  ghost predicate Takes(q: Cache, es: seq<Elem>, a: Elem, j: nat)
    requires j < |es|
  {
    es[j].priority == a.priority && es[j].id != a.id && (es[j].id !in q.ids || Evicted(q, es, q.ids[es[j].id], j))
  }

  lemma EvictedNext(q: Cache, es: seq<Elem>, a: Elem, j: nat)
    requires j < |es|
    ensures Evicted(q, es, a, j + 1) <==> Evicted(q, es, a, j) || Takes(q, es, a, j)
  {
  }

  lemma EvictedStays(q: Cache, es: seq<Elem>, a: Elem, i: nat, k: nat)
    requires i <= k <= |es| && Evicted(q, es, a, i)
    ensures Evicted(q, es, a, k)
  {
  }

  /** No entry before i is one to hold rather than `a`. */
  predicate Undisputed(es: seq<Elem>, a: Elem, i: nat)
    requires i <= |es|
  {
    forall j :: 0 <= j < i && es[j].id == a.id ==> !Later(es[j], a)
  }

  // ---------------------------------------------------------------------------
  // Against the account of the round

  lemma KeptIsCached(q: Cache, es: seq<Elem>, i: nat, x: Elem)
    requires Exact(q) && i <= |es| && x in At(Before(q), es, i).kept
    ensures x in q.tree && x.id in q.ids && q.ids[x.id] == x
  {
    KeptShrinks(Before(q), es[..i]);
  }

  /** An entry finds the element of its id, if that is cached and still there. */
  lemma HitIff(q: Cache, es: seq<Elem>, j: nat)
    requires Exact(q) && j < |es|
    requires es[j].id in q.ids ==>
               (q.ids[es[j].id] in At(Before(q), es, j).kept <==> !Evicted(q, es, q.ids[es[j].id], j))
    ensures Hit(At(Before(q), es, j), es[j]) <==> es[j].id in q.ids && !Evicted(q, es, q.ids[es[j].id], j)
    ensures Stale(At(Before(q), es, j), es[j]) <==>
            es[j].id in q.ids && !Evicted(q, es, q.ids[es[j].id], j) && !Later(es[j], q.ids[es[j].id])
  {
    forall x | x in At(Before(q), es, j).kept ensures x.id in q.ids && q.ids[x.id] == x {
      KeptIsCached(q, es, j, x);
    }
  }

  /** What one entry does to a cached element. */
  lemma KeptNext(q: Cache, es: seq<Elem>, a: Elem, j: nat)
    requires Exact(q) && a in q.tree && j < |es|
    requires es[j].id == a.id ==> !Later(es[j], a)
    requires a in At(Before(q), es, j).kept <==> !Evicted(q, es, a, j)
    requires es[j].id in q.ids ==>
               (q.ids[es[j].id] in At(Before(q), es, j).kept <==> !Evicted(q, es, q.ids[es[j].id], j))
    ensures a in At(Before(q), es, j + 1).kept <==> !Evicted(q, es, a, j + 1)
  {
    AtNext(Before(q), es, j);
    HitIff(q, es, j);
    EvictedNext(q, es, a, j);
  }

  /** A cached element stays until another entry takes its place. */
  lemma {:induction false} KeptIffNotEvicted(q: Cache, es: seq<Elem>, a: Elem, i: nat)
    requires Exact(q) && DistinctRound(es) && a in q.tree && i <= |es| && Undisputed(es, a, i)
    ensures a in At(Before(q), es, i).kept <==> !Evicted(q, es, a, i)
    decreases i
  {
    if i == 0 {
      assert es[..0] == [];
    } else {
      KeptIffNotEvicted(q, es, a, i - 1);
      if es[i - 1].id in q.ids {
        KeptIffNotEvicted(q, es, q.ids[es[i - 1].id], i - 1);
      }
      KeptNext(q, es, a, i - 1);
    }
  }

  /** Entry i ends up in the cache if its id is new, if it is one to hold rather than the cached one,
      or if that has lost its place. */
  ghost predicate Taken(q: Cache, es: seq<Elem>, i: nat)
    requires i < |es|
  {
    es[i].id !in q.ids || Later(es[i], q.ids[es[i].id]) || Evicted(q, es, q.ids[es[i].id], i)
  }

  lemma AddedIffTaken(q: Cache, es: seq<Elem>, i: nat)
    requires Exact(q) && DistinctRound(es) && i < |es|
    ensures es[i] in Advanced(Before(q), es).added <==> Taken(q, es, i)
  {
    var r, e := Before(q), es[i];
    if e.id in q.ids {
      KeptIffNotEvicted(q, es, q.ids[e.id], i);
    }
    HitIff(q, es, i);
    AtNext(r, es, i);
    if e in Advanced(r, es).added {
      var k := AddedBy(r, es, e);
      assert k == i;
    }
  }

  /** A cached element is still there if no entry is to be held rather than it and none took its place. */
  ghost predicate Stays(q: Cache, es: seq<Elem>, a: Elem) {
    a in q.tree && Undisputed(es, a, |es|) && !Evicted(q, es, a, |es|)
  }

  lemma Overtaken(q: Cache, es: seq<Elem>, a: Elem, i: nat)
    requires Exact(q) && DistinctRound(es) && a in q.tree && i < |es| && es[i].id == a.id && Later(es[i], a)
    ensures a !in Advanced(Before(q), es).kept
  {
    KeptIffNotEvicted(q, es, a, i);
    HitIff(q, es, i);
    AtNext(Before(q), es, i);
  }

  lemma KeptIffStays(q: Cache, es: seq<Elem>, a: Elem)
    requires Exact(q) && DistinctRound(es)
    ensures a in Advanced(Before(q), es).kept <==> Stays(q, es, a)
  {
    assert es[..|es|] == es;
    KeptShrinks(Before(q), es);
    if a in q.tree {
      if Undisputed(es, a, |es|) {
        KeptIffNotEvicted(q, es, a, |es|);
      } else {
        var i :| 0 <= i < |es| && es[i].id == a.id && Later(es[i], a);
        Overtaken(q, es, a, i);
      }
    }
  }

  // ---------------------------------------------------------------------------
  // The round

  /** What is to be held after a round, before trimming. */
  ghost predicate Held(q: Cache, es: seq<Elem>, x: Elem) {
    Stays(q, es, x) || exists i :: 0 <= i < |es| && es[i] == x && Taken(q, es, i)
  }

  lemma AccountHolds(q: Cache, es: seq<Elem>, x: Elem)
    requires Exact(q) && DistinctRound(es)
    ensures x in Advanced(Before(q), es).kept + Advanced(Before(q), es).added <==> Held(q, es, x)
  {
    var r := Advanced(Before(q), es);
    KeptIffStays(q, es, x);
    if x in r.added {
      var i := AddedBy(Before(q), es, x);
      AddedIffTaken(q, es, i);
    }
    if i :| 0 <= i < |es| && es[i] == x && Taken(q, es, i) {
      AddedIffTaken(q, es, i);
    }
  }

  /** Two of the elements to be held share a priority. */
  ghost predicate Shared(q: Cache, es: seq<Elem>) {
    exists x, y :: Held(q, es, x) && Held(q, es, y) && x != y && x.priority == y.priority
  }

  lemma SharedIffClash(q: Cache, es: seq<Elem>)
    requires Exact(q) && DistinctRound(es)
    ensures Shared(q, es) <==> Clash(Advanced(Before(q), es))
  {
    var r := Advanced(Before(q), es);
    forall x ensures x in r.kept + r.added <==> Held(q, es, x) {
      AccountHolds(q, es, x);
    }
    assert Represents(q, Before(q));
    RoundAdvances(q, Before(q), es);
    if Shared(q, es) {
      var x, y :| Held(q, es, x) && Held(q, es, y) && x != y && x.priority == y.priority;
      SharersClash(InsertAll(q, es).value, r, x, y);
    }
    if Clash(r) {
      var x, y :| x in r.kept && y in r.added && x.priority == y.priority;
      assert x in r.kept + r.added && y in r.kept + r.added;
      assert x != y;
    }
  }

  lemma SharersClash(m: Cache, r: Round, x: Elem, y: Elem)
    requires Represents(m, r) && x in r.kept + r.added && y in r.kept + r.added
    requires x != y && x.priority == y.priority
    ensures Clash(r)
  {
    var i :| 0 <= i < |m.tree| && m.tree[i] == x;
    var j :| 0 <= j < |m.tree| && m.tree[j] == y;
  }

  /** A round of distinct ids and priorities on an exact cache leaves an exact cache if and only if no
      two of the elements to be held share a priority; then these are what it holds, up to the
      capacity, the smallest priority numbers first. */
  lemma RoundHolds(q: Cache, es: seq<Elem>, data: Data, capacity: nat)
    requires Exact(q) && DistinctRound(es) && data.Entries? && ReadAll(data.entries) == Some(es)
    ensures var result := Deserialize(q, data, capacity); result.Some? && Exact(result.value) <==> !Shared(q, es)
    ensures var result := Deserialize(q, data, capacity);
            !Shared(q, es) ==>
              && (forall x :: x in result.value.tree ==> Held(q, es, x))
              && forall y :: Held(q, es, y) && y !in result.value.tree ==>
                   |result.value.tree| == capacity && forall x :: x in result.value.tree ==> x.priority < y.priority
  {
    var r := Advanced(Before(q), es);
    SharedIffClash(q, es);
    RoundReturnsExactIffNoClash(q, es, data, capacity);
    if !Shared(q, es) {
      WholeRound(q, es, data, capacity);
      forall x ensures x in r.kept + r.added <==> Held(q, es, x) {
        AccountHolds(q, es, x);
      }
    }
  }

  // ---------------------------------------------------------------------------
  // One id

  /** `result` holds `x` for its id, unless it is full of smaller priority numbers. */
  ghost predicate HoldsUnlessFull(result: Cache, x: Elem, capacity: nat) {
    if x.id in result.ids then result.ids[x.id] == x
    else |result.tree| == capacity && forall y :: y in result.tree ==> y.priority < x.priority
  }

  lemma OneHeldPerId(q: Cache, es: seq<Elem>, x: Elem, y: Elem)
    requires Exact(q) && DistinctRound(es) && Held(q, es, x) && Held(q, es, y) && x.id == y.id
    ensures x == y
  {
    if Stays(q, es, x) && !Stays(q, es, y) {
      StaysAlone(q, es, x, y);
    }
    if Stays(q, es, y) && !Stays(q, es, x) {
      StaysAlone(q, es, y, x);
    }
    if Stays(q, es, x) && Stays(q, es, y) {
      assert q.ids[x.id] == x && q.ids[y.id] == y;
    }
  }

  lemma StaysAlone(q: Cache, es: seq<Elem>, a: Elem, e: Elem)
    requires Exact(q) && Stays(q, es, a) && e.id == a.id
    ensures forall i :: 0 <= i < |es| && es[i] == e ==> !Taken(q, es, i)
  {
    forall i | 0 <= i < |es| && es[i] == e ensures !Taken(q, es, i) {
      if Evicted(q, es, a, i) {
        EvictedStays(q, es, a, i, |es|);
      }
    }
  }

  lemma HeldIsHeld(q: Cache, es: seq<Elem>, data: Data, capacity: nat, x: Elem)
    requires Exact(q) && DistinctRound(es) && data.Entries? && ReadAll(data.entries) == Some(es)
    requires !Shared(q, es) && Held(q, es, x)
    ensures Deserialize(q, data, capacity).Some?
    ensures HoldsUnlessFull(Deserialize(q, data, capacity).value, x, capacity)
  {
    RoundHolds(q, es, data, capacity);
    var result := Deserialize(q, data, capacity).value;
    if x.id in result.ids {
      assert result.ids[x.id] in result.tree;
      OneHeldPerId(q, es, x, result.ids[x.id]);
    } else {
      assert x !in result.tree;
    }
  }

  /** An id that is cached and sent: the sent entry is held if its timestamp is later, or the same with
      another priority. Otherwise the cached one is, if no entry for another id has its priority. */
  lemma LaterEntryWins(q: Cache, es: seq<Elem>, data: Data, capacity: nat, a: Elem, i: nat)
    requires Exact(q) && DistinctRound(es) && data.Entries? && ReadAll(data.entries) == Some(es) && !Shared(q, es)
    requires a in q.tree && i < |es| && es[i].id == a.id
    ensures Deserialize(q, data, capacity).Some?
    ensures var e, result := es[i], Deserialize(q, data, capacity).value;
            && (a.timestamp < e.timestamp || (a.timestamp == e.timestamp && a.priority != e.priority) ==>
                  HoldsUnlessFull(result, e, capacity))
            && ((e.timestamp < a.timestamp || (e.timestamp == a.timestamp && e.priority == a.priority)) &&
                (forall j :: 0 <= j < |es| && es[j].id != a.id ==> es[j].priority != a.priority) ==>
                  HoldsUnlessFull(result, a, capacity))
  {
    assert q.ids[a.id] == a;
    var e := es[i];
    if Later(e, a) {
      assert Taken(q, es, i);
      HeldIsHeld(q, es, data, capacity, e);
    } else {
      RoundHolds(q, es, data, capacity);
      if forall j :: 0 <= j < |es| && es[j].id != a.id ==> es[j].priority != a.priority {
        assert Undisputed(es, a, |es|);
        assert Stays(q, es, a);
        HeldIsHeld(q, es, data, capacity, a);
      }
    }
  }

  /** An id that is new is held, and one that is not sent stays if no entry has its priority. */
  lemma NewAndUnsent(q: Cache, es: seq<Elem>, data: Data, capacity: nat)
    requires Exact(q) && DistinctRound(es) && data.Entries? && ReadAll(data.entries) == Some(es) && !Shared(q, es)
    ensures Deserialize(q, data, capacity).Some?
    ensures forall i :: 0 <= i < |es| && es[i].id !in q.ids ==>
              HoldsUnlessFull(Deserialize(q, data, capacity).value, es[i], capacity)
    ensures forall a :: a in q.tree && (forall j :: 0 <= j < |es| ==> es[j].id != a.id && es[j].priority != a.priority) ==>
              HoldsUnlessFull(Deserialize(q, data, capacity).value, a, capacity)
  {
    RoundHolds(q, es, data, capacity);
    forall i | 0 <= i < |es| && es[i].id !in q.ids
      ensures HoldsUnlessFull(Deserialize(q, data, capacity).value, es[i], capacity)
    {
      assert Taken(q, es, i);
      HeldIsHeld(q, es, data, capacity, es[i]);
    }
    forall a | a in q.tree && (forall j :: 0 <= j < |es| ==> es[j].id != a.id && es[j].priority != a.priority)
      ensures HoldsUnlessFull(Deserialize(q, data, capacity).value, a, capacity)
    {
      assert Stays(q, es, a);
      HeldIsHeld(q, es, data, capacity, a);
    }
  }

  /** The timestamp held for an id goes back over a round that keeps the id, if and only if the round
      sends an earlier one after another entry has taken the cached element's place. */
  lemma TimestampGoesBackIff(q: Cache, es: seq<Elem>, data: Data, capacity: nat, a: Elem)
    requires Exact(q) && DistinctRound(es) && data.Entries? && ReadAll(data.entries) == Some(es) && !Shared(q, es)
    requires a in q.tree
    ensures Deserialize(q, data, capacity).Some?
    ensures var result := Deserialize(q, data, capacity).value;
            a.id in result.ids ==>
              (result.ids[a.id].timestamp < a.timestamp <==>
               exists i :: 0 <= i < |es| && es[i].id == a.id && es[i].timestamp < a.timestamp && Evicted(q, es, a, i))
  {
    RoundHolds(q, es, data, capacity);
    var result := Deserialize(q, data, capacity).value;
    assert q.ids[a.id] == a;
    if a.id in result.ids {
      var x := result.ids[a.id];
      assert x in result.tree && x.id == a.id;
      if i :| 0 <= i < |es| && es[i].id == a.id && es[i].timestamp < a.timestamp && Evicted(q, es, a, i) {
        assert Taken(q, es, i);
        OneHeldPerId(q, es, x, es[i]);
      }
      if x.timestamp < a.timestamp {
        assert !Stays(q, es, x);
      }
    }
  }

  // ---------------------------------------------------------------------------
  // A timestamp that goes back

  const HELD := Elem(1, 5, 1, Absent)
  const TAKER := Elem(2, 1, 1, Absent)
  const OLDER := Elem(1, 3, 2, Absent)
  const ALONE := Cache(map[1 := HELD], map[1 := HELD], map[], [HELD], {HELD})

  lemma PlaceTaken()
    ensures Evicted(ALONE, [TAKER, OLDER], HELD, 1) && Evicted(ALONE, [TAKER, OLDER], HELD, 2)
  {
    var es := [TAKER, OLDER];
    assert Takes(ALONE, es, HELD, 0);
    EvictedNext(ALONE, es, HELD, 0);
    EvictedStays(ALONE, es, HELD, 1, 2);
  }

  lemma BothHeld()
    ensures Held(ALONE, [TAKER, OLDER], OLDER) && !Shared(ALONE, [TAKER, OLDER])
    ensures forall x :: Held(ALONE, [TAKER, OLDER], x) ==> x == TAKER || x == OLDER
  {
    PlaceTaken();
    assert [TAKER, OLDER][1] == OLDER && Taken(ALONE, [TAKER, OLDER], 1);
  }

  /** A new id takes the place of the cached element, and an older entry for that one's id follows. */
  lemma TimestampGoesBack()
    ensures Exact(ALONE) && DistinctRound([TAKER, OLDER])
    ensures var result := Deserialize(ALONE, Entries(Mapped([TAKER, OLDER], Unwrapped)), 5);
            result.Some? && 1 in result.value.ids && result.value.ids[1] == OLDER
  {
    var es, data := [TAKER, OLDER], Entries(Mapped([TAKER, OLDER], Unwrapped));
    ReadBack(es);
    BothHeld();
    HeldIsHeld(ALONE, es, data, 5, OLDER);
    RoundHolds(ALONE, es, data, 5);
    FewElements(Deserialize(ALONE, data, 5).value.tree, TAKER, OLDER);
  }

  lemma FewElements(tree: seq<Elem>, x: Elem, y: Elem)
    requires DistinctIds(tree) && forall z :: z in tree ==> z == x || z == y
    ensures |tree| <= 2
  {
    DistinctSize(tree);
    SubsetSize(Elems(tree), {x, y});
  }

  lemma {:induction false} SubsetSize(a: set<Elem>, b: set<Elem>)
    requires a <= b
    ensures |a| <= |b|
    decreases |a|
  {
    if a != {} {
      var x :| x in a;
      SubsetSize(a - {x}, b - {x});
    }
  }
}
