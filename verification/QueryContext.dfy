/** The query context cache: an id map, a priority map, the priority map of the round being
    merged, and a set sorted by priority, all updated in place by each server round. An
    operation that raises returns false (or None); what it did before stays done, and the
    functions named `...Leaves` give that state. */
module QueryContext {
  import opened Options

  /** `Blank` is a context that is neither a string nor None but counts as empty. */
  datatype Context = Absent | Text(text: string) | Blank

  datatype Elem = Elem(id: int, timestamp: int, priority: int, context: Context)

  /** The sorted set is a list `tree` in order and a set `members` beside it. */
  datatype Cache = Cache(
    ids: map<int, Elem>, priorities: map<int, Elem>, intermediate: map<int, Elem>, tree: seq<Elem>, members: set<Elem>)

  const EMPTY := Cache(map[], map[], map[], [], {})

  // ---------------------------------------------------------------------------
  // The sorted set. Elements compare by priority alone and are equal by all their fields.

  /** The position of the first element whose priority is not below `priority`. */
  function BisectLeft(tree: seq<Elem>, priority: int): (n: nat)
    ensures n <= |tree| && forall i :: 0 <= i < n ==> tree[i].priority < priority
    ensures n < |tree| ==> tree[n].priority >= priority
  {
    if tree == [] || tree[0].priority >= priority then 0 else 1 + BisectLeft(tree[1..], priority)
  }

  function TreeAdd(tree: seq<Elem>, e: Elem): seq<Elem> {
    var n := BisectLeft(tree, e.priority + 1);
    tree[..n] + [e] + tree[n..]
  }

  /** Removal looks only at the first element of that priority, and raises if it is another one. */
  function TreeRemove(tree: seq<Elem>, e: Elem): Option<seq<Elem>> {
    var n := BisectLeft(tree, e.priority);
    if n < |tree| && tree[n] == e then Some(tree[..n] + tree[n + 1..]) else None
  }

  // ---------------------------------------------------------------------------
  // The operations on the cache's value

  function Add(q: Cache, e: Elem): Cache {
    Cache(q.ids[e.id := e], q.priorities, q.intermediate[e.priority := e],
          if e in q.members then q.tree else TreeAdd(q.tree, e), q.members + {e})
  }

  function Remove(q: Cache, e: Elem): Option<Cache> {
    var tree := TreeRemove(q.tree, e);
    if e.id in q.ids && e.priority in q.priorities && e in q.members && tree.Some?
    then Some(Cache(q.ids - {e.id}, q.priorities - {e.priority}, q.intermediate, tree.value, q.members - {e}))
    else None
  }

  /** The id map goes first, then the priority map, then the set, then the list. */
  function RemoveLeaves(q: Cache, e: Elem): (r: Cache)
    ensures Remove(q, e).Some? ==> r == Remove(q, e).value
  {
    if e.id !in q.ids then q
    else if e.priority !in q.priorities then q.(ids := q.ids - {e.id})
    else if Remove(q, e).Some? then Remove(q, e).value
    else q.(ids := q.ids - {e.id}, priorities := q.priorities - {e.priority}, members := q.members - {e})
  }

  function Replace(q: Cache, old_: Elem, e: Elem): Option<Cache> {
    var removed := Remove(q, old_);
    if removed.Some? then Some(Add(removed.value, e)) else None
  }

  /** A later timestamp, or the same one with another priority. */
  predicate Supersedes(e: Elem, cached: Elem) {
    e.timestamp > cached.timestamp || (e.timestamp == cached.timestamp && e.priority != cached.priority)
  }

  function Insert(q: Cache, e: Elem): Option<Cache> {
    if e.id in q.ids then
      if Supersedes(e, q.ids[e.id]) then Replace(q, q.ids[e.id], e) else Some(q)
    else if e.priority in q.priorities then Replace(q, q.priorities[e.priority], e)
    else Some(Add(q, e))
  }

  function ReplaceLeaves(q: Cache, old_: Elem, e: Elem): Cache {
    if Remove(q, old_).Some? then Add(Remove(q, old_).value, e) else RemoveLeaves(q, old_)
  }

  function InsertLeaves(q: Cache, e: Elem): (r: Cache)
    ensures Insert(q, e).Some? ==> r == Insert(q, e).value
  {
    if e.id in q.ids then
      if Supersedes(e, q.ids[e.id]) then ReplaceLeaves(q, q.ids[e.id], e) else q
    else if e.priority in q.priorities then ReplaceLeaves(q, q.priorities[e.priority], e)
    else Add(q, e)
  }

  function InsertAll(q: Cache, es: seq<Elem>): Option<Cache>
    decreases |es|
  {
    if es == [] then Some(q)
    else
      var next := Insert(q, es[0]);
      if next.Some? then InsertAll(next.value, es[1..]) else None
  }

  function Sync(q: Cache): Cache {
    q.(priorities := q.priorities + q.intermediate, intermediate := map[])
  }

  function Trim(q: Cache, capacity: int): Option<Cache>
    decreases |q.tree|
  {
    if |q.members| <= capacity then Some(q)
    else if q.tree == [] then None
    else
      var next := Remove(q, q.tree[|q.tree| - 1]);
      if next.Some? then Trim(next.value, capacity) else None
  }

  function TrimLeaves(q: Cache, capacity: int): (r: Cache)
    ensures Trim(q, capacity).Some? ==> r == Trim(q, capacity).value
    decreases |q.tree|
  {
    if |q.members| <= capacity || q.tree == [] then q
    else
      var last := q.tree[|q.tree| - 1];
      if Remove(q, last).Some? then TrimLeaves(Remove(q, last).value, capacity) else RemoveLeaves(q, last)
  }

  /** Trimming goes the same way from both. */
  ghost predicate TrimAlike(q: Cache, s: Cache, capacity: int) {
    Trim(q, capacity) == Trim(s, capacity) && TrimLeaves(q, capacity) == TrimLeaves(s, capacity)
  }

  lemma TrimStep(q: Cache, s: Cache, last: Elem, capacity: int)
    requires TrimAlike(s, q, capacity) && |q.members| > capacity && q.tree != [] && last == q.tree[|q.tree| - 1]
    ensures if Remove(q, last).Some?
            then TrimAlike(s, RemoveLeaves(q, last), capacity) && |RemoveLeaves(q, last).tree| < |q.tree|
            else Trim(s, capacity).None? && TrimLeaves(s, capacity) == RemoveLeaves(q, last)
  {
    if Remove(q, last).None? {
      assert TrimLeaves(q, capacity) == RemoveLeaves(q, last);
    }
  }

  lemma TrimEnd(q: Cache, s: Cache, capacity: int)
    requires TrimAlike(s, q, capacity) && (|q.members| <= capacity || q.tree == [])
    ensures TrimLeaves(s, capacity) == q && (Trim(s, capacity).Some? <==> |q.members| <= capacity)
  {
  }

  // ---------------------------------------------------------------------------
  // Server data

  /** A field of an entry; a Python bool is an int. `Falsy` is an empty value of another type. */
  datatype Field = Missing | Int(i: int) | Str(s: string) | Falsy | Other

  datatype RawEntry = NotADict | Raw(id: Field, timestamp: Field, priority: Field, context: Field)

  /** `NoData` is None or an empty object; `Malformed` has no iterable entries. */
  datatype Data = NoData | Malformed | Entries(entries: seq<RawEntry>)

  function ReadContext(f: Field): Option<Context> {
    match f
    case Missing => Some(Absent)
    case Str(s) => Some(Text(s))
    case Falsy => Some(Blank)
    case Int(i) => if i == 0 then Some(Blank) else None
    case Other => None
  }

  /** None where the type checks raise. */
  function Read(e: RawEntry): Option<Elem> {
    if e.NotADict? || !e.id.Int? || !e.timestamp.Int? || !e.priority.Int? || ReadContext(e.context).None? then None
    else Some(Elem(e.id.i, e.timestamp.i, e.priority.i, ReadContext(e.context).value))
  }

  /** An entry is refused exactly if a field has the wrong type; otherwise every field is taken over. */
  lemma ReadMeans(e: RawEntry)
    ensures Read(e).None? <==>
            || !e.Raw? || !e.id.Int? || !e.timestamp.Int? || !e.priority.Int?
            || e.context.Other? || (e.context.Int? && e.context.i != 0)
    ensures Read(e).Some? ==>
              && Read(e).value.id == e.id.i && Read(e).value.timestamp == e.timestamp.i
              && Read(e).value.priority == e.priority.i
              && (e.context.Missing? <==> Read(e).value.context.Absent?)
              && (e.context.Str? ==> Read(e).value.context == Text(e.context.s))
  {
  }

  function ReadAll(es: seq<RawEntry>): Option<seq<Elem>>
    decreases |es|
  {
    if es == [] then Some([])
    else if Read(es[0]).None? || ReadAll(es[1..]).None? then None
    else Some([Read(es[0]).value] + ReadAll(es[1..]).value)
  }

  /** What merging entry by entry leaves, up to the first exception. */
  function MergeLeaves(q: Cache, es: seq<RawEntry>): Cache
    decreases |es|
  {
    if es == [] then Sync(q)
    else if Read(es[0]).None? then q
    else if Insert(q, Read(es[0]).value).None? then InsertLeaves(q, Read(es[0]).value)
    else MergeLeaves(Insert(q, Read(es[0]).value).value, es[1..])
  }

  /** The cache after the merging part of a round; None if anything in it raises. */
  function Merge(q: Cache, data: Data): Option<Cache> {
    if !data.Entries? || ReadAll(data.entries).None? then None
    else
      var merged := InsertAll(q, ReadAll(data.entries).value);
      if merged.Some? then Some(Sync(merged.value)) else None
  }

  /** A whole round; None if trimming raises, which nothing catches. */
  function Deserialize(q: Cache, data: Data, capacity: int): Option<Cache> {
    if data.NoData? then Some(EMPTY)
    else
      var merged := Merge(q, data);
      Trim(if merged.Some? then merged.value else EMPTY, capacity)
  }

  function DeserializeLeaves(q: Cache, data: Data, capacity: int): (r: Cache)
    ensures Deserialize(q, data, capacity).Some? ==> r == Deserialize(q, data, capacity).value
  {
    if data.NoData? then EMPTY
    else TrimLeaves(if Merge(q, data).Some? then Merge(q, data).value else EMPTY, capacity)
  }

  /** Contexts are wrapped in an object on the way out; an absent one becomes an empty object. */
  function Wrapped(e: Elem): RawEntry {
    Raw(Int(e.id), Int(e.timestamp), Int(e.priority), if e.context.Absent? then Falsy else Other)
  }

  /** The entry with its context taken out of the wrapping again. */
  function Unwrapped(e: Elem): RawEntry {
    Raw(Int(e.id), Int(e.timestamp), Int(e.priority),
        match e.context
        case Absent => Missing
        case Text(s) => Str(s)
        case Blank => Falsy)
  }

  function Mapped(tree: seq<Elem>, f: Elem -> RawEntry): seq<RawEntry> {
    seq(|tree|, i requires 0 <= i < |tree| => f(tree[i]))
  }

  function Serialize(q: Cache, f: Elem -> RawEntry): Data {
    if q.members == {} then NoData else Entries(Mapped(q.tree, f))
  }

  // ---------------------------------------------------------------------------
  // Invariants

  predicate Sorted(tree: seq<Elem>) {
    forall i, j :: 0 <= i < j < |tree| ==> tree[i].priority <= tree[j].priority
  }

  predicate DistinctIds(tree: seq<Elem>) {
    forall i, j :: 0 <= i < j < |tree| ==> tree[i].id != tree[j].id
  }

  function Elems(tree: seq<Elem>): set<Elem> {
    set x | x in tree
  }

  /** The id map and the sorted set index each other exactly. */
  predicate Indexed(q: Cache) {
    && Sorted(q.tree) && DistinctIds(q.tree) && q.members == Elems(q.tree)
    && (forall e :: e in q.tree ==> e.id in q.ids && q.ids[e.id] == e)
    && (forall id :: id in q.ids ==> q.ids[id].id == id && q.ids[id] in q.tree)
  }

  /** Moreover priorities are distinct and the priority map is the exact index by priority. */
  predicate Exact(q: Cache) {
    && Indexed(q) && q.intermediate == map[]
    && (forall i, j :: 0 <= i < j < |q.tree| ==> q.tree[i].priority < q.tree[j].priority)
    && (forall e :: e in q.tree ==> e.priority in q.priorities && q.priorities[e.priority] == e)
    && (forall p :: p in q.priorities ==> q.priorities[p].priority == p && q.priorities[p] in q.tree)
  }

  // ---------------------------------------------------------------------------
  // The class

  class QueryContextCache {
    const capacity: int
    var ids: map<int, Elem>
    var priorities: map<int, Elem>
    var intermediate: map<int, Elem>
    var tree: seq<Elem>
    var members: set<Elem>

    constructor (capacity: int)
      ensures this.capacity == capacity && State() == EMPTY
    {
      this.capacity := capacity;
      ids, priorities, intermediate, tree, members := map[], map[], map[], [], {};
    }

    ghost function State(): Cache
      reads this
    {
      Cache(ids, priorities, intermediate, tree, members)
    }

    method AddQce(e: Elem)
      modifies this
      ensures State() == Add(old(State()), e)
    {
      if e !in members {
        members := members + {e};
        tree := TreeAdd(tree, e);
      }
      ids := ids[e.id := e];
      intermediate := intermediate[e.priority := e];
    }

    method RemoveQce(e: Elem) returns (ok: bool)
      modifies this
      ensures ok == Remove(old(State()), e).Some?
      ensures State() == RemoveLeaves(old(State()), e)
    {
      if e.id !in ids {
        return false;
      }
      ids := ids - {e.id};
      if e.priority !in priorities {
        return false;
      }
      priorities := priorities - {e.priority};
      if e !in members {
        return false;
      }
      members := members - {e};
      var rest := TreeRemove(tree, e);
      if rest.None? {
        return false;
      }
      tree := rest.value;
      return true;
    }

    method InsertQce(e: Elem) returns (ok: bool)
      modifies this
      ensures ok == Insert(old(State()), e).Some?
      ensures State() == InsertLeaves(old(State()), e)
    {
      if e.id in ids {
        var cached := ids[e.id];
        if e.timestamp > cached.timestamp || (e.timestamp == cached.timestamp && e.priority != cached.priority) {
          ok := RemoveQce(cached);
          if ok {
            AddQce(e);
          }
        } else {
          ok := true;
        }
      } else if e.priority in priorities {
        ok := RemoveQce(priorities[e.priority]);
        if ok {
          AddQce(e);
        }
      } else {
        AddQce(e);
        ok := true;
      }
    }

    method ClearCache()
      modifies this
      ensures State() == EMPTY
    {
      ids, priorities, intermediate, tree, members := map[], map[], map[], [], {};
    }

    method TrimCache() returns (ok: bool)
      modifies this
      ensures ok == Trim(old(State()), capacity).Some?
      ensures State() == TrimLeaves(old(State()), capacity)
    {
      ghost var start := State();
      while |members| > capacity
        invariant TrimAlike(start, State(), capacity)
        decreases |tree|
      {
        if tree == [] {
          TrimEnd(State(), start, capacity);
          return false;
        }
        var last := tree[|tree| - 1];
        TrimStep(State(), start, last, capacity);
        var removed := RemoveQce(last);
        if !removed {
          return false;
        }
      }
      TrimEnd(State(), start, capacity);
      return true;
    }

    /** The merging part of a round, up to the first exception. */
    method MergeEntries(data: Data) returns (ok: bool)
      modifies this
      ensures ok == Merge(old(State()), data).Some?
      ensures ok ==> State() == Merge(old(State()), data).value
      ensures State() == if data.Entries? then MergeLeaves(old(State()), data.entries) else old(State())
    {
      if !data.Entries? {
        return false;
      }
      var entries := data.entries;
      for n := 0 to |entries|
        invariant MergeLeaves(old(State()), entries) == MergeLeaves(State(), entries[n..])
        invariant ReadAll(entries).Some? <==> ReadAll(entries[n..]).Some?
        invariant ReadAll(entries).Some? ==>
                    InsertAll(old(State()), ReadAll(entries).value) == InsertAll(State(), ReadAll(entries[n..]).value)
      {
        assert entries[n..][1..] == entries[n + 1..];
        var e := Read(entries[n]);
        if e.None? {
          return false;
        }
        ghost var rest := ReadAll(entries[n + 1..]);
        if rest.Some? {
          assert ReadAll(entries[n..]).value[1..] == rest.value;
        }
        var inserted := InsertQce(e.value);
        if !inserted {
          return false;
        }
      }
      priorities := priorities + intermediate;
      intermediate := map[];
      return true;
    }

    /** Any round, malformed or not, on any cache. On one whose id map and sorted set index each other
        they do so after a call that does not raise, and do not after one that does. No data and a
        round that fails leave nothing, also of a cache that an earlier exception left broken. */
    method DeserializeJsonDict(data: Data) returns (ok: bool)
      modifies this
      ensures ok == Deserialize(old(State()), data, capacity).Some?
      ensures State() == DeserializeLeaves(old(State()), data, capacity)
      ensures ok && !data.NoData? ==> |members| <= capacity
      ensures data.NoData? || Merge(old(State()), data).None? ==> State() == EMPTY
      ensures old(Indexed(State())) && ok ==> Indexed(State()) && (data.NoData? || |tree| <= capacity)
      ensures old(Indexed(State())) && !ok && capacity >= 0 ==> !Indexed(State())
    {
      if data.NoData? {
        ClearCache();
        return true;
      }
      ghost var start := State();
      var merged := MergeEntries(data);
      if merged {
        if Indexed(start) {
          MergeIndexed(start, data);
        }
      } else {
        ClearCache();
      }
      ghost var before := State();
      TrimWithin(before, capacity);
      ok := TrimCache();
      if Indexed(before) {
        TrimIndexed(before, capacity);
        TrimRaisesBroken(before, capacity);
      }
    }
  }

  // ---------------------------------------------------------------------------
  // The index survives every input

  lemma AddedAt(tree: seq<Elem>, e: Elem, n: nat, i: nat)
    requires n <= |tree| && i <= |tree|
    ensures (tree[..n] + [e] + tree[n..])[i] == if i < n then tree[i] else if i == n then e else tree[i - 1]
  {
  }

  lemma AddedPair(tree: seq<Elem>, e: Elem, n: nat, i: nat, j: nat)
    requires Sorted(tree) && DistinctIds(tree) && n <= |tree| && i < j <= |tree|
    requires forall k :: 0 <= k < |tree| ==> tree[k].id != e.id
    requires forall k :: 0 <= k < n ==> tree[k].priority <= e.priority
    requires forall k :: n <= k < |tree| ==> e.priority < tree[k].priority
    ensures var t := tree[..n] + [e] + tree[n..]; t[i].id != t[j].id && t[i].priority <= t[j].priority
  {
    AddedAt(tree, e, n, i);
    AddedAt(tree, e, n, j);
  }

  lemma AddedOrdered(tree: seq<Elem>, e: Elem, n: nat)
    requires Sorted(tree) && DistinctIds(tree) && n <= |tree|
    requires forall k :: 0 <= k < |tree| ==> tree[k].id != e.id
    requires forall k :: 0 <= k < n ==> tree[k].priority <= e.priority
    requires forall k :: n <= k < |tree| ==> e.priority < tree[k].priority
    ensures Sorted(tree[..n] + [e] + tree[n..]) && DistinctIds(tree[..n] + [e] + tree[n..])
  {
    var t := tree[..n] + [e] + tree[n..];
    forall i, j | 0 <= i < j < |t| ensures t[i].id != t[j].id && t[i].priority <= t[j].priority {
      AddedPair(tree, e, n, i, j);
    }
  }

  lemma AddedMembers(tree: seq<Elem>, e: Elem, n: nat, x: Elem)
    requires n <= |tree|
    ensures x in tree[..n] + [e] + tree[n..] <==> x in tree || x == e
  {
    assert tree == tree[..n] + tree[n..];
  }

  /** An element goes in after all those of its priority. */
  lemma TreeAddMeans(tree: seq<Elem>, e: Elem) returns (n: nat)
    requires Sorted(tree) && DistinctIds(tree) && forall x :: x in tree ==> x.id != e.id
    ensures n <= |tree| && TreeAdd(tree, e) == tree[..n] + [e] + tree[n..]
    ensures forall i :: 0 <= i < n ==> tree[i].priority <= e.priority
    ensures forall i :: n <= i < |tree| ==> e.priority < tree[i].priority
    ensures Sorted(TreeAdd(tree, e)) && DistinctIds(TreeAdd(tree, e))
    ensures forall x :: x in TreeAdd(tree, e) <==> x in tree || x == e
  {
    n := BisectLeft(tree, e.priority + 1);
    assert e !in tree;
    AddedOrdered(tree, e, n);
    forall x ensures x in TreeAdd(tree, e) <==> x in tree || x == e {
      AddedMembers(tree, e, n, x);
    }
  }

  lemma RemovedAt(tree: seq<Elem>, n: nat, i: nat)
    requires n < |tree| && i < |tree| - 1
    ensures (tree[..n] + tree[n + 1..])[i] == if i < n then tree[i] else tree[i + 1]
  {
  }

  lemma RemovedPair(tree: seq<Elem>, n: nat, i: nat, j: nat)
    requires Sorted(tree) && DistinctIds(tree) && n < |tree| && i < j < |tree| - 1
    ensures var t := tree[..n] + tree[n + 1..]; t[i].id != t[j].id && t[i].priority <= t[j].priority
  {
    RemovedAt(tree, n, i);
    RemovedAt(tree, n, j);
  }

  lemma RemovedMember(tree: seq<Elem>, n: nat, x: Elem)
    requires DistinctIds(tree) && n < |tree|
    ensures x in tree[..n] + tree[n + 1..] <==> x in tree && x != tree[n]
  {
    var t := tree[..n] + tree[n + 1..];
    if x in t {
      var i :| 0 <= i < |t| && t[i] == x;
      RemovedAt(tree, n, i);
    }
    if x in tree && x != tree[n] {
      var k :| 0 <= k < |tree| && tree[k] == x;
      RemovedAt(tree, n, if k < n then k else k - 1);
    }
  }

  lemma RemovedTree(tree: seq<Elem>, n: nat, t: seq<Elem>)
    requires Sorted(tree) && DistinctIds(tree) && n < |tree| && t == tree[..n] + tree[n + 1..]
    ensures Sorted(t) && DistinctIds(t)
    ensures forall x :: x in t <==> x in tree && x != tree[n]
  {
    forall i, j | 0 <= i < j < |t| ensures t[i].id != t[j].id && t[i].priority <= t[j].priority {
      RemovedPair(tree, n, i, j);
    }
    forall x ensures x in t <==> x in tree && x != tree[n] {
      RemovedMember(tree, n, x);
    }
  }

  lemma AddIndexed(q: Cache, e: Elem)
    requires Indexed(q) && e.id !in q.ids
    ensures Indexed(Add(q, e))
  {
    var _ := TreeAddMeans(q.tree, e);
  }

  lemma RemoveIndexed(q: Cache, e: Elem)
    requires Indexed(q) && Remove(q, e).Some?
    ensures Indexed(Remove(q, e).value) && e.id !in Remove(q, e).value.ids
  {
    var n := BisectLeft(q.tree, e.priority);
    RemovedTree(q.tree, n, q.tree[..n] + q.tree[n + 1..]);
  }

  lemma InsertIndexed(q: Cache, e: Elem)
    requires Indexed(q) && Insert(q, e).Some?
    ensures Indexed(Insert(q, e).value)
  {
    if e.id in q.ids {
      if Supersedes(e, q.ids[e.id]) {
        RemoveIndexed(q, q.ids[e.id]);
        AddIndexed(Remove(q, q.ids[e.id]).value, e);
      }
    } else if e.priority in q.priorities {
      RemoveIndexed(q, q.priorities[e.priority]);
      AddIndexed(Remove(q, q.priorities[e.priority]).value, e);
    } else {
      AddIndexed(q, e);
    }
  }

  lemma {:induction false} InsertAllIndexed(q: Cache, es: seq<Elem>)
    requires Indexed(q) && InsertAll(q, es).Some?
    ensures Indexed(InsertAll(q, es).value)
    decreases |es|
  {
    if es != [] {
      InsertIndexed(q, es[0]);
      InsertAllIndexed(Insert(q, es[0]).value, es[1..]);
    }
  }

  lemma MergeIndexed(q: Cache, data: Data)
    requires Indexed(q) && Merge(q, data).Some?
    ensures Indexed(Merge(q, data).value)
  {
    InsertAllIndexed(q, ReadAll(data.entries).value);
  }

  lemma {:induction false} TrimWithin(q: Cache, capacity: int)
    ensures Trim(q, capacity).Some? ==> |Trim(q, capacity).value.members| <= capacity
    ensures q == EMPTY ==> TrimLeaves(q, capacity) == EMPTY
    decreases |q.tree|
  {
    if |q.members| > capacity && q.tree != [] && Remove(q, q.tree[|q.tree| - 1]).Some? {
      TrimWithin(Remove(q, q.tree[|q.tree| - 1]).value, capacity);
    }
  }

  lemma {:induction false} DistinctSize(tree: seq<Elem>)
    requires DistinctIds(tree)
    ensures |Elems(tree)| == |tree|
    decreases |tree|
  {
    if tree != [] {
      var n := |tree| - 1;
      DistinctSize(tree[..n]);
      assert tree == tree[..n] + [tree[n]];
      assert tree[n] !in tree[..n];
      assert Elems(tree) == Elems(tree[..n]) + {tree[n]};
    }
  }

  lemma TrimOnce(q: Cache, next: Cache, capacity: int)
    requires |q.members| > capacity && q.tree != [] && Remove(q, q.tree[|q.tree| - 1]) == Some(next)
    ensures Trim(q, capacity) == Trim(next, capacity)
  {
  }

  lemma TrimNever(q: Cache, capacity: int)
    requires |q.members| > capacity && q.tree != [] && Remove(q, q.tree[|q.tree| - 1]).None?
    ensures Trim(q, capacity).None?
  {
  }

  lemma {:induction false} TrimIndexed(q: Cache, capacity: int)
    requires Indexed(q)
    ensures Trim(q, capacity).Some? ==> Indexed(Trim(q, capacity).value) && |Trim(q, capacity).value.tree| <= capacity
    ensures q == EMPTY && Trim(q, capacity).Some? ==> Trim(q, capacity).value == EMPTY
    decreases |q.tree|
  {
    DistinctSize(q.tree);
    if |q.members| > capacity && q.tree != [] {
      var last := q.tree[|q.tree| - 1];
      if Remove(q, last).Some? {
        var next := Remove(q, last).value;
        TrimOnce(q, next, capacity);
        RemoveIndexed(q, last);
        TrimIndexed(next, capacity);
      } else {
        TrimNever(q, capacity);
      }
    }
  }

  /** An exception that escapes from trimming leaves an element in the sorted set that the id map has lost. */
  lemma {:induction false} TrimRaisesBroken(q: Cache, capacity: int)
    requires Indexed(q)
    ensures Trim(q, capacity).None? && capacity >= 0 ==> !Indexed(TrimLeaves(q, capacity))
    decreases |q.tree|
  {
    DistinctSize(q.tree);
    if |q.members| > capacity && q.tree != [] {
      var last := q.tree[|q.tree| - 1];
      assert last in q.tree;
      if Remove(q, last).Some? {
        RemoveIndexed(q, last);
        TrimRaisesBroken(Remove(q, last).value, capacity);
      } else {
        assert last.id !in RemoveLeaves(q, last).ids && last in RemoveLeaves(q, last).tree;
      }
    }
  }
}
