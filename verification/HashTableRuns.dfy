/** Whole runs of the hash table against a plain map, and exactly where deletions break the agreement. */
module HashTableRuns {
  import opened Options
  import opened Probing
  import opened Growth
  import opened HashTable

  // ----- The reference: a plain map --------------------------------------------------------------

  /** `PutNew` is the broker's get-or-create: a get, and a put only when it answers NULL. */
  datatype Op<+K, +V> = PutOp(key: K, val: V) | GetOp(key: K) | DelOp(key: K) | PutNewOp(key: K, val: V)

  datatype Reply<+V> = Status(code: int) | Answer(v: Option<V>)

  function MapGet<K(==), V>(m: map<K, V>, k: K): Option<V> {
    if k in m then Some(m[k]) else None
  }

  ghost function MapStep<K, V>(m: map<K, V>, op: Op<K, V>): (map<K, V>, Reply<V>) {
    match op
    case PutOp(k, v) => (m[k := v], Status(OK))
    case GetOp(k) => (m, Answer(MapGet(m, k)))
    case DelOp(k) => (m - {k}, Status(if k in m then OK else ERR))
    case PutNewOp(k, v) => if k in m then (m, Answer(Some(m[k]))) else (m[k := v], Answer(Some(v)))
  }

  ghost function MapRun<K, V>(m: map<K, V>, ops: seq<Op<K, V>>): (map<K, V>, seq<Reply<V>>) {
    if ops == [] then (m, [])
    else
      var (before, replies) := MapRun(m, ops[..|ops| - 1]);
      var (after, reply) := MapStep(before, ops[|ops| - 1]);
      (after, replies + [reply])
  }

  lemma MapRunNothing<K, V>()
    ensures MapRun<K, V>(map[], []) == (map[], [])
  {
  }

  lemma MapRunNext<K, V>(ops: seq<Op<K, V>>, i: nat)
    requires i < |ops|
    ensures
      var before, step := MapRun(map[], ops[..i]), MapStep(MapRun(map[], ops[..i]).0, ops[i]);
      MapRun(map[], ops[..i + 1]) == (step.0, before.1 + [step.1])
  {
    assert ops[..i + 1][..i] == ops[..i];
  }

  // ----- Put, then delete: when is the key gone? -------------------------------------------------

  /** After a put of `k` on unique keys, a delete of `k` makes the next get answer NULL exactly when the put had no
      free slot ahead of a stored `k`. Otherwise the get answers the value from before the put. */
  lemma PutDelGet<K(!new), V>(hash: K -> nat, s: seq<Slot<K, V>>, k: K, v: V, t: seq<Slot<K, V>>)
    requires PutDone(hash, s, k, v, t) && Unique(s)
    requires !NoRoom(s, hash, k) ==> PlacedAtStop(hash, s, k, v, t)
    ensures Lookup(t, hash, k) == Some(v)
    ensures Lookup(Deleted(t, hash, k), hash, k) == if NoSlotAhead(s, hash, k) then None else Lookup(s, hash, k)
  {
    ContentsIsLookup(t, hash);
    assert k in Contents(t, hash);
    DeletedIsWf(t, hash, k);
    var u := Deleted(t, hash, k);
    if NoSlotAhead(s, hash, k) {
      DelOnUniqueKeys(t, hash, k);
      FoundIffHeld(u, hash, k);
    } else {
      StaleEntrySurvives(hash, s, k, v, t);
    }
  }

  lemma StaleEntrySurvives<K(!new), V>(hash: K -> nat, s: seq<Slot<K, V>>, k: K, v: V, t: seq<Slot<K, V>>)
    requires Wf(s, hash) && !NoSlotAhead(s, hash, k)
    requires t == s[StopSlot(s, hash, k).value := Used(k, v)]
    ensures Lookup(Deleted(t, hash, k), hash, k) == Lookup(s, hash, k)
  {
    var n := |s|;
    var home := Home(hash, k, n);
    var d := FirstStop(s, home, k, 0);
    var p := At(home, d, n);
    assert Matches(t[p], k);
    assert FirstMatch(t, home, k, 0) == d by {
      assert forall j: nat {:trigger At(home, j, n)} :: j < d ==> At(home, j, n) != p;
    }
    assert Deleted(t, hash, k) == s;
  }

  // Two keys that share a home slot: put the first, put the second, delete the first.

  function Nothing<K(!new), V(!new)>(): seq<Slot<K, V>> {
    seq(INITIAL_SIZE, _ => Free)
  }

  lemma FirstStops<K(!new), V(!new)>(hash: K -> nat, a: K, va: V)
    ensures
      var s0: seq<Slot<K, V>>, home := Nothing(), Home(hash, a, INITIAL_SIZE);
      && Count(s0) == 0 && StopSlot(s0, hash, a) == Some(home) && home < INITIAL_SIZE
      && Count(s0[home := Used(a, va)]) == 1
  {
    var s0: seq<Slot<K, V>>, home := Nothing(), Home(hash, a, INITIAL_SIZE);
    CountFree(s0);
    CountUpdate(s0, home, Used(a, va));
    assert At(home, 0, INITIAL_SIZE) == home;
    assert FirstStop(s0, home, a, 0) == 0;
  }

  lemma SecondStops<K(!new), V(!new)>(hash: K -> nat, a: K, b: K, va: V, vb: V)
    requires a != b && Home(hash, a, INITIAL_SIZE) == Home(hash, b, INITIAL_SIZE)
    ensures
      var s0: seq<Slot<K, V>>, home := Nothing(), Home(hash, a, INITIAL_SIZE);
      var s1, q := s0[home := Used(a, va)], At(home, 1, INITIAL_SIZE);
      && q < INITIAL_SIZE && q != home && StopSlot(s1, hash, b) == Some(q)
      && Count(s1[q := Used(b, vb)]) == 2
  {
    var s0: seq<Slot<K, V>>, home := Nothing(), Home(hash, a, INITIAL_SIZE);
    var s1, q := s0[home := Used(a, va)], At(home, 1, INITIAL_SIZE);
    FirstStops(hash, a, va);
    assert At(home, 0, INITIAL_SIZE) == home;
    assert FirstStop(s1, home, b, 0) == 1;
    CountUpdate(s1, q, Used(b, vb));
  }

  /** Deleting the first leaves its slot free, ahead of the second. */
  lemma DeletionFreesAhead<K(!new), V(!new)>(hash: K -> nat, a: K, b: K, va: V, vb: V)
    requires a != b && Home(hash, a, INITIAL_SIZE) == Home(hash, b, INITIAL_SIZE)
    ensures
      var s0: seq<Slot<K, V>>, home := Nothing(), Home(hash, a, INITIAL_SIZE);
      var q := At(home, 1, INITIAL_SIZE);
      var s2 := s0[home := Used(a, va)][q := Used(b, vb)];
      && Lookup(s2, hash, a).Some? && Deleted(s2, hash, a) == s2[home := Free]
      && !NoSlotAhead(s2[home := Free], hash, b) && b in KeysOf(s2[home := Free]) && Unique(s2[home := Free])
  {
    var s0: seq<Slot<K, V>>, home := Nothing(), Home(hash, a, INITIAL_SIZE);
    var q := At(home, 1, INITIAL_SIZE);
    var s2 := s0[home := Used(a, va)][q := Used(b, vb)];
    SecondStops(hash, a, b, va, vb);
    assert At(home, 0, INITIAL_SIZE) == home;
    assert FirstMatch(s2, home, a, 0) == 0;
    var s3 := s2[home := Free];
    CountUpdate(s2, home, Free);
    assert FirstStop(s3, home, b, 0) == 0;
    assert s3[q].Used? && s3[q].key == b;
  }

  /** The state in which a put has a free slot ahead of its key is reached by any two keys that share a home slot. */
  method CollidingKeysLeaveSlotAhead<K(!new), V(!new)>(h: Hashmap<K, V>, a: K, b: K, va: V, vb: V)
    requires h.Valid() && h.tableSize == INITIAL_SIZE && h.View() == seq(INITIAL_SIZE, _ => Free)
    requires a != b && Home(h.hash, a, INITIAL_SIZE) == Home(h.hash, b, INITIAL_SIZE)
    modifies h, h.entries
    ensures h.Valid() && Unique(h.View()) && b in KeysOf(h.View()) && !NoSlotAhead(h.View(), h.hash, b)
  {
    hide PutDone, NoNewEntries, Settled, Contents, Tight, Wf, SlotOrder, Count, PutOf, Unique, NoSlotAhead, KeysOf, StopSlot, Deleted,
      Lookup, Spread;
    FirstStops<K, V>(h.hash, a, va);
    SecondStops(h.hash, a, b, va, vb);
    DeletionFreesAhead(h.hash, a, b, va, vb);
    var st, e := h.Put(a, va, {}, 0);
    st, e := h.Put(b, vb, {}, 0);
    st := h.Del(a);
  }

  // ----- Whole runs ------------------------------------------------------------------------------

  predicate NoDel<K, V>(ops: seq<Op<K, V>>) { forall i :: 0 <= i < |ops| ==> !ops[i].DelOp? }
  predicate NoBlindPut<K, V>(ops: seq<Op<K, V>>) { forall i :: 0 <= i < |ops| ==> !ops[i].PutOp? }
  predicate KeysIn<K(!new), V>(ops: seq<Op<K, V>>, keys: set<K>) { forall i :: 0 <= i < |ops| ==> ops[i].key in keys }

  /** The size reached after `room` doublings of the initial one spreads `keys` and can be allocated. */
  ghost predicate SpreadFits<K(!new)>(keys: set<K>, hash: K -> nat, room: nat, limit: nat) {
    Spread(keys, hash, Scaled(INITIAL_SIZE, room)) && Scaled(INITIAL_SIZE, room) <= limit
  }

  /** Keys with pairwise distinct hashes below `range` always fit in a memory of less than twice that range
      (or twice what halves their load): the recursion of put and rehash cannot go on past it. */
  lemma DistinctHashesFit<K(!new)>(keys: set<K>, hash: K -> nat, range: nat, limit: nat) returns (room: nat)
    requires forall a :: a in keys ==> hash(a) < range
    requires forall a, b {:trigger hash(a), hash(b)} :: a in keys && b in keys && hash(a) == hash(b) ==> a == b
    requires limit >= INITIAL_SIZE && limit >= 2 * range && limit >= 2 * (2 * |keys| + 2)
    ensures SpreadFits(keys, hash, room, limit)
  {
    var bound := if range >= 2 * |keys| + 2 then range else 2 * |keys| + 2;
    room := DoublingReaches(INITIAL_SIZE, bound);
    DistinctHashesSpread(keys, hash, range, Scaled(INITIAL_SIZE, room));
  }

  /** The array after an operation; none when it needs one that cannot be allocated. */
  ghost function ArrayAfter<K(!new), V>(hash: K -> nat, limit: nat, op: Op<K, V>, s: seq<Slot<K, V>>): Option<seq<Slot<K, V>>>
    requires |s| >= WINDOW
  {
    match op
    case PutOp(k, v) => PutOf(hash, limit, s, k, v)
    case PutNewOp(k, v) => if k in Contents(s, hash) then Some(s) else PutOf(hash, limit, s, k, v)
    case DelOp(k) => Some(Deleted(s, hash, k))
    case GetOp(_) => Some(s)
  }

  /** What one operation that succeeds does to the array: `t` is determined, and if a put made it, it is such as puts make. */
  ghost predicate OpDone<K(!new), V>(hash: K -> nat, limit: nat, op: Op<K, V>, s: seq<Slot<K, V>>, t: seq<Slot<K, V>>) {
    && Wf(s, hash) && ArrayAfter(hash, limit, op, s) == Some(t)
    && (op.PutOp? || (op.PutNewOp? && op.key !in Contents(s, hash)) ==> PutDone(hash, s, op.key, op.val, t))
  }

  /** One operation. `clean` says that a put of a stored key, if this is one, had no free slot ahead of it. */
  method Step<K(!new), V(!new)>(h: Hashmap<K, V>, op: Op<K, V>, ghost keys: set<K>, ghost room: nat)
    returns (reply: Reply<V>, ok: bool, ghost clean: bool, ghost e: nat)
    requires h.Valid()
    modifies h, h.entries
    ensures h.Valid() && (h.entries == old(h.entries) || fresh(h.entries))
    ensures ok ==> OpDone(h.hash, h.limit, op, old(h.View()), h.View())
    ensures old(|h.View()|) >= WINDOW && (h.reliable && !ok ==> ArrayAfter(h.hash, h.limit, op, old(h.View())).None?)
    ensures op.PutOp? ==> clean == old(NoSlotAhead(h.View(), h.hash, op.key))
    ensures !op.PutOp? ==> clean
    ensures !op.DelOp? && old(Tight(h.View(), h.hash)) && ok ==> Tight(h.View(), h.hash)
    ensures ok && old(Unique(h.View())) ==>
              (Contents(h.View(), h.hash), reply) == MapStep(old(Contents(h.View(), h.hash)), op)
    ensures ok && old(Unique(h.View())) ==> (clean <==> Unique(h.View()))
    ensures ok ==> h.tableSize == Scaled(old(h.tableSize), e)
    ensures op.key in keys && old(Settled(h.View(), h.hash, keys) && h.CanSpread(keys, room)) ==>
              ok && e <= room && Settled(h.View(), h.hash, keys)
  {
    hide Wf, Unique, Tight, NoSlotAhead, NoRoom, NoNewEntries, Spread, Scaled, Count, SlotOrder, KeysOf, Settled, Contents;
    ghost var s := h.View();
    e, clean, ok := 0, true, true;
    ScaledSteps(h.tableSize, 0);
    match op
    case GetOp(k) =>
      var r := h.Get(k);
      reply := Answer(r);
    case DelOp(k) =>
      if Unique(s) { DelOnUniqueKeys(s, h.hash, k); }
      if Settled(s, h.hash, keys) { DeletedStaysSettled(s, h.hash, k, keys); }
      ContentsIsLookup(s, h.hash);
      var st := h.Del(k);
      AbsentIsMinus(Contents(s, h.hash), k);
      reply := Status(st);
    case PutOp(k, v) =>
      var st;
      clean := NoSlotAhead(s, h.hash, k);
      st, e := h.Put(k, v, keys, room);
      ok := st == OK;
      if ok && Unique(s) { PutOnUniqueKeys(h.hash, s, k, v, h.View()); }
      reply := Status(st);
    case PutNewOp(k, v) =>
      ContentsIsLookup(s, h.hash);
      var r := h.Get(k);
      if r.Some? {
        reply := Answer(r);
      } else {
        var st;
        AbsentHasNoSlotAhead(s, h.hash, k);
        st, e := h.Put(k, v, keys, room);
        ok := st == OK;
        if ok && Unique(s) { PutOnUniqueKeys(h.hash, s, k, v, h.View()); }
        reply := Answer(Some(v));
      }
  }

  lemma AbsentIsMinus<K, V>(m: map<K, V>, k: K)
    ensures k !in m ==> m - {k} == m
  {
  }

  lemma AbsentHasNoSlotAhead<K(!new), V>(s: seq<Slot<K, V>>, hash: K -> nat, k: K)
    requires Wf(s, hash) && k !in Contents(s, hash)
    ensures NoSlotAhead(s, hash, k)
  {
    ContentsIsLookup(s, hash);
  }

  lemma DeletedStaysSettled<K(!new), V>(s: seq<Slot<K, V>>, hash: K -> nat, k: K, keys: set<K>)
    requires Wf(s, hash) && Settled(s, hash, keys)
    ensures Settled(Deleted(s, hash, k), hash, keys)
  {
  }

  /** No put of a stored key had a free slot ahead of it. */
  ghost predicate CleanRun<K(!new), V>(hash: K -> nat, ops: seq<Op<K, V>>, views: seq<seq<Slot<K, V>>>)
    requires |views| >= |ops|
  {
    forall i {:trigger ops[i]} :: 0 <= i < |ops| && ops[i].PutOp? ==> |views[i]| >= WINDOW && NoSlotAhead(views[i], hash, ops[i].key)
  }

  ghost predicate AllUnique<K(!new), V>(views: seq<seq<Slot<K, V>>>) {
    forall i :: 0 <= i < |views| ==> Unique(views[i])
  }

  /** `views` are the arrays before the first operation and after each. */
  ghost predicate History<K(!new), V>(hash: K -> nat, limit: nat, ops: seq<Op<K, V>>, views: seq<seq<Slot<K, V>>>) {
    && |views| == |ops| + 1
    && views[0] == seq(INITIAL_SIZE, _ => Free)
    && forall i {:trigger ops[i]} :: 0 <= i < |ops| ==> OpDone(hash, limit, ops[i], views[i], views[i + 1])
  }

  lemma HistoryGrows<K(!new), V>(hash: K -> nat, limit: nat, ops: seq<Op<K, V>>, op: Op<K, V>,
                                 views: seq<seq<Slot<K, V>>>, t: seq<Slot<K, V>>)
    requires History(hash, limit, ops, views) && OpDone(hash, limit, op, views[|ops|], t)
    ensures History(hash, limit, ops + [op], views + [t])
  {
    hide OpDone;
    var n := |ops|;
    forall i | 0 <= i < n + 1 ensures OpDone(hash, limit, (ops + [op])[i], (views + [t])[i], (views + [t])[i + 1]) {
      if i < n { assert OpDone(hash, limit, ops[i], views[i], views[i + 1]); }
    }
  }

  lemma AllUniqueGrows<K(!new), V>(views: seq<seq<Slot<K, V>>>, t: seq<Slot<K, V>>)
    ensures AllUnique(views + [t]) <==> AllUnique(views) && Unique(t)
  {
    hide Unique;
    if AllUnique(views + [t]) {
      forall i | 0 <= i < |views| ensures Unique(views[i]) { assert (views + [t])[i] == views[i]; }
      assert Unique((views + [t])[|views|]);
    }
  }

  lemma CleanRunGrows<K(!new), V>(hash: K -> nat, ops: seq<Op<K, V>>, op: Op<K, V>, views: seq<seq<Slot<K, V>>>, t: seq<Slot<K, V>>)
    requires |views| == |ops| + 1 && |views[|ops|]| >= WINDOW
    ensures CleanRun(hash, ops + [op], views + [t]) <==>
              CleanRun(hash, ops, views) && (op.PutOp? ==> NoSlotAhead(views[|ops|], hash, op.key))
  {
    hide NoSlotAhead;
    var n := |ops|;
    assert (ops + [op])[n] == op && (views + [t])[n] == views[n];
    if CleanRun(hash, ops + [op], views + [t]) {
      forall i | 0 <= i < n && ops[i].PutOp? ensures |views[i]| >= WINDOW && NoSlotAhead(views[i], hash, ops[i].key) {
        assert (ops + [op])[i] == ops[i] && (views + [t])[i] == views[i];
      }
    }
  }

  lemma OpDoneIsLong<K(!new), V>(hash: K -> nat, limit: nat, op: Op<K, V>, s: seq<Slot<K, V>>, t: seq<Slot<K, V>>)
    requires OpDone(hash, limit, op, s, t)
    ensures |s| >= WINDOW
  {
  }

  lemma EmptyHistory<K(!new), V>(hash: K -> nat, limit: nat, s: seq<Slot<K, V>>)
    requires s == seq(INITIAL_SIZE, _ => Free)
    ensures History(hash, limit, [], [s]) && CleanRun(hash, [], [s]) && AllUnique([s])
  {
  }

  /** In every run the table is at most half full after each operation. */
  lemma {:induction false} HalfFull<K(!new), V>(hash: K -> nat, limit: nat, ops: seq<Op<K, V>>, views: seq<seq<Slot<K, V>>>, i: nat)
    requires History(hash, limit, ops, views) && i <= |ops|
    ensures |views[i]| >= INITIAL_SIZE && Count(views[i]) <= |views[i]| / 2
  {
    if i == 0 {
      hide Count;
      CountFree(views[0]);
    } else {
      hide PutDone, Wf, Contents, Count, PutOf, Deleted;
      HalfFull(hash, limit, ops, views, i - 1);
      var op, s := ops[i - 1], views[i - 1];
      assert OpDone(hash, limit, op, s, views[i]);
      match op
      case PutOp(k, v) => PutIsHalfFull(hash, limit, s, k, v);
      case PutNewOp(k, v) => if k !in Contents(s, hash) { PutIsHalfFull(hash, limit, s, k, v); }
      case DelOp(k) => DeletedIsFewer(s, hash, k);
      case GetOp(_) =>
    }
  }

  /** The operations fix the arrays. */
  lemma {:induction false} HistoryIsFixed<K(!new), V>(hash: K -> nat, limit: nat, ops: seq<Op<K, V>>,
                                                      v: seq<seq<Slot<K, V>>>, w: seq<seq<Slot<K, V>>>, i: nat)
    requires History(hash, limit, ops, v) && History(hash, limit, ops, w) && i <= |ops|
    ensures v[i] == w[i]
  {
    if i > 0 {
      hide ArrayAfter, PutDone, Wf, Contents;
      HistoryIsFixed(hash, limit, ops, v, w, i - 1);
      assert OpDone(hash, limit, ops[i - 1], v[i - 1], v[i]) && OpDone(hash, limit, ops[i - 1], w[i - 1], w[i]);
    }
  }

  /** The run stopped where its next operation needed an array that cannot be allocated. */
  ghost predicate Stuck<K(!new), V>(hash: K -> nat, limit: nat, ops: seq<Op<K, V>>, views: seq<seq<Slot<K, V>>>) {
    && 0 < |views| <= |ops|
    && History(hash, limit, ops[..|views| - 1], views)
    && |views[|views| - 1]| >= WINDOW
    && ArrayAfter(hash, limit, ops[|views| - 1], views[|views| - 1]).None?
  }

  /** Every run from `hashmap_create`, seen through the arrays it passes, each fixed by the one before: keys stay unique
      exactly as long as no put of a stored key has a free slot ahead of it, and then the table answers like a map. Runs
      without deletions, and runs whose puts are all put-if-absent, never meet such a put. The run completes if some size
      within memory spreads the keys it uses; in reliable memory it stops only where the next array cannot be allocated. */
  method Run<K(!new), V(!new)>(hash: K -> nat, limit: nat, reliable: bool, ops: seq<Op<K, V>>, ghost keys: set<K>, ghost room: nat)
    returns (h: Hashmap?<K, V>, replies: seq<Reply<V>>, ok: bool, ghost views: seq<seq<Slot<K, V>>>)
    ensures ok ==> h != null && fresh(h) && h.Valid() && h.hash == hash
    ensures ok ==> History(hash, limit, ops, views) && views[|ops|] == h.View()
    ensures reliable && !ok ==> limit < INITIAL_SIZE || Stuck(hash, limit, ops, views)
    ensures ok ==> (CleanRun(hash, ops, views) <==> AllUnique(views))
    ensures ok && CleanRun(hash, ops, views) ==> (Contents(h.View(), hash), replies) == MapRun(map[], ops)
    ensures ok && CleanRun(hash, ops, views) ==> h.size == |MapRun(map[], ops).0|
    ensures ok ==> exists e :: h.tableSize == Scaled(INITIAL_SIZE, e)
    ensures ok && (NoDel(ops) || NoBlindPut(ops)) ==> CleanRun(hash, ops, views)
    ensures reliable && KeysIn(ops, keys) && SpreadFits(keys, hash, room, limit) ==> ok
  {
    hide Wf, Unique, Tight, NoSlotAhead, NoRoom, NoNewEntries, Spread, Scaled, Count, SlotOrder, KeysOf, Settled, Contents, OpDone,
      History, CleanRun, AllUnique, PutDone, ArrayAfter, MapRun, MapStep;
    ghost var helps := reliable && KeysIn(ops, keys) && SpreadFits(keys, hash, room, limit);
    ScaledSteps(INITIAL_SIZE, 0);
    ScaledSteps(INITIAL_SIZE, room);
    replies, ok, views := [], false, [];
    h := Hashmap.Create(hash, limit, reliable);
    if h == null { return; }
    ok, views := true, [h.View()];
    ghost var e: nat := 0;
    EmptyHistory(hash, limit, h.View());
    MapRunNothing<K, V>();
    assert ops[..0] == [];
    for i := 0 to |ops|
      invariant h.Valid() && fresh(h.entries) && h.hash == hash && ok
      invariant History(hash, limit, ops[..i], views) && |views| == i + 1 && views[i] == h.View()
      invariant CleanRun(hash, ops[..i], views) <==> AllUnique(views)
      invariant AllUnique(views) ==> Unique(h.View()) && (Contents(h.View(), hash), replies) == MapRun(map[], ops[..i])
      invariant NoDel(ops) || NoBlindPut(ops) ==> AllUnique(views)
      invariant NoDel(ops) ==> Tight(h.View(), hash)
      invariant h.tableSize == Scaled(INITIAL_SIZE, e)
      invariant helps ==> e <= room && Settled(h.View(), hash, keys)
    {
      assert ops[..i + 1] == ops[..i] + [ops[i]];
      MapRunNext(ops, i);
      ghost var s := h.View();
      var reply;
      ghost var c;
      ghost var f: nat;
      if NoDel(ops) { TightHasNoSlotAhead(s, hash, ops[i].key); }
      if helps { ScaledAdd(INITIAL_SIZE, e, room - e); }
      reply, ok, c, f := Step(h, ops[i], keys, if helps then room - e else 0);
      replies := replies + [reply];
      if !ok { return; }
      OpDoneIsLong(hash, limit, ops[i], s, h.View());
      HistoryGrows(hash, limit, ops[..i], ops[i], views, h.View());
      AllUniqueGrows(views, h.View());
      CleanRunGrows(hash, ops[..i], ops[i], views, h.View());
      views := views + [h.View()];
      ScaledAdd(INITIAL_SIZE, e, f);
      e := e + f;
    }
    assert ops[..|ops|] == ops;
    if AllUnique(views) { CountIsCardinality(h.View()); ContentsIsLookup(h.View(), hash); }
  }
}
