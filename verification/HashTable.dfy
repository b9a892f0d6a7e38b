/** The open-addressed table of src/hashmap.c, updated in place. */
module HashTable {
  import opened Options
  import opened Probing
  import opened Growth
  import B = Bytes

  const OK := 0
  const ERR := -1
  const FULL := -2
  const INITIAL_SIZE: nat := 256

  // ----- What one put does to the slot array -----------------------------------------------------

  /** An insertion of `k` finds no slot: the load cap is reached or the window is exhausted. */
  ghost predicate NoRoom<K(!new), V>(s: seq<Slot<K, V>>, hash: K -> nat, k: K)
    requires |s| >= WINDOW
  {
    Count(s) >= |s| / 2 || StopSlot(s, hash, k).None?
  }

  /** The insertion of `k` does not stop at a free slot while `k` is stored further on. */
  ghost predicate NoSlotAhead<K(!new), V>(s: seq<Slot<K, V>>, hash: K -> nat, k: K)
    requires |s| >= WINDOW
  {
    NoRoom(s, hash, k) || k !in KeysOf(s) || s[StopSlot(s, hash, k).value].Used?
  }

  /** The array as `hashmap_rehash` reads it, when the put must grow the table first. */
  ghost function Before<K(!new), V>(s: seq<Slot<K, V>>, hash: K -> nat, k: K): map<K, V>
    requires |s| >= WINDOW
  {
    if NoRoom(s, hash, k) then SlotOrder(s, |s|) else Contents(s, hash)
  }

  /** `t` is what a successful put of `k`, `v` leaves of the array `s`. */
  ghost predicate PutDone<K(!new), V>(hash: K -> nat, s: seq<Slot<K, V>>, k: K, v: V, t: seq<Slot<K, V>>) {
    && Wf(s, hash) && Wf(t, hash)
    && Contents(t, hash) == Before(s, hash, k)[k := v]
    && KeysOf(t) == KeysOf(s) + {k}
    && (Unique(s) ==> (Unique(t) <==> NoSlotAhead(s, hash, k)))
    && (NoRoom(s, hash, k) ==> Unique(t) && Tight(t, hash))
    && (Tight(s, hash) ==> Tight(t, hash))
  }

  /** `t` is `s` with the entry written where the probe for `k` stops. */
  ghost predicate PlacedAtStop<K(!new), V>(hash: K -> nat, s: seq<Slot<K, V>>, k: K, v: V, t: seq<Slot<K, V>>) {
    && |s| >= WINDOW && StopSlot(s, hash, k).Some?
    && t == s[StopSlot(s, hash, k).value := Used(k, v)]
  }

  /** Every entry of `t` was in `s`: all that is left when memory runs out in the middle of a rehash. */
  ghost predicate NoNewEntries<K(!new), V>(s: seq<Slot<K, V>>, t: seq<Slot<K, V>>) {
    forall j {:trigger t[j]} :: 0 <= j < |t| && t[j].Used? ==> t[j] in s
  }

  /** On unique keys a put is a map update, and keys stay unique exactly when no free slot lies ahead of `k`. */
  lemma PutOnUniqueKeys<K(!new), V>(hash: K -> nat, s: seq<Slot<K, V>>, k: K, v: V, t: seq<Slot<K, V>>)
    requires PutDone(hash, s, k, v, t) && Unique(s)
    ensures Contents(t, hash) == Contents(s, hash)[k := v]
    ensures Unique(t) <==> NoSlotAhead(s, hash, k)
  {
    SlotOrderIsContents(s, hash);
  }

  /** Without deletions the put of a stored key always reaches that key. */
  lemma TightHasNoSlotAhead<K(!new), V>(s: seq<Slot<K, V>>, hash: K -> nat, k: K)
    requires Wf(s, hash) && Tight(s, hash)
    ensures NoSlotAhead(s, hash, k)
  {
    if k in KeysOf(s) { TightReachesKey(s, hash, k); }
  }

  lemma PlaceIsPut<K(!new), V>(hash: K -> nat, s: seq<Slot<K, V>>, k: K, v: V, p: nat)
    requires Wf(s, hash) && StopSlot(s, hash, k) == Some(p) && Count(s) < |s| / 2
    ensures p < |s| && PutDone(hash, s, k, v, s[p := Used(k, v)])
  {
    PlaceUpdatesMap(s, hash, k, v, p);
    if Unique(s) { PlaceKeepsUniqueIff(s, hash, k, v, p); }
    if Tight(s, hash) { PlaceKeepsTight(s, hash, k, v, p); }
  }

  /** No put succeeds that would be the ninth of keys with one hash, however far it grows the table. */
  lemma NinthColliderIsNeverPut<K(!new), V>(hash: K -> nat, s: seq<Slot<K, V>>, k: K, v: V, t: seq<Slot<K, V>>, keys: set<K>)
    requires |keys| > WINDOW && keys <= KeysOf(s) + {k}
    requires forall a, b :: a in keys && b in keys ==> hash(a) == hash(b)
    ensures !PutDone(hash, s, k, v, t)
  {
    if PutDone(hash, s, k, v, t) { NineCollidersNeverFit(t, hash, keys); }
  }

  lemma FullIsNotSpread<K(!new), V>(s: seq<Slot<K, V>>, hash: K -> nat, keys: set<K>, k: K)
    requires Wf(s, hash) && Settled(s, hash, keys) && k in keys && NoRoom(s, hash, k)
    ensures !Spread(keys, hash, |s|)
  {
    if Spread(keys, hash, |s|) { SpreadIsNeverFull(s, hash, keys, k); }
  }

  // ----- Rebuilding the array --------------------------------------------------------------------

  /** `t` holds exactly the first `i` slots of `s`, later ones overwriting earlier ones. */
  ghost predicate Rebuilt<K(!new), V>(hash: K -> nat, s: seq<Slot<K, V>>, i: nat, t: seq<Slot<K, V>>)
    requires i <= |s|
  {
    && Wf(t, hash) && Unique(t) && Tight(t, hash)
    && Contents(t, hash) == SlotOrder(s, i)
    && KeysOf(t) == KeysOf(s[..i])
    && NoNewEntries(s, t)
  }

  lemma RebuiltSkips<K(!new), V>(hash: K -> nat, s: seq<Slot<K, V>>, i: nat, t: seq<Slot<K, V>>)
    requires i < |s| && s[i].Free? && Rebuilt(hash, s, i, t)
    ensures Rebuilt(hash, s, i + 1, t)
  {
  }

  lemma RebuiltNext<K(!new), V>(hash: K -> nat, s: seq<Slot<K, V>>, i: nat, t: seq<Slot<K, V>>, u: seq<Slot<K, V>>)
    requires i < |s| && s[i].Used? && Rebuilt(hash, s, i, t)
    requires PutDone(hash, t, s[i].key, s[i].val, u) && NoNewEntries(t + [s[i]], u)
    ensures Rebuilt(hash, s, i + 1, u)
  {
    KeysOfNext(s, i);
    TightHasNoSlotAhead(t, hash, s[i].key);
    PutOnUniqueKeys(hash, t, s[i].key, s[i].val, u);
  }

  lemma EmptyIsRebuilt<K(!new), V>(hash: K -> nat, s: seq<Slot<K, V>>, t: seq<Slot<K, V>>)
    requires |t| >= WINDOW && forall j :: 0 <= j < |t| ==> t[j].Free?
    ensures Wf(t, hash) && Rebuilt(hash, s, 0, t) && Count(t) == 0
    ensures forall keys :: Settled(t, hash, keys)
  {
    CountFree(t);
    assert s[..0] == [];
  }

  lemma RebuiltTwice<K(!new), V>(hash: K -> nat, s: seq<Slot<K, V>>, t: seq<Slot<K, V>>, u: seq<Slot<K, V>>)
    requires Rebuilt(hash, s, |s|, t) && Rebuilt(hash, t, |t|, u)
    ensures Rebuilt(hash, s, |s|, u)
  {
    SlotOrderIsContents(t, hash);
    assert s[..|s|] == s && t[..|t|] == t;
  }

  /** Rebuilding an array with unique keys keeps its map and its keys. */
  lemma RebuiltKeepsMap<K(!new), V>(hash: K -> nat, s: seq<Slot<K, V>>, t: seq<Slot<K, V>>)
    requires Wf(s, hash) && Unique(s) && Rebuilt(hash, s, |s|, t)
    ensures Contents(t, hash) == Contents(s, hash) && KeysOf(t) == KeysOf(s) && Count(t) == Count(s)
  {
    SlotOrderIsContents(s, hash);
    CountIsCardinality(s);
    CountIsCardinality(t);
    assert s[..|s|] == s;
  }

  /** Growing first and then placing is the same put, on the map read in slot order. */
  lemma RebuildThenPlaceIsPut<K(!new), V>(hash: K -> nat, s: seq<Slot<K, V>>, k: K, v: V, g: seq<Slot<K, V>>, p: nat)
    requires Wf(s, hash) && NoRoom(s, hash, k) && Rebuilt(hash, s, |s|, g)
    requires StopSlot(g, hash, k) == Some(p) && Count(g) < |g| / 2
    ensures p < |g| && PutDone(hash, s, k, v, g[p := Used(k, v)])
  {
    assert s[..|s|] == s;
    PlaceIsPut(hash, g, k, v, p);
    TightHasNoSlotAhead(g, hash, k);
  }

  lemma NoNewEntriesTrans<K(!new), V>(s: seq<Slot<K, V>>, t: seq<Slot<K, V>>, u: seq<Slot<K, V>>)
    requires NoNewEntries(s, t) && NoNewEntries(t, u)
    ensures NoNewEntries(s, u)
  {
  }

  // Small facts that let the methods below treat these notions as closed.

  lemma NoNewEntriesSelf<K(!new), V>(s: seq<Slot<K, V>>)
    ensures NoNewEntries(s, s)
  {
  }

  lemma RebuiltHasNoNew<K(!new), V>(hash: K -> nat, s: seq<Slot<K, V>>, i: nat, t: seq<Slot<K, V>>)
    requires i <= |s| && Rebuilt(hash, s, i, t)
    ensures NoNewEntries(s, t)
  {
  }

  lemma PlaceAddsOne<K(!new), V>(s: seq<Slot<K, V>>, t: seq<Slot<K, V>>, k: K, v: V, p: nat)
    requires NoNewEntries(s, t) && p < |t|
    ensures NoNewEntries(s + [Used(k, v)], t[p := Used(k, v)])
  {
  }

  lemma PutIsWf<K(!new), V>(hash: K -> nat, s: seq<Slot<K, V>>, k: K, v: V, t: seq<Slot<K, V>>)
    requires PutDone(hash, s, k, v, t)
    ensures Wf(t, hash)
  {
  }

  lemma StopIsPlace<K(!new), V>(hash: K -> nat, s: seq<Slot<K, V>>, k: K, v: V, p: nat)
    requires |s| >= WINDOW && StopSlot(s, hash, k) == Some(p)
    ensures p < |s| && PlacedAtStop(hash, s, k, v, s[p := Used(k, v)])
  {
  }

  lemma WfIsLong<K(!new), V>(s: seq<Slot<K, V>>, hash: K -> nat)
    requires Wf(s, hash)
    ensures |s| >= WINDOW
  {
  }

  lemma KeyIsHeld<K, V>(s: seq<Slot<K, V>>, i: nat)
    requires i < |s| && s[i].Used?
    ensures s[i].key in KeysOf(s)
  {
  }

  lemma RoomMeans<K(!new), V>(s: seq<Slot<K, V>>, hash: K -> nat, k: K)
    requires |s| >= WINDOW && !NoRoom(s, hash, k)
    ensures Count(s) < |s| / 2 && StopSlot(s, hash, k).Some?
  {
  }

  // ----- What one deletion does ------------------------------------------------------------------

  ghost function Deleted<K(!new), V>(s: seq<Slot<K, V>>, hash: K -> nat, k: K): (t: seq<Slot<K, V>>)
    requires |s| >= WINDOW
    ensures |t| == |s|
  {
    var home := Home(hash, k, |s|);
    var d := FirstMatch(s, home, k, 0);
    if d < WINDOW then s[At(home, d, |s|) := Free] else s
  }

  lemma DeletedIsFewer<K(!new), V>(s: seq<Slot<K, V>>, hash: K -> nat, k: K)
    requires |s| >= WINDOW
    ensures Count(Deleted(s, hash, k)) <= Count(s)
  {
    var home := Home(hash, k, |s|);
    var d := FirstMatch(s, home, k, 0);
    if d < WINDOW { CountUpdate(s, At(home, d, |s|), Free); }
  }

  lemma DeletedIsWf<K(!new), V>(s: seq<Slot<K, V>>, hash: K -> nat, k: K)
    requires Wf(s, hash)
    ensures Wf(Deleted(s, hash, k), hash)
  {
    var t := Deleted(s, hash, k);
    forall j: nat | j < |t| ensures InWindow(t, hash, j) { assert InWindow(s, hash, j); }
  }

  lemma DeletedKeys<K(!new), V>(s: seq<Slot<K, V>>, hash: K -> nat, k: K)
    requires Wf(s, hash) && Unique(s)
    ensures Unique(Deleted(s, hash, k))
    ensures KeysOf(Deleted(s, hash, k)) == KeysOf(s) - {k}
  {
    WfIsLong(s, hash);
    var t := Deleted(s, hash, k);
    FoundIffHeld(s, hash, k);
    assert forall j :: 0 <= j < |s| && s[j].Used? ==> s[j].key in KeysOf(s);
    assert forall j :: 0 <= j < |s| && t[j].Used? ==> s[j] == t[j] && t[j].key != k;
    assert forall j :: 0 <= j < |s| && s[j].Used? && s[j].key != k ==> t[j] == s[j];
    forall x | x in KeysOf(s) && x != k ensures x in KeysOf(t) {
      var j :| 0 <= j < |s| && s[j].Used? && s[j].key == x;
      assert t[j].Used? && t[j].key == x;
    }
    forall x | x in KeysOf(t) ensures x in KeysOf(s) && x != k {
      var j :| 0 <= j < |t| && t[j].Used? && t[j].key == x;
      assert s[j].Used? && s[j].key == x;
    }
  }

  /** On unique keys a deletion is map removal and keeps keys unique. */
  lemma DelOnUniqueKeys<K(!new), V>(s: seq<Slot<K, V>>, hash: K -> nat, k: K)
    requires Wf(s, hash) && Unique(s)
    ensures Unique(Deleted(s, hash, k))
    ensures KeysOf(Deleted(s, hash, k)) == KeysOf(s) - {k}
    ensures Contents(Deleted(s, hash, k), hash) == Contents(s, hash) - {k}
  {
    hide Wf, Unique, KeysOf, Contents;
    WfIsLong(s, hash);
    var t := Deleted(s, hash, k);
    DeletedKeys(s, hash, k);
    DeletedIsWf(s, hash, k);
    forall x | x != k ensures Lookup(t, hash, x) == Lookup(s, hash, x) {
      SameMatchesSameLookup(s, t, Home(hash, x, |s|), x, 0);
    }
    ContentsIsLookup(s, hash);
    ContentsIsLookup(t, hash);
    forall x | x in Contents(t, hash) ensures x in Contents(s, hash) && Contents(t, hash)[x] == Contents(s, hash)[x] {
      assert Lookup(t, hash, x) == Some(Contents(t, hash)[x]);
    }
  }

  // ----- The arrays that puts and rehashes make ----------------------------------------------------

  /** The array after `hashmap_put`, when memory holds arrays of up to `limit` slots; none when it needs a larger one. */
  ghost function PutOf<K(!new), V>(hash: K -> nat, limit: nat, s: seq<Slot<K, V>>, k: K, v: V): (r: Option<seq<Slot<K, V>>>)
    requires |s| >= WINDOW
    ensures r.Some? ==> |r.value| == |s| || |s| < |r.value| <= limit
    decreases if limit >= |s| then limit - |s| else 0, 2, 0
  {
    if !NoRoom(s, hash, k) then Some(s[StopSlot(s, hash, k).value := Used(k, v)])
    else
      match RehashOf(hash, limit, s)
      case None => None
      case Some(t) => PutOf(hash, limit, t, k, v)
  }

  /** The array after `hashmap_rehash`. */
  ghost function RehashOf<K(!new), V>(hash: K -> nat, limit: nat, s: seq<Slot<K, V>>): (r: Option<seq<Slot<K, V>>>)
    requires |s| >= WINDOW
    ensures r.Some? ==> 2 * |s| <= |r.value| <= limit
    decreases if limit >= |s| then limit - |s| else 0, 1, 0
  {
    if 2 * |s| > limit then None else RefillOf(hash, limit, s, 0, seq(2 * |s|, _ => Free))
  }

  /** `t` after the slots of `s` from `i` on have been put into it. */
  ghost function RefillOf<K(!new), V>(hash: K -> nat, limit: nat, s: seq<Slot<K, V>>, i: nat, t: seq<Slot<K, V>>)
    : (r: Option<seq<Slot<K, V>>>)
    requires i <= |s| && WINDOW <= |t| <= limit
    ensures r.Some? ==> |t| <= |r.value| <= limit
    decreases limit - |t|, 3, |s| - i
  {
    if i == |s| then Some(t)
    else if s[i].Free? then RefillOf(hash, limit, s, i + 1, t)
    else
      match PutOf(hash, limit, t, s[i].key, s[i].val)
      case None => None
      case Some(u) => RefillOf(hash, limit, s, i + 1, u)
  }

  lemma PutUnfolds<K(!new), V>(hash: K -> nat, limit: nat, s: seq<Slot<K, V>>, k: K, v: V)
    requires |s| >= WINDOW
    ensures !NoRoom(s, hash, k) ==> StopSlot(s, hash, k).Some? && StopSlot(s, hash, k).value < |s|
    ensures PutOf(hash, limit, s, k, v) ==
            if !NoRoom(s, hash, k) then Some(s[StopSlot(s, hash, k).value := Used(k, v)])
            else if RehashOf(hash, limit, s).None? then None
            else PutOf(hash, limit, RehashOf(hash, limit, s).value, k, v)
  {
  }

  /** A put leaves no more than half of the slots used. */
  lemma {:induction false} PutIsHalfFull<K(!new), V>(hash: K -> nat, limit: nat, s: seq<Slot<K, V>>, k: K, v: V)
    requires |s| >= WINDOW && PutOf(hash, limit, s, k, v).Some?
    ensures Count(PutOf(hash, limit, s, k, v).value) <= |PutOf(hash, limit, s, k, v).value| / 2
    decreases if limit >= |s| then limit - |s| else 0
  {
    PutUnfolds(hash, limit, s, k, v);
    hide PutOf, RehashOf;
    if NoRoom(s, hash, k) {
      PutIsHalfFull(hash, limit, RehashOf(hash, limit, s).value, k, v);
    } else {
      CountUpdate(s, StopSlot(s, hash, k).value, Used(k, v));
    }
  }

  /** The slot `d` places from the key's home on holds another key. */
  ghost predicate HeldByOther<K(!new), V>(s: seq<Slot<K, V>>, hash: K -> nat, k: K, d: nat)
    requires |s| > 0
  {
    var x := s[(hash(k) + d) % |s|];
    x.Used? && x.key != k
  }

  /** The array grows exactly when half of the slots are used, or the eight slots from the key's home on hold other keys. */
  lemma PutGrowsIff<K(!new), V>(hash: K -> nat, limit: nat, s: seq<Slot<K, V>>, k: K, v: V)
    requires |s| >= WINDOW && PutOf(hash, limit, s, k, v).Some?
    ensures |PutOf(hash, limit, s, k, v).value| > |s| <==>
              || Count(s) >= |s| / 2
              || forall d: nat :: d < 8 ==> HeldByOther(s, hash, k, d)
  {
    PutUnfolds(hash, limit, s, k, v);
    hide PutOf, RehashOf, Count;
    StopIsNone(s, hash, k);
    if NoRoom(s, hash, k) { RehashIsLonger(hash, limit, s, k, v); }
  }

  lemma RehashIsLonger<K(!new), V>(hash: K -> nat, limit: nat, s: seq<Slot<K, V>>, k: K, v: V)
    requires |s| >= WINDOW && NoRoom(s, hash, k) && PutOf(hash, limit, s, k, v).Some?
    ensures |PutOf(hash, limit, s, k, v).value| > |s|
  {
    PutUnfolds(hash, limit, s, k, v);
    hide PutOf, RehashOf;
    var t := RehashOf(hash, limit, s).value;
    assert |PutOf(hash, limit, t, k, v).value| >= |t| > |s|;
  }

  lemma StopIsNone<K(!new), V>(s: seq<Slot<K, V>>, hash: K -> nat, k: K)
    requires |s| >= WINDOW
    ensures StopSlot(s, hash, k).None? <==> forall d: nat :: d < 8 ==> HeldByOther(s, hash, k, d)
  {
    hide FirstStop, At;
    var home := Home(hash, k, |s|);
    forall d: nat | d < 8
      ensures HeldByOther(s, hash, k, d) <==> s[At(home, d, |s|)].Used? && !Matches(s[At(home, d, |s|)], k)
    {
      AtIsMod(hash(k), d, |s|);
    }
  }

  lemma AtIsMod(h: nat, d: nat, n: nat)
    requires d < WINDOW <= n
    ensures At(h % n, d, n) == (h + d) % n
  {
    var q, r := h / n, h % n;
    assert h == n * q + r;
    if r + d < n {
      B.ModIs(h + d, n, q, r + d);
    } else {
      NextMultiple(n, q);
      B.ModIs(h + d, n, q + 1, r + d - n);
    }
  }

  lemma NextMultiple(n: nat, q: nat)
    ensures n * (q + 1) == n * q + n
  {
  }

  lemma RehashUnfolds<K(!new), V>(hash: K -> nat, limit: nat, s: seq<Slot<K, V>>)
    requires |s| >= WINDOW
    ensures 2 * |s| > limit ==> RehashOf(hash, limit, s).None?
    ensures 2 * |s| <= limit ==> RehashOf(hash, limit, s) == RefillOf(hash, limit, s, 0, seq(2 * |s|, _ => Free))
  {
  }

  lemma RefillUnfolds<K(!new), V>(hash: K -> nat, limit: nat, s: seq<Slot<K, V>>, i: nat, t: seq<Slot<K, V>>)
    requires i <= |s| && WINDOW <= |t| <= limit
    ensures i == |s| ==> RefillOf(hash, limit, s, i, t) == Some(t)
    ensures i < |s| && s[i].Free? ==> RefillOf(hash, limit, s, i, t) == RefillOf(hash, limit, s, i + 1, t)
    ensures i < |s| && s[i].Used? ==>
              var u := PutOf(hash, limit, t, s[i].key, s[i].val);
              RefillOf(hash, limit, s, i, t) == if u.None? then None else RefillOf(hash, limit, s, i + 1, u.value)
  {
  }

  // ----- What the loops keep -----------------------------------------------------------------------

  /** `t`, reached from `s` by rehashes that multiplied its size by 2^e, takes a put of `k` in the place of `s`. */
  ghost predicate Grown<K(!new), V>(hash: K -> nat, limit: nat, s: seq<Slot<K, V>>, k: K, v: V, e: nat, t: seq<Slot<K, V>>)
    requires |s| >= WINDOW && |t| >= WINDOW
  {
    && |t| == Scaled(|s|, e) && NoNewEntries(s, t) && PutOf(hash, limit, s, k, v) == PutOf(hash, limit, t, k, v)
    && if e == 0 then t == s else NoRoom(s, hash, k) && Rebuilt(hash, s, |s|, t) && 2 * |s| <= |t| <= limit
  }

  lemma GrownNot<K(!new), V>(hash: K -> nat, limit: nat, s: seq<Slot<K, V>>, k: K, v: V)
    requires |s| >= WINDOW
    ensures Grown(hash, limit, s, k, v, 0, s)
  {
    ScaledSteps(|s|, 0);
  }

  lemma GrownMore<K(!new), V>(hash: K -> nat, limit: nat, s: seq<Slot<K, V>>, k: K, v: V, e: nat, t: seq<Slot<K, V>>,
                              f: nat, u: seq<Slot<K, V>>)
    requires |s| >= WINDOW && |t| >= WINDOW && Grown(hash, limit, s, k, v, e, t) && NoRoom(t, hash, k)
    requires Rebuilt(hash, t, |t|, u) && NoNewEntries(t, u) && RehashOf(hash, limit, t) == Some(u)
    requires f > 0 && |u| == Scaled(|t|, f) <= limit
    ensures |u| >= 2 * |t| >= WINDOW && Grown(hash, limit, s, k, v, e + f, u)
  {
    hide PutOf, RehashOf, Rebuilt, NoNewEntries, Scaled, NoRoom;
    ScaledSteps(|t|, f);
    ScaledAdd(|s|, e, f);
    PutUnfolds(hash, limit, t, k, v);
    NoNewEntriesTrans(s, t, u);
    if e > 0 { RebuiltTwice(hash, s, t, u); }
  }

  /** Growth that ends without a larger array: there is none for the put. */
  lemma GrownNever<K(!new), V>(hash: K -> nat, limit: nat, s: seq<Slot<K, V>>, k: K, v: V, e: nat, t: seq<Slot<K, V>>)
    requires |s| >= WINDOW && |t| >= WINDOW && Grown(hash, limit, s, k, v, e, t) && NoRoom(t, hash, k)
    ensures NoRoom(s, hash, k) && NoNewEntries(s, t) && |t| >= |s| && (e > 0 ==> |t| >= 2 * |s|)
    ensures RehashOf(hash, limit, t).None? ==> PutOf(hash, limit, s, k, v).None?
  {
    hide PutOf, RehashOf, Rebuilt, NoNewEntries, Scaled, NoRoom;
    PutUnfolds(hash, limit, t, k, v);
  }

  /** What writing the entry at the stop slot of the grown array makes of the original one. */
  lemma GrownThenPlaced<K(!new), V>(hash: K -> nat, limit: nat, s: seq<Slot<K, V>>, k: K, v: V, e: nat, t: seq<Slot<K, V>>, p: nat)
    requires Wf(s, hash) && Wf(t, hash) && |s| >= WINDOW && |t| >= WINDOW && Grown(hash, limit, s, k, v, e, t)
    requires !NoRoom(t, hash, k) && StopSlot(t, hash, k) == Some(p)
    ensures p < |t| && Count(t) < |t| / 2
    ensures
      var u := t[p := Used(k, v)];
      && PutDone(hash, s, k, v, u) && NoNewEntries(s + [Used(k, v)], u) && Wf(u, hash)
      && PutOf(hash, limit, s, k, v) == Some(u)
      && |u| == Scaled(|s|, e) && (e > 0 ==> |u| <= limit) && (e > 0 <==> NoRoom(s, hash, k))
      && (e == 0 ==> PlacedAtStop(hash, s, k, v, u))
  {
    RoomMeans(t, hash, k);
    StopIsPlace(hash, t, k, v, p);
    hide Wf, PutOf, Rebuilt, PutDone, NoNewEntries, Scaled, NoRoom, StopSlot, PlacedAtStop, Count;
    PutUnfolds(hash, limit, t, k, v);
    if e == 0 { PlaceIsPut(hash, t, k, v, p); } else { RebuildThenPlaceIsPut(hash, s, k, v, t, p); }
    PlaceAddsOne(s, t, k, v, p);
    PutIsWf(hash, s, k, v, t[p := Used(k, v)]);
  }

  /** `t` is the new array once the first `i` slots of `s` have been moved into it. */
  ghost predicate Moved<K(!new), V>(hash: K -> nat, limit: nat, s: seq<Slot<K, V>>, i: nat, e: nat, t: seq<Slot<K, V>>) {
    && i <= |s| && |s| >= WINDOW && Rebuilt(hash, s, i, t)
    && e > 0 && |t| == Scaled(|s|, e) && |s| < |t| <= limit
    && RehashOf(hash, limit, s) == RefillOf(hash, limit, s, i, t)
  }

  lemma MovedNone<K(!new), V>(hash: K -> nat, limit: nat, s: seq<Slot<K, V>>, t: seq<Slot<K, V>>)
    requires |s| >= WINDOW && 2 * |s| <= limit && t == seq(2 * |s|, _ => Free) && Rebuilt(hash, s, 0, t)
    ensures Moved(hash, limit, s, 0, 1, t)
  {
    hide RehashOf, RefillOf, Rebuilt, Scaled;
    ScaledSteps(|s|, 1);
    RehashUnfolds(hash, limit, s);
  }

  lemma MovedIsLarger<K(!new), V>(hash: K -> nat, limit: nat, s: seq<Slot<K, V>>, i: nat, e: nat, t: seq<Slot<K, V>>)
    requires Moved(hash, limit, s, i, e, t)
    ensures |s| < |t| <= limit && |t| == Scaled(|s|, e)
  {
  }

  lemma MovedSkips<K(!new), V>(hash: K -> nat, limit: nat, s: seq<Slot<K, V>>, i: nat, e: nat, t: seq<Slot<K, V>>)
    requires i < |s| && s[i].Free? && Moved(hash, limit, s, i, e, t)
    ensures Moved(hash, limit, s, i + 1, e, t)
  {
    hide RehashOf, RefillOf, Rebuilt, Scaled;
    RebuiltSkips(hash, s, i, t);
    RefillUnfolds(hash, limit, s, i, t);
  }

  lemma MovedNext<K(!new), V>(hash: K -> nat, limit: nat, s: seq<Slot<K, V>>, i: nat, e: nat, t: seq<Slot<K, V>>,
                              f: nat, u: seq<Slot<K, V>>)
    requires i < |s| && s[i].Used? && Moved(hash, limit, s, i, e, t)
    requires PutDone(hash, t, s[i].key, s[i].val, u) && NoNewEntries(t + [s[i]], u)
    requires |t| >= WINDOW && PutOf(hash, limit, t, s[i].key, s[i].val) == Some(u)
    requires |u| == Scaled(|t|, f)
    ensures Moved(hash, limit, s, i + 1, e + f, u)
  {
    hide RehashOf, RefillOf, PutOf, Rebuilt, Scaled, PutDone, NoNewEntries;
    RebuiltNext(hash, s, i, t, u);
    RefillUnfolds(hash, limit, s, i, t);
    ScaledAdd(|s|, e, f);
    PutOfIsLong(hash, limit, t, s[i].key, s[i].val);
  }

  lemma PutOfIsLong<K(!new), V>(hash: K -> nat, limit: nat, s: seq<Slot<K, V>>, k: K, v: V)
    requires |s| >= WINDOW && PutOf(hash, limit, s, k, v).Some?
    ensures var t := PutOf(hash, limit, s, k, v).value; |t| == |s| || |s| < |t| <= limit
  {
    var r := PutOf(hash, limit, s, k, v);
  }

  /** A move that fails has invented no entry, and when there was no array for it there is none for the rehash. */
  lemma MovedStops<K(!new), V>(hash: K -> nat, limit: nat, s: seq<Slot<K, V>>, i: nat, e: nat, t: seq<Slot<K, V>>, u: seq<Slot<K, V>>)
    requires i < |s| && s[i].Used? && Moved(hash, limit, s, i, e, t) && NoNewEntries(t, u)
    ensures NoNewEntries(s, u)
    ensures |t| >= WINDOW && (PutOf(hash, limit, t, s[i].key, s[i].val).None? ==> RehashOf(hash, limit, s).None?)
  {
    hide RehashOf, RefillOf, PutOf, Rebuilt, Scaled, NoNewEntries;
    RebuiltHasNoNew(hash, s, i, t);
    NoNewEntriesTrans(s, t, u);
    RefillUnfolds(hash, limit, s, i, t);
  }

  lemma MovedAll<K(!new), V>(hash: K -> nat, limit: nat, s: seq<Slot<K, V>>, e: nat, t: seq<Slot<K, V>>)
    requires Moved(hash, limit, s, |s|, e, t)
    ensures Rebuilt(hash, s, |s|, t) && NoNewEntries(s, t) && RehashOf(hash, limit, s) == Some(t)
    ensures e > 0 && |t| == Scaled(|s|, e) <= limit
  {
    hide RehashOf, RefillOf, Rebuilt, Scaled, NoNewEntries;
    RebuiltHasNoNew(hash, s, |s|, t);
    RefillUnfolds(hash, limit, s, |s|, t);
  }

  // ----- The table -------------------------------------------------------------------------------

  class Hashmap<K(==,!new), V(!new)> {
    const hash: K -> nat      // hashmap_hash_int before `% table_size`
    const limit: nat          // no array of more slots than this can be allocated
    const reliable: bool      // arrays up to `limit` can always be allocated

    var tableSize: nat
    var size: nat
    var entries: array<Slot<K, V>>

    ghost predicate Valid()
      reads this, entries
    {
      && WINDOW <= tableSize == entries.Length
      && Wf(entries[..], hash)
      && size == Count(entries[..])
      && size <= tableSize / 2
    }

    ghost function View(): seq<Slot<K, V>>
      reads this, entries
    {
      entries[..]
    }

    constructor (hash: K -> nat, limit: nat, reliable: bool, entries: array<Slot<K, V>>)
      requires entries.Length == INITIAL_SIZE && forall j :: 0 <= j < INITIAL_SIZE ==> entries[j].Free?
      ensures Valid() && this.entries == entries
      ensures this.hash == hash && this.limit == limit && this.reliable == reliable
      ensures tableSize == INITIAL_SIZE && size == 0
      ensures Contents(View(), hash) == map[]
      ensures KeysOf(View()) == {} && Unique(View()) && Tight(View(), hash)
      ensures forall keys :: Settled(View(), hash, keys)
    {
      this.hash, this.limit, this.reliable := hash, limit, reliable;
      tableSize, size := INITIAL_SIZE, 0;
      this.entries := entries;
      new;
      CountFree(entries[..]);
    }

    /** `calloc`: may fail, and does so for more slots than memory can hold. */
    static method Calloc(n: nat, limit: nat, reliable: bool) returns (a: array?<Slot<K, V>>)
      ensures a != null ==> n <= limit && fresh(a) && a.Length == n && forall j :: 0 <= j < n ==> a[j] == Free
      ensures reliable && n <= limit ==> a != null
    {
      var fails: bool := *;
      if n > limit || (fails && !reliable) { return null; }
      a := new Slot<K, V>[n](_ => Free);
    }

    /** `hashmap_create`: an empty table, or NULL when either allocation fails. */
    static method Create(hash: K -> nat, limit: nat, reliable: bool) returns (h: Hashmap?<K, V>)
      ensures h != null ==> fresh(h) && fresh(h.entries) && h.Valid()
      ensures h != null ==> h.hash == hash && h.limit == limit && h.reliable == reliable
      ensures h != null ==> h.View() == seq(INITIAL_SIZE, _ => Free) && h.size == 0 && Contents(h.View(), hash) == map[]
      ensures h != null ==> Unique(h.View()) && Tight(h.View(), hash) && forall keys :: Settled(h.View(), hash, keys)
      ensures limit < INITIAL_SIZE ==> h == null
      ensures reliable && INITIAL_SIZE <= limit ==> h != null
    {
      var fails: bool := *;
      if fails && !reliable { return null; }
      var entries := Calloc(INITIAL_SIZE, limit, reliable);
      if entries == null { return null; }
      h := new Hashmap(hash, limit, reliable, entries);
    }

    /** `hashmap_hash`: where to put `k`, or FULL. */
    method SlotFor(k: K) returns (index: int)
      requires Valid()
      ensures NoRoom(View(), hash, k) ==> index == FULL
      ensures !NoRoom(View(), hash, k) ==> 0 <= index < tableSize && StopSlot(View(), hash, k) == Some(index)
    {
      if size >= tableSize / 2 { return FULL; }
      ghost var s := View();
      ghost var home := Home(hash, k, |s|);
      var curr := hash(k) % tableSize;
      for i := 0 to WINDOW
        invariant curr == At(home, i, |s|)
        invariant forall j {:trigger At(home, j, |s|)} :: 0 <= j < i ==>
                    s[At(home, j, |s|)].Used? && !Matches(s[At(home, j, |s|)], k)
      {
        if entries[curr].Free? { return curr; }
        if entries[curr].Used? && entries[curr].key == k { return curr; }
        StepIsAt(home, i, |s|);
        curr := (curr + 1) % tableSize;
      }
      return FULL;
    }

    /** A size reachable by `room` doublings within memory spreads `keys`. */
    ghost predicate CanSpread(keys: set<K>, room: nat)
      reads this
    {
      reliable && Spread(keys, hash, Scaled(tableSize, room)) && Scaled(tableSize, room) <= limit
    }

    /** The first part of `hashmap_rehash`: an empty array of twice the size takes the place of the old one. */
    method StartRehash() returns (ok: bool, curr: array<Slot<K, V>>)
      requires Valid()
      modifies this
      ensures Valid() && curr == old(entries)
      ensures !ok ==> entries == old(entries) && tableSize == old(tableSize)
      ensures ok ==> fresh(entries) && tableSize == 2 * old(tableSize) <= limit
      ensures ok ==> View() == seq(2 * |old(View())|, _ => Free)
      ensures ok ==> Rebuilt(hash, old(View()), 0, View()) && forall keys :: Settled(View(), hash, keys)
      ensures 2 * old(tableSize) > limit ==> !ok
      ensures reliable && 2 * old(tableSize) <= limit ==> ok
    {
      hide Wf, Rebuilt, Settled, Count;
      ghost var s := View();
      curr := entries;
      var temp := Calloc(2 * tableSize, limit, reliable);
      if temp == null { return false, curr; }
      entries := temp;
      tableSize := 2 * tableSize;
      size := 0;
      EmptyIsRebuilt(hash, s, entries[..]);
      ok := true;
    }

    /** `hashmap_rehash`: move every entry into an array twice the size (or more, if a put rehashes again). When it fails, the
        table keeps its array only if the first allocation was the one that failed.
        `keys` and `room` only serve the promise that it succeeds. */
    method Rehash(ghost keys: set<K>, ghost room: nat) returns (status: int, ghost e: nat)
      requires Valid()
      modifies this
      ensures Valid() && (entries == old(entries) || fresh(entries))
      ensures status == OK || status == ERR
      ensures status == OK ==> Rebuilt(hash, old(View()), |old(View())|, View())
      ensures status == OK ==> e > 0 && tableSize == Scaled(old(tableSize), e) && tableSize <= limit && fresh(entries)
      ensures status == OK ==> RehashOf(hash, limit, old(View())) == Some(View())
      ensures reliable && status == ERR ==> RehashOf(hash, limit, old(View())).None?
      ensures NoNewEntries(old(View()), View())
      ensures status == ERR && entries == old(entries) ==> View() == old(View()) && tableSize == old(tableSize)
      ensures 2 * old(tableSize) > limit ==> status == ERR && entries == old(entries)
      ensures room > 0 && old(KeysOf(View()) <= keys && CanSpread(keys, room)) ==>
                status == OK && e <= room && Settled(View(), hash, keys)
      decreases if limit >= tableSize then limit - tableSize else 0, 0
    {
      hide Wf, Rebuilt, PutDone, NoNewEntries, NoRoom, Spread, Settled, KeysOf, Contents, Count, Scaled, SlotOrder, StopSlot,
        PutOf, RehashOf, RefillOf, Moved;
      ghost var s := View();
      RehashUnfolds(hash, limit, s);
      ghost var helps := room > 0 && KeysOf(s) <= keys && CanSpread(keys, room);
      ScaledSteps(tableSize, room);
      NoNewEntriesSelf(s);
      var oldSize := tableSize;
      var ok, curr := StartRehash();
      if !ok { return ERR, 0; }
      e := 1;
      MovedNone(hash, limit, s, View());
      for i := 0 to oldSize
        invariant curr.Length == oldSize && curr[..] == s && entries != curr && fresh(entries)
        invariant Valid() && Moved(hash, limit, s, i, e, View())
        invariant helps ==> e <= room && Settled(View(), hash, keys)
      {
        MovedIsLarger(hash, limit, s, i, e, View());
        if curr[i].Free? { MovedSkips(hash, limit, s, i, e, View()); continue; }
        if helps { ScaledAdd(oldSize, e, room - e); KeyIsHeld(s, i); }
        status, e := MoveEntry(curr[i], s, i, e, keys, if helps then room else e);
        if status != OK { return status, 0; }
      }
      MovedAll(hash, limit, s, e, View());
      status := OK;
    }

    /** The body of that loop: one used slot of the old array is put into the new one. */
    method MoveEntry(x: Slot<K, V>, ghost s: seq<Slot<K, V>>, ghost i: nat, ghost e: nat, ghost keys: set<K>, ghost room: nat)
      returns (status: int, ghost e': nat)
      requires Valid() && Moved(hash, limit, s, i, e, View()) && i < |s| && s[i] == x && x.Used? && e <= room
      modifies this, entries
      ensures Valid() && (entries == old(entries) || fresh(entries))
      ensures status == OK || status == ERR
      ensures status == OK ==> Moved(hash, limit, s, i + 1, e', View())
      ensures status == ERR ==> NoNewEntries(s, View()) && (reliable ==> RehashOf(hash, limit, s).None?)
      ensures x.key in keys && old(Settled(View(), hash, keys) && CanSpread(keys, room - e)) ==>
                status == OK && e' <= room && Settled(View(), hash, keys)
      decreases if limit >= tableSize then limit - tableSize else 0, 3
    {
      hide Wf, PutDone, NoNewEntries, NoRoom, Spread, Settled, Count, Scaled, PlacedAtStop, PutOf, RehashOf, Moved;
      ghost var t := View();
      ghost var f;
      status, f := Put(x.key, x.val, keys, room - e);
      if status == OK {
        MovedNext(hash, limit, s, i, e, t, f, View());
        e' := e + f;
      } else {
        MovedStops(hash, limit, s, i, e, t, View());
        e' := 0;
      }
    }

    /** The last part of `hashmap_put`: write the entry, and count it if its slot was free. */
    method SetEntry(index: nat, k: K, v: V)
      requires Valid() && index < tableSize && size < tableSize / 2
      requires Wf(View()[index := Used(k, v)], hash)
      modifies this`size, entries
      ensures Valid() && View() == old(View())[index := Used(k, v)]
    {
      hide Wf, Count;
      ghost var s := View();
      CountUpdate(s, index, Used(k, v));
      if entries[index].Free? { size := size + 1; }
      entries[index] := Used(k, v);
      assert View() == s[index := Used(k, v)];
    }

    /** The loop of `hashmap_put`: rehash until there is a slot for `k`. */
    method FindSlot(k: K, ghost v: V, ghost keys: set<K>, ghost room: nat) returns (status: int, index: int, ghost e: nat)
      requires Valid()
      modifies this
      ensures Valid() && (entries == old(entries) || fresh(entries))
      ensures status == OK || status == ERR
      ensures status == OK ==> Grown(hash, limit, old(View()), k, v, e, View()) && !NoRoom(View(), hash, k)
      ensures status == OK ==> 0 <= index < tableSize && StopSlot(View(), hash, k) == Some(index)
      ensures reliable && status == ERR ==> PutOf(hash, limit, old(View()), k, v).None?
      ensures status == ERR ==> old(NoRoom(View(), hash, k)) && NoNewEntries(old(View()), View())
      ensures status == ERR && entries == old(entries) ==> View() == old(View()) && tableSize == old(tableSize)
      ensures status == ERR && 2 * old(tableSize) > limit ==> entries == old(entries)
      ensures k in keys && old(Settled(View(), hash, keys) && CanSpread(keys, room)) ==>
                status == OK && e <= room && Settled(View(), hash, keys)
      decreases if limit >= tableSize then limit - tableSize else 0, 1
    {
      hide Wf, Rebuilt, NoNewEntries, NoRoom, Spread, Settled, KeysOf, Contents, Count, Scaled, StopSlot, PutOf, RehashOf, Grown;
      ghost var s := View();
      ghost var helps := k in keys && Settled(s, hash, keys) && CanSpread(keys, room);
      ScaledSteps(tableSize, room);
      GrownNot(hash, limit, s, k, v);
      e := 0;
      index := SlotFor(k);
      while index == FULL
        invariant Valid() && tableSize == Scaled(old(tableSize), e) && tableSize >= old(tableSize)
        invariant Grown(hash, limit, s, k, v, e, View())
        invariant index == FULL ==> NoRoom(View(), hash, k)
        invariant index != FULL ==> !NoRoom(View(), hash, k) && 0 <= index < tableSize && StopSlot(View(), hash, k) == Some(index)
        invariant if e == 0 then View() == s && entries == old(entries) else fresh(entries) && 2 * old(tableSize) <= limit
        invariant helps ==> e <= room && Settled(View(), hash, keys)
        decreases if limit >= tableSize then limit - tableSize else 0
      {
        ghost var t := View();
        ghost var f;
        if helps {
          ScaledAdd(old(tableSize), e, room - e);
          FullIsNotSpread(t, hash, keys, k);
          ScaledSteps(tableSize, room - e);
          SettledKeys(t, hash, keys);
        }
        status, f := Rehash(keys, if helps then room - e else 0);
        GrownNever(hash, limit, s, k, v, e, t);
        if status == ERR {
          NoNewEntriesTrans(s, t, View());
          return ERR, 0, 0;
        }
        GrownMore(hash, limit, s, k, v, e, t, f, View());
        ScaledAdd(old(tableSize), e, f);
        e := e + f;
        index := SlotFor(k);
      }
      status := OK;
    }

    /** `hashmap_put`. `keys` and `room` only serve the promise that it succeeds. When it fails, the table keeps its array, and
        unchanged, only if the first allocation was the one that failed. */
    method Put(k: K, v: V, ghost keys: set<K>, ghost room: nat) returns (status: int, ghost e: nat)
      requires Valid()
      modifies this, entries
      ensures Valid() && (entries == old(entries) || fresh(entries))
      ensures status == OK || status == ERR
      ensures status == OK ==> PutDone(hash, old(View()), k, v, View()) && NoNewEntries(old(View()) + [Used(k, v)], View())
      ensures status == OK ==> tableSize == Scaled(old(tableSize), e) && (e > 0 ==> tableSize <= limit)
      ensures status == OK ==> (e > 0 <==> old(NoRoom(View(), hash, k)))
      ensures status == OK && e == 0 ==> PlacedAtStop(hash, old(View()), k, v, View())
      ensures status == OK ==> PutOf(hash, limit, old(View()), k, v) == Some(View())
      ensures reliable && status == ERR ==> PutOf(hash, limit, old(View()), k, v).None?
      ensures status == ERR ==> old(NoRoom(View(), hash, k)) && NoNewEntries(old(View()), View())
      ensures status == ERR && entries == old(entries) ==> View() == old(View()) && tableSize == old(tableSize)
      ensures status == ERR && 2 * old(tableSize) > limit ==> entries == old(entries)
      ensures k in keys && old(Settled(View(), hash, keys) && CanSpread(keys, room)) ==>
                status == OK && e <= room && Settled(View(), hash, keys)
      decreases if limit >= tableSize then limit - tableSize else 0, 2
    {
      hide Wf, PutDone, NoNewEntries, NoRoom, Spread, Settled, KeysOf, Contents, Count, Scaled, StopSlot, PlacedAtStop, PutOf, Grown;
      ghost var s := View();
      ghost var helps := k in keys && Settled(s, hash, keys) && CanSpread(keys, room);
      var index;
      status, index, e := FindSlot(k, v, keys, room);
      if status == ERR { return; }
      ghost var t := View();
      GrownThenPlaced(hash, limit, s, k, v, e, t, index);
      if helps { PlaceKeepsSettled(t, hash, keys, k, v, index); }
      SetEntry(index, k, v);
    }

    /** `hashmap_get`. */
    method Get(k: K) returns (r: Option<V>)
      requires Valid()
      ensures r == Lookup(View(), hash, k)
      ensures r == if k in Contents(View(), hash) then Some(Contents(View(), hash)[k]) else None
    {
      ghost var s := View();
      ghost var home := Home(hash, k, |s|);
      ContentsIsLookup(s, hash);
      var curr := hash(k) % tableSize;
      for i := 0 to WINDOW
        invariant curr == At(home, i, |s|)
        invariant forall j {:trigger At(home, j, |s|)} :: 0 <= j < i ==> !Matches(s[At(home, j, |s|)], k)
      {
        if entries[curr].Used? && entries[curr].key == k {
          assert FirstMatch(s, home, k, 0) == i;
          return Some(entries[curr].val);
        }
        StepIsAt(home, i, |s|);
        curr := (curr + 1) % tableSize;
      }
      assert FirstMatch(s, home, k, 0) == WINDOW;
      return None;
    }

    /** `hashmap_del`: free the first match. */
    method Del(k: K) returns (status: int)
      requires Valid()
      modifies this, entries
      ensures Valid() && entries == old(entries) && tableSize == old(tableSize)
      ensures status == OK <==> old(Lookup(View(), hash, k)).Some?
      ensures status == OK ==> View() == old(Deleted(View(), hash, k))
      ensures status != OK ==> status == ERR && View() == old(View())
    {
      hide FirstMatch, Wf, Count;
      ghost var s := View();
      ghost var home := Home(hash, k, |s|);
      var curr := hash(k) % tableSize;
      for i := 0 to WINDOW
        invariant curr == At(home, i, |s|) && View() == s && unchanged(this) && unchanged(entries)
        invariant forall j: nat {:trigger At(home, j, |s|)} :: j < i ==> !Matches(s[At(home, j, |s|)], k)
      {
        if entries[curr].Used? && entries[curr].key == k {
          FoundAt(s, home, k, i);
          ClearEntry(curr, k);
          return OK;
        }
        StepIsAt(home, i, |s|);
        curr := (curr + 1) % tableSize;
      }
      FoundAt(s, home, k, WINDOW);
      return ERR;
    }

    /** The last part of `hashmap_del`: free the slot and lower the size. */
    method ClearEntry(index: nat, k: K)
      requires Valid() && index < tableSize && View()[index].Used?
      requires Deleted(View(), hash, k) == View()[index := Free]
      modifies this`size, entries
      ensures Valid() && View() == old(View())[index := Free]
    {
      hide Wf, Count, Deleted;
      ghost var s := View();
      CountUpdate(s, index, Free);
      DeletedIsWf(s, hash, k);
      entries[index] := Free;
      size := size - 1;
      assert View() == s[index := Free];
    }
  }
}
