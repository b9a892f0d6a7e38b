/** The slot array of the hash table (src/hashmap.c) as a value: probe windows, lookups, the map it stands for.
    A slot's key and value matter only while `in_use` is 1, so a slot with `in_use == 0` is `Free`. */
module Probing {

  import opened Options

  datatype Slot<+K, +V> = Free | Used(key: K, val: V)

  const WINDOW: nat := 8   // MAX_CHAIN_LENGTH

  // ----- Positions -------------------------------------------------------------------------------

  /** The slot reached from `home` after `i` steps of `curr = (curr + 1) % n`. */
  function At(home: nat, i: nat, n: nat): (r: nat)
    requires home < n && i <= WINDOW <= n
    ensures r < n
  {
    if home + i < n then home + i else home + i - n
  }

  /** How many steps separate slot `j` from `home`. */
  function Dist(home: nat, j: nat, n: nat): (r: nat)
    requires home < n && j < n
    ensures r < n
    ensures r < WINDOW <= n ==> At(home, r, n) == j
  {
    if j >= home then j - home else j + n - home
  }

  function Home<K>(hash: K -> nat, k: K, n: nat): (r: nat)
    requires n > 0
    ensures r < n
  {
    hash(k) % n
  }

  lemma StepIsAt(home: nat, i: nat, n: nat)
    requires home < n && i < WINDOW <= n
    ensures (At(home, i, n) + 1) % n == At(home, i + 1, n)
  {
  }

  // ----- Probing ---------------------------------------------------------------------------------

  predicate Matches<K(==), V>(s: Slot<K, V>, k: K) {
    s.Used? && s.key == k
  }

  /** The first probe, from `i` on, that meets key `k`; WINDOW when there is none. */
  function FirstMatch<K(==), V>(s: seq<Slot<K, V>>, home: nat, k: K, i: nat): (r: nat)
    requires home < |s| && i <= WINDOW <= |s|
    ensures i <= r <= WINDOW
    ensures r < WINDOW ==> Matches(s[At(home, r, |s|)], k)
    ensures forall j {:trigger At(home, j, |s|)} :: i <= j < r ==> !Matches(s[At(home, j, |s|)], k)
    decreases WINDOW - i
  {
    if i == WINDOW || Matches(s[At(home, i, |s|)], k) then i else FirstMatch(s, home, k, i + 1)
  }

  /** The first probe, from `i` on, at which an insertion of `k` stops: a free slot or `k` itself. */
  function FirstStop<K(==), V>(s: seq<Slot<K, V>>, home: nat, k: K, i: nat): (r: nat)
    requires home < |s| && i <= WINDOW <= |s|
    ensures i <= r <= WINDOW
    ensures r < WINDOW ==> s[At(home, r, |s|)].Free? || Matches(s[At(home, r, |s|)], k)
    ensures forall j {:trigger At(home, j, |s|)} :: i <= j < r ==>
              s[At(home, j, |s|)].Used? && !Matches(s[At(home, j, |s|)], k)
    decreases WINDOW - i
  {
    if i == WINDOW || s[At(home, i, |s|)].Free? || Matches(s[At(home, i, |s|)], k) then i
    else FirstStop(s, home, k, i + 1)
  }

  // ----- What a slot array stands for ------------------------------------------------------------

  ghost predicate InWindow<K(!new), V>(s: seq<Slot<K, V>>, hash: K -> nat, j: nat)
    requires j < |s|
  {
    s[j].Used? ==> Dist(Home(hash, s[j].key, |s|), j, |s|) < WINDOW
  }

  /** Every entry lies within WINDOW probes of its home slot. */
  ghost predicate Wf<K(!new), V>(s: seq<Slot<K, V>>, hash: K -> nat) {
    |s| >= WINDOW && forall j: nat :: j < |s| ==> InWindow(s, hash, j)
  }

  ghost predicate Unique<K(!new), V>(s: seq<Slot<K, V>>) {
    forall i, j :: 0 <= i < j < |s| && s[i].Used? && s[j].Used? ==> s[i].key != s[j].key
  }

  ghost predicate NoHoleBefore<K(!new), V>(s: seq<Slot<K, V>>, hash: K -> nat, j: nat)
    requires j < |s| && |s| >= WINDOW
  {
    s[j].Used? ==>
      var home := Home(hash, s[j].key, |s|);
      forall i: nat {:trigger At(home, i, |s|)} :: i < Dist(home, j, |s|) && i < WINDOW ==> s[At(home, i, |s|)].Used?
  }

  /** No entry has a free slot between its home slot and itself: what tables without deletions keep. */
  ghost predicate Tight<K(!new), V>(s: seq<Slot<K, V>>, hash: K -> nat) {
    |s| >= WINDOW && forall j: nat :: j < |s| ==> NoHoleBefore(s, hash, j)
  }

  ghost function KeysOf<K, V>(s: seq<Slot<K, V>>): set<K> {
    set j | 0 <= j < |s| && s[j].Used? :: s[j].key
  }

  function Count<K, V>(s: seq<Slot<K, V>>): nat {
    if s == [] then 0 else Count(s[..|s| - 1]) + (if s[|s| - 1].Used? then 1 else 0)
  }

  /** What `hashmap_get` answers: the value at the first match of the window. */
  function Lookup<K(==), V>(s: seq<Slot<K, V>>, hash: K -> nat, k: K): Option<V>
    requires |s| >= WINDOW
  {
    var home := Home(hash, k, |s|);
    var d := FirstMatch(s, home, k, 0);
    if d < WINDOW then Some(s[At(home, d, |s|)].val) else None
  }

  /** The map that lookups see. */
  ghost function Contents<K(!new), V>(s: seq<Slot<K, V>>, hash: K -> nat): map<K, V>
    requires |s| >= WINDOW
  {
    map k | k in KeysOf(s) && Lookup(s, hash, k).Some? :: Lookup(s, hash, k).value
  }

  /** The map obtained by storing the first `i` slots in slot order, later slots overwriting earlier ones. */
  ghost function SlotOrder<K, V>(s: seq<Slot<K, V>>, i: nat): map<K, V>
    requires i <= |s|
  {
    if i == 0 then map[]
    else if s[i - 1].Free? then SlotOrder(s, i - 1)
    else SlotOrder(s, i - 1)[s[i - 1].key := s[i - 1].val]
  }

  // ----- Lookups ---------------------------------------------------------------------------------

  /** A key is found exactly when some slot holds it. */
  lemma FoundIffHeld<K(!new), V>(s: seq<Slot<K, V>>, hash: K -> nat, k: K)
    requires Wf(s, hash)
    ensures Lookup(s, hash, k).Some? <==> k in KeysOf(s)
  {
    var n := |s|;
    var home := Home(hash, k, n);
    var d := FirstMatch(s, home, k, 0);
    if k in KeysOf(s) {
      var j: nat :| j < n && s[j].Used? && s[j].key == k;
      assert InWindow(s, hash, j);
      assert At(home, Dist(home, j, n), n) == j;
    }
    if d < WINDOW {
      assert s[At(home, d, n)].key in KeysOf(s);
    }
  }

  lemma ContentsIsLookup<K(!new), V>(s: seq<Slot<K, V>>, hash: K -> nat)
    requires Wf(s, hash)
    ensures Contents(s, hash).Keys == KeysOf(s)
    ensures forall k :: Lookup(s, hash, k) == if k in Contents(s, hash) then Some(Contents(s, hash)[k]) else None
  {
    forall k ensures Lookup(s, hash, k).Some? <==> k in KeysOf(s) { FoundIffHeld(s, hash, k); }
  }

  /** With unique keys, every entry is what a lookup of its key answers. */
  lemma EntryIsFound<K(!new), V>(s: seq<Slot<K, V>>, hash: K -> nat, j: nat)
    requires Wf(s, hash) && Unique(s) && j < |s| && s[j].Used?
    ensures Lookup(s, hash, s[j].key) == Some(s[j].val)
  {
    var k := s[j].key;
    FoundIffHeld(s, hash, k);
    assert k in KeysOf(s);
    var home := Home(hash, k, |s|);
    var p := At(home, FirstMatch(s, home, k, 0), |s|);
    assert s[p].Used? && s[p].key == s[j].key;
    if p < j {} else if j < p {}
  }

  lemma SameMatchesSameLookup<K(!new), V>(s: seq<Slot<K, V>>, t: seq<Slot<K, V>>, home: nat, k: K, i: nat)
    requires |s| == |t| && home < |s| && i <= WINDOW <= |s|
    requires forall j: nat {:trigger s[j]} {:trigger t[j]} :: j < |s| ==> (Matches(s[j], k) <==> Matches(t[j], k))
    ensures FirstMatch(s, home, k, i) == FirstMatch(t, home, k, i)
    decreases WINDOW - i
  {
  }

  /** What a search loop has seen when it stops after `i` slots. */
  lemma FoundAt<K, V>(s: seq<Slot<K, V>>, home: nat, k: K, i: nat)
    requires |s| >= WINDOW && home < |s| && i <= WINDOW
    requires forall j: nat {:trigger At(home, j, |s|)} :: j < i ==> !Matches(s[At(home, j, |s|)], k)
    requires i < WINDOW ==> Matches(s[At(home, i, |s|)], k)
    ensures FirstMatch(s, home, k, 0) == i
  {
  }

  // ----- Placing an entry ------------------------------------------------------------------------

  /** Where an insertion of `k` writes, when its window is not exhausted. */
  function StopSlot<K(==), V>(s: seq<Slot<K, V>>, hash: K -> nat, k: K): Option<nat>
    requires |s| >= WINDOW
  {
    var home := Home(hash, k, |s|);
    var d := FirstStop(s, home, k, 0);
    if d < WINDOW then Some(At(home, d, |s|)) else None
  }

  lemma PlaceKeepsWf<K(!new), V>(s: seq<Slot<K, V>>, hash: K -> nat, k: K, v: V, p: nat)
    requires Wf(s, hash) && StopSlot(s, hash, k) == Some(p)
    ensures p < |s| && (s[p].Free? || Matches(s[p], k))
    ensures Wf(s[p := Used(k, v)], hash)
  {
    var n := |s|;
    var t := s[p := Used(k, v)];
    var d := FirstStop(s, Home(hash, k, n), k, 0);
    forall j: nat | j < n ensures InWindow(t, hash, j) { assert InWindow(s, hash, j); }
  }

  lemma PlaceAddsKey<K(!new), V>(s: seq<Slot<K, V>>, k: K, v: V, p: nat)
    requires p < |s| && (s[p].Free? || Matches(s[p], k))
    ensures KeysOf(s[p := Used(k, v)]) == KeysOf(s) + {k}
  {
    var t := s[p := Used(k, v)];
    forall x | x in KeysOf(s) ensures x in KeysOf(t) {
      var j :| 0 <= j < |s| && s[j].Used? && s[j].key == x;
      if j == p { assert t[p].key == x; } else { assert t[j].key == x; }
    }
    assert t[p].key in KeysOf(t);
  }

  lemma PlaceIsFound<K(!new), V>(s: seq<Slot<K, V>>, hash: K -> nat, k: K, v: V, p: nat)
    requires |s| >= WINDOW && StopSlot(s, hash, k) == Some(p)
    ensures p < |s| && Lookup(s[p := Used(k, v)], hash, k) == Some(v)
  {
  }

  /** Writing the entry where the probe stops is a map update, and keeps every entry in its window. */
  lemma PlaceUpdatesMap<K(!new), V>(s: seq<Slot<K, V>>, hash: K -> nat, k: K, v: V, p: nat)
    requires Wf(s, hash) && StopSlot(s, hash, k) == Some(p)
    ensures p < |s|
    ensures Wf(s[p := Used(k, v)], hash)
    ensures KeysOf(s[p := Used(k, v)]) == KeysOf(s) + {k}
    ensures Contents(s[p := Used(k, v)], hash) == Contents(s, hash)[k := v]
  {
    PlaceKeepsWf(s, hash, k, v, p);
    assert |s| >= WINDOW;
    PlaceAddsKey(s, k, v, p);
    PlaceIsFound(s, hash, k, v, p);
    hide Wf, Contents, KeysOf, Lookup;
    forall x | x != k ensures Lookup(s[p := Used(k, v)], hash, x) == Lookup(s, hash, x) {
      OthersAreFound(s, hash, k, v, p, x);
    }
    UpdateByLookup(s, s[p := Used(k, v)], hash, k, v);
  }

  lemma OthersAreFound<K(!new), V>(s: seq<Slot<K, V>>, hash: K -> nat, k: K, v: V, p: nat, x: K)
    requires |s| >= WINDOW && StopSlot(s, hash, k) == Some(p) && x != k
    ensures p < |s| && Lookup(s[p := Used(k, v)], hash, x) == Lookup(s, hash, x)
  {
    SameMatchesSameLookup(s, s[p := Used(k, v)], Home(hash, x, |s|), x, 0);
  }

  lemma UpdateByLookup<K(!new), V>(s: seq<Slot<K, V>>, t: seq<Slot<K, V>>, hash: K -> nat, k: K, v: V)
    requires Wf(s, hash) && Wf(t, hash) && KeysOf(t) == KeysOf(s) + {k}
    requires Lookup(t, hash, k) == Some(v) && forall x :: x != k ==> Lookup(t, hash, x) == Lookup(s, hash, x)
    ensures Contents(t, hash) == Contents(s, hash)[k := v]
  {
    hide KeysOf, Lookup;
    ContentsIsLookup(s, hash);
    ContentsIsLookup(t, hash);
    hide Wf, Contents;
    forall x | x in Contents(t, hash) ensures Contents(t, hash)[x] == Contents(s, hash)[k := v][x] {
      assert Lookup(t, hash, x) == Some(Contents(t, hash)[x]);
    }
  }

  lemma PlaceKeepsTight<K(!new), V>(s: seq<Slot<K, V>>, hash: K -> nat, k: K, v: V, p: nat)
    requires Tight(s, hash) && StopSlot(s, hash, k) == Some(p)
    ensures Tight(s[p := Used(k, v)], hash)
  {
    var t := s[p := Used(k, v)];
    forall j: nat | j < |s| ensures NoHoleBefore(t, hash, j) {
      assert NoHoleBefore(s, hash, j);
      if j == p {
        var home := Home(hash, k, |s|);
        assert Dist(home, p, |s|) == FirstStop(s, home, k, 0);
      }
    }
  }

  /** Keys stay unique exactly when the insertion does not stop at a free slot with `k` still further on. */
  lemma PlaceKeepsUniqueIff<K(!new), V>(s: seq<Slot<K, V>>, hash: K -> nat, k: K, v: V, p: nat)
    requires Wf(s, hash) && Unique(s) && StopSlot(s, hash, k) == Some(p)
    ensures Unique(s[p := Used(k, v)]) <==> (k !in KeysOf(s) || s[p].Used?)
  {
    var t := s[p := Used(k, v)];
    if k !in KeysOf(s) {
      forall j | 0 <= j < |s| && s[j].Used? ensures s[j].key != k { assert s[j].key in KeysOf(s); }
    } else if s[p].Free? {
      var j :| 0 <= j < |s| && s[j].Used? && s[j].key == k;
      assert t[j].key == t[p].key && j != p;
      if j < p {} else {}
      assert !Unique(t);
    }
  }

  /** In a tight table an insertion of a stored key always reaches that key. */
  lemma TightReachesKey<K(!new), V>(s: seq<Slot<K, V>>, hash: K -> nat, k: K)
    requires Wf(s, hash) && Tight(s, hash) && k in KeysOf(s)
    ensures StopSlot(s, hash, k).Some? && s[StopSlot(s, hash, k).value].Used?
  {
    var n := |s|;
    var home := Home(hash, k, n);
    var j: nat :| j < n && s[j].Used? && s[j].key == k;
    assert InWindow(s, hash, j) && NoHoleBefore(s, hash, j);
    var d := FirstStop(s, home, k, 0);
    assert At(home, Dist(home, j, n), n) == j;
    assert d <= Dist(home, j, n);
  }

  // ----- Counting --------------------------------------------------------------------------------

  lemma {:induction false} CountUpdate<K, V>(s: seq<Slot<K, V>>, p: nat, x: Slot<K, V>)
    requires p < |s|
    ensures Count(s[p := x]) == Count(s) - (if s[p].Used? then 1 else 0) + (if x.Used? then 1 else 0)
  {
    var m := |s| - 1;
    if p == m {
      assert s[p := x][..m] == s[..m];
    } else {
      assert s[p := x][..m] == s[..m][p := x];
      CountUpdate(s[..m], p, x);
    }
  }

  lemma {:induction false} CountFree<K, V>(s: seq<Slot<K, V>>)
    requires forall j :: 0 <= j < |s| ==> s[j].Free?
    ensures Count(s) == 0
  {
    if s != [] { CountFree(s[..|s| - 1]); }
  }

  lemma KeysOfNext<K(!new), V>(s: seq<Slot<K, V>>, i: nat)
    requires i < |s|
    ensures KeysOf(s[..i + 1]) == KeysOf(s[..i]) + (if s[i].Used? then {s[i].key} else {})
  {
  }

  /** With unique keys, `size` is the number of keys. */
  lemma {:induction false} CountIsCardinality<K(!new), V>(s: seq<Slot<K, V>>)
    requires Unique(s)
    ensures Count(s) == |KeysOf(s)|
  {
    if s != [] {
      var m := |s| - 1;
      UniqueFront(s, m);
      CountIsCardinality(s[..m]);
      KeysOfNext(s, m);
      assert s[..m + 1] == s;
    }
  }

  lemma UniqueFront<K(!new), V>(s: seq<Slot<K, V>>, m: nat)
    requires m < |s| && Unique(s)
    ensures Unique(s[..m])
    ensures s[m].Used? ==> s[m].key !in KeysOf(s[..m])
  {
  }

  // ----- Slot order ------------------------------------------------------------------------------

  lemma {:induction false} SlotOrderOfUnique<K(!new), V>(s: seq<Slot<K, V>>, i: nat)
    requires Unique(s) && i <= |s|
    ensures forall j :: 0 <= j < i && s[j].Used? ==> s[j].key in SlotOrder(s, i) && SlotOrder(s, i)[s[j].key] == s[j].val
    ensures forall k :: k in SlotOrder(s, i) ==> exists j :: 0 <= j < i && s[j].Used? && s[j].key == k
  {
    if i > 0 { SlotOrderOfUnique(s, i - 1); }
  }

  /** With unique keys, storing the slots one by one gives the map that lookups see. */
  lemma SlotOrderIsContents<K(!new), V>(s: seq<Slot<K, V>>, hash: K -> nat)
    requires Wf(s, hash) && Unique(s)
    ensures SlotOrder(s, |s|) == Contents(s, hash)
  {
    var m := SlotOrder(s, |s|);
    SlotOrderOfUnique(s, |s|);
    ContentsIsLookup(s, hash);
    forall k ensures k in m <==> k in Contents(s, hash) {
      if k in m { var j :| 0 <= j < |s| && s[j].Used? && s[j].key == k; assert s[j].key in KeysOf(s); }
      if k in Contents(s, hash) { var j :| 0 <= j < |s| && s[j].Used? && s[j].key == k; }
    }
    forall k | k in m ensures m[k] == Contents(s, hash)[k] {
      var j :| 0 <= j < |s| && s[j].Used? && s[j].key == k;
      EntryIsFound(s, hash, j);
    }
  }
}
