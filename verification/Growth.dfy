/** When growing the hash table is bound to help: sizes double, and once a size spreads all keys over
    distinct home slots at less than half load, no insertion can find its window full. */
module Growth {
  import opened Options
  import opened Probing

  /** `n` doubled `e` times. */
  function Scaled(n: nat, e: nat): (r: nat)
    ensures r >= n
    decreases e
  {
    if e == 0 then n else Scaled(2 * n, e - 1)
  }

  lemma {:induction false} ScaledAdd(n: nat, a: nat, b: nat)
    ensures Scaled(Scaled(n, a), b) == Scaled(n, a + b)
    decreases a
  {
    if a > 0 { ScaledAdd(2 * n, a - 1, b); }
  }

  lemma {:induction false} ScaledIsMultiple(n: nat, e: nat)
    ensures Scaled(n, e) == n * Scaled(1, e)
    decreases e
  {
    if e > 0 {
      ScaledIsMultiple(2 * n, e - 1);
      ScaledIsMultiple(2, e - 1);
      hide Scaled;
      Regroup(n, Scaled(1, e - 1));
    }
  }

  lemma Regroup(n: nat, x: nat)
    ensures 2 * n * x == n * (2 * x)
  {
  }

  lemma ScaledSteps(n: nat, e: nat)
    ensures Scaled(n, 0) == n && Scaled(n, 1) == 2 * n
    ensures e == 0 ==> Scaled(n, e) == n
    ensures e > 0 ==> Scaled(n, e) >= 2 * n
  {
  }

  /** Every bound is reached by doubling, overshooting by less than a factor of two. */
  lemma {:induction false} DoublingReaches(n: nat, bound: nat) returns (e: nat)
    requires n > 0
    ensures Scaled(n, e) >= bound
    ensures Scaled(n, e) == n || Scaled(n, e) < 2 * bound
    decreases if n < bound then bound - n else 0
  {
    if n >= bound {
      e := 0;
    } else {
      var f := DoublingReaches(2 * n, bound);
      e := f + 1;
    }
  }

  ghost predicate Spread<K(!new)>(keys: set<K>, hash: K -> nat, n: nat) {
    && |keys| < n / 2
    && forall a, b {:trigger Home(hash, a, n), Home(hash, b, n)} ::
         a in keys && b in keys && a != b ==> Home(hash, a, n) != Home(hash, b, n)
  }

  /** Keys with pairwise distinct hashes below `range` are spread by every size past `range` that halves the load. */
  lemma DistinctHashesSpread<K(!new)>(keys: set<K>, hash: K -> nat, range: nat, n: nat)
    requires forall a :: a in keys ==> hash(a) < range
    requires forall a, b {:trigger hash(a), hash(b)} :: a in keys && b in keys && hash(a) == hash(b) ==> a == b
    requires n >= range && n >= 2 * |keys| + 2
    ensures Spread(keys, hash, n)
  {
    forall a | a in keys ensures Home(hash, a, n) == hash(a) { SmallModIsItself(hash(a), n); }
    forall a, b | a in keys && b in keys && a != b ensures Home(hash, a, n) != Home(hash, b, n) {
      assert Home(hash, a, n) == hash(a) && Home(hash, b, n) == hash(b);
    }
  }

  lemma SmallModIsItself(a: nat, n: nat)
    requires a < n
    ensures a % n == a
  {
  }

  ghost predicate AtHome<K(!new), V>(s: seq<Slot<K, V>>, hash: K -> nat) {
    |s| >= WINDOW && forall j: nat {:trigger s[j]} :: j < |s| && s[j].Used? ==> Home(hash, s[j].key, |s|) == j
  }

  /** All keys of the table come from `keys`, and a size that spreads them has them all in their home slots. */
  ghost predicate Settled<K(!new), V>(s: seq<Slot<K, V>>, hash: K -> nat, keys: set<K>) {
    && KeysOf(s) <= keys
    && (Spread(keys, hash, |s|) ==> AtHome(s, hash))
  }

  lemma SettledKeys<K(!new), V>(s: seq<Slot<K, V>>, hash: K -> nat, keys: set<K>)
    requires Settled(s, hash, keys)
    ensures KeysOf(s) <= keys
  {
  }

  /** A table of a size that spreads its keys is never full for any of them. */
  lemma SpreadIsNeverFull<K(!new), V>(s: seq<Slot<K, V>>, hash: K -> nat, keys: set<K>, k: K)
    requires Wf(s, hash) && Settled(s, hash, keys) && Spread(keys, hash, |s|) && k in keys
    ensures Count(s) < |s| / 2
    ensures StopSlot(s, hash, k) == Some(Home(hash, k, |s|))
  {
    assert Unique(s);
    CountIsCardinality(s);
    SubsetIsSmaller(KeysOf(s), keys);
    var h := Home(hash, k, |s|);
    if s[h].Used? { assert s[h].key in KeysOf(s); }
    assert At(h, 0, |s|) == h;
  }

  lemma {:induction false} SubsetIsSmaller<T>(a: set<T>, b: set<T>)
    requires a <= b
    ensures |a| <= |b|
  {
    if a != {} {
      var x :| x in a;
      SubsetIsSmaller(a - {x}, b - {x});
    }
  }

  lemma PlaceKeepsSettled<K(!new), V>(s: seq<Slot<K, V>>, hash: K -> nat, keys: set<K>, k: K, v: V, p: nat)
    requires Wf(s, hash) && Settled(s, hash, keys) && k in keys && StopSlot(s, hash, k) == Some(p)
    ensures Settled(s[p := Used(k, v)], hash, keys)
  {
  }

  // ----- No size helps nine keys with one hash ---------------------------------------------------

  /** Nine keys with one hash share a window of eight slots: no table of any size holds them all. */
  lemma NineCollidersNeverFit<K(!new), V>(s: seq<Slot<K, V>>, hash: K -> nat, keys: set<K>)
    requires Wf(s, hash)
    requires |keys| > WINDOW
    requires forall a, b :: a in keys && b in keys ==> hash(a) == hash(b)
    ensures !(keys <= KeysOf(s))
  {
    if keys <= KeysOf(s) {
      var c :| c in keys;
      var home := Home(hash, c, |s|);
      CollidersInPrefix(s, hash, keys, home, 0);
    }
  }

  lemma {:induction false} CollidersInPrefix<K(!new), V>(s: seq<Slot<K, V>>, hash: K -> nat, keys: set<K>, home: nat, i: nat)
    requires Wf(s, hash) && home < |s| && i <= WINDOW
    requires keys <= KeysOf(s)
    requires forall a :: a in keys ==> Home(hash, a, |s|) == home
    requires forall a, j: nat :: a in keys && j < |s| && Matches(s[j], a) ==> Dist(home, j, |s|) >= i
    ensures |keys| <= WINDOW - i
    decreases WINDOW - i
  {
    if keys != {} {
      var c :| c in keys;
      var j0: nat :| j0 < |s| && s[j0].Used? && s[j0].key == c;
      assert Matches(s[j0], c) && InWindow(s, hash, j0);
      var p := At(home, i, |s|);
      var rest := if s[p].Used? then keys - {s[p].key} else keys;
      forall a, j: nat | a in rest && j < |s| && Matches(s[j], a) ensures Dist(home, j, |s|) >= i + 1 {
        assert Dist(home, j, |s|) == i ==> j == p;
      }
      CollidersInPrefix(s, hash, rest, home, i + 1);
    }
  }
}
