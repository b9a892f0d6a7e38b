/** Bytes, big-endian integers and NUL-terminated strings. */
module Bytes {
  type byte = x: int | 0 <= x < 256

  function Pow256(n: nat): (r: nat)
    ensures r > 0
  {
    if n == 0 then 1 else 256 * Pow256(n - 1)
  }

  /** The last `n` base-256 digits of `v`, most significant first: what htons, htonl and htonll store. */
  function BE(n: nat, v: nat): (s: seq<byte>)
    ensures |s| == n
  {
    if n == 0 then [] else BE(n - 1, v / 256) + [v % 256]
  }

  /** The number a big-endian field denotes. */
  function UnBE(s: seq<byte>): (v: nat)
    ensures v < Pow256(|s|)
  {
    if s == [] then 0 else 256 * UnBE(s[..|s| - 1]) + s[|s| - 1]
  }

  /** Reading back a stored integer loses exactly what its field cannot hold. */
  lemma {:induction false} ReadBack(n: nat, v: nat)
    ensures UnBE(BE(n, v)) == v % Pow256(n)
  {
    if n > 0 {
      assert BE(n, v)[..n - 1] == BE(n - 1, v / 256);
      ReadBack(n - 1, v / 256);
      SplitMod(v, Pow256(n - 1));
    }
  }

  lemma SplitMod(v: nat, p: nat)
    requires p > 0
    ensures 256 * (v / 256 % p) + v % 256 == v % (256 * p)
  {
    var q, r := v / 256, v % 256;
    var a, b := q / p, q % p;
    assert v == 256 * q + r;
    assert q == p * a + b;
    assert v == (256 * p) * a + (256 * b + r) by {
      assert 256 * (p * a) == (256 * p) * a;
    }
    assert 256 * b + r < 256 * p;
    ModIs(v, 256 * p, a, 256 * b + r);
  }

  lemma ModIs(v: nat, n: nat, q: nat, r: nat)
    requires r < n && v == n * q + r
    ensures v % n == r
  {
    var d := v / n - q;
    assert v == n * (v / n) + v % n;
    assert n * d == n * (v / n) - n * q;
    MulAtLeast(n, d);
  }

  lemma MulAtLeast(n: nat, d: int)
    ensures d >= 1 ==> n * d >= n
    ensures d <= -1 ==> n * d + n <= 0
  {
  }

  /** A field is determined by the number it denotes. */
  lemma {:induction false} WriteBack(s: seq<byte>)
    ensures BE(|s|, UnBE(s)) == s
  {
    if s != [] {
      WriteBack(s[..|s| - 1]);
      assert UnBE(s) / 256 == UnBE(s[..|s| - 1]);
    }
  }

  lemma Pows()
    ensures Pow256(1) == 0x100 && Pow256(2) == 0x1_0000 && Pow256(4) == 0x1_0000_0000
    ensures Pow256(8) == 0x1_0000_0000_0000_0000
  {
  }

  // ----- Strings ---------------------------------------------------------------------------------

  /** A string is the bytes before its terminating NUL slot; `strlen` stops at an earlier NUL if there is one. */
  function StrLen(s: seq<byte>): (n: nat)
    ensures n <= |s|
    ensures forall i :: 0 <= i < n ==> s[i] != 0
    ensures n < |s| ==> s[n] == 0
  {
    if s == [] || s[0] == 0 then 0 else 1 + StrLen(s[1..])
  }

  predicate NulFree(s: seq<byte>) {
    forall i :: 0 <= i < |s| ==> s[i] != 0
  }

  /** What `strlen` and `memcpy` see of a string. */
  function Visible(s: seq<byte>): (r: seq<byte>)
    ensures NulFree(r) && |r| <= |s|
    ensures r == s <==> NulFree(s)
    ensures |r| == |s| <==> NulFree(s)
  {
    s[..StrLen(s)]
  }

  /** `strcmp` finds no difference: byte by byte, up to the terminating NUL. */
  predicate SameString(s: seq<byte>, t: seq<byte>) {
    if s == [] || s[0] == 0 then t == [] || t[0] == 0 else t != [] && t[0] == s[0] && SameString(s[1..], t[1..])
  }

  /** The visible part is the prefix without NUL that ends at the string's end or before a NUL. */
  lemma VisibleIs(s: seq<byte>, r: seq<byte>)
    ensures r == Visible(s) <==> r <= s && NulFree(r) && (|r| == |s| || s[|r|] == 0)
  {
  }

  /** Two strings are the same for `strcmp` exactly when their visible parts are equal. */
  lemma {:induction false} SameStringIff(s: seq<byte>, t: seq<byte>)
    ensures SameString(s, t) <==> Visible(s) == Visible(t)
  {
    if s != [] && s[0] != 0 && t != [] && t[0] != 0 {
      SameStringIff(s[1..], t[1..]);
      VisibleCons(s);
      VisibleCons(t);
    }
  }

  lemma VisibleCons(s: seq<byte>)
    requires s != [] && s[0] != 0
    ensures Visible(s) == [s[0]] + Visible(s[1..])
  {
  }

  // ----- Overwriting -----------------------------------------------------------------------------

  /** `s` with `w` written at position `p`. */
  function Splice(s: seq<byte>, p: nat, w: seq<byte>): (r: seq<byte>)
    requires p + |w| <= |s|
    ensures |r| == |s|
  {
    s[..p] + w + s[p + |w|..]
  }

  lemma SpliceTwice(s: seq<byte>, p: nat, w: seq<byte>, x: seq<byte>)
    requires p + |w| + |x| <= |s|
    ensures Splice(Splice(s, p, w), p + |w|, x) == Splice(s, p, w + x)
  {
  }

  lemma SpliceNext(s: seq<byte>, p: nat, w: seq<byte>, i: nat)
    requires i < |w| && p + |w| <= |s|
    ensures Splice(s, p, w[..i])[p + i := w[i]] == Splice(s, p, w[..i + 1])
  {
  }

  lemma SplicePrevious(s: seq<byte>, p: nat, w: seq<byte>, i: nat)
    requires i < |w| && p + |w| <= |s|
    ensures Splice(s, p + i + 1, w[i + 1..])[p + i := w[i]] == Splice(s, p + i, w[i..])
  {
  }

  /** Writing the digits from the last one on. */
  lemma LastDigit(i: nat, v: nat, w: seq<byte>)
    requires i < |w| && w == BE(i + 1, v) + w[i + 1..]
    ensures w[i] == v % 256 && w == BE(i, v / 256) + w[i..]
  {
  }

  lemma SpliceNothing(s: seq<byte>, p: nat)
    requires p <= |s|
    ensures Splice(s, p, []) == s
  {
  }

  lemma SpliceAll(s: seq<byte>, w: seq<byte>)
    requires |s| == |w|
    ensures Splice(s, 0, w) == w
  {
  }

  lemma SpliceFront(s: seq<byte>, w: seq<byte>)
    requires |w| <= |s|
    ensures Splice(s, 0, w) == w + s[|w|..]
  {
  }

  // ----- Bounded buffers -------------------------------------------------------------------------

  /** What a ring of capacity `max` keeps of `s`. */
  function Capped(s: seq<byte>, max: nat): (r: seq<byte>)
    ensures r <= s
    ensures |r| == if |s| <= max then |s| else max
  {
    if |s| <= max then s else s[..max]
  }

  lemma CappedTwice(a: seq<byte>, b: seq<byte>, max: nat)
    ensures Capped(Capped(a, max) + b, max) == Capped(a + b, max)
  {
  }

  lemma CappedStart(s: seq<byte>, stream: seq<byte>, max: nat)
    requires |s| <= max
    ensures Capped(s + stream[..0], max) == s
  {
  }

  /** What a ring keeps when the next `n` bytes of a stream are pushed after the first `i`. */
  lemma CappedGrows(s: seq<byte>, stream: seq<byte>, i: nat, n: nat, max: nat)
    requires i + n <= |stream|
    ensures Capped(Capped(s + stream[..i], max) + stream[i..][..n], max) == Capped(s + stream[..i + n], max)
    ensures stream[i..][n..] == stream[i + n..]
  {
    PrefixGrows(s, stream, i, n);
    CappedTwice(s + stream[..i], stream[i..][..n], max);
  }

  lemma PrefixGrows(s: seq<byte>, stream: seq<byte>, i: nat, n: nat)
    requires i + n <= |stream|
    ensures s + stream[..i] + stream[i..][..n] == s + stream[..i + n]
    ensures stream[i..][n..] == stream[i + n..]
  {
  }
}
