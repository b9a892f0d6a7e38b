/** The rest of the key hash of src/hashmap.c: the mixing steps on a 64-bit word, and the multiplication. */
module Mixing {
  import opened Crc

  // ----- Exclusive or, on numbers ----------------------------------------------------------------

  function XorBit(a: nat, b: nat): nat { if a % 2 == b % 2 then 0 else 1 }

  function XorNat(a: nat, b: nat): nat
    decreases a + b
  {
    if a == 0 && b == 0 then 0 else XorBit(a, b) + 2 * XorNat(a / 2, b / 2)
  }

  function Pow2(n: nat): (r: nat)
    ensures r > 0
  {
    if n == 0 then 1 else 2 * Pow2(n - 1)
  }

  /** `a` shifted right by `k` bits. */
  function Shr(a: nat, k: nat): nat {
    if k == 0 then a else Shr(a / 2, k - 1)
  }

  lemma {:induction false} XorHalf(a: nat, b: nat)
    ensures XorNat(a, b) / 2 == XorNat(a / 2, b / 2) && XorNat(a, b) % 2 == XorBit(a, b)
  {
    if a == 0 && b == 0 { assert XorNat(0, 0) == 0; }
  }

  lemma {:induction false} XorSame(a: nat, b: nat)
    ensures XorNat(a, b) == 0 <==> a == b
    decreases a + b
  {
    if a > 0 || b > 0 { XorSame(a / 2, b / 2); }
  }

  /** Four words, exchanged. */
  lemma {:induction false} XorExchange(a: nat, b: nat, c: nat, d: nat)
    ensures XorNat(XorNat(a, b), XorNat(c, d)) == XorNat(XorNat(a, c), XorNat(b, d))
    decreases a + b + c + d
  {
    if a + b + c + d > 0 {
      XorExchange(a / 2, b / 2, c / 2, d / 2);
      XorHalf(a, b);
      XorHalf(c, d);
      XorHalf(a, c);
      XorHalf(b, d);
      XorHalf(XorNat(a, b), XorNat(c, d));
      XorHalf(XorNat(a, c), XorNat(b, d));
    }
  }

  lemma {:induction false} XorShr(a: nat, b: nat, k: nat)
    ensures Shr(XorNat(a, b), k) == XorNat(Shr(a, k), Shr(b, k))
    decreases k
  {
    if k > 0 {
      XorHalf(a, b);
      XorShr(a / 2, b / 2, k - 1);
    }
  }

  lemma {:induction false} ShrShrinks(a: nat, k: nat)
    ensures Shr(a, k) <= a && (k > 0 && a > 0 ==> Shr(a, k) < a)
    decreases k
  {
    if k > 0 { ShrShrinks(a / 2, k - 1); }
  }

  lemma {:induction false} XorBelow(a: nat, b: nat, n: nat)
    requires a < Pow2(n) && b < Pow2(n)
    ensures XorNat(a, b) < Pow2(n)
    decreases n
  {
    if n > 0 && (a > 0 || b > 0) { XorBelow(a / 2, b / 2, n - 1); }
  }

  // ----- The steps -------------------------------------------------------------------------------

  const WORD: nat := 0x1_0000_0000_0000_0000

  /** `key ^= key >> k`. */
  function Fold(x: nat, k: nat): nat {
    XorNat(x, Shr(x, k))
  }

  /** Folding loses nothing. */
  lemma FoldInjective(x: nat, y: nat, k: nat)
    requires k > 0 && Fold(x, k) == Fold(y, k)
    ensures x == y
  {
    var d := XorNat(x, y);
    XorSame(Fold(x, k), Fold(y, k));
    XorExchange(x, Shr(x, k), y, Shr(y, k));
    XorShr(x, y, k);
    XorSame(d, Shr(d, k));
    ShrShrinks(d, k);
    XorSame(x, y);
  }

  /** `key += key << k` and the multiplication: a product modulo the word. */
  function Times(a: nat, x: nat): nat {
    a * x % WORD
  }

  lemma {:induction false} PowAdd(a: nat, b: nat)
    ensures Pow2(a + b) == Pow2(a) * Pow2(b)
    decreases a
  {
    if a > 0 {
      PowAdd(a - 1, b);
      Regroup(2, Pow2(a - 1), Pow2(b));
    }
  }

  lemma Regroup(a: nat, b: nat, c: nat)
    ensures a * (b * c) == (a * b) * c
  {
  }

  lemma WordIsPow()
    ensures WORD == Pow2(64)
  {
    assert Pow2(4) == 16;
    hide Pow2;
    PowAdd(4, 4);
    PowAdd(8, 8);
    PowAdd(16, 16);
    PowAdd(32, 32);
  }

  /** An odd factor can be cancelled modulo a power of two. */
  lemma {:induction false} OddCancels(a: nat, d: nat, n: nat, q: nat) returns (r: nat)
    requires a % 2 == 1 && a * d == Pow2(n) * q
    ensures d == Pow2(n) * r
    decreases n
  {
    if n == 0 {
      r := d;
    } else {
      Regroup(2, Pow2(n - 1), q);
      EvenFactor(a, d, Pow2(n - 1) * q);
      var e := d / 2;
      Regroup(a, 2, e);
      Regroup(2, a, e);
      r := OddCancels(a, e, n - 1, q);
      Regroup(2, Pow2(n - 1), r);
    }
  }

  lemma OddProduct(b: nat, e: nat)
    ensures (2 * b + 1) * (2 * e + 1) == 2 * (2 * (b * e) + b + e) + 1
  {
  }

  lemma EvenFactor(a: nat, d: nat, m: nat)
    requires a % 2 == 1 && a * d == 2 * m
    ensures d % 2 == 0
  {
    OddProduct(a / 2, d / 2);
  }

  lemma SameRemainder(u: nat, v: nat, n: nat) returns (q: nat)
    requires n > 0 && u >= v && u % n == v % n
    ensures u - v == n * q
  {
    q := u / n - v / n;
    assert u == n * (u / n) + u % n && v == n * (v / n) + v % n;
    Distributes(n, u / n, v / n);
  }

  lemma Distributes(n: nat, a: int, b: int)
    ensures n * (a - b) == n * a - n * b
  {
  }

  lemma SmallMultiple(n: nat, r: nat, d: nat)
    requires d == n * r && d < n
    ensures d == 0
  {
    AtLeastOnce(n, r);
  }

  lemma AtLeastOnce(n: nat, r: nat)
    ensures r > 0 ==> n * r >= n
  {
  }

  lemma Larger(a: nat, x: nat, y: nat)
    requires x >= y
    ensures a * x >= a * y
  {
  }

  lemma ProductInjective(a: nat, x: nat, y: nat, m: nat, n: nat)
    requires a % 2 == 1 && m == Pow2(n) && x < m && y < m && a * x % m == a * y % m
    ensures x == y
    decreases y
  {
    hide Pow2;
    if x < y {
      ProductInjective(a, y, x, m, n);
    } else {
      Distributes(a, x, y);
      Larger(a, x, y);
      var q := SameRemainder(a * x, a * y, m);
      var r := OddCancels(a, x - y, n, q);
      SmallMultiple(m, r, x - y);
    }
  }

  /** Multiplying by an odd number loses nothing. */
  lemma TimesInjective(a: nat, x: nat, y: nat)
    requires a % 2 == 1 && x < WORD && y < WORD && Times(a, x) == Times(a, y)
    ensures x == y
  {
    WordIsPow();
    ProductInjective(a, x, y, WORD, 64);
  }

  // ----- The hash --------------------------------------------------------------------------------

  /** The eight mixing steps. */
  function Mix(x: nat): nat {
    var a := Fold(Times(4097, x), 22);
    var b := Fold(Times(17, a), 9);
    var c := Fold(Times(1025, b), 2);
    Fold(Times(129, c), 12)
  }

  /** `hashmap_hash_int` before `% table_size`, on the checksum. */
  function HashWord(x: nat): nat {
    Times(2654435761, Mix(x) / 8)
  }

  lemma FoldBelow(x: nat, k: nat)
    requires x < WORD
    ensures Fold(x, k) < WORD
  {
    WordIsPow();
    ShrShrinks(x, k);
    XorBelow(x, Shr(x, k), 64);
  }

  lemma StepInjective(a: nat, k: nat, x: nat, y: nat)
    requires a % 2 == 1 && k > 0 && x < WORD && y < WORD && Fold(Times(a, x), k) == Fold(Times(a, y), k)
    ensures x == y
  {
    hide Fold, Times;
    FoldInjective(Times(a, x), Times(a, y), k);
    TimesInjective(a, x, y);
  }

  lemma StepBelow(a: nat, k: nat, x: nat)
    ensures Fold(Times(a, x), k) < WORD
  {
    FoldBelow(Times(a, x), k);
  }

  /** Mixing loses nothing. */
  lemma MixInjective(x: nat, y: nat)
    requires x < WORD && y < WORD && Mix(x) == Mix(y)
    ensures x == y
  {
    hide Fold, Times;
    var a, a' := Fold(Times(4097, x), 22), Fold(Times(4097, y), 22);
    var b, b' := Fold(Times(17, a), 9), Fold(Times(17, a'), 9);
    var c, c' := Fold(Times(1025, b), 2), Fold(Times(1025, b'), 2);
    StepBelow(4097, 22, x);
    StepBelow(4097, 22, y);
    StepBelow(17, 9, a);
    StepBelow(17, 9, a');
    StepBelow(1025, 2, b);
    StepBelow(1025, 2, b');
    StepInjective(129, 12, c, c');
    StepInjective(1025, 2, b, b');
    StepInjective(17, 9, a, a');
    StepInjective(4097, 22, x, y);
  }

  lemma MixBelow(x: nat)
    ensures Mix(x) < WORD
  {
    hide Fold, Times;
    var a := Fold(Times(4097, x), 22);
    var b := Fold(Times(17, a), 9);
    StepBelow(129, 12, Fold(Times(1025, b), 2));
  }

  /** Two words have one hash exactly when their mixed words agree in all but the low three bits. */
  lemma SameHashIff(x: nat, y: nat)
    ensures HashWord(x) == HashWord(y) <==> Mix(x) / 8 == Mix(y) / 8
  {
    hide Mix, Times;
    MixBelow(x);
    MixBelow(y);
    if HashWord(x) == HashWord(y) { TimesInjective(2654435761, Mix(x) / 8, Mix(y) / 8); }
  }

  /** No more than eight words have one hash. */
  lemma AtMostEightShareAHash(words: set<nat>)
    requires forall x, y :: x in words && y in words ==> HashWord(x) == HashWord(y)
    requires forall x :: x in words ==> x < WORD
    ensures |words| <= 8
  {
    hide HashWord, Mix;
    forall x, y | x in words && y in words && Mix(x) % 8 == Mix(y) % 8 ensures x == y {
      SameHashIff(x, y);
      MixInjective(x, y);
    }
    ResidueBound(words, 8);
  }

  lemma {:induction false} ResidueBound(words: set<nat>, n: nat)
    requires n <= 8 && forall x :: x in words ==> Mix(x) % 8 < n
    requires forall x, y :: x in words && y in words && Mix(x) % 8 == Mix(y) % 8 ==> x == y
    ensures |words| <= n
    decreases n
  {
    hide Mix;
    if n == 0 {
      assert forall x :: x !in words;
    } else {
      var rest := set x | x in words && Mix(x) % 8 < n - 1;
      ResidueBound(rest, n - 1);
      if x :| x in words && Mix(x) % 8 == n - 1 {
        assert words == rest + {x};
      } else {
        assert words == rest;
      }
    }
  }

  // ----- What the hash computes, bit by bit --------------------------------------------------------

  function BitOf(x: nat, i: nat): (b: nat)
    ensures b < 2
  {
    x / Pow2(i) % 2
  }

  lemma DivTwice(x: nat, a: nat, b: nat)
    requires a > 0 && b > 0
    ensures a * b > 0 && x / a / b == x / (a * b)
  {
    var q, q' := x / a, x / a / b;
    TwoLevels(x, a, b, q, x % a, q', q % b);
    Quotient(x, a * b, q', a * (q % b) + x % a);
  }

  lemma TwoLevels(x: nat, a: nat, b: nat, q: nat, r: nat, q': nat, r': nat)
    requires r < a && r' < b && x == a * q + r && q == b * q' + r'
    ensures a * b > 0 && a * r' + r < a * b && x == a * b * q' + (a * r' + r)
  {
    Distribute(a, b * q', r');
    Regroup(a, b, q');
    RemainderBelow(a, b, r', r);
  }

  lemma Distribute(a: int, x: int, y: int)
    ensures a * (x + y) == a * x + a * y
  {
  }

  lemma RemainderBelow(a: nat, b: nat, s: nat, r: nat)
    requires s < b && r < a
    ensures a * s + r < a * b
  {
    Larger(a, b, s + 1);
    Distribute(a, s, 1);
  }

  lemma Quotient(x: nat, n: nat, q: nat, r: nat)
    requires n > 0 && r < n && x == n * q + r
    ensures x / n == q
  {
    var d := x / n - q;
    assert x == n * (x / n) + x % n;
    Distributes(n, x / n, q);
    TooFar(n, d);
  }

  lemma TooFar(n: int, d: int)
    requires n >= 0
    ensures d >= 1 ==> n * d >= n
    ensures d <= -1 ==> n * d <= -n
  {
  }

  lemma {:induction false} ShrIsDiv(x: nat, k: nat)
    ensures Shr(x, k) == x / Pow2(k)
    decreases k
  {
    if k > 0 {
      ShrIsDiv(x / 2, k - 1);
      DivTwice(x, 2, Pow2(k - 1));
    }
  }

  lemma BitOfHalf(x: nat, i: nat)
    ensures BitOf(x / 2, i) == BitOf(x, i + 1)
  {
    DivTwice(x, 2, Pow2(i));
  }

  lemma LowBit(x: nat)
    ensures BitOf(x, 0) == x % 2
  {
  }

  lemma {:induction false} XorBits(a: nat, b: nat, i: nat)
    ensures BitOf(XorNat(a, b), i) == (BitOf(a, i) + BitOf(b, i)) % 2
    decreases i
  {
    hide XorNat, BitOf;
    XorHalf(a, b);
    if i == 0 {
      LowBit(a);
      LowBit(b);
      LowBit(XorNat(a, b));
    } else {
      XorBits(a / 2, b / 2, i - 1);
      BitOfHalf(a, i - 1);
      BitOfHalf(b, i - 1);
      BitOfHalf(XorNat(a, b), i - 1);
    }
  }

  /** Folding: each bit of the result is that bit of the word, plus the bit `k` places above it, without carry. */
  lemma FoldBits(x: nat, k: nat, i: nat)
    ensures BitOf(Fold(x, k), i) == (BitOf(x, i) + BitOf(x, i + k)) % 2
  {
    hide XorNat, Shr;
    XorBits(x, Shr(x, k), i);
    ShrIsDiv(x, k);
    DivTwice(x, Pow2(k), Pow2(i));
    PowAdd(k, i);
  }

  /** The bits determine the word. */
  lemma {:induction false} BitsDetermine(x: nat, y: nat, n: nat)
    requires x < Pow2(n) && y < Pow2(n) && forall i: nat :: i < n ==> BitOf(x, i) == BitOf(y, i)
    ensures x == y
    decreases n
  {
    if n > 0 {
      assert BitOf(x, 0) == BitOf(y, 0);
      forall i: nat | i < n - 1 ensures BitOf(x / 2, i) == BitOf(y / 2, i) {
        BitOfHalf(x, i);
        BitOfHalf(y, i);
      }
      BitsDetermine(x / 2, y / 2, n - 1);
    }
  }

  /** The product with 2^k + 1 is what `key += key << k` leaves: the word and its shift, each cut to 64 bits. */
  lemma TimesIsShiftAdd(x: nat, k: nat)
    ensures Times(Pow2(k) + 1, x) == (x + x * Pow2(k) % WORD) % WORD
  {
    hide Pow2;
    Plus1(Pow2(k), x);
    AddMod(x, x * Pow2(k), (Pow2(k) + 1) * x);
  }

  lemma Plus1(p: nat, x: nat)
    ensures (p + 1) * x == x + x * p
  {
  }

  lemma AddMod(a: nat, b: nat, c: nat)
    requires c == a + b
    ensures c % WORD == (a + b % WORD) % WORD
  {
  }

  /** `y` is `x ^ (x >> k)`. */
  ghost predicate Folded(x: nat, k: nat, y: nat) {
    y < WORD && forall i: nat :: i < 64 ==> BitOf(y, i) == (BitOf(x, i) + BitOf(x, i + k)) % 2
  }

  /** `y` is `x + (x << k)`. */
  predicate ShiftAdded(x: nat, k: nat, y: nat) {
    y == (x + x * Pow2(k) % WORD) % WORD
  }

  /** The words after each of the eight assignments. */
  ghost predicate Assignments(x: nat, a: seq<nat>) {
    && |a| == 8
    && ShiftAdded(x, 12, a[0]) && Folded(a[0], 22, a[1]) && ShiftAdded(a[1], 4, a[2]) && Folded(a[2], 9, a[3])
    && ShiftAdded(a[3], 10, a[4]) && Folded(a[4], 2, a[5]) && ShiftAdded(a[5], 7, a[6]) && Folded(a[6], 12, a[7])
  }

  lemma FoldedIff(x: nat, k: nat, y: nat)
    requires x < WORD
    ensures Folded(x, k, y) <==> y == Fold(x, k)
  {
    hide Fold, BitOf, Pow2;
    FoldBelow(x, k);
    forall i: nat | i < 64 ensures BitOf(Fold(x, k), i) == (BitOf(x, i) + BitOf(x, i + k)) % 2 { FoldBits(x, k, i); }
    WordIsPow();
    if Folded(x, k, y) {
      forall i: nat | i < 64 ensures BitOf(y, i) == BitOf(Fold(x, k), i) { FoldBits(x, k, i); }
      BitsDetermine(y, Fold(x, k), 64);
    }
  }

  lemma Powers()
    ensures Pow2(12) == 4096 && Pow2(4) == 16 && Pow2(10) == 1024 && Pow2(7) == 128 && Pow2(3) == 8
  {
  }

  /** The mixed word is the last of the words that the eight assignments give, whose bits say what each of them did. */
  lemma MixIsAssignments(x: nat, a: seq<nat>)
    requires Assignments(x, a)
    ensures a[7] == Mix(x)
  {
    hide Fold, Times, Folded, Pow2;
    Powers();
    TimesIsShiftAdd(x, 12);
    FoldedIff(a[0], 22, a[1]);
    TimesIsShiftAdd(a[1], 4);
    FoldedIff(a[2], 9, a[3]);
    TimesIsShiftAdd(a[3], 10);
    FoldedIff(a[4], 2, a[5]);
    TimesIsShiftAdd(a[5], 7);
    FoldedIff(a[6], 12, a[7]);
  }

  /** And there are such words. */
  lemma AssignmentsExist(x: nat) returns (a: seq<nat>)
    ensures Assignments(x, a) && a[7] == Mix(x)
  {
    hide Fold, Times, Folded, Pow2;
    Powers();
    TimesIsShiftAdd(x, 12);
    var a0 := Times(4097, x);
    var a1 := Fold(a0, 22);
    FoldedIff(a0, 22, a1);
    TimesIsShiftAdd(a1, 4);
    var a2 := Times(17, a1);
    var a3 := Fold(a2, 9);
    FoldedIff(a2, 9, a3);
    TimesIsShiftAdd(a3, 10);
    var a4 := Times(1025, a3);
    var a5 := Fold(a4, 2);
    FoldedIff(a4, 2, a5);
    TimesIsShiftAdd(a5, 7);
    var a6 := Times(129, a5);
    var a7 := Fold(a6, 12);
    FoldedIff(a6, 12, a7);
    a := [a0, a1, a2, a3, a4, a5, a6, a7];
  }

  lemma TheyAreAssignments(x: nat, a: seq<nat>)
    requires |a| == 8
    requires ShiftAdded(x, 12, a[0]) && a[1] == XorNat(a[0], Shr(a[0], 22))
    requires ShiftAdded(a[1], 4, a[2]) && a[3] == XorNat(a[2], Shr(a[2], 9))
    requires ShiftAdded(a[3], 10, a[4]) && a[5] == XorNat(a[4], Shr(a[4], 2))
    requires ShiftAdded(a[5], 7, a[6]) && a[7] == XorNat(a[6], Shr(a[6], 12))
    ensures Assignments(x, a) && a[7] == Mix(x)
    ensures Shr(a[7], 3) == a[7] / 8 && HashWord(x) == Shr(a[7], 3) * 2654435761 % WORD
  {
    hide XorNat, Pow2, Folded;
    FoldedIff(a[0], 22, a[1]);
    FoldedIff(a[2], 9, a[3]);
    FoldedIff(a[4], 2, a[5]);
    FoldedIff(a[6], 12, a[7]);
    hide ShiftAdded, Mix, Fold;
    MixIsAssignments(x, a);
    ShrIsDiv(a[7], 3);
    Powers();
  }

  // ----- On keys ---------------------------------------------------------------------------------

  function ByteNumber(b: bv8): (n: nat)
    ensures n < 0x100
  {
    b as int
  }

  /** The checksum as a number. */
  function Number(c: bv32): (n: nat)
    ensures n < 0x1_0000_0000
  {
    ByteNumber(Low8(c)) + 0x100 * ByteNumber(Low8(Drop8(c))) + 0x1_0000 * ByteNumber(Low8(Drop8(Drop8(c))))
    + 0x100_0000 * ByteNumber(Low8(Drop8(Drop8(Drop8(c)))))
  }

  lemma BytesDetermine(c: bv32, d: bv32)
    requires Low8(c) == Low8(d) && Low8(Drop8(c)) == Low8(Drop8(d)) && Low8(Drop8(Drop8(c))) == Low8(Drop8(Drop8(d)))
    requires Low8(Drop8(Drop8(Drop8(c)))) == Low8(Drop8(Drop8(Drop8(d))))
    ensures c == d
  {
  }

  lemma ByteNumberInjective(a: bv8, b: bv8)
    ensures ByteNumber(a) == ByteNumber(b) ==> a == b
  {
  }

  lemma NumberInjective(c: bv32, d: bv32)
    requires Number(c) == Number(d)
    ensures c == d
  {
    hide Low8, Drop8, ByteNumber;
    ByteNumberInjective(Low8(c), Low8(d));
    ByteNumberInjective(Low8(Drop8(c)), Low8(Drop8(d)));
    ByteNumberInjective(Low8(Drop8(Drop8(c))), Low8(Drop8(Drop8(d))));
    ByteNumberInjective(Low8(Drop8(Drop8(Drop8(c)))), Low8(Drop8(Drop8(Drop8(d)))));
    BytesDetermine(c, d);
  }

  /** The checksum of a key, as a number. */
  function Checksum(key: seq<bv8>): (n: nat)
    ensures n < WORD
  {
    Number(CrcFrom(0, key))
  }

  /** `hashmap_hash_int` before `% table_size`. */
  function KeyHash(key: seq<bv8>): nat {
    HashWord(Checksum(key))
  }

  /** `hashmap_hash_int`, on the bytes before the NUL of the key. */
  method HashInt(keystr: seq<bv8>, tableSize: nat) returns (h: nat, ghost words: seq<nat>)
    requires tableSize > 0
    ensures Assignments(Checksum(keystr), words) && h == words[7] / 8 * 2654435761 % WORD % tableSize
    ensures h == KeyHash(keystr) % tableSize
  {
    hide CrcFrom, Number, XorNat, Shr, Pow2, Fold, Times, Folded, Mix, Assignments, HashWord;
    var crc := Crc32(keystr);
    var key: nat := Number(crc);
    ghost var x := key;
    key := (key + key * Pow2(12) % WORD) % WORD;
    ghost var a := key;
    key := XorNat(key, Shr(key, 22));
    ghost var b := key;
    key := (key + key * Pow2(4) % WORD) % WORD;
    ghost var c := key;
    key := XorNat(key, Shr(key, 9));
    ghost var d := key;
    key := (key + key * Pow2(10) % WORD) % WORD;
    ghost var e := key;
    key := XorNat(key, Shr(key, 2));
    ghost var f := key;
    key := (key + key * Pow2(7) % WORD) % WORD;
    ghost var g := key;
    key := XorNat(key, Shr(key, 12));
    words := [a, b, c, d, e, f, g, key];
    TheyAreAssignments(x, words);
    key := Shr(key, 3) * 2654435761 % WORD;
    h := key % tableSize;
  }

  /** Two keys have one hash exactly when the mixed words of their checksums agree in all but the low three bits. When the
      checksums differ so do the mixed words, in those three bits at least. */
  lemma KeysShareAHashIff(a: seq<bv8>, b: seq<bv8>)
    ensures KeyHash(a) == KeyHash(b) <==> Mix(Checksum(a)) / 8 == Mix(Checksum(b)) / 8
    ensures CrcFrom(0, a) == CrcFrom(0, b) <==> Mix(Checksum(a)) == Mix(Checksum(b))
  {
    hide Mix, Number, CrcFrom, HashWord;
    SameHashIff(Checksum(a), Checksum(b));
    if Mix(Checksum(a)) == Mix(Checksum(b)) {
      MixInjective(Checksum(a), Checksum(b));
      NumberInjective(CrcFrom(0, a), CrcFrom(0, b));
    }
  }

  /** Equal-length keys that differ only within four consecutive bytes are mixed into different words. */
  lemma BurstsMixApart(pre: seq<bv8>, s: seq<bv8>, t: seq<bv8>, post: seq<bv8>)
    requires |s| == |t| <= 4 && s != t
    ensures Mix(Checksum(pre + s + post)) != Mix(Checksum(pre + t + post))
  {
    hide Mix, Checksum, CrcFrom, KeyHash;
    BurstsAreSeparated(pre, s, t, post);
    KeysShareAHashIff(pre + s + post, pre + t + post);
  }

  function Checksums(keys: set<seq<bv8>>): set<nat> {
    set a | a in keys :: Checksum(a)
  }

  lemma {:induction false} AsManyChecksums(keys: set<seq<bv8>>)
    requires forall a, b :: a in keys && b in keys && Checksum(a) == Checksum(b) ==> a == b
    ensures |Checksums(keys)| == |keys|
  {
    hide Checksum;
    if keys == {} {
      assert Checksums(keys) == {};
    } else {
      var x :| x in keys;
      var rest := keys - {x};
      AsManyChecksums(rest);
      assert keys == rest + {x};
      assert Checksums(keys) == Checksums(rest) + {Checksum(x)};
      assert Checksum(x) !in Checksums(rest);
    }
  }

  /** At most eight keys of pairwise different checksums have one hash, and a window has eight slots. So nine keys of one hash,
      which no table can hold, repeat a checksum. */
  lemma NineCollidersRepeatAChecksum(keys: set<seq<bv8>>)
    requires |keys| > 8
    requires forall a, b :: a in keys && b in keys ==> KeyHash(a) == KeyHash(b)
    ensures exists a, b :: a in keys && b in keys && a != b && Checksum(a) == Checksum(b)
  {
    hide Checksum, HashWord;
    if forall a, b :: a in keys && b in keys && Checksum(a) == Checksum(b) ==> a == b {
      AsManyChecksums(keys);
      AtMostEightShareAHash(Checksums(keys));
    }
  }
}
