/** The string hash behind the ring: a byte-wise multiply loop followed by
    five shift mixes, all in wrapping 32-bit arithmetic. */
module Murmur {

  const WORD: int := 0x1_0000_0000

  /** A uint32_t value. */
  type Word = w: int | 0 <= w < 0x1_0000_0000

  const PRIME: Word := 16777619
  const SEED: Word := 2166136261

  // ---------- 32-bit operations ----------

  /** Bitwise exclusive or, least significant bit first. */
  function Xor(a: nat, b: nat): nat
    decreases a + b
  {
    if a == 0 && b == 0 then 0
    else (if a % 2 == b % 2 then 0 else 1) + 2 * Xor(a / 2, b / 2)
  }

  /** Logical right shift by k bits. */
  function Shr(a: nat, k: nat): nat
    decreases k
  {
    if k == 0 then a else Shr(a / 2, k - 1)
  }

  predicate IsPowerOfTwo(m: nat) {
    m == 1 || (m > 0 && m % 2 == 0 && IsPowerOfTwo(m / 2))
  }

  lemma DoubleIsPowerOfTwo(m: nat)
    requires IsPowerOfTwo(m)
    ensures IsPowerOfTwo(2 * m)
  {
    assert (2 * m) / 2 == m && (2 * m) % 2 == 0;
  }

  lemma SixteenfoldIsPowerOfTwo(m: nat)
    requires IsPowerOfTwo(m)
    ensures IsPowerOfTwo(16 * m)
  {
    hide IsPowerOfTwo;
    DoubleIsPowerOfTwo(m);
    DoubleIsPowerOfTwo(2 * m);
    DoubleIsPowerOfTwo(4 * m);
    DoubleIsPowerOfTwo(8 * m);
  }

  lemma WordIsPowerOfTwo()
    ensures IsPowerOfTwo(0x1_0000_0000)
  {
    SixteenfoldIsPowerOfTwo(0x1);
    SixteenfoldIsPowerOfTwo(0x10);
    SixteenfoldIsPowerOfTwo(0x100);
    SixteenfoldIsPowerOfTwo(0x1000);
    SixteenfoldIsPowerOfTwo(0x1_0000);
    SixteenfoldIsPowerOfTwo(0x10_0000);
    SixteenfoldIsPowerOfTwo(0x100_0000);
    SixteenfoldIsPowerOfTwo(0x1000_0000);
  }

  lemma {:induction false} XorBelow(a: nat, b: nat, m: nat)
    requires IsPowerOfTwo(m) && a < m && b < m
    ensures Xor(a, b) < m
    decreases m
  {
    if m == 1 {
    } else {
      XorBelow(a / 2, b / 2, m / 2);
    }
  }

  lemma {:induction false} ShrBelow(a: nat, k: nat)
    ensures Shr(a, k) <= a
    ensures a > 0 && k > 0 ==> Shr(a, k) < a
    decreases k
  {
    if k == 0 {
    } else {
      ShrBelow(a / 2, k - 1);
    }
  }

  function XorWord(a: Word, b: Word): Word {
    WordIsPowerOfTwo();
    XorBelow(a, b, 0x1_0000_0000);
    Xor(a, b)
  }

  function MulWord(a: Word, m: nat): Word {
    (a * m) % WORD
  }

  function AddWord(a: Word, b: Word): Word {
    (a + b) % WORD
  }

  function ShrWord(a: Word, k: nat): Word {
    ShrBelow(a, k);
    Shr(a, k)
  }

  // ---------- the hash ----------

  /** A C++ char is a signed byte: it is sign-extended before the xor. */
  function Widen(c: char): Word {
    var b := c as int % 256;
    if b < 128 then b else WORD - 256 + b
  }

  function MixChar(h: Word, c: char): Word {
    MulWord(XorWord(h, Widen(c)), PRIME)
  }

  /** h += h << k, with m = 2^k */
  function AddShl(h: Word, m: nat): Word {
    AddWord(h, MulWord(h, m))
  }

  /** h ^= h >> k */
  function XorShr(h: Word, k: nat): Word {
    XorWord(h, ShrWord(h, k))
  }

  function MixAll(s: string): Word {
    if s == "" then SEED else MixChar(MixAll(s[..|s| - 1]), s[|s| - 1])
  }

  function Finish(h: Word): Word {
    AddShl(XorShr(AddShl(XorShr(AddShl(h, 8192), 7), 8), 17), 32)
  }

  function Hash(s: string): Word {
    Finish(MixAll(s))
  }

  /** The hash routine, with its loop and its in-place updates. */
  method Murmur32(s: string) returns (hash: Word)
    ensures hash == Hash(s)
  {
    hash := SEED;
    var idx := 0;
    while idx < |s|
      invariant 0 <= idx <= |s|
      invariant hash == MixAll(s[..idx])
    {
      assert s[..idx + 1][..idx] == s[..idx];
      hash := MulWord(XorWord(hash, Widen(s[idx])), PRIME);
      idx := idx + 1;
    }
    assert s[..|s|] == s;
    hash := AddWord(hash, MulWord(hash, 8192));
    hash := XorWord(hash, ShrWord(hash, 7));
    hash := AddWord(hash, MulWord(hash, 8));
    hash := XorWord(hash, ShrWord(hash, 17));
    hash := AddWord(hash, MulWord(hash, 32));
  }

  // ---------- every step is injective ----------

  /** Exclusive or, bit by bit. */
  lemma XorHalves(a: nat, b: nat)
    ensures Xor(a, b) / 2 == Xor(a / 2, b / 2)
    ensures Xor(a, b) % 2 == if a % 2 == b % 2 then 0 else 1
  {
  }

  lemma {:induction false} XorCancels(a: nat, b: nat)
    ensures Xor(Xor(a, b), b) == a
    decreases a + b
  {
    if a == 0 && b == 0 {
    } else {
      XorCancels(a / 2, b / 2);
      XorHalves(a, b);
      XorHalves(Xor(a, b), b);
      hide Xor;
    }
  }

  lemma {:induction false} XorCommutes(a: nat, b: nat)
    ensures Xor(a, b) == Xor(b, a)
    decreases a + b
  {
    if a == 0 && b == 0 {
    } else {
      XorCommutes(a / 2, b / 2);
    }
  }

  lemma {:induction false} ShrXor(a: nat, b: nat, k: nat)
    ensures Shr(Xor(a, b), k) == Xor(Shr(a, k), Shr(b, k))
    decreases k
  {
    if k == 0 {
    } else {
      assert Xor(a, b) / 2 == Xor(a / 2, b / 2);
      ShrXor(a / 2, b / 2, k - 1);
    }
  }

  /** x ^ (x >> k) determines x: shifting both sides right by k gives the same
      equation for the shorter number x >> k. */
  lemma {:induction false} XorShrInjective(x: nat, y: nat, k: nat)
    requires k > 0
    requires Xor(x, Shr(x, k)) == Xor(y, Shr(y, k))
    ensures x == y
    decreases x + y
  {
    var x', y' := Shr(x, k), Shr(y, k);
    ShrBelow(x, k);
    ShrBelow(y, k);
    if x == 0 && y == 0 {
    } else {
      ShrXor(x, x', k);
      ShrXor(y, y', k);
      XorShrInjective(x', y', k);
      XorCancels(x, x');
      XorCancels(y, y');
    }
  }

  lemma MultipleBelowWord(d: int, q: int)
    requires d == q * WORD && -WORD < d < WORD
    ensures d == 0
  {
  }

  /** Multiplication by a unit modulo 2^32 determines its argument. */
  lemma MulInjective(x: Word, y: Word, m: nat, inverse: nat)
    requires (m * inverse) % WORD == 1
    requires (x * m) % WORD == (y * m) % WORD
    ensures x == y
  {
    var k := (m * inverse) / WORD;
    var q := (x * m) / WORD - (y * m) / WORD;
    var d := x - y;
    assert d * m == q * WORD;
    calc {
      d + (d * k) * WORD;
      d * (m * inverse);
      (d * m) * inverse;
      (q * inverse) * WORD;
    }
    MultipleBelowWord(d, q * inverse - d * k);
  }

  lemma ModDropsMultiple(a: int, q: int)
    ensures (a + q * WORD) % WORD == a % WORD
  {
  }

  lemma AddShlIsMul(x: Word, m: nat)
    ensures AddShl(x, m) == (x * (m + 1)) % WORD
  {
    var q := (x * m) / WORD;
    assert x * (m + 1) == x + (x * m) % WORD + q * WORD;
    ModDropsMultiple(x + (x * m) % WORD, q);
  }

  lemma AddShlInjective(x: Word, y: Word, m: nat, inverse: nat)
    requires ((m + 1) * inverse) % WORD == 1
    requires AddShl(x, m) == AddShl(y, m)
    ensures x == y
  {
    AddShlIsMul(x, m);
    AddShlIsMul(y, m);
    MulInjective(x, y, m + 1, inverse);
  }

  lemma XorInjective(a: nat, b: nat, c: nat)
    requires Xor(a, c) == Xor(b, c)
    ensures a == b
  {
    XorCancels(a, c);
    XorCancels(b, c);
  }

  lemma XorShrWordInjective(x: Word, y: Word, k: nat)
    requires k > 0 && XorShr(x, k) == XorShr(y, k)
    ensures x == y
  {
    XorShrInjective(x, y, k);
  }

  /** The multipliers of the hash are odd, so each has an inverse modulo 2^32. */
  lemma MultipliersAreUnits()
    ensures (PRIME * 899433627) % WORD == 1
    ensures (8193 * 67100673) % WORD == 1
    ensures (9 * 954437177) % WORD == 1
    ensures (33 * 1041204193) % WORD == 1
  {
  }

  predicate IsMixer(m: nat) {
    m == 8192 || m == 8 || m == 32
  }

  lemma MixerInjective(x: Word, y: Word, m: nat)
    requires IsMixer(m) && AddShl(x, m) == AddShl(y, m)
    ensures x == y
  {
    MultipliersAreUnits();
    AddShlInjective(x, y, m, if m == 8192 then 67100673 else if m == 8 then 954437177 else 1041204193);
  }

  lemma RoundInjective(x: Word, y: Word)
    requires MulWord(x, PRIME) == MulWord(y, PRIME)
    ensures x == y
  {
    MultipliersAreUnits();
    MulInjective(x, y, PRIME, 899433627);
  }

  /** The five closing mixes lose nothing. */
  lemma FinishInjective(x: Word, y: Word)
    ensures Finish(x) == Finish(y) ==> x == y
  {
    if Finish(x) != Finish(y) {
      return;
    }
    var x1, y1 := AddShl(x, 8192), AddShl(y, 8192);
    var x2, y2 := XorShr(x1, 7), XorShr(y1, 7);
    var x3, y3 := AddShl(x2, 8), AddShl(y2, 8);
    MixerInjective(XorShr(x3, 17), XorShr(y3, 17), 32);
    XorShrWordInjective(x3, y3, 17);
    MixerInjective(x2, y2, 8);
    XorShrWordInjective(x1, y1, 7);
    MixerInjective(x, y, 8192);
  }

  /** One round of the loop is injective in the running hash. */
  lemma MixCharInjectiveInHash(x: Word, y: Word, c: char)
    requires MixChar(x, c) == MixChar(y, c)
    ensures x == y
  {
    RoundInjective(XorWord(x, Widen(c)), XorWord(y, Widen(c)));
    XorInjective(x, y, Widen(c));
  }

  /** One round of the loop is injective in the character, for byte characters. */
  lemma MixCharInjectiveInChar(h: Word, c: char, d: char)
    requires c as int < 256 && d as int < 256
    requires MixChar(h, c) == MixChar(h, d)
    ensures c == d
  {
    RoundInjective(XorWord(h, Widen(c)), XorWord(h, Widen(d)));
    XorCommutes(h, Widen(c));
    XorCommutes(h, Widen(d));
    XorInjective(Widen(c), Widen(d), h);
  }

  lemma {:induction false} MixAllSingleChange(s: string, t: string, i: nat)
    requires |s| == |t| && i < |s|
    requires forall j :: 0 <= j < |s| && j != i ==> s[j] == t[j]
    requires s[i] as int < 256 && t[i] as int < 256
    requires s[i] != t[i]
    ensures MixAll(s) != MixAll(t)
    decreases |s|
  {
    var n := |s| - 1;
    var s', t' := s[..n], t[..n];
    if i == n {
      assert s' == t';
      if MixAll(s) == MixAll(t) {
        MixCharInjectiveInChar(MixAll(s'), s[n], t[n]);
      }
    } else {
      MixAllSingleChange(s', t', i);
      if MixAll(s) == MixAll(t) {
        MixCharInjectiveInHash(MixAll(s'), MixAll(t'), s[n]);
      }
    }
  }

  /** Two strings of one length that differ in exactly one position never
      collide. */
  lemma SingleChangeNeverCollides(s: string, t: string, i: nat)
    requires |s| == |t| && i < |s|
    requires forall j :: 0 <= j < |s| && j != i ==> s[j] == t[j]
    requires s[i] as int < 256 && t[i] as int < 256
    requires s[i] != t[i]
    ensures Hash(s) != Hash(t)
  {
    MixAllSingleChange(s, t, i);
    if Hash(s) == Hash(t) {
      FinishInjective(MixAll(s), MixAll(t));
    }
  }

  // ---------- known answers ----------

  lemma {:induction false} XorZero(a: nat)
    ensures Xor(a, 0) == a
    decreases a
  {
    if a == 0 {
    } else {
      XorZero(a / 2);
    }
  }

  lemma XorPeel(a: nat, b: nat, x: nat, y: nat)
    requires x < 2 && y < 2
    ensures Xor(2 * a + x, 2 * b + y) == 2 * Xor(a, b) + if x == y then 0 else 1
  {
    assert (2 * a + x) / 2 == a && (2 * a + x) % 2 == x;
    assert (2 * b + y) / 2 == b && (2 * b + y) % 2 == y;
  }

  lemma XorSplitStep(p: nat, q: nat, r: nat, x: nat, y: nat)
    requires Xor(p + x / 2, q + y / 2) == r + Xor(x / 2, y / 2)
    ensures Xor(2 * p + x, 2 * q + y) == 2 * r + Xor(x, y)
  {
    XorPeel(x / 2, y / 2, x % 2, y % 2);
    XorPeel(p + x / 2, q + y / 2, x % 2, y % 2);
    hide Xor;
  }

  lemma DoubledProduct(a: nat, h: nat)
    ensures a * (2 * h) == 2 * (a * h)
  {
  }

  /** Exclusive or works part by part: the digits to the base m, a power of two,
      do not mix. */
  lemma {:induction false} XorSplit(a: nat, b: nat, x: nat, y: nat, m: nat)
    requires IsPowerOfTwo(m) && x < m && y < m
    ensures Xor(a * m + x, b * m + y) == Xor(a, b) * m + Xor(x, y)
    decreases m
  {
    hide Xor;
    if m == 1 {
      XorZero(0);
    } else {
      var h := m / 2;
      assert m == 2 * h;
      XorSplit(a, b, x / 2, y / 2, h);
      XorSplitStep(a * h, b * h, Xor(a, b) * h, x, y);
      DoubledProduct(a, h);
      DoubledProduct(b, h);
      DoubledProduct(Xor(a, b), h);
    }
  }

  /** Exclusive or of numbers without a bit in common is their sum. */
  lemma XorApart(a: nat, x: nat, m: nat)
    requires IsPowerOfTwo(m) && x < m
    ensures Xor(a * m, x) == a * m + x
  {
    XorSplit(a, 0, 0, x, m);
    XorZero(a);
    XorZero(x);
    XorCommutes(0, x);
  }

  lemma {:induction false} ShrAdd(a: nat, j: nat, k: nat)
    ensures Shr(a, j + k) == Shr(Shr(a, j), k)
    decreases j
  {
    if j == 0 {
    } else {
      ShrAdd(a / 2, j - 1, k);
    }
  }

  /** The start value. */
  lemma KnownSeed()
    ensures MixAll("") == 2166136261
  {
  }

  /** The multiplier. */
  lemma KnownRound(c: char)
    requires c as int < 128
    ensures MixChar(0, c) == (c as int * 16777619) % 4294967296
  {
    XorZero(c as int);
    XorCommutes(0, c as int);
    hide Xor;
  }

  /** A byte below 128 stays as it is; one above is sign-extended. */
  lemma KnownBytes(c: char)
    requires c as int < 256
    ensures Widen(c) == if c as int < 128 then c as int else 4294967296 - 256 + c as int
  {
  }

  /** Characters are mixed in from the left. */
  lemma LastCharIsMixedLast(s: string, c: char)
    ensures MixAll(s + [c]) == MixChar(MixAll(s), c)
  {
    assert (s + [c])[..|s|] == s;
  }

  lemma FinishInSteps(h: Word, a: Word, b: Word, c: Word, d: Word)
    requires AddShl(h, 8192) == a && Xor(a, Shr(a, 7)) == b && AddShl(b, 8) == c && Xor(c, Shr(c, 17)) == d
    ensures Finish(h) == AddShl(d, 32)
  {
    hide Xor, Shr;
  }

  lemma Shift17(a: nat, b: nat, c: nat)
    requires b == Shr(a, 6) && c == Shr(b, 6)
    ensures Shr(a, 17) == Shr(c, 5)
  {
    ShrAdd(a, 6, 11);
    ShrAdd(b, 6, 5);
  }

  lemma KnownShifts()
    ensures Shr(8193, 7) == 64 && Shr(16386, 7) == 128
    ensures Shr(74313, 17) == 0 && Shr(148626, 17) == 1
  {
    assert Shr(74313, 6) == 1161 && Shr(1161, 6) == 18 && Shr(18, 5) == 0;
    assert Shr(148626, 6) == 2322 && Shr(2322, 6) == 36 && Shr(36, 5) == 1;
    Shift17(74313, 1161, 18);
    Shift17(148626, 2322, 36);
  }

  lemma XorOfShifted()
    ensures Xor(8193, 64) == 8257 && Xor(16386, 128) == 16514
    ensures Xor(74313, 0) == 74313 && Xor(148626, 1) == 148627
  {
    XorZero(74313);
    XorSplit(64, 0, 1, 64, 128);
    XorZero(64);
    XorApart(64, 1, 2);
    XorCommutes(1, 64);
    XorSplit(128, 1, 2, 0, 128);
    XorZero(2);
    XorApart(64, 1, 2);
    XorApart(74313, 1, 2);
  }

  /** The closing mixes shift by 13, 7, 3, 17 and 5. */
  lemma KnownFinishes()
    ensures Finish(1) == 2452329
    ensures Finish(2) == 4904691
  {
    KnownShifts();
    XorOfShifted();
    hide Xor, Shr, Finish;
    FinishInSteps(1, 8193, 8257, 74313, 74313);
    FinishInSteps(2, 16386, 16514, 148626, 148627);
  }

  // ---------- virtual-node names ----------

  function Digit(d: nat): char
    requires d < 10
  {
    '0' + d as char
  }

  /** A number as the stream prints it. */
  function Decimal(n: nat): string {
    if n < 10 then [Digit(n)] else Decimal(n / 10) + [Digit(n % 10)]
  }

  function NodeName(shard: nat, node: nat): string {
    "SHARD-" + Decimal(shard) + "NODE-" + Decimal(node)
  }

  /** The point of one virtual node of one shard. */
  function Place(shard: nat, node: nat): Word {
    Hash(NodeName(shard, node))
  }

  /** The first ten virtual nodes of a shard sit on ten different points,
      because their names differ in the last digit only. */
  lemma TenNodesNeverCollide(shard: nat, i: nat, j: nat)
    requires i < j < 10
    ensures Place(shard, i) != Place(shard, j)
  {
    var s, t := NodeName(shard, i), NodeName(shard, j);
    var prefix := "SHARD-" + Decimal(shard) + "NODE-";
    assert s == prefix + [Digit(i)] && t == prefix + [Digit(j)];
    SingleChangeNeverCollides(s, t, |prefix|);
  }

  // ---------- names read back ----------

  predicate IsDigit(c: char) {
    '0' <= c <= '9'
  }

  predicate AllDigits(s: string) {
    forall i :: 0 <= i < |s| ==> IsDigit(s[i])
  }

  /** The number a string of digits stands for. */
  function ReadDecimal(s: string): nat
    requires AllDigits(s)
  {
    if s == "" then 0 else 10 * ReadDecimal(s[..|s| - 1]) + (s[|s| - 1] as nat - '0' as nat)
  }

  /** A printed number consists of digits, has no leading zero, and reads back. */
  lemma {:induction false} DecimalReadsBack(n: nat)
    ensures Decimal(n) != "" && AllDigits(Decimal(n)) && ReadDecimal(Decimal(n)) == n
    ensures n > 0 ==> Decimal(n)[0] != '0'
    decreases n
  {
    if n < 10 {
      assert Decimal(n)[..0] == "";
    } else {
      DecimalReadsBack(n / 10);
      assert Decimal(n)[..|Decimal(n)| - 1] == Decimal(n / 10);
    }
  }

  /** Where a text's first character that is no digit is, is one place. */
  lemma FirstNonDigit(s: string, i: nat, j: nat)
    requires i < |s| && j < |s| && !IsDigit(s[i]) && !IsDigit(s[j])
    requires forall k :: 0 <= k < i ==> IsDigit(s[k])
    requires forall k :: 0 <= k < j ==> IsDigit(s[k])
    ensures i == j
  {
  }

  lemma SameDigits(a: string, b: string, c: string, d: string)
    requires AllDigits(a) && AllDigits(c) && a + ("NODE-" + b) == c + ("NODE-" + d)
    ensures a == c && b == d
  {
    var s := a + ("NODE-" + b);
    assert s[|a|] == 'N' && s[|c|] == (c + ("NODE-" + d))[|c|] == 'N';
    assert forall k :: 0 <= k < |a| ==> s[k] == a[k] && IsDigit(s[k]);
    assert forall k :: 0 <= k < |c| ==> (c + ("NODE-" + d))[k] == c[k] && IsDigit(s[k]);
    FirstNonDigit(s, |a|, |c|);
    assert s[..|a|] == a && (c + ("NODE-" + d))[..|c|] == c;
    assert s[|a|..][5..] == b && (c + ("NODE-" + d))[|c|..][5..] == d;
  }

  lemma NameInParts(shard: nat, node: nat)
    ensures |NodeName(shard, node)| >= 6
    ensures NodeName(shard, node)[6..] == Decimal(shard) + ("NODE-" + Decimal(node))
  {
    hide Decimal;
    assert |"SHARD-"| == 6;
  }

  /** Different virtual nodes have different names. */
  lemma NamesAreDifferent(shard: nat, node: nat, shard': nat, node': nat)
    ensures NodeName(shard, node) == NodeName(shard', node') ==> shard == shard' && node == node'
  {
    DecimalReadsBack(shard);
    DecimalReadsBack(shard');
    DecimalReadsBack(node);
    DecimalReadsBack(node');
    hide Decimal, ReadDecimal;
    NameInParts(shard, node);
    NameInParts(shard', node');
    hide NodeName, AllDigits;
    if NodeName(shard, node) == NodeName(shard', node') {
      SameDigits(Decimal(shard), Decimal(node), Decimal(shard'), Decimal(node'));
    }
  }

  lemma KnownName()
    ensures NodeName(12, 34) == "SHARD-12NODE-34"
  {
    assert Decimal(12) == "12" && Decimal(34) == "34";
  }
}
