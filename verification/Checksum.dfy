/**
 * The Internet checksum of an IPv4 header, computed 128, 64, 32 and 16 bits at a
 * time on a little-endian machine, against the sum of 16-bit words that sections
 * 1 and 2 of RFC 1071 define.
 */
module Checksum {
  import opened Bytes

  const M := 0xFFFF
  const B16 := 0x1_0000
  const B32 := 0x1_0000_0000
  const B64 := 0x1_0000_0000_0000_0000

  // ---- The definition -------------------------------------------------------------------

  predicate Halfwords(ws: seq<nat>) {
    forall i | 0 <= i < |ws| :: ws[i] < B16
  }

  /** Two bytes as a little-endian word. */
  function Pair(low: Byte, high: Byte): (w: nat)
    ensures w < B16
  {
    var l: nat, h: nat := low, high;
    l + 256 * h
  }

  /** The bytes as 16-bit words in the order the machine loads them. */
  function Words(b: seq<Byte>): (ws: seq<nat>)
    ensures Halfwords(ws)
  {
    if |b| < 2 then [] else [Pair(b[0], b[1])] + Words(b[2..])
  }

  /** The bytes as 16-bit words in network order. */
  function NetworkWords(b: seq<Byte>): (ws: seq<nat>)
    ensures Halfwords(ws)
  {
    if |b| < 2 then [] else [Pair(b[1], b[0])] + NetworkWords(b[2..])
  }

  /** Addition of numbers below `base` with the carry added back in. */
  function EndAround(a: nat, b: nat, base: nat): nat {
    if a + b < base then a + b else a + b - base + 1
  }

  /** The 16-bit one's complement sum. */
  function OnesSum(ws: seq<nat>): nat {
    if ws == [] then 0 else EndAround(ws[0], OnesSum(ws[1..]), B16)
  }

  function Complement(x: nat): int {
    M - x
  }

  function Swap(x: nat): nat {
    x % 256 * 256 + x / 256
  }

  // ---- Numbers with the same one's complement representation -----------------------------

  /**
   * The 16-bit representation of a number: whole multiples of 0xFFFF are cast
   * out, but 0xFFFF itself stands and so is told apart from 0.
   */
  function Rep(t: nat): (r: nat)
    ensures r <= M && (r == 0 <==> t == 0)
  {
    if t <= M then t else Rep(t - M)
  }

  /** Numbers with one representation. */
  predicate Same(a: nat, b: nat) {
    Rep(a) == Rep(b)
  }

  /** The representation in closed form. */
  lemma {:induction false} RepClosed(t: nat)
    ensures Rep(t) == if t == 0 then 0 else (t - 1) % M + 1
  {
    if t > M { RepClosed(t - M); }
  }

  /** Multiples of 0xFFFF do not count. */
  lemma {:induction false} RepDrop(t: nat, n: nat)
    requires t > 0
    ensures Rep(t + M * n) == Rep(t)
  {
    if n > 0 { RepDrop(t, n - 1); }
  }

  lemma {:induction false} RepAdd(a: nat, b: nat)
    ensures Rep(a + b) == Rep(Rep(a) + Rep(b))
    decreases a + b
  {
    if a > M {
      RepAdd(a - M, b);
    } else if b > M {
      RepAdd(a, b - M);
    }
  }

  lemma {:induction false} RepNext(t: nat)
    ensures Rep(t + 1) == if Rep(t) == M then 1 else Rep(t) + 1
  {
    if t > M { RepNext(t - M); }
  }

  lemma SameSums(a: nat, b: nat, c: nat, d: nat)
    requires Same(a, b) && Same(c, d)
    ensures Same(a + c, b + d)
  {
    RepAdd(a, c);
    RepAdd(b, d);
  }

  lemma EndAroundSame(a: nat, b: nat)
    requires a < B16 && b < B16
    ensures EndAround(a, b, B16) < B16 && Same(EndAround(a, b, B16), a + b)
  {
  }

  function Total(ws: seq<nat>): nat {
    if ws == [] then 0 else ws[0] + Total(ws[1..])
  }

  lemma {:induction false} TotalOfTwo(a: seq<nat>, b: seq<nat>)
    ensures Total(a + b) == Total(a) + Total(b)
  {
    if a == [] {
      assert a + b == b;
    } else {
      assert (a + b)[1..] == a[1..] + b;
      TotalOfTwo(a[1..], b);
    }
  }

  lemma {:induction false} WordsOfTwo(a: seq<Byte>, b: seq<Byte>)
    requires |a| % 2 == 0
    ensures Words(a + b) == Words(a) + Words(b)
  {
    if a == [] {
      assert a + b == b;
    } else {
      assert (a + b)[2..] == a[2..] + b;
      WordsOfTwo(a[2..], b);
    }
  }

  /** The one's complement sum is the representation of the ordinary sum; the order of addition does not matter. */
  lemma {:induction false} OnesSumIsRep(ws: seq<nat>)
    requires Halfwords(ws)
    ensures OnesSum(ws) == Rep(Total(ws)) < B16
  {
    if ws != [] {
      OnesSumIsRep(ws[1..]);
      EndAroundSame(ws[0], OnesSum(ws[1..]));
      SameSums(ws[0], ws[0], OnesSum(ws[1..]), Total(ws[1..]));
    }
  }

  // ---- Folding ----------------------------------------------------------------------------

  lemma Times(a: nat, b: nat, c: nat)
    requires a <= b
    ensures a * c <= b * c
  {
  }

  lemma Cancel(a: nat, b: nat, c: nat)
    requires a * c < b * c
    ensures a < b
  {
    if a >= b { Times(b, a, c); }
  }

  lemma DivMod(q: nat, base: nat, r: nat)
    requires r < base
    ensures (q * base + r) / base == q && (q * base + r) % base == r
  {
    var x := q * base + r;
    var d, m := x / base, x % base;
    assert x == d * base + m && 0 <= m < base && d >= 0;
    assert (q + 1) * base == q * base + base;
    assert (d + 1) * base == d * base + base;
    Cancel(d, q + 1, base);
    Cancel(q, d + 1, base);
  }

  /** The two shifts that the source joins with `|` have no bit in common, so `|` adds them. */
  lemma NoSharedBits(x: bv32, y: bv64, z: bv128)
    ensures (x >> 16) | (x << 16) == (x >> 16) + (x << 16)
    ensures (y >> 32) | (y << 32) == (y >> 32) + (y << 32)
    ensures (z >> 64) | (z << 64) == (z >> 64) + (z << 64)
  {
  }

  /** `x += (x >> half) | (x << half)` and the upper half of that, for a word of two halves. */
  function Fold(x: nat, base: nat): nat
    requires base > 0
  {
    (x + (x / base + x * base % (base * base))) % (base * base) / base
  }

  lemma Halves(x: nat, base: nat) returns (hi: nat, lo: nat)
    requires base > 0 && x < base * base
    ensures x == hi * base + lo && hi < base && lo < base
  {
    hi, lo := x / base, x % base;
    assert x == hi * base + lo;
    Cancel(hi, base, base);
  }

  /** The doubled sum s * base + s, cut to two halves, has the end-around sum in its upper half. */
  lemma UpperHalf(s: nat, base: nat)
    requires base > 1 && s <= 2 * base - 2
    ensures (s * base + s) % (base * base) / base == if s < base then s else s - base + 1
  {
    if s < base {
      Times(s, base - 1, base);
      assert (base - 1) * base == base * base - base;
      DivMod(0, base * base, s * base + s);
      DivMod(s, base, s);
    } else {
      var r := s - base;
      Times(r + 1, base - 1, base);
      assert (base - 1) * base == base * base - base;
      assert s * base + s == 1 * (base * base) + ((r + 1) * base + r) by {
        assert s * base == r * base + base * base;
        assert (r + 1) * base == r * base + base;
      }
      DivMod(1, base * base, (r + 1) * base + r);
      DivMod(r + 1, base, r);
    }
  }

  lemma Distribute(a: nat, b: nat, c: nat)
    ensures (a + b) * c == a * c + b * c
  {
  }

  lemma Rotated(hi: nat, lo: nat, base: nat)
    requires base > 1 && lo < base
    ensures (hi * base + lo) / base == hi
    ensures (hi * base + lo) * base % (base * base) == lo * base
  {
    DivMod(hi, base, lo);
    Times(lo + 1, base, base);
    Distribute(lo, 1, base);
    Distribute(hi * base, lo, base);
    assert hi * base * base == hi * (base * base);
    DivMod(hi, base * base, lo * base);
  }

  /** Folding adds the halves with end-around carry. */
  lemma FoldHalves(hi: nat, lo: nat, base: nat)
    requires base > 1 && hi < base && lo < base
    ensures Fold(hi * base + lo, base) == EndAround(hi, lo, base)
  {
    Rotated(hi, lo, base);
    var doubled := hi * base + lo + (hi + lo * base);
    assert doubled == (hi + lo) * base + (hi + lo) by { Distribute(hi, lo, base); }
    UpperHalf(hi + lo, base);
    assert Fold(hi * base + lo, base) == doubled % (base * base) / base;
  }

  lemma FoldIsEndAround(x: nat, base: nat)
    requires base > 1 && x < base * base
    ensures Fold(x, base) == EndAround(x / base, x % base, base)
  {
    var hi, lo := Halves(x, base);
    FoldHalves(hi, lo, base);
    DivMod(hi, base, lo);
  }

  lemma EndAroundKeeps(hi: nat, lo: nat, k: nat)
    requires k > 0 && hi <= M * k && lo <= M * k
    ensures EndAround(hi, lo, M * k + 1) <= M * k
    ensures Same(EndAround(hi, lo, M * k + 1), hi * (M * k + 1) + lo)
  {
    assert hi * (M * k + 1) + lo == (hi + lo) + M * (hi * k);
    if hi + lo > 0 {
      RepDrop(hi + lo, hi * k);
    }
    if hi + lo > M * k {
      RepDrop(hi + lo - M * k, k);
    }
  }

  /** Folding keeps the one's complement value when 0xFFFF divides base - 1. */
  lemma FoldSame(x: nat, base: nat, k: nat)
    requires k > 0 && base == M * k + 1 && x < base * base
    ensures Fold(x, base) < base && Same(Fold(x, base), x)
  {
    var hi, lo := Halves(x, base);
    FoldHalves(hi, lo, base);
    EndAroundKeeps(hi, lo, k);
  }

  // ---- Loads --------------------------------------------------------------------------------

  /** A little-endian load of n bytes. */
  function Load(b: seq<Byte>, n: nat): nat
    requires n <= |b|
  {
    if n == 0 then 0 else b[0] + 256 * Load(b[1..], n - 1)
  }

  function Power(n: nat): nat {
    if n == 0 then 1 else 256 * Power(n - 1)
  }

  lemma {:induction false} LoadBelow(b: seq<Byte>, n: nat)
    requires n <= |b|
    ensures Load(b, n) < Power(n)
  {
    if n > 0 { LoadBelow(b[1..], n - 1); }
  }

  lemma Regroup(a: nat, b: nat, c: nat)
    ensures a * (b * c) == (a * b) * c
  {
  }

  /** A load is its lower bytes and, so much higher, its upper bytes. */
  lemma {:induction false} LoadSplits(b: seq<Byte>, m: nat, n: nat)
    requires m + n <= |b|
    ensures Load(b, m + n) == Load(b, m) + Power(m) * Load(b[m..], n)
  {
    if m > 0 {
      LoadSplits(b[1..], m - 1, n);
      assert b[1..][m - 1..] == b[m..];
      Regroup(256, Power(m - 1), Load(b[m..], n));
    }
  }

  lemma Powers()
    ensures Power(2) == B16 && Power(4) == B32 && Power(8) == B64 && Power(16) == B64 * B64
  {
    assert Power(4) == 65536 * Power(2);
    assert Power(8) == B32 * Power(4);
    assert Power(12) == B32 * Power(8);
    assert Power(16) == B32 * Power(12);
  }

  /** A wide word has the one's complement value of the 16-bit words in it. */
  lemma {:induction false} LoadSame(b: seq<Byte>)
    requires |b| % 2 == 0
    ensures Same(Load(b, |b|), Total(Words(b)))
  {
    if b != [] {
      LoadSame(b[2..]);
      var w, rest := Pair(b[0], b[1]), Load(b[2..], |b| - 2);
      assert Load(b, |b|) == w + B16 * rest by {
        assert b[1..][1..] == b[2..];
        assert Load(b[1..], |b| - 1) == b[1] + 256 * rest;
      }
      assert Same(w + B16 * rest, w + rest) by {
        assert w + B16 * rest == (w + rest) + M * rest;
        if w + rest > 0 { RepDrop(w + rest, rest); }
      }
      SameSums(w, w, rest, Total(Words(b[2..])));
    }
  }

  // ---- The computation ------------------------------------------------------------------------

  /** Sum of n 32-bit words. */
  function Sum32(b: seq<Byte>): nat {
    if |b| < 4 then 0 else Load(b, 4) + Sum32(b[4..])
  }

  /** The first two 64-bit words, added with end-around carry. */
  function HeadSum(h: seq<Byte>): nat
    requires |h| >= 16
  {
    EndAround(Load(h[8..], 8), Load(h, 8), B64)
  }

  /** The sum the program forms in 64 bits, if it did not wrap. */
  function WideSum(h: seq<Byte>): nat
    requires |h| >= 16
  {
    HeadSum(h) + Sum32(h[16..])
  }

  /** How often the 64-bit addition wraps and drops a carry. */
  function LostCarries(h: seq<Byte>): nat
    requires |h| >= 16
  {
    WideSum(h) / B64
  }

  lemma TotalSplits(h: seq<Byte>, n: nat)
    requires n <= |h| && n % 2 == 0
    ensures Total(Words(h)) == Total(Words(h[..n])) + Total(Words(h[n..]))
  {
    assert h == h[..n] + h[n..];
    WordsOfTwo(h[..n], h[n..]);
    TotalOfTwo(Words(h[..n]), Words(h[n..]));
  }

  lemma {:induction false} Sum32Same(b: seq<Byte>)
    requires |b| % 4 == 0
    ensures Same(Sum32(b), Total(Words(b)))
  {
    if b != [] {
      Sum32Same(b[4..]);
      LoadPrefix(b, 4);
      LoadSame(b[..4]);
      TotalSplits(b, 4);
      SameSums(Load(b, 4), Total(Words(b[..4])), Sum32(b[4..]), Total(Words(b[4..])));
    }
  }

  lemma {:induction false} LoadPrefix(b: seq<Byte>, n: nat)
    requires n <= |b|
    ensures Load(b[..n], n) == Load(b, n)
  {
    if n > 0 {
      assert b[..n][1..] == b[1..][..n - 1];
      LoadPrefix(b[1..], n - 1);
    }
  }

  lemma {:induction false} HeadBelow(h: seq<Byte>)
    requires |h| >= 16
    ensures HeadSum(h) < B64
  {
    LoadBelow(h, 8);
    LoadBelow(h[8..], 8);
    Powers();
  }

  lemma {:induction false} TwoDigits(hi: nat, lo: nat, base: nat, x: nat)
    requires hi < base && lo < base && x == hi * base + lo
    ensures x < base * base && x / base == hi && x % base == lo
  {
    DivMod(hi, base, lo);
    Times(hi + 1, base, base);
  }

  /** The 128-bit load is the two 64-bit words. */
  lemma {:induction false} HeadLoad(h: seq<Byte>)
    requires |h| >= 16
    ensures Load(h, 16) < B64 * B64
    ensures HeadSum(h) == EndAround(Load(h, 16) / B64, Load(h, 16) % B64, B64)
  {
    LoadBelow(h, 8);
    LoadBelow(h[8..], 8);
    Powers();
    LoadSplits(h, 8, 8);
    TwoDigits(Load(h[8..], 8), Load(h, 8), B64, Load(h, 16));
  }

  lemma {:induction false} HeadSame(h: seq<Byte>)
    requires |h| >= 16
    ensures Same(HeadSum(h), Total(Words(h[..16])))
  {
    LoadPrefix(h, 16);
    LoadSame(h[..16]);
    HeadLoad(h);
    FoldIsEndAround(Load(h, 16), B64);
    FoldSame(Load(h, 16), B64, 0x1_0001_0001_0001);
  }

  lemma {:induction false} WithRest(head: nat, front: seq<Byte>, rest: seq<Byte>)
    requires |front| % 2 == 0 && |rest| % 4 == 0 && Same(head, Total(Words(front)))
    ensures Same(head + Sum32(rest), Total(Words(front + rest)))
  {
    Sum32Same(rest);
    SameSums(head, Total(Words(front)), Sum32(rest), Total(Words(rest)));
    WordsOfTwo(front, rest);
    TotalOfTwo(Words(front), Words(rest));
  }

  /** Without wrapping, the 64-bit sum has the one's complement value of the header. */
  lemma {:induction false} WideSumSame(h: seq<Byte>)
    requires |h| >= 16 && |h| % 4 == 0
    ensures Rep(WideSum(h)) == OnesSum(Words(h))
  {
    HeadSame(h);
    WithRest(HeadSum(h), h[..16], h[16..]);
    assert h == h[..16] + h[16..];
    OnesSumIsRep(Words(h));
  }

  /** `x += (x >> half) | (x << half)`, then the upper half. */
  method FoldWord(x: nat, base: nat, ghost k: nat) returns (r: nat)
    requires k > 0 && base == M * k + 1 && x < base * base
    ensures r == EndAround(x / base, x % base, base) && r < base && Rep(r) == Rep(x)
  {
    FoldSame(x, base, k);
    FoldIsEndAround(x, base);
    r := (x + (x / base + x * base % (base * base))) % (base * base) / base;
  }

  /** `csum_fold`: a 32-bit word to the complement of its 16-bit representation. */
  method CsumFold(csum: nat) returns (r: nat)
    requires csum < B32
    ensures r == Complement(Rep(csum))
  {
    var sum := FoldWord(csum, B16, 1);
    r := M - sum;
  }

  /** What the program computes: the complement of what is left of the sum in 64 bits. */
  function FastCsum(h: seq<Byte>): int
    requires |h| >= 16
  {
    Complement(Rep(WideSum(h) % B64))
  }

  lemma {:induction false} NoCarryExact(h: seq<Byte>)
    requires |h| >= 16 && |h| % 4 == 0
    ensures WideSum(h) < B64 ==> FastCsum(h) == Complement(OnesSum(Words(h)))
  {
    WideSumSame(h);
  }

  /** A load through a pointer into the header. */
  method LoadAt(iph: array<Byte>, pos: nat, n: nat, ghost h: seq<Byte>) returns (x: nat)
    requires pos + n <= |h| <= iph.Length && h == iph[..|h|]
    ensures x == Load(h[pos..], n)
  {
    x := Load(iph[pos..pos + n], n);
    LoadPrefix(h[pos..], n);
    assert h[pos..][..n] == iph[pos..pos + n];
  }

  lemma AddThenCut(a: nat, b: nat)
    ensures (a % B64 + b) % B64 == (a + b) % B64
  {
  }

  /** Unsigned 64-bit addition to what is left of a wide sum. */
  method Add64(sum: nat, word: nat, ghost wide: nat) returns (s: nat)
    requires sum == wide % B64
    ensures s == (wide + word) % B64
  {
    AddThenCut(wide, word);
    s := (sum + word) % B64;
  }

  /** The loop of `ip_fast_csum`: add `left` words, at least one, in 64 bits. */
  method AddWords(iph: array<Byte>, first: nat, words: nat, start: nat, ghost h: seq<Byte>) returns (sum: nat)
    requires words > 0 && first + 4 * words == |h| <= iph.Length && h == iph[..|h|]
    requires start < B64
    ensures sum == (start + Sum32(h[first..])) % B64
  {
    var pos, left := first, words;
    sum := start;
    ghost var wide: nat := start;
    while true
      invariant left > 0 && pos + 4 * left == |h|
      invariant wide + Sum32(h[pos..]) == start + Sum32(h[first..])
      invariant sum == wide % B64
      decreases left
    {
      var word := LoadAt(iph, pos, 4, h);
      assert h[pos..][4..] == h[pos + 4..];
      sum := Add64(sum, word, wide);
      wide := wide + word;
      pos := pos + 4;
      left := left - 1;
      if left == 0 {
        break;
      }
    }
  }

  /** `ip_fast_csum` of the first ihl 32-bit words. */
  method IpFastCsum(iph: array<Byte>, ihl: nat) returns (r: nat)
    requires ihl >= 5 && iph.Length >= 4 * ihl
    ensures r == FastCsum(iph[..4 * ihl]) <= M
    ensures WideSum(iph[..4 * ihl]) < B64 ==> r == Complement(OnesSum(Words(iph[..4 * ihl])))
  {
    ghost var h := iph[..4 * ihl];
    NoCarryExact(h);
    var tmp := LoadAt(iph, 0, 16, h);
    assert h[0..] == h;
    HeadLoad(h);
    var sum := FoldWord(tmp, B64, 0x1_0001_0001_0001);
    sum := AddWords(iph, 16, ihl - 4, sum, h);
    sum := FoldWord(sum, B32, 0x1_0001);
    r := CsumFold(sum);
  }

  lemma {:induction false} Sum32Below(b: seq<Byte>)
    requires |b| % 4 == 0
    ensures Sum32(b) <= (|b| / 4) * (B32 - 1)
  {
    if b != [] {
      LoadBelow(b, 4);
      Powers();
      Sum32Below(b[4..]);
    }
  }

  /** A header's length field has four bits, so at most one carry can be lost. */
  lemma {:induction false} AtMostOneCarry(h: seq<Byte>)
    requires 20 <= |h| <= 60 && |h| % 4 == 0
    ensures LostCarries(h) <= 1
  {
    HeadBelow(h);
    Sum32Below(h[16..]);
  }

  /** Dropping a carry takes one from the one's complement value. */
  lemma CarryShifts(wide: nat)
    requires B64 <= wide < 2 * B64
    ensures wide % B64 == wide - B64
    ensures Rep(wide) == if Rep(wide % B64) == M then 1 else Rep(wide % B64) + 1
  {
    RepDrop(wide - B64 + 1, 0x1_0001_0001_0001);
    RepNext(wide - B64);
  }

  /** For every header: the fast checksum is the defined one if and only if the 64-bit sum does not wrap. */
  lemma {:induction false} FastCsumCorrect(h: seq<Byte>)
    requires 20 <= |h| <= 60 && |h| % 4 == 0
    ensures FastCsum(h) == Complement(OnesSum(Words(h))) <==> WideSum(h) < B64
  {
    WideSumSame(h);
    AtMostOneCarry(h);
    if WideSum(h) >= B64 {
      CarryShifts(WideSum(h));
    }
  }

  // ---- Writing the checksum --------------------------------------------------------------------

  /** A header with its check field (bytes 10 and 11) set. */
  function WithCheck(h: seq<Byte>, c: nat): (r: seq<Byte>)
    requires |h| >= 12 && c <= M
    ensures |r| == |h| && Pair(r[10], r[11]) == c
    ensures forall i | 0 <= i < |h| && i != 10 && i != 11 :: r[i] == h[i]
  {
    h[10 := c % 256][11 := c / 256]
  }

  lemma CheckApart(h: seq<Byte>)
    requires |h| >= 12
    ensures Total(Words(h)) == Total(Words(h[..10])) + Pair(h[10], h[11]) + Total(Words(h[12..]))
  {
    var rest := h[10..];
    TotalSplits(h, 10);
    TotalSplits(rest, 2);
    assert rest[2..] == h[12..];
    assert Words(rest[..2][2..]) == [];
    assert Words(rest[..2]) == [Pair(h[10], h[11])];
  }

  lemma CheckCounts(h: seq<Byte>, c: nat)
    requires |h| >= 12 && c <= M
    ensures Total(Words(WithCheck(h, c))) == Total(Words(WithCheck(h, 0))) + c
  {
    var y, z := WithCheck(h, c), WithCheck(h, 0);
    CheckApart(y);
    CheckApart(z);
    assert y[..10] == z[..10] && y[12..] == z[12..];
  }

  lemma Refilled(total: nat, r: nat)
    requires r <= M
    ensures Rep(total) == r ==> Rep(total + (M - r)) == M
    ensures Rep(total) == (if r == M then 1 else r + 1) ==> Rep(total + (M - r)) == 1
  {
    RepAdd(total, M - r);
  }

  /**
   * A header passes the receiver's check of RFC 1071, its words summing to
   * 0xFFFF, exactly if the computation of its check field lost no carry.
   */
  lemma {:induction false} SealedHeader(h: seq<Byte>)
    requires 20 <= |h| <= 60 && |h| % 4 == 0
    ensures var z := WithCheck(h, 0);
      OnesSum(Words(WithCheck(h, FastCsum(z)))) == (if WideSum(z) < B64 then M else 1)
  {
    var z := WithCheck(h, 0);
    var c := FastCsum(z);
    AtMostOneCarry(z);
    WideSumSame(z);
    OnesSumIsRep(Words(z));
    OnesSumIsRep(Words(WithCheck(h, c)));
    CheckCounts(h, c);
    if WideSum(z) >= B64 {
      CarryShifts(WideSum(z));
    }
    Refilled(Total(Words(z)), Rep(WideSum(z) % B64));
  }

  /** A second pass over the sealed header yields 0 exactly if both passes lose a carry or neither does. */
  lemma {:induction false} RecheckIsZero(h: seq<Byte>)
    requires 20 <= |h| <= 60 && |h| % 4 == 0
    ensures var z := WithCheck(h, 0);
      var y := WithCheck(h, FastCsum(z));
      FastCsum(y) == 0 <==> (LostCarries(z) == LostCarries(y) && WideSum(y) % B64 != 0)
  {
    var z := WithCheck(h, 0);
    var y := WithCheck(h, FastCsum(z));
    AtMostOneCarry(z);
    AtMostOneCarry(y);
    SealedHeader(h);
    WideSumSame(y);
    if WideSum(y) >= B64 {
      CarryShifts(WideSum(y));
    }
  }

  /** `ip_send_check`: the header length in words is the low half of the first byte. */
  method IpSendCheck(iph: array<Byte>)
    requires iph.Length >= 20 && 5 <= iph[0] % 16 && 4 * (iph[0] % 16) <= iph.Length
    modifies iph
    ensures var n := 4 * (old(iph[0]) % 16);
      var z := WithCheck(old(iph[..n]), 0);
      && iph[..n] == WithCheck(old(iph[..n]), FastCsum(z))
      && iph[n..] == old(iph[n..])
      && OnesSum(Words(iph[..n])) == (if WideSum(z) < B64 then M else 1)
  {
    var ihl := iph[0] % 16;
    ghost var before := iph[..4 * ihl];
    iph[10], iph[11] := 0, 0;
    assert iph[..4 * ihl] == WithCheck(before, 0);
    var check := IpFastCsum(iph, ihl);
    iph[10], iph[11] := check % 256, check / 256;
    assert iph[..4 * ihl] == WithCheck(before, check);
    SealedHeader(before);
  }

  // ---- The headers the program sends ---------------------------------------------------------------

  lemma Load4(b: seq<Byte>)
    requires |b| >= 4
    ensures Load(b, 4) == b[0] as nat + 0x100 * b[1] as nat + 0x1_0000 * b[2] as nat + 0x100_0000 * b[3] as nat
  {
    assert b[1..][1..] == b[2..] && b[2..][1..] == b[3..];
    assert Load(b[3..], 1) == b[3] + 256 * Load(b[3..][1..], 0);
    assert Load(b[2..], 2) == b[2] as nat + 256 * Load(b[3..], 1);
    assert Load(b[1..], 3) == b[1] as nat + 256 * Load(b[2..], 2);
  }

  /**
   * What `make_normal_pkt` hands to `ip_send_check`: version 4 and five words,
   * a total length of 36 where pointers have eight bytes, identification 1234, no fragment, a time to live of 64
   * and protocol 123, an empty check field, and the addresses of the command line.
   */
  function PacketHeader(saddr: seq<Byte>, daddr: seq<Byte>): (h: seq<Byte>)
    requires |saddr| == |daddr| == 4
    ensures |h| == 20 && h[12..16] == saddr && h[16..] == daddr
    ensures h[0] == 0x45 && h[1] == h[2] == 0 && h[3] == 36
    ensures h[4] == 0x04 && h[5] == 0xD2 && h[6] == h[7] == 0
    ensures h[8] == 64 && h[9] == 123 && h[10] == h[11] == 0
  {
    [0x45, 0, 0, 36, 0x04, 0xD2, 0, 0, 64, 123, 0, 0] + saddr + daddr
  }

  /** The four quarters of the 128-bit load. */
  lemma {:induction false} HeadOf(b: seq<Byte>)
    requires |b| >= 16
    ensures HeadSum(b) == EndAround(Load(b[8..], 4) + B32 * Load(b[12..], 4), Load(b, 4) + B32 * Load(b[4..], 4), B64)
  {
    LoadSplits(b, 4, 4);
    LoadSplits(b[8..], 4, 4);
    assert b[8..][4..] == b[12..];
    Powers();
  }

  /** The words of such a header, and what they add up to. */
  lemma {:induction false} PacketWords(saddr: seq<Byte>, daddr: seq<Byte>)
    requires |saddr| == |daddr| == 4
    ensures var h := PacketHeader(saddr, daddr);
      && Load(h, 4) == 0x2400_0045 && Load(h[4..], 4) == 0xD204 && Load(h[8..], 4) == 0x7B40
      && Load(h[12..], 4) == Load(saddr, 4) && Load(h[16..], 4) == Load(daddr, 4)
  {
    var h := PacketHeader(saddr, daddr);
    Load4(h);
    Load4(h[4..]);
    Load4(h[8..]);
    assert h[12..][..4] == saddr && h[16..][..4] == daddr;
    LoadPrefix(h[12..], 4);
    LoadPrefix(h[16..], 4);
  }

  lemma {:induction false} PacketSum(saddr: seq<Byte>, daddr: seq<Byte>)
    requires |saddr| == |daddr| == 4
    ensures WideSum(PacketHeader(saddr, daddr)) ==
      EndAround(0x7B40 + B32 * Load(saddr, 4), 0x2400_0045 + B32 * 0xD204, B64) + Load(daddr, 4)
  {
    var h := PacketHeader(saddr, daddr);
    PacketWords(saddr, daddr);
    HeadOf(h);
    assert h[16..][4..] == [];
    assert Sum32(h[16..]) == Load(h[16..], 4) + Sum32(h[16..][4..]);
  }

  /** For one source address, 251.45.255.255, the sum is so near to 2^64 that a large destination address carries. */
  lemma {:induction false} PacketCarries(saddr: seq<Byte>, daddr: seq<Byte>)
    requires |saddr| == |daddr| == 4
    ensures WideSum(PacketHeader(saddr, daddr)) >= B64 <==>
      saddr == [251, 45, 255, 255] && Load(daddr, 4) >= 0xDBFF_847B
  {
    PacketSum(saddr, daddr);
    Load4(saddr);
    Load4(daddr);
    assert Load(saddr, 4) == 0xFFFF_2DFB <==> saddr == [251, 45, 255, 255];
  }

  /**
   * For every header this program can build and hand to sendto: its checksum is
   * the defined one, and the header passes the receiver's check, unless it names
   * 251.45.255.255 as source and a destination of at least 0xDBFF847B as the
   * machine loads it.
   */
  lemma {:induction false} PacketsSealed(saddr: seq<Byte>, daddr: seq<Byte>)
    requires |saddr| == |daddr| == 4
    ensures var h, lost := PacketHeader(saddr, daddr), saddr == [251, 45, 255, 255] && Load(daddr, 4) >= 0xDBFF_847B;
      && h == WithCheck(h, 0)
      && (FastCsum(h) == Complement(OnesSum(Words(h))) <==> !lost)
      && OnesSum(Words(WithCheck(h, FastCsum(h)))) == (if lost then 1 else M)
  {
    var h := PacketHeader(saddr, daddr);
    PacketCarries(saddr, daddr);
    assert h == WithCheck(h, 0);
    FastCsumCorrect(h);
    SealedHeader(h);
  }

  /** From 251.45.255.255 to 10.0.0.255 the carry is lost: the header built is wrong by one. */
  lemma {:induction false} CarryCanBeLost(saddr: seq<Byte>, daddr: seq<Byte>, h: seq<Byte>)
    requires saddr == [251, 45, 255, 255] && daddr == [10, 0, 0, 255] && h == PacketHeader(saddr, daddr)
    ensures h == WithCheck(h, 0)
    ensures FastCsum(h) != Complement(OnesSum(Words(h)))
    ensures OnesSum(Words(WithCheck(h, FastCsum(h)))) == 1
  {
    Load4(daddr);
    PacketsSealed(saddr, daddr);
  }

  // ---- Byte order ---------------------------------------------------------------------------

  /** Swapping the bytes of a word multiplies its one's complement value by 256. */
  lemma SwapSame(w: nat)
    requires w < B16
    ensures Swap(w) < B16 && Same(Swap(w), 256 * w)
  {
    var hi, lo := w / 256, w % 256;
    assert 256 * w == Swap(w) + M * hi;
    if w > 0 { RepDrop(Swap(w), hi); }
  }

  lemma {:induction false} TimesRep(a: nat)
    ensures Rep(256 * a) == Rep(256 * Rep(a))
  {
    if a > M {
      TimesRep(a - M);
      RepDrop(256 * (a - M), 256);
    }
  }

  lemma {:induction false} NetworkTotalSame(b: seq<Byte>)
    ensures Same(Total(NetworkWords(b)), 256 * Total(Words(b)))
  {
    if |b| >= 2 {
      NetworkTotalSame(b[2..]);
      var w := Pair(b[0], b[1]);
      assert Swap(w) == NetworkWords(b)[0];
      SwapSame(w);
      SameSums(Swap(w), 256 * w, Total(NetworkWords(b[2..])), 256 * Total(Words(b[2..])));
    }
  }

  /** Byte-order independence: the sum of the words in network order is the byte-swapped sum of the loaded words. */
  lemma ByteOrderIndependent(b: seq<Byte>)
    ensures OnesSum(NetworkWords(b)) == Swap(OnesSum(Words(b)))
  {
    var s := OnesSum(Words(b));
    OnesSumIsRep(Words(b));
    OnesSumIsRep(NetworkWords(b));
    NetworkTotalSame(b);
    SwapSame(s);
    TimesRep(Total(Words(b)));
  }

}
