// hashPJW, the hash of the file table, and the bucket index it gives.
module Pjw {
  import opened Basics
  import opened Unsigned
  import HashTable

  // An unsigned int is a number below 2^32; TOP is the weight of its four highest bits.
  const WORD: nat := 0x1_0000_0000
  const TOP: nat := 0x1000_0000

  // A char is signed and widens to unsigned by sign extension.
  function Widen(c: byte): nat {
    if c < 128 then c as int else WORD - 256 + c as int
  }

  // (g >> 24) ^ g
  function Mask(g: nat): nat {
    Xor(g / 0x100_0000, g)
  }

  // h & 0xf0000000
  function TopBits(h: nat): nat {
    h - h % TOP
  }

  // The `if` of the loop.
  function Folded(h: nat): nat {
    if TopBits(h) != 0 then Xor(h, Mask(TopBits(h))) else h
  }

  function PjwStep(h: nat, c: byte): nat {
    Folded((16 * h + Widen(c)) % WORD)
  }

  function PjwFrom(h: nat, s: Bytes): nat
    decreases |s|
  {
    if s == [] then h else PjwFrom(PjwStep(h, s[0]), s[1..])
  }

  lemma Powers()
    ensures Pow2(4) == 16 && Pow2(8) == 256 && Pow2(28) == TOP
  {
    assert Pow2(12) == 0x1000;
    assert Pow2(16) == 0x1_0000;
    assert Pow2(20) == 0x10_0000;
    assert Pow2(24) == 0x100_0000;
  }

  // What the step xors the sum with: its four highest bits, there and again in bits 4 to 7.
  lemma FoldMask(g: nat, s: nat, q: nat)
    requires q < 16 && g == q * TOP && s == 16 * q
    ensures Xor(s, g) == g + s
  {
    Powers();
    XorBlocks(28, TOP, s, g, 0, q, s, 0);
    XorZero(q);
    XorZero(s);
  }

  lemma FoldHigh(t: nat, mask: nat, q: nat, low: nat, s: nat)
    requires low < TOP && s < TOP && t == q * TOP + low && mask == q * TOP + s
    ensures Xor(t, mask) == Xor(low, s)
  {
    Powers();
    XorBlocks(28, TOP, t, mask, q, q, low, s);
    XorZero(q);
  }

  lemma FoldByte(a: nat, r: nat, s: nat)
    requires r < 256 && s < 256
    ensures Xor(a * 256 + r, s) == a * 256 + Xor(r, s)
  {
    Powers();
    XorBlocks(8, 256, a * 256 + r, s, a, 0, r, s);
    XorZero(a);
  }

  lemma FoldDigit(n: nat, b: nat, q: nat)
    requires n < 16 && b < 16 && q < 16
    ensures Xor(n * 16 + b, q * 16) == Xor(n, q) * 16 + b && Xor(n, q) < 16
  {
    Powers();
    XorBlocks(4, 16, n * 16 + b, q * 16, n, q, b, 0);
    XorZero(b);
    XorBounded(4, n, q);
  }

  lemma FoldLow(low: nat, a: nat, n: nat, b: nat, q: nat, s: nat)
    requires q < 16 && n < 16 && b < 16 && low == a * 256 + (n * 16 + b) && s == 16 * q
    ensures Xor(low, s) == a * 256 + Xor(n, q) * 16 + b && Xor(n, q) < 16
  {
    FoldByte(a, n * 16 + b, s);
    FoldDigit(n, b, q);
  }

  // t without its four highest bits, which are applied to bits 4 to 7.
  lemma FoldParts(t: nat, mask: nat, low: nat, q: nat, a: nat, n: nat, b: nat, s: nat)
    requires q < 16 && n < 16 && b < 16 && low < TOP && low == a * 256 + (n * 16 + b) && t == q * TOP + low
    requires s == 16 * q && mask == q * TOP + s
    ensures Xor(t, mask) == a * 256 + Xor(n, q) * 16 + b && Xor(n, q) < 16
  {
    FoldHigh(t, mask, q, low, s);
    FoldLow(low, a, n, b, q, s);
  }

  // The four highest bits of t, its bits 8 to 27, 4 to 7 and 0 to 3.
  lemma Parts(t: nat) returns (q: nat, a: nat, n: nat, b: nat)
    requires t < WORD
    ensures q < 16 && n < 16 && b < 16 && a * 256 + (n * 16 + b) < TOP
    ensures t == q * TOP + (a * 256 + (n * 16 + b))
    ensures q == t / TOP && n == t / 16 % 16 && t % TOP == a * 256 + (n * 16 + b)
    ensures TopBits(t) == q * TOP && TopBits(t) / 0x100_0000 == 16 * q
  {
    var t1 := t / 16;
    var t2 := t1 / 16;
    b, n, a, q := t % 16, t1 % 16, t2 % 0x10_0000, t2 / 0x10_0000;
    QuotientUnique(t, q, a * 256 + (n * 16 + b), TOP);
  }

  lemma FoldedValue(t: nat)
    requires t < WORD
    ensures var q, n := t / TOP, t / 16 % 16;
      Xor(n, q) < 16 && Folded(t) == t % TOP - 16 * n + 16 * Xor(n, q) < TOP
  {
    var q, a, n, b := Parts(t);
    FoldedParts(t, TopBits(t), t % TOP, q, a, n, b);
    Reassembled(t % TOP, a, n, b, Xor(n, q));
  }

  lemma Reassembled(low: nat, a: nat, n: nat, b: nat, x: nat)
    requires low == a * 256 + (n * 16 + b) && low < TOP && n < 16 && b < 16 && x < 16
    ensures a * 256 + x * 16 + b == low - 16 * n + 16 * x < TOP
  {
  }

  lemma FoldedParts(t: nat, g: nat, low: nat, q: nat, a: nat, n: nat, b: nat)
    requires q < 16 && n < 16 && b < 16 && low < TOP && low == a * 256 + (n * 16 + b)
    requires t == q * TOP + low && g == TopBits(t) && g == q * TOP && g / 0x100_0000 == 16 * q
    ensures Xor(n, q) < 16 && Folded(t) == a * 256 + Xor(n, q) * 16 + b
  {
    MaskValue(g, q);
    FoldParts(t, g + 16 * q, low, q, a, n, b, 16 * q);
    if q == 0 {
      XorZero(n);
    } else {
      FoldedSome(t, g, g + 16 * q);
    }
  }

  lemma FoldedSome(t: nat, g: nat, mask: nat)
    requires g == TopBits(t) && g != 0 && Mask(g) == mask
    ensures Folded(t) == Xor(t, mask)
  {
  }

  lemma MaskValue(g: nat, q: nat)
    requires q < 16 && g == q * TOP && g / 0x100_0000 == 16 * q
    ensures Mask(g) == g + 16 * q
  {
    FoldMask(g, 16 * q, q);
  }

  // The next value for a character: the 32-bit sum of 16 times the hash and the signed character,
  // without its four highest bits, which are xored onto bits 4 to 7.
  ghost predicate Follows(h: int, c: byte, next: int) {
    var t := (16 * h + (if c < 128 then c as int else c as int - 256)) % WORD;
    var q, n := t / TOP, t / 16 % 16;
    next == t % TOP - 16 * n + 16 * Xor(n, q) && 0 <= next < TOP
  }

  lemma StepFollows(h: nat, c: byte)
    requires h < TOP
    ensures Follows(h, c, PjwStep(h, c))
  {
    SumOf(h, c);
    FoldedValue((16 * h + Widen(c)) % WORD);
  }

  lemma SumOf(h: nat, c: byte)
    requires h < TOP
    ensures (16 * h + Widen(c)) % WORD == (16 * h + (if c < 128 then c as int else c as int - 256)) % WORD
  {
  }

  // The top four bits are clear after every character, negative ones included.
  lemma {:induction false} PjwBelow(h: nat, s: Bytes)
    requires h < TOP
    ensures PjwFrom(h, s) < TOP
    decreases |s|
  {
    if s == [] {
    } else {
      StepFollows(h, s[0]);
      PjwBelow(PjwStep(h, s[0]), s[1..]);
    }
  }

  lemma {:induction false} PjwSnoc(h: nat, s: Bytes, c: byte)
    ensures PjwFrom(h, s + [c]) == PjwStep(PjwFrom(h, s), c)
    decreases |s|
  {
    if s == [] {
      assert s + [c] == [c] && [c][1..] == [];
    } else {
      assert (s + [c])[1..] == s[1..] + [c];
      PjwSnoc(PjwStep(h, s[0]), s[1..], c);
    }
  }

  // The conversion of the result to int.
  function ToSigned(h: nat): int {
    if h < 0x8000_0000 then h else h - WORD
  }

  function Hash(s: Bytes): int {
    ToSigned(PjwFrom(0, s))
  }

  // The hash of any string, character by character.
  lemma HashFollows(s: Bytes, c: byte)
    ensures Hash([]) == 0 && Follows(Hash(s), c, Hash(s + [c]))
  {
    PjwBelow(0, s);
    PjwSnoc(0, s, c);
    StepFollows(PjwFrom(0, s), c);
  }

  // The sum of s[i] * 16^(|s| - 1 - i).
  function Sum16(s: Bytes): nat {
    if s == [] then 0 else s[0] as int * Power16(|s| - 1) + Sum16(s[1..])
  }

  function Power16(k: nat): (p: nat)
    ensures p > 0
  {
    if k == 0 then 1 else 16 * Power16(k - 1)
  }

  lemma {:induction false} Sum16Snoc(s: Bytes, c: byte)
    ensures Sum16(s + [c]) == 16 * Sum16(s) + c as int
    decreases |s|
  {
    if s == [] {
      assert s + [c] == [c] && [c][1..] == [];
      assert Power16(0) == 1;
    } else {
      assert (s + [c])[1..] == s[1..] + [c];
      Sum16Snoc(s[1..], c);
      var x, p: nat := s[0] as int, Power16(|s| - 1);
      assert Power16(|s|) == 16 * p;
      assert x * (16 * p) == 16 * (x * p);
    }
  }

  // A string of at most 6 characters below 128 never reaches the four highest bits.
  lemma {:induction false} ShortHash(s: Bytes)
    requires |s| <= 6 && forall c :: c in s ==> c < 128
    ensures Hash(s) == Sum16(s) <= 9 * Power16(|s|) - 9
    decreases |s|
  {
    assert Power16(6) == 0x100_0000 by {
      assert Power16(3) == 0x1000;
    }
    if s == [] {
    } else {
      var front, c := s[..|s| - 1], s[|s| - 1];
      assert s == front + [c];
      assert c in s && forall x :: x in front ==> x in s;
      ShortHash(front);
      Sum16Snoc(front, c);
      HashFollows(front, c);
      ShortStep(Hash(front), c, Hash(s), |s|);
    }
  }

  lemma ShortStep(h: nat, c: byte, next: int, n: nat)
    requires 0 < n <= 6 && h <= 9 * Power16(n - 1) - 9 && c < 128 && Follows(h, c, next)
    ensures next == 16 * h + c as int <= 9 * Power16(n) - 9
  {
    PowerBelow(n);
    var t := 16 * h + c as int;
    assert t < TOP && t % WORD == t && t / TOP == 0;
    XorZero(t / 16 % 16);
  }

  lemma PowerBelow(n: nat)
    requires 0 < n <= 6
    ensures 9 * Power16(n) < TOP && Power16(n) == 16 * Power16(n - 1)
  {
    assert Power16(1) == 16 && Power16(2) == 256 && Power16(3) == 0x1000;
    assert Power16(4) == 0x1_0000 && Power16(5) == 0x10_0000 && Power16(6) == 0x100_0000;
  }

  // The loop of hashPJW: `h << 4` is 16 * h modulo 2^32.
  method HashPjw(s: Bytes) returns (r: int)
    ensures r == Hash(s)
    ensures s != [] ==> Follows(Hash(s[..|s| - 1]), s[|s| - 1], r)
    ensures |s| <= 6 && (forall c :: c in s ==> c < 128) ==> r == Sum16(s)
  {
    var h: nat := 0;
    for i := 0 to |s|
      invariant PjwFrom(h, s[i..]) == PjwFrom(0, s)
    {
      assert s[i..][1..] == s[i + 1..];
      h := (16 * h + Widen(s[i])) % WORD;
      var g := TopBits(h);
      if g != 0 {
        h := Xor(h, Mask(g));
      }
    }
    r := ToSigned(h);
    if s != [] {
      assert s[..|s| - 1] + [s[|s| - 1]] == s;
      HashFollows(s[..|s| - 1], s[|s| - 1]);
    }
    if |s| <= 6 && forall c :: c in s ==> c < 128 {
      ShortHash(s);
    }
  }

  // The remainder of C, which takes the sign of the dividend.
  function CRemainder(a: int, b: nat): int
    requires b > 0
  {
    if a < 0 then -(-a % b) else a % b
  }

  // hash(e) % tablesize
  function Index(key: Bytes): (i: nat)
    ensures i < HashTable.TABLE_SIZE
  {
    BucketInRange(key);
    CRemainder(Hash(key), HashTable.TABLE_SIZE)
  }

  // No key indexes outside the bucket array.
  lemma BucketInRange(key: Bytes)
    ensures 0 <= CRemainder(Hash(key), HashTable.TABLE_SIZE) < HashTable.TABLE_SIZE
  {
    PjwBelow(0, key);
  }

  lemma IndexInTable()
    ensures HashTable.InTable(Index)
  {
  }
}
