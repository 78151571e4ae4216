/**
  A set of strings that keeps a pair of 32-bit hashes of its contents up to date, so that two sets
  can be compared without walking them. Strings are sequences of UTF-16 code units.
 */
module HashedSets {
  type CodeUnit = c: int | 0 <= c < 0x1_0000

  type Text = seq<CodeUnit>

  const WORD := 0x1_0000_0000
  const HALF := 0x8000_0000

  // ----- the 32-bit arithmetic of ECMAScript; the sums below stay far under 2^53, so they are exact

  /** `x | 0` */
  function ToInt32(x: int): (r: int)
    ensures -HALF <= r < HALF && (r - x) % WORD == 0
  {
    var unsigned := x % WORD;
    if unsigned < HALF then unsigned else unsigned - WORD
  }

  /** `x >>> 0` */
  function ToUint32(x: int): (r: nat)
    ensures r < WORD && (r - x) % WORD == 0
  {
    x % WORD
  }

  /** Both wrap around at 32 bits, one to a signed number and one to an unsigned one. */
  lemma WrapsAround(x: int)
    ensures -2147483648 <= ToInt32(x) <= 2147483647 && (ToInt32(x) - x) % 4294967296 == 0
    ensures 0 <= ToUint32(x) <= 4294967295 && (ToUint32(x) - x) % 4294967296 == 0
  {}

  function ShiftLeft5(x: int): int {
    ToInt32(ToInt32(x) * 32)
  }

  function ShiftLeft6(x: int): int {
    ToInt32(ToInt32(x) * 64)
  }

  // ----- the polynomial a string stands for

  function Pow(base: nat, exponent: nat): nat {
    if exponent == 0 then 1 else base * Pow(base, exponent - 1)
  }

  /** The sum of s[i] * base^(|s| - 1 - i). */
  function PositionalValue(s: Text, base: nat): nat {
    if s == [] then 0 else s[0] * Pow(base, |s| - 1) + PositionalValue(s[1..], base)
  }

  function Polynomial(s: Text, base: nat, seed: nat, scale: nat): nat {
    seed * Pow(base, |s|) + scale * PositionalValue(s, base)
  }

  function HighValue(s: Text): (r: nat)
    ensures r < WORD
  {
    Polynomial(s, 33, 5381, 1) % WORD
  }

  function LowValue(s: Text): (r: nat)
    ensures r < WORD
  {
    Polynomial(s, 65, 5387, 37) % WORD
  }

  /** The hashes of short texts, in numbers: each unit counts 33 or 65 times less than the one before it. */
  lemma ShortTexts(c: CodeUnit, d: CodeUnit)
    ensures HighValue([]) == 5381 && LowValue([]) == 5387
    ensures HighValue([c]) == 5381 * 33 + c && LowValue([c]) == 5387 * 65 + 37 * c
    ensures HighValue([c, d]) == (5381 * 33 + c) * 33 + d && LowValue([c, d]) == (5387 * 65 + 37 * c) * 65 + 37 * d
  {
    var two: Text := [c, d];
    assert two[1..] == [d] && [d][1..] == [] && [c][1..] == [];
    forall base: nat
      ensures Pow(base, 1) == base && Pow(base, 2) == base * base
    {
      assert Pow(base, 0) == 1;
      assert Pow(base, 1) == base * Pow(base, 0) && Pow(base, 2) == base * Pow(base, 1);
    }
    assert PositionalValue([c], 33) == c && PositionalValue([c], 65) == c;
    assert PositionalValue(two, 33) == c * 33 + d && PositionalValue(two, 65) == c * 65 + d;
  }

  lemma {:induction false} PositionalValueOfOneMore(s: Text, c: CodeUnit, base: nat)
    ensures PositionalValue(s + [c], base) == PositionalValue(s, base) * base + c
  {
    if s == [] {
      assert s + [c] == [c];
      assert PositionalValue([c][1..], base) == 0;
    } else {
      PositionalValueOfOneMore(s[1..], c, base);
      assert (s + [c])[1..] == s[1..] + [c];
      var power := Pow(base, |s| - 1);
      assert Pow(base, |s|) == base * power;
      calc {
        PositionalValue(s + [c], base);
        s[0] * (base * power) + (PositionalValue(s[1..], base) * base + c);
        { Regroup(s[0], base, power, PositionalValue(s[1..], base)); }
        (s[0] * power + PositionalValue(s[1..], base)) * base + c;
      }
    }
  }

  lemma Regroup(a: int, b: int, p: int, q: int)
    ensures a * (b * p) + q * b == (a * p + q) * b
  {
    Reorder(a, b, p);
    Distribute(b, a * p, q);
  }

  lemma Reorder(a: int, b: int, c: int)
    ensures a * (b * c) == (a * c) * b
  {
  }

  lemma Distribute(a: int, b: int, c: int)
    ensures a * (b + c) == a * b + a * c && (b + c) * a == b * a + c * a
  {
  }

  /** Reading one more code unit is one Horner step. */
  lemma PolynomialOfOneMore(s: Text, c: CodeUnit, base: nat, seed: nat, scale: nat)
    ensures Polynomial(s + [c], base, seed, scale) == Polynomial(s, base, seed, scale) * base + scale * c
  {
    PositionalValueOfOneMore(s, c, base);
    var power, value := Pow(base, |s|), PositionalValue(s, base);
    Distribute(scale, value * base, c);
    Reorder(scale, value, base);
    Reorder(scale, base, value);
    Regroup(seed, base, power, scale * value);
    assert Pow(base, |s + [c]|) == base * power;
  }

  /** `h` and `p` are the same word. */
  predicate Congruent(h: int, p: int) {
    (h - p) % WORD == 0
  }

  lemma CongruentBy(h: int, p: int, k: int)
    requires h == p + WORD * k
    ensures Congruent(h, p)
  {
  }

  lemma Multiple(h: int, p: int) returns (k: int)
    requires Congruent(h, p)
    ensures h == p + WORD * k
  {
    k := (h - p) / WORD;
  }

  lemma HighStep(h: int, p: int, c: int)
    requires Congruent(h, p)
    ensures Congruent(ToInt32(ShiftLeft5(h) + h + c), p * 33 + c)
  {
    var k := Multiple(h, p);
    var i := Multiple(ToInt32(h), h);
    var j := Multiple(ShiftLeft5(h), ToInt32(h) * 32);
    var m := Multiple(ToInt32(ShiftLeft5(h) + h + c), ShiftLeft5(h) + h + c);
    CongruentBy(ToInt32(ShiftLeft5(h) + h + c), p * 33 + c, 33 * k + 32 * i + j + m);
  }

  lemma LowStep(h: int, p: int, c: int)
    requires Congruent(h, p)
    ensures Congruent(ToInt32(ShiftLeft6(h) + h + c * 37), p * 65 + 37 * c)
  {
    var k := Multiple(h, p);
    var i := Multiple(ToInt32(h), h);
    var j := Multiple(ShiftLeft6(h), ToInt32(h) * 64);
    var m := Multiple(ToInt32(ShiftLeft6(h) + h + c * 37), ShiftLeft6(h) + h + c * 37);
    CongruentBy(ToInt32(ShiftLeft6(h) + h + c * 37), p * 65 + 37 * c, 65 * k + 64 * i + j + m);
  }

  lemma CongruentWordsAgree(h: int, p: int)
    requires Congruent(h, p)
    ensures ToUint32(h) == p % WORD
  {
  }

  /** After reading `s` the two running words are its two polynomials, up to multiples of 2^32. */
  predicate HasRead(s: Text, high: int, low: int) {
    Congruent(high, Polynomial(s, 33, 5381, 1)) && Congruent(low, Polynomial(s, 65, 5387, 37))
  }

  function HighAfter(high: int, unit: CodeUnit): int {
    ToInt32(ShiftLeft5(high) + high + unit)
  }

  function LowAfter(low: int, unit: CodeUnit): int {
    ToInt32(ShiftLeft6(low) + low + unit * 37)
  }

  lemma HasReadOneMore(s: Text, unit: CodeUnit, high: int, low: int)
    requires HasRead(s, high, low)
    ensures HasRead(s + [unit], HighAfter(high, unit), LowAfter(low, unit))
  {
    PolynomialOfOneMore(s, unit, 33, 5381, 1);
    PolynomialOfOneMore(s, unit, 65, 5387, 37);
    HighStep(high, Polynomial(s, 33, 5381, 1), unit);
    LowStep(low, Polynomial(s, 65, 5387, 37), unit);
  }

  lemma NothingRead()
    ensures HasRead([], 5381, 5387)
  {
    assert Pow(33, 0) == Pow(65, 0) == 1;
  }

  lemma AllRead(s: Text, high: int, low: int)
    requires HasRead(s, high, low)
    ensures ToUint32(high) == HighValue(s) && ToUint32(low) == LowValue(s)
  {
    CongruentWordsAgree(high, Polynomial(s, 33, 5381, 1));
    CongruentWordsAgree(low, Polynomial(s, 65, 5387, 37));
  }

  /** The loop over the code units computes both polynomials modulo 2^32. */
  method Djb2Dual(str: Text) returns (high: nat, low: nat)
    ensures high == HighValue(str)
    ensures low == LowValue(str)
  {
    var h, l := 5381, 5387;
    NothingRead();
    for i := 0 to |str|
      invariant HasRead(str[..i], h, l)
    {
      assert str[..i + 1] == str[..i] + [str[i]];
      HasReadOneMore(str[..i], str[i], h, l);
      h, l := HighAfter(h, str[i]), LowAfter(l, str[i]);
    }
    assert str[..|str|] == str;
    AllRead(str, h, l);
    return ToUint32(h), ToUint32(l);
  }

  // ----- exclusive or of words

  type Word = w: nat | w < WORD

  /** Exclusive or, bit by bit. */
  function Xor(x: nat, y: nat): nat {
    if x == 0 && y == 0 then 0 else 2 * Xor(x / 2, y / 2) + (if x % 2 != y % 2 then 1 else 0)
  }

  lemma {:induction false} XorTwice(x: nat, y: nat)
    ensures Xor(Xor(x, y), y) == x
  {
    if x > 0 || y > 0 {
      XorTwice(x / 2, y / 2);
      var z := Xor(x, y);
      assert z / 2 == Xor(x / 2, y / 2) && z % 2 == if x % 2 != y % 2 then 1 else 0;
    }
  }

  lemma {:induction false} XorSwaps(x: nat, y: nat, z: nat)
    ensures Xor(Xor(x, y), z) == Xor(Xor(x, z), y)
  {
    if x > 0 || y > 0 || z > 0 {
      XorSwaps(x / 2, y / 2, z / 2);
      var p, q := Xor(x, y), Xor(x, z);
      assert p / 2 == Xor(x / 2, y / 2) && p % 2 == if x % 2 != y % 2 then 1 else 0;
      assert q / 2 == Xor(x / 2, z / 2) && q % 2 == if x % 2 != z % 2 then 1 else 0;
    }
  }

  lemma {:induction false} XorFits(x: nat, y: nat, bits: nat)
    requires x < Pow(2, bits) && y < Pow(2, bits)
    ensures Xor(x, y) < Pow(2, bits)
  {
    if bits > 0 {
      XorFits(x / 2, y / 2, bits - 1);
    }
  }

  lemma {:induction false} PowOfSum(base: nat, m: nat, n: nat)
    ensures Pow(base, m + n) == Pow(base, m) * Pow(base, n)
  {
    if m > 0 {
      PowOfSum(base, m - 1, n);
      var p, q := Pow(base, m - 1), Pow(base, n);
      assert base * (p * q) == base * p * q;
    }
  }

  lemma XorIsAWord(x: nat, y: nat)
    requires x < WORD && y < WORD
    ensures Xor(x, y) < WORD
  {
    assert Pow(2, 8) == 256;
    PowOfSum(2, 8, 8);
    PowOfSum(2, 16, 16);
    XorFits(x, y, 32);
  }

  /** `x ^ y` on numbers: the bits of both as 32-bit integers, read back as a signed one. */
  function BitwiseXor(x: int, y: int): int {
    ToInt32(Xor(ToUint32(x), ToUint32(y)))
  }

  lemma WordIsKept(x: Word)
    ensures ToUint32(x) == x && ToUint32(ToInt32(x)) == x
  {
  }

  lemma BitwiseXorOfWords(x: Word, y: Word)
    ensures BitwiseXor(ToInt32(x), y) == ToInt32(Xor(x, y))
  {
    WordIsKept(x);
    WordIsKept(y);
  }

  // ----- the words of a set

  function HighWord(s: Text): Word {
    HighValue(s)
  }

  function LowWord(s: Text): Word {
    LowValue(s)
  }

  /** The exclusive or of one word of each element. */
  function XorAll(elements: seq<Text>, word: Text -> Word): Word {
    if elements == [] then 0
    else
      var front, last := XorAll(elements[..|elements| - 1], word), word(elements[|elements| - 1]);
      XorIsAWord(front, last);
      Xor(front, last)
  }

  predicate Distinct(elements: seq<Text>) {
    forall i, j :: 0 <= i < j < |elements| ==> elements[i] != elements[j]
  }

  function Without(elements: seq<Text>, i: nat): seq<Text>
    requires i < |elements|
  {
    elements[..i] + elements[i + 1..]
  }

  lemma XorAllOfOneMore(elements: seq<Text>, s: Text, word: Text -> Word)
    ensures XorAll(elements + [s], word) == Xor(XorAll(elements, word), word(s))
  {
    assert (elements + [s])[..|elements|] == elements;
  }

  lemma XorAllOfOne(s: Text, word: Text -> Word)
    ensures XorAll([s], word) == word(s)
  {
    XorAllOfOneMore([], s, word);
    XorZeroLeft(word(s));
    assert [] + [s] == [s];
  }

  lemma {:induction false} XorZeroLeft(x: nat)
    ensures Xor(0, x) == x
  {
    if x > 0 {
      XorZeroLeft(x / 2);
    }
  }

  /** Any element can be taken out of the exclusive or, wherever it stands. */
  lemma {:induction false} XorAllWithout(elements: seq<Text>, i: nat, word: Text -> Word)
    requires i < |elements|
    ensures XorAll(elements, word) == Xor(XorAll(Without(elements, i), word), word(elements[i]))
  {
    var last := |elements| - 1;
    if i == last {
      assert Without(elements, i) == elements[..last];
    } else {
      var front := elements[..last];
      XorAllWithout(front, i, word);
      assert Without(elements, i) == Without(front, i) + [elements[last]];
      XorAllOfOneMore(Without(front, i), elements[last], word);
      XorSwaps(XorAll(Without(front, i), word), word(elements[i]), word(elements[last]));
    }
  }

  lemma WithoutKeepsTheOthers(elements: seq<Text>, i: nat)
    requires i < |elements| && Distinct(elements)
    ensures Distinct(Without(elements, i))
    ensures forall e :: e in Without(elements, i) <==> e in elements && e != elements[i]
  {
    var rest := Without(elements, i);
    assert forall k :: 0 <= k < |rest| ==> rest[k] == elements[if k < i then k else k + 1];
    forall e | e in elements && e != elements[i]
      ensures e in rest
    {
      var k :| 0 <= k < |elements| && elements[k] == e;
      assert rest[if k < i then k else k - 1] == e;
    }
  }

  lemma SameEmptiness(a: seq<Text>, b: seq<Text>)
    requires forall e :: e in a <==> e in b
    ensures a == [] <==> b == []
  {
    assert a != [] ==> a[0] in a;
    assert b != [] ==> b[0] in b;
  }

  /** The words depend on the contents only, not on the order in which they came. */
  lemma {:induction false} OrderDoesNotMatter(a: seq<Text>, b: seq<Text>, word: Text -> Word)
    requires Distinct(a) && Distinct(b)
    requires forall e :: e in a <==> e in b
    ensures XorAll(a, word) == XorAll(b, word) && |a| == |b|
  {
    if a == [] {
      SameEmptiness(a, b);
    } else {
      var last := |a| - 1;
      assert a[last] in b;
      var i :| 0 <= i < |b| && b[i] == a[last];
      assert Without(a, last) == a[..last];
      WithoutKeepsTheOthers(a, last);
      WithoutKeepsTheOthers(b, i);
      OrderDoesNotMatter(a[..last], Without(b, i), word);
      XorAllWithout(b, i, word);
    }
  }

  /** The elements of `a` that `b` does not hold, in order. */
  function OnlyIn(a: seq<Text>, b: seq<Text>): seq<Text> {
    if a == [] then []
    else
      var front := OnlyIn(a[..|a| - 1], b);
      if a[|a| - 1] in b then front else front + [a[|a| - 1]]
  }

  lemma {:induction false} OnlyInOfAlike(a: seq<Text>, b: seq<Text>, c: seq<Text>)
    requires forall e :: e in a ==> (e in b <==> e in c)
    ensures OnlyIn(a, b) == OnlyIn(a, c)
  {
    if a != [] {
      assert a[|a| - 1] in a;
      OnlyInOfAlike(a[..|a| - 1], b, c);
    }
  }

  lemma {:induction false} OnlyInDisjoint(a: seq<Text>, b: seq<Text>)
    requires forall e :: e in a ==> e !in b
    ensures OnlyIn(a, b) == a
  {
    if a != [] {
      assert a[|a| - 1] in a;
      OnlyInDisjoint(a[..|a| - 1], b);
    }
  }

  lemma {:induction false} OnlyInWithout(a: seq<Text>, b: seq<Text>, i: nat)
    requires i < |a| && a[i] in b
    ensures OnlyIn(Without(a, i), b) == OnlyIn(a, b)
  {
    var last := |a| - 1;
    if i == last {
      assert Without(a, i) == a[..last];
    } else {
      var front := a[..last];
      OnlyInWithout(front, b, i);
      var rest := Without(a, i);
      assert rest[..|rest| - 1] == Without(front, i);
    }
  }

  /** The number a field holds: the word of the whole set, as a signed 32-bit integer. */
  ghost predicate Stands(field: int, elements: seq<Text>, word: Text -> Word) {
    field == ToInt32(XorAll(elements, word))
  }

  /** Toggling an element that is not there takes it in. */
  lemma ToggledIn(field: int, elements: seq<Text>, s: Text, word: Text -> Word)
    requires Stands(field, elements, word)
    ensures Stands(BitwiseXor(field, word(s)), elements + [s], word)
  {
    BitwiseXorOfWords(XorAll(elements, word), word(s));
    XorAllOfOneMore(elements, s, word);
  }

  /** Toggling an element that is there takes it out: exclusive or is its own inverse. */
  lemma ToggledOut(field: int, elements: seq<Text>, i: nat, word: Text -> Word)
    requires i < |elements| && Stands(field, elements, word)
    ensures Stands(BitwiseXor(field, word(elements[i])), Without(elements, i), word)
  {
    BitwiseXorOfWords(XorAll(elements, word), word(elements[i]));
    XorAllWithout(elements, i, word);
    XorTwice(XorAll(Without(elements, i), word), word(elements[i]));
  }

  class HashedSet {
    /** The elements in insertion order. */
    var elements: seq<Text>
    var hashHigh: int
    var hashLow: int

    ghost predicate Valid()
      reads this
    {
      Distinct(elements) && Stands(hashHigh, elements, HighWord) && Stands(hashLow, elements, LowWord)
    }

    /**
      The inherited constructor already goes through `Add` for every item; the fields are set to
      zero after that, and the hashes are taken once more over what was stored.
     */
    constructor (items: seq<Text>)
      ensures Valid()
      ensures forall e :: e in elements <==> e in items
    {
      elements, hashHigh, hashLow := [], 0, 0;
      new;
      for i := 0 to |items|
        invariant Valid()
        invariant forall e :: e in elements <==> e in items[..i]
      {
        assert items[..i + 1] == items[..i] + [items[i]];
        Add(items[i]);
      }
      assert items[..|items|] == items;
      Rehash();
    }

    /** The loop over the stored elements at the end of the construction. */
    method Rehash()
      modifies this
      ensures elements == old(elements)
      ensures Stands(hashHigh, elements, HighWord) && Stands(hashLow, elements, LowWord)
    {
      hashHigh, hashLow := 0, 0;
      ghost var stored := elements;
      for i := 0 to |elements|
        invariant elements == stored
        invariant Stands(hashHigh, stored[..i], HighWord) && Stands(hashLow, stored[..i], LowWord)
      {
        var high, low := Djb2Dual(elements[i]);
        assert stored[..i + 1] == stored[..i] + [stored[i]];
        ToggledIn(hashHigh, stored[..i], stored[i], HighWord);
        ToggledIn(hashLow, stored[..i], stored[i], LowWord);
        hashHigh, hashLow := BitwiseXor(hashHigh, high), BitwiseXor(hashLow, low);
      }
      assert stored[..|stored|] == stored;
    }

    method Add(str: Text)
      requires Valid()
      modifies this
      ensures Valid()
      ensures elements == if str in old(elements) then old(elements) else old(elements) + [str]
    {
      if str !in elements {
        var high, low := Djb2Dual(str);
        ToggledIn(hashHigh, elements, str, HighWord);
        ToggledIn(hashLow, elements, str, LowWord);
        hashHigh, hashLow := BitwiseXor(hashHigh, high), BitwiseXor(hashLow, low);
        elements := elements + [str];
      }
    }

    method Delete(str: Text) returns (deleted: bool)
      requires Valid()
      modifies this
      ensures Valid()
      ensures deleted == (str in old(elements))
      ensures !deleted ==> elements == old(elements)
      ensures deleted ==>
                exists i :: 0 <= i < |old(elements)| && old(elements)[i] == str && elements == Without(old(elements), i)
    {
      deleted := str in elements;
      if deleted {
        var i :| 0 <= i < |elements| && elements[i] == str;
        var high, low := Djb2Dual(str);
        WithoutKeepsTheOthers(elements, i);
        ToggledOut(hashHigh, elements, i, HighWord);
        ToggledOut(hashLow, elements, i, LowWord);
        hashHigh, hashLow := BitwiseXor(hashHigh, high), BitwiseXor(hashLow, low);
        elements := Without(elements, i);
      }
    }

    method Clear()
      modifies this
      ensures Valid() && elements == []
    {
      elements, hashHigh, hashLow := [], 0, 0;
    }

    predicate FastEquals(other: HashedSet)
      reads this, other
    {
      |elements| == |other.elements| && hashHigh == other.hashHigh && hashLow == other.hashLow
    }
  }

  // ----- what the comparison is worth

  /** Sets with the same contents compare equal, whatever sequences of operations built them. */
  lemma EqualSetsAreFastEqual(a: HashedSet, b: HashedSet)
    requires a.Valid() && b.Valid()
    requires forall e :: e in a.elements <==> e in b.elements
    ensures a.FastEquals(b)
  {
    OrderDoesNotMatter(a.elements, b.elements, HighWord);
    OrderDoesNotMatter(a.elements, b.elements, LowWord);
  }

  /** A shared element can be taken out of both sides: neither difference nor the comparison changes. */
  lemma SharedElementCancels(a: seq<Text>, b: seq<Text>, i: nat, j: nat, word: Text -> Word)
    requires Distinct(a) && Distinct(b)
    requires i < |a| && j < |b| && a[i] == b[j]
    ensures XorAll(a, word) == XorAll(b, word) <==> XorAll(Without(a, i), word) == XorAll(Without(b, j), word)
    ensures OnlyIn(a, b) == OnlyIn(Without(a, i), Without(b, j))
  {
    XorAllWithout(a, i, word);
    XorAllWithout(b, j, word);
    XorTwice(XorAll(Without(a, i), word), word(a[i]));
    XorTwice(XorAll(Without(b, j), word), word(a[i]));
    WithoutKeepsTheOthers(a, i);
    WithoutKeepsTheOthers(b, j);
    OnlyInWithout(a, b, i);
    OnlyInOfAlike(Without(a, i), b, Without(b, j));
  }

  /** What two sets share cancels out: they compare equal exactly when their two differences do. */
  lemma {:induction false} OnlyDifferencesAreCompared(a: seq<Text>, b: seq<Text>, word: Text -> Word)
    requires Distinct(a) && Distinct(b)
    ensures |a| - |b| == |OnlyIn(a, b)| - |OnlyIn(b, a)|
    ensures XorAll(a, word) == XorAll(b, word) <==> XorAll(OnlyIn(a, b), word) == XorAll(OnlyIn(b, a), word)
    decreases |a|
  {
    if i: nat, j: nat :| i < |a| && j < |b| && a[i] == b[j] {
      SharedElementCancels(a, b, i, j, word);
      SharedElementCancels(b, a, j, i, word);
      WithoutKeepsTheOthers(a, i);
      WithoutKeepsTheOthers(b, j);
      OnlyDifferencesAreCompared(Without(a, i), Without(b, j), word);
    } else {
      OnlyInDisjoint(a, b);
      OnlyInDisjoint(b, a);
    }
  }

  lemma FieldsAgree(f: int, g: int, a: seq<Text>, b: seq<Text>, word: Text -> Word)
    requires Stands(f, a, word) && Stands(g, b, word)
    ensures f == g <==> XorAll(a, word) == XorAll(b, word)
  {
    WordIsKept(XorAll(a, word));
    WordIsKept(XorAll(b, word));
  }

  /** The comparison of two sets is the comparison of what only one of them holds. */
  lemma FastEqualsComparesDifferences(a: HashedSet, b: HashedSet)
    requires a.Valid() && b.Valid()
    ensures a.FastEquals(b) <==>
      var mine, theirs := OnlyIn(a.elements, b.elements), OnlyIn(b.elements, a.elements);
      |mine| == |theirs| && XorAll(mine, HighWord) == XorAll(theirs, HighWord)
        && XorAll(mine, LowWord) == XorAll(theirs, LowWord)
  {
    FieldsAgree(a.hashHigh, b.hashHigh, a.elements, b.elements, HighWord);
    FieldsAgree(a.hashLow, b.hashLow, a.elements, b.elements, LowWord);
    OnlyDifferencesAreCompared(a.elements, b.elements, HighWord);
    OnlyDifferencesAreCompared(a.elements, b.elements, LowWord);
  }

  /**
    Equal answers do not mean equal sets: replacing one element goes unnoticed exactly when the
    two strings agree in both hashes.
   */
  lemma ReplacementGoesUnnoticed(a: HashedSet, b: HashedSet, s: Text, t: Text)
    requires a.Valid() && b.Valid()
    requires OnlyIn(a.elements, b.elements) == [s] && OnlyIn(b.elements, a.elements) == [t]
    ensures a.FastEquals(b) <==> HighWord(s) == HighWord(t) && LowWord(s) == LowWord(t)
  {
    FastEqualsComparesDifferences(a, b);
    XorAllOfOne(s, HighWord);
    XorAllOfOne(t, HighWord);
    XorAllOfOne(s, LowWord);
    XorAllOfOne(t, LowWord);
  }

  /** Strings that do agree: the sets of one each compare equal although they share nothing. */
  method FastEqualsIsNotEquality() returns (a: HashedSet, b: HashedSet)
    ensures a.Valid() && b.Valid()
    ensures a.FastEquals(b) && |a.elements| == 1 && forall e :: e in a.elements ==> e !in b.elements
  {
    var s: Text, t: Text := [0, 98, 0], [1, 0, 2145];
    a := new HashedSet([]);
    b := new HashedSet([]);
    SameEmptiness(a.elements, []);
    SameEmptiness(b.elements, []);
    a.Add(s);
    b.Add(t);
    assert s[0] != t[0];
    DifferByOne(s, t);
    ReplacementGoesUnnoticed(a, b, s, t);
    CollidingPair();
  }

  lemma DifferByOne(s: Text, t: Text)
    requires s != t
    ensures OnlyIn([s], [t]) == [s] && OnlyIn([t], [s]) == [t]
  {
    OnlyInDisjoint([s], [t]);
    OnlyInDisjoint([t], [s]);
  }

  lemma CollidingPair()
    ensures HighWord([0, 98, 0]) == HighWord([1, 0, 2145]) && LowWord([0, 98, 0]) == LowWord([1, 0, 2145])
  {
    var s: Text, t: Text := [0, 98, 0], [1, 0, 2145];
    assert PositionalValue(s, 33) == PositionalValue(t, 33) == 3234;
    assert PositionalValue(s, 65) == PositionalValue(t, 65) == 6370;
  }
}
