/** 64-bit FNV-1a, and the two names built from it: a notebook's working copy and a query's job. */
module Fnv {
  import opened AsciiText
  import opened Results

  // ---------------------------------------------------------------- the hash

  /** A 64-bit word. */
  type Word = w: nat | w < TWO64

  const OFFSET_BASIS: Word := 0xcbf29ce484222325
  const PRIME: nat := 0x100000001b3

  /** The prime's inverse modulo 2^64. */
  const INVERSE: nat := 0xce965057aff6957b

  function Pow2(k: nat): nat {
    if k == 0 then 1 else 2 * Pow2(k - 1)
  }

  /** Exclusive or of two `k`-bit numbers, from the highest bit down. */
  function Xor(a: nat, b: nat, k: nat): (x: nat)
    requires a < Pow2(k) && b < Pow2(k)
    ensures x < Pow2(k)
  {
    if k == 0 then 0
    else
      var w := Pow2(k - 1);
      if a < w then if b < w then Xor(a, b, k - 1) else w + Xor(a, b - w, k - 1)
      else if b < w then w + Xor(a - w, b, k - 1) else Xor(a - w, b - w, k - 1)
  }

  lemma {:induction false} XorUndoes(a: nat, b: nat, k: nat)
    requires a < Pow2(k) && b < Pow2(k)
    ensures Xor(Xor(a, b, k), b, k) == a
  {
    if k > 0 {
      var w := Pow2(k - 1);
      XorUndoes(if a < w then a else a - w, if b < w then b else b - w, k - 1);
    }
  }

  lemma {:induction false} XorCommutes(a: nat, b: nat, k: nat)
    requires a < Pow2(k) && b < Pow2(k)
    ensures Xor(a, b, k) == Xor(b, a, k)
  {
    if k > 0 {
      var w := Pow2(k - 1);
      XorCommutes(if a < w then a else a - w, if b < w then b else b - w, k - 1);
    }
  }

  function XorByte(a: Byte, b: Byte): Byte {
    assert Pow2(8) == 256 by { Pow2Of8(); }
    Xor(a, b, 8)
  }

  lemma Pow2Of8()
    ensures Pow2(8) == 256
  {
  }

  lemma XorByteUndoes(a: Byte, b: Byte)
    ensures XorByte(XorByte(a, b), b) == a
    ensures XorByte(XorByte(a, b), a) == b
  {
    Pow2Of8();
    XorUndoes(a, b, 8);
    XorUndoes(b, a, 8);
    XorCommutes(a, b, 8);
  }

  /** `hash ^= b`: only the low byte changes. */
  function Mix(h: Word, b: Byte): Word {
    h - h % 256 + XorByte(h % 256, b)
  }

  function Step(h: Word, b: Byte): Word {
    Mix(h, b) * PRIME % TWO64
  }

  /** The step backwards. */
  function Unstep(h: Word, b: Byte): Word {
    Mix(h * INVERSE % TWO64, b)
  }

  lemma MixUndoes(h: Word, b: Byte)
    ensures Mix(Mix(h, b), b) == h
  {
    var low := XorByte(h % 256, b);
    assert Mix(h, b) % 256 == low;
    XorByteUndoes(h % 256, b);
  }

  lemma Reduces(y: int, x: int, k: int, m: nat)
    requires y == x + m * k && 0 <= x < m
    ensures y % m == x
  {
    var d := k - y / m;
    assert m * d == y % m - x by { assert y == m * (y / m) + y % m; }
    Multiples(m, d);
  }

  lemma Multiples(m: nat, d: int)
    ensures d >= 1 ==> m * d >= m
    ensures d <= -1 ==> m * d <= -(m as int)
  {
  }

  /** Multiplying by two numbers whose product is one more than a multiple of the modulus changes
      nothing. */
  lemma MultiplyUndoes(x: nat, p: nat, i: nat, q: nat, m: nat)
    requires x < m && p * i == 1 + q * m
    ensures x * p % m * i % m == x
  {
    var t, r := x * p / m, x * p % m;
    assert r * i == x + m * (x * q - t * i) by {
      assert r == x * p - m * t;
      assert r * i == x * p * i - m * t * i;
      assert x * p * i == x * (p * i) == x + x * q * m;
    }
    Reduces(r * i, x, x * q - t * i, m);
  }

  /** Every step is a bijection on the states, whatever the byte: it can be taken back on both sides. */
  lemma StepBijective(h: Word, b: Byte)
    ensures Unstep(Step(h, b), b) == h
    ensures Step(Unstep(h, b), b) == h
  {
    assert PRIME * INVERSE == 1 + 887285111055 * TWO64;
    MultiplyUndoes(Mix(h, b), PRIME, INVERSE, 887285111055, TWO64);
    MixUndoes(h, b);
    var back := h * INVERSE % TWO64;
    MultiplyUndoes(h, INVERSE, PRIME, 887285111055, TWO64);
    MixUndoes(back, b);
  }

  /** From one state, different bytes lead to different states. */
  lemma BytesPart(h: Word, b: Byte, c: Byte)
    requires Step(h, b) == Step(h, c)
    ensures b == c
  {
    UnmultiplyMix(h, b);
    UnmultiplyMix(h, c);
    XorByteUndoes(h % 256, b);
    XorByteUndoes(h % 256, c);
  }

  lemma UnmultiplyMix(h: Word, b: Byte)
    ensures Step(h, b) * INVERSE % TWO64 == Mix(h, b)
  {
    assert PRIME * INVERSE == 1 + 887285111055 * TWO64;
    MultiplyUndoes(Mix(h, b), PRIME, INVERSE, 887285111055, TWO64);
  }

  /** The state after more bytes. */
  function HashFrom(h: Word, bytes: seq<Byte>): Word
    decreases |bytes|
  {
    if bytes == [] then h else HashFrom(Step(h, bytes[0]), bytes[1..])
  }

  function Fnv1a(bytes: seq<Byte>): Word {
    HashFrom(OFFSET_BASIS, bytes)
  }

  /** The loop: exclusive or first, then the wrapping multiplication. */
  method Fnv1a64(bytes: seq<Byte>) returns (hash: Word)
    ensures hash == Fnv1a(bytes)
  {
    hash := OFFSET_BASIS;
    for i := 0 to |bytes|
      invariant HashFrom(hash, bytes[i..]) == Fnv1a(bytes)
    {
      assert bytes[i..][1..] == bytes[i + 1..];
      hash := Mix(hash, bytes[i]);
      hash := hash * PRIME % TWO64;
    }
    assert bytes[|bytes|..] == [];
  }

  /** Reading the same bytes never brings two states together. */
  lemma {:induction false} HashInjective(h: Word, g: Word, bytes: seq<Byte>)
    ensures HashFrom(h, bytes) == HashFrom(g, bytes) <==> h == g
    decreases |bytes|
  {
    if bytes != [] {
      HashInjective(Step(h, bytes[0]), Step(g, bytes[0]), bytes[1..]);
      StepBijective(h, bytes[0]);
      StepBijective(g, bytes[0]);
    }
  }

  predicate DifferOnlyAt(a: seq<Byte>, b: seq<Byte>, i: nat) {
    i < |a| == |b| && a[..i] == b[..i] && a[i] != b[i] && a[i + 1..] == b[i + 1..]
  }

  /** Inputs of one length that differ in one byte never hash alike. */
  lemma {:induction false} OneByteDecides(h: Word, a: seq<Byte>, b: seq<Byte>, i: nat)
    requires DifferOnlyAt(a, b, i)
    ensures HashFrom(h, a) != HashFrom(h, b)
    decreases |a|
  {
    if i > 0 {
      assert a[0] == a[..i][0] && b[0] == b[..i][0];
      assert a[1..][..i - 1] == a[..i][1..] && b[1..][..i - 1] == b[..i][1..];
      assert a[1..][i..] == a[i + 1..] && b[1..][i..] == b[i + 1..];
      OneByteDecides(Step(h, a[0]), a[1..], b[1..], i - 1);
    } else {
      if Step(h, a[0]) == Step(h, b[0]) { BytesPart(h, a[0], b[0]); }
      HashInjective(Step(h, a[0]), Step(h, b[0]), a[1..]);
    }
  }

  /** Whatever two inputs hash alike still do with the same bytes after them. */
  lemma {:induction false} HashAppend(h: Word, a: seq<Byte>, b: seq<Byte>)
    ensures HashFrom(h, a + b) == HashFrom(HashFrom(h, a), b)
    decreases |a|
  {
    if a == [] {
      assert a + b == b;
    } else {
      assert (a + b)[1..] == a[1..] + b;
      HashAppend(Step(h, a[0]), a[1..], b);
    }
  }

  // ---------------------------------------------------------------- working copies

  /** Text as its UTF-8 bytes, one character a byte. */
  type ByteText = s: string | forall i :: 0 <= i < |s| ==> s[i] < 256 as char witness ""

  function Bytes(s: ByteText): seq<Byte> {
    seq(|s|, i requires 0 <= i < |s| => s[i] as nat)
  }

  /** `rsplit(c).next()`: what follows the last `c`, or everything. */
  function AfterLast(s: string, c: char): string {
    if c !in s then s else if s[|s| - 1] == c then "" else AfterLast(s[..|s| - 1], c) + [s[|s| - 1]]
  }

  /** The original extension, or that of a Python file when there is none. */
  function Extension(path: string): string {
    var name := AfterLast(path, '/');
    var extension := AfterLast(name, '.');
    if '.' in name && extension != "" then extension else "py"
  }

  lemma {:induction false} AfterLastIs(before: string, c: char, after: string)
    requires c !in after
    ensures AfterLast(before + [c] + after, c) == after
    decreases |after|
  {
    var s := before + [c] + after;
    assert c in s by { assert s[|before|] == c; }
    if after != "" {
      var init, last := after[..|after| - 1], after[|after| - 1];
      assert s[..|s| - 1] == before + [c] + init;
      AfterLastIs(before, c, init);
      assert after == init + [last];
    }
  }

  /** The extension is what follows the last dot of the last segment; a name without a dot, or ending
      in one, counts as Python. */
  lemma ExtensionOfPath(dir: string, stem: string, extension: string)
    requires '/' !in stem && '/' !in extension && '.' !in extension
    ensures Extension(dir + "/" + (stem + "." + extension)) == if extension == "" then "py" else extension
    ensures '.' !in stem ==> Extension(dir + "/" + stem) == "py"
  {
    var name := stem + "." + extension;
    AfterLastIs(dir, '/', name);
    AfterLastIs(stem, '.', extension);
    AfterLastIs(dir, '/', stem);
    assert '.' in name by { assert name[|stem|] == '.'; }
  }

  function WorkingName(path: ByteText): string {
    Hex(Fnv1a(Bytes(path)), 16) + "." + Extension(path)
  }

  /** Two paths share a working copy exactly when their hashes and their extensions agree. */
  lemma SharedIff(a: ByteText, b: ByteText)
    ensures WorkingName(a) == WorkingName(b) <==> Fnv1a(Bytes(a)) == Fnv1a(Bytes(b)) && Extension(a) == Extension(b)
  {
    if WorkingName(a) == WorkingName(b) {
      var x, y := Hex(Fnv1a(Bytes(a)), 16), Hex(Fnv1a(Bytes(b)), 16);
      assert WorkingName(a)[..16] == x && WorkingName(b)[..16] == y;
      assert WorkingName(a)[17..] == Extension(a) && WorkingName(b)[17..] == Extension(b);
      Power16Of16();
      HexInjective(Fnv1a(Bytes(a)), Fnv1a(Bytes(b)), 16);
    }
  }

  /** So paths of one length that differ in one byte never share one. */
  lemma OneByteNeverShares(a: ByteText, b: ByteText, i: nat)
    requires DifferOnlyAt(Bytes(a), Bytes(b), i)
    ensures WorkingName(a) != WorkingName(b)
  {
    OneByteDecides(OFFSET_BASIS, Bytes(a), Bytes(b), i);
    SharedIff(a, b);
  }

  // ---------------------------------------------------------------- a collision

  /** One bit of an exclusive or, and what is left below it. */
  function Bit(a: nat, b: nat, w: nat): nat {
    if (a >= w) != (b >= w) then w else 0
  }

  function Low(a: nat, w: nat): nat {
    if a >= w then a - w else a
  }

  /** Exclusive or of two bytes, bit by bit. */
  function Bits(a: nat, b: nat): nat {
    var a6, b6 := Low(a, 128), Low(b, 128);
    var a5, b5 := Low(a6, 64), Low(b6, 64);
    var a4, b4 := Low(a5, 32), Low(b5, 32);
    var a3, b3 := Low(a4, 16), Low(b4, 16);
    var a2, b2 := Low(a3, 8), Low(b3, 8);
    var a1, b1 := Low(a2, 4), Low(b2, 4);
    var a0, b0 := Low(a1, 2), Low(b1, 2);
    Bit(a, b, 128) + Bit(a6, b6, 64) + Bit(a5, b5, 32) + Bit(a4, b4, 16) +
    Bit(a3, b3, 8) + Bit(a2, b2, 4) + Bit(a1, b1, 2) + Bit(a0, b0, 1)
  }

  lemma TopBit(a: nat, b: nat, k: nat, w: nat)
    requires w == Pow2(k) && a < 2 * w && b < 2 * w
    ensures Low(a, w) < w && Low(b, w) < w && Pow2(k + 1) == 2 * w
    ensures Xor(a, b, k + 1) == Bit(a, b, w) + Xor(Low(a, w), Low(b, w), k)
  {
  }

  lemma XorIsBits(a: Byte, b: Byte)
    ensures XorByte(a, b) == Bits(a, b)
  {
    assert Pow2(4) == 16;
    assert Pow2(6) == 64;
    var x: nat, y: nat := a, b;
    TopBit(x, y, 7, 128);
    x, y := Low(x, 128), Low(y, 128);
    TopBit(x, y, 6, 64);
    x, y := Low(x, 64), Low(y, 64);
    TopBit(x, y, 5, 32);
    x, y := Low(x, 32), Low(y, 32);
    TopBit(x, y, 4, 16);
    x, y := Low(x, 16), Low(y, 16);
    TopBit(x, y, 3, 8);
    x, y := Low(x, 8), Low(y, 8);
    TopBit(x, y, 2, 4);
    x, y := Low(x, 4), Low(y, 4);
    TopBit(x, y, 1, 2);
    x, y := Low(x, 2), Low(y, 2);
    TopBit(x, y, 0, 1);
  }

  lemma MixOf(h: Word, high: nat, low: Byte, b: Byte)
    requires h == 256 * high + low
    ensures Mix(h, b) == 256 * high + XorByte(low, b)
  {
  }

  lemma ByteAppended(s: ByteText, c: char, b: Byte) returns (t: ByteText)
    requires c as nat == b
    ensures t == s + [c] && Bytes(t) == Bytes(s) + [b]
  {
    t := s + [c];
  }

  /** One more character of a name whose hash so far is known: its high bytes and its low one, the low
      one after the exclusive or, and what the multiplication wraps around. */
  lemma Reads(s: ByteText, h: Word, c: char, b: Byte, high: nat, low: Byte, mixed: nat, wraps: nat, next: Word)
    returns (t: ByteText)
    requires c as nat == b
    requires Fnv1a(Bytes(s)) == h && h == 256 * high + low
    requires mixed == Bits(low, b)
    requires (256 * high + mixed) * PRIME == TWO64 * wraps + next
    ensures t == s + [c] && Fnv1a(Bytes(t)) == next
  {
    t := ByteAppended(s, c, b);
    HashAppend(OFFSET_BASIS, Bytes(s), [b]);
    XorIsBits(low, b);
    MixOf(h, high, low, b);
    Reduces(Mix(h, b) * PRIME, next, wraps, TWO64);
  }

  lemma Start() returns (s: ByteText)
    ensures s == "" && Fnv1a(Bytes(s)) == 0xcbf29ce484222325
  {
    s := "";
    assert Bytes(s) == [];
  }

  lemma Home() returns (s: ByteText)
    ensures s == "/home/" && Fnv1a(Bytes(s)) == 0xa7d4cf956e556eda
  {
    s := Start();
    s := Reads(s, 0xcbf29ce484222325, '/', 0x2f, 0xcbf29ce4842223, 0x25, 0x0a, 0xcbf29ce5de, 0xaf63a24c860189fe);
    s := Reads(s, 0xaf63a24c860189fe, 'h', 0x68, 0xaf63a24c860189, 0xfe, 0x96, 0xaf63a24db0, 0x07d65e07b49cc9e2);
    s := Reads(s, 0x07d65e07b49cc9e2, 'o', 0x6f, 0x07d65e07b49cc9, 0xe2, 0x8d, 0x7d65e07c1, 0xee0b5417e66a7a97);
    s := Reads(s, 0xee0b5417e66a7a97, 'm', 0x6d, 0xee0b5417e66a7a, 0x97, 0xfa, 0xee0b54197a, 0xe7bade9c86eef6ce);
    s := Reads(s, 0xe7bade9c86eef6ce, 'e', 0x65, 0xe7bade9c86eef6, 0xce, 0xab, 0xe7bade9e10, 0xb17eeef9480d2491);
    s := Reads(s, 0xb17eeef9480d2491, '/', 0x2f, 0xb17eeef9480d24, 0x91, 0xbe, 0xb17eeefa75, 0xa7d4cf956e556eda);
  }

  lemma FirstName() returns (s: ByteText)
    ensures s == "/home/ErgTnA" && Fnv1a(Bytes(s)) == 0xded0e091815a83a3
  {
    s := Home();
    s := Reads(s, 0xa7d4cf956e556eda, 'E', 0x45, 0xa7d4cf956e556e, 0xda, 0x9f, 0xa7d4cf968b, 0x840b59ea7b2af82d);
    s := Reads(s, 0x840b59ea7b2af82d, 'r', 0x72, 0x840b59ea7b2af8, 0x2d, 0x5f, 0x840b59eb5b, 0x8a42286f4a04096d);
    s := Reads(s, 0x8a42286f4a04096d, 'g', 0x67, 0x8a42286f4a0409, 0x6d, 0x0a, 0x8a42287034, 0xf273bf1ac4db5bfe);
    s := Reads(s, 0xf273bf1ac4db5bfe, 'T', 0x54, 0xf273bf1ac4db5b, 0xfe, 0xaa, 0xf273bf1c60, 0xd609647c80bcc1de);
    s := Reads(s, 0xd609647c80bcc1de, 'n', 0x6e, 0xd609647c80bcc1, 0xde, 0xb0, 0xd609647dec, 0x6eb76f8ec0bd1e10);
    s := Reads(s, 0x6eb76f8ec0bd1e10, 'A', 0x41, 0x6eb76f8ec0bd1e, 0x10, 0x51, 0x6eb76f8f7c, 0xded0e091815a83a3);
  }

  lemma FirstPath() returns (s: ByteText)
    ensures s == "/home/ErgTnAMZvSn" && Fnv1a(Bytes(s)) == 0xf97e205889eccd07
  {
    s := FirstName();
    s := Reads(s, 0xded0e091815a83a3, 'M', 0x4d, 0xded0e091815a83, 0xa3, 0xee, 0xded0e092fb, 0xf771853eccce2d6a);
    s := Reads(s, 0xf771853eccce2d6a, 'Z', 0x5a, 0xf771853eccce2d, 0x6a, 0x30, 0xf771854071, 0x441299b60256c890);
    s := Reads(s, 0x441299b60256c890, 'v', 0x76, 0x441299b60256c8, 0x90, 0xe6, 0x441299b676, 0x02641645f9775ed2);
    s := Reads(s, 0x02641645f9775ed2, 'S', 0x53, 0x02641645f9775e, 0xd2, 0x81, 0x2641645fd, 0x877059e6e5d59533);
    s := Reads(s, 0x877059e6e5d59533, 'n', 0x6e, 0x877059e6e5d595, 0x33, 0x5d, 0x877059e7cb, 0xf97e205889eccd07);
  }

  lemma SecondName() returns (s: ByteText)
    ensures s == "/home/Ihi6Vb" && Fnv1a(Bytes(s)) == 0x918bced4bcbad928
  {
    s := Home();
    s := Reads(s, 0xa7d4cf956e556eda, 'I', 0x49, 0xa7d4cf956e556e, 0xda, 0x93, 0xa7d4cf968b, 0x840b4dea7b2ae3c9);
    s := Reads(s, 0x840b4dea7b2ae3c9, 'h', 0x68, 0x840b4dea7b2ae3, 0xc9, 0xa1, 0x840b4deb5b, 0x8a19066f49e0ca93);
    s := Reads(s, 0x8a19066f49e0ca93, 'i', 0x69, 0x8a19066f49e0ca, 0x93, 0xfa, 0x8a19067034, 0x8950e91a88f8e6ce);
    s := Reads(s, 0x8950e91a88f8e6ce, '6', 0x36, 0x8950e91a88f8e6, 0xce, 0xf8, 0x8950e91b72, 0x4d631016bef07768);
    s := Reads(s, 0x4d631016bef07768, 'V', 0x56, 0x4d631016bef077, 0x68, 0x3e, 0x4d63101742, 0x6fcb94a6729a9e5a);
    s := Reads(s, 0x6fcb94a6729a9e5a, 'b', 0x62, 0x6fcb94a6729a9e, 0x5a, 0x38, 0x6fcb94a730, 0x918bced4bcbad928);
  }

  lemma SecondPath() returns (s: ByteText)
    ensures s == "/home/Ihi6VbKmc9a" && Fnv1a(Bytes(s)) == 0xf97e205889eccd07
  {
    s := SecondName();
    s := Reads(s, 0x918bced4bcbad928, 'K', 0x4b, 0x918bced4bcbad9, 0x28, 0x63, 0x918bced5b4, 0x0b69d67cb17f6339);
    s := Reads(s, 0x0b69d67cb17f6339, 'm', 0x6d, 0x0b69d67cb17f63, 0x39, 0x54, 0xb69d67cc4, 0xe43ac9e19b75c7bc);
    s := Reads(s, 0xe43ac9e19b75c7bc, 'c', 0x63, 0xe43ac9e19b75c7, 0xbc, 0xdf, 0xe43ac9e31f, 0x45ace95b29229fed);
    s := Reads(s, 0x45ace95b29229fed, '9', 0x39, 0x45ace95b29229f, 0xed, 0xd4, 0x45ace95b9f, 0x877059e6e5d5953c);
    s := Reads(s, 0x877059e6e5d5953c, 'a', 0x61, 0x877059e6e5d595, 0x3c, 0x5d, 0x877059e7cb, 0xf97e205889eccd07);
  }

  lemma {:induction false} NoDotAfter(s: string, c: char)
    requires '.' !in s
    ensures '.' !in AfterLast(s, c)
    decreases |s|
  {
    if c in s && s[|s| - 1] != c { NoDotAfter(s[..|s| - 1], c); }
  }

  /** Two different paths do share a working copy: being short, the hash cannot keep all paths apart. */
  lemma TwoPathsCollide()
    ensures WorkingName("/home/ErgTnAMZvSn") == WorkingName("/home/Ihi6VbKmc9a")
  {
    var a, b;
    a := FirstPath();
    b := SecondPath();
    NoDotAfter(a, '/');
    NoDotAfter(b, '/');
    SharedIff(a, b);
  }

  lemma HomeSlash() returns (s: ByteText)
    ensures s == "/home//" && Fnv1a(Bytes(s)) == 0x840bafea7b2b8a4f
  {
    s := Home();
    s := Reads(s, 0xa7d4cf956e556eda, '/', 0x2f, 0xa7d4cf956e556e, 0xda, 0xf5, 0xa7d4cf968b, 0x840bafea7b2b8a4f);
  }

  lemma HashOfAppend(s: ByteText, x: ByteText) returns (t: ByteText)
    ensures t == s + x && Fnv1a(Bytes(t)) == HashFrom(Fnv1a(Bytes(s)), Bytes(x))
  {
    t := s + x;
    assert Bytes(t) == Bytes(s) + Bytes(x);
    HashAppend(OFFSET_BASIS, Bytes(s), Bytes(x));
  }

  /** A doubled slash behind `/home` always gives another name, whatever follows. */
  lemma DoubledSlashNeverShares(x: ByteText)
    ensures WorkingName("/home/" + x) != WorkingName("/home//" + x)
  {
    var s := Home();
    var t := HomeSlash();
    var a := HashOfAppend(s, x);
    var b := HashOfAppend(t, x);
    HashInjective(Fnv1a(Bytes(s)), Fnv1a(Bytes(t)), Bytes(x));
    SharedIff(a, b);
  }
}
