/** Job names derived from query text: whitespace is normalised away before hashing. */
module JobNames {
  import opened AsciiText
  import opened Results
  import Fnv

  /** The characters `split_whitespace` splits at: those with the Unicode property White_Space. */
  predicate IsSpace(c: char) {
    || '\t' <= c <= '\r' || c == ' ' || c == '\U{85}' || c == '\U{A0}' || c == '\U{1680}'
    || '\U{2000}' <= c <= '\U{200A}' || c == '\U{2028}' || c == '\U{2029}' || c == '\U{202F}'
    || c == '\U{205F}' || c == '\U{3000}'
  }

  predicate IsWord(w: string) {
    w != "" && forall i :: 0 <= i < |w| ==> !IsSpace(w[i])
  }

  predicate AllWords(words: seq<string>) {
    forall w <- words :: IsWord(w)
  }

  /** How far the word at the front goes. */
  function WordEnd(s: string): (n: nat)
    ensures n <= |s| && (forall i :: 0 <= i < n ==> !IsSpace(s[i])) && (n < |s| ==> IsSpace(s[n]))
  {
    if s == "" || IsSpace(s[0]) then 0 else 1 + WordEnd(s[1..])
  }

  function Words(s: string): (words: seq<string>)
    ensures AllWords(words)
  {
    if s == "" then []
    else if IsSpace(s[0]) then Words(s[1..])
    else [s[..WordEnd(s)]] + Words(s[WordEnd(s)..])
  }

  function Normalize(s: string): string {
    Join(Words(s), " ")
  }

  lemma {:induction false} WordEndIs(w: string, rest: string)
    requires (forall i :: 0 <= i < |w| ==> !IsSpace(w[i])) && (rest != "" ==> IsSpace(rest[0]))
    ensures WordEnd(w + rest) == |w|
  {
    if w == "" {
      assert w + rest == rest;
    } else {
      assert (w + rest)[1..] == w[1..] + rest;
      WordEndIs(w[1..], rest);
    }
  }

  lemma WordsOfOne(w: string, rest: string)
    requires IsWord(w) && (rest != "" ==> IsSpace(rest[0]))
    ensures Words(w + rest) == [w] + Words(rest)
  {
    WordEndIs(w, rest);
    var s := w + rest;
    assert s[0] == w[0] && s[..|w|] == w && s[|w|..] == rest;
  }

  /** Joined words split into the same words again. */
  lemma {:induction false} WordsOfJoin(words: seq<string>)
    requires AllWords(words)
    ensures Words(Join(words, " ")) == words
    decreases |words|
  {
    if |words| == 1 {
      WordsOfOne(words[0], "");
      assert words[0] + "" == words[0];
    } else if words != [] {
      var rest := " " + Join(words[1..], " ");
      WordsOfOne(words[0], rest);
      assert words[0] + " " + Join(words[1..], " ") == words[0] + rest;
      assert rest[1..] == Join(words[1..], " ");
      WordsOfJoin(words[1..]);
    }
  }

  /** Two texts are normalised alike exactly when they are made of the same words; and normalising
      again changes nothing. */
  lemma NormalizeIff(s: string, t: string)
    ensures Normalize(s) == Normalize(t) <==> Words(s) == Words(t)
    ensures Normalize(Normalize(s)) == Normalize(s)
  {
    WordsOfJoin(Words(s));
    WordsOfJoin(Words(t));
  }

  /** `utf8` encodes text. */
  function JobName(utf8: string -> seq<Byte>, sql: string): string {
    "query-" + Hex(Fnv.Fnv1a(utf8(Normalize(sql))), 16)[..12]
  }

  /** The same words name the same job; and two queries share a job exactly when the upper 48 bits of
      their hashes agree. */
  lemma SameJobIff(utf8: string -> seq<Byte>, s: string, t: string)
    ensures Words(s) == Words(t) ==> JobName(utf8, s) == JobName(utf8, t)
    ensures JobName(utf8, s) == JobName(utf8, t) <==>
      Fnv.Fnv1a(utf8(Normalize(s))) / 65536 == Fnv.Fnv1a(utf8(Normalize(t))) / 65536
  {
    var h, g := Fnv.Fnv1a(utf8(Normalize(s))), Fnv.Fnv1a(utf8(Normalize(t)));
    HexPrefix(h);
    HexPrefix(g);
    var a, b := Hex(h, 16)[..12], Hex(g, 16)[..12];
    assert ("query-" + a)[6..] == a && ("query-" + b)[6..] == b;
    Power16Of16();
    assert Power16(16) == 65536 * Power16(12) by { assert Power16(16) == 16 * 16 * 16 * 16 * Power16(12); }
    if a == b { HexInjective(h / 65536, g / 65536, 12); }
  }

  lemma HexPrefix(h: nat)
    ensures Hex(h, 16)[..12] == Hex(h / 65536, 12)
  {
    var h1 := h / 16;
    var h2 := h1 / 16;
    var h3 := h2 / 16;
    assert Hex(h, 16)[..15] == Hex(h1, 15);
    assert Hex(h1, 15)[..14] == Hex(h2, 14);
    assert Hex(h2, 14)[..13] == Hex(h3, 13);
    assert Hex(h3, 13)[..12] == Hex(h3 / 16, 12);
    assert h3 / 16 == h / 65536;
  }
}
