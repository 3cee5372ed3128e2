/** `Base64Encoding` of common/stringutils.cpp: the alphabet and the padding of section 4 of RFC 4648.

    Octets and sextets are integers; a shift to the right is a division and a mask is a remainder.
  */
module Base64 {

  import opened Common

  type Octet = x: int | 0 <= x < 256
  type Sextet = x: int | 0 <= x < 64

  const ENCODING_TABLE := From('A', 26) + From('a', 26) + From('0', 10) + "+/"
  const MOD_TABLE := [0, 2, 1]
  const PAD := '='

  // ---------------------------------------------------------------------------
  // The alphabet.

  /** `n` characters from `first` on. */
  function From(first: char, n: nat): string
    requires first as int + n <= 128
  {
    seq(n, i requires 0 <= i < n => first + i as char)
  }

  function CharOf(v: Sextet): char {
    if v < 26 then 'A' + v as char
    else if v < 52 then 'a' + (v - 26) as char
    else if v < 62 then '0' + (v - 52) as char
    else if v == 62 then '+' else '/'
  }

  /** What the decoding table holds for a character: its place in the alphabet, 0 if it has none. */
  function ValueOf(c: char): Sextet {
    if 'A' <= c <= 'Z' then (c - 'A') as int
    else if 'a' <= c <= 'z' then 26 + (c - 'a') as int
    else if '0' <= c <= '9' then 52 + (c - '0') as int
    else if c == '+' then 62
    else if c == '/' then 63 else 0
  }

  predicate InAlphabet(c: char) {
    'A' <= c <= 'Z' || 'a' <= c <= 'z' || '0' <= c <= '9' || c == '+' || c == '/'
  }

  lemma TableIsAlphabet()
    ensures |ENCODING_TABLE| == 64
    ensures forall i :: 0 <= i < 64 ==> ENCODING_TABLE[i] == CharOf(i)
  {
  }

  // ---------------------------------------------------------------------------
  // One group: the 24 bits of three octets are four sextets.

  function First(a: Octet): Sextet { a / 4 }
  function Second(a: Octet, b: Octet): Sextet { a % 4 * 16 + b / 16 }
  function Third(b: Octet, c: Octet): Sextet { b % 16 * 4 + c / 64 }
  function Fourth(c: Octet): Sextet { c % 64 }

  function High(w: Sextet, x: Sextet): Octet { w * 4 + x / 16 }
  function Middle(x: Sextet, y: Sextet): Octet { x % 16 * 16 + y / 4 }
  function Low(y: Sextet, z: Sextet): Octet { y % 4 * 64 + z }

  lemma OctetsBack(a: Octet, b: Octet, c: Octet)
    ensures High(First(a), Second(a, b)) == a
    ensures Middle(Second(a, b), Third(b, c)) == b
    ensures Low(Third(b, c), Fourth(c)) == c
  {
  }

  lemma SextetsBack(w: Sextet, x: Sextet, y: Sextet, z: Sextet)
    ensures First(High(w, x)) == w
    ensures Second(High(w, x), Middle(x, y)) == x
    ensures Third(Middle(x, y), Low(y, z)) == y
    ensures Fourth(Low(y, z)) == z
  {
  }

  lemma CutOff(a: Octet, b: Octet, x: Sextet, y: Sextet)
    ensures Second(a, 0) % 16 == 0 && Third(b, 0) % 4 == 0
    ensures x % 16 == 0 ==> Middle(x, 0) == 0
    ensures y % 4 == 0 ==> Low(y, 0) == 0
  {
  }

  function Quad(a: Octet, b: Octet, c: Octet): (q: string)
    ensures |q| == 4
  {
    [CharOf(First(a)), CharOf(Second(a, b)), CharOf(Third(b, c)), CharOf(Fourth(c))]
  }

  function SextetOf(c: char): Sextet { if c == PAD then 0 else ValueOf(c) }

  /** The octets of four characters; padding counts as zero bits. */
  function Triple(q: string): (t: seq<Octet>)
    requires |q| == 4
    ensures |t| == 3
  {
    var y, z := SextetOf(q[2]), SextetOf(q[3]);
    [High(SextetOf(q[0]), SextetOf(q[1])), Middle(SextetOf(q[1]), y), Low(y, z)]
  }

  lemma SextetOfChar(v: Sextet)
    ensures InAlphabet(CharOf(v)) && SextetOf(CharOf(v)) == ValueOf(CharOf(v)) == v
  {
  }

  lemma TripleOfQuad(a: Octet, b: Octet, c: Octet)
    ensures Triple(Quad(a, b, c)) == [a, b, c]
  {
    hide First, Second, Third, Fourth, High, Middle, Low, SextetOf, CharOf, ValueOf, InAlphabet;
    OctetsBack(a, b, c);
    SextetOfChar(First(a));
    SextetOfChar(Second(a, b));
    SextetOfChar(Third(b, c));
    SextetOfChar(Fourth(c));
  }

  // ---------------------------------------------------------------------------
  // Whole texts.

  /** A text made of groups of four characters. */
  predicate Whole(s: string) { s != "" && |s| % 4 == 0 }

  /** How many groups `n` octets make. */
  function Groups(n: nat): (g: nat)
    ensures n > 0 ==> g > 0
  {
    if n == 0 then 0 else if n <= 3 then 1 else 1 + Groups(n - 3)
  }

  /** Section 4 of RFC 4648: groups of three, the last one filled up with zero bits and padding. */
  function Encode(s: seq<Octet>): (e: string)
    ensures |e| == 4 * Groups(|s|) && (s != [] ==> Whole(e))
  {
    if s == [] then ""
    else if |s| == 1 then Quad(s[0], 0, 0)[..2] + [PAD, PAD]
    else if |s| == 2 then Quad(s[0], s[1], 0)[..3] + [PAD]
    else Quad(s[0], s[1], s[2]) + Encode(s[3..])
  }

  function Triples(s: string): (t: seq<Octet>)
    requires |s| % 4 == 0
    ensures |t| == |s| / 4 * 3
  {
    if s == "" then [] else Triple(s[..4]) + Triples(s[4..])
  }

  /** How many octets of the last group padding takes away. */
  function Padding(s: string): nat
    requires |s| >= 4
  {
    (if s[|s| - 1] == PAD then 1 else 0) + if s[|s| - 2] == PAD then 1 else 0
  }

  function Decode(s: string): (r: seq<Octet>)
    requires Whole(s)
    ensures |r| == |s| / 4 * 3 - Padding(s)
  {
    Triples(s)[..|s| / 4 * 3 - Padding(s)]
  }

  predicate AllInAlphabet(s: string) { forall i :: 0 <= i < |s| ==> InAlphabet(s[i]) }

  /** A last group: full, or padded with the bits that padding cuts off all zero. */
  predicate LastGroup(q: string)
    requires |q| == 4
  {
    || AllInAlphabet(q)
    || (AllInAlphabet(q[..3]) && q[3] == PAD && ValueOf(q[2]) % 4 == 0)
    || (AllInAlphabet(q[..2]) && q[2..] == [PAD, PAD] && ValueOf(q[1]) % 16 == 0)
  }

  predicate Canonical(s: string) {
    |s| >= 4 && |s| % 4 == 0 && AllInAlphabet(s[..|s| - 4]) && LastGroup(s[|s| - 4..])
  }

  // ---------------------------------------------------------------------------
  // Shape of the encoding.

  /** How many characters of padding `n` octets need. */
  function PaddingFor(n: nat): (p: nat)
    ensures p <= 2
  {
    if n % 3 == 1 then 2 else if n % 3 == 2 then 1 else 0
  }

  lemma QuadShape(a: Octet, b: Octet, c: Octet)
    ensures AllInAlphabet(Quad(a, b, c))
    ensures b == 0 ==> ValueOf(Quad(a, b, c)[1]) % 16 == 0
    ensures c == 0 ==> ValueOf(Quad(a, b, c)[2]) % 4 == 0
  {
    hide First, Second, Third, Fourth, High, Middle, Low, CharOf, ValueOf, InAlphabet, SextetOf;
    CutOff(a, b, 0, 0);
    SextetOfChar(First(a));
    SextetOfChar(Second(a, b));
    SextetOfChar(Third(b, c));
    SextetOfChar(Fourth(c));
  }

  lemma {:induction false} GroupsExact(n: nat)
    ensures Groups(n) == (n + 2) / 3
  {
    if n > 3 { GroupsExact(n - 3); }
  }

  lemma PadOutside()
    ensures !InAlphabet(PAD) && SextetOf(PAD) == 0
  {
  }

  lemma LastQuad(s: seq<Octet>)
    requires 1 <= |s| <= 3
    ensures |Encode(s)| == 4 && LastGroup(Encode(s)) && Padding(Encode(s)) == PaddingFor(|s|)
  {
    hide Quad, InAlphabet, ValueOf;
    PadOutside();
    var b, c := if |s| >= 2 then s[1] else 0, if |s| == 3 then s[2] else 0;
    var q := Quad(s[0], b, c);
    QuadShape(s[0], b, c);
    if |s| == 1 {
      assert Encode(s)[..2] == q[..2];
    } else if |s| == 2 {
      assert Encode(s)[..3] == q[..3];
    } else {
      assert Encode(s) == q;
    }
  }

  lemma CanonicalAfter(q: string, rest: string)
    requires |q| == 4 && AllInAlphabet(q) && Canonical(rest)
    ensures Canonical(q + rest) && Padding(q + rest) == Padding(rest)
  {
    hide LastGroup, InAlphabet;
    var e := q + rest;
    assert e[..|e| - 4] == q + rest[..|rest| - 4];
    assert e[|e| - 4..] == rest[|rest| - 4..];
  }

  lemma CanonicalOne(q: string)
    requires |q| == 4 && LastGroup(q)
    ensures Canonical(q)
  {
    hide LastGroup;
    assert q[|q| - 4..] == q;
  }

  /** What is encoded is canonical, with just the padding its length calls for. */
  lemma {:induction false} EncodeCanonical(s: seq<Octet>)
    requires s != []
    ensures Canonical(Encode(s)) && Padding(Encode(s)) == PaddingFor(|s|)
    decreases |s|
  {
    hide Quad, AllInAlphabet, LastGroup, Padding, Canonical;
    if |s| <= 3 {
      LastQuad(s);
      CanonicalOne(Encode(s));
    } else {
      EncodeCanonical(s[3..]);
      QuadShape(s[0], s[1], s[2]);
      CanonicalAfter(Quad(s[0], s[1], s[2]), Encode(s[3..]));
    }
  }

  // ---------------------------------------------------------------------------
  // Round trips.

  lemma TriplesAfter(q: string, rest: string)
    requires |q| == 4 && |rest| % 4 == 0
    ensures Triples(q + rest) == Triple(q) + Triples(rest)
  {
    hide Triple;
    assert (q + rest)[..4] == q && (q + rest)[4..] == rest;
  }

  lemma DecodeAfter(q: string, rest: string)
    requires |q| == 4 && Whole(rest)
    ensures Whole(q + rest) && Decode(q + rest) == Triple(q) + Decode(rest)
  {
    hide Triple, Triples;
    TriplesAfter(q, rest);
    assert Padding(q + rest) == Padding(rest);
  }

  lemma DecodeOne(q: string)
    requires |q| == 4
    ensures Whole(q) && Decode(q) == Triple(q)[..3 - Padding(q)]
  {
    hide Triple;
    assert q[..4] == q && Triples("") == [];
    assert Triples(q) == Triple(q);
  }

  lemma RoundTripOne(s: seq<Octet>)
    requires 1 <= |s| <= 3
    ensures Decode(Encode(s)) == s
  {
    hide Quad, Triple, Triples, Encode, Decode, Padding, LastGroup, Groups;
    var b, c := if |s| >= 2 then s[1] else 0, if |s| == 3 then s[2] else 0;
    var q, e, pad := Quad(s[0], b, c), Encode(s), PaddingFor(|s|);
    LastQuad(s);
    DecodeOne(e);
    TripleOfQuad(s[0], b, c);
    EncodeShape(s, q);
    TripleOfPadded(q, e, pad);
    assert s == [s[0], b, c][..3 - pad];
  }

  lemma EncodeShape(s: seq<Octet>, q: string)
    requires 1 <= |s| <= 3 && q == Quad(s[0], if |s| >= 2 then s[1] else 0, if |s| == 3 then s[2] else 0)
    ensures |Encode(s)| == 4
    ensures Encode(s)[..4 - PaddingFor(|s|)] == q[..4 - PaddingFor(|s|)]
    ensures forall i :: 4 - PaddingFor(|s|) <= i < 4 ==> Encode(s)[i] == PAD
  {
    hide Quad;
  }

  /** Padding put over the characters that encode nothing but zero bits changes no octet that is kept. */
  lemma TripleOfPadded(q: string, e: string, pad: nat)
    requires |q| == |e| == 4 && pad <= 2 && q[..4 - pad] == e[..4 - pad]
    requires forall i :: 4 - pad <= i < 4 ==> e[i] == PAD
    ensures Triple(q)[..3 - pad] == Triple(e)[..3 - pad]
  {
    hide SextetOf, High, Middle;
    forall i | 0 <= i < 4 - pad ensures q[i] == e[i] { assert q[i] == q[..4 - pad][i] == e[..4 - pad][i]; }
    assert pad == 2 ==> Middle(SextetOf(q[1]), SextetOf(q[2])) == Triple(q)[1];
  }

  lemma DecodeEncodeAfter(t: seq<Octet>, rest: seq<Octet>)
    requires |t| == 3 && rest != []
    requires Decode(Encode(rest)) == rest
    ensures Decode(Encode(t + rest)) == t + rest
  {
    hide *;
    var q := Quad(t[0], t[1], t[2]);
    EncodeAfter(t, rest);
    DecodeAfter(q, Encode(rest));
    TripleOfQuad(t[0], t[1], t[2]);
    assert t == [t[0], t[1], t[2]];
  }

  /** Whatever is encoded is decoded again. */
  lemma {:induction false} DecodeEncode(s: seq<Octet>)
    requires s != []
    ensures Decode(Encode(s)) == s
    decreases |s|
  {
    hide *;
    if |s| <= 3 {
      RoundTripOne(s);
    } else {
      assert s == s[..3] + s[3..];
      DecodeEncode(s[3..]);
      DecodeEncodeAfter(s[..3], s[3..]);
    }
  }

  lemma InAlphabetBack(c: char)
    requires InAlphabet(c)
    ensures c != PAD && SextetOf(c) == ValueOf(c) && CharOf(SextetOf(c)) == c
  {
  }

  lemma EncodeShort(s: seq<Octet>)
    ensures s == [] ==> Encode(s) == ""
    ensures |s| == 1 ==> Encode(s) == Quad(s[0], 0, 0)[..2] + [PAD, PAD]
    ensures |s| == 2 ==> Encode(s) == Quad(s[0], s[1], 0)[..3] + [PAD]
  {
  }

  lemma OnePadBack(q: string)
    requires |q| == 4 && AllInAlphabet(q[..3]) && q[3] == PAD && ValueOf(q[2]) % 4 == 0
    ensures Encode(Decode(q)) == q
  {
    hide First, Second, Third, Fourth, High, Middle, Low, SextetOf, CharOf, ValueOf, InAlphabet,
         Encode, Decode, Triples, Groups;
    assert q[..3][0] == q[0] && q[..3][1] == q[1] && q[..3][2] == q[2];
    InAlphabetBack(q[0]);
    InAlphabetBack(q[1]);
    InAlphabetBack(q[2]);
    PadOutside();
    CutOff(0, 0, 0, SextetOf(q[2]));
    SextetsBack(SextetOf(q[0]), SextetOf(q[1]), SextetOf(q[2]), 0);
    DecodeOne(q);
    var t := Triple(q);
    assert Quad(t[0], t[1], 0)[..3] == q[..3];
    assert q == q[..3] + [PAD];
    EncodeShort(t[..2]);
  }

  lemma TwoPadsBack(q: string)
    requires |q| == 4 && AllInAlphabet(q[..2]) && q[2..] == [PAD, PAD] && ValueOf(q[1]) % 16 == 0
    ensures Encode(Decode(q)) == q
  {
    hide First, Second, Third, Fourth, High, Middle, Low, SextetOf, CharOf, ValueOf, InAlphabet,
         Encode, Decode, Triples, Groups;
    assert q[..2][0] == q[0] && q[..2][1] == q[1] && q[2] == q[2..][0] && q[3] == q[2..][1];
    InAlphabetBack(q[0]);
    InAlphabetBack(q[1]);
    PadOutside();
    CutOff(0, 0, SextetOf(q[1]), 0);
    SextetsBack(SextetOf(q[0]), SextetOf(q[1]), 0, 0);
    DecodeOne(q);
    var t := Triple(q);
    assert Quad(t[0], 0, 0)[..2] == q[..2];
    assert q == q[..2] + [PAD, PAD];
    EncodeShort(t[..1]);
  }

  lemma QuadOfTriple(q: string)
    requires |q| == 4 && AllInAlphabet(q)
    ensures Quad(Triple(q)[0], Triple(q)[1], Triple(q)[2]) == q
  {
    hide First, Second, Third, Fourth, High, Middle, Low, SextetOf, CharOf, ValueOf, InAlphabet;
    InAlphabetBack(q[0]);
    InAlphabetBack(q[1]);
    InAlphabetBack(q[2]);
    InAlphabetBack(q[3]);
    SextetsBack(SextetOf(q[0]), SextetOf(q[1]), SextetOf(q[2]), SextetOf(q[3]));
  }

  lemma FullGroupBack(q: string)
    requires |q| == 4 && AllInAlphabet(q)
    ensures Encode(Decode(q)) == q
  {
    hide Quad, Triple, Triples, Encode, Decode, SextetOf, CharOf, ValueOf, InAlphabet, Groups;
    InAlphabetBack(q[2]);
    InAlphabetBack(q[3]);
    DecodeOne(q);
    QuadOfTriple(q);
    EncodeAfter(Triple(q), []);
    assert Triple(q) + [] == Decode(q);
    EncodeShort([]);
  }

  lemma EncodeAfter(t: seq<Octet>, rest: seq<Octet>)
    requires |t| == 3
    ensures Encode(t + rest) == Quad(t[0], t[1], t[2]) + Encode(rest)
  {
    hide Quad;
    assert (t + rest)[3..] == rest;
  }

  lemma CanonicalRest(q: string, rest: string)
    requires |q| == 4 && |rest| >= 4 && Canonical(q + rest)
    ensures AllInAlphabet(q) && Canonical(rest)
  {
    hide LastGroup, InAlphabet;
    var e := q + rest;
    assert forall i :: 0 <= i < 4 ==> e[..|e| - 4][i] == q[i];
    assert e[..|e| - 4] == q + rest[..|rest| - 4];
    var body := rest[..|rest| - 4];
    forall i | 0 <= i < |body| ensures InAlphabet(body[i]) { assert body[i] == e[..|e| - 4][i + 4]; }
    assert e[|e| - 4..] == rest[|rest| - 4..];
  }

  /** A canonical text is the encoding of what it decodes to. */
  lemma {:induction false} CanonicalBack(s: string)
    requires Canonical(s)
    ensures Encode(Decode(s)) == s
    decreases |s|
  {
    hide AllInAlphabet, Quad, Triple, Decode, ValueOf, Encode, Padding;
    if |s| == 4 {
      assert s[|s| - 4..] == s;
      if AllInAlphabet(s) {
        FullGroupBack(s);
      } else if AllInAlphabet(s[..3]) && s[3] == PAD && ValueOf(s[2]) % 4 == 0 {
        OnePadBack(s);
      } else {
        TwoPadsBack(s);
      }
    } else {
      var q, rest := s[..4], s[4..];
      assert s == q + rest;
      CanonicalRest(q, rest);
      CanonicalBack(rest);
      DecodeAfter(q, rest);
      QuadOfTriple(q);
      EncodeAfter(Triple(q), Decode(rest));
    }
  }

  /** Of the texts that decode at all, exactly the canonical ones come back when encoded again. */
  lemma CanonicalIffBack(s: string)
    requires Whole(s)
    ensures Canonical(s) <==> Encode(Decode(s)) == s
  {
    hide Canonical, Encode, Decode;
    assert |Decode(s)| > 0;
    if Canonical(s) { CanonicalBack(s); }
    if Encode(Decode(s)) == s { EncodeCanonical(Decode(s)); }
  }

  // ---------------------------------------------------------------------------
  // The loops of the program.

  lemma Split(t: nat, p: Sextet, q: Sextet, r: Sextet, s: Sextet)
    requires t == p * 0x40000 + q * 0x1000 + r * 0x40 + s
    ensures t / 0x40000 % 64 == p && t / 0x1000 % 64 == q && t / 0x40 % 64 == r && t % 64 == s
  {
    assert t / 0x40000 == p;
    assert t / 0x1000 == p * 64 + q;
    assert t / 0x40 == p * 0x1000 + q * 0x40 + r;
  }

  lemma SplitOctets(t: nat, p: Octet, q: Octet, r: Octet)
    requires t == p * 0x10000 + q * 0x100 + r
    ensures t / 0x10000 % 256 == p && t / 0x100 % 256 == q && t % 256 == r
  {
  }

  /** The 24 bits as one number, from either side. */
  lemma SameBits(a: Octet, b: Octet, c: Octet)
    ensures a * 0x10000 + b * 0x100 + c
         == First(a) * 0x40000 + Second(a, b) * 0x1000 + Third(b, c) * 0x40 + Fourth(c)
  {
  }

  lemma SameBitsBack(w: Sextet, x: Sextet, y: Sextet, z: Sextet)
    ensures w * 0x40000 + x * 0x1000 + y * 0x40 + z == High(w, x) * 0x10000 + Middle(x, y) * 0x100 + Low(y, z)
  {
    SextetsBack(w, x, y, z);
    SameBits(High(w, x), Middle(x, y), Low(y, z));
  }

  function At(s: seq<Octet>, i: nat): Octet { if i < |s| then s[i] else 0 }

  /** All groups, before padding is put over the last one. */
  function Quads(s: seq<Octet>): (r: string)
    ensures |r| == 4 * Groups(|s|)
  {
    if s == [] then "" else Quad(At(s, 0), At(s, 1), At(s, 2)) + if |s| > 3 then Quads(s[3..]) else ""
  }

  /** What the loop of `encode` takes off the front in one turn. */
  lemma QuadsStep(s: seq<Octet>)
    requires s != []
    ensures Quads(s) == Quad(At(s, 0), At(s, 1), At(s, 2)) + Quads(if |s| > 3 then s[3..] else [])
  {
  }

  lemma Emitted(a: Octet, b: Octet, c: Octet, triple: nat)
    requires triple == a * 0x10000 + b * 0x100 + c
    ensures |ENCODING_TABLE| == 64
    ensures Quad(a, b, c) == [ENCODING_TABLE[triple / 0x40000 % 64], ENCODING_TABLE[triple / 0x1000 % 64],
                              ENCODING_TABLE[triple / 0x40 % 64], ENCODING_TABLE[triple % 64]]
  {
    hide First, Second, Third, Fourth, CharOf, From;
    TableIsAlphabet();
    SameBits(a, b, c);
    Split(triple, First(a), Second(a, b), Third(b, c), Fourth(c));
  }

  function Pads(n: nat): (r: string)
    ensures |r| == n
  {
    seq(n, i => PAD)
  }

  /** One turn of the padding loop. */
  lemma PadsMore(quads: string, i: nat)
    requires i < |quads|
    ensures var last := |quads| - 1 - i;
            (quads[..last + 1] + Pads(i))[last := PAD] == quads[..last] + Pads(i + 1)
  {
    assert Pads(i + 1) == [PAD] + Pads(i);
  }

  lemma QuadsPaddedOne(s: seq<Octet>)
    requires 1 <= |s| <= 3
    ensures Encode(s) == Quads(s)[..4 - PaddingFor(|s|)] + Pads(PaddingFor(|s|))
  {
    hide Quad;
    var q := Quad(At(s, 0), At(s, 1), At(s, 2));
    assert Quads(s) == q;
    if |s| == 1 {
      assert Pads(2) == [PAD, PAD];
    } else if |s| == 2 {
      assert Pads(1) == [PAD];
    } else {
      assert Encode(s[3..]) == "" && Pads(0) == "";
      assert q[..4] == q;
    }
  }

  lemma PaddingForRest(n: nat)
    requires n >= 3
    ensures PaddingFor(n) == PaddingFor(n - 3)
  {
  }

  lemma GroupOfOne(s: seq<Octet>)
    requires 1 <= |s| <= 3
    ensures |Quads(s)| == 4
  {
    hide Quad;
  }

  lemma QuadsAndEncode(s: seq<Octet>)
    requires |s| > 3
    ensures Quads(s) == Quad(s[0], s[1], s[2]) + Quads(s[3..]) && Encode(s) == Quad(s[0], s[1], s[2]) + Encode(s[3..])
  {
    hide Quad;
  }

  lemma {:induction false} QuadsPadded(s: seq<Octet>)
    requires s != []
    ensures PaddingFor(|s|) <= |Quads(s)|
    ensures Encode(s) == Quads(s)[..|Quads(s)| - PaddingFor(|s|)] + Pads(PaddingFor(|s|))
    decreases |s|
  {
    hide *;
    if |s| <= 3 {
      GroupOfOne(s);
      QuadsPaddedOne(s);
    } else {
      QuadsPadded(s[3..]);
      PaddingForRest(|s|);
      QuadsAndEncode(s);
      var pad := PaddingFor(|s|);
      var q, rest := Quad(s[0], s[1], s[2]), Quads(s[3..]);
      assert (q + rest)[..|q + rest| - pad] == q + rest[..|rest| - pad];
    }
  }

  lemma NoGroups()
    ensures Quads([]) == "" && Pads(0) == ""
  {
  }

  lemma PaddedIsEncoded(s: seq<Octet>)
    ensures var n := |Quads(s)|;
            && n == 4 * ((|s| + 2) / 3) && PaddingFor(|s|) <= n && (s != [] ==> n >= 4)
            && Encode(s) == Quads(s)[..n - PaddingFor(|s|)] + Pads(PaddingFor(|s|))
  {
    hide Quads, Encode, Pads, Groups;
    GroupsExact(|s|);
    if s != [] {
      QuadsPadded(s);
    } else {
      EncodeShort([]);
      NoGroups();
    }
  }

  lemma Joined(a: string, b: string, c: string)
    ensures a + b + c == a + (b + c)
  {
  }

  lemma PrefixGrows(s: seq<Octet>, from: nat, to: nat)
    requires from <= to <= from + 3 <= |s|
    ensures s[..to] == s[..from] + s[from..from + 3][..to - from]
  {
  }

  lemma GroupTriple(q: string, triple: nat)
    requires |q| == 4
    requires triple == SextetOf(q[0]) * 0x40000 + SextetOf(q[1]) * 0x1000 + SextetOf(q[2]) * 0x40 + SextetOf(q[3])
    ensures Triple(q) == [triple / 0x10000 % 256, triple / 0x100 % 256, triple % 256]
  {
    hide SextetOf, High, Middle, Low;
    SameBitsBack(SextetOf(q[0]), SextetOf(q[1]), SextetOf(q[2]), SextetOf(q[3]));
    var t := Triple(q);
    SplitOctets(triple, t[0], t[1], t[2]);
  }

  lemma {:induction false} TriplesAt(s: string, k: nat)
    requires |s| % 4 == 0 && 4 * k + 4 <= |s|
    ensures Triples(s)[3 * k..3 * k + 3] == Triple(s[4 * k..4 * k + 4])
  {
    hide Triple;
    if k == 0 {
      assert Triples(s)[0..3] == Triple(s[..4]);
    } else {
      TriplesAt(s[4..], k - 1);
      assert s[4..][4 * k - 4..4 * k] == s[4 * k..4 * k + 4];
      assert Triples(s)[3 * k..3 * k + 3] == Triples(s[4..])[3 * k - 3..3 * k];
    }
  }

  lemma DecodedLength(src: string, n: nat)
    requires n > 0 && |src| == 4 * n
    ensures Padding(src) <= 2 && |Triples(src)| == 3 * n && Decode(src) == Triples(src)[..3 * n - Padding(src)]
    ensures Padding(src) == (if src[4 * n - 1] == PAD then 1 else 0) + if src[4 * n - 2] == PAD then 1 else 0
  {
    hide Triples;
  }

  ghost predicate IsDecodingTable(table: seq<Sextet>) {
    |table| == 256 && forall k :: 0 <= k < 256 ==> table[k] == ValueOf(k as char)
  }

  /** Entry `k` of the table once the first `n` characters have been entered. */
  function Entry(k: nat, n: nat): Sextet
    requires k < 256
  {
    if InAlphabet(k as char) && ValueOf(k as char) < n then ValueOf(k as char) else 0
  }

  lemma Entered(v: Sextet)
    ensures CharOf(v) as int < 256
    ensures forall k :: 0 <= k < 256 ==> Entry(k, v + 1) == if k == CharOf(v) as int then v else Entry(k, v)
  {
    hide CharOf, ValueOf, InAlphabet;
    forall k | 0 <= k < 256
      ensures CharOf(v) as int < 256
      ensures Entry(k, v + 1) == if k == CharOf(v) as int then v else Entry(k, v)
    {
      EnteredOne(v, k);
    }
    EnteredOne(v, 0);
  }

  lemma EnteredOne(v: Sextet, k: nat)
    requires k < 256
    ensures CharOf(v) as int < 256
    ensures Entry(k, v + 1) == if k == CharOf(v) as int then v else Entry(k, v)
  {
    if k == CharOf(v) as int { assert k as char == CharOf(v); }
  }

  lemma AllEntered(k: nat)
    requires k < 256
    ensures Entry(k, 64) == ValueOf(k as char) && Entry(k, 0) == 0
  {
  }

  class Base64Encoding {
    var decodingTable: seq<Sextet>

    constructor ()
      ensures IsDecodingTable(decodingTable)
    {
      var table := CreateDecodingTable();
      decodingTable := table;
    }

    static method CreateDecodingTable() returns (table: seq<Sextet>)
      ensures IsDecodingTable(table)
    {
      hide Entry, CharOf, ValueOf, From;
      TableIsAlphabet();
      forall k | 0 <= k < 256 ensures Entry(k, 64) == ValueOf(k as char) && Entry(k, 0) == 0 { AllEntered(k); }
      table := seq(256, i => 0);
      for i := 0 to 64
        invariant |table| == 256
        invariant forall k :: 0 <= k < 256 ==> table[k] == Entry(k, i)
      {
        Entered(i);
        ghost var before := table;
        table := table[ENCODING_TABLE[i] as int := i];
        forall k | 0 <= k < 256 ensures table[k] == Entry(k, i + 1) { assert before[k] == Entry(k, i); }
      }
    }

    /** The next three octets, zero where the input is at an end. */
    method NextOctets(src: seq<Octet>, from: nat) returns (a: Octet, b: Octet, c: Octet, i: nat)
      requires from < |src|
      ensures a == At(src[from..], 0) && b == At(src[from..], 1) && c == At(src[from..], 2)
      ensures i == if from + 3 < |src| then from + 3 else |src|
    {
      a, b, c, i := 0, 0, 0, from;
      if i < |src| { a := src[i]; i := i + 1; }
      if i < |src| { b := src[i]; i := i + 1; }
      if i < |src| { c := src[i]; i := i + 1; }
    }

    method PushSextets(dst: string, triple: nat) returns (r: string)
      requires |ENCODING_TABLE| == 64
      ensures r == dst + [ENCODING_TABLE[triple / 0x40000 % 64], ENCODING_TABLE[triple / 0x1000 % 64],
                          ENCODING_TABLE[triple / 0x40 % 64], ENCODING_TABLE[triple % 64]]
    {
      hide From;
      r := dst + [ENCODING_TABLE[triple / 0x40000 % 64]];
      r := r + [ENCODING_TABLE[triple / 0x1000 % 64]];
      r := r + [ENCODING_TABLE[triple / 0x40 % 64]];
      r := r + [ENCODING_TABLE[triple % 64]];
    }

    method EncodeOctets(src: seq<Octet>) returns (dst: string)
      ensures dst == Encode(src)
    {
      hide *;
      TableIsAlphabet();
      dst := "";
      var outputLength := 4 * ((|src| + 2) / 3);
      var i := 0;
      assert src[0..] == src;
      while i < |src|
        invariant i <= |src|
        invariant dst + Quads(src[i..]) == Quads(src)
      {
        ghost var rest, before := src[i..], dst;
        var octetA: int, octetB: int, octetC: int;
        octetA, octetB, octetC, i := NextOctets(src, i);
        var triple: nat := octetA * 0x10000 + octetB * 0x100 + octetC;
        Emitted(octetA, octetB, octetC, triple);
        dst := PushSextets(dst, triple);
        QuadsStep(rest);
        assert src[i..] == if |rest| > 3 then rest[3..] else [];
        Joined(before, Quad(octetA, octetB, octetC), Quads(src[i..]));
      }
      assert src[i..] == [];
      NoGroups();
      PaddedIsEncoded(src);
      dst := PadOut(dst, |src|, outputLength);
    }

    method PadOut(quads: string, inputLength: nat, outputLength: nat) returns (dst: string)
      requires |quads| == outputLength && (inputLength > 0 ==> outputLength >= 4)
      ensures |dst| == outputLength >= PaddingFor(inputLength)
      ensures dst == quads[..outputLength - PaddingFor(inputLength)] + Pads(PaddingFor(inputLength))
    {
      hide Pads;
      NoGroups();
      assert MOD_TABLE[inputLength % 3] == PaddingFor(inputLength);
      dst := quads;
      for i := 0 to MOD_TABLE[inputLength % 3]
        invariant i <= outputLength
        invariant dst == quads[..outputLength - i] + Pads(i)
      {
        PadsMore(quads, i);
        dst := dst[outputLength - 1 - i := PAD];
      }
    }

    function Lookup(c: char): (v: Sextet)
      requires IsDecodingTable(decodingTable) && c < 128 as char
      reads this
      ensures v == SextetOf(c)
    {
      if c == PAD then 0 else assert c as int as char == c; decodingTable[c as int]
    }

    /** Stores what there is still room for of the three octets of `triple`. */
    method StoreOctets(src: seq<Octet>, from: nat, triple: nat) returns (dst: seq<Octet>, j: nat)
      requires from <= |src|
      ensures |dst| == |src| && from <= j == if from + 3 <= |src| then from + 3 else |src|
      ensures dst[..j] == src[..from] + [triple / 0x10000 % 256, triple / 0x100 % 256, triple % 256][..j - from]
    {
      dst, j := src, from;
      if j < |dst| { dst := dst[j := triple / 0x10000 % 256]; j := j + 1; }
      if j < |dst| { dst := dst[j := triple / 0x100 % 256]; j := j + 1; }
      if j < |dst| { dst := dst[j := triple % 256]; j := j + 1; }
    }

    /** The group of four characters at `i`. */
    method DecodeGroup(src: string, i: nat, dst: seq<Octet>, from: nat) returns (r: seq<Octet>, j: nat)
      requires IsDecodingTable(decodingTable) && forall k :: 0 <= k < |src| ==> src[k] < 128 as char
      requires i + 4 <= |src| && from <= |dst|
      ensures |r| == |dst| && from <= j == if from + 3 <= |dst| then from + 3 else |dst|
      ensures r[..j] == dst[..from] + Triple(src[i..i + 4])[..j - from]
    {
      hide *;
      var sextetA: int, sextetB: int := Lookup(src[i]), Lookup(src[i + 1]);
      var sextetC: int, sextetD: int := Lookup(src[i + 2]), Lookup(src[i + 3]);
      var triple: nat := sextetA * 0x40000 + sextetB * 0x1000 + sextetC * 0x40 + sextetD;
      GroupTriple(src[i..i + 4], triple);
      r, j := StoreOctets(dst, from, triple);
    }

    /** The exception for a length that no encoding has is `None`. */
    method DecodeText(src: string) returns (r: Option<seq<Octet>>)
      requires IsDecodingTable(decodingTable)
      requires src != "" && forall i :: 0 <= i < |src| ==> src[i] < 128 as char
      ensures |src| % 4 != 0 ==> r == None
      ensures |src| % 4 == 0 ==> r == Some(Decode(src))
    {
      hide *;
      var inputLength := |src|;
      if inputLength % 4 != 0 { return None; }
      var outputLength := inputLength / 4 * 3;
      if src[inputLength - 1] == PAD { outputLength := outputLength - 1; }
      if src[inputLength - 2] == PAD { outputLength := outputLength - 1; }
      ghost var n := inputLength / 4;
      DecodedLength(src, n);
      var dst := DecodeGroups(src, n, outputLength);
      r := Some(dst);
    }

    /** The loop: all groups, as far as there is room for them. */
    method DecodeGroups(src: string, ghost n: nat, outputLength: nat) returns (dst: seq<Octet>)
      requires IsDecodingTable(decodingTable) && forall k :: 0 <= k < |src| ==> src[k] < 128 as char
      requires |src| == 4 * n && n > 0 && 3 * n - 2 <= outputLength <= 3 * n
      ensures |Triples(src)| == 3 * n && dst == Triples(src)[..outputLength]
    {
      hide *;
      dst := seq(outputLength, i => 0);
      var i, j := 0, 0;
      ghost var k := 0;
      ghost var all := Triples(src);
      while i < |src|
        invariant i == 4 * k && k <= n
        invariant |dst| == outputLength
        invariant j == if k < n then 3 * k else outputLength
        invariant dst[..j] == all[..j]
      {
        ghost var before := j;
        dst, j := DecodeGroup(src, i, dst, j);
        i := i + 4;
        TriplesAt(src, k);
        PrefixGrows(all, before, j);
        k := k + 1;
      }
      assert dst == dst[..j];
    }
  }
}
