/** Base 64 with the URL-safe alphabet, unpadded (section 5 of RFC 4648). */
module Base64Url {
  type Byte = x: int | 0 <= x < 256
  type Sextet = x: int | 0 <= x < 64

  function Letter(v: Sextet): char {
    if v < 26 then 'A' + v as char
    else if v < 52 then 'a' + (v - 26) as char
    else if v < 62 then '0' + (v - 52) as char
    else if v == 62 then '-' else '_'
  }

  predicate IsLetter(c: char) {
    'A' <= c <= 'Z' || 'a' <= c <= 'z' || '0' <= c <= '9' || c == '-' || c == '_' || c == '+' || c == '/'
  }

  /** The reader takes the standard alphabet's `+` and `/` as well. */
  function ValueOf(c: char): Sextet
    requires IsLetter(c)
  {
    if 'A' <= c <= 'Z' then (c - 'A') as int
    else if 'a' <= c <= 'z' then (c - 'a') as int + 26
    else if '0' <= c <= '9' then (c - '0') as int + 52
    else if c == '-' || c == '+' then 62 else 63
  }

  /** Three bytes are four sextets; one or two bytes left over are two or three. */
  function Split(b: seq<Byte>): seq<Sextet> {
    if b == [] then []
    else if |b| == 1 then [b[0] / 4, b[0] % 4 * 16]
    else if |b| == 2 then [b[0] / 4, b[0] % 4 * 16 + b[1] / 16, b[1] % 16 * 4]
    else [b[0] / 4, b[0] % 4 * 16 + b[1] / 16, b[1] % 16 * 4 + b[2] / 64, b[2] % 64] + Split(b[3..])
  }

  /** The three bytes of a group, each from two neighbouring sextets. */
  function First(v: int, w: int): int {
    v * 4 + w / 16
  }

  function Second(v: int, w: int): int {
    v % 16 * 16 + w / 4
  }

  function Third(v: int, w: int): int {
    v % 4 * 64 + w
  }

  /** A single sextet left over holds no byte. */
  function Join(v: seq<Sextet>): seq<Byte> {
    if |v| <= 1 then []
    else if |v| == 2 then [First(v[0], v[1])]
    else if |v| == 3 then [First(v[0], v[1]), Second(v[1], v[2])]
    else [First(v[0], v[1]), Second(v[1], v[2]), Third(v[2], v[3])] + Join(v[4..])
  }

  /** `toString('base64url')` */
  function Encode(b: seq<Byte>): string {
    var v := Split(b);
    seq(|v|, i requires 0 <= i < |v| => Letter(v[i]))
  }

  /** Characters outside the alphabet are skipped. */
  function Sextets(s: string): seq<Sextet> {
    if s == "" then []
    else if IsLetter(s[0]) then [ValueOf(s[0])] + Sextets(s[1..])
    else Sextets(s[1..])
  }

  /** `Buffer.from(s, 'base64url')` */
  function Decode(s: string): seq<Byte> {
    Join(Sextets(s))
  }

  lemma ThreeBytes(a: Byte, b: Byte, c: Byte)
    ensures Join([a / 4, a % 4 * 16 + b / 16, b % 16 * 4 + c / 64, c % 64]) == [a, b, c]
  {
    var v: seq<Sextet> := [a / 4, a % 4 * 16 + b / 16, b % 16 * 4 + c / 64, c % 64];
    assert First(v[0], v[1]) == a;
    assert Second(v[1], v[2]) == b;
    assert Third(v[2], v[3]) == c;
    assert Join(v[4..]) == [];
  }

  lemma TwoBytes(a: Byte, b: Byte)
    ensures Join([a / 4, a % 4 * 16 + b / 16, b % 16 * 4]) == [a, b]
  {
    var v: seq<Sextet> := [a / 4, a % 4 * 16 + b / 16, b % 16 * 4];
    assert First(v[0], v[1]) == a;
    assert Second(v[1], v[2]) == b;
  }

  /** Joining undoes splitting, for any number of bytes. */
  lemma {:induction false} JoinSplit(b: seq<Byte>)
    ensures Join(Split(b)) == b
  {
    if |b| == 1 {
      assert b == [b[0]];
    } else if |b| == 2 {
      TwoBytes(b[0], b[1]);
      assert b == [b[0], b[1]];
    } else if |b| >= 3 {
      ThreeBytes(b[0], b[1], b[2]);
      JoinSplit(b[3..]);
      FirstGroup(Split(b), b[0], b[1], b[2], b[3..]);
      assert b == [b[0], b[1], b[2]] + b[3..];
    }
  }

  lemma FirstGroup(v: seq<Sextet>, a: Byte, b: Byte, c: Byte, rest: seq<Byte>)
    requires v == [a / 4, a % 4 * 16 + b / 16, b % 16 * 4 + c / 64, c % 64] + Split(rest)
    ensures Join(v) == Join([a / 4, a % 4 * 16 + b / 16, b % 16 * 4 + c / 64, c % 64]) + Join(Split(rest))
  {
    hide Split, Join;
    var head: seq<Sextet> := [a / 4, a % 4 * 16 + b / 16, b % 16 * 4 + c / 64, c % 64];
    assert v[..4] == head && v[4..] == Split(rest);
    NextGroup(v);
  }

  lemma OneGroup(v: seq<Sextet>)
    requires |v| == 4
    ensures Join(v) == [First(v[0], v[1]), Second(v[1], v[2]), Third(v[2], v[3])]
  {
    hide First, Second, Third;
    assert Join(v[4..]) == [];
  }

  lemma NextGroup(v: seq<Sextet>)
    requires |v| >= 4
    ensures Join(v) == Join(v[..4]) + Join(v[4..])
  {
    assert Join(v) == [First(v[0], v[1]), Second(v[1], v[2]), Third(v[2], v[3])] + Join(v[4..]);
    hide Join, First, Second, Third;
    OneGroup(v[..4]);
  }

  lemma LetterReads(v: Sextet)
    ensures IsLetter(Letter(v)) && ValueOf(Letter(v)) == v
  {
  }

  /** The alphabet of table 2 in section 5: `A` to `Z`, `a` to `z`, `0` to `9`, `-` and `_`. */
  lemma Alphabet(v: nat)
    ensures Letter(0) == 'A' && Letter(25) == 'Z' && Letter(26) == 'a' && Letter(51) == 'z'
    ensures Letter(52) == '0' && Letter(61) == '9' && Letter(62) == '-' && Letter(63) == '_'
    ensures v < 25 || 26 <= v < 51 || 52 <= v < 61 ==> Letter(v + 1) == Letter(v) + 1 as char
    ensures ValueOf('+') == 62 && ValueOf('/') == 63
  {
  }

  /** Four sextets, or three bytes, as one number, highest first. */
  function OfSextets(a: int, b: int, c: int, d: int): int {
    a * 262_144 + b * 4096 + c * 64 + d
  }

  function OfBytes(a: int, b: int, c: int): int {
    a * 65_536 + b * 256 + c
  }

  /** A group's 24 bits, highest first; one or two bytes left over are filled up with zero bits on the right. */
  lemma GroupInTerms(a: Byte, b: Byte, c: Byte, rest: seq<Byte>)
    ensures
      var v := Split([a, b, c] + rest);
      |v| >= 4 && v[4..] == Split(rest) && OfSextets(v[0], v[1], v[2], v[3]) == OfBytes(a, b, c)
    ensures
      var v := Split([a, b]);
      |v| == 3 && OfSextets(v[0], v[1], v[2], 0) == OfBytes(a, b, 0)
    ensures
      var v := Split([a]);
      |v| == 2 && OfSextets(v[0], v[1], 0, 0) == OfBytes(a, 0, 0)
  {
    assert ([a, b, c] + rest)[3..] == rest;
    var v: seq<Sextet> := [a / 4, a % 4 * 16 + b / 16, b % 16 * 4 + c / 64, c % 64];
    assert Split([a, b, c] + rest) == v + Split(rest);
    assert a == 4 * (a / 4) + a % 4 && b == 16 * (b / 16) + b % 16 && c == 64 * (c / 64) + c % 64;
  }

  lemma {:induction false} SextetsRead(v: seq<Sextet>)
    ensures Sextets(seq(|v|, i requires 0 <= i < |v| => Letter(v[i]))) == v
  {
    var s := seq(|v|, i requires 0 <= i < |v| => Letter(v[i]));
    if v != [] {
      LetterReads(v[0]);
      SextetsRead(v[1..]);
      assert s[1..] == seq(|v[1..]|, i requires 0 <= i < |v[1..]| => Letter(v[1..][i]));
    }
  }

  /** Every byte string survives encoding and decoding. */
  lemma RoundTrip(b: seq<Byte>)
    ensures Decode(Encode(b)) == b
  {
    SextetsRead(Split(b));
    JoinSplit(b);
  }

  /** The text uses the URL-safe letters only. */
  lemma EncodedIsUrlSafe(b: seq<Byte>)
    ensures forall c :: c in Encode(b) ==> IsLetter(c) && c != '+' && c != '/'
  {
    forall i | 0 <= i < |Split(b)|
      ensures IsLetter(Encode(b)[i]) && Encode(b)[i] != '+' && Encode(b)[i] != '/'
    {
      LetterReads(Split(b)[i]);
    }
  }
}
