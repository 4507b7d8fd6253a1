/** `base64_encode` and `base64_decode` of `include/utils/api_utils.h`, against the encoding
    of section 4 of RFC 4648. */
module Base64 {

  type Byte = x: int | 0 <= x < 256

  const UPPER := "ABCDEFGHIJKLMNOPQRSTUVWXYZ"
  const LOWER := "abcdefghijklmnopqrstuvwxyz"
  const DIGITS := "0123456789"
  const ALPHABET: string := UPPER + LOWER + DIGITS + "+/"

  datatype Result = Ok(bytes: seq<Byte>) | InvalidCharacter(c: char)

  function Letter(v: int): char
    requires 0 <= v < 64
  {
    if v < 26 then ('A' as int + v) as char
    else if v < 52 then ('a' as int + (v - 26)) as char
    else if v < 62 then ('0' as int + (v - 52)) as char
    else if v == 62 then '+' else '/'
  }

  /** The decoding table: the index of a character in the alphabet, or -1. */
  function Sextet(c: char): (v: int)
    ensures -1 <= v < 64
    ensures v >= 0 ==> Letter(v) == c
  {
    if 'A' <= c <= 'Z' then c as int - 'A' as int
    else if 'a' <= c <= 'z' then 26 + (c as int - 'a' as int)
    else if '0' <= c <= '9' then 52 + (c as int - '0' as int)
    else if c == '+' then 62 else if c == '/' then 63 else -1
  }

  lemma UpperLetters(v: int)
    requires 0 <= v < 26
    ensures |UPPER| == 26 && UPPER[v] == Letter(v)
  {
    assert v == 0 || v == 1 || v == 2 || v == 3 || v == 4 || v == 5 || v == 6 || v == 7 || v == 8 || v == 9 ||
        v == 10 || v == 11 || v == 12 || v == 13 || v == 14 || v == 15 || v == 16 || v == 17 || v == 18 ||
        v == 19 || v == 20 || v == 21 || v == 22 || v == 23 || v == 24 || v == 25;
  }

  lemma LowerLetters(v: int)
    requires 0 <= v < 26
    ensures |LOWER| == 26 && LOWER[v] == Letter(26 + v)
  {
    assert v == 0 || v == 1 || v == 2 || v == 3 || v == 4 || v == 5 || v == 6 || v == 7 || v == 8 || v == 9 ||
        v == 10 || v == 11 || v == 12 || v == 13 || v == 14 || v == 15 || v == 16 || v == 17 || v == 18 ||
        v == 19 || v == 20 || v == 21 || v == 22 || v == 23 || v == 24 || v == 25;
  }

  lemma DigitLetters(v: int)
    requires 0 <= v < 10
    ensures |DIGITS| == 10 && DIGITS[v] == Letter(52 + v)
  {
    assert v == 0 || v == 1 || v == 2 || v == 3 || v == 4 || v == 5 || v == 6 || v == 7 || v == 8 || v == 9;
  }

  /** `Letter` is the alphabet, and `Sextet` its inverse. */
  lemma AlphabetLetters(v: int)
    requires 0 <= v < 64
    ensures |ALPHABET| == 64 && ALPHABET[v] == Letter(v) && Sextet(ALPHABET[v]) == v
  {
    UpperLetters(if v < 26 then v else 0);
    LowerLetters(if 26 <= v < 52 then v - 26 else 0);
    DigitLetters(if 52 <= v < 62 then v - 52 else 0);
  }

  predicate IsSpace(c: char) {
    c == ' ' || '\t' <= c <= '\r'
  }

  /** The six whitespace characters of the C locale. */
  lemma SpacesAre(c: char)
    ensures IsSpace(c) <==> c as int in {9, 10, 11, 12, 13, 32}
  {
  }

  // ----- encoding -----

  function Group(val: int): string
    requires 0 <= val < 0x100_0000
  {
    [Letter(val / 0x4_0000), Letter(val / 0x1000 % 64), Letter(val / 64 % 64), Letter(val % 64)]
  }

  /** Three bytes as one number. */
  function Word(a: int, b: int, c: int): int { a * 0x1_0000 + b * 0x100 + c }

  /** Three bytes make four characters; one or two left-over bytes are padded. */
  function Encoded(data: seq<Byte>): string {
    if data == [] then ""
    else if |data| == 1 then Group(Word(data[0], 0, 0))[..2] + "=="
    else if |data| == 2 then Group(Word(data[0], data[1], 0))[..3] + "="
    else Group(Word(data[0], data[1], data[2])) + Encoded(data[3..])
  }

  method Encode(data: seq<Byte>) returns (ret: string)
    ensures ret == Encoded(data)
  {
    ret := "";
    var i := 0;
    while i < |data|
      invariant 0 <= i
      invariant ret + Encoded(data[if i <= |data| then i else |data|..]) == Encoded(data)
    {
      var val := Word(data[i], if i + 1 < |data| then data[i + 1] else 0, if i + 2 < |data| then data[i + 2] else 0);
      var quad := [ALPHABET[Index(val / 0x4_0000)]] + [ALPHABET[Index(val / 0x1000)]]
                  + (if i + 1 < |data| then [ALPHABET[Index(val / 64)]] else "=")
                  + (if i + 2 < |data| then [ALPHABET[Index(val)]] else "=");
      QuadIs(data[i..], val, quad);
      assert data[i..][if |data| - i < 3 then |data| - i else 3..] == data[if i + 3 <= |data| then i + 3 else |data|..];
      assert (ret + quad) + Encoded(data[if i + 3 <= |data| then i + 3 else |data|..]) == ret + Encoded(data[i..]);
      ret := ret + quad;
      i := i + 3;
    }
    assert data[|data|..] == [];
  }

  /** `x & 0x3F` as an index into the alphabet. */
  function Index(x: int): (v: int)
    ensures 0 <= v < 64 && |ALPHABET| == 64 && ALPHABET[v] == Letter(x % 64)
  {
    AlphabetLetters(x % 64);
    x % 64
  }

  /** What one round of the loop appends. */
  lemma QuadIs(rest: seq<Byte>, val: int, quad: string)
    requires rest != []
    requires val == Word(rest[0], if 1 < |rest| then rest[1] else 0, if 2 < |rest| then rest[2] else 0)
    requires quad == [Letter(val / 0x4_0000 % 64), Letter(val / 0x1000 % 64),
                      if 1 < |rest| then Letter(val / 64 % 64) else '=', if 2 < |rest| then Letter(val % 64) else '=']
    ensures quad + Encoded(rest[if |rest| < 3 then |rest| else 3..]) == Encoded(rest)
  {
    assert 0 <= val / 0x4_0000 < 64;
    if |rest| == 1 {
      assert rest[1..] == [] && quad == Group(val)[..2] + "==";
    } else if |rest| == 2 {
      assert rest[2..] == [] && quad == Group(val)[..3] + "=";
    } else {
      assert quad == Group(val);
    }
  }

  // ----- decoding -----

  /** 2 to the power of the number of bits a decoder can hold over. */
  function Pow(bits: int): int
    requires bits in {0, 2, 4, 6}
  {
    if bits == 0 then 1 else if bits == 2 then 4 else if bits == 4 then 16 else 64
  }

  function Prepend(b: Byte, r: Result): Result {
    if r.Ok? then Ok([b] + r.bytes) else r
  }

  predicate Holds(acc: int, bits: int) { bits in {0, 2, 4, 6} && 0 <= acc < Pow(bits) }

  /** Decoding on exact numbers: `acc` is the value of the `bits` bits read and not yet used. */
  function DecodeFrom(acc: int, bits: int, s: string): Result
    requires Holds(acc, bits)
    decreases s
  {
    if s == "" then Ok([])
    else if IsSpace(s[0]) then DecodeFrom(acc, bits, s[1..])
    else if s[0] == '=' then Ok([])
    else if Sextet(s[0]) == -1 then InvalidCharacter(s[0])
    else
      var more := acc * 64 + Sextet(s[0]);
      if bits == 0 then DecodeFrom(more, 6, s[1..])
      else
        var p := Pow(bits - 2);
        Prepend(more / p, DecodeFrom(more % p, bits - 2, s[1..]))
  }

  function Decoded(s: string): Result { DecodeFrom(0, 0, s) }

  /** A 32-bit signed word. */
  function Wrap32(x: int): int { (x + 0x8000_0000) % 0x1_0000_0000 - 0x8000_0000 }

  /** It has the range of one, and differs from the exact number by a multiple of 2^32. */
  lemma WrapIs32Bit(x: int)
    ensures -0x8000_0000 <= Wrap32(x) < 0x8000_0000
    ensures exists k :: x - Wrap32(x) == k * 0x1_0000_0000
  {
    var k := (x + 0x8000_0000) / 0x1_0000_0000;
    assert x - Wrap32(x) == k * 0x1_0000_0000;
  }

  /** A power of two up to 2^12 divides 2^32, so wrapping keeps the low bits. */
  lemma WrapKeepsLowBits(x: int)
    ensures Wrap32(x) % 4096 == x % 4096 && Wrap32(x) % 1024 == x % 1024
    ensures Wrap32(x) % 256 == x % 256 && Wrap32(x) % 64 == x % 64
  {
    var k := (x + 0x8000_0000) / 0x1_0000_0000;
    assert Wrap32(x) == x - k * 0x1_0000_0000;
    Low4096(x, k * 0x10_0000);
    Low1024(Wrap32(x));
    Low1024(x);
  }

  lemma Low4096(x: int, q: int)
    ensures (x - q * 4096) % 4096 == x % 4096
  {
  }

  lemma DivModUnique(x: int, q: int, r: int, m: int)
    requires 0 <= r < m && x == q * m + r
    ensures x / m == q && x % m == r
  {
    var d := q - x / m;
    assert d * m == x % m - r;
    AtLeastOne(d, m);
  }

  lemma AtLeastOne(d: int, m: int)
    requires m > 0
    ensures d >= 1 ==> d * m >= m
    ensures d <= -1 ==> d * m <= -m
  {
  }

  lemma Low1024(x: int)
    ensures x % 1024 == x % 4096 % 1024 && x % 256 == x % 4096 % 256 && x % 64 == x % 4096 % 64
  {
    var t, r := x / 4096, x % 4096;
    DivModUnique(x, t * 4 + r / 1024, r % 1024, 1024);
    DivModUnique(x, t * 16 + r / 256, r % 256, 256);
    DivModUnique(x, t * 64 + r / 64, r % 64, 64);
  }

  lemma Extract16(x: int)
    ensures x / 16 % 256 == x % 4096 / 16 && x % 16 == x % 4096 % 16
  {
    var t, r := x / 4096, x % 4096;
    DivModUnique(x, t * 256 + r / 16, r % 16, 16);
    DivModUnique(x / 16, t, r / 16, 256);
  }

  lemma Extract4(x: int)
    ensures x / 4 % 256 == x % 1024 / 4 && x % 4 == x % 1024 % 4
  {
    var t, r := x / 1024, x % 1024;
    DivModUnique(x, t * 256 + r / 4, r % 4, 4);
    DivModUnique(x / 4, t, r / 4, 256);
  }

  /** The low bits after shifting in one character. */
  lemma ShiftedLowBits(val: int, v: int)
    requires 0 <= v < 64
    ensures var next := Wrap32(val * 64 + v);
            && next % 64 == v && next % 256 == val % 4 * 64 + v
            && next % 1024 == val % 16 * 64 + v && next % 4096 == val % 64 * 64 + v
  {
    WrapKeepsLowBits(val * 64 + v);
    ShiftedExactly(val, v);
  }

  lemma ShiftedExactly(val: int, v: int)
    requires 0 <= v < 64
    ensures var x := val * 64 + v;
            && x % 64 == v && x % 256 == val % 4 * 64 + v
            && x % 1024 == val % 16 * 64 + v && x % 4096 == val % 64 * 64 + v
  {
    var x := val * 64 + v;
    DivModUnique(x, val, v, 64);
    DivModUnique(x, val / 4, val % 4 * 64 + v, 256);
    DivModUnique(x, val / 16, val % 16 * 64 + v, 1024);
    DivModUnique(x, val / 64, val % 64 * 64 + v, 4096);
  }

  /** One character's worth of the wrapping word, seen through its low bits. */
  lemma ShiftIn(val: int, v: int, bits: int)
    requires bits in {0, 2, 4, 6} && 0 <= v < 64
    ensures var next := Wrap32(val * 64 + v);
            var more := val % Pow(bits) * 64 + v;
            && (bits == 0 ==> next % 64 == more)
            && (bits > 0 ==> next / Pow(bits - 2) % 256 == more / Pow(bits - 2)
                             && next % Pow(bits - 2) == more % Pow(bits - 2))
  {
    ShiftedLowBits(val, v);
    var next := Wrap32(val * 64 + v);
    if bits == 6 {
      Extract16(next);
    } else if bits == 4 {
      Extract4(next);
    } else if bits == 2 {
      assert next / 1 == next && next % 1 == 0;
    }
  }

  /** Reading one alphabet character from the wrapping word. */
  lemma ReadSextet(val: int, bits: int, s: string)
    requires bits in {0, 2, 4, 6} && Holds(val % Pow(bits), bits)
    requires s != "" && !IsSpace(s[0]) && s[0] != '=' && Sextet(s[0]) != -1
    ensures var next := Wrap32(val * 64 + Sextet(s[0]));
            && (bits == 0 ==> Holds(next % Pow(6), 6)
                              && DecodeFrom(val % Pow(bits), bits, s) == DecodeFrom(next % Pow(6), 6, s[1..]))
            && (bits > 0 ==> Holds(next % Pow(bits - 2), bits - 2)
                             && DecodeFrom(val % Pow(bits), bits, s) ==
                                Prepend(next / Pow(bits - 2) % 256, DecodeFrom(next % Pow(bits - 2), bits - 2, s[1..])))
  {
    ShiftIn(val, Sextet(s[0]), bits);
  }

  /** The loop of `base64_decode`, with `val` as a wrapping 32-bit word: only its low
      `valb` + 8 bits matter. */
  method Decode(s: string) returns (r: Result)
    ensures r == Decoded(s)
  {
    var out: seq<Byte> := [];
    var val, valb := 0, -8;
    for i := 0 to |s|
      invariant valb in {-8, -6, -4, -2}
      invariant Holds(val % Pow(valb + 8), valb + 8)
      invariant Decoded(s) == Appended(out, DecodeFrom(val % Pow(valb + 8), valb + 8, s[i..]))
    {
      var c := s[i];
      assert s[i..][1..] == s[i + 1..];
      if IsSpace(c) { continue; }
      if c == '=' { return Ok(out); }
      if Sextet(c) == -1 { return InvalidCharacter(c); }
      ReadSextet(val, valb + 8, s[i..]);
      val := Wrap32(val * 64 + Sextet(c));
      valb := valb + 6;
      if valb >= 0 {
        AppendedByte(out, val / Pow(valb) % 256, DecodeFrom(val % Pow(valb), valb, s[i + 1..]));
        out := out + [val / Pow(valb) % 256];
        valb := valb - 8;
      }
    }
    r := Ok(out);
  }

  lemma AppendedByte(out: seq<Byte>, b: Byte, r: Result)
    ensures Appended(out, Prepend(b, r)) == Appended(out + [b], r)
  {
    if r.Ok? { assert out + ([b] + r.bytes) == out + [b] + r.bytes; }
  }

  function Appended(out: seq<Byte>, r: Result): Result {
    if r.Ok? then Ok(out + r.bytes) else r
  }

  // ----- the codec laws -----

  function NoSpace(s: string): string {
    if s == "" then "" else (if IsSpace(s[0]) then "" else [s[0]]) + NoSpace(s[1..])
  }

  /** Whitespace anywhere changes nothing. */
  lemma {:induction false} SpaceIsIgnored(acc: int, bits: int, s: string)
    requires Holds(acc, bits)
    ensures DecodeFrom(acc, bits, s) == DecodeFrom(acc, bits, NoSpace(s))
    decreases s
  {
    if s == "" {
    } else if IsSpace(s[0]) {
      assert NoSpace(s) == NoSpace(s[1..]);
      SpaceIsIgnored(acc, bits, s[1..]);
    } else {
      assert NoSpace(s)[1..] == NoSpace(s[1..]);
      if s[0] != '=' && Sextet(s[0]) != -1 {
        var more := acc * 64 + Sextet(s[0]);
        if bits == 0 {
          SpaceIsIgnored(more, 6, s[1..]);
        } else {
          SpaceIsIgnored(more % Pow(bits - 2), bits - 2, s[1..]);
        }
      }
    }
  }

  predicate Plain(c: char) { Sextet(c) >= 0 }

  lemma PlainIsNoMark(c: char)
    requires Plain(c)
    ensures !IsSpace(c) && c != '='
  {
  }

  /** Reading one character of the alphabet. */
  lemma ReadPlain(acc: int, bits: int, c: char, rest: string)
    requires Holds(acc, bits) && Plain(c)
    ensures var more := acc * 64 + Sextet(c);
            DecodeFrom(acc, bits, [c] + rest) ==
              if bits == 0 then DecodeFrom(more, 6, rest)
              else Prepend(more / Pow(bits - 2), DecodeFrom(more % Pow(bits - 2), bits - 2, rest))
  {
    PlainIsNoMark(c);
    assert ([c] + rest)[1..] == rest;
  }

  lemma ReadPad(acc: int, bits: int, rest: string)
    requires Holds(acc, bits)
    ensures DecodeFrom(acc, bits, "=" + rest) == Ok([])
  {
  }

  /** The three bytes of four sextets. */
  lemma ReadTwo(w: char, x: char, rest: string)
    requires Plain(w) && Plain(x)
    ensures var a, b := Sextet(w), Sextet(x);
            Decoded([w, x] + rest) == Prepend(a * 4 + b / 16, DecodeFrom(b % 16, 4, rest))
  {
    var a, b := Sextet(w), Sextet(x);
    assert [w, x] + rest == [w] + ([x] + rest);
    ReadPlain(0, 0, w, [x] + rest);
    ReadPlain(a, 6, x, rest);
    assert (a * 64 + b) / 16 == a * 4 + b / 16 && (a * 64 + b) % 16 == b % 16;
  }

  lemma ReadThree(w: char, x: char, y: char, rest: string)
    requires Plain(w) && Plain(x) && Plain(y)
    ensures var a, b, c := Sextet(w), Sextet(x), Sextet(y);
            Decoded([w, x, y] + rest)
            == Prepend(a * 4 + b / 16, Prepend(b % 16 * 16 + c / 4, DecodeFrom(c % 4, 2, rest)))
  {
    var b, c := Sextet(x), Sextet(y);
    assert [w, x, y] + rest == [w, x] + ([y] + rest);
    ReadTwo(w, x, [y] + rest);
    ReadPlain(b % 16, 4, y, rest);
    assert (b % 16 * 64 + c) / 4 == b % 16 * 16 + c / 4 && (b % 16 * 64 + c) % 4 == c % 4;
  }

  lemma ReadFour(w: char, x: char, y: char, z: char, rest: string)
    requires Plain(w) && Plain(x) && Plain(y) && Plain(z)
    ensures var a, b, c, d := Sextet(w), Sextet(x), Sextet(y), Sextet(z);
            Decoded([w, x, y, z] + rest)
            == Prepend(a * 4 + b / 16, Prepend(b % 16 * 16 + c / 4, Prepend(c % 4 * 64 + d, Decoded(rest))))
  {
    var c, d := Sextet(y), Sextet(z);
    assert [w, x, y, z] + rest == [w, x, y] + ([z] + rest);
    ReadThree(w, x, y, [z] + rest);
    ReadPlain(c % 4, 2, z, rest);
  }

  lemma LetterSextet(v: int)
    requires 0 <= v < 64
    ensures Sextet(Letter(v)) == v
  {
  }

  /** The four sextets of a word, in terms of its bytes. */
  lemma GroupSextets(a: Byte, b: Byte, c: Byte)
    ensures var val := Word(a, b, c);
            && 0 <= val < 0x100_0000
            && val / 0x4_0000 == a / 4 && val / 0x1000 % 64 == a % 4 * 16 + b / 16
            && val / 64 % 64 == b % 16 * 4 + c / 64 && val % 64 == c % 64
  {
    var a1, a0, b1, b0, c1, c0 := a / 4, a % 4, b / 16, b % 16, c / 64, c % 64;
    var val := Word(a, b, c);
    DivModUnique(val, a1, a0 * 0x1_0000 + b * 0x100 + c, 0x4_0000);
    DivModUnique(val, a * 16 + b1, b0 * 0x100 + c, 0x1000);
    DivModUnique(a * 16 + b1, a1, a0 * 16 + b1, 64);
    DivModUnique(val, a * 0x400 + b * 4 + c1, c0, 64);
    DivModUnique(a * 0x400 + b * 4 + c1, a * 16 + b1, b0 * 4 + c1, 64);
  }

  /** Four sextets taken from three bytes give the bytes back. */
  lemma Regroup(a: Byte, b: Byte, c: Byte)
    ensures var w, x, y, z := a / 4, a % 4 * 16 + b / 16, b % 16 * 4 + c / 64, c % 64;
            && 0 <= w < 64 && 0 <= x < 64 && 0 <= y < 64 && 0 <= z < 64
            && w * 4 + x / 16 == a && x % 16 * 16 + y / 4 == b && y % 4 * 64 + z == c
  {
  }

  /** The sextets of `g` spell the bytes a, b, c. */
  predicate Spells(g: string, a: Byte, b: Byte, c: Byte) {
    |g| == 4 && Plain(g[0]) && Plain(g[1]) && Plain(g[2]) && Plain(g[3]) &&
    var w, x, y, z := Sextet(g[0]), Sextet(g[1]), Sextet(g[2]), Sextet(g[3]);
    w * 4 + x / 16 == a && x % 16 * 16 + y / 4 == b && y % 4 * 64 + z == c
  }

  /** The characters of a group, and their values. */
  lemma GroupValues(a: Byte, b: Byte, c: Byte) returns (g: string)
    ensures 0 <= Word(a, b, c) < 0x100_0000 && g == Group(Word(a, b, c)) && Spells(g, a, b, c)
    ensures (b == 0 ==> Sextet(g[1]) % 16 == 0) && (c == 0 ==> Sextet(g[2]) % 4 == 0)
  {
    GroupSextets(a, b, c);
    Regroup(a, b, c);
    LetterSextet(a / 4);
    LetterSextet(a % 4 * 16 + b / 16);
    LetterSextet(b % 16 * 4 + c / 64);
    LetterSextet(c % 64);
    g := Group(Word(a, b, c));
  }

  lemma ReadGroup(g: string, a: Byte, b: Byte, c: Byte, rest: string)
    requires Spells(g, a, b, c)
    ensures Decoded(g + rest) == Prepend(a, Prepend(b, Prepend(c, Decoded(rest))))
  {
    assert g + rest == [g[0], g[1], g[2], g[3]] + rest;
    ReadFour(g[0], g[1], g[2], g[3], rest);
  }

  lemma ReadPaddedTwo(g: string, a: Byte, b: Byte, c: Byte)
    requires Spells(g, a, b, c)
    ensures Decoded(g[..2] + "==") == Ok([a])
  {
    assert g[..2] + "==" == [g[0], g[1]] + ("=" + "=");
    ReadTwo(g[0], g[1], "=" + "=");
    ReadPad(Sextet(g[1]) % 16, 4, "=");
  }

  lemma ReadPaddedThree(g: string, a: Byte, b: Byte, c: Byte)
    requires Spells(g, a, b, c)
    ensures Decoded(g[..3] + "=") == Ok([a, b])
  {
    assert g[..3] + "=" == [g[0], g[1], g[2]] + ("=" + "");
    ReadThree(g[0], g[1], g[2], "=" + "");
    ReadPad(Sextet(g[2]) % 4, 2, "");
  }

  /** Decoding undoes encoding, for every byte string. */
  lemma {:induction false} DecodeEncode(data: seq<Byte>)
    ensures Decoded(Encoded(data)) == Ok(data)
    decreases data
  {
    if |data| > 2 {
      var g := GroupValues(data[0], data[1], data[2]);
      ReadGroup(g, data[0], data[1], data[2], Encoded(data[3..]));
      DecodeEncode(data[3..]);
      assert data == [data[0]] + ([data[1]] + ([data[2]] + data[3..]));
    } else if |data| == 2 {
      var g := GroupValues(data[0], data[1], 0);
      ReadPaddedThree(g, data[0], data[1], 0);
    } else if |data| == 1 {
      var g := GroupValues(data[0], 0, 0);
      ReadPaddedTwo(g, data[0], 0, 0);
    }
  }

  /** Also with whitespace inserted anywhere. */
  lemma DecodeEncodeWithSpace(data: seq<Byte>, s: string)
    requires NoSpace(s) == Encoded(data)
    ensures Decoded(s) == Ok(data)
  {
    SpaceIsIgnored(0, 0, s);
    DecodeEncode(data);
  }

  /** Canonical encodings in the sense of section 3.5 of RFC 4648: whole groups of alphabet
      characters, padding only in the last group, and the bits it leaves over all zero. */
  predicate Canonical(s: string) {
    s == "" ||
    (|s| >= 4 && Plain(s[0]) && Plain(s[1]) &&
     (|| (s[2..] == "==" && Sextet(s[1]) % 16 == 0)
      || (|s| == 4 && Plain(s[2]) && s[3] == '=' && Sextet(s[2]) % 4 == 0)
      || (Plain(s[2]) && Plain(s[3]) && Canonical(s[4..]))))
  }

  /** Encoding undoes decoding exactly on canonical text. */
  lemma {:induction false} EncodeDecode(s: string)
    requires Canonical(s)
    ensures Decoded(s).Ok? && Encoded(Decoded(s).bytes) == s
    decreases s
  {
    if s != "" {
      var a, b := Sextet(s[0]), Sextet(s[1]);
      if s[2..] == "==" {
        assert s == [s[0], s[1]] + ("=" + "=");
        ReadTwo(s[0], s[1], "=" + "=");
        ReadPad(b % 16, 4, "=");
        var x: Byte := a * 4 + b / 16;
        assert Decoded(s) == Ok([x]);
        GroupSextets(x, 0, 0);
        assert x / 4 == a && x % 4 * 16 == b;
      } else if |s| == 4 && s[3] == '=' && Plain(s[2]) && Sextet(s[2]) % 4 == 0 {
        var c := Sextet(s[2]);
        assert s == [s[0], s[1], s[2]] + ("=" + "");
        ReadThree(s[0], s[1], s[2], "=" + "");
        ReadPad(c % 4, 2, "");
        var x: Byte, y: Byte := a * 4 + b / 16, b % 16 * 16 + c / 4;
        assert Decoded(s) == Ok([x, y]);
        GroupSextets(x, y, 0);
        assert x / 4 == a && x % 4 * 16 + y / 16 == b && y % 16 * 4 == c;
      } else {
        EncodeDecode(s[4..]);
        EncodeDecodeGroup(s);
      }
    }
  }

  lemma EncodeDecodeGroup(s: string)
    requires |s| >= 4 && Plain(s[0]) && Plain(s[1]) && Plain(s[2]) && Plain(s[3])
    requires Decoded(s[4..]).Ok? && Encoded(Decoded(s[4..]).bytes) == s[4..]
    ensures Decoded(s).Ok? && Encoded(Decoded(s).bytes) == s
  {
    var a, b, c, d := Sextet(s[0]), Sextet(s[1]), Sextet(s[2]), Sextet(s[3]);
    assert s == [s[0], s[1], s[2], s[3]] + s[4..];
    ReadFour(s[0], s[1], s[2], s[3], s[4..]);
    var x, y, z := GroupBack(a, b, c, d);
    var bytes := Decoded(s).bytes;
    assert bytes == [x, y, z] + Decoded(s[4..]).bytes;
    assert bytes[3..] == Decoded(s[4..]).bytes;
    assert Group(Word(x, y, z)) == [s[0], s[1], s[2], s[3]];
  }

  /** Three bytes put together from four sextets are encoded as those sextets. */
  lemma GroupBack(a: int, b: int, c: int, d: int) returns (x: Byte, y: Byte, z: Byte)
    requires 0 <= a < 64 && 0 <= b < 64 && 0 <= c < 64 && 0 <= d < 64
    ensures x == a * 4 + b / 16 && y == b % 16 * 16 + c / 4 && z == c % 4 * 64 + d
    ensures 0 <= Word(x, y, z) < 0x100_0000 && Group(Word(x, y, z)) == [Letter(a), Letter(b), Letter(c), Letter(d)]
  {
    x, y, z := a * 4 + b / 16, b % 16 * 16 + c / 4, c % 4 * 64 + d;
    GroupSextets(x, y, z);
    DivModUnique(x, a, b / 16, 4);
    DivModUnique(y, b % 16, c / 4, 16);
    DivModUnique(z, c % 4, d, 64);
  }

  lemma {:induction false} EncodedIsCanonical(data: seq<Byte>)
    ensures Canonical(Encoded(data))
    decreases data
  {
    if |data| == 1 {
      var g := GroupValues(data[0], 0, 0);
      assert Encoded(data)[2..] == "==";
    } else if |data| == 2 {
      var g := GroupValues(data[0], data[1], 0);
    } else if |data| > 2 {
      var g := GroupValues(data[0], data[1], data[2]);
      EncodedIsCanonical(data[3..]);
      assert Encoded(data)[4..] == Encoded(data[3..]);
    }
  }

  /** The canonical texts are exactly the encodings. */
  lemma CanonicalIffEncoded(s: string)
    ensures Canonical(s) <==> exists data: seq<Byte> :: Encoded(data) == s
  {
    if Canonical(s) {
      EncodeDecode(s);
    }
    forall data: seq<Byte> | Encoded(data) == s ensures Canonical(s) {
      EncodedIsCanonical(data);
    }
  }

  /** A character the decoder stumbles over: neither space nor padding nor in the alphabet. */
  predicate Bad(c: char) { !IsSpace(c) && c != '=' && !Plain(c) }

  /** The first bad character before any padding. */
  function FirstBad(s: string): Result {
    if s == "" || s[0] == '=' then Ok([])
    else if Bad(s[0]) then InvalidCharacter(s[0])
    else FirstBad(s[1..])
  }

  lemma {:induction false} DecodeFailsAtFirstBad(acc: int, bits: int, s: string)
    requires Holds(acc, bits)
    ensures DecodeFrom(acc, bits, s).InvalidCharacter? <==> FirstBad(s).InvalidCharacter?
    ensures FirstBad(s).InvalidCharacter? ==> DecodeFrom(acc, bits, s) == FirstBad(s)
    decreases s
  {
    if s != "" && s[0] != '=' && !Bad(s[0]) {
      var acc', bits' := acc, bits;
      if !IsSpace(s[0]) {
        var more := acc * 64 + Sextet(s[0]);
        acc', bits' := if bits == 0 then more else more % Pow(bits - 2), if bits == 0 then 6 else bits - 2;
      }
      DecodeFailsAtFirstBad(acc', bits', s[1..]);
    }
  }

  lemma {:induction false} FirstBadIs(s: string)
    ensures FirstBad(s).InvalidCharacter? <==> exists i :: 0 <= i < |s| && Bad(s[i]) && '=' !in s[..i]
    ensures FirstBad(s).InvalidCharacter? ==>
        exists i :: 0 <= i < |s| && Bad(s[i]) && FirstBad(s).c == s[i]
                    && forall k :: 0 <= k < i ==> s[k] != '=' && !Bad(s[k])
    decreases s
  {
    if s == "" {
    } else if s[0] == '=' {
      forall i | 0 < i < |s| ensures '=' in s[..i] { assert s[..i][0] == '='; }
    } else if Bad(s[0]) {
      assert '=' !in s[..0];
    } else {
      var rest := s[1..];
      FirstBadIs(rest);
      FailureShifts(s);
      if FirstBad(rest).InvalidCharacter? {
        var i :| 0 <= i < |rest| && Bad(rest[i]) && FirstBad(rest).c == rest[i]
                 && forall k :: 0 <= k < i ==> rest[k] != '=' && !Bad(rest[k]);
        assert s[i + 1] == rest[i];
        assert forall k :: 0 <= k < i + 1 ==> s[k] == if k == 0 then s[0] else rest[k - 1];
      }
    }
  }

  /** Decoding fails exactly when some bad character comes before any padding, and reports
      the first. */
  lemma DecodeFailsIff(acc: int, bits: int, s: string)
    requires Holds(acc, bits)
    ensures DecodeFrom(acc, bits, s).InvalidCharacter?
            <==> exists i :: 0 <= i < |s| && Bad(s[i]) && '=' !in s[..i]
    ensures DecodeFrom(acc, bits, s).InvalidCharacter? ==>
        exists i :: 0 <= i < |s| && Bad(s[i]) && DecodeFrom(acc, bits, s).c == s[i]
                    && forall k :: 0 <= k < i ==> s[k] != '=' && !Bad(s[k])
  {
    DecodeFailsAtFirstBad(acc, bits, s);
    FirstBadIs(s);
  }

  lemma FailureShifts(s: string)
    requires s != "" && !Bad(s[0]) && s[0] != '='
    ensures (exists i :: 0 <= i < |s| && Bad(s[i]) && '=' !in s[..i])
            <==> (exists i :: 0 <= i < |s[1..]| && Bad(s[1..][i]) && '=' !in s[1..][..i])
  {
    var rest := s[1..];
    if i :| 0 <= i < |s| && Bad(s[i]) && '=' !in s[..i] {
      assert s[..i] == [s[0]] + rest[..i - 1];
      assert Bad(rest[i - 1]);
    }
    if i :| 0 <= i < |rest| && Bad(rest[i]) && '=' !in rest[..i] {
      assert s[..i + 1] == [s[0]] + rest[..i];
      assert Bad(s[i + 1]);
    }
  }

  lemma DecodeErrors(s: string)
    ensures Decoded(s).InvalidCharacter? <==> exists i :: 0 <= i < |s| && Bad(s[i]) && '=' !in s[..i]
  {
    DecodeFailsIff(0, 0, s);
  }

  // ----- the test vectors of section 10 of RFC 4648 -----

  lemma OneByteVector()
    ensures Encoded([102]) == "Zg=="
  {
    assert Group(Word(102, 0, 0)) == "ZgAA";
  }

  lemma TwoByteVector()
    ensures Encoded([102, 111]) == "Zm8="
  {
    assert Group(Word(102, 111, 0)) == "Zm8A";
  }

  lemma ThreeByteVectors()
    ensures Encoded([102, 111, 111]) == "Zm9v" && Encoded([98, 97, 114]) == "YmFy"
  {
    ThreeBytes(102, 111, 111);
    ThreeBytes(98, 97, 114);
    FirstGroup();
    SecondGroup();
  }

  lemma FirstGroup()
    ensures Group(Word(102, 111, 111)) == "Zm9v"
  {
  }

  lemma SecondGroup()
    ensures Group(Word(98, 97, 114)) == "YmFy"
  {
  }

  lemma ThreeBytes(a: Byte, b: Byte, c: Byte)
    ensures 0 <= Word(a, b, c) < 0x100_0000 && Encoded([a, b, c]) == Group(Word(a, b, c))
  {
    var data: seq<Byte> := [a, b, c];
    GroupSextets(a, b, c);
    assert data[3..] == [] && Encoded(data) == Group(Word(a, b, c)) + Encoded(data[3..]);
  }

  /** Four characters carry the three bytes as one number, most significant first. */
  lemma GroupIsBigEndian(a: Byte, b: Byte, c: Byte)
    ensures var g := Encoded([a, b, c]);
            |g| == 4 && Sextet(g[0]) * 0x4_0000 + Sextet(g[1]) * 0x1000 + Sextet(g[2]) * 0x40 + Sextet(g[3])
                        == a * 0x1_0000 + b * 0x100 + c
  {
    ThreeBytes(a, b, c);
    var g := GroupValues(a, b, c);
    GroupSextets(a, b, c);
  }
}
