/**
  The repository's own Base64.  Both directions depart from section 4 of RFC 4648: the encoder widens
  each byte as a signed number, and the decoder takes the letter 'A' for a letter it does not know.
  The theorems say exactly what is lost by that.
*/
module Base64 {

  type Byte = n: nat | n < 256
  type Word = n: nat | n < 0x100_0000        // a bitset<24>

  // A sextet, or the pad.
  type Symbol = n: nat | n <= PAD
  const PAD: nat := 64

  datatype Result = Ok(bytes: seq<Byte>) | OutOfRange

  // ----- the alphabet -----

  function Letter(i: Symbol): char {
    if i < 26 then ('A' as int + i) as char
    else if i < 52 then ('a' as int + (i - 26)) as char
    else if i < 62 then ('0' as int + (i - 52)) as char
    else if i == 62 then '+' else if i == 63 then '/' else '='
  }

  // Table 1 of RFC 4648, with the pad behind it.
  const ALPHABET := "ABCDEFGHIJKLMNOPQRSTUVWXYZ" + "abcdefghijklmnopqrstuvwxyz" + "0123456789" + "+/" + "="

  lemma LettersAreStandard(i: Symbol)
    ensures |ALPHABET| == 65 && Letter(i) == ALPHABET[i]
  {
    var upper, lower, digits := "ABCDEFGHIJKLMNOPQRSTUVWXYZ", "abcdefghijklmnopqrstuvwxyz", "0123456789";
    if i < 26 {
      assert ALPHABET[i] == upper[i];
    } else if i < 52 {
      assert ALPHABET[i] == lower[i - 26];
    } else if i < 62 {
      assert ALPHABET[i] == digits[i - 52];
    }
  }

  // Where a letter stands in the table; 64, its size, when it does not.
  function Index(c: char): (i: nat)
    ensures i <= 64
    ensures i < 64 ==> Letter(i) == c
    ensures i == 64 ==> forall k: Symbol :: k < 64 ==> Letter(k) != c
  {
    if 'A' <= c <= 'Z' then c as int - 'A' as int
    else if 'a' <= c <= 'z' then c as int - 'a' as int + 26
    else if '0' <= c <= '9' then c as int - '0' as int + 52
    else if c == '+' then 62
    else if c == '/' then 63
    else 64
  }

  lemma LetterInjective(i: Symbol, j: Symbol)
    requires Letter(i) == Letter(j)
    ensures i == j
  {
  }

  function Text(ss: seq<Symbol>): string {
    seq(|ss|, k requires 0 <= k < |ss| => Letter(ss[k]))
  }

  lemma TextInjective(a: seq<Symbol>, b: seq<Symbol>)
    requires Text(a) == Text(b)
    ensures a == b
  {
    assert |a| == |Text(a)| == |Text(b)| == |b|;
    forall k | 0 <= k < |a|
      ensures a[k] == b[k]
    {
      assert Text(a)[k] == Text(b)[k];
      LetterInjective(a[k], b[k]);
    }
  }

  // ----- section 4 of RFC 4648 -----

  predicate Sextets(vs: seq<Symbol>) {
    forall k :: 0 <= k < |vs| ==> vs[k] < 64
  }

  // Three bytes as four sextets.
  function Quad(a: Byte, b: Byte, c: Byte): (q: seq<Symbol>)
    ensures |q| == 4 && Sextets(q)
  {
    [a / 4, a % 4 * 16 + b / 16, b % 16 * 4 + c / 64, c % 64]
  }

  // Three bytes are four sextets; one byte is two and two pads, two bytes are three and one pad.
  function Symbols(m: seq<Byte>): seq<Symbol> {
    if |m| == 0 then []
    else if |m| == 1 then [m[0] / 4, m[0] % 4 * 16, PAD, PAD]
    else if |m| == 2 then [m[0] / 4, m[0] % 4 * 16 + m[1] / 16, m[1] % 16 * 4, PAD]
    else Quad(m[0], m[1], m[2]) + Symbols(m[3..])
  }

  function Rfc(m: seq<Byte>): string {
    Text(Symbols(m))
  }

  function InBase64(a: int, b: int, c: int, d: int): int {
    ((a * 64 + b) * 64 + c) * 64 + d
  }

  function InBase256(a: int, b: int, c: int): int {
    (a * 256 + b) * 256 + c
  }

  lemma SameNumber(a: Byte, b: Byte, c: Byte)
    ensures InBase64(a / 4, a % 4 * 16 + b / 16, b % 16 * 4 + c / 64, c % 64) == InBase256(a, b, c)
    ensures InBase64(a / 4, a % 4 * 16 + b / 16, b % 16 * 4, 0) == InBase256(a, b, 0)
    ensures InBase64(a / 4, a % 4 * 16, 0, 0) == InBase256(a, 0, 0)
  {
    Regroup(a / 4, a % 4, b / 16, b % 16, c / 64, c % 64);
    Regroup(a / 4, a % 4, b / 16, b % 16, 0, 0);
    Regroup(a / 4, a % 4, 0, 0, 0, 0);
  }

  lemma Regroup(p: int, q: int, r: int, s: int, t: int, u: int)
    ensures InBase64(p, q * 16 + r, s * 4 + t, u) == InBase256(p * 4 + q, r * 16 + s, t * 64 + u)
  {
  }

  // Each group of sextets is the number of its bytes written in base 64, missing ones and pads as zero.
  lemma GroupsAreNumbers(a: Byte, b: Byte, c: Byte, rest: seq<Byte>)
    ensures var q := Symbols([a]); |q| == 4 && q[2] == q[3] == PAD && InBase64(q[0], q[1], 0, 0) == InBase256(a, 0, 0)
    ensures var q := Symbols([a, b]); |q| == 4 && q[3] == PAD && InBase64(q[0], q[1], q[2], 0) == InBase256(a, b, 0)
    ensures
      var q := Symbols([a, b, c] + rest);
      && |q| >= 4 && InBase64(q[0], q[1], q[2], q[3]) == InBase256(a, b, c)
      && q[4..] == Symbols(rest)
  {
    SameNumber(a, b, c);
    assert ([a, b, c] + rest)[3..] == rest;
  }

  lemma {:induction false} SymbolCount(m: seq<Byte>)
    ensures |Symbols(m)| == 4 * ((|m| + 2) / 3)
  {
    if |m| >= 3 {
      SymbolCount(m[3..]);
    }
  }

  lemma SextetsAreBytes(a: Byte, b: Byte, c: Byte, x: Byte, y: Byte, z: Byte)
    requires a / 4 == x / 4 && a % 4 * 16 + b / 16 == x % 4 * 16 + y / 16
    requires b % 16 * 4 + c / 64 == y % 16 * 4 + z / 64 && c % 64 == z % 64
    ensures a == x && b == y && c == z
  {
  }

  lemma {:induction false} SymbolsInjective(m: seq<Byte>, n: seq<Byte>)
    requires |m| == |n| && Symbols(m) == Symbols(n)
    ensures m == n
  {
    if |m| > 0 {
      var r, t := Symbols(m), Symbols(n);
      assert r[0] == t[0] && r[1] == t[1] && r[2] == t[2] && r[3] == t[3];
      if |m| > 2 {
        SextetsAreBytes(m[0], m[1], m[2], n[0], n[1], n[2]);
        assert r[4..] == Symbols(m[3..]) && t[4..] == Symbols(n[3..]);
        SymbolsInjective(m[3..], n[3..]);
        assert m == m[..3] + m[3..] && n == n[..3] + n[3..];
      } else if |m| == 2 {
        SextetsAreBytes(m[0], m[1], 0, n[0], n[1], 0);
      }
    }
  }

  // ----- encode -----

  // A byte of 128 or more, widened as a signed number, sets every bit above it in the word: the bytes
  // before it in its group become 255.
  function Widened(m: seq<Byte>): seq<Byte> {
    if |m| <= 1 then m
    else
      var high1, high2 := m[1] >= 128, |m| > 2 && m[2] >= 128;
      var first := if high1 || high2 then 255 else m[0];
      var second := if high2 then 255 else m[1];
      if |m| == 2 then [first, second] else [first, second, m[2]] + Widened(m[3..])
  }

  // What it takes for nothing to be overwritten.
  predicate Faithful(m: seq<Byte>) {
    |m| > 1 ==>
      && (m[1] >= 128 ==> m[0] == 255)
      && (|m| > 2 ==> (m[2] >= 128 ==> m[0] == m[1] == 255) && Faithful(m[3..]))
  }

  lemma {:induction false} WidenedIsSameIff(m: seq<Byte>)
    ensures |Widened(m)| == |m|
    ensures Widened(m) == m <==> Faithful(m)
  {
    if |m| > 2 {
      WidenedIsSameIff(m[3..]);
      assert Widened(m)[3..] == Widened(m[3..]);
      assert m == m[..3] + m[3..];
    }
  }

  // bitset<24>::operator<<=, eight at a time.
  function Shl8(v: Word): (r: Word)
    ensures r % 256 == 0
  {
    LowByteClear(v * 256 / 0x100_0000, v * 256 % 0x100_0000, v);
    v * 256 % 0x100_0000
  }

  lemma LowByteClear(q: nat, r: nat, v: nat)
    requires q * 0x100_0000 + r == v * 256
    ensures r % 256 == 0
  {
    assert r == (v - q * 0x1_0000) * 256;
  }

  // value |= uint32_t(char): the low byte of value is clear, and char is signed.
  function OrByte(v: Word, b: Byte): Word
    requires v % 256 == 0
  {
    if b < 128 then v + b else 0xFF_FF00 + b
  }

  // The word after shifting in these bytes.
  function Shifted(g: seq<Byte>): Word {
    if g == [] then 0 else OrByte(Shl8(Shifted(g[..|g| - 1])), g[|g| - 1])
  }

  function WordOf(a: Byte, b: Byte, c: Byte): Word {
    (a as int) * 0x1_0000 + (b as int) * 0x100 + c
  }

  // The bytes of a group as Widened leaves them, missing ones zero.
  function GroupWord(g: seq<Byte>): Word
    requires |g| <= 3
  {
    var w := Widened(g);
    if |g| == 0 then 0
    else if |g| == 1 then WordOf(w[0], 0, 0)
    else if |g| == 2 then WordOf(w[0], w[1], 0)
    else WordOf(w[0], w[1], w[2])
  }

  lemma ShiftedOne(b: Byte)
    ensures Shifted([b]) == (if b < 128 then b else 0xFF_FF00 + b)
    ensures Shl8(Shl8(Shifted([b]))) == GroupWord([b])
  {
    assert [b][..0] == [];
  }

  // Shifting loses all but the low two bytes.
  lemma ShiftKeepsLow(v: Word, high: nat, low: nat)
    requires v == high * 0x1_0000 + low && low < 0x1_0000
    ensures Shl8(v) == low * 256 && v % 0x1_0000 == low
  {
    Low16(high, low);
    Low24(high, low * 256);
  }

  lemma Low16(high: nat, low: nat)
    requires low < 0x1_0000
    ensures (high * 0x1_0000 + low) % 0x1_0000 == low
  {
  }

  lemma Low24(high: nat, low: nat)
    requires low < 0x100_0000
    ensures (high * 0x100_0000 + low) % 0x100_0000 == low
  {
  }

  lemma ShiftedNext(a: Byte, b: Byte)
    ensures Shifted([a, b]) == OrByte(Shl8(Shifted([a])), b)
  {
    assert [a, b][..1] == [a];
  }

  // The word after the first byte, shifted.
  lemma FirstShifted(a: Byte)
    ensures Shl8(Shifted([a])) == if a < 128 then (a as int) * 256 else 0xFF_0000 + (a as int) * 256
  {
    ShiftedOne(a);
    if a < 128 {
      ShiftKeepsLow(Shifted([a]), 0, a as int);
    } else {
      ShiftKeepsLow(Shifted([a]), 255, 0xFF00 + a as int);
    }
  }

  // The word after two bytes, and what a shift keeps of it.
  lemma ShiftedLow(a: Byte, b: Byte)
    requires b < 128
    ensures
      var v, low := Shifted([a, b]), (a as int) * 256 + b as int;
      v % 0x1_0000 == low && Shl8(v) == low * 256
  {
    ShiftedNext(a, b);
    FirstShifted(a);
    ShiftKeepsLow(Shifted([a, b]), if a < 128 then 0 else 255, (a as int) * 256 + b as int);
  }

  lemma ShiftedHigh(a: Byte, b: Byte)
    requires b >= 128
    ensures
      var v, low := Shifted([a, b]), 0xFF00 + b as int;
      v % 0x1_0000 == low && Shl8(v) == low * 256
  {
    ShiftedNext(a, b);
    ShiftKeepsLow(Shifted([a, b]), 255, 0xFF00 + b as int);
  }

  lemma ShiftedTwo(a: Byte, b: Byte)
    ensures Shifted([a, b]) % 0x1_0000 == Widened([a, b])[0] * 0x100 + b
    ensures Shl8(Shifted([a, b])) == GroupWord([a, b])
  {
    if b < 128 {
      ShiftedLow(a, b);
    } else {
      ShiftedHigh(a, b);
    }
  }

  lemma ShiftedThree(a: Byte, b: Byte, c: Byte)
    ensures Shifted([a, b, c]) == GroupWord([a, b, c])
  {
    ShiftedTwo(a, b);
    assert [a, b, c][..2] == [a, b];
    assert [a, b, c][3..] == [];
  }

  // The same, over s bytes of a message from position a on.
  function ShiftedFrom(m: seq<Byte>, a: nat, s: nat): Word
    requires a + s <= |m|
  {
    if s == 0 then 0 else OrByte(Shl8(ShiftedFrom(m, a, s - 1)), m[a + s - 1])
  }

  lemma {:induction false} ShiftedFromIs(m: seq<Byte>, a: nat, s: nat)
    requires a + s <= |m|
    ensures ShiftedFrom(m, a, s) == Shifted(m[a..a + s])
  {
    if s > 0 {
      ShiftedFromIs(m, a, s - 1);
      assert m[a..a + s][..s - 1] == m[a..a + (s - 1)];
    }
  }

  // A word with fewer than three bytes in it is shifted for the missing ones.
  function Aligned(v: Word, s: nat): Word {
    if s == 1 then Shl8(Shl8(v)) else if s == 2 then Shl8(v) else v
  }

  lemma AlignedOne(g: seq<Byte>)
    requires |g| == 1
    ensures Aligned(Shifted(g), 1) == GroupWord(g)
  {
    ShiftedOne(g[0]);
    assert g == [g[0]];
  }

  lemma AlignedTwo(g: seq<Byte>)
    requires |g| == 2
    ensures Aligned(Shifted(g), 2) == GroupWord(g)
  {
    ShiftedTwo(g[0], g[1]);
    assert g == [g[0], g[1]];
  }

  lemma AlignedThree(g: seq<Byte>)
    requires |g| == 3
    ensures Aligned(Shifted(g), 3) == GroupWord(g)
  {
    ShiftedThree(g[0], g[1], g[2]);
    assert g == [g[0], g[1], g[2]];
  }

  lemma AlignedIs(g: seq<Byte>)
    requires 1 <= |g| <= 3
    ensures Aligned(Shifted(g), |g|) == GroupWord(g)
  {
    match |g|
    case 1 => AlignedOne(g);
    case 2 => AlignedTwo(g);
    case _ => AlignedThree(g);
  }

  lemma GroupIsGathered(m: seq<Byte>, a: nat, s: nat)
    requires 1 <= s <= 3 && a + s <= |m|
    ensures Aligned(ShiftedFrom(m, a, s), s) == GroupWord(m[a..a + s])
  {
    ShiftedFromIs(m, a, s);
    AlignedIs(m[a..a + s]);
  }

  // The inner loop over the bytes of a group, which starts at position a.
  method Gather(message: seq<Byte>, a: nat) returns (value: Word, s: nat)
    requires a < |message|
    ensures s == if a + 3 <= |message| then 3 else |message| - a
    ensures value == GroupWord(message[a..a + s])
  {
    value := 0;
    s := 0;
    while s < 3
      invariant s <= 3 && a + s <= |message|
      invariant value == ShiftedFrom(message, a, s)
    {
      value := Shl8(value);
      if s + a < |message| {
        value := OrByte(value, message[s + a]);
      } else {
        if s == 1 {
          value := Shl8(value);
        }
        break;
      }
      s := s + 1;
    }
    GroupIsGathered(message, a, s);
  }

  function SextetOf(v: Word, b: nat): (s: Symbol)
    requires b < 4
    ensures s < 64
  {
    if b == 0 then v / 0x4_0000 else if b == 1 then v / 0x1000 % 64 else if b == 2 then v / 64 % 64 else v % 64
  }

  lemma SextetsOfWord(p: nat, q: nat, r: nat, s: nat)
    requires p < 64 && q < 64 && r < 64 && s < 64
    ensures
      var v := p * 0x4_0000 + q * 0x1000 + r * 64 + s;
      SextetOf(v, 0) == p && SextetOf(v, 1) == q && SextetOf(v, 2) == r && SextetOf(v, 3) == s
  {
    var v := p * 0x4_0000 + q * 0x1000 + r * 64 + s;
    assert v / 64 == p * 0x1000 + q * 64 + r;
    assert v / 0x1000 == p * 64 + q;
  }

  lemma SextetsOfBytes(a: Byte, b: Byte, c: Byte)
    ensures
      var v := WordOf(a, b, c);
      && SextetOf(v, 0) == a / 4 && SextetOf(v, 1) == a % 4 * 16 + b / 16
      && SextetOf(v, 2) == b % 16 * 4 + c / 64 && SextetOf(v, 3) == c % 64
  {
    var p, q, r, s := a / 4, a % 4 * 16 + b / 16, b % 16 * 4 + c / 64, c % 64;
    assert WordOf(a, b, c) == p * 0x4_0000 + q * 0x1000 + r * 64 + s;
    SextetsOfWord(p, q, r, s);
  }

  // The inner loop over the letters of a group.
  method Emit(value: Word, s: nat) returns (output: string)
    requires 1 <= s <= 3
    ensures |output| == 4
    ensures forall b :: 0 <= b < 4 ==> output[b] == Letter(if b <= s then SextetOf(value, b) else PAD)
  {
    output := "";
    for b := 0 to 4
      invariant |output| == b
      invariant forall k :: 0 <= k < b ==> output[k] == Letter(if k <= s then SextetOf(value, k) else PAD)
    {
      if b < (if s == 1 then 2 else if s == 2 then 3 else 4) {
        output := output + [Letter(SextetOf(value, b))];
      } else {
        output := output + ['='];
      }
    }
  }

  lemma GroupSymbols(g: seq<Byte>)
    requires 1 <= |g| <= 3
    ensures |Symbols(Widened(g))| == 4
    ensures forall b :: 0 <= b < 4 ==>
      Symbols(Widened(g))[b] == if b <= |g| then SextetOf(GroupWord(g), b) else PAD
  {
    var w := Widened(g);
    WidenedIsSameIff(g);
    SextetsOfBytes(w[0], if |g| > 1 then w[1] else 0, if |g| > 2 then w[2] else 0);
    if |g| == 3 {
      assert w[3..] == [];
    }
  }

  lemma GroupLetters(g: seq<Byte>, letters: string)
    requires 1 <= |g| <= 3 && |letters| == 4
    requires forall b :: 0 <= b < 4 ==> letters[b] == Letter(if b <= |g| then SextetOf(GroupWord(g), b) else PAD)
    ensures letters == Rfc(Widened(g))
  {
    GroupSymbols(g);
  }

  function From(m: seq<Byte>, a: nat): seq<Byte> {
    if a < |m| then m[a..] else []
  }

  lemma TextConcat(a: seq<Symbol>, b: seq<Symbol>)
    ensures Text(a + b) == Text(a) + Text(b)
  {
  }

  // Where the encoder stands: what it has written, and what is left.
  ghost predicate Encoding(message: seq<Byte>, a: nat, output: string) {
    output + Rfc(Widened(From(message, a))) == Rfc(Widened(message))
  }

  // One group of the outer loop.
  method EncodeGroup(message: seq<Byte>, a: nat, before: string) returns (output: string)
    requires a < |message| && Encoding(message, a, before)
    ensures Encoding(message, a + 3, output)
  {
    var value, s := Gather(message, a);
    var letters := Emit(value, s);
    ghost var g := message[a..a + s];
    GroupLetters(g, letters);
    NextGroup(message, a, s);
    TextConcat(Symbols(Widened(g)), Symbols(Widened(From(message, a + 3))));
    output := before + letters;
    Associative(before, Rfc(Widened(g)), Rfc(Widened(From(message, a + 3))));
  }

  lemma Associative(a: string, b: string, c: string)
    ensures a + (b + c) == a + b + c
  {
  }

  /**
    Encoding is that of section 4 of RFC 4648, applied to the bytes as they are widened.
  */
  method Encode(message: seq<Byte>) returns (output: string)
    ensures output == Rfc(Widened(message))
    ensures |output| == 4 * ((|message| + 2) / 3)
  {
    output := "";
    var a := 0;
    EncodingStarts(message);
    while a < |message|
      invariant Encoding(message, a, output)
    {
      output := EncodeGroup(message, a, output);
      a := a + 3;
    }
    EncodingEnds(message, a, output);
  }

  lemma EncodingStarts(message: seq<Byte>)
    ensures Encoding(message, 0, "")
  {
    assert From(message, 0) == message;
    assert "" + Rfc(Widened(message)) == Rfc(Widened(message));
  }

  lemma EncodingEnds(message: seq<Byte>, a: nat, output: string)
    requires a >= |message| && Encoding(message, a, output)
    ensures output == Rfc(Widened(message))
    ensures |output| == 4 * ((|message| + 2) / 3)
  {
    assert output + "" == output;
    WidenedIsSameIff(message);
    SymbolCount(Widened(message));
  }

  lemma NextGroup(m: seq<Byte>, a: nat, s: nat)
    requires a < |m| && s == if a + 3 <= |m| then 3 else |m| - a
    ensures Symbols(Widened(From(m, a))) == Symbols(Widened(m[a..a + s])) + Symbols(Widened(From(m, a + 3)))
  {
    var rest := m[a..];
    if s < 3 {
      assert m[a..a + s] == rest && From(m, a + 3) == [];
    } else {
      var g := m[a..a + 3];
      assert rest == g + m[a + 3..] && rest[3..] == m[a + 3..];
      assert Widened(rest) == Widened(g) + Widened(m[a + 3..]);
      assert Widened(rest)[3..] == Widened(m[a + 3..]);
      assert Widened(g)[3..] == [];
    }
  }

  /**
    The encoder meets section 4 of RFC 4648 exactly when no byte of 128 or more comes second in its
    group of three, or third, with anything but 255 before it.
  */
  lemma EncodeIsRfcIff(m: seq<Byte>)
    ensures Rfc(Widened(m)) == Rfc(m) <==> Faithful(m)
  {
    WidenedIsSameIff(m);
    if Rfc(Widened(m)) == Rfc(m) {
      TextInjective(Symbols(Widened(m)), Symbols(m));
      SymbolsInjective(Widened(m), m);
    }
  }

  /**
    So it does on every message of 7-bit characters.
  */
  lemma {:induction false} SevenBitIsFaithful(m: seq<Byte>)
    requires forall k :: 0 <= k < |m| ==> m[k] < 128
    ensures Faithful(m)
  {
    if |m| > 2 {
      SevenBitIsFaithful(m[3..]);
    }
  }

  // ----- decode -----

  // The letters that do not make decode throw: the first of the alphabet does.
  predicate Accepted(c: char) {
    c == '=' || 0 < Index(c) < 64
  }

  // They are the pad and the alphabet from B on.
  lemma AcceptedIff(c: char)
    ensures Accepted(c) <==> c == '=' || exists k :: 1 <= k < 64 && ALPHABET[k] == c
  {
    if 0 < Index(c) < 64 {
      LettersAreStandard(Index(c));
      assert ALPHABET[Index(c)] == c;
    }
    if k :| 1 <= k < 64 && ALPHABET[k] == c {
      LettersAreStandard(k);
      LetterInjective(if Index(c) < 64 then Index(c) else k, k);
    }
  }

  predicate AllAccepted(text: string) {
    forall k :: 0 <= k < |text| ==> Accepted(text[k])
  }

  function ValueOf(c: char): (v: Symbol)
    requires Accepted(c)
    ensures v < 64
  {
    if c == '=' then 0 else Index(c)
  }

  function Values(text: string): (vs: seq<Symbol>)
    requires AllAccepted(text)
    ensures |vs| == |text| && forall k :: 0 <= k < |vs| ==> vs[k] < 64
  {
    seq(|text|, k requires 0 <= k < |text| => ValueOf(text[k]))
  }

  function ThreeBytes(p: nat, q: nat, r: nat, s: nat): (bytes: seq<Byte>)
    requires p < 64 && q < 64 && r < 64 && s < 64
    ensures |bytes| == 3
  {
    [p * 4 + q / 16, q % 16 * 16 + r / 4, r % 4 * 64 + s]
  }

  function GroupBytes(g: seq<Symbol>): seq<Byte> {
    if |g| == 4 && Sextets(g) then ThreeBytes(g[0], g[1], g[2], g[3]) else []
  }

  // The bytes of each group of four, one after the other; what is left over at the end is dropped.
  function EachGroup(f: seq<Symbol> -> seq<Byte>, vs: seq<Symbol>): seq<Byte> {
    if |vs| < 4 then [] else f(vs[..4]) + EachGroup(f, vs[4..])
  }

  function BytesOf(vs: seq<Symbol>): seq<Byte> {
    EachGroup(GroupBytes, vs)
  }

  lemma {:induction false} EachGroupConcat(f: seq<Symbol> -> seq<Byte>, a: seq<Symbol>, b: seq<Symbol>)
    requires |a| % 4 == 0
    ensures EachGroup(f, a + b) == EachGroup(f, a) + EachGroup(f, b)
    decreases |a|
  {
    if a == [] {
      assert a + b == b;
    } else {
      EachGroupConcat(f, a[4..], b);
      FirstGroup(a, b);
      SameBytes(f(a[..4]), EachGroup(f, a[4..]), EachGroup(f, b));
    }
  }

  lemma FirstGroup(a: seq<Symbol>, b: seq<Symbol>)
    requires |a| >= 4
    ensures (a + b)[..4] == a[..4] && (a + b)[4..] == a[4..] + b
  {
  }

  lemma SameBytes(a: seq<Byte>, b: seq<Byte>, c: seq<Byte>)
    ensures a + (b + c) == a + b + c
  {
  }

  lemma BytesOfConcat(a: seq<Symbol>, b: seq<Symbol>)
    requires |a| % 4 == 0
    ensures BytesOf(a + b) == BytesOf(a) + BytesOf(b)
  {
    EachGroupConcat(GroupBytes, a, b);
  }

  lemma BytesOfOne(g: seq<Symbol>)
    requires |g| == 4 && Sextets(g)
    ensures BytesOf(g) == ThreeBytes(g[0], g[1], g[2], g[3])
  {
    assert g[..4] == g;
    assert EachGroup(GroupBytes, g[4..]) == [];
  }

  // Up to the last character that is not NUL.
  function Stripped(bytes: seq<Byte>): seq<Byte> {
    if bytes == [] || bytes[|bytes| - 1] != 0 then bytes else Stripped(bytes[..|bytes| - 1])
  }

  function Decoded(text: string): Result {
    if AllAccepted(text) then Ok(Stripped(BytesOf(Values(text)))) else OutOfRange
  }

  // bitset<24>::operator<<=, six at a time.
  function Shl6(v: Word): Word {
    v * 64 % 0x100_0000
  }

  // The sextets of a group so far, shifted in.
  function Pending(vs: seq<Symbol>): Word
    requires |vs| <= 4 && Sextets(vs)
  {
    if |vs| == 0 then 0
    else if |vs| == 1 then vs[0]
    else if |vs| == 2 then (vs[0] as int) * 64 + vs[1]
    else if |vs| == 3 then (vs[0] as int) * 0x1000 + (vs[1] as int) * 64 + vs[2]
    else (vs[0] as int) * 0x4_0000 + (vs[1] as int) * 0x1000 + (vs[2] as int) * 64 + vs[3]
  }

  function ByteOf(v: Word, a: nat): Byte
    requires a < 3
  {
    if a == 0 then v / 0x1_0000 else if a == 1 then v / 0x100 % 256 else v % 256
  }

  lemma BytesOfThree(a: Byte, b: Byte, c: Byte)
    ensures
      var v := WordOf(a, b, c);
      ByteOf(v, 0) == a && ByteOf(v, 1) == b && ByteOf(v, 2) == c
  {
    assert WordOf(a, b, c) / 0x100 == (a as int) * 0x100 + b;
  }

  lemma BytesOfWord(p: nat, q: nat, r: nat, s: nat)
    requires p < 64 && q < 64 && r < 64 && s < 64
    ensures
      var v: Word := p * 0x4_0000 + q * 0x1000 + r * 64 + s;
      [ByteOf(v, 0), ByteOf(v, 1), ByteOf(v, 2)] == ThreeBytes(p, q, r, s)
  {
    var a, b, c := p * 4 + q / 16, q % 16 * 16 + r / 4, r % 4 * 64 + s;
    Regrouped(p, q / 16, q % 16, r / 4, r % 4, s);
    BytesOfThree(a, b, c);
  }

  lemma Regrouped(p: nat, q1: nat, q0: nat, r1: nat, r0: nat, s: nat)
    ensures p * 0x4_0000 + (q1 * 16 + q0) * 0x1000 + (r1 * 4 + r0) * 64 + s
         == (p * 4 + q1) * 0x1_0000 + (q0 * 16 + r1) * 0x100 + (r0 * 64 + s)
  {
  }

  // The inner loop over the bytes of a group.
  method EmitBytes(value: Word, ghost group: seq<Symbol>) returns (bytes: seq<Byte>)
    requires |group| == 4 && Sextets(group) && value == Pending(group)
    ensures bytes == BytesOf(group)
  {
    bytes := [];
    for a := 0 to 3
      invariant |bytes| == a && forall k :: 0 <= k < a ==> bytes[k] == ByteOf(value, k)
    {
      bytes := bytes + [ByteOf(value, a)];
    }
    BytesOfWord(group[0], group[1], group[2], group[3]);
    BytesOfOne(group);
    assert bytes == [ByteOf(value, 0), ByteOf(value, 1), ByteOf(value, 2)];
  }

  ghost predicate Reads(text: string, vs: seq<Symbol>) {
    AllAccepted(text) && Values(text) == vs
  }

  // Where the decoder stands: whole groups written, and some sextets shifted in.
  ghost predicate Standing(whole: seq<Symbol>, group: seq<Symbol>, value: Word, output: seq<Byte>) {
    && Sextets(whole) && |whole| % 4 == 0 && output == BytesOf(whole)
    && Sextets(group) && |group| < 4 && value == Pending(group)
  }

  // What the loop does with a letter it knows; the fourth of a group writes its bytes.
  method DecodeLetter(index: Symbol, value: Word, shifts: nat, output: seq<Byte>, ghost group: seq<Symbol>)
    returns (value': Word, shifts': nat, output': seq<Byte>)
    requires Sextets(group) && shifts == |group| < 4 && value == Pending(group) && index < 64
    ensures shifts < 3 ==> value' == Pending(group + [index]) && shifts' == shifts + 1 && output' == output
    ensures shifts == 3 ==> value' == 0 && shifts' == 0 && output' == output + BytesOf(group + [index])
  {
    PendingNext(group, index);
    output' := output;
    value' := Shl6(value);
    value' := value' + index;
    shifts' := shifts + 1;
    if shifts' == 4 {
      var bytes := EmitBytes(value', group + [index]);
      output' := output' + bytes;
      value' := 0;
      shifts' := 0;
    }
  }

  ghost predicate ReadTo(message: string, i: nat, whole: seq<Symbol>, group: seq<Symbol>, value: Word, shifts: nat,
                         output: seq<Byte>)
  {
    i <= |message| && Reads(message[..i], whole + group) && shifts == |group| && Standing(whole, group, value, output)
  }

  // One turn of the loop for a letter it knows.
  method DecodeTurn(message: string, i: nat, value: Word, shifts: nat, output: seq<Byte>,
                    ghost whole: seq<Symbol>, ghost group: seq<Symbol>)
    returns (value': Word, shifts': nat, output': seq<Byte>, ghost whole': seq<Symbol>, ghost group': seq<Symbol>)
    requires i < |message| && Accepted(message[i]) && ReadTo(message, i, whole, group, value, shifts, output)
    ensures ReadTo(message, i + 1, whole', group', value', shifts', output')
    ensures shifts' == if shifts == 3 then 0 else shifts + 1
  {
    var letter := message[i];
    var index := Index(letter);
    if letter == '=' {
      index := 0;
    }
    ReadsNext(message, i, whole + group, index);
    value', shifts', output' := DecodeLetter(index, value, shifts, output, group);
    whole', group' := GroupsNext(whole, group, index);
  }

  method Decode(message: string) returns (result: Result)
    ensures result == Decoded(message)
  {
    var output: seq<Byte> := [];
    var value: Word := 0;
    var shifts := 0;
    ghost var whole: seq<Symbol>, group: seq<Symbol> := [], [];
    for i := 0 to |message|
      invariant ReadTo(message, i, whole, group, value, shifts, output)
    {
      var index := Index(message[i]);
      if !(index > 0 && index < 64) && message[i] != '=' {
        assert !Accepted(message[i]);
        return OutOfRange;
      }
      value, shifts, output, whole, group := DecodeTurn(message, i, value, shifts, output, whole, group);
    }
    AllRead(message, whole, group, value, shifts, output);
    return Ok(Stripped(output));
  }

  lemma AllRead(message: string, whole: seq<Symbol>, group: seq<Symbol>, value: Word, shifts: nat, output: seq<Byte>)
    requires ReadTo(message, |message|, whole, group, value, shifts, output)
    ensures Decoded(message) == Ok(Stripped(output))
  {
    assert message[..|message|] == message;
    BytesOfConcat(whole, group);
    assert output + [] == output;
  }

  // Another sextet is the next of its group, or completes it.
  lemma GroupsNext(whole: seq<Symbol>, group: seq<Symbol>, index: Symbol)
    returns (whole': seq<Symbol>, group': seq<Symbol>)
    requires Sextets(whole) && |whole| % 4 == 0 && Sextets(group) && |group| < 4 && index < 64
    ensures whole' + group' == whole + group + [index]
    ensures Sextets(whole') && |whole'| % 4 == 0 && Sextets(group')
    ensures |group| < 3 ==> whole' == whole && group' == group + [index]
    ensures |group| == 3 ==> group' == [] && BytesOf(whole') == BytesOf(whole) + BytesOf(group + [index])
  {
    if |group| < 3 {
      whole', group' := whole, group + [index];
    } else {
      GroupDone(whole, group + [index]);
      whole', group' := whole + (group + [index]), [];
    }
  }

  lemma GroupDone(whole: seq<Symbol>, g: seq<Symbol>)
    requires Sextets(whole) && |whole| % 4 == 0 && Sextets(g) && |g| == 4
    ensures Sextets(whole + g) && |whole + g| % 4 == 0 && BytesOf(whole + g) == BytesOf(whole) + BytesOf(g)
  {
    BytesOfConcat(whole, g);
  }

  lemma PendingNext(group: seq<Symbol>, index: Symbol)
    requires |group| < 4 && Sextets(group) && index < 64
    ensures Shl6(Pending(group)) + index == Pending(group + [index])
  {
  }

  lemma ReadsNext(message: string, i: nat, vs: seq<Symbol>, index: Symbol)
    requires i < |message| && Reads(message[..i], vs)
    requires Accepted(message[i]) && index == ValueOf(message[i])
    ensures Reads(message[..i + 1], vs + [index])
  {
    assert message[..i + 1] == message[..i] + [message[i]];
  }

  // ----- round trip -----

  function Unpadded(ss: seq<Symbol>): (vs: seq<Symbol>)
    ensures |vs| == |ss| && Sextets(vs)
  {
    seq(|ss|, k requires 0 <= k < |ss| => if ss[k] == PAD then 0 else ss[k])
  }

  lemma ValuesOfText(ss: seq<Symbol>)
    ensures AllAccepted(Text(ss)) <==> 0 !in ss
    ensures 0 !in ss ==> Values(Text(ss)) == Unpadded(ss)
  {
    forall k | 0 <= k < |ss|
      ensures Accepted(Text(ss)[k]) <==> ss[k] != 0
      ensures ss[k] != 0 ==> ValueOf(Text(ss)[k]) == Unpadded(ss)[k]
    {
      AcceptedLetter(ss[k]);
    }
  }

  lemma AcceptedLetter(s: Symbol)
    ensures Accepted(Letter(s)) <==> s != 0
    ensures s != 0 ==> ValueOf(Letter(s)) == if s == PAD then 0 else s
  {
  }

  function Zeros(n: nat): seq<Byte> {
    seq(n, _ => 0)
  }

  lemma {:induction false} StripZeros(m: seq<Byte>, n: nat)
    requires m == [] || m[|m| - 1] != 0
    ensures Stripped(m + Zeros(n)) == m
  {
    if n == 0 {
      assert m + Zeros(0) == m;
    } else {
      assert (m + Zeros(n))[..|m| + n - 1] == m + Zeros(n - 1);
      StripZeros(m, n - 1);
    }
  }

  lemma By16(x: nat, r: nat)
    requires r < 16
    ensures (x * 16 + r) / 16 == x && (x * 16 + r) % 16 == r
  {
  }

  lemma By4(x: nat, r: nat)
    requires r < 4
    ensures (x * 4 + r) / 4 == x && (x * 4 + r) % 4 == r
  {
  }

  lemma QuadIsBytes(a: Byte, b: Byte, c: Byte)
    ensures ThreeBytes(a / 4, a % 4 * 16 + b / 16, b % 16 * 4 + c / 64, c % 64) == [a, b, c]
  {
    By16(a % 4, b / 16);
    By4(b % 16, c / 64);
  }

  lemma GroupHolds(g: seq<Symbol>, p: nat, q: nat, r: nat, s: nat)
    requires p < 64 && q < 64 && r < 64 && s < 64 && g == [p, q, r, s]
    ensures BytesOf(g) == ThreeBytes(p, q, r, s)
  {
    BytesOfOne(g);
  }

  lemma QuadBytes(a: Byte, b: Byte, c: Byte)
    ensures BytesOf(Quad(a, b, c)) == [a, b, c]
  {
    QuadIsBytes(a, b, c);
    GroupHolds(Quad(a, b, c), a / 4, a % 4 * 16 + b / 16, b % 16 * 4 + c / 64, c % 64);
  }

  lemma UnpaddedConcat(a: seq<Symbol>, b: seq<Symbol>)
    requires Sextets(a)
    ensures Unpadded(a + b) == a + Unpadded(b)
  {
  }

  // A pad stands for a sextet of the zeros behind a message.
  lemma PadsAreZero(a: Byte, b: Byte)
    ensures Unpadded(Symbols([a])) == Quad(a, 0, 0)
    ensures Unpadded(Symbols([a, b])) == Quad(a, b, 0)
  {
  }

  // The sextets of the standard encoding are the bytes again, with a zero for every pad.
  lemma {:induction false} BytesOfSymbols(m: seq<Byte>) returns (n: nat)
    ensures BytesOf(Unpadded(Symbols(m))) == m + Zeros(n)
  {
    if m == [] {
      n := 0;
    } else if |m| == 1 {
      n := 2;
      assert m == [m[0]];
      PadsAreZero(m[0], 0);
      QuadBytes(m[0], 0, 0);
    } else if |m| == 2 {
      n := 1;
      assert m == [m[0], m[1]];
      PadsAreZero(m[0], m[1]);
      QuadBytes(m[0], m[1], 0);
    } else {
      n := BytesOfSymbols(m[3..]);
      QuadBytes(m[0], m[1], m[2]);
      UnpaddedConcat(Quad(m[0], m[1], m[2]), Symbols(m[3..]));
      BytesOfConcat(Quad(m[0], m[1], m[2]), Unpadded(Symbols(m[3..])));
      assert m == [m[0], m[1], m[2]] + m[3..];
    }
  }

  // When no sextet is zero, neither is the last byte.
  lemma {:induction false} LastIsNotZero(m: seq<Byte>)
    requires 0 !in Symbols(m) && m != []
    ensures m[|m| - 1] != 0
  {
    var ss := Symbols(m);
    if |m| > 3 {
      assert ss[4..] == Symbols(m[3..]);
      assert forall k :: 0 <= k < |ss[4..]| ==> ss[4..][k] in ss;
      LastIsNotZero(m[3..]);
    } else {
      assert ss[|m|] in ss;
    }
  }

  lemma DecodedRfc(m: seq<Byte>)
    ensures Decoded(Rfc(m)) == if 0 in Symbols(m) then OutOfRange else Ok(m)
  {
    ValuesOfText(Symbols(m));
    if 0 !in Symbols(m) {
      var n := BytesOfSymbols(m);
      if m != [] {
        LastIsNotZero(m);
      }
      StripZeros(m, n);
    }
  }

  /**
    Decoding what was encoded gives the message back exactly when the encoder overwrote nothing and no
    sextet of the message is zero; the second also rules out a NUL at the end, which would be stripped.
  */
  lemma RoundTripIff(m: seq<Byte>)
    ensures Decoded(Rfc(Widened(m))) == Ok(m) <==> Faithful(m) && 0 !in Symbols(m)
  {
    WidenedIsSameIff(m);
    DecodedRfc(Widened(m));
  }
}
