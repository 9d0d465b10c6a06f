/**
  Four-part versions: reading them from text, printing them, and comparing them.
*/
module Version {
  import opened Decimal

  const U32: nat := 0x1_0000_0000

  type Value32 = n: nat | n < U32

  // Undefined stands for a conversion from a double that an unsigned int cannot hold.
  datatype Outcome<+T> = Ok(value: T) | Undefined {
    predicate IsFailure() {
      Undefined?
    }

    function PropagateFailure<U>(): Outcome<U>
      requires IsFailure()
    {
      Undefined
    }

    function Extract(): T
      requires !IsFailure()
    {
      value
    }
  }

  // ----- from_string -----

  function Pow10(n: nat): (p: nat)
    ensures p >= 1
  {
    if n == 0 then 1 else 10 * Pow10(n - 1)
  }

  // What the digit at position k adds.
  function Term(digits: string, k: nat): nat
    requires AllDigits(digits) && k < |digits|
  {
    DigitValue(digits[k]) * Pow10(|digits| - 1 - k)
  }

  // The terms from position k on.
  function PowerSum(digits: string, k: nat): nat
    requires AllDigits(digits) && k <= |digits|
    decreases |digits| - k
  {
    if k == |digits| then 0 else Term(digits, k) + PowerSum(digits, k + 1)
  }

  lemma {:induction false} PowerSumIsValue(digits: string, k: nat)
    requires AllDigits(digits) && k <= |digits|
    ensures Value(digits) == Value(digits[..k]) * Pow10(|digits| - k) + PowerSum(digits, k)
    decreases |digits| - k
  {
    if k == |digits| {
      assert digits[..k] == digits;
    } else {
      PowerSumIsValue(digits, k + 1);
      assert digits[..k + 1] == digits[..k] + [digits[k]];
      ValueNext(digits[..k], digits[k]);
      Distribute(Value(digits[..k]), DigitValue(digits[k]), Pow10(|digits| - k - 1));
    }
  }

  lemma Distribute(v: nat, d: nat, p: nat)
    ensures (v * 10 + d) * p == v * (10 * p) + d * p
  {
  }

  // Every term fits an unsigned int.
  predicate TermsFit(digits: string)
    requires AllDigits(digits)
  {
    forall k :: 0 <= k < |digits| ==> Term(digits, k) < U32
  }

  lemma {:induction false} TermsAreLess(digits: string, j: nat, k: nat)
    requires AllDigits(digits) && j <= k < |digits|
    ensures Term(digits, k) <= PowerSum(digits, j)
    decreases k - j
  {
    if j < k {
      TermsAreLess(digits, j + 1, k);
    }
  }

  function Digits(text: string): (d: string)
    ensures AllDigits(d)
  {
    text[..DigitRun(text)]
  }

  // What from_string adds to a zero.
  function Converted(text: string): Outcome<Value32> {
    if TermsFit(Digits(text)) then Ok(Value(Digits(text)) % U32) else Undefined
  }

  // The first loop: where the digits end.
  method ScanDigits(text: string, start: nat) returns (a: nat)
    requires start <= |text|
    ensures a == start + DigitRun(text[start..])
  {
    a := start;
    while a < |text|
      invariant start <= a <= |text| && forall k :: start <= k < a ==> IsDigit(text[k])
    {
      if !('0' <= text[a] <= '9') {
        break;
      }
      a := a + 1;
    }
    DigitRunIs(text[start..a], text[a..]);
    assert text[start..a] + text[a..] == text[start..];
  }

  // The second loop: from the right, one power of ten at a time.
  method SumPowers(text: string, count: nat) returns (r: Outcome<Value32>)
    requires count <= |text| && AllDigits(text[..count])
    ensures r == if TermsFit(text[..count]) then Ok(PowerSum(text[..count], 0) % U32) else Undefined
  {
    ghost var digits := text[..count];
    var value: Value32 := 0;
    var a := count - 1;
    var max := a;
    while a > -1
      invariant -1 <= a <= max
      invariant value == PowerSum(digits, a + 1) % U32
      invariant forall k :: a < k <= max ==> Term(digits, k) < U32
    {
      assert digits[a] == text[a];
      var term := DigitValue(text[a]) * Pow10(max - a);
      assert term == Term(digits, a);
      if term >= U32 {
        return Undefined;
      }
      AddModulo(PowerSum(digits, a + 1), term);
      value := (value + term) % U32;
      a := a - 1;
    }
    return Ok(value);
  }

  lemma AddModulo(a: nat, b: nat)
    ensures (a % U32 + b) % U32 == (b + a) % U32
  {
  }

  method FromString(text: string) returns (r: Outcome<Value32>)
    ensures r == Converted(text)
  {
    if |text| == 0 {
      NothingIsZero();
      return Ok(0);
    }
    assert text[0..] == text;
    var count := ScanDigits(text, 0);
    SumIsValue(text[..count]);
    r := SumPowers(text, count);
  }

  lemma SumIsValue(digits: string)
    requires AllDigits(digits)
    ensures PowerSum(digits, 0) == Value(digits)
  {
    PowerSumIsValue(digits, 0);
    assert digits[..0] == "";
  }

  lemma NothingIsZero()
    ensures Converted("") == Ok(0)
  {
    assert Digits("") == "";
  }

  lemma SmallValuesFit(digits: string)
    requires AllDigits(digits) && Value(digits) < U32
    ensures TermsFit(digits)
  {
    SumIsValue(digits);
    forall k | 0 <= k < |digits|
      ensures Term(digits, k) < U32
    {
      TermsAreLess(digits, 0, k);
    }
  }

  /**
    from_string reads the decimal value of the longest digit prefix exactly when that is below 2^32;
    otherwise it wraps, or is undefined.
  */
  lemma ConversionIsRightIff(text: string)
    ensures Converted(text) == Ok(Value(Digits(text))) <==> Value(Digits(text)) < U32
  {
    if Value(Digits(text)) < U32 {
      SmallValuesFit(Digits(text));
    }
  }

  // ----- from_string for a signed type of 32 bits -----

  const I32: int := 0x8000_0000

  predicate IsNegative(text: string) {
    text != "" && text[0] == '-'
  }

  // The digits behind the sign.
  function Magnitude(text: string): (d: string)
    ensures AllDigits(d)
  {
    Digits(if IsNegative(text) then text[1..] else text)
  }

  function WithSign(text: string, magnitude: int): int {
    if IsNegative(text) then -magnitude else magnitude
  }

  function SignedValue(text: string): int {
    WithSign(text, Value(Magnitude(text)))
  }

  // No sum from the right overflows.
  predicate SumsFit(digits: string)
    requires AllDigits(digits)
  {
    FitFrom(digits, 0)
  }

  predicate FitFrom(digits: string, j: nat)
    requires AllDigits(digits)
  {
    forall k :: j <= k < |digits| ==> PowerSum(digits, k) < I32
  }

  lemma AreDigits(text: string, start: nat, count: nat)
    requires start <= count <= |text| && AllDigits(text[start..count])
    ensures forall k :: start <= k < count ==> IsDigit(text[k])
  {
    forall k | start <= k < count ensures IsDigit(text[k]) {
      assert text[start..count][k - start] == text[k];
    }
  }

  function SignedConverted(text: string): Outcome<int> {
    if SumsFit(Magnitude(text)) then Ok(SignedValue(text)) else Undefined
  }

  // The second loop, which meets the sign last.
  method SumSigned(text: string, start: nat, count: nat) returns (r: Outcome<int>)
    requires start <= count <= |text| && AllDigits(text[start..count])
    requires start == if IsNegative(text) then 1 else 0
    ensures
      var digits := text[start..count];
      r == if SumsFit(digits) then Ok(WithSign(text, PowerSum(digits, 0))) else Undefined
  {
    AreDigits(text, start, count);
    ghost var digits := text[start..count];
    var value: int := 0;
    var a := count - 1;
    var max := a;
    while a > -1
      invariant -1 <= a <= max
      invariant a >= start - 1 ==> value == PowerSum(digits, a + 1 - start) && FitFrom(digits, a + 1 - start)
      invariant a < start - 1 ==> value + PowerSum(digits, 0) == 0 && FitFrom(digits, 0)
    {
      if text[a] == '-' {
        value := -value;
        a := a - 1;
        continue;
      }
      assert digits[a - start] == text[a];
      var term := DigitValue(text[a]) * Pow10(max - a);
      assert term == Term(digits, a - start);
      if value + term >= I32 {
        assert PowerSum(digits, a - start) >= I32;
        return Undefined;
      }
      value := value + term;
      a := a - 1;
    }
    return Ok(value);
  }

  method SignedFromString(text: string) returns (r: Outcome<int>)
    ensures r == SignedConverted(text)
  {
    if |text| == 0 {
      assert Magnitude("") == "";
      return Ok(0);
    }
    var start := if text[0] == '-' then 1 else 0;
    assert text[0..] == text;
    var count := ScanDigits(text, start);
    assert text[start..count] == Magnitude(text);
    SumIsValue(text[start..count]);
    r := SumSigned(text, start, count);
  }

  lemma {:induction false} SumsFall(digits: string, k: nat)
    requires AllDigits(digits) && k <= |digits|
    ensures PowerSum(digits, k) <= PowerSum(digits, 0)
  {
    if k > 0 {
      SumsFall(digits, k - 1);
    }
  }

  /**
    The signed conversion reads the value of the sign and the digits behind it exactly when an int
    holds that value and it is not the least one, whose digits overflow before the sign is met.
  */
  lemma SignedConversionIsRightIff(text: string)
    ensures SignedConverted(text) == Ok(SignedValue(text)) <==> -I32 < SignedValue(text) < I32
  {
    var digits := Magnitude(text);
    SumIsValue(digits);
    forall k | 0 <= k < |digits| ensures PowerSum(digits, k) <= Value(digits) {
      SumsFall(digits, k);
    }
  }

  // ----- the string constructor -----

  datatype Version = Version(major: Value32, minor: Value32, build: Value32, revision: Value32)

  function FindDot(text: string): (i: nat)
    ensures i <= |text| && '.' !in text[..i] && (i < |text| ==> text[i] == '.')
  {
    if text == "" || text[0] == '.' then 0
    else
      var i := 1 + FindDot(text[1..]);
      assert text[..i] == [text[0]] + text[1..][..i - 1];
      i
  }

  // What is before the first dot, and what is after it.
  function Head(text: string): string {
    text[..FindDot(text)]
  }

  function Tail(text: string): string {
    if FindDot(text) == |text| then "" else text[FindDot(text) + 1..]
  }

  // The first four pieces between dots, missing ones empty; what follows a fourth dot is not looked at.
  function Parsed(text: string): Outcome<Version> {
    var major :- Converted(Head(text));
    var minor :- Converted(Head(Tail(text)));
    var build :- Converted(Head(Tail(Tail(text))));
    var revision :- Converted(Head(Tail(Tail(Tail(text)))));
    Ok(Version(major, minor, build, revision))
  }

  // Without a dot the text is one piece, and those behind it are missing.
  lemma LastPiece(text: string)
    requires FindDot(text) == |text|
    ensures Head(text) == text && Tail(text) == "" && Head("") == "" && Tail("") == "" && Converted("") == Ok(0)
  {
    NothingIsZero();
  }

  lemma NextPiece(text: string)
    requires FindDot(text) < |text|
    ensures Head(text) == text[..FindDot(text)] && Tail(text) == text[FindDot(text) + 1..]
  {
  }

  method FromText(input: string) returns (r: Outcome<Version>)
    ensures r == Parsed(input)
  {
    hide Converted, Head, Tail;
    var text := input;
    var major, minor, build, revision: Value32 := 0, 0, 0, 0;

    var dotPos := FindDot(text);
    if dotPos == |text| {
      LastPiece(text);
      major :- FromString(text);
      return Ok(Version(major, minor, build, revision));
    }
    NextPiece(text);
    major :- FromString(text[..dotPos]);
    text := text[dotPos + 1..];

    dotPos := FindDot(text);
    if dotPos == |text| {
      LastPiece(text);
      minor :- FromString(text);
      return Ok(Version(major, minor, build, revision));
    }
    NextPiece(text);
    minor :- FromString(text[..dotPos]);
    text := text[dotPos + 1..];

    dotPos := FindDot(text);
    if dotPos == |text| {
      LastPiece(text);
      build :- FromString(text);
      return Ok(Version(major, minor, build, revision));
    }
    NextPiece(text);
    build :- FromString(text[..dotPos]);
    text := text[dotPos + 1..];

    dotPos := FindDot(text);
    if dotPos == |text| {
      LastPiece(text);
      revision :- FromString(text);
      return Ok(Version(major, minor, build, revision));
    }
    NextPiece(text);
    revision :- FromString(text[..dotPos]);
    return Ok(Version(major, minor, build, revision));
  }

  // ----- printing -----

  // operator std::string.
  function ToText(v: Version): string {
    Print(v.major) + ("." + (Print(v.minor) + ("." + (Print(v.build) + ("." + Print(v.revision))))))
  }

  lemma {:induction false} FirstDot(digits: string, rest: string)
    requires AllDigits(digits) && (rest == "" || rest[0] == '.')
    ensures FindDot(digits + rest) == |digits|
  {
    if digits == "" {
      assert digits + rest == rest;
    } else {
      assert (digits + rest)[1..] == digits[1..] + rest;
      FirstDot(digits[1..], rest);
    }
  }

  lemma PrintedPiece(n: Value32, rest: string)
    ensures Head(Print(n) + ("." + rest)) == Print(n) && Tail(Print(n) + ("." + rest)) == rest
    ensures Head(Print(n)) == Print(n)
    ensures Converted(Print(n)) == Ok(n)
  {
    PrintIsDecimal(n);
    PieceInFront(Print(n), rest);
    PrintedConverts(n);
  }

  lemma PieceInFront(digits: string, rest: string)
    requires AllDigits(digits)
    ensures Head(digits + ("." + rest)) == digits && Tail(digits + ("." + rest)) == rest && Head(digits) == digits
  {
    FirstDot(digits, "." + rest);
    FirstDot(digits, "");
    assert digits + "" == digits;
  }

  lemma PrintedConverts(n: Value32)
    ensures Converted(Print(n)) == Ok(n)
  {
    PrintIsDecimal(n);
    DigitRunIs(Print(n), "");
    assert Print(n) + "" == Print(n);
    assert Digits(Print(n)) == Print(n);
    ConversionIsRightIff(Print(n));
  }

  // Numbers with dots between them.
  function Dotted(parts: seq<Value32>): string
    requires parts != []
  {
    Print(parts[0]) + if |parts| == 1 then "" else "." + Dotted(parts[1..])
  }

  lemma DottedPiece(parts: seq<Value32>)
    requires parts != []
    ensures Head(Dotted(parts)) == Print(parts[0]) && Converted(Print(parts[0])) == Ok(parts[0])
    ensures Tail(Dotted(parts)) == if |parts| == 1 then "" else Dotted(parts[1..])
  {
    hide Head, Tail, Converted;
    if |parts| == 1 {
      PrintedPiece(parts[0], "");
      PrintedHasNoDot(parts[0]);
      assert Dotted(parts) == Print(parts[0]);
    } else {
      PrintedPiece(parts[0], Dotted(parts[1..]));
    }
  }

  lemma PrintedHasNoDot(n: Value32)
    ensures Tail(Print(n)) == ""
  {
    PrintIsDecimal(n);
    FirstDot(Print(n), "");
    assert Print(n) + "" == Print(n);
  }

  // The part at a place, from zero; a missing one is zero.
  function PartAt(parts: seq<Value32>, i: nat): Value32 {
    if i < |parts| then parts[i] else 0
  }

  lemma {:induction false} PartsRead(parts: seq<Value32>)
    ensures
      var text := if parts == [] then "" else Dotted(parts);
      && Converted(Head(text)) == Ok(PartAt(parts, 0))
      && Tail(text) == (if |parts| <= 1 then "" else Dotted(parts[1..]))
  {
    hide Head, Tail, Converted;
    if parts == [] {
      EmptyPiece();
    } else {
      DottedPiece(parts);
    }
  }

  lemma EmptyPiece()
    ensures Head("") == "" && Tail("") == "" && Converted("") == Ok(0)
  {
    NothingIsZero();
  }

  /**
    Any numbers printed with dots between them read back as the version of the first four, the missing
    ones zero, whatever follows a fourth dot.
  */
  lemma DottedNumbersReadBack(parts: seq<Value32>)
    requires parts != []
    ensures Parsed(Dotted(parts)) == Ok(Version(PartAt(parts, 0), PartAt(parts, 1), PartAt(parts, 2), PartAt(parts, 3)))
  {
    hide Head, Tail, Converted, Dotted;
    var p1 := parts[1..];
    var p2 := if p1 == [] then [] else p1[1..];
    var p3 := if p2 == [] then [] else p2[1..];
    PartsRead(parts);
    PartsRead(p1);
    PartsRead(p2);
    PartsRead(p3);
  }

  /**
    Printing any version and reading the text back gives the version.
  */
  lemma PrintedVersionReadsBack(v: Version)
    ensures Parsed(ToText(v)) == Ok(v)
  {
    var parts: seq<Value32> := [v.major, v.minor, v.build, v.revision];
    DottedFour(v);
    DottedNumbersReadBack(parts);
  }

  lemma DottedNext(first: Value32, rest: seq<Value32>)
    ensures Dotted([first] + rest) == Print(first) + if rest == [] then "" else "." + Dotted(rest)
  {
    assert ([first] + rest)[1..] == rest;
  }

  lemma DottedFour(v: Version)
    ensures Dotted([v.major, v.minor, v.build, v.revision]) == ToText(v)
  {
    hide Print, Dotted;
    DottedNext(v.revision, []);
    DottedNext(v.build, [v.revision]);
    DottedNext(v.minor, [v.build, v.revision]);
    DottedNext(v.major, [v.minor, v.build, v.revision]);
    assert Print(v.revision) + "" == Print(v.revision);
    assert [v.revision] + [] == [v.revision] && [v.build] + [v.revision] == [v.build, v.revision];
    assert [v.minor] + [v.build, v.revision] == [v.minor, v.build, v.revision];
    assert [v.major] + [v.minor, v.build, v.revision] == [v.major, v.minor, v.build, v.revision];
  }

  // ----- comparing -----

  datatype Ordering = Less | Equal | Greater

  function CompareValues(a: Value32, b: Value32): Ordering {
    if a < b then Less else if a == b then Equal else Greater
  }

  // operator<=>.
  function Compare(a: Version, b: Version): Ordering {
    if CompareValues(a.major, b.major) != Equal then CompareValues(a.major, b.major)
    else if CompareValues(a.minor, b.minor) != Equal then CompareValues(a.minor, b.minor)
    else if CompareValues(a.build, b.build) != Equal then CompareValues(a.build, b.build)
    else CompareValues(a.revision, b.revision)
  }

  // The four parts as the digits of one number.
  function Rank(v: Version): nat {
    ((v.major * U32 + v.minor) * U32 + v.build) * U32 + v.revision
  }

  lemma DigitsCompare(a: nat, b: nat, x: Value32, y: Value32)
    ensures a < b ==> a * U32 + x < b * U32 + y
    ensures a == b ==> (a * U32 + x < b * U32 + y <==> x < y)
  {
  }

  /**
    Versions compare as the numbers that their parts are the digits of; so the order is total, and two
    versions are equal in it only when they are the same.
  */
  lemma CompareIsByRank(a: Version, b: Version)
    ensures Compare(a, b) == Less <==> Rank(a) < Rank(b)
    ensures Compare(a, b) == Greater <==> Rank(a) > Rank(b)
    ensures Compare(a, b) == Equal <==> a == b
  {
    var a2, b2 := a.major * U32 + a.minor, b.major * U32 + b.minor;
    var a3, b3 := a2 * U32 + a.build, b2 * U32 + b.build;
    DigitsCompare(a.major, b.major, a.minor, b.minor);
    DigitsCompare(b.major, a.major, b.minor, a.minor);
    DigitsCompare(a2, b2, a.build, b.build);
    DigitsCompare(b2, a2, b.build, a.build);
    DigitsCompare(a3, b3, a.revision, b.revision);
    DigitsCompare(b3, a3, b.revision, a.revision);
  }
}
