/** Short codes for ids: base 32 over a fixed alphabet, padded behind a divider. */
module IdCode {
  import opened Options

  const MAX_INT64 := 0x7FFF_FFFF_FFFF_FFFF

  newtype int64 = x: int | -MAX_INT64 - 1 <= x <= MAX_INT64

  const ALPHABET := "5dfucyar1j2txwgs8mvp4qhb3n6k7ez9"
  const DIVIDER := 'i'

  // ----- The alphabet -----

  /** The first position of a character, or -1. */
  function IndexIn(s: string, c: char): (k: int)
    ensures -1 <= k < |s|
    ensures k == -1 <==> c !in s
    ensures k >= 0 ==> s[k] == c
  {
    if s == [] then -1
    else if s[0] == c then 0
    else
      var k := IndexIn(s[1..], c);
      if k == -1 then -1 else k + 1
  }

  /** The digit a character stands for, or -1. */
  function DigitOf(c: char): (d: int)
    ensures -1 <= d < 32
  {
    assert |ALPHABET| == 32;
    IndexIn(ALPHABET, c)
  }

  function CharOf(digit: nat): char
    requires digit < 32
  {
    assert |ALPHABET| == 32;
    ALPHABET[digit]
  }

  lemma AlphabetIsDistinct()
    ensures |ALPHABET| == 32 && DIVIDER !in ALPHABET
    ensures forall i, j :: 0 <= i < j < 32 ==> ALPHABET[i] != ALPHABET[j]
  {
  }

  /** The characters of the alphabet are the digits, each its own; the divider is none of them. */
  lemma DigitsAndChars(digit: nat, c: char)
    requires digit < 32
    ensures DigitOf(CharOf(digit)) == digit
    ensures DigitOf(c) == -1 <==> c !in ALPHABET
    ensures DigitOf(c) != -1 ==> CharOf(DigitOf(c)) == c
    ensures DigitOf(DIVIDER) == -1
  {
    AlphabetIsDistinct();
    var j := IndexIn(ALPHABET, ALPHABET[digit]);
    assert ALPHABET[j] == ALPHABET[digit];
  }

  // ----- Reading a number off a code -----

  predicate InAlphabet(s: string) {
    forall i :: 0 <= i < |s| ==> DigitOf(s[i]) != -1
  }

  /** The number written in base 32, most significant digit first. */
  function Value(s: string): int {
    if s == [] then 0 else Value(s[..|s|-1]) * 32 + DigitOf(s[|s|-1])
  }

  /** What comes before the first divider. */
  function Body(code: string): (b: string)
    ensures |b| <= |code| && b == code[..|b|]
    ensures 'i' !in b && (|b| < |code| ==> code[|b|] == 'i')
  {
    if code == [] || code[0] == DIVIDER then [] else [code[0]] + Body(code[1..])
  }

  lemma {:induction false} BodyOfJoined(s: string, rest: string)
    requires DIVIDER !in s && (rest == [] || rest[0] == DIVIDER)
    ensures Body(s + rest) == s
  {
    if s == [] {
      assert s + rest == rest;
    } else {
      assert (s + rest)[1..] == s[1..] + rest;
      BodyOfJoined(s[1..], rest);
    }
  }

  /** A longer prefix is never worth less. */
  lemma {:induction false} ValueGrows(s: string, k: nat)
    requires k <= |s| && InAlphabet(s)
    ensures 0 <= Value(s[..k]) <= Value(s)
  {
    hide DigitOf;
    var n := |s|;
    if n == 0 {
    } else {
      var init := s[..n-1];
      if k < n {
        assert init[..k] == s[..k];
        ValueGrows(init, k);
      } else {
        assert s[..k] == s;
        ValueGrows(init, n - 1);
        assert init[..n-1] == init;
      }
    }
  }

  // ----- Writing a number -----

  function Written(id: nat): string {
    if id < 32 then [CharOf(id)] else Written(id / 32) + [CharOf(id % 32)]
  }

  lemma {:induction false} WrittenReadsBack(id: nat)
    ensures Value(Written(id)) == id && InAlphabet(Written(id)) && DIVIDER !in Written(id) && Written(id) != []
  {
    hide DigitOf;
    hide CharOf;
    DigitsAndChars(id % 32, DIVIDER);
    if id < 32 {
      assert Written(id)[..0] == [];
    } else {
      WrittenReadsBack(id / 32);
      assert Written(id)[..|Written(id)|-1] == Written(id / 32);
    }
  }

  /** The first codes, and the first of two characters. */
  lemma FirstCodes(id: nat)
    requires id < 32
    ensures Written(id) == ["5dfucyar1j2txwgs8mvp4qhb3n6k7ez9"[id]] && Written(32) == "d5"
  {
    assert Written(1) == ['d'];
  }

  function Pow32(n: nat): nat {
    if n == 0 then 1 else 32 * Pow32(n - 1)
  }

  /** As many characters as the number has digits. */
  lemma {:induction false} WrittenLength(id: nat)
    ensures var n := |Written(id)|;
            1 <= n && id < Pow32(n) && (n > 1 ==> Pow32(n - 1) <= id)
  {
    hide CharOf;
    if id < 32 {
    } else {
      WrittenLength(id / 32);
      var n := |Written(id)|;
      assert n > 2 ==> Pow32(n - 1) == 32 * Pow32(n - 2);
    }
  }

  // ----- The two functions -----

  /** A code for the id: its digits, and if that is too short the divider and filling characters up
      to the length asked for. */
  predicate IsCodeOf(code: string, id: nat, minLength: int) {
    && Body(code) == Written(id)
    && |code| == (if minLength > |Written(id)| then minLength else |Written(id)|)
    && InAlphabet(if |Written(id)| < |code| then code[|Written(id)| + 1..] else [])
  }

  /** No code belongs to two ids, whatever lengths were asked for and whatever filled them. */
  lemma CodesNeverCollide(code: string, id0: nat, minLength0: int, id1: nat, minLength1: int)
    ensures IsCodeOf(code, id0, minLength0) && IsCodeOf(code, id1, minLength1) ==> id0 == id1
  {
    hide DigitOf;
    hide CharOf;
    WrittenReadsBack(id0);
    WrittenReadsBack(id1);
  }

  method ReverseStr(s: string) returns (r: string)
    ensures |r| == |s| && forall k :: 0 <= k < |s| ==> r[k] == s[|s| - 1 - k]
  {
    var runes := new char[|s|](k requires 0 <= k < |s| => s[k]);
    var i, j := 0, |s| - 1;
    while i < j
      invariant 0 <= i && j == |s| - 1 - i && i <= j + 1
      invariant forall k :: 0 <= k < i ==> runes[k] == s[|s| - 1 - k] && runes[|s| - 1 - k] == s[k]
      invariant forall k :: i <= k <= j ==> runes[k] == s[k]
    {
      runes[i], runes[j] := runes[j], runes[i];
      i, j := i + 1, j - 1;
    }
    return runes[..];
  }

  /** Writes the digits backwards, least significant first. */
  function Backwards(s: string): string {
    if s == [] then [] else [s[|s|-1]] + Backwards(s[..|s|-1])
  }

  lemma {:induction false} BackwardsAt(s: string)
    ensures |Backwards(s)| == |s| && forall k :: 0 <= k < |s| ==> Backwards(s)[k] == s[|s| - 1 - k]
  {
    if s == [] {
    } else {
      BackwardsAt(s[..|s|-1]);
    }
  }

  method WriteDigits(id: int64) returns (code: string)
    requires id >= 0
    ensures code == Written(id as int)
  {
    hide CharOf;
    var sb := "";
    var n := id;
    while n / 32 > 0
      invariant 0 <= n && Written(id as int) == Written(n as int) + Backwards(sb)
      decreases n
    {
      var c := CharOf((n % 32) as nat);
      assert (sb + [c])[..|sb|] == sb;
      assert Written(n as int) == Written(n as int / 32) + [c];
      sb := sb + [c];
      n := n / 32;
    }
    var last := CharOf((n % 32) as nat);
    assert (sb + [last])[..|sb|] == sb;
    sb := sb + [last];
    BackwardsAt(sb);
    code := ReverseStr(sb);
    assert code == Backwards(sb);
  }

  /** `rand` stands for the random positions drawn to fill the code. */
  method Id2Code(id: int64, minLength: int, rand: nat -> nat) returns (r: Result<string, ()>)
    requires forall k :: rand(k) < 32
    ensures r.Err? <==> id < 0
    ensures r.Ok? ==> IsCodeOf(r.value, id as int, minLength)
  {
    hide DigitOf;
    hide CharOf;
    if id < 0 {
      return Err(());
    }
    var code := WriteDigits(id);
    WrittenReadsBack(id as int);
    var fixLen := minLength - |code|;
    if fixLen > 0 {
      var sb := code + [DIVIDER];
      ghost var fill: string := [];
      for i := 0 to fixLen - 1
        invariant |fill| == i && InAlphabet(fill) && sb == code + ([DIVIDER] + fill)
      {
        DigitsAndChars(rand(i), DIVIDER);
        var c := CharOf(rand(i));
        assert code + ([DIVIDER] + fill) + [c] == code + ([DIVIDER] + (fill + [c]));
        sb := sb + [c];
        fill := fill + [c];
      }
      BodyOfJoined(code, [DIVIDER] + fill);
      assert sb[|code| + 1..] == fill;
      return Ok(sb);
    }
    BodyOfJoined(code, []);
    assert code + [] == code;
    return Ok(code);
  }

  datatype DecodeError = EmptyCode | BadChar | Overflow(position: nat)

  /** The code is good up to `k`. */
  predicate GoodUpTo(code: string, k: nat) {
    k <= |Body(code)| && InAlphabet(Body(code)[..k]) && Value(Body(code)[..k]) <= MAX_INT64
  }

  /** Succeeds exactly when there is a code, everything before the divider is in the alphabet and the
      number fits, and gives that number; otherwise reports what first goes wrong. The arithmetic
      never leaves the 64-bit range. */
  method Code2Id(code: string) returns (r: Result<int64, DecodeError>)
    ensures r.Ok? <==> code != "" && InAlphabet(Body(code)) && Value(Body(code)) <= MAX_INT64
    ensures r.Ok? ==> r.value as int == Value(Body(code))
    ensures r == Err(EmptyCode) <==> code == ""
    ensures r == Err(BadChar) ==> exists k :: 0 <= k < |Body(code)| && GoodUpTo(code, k) && DigitOf(Body(code)[k]) == -1
    ensures r.Err? && r.error.Overflow? ==>
              var k := r.error.position;
              && k < |Body(code)| && GoodUpTo(code, k)
              && InAlphabet(Body(code)[..k+1]) && Value(Body(code)[..k+1]) > MAX_INT64
  {
    hide InAlphabet;
    hide Value;
    hide DigitOf;
    if code == "" {
      return Err(EmptyCode);
    }
    ghost var body := Body(code);
    var id: int64 := 0;
    var i := 0;
    NothingRead(body);
    while i < |code|
      invariant 0 <= i <= |body|
      invariant InAlphabet(body[..i]) && id as int == Value(body[..i]) && id >= 0
    {
      if code[i] == DIVIDER {
        break;
      }
      ReadNext(body, i);
      var charIdx := DigitOf(code[i]);
      if charIdx == -1 {
        return Err(BadChar);
      }
      var charIndex := charIdx as int64;
      if i > 0 {
        if id > (0x7FFF_FFFF_FFFF_FFFF - charIndex) / 32 {
          OverflowSeen(body, i);
          return Err(Overflow(i));
        }
        id := id * 32 + charIndex;
      } else {
        id := charIndex;
      }
      i := i + 1;
    }
    assert body[..i] == body;
    return Ok(id);
  }

  lemma NothingRead(body: string)
    ensures InAlphabet(body[..0]) && Value(body[..0]) == 0
  {
  }

  /** One more character read. */
  lemma ReadNext(body: string, i: nat)
    requires i < |body| && InAlphabet(body[..i])
    ensures Value(body[..i+1]) == Value(body[..i]) * 32 + DigitOf(body[i])
    ensures InAlphabet(body[..i+1]) <==> DigitOf(body[i]) != -1
    ensures i == 0 ==> Value(body[..i]) == 0
    ensures DigitOf(body[i]) == -1 ==> !InAlphabet(body)
  {
    hide DigitOf;
    assert body[..i+1] == body[..i] + [body[i]];
    assert body[..i+1][..i] == body[..i];
  }

  /** A prefix that is too great already decides the matter. */
  lemma OverflowSeen(body: string, k: nat)
    requires k < |body|
    ensures InAlphabet(body[..k+1]) && Value(body[..k+1]) > MAX_INT64 ==>
              !(InAlphabet(body) && Value(body) <= MAX_INT64)
  {
    hide DigitOf;
    if InAlphabet(body) {
      ValueGrows(body, k + 1);
    }
  }

  /** Decoding gives back the id for every id that is not negative, every length asked for and every
      filling. */
  method RoundTrip(id: int64, minLength: int, rand: nat -> nat) returns (r: Result<int64, DecodeError>)
    requires id >= 0 && forall k :: rand(k) < 32
    ensures r == Ok(id)
  {
    var code := Id2Code(id, minLength, rand);
    WrittenReadsBack(id as int);
    r := Code2Id(code.value);
  }
}
