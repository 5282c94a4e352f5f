/**
 The Base64 tool of xmlParser.cpp (section 4 of RFC 4648, with optional line
 breaks): what `decode` and `decodeSize` make of what `encode` produces.
 Strings are sequences of character codes that end with 0.
 */
module Base64Spec {
  import opened DivMod

  type Byte = x: int | 0 <= x < 256
  type Sextet = x: int | 0 <= x < 64

  const FILL: Byte := 61      // '='
  const NEWLINE: Byte := 10

  /** base64EncodeTable */
  function Symbol(v: Sextet): Byte {
    if v < 26 then 65 + v else if v < 52 then 97 + (v - 26) else if v < 62 then 48 + (v - 52) else if v == 62 then 43 else 47
  }

  datatype Class = Value(v: Sextet) | Fill | Space | Illegal | End

  /** base64DecodeTable */
  function Classify(c: Byte): Class {
    if 65 <= c <= 90 then Value(c - 65)
    else if 97 <= c <= 122 then Value(c - 97 + 26)
    else if 48 <= c <= 57 then Value(c - 48 + 52)
    else if c == 43 then Value(62)
    else if c == 47 then Value(63)
    else if c == 61 then Fill
    else if c == 9 || c == 10 || c == 13 || c == 32 then Space
    else if c == 0 then End
    else Illegal
  }

  lemma SymbolClass(v: Sextet)
    ensures Classify(Symbol(v)) == Value(v)
  {
  }

  // Encoding

  function Group3(a: Byte, b: Byte, c: Byte): seq<Byte> {
    var j := a * 65536 + b * 256 + c;
    [Symbol(j / 262144), Symbol(j / 4096 % 64), Symbol(j / 64 % 64), Symbol(j % 64)]
  }

  function Group2(a: Byte, b: Byte): seq<Byte> {
    var j := a * 256 + b;
    [Symbol(j / 1024), Symbol(j / 16 % 64), Symbol(j * 4 % 64), FILL]
  }

  function Group1(a: Byte): seq<Byte> { [Symbol(a / 4), Symbol(a * 16 % 64), FILL, FILL] }

  /** The line break after a group, when k groups are missing to a full line. */
  function Break(k: nat, formatted: bool): seq<Byte> { if formatted && k == 0 then [NEWLINE] else [] }

  function NextK(k: nat, formatted: bool): nat { if !formatted then k else if k == 0 then 17 else k - 1 }

  function Encoded(bytes: seq<Byte>, k: nat, formatted: bool): seq<Byte>
    decreases |bytes|
  {
    if |bytes| >= 3 then
      Group3(bytes[0], bytes[1], bytes[2]) + Break(k, formatted) + Encoded(bytes[3..], NextK(k, formatted), formatted)
    else if |bytes| == 2 then Group2(bytes[0], bytes[1])
    else if |bytes| == 1 then Group1(bytes[0])
    else []
  }

  /** `encodeLength`; C++ divides -1 by 3 to 0. */
  function EncodeLength(n: nat, formatted: bool): nat {
    (if n == 0 then 0 else (n - 1) / 3 * 4) + 4 + 1 + if formatted then n / 54 else 0
  }

  lemma {:induction false} EncodedLength(bytes: seq<Byte>, k: nat, formatted: bool)
    requires k <= 17
    ensures |Encoded(bytes, k, formatted)| == (|bytes| + 2) / 3 * 4 + if formatted then (|bytes| / 3 + 17 - k) / 18 else 0
    decreases |bytes|
  {
    if |bytes| >= 3 {
      var n := |bytes| - 3;
      EncodedLength(bytes[3..], NextK(k, formatted), formatted);
      assert (|bytes| + 2) / 3 == (n + 2) / 3 + 1 && |bytes| / 3 == n / 3 + 1;
    }
  }

  /** `encode` writes as many characters as `encodeLength` says, the line breaks and the final 0 included;
      only for no bytes at all it writes fewer. */
  lemma LengthIsExact(bytes: seq<Byte>, formatted: bool)
    ensures |Encoded(bytes, 17, formatted)| + 1 <= EncodeLength(|bytes|, formatted)
    ensures |Encoded(bytes, 17, formatted)| + 1 == EncodeLength(|bytes|, formatted) <==> bytes != []
  {
    EncodedLength(bytes, 17, formatted);
    assert |bytes| / 3 / 18 == |bytes| / 54;
  }

  // Decoding

  datatype Error = NoError | TruncatedData | IllegalCharacter | BufferTooSmall | SizeNotMultipleOf4

  /** What `decode` returns: its code, the bytes written and the error. */
  datatype Decoded = Decoded(code: nat, bytes: seq<Byte>, error: Error)

  /** A string in memory: characters other than 0, and 0 at its end. */
  predicate IsString(data: seq<Byte>) {
    data != [] && data[|data| - 1] == 0 && forall i :: 0 <= i < |data| - 1 ==> data[i] != 0
  }

  /** The next character that is not a space, and what follows it. */
  function Next(data: seq<Byte>): (r: (Class, seq<Byte>))
    ensures !r.0.Space? && (r.0.Value? ==> |r.1| < |data|)
    decreases |data|
  {
    if data == [] then (End, [])
    else if Classify(data[0]).Space? then Next(data[1..])
    else (Classify(data[0]), data[1..])
  }

  function Fail(error: Error): Decoded {
    Decoded(if error.IllegalCharacter? || error.BufferTooSmall? then 0 else 1, [], error)
  }

  const DONE: Decoded := Decoded(2, [], NoError)

  function With(b: Byte, d: Decoded): Decoded { d.(bytes := [b] + d.bytes) }

  /** `decode` of what is left of the string into the room that is left. */
  function Decode(data: seq<Byte>, room: nat): Decoded
    decreases |data|, 3
  {
    var (c, rest) := Next(data);
    match c
    case Illegal => Fail(IllegalCharacter)
    case End => DONE
    case Fill => if room == 0 then DONE else Fail(TruncatedData)
    case Value(v) => Decode2(v, rest, room)
  }

  function Decode2(c: Sextet, data: seq<Byte>, room: nat): Decoded
    decreases |data|, 2
  {
    var (d, rest) := Next(data);
    match d
    case Illegal => Fail(IllegalCharacter)
    case End => Fail(TruncatedData)
    case Fill => Fail(TruncatedData)
    case Value(v) =>
      if room == 0 then Fail(BufferTooSmall) else With(c * 4 + v / 16, Decode3(v, rest, room - 1))
  }

  function Decode3(d: Sextet, data: seq<Byte>, room: nat): Decoded
    decreases |data|, 1
  {
    var (c, rest) := Next(data);
    match c
    case Illegal => Fail(IllegalCharacter)
    case End => Fail(TruncatedData)
    case Fill => if room == 0 then DONE else Fail(TruncatedData)
    case Value(v) =>
      if room == 0 then Fail(BufferTooSmall) else With(d % 16 * 16 + v / 4, Decode4(v, rest, room - 1))
  }

  function Decode4(c: Sextet, data: seq<Byte>, room: nat): Decoded
    decreases |data|, 0
  {
    var (d, rest) := Next(data);
    match d
    case Illegal => Fail(IllegalCharacter)
    case End => Fail(TruncatedData)
    case Fill => if room == 0 then DONE else Fail(TruncatedData)
    case Value(v) =>
      if room == 0 then Fail(BufferTooSmall) else With(c % 4 * 64 + v, Decode(rest, room - 1))
  }

  // The round trip

  /** The sextets of three bytes. */
  lemma Bits3(a: Byte, b: Byte, c: Byte)
    ensures var j := a * 65536 + b * 256 + c;
            j / 262144 == a / 4 && j / 4096 % 64 == a % 4 * 16 + b / 16 && j / 64 % 64 == b % 16 * 4 + c / 64 && j % 64 == c % 64
  {
    var j := a * 65536 + b * 256 + c;
    Unique(j, 262144, a / 4, a % 4 * 65536 + b * 256 + c);
    Unique(j, 4096, a * 16 + b / 16, b % 16 * 256 + c);
    Unique(a * 16 + b / 16, 64, a / 4, a % 4 * 16 + b / 16);
    Unique(j, 64, a * 1024 + b * 4 + c / 64, c % 64);
    Unique(a * 1024 + b * 4 + c / 64, 64, a * 16 + b / 16, b % 16 * 4 + c / 64);
  }

  lemma Bits2(a: Byte, b: Byte)
    ensures var j := a * 256 + b;
            j / 1024 == a / 4 && j / 16 % 64 == a % 4 * 16 + b / 16 && j * 4 % 64 == b % 16 * 4
  {
    var j := a * 256 + b;
    Unique(j, 1024, a / 4, a % 4 * 256 + b);
    Unique(j, 16, a * 16 + b / 16, b % 16);
    Unique(a * 16 + b / 16, 64, a / 4, a % 4 * 16 + b / 16);
    Unique(j * 4, 64, a * 16 + b / 16, b % 16 * 4);
  }

  lemma Bits1(a: Byte)
    ensures a * 16 % 64 == a % 4 * 16
  {
  }

  lemma NextSymbol(v: Sextet, rest: seq<Byte>)
    ensures Next([Symbol(v)] + rest) == (Value(v), rest)
  {
    SymbolClass(v);
    assert ([Symbol(v)] + rest)[1..] == rest;
  }

  lemma NextFill(rest: seq<Byte>)
    ensures Next([FILL] + rest) == (Fill, rest)
  {
    assert ([FILL] + rest)[1..] == rest;
  }

  lemma DecodeBreak(k: nat, formatted: bool, rest: seq<Byte>, room: nat)
    ensures Decode(Break(k, formatted) + rest, room) == Decode(rest, room)
  {
    if Break(k, formatted) == [] {
      assert Break(k, formatted) + rest == rest;
    } else {
      assert ([NEWLINE] + rest)[1..] == rest;
    }
  }

  lemma Read1(s: Sextet, rest: seq<Byte>, room: nat)
    ensures Decode([Symbol(s)] + rest, room) == Decode2(s, rest, room)
  {
    NextSymbol(s, rest);
  }

  lemma Read2(c: Sextet, s: Sextet, rest: seq<Byte>, room: nat)
    requires room > 0
    ensures Decode2(c, [Symbol(s)] + rest, room) == With(c * 4 + s / 16, Decode3(s, rest, room - 1))
  {
    NextSymbol(s, rest);
  }

  lemma Read3(c: Sextet, s: Sextet, rest: seq<Byte>, room: nat)
    requires room > 0
    ensures Decode3(c, [Symbol(s)] + rest, room) == With(c % 16 * 16 + s / 4, Decode4(s, rest, room - 1))
  {
    NextSymbol(s, rest);
  }

  lemma Read4(c: Sextet, s: Sextet, rest: seq<Byte>, room: nat)
    requires room > 0
    ensures Decode4(c, [Symbol(s)] + rest, room) == With(c % 4 * 64 + s, Decode(rest, room - 1))
  {
    NextSymbol(s, rest);
  }

  /** A fill character where no byte is missing ends the decoding. */
  lemma ReadFill(c: Sextet, rest: seq<Byte>)
    ensures Decode3(c, [FILL] + rest, 0) == DONE && Decode4(c, [FILL] + rest, 0) == DONE
  {
    NextFill(rest);
  }

  lemma DecodeLastTwo(s2: Sextet, s3: Sextet, s4: Sextet, rest: seq<Byte>, room: nat)
    requires room >= 2
    ensures var data := [Symbol(s3), Symbol(s4)] + rest;
            Decode3(s2, data, room) == With(s2 % 16 * 16 + s3 / 4, With(s3 % 4 * 64 + s4, Decode(rest, room - 2)))
  {
    Read4(s3, s4, rest, room - 1);
    Read3(s2, s3, [Symbol(s4)] + rest, room);
    assert [Symbol(s3), Symbol(s4)] + rest == [Symbol(s3)] + ([Symbol(s4)] + rest);
  }

  lemma DecodeFirstTwo(s1: Sextet, s2: Sextet, rest: seq<Byte>, room: nat)
    requires room >= 1
    ensures var data := [Symbol(s1), Symbol(s2)] + rest;
            Decode(data, room) == With(s1 * 4 + s2 / 16, Decode3(s2, rest, room - 1))
  {
    Read2(s1, s2, rest, room);
    Read1(s1, [Symbol(s2)] + rest, room);
    assert [Symbol(s1), Symbol(s2)] + rest == [Symbol(s1)] + ([Symbol(s2)] + rest);
  }

  lemma DecodeFour(s1: Sextet, s2: Sextet, s3: Sextet, s4: Sextet, rest: seq<Byte>, room: nat)
    requires room >= 3
    ensures var data := [Symbol(s1), Symbol(s2), Symbol(s3), Symbol(s4)] + rest;
            Decode(data, room) ==
              With(s1 * 4 + s2 / 16, With(s2 % 16 * 16 + s3 / 4, With(s3 % 4 * 64 + s4, Decode(rest, room - 3))))
  {
    var last := [Symbol(s3), Symbol(s4)] + rest;
    DecodeLastTwo(s2, s3, s4, rest, room - 1);
    DecodeFirstTwo(s1, s2, last, room);
    assert [Symbol(s1), Symbol(s2), Symbol(s3), Symbol(s4)] + rest == [Symbol(s1), Symbol(s2)] + last;
  }

  lemma ThirdFilled(s2: Sextet, s3: Sextet, rest: seq<Byte>)
    ensures Decode3(s2, [Symbol(s3), FILL] + rest, 1) == With(s2 % 16 * 16 + s3 / 4, DONE)
  {
    ReadFill(s3, rest);
    Read3(s2, s3, [FILL] + rest, 1);
    assert [Symbol(s3), FILL] + rest == [Symbol(s3)] + ([FILL] + rest);
  }

  lemma DecodeThree(s1: Sextet, s2: Sextet, s3: Sextet, rest: seq<Byte>)
    ensures Decode([Symbol(s1), Symbol(s2), Symbol(s3), FILL] + rest, 2) ==
            With(s1 * 4 + s2 / 16, With(s2 % 16 * 16 + s3 / 4, DONE))
  {
    var last := [Symbol(s3), FILL] + rest;
    ThirdFilled(s2, s3, rest);
    DecodeFirstTwo(s1, s2, last, 2);
    assert [Symbol(s1), Symbol(s2), Symbol(s3), FILL] + rest == [Symbol(s1), Symbol(s2)] + last;
  }

  lemma BothFilled(s2: Sextet, rest: seq<Byte>)
    ensures Decode3(s2, [FILL, FILL] + rest, 0) == DONE
  {
    ReadFill(s2, [FILL] + rest);
    assert [FILL, FILL] + rest == [FILL] + ([FILL] + rest);
  }

  lemma DecodeTwo(s1: Sextet, s2: Sextet, rest: seq<Byte>)
    ensures Decode([Symbol(s1), Symbol(s2), FILL, FILL] + rest, 1) == With(s1 * 4 + s2 / 16, DONE)
  {
    var last := [FILL, FILL] + rest;
    BothFilled(s2, rest);
    DecodeFirstTwo(s1, s2, last, 1);
    assert [Symbol(s1), Symbol(s2), FILL, FILL] + rest == [Symbol(s1), Symbol(s2)] + last;
  }

  /** The bytes of four sextets. */
  lemma Back(a: Byte, b: Byte, c: Byte)
    ensures a / 4 * 4 + (a % 4 * 16 + b / 16) / 16 == a
    ensures (a % 4 * 16 + b / 16) % 16 * 16 + (b % 16 * 4 + c / 64) / 4 == b
    ensures (b % 16 * 4 + c / 64) % 4 * 64 + c % 64 == c
  {
    Unique(a % 4 * 16 + b / 16, 16, a % 4, b / 16);
    Unique(b % 16 * 4 + c / 64, 4, b % 16, c / 64);
  }

  lemma DecodeGroup3(a: Byte, b: Byte, c: Byte, rest: seq<Byte>, room: nat)
    requires room >= 3
    ensures Decode(Group3(a, b, c) + rest, room) == With(a, With(b, With(c, Decode(rest, room - 3))))
  {
    var s1: Sextet, s2: Sextet, s3: Sextet, s4: Sextet := a / 4, a % 4 * 16 + b / 16, b % 16 * 4 + c / 64, c % 64;
    Bits3(a, b, c);
    Back(a, b, c);
    assert Group3(a, b, c) == [Symbol(s1), Symbol(s2), Symbol(s3), Symbol(s4)];
    DecodeFour(s1, s2, s3, s4, rest, room);
  }

  lemma DecodeGroup2(a: Byte, b: Byte, rest: seq<Byte>)
    ensures Decode(Group2(a, b) + rest, 2) == With(a, With(b, DONE))
  {
    var s1: Sextet, s2: Sextet, s3: Sextet := a / 4, a % 4 * 16 + b / 16, b % 16 * 4;
    Bits2(a, b);
    Back(a, b, 0);
    assert Group2(a, b) == [Symbol(s1), Symbol(s2), Symbol(s3), FILL];
    DecodeThree(s1, s2, s3, rest);
  }

  lemma DecodeGroup1(a: Byte, rest: seq<Byte>)
    ensures Decode(Group1(a) + rest, 1) == With(a, DONE)
  {
    var s1: Sextet, s2: Sextet := a / 4, a % 4 * 16;
    Bits1(a);
    Back(a, 0, 0);
    assert Group1(a) == [Symbol(s1), Symbol(s2), FILL, FILL];
    DecodeTwo(s1, s2, rest);
  }

  lemma WithThree(bytes: seq<Byte>)
    requires |bytes| >= 3
    ensures With(bytes[0], With(bytes[1], With(bytes[2], Decoded(2, bytes[3..], NoError)))) == Decoded(2, bytes, NoError)
  {
    assert bytes == [bytes[0]] + ([bytes[1]] + ([bytes[2]] + bytes[3..]));
  }

  lemma DecodeFullGroup(bytes: seq<Byte>, k: nat, formatted: bool, rest: seq<Byte>)
    requires |bytes| >= 3 && Decode(rest, |bytes| - 3) == Decoded(2, bytes[3..], NoError)
    ensures Decode(Group3(bytes[0], bytes[1], bytes[2]) + (Break(k, formatted) + rest), |bytes|) == Decoded(2, bytes, NoError)
  {
    DecodeBreak(k, formatted, rest, |bytes| - 3);
    DecodeGroup3(bytes[0], bytes[1], bytes[2], Break(k, formatted) + rest, |bytes|);
    WithThree(bytes);
  }

  lemma DecodeTwoBytes(bytes: seq<Byte>, nul: seq<Byte>)
    requires |bytes| == 2
    ensures Decode(Group2(bytes[0], bytes[1]) + nul, 2) == Decoded(2, bytes, NoError)
  {
    DecodeGroup2(bytes[0], bytes[1], nul);
    assert bytes == [bytes[0]] + ([bytes[1]] + []);
  }

  lemma DecodeOneByte(bytes: seq<Byte>, nul: seq<Byte>)
    requires |bytes| == 1
    ensures Decode(Group1(bytes[0]) + nul, 1) == Decoded(2, bytes, NoError)
  {
    DecodeGroup1(bytes[0], nul);
    assert bytes == [bytes[0]] + [];
  }

  lemma {:induction false} DecodeBefore(bytes: seq<Byte>, k: nat, formatted: bool, nul: seq<Byte>)
    requires Next(nul).0.End?
    ensures Decode(Encoded(bytes, k, formatted) + nul, |bytes|) == Decoded(2, bytes, NoError)
    decreases |bytes|
  {
    if |bytes| >= 3 {
      var group := Group3(bytes[0], bytes[1], bytes[2]);
      var later := Encoded(bytes[3..], NextK(k, formatted), formatted);
      DecodeBefore(bytes[3..], NextK(k, formatted), formatted, nul);
      DecodeFullGroup(bytes, k, formatted, later + nul);
      Regroup(group, Break(k, formatted), later, nul);
    } else if |bytes| == 2 {
      DecodeTwoBytes(bytes, nul);
    } else if |bytes| == 1 {
      DecodeOneByte(bytes, nul);
    } else {
      assert Encoded(bytes, k, formatted) + nul == nul;
    }
  }

  /** Decoding what was encoded, into a buffer of the right size, gives it back without an error. */
  lemma DecodeEncoded(bytes: seq<Byte>, formatted: bool)
    ensures Decode(Encoded(bytes, 17, formatted) + [0], |bytes|) == Decoded(2, bytes, NoError)
  {
    DecodeBefore(bytes, 17, formatted, [0]);
  }

  lemma Regroup<T>(a: seq<T>, b: seq<T>, c: seq<T>, d: seq<T>)
    ensures a + b + c + d == a + (b + (c + d)) && a + b + c == a + (b + c)
  {
  }

  // The size

  /** What `decodeSize` does: the size and the error, or a read before the beginning of the string. */
  datatype SizeResult = Size(size: nat, error: Error) | OutOfBounds

  function CountSymbols(data: seq<Byte>): nat {
    if data == [] then 0
    else (if Classify(data[0]).Value? || Classify(data[0]).Fill? then 1 else 0) + CountSymbols(data[1..])
  }

  predicate Legal(data: seq<Byte>) { forall i :: 0 <= i < |data| ==> !Classify(data[i]).Illegal? && data[i] != 0 }

  /** The fill characters at the end. */
  function Trailing(data: seq<Byte>): nat {
    if data == [] || data[|data| - 1] != FILL then 0 else 1 + Trailing(data[..|data| - 1])
  }

  /** `text` is the string without the 0 at its end. */
  function DecodeSize(text: seq<Byte>): SizeResult {
    if !Legal(text) then Size(0, IllegalCharacter)
    else
      var error := if CountSymbols(text) % 4 != 0 then SizeNotMultipleOf4 else NoError;
      if CountSymbols(text) == 0 then Size(0, error)
      else if Trailing(text) == |text| then OutOfBounds
      else
        TrailingBounds(text);
        Size((CountSymbols(text) - Trailing(text)) * 3 / 4, error)
  }

  lemma {:induction false} CountConcat(a: seq<Byte>, b: seq<Byte>)
    ensures CountSymbols(a + b) == CountSymbols(a) + CountSymbols(b)
  {
    if a == [] {
      assert a + b == b;
    } else {
      CountConcat(a[1..], b);
      assert (a + b)[1..] == a[1..] + b;
    }
  }

  lemma {:induction false} TrailingBounds(data: seq<Byte>)
    ensures Trailing(data) <= CountSymbols(data) && Trailing(data) <= |data|
    ensures Trailing(data) == |data| <==> forall i :: 0 <= i < |data| ==> data[i] == FILL
  {
    if data != [] && data[|data| - 1] == FILL {
      var most := data[..|data| - 1];
      TrailingBounds(most);
      assert data == most + [FILL];
      CountConcat(most, [FILL]);
    }
  }

  /** `decodeSize` reads before the beginning exactly when the string consists of fill characters. */
  lemma OutOfBoundsExactly(text: seq<Byte>)
    ensures DecodeSize(text).OutOfBounds? <==> text != [] && forall i :: 0 <= i < |text| ==> text[i] == FILL
  {
    TrailingBounds(text);
    if forall i :: 0 <= i < |text| ==> text[i] == FILL {
      assert Legal(text);
    }
  }

  // The size of what was encoded

  lemma GroupSymbols(a: Byte, b: Byte, c: Byte)
    ensures Legal(Group3(a, b, c)) && CountSymbols(Group3(a, b, c)) == 4 && Group3(a, b, c)[3] != FILL
  {
    var j := a * 65536 + b * 256 + c;
    FourSymbols(Symbol(j / 262144), Symbol(j / 4096 % 64), Symbol(j / 64 % 64), Symbol(j % 64));
  }

  predicate Counts(x: Byte) { Classify(x).Value? || Classify(x).Fill? }

  lemma OneSymbol(x: Byte, rest: seq<Byte>)
    requires Counts(x) && Legal(rest)
    ensures Legal([x] + rest) && CountSymbols([x] + rest) == 1 + CountSymbols(rest)
  {
    assert ([x] + rest)[1..] == rest;
  }

  lemma FourSymbols(a: Byte, b: Byte, c: Byte, d: Byte)
    requires Counts(a) && Counts(b) && Counts(c) && Counts(d)
    ensures Legal([a, b, c, d]) && CountSymbols([a, b, c, d]) == 4
  {
    OneSymbol(d, []);
    OneSymbol(c, [d]);
    OneSymbol(b, [c, d]);
    OneSymbol(a, [b, c, d]);
    assert [d] + [] == [d] && [c] + [d] == [c, d] && [b] + [c, d] == [b, c, d] && [a] + [b, c, d] == [a, b, c, d];
  }

  lemma LastGroup(bytes: seq<Byte>)
    requires |bytes| == 1 || |bytes| == 2
    ensures var g := if |bytes| == 2 then Group2(bytes[0], bytes[1]) else Group1(bytes[0]);
            Legal(g) && CountSymbols(g) == 4 && Trailing(g) == 3 - |bytes|
  {
    var g := if |bytes| == 2 then Group2(bytes[0], bytes[1]) else Group1(bytes[0]);
    SymbolCounts(g[0], g[1], g[2], g[3], bytes);
    FourSymbols(g[0], g[1], g[2], g[3]);
    assert g == [g[0], g[1], g[2], g[3]];
    assert g[..3] == [g[0], g[1], g[2]] && g[..3][..2] == [g[0], g[1]];
    assert Trailing([g[0], g[1]]) == 0;
  }

  lemma SymbolCounts(a: Byte, b: Byte, c: Byte, d: Byte, bytes: seq<Byte>)
    requires |bytes| == 1 || |bytes| == 2
    requires [a, b, c, d] == if |bytes| == 2 then Group2(bytes[0], bytes[1]) else Group1(bytes[0])
    ensures Counts(a) && Counts(b) && Counts(c) && Counts(d) && b != FILL && d == FILL
    ensures if |bytes| == 2 then c != FILL else c == FILL
  {
    var g := [a, b, c, d];
    assert g[0] == a && g[1] == b && g[2] == c && g[3] == d;
  }

  lemma {:induction false} TrailingConcat(x: seq<Byte>, y: seq<Byte>)
    requires Trailing(y) < |y|
    ensures Trailing(x + y) == Trailing(y)
  {
    if y[|y| - 1] == FILL {
      TrailingConcat(x, y[..|y| - 1]);
      assert (x + y)[..|x + y| - 1] == x + y[..|y| - 1];
    }
  }

  lemma LegalConcat(x: seq<Byte>, y: seq<Byte>)
    requires Legal(x) && Legal(y)
    ensures Legal(x + y)
  {
  }

  /** One whole group and perhaps a line break. */
  lemma FullGroup(a: Byte, b: Byte, c: Byte, k: nat, formatted: bool)
    ensures var g := Group3(a, b, c) + Break(k, formatted);
            Legal(g) && CountSymbols(g) == 4 && Trailing(g) == 0 && |g| >= 4
  {
    GroupSymbols(a, b, c);
    LegalConcat(Group3(a, b, c), Break(k, formatted));
    CountConcat(Group3(a, b, c), Break(k, formatted));
    assert Break(k, formatted) == [] ==> Group3(a, b, c) + Break(k, formatted) == Group3(a, b, c);
  }

  /** The fill characters after the last group. */
  function Fills(n: nat): nat { if n % 3 == 0 then 0 else 3 - n % 3 }

  lemma {:induction false} EncodedShape(bytes: seq<Byte>, k: nat, formatted: bool)
    ensures var text := Encoded(bytes, k, formatted);
            Legal(text) && CountSymbols(text) == (|bytes| + 2) / 3 * 4 &&
            Trailing(text) == Fills(|bytes|) && (bytes != [] ==> Trailing(text) < |text|)
    decreases |bytes|
  {
    if |bytes| >= 3 {
      EncodedShape(bytes[3..], NextK(k, formatted), formatted);
      ShapeStep(bytes, k, formatted);
    } else if |bytes| > 0 {
      LastGroup(bytes);
    }
  }

  lemma ShapeStep(bytes: seq<Byte>, k: nat, formatted: bool)
    requires |bytes| >= 3
    requires var text := Encoded(bytes[3..], NextK(k, formatted), formatted);
             Legal(text) && CountSymbols(text) == (|bytes| - 1) / 3 * 4 &&
             Trailing(text) == Fills(|bytes| - 3) && (|bytes| > 3 ==> Trailing(text) < |text|)
    ensures var text := Encoded(bytes, k, formatted);
            Legal(text) && CountSymbols(text) == (|bytes| + 2) / 3 * 4 &&
            Trailing(text) == Fills(|bytes|) && Trailing(text) < |text|
  {
    var g := Group3(bytes[0], bytes[1], bytes[2]) + Break(k, formatted);
    var rest := Encoded(bytes[3..], NextK(k, formatted), formatted);
    FullGroup(bytes[0], bytes[1], bytes[2], k, formatted);
    LegalConcat(g, rest);
    CountConcat(g, rest);
    assert (|bytes| + 2) / 3 == (|bytes| - 1) / 3 + 1 && Fills(|bytes| - 3) == Fills(|bytes|);
    if |bytes| == 3 {
      assert g + rest == g;
    } else {
      TrailingConcat(g, rest);
    }
  }

  lemma SizeArithmetic(n: nat)
    ensures (n + 2) / 3 * 4 % 4 == 0 && Fills(n) <= (n + 2) / 3 * 4 && ((n + 2) / 3 * 4 - Fills(n)) * 3 / 4 == n
  {
    var q, r := n / 3, n % 3;
    assert n == 3 * q + r;
    if r == 0 {
      assert (n + 2) / 3 == q;
    } else {
      assert (n + 2) / 3 == q + 1;
      assert (q * 4 + 4 - (3 - r)) * 3 == 12 * q + 3 * r + 3;
    }
  }

  /** `decodeSize` tells the number of bytes that were encoded. */
  lemma SizeOfEncoded(bytes: seq<Byte>, formatted: bool)
    ensures DecodeSize(Encoded(bytes, 17, formatted)) == Size(|bytes|, NoError)
  {
    EncodedShape(bytes, 17, formatted);
    SizeArithmetic(|bytes|);
    assert |bytes| > 0 ==> (|bytes| + 2) / 3 >= 1;
  }

  // The format itself

  /** The alphabet of table 1 of RFC 4648, and what the decoder makes of every other character. */
  lemma Alphabet(v: Sextet, c: Byte)
    ensures Symbol(v) == (if v < 26 then 'A' as int + v else if v < 52 then 'a' as int + v - 26
                          else if v < 62 then '0' as int + v - 52 else if v == 62 then '+' as int else '/' as int)
    ensures Classify(c) == Value(v) <==> c == Symbol(v)
    ensures Classify(c).Fill? <==> c == '=' as int
    ensures Classify(c).Space? <==> c == ' ' as int || c == '\n' as int || c == '\t' as int || c == '\r' as int
    ensures Classify(c).End? <==> c == 0
  {
  }

  /** A number of 24 bits in base 64. */
  lemma Sextets(j: nat)
    requires j < 16777216
    ensures j / 262144 < 64
    ensures j == j / 262144 * 262144 + j / 4096 % 64 * 4096 + j / 64 % 64 * 64 + j % 64
  {
    var j1 := j / 64;
    var j2 := j1 / 64;
    assert j2 == j / 4096 && j2 / 64 == j / 262144;
    assert j == j1 * 64 + j % 64 && j1 == j2 * 64 + j1 % 64 && j2 == j2 / 64 * 64 + j2 % 64;
  }

  /** The four characters stand for the 24 bits, the highest ones first. */
  lemma GroupBits3(a: Byte, b: Byte, c: Byte) returns (v1: Sextet, v2: Sextet, v3: Sextet, v4: Sextet)
    ensures Group3(a, b, c) == [Symbol(v1), Symbol(v2), Symbol(v3), Symbol(v4)]
    ensures a * 65536 + b * 256 + c == v1 * 262144 + v2 * 4096 + v3 * 64 + v4
  {
    var j: nat := a * 65536 + b * 256 + c;
    Sextets(j);
    v1, v2, v3, v4 := j / 262144, j / 4096 % 64, j / 64 % 64, j % 64;
  }

  /** Two bytes: the 16 bits, followed by two bits 0. */
  lemma GroupBits2(a: Byte, b: Byte) returns (v1: Sextet, v2: Sextet, v3: Sextet)
    ensures Group2(a, b) == [Symbol(v1), Symbol(v2), Symbol(v3), '=' as int]
    ensures (a * 256 + b) * 4 == v1 * 4096 + v2 * 64 + v3
  {
    var j: nat := a * 256 + b;
    Sextets(j * 4);
    assert j / 1024 == j * 4 / 4096 && j / 16 == j * 4 / 64;
    v1, v2, v3 := j / 1024, j / 16 % 64, j * 4 % 64;
    assert j * 4 / 262144 == 0 && j * 4 / 4096 % 64 == v1;
  }

  /** One byte: the 8 bits, followed by four bits 0. */
  lemma GroupBits1(a: Byte) returns (v1: Sextet, v2: Sextet)
    ensures Group1(a) == [Symbol(v1), Symbol(v2), '=' as int, '=' as int]
    ensures a * 16 == v1 * 64 + v2
  {
    v1, v2 := a / 4, a * 16 % 64;
  }

  lemma Shifted(a: seq<Byte>, b: seq<Byte>, i: nat)
    requires |a| == 4 && 4 <= i && i <= |b|
    ensures (a + b)[i..i + 4] == b[i - 4..i]
  {
  }

  lemma First(a: seq<Byte>, b: seq<Byte>)
    requires |a| == 4
    ensures (a + b)[..4] == a
  {
  }

  /** The characters of the three bytes from 3 * i on, or of those that are left. */
  function GroupOf(bytes: seq<Byte>, i: nat): (g: seq<Byte>)
    requires 3 * i < |bytes|
    ensures |g| == 4
  {
    if 3 * i + 2 < |bytes| then Group3(bytes[3 * i], bytes[3 * i + 1], bytes[3 * i + 2])
    else if 3 * i + 1 < |bytes| then Group2(bytes[3 * i], bytes[3 * i + 1])
    else Group1(bytes[3 * i])
  }

  lemma NextGroup(bytes: seq<Byte>, i: nat)
    requires 0 < i && 3 * i < |bytes|
    ensures GroupOf(bytes, i) == GroupOf(bytes[3..], i - 1)
  {
    var j := 3 * i;
    assert bytes[3..][j - 3] == bytes[j];
    assert j + 1 < |bytes| ==> bytes[3..][j - 2] == bytes[j + 1];
    assert j + 2 < |bytes| ==> bytes[3..][j - 1] == bytes[j + 2];
  }

  lemma EmptyMiddle(a: seq<Byte>, b: seq<Byte>)
    ensures a + [] + b == a + b && (b == [] ==> a + b == a)
  {
  }

  lemma FullGroupFirst(bytes: seq<Byte>)
    requires |bytes| >= 3
    ensures Encoded(bytes, 17, false) == Group3(bytes[0], bytes[1], bytes[2]) + Encoded(bytes[3..], 17, false)
  {
    assert Break(17, false) == [] && NextK(17, false) == 17;
    EmptyMiddle(Group3(bytes[0], bytes[1], bytes[2]), Encoded(bytes[3..], 17, false));
  }

  /** The groups, one after the other, without line breaks. */
  lemma {:induction false} GroupAt(bytes: seq<Byte>, i: nat)
    requires 3 * i < |bytes|
    ensures var text := Encoded(bytes, 17, false);
            4 * i + 4 <= |text| && text[4 * i..4 * i + 4] == GroupOf(bytes, i)
    decreases i
  {
    if |bytes| >= 3 {
      var group, tail := Group3(bytes[0], bytes[1], bytes[2]), Encoded(bytes[3..], 17, false);
      FullGroupFirst(bytes);
      if i == 0 {
        First(group, tail);
      } else {
        GroupAt(bytes[3..], i - 1);
        NextGroup(bytes, i);
        Shifted(group, tail, 4 * i);
      }
    } else {
      First(GroupOf(bytes, 0), []);
      EmptyMiddle(GroupOf(bytes, 0), []);
    }
  }

  function WithoutBreaks(text: seq<Byte>): seq<Byte> {
    if text == [] then [] else (if text[0] == NEWLINE then [] else [text[0]]) + WithoutBreaks(text[1..])
  }

  lemma {:induction false} WithoutBreaksConcat(a: seq<Byte>, b: seq<Byte>)
    ensures WithoutBreaks(a + b) == WithoutBreaks(a) + WithoutBreaks(b)
    decreases |a|
  {
    if a == [] {
      assert a + b == b;
    } else {
      assert (a + b)[1..] == a[1..] + b;
      WithoutBreaksConcat(a[1..], b);
    }
  }

  lemma OneKept(s: seq<Byte>)
    requires s != [] && s[0] != NEWLINE
    ensures WithoutBreaks(s) == [s[0]] + WithoutBreaks(s[1..])
  {
  }

  /** No group contains a line break. */
  lemma FourKept(s: seq<Byte>)
    requires |s| == 4 && s[0] != NEWLINE && s[1] != NEWLINE && s[2] != NEWLINE && s[3] != NEWLINE
    ensures WithoutBreaks(s) == s
  {
    OneKept(s);
    OneKept(s[1..]);
    OneKept(s[2..]);
    OneKept(s[3..]);
    assert s[4..] == [] && s[3..][1..] == s[4..] && s[2..][1..] == s[3..] && s[1..][1..] == s[2..];
    assert WithoutBreaks(s) == [s[0]] + ([s[1]] + ([s[2]] + ([s[3]] + [])));
  }

  /** Formatting adds line breaks, and nothing else. */
  lemma {:induction false} FormattedIsSame(bytes: seq<Byte>, k: nat)
    requires k <= 17
    ensures WithoutBreaks(Encoded(bytes, k, true)) == Encoded(bytes, 17, false)
    decreases |bytes|
  {
    if |bytes| >= 3 {
      var group := Group3(bytes[0], bytes[1], bytes[2]);
      var ending := Break(k, true);
      var rest := Encoded(bytes[3..], NextK(k, true), true);
      FormattedIsSame(bytes[3..], NextK(k, true));
      FourKept(group);
      WithoutBreaksConcat(group + ending, rest);
      WithoutBreaksConcat(group, ending);
      assert ending == [NEWLINE] ==> ending[1..] == [];
      assert WithoutBreaks(ending) == [];
      assert Encoded(bytes, 17, false) == group + [] + Encoded(bytes[3..], 17, false);
    } else if |bytes| == 2 {
      FourKept(Group2(bytes[0], bytes[1]));
    } else if |bytes| == 1 {
      FourKept(Group1(bytes[0]));
    }
  }

  /** Every 73rd place. */
  predicate Every73(i: int) { i >= 0 && i % 73 == 0 }

  lemma Next73(i: int)
    ensures i > 0 ==> (Every73(i) <==> Every73(i - 73))
  {
    if i >= 73 {
      AddBlock(i - 73, 73);
    }
  }

  /** The line breaks are those after every 72 characters. */
  lemma {:induction false} BreakPlaces(bytes: seq<Byte>, k: nat, i: nat)
    requires k <= 17 && i < |Encoded(bytes, k, true)|
    ensures Encoded(bytes, k, true)[i] == NEWLINE <==> Every73(i - 4 * (k + 1))
    decreases |bytes|
  {
    if |bytes| >= 3 {
      var group := Group3(bytes[0], bytes[1], bytes[2]) + Break(k, true);
      var rest := Encoded(bytes[3..], NextK(k, true), true);
      assert Encoded(bytes, k, true) == group + rest;
      if i >= |group| {
        BreakPlaces(bytes[3..], NextK(k, true), i - |group|);
        if k == 0 {
          Next73(i - 4);
        }
      } else {
        assert k > 0 || i < 4 ==> i - 4 * (k + 1) < 0;
      }
    }
  }

  /** Every line of a formatted text but the last one has 72 characters. */
  lemma LinesOf72(bytes: seq<Byte>, i: nat)
    requires i < |Encoded(bytes, 17, true)|
    ensures Encoded(bytes, 17, true)[i] == NEWLINE <==> (i + 1) % 73 == 0
  {
    BreakPlaces(bytes, 17, i);
    Next73(i + 1);
  }
}

module Base64 {
  import opened Base64Spec

  method PutGroup(buf: array<Byte>, pos: nat, s1: Sextet, s2: Sextet, s3: Sextet, s4: Sextet)
    requires pos + 4 <= buf.Length
    modifies buf
    ensures buf[..pos + 4] == old(buf[..pos]) + [Symbol(s1), Symbol(s2), Symbol(s3), Symbol(s4)]
  {
    buf[pos] := Symbol(s1);
    buf[pos + 1] := Symbol(s2);
    buf[pos + 2] := Symbol(s3);
    buf[pos + 3] := Symbol(s4);
  }

  /** The 0 - 2 bytes after the last full group. */
  method PutRest(buf: array<Byte>, pos: nat, rest: seq<Byte>) returns (end: nat)
    requires |rest| <= 2 && pos + (if rest == [] then 0 else 4) <= buf.Length
    modifies buf
    ensures end == (if rest == [] then pos else pos + 4)
    ensures buf[..end] == old(buf[..pos]) + Encoded(rest, 0, false)
  {
    end := pos;
    if |rest| == 1 {
      PutGroup(buf, pos, rest[0] / 4, rest[0] as int * 16 % 64, 0, 0);
      buf[pos + 2], buf[pos + 3] := FILL, FILL;
      end := pos + 4;
    } else if |rest| == 2 {
      var j := rest[0] as int * 256 + rest[1];
      PutGroup(buf, pos, j / 1024, j / 16 % 64, j * 4 % 64, 0);
      buf[pos + 3] := FILL;
      end := pos + 4;
    }
  }

  /** A full group and the line break that may follow it. */
  method PutFull(buf: array<Byte>, pos: nat, a: Byte, b: Byte, c: Byte, k: nat, formatted: bool) returns (end: nat)
    requires pos + 4 + |Break(k, formatted)| <= buf.Length
    modifies buf
    ensures end == pos + 4 + |Break(k, formatted)|
    ensures buf[..end] == old(buf[..pos]) + (Group3(a, b, c) + Break(k, formatted))
  {
    var j := a as int * 65536 + b as int * 256 + c;
    PutGroup(buf, pos, j / 262144, j / 4096 % 64, j / 64 % 64, j % 64);
    ghost var done := buf[..pos + 4];
    end := pos + 4;
    if formatted && k == 0 {
      buf[end] := NEWLINE;
      end := end + 1;
      assert buf[..end] == done + [NEWLINE];
    }
  }

  /** `encode`: writes the characters one after the other, the final 0 included. */
  method Encode(inbuf: seq<Byte>, formatted: bool) returns (buf: array<Byte>, written: nat)
    ensures written <= buf.Length && buf.Length == EncodeLength(|inbuf|, formatted)
    ensures buf[..written] == Encoded(inbuf, 17, formatted) + [0]
    ensures inbuf != [] ==> written == buf.Length
  {
    LengthIsExact(inbuf, formatted);
    buf := new Byte[EncodeLength(|inbuf|, formatted)];
    ghost var whole := Encoded(inbuf, 17, formatted);
    var pos: nat, rest: seq<Byte>, k: nat := 0, inbuf, 17;
    assert buf[..0] + whole == whole;
    while |rest| >= 3
      invariant k <= 17 && pos <= buf.Length && |whole| + 1 <= buf.Length
      invariant whole == buf[..pos] + Encoded(rest, k, formatted)
      decreases |rest|
    {
      ghost var group := Group3(rest[0], rest[1], rest[2]) + Break(k, formatted);
      ghost var later := Encoded(rest[3..], NextK(k, formatted), formatted);
      Regroup(buf[..pos], group, later, []);
      pos := PutFull(buf, pos, rest[0], rest[1], rest[2], k, formatted);
      rest := rest[3..];
      k := if !formatted then k else if k == 0 then 17 else k - 1;
    }
    assert Encoded(rest, k, formatted) == Encoded(rest, 0, false);
    pos := PutRest(buf, pos, rest);
    assert buf[..pos] == whole;
    buf[pos] := 0;
    written := pos + 1;
    assert buf[..written] == whole + [0];
  }

  /** The macro that reads the next character that is not a space. */
  method ReadNext(data: seq<Byte>, i: nat) returns (c: Class, next: nat)
    requires IsString(data) && i < |data|
    ensures i < next <= |data| && (c, data[next..]) == Next(data[i..]) && (!c.End? ==> next < |data|)
  {
    next := i;
    while Classify(data[next]).Space?
      invariant i <= next < |data| && Next(data[next..]) == Next(data[i..])
      decreases |data| - next
    {
      assert data[next..][1..] == data[next + 1..];
      next := next + 1;
    }
    c := Classify(data[next]);
    assert data[next..][1..] == data[next + 1..];
    next := next + 1;
  }

  /** The bytes that were written before. */
  function After(bytes: seq<Byte>, d: Decoded): Decoded { d.(bytes := bytes + d.bytes) }

  lemma AfterWith(bytes: seq<Byte>, b: Byte, d: Decoded)
    ensures After(bytes, With(b, d)) == After(bytes + [b], d)
  {
    assert bytes + ([b] + d.bytes) == bytes + [b] + d.bytes;
  }

  /** Writes a byte to the buffer. */
  method Put(buf: array<Byte>, p: nat, b: Byte, ghost d: Decoded)
    requires p < buf.Length
    modifies buf
    ensures buf[..p + 1] == old(buf[..p]) + [b]
    ensures After(buf[..p + 1], d) == After(old(buf[..p]), With(b, d))
  {
    AfterWith(buf[..p], b, d);
    buf[p] := b;
  }

  /** The errors of the end of the string and of fill characters, and the error of a full buffer. */
  function Stop(c: Class, room: nat): Decoded
    requires c.Illegal? || c.End? || c.Fill? || room == 0
  {
    match c
    case Illegal => Fail(IllegalCharacter)
    case End => Fail(TruncatedData)
    case Fill => if room == 0 then DONE else Fail(TruncatedData)
    case _ => Fail(BufferTooSmall)
  }

  /** The last character of a turn. */
  method DecodeFourth(v: Sextet, data: seq<Byte>, i: nat, buf: array<Byte>, p: nat, len: nat)
    returns (goesOn: bool, last: Decoded, next: nat, end: nat)
    requires IsString(data) && i < |data| && p <= len <= buf.Length
    modifies buf
    ensures p <= end <= len && if goesOn then i < next < |data| else last.bytes == []
    ensures After(old(buf[..p]), Decode4(v, data[i..], len - p)) ==
            After(buf[..end], if goesOn then Base64Spec.Decode(data[next..], len - end) else last)
  {
    goesOn, last, end := false, DONE, p;
    var d;
    d, next := ReadNext(data, i);
    if !d.Value? || p == len {
      last := Stop(d, len - p);
      return;
    }
    Put(buf, p, v % 4 * 64 + d.v, Base64Spec.Decode(data[next..], len - p - 1));
    end := p + 1;
    goesOn := true;
  }

  method DecodeThird(v: Sextet, data: seq<Byte>, i: nat, buf: array<Byte>, p: nat, len: nat)
    returns (goesOn: bool, last: Decoded, next: nat, end: nat)
    requires IsString(data) && i < |data| && p <= len <= buf.Length
    modifies buf
    ensures p <= end <= len && if goesOn then i < next < |data| else last.bytes == []
    ensures After(old(buf[..p]), Decode3(v, data[i..], len - p)) ==
            After(buf[..end], if goesOn then Base64Spec.Decode(data[next..], len - end) else last)
  {
    goesOn, last, end := false, DONE, p;
    var c;
    c, next := ReadNext(data, i);
    if !c.Value? || p == len {
      last := Stop(c, len - p);
      return;
    }
    Put(buf, p, v % 16 * 16 + c.v / 4, Decode4(c.v, data[next..], len - p - 1));
    goesOn, last, next, end := DecodeFourth(c.v, data, next, buf, p + 1, len);
  }

  method DecodeSecond(v: Sextet, data: seq<Byte>, i: nat, buf: array<Byte>, p: nat, len: nat)
    returns (goesOn: bool, last: Decoded, next: nat, end: nat)
    requires IsString(data) && i < |data| && p <= len <= buf.Length
    modifies buf
    ensures p <= end <= len && if goesOn then i < next < |data| else last.bytes == []
    ensures After(old(buf[..p]), Decode2(v, data[i..], len - p)) ==
            After(buf[..end], if goesOn then Base64Spec.Decode(data[next..], len - end) else last)
  {
    goesOn, last, end := false, DONE, p;
    var d;
    d, next := ReadNext(data, i);
    if d.Fill? {
      last := Fail(TruncatedData);
      return;
    }
    if !d.Value? || p == len {
      last := Stop(d, len - p);
      return;
    }
    Put(buf, p, v * 4 + d.v / 16, Decode3(d.v, data[next..], len - p - 1));
    goesOn, last, next, end := DecodeThird(d.v, data, next, buf, p + 1, len);
  }

  /** One turn of the loop of `decode`: four characters.  If it does not go on, `last` is returned. */
  method DecodeTurn(data: seq<Byte>, i: nat, buf: array<Byte>, p: nat, len: nat)
    returns (goesOn: bool, last: Decoded, next: nat, end: nat)
    requires IsString(data) && i < |data| && p <= len <= buf.Length
    modifies buf
    ensures p <= end <= len && if goesOn then i < next < |data| else last.bytes == []
    ensures After(old(buf[..p]), Base64Spec.Decode(data[i..], len - p)) ==
            After(buf[..end], if goesOn then Base64Spec.Decode(data[next..], len - end) else last)
  {
    goesOn, last, end := false, DONE, p;
    var c;
    c, next := ReadNext(data, i);
    if c.End? {
      return;
    }
    if !c.Value? {
      last := Stop(c, len - p);
      return;
    }
    goesOn, last, next, end := DecodeSecond(c.v, data, next, buf, p, len);
  }

  /** `decode` */
  method Decode(data: seq<Byte>, buf: array<Byte>, len: nat) returns (code: nat, written: nat, error: Error)
    requires IsString(data) && len <= buf.Length
    modifies buf
    ensures written <= len && Decoded(code, buf[..written], error) == Base64Spec.Decode(data, len)
  {
    var i, p := 0, 0;
    assert data[0..] == data;
    ghost var d := Base64Spec.Decode(data, len);
    assert After(buf[..0], d) == d by {
      assert buf[..0] + d.bytes == d.bytes;
    }
    while true
      invariant i < |data| && p <= len
      invariant After(buf[..p], Base64Spec.Decode(data[i..], len - p)) == d
      decreases |data| - i
    {
      var goesOn, last;
      goesOn, last, i, p := DecodeTurn(data, i, buf, p, len);
      if !goesOn {
        assert buf[..p] + [] == buf[..p];
        return last.code, p, last.error;
      }
    }
  }

  /** `decodeSize` */
  method DecodeSize(data: seq<Byte>) returns (size: SizeResult)
    requires IsString(data)
    ensures size == Base64Spec.DecodeSize(data[..|data| - 1])
  {
    ghost var text := data[..|data| - 1];
    var count, i := 0, 0;
    assert text[..0] == [];
    while data[i] != 0
      invariant 0 <= i <= |text| && count == CountSymbols(text[..i]) && Legal(text[..i])
      decreases |text| - i
    {
      var c := Classify(data[i]);
      assert text[..i + 1] == text[..i] + [data[i]];
      CountConcat(text[..i], [data[i]]);
      if c.Illegal? {
        assert Classify(text[i]).Illegal?;
        return Size(0, IllegalCharacter);
      }
      if c.Value? || c.Fill? {
        count := count + 1;
      }
      i := i + 1;
    }
    assert i == |text| && text[..i] == text;
    var error := if count % 4 != 0 then SizeNotMultipleOf4 else NoError;
    if count == 0 {
      return Size(0, error);
    }
    TrailingBounds(text);
    ghost var symbols := count;
    i, count := i - 1, count - 1;
    while i >= 0 && data[i] == FILL
      invariant -1 <= i < |text| && count == symbols - (|text| - i)
      invariant Trailing(text) == |text| - 1 - i + Trailing(text[..i + 1])
      decreases i
    {
      assert text[..i + 1][..i] == text[..i];
      i, count := i - 1, count - 1;
    }
    // the code reads on before the beginning of the string
    if i < 0 {
      return OutOfBounds;
    }
    count := count + 1;
    size := Size(count * 3 / 4, error);
  }
}
