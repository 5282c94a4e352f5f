/**
 The framing protocol: what encoder.cpp puts on the wire and what decoder.cpp
 makes of any bytes that arrive, whatever they are and however they are cut.
 */
module Automaton {
  /** A machine that takes one input at a time and may put something out at each. */
  function Run<S, I, O>(step: (S, I) -> (S, seq<O>), s: S, input: seq<I>): (S, seq<O>)
    decreases |input|
  {
    if input == [] then (s, [])
    else
      var (s1, out1) := step(s, input[0]);
      var (s2, out2) := Run(step, s1, input[1..]);
      (s2, out1 + out2)
  }

  lemma {:induction false} RunConcat<S, I, O>(step: (S, I) -> (S, seq<O>), s: S, a: seq<I>, b: seq<I>)
    ensures Run(step, s, a + b) ==
            (Run(step, Run(step, s, a).0, b).0, Run(step, s, a).1 + Run(step, Run(step, s, a).0, b).1)
    decreases |a|
  {
    if a == [] {
      assert a + b == b;
      assert [] + Run(step, s, b).1 == Run(step, s, b).1;
    } else {
      assert (a + b)[0] == a[0] && (a + b)[1..] == a[1..] + b;
      var (s1, out1) := step(s, a[0]);
      RunConcat(step, s1, a[1..], b);
      var f := Run(step, s1, a[1..]);
      var g := Run(step, f.0, b);
      assert out1 + (f.1 + g.1) == (out1 + f.1) + g.1;
    }
  }
}

module Wire {
  import opened Common
  import Automaton

  type Byte = x: int | 0 <= x < 256

  /** The flags have MORE in bit 0 and SHARED in bit 7. */
  datatype Msg = Msg(body: seq<Byte>, flags: Byte)

  /** `flags & ZMQ_MSG_MORE` */
  function More(flags: Byte): Byte { flags % 2 }

  /** `flags | ~ZMQ_MSG_MASK`: the six bits between MORE and SHARED are set. */
  function Unmasked(flags: Byte): Byte { flags / 128 * 128 + 126 + flags % 2 }

  /** `memcpy` */
  method CopyBytes(source: array<Byte>, from: nat, target: array<Byte>, to: nat, count: nat)
    requires source != target && from + count <= source.Length && to + count <= target.Length
    modifies target
    ensures target[to..to + count] == source[from..from + count]
    ensures target[..to] == old(target[..to]) && target[to + count..] == old(target[to + count..])
  {
    for i := 0 to count
      invariant target[to..to + i] == source[from..from + i]
      invariant target[..to] == old(target[..to]) && target[to + count..] == old(target[to + count..])
    {
      target[to + i] := source[from + i];
    }
  }

  // Numbers in network byte order

  function BigEndian(v: nat, n: nat): (bytes: seq<Byte>)
    ensures |bytes| == n
  {
    if n == 0 then [] else BigEndian(v / 256, n - 1) + [v % 256]
  }

  function FromBigEndian(bytes: seq<Byte>): nat {
    if bytes == [] then 0 else FromBigEndian(bytes[..|bytes| - 1]) * 256 + bytes[|bytes| - 1]
  }

  function Power256(n: nat): nat { if n == 0 then 1 else 256 * Power256(n - 1) }

  lemma {:induction false} BigEndianRoundTrip(v: nat, n: nat)
    requires v < Power256(n)
    ensures FromBigEndian(BigEndian(v, n)) == v
  {
    if n > 0 {
      BigEndianRoundTrip(v / 256, n - 1);
      assert BigEndian(v, n)[..n - 1] == BigEndian(v / 256, n - 1);
    }
  }

  const LIMIT: nat := 0x1_0000_0000_0000_0000

  lemma LimitIsPower()
    ensures Power256(8) == LIMIT
  {
    assert Power256(2) == 0x1_0000;
    assert Power256(4) == 0x1_0000_0000;
    assert Power256(6) == 0x1_0000_0000_0000;
  }

  method PutUint64(buffer: array<Byte>, offset: nat, value: nat)
    requires offset + 8 <= buffer.Length && value < LIMIT
    modifies buffer
    ensures buffer[offset..offset + 8] == BigEndian(value, 8)
    ensures forall i :: 0 <= i < buffer.Length && !(offset <= i < offset + 8) ==> buffer[i] == old(buffer[i])
  {
    buffer[offset] := value / 0x100_0000_0000_0000 % 256;
    buffer[offset + 1] := value / 0x1_0000_0000_0000 % 256;
    buffer[offset + 2] := value / 0x100_0000_0000 % 256;
    buffer[offset + 3] := value / 0x1_0000_0000 % 256;
    buffer[offset + 4] := value / 0x100_0000 % 256;
    buffer[offset + 5] := value / 0x1_0000 % 256;
    buffer[offset + 6] := value / 0x100 % 256;
    buffer[offset + 7] := value % 256;
    EightBytes(value);
  }

  lemma EightBytes(v: nat)
    ensures BigEndian(v, 8) ==
            [v / 0x100_0000_0000_0000 % 256, v / 0x1_0000_0000_0000 % 256, v / 0x100_0000_0000 % 256,
             v / 0x1_0000_0000 % 256, v / 0x100_0000 % 256, v / 0x1_0000 % 256, v / 0x100 % 256, v % 256]
  {
    var v1, v2, v3 := v / 0x100, v / 0x1_0000, v / 0x100_0000;
    var v4, v5, v6, v7 := v / 0x1_0000_0000, v / 0x100_0000_0000, v / 0x1_0000_0000_0000, v / 0x100_0000_0000_0000;
    assert v1 / 256 == v2 && v2 / 256 == v3 && v3 / 256 == v4 && v4 / 256 == v5 && v5 / 256 == v6 && v6 / 256 == v7;
    assert BigEndian(v7, 1) == [v7 % 256];
    assert BigEndian(v6, 2) == [v7 % 256, v6 % 256];
    assert BigEndian(v5, 3) == [v7 % 256, v6 % 256, v5 % 256];
    assert BigEndian(v4, 4) == [v7 % 256, v6 % 256, v5 % 256, v4 % 256];
    assert BigEndian(v3, 5) == [v7 % 256, v6 % 256, v5 % 256, v4 % 256, v3 % 256];
    assert BigEndian(v2, 6) == [v7 % 256, v6 % 256, v5 % 256, v4 % 256, v3 % 256, v2 % 256];
    assert BigEndian(v1, 7) == [v7 % 256, v6 % 256, v5 % 256, v4 % 256, v3 % 256, v2 % 256, v1 % 256];
  }

  method GetUint64(buffer: array<Byte>) returns (value: nat)
    requires buffer.Length == 8
    ensures value == FromBigEndian(buffer[..])
  {
    value := buffer[0] as int * 0x100_0000_0000_0000 + buffer[1] as int * 0x1_0000_0000_0000 + buffer[2] as int * 0x100_0000_0000 +
      buffer[3] as int * 0x1_0000_0000 + buffer[4] as int * 0x100_0000 + buffer[5] as int * 0x1_0000 + buffer[6] as int * 0x100 + buffer[7];
    FromEightBytes(buffer[..]);
  }

  lemma FromEightBytes(b: seq<Byte>)
    requires |b| == 8
    ensures FromBigEndian(b) ==
            b[0] as int * 0x100_0000_0000_0000 + b[1] as int * 0x1_0000_0000_0000 + b[2] as int * 0x100_0000_0000 +
            b[3] as int * 0x1_0000_0000 + b[4] as int * 0x100_0000 + b[5] as int * 0x1_0000 + b[6] as int * 0x100 + b[7]
  {
    assert FromBigEndian(b[..0]) == 0;
    FromFour(b, 0);
    FromFour(b, 4);
    assert b[..8] == b;
  }

  lemma FromFour(b: seq<Byte>, k: nat)
    requires k + 4 <= |b|
    ensures FromBigEndian(b[..k + 4]) ==
            FromBigEndian(b[..k]) * 0x1_0000_0000 +
            b[k] as int * 0x100_0000 + b[k + 1] as int * 0x1_0000 + b[k + 2] as int * 0x100 + b[k + 3]
  {
    FromNext(b, k + 1);
    FromNext(b, k + 2);
    FromNext(b, k + 3);
    FromNext(b, k + 4);
  }

  lemma FromNext(b: seq<Byte>, k: nat)
    requires 0 < k <= |b|
    ensures FromBigEndian(b[..k]) == FromBigEndian(b[..k - 1]) * 256 + b[k - 1]
  {
    assert b[..k][..k - 1] == b[..k - 1];
  }

  // Frames

  function Header(m: Msg): seq<Byte> {
    if |m.body| + 1 < 255 then [|m.body| + 1, More(m.flags)]
    else [255] + BigEndian(|m.body| + 1, 8) + [More(m.flags)]
  }

  function Frame(m: Msg): seq<Byte> { Header(m) + m.body }

  function Frames(ms: seq<Msg>): seq<Byte> {
    if ms == [] then [] else Frames(ms[..|ms| - 1]) + Frame(ms[|ms| - 1])
  }

  /** The size of a message fits the wire format. */
  predicate Fits(m: Msg) { |m.body| + 1 < LIMIT }

  // The decoder as an automaton

  /** What the decoder is reading, and how much of it it has. */
  datatype View =
    | OneByteSize(got: seq<Byte>)
    | EightByteSize(got: seq<Byte>)
    | FlagsByte(size: nat, got: seq<Byte>)
    | Body(flags: Byte, size: nat, got: seq<Byte>)
    | Failed

  const START: View := OneByteSize([])

  function Left(v: View): int {
    match v
    case OneByteSize(got) => 1 - |got|
    case EightByteSize(got) => 8 - |got|
    case FlagsByte(_, got) => 1 - |got|
    case Body(_, size, got) => size - |got|
    case Failed => 0
  }

  function Gather(v: View, bytes: seq<Byte>): View {
    if v.Failed? then v else v.(got := v.got + bytes)
  }

  /** The action that is due when everything was read, except for the last one, which delivers the message. */
  function Act(v: View): View
    requires Left(v) == 0 && !v.Failed? && !v.Body?
  {
    match v
    case OneByteSize(got) =>
      if got[0] == 255 then EightByteSize([]) else if got[0] == 0 then Failed else FlagsByte(got[0] - 1, [])
    case EightByteSize(got) =>
      var size := FromBigEndian(got);
      if size == 0 then Failed else FlagsByte(size - 1, [])
    case FlagsByte(size, got) => Body(Unmasked(got[0]), size, [])
  }

  /** A message was read but not delivered yet. */
  predicate Waiting(v: View) { v.Body? && Left(v) == 0 }

  /** The state in which more bytes are needed, and the message delivered on the way there. */
  function Deliver(v: View): (View, seq<Msg>) {
    if Waiting(v) then (START, [Msg(v.got, v.flags)]) else (v, [])
  }

  function Advance(v: View): (View, seq<Msg>)
    requires Left(v) >= 0
  {
    if Left(v) > 0 || v.Failed? then (v, [])
    else if v.Body? then Deliver(v)
    else Deliver(Act(v))
  }

  /** One byte more, and the message that it completes. */
  function FeedByte(v: View, b: Byte): (View, seq<Msg>) {
    if Left(v) <= 0 then (v, []) else Advance(Gather(v, [b]))
  }

  function Feed(v: View, bytes: seq<Byte>): (View, seq<Msg>) { Automaton.Run(FeedByte, v, bytes) }

  lemma FeedConcat(v: View, a: seq<Byte>, b: seq<Byte>)
    ensures Feed(v, a + b) == (Feed(Feed(v, a).0, b).0, Feed(v, a).1 + Feed(Feed(v, a).0, b).1)
  {
    Automaton.RunConcat(FeedByte, v, a, b);
  }

  /** Bytes that belong together are gathered and then acted upon. */
  lemma {:induction false} FeedGathers(v: View, bytes: seq<Byte>)
    requires 0 < |bytes| <= Left(v)
    ensures Left(Gather(v, bytes)) == Left(v) - |bytes|
    ensures Feed(v, bytes) == Advance(Gather(v, bytes))
    decreases |bytes|
  {
    var v1 := Gather(v, [bytes[0]]);
    if |bytes| == 1 {
      assert bytes == [bytes[0]];
      var (v2, out) := Advance(v1);
      assert Feed(v2, bytes[1..]) == (v2, []) && out + [] == out;
    } else {
      FeedGathers(v1, bytes[1..]);
      assert Advance(v1) == (v1, []) && [] + Feed(v1, bytes[1..]).1 == Feed(v1, bytes[1..]).1;
      assert v.got + [bytes[0]] + bytes[1..] == v.got + bytes;
      assert Gather(v1, bytes[1..]) == Gather(v, bytes);
    }
  }

  // The decoder undoes the encoder

  /** What arrives of a message: everything but SHARED, which does not leave the process. */
  function Arrived(m: Msg): Msg { Msg(m.body, Unmasked(More(m.flags))) }

  function AllArrived(ms: seq<Msg>): seq<Msg> { seq(|ms|, i requires 0 <= i < |ms| => Arrived(ms[i])) }

  /** What a message becomes on the wire: the same body and the same MORE flag. */
  lemma ArrivedKeepsMore(m: Msg)
    ensures Arrived(m).body == m.body && More(Arrived(m).flags) == More(m.flags)
  {
  }

  /** Feeding that delivers nothing in its first half. */
  lemma FeedThen(v: View, a: seq<Byte>, v1: View, b: seq<Byte>)
    requires Feed(v, a) == (v1, [])
    ensures Feed(v, a + b) == Feed(v1, b)
  {
    FeedConcat(v, a, b);
    assert [] + Feed(v1, b).1 == Feed(v1, b).1;
  }

  lemma FlagsDecode(m: Msg)
    ensures Feed(FlagsByte(|m.body|, []), [More(m.flags)]) == Deliver(Body(Unmasked(More(m.flags)), |m.body|, []))
  {
    var flags: seq<Byte> := [More(m.flags)];
    FeedGathers(FlagsByte(|m.body|, []), flags);
    assert Gather(FlagsByte(|m.body|, []), flags) == FlagsByte(|m.body|, flags);
  }

  lemma ShortHeaderDecodes(m: Msg)
    requires |m.body| + 1 < 255
    ensures Feed(START, Header(m)) == Deliver(Body(Unmasked(More(m.flags)), |m.body|, []))
  {
    var size: seq<Byte> := [|m.body| + 1];
    FeedGathers(START, size);
    assert Gather(START, size) == OneByteSize(size);
    FeedThen(START, size, FlagsByte(|m.body|, []), [More(m.flags)]);
    FlagsDecode(m);
    assert Header(m) == size + [More(m.flags)];
  }

  lemma EightBytesDecode(size: nat)
    requires 0 < size < LIMIT
    ensures Feed(EightByteSize([]), BigEndian(size, 8)) == (FlagsByte(size - 1, []), [])
  {
    var sizes := BigEndian(size, 8);
    LimitIsPower();
    BigEndianRoundTrip(size, 8);
    FeedGathers(EightByteSize([]), sizes);
    assert Gather(EightByteSize([]), sizes) == EightByteSize(sizes);
  }

  lemma EscapeDecodes()
    ensures Feed(START, [255]) == (EightByteSize([]), [])
  {
    FeedGathers(START, [255]);
    assert Gather(START, [255]) == OneByteSize([255]);
  }

  lemma LongSizeDecodes(size: nat)
    requires 0 < size < LIMIT
    ensures Feed(START, [255] + BigEndian(size, 8)) == (FlagsByte(size - 1, []), [])
  {
    EscapeDecodes();
    EightBytesDecode(size);
    FeedThen(START, [255], EightByteSize([]), BigEndian(size, 8));
  }

  lemma HeaderDecodes(m: Msg)
    requires Fits(m)
    ensures Feed(START, Header(m)) == Deliver(Body(Unmasked(More(m.flags)), |m.body|, []))
  {
    if |m.body| + 1 < 255 {
      ShortHeaderDecodes(m);
    } else {
      var size := |m.body| + 1;
      LongSizeDecodes(size);
      FeedThen(START, [255] + BigEndian(size, 8), FlagsByte(|m.body|, []), [More(m.flags)]);
      FlagsDecode(m);
    }
  }

  lemma FrameDecodes(m: Msg)
    requires Fits(m)
    ensures Feed(START, Frame(m)) == (START, [Arrived(m)])
  {
    var v := Body(Unmasked(More(m.flags)), |m.body|, []);
    HeaderDecodes(m);
    if m.body == [] {
      assert Frame(m) == Header(m);
    } else {
      FeedThen(START, Header(m), v, m.body);
      FeedGathers(v, m.body);
      assert Gather(v, m.body) == Body(v.flags, v.size, m.body);
    }
  }

  lemma {:induction false} FramesDecode(ms: seq<Msg>)
    requires forall i :: 0 <= i < |ms| ==> Fits(ms[i])
    ensures Feed(START, Frames(ms)) == (START, AllArrived(ms))
    decreases |ms|
  {
    if ms != [] {
      var most, last := ms[..|ms| - 1], ms[|ms| - 1];
      FramesDecode(most);
      FrameDecodes(last);
      FeedConcat(START, Frames(most), Frame(last));
      assert AllArrived(ms) == AllArrived(most) + [Arrived(last)];
    }
  }

  lemma {:induction false} FeedFailed(bytes: seq<Byte>)
    ensures Feed(Failed, bytes) == (Failed, [])
    decreases |bytes|
  {
    if bytes != [] {
      FeedFailed(bytes[1..]);
      var none: seq<Msg> := [];
      assert none + none == none;
    }
  }

  /** Nothing is made up: from the first bytes of the stream come the first of the messages. */
  lemma PrefixDecodes(ms: seq<Msg>, bytes: seq<Byte>)
    requires (forall i :: 0 <= i < |ms| ==> Fits(ms[i])) && bytes <= Frames(ms)
    ensures Feed(START, bytes).1 <= AllArrived(ms) && !Feed(START, bytes).0.Failed?
  {
    var rest := Frames(ms)[|bytes|..];
    var (v, out) := Feed(START, bytes);
    assert Frames(ms) == bytes + rest;
    FramesDecode(ms);
    FeedConcat(START, bytes, rest);
    assert AllArrived(ms) == out + Feed(v, rest).1;
    if v.Failed? {
      FeedFailed(rest);
    }
  }

  /** No two different lists of messages look the same on the wire, save for SHARED. */
  lemma UniquelyDecodable(a: seq<Msg>, b: seq<Msg>)
    requires forall i :: 0 <= i < |a| ==> Fits(a[i])
    requires forall i :: 0 <= i < |b| ==> Fits(b[i])
    requires Frames(a) == Frames(b)
    ensures AllArrived(a) == AllArrived(b)
  {
    FramesDecode(a);
    FramesDecode(b);
  }

  // The format itself, and a parser that reads it off

  /** The number of eight bytes, the first one being the highest. */
  function Value8(b: seq<Byte>): nat
    requires |b| == 8
  {
    b[0] as int * 0x100_0000_0000_0000 + b[1] as int * 0x1_0000_0000_0000 + b[2] as int * 0x100_0000_0000 +
    b[3] as int * 0x1_0000_0000 + b[4] as int * 0x100_0000 + b[5] as int * 0x1_0000 + b[6] as int * 0x100 + b[7]
  }

  /** What a frame looks like.  The size counts the flags byte; sizes from 255 on are escaped. */
  lemma FrameFormat(m: Msg)
    requires Fits(m)
    ensures
      var f, n := Frame(m), |m.body|;
      if n < 254 then |f| == n + 2 && f[0] == n + 1 && f[1] == m.flags % 2 && f[2..] == m.body
      else |f| == n + 10 && f[0] == 255 && Value8(f[1..9]) == n + 1 && f[9] == m.flags % 2 && f[10..] == m.body
  {
    var f, n := Frame(m), |m.body|;
    if n >= 254 {
      var sizes := BigEndian(n + 1, 8);
      LimitIsPower();
      BigEndianRoundTrip(n + 1, 8);
      FromEightBytes(sizes);
      assert f[1..9] == sizes;
    }
  }

  /** What comes in with a flags byte: MORE and SHARED as they are, all other flags set. */
  function Received(body: seq<Byte>, flags: Byte): Msg {
    Msg(body, (if flags >= 128 then 128 else 0) + 126 + (if flags % 2 == 1 then 1 else 0))
  }

  /** The whole messages at the beginning of the bytes; the second result is true if a size of zero follows. */
  function Parse(bytes: seq<Byte>): (seq<Msg>, bool)
    decreases |bytes|
  {
    if bytes == [] then ([], false)
    else if bytes[0] == 0 then ([], true)
    else if bytes[0] < 255 then ParseBody(bytes[1..], bytes[0] - 1)
    else if |bytes| < 9 then ([], false)
    else if Value8(bytes[1..9]) == 0 then ([], true)
    else ParseBody(bytes[9..], Value8(bytes[1..9]) - 1)
  }

  /** The flags byte, n bytes of body and what follows. */
  function ParseBody(bytes: seq<Byte>, n: nat): (seq<Msg>, bool)
    decreases |bytes|
  {
    if |bytes| < n + 1 then ([], false)
    else
      var (others, bad) := Parse(bytes[n + 1..]);
      ([Received(bytes[1..n + 1], bytes[0])] + others, bad)
  }

  /** The decoder agrees with the parser. */
  predicate Agrees(fed: (View, seq<Msg>), parsed: (seq<Msg>, bool)) {
    fed.1 == parsed.0 && (fed.0.Failed? <==> parsed.1)
  }

  /** A field that is not complete. */
  lemma PartOfField(v: View, bytes: seq<Byte>)
    requires |bytes| < Left(v) && !v.Failed?
    ensures Feed(v, bytes).1 == [] && !Feed(v, bytes).0.Failed?
  {
    if bytes != [] {
      FeedGathers(v, bytes);
    }
  }

  /** A message is complete, and what follows is fed. */
  lemma ThenNext(v: View, a: seq<Byte>, m: Msg, b: seq<Byte>)
    requires Feed(v, a) == (START, [m])
    ensures Feed(v, a + b) == (Feed(START, b).0, [m] + Feed(START, b).1)
  {
    FeedConcat(v, a, b);
  }

  lemma BodyParses(flags: Byte, size: nat, bytes: seq<Byte>)
    requires size > 0
    ensures var v := Body(Unmasked(flags), size, []);
            if |bytes| < size then Feed(v, bytes).1 == [] && !Feed(v, bytes).0.Failed?
            else Feed(v, bytes) == (Feed(START, bytes[size..]).0, [Received(bytes[..size], flags)] + Feed(START, bytes[size..]).1)
  {
    var v := Body(Unmasked(flags), size, []);
    if |bytes| < size {
      PartOfField(v, bytes);
    } else {
      FeedGathers(v, bytes[..size]);
      assert [] + bytes[..size] == bytes[..size];
      ThenNext(v, bytes[..size], Received(bytes[..size], flags), bytes[size..]);
      assert bytes == bytes[..size] + bytes[size..];
    }
  }

  lemma FlagsFed(size: nat, flags: Byte)
    ensures Feed(FlagsByte(size, []), [flags]) ==
            if size == 0 then (START, [Received([], flags)]) else (Body(Unmasked(flags), size, []), [])
  {
    FeedGathers(FlagsByte(size, []), [flags]);
    assert Gather(FlagsByte(size, []), [flags]) == FlagsByte(size, [flags]);
  }

  lemma {:induction false} FlagsParse(size: nat, bytes: seq<Byte>)
    ensures Agrees(Feed(FlagsByte(size, []), bytes), ParseBody(bytes, size))
    decreases |bytes|, 0
  {
    if bytes == [] {
      PartOfField(FlagsByte(size, []), bytes);
    } else {
      var rest := bytes[1..];
      assert bytes == [bytes[0]] + rest;
      FlagsFed(size, bytes[0]);
      if size == 0 {
        assert bytes[1..1] == [];
        ThenNext(FlagsByte(0, []), [bytes[0]], Received([], bytes[0]), rest);
        DecoderIsParser(rest);
      } else {
        FeedThen(FlagsByte(size, []), [bytes[0]], Body(Unmasked(bytes[0]), size, []), rest);
        BodyParses(bytes[0], size, rest);
        if |rest| >= size {
          assert rest[..size] == bytes[1..size + 1] && rest[size..] == bytes[size + 1..];
          DecoderIsParser(rest[size..]);
        }
      }
    }
  }

  /** For all bytes, whoever sent them: the decoder delivers exactly the messages that can be read off them, and
      fails exactly at a size of zero. */
  lemma {:induction false} DecoderIsParser(bytes: seq<Byte>)
    ensures Agrees(Feed(START, bytes), Parse(bytes))
    decreases |bytes|, 1
  {
    if bytes != [] {
      var first, rest := [bytes[0]], bytes[1..];
      assert bytes == first + rest;
      FeedGathers(START, first);
      assert Gather(START, first) == OneByteSize(first);
      if bytes[0] == 0 {
        FeedThen(START, first, Failed, rest);
        FeedFailed(rest);
      } else if bytes[0] < 255 {
        FeedThen(START, first, FlagsByte(bytes[0] - 1, []), rest);
        FlagsParse(bytes[0] - 1, rest);
      } else {
        FeedThen(START, first, EightByteSize([]), rest);
        LongParses(rest);
        if |bytes| >= 9 {
          assert rest[..8] == bytes[1..9] && rest[8..] == bytes[9..];
          FlagsParse(if Value8(bytes[1..9]) == 0 then 0 else Value8(bytes[1..9]) - 1, rest[8..]);
        }
      }
    }
  }

  /** The eight bytes of size after the escape byte. */
  lemma LongParses(bytes: seq<Byte>)
    ensures
      var v := EightByteSize([]);
      if |bytes| < 8 then Feed(v, bytes).1 == [] && !Feed(v, bytes).0.Failed?
      else if Value8(bytes[..8]) == 0 then Feed(v, bytes) == (Failed, [])
      else Feed(v, bytes) == Feed(FlagsByte(Value8(bytes[..8]) - 1, []), bytes[8..])
  {
    var v := EightByteSize([]);
    if |bytes| < 8 {
      PartOfField(v, bytes);
    } else {
      var sizes := bytes[..8];
      FeedGathers(v, sizes);
      assert Gather(v, sizes) == EightByteSize(sizes);
      FromEightBytes(sizes);
      assert bytes == sizes + bytes[8..];
      FeedThen(v, sizes, Act(EightByteSize(sizes)), bytes[8..]);
      FeedFailed(bytes[8..]);
    }
  }
}
