/**
 A stream of length-prefixed messages: [len: u16][kind: u8][body], len counting the three header
 bytes. Two parsers read it, one in place and one through a copy of each message.
 */
module Parse {
  import opened Bits
  import opened LittleEndian
  import opened LobTypes
  import opened Wrappers

  datatype Frame = Frame(kind: byte, body: seq<byte>)

  const HEADER: nat := 3
  const BODY: nat := 8
  const TRADE: byte := 1
  const HEARTBEAT: byte := 2

  // ---------- framing ----------

  function Len(s: seq<byte>): nat
    requires |s| >= HEADER
  {
    Le(s[..2])
  }

  /** A whole message is at the front. */
  predicate Complete(s: seq<byte>) {
    |s| >= HEADER && HEADER <= Len(s) <= |s|
  }

  function FrontFrame(s: seq<byte>): Frame
    requires Complete(s)
  {
    Frame(s[2], s[HEADER..Len(s)])
  }

  /** The messages a parser reaches, and the bytes it stops at. */
  function Frames(s: seq<byte>): seq<Frame>
    decreases |s|
  {
    if !Complete(s) then [] else [FrontFrame(s)] + Frames(s[Len(s)..])
  }

  function Rest(s: seq<byte>): seq<byte>
    decreases |s|
  {
    if !Complete(s) then s else Rest(s[Len(s)..])
  }

  predicate Encodable(f: Frame) {
    HEADER + |f.body| < 0x1_0000
  }

  function Encode(f: Frame): seq<byte> {
    LeBytes(HEADER + |f.body|, 2) + [f.kind] + f.body
  }

  function Stream(fs: seq<Frame>): seq<byte> {
    if fs == [] then [] else Encode(fs[0]) + Stream(fs[1..])
  }

  /** Writing a message in front and reading the front message are inverse. */
  lemma FrontOfEncoded(f: Frame, s: seq<byte>)
    requires Encodable(f)
    ensures var t := Encode(f) + s;
            Complete(t) && FrontFrame(t) == f && t[Len(t)..] == s
  {
    var t := Encode(f) + s;
    Pow2Eight();
    LeRoundTrip(HEADER + |f.body|, 2);
    assert t[..2] == LeBytes(HEADER + |f.body|, 2);
  }

  lemma EncodedFront(s: seq<byte>)
    requires Complete(s)
    ensures Encodable(FrontFrame(s)) && Encode(FrontFrame(s)) + s[Len(s)..] == s
  {
    Pow2Eight();
    LeBelow(s[..2]);
    LeBytesBack(s[..2]);
    assert s == s[..2] + [s[2]] + s[HEADER..Len(s)] + s[Len(s)..];
  }

  /** Framing is exact, both ways: fs are the messages in s and r the bytes left exactly when s is fs
      written one after the other and then r, which starts no whole message. */
  lemma {:induction false} FramingIsExact(s: seq<byte>, fs: seq<Frame>, r: seq<byte>)
    ensures fs == Frames(s) && r == Rest(s) <==>
            s == Stream(fs) + r && !Complete(r) && forall k :: 0 <= k < |fs| ==> Encodable(fs[k])
    decreases |s| + |fs|
  {
    hide Encode, Encodable, FrontFrame, Frames, Rest, Stream;
    FramesUnfold(s);
    StreamUnfold(fs);
    if Complete(s) {
      EncodedFront(s);
    }
    if fs != [] {
      if Encodable(fs[0]) {
        FrontOfEncoded(fs[0], Stream(fs[1..]) + r);
        assert Stream(fs) + r == Encode(fs[0]) + (Stream(fs[1..]) + r);
      }
      if Complete(s) {
        FramingIsExact(s[Len(s)..], fs[1..], r);
      }
    } else {
      assert Stream(fs) + r == r;
    }
  }

  lemma FramesUnfold(s: seq<byte>)
    ensures Frames(s) == if !Complete(s) then [] else [FrontFrame(s)] + Frames(s[Len(s)..])
    ensures Rest(s) == if !Complete(s) then s else Rest(s[Len(s)..])
  {
  }

  lemma StreamUnfold(fs: seq<Frame>)
    ensures Stream(fs) == if fs == [] then [] else Encode(fs[0]) + Stream(fs[1..])
  {
  }

  // ---------- what a message adds to the sink ----------

  predicate Typed(f: Frame) {
    f.kind == TRADE || f.kind == HEARTBEAT
  }

  /** The value of an eight-byte body: price plus quantity in 32 bits, or a time stamp. */
  function Value(kind: byte, body: seq<byte>): nat
    requires |body| >= BODY
  {
    if kind == TRADE then (Le(body[..4]) + Le(body[4..8])) % TWO_TO_32 else Le(body[..8])
  }

  /** A body too short for its kind adds nothing. */
  function Adds(f: Frame): nat {
    if Typed(f) && |f.body| >= BODY then Value(f.kind, f.body) else 0
  }

  /** The sum over all messages, before 64-bit wrap-around. */
  function Sum(fs: seq<Frame>): nat {
    if fs == [] then 0 else Adds(fs[0]) + Sum(fs[1..])
  }

  /** One byte short, and so read together with the terminator of the copied string. */
  predicate Padded(f: Frame) {
    Typed(f) && |f.body| == BODY - 1
  }

  /** What the copying parser reads from such a message. */
  function Extra(f: Frame): nat {
    if Padded(f) then Value(f.kind, f.body + [0]) else 0
  }

  function Stray(fs: seq<Frame>): nat {
    if fs == [] then 0 else Extra(fs[0]) + Stray(fs[1..])
  }

  /** Too short even with the terminator: the copying parser reads past its string. */
  predicate Overread(f: Frame) {
    Typed(f) && |f.body| < BODY - 1
  }

  predicate NoOverread(fs: seq<Frame>) {
    forall f :: f in fs ==> !Overread(f)
  }

  // ---------- the two parsers ----------

  method ParseInPlace(buf: seq<byte>) returns (sink: nat)
    ensures sink == Sum(Frames(buf)) % WORD
  {
    hide Frames, Sum, Stray, Le;
    var p := 0;
    sink := 0;
    NoFrames(buf);
    assert buf[0..] == buf;
    while p + HEADER <= |buf|
      invariant p <= |buf| && sink < WORD
      invariant (sink + Sum(Frames(buf[p..]))) % WORD == Sum(Frames(buf)) % WORD
      decreases |buf| - p
    {
      ghost var s := buf[p..];
      ghost var before := sink;
      var len := Le(buf[p..p + 2]);
      assert s[..2] == buf[p..p + 2];
      if len < HEADER || p + len > |buf| {
        break;
      }
      var body := buf[p + HEADER..p + len];
      var kind := buf[p + 2];
      NextFrame(s, Frame(kind, body));
      assert s[len..] == buf[p + len..];
      if kind == TRADE && len >= HEADER + BODY {
        sink := (sink + (Le(body[..4]) + Le(body[4..8])) % TWO_TO_32) % WORD;
      } else if kind == HEARTBEAT && len >= HEADER + BODY {
        sink := (sink + Le(body[..8])) % WORD;
      }
      Accumulate(before, Adds(Frame(kind, body)), Sum(Frames(s[len..])), Sum(Frames(buf)));
      p := p + len;
    }
    NoFrames(buf[p..]);
  }

  /** Adding a part now or later makes no difference modulo the word size. */
  lemma Accumulate(sink: nat, add: nat, rest: nat, all: nat)
    requires sink < WORD && (sink + add + rest) % WORD == all % WORD
    ensures ((sink + add) % WORD + rest) % WORD == all % WORD
    ensures add == 0 ==> (sink + add) % WORD == sink
  {
  }

  lemma NoFrames(s: seq<byte>)
    ensures !Complete(s) ==> Frames(s) == [] && Sum(Frames(s)) == 0 && Stray(Frames(s)) == 0 && NoOverread(Frames(s))
  {
  }

  lemma NextFrame(s: seq<byte>, f: Frame)
    requires Complete(s) && f == FrontFrame(s)
    ensures Frames(s) == [f] + Frames(s[Len(s)..])
    ensures Sum(Frames(s)) == Adds(f) + Sum(Frames(s[Len(s)..]))
    ensures Stray(Frames(s)) == Extra(f) + Stray(Frames(s[Len(s)..]))
    ensures NoOverread(Frames(s)) <==> !Overread(f) && NoOverread(Frames(s[Len(s)..]))
    ensures !Typed(f) ==> Adds(f) == 0 && Extra(f) == 0
  {
  }

  /** Each message is copied into a string, which keeps a zero byte after its contents. None when a
      body is read past that zero byte: exactly when a typed body is shorter than seven bytes. */
  method ParseCopy(buf: seq<byte>) returns (sink: Option<nat>)
    ensures sink.Some? <==> NoOverread(Frames(buf))
    ensures sink.Some? ==> sink.value == (Sum(Frames(buf)) + Stray(Frames(buf))) % WORD
  {
    hide Frames, Sum, Stray, Le, Value, Adds, Extra, NoOverread;
    assert buf[0..] == buf;
    var p: nat, sum: nat := 0, 0;
    while p + HEADER <= |buf|
      invariant p <= |buf| && sum < WORD
      invariant (sum + Sum(Frames(buf[p..])) + Stray(Frames(buf[p..]))) % WORD
                == (Sum(Frames(buf)) + Stray(Frames(buf))) % WORD
      invariant NoOverread(Frames(buf[p..])) <==> NoOverread(Frames(buf))
      decreases |buf| - p
    {
      ghost var s := buf[p..];
      ghost var before := sum;
      var len := Le(buf[p..p + 2]);
      assert s[..2] == buf[p..p + 2];
      if len < HEADER || p + len > |buf| {
        break;
      }
      var copy := buf[p..p + len] + [0];
      var kind := copy[2];
      ghost var f := Frame(kind, buf[p + HEADER..p + len]);
      NextFrame(s, f);
      assert s[len..] == buf[p + len..];
      if kind == TRADE || kind == HEARTBEAT {
        if HEADER + BODY > |copy| {
          assert Overread(f);
          return None;
        }
        CopyReads(f, copy);
        if kind == TRADE {
          sum := (sum + (Le(copy[3..7]) + Le(copy[7..11])) % TWO_TO_32) % WORD;
        } else {
          sum := (sum + Le(copy[3..11])) % WORD;
        }
      }
      Accumulate(before, Adds(f) + Extra(f), Sum(Frames(s[len..])) + Stray(Frames(s[len..])),
                 Sum(Frames(buf)) + Stray(Frames(buf)));
      p := p + len;
    }
    NoFrames(buf[p..]);
    return Some(sum);
  }

  /** The copy of a message holds its body and a zero. */
  lemma CopyReads(f: Frame, copy: seq<byte>)
    requires Typed(f) && |f.body| >= BODY - 1 && |copy| == HEADER + |f.body| + 1
    requires copy[HEADER..] == f.body + [0]
    ensures (if f.kind == TRADE then (Le(copy[3..7]) + Le(copy[7..11])) % TWO_TO_32 else Le(copy[3..11]))
            == Adds(f) + Extra(f)
  {
    var b := f.body + [0];
    assert copy[3..7] == b[..4] && copy[7..11] == b[4..8] && copy[3..11] == b[..8];
    if |f.body| >= BODY {
      assert b[..4] == f.body[..4] && b[4..8] == f.body[4..8] && b[..8] == f.body[..8];
    }
  }

  /** Both parsers on one buffer. They agree exactly when the copying one stays in bounds and what it
      reads from seven-byte bodies adds up to nothing; in particular when every typed body is full. */
  method ParsersAgree(buf: seq<byte>) returns (inPlace: nat, copied: Option<nat>)
    ensures copied == Some(inPlace) <==>
            NoOverread(Frames(buf)) && Stray(Frames(buf)) % WORD == 0
    ensures (forall f :: f in Frames(buf) && Typed(f) ==> |f.body| >= BODY) ==> copied == Some(inPlace)
  {
    hide Frames, Sum, Stray;
    inPlace := ParseInPlace(buf);
    copied := ParseCopy(buf);
    AddsNothing(Sum(Frames(buf)), Stray(Frames(buf)));
    if forall f :: f in Frames(buf) && Typed(f) ==> |f.body| >= BODY {
      FullNoStray(Frames(buf));
    }
  }

  /** A trade of seven bytes, price 5 and one lot but for its last byte; and a trade without a body. */
  const SHORT_TRADE: seq<byte> := [10, 0, 1, 5, 0, 0, 0, 1, 0, 0]
  const EMPTY_TRADE: seq<byte> := [3, 0, 1]

  /** On these two inputs the parsers disagree: 0 against 6, and 0 against an out-of-bounds read. */
  method ParsersCanDiffer() returns (short: nat, shortCopy: Option<nat>, empty: nat, emptyCopy: Option<nat>)
    ensures short == 0 && shortCopy == Some(6)
    ensures empty == 0 && emptyCopy == None
  {
    ShortTrades();
    short := ParseInPlace(SHORT_TRADE);
    shortCopy := ParseCopy(SHORT_TRADE);
    empty := ParseInPlace(EMPTY_TRADE);
    emptyCopy := ParseCopy(EMPTY_TRADE);
  }

  lemma ShortTrades()
    ensures Sum(Frames(SHORT_TRADE)) == 0 && Stray(Frames(SHORT_TRADE)) == 6 && NoOverread(Frames(SHORT_TRADE))
    ensures Sum(Frames(EMPTY_TRADE)) == 0 && !NoOverread(Frames(EMPTY_TRADE))
  {
    hide Frames, Sum, Stray, NoOverread, Le, Complete;
    var b: seq<byte> := [5, 0, 0, 0, 1, 0, 0];
    FrameAt(SHORT_TRADE, 10, 1, b, []);
    FrameAt(EMPTY_TRADE, 3, 1, [], []);
    CutOff([]);
    assert SHORT_TRADE + [] == SHORT_TRADE && EMPTY_TRADE + [] == EMPTY_TRADE;
    assert (b + [0])[..4] == [5, 0, 0, 0] && (b + [0])[4..8] == [1, 0, 0, 0];
    LeShort(5, 0);
    LeShort(1, 0);
  }

  /** A trade, a heartbeat with a byte to spare, a message of unknown kind, and a message cut off: price 5 and
      2 lots, the time stamp 9, nothing, nothing. */
  const SAMPLE_TRADE: seq<byte> := [11, 0, 1, 5, 0, 0, 0, 2, 0, 0, 0]
  const SAMPLE_STAMP: seq<byte> := [12, 0, 2, 9, 0, 0, 0, 0, 0, 0, 0, 255]
  const SAMPLE_OTHER: seq<byte> := [11, 0, 3, 5, 0, 0, 0, 2, 0, 0, 0]
  const SAMPLE_CUT: seq<byte> := [11, 0, 1, 7]

  /** What both parsers make of it: 5 + 2 + 9. */
  method ParseSample() returns (inPlace: nat, copied: Option<nat>)
    ensures inPlace == 16 && copied == Some(16)
  {
    hide Frames, Sum, Stray, NoOverread;
    var buf := SAMPLE_TRADE + (SAMPLE_STAMP + (SAMPLE_OTHER + SAMPLE_CUT));
    SampleFrames(SAMPLE_TRADE, SAMPLE_STAMP, SAMPLE_OTHER, SAMPLE_CUT);
    inPlace := ParseInPlace(buf);
    copied := ParseCopy(buf);
  }

  lemma SampleFrames(trade: seq<byte>, stamp: seq<byte>, other: seq<byte>, cut: seq<byte>)
    requires trade == SAMPLE_TRADE && stamp == SAMPLE_STAMP && other == SAMPLE_OTHER && cut == SAMPLE_CUT
    ensures var fs := Frames(trade + (stamp + (other + cut)));
            Sum(fs) == 16 && Stray(fs) == 0 && NoOverread(fs)
  {
    hide Complete, Frames, Sum, Stray, Adds, Extra, NoOverread, Overread;
    var b1: seq<byte> := [5, 0, 0, 0, 2, 0, 0, 0];
    var b2: seq<byte> := [9, 0, 0, 0, 0, 0, 0, 0, 255];
    FrameAt(trade, 11, 1, b1, stamp + (other + cut));
    FrameAt(stamp, 12, 2, b2, other + cut);
    FrameAt(other, 11, 3, b1, cut);
    CutOff(cut);
    SampleBodies(b1, b2);
  }

  /** A whole message in front of anything. */
  lemma FrameAt(s: seq<byte>, len: byte, kind: byte, body: seq<byte>, rest: seq<byte>)
    requires s == [len, 0, kind] + body && len as int == HEADER + |body|
    ensures var f := Frame(kind, body);
            && Frames(s + rest) == [f] + Frames(rest)
            && Sum(Frames(s + rest)) == Adds(f) + Sum(Frames(rest))
            && Stray(Frames(s + rest)) == Extra(f) + Stray(Frames(rest))
            && (NoOverread(Frames(s + rest)) <==> !Overread(f) && NoOverread(Frames(rest)))
  {
    var t := s + rest;
    LeShort(len, 0);
    assert t[..2] == [len, 0];
    assert t[HEADER..Len(t)] == body && t[Len(t)..] == rest;
    hide Sum, Stray, Adds, Extra, NoOverread, Overread;
    NextFrame(t, Frame(kind, body));
  }

  lemma CutOff(cut: seq<byte>)
    requires cut == SAMPLE_CUT || cut == []
    ensures Sum(Frames(cut)) == 0 && Stray(Frames(cut)) == 0 && NoOverread(Frames(cut)) && Frames(cut) == []
  {
    LeShort(11, 0);
    if cut != [] {
      assert cut[..2] == [11, 0];
    }
    NoFrames(cut);
  }

  lemma SampleBodies(b1: seq<byte>, b2: seq<byte>)
    requires b1 == [5, 0, 0, 0, 2, 0, 0, 0] && b2 == [9, 0, 0, 0, 0, 0, 0, 0, 255]
    ensures Adds(Frame(1, b1)) == 7 && Extra(Frame(1, b1)) == 0 && !Overread(Frame(1, b1))
    ensures Adds(Frame(2, b2)) == 9 && Extra(Frame(2, b2)) == 0 && !Overread(Frame(2, b2))
    ensures Adds(Frame(3, b1)) == 0 && Extra(Frame(3, b1)) == 0 && !Overread(Frame(3, b1))
  {
    hide Le;
    LeShort(5, 0);
    LeShort(2, 0);
    LeEight(9);
    assert b1[..4] == [5, 0, 0, 0] && b1[4..8] == [2, 0, 0, 0] && b2[..8] == [9, 0, 0, 0, 0, 0, 0, 0];
  }

  lemma LeEight(a: byte)
    ensures Le([a, 0, 0, 0, 0, 0, 0, 0]) == a as nat
  {
    var s: seq<byte> := [a, 0, 0, 0, 0, 0, 0, 0];
    var z: seq<byte> := [0, 0, 0, 0, 0, 0, 0];
    assert s[1..] == z;
    Zeros(z);
  }

  lemma {:induction false} Zeros(z: seq<byte>)
    requires forall k :: 0 <= k < |z| ==> z[k] == 0
    ensures Le(z) == 0
  {
    if z != [] {
      Zeros(z[1..]);
    }
  }

  lemma LeShort(a: byte, b: byte)
    ensures Le([a, b]) == a + 256 * b && Le([a, 0, 0, 0]) == a
  {
    assert [a, b][1..] == [b] && [b][1..] == [];
    assert Le([b]) == b + 256 * Le([]);
    assert [a, 0, 0, 0][1..] == [0, 0, 0] && [0, 0, 0][1..] == [0, 0] && [0, 0][1..] == [0];
    assert Le([0]) == 0 + 256 * Le([]) && Le([0, 0]) == 256 * Le([0]);
  }

  lemma AddsNothing(a: nat, b: nat)
    ensures (a + b) % WORD == a % WORD <==> b % WORD == 0
  {
  }

  lemma {:induction false} FullNoStray(fs: seq<Frame>)
    requires forall f :: f in fs && Typed(f) ==> |f.body| >= BODY
    ensures Stray(fs) == 0
  {
    if fs != [] {
      assert fs[0] in fs;
      FullNoStray(fs[1..]);
    }
  }

  // ---------- the generated stream ----------

  /** Every eighth message is a heartbeat, the others trade one lot at a price that counts up. */
  function Message(i: nat): Frame {
    if i % 8 == 0 then Frame(HEARTBEAT, LeBytes(i, 8)) else Frame(TRADE, LeBytes(i % TWO_TO_32, 4) + LeBytes(1, 4))
  }

  function Messages(n: nat): (r: seq<Frame>)
    ensures |r| == n
    ensures forall i :: 0 <= i < n ==> r[i] == Message(i)
  {
    seq(n, i requires 0 <= i => Message(i))
  }

  method Build(n: nat) returns (buf: seq<byte>)
    requires n < WORD
    ensures Frames(buf) == Messages(n) && Rest(buf) == []
  {
    hide Frames, Rest, Stream, LeBytes, And, Pow2;
    buf := [];
    Pow2Double(0);
    Pow2Add(1, 1);
    Pow2Add(1, 2);
    var i := 0;
    StreamUnfold([]);
    assert Messages(0) == [];
    while i < n
      invariant i <= n
      invariant buf == Stream(Messages(i))
    {
      MaskIsMod(i, 3);
      if And(i, 7) == 0 {
        buf := buf + LeBytes(11, 2) + [HEARTBEAT] + LeBytes(i, 8);
      } else {
        buf := buf + LeBytes(11, 2) + [TRADE] + LeBytes(i % TWO_TO_32, 4) + LeBytes(1, 4);
      }
      StreamSnoc(Messages(i), Message(i));
      assert Messages(i + 1) == Messages(i) + [Message(i)];
      assert buf == Stream(Messages(i)) + Encode(Message(i));
      i := i + 1;
    }
    assert buf == buf + [];
    FramingIsExact(buf, Messages(n), []);
  }

  lemma {:induction false} StreamSnoc(fs: seq<Frame>, f: Frame)
    ensures Stream(fs + [f]) == Stream(fs) + Encode(f)
  {
    if fs == [] {
      assert fs + [f] == [f];
    } else {
      assert (fs + [f])[1..] == fs[1..] + [f];
      StreamSnoc(fs[1..], f);
      assert Encode(fs[0]) + (Stream(fs[1..]) + Encode(f)) == Encode(fs[0]) + Stream(fs[1..]) + Encode(f);
    }
  }

  lemma {:induction false} SumSnoc(fs: seq<Frame>, f: Frame)
    ensures Sum(fs + [f]) == Sum(fs) + Adds(f)
  {
    if fs == [] {
      assert fs + [f] == [f];
    } else {
      assert (fs + [f])[1..] == fs[1..] + [f];
      SumSnoc(fs[1..], f);
    }
  }

  /** Message i read back: every eighth a heartbeat stamped i, the others a trade of one lot at price i in 32
      bits. */
  lemma MessageReads(i: nat)
    requires i < WORD
    ensures var f := Message(i);
            && |f.body| == 8
            && if i % 8 == 0 then f.kind == 2 && Le(f.body[..8]) == i
               else f.kind == 1 && Le(f.body[..4]) == i % 0x1_0000_0000 && Le(f.body[4..8]) == 1
  {
    hide Le, LeBytes, Pow2;
    var b := Message(i).body;
    WordIsPow2();
    if i % 8 == 0 {
      LeRoundTrip(i, 8);
      assert b[..8] == b;
    } else {
      LeRoundTrip(i % TWO_TO_32, 4);
      LeRoundTrip(1, 4);
      assert b[..4] == LeBytes(i % TWO_TO_32, 4) && b[4..8] == LeBytes(1, 4);
    }
  }

  /** What message i adds: its number, one more for a trade, in 32 bits. */
  lemma MessageAdds(i: nat)
    requires i < WORD
    ensures Adds(Message(i)) == if i % 8 == 0 then i else (i + 1) % TWO_TO_32
  {
    hide Le, LeBytes;
    MessageReads(i);
    assert (i % TWO_TO_32 + 1) % TWO_TO_32 == (i + 1) % TWO_TO_32;
  }

  function BuiltSum(n: nat): nat {
    if n == 0 then 0 else BuiltSum(n - 1) + if (n - 1) % 8 == 0 then n - 1 else n % TWO_TO_32
  }

  lemma {:induction false} MessagesSum(n: nat)
    requires n <= WORD
    ensures Sum(Messages(n)) == BuiltSum(n)
  {
    if n > 0 {
      hide Adds, Sum, Message;
      MessagesSum(n - 1);
      MessageAdds(n - 1);
      SumSnoc(Messages(n - 1), Message(n - 1));
      assert Messages(n) == Messages(n - 1) + [Message(n - 1)];
    } else {
      assert Messages(0) == [];
    }
  }

  /** How often the 32-bit trade sums of n messages have wrapped around, all together. */
  function Wraps(n: nat): nat {
    if n == 0 then 0 else Wraps(n - 1) + if (n - 1) % 8 == 0 then 0 else n / TWO_TO_32
  }

  /** The sum is closed for every length: 0 + 1 + ... + (n - 1), one more per trade, less 2^32 per
      wrap-around; and the wrap-arounds are closed as well. */
  lemma BuiltSumClosed(n: nat)
    ensures 2 * BuiltSum(n) == n * (n - 1) + 2 * (n - (n + 7) / 8) - 2 * TWO_TO_32 * Wraps(n)
    ensures var q, r := n / TWO_TO_32, n % TWO_TO_32;
            2 * Wraps(n) == 7 * (TWO_TO_32 / 8) * (q * (q - 1)) + 2 * (q * (r + 1 - (r + 7) / 8))
  {
    SumWithWraps(n);
    WrapsClosed(n);
  }

  lemma Growth(n: nat)
    requires n > 0
    ensures n * (n - 1) == (n - 1) * (n - 2) + 2 * (n - 1)
    ensures (n + 7) / 8 == (n + 6) / 8 + if (n - 1) % 8 == 0 then 1 else 0
  {
  }

  lemma {:induction false} SumWithWraps(n: nat)
    ensures 2 * BuiltSum(n) == n * (n - 1) + 2 * (n - (n + 7) / 8) - 2 * TWO_TO_32 * Wraps(n)
  {
    if n > 0 {
      SumWithWraps(n - 1);
      DivMod(n, TWO_TO_32);
      Growth(n);
      SumStep(n, BuiltSum(n - 1), BuiltSum(n), Wraps(n - 1), Wraps(n));
    }
  }

  lemma SumStep(n: nat, sum: nat, sum': nat, wraps: nat, wraps': nat)
    requires n > 0 && n % TWO_TO_32 == n - TWO_TO_32 * (n / TWO_TO_32)
    requires n * (n - 1) == (n - 1) * (n - 2) + 2 * (n - 1)
    requires (n + 7) / 8 == (n + 6) / 8 + if (n - 1) % 8 == 0 then 1 else 0
    requires sum' == sum + if (n - 1) % 8 == 0 then n - 1 else n % TWO_TO_32
    requires wraps' == wraps + if (n - 1) % 8 == 0 then 0 else n / TWO_TO_32
    requires 2 * sum == (n - 1) * (n - 2) + 2 * (n - 1 - (n + 6) / 8) - 2 * TWO_TO_32 * wraps
    ensures 2 * sum' == n * (n - 1) + 2 * (n - (n + 7) / 8) - 2 * TWO_TO_32 * wraps'
  {
  }

  lemma WrapsUnfold(n: nat)
    ensures Wraps(n) == if n == 0 then 0 else Wraps(n - 1) + if (n - 1) % 8 == 0 then 0 else n / TWO_TO_32
  {
  }

  lemma {:induction false} WrapsClosed(n: nat)
    ensures var q, r := n / TWO_TO_32, n % TWO_TO_32;
            2 * Wraps(n) == 7 * (TWO_TO_32 / 8) * (q * (q - 1)) + 2 * (q * (r + 1 - (r + 7) / 8))
  {
    hide Wraps;
    WrapsUnfold(n);
    if n > 0 {
      WrapsClosed(n - 1);
      if n % TWO_TO_32 > 0 {
        SameCycle(n);
        WithinCycle(n / TWO_TO_32, n % TWO_TO_32, Wraps(n - 1), Wraps(n));
      } else {
        NextCycle(n);
        AcrossCycles(n / TWO_TO_32, Wraps(n - 1), Wraps(n));
      }
    }
  }

  lemma WithinCycle(q: nat, r: nat, before: nat, after: nat)
    requires r > 0 && after == before + if (r - 1) % 8 == 0 then 0 else q
    requires 2 * before == 7 * (TWO_TO_32 / 8) * (q * (q - 1)) + 2 * (q * (r - (r + 6) / 8))
    ensures 2 * after == 7 * (TWO_TO_32 / 8) * (q * (q - 1)) + 2 * (q * (r + 1 - (r + 7) / 8))
  {
    Growth(r);
    var a, b := r - (r + 6) / 8, r + 1 - (r + 7) / 8;
    assert q * b == q * a + q * (b - a);
  }

  lemma AcrossCycles(q: nat, before: nat, after: nat)
    requires q > 0 && after == before + q
    requires 2 * before == 7 * (TWO_TO_32 / 8) * ((q - 1) * (q - 2)) + 2 * ((q - 1) * (7 * (TWO_TO_32 / 8)))
    ensures 2 * after == 7 * (TWO_TO_32 / 8) * (q * (q - 1)) + 2 * (q * 1)
  {
    Growth(q);
  }

  /** n - 1 is in the cycle of n. */
  lemma SameCycle(n: nat)
    requires n % TWO_TO_32 > 0
    ensures (n - 1) / TWO_TO_32 == n / TWO_TO_32 && (n - 1) % TWO_TO_32 == n % TWO_TO_32 - 1
    ensures (n - 1) % 8 == (n % TWO_TO_32 - 1) % 8
  {
    var q, r := n / TWO_TO_32, n % TWO_TO_32;
    DivMod(n, TWO_TO_32);
    ModUnique(n - 1, TWO_TO_32, q, r - 1);
    EighthsOfCycles(q, r - 1);
  }

  /** A cycle is a multiple of 8. */
  lemma EighthsOfCycles(q: nat, a: nat)
    ensures (TWO_TO_32 * q + a) % 8 == a % 8
  {
    var b := TWO_TO_32 / 8 * q;
    assert TWO_TO_32 * q == 8 * b;
    DivMod(a, 8);
    ModUnique(8 * b + a, 8, b + a / 8, a % 8);
  }

  /** n starts a cycle. */
  lemma NextCycle(n: nat)
    requires n > 0 && n % TWO_TO_32 == 0
    ensures n / TWO_TO_32 > 0
    ensures (n - 1) / TWO_TO_32 == n / TWO_TO_32 - 1 && (n - 1) % TWO_TO_32 == TWO_TO_32 - 1
    ensures (n - 1) % 8 == 7
  {
    var q := n / TWO_TO_32;
    DivMod(n, TWO_TO_32);
    ModUnique(n - 1, TWO_TO_32, q - 1, TWO_TO_32 - 1);
    EighthsOfCycles(q - 1, TWO_TO_32 - 1);
  }

  /** The program: build a stream and run one parser over it. Both give the same sink. */
  method RunParse(n: nat, copy: bool) returns (sink: Option<nat>)
    requires n < WORD
    ensures sink == Some(BuiltSum(n) % WORD)
  {
    var buf := Build(n);
    MessagesSum(n);
    forall f | f in Frames(buf)
      ensures |f.body| >= BODY
    {
    }
    FullNoStray(Frames(buf));
    if copy {
      sink := ParseCopy(buf);
    } else {
      var s := ParseInPlace(buf);
      sink := Some(s);
    }
  }
}
