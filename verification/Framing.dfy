/** Length-prefixed messages over a byte stream: what the writers of object_database/message_bus.py and
    object_database/DatabaseConnectionPumpLoop.hpp produce, and what a reader should make of any stream. */
module Framing {
  import opened Common

  const MESSAGE_LEN_BYTES := 4
  const SIGNED_LIMIT := 0x8000_0000
  const UNSIGNED_LIMIT := 0x1_0000_0000

  /** A length as four bytes, least significant first. */
  function EncodeLength(n: nat): (r: Bytes)
    requires n < UNSIGNED_LIMIT
    ensures |r| == MESSAGE_LEN_BYTES
  {
    [(n % 256) as Byte, (n / 256 % 256) as Byte, (n / 256 / 256 % 256) as Byte, (n / 256 / 256 / 256) as Byte]
  }

  function DecodeLength(b: Bytes): (n: nat)
    requires |b| == MESSAGE_LEN_BYTES
    ensures n < UNSIGNED_LIMIT
  {
    b[0] as int + 256 * (b[1] as int + 256 * (b[2] as int + 256 * (b[3] as int)))
  }

  /** The lowest byte comes first. */
  lemma LeastSignificantFirst(n: nat)
    requires n < UNSIGNED_LIMIT
    ensures EncodeLength(n)[0] as int == n % 256 && EncodeLength(n)[1..] == EncodeLength(n / 256)[..3]
    ensures n < 256 ==> EncodeLength(n) == [n as Byte, 0, 0, 0]
  {
  }

  lemma LengthsRoundTrip(n: nat)
    requires n < UNSIGNED_LIMIT
    ensures DecodeLength(EncodeLength(n)) == n
  {
  }

  lemma LowDigit(digit: nat, high: nat)
    requires digit < 256
    ensures (digit + 256 * high) % 256 == digit && (digit + 256 * high) / 256 == high
  {
  }

  lemma HeadersRoundTrip(b: Bytes)
    requires |b| == MESSAGE_LEN_BYTES
    ensures EncodeLength(DecodeLength(b)) == b
  {
    var high2 := b[2] as int + 256 * (b[3] as int);
    var high1 := b[1] as int + 256 * high2;
    LowDigit(b[2] as int, b[3] as int);
    LowDigit(b[1] as int, high2);
    LowDigit(b[0] as int, high1);
  }

  /** One message on the wire, with or without its size repeated at the end. */
  function Frame(m: Bytes, sizeCheck: bool): Bytes
    requires |m| < UNSIGNED_LIMIT
  {
    EncodeLength(|m|) + m + if sizeCheck then EncodeLength(|m|) else []
  }

  ghost predicate Sendable(ms: seq<Bytes>, limit: nat) {
    forall n :: 0 <= n < |ms| ==> |ms[n]| < limit
  }

  ghost function Stream(ms: seq<Bytes>, sizeCheck: bool): Bytes
    requires Sendable(ms, UNSIGNED_LIMIT)
  {
    if ms == [] then [] else Frame(ms[0], sizeCheck) + Stream(ms[1..], sizeCheck)
  }

  /** The two readers. The Python reader takes lengths as signed numbers and may expect the size repeated.
      The C++ reader looks at a length only when there are bytes after it. */
  datatype Reader = PythonReader(sizeCheck: bool) | CppReader

  datatype Outcome = Complete | Corrupt | NegativeLength

  datatype Parsed = Parsed(messages: seq<Bytes>, rest: Bytes, outcome: Outcome)

  predicate Checks(r: Reader) {
    r.PythonReader? && r.sizeCheck
  }

  /** How many bytes the frame at the front of the stream takes. */
  function FrameSize(b: Bytes, r: Reader): nat
    requires |b| >= MESSAGE_LEN_BYTES
  {
    MESSAGE_LEN_BYTES + DecodeLength(b[..4]) + if Checks(r) then MESSAGE_LEN_BYTES else 0
  }

  predicate IsNegative(b: Bytes, r: Reader)
    requires |b| >= MESSAGE_LEN_BYTES
  {
    r.PythonReader? && SIGNED_LIMIT <= DecodeLength(b[..4])
  }

  /** The reader has to wait for more bytes. */
  predicate Incomplete(b: Bytes, r: Reader) {
    |b| < MESSAGE_LEN_BYTES
    || (!IsNegative(b, r) && (|b| < FrameSize(b, r) || (r.CppReader? && |b| == MESSAGE_LEN_BYTES)))
  }

  /** What a stream means to a reader: the messages it has completed and the bytes it has not used yet. */
  function Parse(b: Bytes, r: Reader): Parsed
    decreases |b|
  {
    if Incomplete(b, r) then Parsed([], b, Complete)
    else if IsNegative(b, r) then Parsed([], b, NegativeLength)
    else
      var n, size := DecodeLength(b[..4]), FrameSize(b, r);
      if Checks(r) && DecodeLength(b[4 + n..size]) != n then Parsed([], b[size..], Corrupt)
      else Prepend([b[4..4 + n]], Parse(b[size..], r))
  }

  function Prepend(ms: seq<Bytes>, p: Parsed): Parsed {
    p.(messages := ms + p.messages)
  }

  lemma PrependTwice(a: seq<Bytes>, b: seq<Bytes>, p: Parsed)
    ensures Prepend(a, Prepend(b, p)) == Prepend(a + b, p)
  {
  }

  /** More bytes do not change the frame at the front. */
  lemma FrontIsKept(a: Bytes, b: Bytes, r: Reader)
    requires !Incomplete(a, r) && !IsNegative(a, r)
    ensures !Incomplete(a + b, r) && !IsNegative(a + b, r)
    ensures var n, size := DecodeLength(a[..4]), FrameSize(a, r);
            && DecodeLength((a + b)[..4]) == n && FrameSize(a + b, r) == size
            && (a + b)[4..4 + n] == a[4..4 + n] && (a + b)[4 + n..size] == a[4 + n..size]
            && (a + b)[size..] == a[size..] + b
  {
  }

  lemma ParseFront(b: Bytes, r: Reader)
    requires !Incomplete(b, r) && !IsNegative(b, r)
    ensures var n, size := DecodeLength(b[..4]), FrameSize(b, r);
            Parse(b, r) == if Checks(r) && DecodeLength(b[4 + n..size]) != n then Parsed([], b[size..], Corrupt)
                           else Prepend([b[4..4 + n]], Parse(b[size..], r))
  {
  }

  /** How the stream is cut into chunks makes no difference: bytes that were left over are looked at again
      together with those that follow. */
  lemma {:induction false} ChunksDoNotMatter(a: Bytes, b: Bytes, r: Reader)
    requires Parse(a, r).outcome == Complete
    ensures Parse(a + b, r) == Prepend(Parse(a, r).messages, Parse(Parse(a, r).rest + b, r))
    decreases |a|
  {
    if Incomplete(a, r) {
      NothingParsed(a, r);
      hide Incomplete, Parse;
      PrependNothing(Parse(a + b, r));
    } else {
      FrontIsKept(a, b, r);
      ParseFront(a, r);
      ParseFront(a + b, r);
      hide DecodeLength, Incomplete, IsNegative, Parse, Prepend;
      var n, size := DecodeLength(a[..4]), FrameSize(a, r);
      ChunksDoNotMatter(a[size..], b, r);
      PrependTwice([a[4..4 + n]], Parse(a[size..], r).messages, Parse(Parse(a[size..], r).rest + b, r));
    }
  }

  lemma NothingParsed(b: Bytes, r: Reader)
    requires Incomplete(b, r)
    ensures Parse(b, r) == Parsed([], b, Complete)
  {
  }

  lemma PrependNothing(p: Parsed)
    ensures Prepend([], p) == p
  {
    assert [] + p.messages == p.messages;
  }

  /** A stream that parses is parsed just as well up to any point. */
  lemma {:induction false} PrefixParses(a: Bytes, b: Bytes, r: Reader)
    requires Parse(a + b, r).outcome == Complete
    ensures Parse(a, r).outcome == Complete
    decreases |a|
  {
    if Incomplete(a, r) {
      NothingParsed(a, r);
    } else {
      NotNegative(a, b, r);
      FrontIsKept(a, b, r);
      ParseFront(a, r);
      ParseFront(a + b, r);
      hide DecodeLength, Incomplete, IsNegative, Parse;
      PrefixParses(a[FrameSize(a, r)..], b, r);
    }
  }

  lemma NotNegative(a: Bytes, b: Bytes, r: Reader)
    requires Parse(a + b, r).outcome == Complete && |a| >= MESSAGE_LEN_BYTES
    ensures !IsNegative(a, r)
  {
    hide DecodeLength;
    assert (a + b)[..4] == a[..4];
  }

  lemma FrameParses(m: Bytes, r: Reader, rest: Bytes)
    requires |m| < (if r.PythonReader? then SIGNED_LIMIT else UNSIGNED_LIMIT)
    requires r.CppReader? ==> m != [] || rest != []
    ensures Parse(Frame(m, Checks(r)) + rest, r) == Prepend([m], Parse(rest, r))
  {
    var b := Frame(m, Checks(r)) + rest;
    LengthsRoundTrip(|m|);
    assert b[..4] == EncodeLength(|m|) && b[4..4 + |m|] == m;
    assert b[FrameSize(b, r)..] == rest;
    if Checks(r) {
      assert b[4 + |m|..FrameSize(b, r)] == EncodeLength(|m|);
    }
  }

  function Limit(r: Reader): nat {
    if r.PythonReader? then SIGNED_LIMIT else UNSIGNED_LIMIT
  }

  lemma StreamFront(ms: seq<Bytes>, sizeCheck: bool)
    requires Sendable(ms, UNSIGNED_LIMIT) && ms != []
    ensures Stream(ms, sizeCheck) == Frame(ms[0], sizeCheck) + Stream(ms[1..], sizeCheck)
    ensures |ms| > 1 ==> Stream(ms[1..], sizeCheck) != []
  {
  }

  lemma StreamStep(ms: seq<Bytes>, r: Reader)
    requires Sendable(ms, Limit(r)) && ms != [] && (r.CppReader? ==> ms[|ms| - 1] != [])
    requires Parse(Stream(ms[1..], Checks(r)), r) == Parsed(ms[1..], [], Complete)
    ensures Parse(Stream(ms, Checks(r)), r) == Parsed(ms, [], Complete)
  {
    hide Parse, Frame;
    StreamFront(ms, Checks(r));
    hide Stream;
    FrameParses(ms[0], r, Stream(ms[1..], Checks(r)));
    assert [ms[0]] + ms[1..] == ms;
  }

  /** Round trip: every message comes out, in order, and nothing is left over. */
  lemma {:induction false} StreamParses(ms: seq<Bytes>, r: Reader)
    requires Sendable(ms, Limit(r))
    requires r.CppReader? ==> ms == [] || ms[|ms| - 1] != []
    ensures Parse(Stream(ms, Checks(r)), r) == Parsed(ms, [], Complete)
  {
    if ms == [] {
    } else {
      StreamParses(ms[1..], r);
      StreamStep(ms, r);
    }
  }

  /** The C++ reader keeps an empty message back until something follows it, so it delivers everything
      exactly if the last message is not empty. */
  lemma {:induction false} CppDeliversAll(ms: seq<Bytes>)
    requires Sendable(ms, UNSIGNED_LIMIT)
    ensures Parse(Stream(ms, false), CppReader).messages == ms <==> ms == [] || ms[|ms| - 1] != []
  {
    if ms == [] || ms[|ms| - 1] != [] {
      StreamParses(ms, CppReader);
    } else {
      EmptyLastIsHeldBack(ms);
    }
  }

  lemma {:induction false} EmptyLastIsHeldBack(ms: seq<Bytes>)
    requires Sendable(ms, UNSIGNED_LIMIT) && ms != [] && ms[|ms| - 1] == []
    ensures Parse(Stream(ms, false), CppReader) == Parsed(ms[..|ms| - 1], EncodeLength(0), Complete)
  {
    if |ms| == 1 {
      HeldBack(ms);
    } else {
      EmptyLastIsHeldBack(ms[1..]);
      StreamFront(ms, false);
      hide *;
      FrameParses(ms[0], CppReader, Stream(ms[1..], false));
      PrependFront(ms, EncodeLength(0));
    }
  }

  lemma HeldBack(ms: seq<Bytes>)
    requires ms == [[]]
    ensures Parse(Stream(ms, false), CppReader) == Parsed(ms[..|ms| - 1], EncodeLength(0), Complete)
  {
    LengthsRoundTrip(0);
    assert Stream(ms[1..], false) == [] && Stream(ms, false) == EncodeLength(0);
  }

  lemma PrependFront(ms: seq<Bytes>, rest: Bytes)
    requires |ms| > 1
    ensures Prepend([ms[0]], Parsed(ms[1..][..|ms| - 2], rest, Complete)) == Parsed(ms[..|ms| - 1], rest, Complete)
  {
    assert [ms[0]] + ms[1..][..|ms| - 2] == ms[..|ms| - 1];
  }

  ghost function Joined(chunks: seq<Bytes>): Bytes {
    if chunks == [] then [] else Joined(chunks[..|chunks| - 1]) + chunks[|chunks| - 1]
  }

  /** All cases of parsing, with at most the first frame looked at. */
  lemma ParseCases(b: Bytes, r: Reader)
    ensures Incomplete(b, r) ==> Parse(b, r) == Parsed([], b, Complete)
    ensures Incomplete(b, r) ==> |b| < MESSAGE_LEN_BYTES || !IsNegative(b, r)
    ensures !Incomplete(b, r) ==> |b| >= MESSAGE_LEN_BYTES
    ensures |b| >= MESSAGE_LEN_BYTES && IsNegative(b, r) ==> Parse(b, r) == Parsed([], b, NegativeLength)
    ensures !Incomplete(b, r) && !IsNegative(b, r) ==>
              var n, size := DecodeLength(b[..4]), FrameSize(b, r);
              && 4 + n <= size <= |b|
              && Parse(b, r) == if Checks(r) && DecodeLength(b[4 + n..size]) != n then Parsed([], b[size..], Corrupt)
                                else Prepend([b[4..4 + n]], Parse(b[size..], r))
  {
  }

  /** One more chunk of a stream that parses. */
  lemma NextChunkParses(chunks: seq<Bytes>, n: nat, r: Reader)
    requires n < |chunks| && Parse(Joined(chunks), r).outcome == Complete
    ensures Parse(Joined(chunks[..n]), r).outcome == Complete
    ensures var p := Parse(Joined(chunks[..n]), r);
            && Parse(p.rest + chunks[n], r).outcome == Complete
            && Parse(Joined(chunks[..n + 1]), r) == Prepend(p.messages, Parse(p.rest + chunks[n], r))
  {
    hide Parse;
    JoinedPrefix(chunks, n + 1, r);
    assert chunks[..n + 1][..n] == chunks[..n];
    PrefixParses(Joined(chunks[..n]), chunks[n], r);
    ChunksDoNotMatter(Joined(chunks[..n]), chunks[n], r);
  }

  lemma {:induction false} JoinedPrefix(chunks: seq<Bytes>, n: nat, r: Reader)
    requires n <= |chunks| && Parse(Joined(chunks), r).outcome == Complete
    ensures Parse(Joined(chunks[..n]), r).outcome == Complete
  {
    if n == |chunks| {
      assert chunks[..n] == chunks;
    } else {
      var front := chunks[..|chunks| - 1];
      PrefixParses(Joined(front), chunks[|chunks| - 1], r);
      JoinedPrefix(front, n, r);
      assert front[..n] == chunks[..n];
    }
  }

  lemma {:induction false} StreamAppend(ms: seq<Bytes>, m: Bytes, sizeCheck: bool)
    requires Sendable(ms, UNSIGNED_LIMIT) && |m| < UNSIGNED_LIMIT
    ensures Stream(ms + [m], sizeCheck) == Stream(ms, sizeCheck) + Frame(m, sizeCheck)
  {
    hide Frame;
    if ms == [] {
      assert ms + [m] == [m] && Stream([m][1..], sizeCheck) == [];
    } else {
      StreamAppend(ms[1..], m, sizeCheck);
      assert (ms + [m])[1..] == ms[1..] + [m];
    }
  }
}
