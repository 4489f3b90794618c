/** `MessageBuffer` of object_database/message_bus.py: cutting a byte stream into messages. */
module MessageBuffers {
  import opened Common
  import opened Framing

  /** Signed four-byte numbers, in two's complement. */
  function EncodeSigned(n: int): (b: Bytes)
    requires -SIGNED_LIMIT <= n < SIGNED_LIMIT
    ensures |b| == MESSAGE_LEN_BYTES
  {
    EncodeLength(n % UNSIGNED_LIMIT)
  }

  function DecodeSigned(b: Bytes): (n: int)
    requires |b| == MESSAGE_LEN_BYTES
    ensures -SIGNED_LIMIT <= n < SIGNED_LIMIT
  {
    if DecodeLength(b) < SIGNED_LIMIT then DecodeLength(b) else DecodeLength(b) - UNSIGNED_LIMIT
  }

  lemma SignedRoundTrip(b: Bytes)
    requires |b| == MESSAGE_LEN_BYTES
    ensures EncodeSigned(DecodeSigned(b)) == b
  {
    hide DecodeLength, EncodeLength;
    HeadersRoundTrip(b);
  }

  lemma NumberRoundTrip(n: int)
    requires -SIGNED_LIMIT <= n < SIGNED_LIMIT
    ensures DecodeSigned(EncodeSigned(n)) == n
  {
    hide DecodeLength, EncodeLength;
    LengthsRoundTrip(n % UNSIGNED_LIMIT);
  }

  /** Where a slice of a sequence starts or ends. A negative index counts from the end. */
  function SliceIndex(n: int, size: nat): (k: nat)
    ensures k <= size
    ensures 0 <= n <= size ==> k == n
    ensures n < 0 <= size + n ==> k == size + n
  {
    if n < 0 then Max(0, size + n) else Min(n, size)
  }

  class MessageBuffer {
    const extraMessageSizeCheck: bool
    var buffer: Bytes
    var curMessageLen: Option<int>
    var messagesEver: nat

    ghost predicate Valid()
      reads this
    {
      curMessageLen.Some? ==> -SIGNED_LIMIT <= curMessageLen.value < SIGNED_LIMIT
    }

    ghost function Me(): Reader {
      PythonReader(extraMessageSizeCheck)
    }

    /** The bytes read but not used for a message yet, with the length that was already taken off. */
    ghost function Pending(): Bytes
      requires Valid()
      reads this
    {
      (if curMessageLen.Some? then EncodeSigned(curMessageLen.value) else []) + buffer
    }

    constructor (extraMessageSizeCheck: bool)
      ensures Valid() && Pending() == [] && messagesEver == 0 && this.extraMessageSizeCheck == extraMessageSizeCheck
    {
      this.extraMessageSizeCheck := extraMessageSizeCheck;
      buffer, curMessageLen, messagesEver := [], None, 0;
    }

    /** `encode`. A message of 2^31 bytes or more does not fit the signed length. */
    static method Encode(m: Bytes, extraMessageSizeCheck: bool) returns (r: Result<Bytes>)
      ensures r == if |m| < SIGNED_LIMIT then Ok(Frame(m, extraMessageSizeCheck)) else Thrown
      ensures r.Ok? ==> r.value == EncodeLength(|m|) + m + if extraMessageSizeCheck then EncodeLength(|m|) else []
    {
      if SIGNED_LIMIT <= |m| {
        return Thrown;
      }
      var res := EncodeLength(|m|);
      res := res + m;
      if extraMessageSizeCheck {
        res := res + EncodeLength(|m|);
      }
      assert res == Frame(m, extraMessageSizeCheck);
      r := Ok(res);
    }

    /** Take the length off the front of the buffer once it is there. */
    method ReadLength()
      requires Valid()
      modifies this`buffer, this`curMessageLen
      ensures Valid() && Pending() == old(Pending())
      ensures curMessageLen.None? ==> |buffer| < 4
    {
      hide DecodeSigned, EncodeSigned;
      if curMessageLen.None? {
        if |buffer| >= MESSAGE_LEN_BYTES {
          SignedRoundTrip(buffer[..4]);
          assert buffer == buffer[..4] + buffer[4..];
          curMessageLen := Some(DecodeSigned(buffer[..4]));
          buffer := buffer[4..];
        }
      }
    }

    /** What is pending starts with the length taken off. */
    lemma PendingFront()
      requires Valid() && curMessageLen.Some?
      ensures |Pending()| == |buffer| + 4 && DecodeSigned(Pending()[..4]) == curMessageLen.value
      ensures curMessageLen.value < 0 <==> IsNegative(Pending(), Me())
      ensures forall i, j :: 0 <= i <= j <= |buffer| ==> Pending()[4 + i..4 + j] == buffer[i..j]
      ensures forall i :: 0 <= i <= |buffer| ==> Pending()[4 + i..] == buffer[i..]
    {
      hide DecodeLength, EncodeSigned;
      NumberRoundTrip(curMessageLen.value);
      assert Pending()[..4] == EncodeSigned(curMessageLen.value);
    }

    /** Take a complete message off the front, if there is one. A negative length takes the end of the buffer for
        its start; it is an error where the repeated size is to be read and is not all there. */
    method NextMessage() returns (r: Option<Result<Bytes>>)
      requires Valid() && curMessageLen.Some?
      modifies this
      ensures Valid()
      ensures r.None? ==> Pending() == old(Pending()) && messagesEver == old(messagesEver)
      ensures r.Some? ==> messagesEver == old(messagesEver) + 1
      ensures r.Some? && r.value.Ok? ==> |Pending()| < |old(Pending())|
      ensures old(curMessageLen.value) < 0 && !extraMessageSizeCheck ==> r.Some? && r.value.Ok?
      ensures 0 <= old(curMessageLen.value) ==> TakesFrame(old(Pending()), r)
    {
      PendingFront();
      var msgLen := curMessageLen.value;
      assert 0 <= msgLen <= |buffer| ==> Pending()[4 + 0..4 + msgLen] == buffer[0..msgLen];
      assert 0 <= msgLen <= |buffer| - 4 ==> Pending()[4 + msgLen..4 + (msgLen + 4)] == buffer[msgLen..msgLen + 4];
      if extraMessageSizeCheck {
        if |buffer| >= msgLen + MESSAGE_LEN_BYTES {
          var message := buffer[..SliceIndex(msgLen, |buffer|)];
          messagesEver := messagesEver + 1;
          var from, to := SliceIndex(msgLen, |buffer|), SliceIndex(msgLen + MESSAGE_LEN_BYTES, |buffer|);
          if from + MESSAGE_LEN_BYTES != to {
            return Some(Thrown);
          }
          var sizeCheck := DecodeSigned(buffer[from..to]);
          buffer := buffer[to..];
          curMessageLen := None;
          return Some(if sizeCheck != msgLen then Thrown else Ok(message));
        }
        return None;
      }
      if |buffer| >= msgLen {
        var message := buffer[..SliceIndex(msgLen, |buffer|)];
        messagesEver := messagesEver + 1;
        buffer := buffer[SliceIndex(msgLen, |buffer|)..];
        curMessageLen := None;
        return Some(Ok(message));
      }
      r := None;
    }

    /** The frame at the front of a stream is taken off and delivered, unless its repeated size is wrong, once it
        is there. */
    ghost predicate TakesFrame(b: Bytes, r: Option<Result<Bytes>>)
      requires Valid()
      reads this
    {
      && (r.None? <==> Incomplete(b, Me()))
      && (r.Some? ==>
            var (n, size) := (DecodeLength(b[..4]), FrameSize(b, Me()));
            && size <= |b| && Pending() == b[size..] && curMessageLen.None?
            && r.value == if extraMessageSizeCheck && DecodeLength(b[4 + n..size]) != n then Thrown
                          else Ok(b[4..4 + n]))
    }

    /** One turn of the loop: the length if it is there, and then the message if it is there. */
    method Advance() returns (r: Option<Result<Bytes>>)
      requires Valid()
      modifies this
      ensures Valid()
      ensures r.None? ==> Pending() == old(Pending()) && messagesEver == old(messagesEver)
      ensures r.Some? ==> messagesEver == old(messagesEver) + 1
      ensures r.Some? && r.value.Ok? ==> |Pending()| < |old(Pending())|
      ensures HasNegative(old(Pending())) && !extraMessageSizeCheck ==> r.Some? && r.value.Ok?
      ensures !HasNegative(old(Pending())) ==> TakesFrame(old(Pending()), r)
    {
      ReadLength();
      if curMessageLen.None? {
        return None;
      }
      PendingFront();
      r := NextMessage();
    }

    ghost predicate HasNegative(b: Bytes) {
      |b| >= MESSAGE_LEN_BYTES && IsNegative(b, Me())
    }

    method Push(bytesToWrite: Bytes)
      requires Valid()
      modifies this`buffer
      ensures Valid() && Pending() == old(Pending()) + bytesToWrite
    {
      buffer := buffer + bytesToWrite;
    }

    /** Push bytes and read the messages they complete. A stream whose repeated size is wrong raises an
        exception, which loses the messages completed by the same bytes. A length that is taken for a negative
        number does no harm to the messages before it; what follows it is not cut into messages again. */
    method Write(bytesToWrite: Bytes) returns (r: Result<seq<Bytes>>)
      requires Valid()
      modifies this
      ensures Valid()
      ensures var p := Parse(old(Pending()) + bytesToWrite, Me());
              && (p.outcome != NegativeLength ==>
                    && r == (if p.outcome == Complete then Ok(p.messages) else Thrown)
                    && Pending() == p.rest)
              && (p.outcome == NegativeLength ==>
                    && (r.Ok? ==> p.messages <= r.value)
                    && (!extraMessageSizeCheck ==> r.Ok? && |p.messages| < |r.value|))
      ensures r.Ok? ==> messagesEver == old(messagesEver) + |r.value|
    {
      hide FrameSize, IsNegative, Pending, Incomplete, Parse, DecodeLength, Valid;
      ghost var all := Pending() + bytesToWrite;
      ghost var negative := false;
      var messages: seq<Bytes> := [];
      Push(bytesToWrite);
      assert [] + Parse(all, Me()).messages == Parse(all, Me()).messages;
      while true
        invariant Valid()
        invariant !negative ==> Prepend(messages, Parse(Pending(), Me())) == Parse(all, Me())
        invariant negative ==> Parse(all, Me()).outcome == NegativeLength && Parse(all, Me()).messages <= messages
        invariant negative && !extraMessageSizeCheck ==> |Parse(all, Me()).messages| < |messages|
        invariant messagesEver == old(messagesEver) + |messages|
        decreases |Pending()|
      {
        ghost var b := Pending();
        ParseCases(b, Me());
        negative := negative || HasNegative(b);
        var next := Advance();
        if next.None? {
          assert messages + [] == messages;
          return Ok(messages);
        }
        if next.value.Thrown? {
          return Thrown;
        }
        PrependTwice(messages, [next.value.value], Parse(Pending(), Me()));
        messages := messages + [next.value.value];
      }
    }

    /** Feed a whole stream, however it is cut: exactly the messages come out, and the buffer is as at
        the start. */
    method WriteAll(chunks: seq<Bytes>, ghost ms: seq<Bytes>) returns (r: seq<Bytes>)
      requires Valid() && Pending() == []
      requires Sendable(ms, SIGNED_LIMIT) && Joined(chunks) == Stream(ms, extraMessageSizeCheck)
      modifies this
      ensures r == ms && Valid() && buffer == [] && curMessageLen == None
      ensures messagesEver == old(messagesEver) + |ms|
    {
      StreamToParse(chunks, ms, Me());
      hide Parse, Pending, Stream, Joined, Valid, Prepend, Me, Sendable;
      r := [];
      var n := 0;
      while n < |chunks|
        invariant 0 <= n <= |chunks| && Valid()
        invariant Parse(Joined(chunks[..n]), Me()) == Parsed(r, Pending(), Complete)
        invariant messagesEver == old(messagesEver) + |r|
      {
        NextChunkParses(chunks, n, Me());
        var more := Write(chunks[n]);
        r := r + more.value;
        n := n + 1;
      }
      NothingPending();
    }

    /** All chunks together parse into the messages, and none parse into nothing. */
    static lemma StreamToParse(chunks: seq<Bytes>, ms: seq<Bytes>, r: Reader)
      requires Sendable(ms, SIGNED_LIMIT) && r.PythonReader? && Joined(chunks) == Stream(ms, r.sizeCheck)
      ensures Parse(Joined(chunks), r) == Parsed(ms, [], Complete)
      ensures Parse(Joined(chunks[..0]), r) == Parsed([], [], Complete) && chunks[..|chunks|] == chunks
    {
      StreamParses(ms, r);
    }

    lemma NothingPending()
      requires Valid()
      ensures Pending() == [] <==> buffer == [] && curMessageLen == None
    {
    }
  }
}
