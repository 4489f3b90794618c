/** The C++ end of a connection, object_database/DatabaseConnectionPumpLoop.hpp: a reader that fills one buffer
    at a time, and a writer that survives partial socket writes. */
module PumpLoops {
  import opened Common
  import opened Framing

  /** What the reader delivers of some messages, and what it holds back. */
  ghost function Delivered(ms: seq<Bytes>): Parsed {
    if ms == [] || ms[|ms| - 1] != [] then Parsed(ms, [], Complete)
    else Parsed(ms[..|ms| - 1], EncodeLength(0), Complete)
  }

  lemma StreamOutcome(chunks: seq<Bytes>, ms: seq<Bytes>)
    requires Sendable(ms, UNSIGNED_LIMIT) && Joined(chunks) == Stream(ms, false)
    ensures Parse(Joined(chunks[..|chunks|]), CppReader) == Delivered(ms)
    ensures Parse(Joined(chunks), CppReader) == Delivered(ms) && Delivered(ms).outcome == Complete
    ensures Parse(Joined(chunks[..0]), CppReader) == Parsed([], [], Complete)
  {
    assert chunks[..|chunks|] == chunks && Joined(chunks[..0]) == [];
    if ms == [] || ms[|ms| - 1] != [] {
      StreamParses(ms, CppReader);
    } else {
      EmptyLastIsHeldBack(ms);
    }
  }

  class DatabaseConnectionPumpLoop {
    var hasReadSizeOfFrontMessage: bool
    var partiallyReadFrontMessageSize: nat
    var partiallyReadFrontMessage: Bytes
    var received: seq<Bytes>

    var messagesToSend: seq<Bytes>
    var messagesInWriteBuffer: seq<Bytes>
    var messagesInWriteBufferFrontPartSent: nat

    /** What the socket has taken, and the messages put into the write buffer so far. */
    var socket: Bytes
    ghost var buffered: seq<Bytes>

    ghost predicate ReaderValid()
      reads this
    {
      && partiallyReadFrontMessageSize < UNSIGNED_LIMIT
      && if hasReadSizeOfFrontMessage then |partiallyReadFrontMessage| <= partiallyReadFrontMessageSize
         else |partiallyReadFrontMessage| <= MESSAGE_LEN_BYTES
    }

    /** No message is held complete. */
    ghost predicate ReaderSettled()
      reads this
    {
      ReaderValid() && (hasReadSizeOfFrontMessage ==> |partiallyReadFrontMessage| < partiallyReadFrontMessageSize)
    }

    /** The bytes read but not used for a message yet, with the length that was already taken off. */
    ghost function Pending(): Bytes
      requires ReaderValid()
      reads this
    {
      (if hasReadSizeOfFrontMessage then EncodeLength(partiallyReadFrontMessageSize) else [])
      + partiallyReadFrontMessage
    }

    constructor ()
      ensures ReaderSettled() && Pending() == [] && received == []
      ensures WriterValid() && buffered == [] && messagesToSend == [] && socket == []
    {
      hasReadSizeOfFrontMessage, partiallyReadFrontMessageSize, partiallyReadFrontMessage, received := false, 0, [], [];
      messagesToSend, messagesInWriteBuffer, messagesInWriteBufferFrontPartSent := [], [], 0;
      socket, buffered := [], [];
    }

    method CopyFromBuffer(bytes: Bytes, toConsume: nat) returns (rest: Bytes)
      requires toConsume <= |bytes|
      modifies this`partiallyReadFrontMessage
      ensures rest == bytes[toConsume..]
      ensures partiallyReadFrontMessage == old(partiallyReadFrontMessage) + bytes[..toConsume]
    {
      partiallyReadFrontMessage := partiallyReadFrontMessage + bytes[..toConsume];
      rest := bytes[toConsume..];
    }

    /** Whether there is something to do without reading on: a size or a message held complete. */
    ghost function Held(): nat
      reads this
    {
      if !hasReadSizeOfFrontMessage && |partiallyReadFrontMessage| == MESSAGE_LEN_BYTES then 2
      else if hasReadSizeOfFrontMessage && |partiallyReadFrontMessage| == partiallyReadFrontMessageSize then 1
      else 0
    }

    /** Deliver a message held complete. */
    method ConsumeMessage(ghost bytes: Bytes)
      requires ReaderValid() && hasReadSizeOfFrontMessage
               && partiallyReadFrontMessageSize == |partiallyReadFrontMessage|
      requires bytes != [] || 0 < partiallyReadFrontMessageSize
      modifies this`hasReadSizeOfFrontMessage, this`partiallyReadFrontMessage, this`received
      ensures ReaderValid() && Held() == 0 && !hasReadSizeOfFrontMessage
      ensures received == old(received) + [old(partiallyReadFrontMessage)]
      ensures Parse(old(Pending()) + bytes, CppReader)
              == Prepend([old(partiallyReadFrontMessage)], Parse(Pending() + bytes, CppReader))
    {
      FrameParses(partiallyReadFrontMessage, CppReader, bytes);
      assert Frame(partiallyReadFrontMessage, false) == Pending();
      hide Parse, EncodeLength;
      received := received + [partiallyReadFrontMessage];
      partiallyReadFrontMessage := [];
      hasReadSizeOfFrontMessage := false;
      assert Pending() == [] && [] + bytes == bytes;
    }

    /** Decode a size held complete. */
    method ReadSize()
      requires ReaderValid() && !hasReadSizeOfFrontMessage && |partiallyReadFrontMessage| == MESSAGE_LEN_BYTES
      modifies this`hasReadSizeOfFrontMessage, this`partiallyReadFrontMessageSize, this`partiallyReadFrontMessage
      ensures ReaderValid() && Held() <= 1 && Pending() == old(Pending())
    {
      hide DecodeLength, EncodeLength;
      HeadersRoundTrip(partiallyReadFrontMessage);
      hasReadSizeOfFrontMessage := true;
      partiallyReadFrontMessageSize := DecodeLength(partiallyReadFrontMessage);
      partiallyReadFrontMessage := [];
    }

    /** Copy what the front message, or its size, still lacks. */
    method CopySome(bytes: Bytes) returns (rest: Bytes)
      requires ReaderValid() && Held() == 0 && bytes != []
      modifies this`partiallyReadFrontMessage
      ensures ReaderValid() && |rest| < |bytes| && Pending() + rest == old(Pending()) + bytes
    {
      hide EncodeLength;
      var size := if hasReadSizeOfFrontMessage then partiallyReadFrontMessageSize else MESSAGE_LEN_BYTES;
      var lacking := size - |partiallyReadFrontMessage|;
      rest := CopyFromBuffer(bytes, Min(lacking, |bytes|));
    }

    /** One turn of the loop. */
    method ConsumeSome(bytes: Bytes) returns (rest: Bytes)
      requires ReaderValid()
      requires bytes != []
               || (hasReadSizeOfFrontMessage && 0 < |partiallyReadFrontMessage| == partiallyReadFrontMessageSize)
      modifies this`hasReadSizeOfFrontMessage, this`partiallyReadFrontMessageSize, this`partiallyReadFrontMessage
      modifies this`received
      ensures ReaderValid() && |rest| <= |bytes| && (|rest| == |bytes| ==> Held() < old(Held()))
      ensures hasReadSizeOfFrontMessage && partiallyReadFrontMessageSize == 0 ==> rest != []
      ensures old(received) <= received
      ensures Parse(old(Pending()) + bytes, CppReader)
              == Prepend(received[|old(received)|..], Parse(Pending() + rest, CppReader))
    {
      hide Parse, Pending;
      ghost var all := Pending() + bytes;
      assert [] + Parse(all, CppReader).messages == Parse(all, CppReader).messages;
      rest := bytes;
      if hasReadSizeOfFrontMessage {
        if partiallyReadFrontMessageSize == |partiallyReadFrontMessage| {
          ConsumeMessage(bytes);
        } else {
          rest := CopySome(bytes);
        }
      } else {
        if |partiallyReadFrontMessage| == MESSAGE_LEN_BYTES {
          ReadSize();
        } else {
          rest := CopySome(bytes);
        }
      }
    }

    /** Consume all the bytes of one read, delivering the messages they complete. */
    method ConsumeReadBytes(bytes: Bytes)
      requires ReaderSettled()
      modifies this`hasReadSizeOfFrontMessage, this`partiallyReadFrontMessageSize, this`partiallyReadFrontMessage
      modifies this`received
      ensures ReaderSettled()
      ensures ReaderValid()
      ensures var p := Parse(old(Pending()) + bytes, CppReader);
              p.outcome == Complete && received == old(received) + p.messages && Pending() == p.rest
    {
      hide Pending, Parse;
      ghost var all := Pending() + bytes;
      var rest := bytes;
      assert [] + Parse(all, CppReader).messages == Parse(all, CppReader).messages;
      while rest != [] || (hasReadSizeOfFrontMessage && partiallyReadFrontMessageSize == |partiallyReadFrontMessage|)
        invariant ReaderValid() && old(received) <= received
        invariant hasReadSizeOfFrontMessage && partiallyReadFrontMessageSize == 0 ==> rest != []
        invariant Parse(all, CppReader) == Prepend(received[|old(received)|..], Parse(Pending() + rest, CppReader))
        decreases |rest|, Held()
      {
        ghost var before := received;
        rest := ConsumeSome(rest);
        PrependTwice(before[|old(received)|..], received[|before|..], Parse(Pending() + rest, CppReader));
        assert before[|old(received)|..] + received[|before|..] == received[|old(received)|..];
      }
      SettledIsIncomplete();
      assert Pending() + rest == Pending();
      assert received[|old(received)|..] + [] == received[|old(received)|..];
    }

    lemma SettledIsIncomplete()
      requires ReaderSettled()
      ensures Parse(Pending(), CppReader) == Parsed([], Pending(), Complete)
    {
    }

    /** One chunk of a stream that parses; `got` are the messages of the chunks before it. */
    method ConsumeChunk(chunks: seq<Bytes>, n: nat, ghost got: seq<Bytes>) returns (ghost more: seq<Bytes>)
      requires ReaderSettled() && n < |chunks| && Parse(Joined(chunks), CppReader).outcome == Complete
      requires Parse(Joined(chunks[..n]), CppReader) == Parsed(got, Pending(), Complete)
      modifies this`hasReadSizeOfFrontMessage, this`partiallyReadFrontMessageSize, this`partiallyReadFrontMessage
      modifies this`received
      ensures ReaderSettled() && received == old(received) + more
      ensures Parse(Joined(chunks[..n + 1]), CppReader) == Parsed(got + more, Pending(), Complete)
    {
      hide Parse, Joined, EncodeLength;
      NextChunkParses(chunks, n, CppReader);
      more := Parse(Pending() + chunks[n], CppReader).messages;
      ConsumeReadBytes(chunks[n]);
    }

    /** Feed a whole stream, however it is cut: exactly the messages come out, and the reader is as at the start. Only
        an empty last message is held back, with its length read or still to be read. */
    method ConsumeAll(chunks: seq<Bytes>, ghost ms: seq<Bytes>)
      requires ReaderSettled() && Pending() == []
      requires Sendable(ms, UNSIGNED_LIMIT) && Joined(chunks) == Stream(ms, false)
      modifies this`hasReadSizeOfFrontMessage, this`partiallyReadFrontMessageSize, this`partiallyReadFrontMessage
      modifies this`received
      ensures ReaderSettled() && received == old(received) + Delivered(ms).messages && Pending() == Delivered(ms).rest
      ensures ms == [] || ms[|ms| - 1] != [] ==> !hasReadSizeOfFrontMessage && partiallyReadFrontMessage == []
    {
      StreamOutcome(chunks, ms);
      assert received + [] == received;
      hide Parse, Pending, Stream, Joined, Sendable, EncodeLength, Delivered;
      ghost var got: seq<Bytes> := [];
      var n := 0;
      while n < |chunks|
        invariant 0 <= n <= |chunks| && ReaderSettled() && received == old(received) + got
        invariant Parse(Joined(chunks[..n]), CppReader) == Parsed(got, Pending(), Complete)
      {
        ghost var more := ConsumeChunk(chunks, n, got);
        Regroup(old(received), got, more);
        got := got + more;
        n := n + 1;
      }
      NothingPending();
      if ms == [] || ms[|ms| - 1] != [] {
        NoneHeldBack(ms);
      }
    }

    lemma NoneHeldBack(ms: seq<Bytes>)
      requires ms == [] || ms[|ms| - 1] != []
      ensures Delivered(ms) == Parsed(ms, [], Complete)
    {
    }

    lemma NothingPending()
      requires ReaderSettled()
      ensures Pending() == [] <==> !hasReadSizeOfFrontMessage && partiallyReadFrontMessage == []
    {
    }

    /** The bytes in the write buffer the socket has not taken yet. */
    ghost function Unsent(): Bytes
      requires messagesInWriteBufferFrontPartSent <= |Flat(messagesInWriteBuffer)|
      reads this
    {
      Flat(messagesInWriteBuffer)[messagesInWriteBufferFrontPartSent..]
    }

    /** What the socket took and what is still buffered are together the frames of all buffered messages. */
    ghost predicate WriterValid()
      reads this
    {
      && (if messagesInWriteBuffer == [] then messagesInWriteBufferFrontPartSent == 0
          else messagesInWriteBufferFrontPartSent <= |messagesInWriteBuffer[0]|)
      && messagesInWriteBufferFrontPartSent <= |Flat(messagesInWriteBuffer)|
      && Sendable(buffered, UNSIGNED_LIMIT) && Sendable(messagesToSend, UNSIGNED_LIMIT)
      && socket + Unsent() == Stream(buffered, false)
    }

    /** Move every message to be sent into the write buffer, as its size and its bytes. */
    method BufferMessages()
      requires WriterValid()
      modifies this`messagesToSend, this`messagesInWriteBuffer, this`buffered
      ensures WriterValid() && messagesToSend == [] && buffered == old(buffered) + old(messagesToSend)
    {
      hide Stream, Sendable, Unsent, Flat;
      while messagesToSend != []
        invariant WriterValid() && buffered + messagesToSend == old(buffered) + old(messagesToSend)
        decreases |messagesToSend|
      {
        BufferOne();
      }
    }

    method BufferOne()
      requires WriterValid() && messagesToSend != []
      modifies this`messagesToSend, this`messagesInWriteBuffer, this`buffered
      ensures WriterValid() && messagesToSend == old(messagesToSend)[1..]
      ensures buffered == old(buffered) + [old(messagesToSend)[0]]
    {
      hide Stream, Frame;
      var msg := messagesToSend[0];
      messagesToSend := messagesToSend[1..];
      StreamAppend(buffered, msg, false);
      FlatAppend(messagesInWriteBuffer, EncodeLength(|msg|));
      FlatAppend(messagesInWriteBuffer + [EncodeLength(|msg|)], msg);
      FrameParts(msg);
      hide Flat, EncodeLength;
      messagesInWriteBuffer := messagesInWriteBuffer + [EncodeLength(|msg|)] + [msg];
      buffered := buffered + [msg];
    }

    /** Write until the buffer is empty or the socket takes nothing more. `accepts` is what the socket takes
        of each write, at most what it is given. */
    method WriteAnyPendingDataToSocket(accepts: seq<nat>) returns (stalled: bool)
      requires WriterValid()
      modifies this`messagesInWriteBuffer, this`messagesInWriteBufferFrontPartSent, this`socket
      ensures WriterValid() && old(socket) <= socket
      ensures !stalled <==> socket == Stream(buffered, false)
      ensures !stalled ==> messagesInWriteBuffer == []
      ensures stalled ==> exists n :: 0 <= n <= |accepts| && (n == |accepts| || accepts[n] == 0)
                                      && |old(socket)| + n <= |socket|
    {
      hide Stream;
      var n := 0;
      while messagesInWriteBuffer != []
        invariant WriterValid() && old(socket) <= socket && 0 <= n <= |accepts| && |old(socket)| + n <= |socket|
        decreases |messagesInWriteBuffer|, |accepts| - n
      {
        if messagesInWriteBufferFrontPartSent >= |messagesInWriteBuffer[0]| {
          messagesInWriteBufferFrontPartSent := 0;
          messagesInWriteBuffer := messagesInWriteBuffer[1..];
        } else {
          if n == |accepts| || accepts[n] == 0 {
            return true;
          }
          WriteSome(accepts[n]);
          n := n + 1;
        }
      }
      stalled := false;
    }

    method WriteSome(accept: nat)
      requires WriterValid() && messagesInWriteBuffer != []
      requires messagesInWriteBufferFrontPartSent < |messagesInWriteBuffer[0]|
      modifies this`messagesInWriteBufferFrontPartSent, this`socket
      ensures WriterValid() && old(socket) <= socket
      ensures |socket| == |old(socket)|
                + Min(accept, |messagesInWriteBuffer[0]| - old(messagesInWriteBufferFrontPartSent))
    {
      hide Stream;
      var given := messagesInWriteBuffer[0][messagesInWriteBufferFrontPartSent..];
      var bytesWritten := Min(accept, |given|);
      ghost var before := Unsent();
      socket := socket + given[..bytesWritten];
      messagesInWriteBufferFrontPartSent := messagesInWriteBufferFrontPartSent + bytesWritten;
      assert before == given[..bytesWritten] + Unsent();
    }
  }

  lemma FrameParts(m: Bytes)
    requires |m| < UNSIGNED_LIMIT
    ensures Frame(m, false) == EncodeLength(|m|) + m
  {
  }

  lemma Regroup(a: seq<Bytes>, b: seq<Bytes>, c: seq<Bytes>)
    ensures a + b + c == a + (b + c)
  {
  }

  ghost function Flat(parts: seq<Bytes>): Bytes {
    if parts == [] then [] else parts[0] + Flat(parts[1..])
  }

  lemma {:induction false} FlatAppend(parts: seq<Bytes>, part: Bytes)
    ensures Flat(parts + [part]) == Flat(parts) + part
  {
    if parts == [] {
      assert parts + [part] == [part] && Flat([part][1..]) == [];
    } else {
      FlatAppend(parts[1..], part);
      assert (parts + [part])[1..] == parts[1..] + [part];
    }
  }
}
