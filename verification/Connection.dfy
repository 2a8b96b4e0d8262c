/** The read loop of a connection over a growing buffer (src/net/server.rs:411-452). */
module ConnectionLoop {
  import opened Wrappers
  import opened Bytes
  import opened Wire
  import opened WireMemory

  class Connection {
    var buffer: seq<byte>

    constructor ()
      ensures buffer == []
    {
      buffer := [];
    }

    /** Reads until the stream ends, the stop signal comes or a header is refused; hands every complete
        frame on as soon as it is there. The signal, if it comes, comes before read `signal`; `consumed` is
        the number of reads taken, and `stopped` tells that the signal ended them. The free memory, asked for
        at every header, is anything from `lo` to `hi`. */
    method ReadBuffer(chunks: seq<seq<byte>>, signal: Option<nat>, lo: nat, hi: nat)
      returns (frames: seq<Frame>, stop: Option<Rejection>, consumed: nat, stopped: bool)
      requires lo <= hi
      modifies this
      ensures consumed <= |chunks|
      ensures Reaches(Joined(chunks[..consumed]), hi, frames, buffer) && Stopped(buffer, stop, lo, hi)
      ensures stopped <==>
        stop.None? && signal == Some(consumed) && consumed < |chunks| && chunks[consumed] != []
      ensures stop.None? && !stopped ==> consumed == |chunks| || chunks[consumed] == []
      ensures lo == hi && !stopped ==> Session(frames, buffer, stop, chunks[consumed..]) == Receive([], chunks, lo)
    {
      hide ParseOne, Drain, Receive, Received, Reaches, Joined;
      buffer, frames, stop, consumed, stopped := [], [], None, 0, false;
      assert chunks[0..] == chunks;
      ReceivedNothing(Receive([], chunks, lo));
      StartOfStream(chunks, hi);
      while consumed < |chunks| && chunks[consumed] != []
        invariant consumed <= |chunks| && stop.None? && !stopped
        invariant Reaches(Joined(chunks[..consumed]), hi, frames, buffer) && Stopped(buffer, stop, lo, hi)
        invariant lo == hi ==> Receive([], chunks, lo) == Received(frames, Receive(buffer, chunks[consumed..], lo))
        decreases |chunks| - consumed
      {
        if signal == Some(consumed) {
          stopped := true;
          return;
        }
        ReceiveStep(buffer, chunks, consumed, lo);
        ReachesRead(chunks, consumed, hi, frames, buffer);
        buffer := buffer + chunks[consumed];
        consumed := consumed + 1;
        ghost var before := buffer;
        var more;
        more, stop := ParseFrames(lo, hi);
        ReachesConcat(Joined(chunks[..consumed]), hi, frames, before, more, buffer);
        ReceivedTwice(frames, more,
          if stop.Some? then Session([], buffer, stop, chunks[consumed..])
          else Receive(buffer, chunks[consumed..], lo));
        frames := frames + more;
        if stop.Some? {
          ReceivedAll(frames, buffer, stop, chunks[consumed..]);
          return;
        }
      }
      ReceiveEnd(buffer, chunks[consumed..], lo);
      ReceivedAll(frames, buffer, stop, chunks[consumed..]);
    }

    /** The parse loop proper: split complete frames off the front of the buffer. */
    method ParseFrames(lo: nat, hi: nat) returns (frames: seq<Frame>, stop: Option<Rejection>)
      requires lo <= hi
      modifies this
      ensures Reaches(old(buffer), hi, frames, buffer) && Stopped(buffer, stop, lo, hi)
      ensures lo == hi ==> Drained(frames, buffer, stop) == Drain(old(buffer), lo)
    {
      hide FromBE, DecodeName, Drain, Reaches;
      frames := [];
      ReachesNothing(buffer, hi);
      while |buffer| >= HEADER
        invariant Reaches(old(buffer), hi, frames, buffer)
        decreases |buffer|
      {
        if !(1 <= buffer[0] <= 12) {
          stop := Some(UnknownRequest);
          SteadyStop(old(buffer), lo, hi, frames, buffer, stop);
          return;
        }
        var client := FromBE(buffer[1..17]);
        var payloadSize := FromBE(buffer[17..25]);
        var free: nat :| lo <= free <= hi;
        if payloadSize > MAX_PAYLOAD_SIZE || SizeEstimate(payloadSize) >= free {
          stop := Some(PayloadTooLarge);
          SteadyStop(old(buffer), lo, hi, frames, buffer, stop);
          return;
        }
        if |buffer| < payloadSize + FIXED { break; }
        var name := DecodeName(buffer[25..89]);
        var message := buffer[..FIXED + payloadSize];
        var frame := Frame(buffer[0] as nat, client, name, message[89..]);
        assert message[89..] == buffer[89..89 + payloadSize];
        ReachesSnoc(old(buffer), hi, frames, buffer);
        frames := frames + [frame];
        buffer := buffer[FIXED + payloadSize..];
      }
      stop := None;
      SteadyStop(old(buffer), lo, hi, frames, buffer, stop);
    }
  }

  lemma ReachesNothing(all: seq<byte>, free: nat)
    ensures Reaches(all, free, [], all)
  {
  }

  lemma StartOfStream(chunks: seq<seq<byte>>, free: nat)
    ensures Reaches(Joined(chunks[..0]), free, [], []) && ParseOne([], free).NeedMore?
  {
  }

  lemma {:induction false} JoinedSnoc(chunks: seq<seq<byte>>, i: nat)
    requires i < |chunks|
    ensures Joined(chunks[..i + 1]) == Joined(chunks[..i]) + chunks[i]
    decreases i
  {
    if i > 0 {
      assert chunks[..i + 1][1..] == chunks[1..][..i] && chunks[..i][1..] == chunks[1..][..i - 1];
      JoinedSnoc(chunks[1..], i - 1);
    } else {
      assert chunks[..1][1..] == [];
    }
  }

  lemma ReachesRead(chunks: seq<seq<byte>>, i: nat, free: nat, frames: seq<Frame>, rest: seq<byte>)
    requires i < |chunks| && Reaches(Joined(chunks[..i]), free, frames, rest)
    ensures Reaches(Joined(chunks[..i + 1]), free, frames, rest + chunks[i])
  {
    hide Reaches, Joined;
    JoinedSnoc(chunks, i);
    ReachesAppend(Joined(chunks[..i]), free, frames, rest, chunks[i]);
  }

  lemma SteadyStop(all: seq<byte>, lo: nat, hi: nat, frames: seq<Frame>, rest: seq<byte>, stop: Option<Rejection>)
    requires lo <= hi && Reaches(all, hi, frames, rest) && Stopped(rest, stop, lo, hi)
    ensures lo == hi ==> Drained(frames, rest, stop) == Drain(all, lo)
  {
    hide Reaches, Stopped;
    if lo == hi { SteadyMemory(all, lo, hi, frames, rest, stop); }
  }

  lemma ReceivedNothing(s: Session)
    ensures Received([], s) == s
  {
    assert [] + s.frames == s.frames;
  }

  lemma ReceivedAll(frames: seq<Frame>, rest: seq<byte>, stop: Option<Rejection>, unread: seq<seq<byte>>)
    ensures Received(frames, Session([], rest, stop, unread)) == Session(frames, rest, stop, unread)
  {
    assert frames + [] == frames;
  }

  lemma ReceivedTwice(frames: seq<Frame>, more: seq<Frame>, s: Session)
    ensures Received(frames, Received(more, s)) == Received(frames + more, s)
  {
    assert frames + (more + s.frames) == frames + more + s.frames;
  }

  lemma ReceiveStep(buf: seq<byte>, chunks: seq<seq<byte>>, i: nat, free: nat)
    requires i < |chunks| && chunks[i] != []
    ensures var d := Drain(buf + chunks[i], free);
      Receive(buf, chunks[i..], free) ==
      Received(d.frames,
        if d.stop.Some? then Session([], d.rest, d.stop, chunks[i + 1..]) else Receive(d.rest, chunks[i + 1..], free))
  {
    hide Drain;
    assert chunks[i..][1..] == chunks[i + 1..];
    var d := Drain(buf + chunks[i], free);
    ReceivedAll(d.frames, d.rest, d.stop, chunks[i + 1..]);
  }

  lemma ReceiveEnd(buf: seq<byte>, chunks: seq<seq<byte>>, free: nat)
    requires chunks == [] || chunks[0] == []
    ensures Receive(buf, chunks, free) == Session([], buf, None, chunks)
  {
  }
}
