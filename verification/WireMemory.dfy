/** The parse loop when the free memory it asks for at every header varies between two bounds
    (src/net/server.rs:437). */
module WireMemory {
  import opened Wrappers
  import opened Bytes
  import opened Wire

  /** With `free` bytes available, parsing `frames` one after the other off `all` leaves `rest`. */
  ghost predicate Reaches(all: seq<byte>, free: nat, frames: seq<Frame>, rest: seq<byte>)
    decreases |frames|
  {
    if frames == [] then rest == all
    else
      var p := ParseOne(all, free);
      p.Got? && p.frame == frames[0] && Reaches(all[p.size..], free, frames[1..], rest)
  }

  /** Why the loop stopped at `rest`: on a command byte that names no request; on a payload of more than
      4 GiB, or one that with some amount of memory between the bounds would not fit nine quarters of its size;
      or to wait for the rest of a header or of a frame. */
  predicate Stopped(rest: seq<byte>, stop: Option<Rejection>, lo: nat, hi: nat) {
    match stop
    case Some(UnknownRequest) => |rest| >= 25 && (rest[0] == 0 || rest[0] > 12)
    case Some(PayloadTooLarge) =>
      |rest| >= 25 && 1 <= rest[0] <= 12 &&
      (FromBE(rest[17..25]) > 0x1_0000_0000 || 9 * FromBE(rest[17..25]) >= 4 * lo)
    case None =>
      |rest| >= 25 ==>
        1 <= rest[0] <= 12 && FromBE(rest[17..25]) <= 0x1_0000_0000 && 9 * FromBE(rest[17..25]) < 4 * hi &&
        |rest| < 89 + FromBE(rest[17..25])
  }

  lemma StoppedParses(rest: seq<byte>, stop: Option<Rejection>, lo: nat, hi: nat)
    requires Stopped(rest, stop, lo, hi)
    ensures match stop
      case None => ParseOne(rest, hi).NeedMore?
      case Some(UnknownRequest) => ParseOne(rest, hi) == Refused(UnknownRequest)
      case Some(PayloadTooLarge) => ParseOne(rest, lo) == Refused(PayloadTooLarge)
  {
    hide FromBE, DecodeName;
  }

  /** What less memory decides, more memory decides alike, except that it may let a header pass. */
  lemma ParseMonotone(buf: seq<byte>, lo: nat, hi: nat)
    requires lo <= hi
    ensures ParseOne(buf, lo) == ParseOne(buf, hi) || ParseOne(buf, lo) == Refused(PayloadTooLarge)
  {
    hide FromBE, DecodeName;
  }

  lemma {:induction false} ReachesSnoc(all: seq<byte>, free: nat, frames: seq<Frame>, rest: seq<byte>)
    requires Reaches(all, free, frames, rest) && ParseOne(rest, free).Got?
    ensures var p := ParseOne(rest, free);
      Reaches(all, free, frames + [p.frame], rest[p.size..])
    decreases |frames|
  {
    hide ParseOne;
    var frame := ParseOne(rest, free).frame;
    if frames == [] {
      assert [frame][1..] == [];
    } else {
      assert (frames + [frame])[1..] == frames[1..] + [frame];
      ReachesSnoc(all[ParseOne(all, free).size..], free, frames[1..], rest);
    }
  }

  lemma {:induction false} ReachesConcat(all: seq<byte>, free: nat, xs: seq<Frame>, mid: seq<byte>, ys: seq<Frame>,
          rest: seq<byte>)
    requires Reaches(all, free, xs, mid) && Reaches(mid, free, ys, rest)
    ensures Reaches(all, free, xs + ys, rest)
    decreases |xs|
  {
    hide ParseOne;
    if xs == [] {
      assert xs + ys == ys;
    } else {
      assert (xs + ys)[1..] == xs[1..] + ys;
      ReachesConcat(all[ParseOne(all, free).size..], free, xs[1..], mid, ys, rest);
    }
  }

  /** Bytes that arrive later do not matter for what has been parsed. */
  lemma {:induction false} ReachesAppend(all: seq<byte>, free: nat, frames: seq<Frame>, rest: seq<byte>,
          more: seq<byte>)
    requires Reaches(all, free, frames, rest)
    ensures Reaches(all + more, free, frames, rest + more)
    decreases |frames|
  {
    var p := ParseOne(all, free);
    if frames != [] { ParseStable(all, more, free); }
    hide ParseOne;
    if frames != [] {
      assert (all + more)[p.size..] == all[p.size..] + more;
      ReachesAppend(all[p.size..], free, frames[1..], rest, more);
    }
  }

  lemma {:induction false} DrainReached(all: seq<byte>, free: nat, frames: seq<Frame>, rest: seq<byte>)
    requires Reaches(all, free, frames, rest)
    ensures Drain(all, free) == Behind(frames, Drain(rest, free))
    decreases |frames|
  {
    hide ParseOne;
    if frames == [] {
      assert [] + Drain(rest, free).frames == Drain(rest, free).frames;
    } else {
      DrainReached(all[ParseOne(all, free).size..], free, frames[1..], rest);
      assert [frames[0]] + (frames[1..] + Drain(rest, free).frames) == frames + Drain(rest, free).frames;
    }
  }

  /** Where parsing with plenty of memory has stopped, parsing with little has stopped before or there. */
  lemma {:induction false} LowIsPrefix(all: seq<byte>, lo: nat, hi: nat, frames: seq<Frame>, rest: seq<byte>)
    requires lo <= hi && Reaches(all, hi, frames, rest) && !ParseOne(rest, lo).Got?
    ensures Drain(all, lo).frames <= frames
    ensures |Drain(all, lo).frames| == |frames| ==> Reaches(all, lo, frames, rest)
    decreases |frames|
  {
    ParseMonotone(all, lo, hi);
    hide ParseOne;
    if frames == [] {
      assert Drain(rest, lo).frames == [];
    } else {
      var tail := all[ParseOne(all, hi).size..];
      LowIsPrefix(tail, lo, hi, frames[1..], rest);
      hide Reaches;
      if ParseOne(all, lo).Got? { PrefixCons(frames[0], Drain(tail, lo).frames, frames); }
    }
  }

  lemma PrefixCons(x: Frame, xs: seq<Frame>, ys: seq<Frame>)
    requires ys != [] && ys[0] == x && xs <= ys[1..]
    ensures [x] + xs <= ys
  {
    assert ys == [x] + ys[1..];
  }

  /** However memory varies, the frames handed on lie between those of the two bounds: all that pass
      with little memory, and none that would not pass with plenty. */
  lemma MemoryBetween(all: seq<byte>, lo: nat, hi: nat, frames: seq<Frame>, rest: seq<byte>, stop: Option<Rejection>)
    requires lo <= hi && Reaches(all, hi, frames, rest) && Stopped(rest, stop, lo, hi)
    ensures Drain(all, lo).frames <= frames <= Drain(all, hi).frames
  {
    ParseMonotone(rest, lo, hi);
    StoppedParses(rest, stop, lo, hi);
    hide ParseOne, Stopped;
    LowIsPrefix(all, lo, hi, frames, rest);
    DrainReached(all, hi, frames, rest);
  }

  /** And when no header's fate depends on it, the variation does not show at all. */
  lemma SteadyMemory(all: seq<byte>, lo: nat, hi: nat, frames: seq<Frame>, rest: seq<byte>, stop: Option<Rejection>)
    requires lo <= hi && Reaches(all, hi, frames, rest) && Stopped(rest, stop, lo, hi)
    requires Drain(all, lo) == Drain(all, hi)
    ensures Drained(frames, rest, stop) == Drain(all, lo)
  {
    MemoryBetween(all, lo, hi, frames, rest, stop);
    ParseMonotone(rest, lo, hi);
    StoppedParses(rest, stop, lo, hi);
    hide ParseOne, Stopped;
    LowIsPrefix(all, lo, hi, frames, rest);
    DrainReached(all, hi, frames, rest);
    DrainReached(all, lo, frames, rest);
  }

  /** Well-formed requests that fit the smaller amount are decoded whatever the memory does. */
  lemma RequestsSurvive(fs: seq<Frame>, lo: nat, hi: nat, frames: seq<Frame>, rest: seq<byte>, stop: Option<Rejection>)
    requires lo <= hi && forall i | 0 <= i < |fs| :: Encodable(fs[i]) && Sendable(fs[i], lo)
    requires Reaches(EncodeAll(fs), hi, frames, rest) && Stopped(rest, stop, lo, hi)
    ensures frames == fs && rest == [] && stop == None
  {
    hide ParseOne, Encode, EncodeAll, Reaches, Stopped;
    DrainEncoded(fs, lo);
    forall i | 0 <= i < |fs| ensures Sendable(fs[i], hi) {}
    DrainEncoded(fs, hi);
    SteadyMemory(EncodeAll(fs), lo, hi, frames, rest, stop);
  }
}
