/** The request wire format (src/net/server.rs:21-26, 182-187, 417-452) as functions on byte
    sequences: a frame is a command byte, a 16-byte client id, an 8-byte payload size, a queue name in
    64 bytes and the payload. */
module Wire {
  import opened Wrappers
  import opened Bytes

  const MAX_PAYLOAD_SIZE := 0x1_0000_0000
  const HEADER := 25
  const FIXED := 89
  const NAME_SIZE := 64

  function FromBE(s: seq<byte>): nat {
    if s == [] then 0 else 256 * FromBE(s[..|s| - 1]) + s[|s| - 1] as nat
  }

  function ToBE(x: nat, n: nat): (s: seq<byte>)
    ensures |s| == n
  {
    if n == 0 then [] else ToBE(x / 256, n - 1) + [x % 256]
  }

  function Pow256(n: nat): nat {
    if n == 0 then 1 else 256 * Pow256(n - 1)
  }

  lemma {:induction false} BERoundTrip(x: nat, n: nat)
    requires x < Pow256(n)
    ensures FromBE(ToBE(x, n)) == x
  {
    if n > 0 {
      BERoundTrip(x / 256, n - 1);
      assert ToBE(x, n)[..n - 1] == ToBE(x / 256, n - 1);
    }
  }

  // ---- UTF-8, table 3-7 of the Unicode Standard ----

  predicate Tail(s: seq<byte>, i: nat) {
    i < |s| && 0x80 <= s[i] <= 0xBF
  }

  /** Length of the well-formed character `s` starts with, 0 when there is none. */
  function CharLen(s: seq<byte>): (n: nat)
    ensures n <= |s|
  {
    if s == [] then 0
    else if s[0] <= 0x7F then 1
    else if 0xC2 <= s[0] <= 0xDF && Tail(s, 1) then 2
    else if s[0] == 0xE0 && Tail(s, 1) && s[1] >= 0xA0 && Tail(s, 2) then 3
    else if s[0] == 0xED && Tail(s, 1) && s[1] <= 0x9F && Tail(s, 2) then 3
    else if 0xE1 <= s[0] <= 0xEF && s[0] != 0xED && Tail(s, 1) && Tail(s, 2) then 3
    else if s[0] == 0xF0 && Tail(s, 1) && s[1] >= 0x90 && Tail(s, 2) && Tail(s, 3) then 4
    else if s[0] == 0xF4 && Tail(s, 1) && s[1] <= 0x8F && Tail(s, 2) && Tail(s, 3) then 4
    else if 0xF1 <= s[0] <= 0xF3 && Tail(s, 1) && Tail(s, 2) && Tail(s, 3) then 4
    else 0
  }

  predicate ValidUtf8(s: seq<byte>) {
    s == [] || (CharLen(s) > 0 && ValidUtf8(s[CharLen(s)..]))
  }

  lemma {:induction false} ValidConcat(s: seq<byte>, t: seq<byte>)
    requires ValidUtf8(s) && ValidUtf8(t)
    ensures ValidUtf8(s + t)
  {
    if s == [] {
      assert s + t == t;
    } else {
      var n := CharLen(s);
      assert CharLen(s + t) == n;
      assert (s + t)[n..] == s[n..] + t;
      ValidConcat(s[n..], t);
    }
  }

  function Zeros(n: nat): (s: seq<byte>)
    ensures |s| == n && forall i | 0 <= i < n :: s[i] == 0
  {
    seq(n, _ => 0)
  }

  lemma {:induction false} ZerosValid(n: nat)
    ensures ValidUtf8(Zeros(n))
  {
    if n > 0 {
      assert Zeros(n)[1..] == Zeros(n - 1);
      ZerosValid(n - 1);
    }
  }

  // ---- Frames ----

  /** The name is the UTF-8 bytes of the queue name. */
  datatype Frame = Frame(command: nat, client: nat, name: seq<byte>, payload: seq<byte>)

  datatype Rejection = UnknownRequest | PayloadTooLarge

  datatype Parse = NeedMore | Refused(why: Rejection) | Got(frame: Frame, size: nat)

  function TrimZeros(s: seq<byte>): seq<byte> {
    if s == [] || s[|s| - 1] != 0 then s else TrimZeros(s[..|s| - 1])
  }

  /** A name field that is not UTF-8 names the empty string. */
  function DecodeName(field: seq<byte>): seq<byte> {
    if ValidUtf8(field) then TrimZeros(field) else []
  }

  /** `(payload_size as f64 * 2.25) as usize`, exact up to `MAX_PAYLOAD_SIZE`. */
  function SizeEstimate(p: nat): nat {
    9 * p / 4
  }

  predicate Oversized(p: nat, free: nat) {
    p > MAX_PAYLOAD_SIZE || SizeEstimate(p) >= free
  }

  /** One round of the parse loop on a buffer, with `free` bytes of memory available. */
  function ParseOne(buf: seq<byte>, free: nat): (r: Parse)
    ensures r.Got? ==> 0 < r.size <= |buf|
  {
    if |buf| < HEADER then NeedMore
    else if !(1 <= buf[0] <= 12) then Refused(UnknownRequest)
    else
      var p := FromBE(buf[17..25]);
      if Oversized(p, free) then Refused(PayloadTooLarge)
      else if |buf| < FIXED + p then NeedMore
      else Got(Frame(buf[0] as nat, FromBE(buf[1..17]), DecodeName(buf[25..89]), buf[89..89 + p]), FIXED + p)
  }

  /** What the loop makes of a buffer: the frames dispatched, the bytes left, and why it stopped
      reading for good, if it did. */
  datatype Drained = Drained(frames: seq<Frame>, rest: seq<byte>, stop: Option<Rejection>)

  function Drain(buf: seq<byte>, free: nat): Drained
    decreases |buf|
  {
    match ParseOne(buf, free)
    case NeedMore => Drained([], buf, None)
    case Refused(why) => Drained([], buf, Some(why))
    case Got(frame, size) => Behind([frame], Drain(buf[size..], free))
  }

  /** A result with more frames in front. */
  function Behind(frames: seq<Frame>, d: Drained): Drained {
    d.(frames := frames + d.frames)
  }

  // ---- Reading in chunks ----

  function Joined(chunks: seq<seq<byte>>): seq<byte> {
    if chunks == [] then [] else chunks[0] + Joined(chunks[1..])
  }

  datatype Session = Session(frames: seq<Frame>, rest: seq<byte>, stop: Option<Rejection>, unread: seq<seq<byte>>)

  /** The whole connection: append a chunk, drain, stop at a rejection, at an empty read (end of
      stream) or when there are no more chunks. */
  function Receive(buf: seq<byte>, chunks: seq<seq<byte>>, free: nat): Session
    decreases |chunks|
  {
    if chunks == [] || chunks[0] == [] then Session([], buf, None, chunks)
    else
      var d := Drain(buf + chunks[0], free);
      if d.stop.Some? then Session(d.frames, d.rest, d.stop, chunks[1..])
      else Received(d.frames, Receive(d.rest, chunks[1..], free))
  }

  function Received(frames: seq<Frame>, s: Session): Session {
    s.(frames := frames + s.frames)
  }

  /** More bytes never change what is decided about a frame. */
  lemma ParseStable(buf: seq<byte>, more: seq<byte>, free: nat)
    requires !ParseOne(buf, free).NeedMore?
    ensures ParseOne(buf + more, free) == ParseOne(buf, free)
  {
    var all := buf + more;
    assert all[17..25] == buf[17..25];
    if ParseOne(buf, free).Got? {
      var p := FromBE(buf[17..25]);
      assert all[1..17] == buf[1..17] && all[25..89] == buf[25..89] && all[89..89 + p] == buf[89..89 + p];
    }
  }

  /** Draining before more bytes arrive, and again after, dispatches what one drain of everything
      would. */
  lemma {:induction false} DrainAppend(buf: seq<byte>, more: seq<byte>, free: nat)
    ensures var d := Drain(buf, free);
      Drain(buf + more, free) ==
      if d.stop.Some? then d.(rest := d.rest + more)
      else Behind(d.frames, Drain(d.rest + more, free))
    decreases |buf|
  {
    var p := ParseOne(buf, free);
    hide ParseOne;
    if p.NeedMore? {
      var e := Drain(buf + more, free);
      assert [] + e.frames == e.frames;
    } else {
      ParseStable(buf, more, free);
      if p.Got? {
        assert (buf + more)[p.size..] == buf[p.size..] + more;
        DrainAppend(buf[p.size..], more, free);
        var d := Drain(buf[p.size..], free);
        if d.stop.None? {
          var e := Drain(d.rest + more, free);
          assert [p.frame] + (d.frames + e.frames) == [p.frame] + d.frames + e.frames;
        }
      }
    }
  }

  /** A residue is never a whole frame: draining it again does nothing. */
  lemma {:induction false} RestNeedsMore(buf: seq<byte>, free: nat)
    requires Drain(buf, free).stop.None?
    ensures ParseOne(Drain(buf, free).rest, free).NeedMore?
    decreases |buf|
  {
    var p := ParseOne(buf, free);
    if p.Got? { RestNeedsMore(buf[p.size..], free); }
  }

  /** However a byte stream is cut into reads, the same frames are dispatched in the same order, the
      connection stops at the same rejected header or not at all, and the bytes not consumed are the
      same. */
  lemma {:induction false} ChunksDoNotMatter(buf: seq<byte>, chunks: seq<seq<byte>>, free: nat)
    requires forall i | 0 <= i < |chunks| :: chunks[i] != []
    requires ParseOne(buf, free).NeedMore?
    ensures var s, w := Receive(buf, chunks, free), Drain(buf + Joined(chunks), free);
      s.frames == w.frames && s.stop == w.stop && s.rest + Joined(s.unread) == w.rest &&
      (s.stop.None? ==> s.unread == [])
    decreases |chunks|
  {
    hide ParseOne;
    if chunks == [] {
      assert buf + Joined(chunks) == buf;
      assert buf + [] == buf;
    } else {
      var c, rest := chunks[0], Joined(chunks[1..]);
      assert buf + Joined(chunks) == buf + c + rest;
      DrainAppend(buf + c, rest, free);
      var d := Drain(buf + c, free);
      if d.stop.None? {
        RestNeedsMore(buf + c, free);
        ChunksDoNotMatter(d.rest, chunks[1..], free);
      }
    }
  }

  // ---- Round trip ----

  predicate Encodable(f: Frame) {
    f.command < 256 && |f.name| <= NAME_SIZE
  }

  /** The encoder of src/tests/server_tests.rs:37-48, for names that fit. */
  function Encode(f: Frame): seq<byte>
    requires Encodable(f)
  {
    [f.command] + ToBE(f.client, 16) + ToBE(|f.payload|, 8) + (f.name + Zeros(NAME_SIZE - |f.name|)) + f.payload
  }

  /** A request a client may send and the server accepts with `free` bytes available: nine quarters of
      the payload are less than that. */
  predicate Sendable(f: Frame, free: nat) {
    Encodable(f) && 1 <= f.command <= 12 && f.client < Pow256(16) &&
    |f.payload| <= 0x1_0000_0000 && 9 * |f.payload| < 4 * free &&
    ValidUtf8(f.name) && (f.name != [] ==> f.name[|f.name| - 1] != 0)
  }

  lemma {:induction false} TrimPadded(name: seq<byte>, n: nat)
    requires name != [] ==> name[|name| - 1] != 0
    ensures TrimZeros(name + Zeros(n)) == name
  {
    var s := name + Zeros(n);
    if n > 0 {
      assert s[..|s| - 1] == name + Zeros(n - 1);
      TrimPadded(name, n - 1);
    } else {
      assert s == name;
    }
  }

  lemma NameRoundTrip(name: seq<byte>)
    requires |name| <= NAME_SIZE && ValidUtf8(name) && (name != [] ==> name[|name| - 1] != 0)
    ensures DecodeName(name + Zeros(NAME_SIZE - |name|)) == name
  {
    ZerosValid(NAME_SIZE - |name|);
    ValidConcat(name, Zeros(NAME_SIZE - |name|));
    TrimPadded(name, NAME_SIZE - |name|);
  }

  lemma SizeFits(p: nat)
    requires p <= MAX_PAYLOAD_SIZE
    ensures p < Pow256(8)
  {
    assert Pow256(4) == 0x1_0000_0000;
    assert Pow256(8) > Pow256(4);
  }

  /** Cutting the fields out of five joined parts gives the parts back. */
  lemma FieldsOf(a: seq<byte>, b: seq<byte>, c: seq<byte>, d: seq<byte>, e: seq<byte>, more: seq<byte>)
    requires |a| == 1 && |b| == 16 && |c| == 8 && |d| == 64
    ensures var s := a + b + c + d + e + more;
      s[0] == a[0] && s[1..17] == b && s[17..25] == c && s[25..89] == d && s[89..89 + |e|] == e && s[89 + |e|..] == more
  {
  }

  lemma ParseEncoded(f: Frame, more: seq<byte>, free: nat)
    requires Sendable(f, free)
    ensures ParseOne(Encode(f) + more, free) == Got(f, |Encode(f)|)
    ensures (Encode(f) + more)[|Encode(f)|..] == more
  {
    var a: seq<byte> := [f.command];
    var b, c := ToBE(f.client, 16), ToBE(|f.payload|, 8);
    var d := f.name + Zeros(NAME_SIZE - |f.name|);
    hide ToBE, ValidUtf8, FromBE, Pow256, TrimZeros;
    FieldsOf(a, b, c, d, f.payload, more);
    BERoundTrip(f.client, 16);
    SizeFits(|f.payload|);
    BERoundTrip(|f.payload|, 8);
    NameRoundTrip(f.name);
  }

  function EncodeAll(fs: seq<Frame>): seq<byte>
    requires forall i | 0 <= i < |fs| :: Encodable(fs[i])
  {
    if fs == [] then [] else Encode(fs[0]) + EncodeAll(fs[1..])
  }

  lemma {:induction false} DrainEncoded(fs: seq<Frame>, free: nat)
    requires forall i | 0 <= i < |fs| :: Encodable(fs[i]) && Sendable(fs[i], free)
    ensures Drain(EncodeAll(fs), free) == Drained(fs, [], None)
  {
    hide ParseOne, Encode;
    if fs == [] {
      EmptyNeedsMore(free);
    } else {
      ParseEncoded(fs[0], EncodeAll(fs[1..]), free);
      DrainEncoded(fs[1..], free);
      assert [fs[0]] + fs[1..] == fs;
    }
  }

  lemma EmptyNeedsMore(free: nat)
    ensures ParseOne([], free).NeedMore?
  {
  }

  /** Well-formed requests written back to back and cut anywhere decode to themselves, with nothing
      left over. */
  lemma RequestsRoundTrip(fs: seq<Frame>, chunks: seq<seq<byte>>, free: nat)
    requires forall i | 0 <= i < |fs| :: Encodable(fs[i]) && Sendable(fs[i], free)
    requires (forall i | 0 <= i < |chunks| :: chunks[i] != []) && Joined(chunks) == EncodeAll(fs)
    ensures Receive([], chunks, free) == Session(fs, [], None, [])
  {
    hide ParseOne, Encode, Sendable, Drain, Receive;
    EmptyNeedsMore(free);
    ChunksDoNotMatter([], chunks, free);
    DrainEncoded(fs, free);
    assert [] + Joined(chunks) == Joined(chunks);
  }
}
