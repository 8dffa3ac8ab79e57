/**
 * container/container.logs.go: the decoder of Docker's multiplexed log stream.  A frame is a
 * header of eight bytes, the last four of which give the size of the payload in big-endian order,
 * and then the payload.
 */
module LogDemux {
  import opened GoStrings
  import opened Results

  type Bytes = seq<Byte>

  datatype IoError = EOF | UnexpectedEOF | OtherError(code: nat)

  /** How the pipe to the consumer is closed. */
  datatype Close = Clean | WithError(err: IoError)

  const HEADER_SIZE := 8

  function Closing(err: IoError): Close
  {
    if err == EOF then Clean else WithError(err)
  }

  // ---------- The decoder as a function ----------

  /** binary.BigEndian.Uint32. */
  function Uint32(b: Bytes): (n: nat)
    requires |b| == 4
    ensures n < 0x1_0000_0000
  {
    ((b[0] as int * 256 + b[1] as int) * 256 + b[2] as int) * 256 + b[3] as int
  }

  datatype Decoded = Decoded(out: Bytes, close: Close)

  function Behind(done: Bytes, d: Decoded): Decoded
  {
    d.(out := done + d.out)
  }

  /** What the consumer gets from a stream of `data` that ends with `end`. */
  function Decode(data: Bytes, end: IoError): Decoded
    decreases |data|
  {
    if |data| < HEADER_SIZE then Decoded([], Closing(if data != [] && end == EOF then UnexpectedEOF else end))
    else
      var size, rest := Uint32(data[4..8]), data[8..];
      if |rest| < size then Decoded(rest, Closing(end))
      else Behind(rest[..size], Decode(rest[size..], end))
  }

  // ---------- The decoder as the code runs it ----------

  /** An io.Reader that hands out its data in chunks of its own choosing. */
  class Source {
    const data: Bytes
    const end: IoError
    const chunk: nat -> nat
    var pos: nat

    constructor (data: Bytes, end: IoError, chunk: nat -> nat)
      ensures this.data == data && this.end == end && this.chunk == chunk && pos == 0
    {
      this.data, this.end, this.chunk, pos := data, end, chunk, 0;
    }

    predicate Valid()
      reads this
    {
      pos <= |data|
    }

    /** At least one byte and at most `max`, or the end. */
    method Read(max: nat) returns (b: Bytes, err: Option<IoError>)
      requires Valid() && max > 0
      modifies this
      ensures Valid() && old(pos) <= pos && b == data[old(pos)..pos] && |b| <= max
      ensures if old(pos) < |data| then b != [] && err == None else b == [] && err == Some(end)
    {
      if pos == |data| {
        return [], Some(end);
      }
      var n := 1 + chunk(pos);
      n := if n > max then max else n;
      n := if n > |data| - pos then |data| - pos else n;
      b, err := data[pos..pos + n], None;
      pos := pos + n;
    }
  }

  lemma SliceJoin(s: Bytes, from: nat, mid: nat, to: nat)
    requires from <= mid <= to <= |s|
    ensures s[from..to] == s[from..mid] + s[mid..to]
  {
  }

  /** io.ReadFull: fills the buffer, or says why it cannot. */
  method ReadFull(r: Source, buf: array<Byte>) returns (err: Option<IoError>)
    requires r.Valid() && buf.Length > 0
    modifies r, buf
    ensures r.Valid()
    ensures var left := |r.data| - old(r.pos);
      if left >= buf.Length then
        err == None && r.pos == old(r.pos) + buf.Length && buf[..] == r.data[old(r.pos)..r.pos]
      else
        r.pos == |r.data| && err == Some(if left > 0 && r.end == EOF then UnexpectedEOF else r.end)
  {
    var n := 0;
    while n < buf.Length
      invariant r.Valid() && n <= buf.Length && r.pos == old(r.pos) + n
      invariant buf[..n] == r.data[old(r.pos)..r.pos]
    {
      var b, e := r.Read(buf.Length - n);
      if e.Some? {
        return Some(if n > 0 && e.value == EOF then UnexpectedEOF else e.value);
      }
      ghost var done := buf[..n];
      forall i | 0 <= i < |b| {
        buf[n + i] := b[i];
      }
      assert buf[..n + |b|] == done + b;
      SliceJoin(r.data, old(r.pos), old(r.pos) + n, r.pos);
      n := n + |b|;
    }
    assert buf[..] == buf[..n];
    return None;
  }

  /** io.CopyN into the pipe: a source that ends early is reported as its end. */
  method CopyN(r: Source, n: nat) returns (out: Bytes, err: Option<IoError>)
    requires r.Valid()
    modifies r
    ensures r.Valid() && old(r.pos) <= r.pos && out == r.data[old(r.pos)..r.pos]
    ensures if |r.data| - old(r.pos) >= n then err == None && |out| == n
            else err == Some(r.end) && r.pos == |r.data|
  {
    out := [];
    while |out| < n
      invariant r.Valid() && r.pos == old(r.pos) + |out| && |out| <= n
      invariant out == r.data[old(r.pos)..r.pos]
      decreases n - |out|
    {
      var b, e := r.Read(n - |out|);
      if e.Some? {
        return out, e;
      }
      out := out + b;
    }
    return out, None;
  }

  /** parseMultiplexedLogs: what is written to the pipe, and how the pipe is closed. */
  method ParseMultiplexedLogs(r: Source) returns (out: Bytes, close: Close)
    requires r.Valid()
    modifies r
    ensures Decoded(out, close) == Decode(r.data[old(r.pos)..], r.end)
  {
    var streamHeader := new Byte[HEADER_SIZE];
    out := [];
    while true
      invariant r.Valid()
      invariant Behind(out, Decode(r.data[r.pos..], r.end)) == Decode(r.data[old(r.pos)..], r.end)
      decreases |r.data| - r.pos
    {
      ghost var data := r.data[r.pos..];
      var err := ReadFull(r, streamHeader);
      if err.Some? {
        return out, Closing(err.value);
      }
      assert streamHeader[..] == data[..HEADER_SIZE];
      var frameSize := Uint32(streamHeader[4..]);
      assert streamHeader[4..] == data[4..8];
      var payload;
      payload, err := CopyN(r, frameSize);
      BehindBoth(out, payload, Decode(r.data[r.pos..], r.end));
      out := out + payload;
      if err.Some? {
        assert payload == data[8..];
        return out, Closing(err.value);
      }
      assert payload == data[8..][..frameSize];
      assert r.data[r.pos..] == data[8..][frameSize..];
    }
  }

  lemma BehindBoth(a: Bytes, b: Bytes, d: Decoded)
    ensures Behind(a, Behind(b, d)) == Behind(a + b, d)
  {
    assert a + (b + d.out) == (a + b) + d.out;
  }

  // ---------- The encoder's side ----------

  datatype Frame = Frame(stream: Byte, reserved: (Byte, Byte, Byte), payload: Bytes)

  predicate Fits(f: Frame)
  {
    |f.payload| < 0x1_0000_0000
  }

  predicate AllFit(frames: seq<Frame>)
  {
    forall f :: f in frames ==> Fits(f)
  }

  function BigEndian(n: nat): (b: Bytes)
    requires n < 0x1_0000_0000
    ensures |b| == 4
  {
    [n / 0x100_0000, n / 0x1_0000 % 256, n / 256 % 256, n % 256]
  }

  function EncodeFrame(f: Frame): Bytes
    requires Fits(f)
  {
    [f.stream, f.reserved.0, f.reserved.1, f.reserved.2] + BigEndian(|f.payload|) + f.payload
  }

  function Encode(frames: seq<Frame>): Bytes
    requires AllFit(frames)
  {
    if frames == [] then [] else EncodeFrame(frames[0]) + Encode(frames[1..])
  }

  function Payloads(frames: seq<Frame>): Bytes
  {
    if frames == [] then [] else frames[0].payload + Payloads(frames[1..])
  }

  lemma BigEndianRoundTrip(n: nat)
    requires n < 0x1_0000_0000
    ensures Uint32(BigEndian(n)) == n
  {
    assert n / 256 / 256 == n / 0x1_0000 && n / 0x1_0000 / 256 == n / 0x100_0000;
    assert n == 256 * (n / 256) + n % 256;
    assert n / 256 == 256 * (n / 0x1_0000) + n / 256 % 256;
    assert n / 0x1_0000 == 256 * (n / 0x100_0000) + n / 0x1_0000 % 256;
  }

  /** What bytes stand for with the most significant one first. */
  function Positional(b: Bytes): nat
  {
    if b == [] then 0 else 256 * Positional(b[..|b| - 1]) + b[|b| - 1]
  }

  /** The size of a frame is what its four bytes stand for. */
  lemma Uint32IsPositional(b: Bytes)
    requires |b| == 4
    ensures Uint32(b) == Positional(b)
  {
    assert b[..3][..2] == b[..2] && b[..2][..1] == b[..1] && b[..1][..0] == [];
    var n: int := b[0];
    assert Positional(b[..1]) == n && Positional(b[..2]) == 256 * n + b[1];
    assert Positional(b[..3]) == 256 * (256 * n + b[1]) + b[2];
  }

  lemma HeaderOf(f: Frame, more: Bytes)
    requires Fits(f)
    ensures var data := EncodeFrame(f) + more;
      && |data| == 8 + |f.payload| + |more| && Uint32(data[4..8]) == |f.payload|
      && data[8..] == f.payload + more
  {
    var data := EncodeFrame(f) + more;
    BigEndianRoundTrip(|f.payload|);
    assert data[4..8] == BigEndian(|f.payload|);
  }

  /** Decoding an encoding yields the payloads and a clean close. */
  lemma {:induction false} DecodeEncode(frames: seq<Frame>)
    requires AllFit(frames)
    ensures Decode(Encode(frames), EOF) == Decoded(Payloads(frames), Clean)
    decreases |frames|
  {
    if frames != [] {
      var f, more := frames[0], Encode(frames[1..]);
      HeaderOf(f, more);
      assert (f.payload + more)[..|f.payload|] == f.payload;
      assert (f.payload + more)[|f.payload|..] == more;
      DecodeEncode(frames[1..]);
    }
  }

  // ---------- Streams that end with an error ----------

  /**
   * A stream that ends with an error delivers what it would if it just ended there, and the error
   * reaches the consumer wherever in a frame it comes, as it is.
   */
  lemma {:induction false} ErrorsReachConsumer(data: Bytes, end: IoError)
    requires end != EOF
    ensures Decode(data, end) == Decoded(Decode(data, EOF).out, WithError(end))
    decreases |data|
  {
    if |data| >= 8 {
      var size, rest := Uint32(data[4..8]), data[8..];
      if |rest| >= size {
        ErrorsReachConsumer(rest[size..], end);
      }
    }
  }

  // ---------- Truncated streams ----------

  /** Where the frame number `i` starts. */
  function Offset(frames: seq<Frame>, i: nat): nat
    requires i <= |frames|
  {
    if i == 0 then 0 else 8 + |frames[0].payload| + Offset(frames[1..], i - 1)
  }

  /** The cut falls strictly inside a header. */
  ghost predicate InsideHeader(frames: seq<Frame>, k: nat)
  {
    exists i :: 0 <= i < |frames| && Offset(frames, i) < k < Offset(frames, i) + 8
  }

  /** The payload bytes among the first `k` bytes of the encoding. */
  function Delivered(frames: seq<Frame>, k: nat): Bytes
  {
    if frames == [] || k <= 8 then []
    else if k - 8 < |frames[0].payload| then frames[0].payload[..k - 8]
    else frames[0].payload + Delivered(frames[1..], k - 8 - |frames[0].payload|)
  }

  lemma {:induction false} DeliveredIsPrefix(frames: seq<Frame>, k: nat)
    ensures Delivered(frames, k) <= Payloads(frames)
    decreases |frames|
  {
    if frames != [] && k > 8 && k - 8 >= |frames[0].payload| {
      DeliveredIsPrefix(frames[1..], k - 8 - |frames[0].payload|);
    }
  }

  lemma InsideLater(frames: seq<Frame>, k: nat)
    requires frames != [] && k >= 8 + |frames[0].payload|
    ensures InsideHeader(frames, k) <==> InsideHeader(frames[1..], k - 8 - |frames[0].payload|)
  {
    var n := 8 + |frames[0].payload|;
    if InsideHeader(frames, k) {
      var i :| 0 <= i < |frames| && Offset(frames, i) < k < Offset(frames, i) + 8;
      assert Offset(frames[1..], i - 1) == Offset(frames, i) - n;
    }
    if InsideHeader(frames[1..], k - n) {
      var i :| 0 <= i < |frames[1..]| && Offset(frames[1..], i) < k - n < Offset(frames[1..], i) + 8;
      assert Offset(frames, i + 1) == n + Offset(frames[1..], i);
    }
  }

  /** A cut inside the first frame: the part of its payload that is left comes through. */
  lemma CutInside(f: Frame, more: Bytes, k: nat)
    requires Fits(f) && k < 8 + |f.payload|
    ensures k <= |EncodeFrame(f) + more|
    ensures Decode((EncodeFrame(f) + more)[..k], EOF) ==
      if k < 8 then Decoded([], if k > 0 then WithError(UnexpectedEOF) else Clean) else Decoded(f.payload[..k - 8], Clean)
  {
    var data := EncodeFrame(f) + more;
    HeaderOf(f, more);
    if k >= 8 {
      assert data[..k][4..8] == data[4..8];
      assert data[..k][8..] == data[8..][..k - 8] == f.payload[..k - 8];
    }
  }

  /** A cut behind the first frame is a cut of the others. */
  lemma CutBehind(f: Frame, more: Bytes, k: nat)
    requires Fits(f) && k <= |more|
    ensures Decode((EncodeFrame(f) + more)[..8 + |f.payload| + k], EOF) == Behind(f.payload, Decode(more[..k], EOF))
  {
    var data := EncodeFrame(f) + more[..k];
    assert (EncodeFrame(f) + more)[..8 + |f.payload| + k] == data;
    HeaderOf(f, more[..k]);
    TakenApart(f.payload, more[..k]);
  }

  /** What a cut behind `k` bytes is to give. */
  ghost function CutAt(frames: seq<Frame>, k: nat): Decoded
  {
    Decoded(Delivered(frames, k), if InsideHeader(frames, k) then WithError(UnexpectedEOF) else Clean)
  }

  lemma CutInFirst(frames: seq<Frame>, k: nat)
    requires AllFit(frames) && frames != [] && k < 8 + |frames[0].payload|
    ensures k <= |Encode(frames)| && Decode(Encode(frames)[..k], EOF) == CutAt(frames, k)
  {
    CutInside(frames[0], Encode(frames[1..]), k);
    CutFirst(frames, k);
  }

  lemma CutInLater(frames: seq<Frame>, k: nat)
    requires AllFit(frames) && frames != [] && k <= |Encode(frames[1..])|
    requires Decode(Encode(frames[1..])[..k], EOF) == CutAt(frames[1..], k)
    ensures 8 + |frames[0].payload| + k <= |Encode(frames)|
    ensures Decode(Encode(frames)[..8 + |frames[0].payload| + k], EOF) == CutAt(frames, 8 + |frames[0].payload| + k)
  {
    HeaderOf(frames[0], Encode(frames[1..]));
    InsideLater(frames, 8 + |frames[0].payload| + k);
    CutBehind(frames[0], Encode(frames[1..]), k);
    DeliveredLater(frames, k);
  }

  lemma DeliveredLater(frames: seq<Frame>, k: nat)
    requires frames != []
    ensures Delivered(frames, 8 + |frames[0].payload| + k) == frames[0].payload + Delivered(frames[1..], k)
  {
    if frames[0].payload == [] && k == 0 {
      assert Delivered(frames[1..], 0) == [];
    }
  }

  lemma EncodeLength(frames: seq<Frame>)
    requires AllFit(frames) && frames != []
    ensures AllFit(frames[1..]) && |Encode(frames)| == 8 + |frames[0].payload| + |Encode(frames[1..])|
  {
    HeaderOf(frames[0], Encode(frames[1..]));
  }

  lemma CutNothing()
    ensures Encode([]) == [] && Decode([], EOF) == CutAt([], 0)
  {
    assert !InsideHeader([], 0);
  }

  lemma {:induction false} CutIsExact(frames: seq<Frame>, k: nat)
    requires AllFit(frames) && k <= |Encode(frames)|
    ensures Decode(Encode(frames)[..k], EOF) == CutAt(frames, k)
    decreases |frames|
  {
    if frames == [] {
      CutNothing();
    } else {
      var n := 8 + |frames[0].payload|;
      EncodeLength(frames);
      if k < n {
        CutInFirst(frames, k);
      } else {
        CutIsExact(frames[1..], k - n);
        CutInLater(frames, k - n);
      }
    }
  }

  /**
   * Wherever an encoding is cut off, the payload bytes before the cut come through; the close
   * carries an error exactly when the cut falls strictly inside a header, so a cut inside a
   * payload closes cleanly with the partial bytes.
   */
  lemma TruncationIsExact(frames: seq<Frame>, k: nat)
    requires AllFit(frames) && k <= |Encode(frames)|
    ensures Decode(Encode(frames)[..k], EOF)
         == Decoded(Delivered(frames, k), if InsideHeader(frames, k) then WithError(UnexpectedEOF) else Clean)
    ensures Delivered(frames, k) <= Payloads(frames)
  {
    CutIsExact(frames, k);
    DeliveredIsPrefix(frames, k);
  }

  /** A cut inside the first frame is inside a header exactly when it is inside the first one. */
  lemma CutFirst(frames: seq<Frame>, k: nat)
    requires frames != [] && k < 8 + |frames[0].payload|
    ensures InsideHeader(frames, k) <==> 0 < k < 8
  {
    assert Offset(frames, 0) == 0;
  }
}
