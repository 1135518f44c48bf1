/** The Docker Engine's multiplexed exec stream. */
module Demux {
  import opened Sequences

  type byte = x: int | 0 <= x < 256

  /** A frame: the stream it belongs to (1 is stdout, 2 is stderr), three bytes the
      reader ignores, and the payload. */
  datatype Frame = Frame(stream: byte, pad: seq<byte>, payload: seq<byte>) {
    predicate Valid() {
      |pad| == 3 && |payload| < 0x1_0000_0000
    }
  }

  /** How the connection ends after its bytes: cleanly, closed from this side, or
      with another error. */
  datatype End = EOF | Closed | Broken

  function BigEndian(n: nat, width: nat): (b: seq<byte>)
    ensures |b| == width
  {
    if width == 0 then [] else BigEndian(n / 256, width - 1) + [n % 256]
  }

  function Length(b: seq<byte>): nat {
    if b == [] then 0 else 256 * Length(b[..|b| - 1]) + b[|b| - 1]
  }

  /** How many numbers fit into so many bytes. */
  function Fits(width: nat): nat {
    if width == 0 then 1 else 256 * Fits(width - 1)
  }

  lemma {:induction false} LengthOfBigEndian(n: nat, width: nat)
    requires n < Fits(width)
    ensures Length(BigEndian(n, width)) == n
  {
    if width > 0 {
      LengthOfBigEndian(n / 256, width - 1);
      assert BigEndian(n, width)[..width - 1] == BigEndian(n / 256, width - 1);
    }
  }

  lemma {:induction false} BigEndianOfLength(b: seq<byte>)
    ensures Length(b) < Fits(|b|) && BigEndian(Length(b), |b|) == b
  {
    if b != [] {
      BigEndianOfLength(b[..|b| - 1]);
      assert Length(b) / 256 == Length(b[..|b| - 1]);
    }
  }

  lemma FourBytes()
    ensures Fits(4) == 0x1_0000_0000
  {
    assert Fits(2) == 0x1_0000;
  }

  /** Big-endian: the first byte counts most. */
  lemma LengthOfFour(b: seq<byte>)
    requires |b| == 4
    ensures Length(b) == b[0] as int * 0x100_0000 + b[1] as int * 0x1_0000 + b[2] as int * 0x100 + b[3] as int
  {
    var one, two, three := [b[0]], [b[0], b[1]], [b[0], b[1], b[2]];
    assert one[..0] == [] && two[..1] == one && three[..2] == two && b[..3] == three;
    assert Length(one) == b[0] as int && Length(two) == b[0] as int * 0x100 + b[1] as int;
  }

  function EncodeFrame(f: Frame): (b: seq<byte>)
    requires f.Valid()
    ensures |b| == 8 + |f.payload|
  {
    [f.stream] + f.pad + BigEndian(|f.payload|, 4) + f.payload
  }

  ghost predicate AllValid(fs: seq<Frame>) {
    forall f | f in fs :: f.Valid()
  }

  ghost function Encode(fs: seq<Frame>): seq<byte>
    requires AllValid(fs)
  {
    if fs == [] then [] else EncodeFrame(fs[0]) + Encode(fs[1..])
  }

  /** What the frames say on one stream. */
  ghost function Payloads(fs: seq<Frame>, stream: byte): seq<byte> {
    if fs == [] then []
    else Payloads(fs[..|fs| - 1], stream) + if fs[|fs| - 1].stream == stream then fs[|fs| - 1].payload else []
  }

  /** The bytes do not begin with a whole frame. */
  predicate Incomplete(r: seq<byte>) {
    |r| < 8 || |r| - 8 < Length(r[4..8])
  }

  function Tail(r: seq<byte>): seq<byte>
    requires !Incomplete(r)
  {
    r[8 + Length(r[4..8])..]
  }

  function FirstFrame(r: seq<byte>): Frame
    requires !Incomplete(r)
  {
    Frame(r[0], r[1..4], r[8..8 + Length(r[4..8])])
  }

  /** The whole frames at the beginning of the stream. */
  ghost function Frames(r: seq<byte>): seq<Frame>
    decreases |r|
  {
    if Incomplete(r) then [] else [FirstFrame(r)] + Frames(Tail(r))
  }

  /** The bytes after them. */
  ghost function Rest(r: seq<byte>): seq<byte>
    decreases |r|
  {
    if Incomplete(r) then r else Rest(Tail(r))
  }

  /** The part of an incomplete frame's payload that has arrived for a stream. */
  function Partial(rest: seq<byte>, stream: byte): seq<byte> {
    if |rest| >= 8 && rest[0] == stream then rest[8..] else []
  }

  /** The header byte by byte: the stream, three bytes that are not looked at, and the
      length of the payload, which follows. */
  lemma HeaderLayout(r: seq<byte>)
    requires |r| >= 8
    ensures var n := r[4] as int * 0x100_0000 + r[5] as int * 0x1_0000 + r[6] as int * 0x100 + r[7] as int;
            && (Incomplete(r) <==> |r| < 8 + n)
            && (!Incomplete(r) ==> FirstFrame(r) == Frame(r[0], r[1..4], r[8..8 + n]) && Tail(r) == r[8 + n..])
  {
    LengthOfFour(r[4..8]);
  }

  lemma FirstFrameEncodes(r: seq<byte>)
    requires !Incomplete(r)
    ensures FirstFrame(r).Valid() && r == EncodeFrame(FirstFrame(r)) + Tail(r)
  {
    FourBytes();
    BigEndianOfLength(r[4..8]);
  }

  lemma EncodedFirst(f: Frame, r: seq<byte>)
    requires f.Valid()
    ensures var b := EncodeFrame(f) + r;
            !Incomplete(b) && FirstFrame(b) == f && Tail(b) == r
  {
    var b := EncodeFrame(f) + r;
    LengthOfBigEndian(|f.payload|, 4);
    assert b[4..8] == BigEndian(|f.payload|, 4);
    assert b[1..4] == f.pad;
    assert b[8..8 + |f.payload|] == f.payload;
  }

  lemma EncodeCons(f: Frame, fs: seq<Frame>)
    requires f.Valid() && AllValid(fs)
    ensures AllValid([f] + fs) && Encode([f] + fs) == EncodeFrame(f) + Encode(fs)
  {
    assert ([f] + fs)[1..] == fs;
  }

  lemma FramesUnfold(r: seq<byte>)
    requires !Incomplete(r)
    ensures Frames(r) == [FirstFrame(r)] + Frames(Tail(r)) && Rest(r) == Rest(Tail(r))
  {
  }

  /** Every stream is whole frames and then an incomplete rest… */
  lemma {:induction false} FramesEncode(r: seq<byte>)
    ensures AllValid(Frames(r)) && Incomplete(Rest(r)) && r == Encode(Frames(r)) + Rest(r)
    decreases |r|
  {
    if !Incomplete(r) {
      var f, fs, rest := FirstFrame(r), Frames(Tail(r)), Rest(Tail(r));
      FramesEncode(Tail(r));
      FirstFrameEncodes(r);
      EncodeCons(f, fs);
      Assoc(EncodeFrame(f), Encode(fs), rest);
      FramesUnfold(r);
    }
  }

  /** …in exactly one way. */
  lemma {:induction false} FramesUnique(fs: seq<Frame>, rest: seq<byte>)
    requires AllValid(fs) && Incomplete(rest)
    ensures Frames(Encode(fs) + rest) == fs && Rest(Encode(fs) + rest) == rest
  {
    if fs == [] {
      assert Encode(fs) + rest == rest;
    } else {
      FramesUnique(fs[1..], rest);
      var tail := Encode(fs[1..]) + rest;
      EncodedFirst(fs[0], tail);
      Assoc(EncodeFrame(fs[0]), Encode(fs[1..]), rest);
      FramesUnfold(EncodeFrame(fs[0]) + tail);
    }
  }

  lemma FramesStep(fs: seq<Frame>, left: seq<byte>, f: Frame)
    requires !Incomplete(left) && f == FirstFrame(left)
    ensures fs + Frames(left) == fs + [f] + Frames(Tail(left)) && Rest(left) == Rest(Tail(left))
    ensures Payloads(fs + [f], 1) == Payloads(fs, 1) + if f.stream == 1 then f.payload else []
    ensures Payloads(fs + [f], 2) == Payloads(fs, 2) + if f.stream == 2 then f.payload else []
  {
    FramesUnfold(left);
    AppendFirst(fs, f, Frames(Tail(left)));
    PayloadsSnoc(fs, f, 1);
    PayloadsSnoc(fs, f, 2);
  }

  lemma AppendFirst(fs: seq<Frame>, f: Frame, more: seq<Frame>)
    ensures fs + ([f] + more) == fs + [f] + more
  {
  }

  lemma PayloadsSnoc(fs: seq<Frame>, f: Frame, stream: byte)
    ensures Payloads(fs + [f], stream) == Payloads(fs, stream) + if f.stream == stream then f.payload else []
  {
    assert (fs + [f])[..|fs|] == fs;
  }

  /** After pos bytes the frames fs have been read and their payloads written. */
  ghost predicate SoFar(r: seq<byte>, pos: nat, fs: seq<Frame>, stdout: seq<byte>, stderr: seq<byte>) {
    && pos <= |r|
    && Frames(r) == fs + Frames(r[pos..]) && Rest(r) == Rest(r[pos..])
    && stdout == Payloads(fs, 1) && stderr == Payloads(fs, 2)
  }

  lemma NothingMore(r: seq<byte>, pos: nat, fs: seq<Frame>, stdout: seq<byte>, stderr: seq<byte>)
    requires SoFar(r, pos, fs, stdout, stderr) && Incomplete(r[pos..])
    ensures stdout == Payloads(Frames(r), 1) && stderr == Payloads(Frames(r), 2) && Rest(r) == r[pos..]
  {
    assert fs + [] == fs;
  }

  lemma NextFrame(r: seq<byte>, pos: nat, fs: seq<Frame>, stdout: seq<byte>, stderr: seq<byte>, f: Frame)
    requires SoFar(r, pos, fs, stdout, stderr) && !Incomplete(r[pos..]) && f == FirstFrame(r[pos..])
    ensures SoFar(r, pos + 8 + |f.payload|, fs + [f], stdout + if f.stream == 1 then f.payload else [],
                  stderr + if f.stream == 2 then f.payload else [])
  {
    FramesStep(fs, r[pos..], f);
    assert r[pos + 8 + |f.payload|..] == Tail(r[pos..]);
  }

  /** Reads a header and as much of its payload as there is. */
  method ReadFrame(r: seq<byte>, pos: nat) returns (stream: byte, arrived: seq<byte>, whole: bool)
    requires pos + 8 <= |r|
    ensures whole <==> !Incomplete(r[pos..])
    ensures whole ==> FirstFrame(r[pos..]).stream == stream && FirstFrame(r[pos..]).payload == arrived
    ensures whole ==> pos + 8 + |arrived| <= |r|
    ensures !whole ==> forall id :: Partial(r[pos..], id) == if id == stream then arrived else []
  {
    ghost var left := r[pos..];
    var header := r[pos..pos + 8];
    var n := Length(header[4..]);
    assert header[4..] == left[4..8];
    stream, whole := header[0], |r| - pos - 8 >= n;
    arrived := if whole then r[pos + 8..pos + 8 + n] else r[pos + 8..];
    assert arrived == left[8..8 + |arrived|];
  }

  /** demuxDockerStream: the payloads of the whole frames and what has arrived of an
      incomplete one, each on its own stream. */
  method DemuxStream(r: seq<byte>, end: End) returns (stdout: seq<byte>, stderr: seq<byte>, ok: bool)
    ensures stdout == Payloads(Frames(r), 1) + Partial(Rest(r), 1)
    ensures stderr == Payloads(Frames(r), 2) + Partial(Rest(r), 2)
    ensures ok <==> (end == EOF && Rest(r) == []) || (end == Closed && |Rest(r)| < 8)
  {
    var pos := 0;
    stdout, stderr := [], [];
    ghost var fs: seq<Frame> := [];
    while true
      invariant SoFar(r, pos, fs, stdout, stderr)
      decreases |r| - pos
    {
      if |r| - pos < 8 {
        NothingMore(r, pos, fs, stdout, stderr);
        return stdout, stderr, if end == EOF then pos == |r| else end == Closed;
      }
      var stream, arrived, whole := ReadFrame(r, pos);
      if whole {
        NextFrame(r, pos, fs, stdout, stderr, FirstFrame(r[pos..]));
      } else {
        NothingMore(r, pos, fs, stdout, stderr);
      }
      match stream {
        case 1 => stdout := stdout + arrived;
        case 2 => stderr := stderr + arrived;
        case _ =>
      }
      if !whole {
        return stdout, stderr, false;
      }
      fs := fs + [FirstFrame(r[pos..])];
      pos := pos + 8 + |arrived|;
    }
  }

  /** Demultiplexing what was multiplexed gives back each stream whole. */
  lemma RoundTrip(fs: seq<Frame>)
    requires AllValid(fs)
    ensures Frames(Encode(fs)) == fs && Rest(Encode(fs)) == []
  {
    FramesUnique(fs, []);
    assert Encode(fs) + [] == Encode(fs);
  }

  /** Cut off anywhere inside the next frame, the stream still holds exactly the
      earlier frames, and what is left over is not empty. */
  lemma CutFrame(fs: seq<Frame>, next: Frame, k: nat)
    requires AllValid(fs) && next.Valid() && 0 < k < |EncodeFrame(next)|
    ensures var r := Encode(fs) + EncodeFrame(next)[..k];
            && Frames(r) == fs && Rest(r) == EncodeFrame(next)[..k]
            && forall stream: byte :: Partial(Rest(r), stream) ==
                 if stream == next.stream && k > 8 then next.payload[..k - 8] else []
  {
    var rest := EncodeFrame(next)[..k];
    LengthOfBigEndian(|next.payload|, 4);
    if k >= 8 {
      var header := [next.stream] + next.pad + BigEndian(|next.payload|, 4);
      assert EncodeFrame(next) == header + next.payload;
      assert header[4..8] == BigEndian(|next.payload|, 4);
      assert rest == header + next.payload[..k - 8];
      assert rest[4..8] == BigEndian(|next.payload|, 4);
      assert rest[8..] == next.payload[..k - 8];
    }
    FramesUnique(fs, rest);
  }

  /** Every proper prefix of a stream ends between two frames or inside one. */
  lemma {:induction false} CutAnywhere(fs: seq<Frame>, k: nat) returns (m: nat, j: nat)
    requires AllValid(fs) && k < |Encode(fs)|
    ensures m < |fs| && j < |EncodeFrame(fs[m])|
    ensures AllValid(fs[..m]) && Encode(fs)[..k] == Encode(fs[..m]) + EncodeFrame(fs[m])[..j]
  {
    var first := EncodeFrame(fs[0]);
    if k < |first| {
      m, j := 0, k;
    } else {
      var m', j' := CutAnywhere(fs[1..], k - |first|);
      m, j := m' + 1, j';
      assert fs[..m][1..] == fs[1..][..m'];
      assert Encode(fs)[..k] == first + Encode(fs[1..])[..k - |first|];
    }
  }

  /** A stream that ends with end of file is accepted exactly if it is the encoding
      of some frames. */
  lemma AcceptedExactly(r: seq<byte>)
    ensures Rest(r) == [] <==> exists fs :: AllValid(fs) && Encode(fs) == r
  {
    FramesEncode(r);
    if fs :| AllValid(fs) && Encode(fs) == r {
      RoundTrip(fs);
    }
  }

  /** A connection closed from this side in the middle of a header is taken for a
      clean end, though a frame was cut off. */
  method ClosedInHeader() returns (ok: bool)
    ensures ok
  {
    var out, err;
    assert Incomplete([1, 0]);
    out, err, ok := DemuxStream([1, 0], Closed);
  }
}
