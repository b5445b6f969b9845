/**
 The framing of the network config protocol (config/source_network.go): eight magic
 bytes, a four-byte version, a four-byte big-endian length, and the payload.
 */
module Frames {
  import opened Text

  type Byte = x: int | 0 <= x < 256
  type Bytes = seq<Byte>

  const MAGIC: Bytes := [67, 69, 78, 84, 65, 85, 82, 73]
  lemma {:induction false} MagicIs(i: nat)
    requires i < 8
    ensures |MAGIC| == 8 && MAGIC[i] == "CENTAURI"[i] as int
  {
  }

  const VERSION: Bytes := [0, 0, 0, 1]
  const HEADER_SIZE := 16
  const LIMIT := 0x1_0000_0000

  /** binary.BigEndian.PutUint32. */
  function Length(n: int): (b: Bytes)
    requires 0 <= n < LIMIT
    ensures |b| == 4
  {
    [n / 0x100_0000, n / 0x1_0000 % 256, n / 256 % 256, n % 256]
  }

  /** binary.BigEndian.Uint32. */
  function Uint32(b: Bytes): (n: nat)
    requires |b| == 4
    ensures n < LIMIT
  {
    b[0] as int * 0x100_0000 + b[1] as int * 0x1_0000 + b[2] as int * 256 + b[3] as int
  }

  lemma {:induction false} LengthReadsBack(n: int)
    requires 0 <= n < LIMIT
    ensures Uint32(Length(n)) == n
  {
    assert n == 256 * (n / 256) + n % 256;
    assert n / 256 == 256 * (n / 256 / 256) + n / 256 % 256;
    assert n / 256 / 256 == n / 0x1_0000;
    assert n / 0x1_0000 == 256 * (n / 0x1_0000 / 256) + n / 0x1_0000 % 256;
    assert n / 0x1_0000 / 256 == n / 0x100_0000;
  }

  predicate Sendable(p: Bytes) {
    |p| < LIMIT
  }

  /** What a server sends for one payload. */
  function Frame(p: Bytes): (f: Bytes)
    requires Sendable(p)
    ensures |f| == HEADER_SIZE + |p|
  {
    MAGIC + VERSION + Length(|p|) + p
  }

  /** A frame read from the front of a stream: its payload, or None on error, and what is left unread. */
  datatype ReadResult = ReadResult(payload: Option<Bytes>, rest: Bytes)

  /** io.ReadFull: a short read uses up the stream. */
  function ReadFull(s: Bytes, n: nat): (r: (Option<Bytes>, Bytes))
    ensures r.0.Some? ==> |r.0.value| == n && s == r.0.value + r.1
    ensures r.0.None? ==> |s| < n && r.1 == []
  {
    if |s| < n then (None, []) else (Some(s[..n]), s[n..])
  }

  function ReadFrame(s: Bytes): (r: ReadResult)
    ensures r.payload.Some? ==> |r.rest| < |s|
  {
    var (magic, s1) := ReadFull(s, 8);
    if magic != Some(MAGIC) then ReadResult(None, s1)
    else
      var (version, s2) := ReadFull(s1, 4);
      if version != Some(VERSION) then ReadResult(None, s2)
      else
        var (length, s3) := ReadFull(s2, 4);
        if length.None? then ReadResult(None, s3)
        else
          var (payload, s4) := ReadFull(s3, Uint32(length.value));
          ReadResult(payload, s4)
  }

  class Conn {
    const data: Bytes      // everything the peer sends on this connection
    var pos: nat

    ghost predicate Valid()
      reads this
    {
      pos <= |data|
    }

    ghost function Unread(): Bytes
      reads this
      requires Valid()
    {
      data[pos..]
    }

    constructor (data: Bytes)
      ensures Valid() && Unread() == data
    {
      this.data := data;
      pos := 0;
    }

    method Full(n: nat) returns (r: Option<Bytes>)
      requires Valid()
      modifies this
      ensures Valid()
      ensures (r, Unread()) == ReadFull(old(Unread()), n)
    {
      if |data| - pos < n {
        pos := |data|;
        assert Unread() == [];
        return None;
      }
      r := Some(data[pos..pos + n]);
      pos := pos + n;
      assert old(Unread())[..n] == r.value && old(Unread())[n..] == Unread();
    }

    /** The reading half of readAndApplyConfig. */
    method NextFrame() returns (r: Option<Bytes>)
      requires Valid()
      modifies this
      ensures Valid()
      ensures ReadResult(r, Unread()) == ReadFrame(old(Unread()))
    {
      var magic := Full(8);
      if magic != Some(MAGIC) {
        return None;
      }
      var version := Full(4);
      if version != Some(VERSION) {
        return None;
      }
      var length := Full(4);
      if length.None? {
        return None;
      }
      r := Full(Uint32(length.value));
    }
  }

  // ---- streams of frames ----

  ghost predicate AllSendable(ps: seq<Bytes>) {
    forall i :: 0 <= i < |ps| ==> Sendable(ps[i])
  }

  function Stream(ps: seq<Bytes>): Bytes
    requires AllSendable(ps)
  {
    if ps == [] then [] else Frame(ps[0]) + Stream(ps[1..])
  }

  /** The payloads read until the first error. */
  function ReadAll(s: Bytes): seq<Bytes>
    decreases |s|
  {
    var r := ReadFrame(s);
    if r.payload.None? then [] else [r.payload.value] + ReadAll(r.rest)
  }

  /** A frame is read back as its payload, and leaves the reader at the next frame. */
  lemma {:induction false} FrameReadsBack(p: Bytes, rest: Bytes)
    requires Sendable(p)
    ensures ReadFrame(Frame(p) + rest) == ReadResult(Some(p), rest)
  {
    var s := Frame(p) + rest;
    var s1, s2, s3 := s[8..], s[12..], s[16..];
    assert s[..8] == MAGIC;
    assert s1[..4] == VERSION && s1[4..] == s2;
    assert s2[..4] == Length(|p|) && s2[4..] == s3;
    LengthReadsBack(|p|);
    assert s3[..|p|] == p && s3[|p|..] == rest;
  }

  lemma {:induction false} LengthWrites(b: Bytes)
    requires |b| == 4
    ensures Length(Uint32(b)) == b
  {
    var n := Uint32(b);
    assert n / 0x100_0000 == b[0] && n / 0x1_0000 == b[0] as int * 256 + b[1] as int;
    assert n / 256 == b[0] as int * 0x1_0000 + b[1] as int * 256 + b[2] as int;
  }

  /** And only a frame is: whatever is read as a payload was framed as that payload. */
  lemma {:induction false} OnlyFramesAreRead(s: Bytes, p: Bytes)
    ensures ReadFrame(s).payload == Some(p) <==> Sendable(p) && Frame(p) <= s
    ensures ReadFrame(s).payload == Some(p) ==> s == Frame(p) + ReadFrame(s).rest
  {
    if Sendable(p) && Frame(p) <= s {
      assert s == Frame(p) + s[|Frame(p)|..];
      FrameReadsBack(p, s[|Frame(p)|..]);
    }
    if ReadFrame(s).payload == Some(p) {
      var magic, version, length := s[..8], s[8..][..4], s[8..][4..][..4];
      LengthWrites(length);
      assert s == magic + version + length + p + ReadFrame(s).rest;
    }
  }

  /** A frame that is cut short is an error. */
  lemma {:induction false} CutFrameFails(p: Bytes, k: nat)
    requires Sendable(p) && k < |Frame(p)|
    ensures ReadFrame(Frame(p)[..k]).payload == None
  {
    var f := Frame(p);
    var s := f[..k];
    if k >= 16 {
      assert s[..8] == MAGIC;
      var s1 := s[8..];
      assert s1[..4] == VERSION;
      var s2 := s1[4..];
      assert s2[..4] == Length(|p|);
      LengthReadsBack(|p|);
      assert |s2[4..]| == k - 16;
    }
  }

  lemma {:induction false} EmptyFails()
    ensures ReadFrame([]).payload == None
  {
  }

  /** How many whole frames the first `k` bytes of a stream hold. */
  function Whole(ps: seq<Bytes>, k: nat): (n: nat)
    requires AllSendable(ps)
    ensures n <= |ps|
  {
    if ps == [] || k < |Frame(ps[0])| then 0 else 1 + Whole(ps[1..], k - |Frame(ps[0])|)
  }

  /** Where the cut of a stream falls: in its first frame, or after it. */
  lemma {:induction false} CutStream(ps: seq<Bytes>, k: nat)
    requires AllSendable(ps) && ps != [] && k <= |Stream(ps)|
    ensures var f, rest := Frame(ps[0]), Stream(ps[1..]);
      if k < |f| then Stream(ps)[..k] == f[..k] && Whole(ps, k) == 0
      else
        && k - |f| <= |rest| && Stream(ps)[..k] == f + rest[..k - |f|]
        && Whole(ps, k) == 1 + Whole(ps[1..], k - |f|)
  {
    hide Frame;
    var f, rest := Frame(ps[0]), Stream(ps[1..]);
    if k < |f| {
      assert (f + rest)[..k] == f[..k];
    } else {
      assert (f + rest)[..k] == f + rest[..k - |f|];
    }
  }

  lemma {:induction false} NothingSent(k: nat)
    requires k <= |Stream([])|
    ensures Stream([])[..k] == [] && Whole([], k) == 0
  {
  }

  /** However a stream of frames is cut off, exactly the whole frames before the cut are read, and then there is an error. */
  lemma {:induction false} TruncatedStreamReadsBack(ps: seq<Bytes>, k: nat)
    requires AllSendable(ps) && k <= |Stream(ps)|
    ensures ReadAll(Stream(ps)[..k]) == ps[..Whole(ps, k)]
    decreases |ps|
  {
    hide ReadFrame, Frame, Stream, Whole;
    if ps == [] {
      NothingSent(k);
      EmptyFails();
    } else {
      var f, rest := Frame(ps[0]), Stream(ps[1..]);
      CutStream(ps, k);
      if k < |f| {
        CutFrameFails(ps[0], k);
      } else {
        FrameReadsBack(ps[0], rest[..k - |f|]);
        TruncatedStreamReadsBack(ps[1..], k - |f|);
        var n := Whole(ps[1..], k - |f|);
        assert [ps[0]] + ps[1..][..n] == ps[..n + 1];
      }
    }
  }

  lemma {:induction false} WholeStream(ps: seq<Bytes>)
    requires AllSendable(ps)
    ensures Whole(ps, |Stream(ps)|) == |ps|
  {
    if ps != [] {
      WholeStream(ps[1..]);
    }
  }

  /** Any payloads, sent one after the other, are read back as exactly those payloads. */
  lemma {:induction false} StreamReadsBack(ps: seq<Bytes>)
    requires AllSendable(ps)
    ensures ReadAll(Stream(ps)) == ps
  {
    TruncatedStreamReadsBack(ps, |Stream(ps)|);
    WholeStream(ps);
    assert Stream(ps)[..|Stream(ps)|] == Stream(ps) && ps[..|ps|] == ps;
  }
}
