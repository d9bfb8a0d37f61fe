/** The wire format of map updates: twelve header bytes, most significant first,
    then two bytes an obstacle. */
module MapCodec {
  import opened Grid
  import opened VoteBuff

  const MAX_TYPED_PIPE_BUFF := 4096
  const HEADER := 12

  datatype MapUpdate = MapUpdate(poseX: int, poseY: int, obs: seq<(byte, byte)>)

  predicate IsInt32(x: int) {
    -0x8000_0000 <= x < 0x8000_0000
  }

  // ----- four-byte integers

  /** The byte of x that starts `shift` times eight bits up. */
  function ByteOf(x: int, unit: int): byte
    requires unit > 0
  {
    (x / unit % 256) as byte
  }

  function Bytes4(x: int): (b: seq<byte>)
    ensures |b| == 4
  {
    [ByteOf(x, 0x100_0000), ByteOf(x, 0x1_0000), ByteOf(x, 0x100), ByteOf(x, 1)]
  }

  function Int4(b: seq<byte>): (x: int)
    requires |b| == 4
    ensures IsInt32(x)
  {
    var u := b[0] as int * 0x100_0000 + b[1] as int * 0x1_0000 + b[2] as int * 0x100 + b[3] as int;
    if u < 0x8000_0000 then u else u - 0x1_0000_0000
  }

  lemma Int4Inverts(x: int)
    requires IsInt32(x)
    ensures Int4(Bytes4(x)) == x
  {
    var a, b, c := x / 0x100_0000, x / 0x1_0000, x / 0x100;
    assert x == c * 0x100 + x % 0x100;
    assert c == b * 0x100 + c % 0x100;
    assert b == a * 0x100 + b % 0x100;
    assert -0x80 <= a < 0x80;
  }

  /** The most significant byte comes first. */
  lemma BigEndian(x: int)
    ensures var b := Bytes4(x);
      (x - (b[0] as int * 16777216 + b[1] as int * 65536 + b[2] as int * 256 + b[3] as int)) % 4294967296 == 0
  {
    var a, b, c := x / 0x100_0000, x / 0x1_0000, x / 0x100;
    assert c == b * 0x100 + c % 0x100;
    assert b == a * 0x100 + b % 0x100;
    var q := a / 0x100;
    assert x == q * 4294967296 + (a % 0x100) * 16777216 + (b % 0x100) * 65536 + (c % 0x100) * 256 + x % 0x100;
    WholeTimes(q);
  }

  lemma WholeTimes(q: int)
    ensures q * 4294967296 % 4294967296 == 0
  {
  }

  lemma Byte(q: int, r: int)
    requires 0 <= r < 0x100
    ensures (q * 0x100 + r) / 0x100 == q && (q * 0x100 + r) % 0x100 == r
  {
  }

  lemma Bytes4Inverts(b: seq<byte>)
    requires |b| == 4
    ensures Bytes4(Int4(b)) == b
  {
    var b0, b1, b2, b3 := b[0] as int, b[1] as int, b[2] as int, b[3] as int;
    var u := b0 * 0x100_0000 + b1 * 0x1_0000 + b2 * 0x100 + b3;
    var x := Int4(b);
    var q := if u < 0x8000_0000 then b0 else b0 - 0x100;
    assert x == q * 0x100_0000 + b1 * 0x1_0000 + b2 * 0x100 + b3;
    Byte(q * 0x1_0000 + b1 * 0x100 + b2, b3);
    Byte(q * 0x100 + b1, b2);
    Byte(q, b1);
    assert x / 0x1_0000 == x / 0x100 / 0x100 && x / 0x100_0000 == x / 0x1_0000 / 0x100;
  }

  // ----- the bytes of a message

  function Pairs(obs: seq<(byte, byte)>): (b: seq<byte>)
    ensures |b| == 2 * |obs|
  {
    if obs == [] then [] else Pairs(obs[..|obs| - 1]) + [obs[|obs| - 1].0, obs[|obs| - 1].1]
  }

  function Unpaired(b: seq<byte>): (obs: seq<(byte, byte)>)
    requires |b| % 2 == 0
    ensures |obs| == |b| / 2
  {
    seq(|b| / 2, i requires 0 <= i < |b| / 2 => (b[2 * i], b[2 * i + 1]))
  }

  /** The sender stops after the pair that takes it past the pipe buffer. */
  function Carried(count: nat): nat {
    if HEADER + 2 * count <= MAX_TYPED_PIPE_BUFF then count else MAX_OBSTACLES + 1
  }

  function Encode(m: MapUpdate): (b: seq<byte>)
    requires |m.obs| < 0x8000_0000
  {
    Bytes4(m.poseX) + Bytes4(m.poseY) + Bytes4(|m.obs|) + Pairs(m.obs[..Carried(|m.obs|)])
  }

  /** What comes of reading a message: not even a header, a header without all
      its obstacles, or a whole message. `readRet` is what the last read gave. */
  datatype Received =
    | NoHeader(readRet: nat)
    | NoObstacles(readRet: nat, poseX: int, poseY: int)
    | Whole(readRet: nat, msg: MapUpdate, rest: seq<byte>)

  function Decode(stream: seq<byte>): Received {
    if |stream| < HEADER then NoHeader(|stream|)
    else
      var x, y, count := Int4(stream[0..4]), Int4(stream[4..8]), Int4(stream[8..12]);
      if count <= 0 then Whole(HEADER, MapUpdate(x, y, []), stream[HEADER..])
      else if |stream| - HEADER < 2 * count then NoObstacles(|stream| - HEADER, x, y)
      else Whole(2 * count, MapUpdate(x, y, Unpaired(stream[HEADER..HEADER + 2 * count])), stream[HEADER + 2 * count..])
  }

  lemma {:induction false} PairsAt(obs: seq<(byte, byte)>, i: nat)
    requires i < |obs|
    ensures Pairs(obs)[2 * i] == obs[i].0 && Pairs(obs)[2 * i + 1] == obs[i].1
  {
    if i < |obs| - 1 {
      PairsAt(obs[..|obs| - 1], i);
    }
  }

  /** Where everything is in a message, and how much of it is sent. */
  lemma Layout(m: MapUpdate)
    requires |m.obs| < 0x8000_0000
    ensures var b := Encode(m);
      && |b| == (if |m.obs| <= 2042 then 12 + 2 * |m.obs| else 4098)
      && b[0..4] == Bytes4(m.poseX) && b[4..8] == Bytes4(m.poseY) && b[8..12] == Bytes4(|m.obs|)
      && forall i :: 0 <= i < |m.obs| && i <= 2042 ==> b[12 + 2 * i] == m.obs[i].0 && b[12 + 2 * i + 1] == m.obs[i].1
  {
    hide Bytes4, Pairs;
    var sent := m.obs[..Carried(|m.obs|)];
    forall i | 0 <= i < |sent|
      ensures Encode(m)[12 + 2 * i] == sent[i].0 && Encode(m)[12 + 2 * i + 1] == sent[i].1
    {
      PairsAt(sent, i);
    }
  }

  lemma UnpairedInverts(obs: seq<(byte, byte)>)
    ensures Unpaired(Pairs(obs)) == obs
  {
    forall i | 0 <= i < |obs| ensures Unpaired(Pairs(obs))[i] == obs[i] {
      PairsAt(obs, i);
    }
  }

  /** An update of up to 2042 obstacles comes back as it was sent, with whatever
      follows it in the pipe left there, in at most 4096 bytes. */
  lemma RoundTrip(m: MapUpdate, rest: seq<byte>)
    requires IsInt32(m.poseX) && IsInt32(m.poseY) && |m.obs| <= MAX_OBSTACLES
    ensures Decode(Encode(m) + rest) == Whole(if m.obs == [] then HEADER else 2 * |m.obs|, m, rest)
    ensures |Encode(m)| == HEADER + 2 * |m.obs| <= MAX_TYPED_PIPE_BUFF
  {
    hide Int4, Bytes4, Unpaired, Pairs;
    var count := |m.obs|;
    assert m.obs[..count] == m.obs;
    var stream := Encode(m) + rest;
    assert stream[0..4] == Bytes4(m.poseX);
    assert stream[4..8] == Bytes4(m.poseY);
    assert stream[8..12] == Bytes4(count);
    assert stream[HEADER..HEADER + 2 * count] == Pairs(m.obs);
    assert stream[HEADER + 2 * count..] == rest;
    Int4Inverts(m.poseX);
    Int4Inverts(m.poseY);
    Int4Inverts(count);
    UnpairedInverts(m.obs);
  }

  /** A message fits the pipe buffer exactly up to 2042 obstacles. */
  lemma FitsExactly(m: MapUpdate)
    requires |m.obs| < 0x8000_0000
    ensures |Encode(m)| <= 4096 <==> |m.obs| <= 2042
  {
  }

  function EncodeAll(ms: seq<MapUpdate>): seq<byte>
    requires forall m :: m in ms ==> |m.obs| < 0x8000_0000
  {
    if ms == [] then [] else Encode(ms[0]) + EncodeAll(ms[1..])
  }

  /** The messages at the front of a stream, n of them at most. */
  function DecodeAll(stream: seq<byte>, n: nat): seq<MapUpdate> {
    if n == 0 then []
    else match Decode(stream)
      case Whole(_, msg, rest) => [msg] + DecodeAll(rest, n - 1)
      case _ => []
  }

  /** Messages that follow each other in a pipe are told apart. */
  lemma {:induction false} StreamRoundTrip(ms: seq<MapUpdate>)
    requires forall m :: m in ms ==> IsInt32(m.poseX) && IsInt32(m.poseY) && |m.obs| <= MAX_OBSTACLES
    ensures DecodeAll(EncodeAll(ms), |ms|) == ms
  {
    if ms != [] {
      RoundTrip(ms[0], EncodeAll(ms[1..]));
      StreamRoundTrip(ms[1..]);
    }
  }

  // ----- the two loops

  function Zipped(xs: seq<byte>, ys: seq<byte>, n: nat): (obs: seq<(byte, byte)>)
    requires n <= |xs| && n <= |ys|
    ensures |obs| == n && forall i :: 0 <= i < n ==> obs[i].0 == xs[i] && obs[i].1 == ys[i]
  {
    seq(n, i requires 0 <= i < n => (xs[i], ys[i]))
  }

  method PutInt(buffer: array<byte>, at: nat, x: int)
    requires at + 4 <= buffer.Length
    modifies buffer
    ensures buffer[..] == old(buffer[..at]) + Bytes4(x) + old(buffer[at + 4..])
  {
    buffer[at] := ByteOf(x, 0x100_0000);
    buffer[at + 1] := ByteOf(x, 0x1_0000);
    buffer[at + 2] := ByteOf(x, 0x100);
    buffer[at + 3] := ByteOf(x, 1);
  }

  function Header(poseX: int, poseY: int, count: int): (b: seq<byte>)
    ensures |b| == HEADER
  {
    Bytes4(poseX) + Bytes4(poseY) + Bytes4(count)
  }

  method PutHeader(buffer: array<byte>, poseX: int, poseY: int, obsCount: int)
    requires buffer.Length >= HEADER
    modifies buffer
    ensures buffer[..HEADER] == Header(poseX, poseY, obsCount)
  {
    hide Bytes4;
    PutInt(buffer, 0, poseX);
    PutInt(buffer, 4, poseY);
    PutInt(buffer, 8, obsCount);
  }

  lemma PairsMore(obs: seq<(byte, byte)>, i: nat)
    requires i < |obs|
    ensures Pairs(obs[..i + 1]) == Pairs(obs[..i]) + [obs[i].0, obs[i].1]
  {
    assert obs[..i + 1][..i] == obs[..i];
  }

  /** Returns the bytes written to the pipe. */
  method CommSendMapUpdate(poseX: int, poseY: int, obsX: seq<byte>, obsY: seq<byte>, obsCount: nat)
    returns (written: seq<byte>)
    requires obsCount <= |obsX| && obsCount <= |obsY| && obsCount < 0x8000_0000
    ensures written == Encode(MapUpdate(poseX, poseY, Zipped(obsX, obsY, obsCount)))
  {
    hide Pairs, Bytes4;
    ghost var obs := Zipped(obsX, obsY, obsCount);
    ghost var header := Header(poseX, poseY, obsCount);
    var buffer := new byte[HEADER + 2 * obsCount](i => 0);
    PutHeader(buffer, poseX, poseY, obsCount);
    var buffCount, index := HEADER, 0;
    NoPairs();
    assert obs[..0] == [];
    while index < obsCount
      invariant index <= obsCount && buffCount == HEADER + 2 * index
      invariant buffer[..buffCount] == header + Pairs(obs[..index])
      invariant HEADER + 2 * index <= MAX_TYPED_PIPE_BUFF
    {
      PairsMore(obs, index);
      buffer[buffCount] := obsX[index];
      buffer[buffCount + 1] := obsY[index];
      buffCount := buffCount + 2;
      assert buffer[..buffCount] == header + Pairs(obs[..index]) + [obs[index].0, obs[index].1];
      index := index + 1;
      if buffCount > MAX_TYPED_PIPE_BUFF {
        break;
      }
    }
    written := buffer[..buffCount];
    assert index == Carried(obsCount);
  }

  lemma NoPairs()
    ensures Pairs([]) == []
  {
  }

  /** The obstacle count that a stream announces, if its header is there. */
  function Announced(stream: seq<byte>): int {
    if |stream| < HEADER then 0 else Int4(stream[8..12])
  }

  /** Reads one message. The caller's arrays hold 2042 obstacles, which the code
      does not check. */
  method CommRecvMapUpdate(stream: seq<byte>, obsX: array<byte>, obsY: array<byte>)
    returns (readRet: nat, poseX: int, poseY: int, obsCount: int, rest: seq<byte>)
    requires obsX != obsY && obsX.Length == obsY.Length == MAX_OBSTACLES && Announced(stream) <= MAX_OBSTACLES
    modifies obsX, obsY
    ensures readRet == Decode(stream).readRet
    ensures |stream| < 12 ==> readRet == |stream|
    ensures |stream| >= 12 ==> Bytes4(poseX) == stream[0..4] && Bytes4(poseY) == stream[4..8]
    ensures |stream| >= 12 && 0 < 2 * obsCount <= |stream| - 12 && obsCount <= 2042 ==>
      forall i :: 0 <= i < obsCount ==> obsX[i] == stream[12 + 2 * i] && obsY[i] == stream[12 + 2 * i + 1]
    ensures |stream| >= 12 ==>
      readRet == if obsCount <= 0 then 12 else if |stream| - 12 < 2 * obsCount then |stream| - 12 else 2 * obsCount
    ensures Decode(stream).NoHeader? ==> obsX[..] == old(obsX[..]) && obsY[..] == old(obsY[..])
    ensures Decode(stream).NoObstacles? ==>
      && poseX == Decode(stream).poseX && poseY == Decode(stream).poseY && obsCount == Announced(stream)
      && obsX[..] == old(obsX[..]) && obsY[..] == old(obsY[..])
    ensures Decode(stream).Whole? ==>
      var m := Decode(stream).msg;
      && poseX == m.poseX && poseY == m.poseY && obsCount == Announced(stream) && rest == Decode(stream).rest
      && m.obs == Zipped(obsX[..], obsY[..], |m.obs|)
  {
    poseX, poseY, obsCount := 0, 0, 0;
    if |stream| < HEADER {
      return |stream|, 0, 0, 0, [];
    }
    readRet, rest := HEADER, stream[HEADER..];
    poseX, poseY, obsCount := Int4(stream[0..4]), Int4(stream[4..8]), Int4(stream[8..12]);
    Bytes4Inverts(stream[0..4]);
    Bytes4Inverts(stream[4..8]);
    if obsCount > 0 {
      readRet := if |rest| < 2 * obsCount then |rest| else 2 * obsCount;
      var read := rest[..readRet];
      rest := rest[readRet..];
      if readRet == 2 * obsCount {
        for index := 0 to obsCount
          invariant forall i :: 0 <= i < index ==> obsX[i] == read[2 * i] && obsY[i] == read[2 * i + 1]
        {
          obsX[index] := read[index * 2];
          obsY[index] := read[index * 2 + 1];
        }
        assert read == stream[HEADER..HEADER + 2 * obsCount];
      }
    }
  }
}
