/** The circular buffer that holds a replica's output until it is voted on,
    proved to be a queue of bytes that never holds more than 4095. */
module VoteBuff {

  const MAX_VOTE_PIPE_BUFF := 4096

  newtype byte = b: int | 0 <= b < 256

  // ----- what a ring of bytes holds

  /** The n bytes of the ring `b` from `index` on, round the end. */
  function Ring(b: seq<byte>, index: nat, n: nat): (r: seq<byte>)
    requires index < |b| && n <= |b|
    ensures |r| == n
  {
    if index + n <= |b| then b[index..index + n] else b[index..] + b[..index + n - |b|]
  }

  /** The place after n more bytes. */
  function Next(index: nat, n: nat): (i: nat)
    requires index < MAX_VOTE_PIPE_BUFF && n <= MAX_VOTE_PIPE_BUFF
    ensures i < MAX_VOTE_PIPE_BUFF
    ensures i == if index + n < MAX_VOTE_PIPE_BUFF then index + n else index + n - MAX_VOTE_PIPE_BUFF
  {
    (index + n) % MAX_VOTE_PIPE_BUFF
  }

  lemma RingAt(b: seq<byte>, index: nat, n: nat, k: nat)
    requires |b| == MAX_VOTE_PIPE_BUFF && index < |b| && n <= |b| && k < n
    ensures Ring(b, index, n)[k] == b[Next(index, k)]
  {
  }

  lemma RingDrop(b: seq<byte>, index: nat, n: nat, k: nat)
    requires |b| == MAX_VOTE_PIPE_BUFF && index < |b| && k <= n < |b|
    ensures Ring(b, Next(index, k), n - k) == Ring(b, index, n)[k..]
    ensures Ring(b, index, k) == Ring(b, index, n)[..k]
  {
  }

  /** The ring `b` with `data` laid down from `at` on, round the end. */
  function Laid(b: seq<byte>, at: nat, data: seq<byte>): (r: seq<byte>)
    requires at < |b| && |data| <= |b|
    ensures |r| == |b|
  {
    var part := |b| - at;
    if |data| <= part then b[..at] + data + b[at + |data|..]
    else data[part..] + b[|data| - part..at] + data[..part]
  }

  lemma LaidInside(b: seq<byte>, at: nat, data: seq<byte>, k: nat)
    requires |b| == MAX_VOTE_PIPE_BUFF && at < |b| && |data| <= |b| && k < |data|
    ensures Laid(b, at, data)[Next(at, k)] == data[k]
  {
  }

  lemma LaidOutside(b: seq<byte>, index: nat, n: nat, data: seq<byte>, k: nat)
    requires |b| == MAX_VOTE_PIPE_BUFF && index < |b| && k < n && n + |data| <= |b|
    ensures Laid(b, Next(index, n), data)[Next(index, k)] == b[Next(index, k)]
  {
  }

  lemma TwoPieces(b: seq<byte>, at: nat, data: seq<byte>, b1: seq<byte>, b2: seq<byte>)
    requires |b| == |b1| && at < |b| && |b| - at <= |data| <= |b|
    requires b1 == b[..at] + data[..|b| - at]
    requires b2 == data[|b| - at..] + b1[|data| - (|b| - at)..]
    ensures b2 == Laid(b, at, data)
  {
    var part := |b| - at;
    assert b1[|data| - part..] == b[|data| - part..at] + data[..part];
  }

  /** Laying bytes down behind those held adds them at the end of the queue. */
  lemma RingAppend(b: seq<byte>, index: nat, n: nat, data: seq<byte>)
    requires |b| == MAX_VOTE_PIPE_BUFF && index < |b| && n + |data| <= |b|
    ensures Ring(Laid(b, Next(index, n), data), index, n + |data|) == Ring(b, index, n) + data
  {
    var b' := Laid(b, Next(index, n), data);
    hide Ring, Laid;
    forall k | 0 <= k < n + |data|
      ensures Ring(b', index, n + |data|)[k] == (Ring(b, index, n) + data)[k]
    {
      RingAt(b', index, n + |data|, k);
      if k < n {
        RingAt(b, index, n, k);
        LaidOutside(b, index, n, data, k);
      } else {
        LaidInside(b, Next(index, n), data, k - n);
      }
    }
  }

  lemma CopiedWhole(b: seq<byte>, src: seq<byte>, b': seq<byte>, index: nat, n: nat)
    requires |b| == |src| && index + n <= |b| && index < |b|
    requires b' == b[..index] + src[index..index + n] + b[index + n..]
    ensures Ring(b', index, n) == Ring(src, index, n)
  {
  }

  lemma CopiedRound(b: seq<byte>, src: seq<byte>, b1: seq<byte>, b2: seq<byte>, index: nat, n: nat)
    requires |b| == |src| && index < |b| <= index + n && n < |b|
    requires b1 == b[..index] + src[index..]
    requires var rest := index + n - |b|; b2 == src[..rest] + b1[rest..]
    ensures Ring(b2, index, n) == Ring(src, index, n)
  {
    assert b2[index..] == src[index..];
  }

  // ----- comparing bytes

  /** `memcmp`: the sign of the first difference. */
  function Memcmp(a: seq<byte>, b: seq<byte>): (r: int)
    requires |a| == |b|
    ensures r == 0 <==> a == b
  {
    if a == [] then 0
    else if a[0] != b[0] then if a[0] < b[0] then -1 else 1
    else
      assert a == [a[0]] + a[1..] && b == [b[0]] + b[1..];
      Memcmp(a[1..], b[1..])
  }

  /** The sign is that of the first difference. */
  lemma {:induction false} FirstDifference(a: seq<byte>, b: seq<byte>) returns (k: nat)
    requires |a| == |b| && a != b
    ensures k < |a| && a[..k] == b[..k] && a[k] != b[k]
    ensures Memcmp(a, b) == if a[k] < b[k] then -1 else 1
  {
    if a[0] != b[0] {
      k := 0;
    } else {
      assert a == [a[0]] + a[1..] && b == [b[0]] + b[1..];
      var rest := FirstDifference(a[1..], b[1..]);
      k := rest + 1;
      assert a[..k] == [a[0]] + a[1..][..rest] && b[..k] == [b[0]] + b[1..][..rest];
    }
  }

  /** Comparing in two pieces is comparing the whole. */
  lemma {:induction false} MemcmpSplits(a: seq<byte>, b: seq<byte>, k: nat)
    requires |a| == |b| && k <= |a|
    ensures Memcmp(a, b) == if Memcmp(a[..k], b[..k]) != 0 then Memcmp(a[..k], b[..k]) else Memcmp(a[k..], b[k..])
  {
    if k > 0 {
      MemcmpSplits(a[1..], b[1..], k - 1);
      assert a[..k][1..] == a[1..][..k - 1] && b[..k][1..] == b[1..][..k - 1];
      assert a[1..][k - 1..] == a[k..] && b[1..][k - 1..] == b[k..];
    } else {
      assert a[0..] == a && b[0..] == b;
    }
  }

  method Memcpy(dest: array<byte>, at: nat, src: seq<byte>)
    requires at + |src| <= dest.Length
    modifies dest
    ensures dest[..] == old(dest[..at]) + src + old(dest[at + |src|..])
  {
    for i := 0 to |src|
      invariant forall k :: 0 <= k < dest.Length ==>
        dest[k] == if at <= k < at + i then src[k - at] else old(dest[k])
    {
      dest[at + i] := src[i];
    }
  }

  class VotePipe {
    const buffer: array<byte>
    var buffCount: nat
    var buffIndex: nat

    ghost predicate Valid()
      reads this
    {
      && buffer.Length == MAX_VOTE_PIPE_BUFF
      && buffIndex < MAX_VOTE_PIPE_BUFF
      && buffCount < MAX_VOTE_PIPE_BUFF
    }

    /** The queue of bytes held. */
    ghost function Contents(): (s: seq<byte>)
      requires Valid()
      reads this, buffer
      ensures |s| == buffCount
    {
      Ring(buffer[..], buffIndex, buffCount)
    }

    constructor ()
      ensures Valid() && fresh(buffer) && buffIndex == 0 && Contents() == []
    {
      buffer := new byte[MAX_VOTE_PIPE_BUFF](i => 0);
      buffCount, buffIndex := 0, 0;
    }

    method ResetVotePipe()
      requires Valid()
      modifies this
      ensures Valid() && buffIndex == 0 && Contents() == []
    {
      buffCount := 0;
      buffIndex := 0;
    }

    /** The copy of `pipeToBuff`, in two pieces when it runs past the end. */
    method CopyIn(endIndex: nat, data: seq<byte>)
      requires Valid() && endIndex < MAX_VOTE_PIPE_BUFF && 0 < |data| < MAX_VOTE_PIPE_BUFF
      modifies buffer
      ensures buffer[..] == Laid(old(buffer[..]), endIndex, data)
    {
      var readCount := |data|;
      ghost var before := buffer[..];
      if endIndex > Next(endIndex, readCount) {
        var partRead := readCount - Next(endIndex, readCount);
        Memcpy(buffer, endIndex, data[..partRead]);
        ghost var between := buffer[..];
        Memcpy(buffer, 0, data[partRead..]);
        TwoPieces(before, endIndex, data, between, buffer[..]);
      } else {
        Memcpy(buffer, endIndex, data);
      }
    }

    /** Takes in what a read returned. When nothing was read, or the bytes do
        not fit, the queue stays as it was and the bytes are lost. */
    method PipeToBuff(data: seq<byte>) returns (retval: int)
      requires Valid() && |data| <= MAX_VOTE_PIPE_BUFF
      modifies this`buffCount, buffer
      ensures Valid()
      ensures retval == 0 <==> data != [] && |old(Contents())| + |data| < MAX_VOTE_PIPE_BUFF
      ensures retval == 0 ==> Contents() == old(Contents()) + data
      ensures retval != 0 ==> retval == -1 && Contents() == old(Contents())
    {
      var readCount := |data|;
      if readCount > 0 {
        if readCount < MAX_VOTE_PIPE_BUFF - buffCount {
          RingAppend(buffer[..], buffIndex, buffCount, data);
          CopyIn(Next(buffIndex, buffCount), data);
          buffCount := buffCount + readCount;
        } else {
          return -1;
        }
      } else {
        return -1;
      }
      retval := 0;
    }

    /** Drops the first n bytes. */
    method FakeToPipe(n: nat)
      requires Valid() && n <= buffCount
      modifies this`buffIndex, this`buffCount
      ensures Valid() && buffIndex == Next(old(buffIndex), n)
      ensures Contents() == old(Contents())[n..]
    {
      RingDrop(buffer[..], buffIndex, buffCount, n);
      buffIndex := (buffIndex + n) % MAX_VOTE_PIPE_BUFF;
      buffCount := buffCount - n;
    }

    /** Writes out and drops the first n bytes; asked for more than it holds, it
        does neither. */
    method BuffToPipe(n: nat) returns (retval: int, written: seq<byte>)
      requires Valid()
      modifies this`buffIndex, this`buffCount
      ensures Valid() && (retval == 0 <==> n <= |old(Contents())|)
      ensures retval == 0 ==> written == old(Contents())[..n] && Contents() == old(Contents())[n..]
      ensures retval == 0 ==> buffIndex == Next(old(buffIndex), n)
      ensures retval != 0 ==> retval == -1 && written == []
      ensures retval != 0 ==> Contents() == old(Contents()) && buffIndex == old(buffIndex)
    {
      if n > buffCount {
        return -1, [];
      }
      RingDrop(buffer[..], buffIndex, buffCount, n);
      if buffIndex + n < MAX_VOTE_PIPE_BUFF {
        written := buffer[buffIndex..buffIndex + n];
      } else {
        var partWrite := MAX_VOTE_PIPE_BUFF - buffIndex;
        written := buffer[buffIndex..buffIndex + partWrite] + buffer[..n - partWrite];
      }
      FakeToPipe(n);
      retval := 0;
    }

    /** Makes this pipe hold what `src` holds, at the same place. */
    method CopyPipe(src: VotePipe)
      requires src != this && src.buffer != buffer && src.Valid() && buffer.Length == MAX_VOTE_PIPE_BUFF
      modifies this`buffCount, this`buffIndex, buffer
      ensures Valid() && buffIndex == src.buffIndex && Contents() == src.Contents()
    {
      hide Ring;
      buffCount := src.buffCount;
      buffIndex := src.buffIndex;
      ghost var was := buffer[..];
      if src.buffIndex + src.buffCount < MAX_VOTE_PIPE_BUFF {
        Memcpy(buffer, buffIndex, src.buffer[src.buffIndex..src.buffIndex + src.buffCount]);
        CopiedWhole(was, src.buffer[..], buffer[..], buffIndex, buffCount);
      } else {
        var partCpy := MAX_VOTE_PIPE_BUFF - src.buffIndex;
        Memcpy(buffer, buffIndex, src.buffer[src.buffIndex..src.buffIndex + partCpy]);
        ghost var first := buffer[..];
        Memcpy(buffer, 0, src.buffer[..src.buffCount - partCpy]);
        CopiedRound(was, src.buffer[..], first, buffer[..], buffIndex, buffCount);
      }
    }
  }

  /** Compares the first n bytes of two pipes; pipes that are not at the same
      place in their rings never match. */
  method CompareBuffs(pipeA: VotePipe, pipeB: VotePipe, n: nat) returns (r: int)
    requires pipeA.Valid() && pipeB.Valid() && n <= pipeA.buffCount && n <= pipeB.buffCount
    ensures r == 0 <==> pipeA.buffIndex == pipeB.buffIndex && pipeA.Contents()[..n] == pipeB.Contents()[..n]
    ensures r == if pipeA.buffIndex != pipeB.buffIndex then -1 else Memcmp(pipeA.Contents()[..n], pipeB.Contents()[..n])
  {
    if pipeA.buffIndex != pipeB.buffIndex {
      return -1;
    }
    var i := pipeA.buffIndex;
    ghost var a, b := pipeA.Contents()[..n], pipeB.Contents()[..n];
    RingDrop(pipeA.buffer[..], i, pipeA.buffCount, n);
    RingDrop(pipeB.buffer[..], i, pipeB.buffCount, n);
    hide Ring, Memcmp;
    if i + n < MAX_VOTE_PIPE_BUFF {
      assert pipeA.buffer[i..i + n] == a && pipeB.buffer[i..i + n] == b;
      r := Memcmp(pipeA.buffer[i..i + n], pipeB.buffer[i..i + n]);
    } else {
      var partCmp := MAX_VOTE_PIPE_BUFF - i;
      MemcmpSplits(a, b, partCmp);
      assert a[..partCmp] == pipeA.buffer[i..i + partCmp];
      assert b[..partCmp] == pipeB.buffer[i..i + partCmp];
      assert a[partCmp..] == pipeA.buffer[..n - partCmp];
      assert b[partCmp..] == pipeB.buffer[..n - partCmp];
      r := Memcmp(pipeA.buffer[i..i + partCmp], pipeB.buffer[i..i + partCmp]);
      if r != 0 {
        return;
      }
      r := Memcmp(pipeA.buffer[..n - partCmp], pipeB.buffer[..n - partCmp]);
    }
  }
}
