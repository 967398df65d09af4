/**
The copy loop of the block device: a request names a start and a list of memory segments, and
each segment is copied in turn to or from the device's storage, clamped to the device size.
*/
module BlockRequest {
  import opened Kernel

  function Flatten(segs: seq<seq<byte>>): seq<byte> {
    if segs == [] then [] else Flatten(segs[..|segs| - 1]) + segs[|segs| - 1]
  }

  // The clamp, in the 64-bit unsigned arithmetic of the source

  const TWO_64: nat := 0x1_0000_0000_0000_0000

  /** The length copied for a segment of `len` bytes at `pos`. The test for a negative length never fires. */
  function Clamp(pos: nat, len: nat, size: nat): nat {
    if pos + len > size then (size - pos) % TWO_64 else len
  }

  /** The copy stays inside the device exactly if the position has not passed its end. */
  lemma ClampIsSafeIff(pos: nat, len: nat, size: nat)
    requires pos + len < TWO_64 && size < TWO_64 / 2 && pos < TWO_64 / 2
    ensures pos + Clamp(pos, len, size) <= size <==> pos <= size
    ensures pos <= size ==> Clamp(pos, len, size) == Min(len, size - pos)
  {
    if pos > size {
      assert (size - pos) % TWO_64 == size - pos + TWO_64;
    }
  }

  lemma FlattenSnoc(segs: seq<seq<byte>>, s: seq<byte>)
    ensures Flatten(segs + [s]) == Flatten(segs) + s
  {
    assert (segs + [s])[..|segs|] == segs;
  }

  /** Storing more bytes right behind the stored ones. */
  lemma OverlayMore(b: seq<byte>, at: nat, x: seq<byte>, y: seq<byte>)
    requires at + |x| + |y| <= |b|
    ensures Overlay(Overlay(b, at, x), at + |x|, y) == Overlay(b, at, x + y)
  {
  }

  /** The contents of the request's segments. */
  ghost function Snapshot(segs: seq<array<byte>>): (v: seq<seq<byte>>)
    reads segs
    ensures |v| == |segs| && forall i :: 0 <= i < |segs| ==> v[i] == segs[i][..]
  {
    seq(|segs|, i requires 0 <= i < |segs| reads segs => segs[i][..])
  }

  /** One segment more of a write, cut off where the device ends. */
  lemma SegmentStored(was: seq<byte>, start: nat, flat: seq<byte>, nr: nat, seg: seq<byte>, len: nat)
    requires start + nr <= |was| && nr == Min(|flat|, |was| - start) && len == Min(|seg|, |was| - start - nr)
    ensures nr + len == Min(|flat + seg|, |was| - start)
    ensures Overlay(Overlay(was, start, flat[..nr]), start + nr, seg[..len]) == Overlay(was, start, (flat + seg)[..nr + len])
  {
    assert (flat + seg)[..nr + len] == flat[..nr] + seg[..len];
    OverlayMore(was, start, flat[..nr], seg[..len]);
  }

  /** As much of `flat` as fits has been stored from `start` on, up to `pos`. */
  ghost predicate StoredUpTo(was: seq<byte>, now: seq<byte>, flat: seq<byte>, start: nat, pos: nat) {
    && start <= pos <= |was| && pos - start == Min(|flat|, |was| - start)
    && now == Overlay(was, start, flat[..pos - start])
  }

  /** One segment more of a read: filled in part only if the device has come to its end. */
  lemma SegmentFilled(filled: seq<byte>, seg: seq<byte>, bytes: seq<byte>, start: nat, pos: nat, len: nat)
    requires start <= pos && pos + len <= |bytes| && len <= |seg|
    requires pos - start == Min(|filled|, |bytes| - start)
    requires len == Min(|seg|, |bytes| - pos)
    ensures pos + len - start == Min(|filled + seg|, |bytes| - start)
    ensures Overlay(filled, 0, bytes[start..pos]) + Overlay(seg, 0, bytes[pos..pos + len])
         == Overlay(filled + seg, 0, bytes[start..pos + len])
  {
    var x, y := bytes[start..pos], bytes[pos..pos + len];
    assert bytes[start..pos + len] == x + y;
    if |x| == |filled| {
      PrefixesJoin(filled, x, seg, y);
    } else {
      assert y == [] && x + y == x;
      OnlyFirstFilled(filled, x, seg);
    }
  }

  lemma PrefixesJoin(a: seq<byte>, x: seq<byte>, b: seq<byte>, y: seq<byte>)
    requires |x| == |a| && |y| <= |b|
    ensures Overlay(a, 0, x) + Overlay(b, 0, y) == Overlay(a + b, 0, x + y)
  {
    assert Overlay(a, 0, x) == x;
    assert (a + b)[|x + y|..] == b[|y|..];
  }

  lemma OnlyFirstFilled(a: seq<byte>, x: seq<byte>, b: seq<byte>)
    requires |x| <= |a|
    ensures Overlay(a, 0, x) + Overlay(b, 0, []) == Overlay(a + b, 0, x)
  {
    assert Overlay(b, 0, []) == b;
    assert (a + b)[|x|..] == a[|x|..] + b;
  }

  /** The first `i` segments of `was` have been filled with the bytes [start, pos); the others are untouched. */
  ghost predicate FilledUpTo(was: seq<seq<byte>>, now: seq<seq<byte>>, i: nat, bytes: seq<byte>, start: nat, pos: nat) {
    && i <= |was| == |now| && now[i..] == was[i..]
    && start <= pos <= |bytes| && pos - start == Min(|Flatten(was[..i])|, |bytes| - start)
    && Flatten(now[..i]) == Overlay(Flatten(was[..i]), 0, bytes[start..pos])
  }

  /** The same for the list of segments: segment `i` has been filled. */
  lemma SegmentRead(was: seq<seq<byte>>, before: seq<seq<byte>>, after: seq<seq<byte>>, i: nat,
                    bytes: seq<byte>, start: nat, pos: nat, len: nat)
    requires FilledUpTo(was, before, i, bytes, start, pos) && i < |was| && before[i] == was[i]
    requires len == Min(|was[i]|, |bytes| - pos)
    requires after == before[i := Overlay(was[i], 0, bytes[pos..pos + len])]
    ensures FilledUpTo(was, after, i + 1, bytes, start, pos + len)
  {
    assert after[i + 1..] == before[i..][1..] && was[i + 1..] == was[i..][1..];
    assert was[..i + 1] == was[..i] + [was[i]];
    assert after[..i + 1] == before[..i] + [after[i]];
    FlattenSnoc(was[..i], was[i]);
    FlattenSnoc(before[..i], after[i]);
    SegmentFilled(Flatten(was[..i]), was[i], bytes, start, pos, len);
  }

  lemma AllFilled(was: seq<seq<byte>>, now: seq<seq<byte>>, bytes: seq<byte>, start: nat, pos: nat)
    requires FilledUpTo(was, now, |was|, bytes, start, pos)
    ensures pos - start == Min(|Flatten(was)|, |bytes| - start)
    ensures Flatten(now) == Overlay(Flatten(was), 0, bytes[start..pos])
  {
    assert was[..|was|] == was && now[..|was|] == now;
  }

  class BlockDev {
    const data: array<byte>

    constructor (data: array<byte>)
      ensures this.data == data
    {
      this.data := data;
    }

    /** One round of the write loop: the clamp and the copy. */
    method WriteSegment(pos: nat, seg: seq<byte>) returns (len: nat)
      requires pos <= data.Length
      modifies data
      ensures len == Min(|seg|, data.Length - pos)
      ensures data[..] == Overlay(old(data[..]), pos, seg[..len])
    {
      len := |seg|;
      if pos + len > data.Length {
        len := data.Length - pos;
      }
      assert data.Length < TWO_64 ==> len == Clamp(pos, |seg|, data.Length);
      CopyInto(data, pos, seg[..len]);
    }

    /** One round of the write loop, as a step of storing the concatenation. */
    method WriteNext(pos: nat, seg: seq<byte>, ghost was: seq<byte>, ghost flat: seq<byte>, ghost start: nat)
      returns (pos': nat)
      requires StoredUpTo(was, data[..], flat, start, pos)
      modifies data
      ensures StoredUpTo(was, data[..], flat + seg, start, pos')
    {
      var len := WriteSegment(pos, seg);
      SegmentStored(was, start, flat, pos - start, seg, len);
      pos' := pos + len;
    }

    /**
    A write request: the device takes as much of the concatenated segments as fits, and
    reports exactly that many bytes. How the bytes are cut into segments does not matter.
    */
    method WriteRequest(start: nat, segs: seq<seq<byte>>) returns (nr: nat)
      requires start <= data.Length
      modifies data
      ensures nr == Min(|Flatten(segs)|, data.Length - start)
      ensures data[..] == Overlay(old(data[..]), start, Flatten(segs)[..nr])
    {
      var pos: nat := start;
      ghost var was := data[..];
      for i := 0 to |segs|
        invariant StoredUpTo(was, data[..], Flatten(segs[..i]), start, pos)
      {
        assert segs[..i + 1] == segs[..i] + [segs[i]];
        FlattenSnoc(segs[..i], segs[i]);
        pos := WriteNext(pos, segs[i], was, Flatten(segs[..i]), start);
      }
      assert segs[..|segs|] == segs;
      nr := pos - start;
    }

    /** One round of the read loop, for segment `i`; the other segments stay as they are. */
    method ReadSegment(pos: nat, segs: seq<array<byte>>, i: nat) returns (len: nat)
      requires pos <= data.Length && i < |segs| && data !in segs
      requires forall i, j :: 0 <= i < j < |segs| ==> segs[i] != segs[j]
      modifies segs[i]
      ensures len == Min(segs[i].Length, data.Length - pos)
      ensures Snapshot(segs) == old(Snapshot(segs))[i := Overlay(old(segs[i][..]), 0, data[pos..pos + len])]
    {
      len := segs[i].Length;
      if pos + len > data.Length {
        len := data.Length - pos;
      }
      assert data.Length < TWO_64 ==> len == Clamp(pos, segs[i].Length, data.Length);
      CopyInto(segs[i], 0, data[pos..pos + len]);
    }

    /** One round of the read loop, as a step of filling the segments. */
    method ReadNext(pos: nat, segs: seq<array<byte>>, i: nat,
                    ghost was: seq<seq<byte>>, ghost bytes: seq<byte>, ghost start: nat) returns (pos': nat)
      requires i < |segs| && data !in segs && forall i, j :: 0 <= i < j < |segs| ==> segs[i] != segs[j]
      requires data[..] == bytes && FilledUpTo(was, Snapshot(segs), i, bytes, start, pos)
      modifies segs[i]
      ensures data[..] == bytes && FilledUpTo(was, Snapshot(segs), i + 1, bytes, start, pos')
    {
      ghost var before := Snapshot(segs);
      assert before[i] == before[i..][0] == was[i..][0];
      var len := ReadSegment(pos, segs, i);
      assert data[..] == bytes;
      SegmentRead(was, before, Snapshot(segs), i, bytes, start, pos, len);
      pos' := pos + len;
    }

    /**
    A read request: the concatenation of the segments starts with the device's bytes, as many
    as there are room and device for, and keeps its old bytes behind them.
    */
    method ReadRequest(start: nat, segs: seq<array<byte>>) returns (nr: nat)
      requires start <= data.Length && data !in segs
      requires forall i, j :: 0 <= i < j < |segs| ==> segs[i] != segs[j]
      modifies segs
      ensures nr == Min(|old(Flatten(Snapshot(segs)))|, data.Length - start)
      ensures Flatten(Snapshot(segs)) == Overlay(old(Flatten(Snapshot(segs))), 0, data[start..start + nr])
      ensures data[..] == old(data[..])
    {
      var pos: nat := start;
      ghost var was, bytes := Snapshot(segs), data[..];
      for i := 0 to |segs|
        invariant data[..] == bytes && FilledUpTo(was, Snapshot(segs), i, bytes, start, pos)
      {
        pos := ReadNext(pos, segs, i, was, bytes, start);
      }
      AllFilled(was, Snapshot(segs), bytes, start, pos);
      nr := pos - start;
    }

    /** What one request wrote, another one reads back, however differently it is segmented. */
    method WriteThenRead(start: nat, out: seq<seq<byte>>, back: seq<array<byte>>) returns (written: nat, got: nat)
      requires start <= data.Length && data !in back
      requires forall i, j :: 0 <= i < j < |back| ==> back[i] != back[j]
      requires |Flatten(Snapshot(back))| == |Flatten(out)|
      modifies data, back
      ensures written == got == Min(|Flatten(out)|, data.Length - start)
      ensures Flatten(Snapshot(back)) == Overlay(old(Flatten(Snapshot(back))), 0, Flatten(out)[..got])
    {
      ghost var was := Snapshot(back);
      written := WriteRequest(start, out);
      assert Snapshot(back) == was;
      got := ReadRequest(start, back);
    }
  }
}
