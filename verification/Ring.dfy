/**
The circular buffer of scullpipe, as arithmetic on offsets.

`n` is the buffer size and `rp`, `wp` are offsets into the buffer. One slot is always kept
free, so equal offsets mean "empty". An offset may equal `n` for the short moment between
`rp += count` and the wrap that follows it.
*/
module Ring {
  import opened Kernel

  function Wrap(n: nat, p: nat): nat {
    if p == n then 0 else p
  }

  /** The distance from `wp` forward to the slot before `rp`; -1 for equal offsets. */
  function Gap(n: nat, rp: nat, wp: nat): int
    requires n > 0
  {
    (rp + n - wp) % n - 1
  }

  /** How much space is free, exactly as the driver computes it. */
  function SpaceFree(n: nat, rp: nat, wp: nat): int
    requires n > 0
  {
    if rp == wp then n - 1 else Gap(n, rp, wp)
  }

  /** The bytes waiting in the ring, oldest first. */
  function Contents(buf: seq<byte>, rp: nat, wp: nat): seq<byte>
    requires rp < |buf| && wp < |buf|
  {
    if rp <= wp then buf[rp..wp] else buf[rp..] + buf[..wp]
  }

  /** How many bytes one read hands out: up to `wp`, or up to the end when `wp` has wrapped. */
  function ReadCount(n: nat, rp: nat, wp: nat, count: nat): nat
    requires rp < n && wp < n
  {
    if wp > rp then Min(count, wp - rp) else Min(count, n - rp)
  }

  /** How many bytes one write accepts: up to the end, or up to `rp - 1` when `wp` has wrapped. */
  function WriteCount(n: nat, rp: nat, wp: nat, count: nat): nat
    requires rp < n && wp < n && SpaceFree(n, rp, wp) >= 0
  {
    var c := Min(count, SpaceFree(n, rp, wp));
    if wp >= rp then Min(c, n - wp) else Min(c, rp - wp - 1)
  }

  lemma ModOfOneTurn(x: int, n: int)
    requires 0 < n <= x < 2 * n
    ensures x % n == x - n
  {
    assert x == n * 1 + (x - n);
  }

  lemma ModOfNoTurn(x: int, n: int)
    requires 0 <= x < n
    ensures x % n == x
  {
  }

  /** `SpaceFree` always complements the queue length to `n - 1`. */
  lemma SpaceFreeComplementsContents(buf: seq<byte>, rp: nat, wp: nat)
    requires rp < |buf| && wp < |buf|
    ensures SpaceFree(|buf|, rp, wp) == |buf| - 1 - |Contents(buf, rp, wp)|
    ensures 0 <= SpaceFree(|buf|, rp, wp) < |buf|
  {
    if wp < rp {
      ModOfOneTurn(rp + |buf| - wp, |buf|);
      assert |Contents(buf, rp, wp)| == |buf| - rp + wp;
    } else if rp < wp {
      ModOfNoTurn(rp + |buf| - wp, |buf|);
      assert |Contents(buf, rp, wp)| == wp - rp;
    }
  }

  /** Wrapping a write offset that stands at the end does not change how full the ring looks. */
  lemma SpaceFreeAcrossWrap(n: nat, rp: nat)
    requires 0 < rp < n
    ensures SpaceFree(n, rp, n) == SpaceFree(n, rp, 0) == rp - 1
  {
    ModOfOneTurn(rp + n, n);
  }

  /** The `k` bytes from `rp` on are the front of the queue, and the rest is what they leave. */
  predicate TakesFront(buf: seq<byte>, rp: nat, wp: nat, k: nat)
    requires rp < |buf| && wp < |buf|
  {
    && rp + k <= |buf| && k <= |Contents(buf, rp, wp)|
    && buf[rp..rp + k] == Contents(buf, rp, wp)[..k]
    && Contents(buf, Wrap(|buf|, rp + k), wp) == Contents(buf, rp, wp)[k..]
  }

  lemma InOnePiece(buf: seq<byte>, rp: nat, wp: nat, k: nat)
    requires rp < wp < |buf| && rp + k <= wp
    ensures TakesFront(buf, rp, wp, k)
  {
    assert Contents(buf, rp, wp) == buf[rp..wp] && Contents(buf, rp + k, wp) == buf[rp + k..wp];
  }

  lemma OfTheTail(buf: seq<byte>, rp: nat, wp: nat, k: nat)
    requires wp < rp && rp + k < |buf|
    ensures TakesFront(buf, rp, wp, k)
  {
    CutInFirst(buf[rp..], buf[..wp], k);
    assert buf[rp..][k..] == buf[rp + k..] && buf[rp..][..k] == buf[rp..rp + k];
  }

  lemma CutInFirst(a: seq<byte>, b: seq<byte>, k: nat)
    requires k <= |a|
    ensures (a + b)[..k] == a[..k] && (a + b)[k..] == a[k..] + b
  {
  }

  lemma WholeTail(buf: seq<byte>, rp: nat, wp: nat)
    requires wp < rp < |buf|
    ensures TakesFront(buf, rp, wp, |buf| - rp)
  {
    assert Contents(buf, rp, wp) == buf[rp..] + buf[..wp];
    assert Contents(buf, 0, wp) == buf[..wp];
  }

  /** A read takes a prefix of the queue and leaves the rest; it takes something if asked to. */
  lemma ReadConsumesPrefix(buf: seq<byte>, rp: nat, wp: nat, count: nat)
    requires rp < |buf| && wp < |buf| && rp != wp
    ensures
      var k := ReadCount(|buf|, rp, wp, count);
      TakesFront(buf, rp, wp, k) && k <= count && (count > 0 ==> k > 0)
  {
    var k := ReadCount(|buf|, rp, wp, count);
    if rp < wp {
      InOnePiece(buf, rp, wp, k);
    } else if rp + k < |buf| {
      OfTheTail(buf, rp, wp, k);
    } else {
      WholeTail(buf, rp, wp);
    }
  }

  /** Bytes copied into the free part of the ring are invisible until `wp` moves. */
  lemma FreePartIsInvisible(buf: seq<byte>, rp: nat, wp: nat, data: seq<byte>)
    requires rp < |buf| && wp < |buf| && SpaceFree(|buf|, rp, wp) >= 0
    requires |data| <= WriteCount(|buf|, rp, wp, |data|)
    ensures wp + |data| <= |buf|
    ensures Contents(Overlay(buf, wp, data), rp, wp) == Contents(buf, rp, wp)
  {
    var buf' := Overlay(buf, wp, data);
    assert buf'[..wp] == buf[..wp];
    if wp < rp {
      assert buf'[rp..] == buf[rp..];
    } else {
      assert buf'[rp..wp] == buf[rp..wp];
    }
  }

  /** Where a write of `len` accepted bytes may end. */
  lemma WriteFits(n: nat, rp: nat, wp: nat, len: nat)
    requires rp < n && wp < n && SpaceFree(n, rp, wp) >= 0
    requires len <= WriteCount(n, rp, wp, len)
    ensures wp + len <= n
    ensures wp < rp ==> wp + len < rp
    ensures rp == 0 ==> wp + len < n
  {
  }

  /** The parts of a buffer around a place where something was stored. */
  lemma OverlayParts(buf: seq<byte>, at: nat, data: seq<byte>, k: nat)
    requires at + |data| <= |buf| && k <= |buf|
    ensures
      var buf' := Overlay(buf, at, data);
      && (at + |data| <= k ==> buf'[k..] == buf[k..])
      && buf'[..at + |data|] == buf[..at] + data
      && (k <= at ==> buf'[k..at + |data|] == buf[k..at] + data)
  {
  }

  lemma PlusAssoc(a: seq<byte>, b: seq<byte>, c: seq<byte>)
    ensures a + b + c == a + (b + c)
  {
  }

  lemma AppendInPlace(buf: seq<byte>, rp: nat, wp: nat, data: seq<byte>)
    requires rp < |buf| && wp < |buf| && wp + |data| <= |buf|
    requires wp < rp ==> wp + |data| < rp
    requires rp == 0 ==> wp + |data| < |buf|
    ensures Wrap(|buf|, wp + |data|) < |buf|
    ensures Contents(Overlay(buf, wp, data), rp, Wrap(|buf|, wp + |data|)) == Contents(buf, rp, wp) + data
  {
    var buf' := Overlay(buf, wp, data);
    var end := wp + |data|;
    OverlayParts(buf, wp, data, rp);
    if wp < rp {
      assert Contents(buf', rp, end) == buf[rp..] + (buf[..wp] + data);
      PlusAssoc(buf[rp..], buf[..wp], data);
    } else if end < |buf| {
      assert Contents(buf', rp, end) == buf'[rp..end];
    } else {
      assert Contents(buf', rp, 0) == buf'[rp..] + buf'[..0] == buf'[rp..end];
    }
  }

  /** A write appends the accepted bytes to the queue. */
  lemma WriteAppends(buf: seq<byte>, rp: nat, wp: nat, data: seq<byte>)
    requires rp < |buf| && wp < |buf| && SpaceFree(|buf|, rp, wp) >= 0
    requires |data| <= WriteCount(|buf|, rp, wp, |data|)
    ensures wp + |data| <= |buf| && Wrap(|buf|, wp + |data|) < |buf|
    ensures Contents(Overlay(buf, wp, data), rp, Wrap(|buf|, wp + |data|)) == Contents(buf, rp, wp) + data
  {
    WriteFits(|buf|, rp, wp, |data|);
    AppendInPlace(buf, rp, wp, data);
  }

  /** A write with space to spare accepts at least one byte if given one, never more than fits. */
  lemma WriteMakesProgress(buf: seq<byte>, rp: nat, wp: nat, count: nat)
    requires rp < |buf| && wp < |buf| && SpaceFree(|buf|, rp, wp) > 0
    ensures
      var k := WriteCount(|buf|, rp, wp, count);
      && k <= count && wp + k <= |buf|
      && |Contents(buf, rp, wp)| + k < |buf|
      && (count > 0 ==> k > 0)
      && k <= WriteCount(|buf|, rp, wp, k)
      && (rp == 0 ==> wp + k < |buf|)
  {
    SpaceFreeComplementsContents(buf, rp, wp);
  }

  /** One read takes what is asked for, what is queued or what is left of the buffer, whichever is least. */
  lemma ReadCountIs(buf: seq<byte>, rp: nat, wp: nat, count: nat)
    requires rp < |buf| && wp < |buf| && rp != wp
    ensures ReadCount(|buf|, rp, wp, count) == Min(count, Min(|Contents(buf, rp, wp)|, |buf| - rp))
  {
  }

  lemma ReadTakesFront(buf: seq<byte>, rp: nat, wp: nat, count: nat)
    requires rp < |buf| && wp < |buf| && rp != wp
    ensures
      var queue, k := Contents(buf, rp, wp), ReadCount(|buf|, rp, wp, count);
      && k == Min(count, Min(|queue|, |buf| - rp)) && (count > 0 ==> k > 0)
      && buf[rp..rp + k] == queue[..k] && Contents(buf, Wrap(|buf|, rp + k), wp) == queue[k..]
  {
    ReadCountIs(buf, rp, wp, count);
    ReadConsumesPrefix(buf, rp, wp, count);
  }

  /** One write accepts what is offered, what fits the queue or what is left of the buffer, whichever is least. */
  lemma WriteCountIs(buf: seq<byte>, rp: nat, wp: nat, count: nat)
    requires rp < |buf| && wp < |buf| && SpaceFree(|buf|, rp, wp) >= 0
    ensures |Contents(buf, rp, wp)| < |buf|
    ensures WriteCount(|buf|, rp, wp, count) == Min(count, Min(|buf| - 1 - |Contents(buf, rp, wp)|, |buf| - wp))
  {
    SpaceFreeComplementsContents(buf, rp, wp);
  }

  lemma TakeThenDrop(d: seq<byte>, q: seq<byte>, k: nat)
    requires k <= |q|
    ensures d + q == d + q[..k] + q[k..] && q == q[..k] + q[k..]
  {
    assert q == q[..k] + q[k..];
  }

  /** All there is to know about one read: it is short only at the end of the queue or the buffer. */
  lemma ReadOutcome(buf: seq<byte>, rp: nat, wp: nat, count: nat)
    requires rp < |buf| && wp < |buf| && rp != wp
    ensures
      var k := ReadCount(|buf|, rp, wp, count);
      && rp + k <= |buf| && k <= count && k <= |Contents(buf, rp, wp)| && (count > 0 ==> k > 0)
      && var rp' := Wrap(|buf|, rp + k);
      && buf[rp..rp + k] + Contents(buf, rp', wp) == Contents(buf, rp, wp)
      && (k == count || Contents(buf, rp', wp) == [] || rp' == 0)
  {
    ReadConsumesPrefix(buf, rp, wp, count);
    TakeThenDrop([], Contents(buf, rp, wp), ReadCount(|buf|, rp, wp, count));
  }

  /** All there is to know about one write: it is short only at the end of the space or the buffer. */
  lemma WriteOutcome(buf: seq<byte>, rp: nat, wp: nat, data: seq<byte>)
    requires rp < |buf| && wp < |buf| && SpaceFree(|buf|, rp, wp) > 0
    ensures
      var k := WriteCount(|buf|, rp, wp, |data|);
      && wp + k <= |buf| && k <= |data| && (data != [] ==> k > 0)
      && var wp' := Wrap(|buf|, wp + k);
      var buf' := Overlay(buf, wp, data[..k]);
      && wp' < |buf|
      && Contents(buf', rp, wp') == Contents(buf, rp, wp) + data[..k]
      && |Contents(buf', rp, wp')| < |buf|
      && (k == |data| || |Contents(buf', rp, wp')| == |buf| - 1 || wp' == 0)
  {
    WriteMakesProgress(buf, rp, wp, |data|);
    WriteAppends(buf, rp, wp, data[..WriteCount(|buf|, rp, wp, |data|)]);
    SpaceFreeComplementsContents(buf, rp, wp);
  }
}
