/**
The scullpipe device as an object over a byte array: one pass of each file operation, made
with the device lock held. `Contents()` is the byte queue the device implements. Waiting for
data or space is not here but in `PipeProtocol`; a pass that would have to wait returns
EAGAIN, which is what the driver does for O_NONBLOCK files.
*/
module PipeDevice {
  import opened Kernel
  import Ring

  class ScullPipe {
    var buffer: array?<byte>
    var buffersize: nat
    var rp: nat
    var wp: nat
    var nreaders: nat
    var nwriters: nat

    constructor ()
      ensures Valid() && buffer == null && nreaders == nwriters == 0
    {
      buffer, buffersize, rp, wp := null, 0, 0, 0;
      nreaders, nwriters := 0, 0;
    }

    /** The buffer exists and both offsets are inside it. */
    ghost predicate Ready()
      reads this
    {
      buffer != null && buffer.Length == buffersize && rp < buffersize && wp < buffersize
    }

    /** A device somebody has open for reading or writing has its buffer. */
    ghost predicate Valid()
      reads this
    {
      && (nreaders + nwriters > 0 ==> buffer != null)
      && (buffer != null ==> Ready())
    }

    /** What the next read may take in one piece: up to the end of the queue or of the buffer. */
    ghost function Readable(): nat
      requires Ready()
      reads this, buffer
    {
      Min(|Contents()|, buffersize - rp)
    }

    /** What the next write may store in one piece: up to the reserved slot or the end of the buffer. */
    ghost function Writable(): nat
      requires Ready()
      reads this, buffer
    {
      Ring.SpaceFreeComplementsContents(buffer[..], rp, wp);
      Min(buffersize - 1 - |Contents()|, buffersize - wp)
    }

    ghost function Contents(): seq<byte>
      requires Ready()
      reads this, buffer
    {
      Ring.Contents(buffer[..], rp, wp)
    }

    /**
    Opens the device. `configured` is the module-wide buffer size, which is taken to keep its
    value for as long as a buffer exists; `memory` tells whether kmalloc succeeds.
    Every successful open empties the ring.
    */
    method Open(configured: nat, forRead: bool, forWrite: bool, memory: bool) returns (r: Result<()>)
      requires Valid()
      requires configured > 0 && (buffer != null ==> configured == buffersize)
      modifies this
      ensures Valid()
      ensures r.Err? <==> old(buffer) == null && !memory
      ensures r.Err? ==> r.error == ENOMEM && unchanged(this)
      ensures r.Done? ==> Ready() && Contents() == [] && buffersize == configured
      ensures r.Done? ==> if old(buffer) == null then fresh(buffer) else buffer == old(buffer)
      ensures r.Done? ==> nreaders == old(nreaders) + (if forRead then 1 else 0)
      ensures r.Done? ==> nwriters == old(nwriters) + (if forWrite then 1 else 0)
    {
      if buffer == null {
        if !memory {
          return Err(ENOMEM);
        }
        buffer := new byte[configured];
      }
      buffersize := configured;
      rp, wp := 0, 0;
      if forRead { nreaders := nreaders + 1; }
      if forWrite { nwriters := nwriters + 1; }
      return Done(());
    }

    /** Closes one handle; the buffer goes away exactly with the last reader and writer. */
    method Release(forRead: bool, forWrite: bool)
      requires Valid()
      requires (forRead ==> nreaders > 0) && (forWrite ==> nwriters > 0)
      modifies this
      ensures Valid()
      ensures nreaders == old(nreaders) - (if forRead then 1 else 0)
      ensures nwriters == old(nwriters) - (if forWrite then 1 else 0)
      ensures buffer == if nreaders + nwriters == 0 then null else old(buffer)
      ensures rp == old(rp) && wp == old(wp) && buffersize == old(buffersize)
    {
      if forRead { nreaders := nreaders - 1; }
      if forWrite { nwriters := nwriters - 1; }
      if nreaders + nwriters == 0 {
        buffer := null;
      }
    }

    /**
    One read pass. `reachable` is how many bytes of the user's buffer can be stored to, so the
    copy fails when fewer than the chosen count are. A successful read removes exactly the
    bytes it returns from the front of the queue; it is short only if that empties the queue or
    ends at the end of the buffer.
    */
    method Read(count: nat, reachable: nat) returns (r: Result<seq<byte>>)
      requires Ready()
      modifies this`rp
      ensures Ready()
      ensures r == Err(EAGAIN) <==> old(Contents()) == []
      ensures r.Err? ==> r.error in {EAGAIN, EFAULT} && rp == old(rp)
      ensures r == Err(EFAULT) <==> old(Contents()) != [] && reachable < Min(count, old(Readable()))
      ensures r.Done? ==> r.value + Contents() == old(Contents())
      ensures r.Done? ==> |r.value| == Min(count, old(Readable())) && (count > 0 ==> r.value != [])
      ensures r.Done? ==> |r.value| == count || Contents() == [] || rp == 0
    {
      if rp == wp {
        return Err(EAGAIN);
      }
      var n := if wp > rp then Min(count, wp - rp) else Min(count, buffersize - rp);
      Ring.ReadOutcome(buffer[..], rp, wp, count);
      Ring.ReadCountIs(buffer[..], rp, wp, count);
      if reachable < n {
        return Err(EFAULT);
      }
      var data := Take(n, count);
      return Done(data);
    }

    /** A copy out of the ring that succeeded, followed by moving and wrapping `rp`. */
    method Take(n: nat, ghost count: nat) returns (data: seq<byte>)
      requires Ready() && rp != wp && n == Ring.ReadCount(buffersize, rp, wp, count)
      modifies this`rp
      ensures Ready() && |data| == n && data + Contents() == old(Contents())
      ensures n == count || Contents() == [] || rp == 0
    {
      Ring.ReadOutcome(buffer[..], rp, wp, count);
      data := buffer[..][rp..rp + n];
      rp := rp + n;
      if rp == buffersize {
        rp := 0;
      }
    }

    method FreeSpace() returns (space: nat)
      requires Ready()
      ensures space == buffersize - 1 - |Contents()|
      ensures space == Ring.SpaceFree(buffersize, rp, wp)
    {
      Ring.SpaceFreeComplementsContents(buffer[..], rp, wp);
      space := if rp == wp then buffersize - 1 else (rp + buffersize - wp) % buffersize - 1;
    }

    /**
    One write pass. `reachable` is how many bytes of the user's buffer can be loaded; a failing
    copy may leave bytes in the free part of the ring, where nobody sees them. A successful
    write appends a prefix of the data to the queue; it is short only if that fills the queue
    or ends at the end of the buffer.
    */
    method Write(data: seq<byte>, reachable: nat) returns (r: Result<nat>)
      requires Ready()
      modifies this`wp, buffer
      ensures Ready()
      ensures r == Err(EAGAIN) <==> old(|Contents()|) == buffersize - 1
      ensures r.Err? ==> r.error in {EAGAIN, EFAULT} && Contents() == old(Contents()) && wp == old(wp)
      ensures r == Err(EFAULT) <==>
                old(|Contents()|) < buffersize - 1 && reachable < Min(|data|, old(Writable()))
      ensures r.Done? ==> r.value == Min(|data|, old(Writable())) && (data != [] ==> r.value > 0)
      ensures r.Done? ==> r.value == |data| || |Contents()| == buffersize - 1 || wp == 0
      ensures r.Done? ==> Contents() == old(Contents()) + data[..r.value]
      ensures r.Done? ==> |Contents()| < buffersize
    {
      var space := FreeSpace();
      if space == 0 {
        return Err(EAGAIN);
      }
      var n := Ring.WriteCount(buffersize, rp, wp, |data|);
      Ring.WriteMakesProgress(buffer[..], rp, wp, |data|);
      Ring.WriteCountIs(buffer[..], rp, wp, |data|);
      if reachable < n {
        Spill(data[..reachable], |data|);
        return Err(EFAULT);
      }
      Accept(data, n);
      return Done(n);
    }

    /** A copy into the free part that broke off half way. */
    method Spill(bytes: seq<byte>, ghost count: nat)
      requires Ready() && Ring.SpaceFree(buffersize, rp, wp) > 0
      requires |bytes| <= Ring.WriteCount(buffersize, rp, wp, count)
      modifies buffer
      ensures Contents() == old(Contents())
    {
      Ring.FreePartIsInvisible(buffer[..], rp, wp, bytes);
      CopyInto(buffer, wp, bytes);
    }

    /** A copy into the free part that succeeded, followed by moving and wrapping `wp`. */
    method Accept(data: seq<byte>, n: nat)
      requires Ready() && Ring.SpaceFree(buffersize, rp, wp) > 0
      requires n == Ring.WriteCount(buffersize, rp, wp, |data|)
      modifies this`wp, buffer
      ensures Ready() && n <= |data| && (data != [] ==> n > 0)
      ensures Contents() == old(Contents()) + data[..n] && |Contents()| < buffersize
      ensures n == |data| || |Contents()| == buffersize - 1 || wp == 0
    {
      Ring.WriteOutcome(buffer[..], rp, wp, data);
      CopyInto(buffer, wp, data[..n]);
      wp := wp + n;
      if wp == buffersize {
        wp := 0;
      }
    }

    /** Readable exactly when something is queued, writable exactly when a byte would fit. */
    method Poll() returns (readable: bool, writable: bool)
      requires Ready()
      ensures readable <==> Contents() != []
      ensures writable <==> |Contents()| < buffersize - 1
    {
      readable := rp != wp;
      var space := FreeSpace();
      writable := space != 0;
    }
  }
}
