/**
The scullpriv devices: one scull device per controlling terminal, found by key in a list that
only grows until the module is cleaned up. All devices share kernel memory.
*/
module PrivateDevices {
  import opened Kernel
  import opened ScullLayout
  import opened ScullDevice
  import F = ScullFile

  datatype Item = Item(key: nat, dev: ScullDev)

  /** The device a key stands for: the first one in the list with that key. */
  function Resolve(items: seq<Item>, key: nat): (d: Option<ScullDev>)
    ensures d.Some? ==> exists i :: 0 <= i < |items| && items[i].key == key && items[i].dev == d.value
  {
    if items == [] then None
    else if items[0].key == key then Some(items[0].dev)
    else
      assert forall i :: 0 <= i < |items[1..]| ==> items[1..][i] == items[i + 1];
      Resolve(items[1..], key)
  }

  ghost predicate DistinctKeys(items: seq<Item>) {
    forall i, j :: 0 <= i < j < |items| ==> items[i].key != items[j].key
  }

  /** With distinct keys, resolving finds exactly the entries of the list. */
  lemma {:induction false} ResolveFinds(items: seq<Item>, key: nat)
    requires DistinctKeys(items)
    ensures Resolve(items, key).None? <==> forall i :: 0 <= i < |items| ==> items[i].key != key
    ensures forall i :: 0 <= i < |items| && items[i].key == key ==> Resolve(items, key) == Some(items[i].dev)
  {
    if items != [] {
      assert items == [items[0]] + items[1..];
      assert forall i :: 0 <= i < |items[1..]| ==> items[1..][i] == items[i + 1];
      ResolveFinds(items[1..], key);
    }
  }

  /** A new key in front of the list changes how that key resolves and nothing else. */
  lemma Prepended(items: seq<Item>, it: Item)
    requires DistinctKeys(items) && forall i :: 0 <= i < |items| ==> items[i].key != it.key
    ensures
      var items' := [it] + items;
      && DistinctKeys(items') && Resolve(items', it.key) == Some(it.dev)
      && (forall k :: k != it.key ==> Resolve(items', k) == Resolve(items, k))
      && (forall i :: 0 <= i < |items'| ==> items'[i] == if i == 0 then it else items[i - 1])
  {
    assert ([it] + items)[1..] == items;
  }

  lemma SameView(l: Layout, l': Layout, size: nat)
    requires Shape(l) && Shape(l') && SameBytes(l, l')
    ensures View(l', size) == View(l, size)
  {
    forall p: nat
      ensures FileByte(l', p) == FileByte(l, p)
    {
    }
  }

  // Requests, and what each of them does to the files of the keys

  datatype Request =
    | Open(tty: Option<nat>, writeOnly: bool, memory: bool)
    | Read(key: nat, pos: nat, count: nat, reachable: nat)
    | Write(key: nat, pos: nat, buf: seq<byte>, reachable: nat)

  datatype Outcome =
    | Opened(ok: Result<()>)
    | Got(got: Result<seq<byte>>)
    | Wrote(wrote: Result<nat>)
    | NoFile  // the key has no device, so there is no open file to read or write through

  datatype Event = Event(request: Request, outcome: Outcome)

  /** The key a request comes from; None without a controlling terminal. */
  function KeyOf(q: Request): Option<nat> {
    if q.Open? then q.tty else Some(q.key)
  }

  /** The file of a key; None as long as the key has no device. */
  function FileOf(files: map<nat, F.File>, key: nat): Option<F.File> {
    if key in files then Some(files[key]) else None
  }

  lemma SameFiles(a: map<nat, F.File>, b: map<nat, F.File>)
    requires forall k: nat :: FileOf(a, k) == FileOf(b, k)
    ensures a == b
  {
    forall k: nat
      ensures k in a <==> k in b
      ensures k in a ==> a[k] == b[k]
    {
      assert FileOf(a, k) == FileOf(b, k);
    }
  }

  /** What a request does to the file of its own key, told from that file alone. */
  ghost predicate OwnStep(quantum: nat, f: Option<F.File>, e: Event, f': Option<F.File>) {
    match e.request
    case Open(_, writeOnly, memory) =>
      if f.None? && !memory then e.outcome == Opened(Err(ENOMEM)) && f' == f
      else e.outcome == Opened(Done(())) && f' == Some(if f.None? || writeOnly then F.Trimmed(quantum) else f.value)
    case Read(_, pos, count, reachable) =>
      && f' == f
      && if f.None? then e.outcome == NoFile
         else
           && f.value.quantum > 0 && e.outcome.Got? && F.ReadStep(f.value, pos, count, e.outcome.got)
           && (e.outcome.got.Err? <==> F.ReadFaults(f.value, pos, count, reachable))
    case Write(_, pos, buf, reachable) =>
      if f.None? then e.outcome == NoFile && f' == f
      else
        && f'.Some? && f.value.quantum > 0
        && e.outcome.Wrote? && F.WriteStep(f.value, pos, buf, e.outcome.wrote, f'.value)
        && (e.outcome.wrote == Err(EFAULT) <==>
              e.outcome.wrote != Err(ENOMEM) && reachable < F.Reach(f.value.quantum, pos, |buf|))
  }

  /** A request is a step of its own key's file and leaves all others alone. */
  ghost predicate Served(quantum: nat, files: map<nat, F.File>, e: Event, files': map<nat, F.File>) {
    match KeyOf(e.request)
    case None => e.outcome == Opened(Err(EINVAL)) && files' == files
    case Some(key) =>
      && OwnStep(quantum, FileOf(files, key), e, FileOf(files', key))
      && forall k :: k != key ==> FileOf(files', k) == FileOf(files, k)
  }

  ghost predicate AreServed(quantum: nat, files: seq<map<nat, F.File>>, events: seq<Event>) {
    && |files| == |events| + 1
    && forall i :: 0 <= i < |events| ==> Served(quantum, files[i], events[i], files[i + 1])
  }

  function Events(requests: seq<Request>, outcomes: seq<Outcome>): seq<Event>
    requires |requests| == |outcomes|
  {
    seq(|requests|, i requires 0 <= i < |requests| => Event(requests[i], outcomes[i]))
  }

  lemma OneMoreServed(quantum: nat, files: seq<map<nat, F.File>>, requests: seq<Request>, outcomes: seq<Outcome>,
                      q: Request, o: Outcome, files': map<nat, F.File>)
    requires |requests| == |outcomes| && AreServed(quantum, files, Events(requests, outcomes))
    requires Served(quantum, files[|requests|], Event(q, o), files')
    ensures AreServed(quantum, files + [files'], Events(requests + [q], outcomes + [o]))
  {
    var all, events := files + [files'], Events(requests + [q], outcomes + [o]);
    forall i | 0 <= i < |events|
      ensures Served(quantum, all[i], events[i], all[i + 1])
    {
      if i < |requests| {
        assert Served(quantum, files[i], Events(requests, outcomes)[i], files[i + 1]);
      }
    }
  }

  /** The events of one key. */
  function Own(events: seq<Event>, key: nat): seq<Event> {
    if events == [] then []
    else
      var before, e := Own(events[..|events| - 1], key), events[|events| - 1];
      if KeyOf(e.request) == Some(key) then before + [e] else before
  }

  /** `events`, all of one key, take its file through the states `fs`. */
  ghost predicate IsOwnRun(quantum: nat, fs: seq<Option<F.File>>, events: seq<Event>) {
    && |fs| == |events| + 1
    && forall i :: 0 <= i < |events| ==> OwnStep(quantum, fs[i], events[i], fs[i + 1])
  }

  lemma OwnRunExtended(quantum: nat, fs: seq<Option<F.File>>, events: seq<Event>, e: Event, f': Option<F.File>)
    requires IsOwnRun(quantum, fs, events) && OwnStep(quantum, fs[|events|], e, f')
    ensures IsOwnRun(quantum, fs + [f'], events + [e])
  {
    var fs', events' := fs + [f'], events + [e];
    forall i | 0 <= i < |events'|
      ensures OwnStep(quantum, fs'[i], events'[i], fs'[i + 1])
    {
      assert i < |events| ==> OwnStep(quantum, fs[i], events[i], fs[i + 1]);
    }
  }

  lemma ServedPrefix(quantum: nat, files: seq<map<nat, F.File>>, events: seq<Event>, n: nat)
    requires AreServed(quantum, files, events) && n <= |events|
    ensures AreServed(quantum, files[..n + 1], events[..n])
  {
    forall i | 0 <= i < n
      ensures Served(quantum, files[..n + 1][i], events[..n][i], files[..n + 1][i + 1])
    {
      assert Served(quantum, files[i], events[i], files[i + 1]);
    }
  }

  /**
  Isolation: after any requests from any terminals, the file of a key is what that key's own requests,
  with their own outcomes, make of it. Nothing that goes through other keys can be told from it.
  */
  lemma {:induction false} KeysAreIsolated(quantum: nat, files: seq<map<nat, F.File>>, events: seq<Event>, key: nat)
    returns (fs: seq<Option<F.File>>)
    requires AreServed(quantum, files, events)
    ensures IsOwnRun(quantum, fs, Own(events, key))
    ensures fs[0] == FileOf(files[0], key) && fs[|fs| - 1] == FileOf(files[|events|], key)
    decreases |events|
  {
    if events == [] {
      fs := [FileOf(files[0], key)];
    } else {
      var n := |events| - 1;
      var e := events[n];
      ServedPrefix(quantum, files, events, n);
      fs := KeysAreIsolated(quantum, files[..n + 1], events[..n], key);
      assert Served(quantum, files[n], e, files[n + 1]);
      if KeyOf(e.request) == Some(key) {
        var f' := FileOf(files[n + 1], key);
        OwnRunExtended(quantum, fs, Own(events[..n], key), e, f');
        fs := fs + [f'];
      }
    }
  }

  class CloneList {
    const mem: Memory
    var items: seq<Item>

    ghost function Devices(): set<ScullDev>
      reads this
    {
      set i | 0 <= i < |items| :: items[i].dev
    }

    /** No live block belongs to anything but a listed device. */
    ghost predicate AllOwned()
      reads this, mem
    {
      forall p :: p in mem.owner ==> exists i :: 0 <= i < |items| && items[i].dev == mem.owner[p].dev
    }

    ghost predicate Valid()
      reads this, mem, Devices()
    {
      && mem.Valid() && DistinctKeys(items)
      && (forall i, j :: 0 <= i < j < |items| ==> items[i].dev != items[j].dev)
      && (forall d :: d in Devices() ==> d.mem == mem && d.Valid())
      && AllOwned()
    }

    lemma ResolvesToDevice(key: nat)
      ensures Resolve(items, key).Some? ==> Resolve(items, key).value in Devices()
    {
    }

    lemma DifferentKeys(k: nat, key: nat)
      requires Valid() && k != key && Resolve(items, k).Some? && Resolve(items, key).Some?
      ensures Resolve(items, k).value != Resolve(items, key).value
    {
    }

    /** The file of a key, if it has a device. */
    ghost function FileAt(key: nat): Option<F.File>
      requires Valid()
      reads this, mem, Devices()
    {
      ResolvesToDevice(key);
      if Resolve(items, key).Some? then Some(Resolve(items, key).value.Abs()) else None
    }

    ghost function Keys(): (keys: set<nat>)
      requires Valid()
      reads this, mem, Devices()
      ensures forall k :: k in keys <==> Resolve(items, k).Some?
    {
      var keys := set i | 0 <= i < |items| :: items[i].key;
      assert forall k :: Resolve(items, k).Some? <==> k in keys by {
        forall k
          ensures Resolve(items, k).Some? <==> k in keys
        {
          ResolveFinds(items, k);
        }
      }
      keys
    }

    /** The files of all keys that have a device. */
    ghost function Files(): (files: map<nat, F.File>)
      requires Valid()
      reads this, mem, Devices()
      ensures forall k: nat :: FileOf(files, k) == FileAt(k)
    {
      map k | k in Keys() :: FileAt(k).value
    }

    constructor (mem: Memory)
      requires mem.Valid() && mem.blocks == map[]
      ensures Valid() && items == [] && this.mem == mem
    {
      this.mem, this.items := mem, [];
    }

    /**
    Looks a key up and creates an empty device for it if there is none, unless memory is out.
    Keys that resolved before still resolve to the same device.
    */
    method LookFor(key: nat, memory: bool, quantum: nat, qset: nat) returns (dev: ScullDev?)
      requires Valid() && quantum > 0 && qset > 0
      modifies this`items
      ensures Valid()
      ensures dev == null <==> Resolve(old(items), key).None? && !memory
      ensures dev != null ==> dev in Devices() && Resolve(items, key) == Some(dev)
      ensures old(Devices()) <= Devices()
      ensures Resolve(old(items), key).Some? || dev == null ==> items == old(items)
      ensures Resolve(old(items), key).None? && dev != null ==>
                fresh(dev) && items == [Item(key, dev)] + old(items) && dev.Abs() == F.Trimmed(quantum)
      ensures forall k :: Resolve(old(items), k).Some? ==> Resolve(items, k) == Resolve(old(items), k)
    {
      ResolveFinds(items, key);
      for i := 0 to |items|
        invariant items == old(items) && Valid()
        invariant forall j :: 0 <= j < i ==> items[j].key != key
      {
        if items[i].key == key {
          return items[i].dev;
        }
      }
      if !memory {
        return null;
      }
      dev := Create(key, quantum, qset);
    }

    /** Makes an empty device for a new key. */
    method Create(key: nat, quantum: nat, qset: nat) returns (d: ScullDev)
      requires Valid() && quantum > 0 && qset > 0 && forall i :: 0 <= i < |items| ==> items[i].key != key
      modifies this`items
      ensures Valid() && fresh(d) && items == [Item(key, d)] + old(items) && Resolve(items, key) == Some(d)
      ensures Devices() == old(Devices()) + {d} && d in Devices() && d.Abs() == F.Trimmed(quantum)
      ensures forall k :: k != key ==> Resolve(items, k) == Resolve(old(items), k)
    {
      d := new ScullDev(mem, quantum, qset);
      Link(Item(key, d));
    }

    /** Puts a device at the front of the list. */
    method Link(it: Item)
      requires Valid() && it.dev !in Devices() && it.dev.mem == mem && it.dev.Valid()
      requires forall i :: 0 <= i < |items| ==> items[i].key != it.key
      modifies this`items
      ensures Valid() && items == [it] + old(items) && Resolve(items, it.key) == Some(it.dev)
      ensures Devices() == old(Devices()) + {it.dev}
      ensures forall k :: k != it.key ==> Resolve(items, k) == Resolve(old(items), k)
    {
      ghost var before := items;
      Prepended(before, it);
      items := [it] + items;
      assert items[0].dev == it.dev;
      assert forall i :: 0 <= i < |before| ==> items[i + 1] == before[i];
      assert Devices() == old(Devices()) + {it.dev};
    }

    ghost predicate Reachable(p: Ptr)
      requires Valid()
      reads this, mem, Devices()
    {
      p != NULL && exists d, place :: d in Devices() && Reached(d.Lay(), p, place)
    }

    lemma LiveIsReachable(p: Ptr)
      requires Valid() && p in mem.blocks
      ensures Reachable(p)
    {
      var i :| 0 <= i < |items| && items[i].dev == mem.owner[p].dev;
      var d := items[i].dev;
      assert d in Devices();
      OwnedIsReached(d.Lay(), p);
    }

    /** The live blocks are exactly the blocks that some listed device reaches through its pointers. */
    lemma LiveIffReachable(p: Ptr)
      requires Valid()
      ensures p in mem.blocks <==> Reachable(p)
    {
      if p in mem.blocks {
        LiveIsReachable(p);
      } else if Reachable(p) {
        var d, place :| d in Devices() && Reached(d.Lay(), p, place);
        ReachedIsLive(d.Lay(), p, place);
      }
    }

    /** If only `dev` and its blocks changed, the other devices are as they were. */
    twostate lemma OneDeviceChanged(dev: ScullDev)
      requires old(Valid()) && dev in old(Devices()) && items == old(items)
      requires mem.Valid() && dev.Valid() && OthersKept(old(dev.Lay()), dev.Lay())
      requires forall d :: d in Devices() && d != dev ==> unchanged(d)
      ensures Valid()
      ensures forall d :: d in Devices() && d != dev ==> d.Abs() == old(d.Abs())
    {
      forall d | d in Devices() && d != dev
        ensures d.Valid() && d.Abs() == old(d.Abs())
      {
        OtherDeviceKept(old(dev.Lay()), dev.Lay(), old(d.Lay()));
        SameView(old(d.Lay()), d.Lay(), d.size);
      }
      forall p | p in mem.owner
        ensures exists i :: 0 <= i < |items| && items[i].dev == mem.owner[p].dev
      {
        if mem.owner[p].dev == dev {
          assert dev in Devices();
        } else {
          assert p in old(mem.owner) && old(mem.owner)[p] == mem.owner[p];
        }
      }
    }

    /** Empties one of the devices. */
    method Empty(dev: ScullDev, quantum: nat, qset: nat)
      requires Valid() && dev in Devices() && quantum > 0 && qset > 0
      modifies mem, dev
      ensures Valid() && items == old(items)
      ensures dev.Abs() == F.Trimmed(quantum) && Footprint(dev.Lay()) == {}
      ensures forall d :: d in Devices() && d != dev ==> d.Abs() == old(d.Abs())
    {
      dev.Trim(quantum, qset);
      OneDeviceChanged(dev);
    }

    /** Unlinks the first device, which owns no memory any more. */
    method DropFirst()
      requires Valid() && items != [] && Footprint(items[0].dev.Lay()) == {}
      modifies this`items
      ensures Valid() && items == old(items)[1..] && Devices() <= old(Devices())
    {
      var dev := items[0].dev;
      items := items[1..];
      assert forall i :: 0 <= i < |items| ==> items[i] == old(items)[i + 1];
      forall p | p in mem.owner
        ensures exists i :: 0 <= i < |items| && items[i].dev == mem.owner[p].dev
      {
        assert p !in Footprint(dev.Lay());
        var i :| 0 <= i < |old(items)| && old(items)[i].dev == mem.owner[p].dev;
        assert mem.owner[p].dev == items[i - 1].dev;
      }
    }

    /** Opens the device of the caller's terminal, emptying it if opened for writing only. */
    method Open(tty: Option<nat>, writeOnly: bool, memory: bool, quantum: nat, qset: nat) returns (r: Result<ScullDev>)
      requires Valid() && quantum > 0 && qset > 0
      modifies this`items, mem, Devices()
      ensures Valid()
      ensures r == Err(EINVAL) <==> tty.None?
      ensures r == Err(ENOMEM) <==> tty.Some? && Resolve(old(items), tty.value).None? && !memory
      ensures r.Err? ==> r.error in {EINVAL, ENOMEM} && items == old(items)
      ensures r.Done? ==> r.value in Devices() && Resolve(items, tty.value) == Some(r.value)
      ensures r.Done? && Resolve(old(items), tty.value).None? ==> fresh(r.value)
      ensures forall k :: Resolve(old(items), k).Some? ==> Resolve(items, k) == Resolve(old(items), k)
      ensures forall k: nat :: Resolve(items, k).Some? && Some(k) != tty ==> Resolve(old(items), k) == Resolve(items, k)
      ensures forall d :: d in Devices() ==> d in old(Devices()) || fresh(d)
      ensures forall d :: d in old(Devices()) && (r.Done? ==> d != r.value) ==> d.Valid() && d.Abs() == old(d.Abs())
      ensures r.Done? && (writeOnly || r.value !in old(Devices())) ==> r.value.Abs() == F.Trimmed(quantum)
      ensures r.Done? && !writeOnly && r.value in old(Devices()) ==> r.value.Abs() == old(r.value.Abs())
    {
      if tty.None? {
        return Err(EINVAL);
      }
      var dev := LookFor(tty.value, memory, quantum, qset);
      if dev == null {
        return Err(ENOMEM);
      }
      if writeOnly {
        Empty(dev, quantum, qset);
      }
      return Done(dev);
    }

    /** A write through one key is a step of that key's file and of no other. */
    method Write(key: nat, pos: nat, buf: seq<byte>, reachable: nat) returns (r: Result<nat>, pos': nat)
      requires Valid() && Resolve(items, key).Some?
      modifies mem, Resolve(items, key).value
      ensures Valid() && items == old(items)
      ensures
        var dev := Resolve(items, key).value;
        && F.WriteStep(old(dev.Abs()), pos, buf, r, dev.Abs())
        && (r == Err(EFAULT) <==> r != Err(ENOMEM) && reachable < F.Reach(old(dev.quantum), pos, |buf|))
        && forall d :: d in Devices() && d != dev ==> d.Abs() == old(d.Abs())
      ensures mem.failures == old(mem.failures) + (if r == Err(ENOMEM) then 1 else 0)
      ensures pos' == if r.Done? then pos + r.value else pos
    {
      var dev := Resolve(items, key).value;
      r, pos' := dev.Write(pos, buf, reachable);
      OneDeviceChanged(dev);
    }

    /** A read through one key sees that key's file and changes none. */
    method Read(key: nat, pos: nat, count: nat, reachable: nat) returns (r: Result<seq<byte>>, pos': nat)
      requires Valid() && Resolve(items, key).Some?
      modifies mem, Resolve(items, key).value
      ensures Valid() && items == old(items)
      ensures
        var dev := Resolve(items, key).value;
        && F.ReadStep(dev.Abs(), pos, count, r)
        && (r.Err? <==> F.ReadFaults(dev.Abs(), pos, count, reachable))
        && forall d :: d in Devices() ==> d.Abs() == old(d.Abs())
      ensures mem.failures == old(mem.failures)
      ensures pos' == if r.Done? then pos + |r.value| else pos
    {
      var dev := Resolve(items, key).value;
      r, pos' := dev.Read(pos, count, reachable);
      OneDeviceChanged(dev);
    }

    /** If items and files are the same but for one device, so are the files of all keys but one. */
    twostate lemma OtherFilesKept(key: nat)
      requires old(Valid()) && Valid() && items == old(items) && Resolve(items, key).Some?
      requires forall d :: d in Devices() && d != Resolve(items, key).value ==> d.Abs() == old(d.Abs())
      ensures forall k: nat :: k != key ==> FileAt(k) == old(FileAt(k))
    {
      forall k: nat | k != key
        ensures FileAt(k) == old(FileAt(k))
      {
        ResolvesToDevice(k);
        if Resolve(items, k).Some? {
          DifferentKeys(k, key);
        }
      }
    }

    /** Keys that resolve as before, to devices other than `own`, have the files they had. */
    twostate lemma FilesKept(new tty: Option<nat>, new own: ScullDev?)
      requires old(Valid()) && Valid()
      requires forall k: nat :: Some(k) != tty ==> Resolve(items, k) == Resolve(old(items), k)
      requires own != null ==> tty.Some? && Resolve(items, tty.value) == Some(own)
      requires forall d :: d in old(Devices()) && d != own ==> d.Valid() && d.Abs() == old(d.Abs())
      ensures forall k: nat :: Some(k) != tty ==> FileAt(k) == old(FileAt(k))
    {
      forall k: nat | Some(k) != tty
        ensures FileAt(k) == old(FileAt(k))
      {
        if Resolve(items, k).Some? {
          assert Resolve(old(items), k).value in old(Devices());
          if own != null {
            DifferentKeys(k, tty.value);
          }
        }
      }
    }

    /** An open serves its own key. */
    twostate lemma OwnFileOpened(new q: Request, quantum: nat, new r: Result<ScullDev>)
      requires old(Valid()) && Valid() && q.Open? && q.tty.Some?
      requires r == Err(ENOMEM) <==> Resolve(old(items), q.tty.value).None? && !q.memory
      requires r == Err(ENOMEM) || r.Done?
      requires r.Err? ==> items == old(items)
      requires r.Done? ==> Resolve(items, q.tty.value) == Some(r.value)
      requires Resolve(old(items), q.tty.value).Some? ==>
                 Resolve(items, q.tty.value) == Resolve(old(items), q.tty.value)
      requires r.Done? && (q.writeOnly || r.value !in old(Devices())) ==> r.value.Abs() == F.Trimmed(quantum)
      requires r.Done? && !q.writeOnly && r.value in old(Devices()) ==> r.value.Abs() == old(r.value.Abs())
      requires r.Done? && Resolve(old(items), q.tty.value).None? ==> r.value !in old(Devices())
      ensures
        var o := Opened(if r.Done? then Done(()) else Err(r.error));
        OwnStep(quantum, old(FileAt(q.tty.value)), Event(q, o), FileAt(q.tty.value))
    {
      if Resolve(old(items), q.tty.value).Some? {
        assert Resolve(old(items), q.tty.value).value in old(Devices());
      }
    }

    method ServeOpen(q: Request, quantum: nat, qset: nat) returns (o: Outcome)
      requires Valid() && q.Open? && quantum > 0 && qset > 0
      modifies this`items, mem, Devices()
      ensures Valid() && Served(quantum, old(Files()), Event(q, o), Files())
      ensures forall d :: d in Devices() ==> d in old(Devices()) || fresh(d)
      ensures forall k :: Resolve(old(items), k).Some? ==> Resolve(items, k) == Resolve(old(items), k)
    {
      var r := Open(q.tty, q.writeOnly, q.memory, quantum, qset);
      o := Opened(if r.Done? then Done(()) else Err(r.error));
      FilesKept(q.tty, if r.Done? then r.value else null);
      if q.tty.None? {
        SameFiles(Files(), old(Files()));
      } else {
        OwnFileOpened(q, quantum, r);
      }
    }

    method ServeRead(q: Request, ghost quantum: nat) returns (o: Outcome)
      requires Valid() && q.Read? && Resolve(items, q.key).Some?
      modifies mem, Resolve(items, q.key).value
      ensures Valid() && items == old(items)
      ensures Served(quantum, old(Files()), Event(q, o), Files())
    {
      var r, _ := Read(q.key, q.pos, q.count, q.reachable);
      o := Got(r);
      ResolvesToDevice(q.key);
      OtherFilesKept(q.key);
    }

    method ServeWrite(q: Request, ghost quantum: nat) returns (o: Outcome)
      requires Valid() && q.Write? && Resolve(items, q.key).Some?
      modifies mem, Resolve(items, q.key).value
      ensures Valid() && items == old(items)
      ensures Served(quantum, old(Files()), Event(q, o), Files())
    {
      var r, _ := Write(q.key, q.pos, q.buf, q.reachable);
      o := Wrote(r);
      OtherFilesKept(q.key);
    }

    /** Serves one request. */
    method Serve(q: Request, quantum: nat, qset: nat) returns (o: Outcome)
      requires Valid() && quantum > 0 && qset > 0
      modifies this`items, mem, Devices()
      ensures Valid() && Served(quantum, old(Files()), Event(q, o), Files())
      ensures forall d :: d in Devices() ==> d in old(Devices()) || fresh(d)
      ensures forall k :: Resolve(old(items), k).Some? ==> Resolve(items, k) == Resolve(old(items), k)
    {
      if q.Open? {
        o := ServeOpen(q, quantum, qset);
      } else if Resolve(items, q.key).None? {
        o := NoFile;
      } else {
        ResolvesToDevice(q.key);
        if q.Read? {
          o := ServeRead(q, quantum);
        } else {
          o := ServeWrite(q, quantum);
        }
      }
    }

    /** Serves one request more, behind others already served. */
    method ServeNext(q: Request, quantum: nat, qset: nat, ghost files: seq<map<nat, F.File>>,
                     ghost requests: seq<Request>, ghost outcomes: seq<Outcome>) returns (o: Outcome)
      requires Valid() && quantum > 0 && qset > 0
      requires |requests| == |outcomes| && AreServed(quantum, files, Events(requests, outcomes))
      requires files[|requests|] == Files()
      modifies this`items, mem, Devices()
      ensures Valid() && AreServed(quantum, files + [Files()], Events(requests + [q], outcomes + [o]))
      ensures forall d :: d in Devices() ==> d in old(Devices()) || fresh(d)
      ensures forall k :: Resolve(old(items), k).Some? ==> Resolve(items, k) == Resolve(old(items), k)
    {
      o := Serve(q, quantum, qset);
      OneMoreServed(quantum, files, requests, outcomes, q, o, Files());
    }

    /**
    Serves any requests from any terminals. Keys keep their devices, and each request is a step of
    its own key's file, so by `KeysAreIsolated` every key fares as if it were alone.
    */
    method Replay(requests: seq<Request>, quantum: nat, qset: nat)
      returns (outcomes: seq<Outcome>, ghost files: seq<map<nat, F.File>>)
      requires Valid() && quantum > 0 && qset > 0
      modifies this`items, mem, Devices()
      ensures Valid() && |outcomes| == |requests| && |files| == |requests| + 1
      ensures files[0] == old(Files()) && files[|requests|] == Files()
      ensures AreServed(quantum, files, Events(requests, outcomes))
      ensures forall k :: Resolve(old(items), k).Some? ==> Resolve(items, k) == Resolve(old(items), k)
    {
      outcomes, files := [], [Files()];
      for i := 0 to |requests|
        invariant Valid() && |outcomes| == i && |files| == i + 1
        invariant files[0] == old(Files()) && files[i] == Files()
        invariant forall d :: d in Devices() ==> d in old(Devices()) || fresh(d)
        invariant forall k :: Resolve(old(items), k).Some? ==> Resolve(items, k) == Resolve(old(items), k)
        invariant AreServed(quantum, files, Events(requests[..i], outcomes))
      {
        var o := ServeNext(requests[i], quantum, qset, files, requests[..i], outcomes);
        assert requests[..i + 1] == requests[..i] + [requests[i]];
        outcomes, files := outcomes + [o], files + [Files()];
      }
      assert requests[..|requests|] == requests;
    }

    /** Cleaning up empties every device; afterwards no block is left in memory. */
    method Cleanup(quantum: nat, qset: nat)
      requires Valid() && quantum > 0 && qset > 0
      modifies this`items, mem, Devices()
      ensures Valid() && items == [] && mem.blocks == map[]
    {
      while items != []
        invariant Valid() && Devices() <= old(Devices())
        decreases |items|
      {
        Empty(items[0].dev, quantum, qset);
        DropFirst();
      }
      assert forall p :: p !in mem.owner;
    }
  }
}
