/**
The open files of a scull device, each with its own position, and the module-wide geometry.
Every file operation is one step of a run of `ScullFile`, so what is proved about runs there
holds of any sequence of these calls.
*/
module ScullFiles {
  import opened Kernel
  import opened ScullDevice
  import F = ScullFile

  class OpenFiles {
    const dev: ScullDev
    var pos: map<F.Handle, nat>
    var quantum: nat
    var qset: nat

    ghost predicate Valid()
      reads this, dev, dev.mem
    {
      dev.Valid() && quantum > 0 && qset > 0
    }

    ghost function Now(): F.State
      requires Valid()
      reads this, dev, dev.mem
    {
      F.State(dev.Abs(), pos, quantum)
    }

    constructor (mem: Memory, quantum: nat, qset: nat)
      requires mem.Valid() && quantum > 0 && qset > 0
      ensures Valid() && Now() == F.State(F.Trimmed(quantum), map[], quantum)
    {
      dev := new ScullDev(mem, quantum, qset);
      pos, this.quantum, this.qset := map[], quantum, qset;
    }

    method Open(h: F.Handle, writeOnly: bool)
      requires Valid() && h !in pos
      modifies this`pos, dev, dev.mem
      ensures Valid() && F.Next(old(Now()), F.Open(h, writeOnly), Now())
      ensures pos == old(pos)[h := 0]
      ensures writeOnly ==> dev.Abs() == F.Trimmed(quantum) && dev.size == 0 && dev.quantum == quantum && dev.qset == qset
      ensures !writeOnly ==> dev.Abs() == old(dev.Abs()) && dev.qset == old(dev.qset)
    {
      dev.Open(writeOnly, quantum, qset);
      pos := pos[h := 0];
    }

    method Release(h: F.Handle)
      requires Valid()
      modifies this`pos
      ensures Valid() && F.Next(old(Now()), F.Release(h), Now())
    {
      pos := pos - {h};
    }

    method Read(h: F.Handle, count: nat, reachable: nat) returns (got: Result<seq<byte>>)
      requires Valid() && h in pos
      modifies this`pos, dev, dev.mem
      ensures Valid() && F.Next(old(Now()), F.Read(h, count, got), Now())
      ensures got.Err? <==> F.ReadFaults(old(dev.Abs()), old(pos)[h], count, reachable)
      ensures dev.mem.failures == old(dev.mem.failures)
      ensures pos == if got.Done? then old(pos)[h := old(pos)[h] + |got.value|] else old(pos)
    {
      var at := pos[h];
      var at';
      ghost var s := Now();
      got, at' := dev.Read(at, count, reachable);
      assert dev.Abs() == s.file;
      F.ReadIsStep(s, h, count, got, at');
      pos := pos[h := at'];
      assert Now() == s.(pos := s.pos[h := at']);
    }

    method Write(h: F.Handle, data: seq<byte>, reachable: nat) returns (wrote: Result<nat>)
      requires Valid() && h in pos
      modifies this`pos, dev, dev.mem
      ensures Valid() && F.Next(old(Now()), F.Write(h, data, wrote), Now())
      ensures dev.mem.failures == old(dev.mem.failures) + (if wrote == Err(ENOMEM) then 1 else 0)
      ensures wrote == Err(EFAULT) <==>
                wrote != Err(ENOMEM) && reachable < F.Reach(old(dev.quantum), old(pos)[h], |data|)
      ensures pos == if wrote.Done? then old(pos)[h := old(pos)[h] + wrote.value] else old(pos)
    {
      var at := pos[h];
      var at';
      wrote, at' := dev.Write(at, data, reachable);
      pos := pos[h := at'];
      assert wrote.Err? ==> pos == old(pos);
    }

    method Llseek(h: F.Handle, off: int, whence: F.Whence) returns (r: Result<nat>)
      requires Valid() && h in pos
      modifies this`pos
      ensures Valid() && F.Next(old(Now()), F.Llseek(h, off, whence), Now())
      ensures whence == F.SeekSet ==> r == if off < 0 then Err(EINVAL) else Done(off)
      ensures whence == F.SeekCur ==> r == if old(pos)[h] + off < 0 then Err(EINVAL) else Done(old(pos)[h] + off)
      ensures whence == F.SeekEnd ==> r == if dev.size + off < 0 then Err(EINVAL) else Done(dev.size + off)
      ensures whence == F.SeekOther ==> r == Err(EINVAL)
      ensures pos[h] == if r.Done? then r.value else old(pos)[h]
    {
      var newpos;
      match whence {
        case SeekSet => newpos := off;
        case SeekCur => newpos := pos[h] + off;
        case SeekEnd => newpos := dev.size + off;
        case SeekOther => return Err(EINVAL);
      }
      if newpos < 0 {
        return Err(EINVAL);
      }
      pos := pos[h := newpos];
      return Done(newpos);
    }

    /** The ioctl commands that set the geometry; devices keep theirs until they are trimmed. */
    method Ioctl(newQuantum: nat, newQset: nat)
      requires Valid() && newQuantum > 0 && newQset > 0
      modifies this`quantum, this`qset
      ensures Valid() && F.Next(old(Now()), F.Ioctl(newQuantum), Now())
      ensures quantum == newQuantum && qset == newQset
      ensures dev.quantum == old(dev.quantum) && dev.qset == old(dev.qset)
    {
      quantum, qset := newQuantum, newQset;
    }
  }
}
