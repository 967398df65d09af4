/**
What a scull device is for: a sparse file of bytes. A position has a byte once the quantum
around it has been allocated; bytes of a fresh quantum that were never written are arbitrary.
`ScullDevice` proves that its operations are steps of this file; here runs of such steps are
shown to give back what was written.
*/
module ScullFile {
  import opened Arithmetic
  import opened Kernel

  datatype File = File(size: nat, bytes: imap<nat, byte>, quantum: nat)

  /** How far one call reaches: to the end of the quantum at most. */
  function Reach(quantum: nat, pos: nat, count: nat): nat
    requires quantum > 0
  {
    Min(count, quantum - pos % quantum)
  }

  /** Position `p` lies in the quantum around `pos`. */
  predicate InQuantum(quantum: nat, pos: nat, p: nat)
    requires quantum > 0
  {
    pos - pos % quantum <= p < pos - pos % quantum + quantum
  }

  /** All bytes outside [pos, pos + n) are kept. */
  ghost predicate KeptOutside(f: File, f': File, pos: nat, n: nat) {
    forall p :: p in f.bytes && !(pos <= p < pos + n) ==> p in f'.bytes && f'.bytes[p] == f.bytes[p]
  }

  ghost predicate Holds(f: File, pos: nat, data: seq<byte>) {
    forall p :: pos <= p < pos + |data| ==> p in f.bytes && f.bytes[p] == data[p - pos]
  }

  ghost predicate WriteStep(f: File, pos: nat, data: seq<byte>, r: Result<nat>, f': File)
    requires f.quantum > 0
  {
    var n := Reach(f.quantum, pos, |data|);
    && f'.quantum == f.quantum
    && KeptOutside(f, f', pos, n)
    && (forall p :: p in f'.bytes && p !in f.bytes ==> InQuantum(f.quantum, pos, p))
    && match r {
         case Done(k) => k == n && f'.size == Max(f.size, pos + n) && Holds(f', pos, data[..n])
         case Err(e) =>
           && f'.size == f.size && e in {ENOMEM, EFAULT}
           && (e == ENOMEM ==> KeptOutside(f, f', pos, 0))
       }
  }

  /** `f'` is `f` with `data` stored at `pos`. */
  ghost predicate Stored(f: File, pos: nat, data: seq<byte>, f': File) {
    && f'.quantum == f.quantum && Holds(f', pos, data) && KeptOutside(f, f', pos, |data|)
    && forall p :: p in f'.bytes && p !in f.bytes ==> pos <= p < pos + |data|
  }

  /** Making room around `pos` and then storing there is one write, complete or cut short by a fault. */
  lemma MakeRoomThenStore(f: File, f1: File, pos: nat, buf: seq<byte>, copied: nat, f2: File)
    requires f.quantum > 0 && copied <= Reach(f.quantum, pos, |buf|)
    requires WriteStep(f, pos, buf, Err(ENOMEM), f1) && Stored(f1, pos, buf[..copied], f2)
    ensures
      var n := Reach(f.quantum, pos, |buf|);
      && (copied < n && f2.size == f.size ==> WriteStep(f, pos, buf, Err(EFAULT), f2))
      && (copied == n && f2.size == Max(f.size, pos + n) ==> WriteStep(f, pos, buf, Done(n), f2))
  {
    forall p | p in f2.bytes && p !in f.bytes
      ensures InQuantum(f.quantum, pos, p)
    {
    }
  }

  /** A read changes nothing. It stops at the size, at the quantum's end, and at holes. */
  ghost predicate ReadStep(f: File, pos: nat, count: nat, r: Result<seq<byte>>)
    requires f.quantum > 0
  {
    match r
    case Done(data) =>
      && |data| == (if pos < f.size && pos in f.bytes then Reach(f.quantum, pos, Min(count, f.size - pos)) else 0)
      && Holds(f, pos, data)
    case Err(e) => e == EFAULT && pos < f.size && pos in f.bytes
  }

  /** The user's buffer is shorter than what a read would copy into it. */
  ghost predicate ReadFaults(f: File, pos: nat, count: nat, reachable: nat)
    requires f.quantum > 0
  {
    pos < f.size && pos in f.bytes && reachable < Reach(f.quantum, pos, Min(count, f.size - pos))
  }

  // Callers that loop until everything is transferred

  /** How many quanta the range [pos, pos + n) touches. */
  function QuantaTouched(quantum: nat, pos: nat, n: nat): int
    requires quantum > 0
  {
    if n == 0 then 0 else (pos + n - 1) / quantum - pos / quantum + 1
  }

  /** How many calls it takes if each one reaches to the end of its quantum. */
  function CallsNeeded(quantum: nat, pos: nat, n: nat): nat
    requires quantum > 0
    decreases n
  {
    if n == 0 then 0 else
    var k := Reach(quantum, pos, n);
    1 + CallsNeeded(quantum, pos + k, n - k)
  }

  lemma {:induction false} CallsAreQuanta(quantum: nat, pos: nat, n: nat)
    requires quantum > 0
    ensures CallsNeeded(quantum, pos, n) == QuantaTouched(quantum, pos, n)
    decreases n
  {
    if n > 0 {
      var k := Reach(quantum, pos, n);
      NextMultiple(quantum, pos);
      CallsAreQuanta(quantum, pos + k, n - k);
    }
  }

  /** After `done` of `total` bytes, `calls` is on course for the number of quanta touched. */
  ghost predicate OnCourse(quantum: nat, pos: nat, total: nat, done: nat, calls: nat)
    requires quantum > 0
  {
    done <= total && calls + CallsNeeded(quantum, pos + done, total - done) == CallsNeeded(quantum, pos, total)
  }

  lemma Arrived(quantum: nat, pos: nat, total: nat, calls: nat)
    requires quantum > 0 && OnCourse(quantum, pos, total, total, calls)
    ensures calls == QuantaTouched(quantum, pos, total)
  {
    CallsAreQuanta(quantum, pos, total);
  }

  /** From `f` to `g`, the first `done` bytes of `buf` have arrived at `pos`. */
  ghost predicate Progress(f: File, g: File, pos: nat, buf: seq<byte>, done: nat)
    requires done <= |buf|
  {
    && g.quantum == f.quantum && KeptOutside(f, g, pos, done) && Holds(g, pos, buf[..done])
    && g.size == if done == 0 then f.size else Max(f.size, pos + done)
  }

  lemma HoldsAfter(g: File, g': File, pos: nat, buf: seq<byte>, done: nat, k: nat)
    requires done + k <= |buf|
    requires Holds(g, pos, buf[..done]) && KeptOutside(g, g', pos + done, k)
    requires Holds(g', pos + done, buf[done..][..k])
    ensures Holds(g', pos, buf[..done + k])
  {
    forall p | pos <= p < pos + done + k
      ensures p in g'.bytes && g'.bytes[p] == buf[..done + k][p - pos]
    {
      if p < pos + done {
        assert p in g.bytes && g.bytes[p] == buf[..done][p - pos];
      } else {
        assert g'.bytes[p] == buf[done..][..k][p - (pos + done)];
      }
    }
  }

  /** One more call of a caller that writes the `rest` of `buf` at `p`, behind the first `done` bytes. */
  lemma WriteAllStep(f: File, g: File, g': File, pos: nat, buf: seq<byte>, done: nat, p: nat, rest: seq<byte>,
                     r: Result<nat>)
    requires f.quantum > 0 && done < |buf| && Progress(f, g, pos, buf, done)
    requires p == pos + done && rest == buf[done..]
    requires WriteStep(g, p, rest, r, g')
    ensures r.Done? ==> 0 < r.value <= |buf| - done && Progress(f, g', pos, buf, done + r.value)
    ensures r.Done? ==> forall calls: nat ::
      OnCourse(f.quantum, pos, |buf|, done, calls) ==> OnCourse(f.quantum, pos, |buf|, done + r.value, calls + 1)
    ensures r.Err? ==> KeptOutside(f, g', pos, |buf|)
  {
    if r.Done? {
      var k := r.value;
      HoldsAfter(g, g', pos, buf, done, k);
      KeptLonger(f, g, g', pos, done, k);
      CourseKept(f.quantum, pos, |buf|, done, k);
    } else {
      KeptLonger(f, g, g', pos, done, |buf| - done);
    }
  }

  lemma KeptLonger(f: File, g: File, g': File, pos: nat, done: nat, k: nat)
    requires KeptOutside(f, g, pos, done)
    requires forall p :: p in g.bytes && !(pos + done <= p < pos + done + k) ==> p in g'.bytes && g'.bytes[p] == g.bytes[p]
    ensures KeptOutside(f, g', pos, done + k)
  {
  }

  /** A call that reaches as far as it can keeps the count of calls on course. */
  lemma CourseKept(quantum: nat, pos: nat, total: nat, done: nat, k: nat)
    requires quantum > 0 && done < total && k == Reach(quantum, pos + done, total - done)
    ensures 0 < k <= total - done
    ensures forall calls: nat ::
      OnCourse(quantum, pos, total, done, calls) ==> OnCourse(quantum, pos, total, done + k, calls + 1)
  {
    assert pos + done + k == pos + (done + k) && total - done - k == total - (done + k);
  }

  /** Every position of the range is below the size and has a byte. */
  ghost predicate Complete(f: File, pos: nat, n: nat) {
    n > 0 ==> pos + n <= f.size && forall p :: pos <= p < pos + n ==> p in f.bytes
  }

  lemma ReadAllStep(f: File, pos: nat, bytes: seq<byte>, total: nat, r: Result<seq<byte>>)
    requires f.quantum > 0 && |bytes| < total && Holds(f, pos, bytes)
    requires r.Done? && ReadStep(f, pos + |bytes|, total - |bytes|, r)
    ensures |r.value| <= total - |bytes| && Holds(f, pos, bytes + r.value)
    ensures Complete(f, pos, total) ==> r.value != []
    ensures Complete(f, pos, total) ==> forall calls: nat ::
      OnCourse(f.quantum, pos, total, |bytes|, calls) ==> OnCourse(f.quantum, pos, total, |bytes + r.value|, calls + 1)
  {
    HoldsConcat(f, pos, bytes, r.value);
    var n := total - |bytes|;
    if Complete(f, pos, total) {
      assert Min(n, f.size - (pos + |bytes|)) == n;
      CourseKept(f.quantum, pos, total, |bytes|, |r.value|);
    }
  }

  lemma HoldsConcat(f: File, pos: nat, a: seq<byte>, b: seq<byte>)
    requires Holds(f, pos, a) && Holds(f, pos + |a|, b)
    ensures Holds(f, pos, a + b)
  {
    forall p | pos <= p < pos + |a + b|
      ensures p in f.bytes && f.bytes[p] == (a + b)[p - pos]
    {
      if p >= pos + |a| {
        assert f.bytes[p] == b[p - (pos + |a|)];
      }
    }
  }

  lemma HoldsUnique(f: File, pos: nat, a: seq<byte>, b: seq<byte>)
    requires Holds(f, pos, a) && Holds(f, pos, b) && |a| == |b|
    ensures a == b
  {
    forall i | 0 <= i < |a|
      ensures a[i] == b[i]
    {
      assert f.bytes[pos + i] == a[pos + i - pos];
    }
  }

  /** An emptied device takes its geometry from the module-wide settings. */
  function Trimmed(quantum: nat): File {
    File(0, imap[], quantum)
  }

  datatype Whence = SeekSet | SeekCur | SeekEnd | SeekOther

  function Seek(size: nat, pos: nat, off: int, whence: Whence): Result<nat> {
    var newpos :=
      match whence
      case SeekSet => off
      case SeekCur => pos + off
      case SeekEnd => size + off
      case SeekOther => -1;
    if newpos < 0 then Err(EINVAL) else Done(newpos)
  }

  // Runs over any number of open files of one device

  type Handle = nat

  datatype State = State(file: File, pos: map<Handle, nat>, configured: nat)

  datatype Op =
    | Open(h: Handle, writeOnly: bool)
    | Release(h: Handle)
    | Read(h: Handle, count: nat, got: Result<seq<byte>>)
    | Write(h: Handle, data: seq<byte>, wrote: Result<nat>)
    | Llseek(h: Handle, off: int, whence: Whence)
    | Ioctl(quantum: nat)

  ghost predicate Next(s: State, op: Op, s': State) {
    && s.file.quantum > 0 && s.configured > 0
    && match op {
         case Open(h, writeOnly) =>
           && h !in s.pos && s'.configured == s.configured && s'.pos == s.pos[h := 0]
           && s'.file == if writeOnly then Trimmed(s.configured) else s.file
         case Release(h) =>
           s' == s.(pos := s.pos - {h})
         case Read(h, count, got) =>
           && h in s.pos && ReadStep(s.file, s.pos[h], count, got)
           && s' == if got.Done? then s.(pos := s.pos[h := s.pos[h] + |got.value|]) else s
         case Write(h, data, wrote) =>
           && h in s.pos && WriteStep(s.file, s.pos[h], data, wrote, s'.file)
           && s'.configured == s.configured
           && s'.pos == if wrote.Done? then s.pos[h := s.pos[h] + wrote.value] else s.pos
         case Llseek(h, off, whence) =>
           && h in s.pos
           && var r := Seek(s.file.size, s.pos[h], off, whence);
              s' == if r.Done? then s.(pos := s.pos[h := r.value]) else s
         case Ioctl(quantum) =>
           quantum > 0 && s' == s.(configured := quantum)
       }
  }

  lemma ReadIsStep(s: State, h: Handle, count: nat, got: Result<seq<byte>>, pos': nat)
    requires s.file.quantum > 0 && s.configured > 0 && h in s.pos && ReadStep(s.file, s.pos[h], count, got)
    requires pos' == if got.Done? then s.pos[h] + |got.value| else s.pos[h]
    ensures Next(s, Read(h, count, got), s.(pos := s.pos[h := pos']))
  {
    assert got.Err? ==> s.pos[h := pos'] == s.pos;
  }

  ghost predicate IsRun(states: seq<State>, ops: seq<Op>) {
    && |states| == |ops| + 1
    && states[0].file == Trimmed(states[0].configured) && states[0].pos == map[]
    && forall i :: 0 <= i < |ops| ==> Next(states[i], ops[i], states[i + 1])
  }

  function Positions(pos: nat, n: nat): (ps: set<nat>)
    ensures forall p :: p in ps <==> pos <= p < pos + n
  {
    if n == 0 then {} else Positions(pos, n - 1) + {pos + n - 1}
  }

  /**
  How one operation changes what is known to have been written. A write that faulted may have
  stored part of what one call reaches, so it leaves those positions unknown; a write-only open
  empties the device.
  */
  function NowWritten(s: State, op: Op, written: map<nat, byte>): map<nat, byte> {
    match op
    case Open(_, true) => map[]
    case Write(h, data, Done(k)) =>
      if h !in s.pos || k > |data| then written else
      written + map p | p in Positions(s.pos[h], k) :: data[p - s.pos[h]]
    case Write(h, data, Err(EFAULT)) =>
      if h !in s.pos || s.file.quantum == 0 then written else
      written - Positions(s.pos[h], Reach(s.file.quantum, s.pos[h], |data|))
    case _ => written
  }

  /** The last value successfully written to each position, read off the run alone. */
  function LastWritten(states: seq<State>, ops: seq<Op>): map<nat, byte>
    requires |states| == |ops| + 1
    decreases |ops|
  {
    if ops == [] then map[] else
    var n := |ops| - 1;
    NowWritten(states[n], ops[n], LastWritten(states[..n + 1], ops[..n]))
  }

  ghost predicate Remembers(f: File, written: map<nat, byte>) {
    forall p :: p in written ==> p < f.size && p in f.bytes && f.bytes[p] == written[p]
  }

  lemma WriteRemembers(s: State, op: Op, s': State, written: map<nat, byte>)
    requires Remembers(s.file, written) && Next(s, op, s') && op.Write?
    ensures Remembers(s'.file, NowWritten(s, op, written))
  {
    var pos, now := s.pos[op.h], NowWritten(s, op, written);
    var n := Reach(s.file.quantum, pos, |op.data|);
    assert KeptOutside(s.file, s'.file, pos, n);
    forall p | p in now
      ensures p < s'.file.size && p in s'.file.bytes && s'.file.bytes[p] == now[p]
    {
      if op.wrote.Done? && pos <= p < pos + n {
        assert Holds(s'.file, pos, op.data[..n]);
      } else {
        assert p in written && now[p] == written[p];
      }
    }
  }

  lemma StepRemembers(s: State, op: Op, s': State, written: map<nat, byte>)
    requires Remembers(s.file, written) && Next(s, op, s')
    ensures Remembers(s'.file, NowWritten(s, op, written))
  {
    if op.Write? {
      WriteRemembers(s, op, s', written);
    }
  }

  /** In every run the file holds the last value written to each position. */
  lemma {:induction false} FileRemembersWrites(states: seq<State>, ops: seq<Op>)
    requires IsRun(states, ops)
    ensures Remembers(states[|ops|].file, LastWritten(states, ops))
    decreases |ops|
  {
    if ops != [] {
      var n := |ops| - 1;
      assert IsRun(states[..n + 1], ops[..n]) by {
        forall i | 0 <= i < n
          ensures Next(states[..n + 1][i], ops[..n][i], states[..n + 1][i + 1])
        {
          assert Next(states[i], ops[i], states[i + 1]);
        }
      }
      FileRemembersWrites(states[..n + 1], ops[..n]);
      assert Next(states[n], ops[n], states[n + 1]);
      StepRemembers(states[n], ops[n], states[n + 1], LastWritten(states[..n + 1], ops[..n]));
    }
  }

  /**
  Whatever was opened, sought, written, trimmed or reconfigured before: a byte returned by a
  read for a position written since the last trim is the last value written there, and a read
  that starts on such a position and asks for anything returns something unless it faults.
  */
  lemma ReadsReturnLastWritten(states: seq<State>, ops: seq<Op>, op: Op, s': State)
    requires IsRun(states, ops) && op.Read? && Next(states[|ops|], op, s')
    ensures
      var written := LastWritten(states, ops);
      var pos := states[|ops|].pos[op.h];
      && (op.got.Done? ==>
            && (forall j :: 0 <= j < |op.got.value| && pos + j in written ==> op.got.value[j] == written[pos + j])
            && (pos in written && op.count > 0 ==> op.got.value != []))
      && s'.file == states[|ops|].file
  {
    FileRemembersWrites(states, ops);
  }
}
