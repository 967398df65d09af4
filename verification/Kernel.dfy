/** Types shared by the models of the drivers. */
module Kernel {

  newtype byte = x: int | 0 <= x < 256

  datatype Option<+T> = None | Some(value: T)

  /** The error returns the drivers use (each is a negative errno in the source). */
  datatype Errno = EAGAIN | EBUSY | EFAULT | EINVAL | ENODEV | ENOMEM

  /** What a read, write or similar call returns: a byte count or an errno. */
  datatype Result<+T> = Done(value: T) | Err(error: Errno)

  function Min(a: nat, b: nat): nat {
    if a <= b then a else b
  }

  function Max(a: nat, b: nat): nat {
    if a <= b then b else a
  }

  /** `b` with `data` stored from offset `at` on. */
  function Overlay(b: seq<byte>, at: nat, data: seq<byte>): (r: seq<byte>)
    requires at + |data| <= |b|
    ensures |r| == |b|
    ensures forall i :: 0 <= i < |b| ==> r[i] == if at <= i < at + |data| then data[i - at] else b[i]
  {
    b[..at] + data + b[at + |data|..]
  }

  /** memcpy into a buffer. */
  method CopyInto(dst: array<byte>, at: nat, data: seq<byte>)
    requires at + |data| <= dst.Length
    modifies dst
    ensures dst[..] == Overlay(old(dst[..]), at, data)
  {
    for i := 0 to |data|
      invariant forall j :: 0 <= j < i ==> dst[at + j] == data[j]
      invariant forall j :: 0 <= j < at || at + i <= j < dst.Length ==> dst[j] == old(dst[j])
    {
      dst[at + i] := data[i];
    }
  }
}

/** The few facts about multiplication and division that addressing needs. */
module Arithmetic {

  lemma {:induction false} MulBound(a: nat, b: nat, c: nat)
    requires a < b
    ensures a * c + c <= b * c
  {
    assert b * c == (b - 1) * c + c;
    if a < b - 1 {
      MulBound(a, b - 1, c);
    }
  }

  lemma Distribute(a: nat, b: nat, c: nat, d: nat)
    ensures (a * b + c) * d == a * (d * b) + c * d
  {
    assert (a * b) * d == a * (d * b);
  }

  /** Quotient and remainder are unique. */
  lemma DivModUnique(d: nat, q: nat, r: nat)
    requires r < d
    ensures (q * d + r) / d == q && (q * d + r) % d == r
  {
    var x := q * d + r;
    var q' := x / d;
    assert x == d * q' + x % d;
    assert d * q' == q' * d;
    if q' < q {
      MulBound(q', q, d);
    } else if q < q' {
      MulBound(q, q', d);
    }
  }

  lemma DivMonotone(a: nat, b: nat, d: nat)
    requires a <= b && d > 0
    ensures a / d <= b / d
  {
    assert a == d * (a / d) + a % d && b == d * (b / d) + b % d;
    if b / d < a / d {
      MulBound(b / d, a / d, d);
    }
  }

  /** Splitting off the part up to the next multiple of `d`. */
  lemma NextMultiple(d: nat, x: nat)
    requires d > 0
    ensures
      var rest := x % d;
      var next := x - rest + d;
      && next % d == 0 && next / d == x / d + 1
      && forall y :: x <= y < next ==> y / d == x / d
  {
    var q, rest := x / d, x % d;
    assert x == q * d + rest;
    var next := x - rest + d;
    assert next == (q + 1) * d + 0;
    DivModUnique(d, q + 1, 0);
    forall y | x <= y < next
      ensures y / d == x / d
    {
      DivModUnique(d, q, y - q * d);
    }
  }
}
