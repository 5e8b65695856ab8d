/** In-place moves of a sample vector: SigProcVector::copySlice and reset
    (transceiver/sigproc.h), and the timing compensation of a received burst built on them
    (TransceiverQMF::processRadioBurst in transceiver/transceiver.cpp). */
module SampleVector {
  import opened Signal

  function Available(len: nat, offs: nat): nat {
    if offs < len then len - offs else 0
  }

  function Min(a: nat, b: nat): nat {
    if a <= b then a else b
  }

  /** s with n elements moved from `from` to `to`, all of them read before any is written. */
  function Moved<T>(s: seq<T>, from: nat, to: nat, n: nat): (r: seq<T>)
    requires from + n <= |s| && to + n <= |s|
    ensures |r| == |s|
  {
    s[..to] + s[from..from + n] + s[to + n..]
  }

  /** copy(): forward, for ranges that do not overlap. */
  method CopyForward<T>(a: array<T>, from: nat, to: nat, n: nat)
    requires from + n <= a.Length && to + n <= a.Length
    requires to <= from || from + n <= to
    modifies a
    ensures a[..] == Moved(old(a[..]), from, to, n)
  {
    ghost var s := a[..];
    for k := 0 to n
      invariant forall i :: to <= i < to + k ==> a[i] == s[from + i - to]
      invariant forall i :: 0 <= i < a.Length && !(to <= i < to + k) ==> a[i] == s[i]
    {
      a[to + k] := a[from + k];
    }
    MovedIs(s, a[..], from, to, n);
  }

  lemma MovedIs<T>(s: seq<T>, r: seq<T>, from: nat, to: nat, n: nat)
    requires from + n <= |s| && to + n <= |s| && |r| == |s|
    requires forall i :: to <= i < to + n ==> r[i] == s[from + i - to]
    requires forall i :: 0 <= i < |s| && !(to <= i < to + n) ==> r[i] == s[i]
    ensures r == Moved(s, from, to, n)
  {
  }

  method CopyBackward<T>(a: array<T>, from: nat, to: nat, n: nat)
    requires from + n <= a.Length && to + n <= a.Length && from <= to
    modifies a
    ensures a[..] == Moved(old(a[..]), from, to, n)
  {
    ghost var s := a[..];
    var k := n;
    while k > 0
      invariant 0 <= k <= n
      invariant forall i :: to + k <= i < to + n ==> a[i] == s[from + i - to]
      invariant forall i :: 0 <= i < a.Length && !(to + k <= i < to + n) ==> a[i] == s[i]
    {
      k := k - 1;
      a[to + k] := a[from + k];
    }
    MovedIs(s, a[..], from, to, n);
  }

  /** copySlice: for every overlap of source and destination the destination receives the old
      source and nothing else changes. */
  method CopySlice<T>(a: array<T>, fromOffs: nat, toOffs: nat, len: nat) returns (n: nat)
    modifies a
    ensures n == Min(len, Min(Available(a.Length, fromOffs), Available(a.Length, toOffs)))
    ensures n == 0 ==> a[..] == old(a[..])
    ensures n > 0 ==> fromOffs + n <= a.Length && toOffs + n <= a.Length
    ensures n > 0 ==> a[..] == Moved(old(a[..]), fromOffs, toOffs, n)
  {
    n := Min(len, Min(Available(a.Length, fromOffs), Available(a.Length, toOffs)));
    if n == 0 {
      return;
    }
    // Source and destination don't overlap: just copy data
    if fromOffs < toOffs {
      if fromOffs + n < toOffs {
        CopyForward(a, fromOffs, toOffs, n);
        return;
      }
    } else if toOffs + n < fromOffs {
      CopyForward(a, fromOffs, toOffs, n);
      return;
    }
    // Data overlap: use element copy
    if toOffs < fromOffs {
      CopyForward(a, fromOffs, toOffs, n);
    } else {
      CopyBackward(a, fromOffs, toOffs, n);
    }
  }

  /** reset(offs,n): a negative n means up to the end. */
  method Reset(a: array<Complex>, offs: nat, n: int)
    modifies a
    ensures forall i :: 0 <= i < a.Length ==>
      a[i] == if i >= offs && (n < 0 || i < offs + n) then ZERO else old(a[i])
  {
    var room := Available(a.Length, offs);
    var count := if n >= 0 then Min(room, n) else room;
    for k := 0 to count
      invariant forall i :: 0 <= i < a.Length ==> a[i] == if offs <= i < offs + k then ZERO else old(a[i])
    {
      a[offs + k] := ZERO;
    }
  }

  /** The burst shifted by toa samples, zeros moving in. */
  function Shifted(s: seq<Complex>, toa: int): (r: seq<Complex>)
    ensures |r| == |s|
    ensures forall i :: 0 <= i < |s| ==> r[i] == if 0 <= i + toa < |s| then s[i + toa] else ZERO
  {
    seq(|s|, i => if 0 <= i + toa < |s| then s[i + toa] else ZERO)
  }

  /** Timing compensation, for every error up to the burst length. */
  method Compensate(a: array<Complex>, toaError: int)
    requires -a.Length <= toaError <= a.Length
    modifies a
    ensures a[..] == Shifted(old(a[..]), toaError)
  {
    hide Moved, Shifted;
    ghost var s, moved := a[..], a[..];
    if toaError != 0 {
      if toaError < 0 {
        var _ := CopySlice(a, 0, -toaError, a.Length + toaError);
        moved := a[..];
        Reset(a, 0, -toaError);
      } else {
        var n := a.Length - toaError;
        var _ := CopySlice(a, toaError, 0, n);
        moved := a[..];
        Reset(a, n, -1);
      }
    }
    MovedAndReset(s, moved, a[..], toaError);
  }

  /** Moving the samples and clearing what they left is the shift. */
  lemma MovedAndReset(s: seq<Complex>, moved: seq<Complex>, r: seq<Complex>, toa: int)
    requires -|s| <= toa <= |s| && |moved| == |r| == |s| && (toa == 0 ==> r == s)
    requires toa < 0 && |s| + toa > 0 ==> moved == Moved(s, 0, -toa, |s| + toa)
    requires toa > 0 && |s| - toa > 0 ==> moved == Moved(s, toa, 0, |s| - toa)
    requires toa < 0 ==> forall i :: 0 <= i < |s| ==> r[i] == if i < -toa then ZERO else moved[i]
    requires toa > 0 ==> forall i :: 0 <= i < |s| ==> r[i] == if i >= |s| - toa then ZERO else moved[i]
    ensures r == Shifted(s, toa)
  {
    hide Moved;
    MoveThenReset(s, moved, toa);
  }

  /** What the move leaves before the samples that moved in are cleared. */
  lemma MoveThenReset(s: seq<Complex>, r: seq<Complex>, toa: int)
    requires -|s| <= toa <= |s| && |r| == |s|
    requires toa < 0 && |s| + toa > 0 ==> r == Moved(s, 0, -toa, |s| + toa)
    requires toa > 0 && |s| - toa > 0 ==> r == Moved(s, toa, 0, |s| - toa)
    ensures forall i :: 0 <= i < |s| && 0 <= i + toa < |s| && toa != 0 ==> r[i] == s[i + toa]
  {
  }

  /** Compensating twice in opposite directions restores what never left the burst. */
  lemma ShiftBack(s: seq<Complex>, toa: int, i: int)
    requires 0 <= i < |s|
    ensures Shifted(Shifted(s, toa), -toa)[i] == if 0 <= i - toa < |s| then s[i] else ZERO
  {
  }
}
