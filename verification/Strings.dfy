/** Byte-at-a-time memory primitives. A buffer holds both ends of a move, so ranges may overlap. */
module Strings {

  type Byte = b: int | 0 <= b < 256

  /** The buffer after `count` bytes from src on have been copied, all at once, to dest on. */
  function Moved(s: seq<Byte>, dest: nat, src: nat, count: nat): (r: seq<Byte>)
    requires dest + count <= |s| && src + count <= |s|
    ensures |r| == |s|
    ensures forall k :: 0 <= k < |s| ==> r[k] == if dest <= k < dest + count then s[src + (k - dest)] else s[k]
  {
    s[..dest] + s[src..src + count] + s[dest + count..]
  }

  /** Bytes [lo, hi) are done, the others still as they were. */
  ghost predicate Copied(now: seq<Byte>, was: seq<Byte>, to: seq<Byte>, lo: nat, hi: nat) {
    && |now| == |was| == |to|
    && forall k :: 0 <= k < |now| ==> now[k] == if lo <= k < hi then to[k] else was[k]
  }

  lemma CopyUp(now: seq<Byte>, was: seq<Byte>, to: seq<Byte>, lo: nat, hi: nat, x: Byte)
    requires Copied(now, was, to, lo, hi) && lo <= hi < |now| && x == to[hi]
    ensures Copied(now[hi := x], was, to, lo, hi + 1)
  {
  }

  lemma CopyDown(now: seq<Byte>, was: seq<Byte>, to: seq<Byte>, lo: nat, hi: nat, x: Byte)
    requires Copied(now, was, to, lo, hi) && 0 < lo <= hi <= |now| && x == to[lo - 1]
    ensures Copied(now[lo - 1 := x], was, to, lo - 1, hi)
  {
  }

  lemma NothingCopied(was: seq<Byte>, to: seq<Byte>, lo: nat)
    requires |was| == |to|
    ensures Copied(was, was, to, lo, lo)
  {
  }

  lemma NotYetCopied(now: seq<Byte>, was: seq<Byte>, to: seq<Byte>, lo: nat, hi: nat, k: nat)
    requires Copied(now, was, to, lo, hi) && k < |now| && !(lo <= k < hi)
    ensures now[k] == was[k]
  {
  }

  lemma AllCopied(now: seq<Byte>, was: seq<Byte>, dest: nat, src: nat, count: nat)
    requires dest + count <= |was| && src + count <= |was|
    requires Copied(now, was, Moved(was, dest, src, count), dest, dest + count)
    ensures now == Moved(was, dest, src, count)
  {
  }

  /** Each destination byte ends up as the source byte was before the call, however the ranges overlap. */
  method MemMove(buf: array<Byte>, dest: nat, src: nat, count: nat)
    requires dest + count <= buf.Length && src + count <= buf.Length
    modifies buf
    ensures buf[..] == Moved(old(buf[..]), dest, src, count)
  {
    if dest < src {
      MoveUp(buf, dest, src, count);
    } else if dest > src {
      MoveDown(buf, dest, src, count);
    }
  }

  /** Lowest byte first, for a destination below the source. */
  method MoveUp(buf: array<Byte>, dest: nat, src: nat, count: nat)
    requires dest < src && src + count <= buf.Length
    modifies buf
    ensures buf[..] == Moved(old(buf[..]), dest, src, count)
  {
    ghost var was, to := buf[..], Moved(buf[..], dest, src, count);
    hide Copied;
    NothingCopied(was, to, dest);
    var i := 0;
    while i < count
      invariant 0 <= i <= count && Copied(buf[..], was, to, dest, dest + i)
    {
      NotYetCopied(buf[..], was, to, dest, dest + i, src + i);
      CopyUp(buf[..], was, to, dest, dest + i, buf[src + i]);
      buf[dest + i] := buf[src + i];
      i := i + 1;
    }
    AllCopied(buf[..], was, dest, src, count);
  }

  /** Highest byte first, for a destination above the source. */
  method MoveDown(buf: array<Byte>, dest: nat, src: nat, count: nat)
    requires src < dest && dest + count <= buf.Length
    modifies buf
    ensures buf[..] == Moved(old(buf[..]), dest, src, count)
  {
    ghost var was, to := buf[..], Moved(buf[..], dest, src, count);
    hide Copied;
    NothingCopied(was, to, dest + count);
    var i := count;
    while i > 0
      invariant 0 <= i <= count && Copied(buf[..], was, to, dest + i, dest + count)
    {
      NotYetCopied(buf[..], was, to, dest + i, dest + count, src + i - 1);
      CopyDown(buf[..], was, to, dest + i, dest + count, buf[src + i - 1]);
      buf[dest + i - 1] := buf[src + i - 1];
      i := i - 1;
    }
    AllCopied(buf[..], was, dest, src, count);
  }

  /** The low byte of `value` everywhere in the range, nothing else changed. */
  method MemSet(buf: array<Byte>, dest: nat, value: int, count: nat)
    requires dest + count <= buf.Length
    modifies buf
    ensures forall k :: 0 <= k < buf.Length ==> buf[k] == if dest <= k < dest + count then value % 256 else old(buf[k])
  {
    var i := 0;
    while i < count
      invariant 0 <= i <= count
      invariant forall k :: 0 <= k < buf.Length ==> buf[k] == if dest <= k < dest + i then value % 256 else old(buf[k])
    {
      buf[dest + i] := value % 256;
      i := i + 1;
    }
  }

  /** Zero when the ranges agree, otherwise the difference at the first byte where they do not. */
  method MemCmp(a: seq<Byte>, b: seq<Byte>, count: nat) returns (r: int)
    requires count <= |a| && count <= |b|
    ensures r == 0 <==> a[..count] == b[..count]
    ensures r != 0 ==> exists i :: 0 <= i < count && a[..i] == b[..i] && a[i] != b[i] && r == a[i] as int - b[i] as int
  {
    var i := 0;
    while i < count
      invariant 0 <= i <= count && a[..i] == b[..i]
    {
      if a[i] != b[i] {
        assert a[..count][i] != b[..count][i];
        return a[i] as int - b[i] as int;
      }
      i := i + 1;
    }
    return 0;
  }
}
