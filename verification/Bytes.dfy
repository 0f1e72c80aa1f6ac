/** Machine integers, byte strings and the arithmetic the other modules share. */
module Bytes {

  type byte = x: int | 0 <= x < 0x100
  type uint16 = x: int | 0 <= x < 0x1_0000
  type uint32 = x: int | 0 <= x < 0x1_0000_0000

  datatype Option<+T> = None | Some(value: T)

  function Min(a: int, b: int): int {
    if a <= b then a else b
  }

  function Max(a: int, b: int): int {
    if a >= b then a else b
  }

  /** `mem` with the bytes from `pos` on replaced by `p`. */
  function Overlay(mem: seq<byte>, pos: nat, p: seq<byte>): (r: seq<byte>)
    requires pos + |p| <= |mem|
  {
    mem[..pos] + p + mem[pos + |p|..]
  }

  lemma Associate<T>(a: seq<T>, b: seq<T>, c: seq<T>)
    ensures a + (b + c) == (a + b) + c
  {
  }

  lemma EmptyEnds<T>(s: seq<T>)
    ensures s + [] == s && [] + s == s
  {
  }

  lemma SameSnoc<T>(a: seq<T>, b: seq<T>)
    requires |a| == |b| != 0 && a[..|a| - 1] == b[..|a| - 1] && a[|a| - 1] == b[|a| - 1]
    ensures a == b
  {
    assert a == a[..|a| - 1] + [a[|a| - 1]];
    assert b == b[..|b| - 1] + [b[|b| - 1]];
  }

  /** Two conserving steps make one: what was there and what came in equals what
      went out and what is left. */
  lemma Splice<T>(was: seq<T>, in1: seq<T>, out1: seq<T>, mid: seq<T>, in2: seq<T>, out2: seq<T>, left: seq<T>)
    requires was + in1 == out1 + mid && mid + in2 == out2 + left
    ensures was + (in1 + in2) == (out1 + out2) + left
  {
    assert was + (in1 + in2) == (was + in1) + in2;
    assert (out1 + mid) + in2 == out1 + (mid + in2);
    assert out1 + (out2 + left) == (out1 + out2) + left;
  }

  /** A quotient and a remainder in range are the quotient and the remainder. */
  lemma DivModUnique(x: int, n: nat, q: int, r: int)
    requires 0 < n && x == q * n + r && 0 <= r < n
    ensures x / n == q && x % n == r
  {
    var d := x / n - q;
    assert d * n == r - x % n by {
      assert x == n * (x / n) + x % n;
    }
    MultipleOutside(d, n);
  }

  lemma MultipleOutside(d: int, n: nat)
    ensures d >= 1 ==> d * n >= n
    ensures d <= -1 ==> d * n + n <= 0
  {
    if d >= 1 {
      assert (d - 1) * n >= 0;
    } else if d <= -1 {
      assert (-1 - d) * n >= 0;
    }
  }

  /** Moving `k` steps round a circle of `n`, when that wraps at most once. */
  lemma ModStep(a: nat, k: nat, n: nat)
    requires 0 < n && a % n + k < 2 * n
    ensures (a + k) % n == if a % n + k < n then a % n + k else a % n + k - n
  {
    var q := a / n;
    assert a == q * n + a % n;
    if a % n + k < n {
      DivModUnique(a + k, n, q, a % n + k);
    } else {
      DivModUnique(a + k, n, q + 1, a % n + k - n);
    }
  }

  /** Go's `copy(dst[pos:], src)`. */
  method CopyInto(dst: array<byte>, pos: nat, src: seq<byte>) returns (n: nat)
    requires pos <= dst.Length
    modifies dst
    ensures n == Min(dst.Length - pos, |src|)
    ensures dst[..] == Overlay(old(dst[..]), pos, src[..n])
  {
    n := Min(dst.Length - pos, |src|);
    forall i | 0 <= i < n {
      dst[pos + i] := src[i];
    }
    assert dst[..] == Overlay(old(dst[..]), pos, src[..n]);
  }
}
