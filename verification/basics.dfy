/** Types shared by every module of the model. */
module Basics {
  type byte = b: int | 0 <= b < 0x100
  type Bytes = seq<byte>

  datatype Option<+T> = None | Some(value: T)

  datatype Result<+T, +E> = Ok(value: T) | Err(error: E)

  /** Little-endian 16-bit and 32-bit reads, as `binary.LittleEndian` does them. */
  function Le16(s: Bytes): (r: nat)
    requires |s| == 2
    ensures r < 0x1_0000
  {
    s[0] as int + 0x100 * (s[1] as int)
  }

  function Le32(s: Bytes): (r: nat)
    requires |s| == 4
    ensures r < 0x1_0000_0000
  {
    s[0] as int + 0x100 * (s[1] as int) + 0x1_0000 * (s[2] as int) + 0x100_0000 * (s[3] as int)
  }

  function PutLe16(n: nat): (s: Bytes)
    requires n < 0x1_0000
    ensures |s| == 2 && Le16(s) == n
  {
    [n % 0x100, n / 0x100]
  }

  function PutLe32(n: nat): (s: Bytes)
    requires n < 0x1_0000_0000
    ensures |s| == 4 && Le32(s) == n
  {
    var a := n / 0x100;
    var b := a / 0x100;
    [n % 0x100, a % 0x100, b % 0x100, b / 0x100]
  }

  function Min(a: int, b: int): int {
    if a <= b then a else b
  }

  function Max(a: int, b: int): int {
    if a <= b then b else a
  }

  /** The concatenation of a list of chunks. */
  function Flatten<T>(chunks: seq<seq<T>>): seq<T> {
    if chunks == [] then [] else chunks[0] + Flatten(chunks[1..])
  }

  lemma {:induction false} FlattenSnoc<T>(chunks: seq<seq<T>>, last: seq<T>)
    ensures Flatten(chunks + [last]) == Flatten(chunks) + last
  {
    if chunks == [] {
      assert chunks + [last] == [last];
      assert Flatten([last]) == last + Flatten<T>([]);
    } else {
      assert (chunks + [last])[1..] == chunks[1..] + [last];
      FlattenSnoc(chunks[1..], last);
    }
  }

  ghost function Elements<T>(s: seq<T>): set<T> {
    set x | x in s
  }

  function Map<A, B>(f: A -> B, s: seq<A>): (r: seq<B>)
    ensures |r| == |s|
    ensures forall i :: 0 <= i < |s| ==> r[i] == f(s[i])
  {
    seq(|s|, i requires 0 <= i < |s| => f(s[i]))
  }

  lemma MapConcat<A, B>(f: A -> B, s: seq<A>, t: seq<A>)
    ensures Map(f, s + t) == Map(f, s) + Map(f, t)
  {
  }

  // ----- Rearrangements -----

  lemma SameElements<T>(a: seq<T>, b: seq<T>)
    requires multiset(a) == multiset(b)
    ensures forall x :: x in a <==> x in b
    ensures |a| == |b|
  {
    assert forall x :: x in a <==> x in multiset(a);
    assert forall x :: x in b <==> x in multiset(b);
    assert |multiset(a)| == |a| && |multiset(b)| == |b|;
  }

  /** The last element of one arrangement can be taken out of the other. */
  lemma Peel<T>(front: seq<T>, x: T, b: seq<T>) returns (left: seq<T>, right: seq<T>)
    requires multiset(front + [x]) == multiset(b)
    ensures b == left + [x] + right
    ensures multiset(front) == multiset(left + right)
  {
    SameElements(front + [x], b);
    assert (front + [x])[|front|] == x;
    assert x in b;
    var i :| 0 <= i < |b| && b[i] == x;
    left, right := b[..i], b[i + 1..];
    assert b == left + [x] + right;
    assert multiset(b) == multiset(left) + multiset{x} + multiset(right);
    assert multiset(front + [x]) == multiset(front) + multiset{x};
    assert multiset(front) == multiset(b) - multiset{x};
    assert multiset(left + right) == multiset(b) - multiset{x};
  }

  lemma {:induction false} MapRearranged<A, B>(f: A -> B, a: seq<A>, b: seq<A>)
    requires multiset(a) == multiset(b)
    ensures multiset(Map(f, a)) == multiset(Map(f, b))
    decreases |a|
  {
    if a == [] {
      SameElements(a, b);
    } else {
      var front, x := a[..|a| - 1], a[|a| - 1];
      assert a == front + [x];
      var left, right := Peel(front, x, b);
      MapRearranged(f, front, left + right);
      MapConcat(f, front, [x]);
      MapConcat(f, left, [x]);
      MapConcat(f, left + [x], right);
      MapConcat(f, left, right);
      assert Map(f, [x]) == [f(x)];
    }
  }
}
