/** Bytes, concatenation, shuffles and the 32-bit big-endian size field. */
module Bytes {
  newtype byte = x: int | 0 <= x < 256

  const TWO32: nat := 0x1_0000_0000

  function Concat<T>(ss: seq<seq<T>>): seq<T> {
    if ss == [] then [] else ss[0] + Concat(ss[1..])
  }

  lemma {:induction false} ConcatAppend<T>(a: seq<seq<T>>, b: seq<seq<T>>)
    ensures Concat(a + b) == Concat(a) + Concat(b)
  {
    if a == [] {
      assert a + b == b;
    } else {
      assert (a + b)[1..] == a[1..] + b;
      ConcatAppend(a[1..], b);
    }
  }

  lemma ConcatSnoc<T>(a: seq<seq<T>>, x: seq<T>)
    ensures Concat(a + [x]) == Concat(a) + x
  {
    ConcatAppend(a, [x]);
    assert [x][1..] == [];
  }

  /** The four bytes Go's `binary.BigEndian.PutUint32` stores for `uint32(n)`. */
  function BigEndian32(n: nat): (b: seq<byte>)
    ensures |b| == 4
  {
    [(n / 0x100_0000 % 256) as byte, (n / 0x1_0000 % 256) as byte, (n / 256 % 256) as byte, (n % 256) as byte]
  }

  function FromBigEndian32(b: seq<byte>): (n: nat)
    requires |b| == 4
    ensures n < TWO32
  {
    b[0] as nat * 0x100_0000 + b[1] as nat * 0x1_0000 + b[2] as nat * 256 + b[3] as nat
  }

  /** The size field keeps a length exactly up to its value modulo 2^32. */
  lemma BigEndianRoundTrip(n: nat)
    ensures FromBigEndian32(BigEndian32(n)) == n % TWO32
  {
    var a, b, c := n / 256, n / 0x1_0000, n / 0x100_0000;
    assert b == a / 256 && c == b / 256;
    var q := c / 256;
    assert n == q * TWO32 + (c % 256) * 0x100_0000 + (b % 256) * 0x1_0000 + (a % 256) * 256 + n % 256;
  }

  /** The first differing byte decides, so the first byte is the most significant. */
  lemma BigEndianOrder(a: seq<byte>, b: seq<byte>, i: nat)
    requires |a| == |b| == 4 && i < 4 && a[..i] == b[..i] && a[i] < b[i]
    ensures FromBigEndian32(a) < FromBigEndian32(b)
  {
  }

  /** `r` interleaves `a` and `noise`, each kept in its own order. */
  ghost predicate Shuffle<T(!new)>(a: seq<T>, noise: seq<T>, r: seq<T>)
    decreases |r|
  {
    if r == [] then a == [] && noise == []
    else
      || (a != [] && a[0] == r[0] && Shuffle(a[1..], noise, r[1..]))
      || (noise != [] && noise[0] == r[0] && Shuffle(a, noise[1..], r[1..]))
  }

  lemma {:induction false} ShuffleSelf<T(!new)>(a: seq<T>)
    ensures Shuffle(a, [], a)
    decreases |a|
  {
    if a != [] { ShuffleSelf(a[1..]); }
  }

  /** A shuffle loses nothing and invents nothing beyond `noise`. */
  lemma {:induction false} ShuffleContents<T(!new)>(a: seq<T>, noise: seq<T>, r: seq<T>)
    requires Shuffle(a, noise, r)
    ensures |r| == |a| + |noise|
    ensures multiset(r) == multiset(a) + multiset(noise)
    decreases |r|
  {
    if r != [] {
      assert r == [r[0]] + r[1..];
      if a != [] && a[0] == r[0] && Shuffle(a[1..], noise, r[1..]) {
        ShuffleContents(a[1..], noise, r[1..]);
        assert a == [a[0]] + a[1..];
      } else {
        ShuffleContents(a, noise[1..], r[1..]);
        assert noise == [noise[0]] + noise[1..];
      }
    }
  }

  /** Shuffles may be laid end to end. */
  lemma {:induction false} ShuffleAppend<T(!new)>(a: seq<T>, m: seq<T>, r: seq<T>, b: seq<T>, n: seq<T>, s: seq<T>)
    requires Shuffle(a, m, r) && Shuffle(b, n, s)
    ensures Shuffle(a + b, m + n, r + s)
    decreases |r|
  {
    if r == [] {
      assert a + b == b && m + n == n && r + s == s;
    } else {
      assert (r + s)[1..] == r[1..] + s && (r + s)[0] == r[0];
      if a != [] && a[0] == r[0] && Shuffle(a[1..], m, r[1..]) {
        ShuffleAppend(a[1..], m, r[1..], b, n, s);
        assert (a + b)[1..] == a[1..] + b && (a + b)[0] == r[0];
      } else {
        ShuffleAppend(a, m[1..], r[1..], b, n, s);
        assert (m + n)[1..] == m[1..] + n && (m + n)[0] == r[0];
      }
    }
  }

  /** Inserting one element anywhere in a shuffle yields a shuffle with one more noise element. */
  lemma {:induction false} ShuffleInsert<T(!new)>(a: seq<T>, noise: seq<T>, r: seq<T>, at: nat, x: T)
    returns (more: seq<T>)
    requires Shuffle(a, noise, r) && at <= |r|
    ensures Shuffle(a, more, r[..at] + [x] + r[at..])
    ensures |more| == |noise| + 1
    ensures forall y :: y in more ==> y == x || y in noise
    decreases |r|
  {
    var s := r[..at] + [x] + r[at..];
    if at == 0 {
      more := [x] + noise;
      assert s[1..] == r && more[1..] == noise;
    } else {
      assert s[0] == r[0];
      assert s[1..] == r[1..][..at - 1] + [x] + r[1..][at - 1..];
      if a != [] && a[0] == r[0] && Shuffle(a[1..], noise, r[1..]) {
        more := ShuffleInsert(a[1..], noise, r[1..], at - 1, x);
      } else {
        var m := ShuffleInsert(a, noise[1..], r[1..], at - 1, x);
        more := [noise[0]] + m;
        assert more[1..] == m;
      }
    }
  }
}
