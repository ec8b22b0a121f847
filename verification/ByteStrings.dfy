/** Byte strings, their lexicographic order (the order Python compares `bytes` by) and
    the big-endian fixed-width integers both file formats are built from. */
module ByteStrings {
  type byte = x: int | 0 <= x < 256
  type Bytes = seq<byte>

  /** Strict lexicographic order: a proper prefix is smaller. */
  predicate Lt(a: Bytes, b: Bytes)
    decreases |a|
  {
    b != [] && (a == [] || a[0] < b[0] || (a[0] == b[0] && Lt(a[1..], b[1..])))
  }

  predicate Le(a: Bytes, b: Bytes) {
    a == b || Lt(a, b)
  }

  lemma {:induction false} LtTrichotomy(a: Bytes, b: Bytes)
    ensures Lt(a, b) || a == b || Lt(b, a)
    ensures Lt(a, b) ==> !Lt(b, a) && a != b
    decreases |a|
  {
    if a != [] && b != [] && a[0] == b[0] {
      LtTrichotomy(a[1..], b[1..]);
      assert a == [a[0]] + a[1..] && b == [b[0]] + b[1..];
    }
  }

  lemma {:induction false} LtTransitive(a: Bytes, b: Bytes, c: Bytes)
    requires Lt(a, b) && Lt(b, c)
    ensures Lt(a, c)
    decreases |a|
  {
    if a != [] && a[0] == b[0] == c[0] {
      LtTransitive(a[1..], b[1..], c[1..]);
    }
  }

  /** The order is decided at the first byte that differs, or by length if there is none. */
  lemma {:induction false} LtAtFirstDifference(a: Bytes, b: Bytes)
    ensures Lt(a, b) <==> exists n :: 0 <= n <= |a| && n < |b| && a[..n] == b[..n] && (n == |a| || a[n] < b[n])
    decreases |a|
  {
    if a == [] || b == [] || a[0] != b[0] {
      if Lt(a, b) {
        assert a[..0] == b[..0];
      } else {
        forall n | 0 < n <= |a| && n < |b| ensures a[..n] != b[..n] {
          assert a[..n][0] == a[0] && b[..n][0] == b[0];
        }
      }
    } else {
      LtAtFirstDifference(a[1..], b[1..]);
      if Lt(a, b) {
        var n :| 0 <= n <= |a[1..]| && n < |b[1..]| && a[1..][..n] == b[1..][..n] && (n == |a[1..]| || a[1..][n] < b[1..][n]);
        assert a[..n + 1] == [a[0]] + a[1..][..n] && b[..n + 1] == [b[0]] + b[1..][..n];
        assert n + 1 == |a| || a[n + 1] < b[n + 1];
      }
      forall n | 0 <= n <= |a| && n < |b| && a[..n] == b[..n] && (n == |a| || a[n] < b[n]) ensures Lt(a, b) {
        assert n > 0 && a[1..][..n - 1] == a[..n][1..] && b[1..][..n - 1] == b[..n][1..];
        assert n - 1 == |a[1..]| || a[1..][n - 1] < b[1..][n - 1];
      }
    }
  }

  /** `Lt` is a strict total order, in the form the other modules quote. */
  lemma LtIsTotalOrder()
    ensures forall a, b :: Lt(a, b) ==> !Lt(b, a) && a != b
    ensures forall a, b {:trigger Lt(a, b)} :: Lt(a, b) || a == b || Lt(b, a)
    ensures forall a, b, c {:trigger Lt(a, b), Lt(b, c)} :: Lt(a, b) && Lt(b, c) ==> Lt(a, c)
  {
    forall a: Bytes, b: Bytes
      ensures Lt(a, b) ==> !Lt(b, a) && a != b
      ensures Lt(a, b) || a == b || Lt(b, a)
    {
      LtTrichotomy(a, b);
    }
    forall a: Bytes, b: Bytes, c: Bytes | Lt(a, b) && Lt(b, c)
      ensures Lt(a, c)
    {
      LtTransitive(a, b, c);
    }
  }

  /** The key sequence of a sorted run: strictly increasing. */
  ghost predicate StrictlySorted(ks: seq<Bytes>) {
    forall i, j :: 0 <= i < j < |ks| ==> Lt(ks[i], ks[j])
  }

  lemma {:induction false} LeastExists(s: set<Bytes>) returns (m: Bytes)
    requires s != {}
    ensures m in s && forall k :: k in s ==> Le(m, k)
  {
    hide Lt;
    var first :| first in s;
    m := first;
    var rest := s - {first};
    assert s == rest + {first};
    if rest != {} {
      var n := LeastExists(rest);
      LtIsTotalOrder();
      m := if Lt(n, first) then n else first;
    }
  }

  lemma SomeLeast(s: set<Bytes>)
    requires s != {}
    ensures exists m :: m in s && forall k :: k in s ==> Le(m, k)
  {
    hide Le;
    var m := LeastExists(s);
  }

  function Least(s: set<Bytes>): (m: Bytes)
    requires s != {}
    ensures m in s && forall k :: k in s ==> Le(m, k)
  {
    SomeLeast(s);
    LtIsTotalOrder();
    var m :| m in s && forall k :: k in s ==> Le(m, k);
    m
  }

  /** `sorted(s)`: the elements in increasing order, each once. */
  function SortedKeys(s: set<Bytes>): (ks: seq<Bytes>)
    ensures StrictlySorted(ks)
    ensures forall k :: k in ks <==> k in s
    ensures |ks| == |s|
  {
    if s == {} then []
    else
      var m := Least(s);
      LtIsTotalOrder();
      [m] + SortedKeys(s - {m})
  }

  /** A set has only one sorted listing. */
  lemma {:induction false} SortedListingUnique(xs: seq<Bytes>, ys: seq<Bytes>)
    requires StrictlySorted(xs) && StrictlySorted(ys)
    requires forall k :: k in xs <==> k in ys
    ensures xs == ys
    decreases |xs|
  {
    assert |ys| > 0 ==> ys[0] in ys && ys[0] in xs;
    if xs != [] {
      LtIsTotalOrder();
      assert xs[0] in ys;
      assert ys[0] in xs;
      assert xs[0] == ys[0];
      forall k ensures k in xs[1..] <==> k in ys[1..] {
        assert k in xs <==> k == xs[0] || k in xs[1..];
        assert k in ys <==> k == ys[0] || k in ys[1..];
        if k == xs[0] {
          assert k !in xs[1..] && k !in ys[1..];
        }
      }
      SortedListingUnique(xs[1..], ys[1..]);
      assert xs == [xs[0]] + xs[1..] && ys == [ys[0]] + ys[1..];
    }
  }

  /* ---------------------------------------------- big-endian integers */

  function Pow256(width: nat): (p: nat)
    ensures p > 0
  {
    if width == 0 then 1 else 256 * Pow256(width - 1)
  }

  const U32: nat := 0x1_0000_0000
  const U64: nat := 0x1_0000_0000_0000_0000

  type u32 = x: int | 0 <= x < U32

  lemma Pow256Values()
    ensures Pow256(4) == U32 && Pow256(8) == U64
  {
    assert Pow256(4) == 256 * Pow256(3) && Pow256(3) == 256 * Pow256(2);
    assert Pow256(2) == 256 * Pow256(1) && Pow256(1) == 256;
    assert Pow256(8) == 256 * Pow256(7) && Pow256(7) == 256 * Pow256(6);
    assert Pow256(6) == 256 * Pow256(5) && Pow256(5) == 256 * Pow256(4);
  }

  /** `struct.pack` of an unsigned big-endian integer of `width` bytes. */
  function BigEndian(n: nat, width: nat): (s: Bytes)
    ensures |s| == width
    decreases width
  {
    if width == 0 then [] else BigEndian(n / 256, width - 1) + [n % 256]
  }

  /** `struct.unpack` of the same. */
  function FromBigEndian(s: Bytes): (n: nat)
    ensures n < Pow256(|s|)
    decreases |s|
  {
    if s == [] then 0 else 256 * FromBigEndian(s[..|s| - 1]) + s[|s| - 1]
  }

  lemma {:induction false} BigEndianRoundTrip(n: nat, width: nat)
    requires n < Pow256(width)
    ensures FromBigEndian(BigEndian(n, width)) == n
    decreases width
  {
    if width > 0 {
      BigEndianRoundTrip(n / 256, width - 1);
      var s := BigEndian(n, width);
      assert s[..|s| - 1] == BigEndian(n / 256, width - 1);
    }
  }

  /** The first byte is the most significant one. */
  lemma {:induction false} MostSignificantFirst(s: Bytes)
    requires s != []
    ensures FromBigEndian(s) == s[0] * Pow256(|s| - 1) + FromBigEndian(s[1..])
    decreases |s|
  {
    if |s| > 1 {
      var front, n := s[..|s| - 1], |s| - 1;
      MostSignificantFirst(front);
      assert s[1..][..n - 1] == front[1..];
      assert FromBigEndian(s[1..]) == 256 * FromBigEndian(front[1..]) + s[n];
      ShiftByte(s[0], Pow256(n - 1), FromBigEndian(front[1..]));
    }
  }

  lemma ShiftByte(b: int, p: int, low: int)
    ensures 256 * (b * p + low) == b * (256 * p) + 256 * low
  {
  }

  /** `>I` */
  function Be32(n: nat): (s: Bytes)
    ensures |s| == 4
  {
    BigEndian(n, 4)
  }

  /** `>Q` */
  function Be64(n: nat): (s: Bytes)
    ensures |s| == 8
  {
    BigEndian(n, 8)
  }

  lemma Be32RoundTrip(n: nat)
    requires n < U32
    ensures FromBigEndian(Be32(n)) == n
  {
    Pow256Values();
    BigEndianRoundTrip(n, 4);
  }

  lemma Be64RoundTrip(n: nat)
    requires n < U64
    ensures FromBigEndian(Be64(n)) == n
  {
    Pow256Values();
    BigEndianRoundTrip(n, 8);
  }

  /** `f.read(n)` at position `pos`: what is there, possibly fewer than `n` bytes. */
  function ReadUpTo(file: Bytes, pos: nat, n: nat): (s: Bytes)
    ensures |s| <= n
  {
    if pos >= |file| then []
    else if pos + n <= |file| then file[pos..pos + n]
    else file[pos..]
  }

  /** The encodings of a list of values, back to back. */
  function Flat<T>(encode: T -> Bytes, xs: seq<T>): Bytes {
    if xs == [] then [] else encode(xs[0]) + Flat(encode, xs[1..])
  }

  lemma {:induction false} FlatConcat<T>(encode: T -> Bytes, a: seq<T>, b: seq<T>)
    ensures Flat(encode, a + b) == Flat(encode, a) + Flat(encode, b)
    decreases |a|
  {
    if a == [] {
      assert a + b == b;
    } else {
      FlatConcat(encode, a[1..], b);
      assert (a + b)[1..] == a[1..] + b;
    }
  }

  lemma FlatSnoc<T>(encode: T -> Bytes, a: seq<T>, x: T)
    ensures Flat(encode, a + [x]) == Flat(encode, a) + encode(x)
  {
    FlatConcat(encode, a, [x]);
    assert Flat(encode, [x]) == encode(x);
  }

  /** Element `i` lies behind everything before it. */
  lemma FlatAt<T>(encode: T -> Bytes, xs: seq<T>, i: nat)
    requires i < |xs|
    ensures Flat(encode, xs) == Flat(encode, xs[..i]) + encode(xs[i]) + Flat(encode, xs[i + 1..])
  {
    assert xs == xs[..i] + xs[i..];
    FlatConcat(encode, xs[..i], xs[i..]);
  }
}
