/** Fixed-width big-endian integers, as `encoding/binary` writes them, and the
    byte-wise order in which an ordered key-value bucket keeps its keys. */
module BigEndian {
  import opened Basics

  /** `binary.BigEndian.PutUint…`: the low `width` bytes of `n`, most significant first. */
  function Put(n: nat, width: nat): (bytes: seq<Byte>)
    ensures |bytes| == width
  {
    if width == 0 then [] else Put(n / 256, width - 1) + [n % 256]
  }

  /** `binary.BigEndian.Uint…` over a whole slice. */
  function Get(bytes: seq<Byte>): nat {
    if |bytes| == 0 then 0 else 256 * Get(bytes[..|bytes| - 1]) + bytes[|bytes| - 1]
  }

  function Pow256(width: nat): nat {
    if width == 0 then 1 else 256 * Pow256(width - 1)
  }

  lemma {:induction false} GetBounded(bytes: seq<Byte>)
    ensures Get(bytes) < Pow256(|bytes|)
  {
    if |bytes| != 0 {
      GetBounded(bytes[..|bytes| - 1]);
    }
  }

  /** Decoding undoes encoding for every value that fits the width. */
  lemma {:induction false} GetPut(n: nat, width: nat)
    requires n < Pow256(width)
    ensures Get(Put(n, width)) == n
  {
    if width != 0 {
      GetPut(n / 256, width - 1);
      assert Put(n, width)[..width - 1] == Put(n / 256, width - 1);
    }
  }

  /** Encoding undoes decoding for every byte string. */
  lemma {:induction false} PutGet(bytes: seq<Byte>)
    ensures Put(Get(bytes), |bytes|) == bytes
  {
    if |bytes| != 0 {
      PutGet(bytes[..|bytes| - 1]);
      assert Get(bytes) / 256 == Get(bytes[..|bytes| - 1]);
    }
  }

  /** `bytes.Compare(a, b) < 0`. */
  predicate Before(a: seq<Byte>, b: seq<Byte>) {
    b != [] && (a == [] || a[0] < b[0] || (a[0] == b[0] && Before(a[1..], b[1..])))
  }

  lemma {:induction false} BeforeSnoc(a: seq<Byte>, b: seq<Byte>, x: Byte, y: Byte)
    requires |a| == |b|
    ensures Before(a + [x], b + [y]) <==> Before(a, b) || (a == b && x < y)
  {
    if a == [] {
      assert (a + [x])[1..] == [] && (b + [y])[1..] == [];
    } else {
      BeforeSnoc(a[1..], b[1..], x, y);
      assert (a + [x])[1..] == a[1..] + [x] && (b + [y])[1..] == b[1..] + [y];
      assert a == b <==> a[0] == b[0] && a[1..] == b[1..] by {
        assert a == [a[0]] + a[1..] && b == [b[0]] + b[1..];
      }
    }
  }

  /** On keys of one width the bucket's byte order is the numeric order. */
  lemma {:induction false} BeforeIsLess(a: seq<Byte>, b: seq<Byte>)
    requires |a| == |b|
    ensures Before(a, b) <==> Get(a) < Get(b)
  {
    if a != [] {
      var m := |a| - 1;
      BeforeIsLess(a[..m], b[..m]);
      BeforeSnoc(a[..m], b[..m], a[m], b[m]);
      assert a == a[..m] + [a[m]] && b == b[..m] + [b[m]];
      PutGet(a[..m]);
      PutGet(b[..m]);
    }
  }

  /** The 8-byte key of a sequence number. */
  function Key(n: nat): (key: seq<Byte>) {
    Put(n, 8)
  }

  lemma Pow256Eight()
    ensures Pow256(8) == U64 && Pow256(4) == 0x1_0000_0000
  {
    assert Pow256(4) == 0x1_0000_0000;
    assert Pow256(6) == 256 * 256 * Pow256(4);
    assert Pow256(8) == 256 * 256 * Pow256(6);
  }

  /** Keys and 64-bit sequence numbers are in order-preserving one-to-one correspondence. */
  lemma KeyOrder(m: nat, n: nat)
    requires m < U64 && n < U64
    ensures Get(Key(m)) == m && Get(Key(n)) == n
    ensures Before(Key(m), Key(n)) <==> m < n
    ensures Key(m) == Key(n) <==> m == n
  {
    Pow256Eight();
    GetPut(m, 8);
    GetPut(n, 8);
    BeforeIsLess(Key(m), Key(n));
  }
}
