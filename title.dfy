/**
 * libamiibo's Title: a view over the 8-byte title id of an amiibo's
 * application data, stored as an ArraySegment (array, offset, count).
 */
module AmiiboTitle {
  import opened Common

  // Title's bytes are integers rather than the bv8 `byte` of Common: the
  // code here does arithmetic on them (byte order, 64-bit values), which the
  // solver handles on `int` and not on bit-vectors; no byte here is XORed.

  /** `ArraySegment<byte>`: a window of `count` bytes starting at `offset`. */
  datatype ArraySegment = ArraySegment(bytes: seq<uint8>, offset: nat, count: nat) {
    ghost predicate Valid() { offset + count <= |bytes| }
  }

  /** A segment the ArraySegment constructor would accept. */
  type Segment = s: ArraySegment | s.Valid() witness ArraySegment([], 0, 0)

  datatype Title = Title(data: Segment)

  // ----- Byte order -----

  /** The value of bytes read most significant first. */
  function BigEndianValue(b: seq<uint8>): (v: nat)
    decreases |b|
  {
    if b == [] then 0 else BigEndianValue(b[..|b| - 1]) * 256 + b[|b| - 1]
  }

  /** The value of bytes read least significant first. */
  function LittleEndianValue(b: seq<uint8>): (v: nat)
    decreases |b|
  {
    if b == [] then 0 else b[0] + 256 * LittleEndianValue(b[1..])
  }

  /** The `n` low bytes of `v` in two's complement, most significant first: byte i is `(v >> 8*(n-1-i)) & 0xFF`. */
  function BigEndianBytes(v: int, n: nat): (b: seq<uint8>)
    ensures |b| == n
    decreases n
  {
    if n == 0 then [] else BigEndianBytes(v / 256, n - 1) + [v % 256]
  }

  /** The `n` low bytes of `v` in two's complement, least significant first. */
  function LittleEndianBytes(v: int, n: nat): (b: seq<uint8>)
    ensures |b| == n
    decreases n
  {
    if n == 0 then [] else [v % 256] + LittleEndianBytes(v / 256, n - 1)
  }

  /** `BitConverter.GetBytes(long)`: the 8 bytes in host order. */
  function HostBytes64(v: int64, hostLittleEndian: bool): (b: seq<uint8>)
    ensures |b| == 8
  {
    if hostLittleEndian then LittleEndianBytes(v, 8) else BigEndianBytes(v, 8)
  }

  /** `BitConverter.ToUInt32(b, 0)`: four bytes read in host order. */
  function HostUInt32(b: seq<uint8>, hostLittleEndian: bool): (v: nat)
    requires |b| == 4
  {
    if hostLittleEndian then LittleEndianValue(b) else BigEndianValue(b)
  }

  /** `if (BitConverter.IsLittleEndian) Array.Reverse(b)`. */
  function ReverseOnLittleEndian<T>(b: seq<T>, hostLittleEndian: bool): (r: seq<T>)
    ensures |r| == |b|
  {
    if hostLittleEndian then Reverse(b) else b
  }

  // ----- The Title members -----

  /** `FromTitleID(byte[])`: a segment over the whole array. */
  function FromTitleIdBytes(data: seq<uint8>): (t: Title)
    ensures t.data.bytes == data && t.data.offset == 0 && t.data.count == |data|
  {
    Title(ArraySegment(data, 0, |data|))
  }

  /** `FromTitleID(ArraySegment<byte>)`: the segment as it is. */
  function FromTitleIdSegment(data: Segment): (t: Title)
    ensures t.data == data
  {
    Title(data)
  }

  /** `FromTitleID(long)`: the host bytes of the value, reversed on a little-endian host. */
  function FromTitleIdLong(v: int64, hostLittleEndian: bool): (t: Title)
    ensures |t.data.bytes| == 8 && t.data.offset == 0 && t.data.count == 8
  {
    FromTitleIdBytes(ReverseOnLittleEndian(HostBytes64(v, hostLittleEndian), hostLittleEndian))
  }

  /**
   * `UniqueID`: bytes 4..6 of the segment copied into bytes 1..3 of a zeroed
   * 4-byte buffer, which is reversed on a little-endian host and read in
   * host order. Array.Copy addresses the underlying array from the segment's
   * offset and checks only the array's bounds; None is its exception.
   */
  function UniqueId(t: Title, hostLittleEndian: bool): (r: Option<uint32>)
    ensures t.data.offset + 7 > |t.data.bytes| ==> r.None?
  {
    var s := t.data;
    if s.offset + 7 > |s.bytes| then None
    else
      var buffer := [0, s.bytes[s.offset + 4], s.bytes[s.offset + 5], s.bytes[s.offset + 6]];
      var v := HostUInt32(ReverseOnLittleEndian(buffer, hostLittleEndian), hostLittleEndian);
      if v < 0x1_0000_0000 then Some(v) else None
  }

  /** `Variation`: the byte at index 7 through the segment's list indexer; None is its exception. */
  function Variation(t: Title): (r: Option<uint8>)
    ensures r.Some? <==> 7 < t.data.count
    ensures r.Some? ==> r.value == t.data.bytes[t.data.offset + 7]
  {
    if 7 < t.data.count then Some(t.data.bytes[t.data.offset + 7]) else None
  }

  /** The `width` bytes at `position` of the segment, addressed in the underlying array. */
  function Window(t: Title, position: nat, width: nat): (r: Option<seq<uint8>>)
    ensures r.Some? ==> |r.value| == width
  {
    var start := t.data.offset + position;
    if start + width <= |t.data.bytes| then Some(t.data.bytes[start..start + width]) else None
  }

  /** `Platform`: the 16-bit word at 0x00, decoded by a byte-order helper outside this model. */
  function Platform(t: Title, uint16FromTag: seq<uint8> -> uint16): (r: Option<uint16>)
    ensures r.Some? <==> t.data.offset + 2 <= |t.data.bytes|
    ensures r.Some? ==> r.value == uint16FromTag(t.data.bytes[t.data.offset..t.data.offset + 2])
  {
    match Window(t, 0x00, 2)
    case Some(b) => Some(uint16FromTag(b))
    case None => None
  }

  /** `Category`: the 16-bit word at 0x02. */
  function Category(t: Title, uint16FromTag: seq<uint8> -> uint16): (r: Option<uint16>)
    ensures r.Some? <==> t.data.offset + 4 <= |t.data.bytes|
    ensures r.Some? ==> r.value == uint16FromTag(t.data.bytes[t.data.offset + 2..t.data.offset + 4])
  {
    match Window(t, 0x02, 2)
    case Some(b) => Some(uint16FromTag(b))
    case None => None
  }

  /** `TitleID`: the 64-bit word at 0x00. */
  function TitleId(t: Title, uint64FromTag: seq<uint8> -> uint64): (r: Option<uint64>)
    ensures r.Some? <==> t.data.offset + 8 <= |t.data.bytes|
    ensures r.Some? ==> r.value == uint64FromTag(t.data.bytes[t.data.offset..t.data.offset + 8])
  {
    match Window(t, 0x00, 8)
    case Some(b) => Some(uint64FromTag(b))
    case None => None
  }

  // ----- Lemmas -----

  /** Reading reversed bytes little-endian is reading them big-endian. */
  lemma {:induction false} LittleEndianOfReverse(b: seq<uint8>)
    ensures LittleEndianValue(Reverse(b)) == BigEndianValue(b)
    decreases |b|
  {
    if b != [] {
      var init := b[..|b| - 1];
      assert Reverse(b) == [b[|b| - 1]] + Reverse(init) by {
        ReverseOfAppend(init, b[|b| - 1]);
        assert b == init + [b[|b| - 1]];
      }
      assert Reverse(b)[1..] == Reverse(init);
      LittleEndianOfReverse(init);
    }
  }

  lemma {:induction false} ReverseOfAppend<T>(s: seq<T>, x: T)
    ensures Reverse(s + [x]) == [x] + Reverse(s)
    decreases |s|
  {
    if s != [] {
      assert (s + [x])[1..] == s[1..] + [x];
      ReverseOfAppend(s[1..], x);
    }
  }

  /** The little-endian bytes of a value, reversed, are its big-endian bytes. */
  lemma {:induction false} ReverseLittleEndianBytes(v: int, n: nat)
    ensures Reverse(LittleEndianBytes(v, n)) == BigEndianBytes(v, n)
    decreases n
  {
    if n > 0 {
      ReverseLittleEndianBytes(v / 256, n - 1);
      var rest := LittleEndianBytes(v / 256, n - 1);
      assert LittleEndianBytes(v, n)[1..] == rest;
    }
  }

  /** Whatever the host's byte order, FromTitleID(long) stores the value's big-endian bytes. */
  lemma FromTitleIdLongIsBigEndian(v: int64, hostLittleEndian: bool)
    ensures FromTitleIdLong(v, hostLittleEndian) == FromTitleIdBytes(BigEndianBytes(v, 8))
  {
    if hostLittleEndian {
      ReverseLittleEndianBytes(v, 8);
    }
  }

  function Pow256(k: nat): (p: nat)
    ensures p >= 1
  {
    if k == 0 then 1 else 256 * Pow256(k - 1)
  }

  /** A positive multiple of d is at least d. */
  lemma {:induction false} MulAtLeast(d: nat, k: nat)
    requires k >= 1
    ensures d * k >= d
    decreases k
  {
    if k > 1 {
      MulAtLeast(d, k - 1);
      assert d * k == d * (k - 1) + d;
    }
  }

  /** The quotient and remainder of Euclidean division are the only ones. */
  lemma DivModUnique(v: int, d: nat, q: int, r: int)
    requires d >= 1 && v == d * q + r && 0 <= r < d
    ensures v / d == q && v % d == r
  {
    var q0, r0 := v / d, v % d;
    assert v == d * q0 + r0;
    if q0 > q {
      MulAtLeast(d, q0 - q);
    } else if q0 < q {
      MulAtLeast(d, q - q0);
    }
  }

  /** Splitting `v` by 256 and then by m is splitting it by 256 * m. */
  lemma SplitMod(v: int, m: nat)
    requires m >= 1
    ensures v % (256 * m) == 256 * ((v / 256) % m) + v % 256
    ensures v / (256 * m) == (v / 256) / m
  {
    var q := v / 256;
    var q2, r2 := q / m, q % m;
    assert v == 256 * q + v % 256;
    assert q == m * q2 + r2;
    assert 256 * q == (256 * m) * q2 + 256 * r2;
    assert 256 * r2 <= 256 * (m - 1);
    DivModUnique(v, 256 * m, q2, 256 * r2 + v % 256);
  }

  /** Byte i of the big-endian bytes is `(v >> 8*(n-1-i)) & 0xFF`, with `>>` the arithmetic shift. */
  lemma {:induction false} BigEndianBytesAt(v: int, n: nat, i: nat)
    requires i < n
    ensures BigEndianBytes(v, n)[i] == (v / Pow256(n - 1 - i)) % 256
    decreases n
  {
    var b := BigEndianBytes(v, n);
    if i < n - 1 {
      var m := Pow256(n - 2 - i);
      var w := v / 256;
      assert Pow256(n - 1 - i) == 256 * m;
      assert b[i] == BigEndianBytes(w, n - 1)[i];
      BigEndianBytesAt(w, n - 1, i);
      assert BigEndianBytes(w, n - 1)[i] == (w / m) % 256;
      SplitMod(v, m);
      assert v / (256 * m) == w / m;
    } else {
      assert b[i] == (v % 256);
      assert Pow256(n - 1 - i) == 1;
    }
  }

  /** The big-endian value of the `n` low bytes of `v` is `v` modulo 256^n. */
  lemma {:induction false} BigEndianRoundTrip(v: int, n: nat)
    ensures BigEndianValue(BigEndianBytes(v, n)) == v % Pow256(n)
    decreases n
  {
    if n > 0 {
      var b := BigEndianBytes(v, n);
      var m := Pow256(n - 1);
      assert b[..n - 1] == BigEndianBytes(v / 256, n - 1);
      assert BigEndianValue(b) == BigEndianValue(b[..n - 1]) * 256 + b[n - 1];
      BigEndianRoundTrip(v / 256, n - 1);
      assert b[n - 1] == v % 256;
      SplitMod(v, m);
      assert Pow256(n) == 256 * m;
    }
  }

  /** The last k big-endian bytes of a value are its k-byte big-endian form. */
  lemma {:induction false} BigEndianBytesSuffix(v: int, n: nat, k: nat)
    requires k <= n
    ensures BigEndianBytes(v, n)[n - k..] == BigEndianBytes(v, k)
    decreases n
  {
    if 0 < k < n {
      BigEndianBytesSuffix(v / 256, n - 1, k - 1);
      assert BigEndianBytes(v, n)[n - k..] == BigEndianBytes(v / 256, n - 1)[n - k..] + [v % 256];
    }
  }

  /** Four bytes read big-endian. */
  lemma BigEndianValue4(b: seq<uint8>)
    requires |b| == 4
    ensures BigEndianValue(b) == b[0] as int * 0x100_0000 + b[1] as int * 65536 + b[2] as int * 256 + b[3]
  {
    assert BigEndianValue(b) == BigEndianValue(b[..3]) * 256 + b[3];
    BigEndianValue3(b[..3]);
  }

  /** Three bytes read big-endian. */
  lemma BigEndianValue3(b: seq<uint8>)
    requires |b| == 3
    ensures BigEndianValue(b) == b[0] as int * 65536 + b[1] as int * 256 + b[2]
  {
    assert BigEndianValue(b) == BigEndianValue(b[..2]) * 256 + b[2];
    assert BigEndianValue(b[..2]) == BigEndianValue(b[..2][..1]) * 256 + b[1];
    assert BigEndianValue(b[..2][..1]) == BigEndianValue(b[..2][..1][..0]) * 256 + b[0];
    assert b[..2][..1][..0] == [];
  }

  /**
   * UniqueID is bytes 4, 5 and 6 read big-endian, on either host; so it is
   * below 2^24, and it reads from the segment's offset.
   */
  lemma UniqueIdValue(t: Title, hostLittleEndian: bool)
    requires t.data.offset + 7 <= |t.data.bytes|
    ensures var a, o := t.data.bytes, t.data.offset;
      UniqueId(t, hostLittleEndian) == Some(a[o + 4] as int * 65536 + a[o + 5] as int * 256 + a[o + 6])
    ensures UniqueId(t, hostLittleEndian).value < 0x100_0000
  {
    var a, o := t.data.bytes, t.data.offset;
    var buffer := [0, a[o + 4], a[o + 5], a[o + 6]];
    if hostLittleEndian {
      LittleEndianOfReverse(buffer);
    }
    assert HostUInt32(ReverseOnLittleEndian(buffer, hostLittleEndian), hostLittleEndian) == BigEndianValue(buffer);
    BigEndianValue4(buffer);
  }

  /** UniqueID is undefined exactly when the underlying array ends before byte 7 of the segment. */
  lemma UniqueIdDefined(t: Title, hostLittleEndian: bool)
    ensures UniqueId(t, hostLittleEndian).Some? <==> t.data.offset + 7 <= |t.data.bytes|
  {
    if t.data.offset + 7 <= |t.data.bytes| {
      UniqueIdValue(t, hostLittleEndian);
    }
  }

  /** Bytes 4..6 of a value's 8 big-endian bytes, read as a 24-bit number, are bits 8..31 of the value. */
  lemma MiddleBytesValue(v: int)
    ensures var b := BigEndianBytes(v, 8);
      b[4] as int * 65536 + b[5] as int * 256 + b[6] == (v / 256) % 0x100_0000
  {
    var b := BigEndianBytes(v, 8);
    assert b[..7] == BigEndianBytes(v / 256, 7);
    BigEndianBytesSuffix(v / 256, 7, 3);
    var w := BigEndianBytes(v / 256, 3);
    assert w == b[4..7];
    BigEndianValue3(w);
    BigEndianRoundTrip(v / 256, 3);
    assert Pow256(3) == 0x100_0000;
  }

  /** Title.FromTitleID(v): Variation is `v & 0xFF` and UniqueID is `(v >> 8) & 0xFFFFFF`. */
  lemma FromTitleIdLongFields(v: int64, hostLittleEndian: bool)
    ensures Variation(FromTitleIdLong(v, hostLittleEndian)) == Some(v % 256)
    ensures UniqueId(FromTitleIdLong(v, hostLittleEndian), hostLittleEndian) == Some((v / 256) % 0x100_0000)
  {
    var t := FromTitleIdLong(v, hostLittleEndian);
    FromTitleIdLongIsBigEndian(v, hostLittleEndian);
    assert t.data.bytes == BigEndianBytes(v, 8) && t.data.offset == 0 && t.data.count == 8;
    UniqueIdValue(t, hostLittleEndian);
    MiddleBytesValue(v);
  }

  /** Byte i of FromTitleID(v) is `(v >> (56 - 8*i)) & 0xFF`, on either host. */
  lemma FromTitleIdLongBytes(v: int64, hostLittleEndian: bool, i: nat)
    requires i < 8
    ensures |FromTitleIdLong(v, hostLittleEndian).data.bytes| == 8
    ensures FromTitleIdLong(v, hostLittleEndian).data.bytes[i] == (v / Pow256(7 - i)) % 256
  {
    FromTitleIdLongIsBigEndian(v, hostLittleEndian);
    BigEndianBytesAt(v, 8, i);
  }

  /** Reading the 8 stored bytes back big-endian gives the two's-complement value of v. */
  lemma FromTitleIdLongRoundTrip(v: int64, hostLittleEndian: bool)
    ensures var t := FromTitleIdLong(v, hostLittleEndian);
      var u := BigEndianValue(t.data.bytes);
      (if u < 0x8000_0000_0000_0000 then u else u - 0x1_0000_0000_0000_0000) == v
  {
    var t := FromTitleIdLong(v, hostLittleEndian);
    FromTitleIdLongIsBigEndian(v, hostLittleEndian);
    BigEndianRoundTrip(v, 8);
    assert Pow256(8) == 0x1_0000_0000_0000_0000;
    var u := BigEndianValue(t.data.bytes);
    assert u == v % 0x1_0000_0000_0000_0000;
    if v >= 0 {
      DivModUnique(v, 0x1_0000_0000_0000_0000, 0, v);
    } else {
      DivModUnique(v, 0x1_0000_0000_0000_0000, -1, v + 0x1_0000_0000_0000_0000);
    }
  }

  /** Platform, Category and TitleID depend only on the first 8 bytes of the segment. */
  lemma FirstEightBytesDecide(t1: Title, t2: Title,
                              uint16FromTag: seq<uint8> -> uint16, uint64FromTag: seq<uint8> -> uint64)
    requires Window(t1, 0, 8).Some? && Window(t1, 0, 8) == Window(t2, 0, 8)
    ensures Platform(t1, uint16FromTag) == Platform(t2, uint16FromTag)
    ensures Category(t1, uint16FromTag) == Category(t2, uint16FromTag)
    ensures TitleId(t1, uint64FromTag) == TitleId(t2, uint64FromTag)
  {
    var a1, o1, a2, o2 := t1.data.bytes, t1.data.offset, t2.data.bytes, t2.data.offset;
    var w := a1[o1..o1 + 8];
    assert w == a2[o2..o2 + 8];
    assert a1[o1..o1 + 2] == w[..2] && a2[o2..o2 + 2] == w[..2];
    assert a1[o1 + 2..o1 + 4] == w[2..4] && a2[o2 + 2..o2 + 4] == w[2..4];
  }
}
