/** Shared vocabulary: Go's fixed-width integers, outcomes with Go's error and panic
    paths, and little-endian byte packing as used by encoding/binary. */
module Common {

  type uint8 = x: int | 0 <= x < 0x100
  type uint16 = x: int | 0 <= x < 0x1_0000
  type uint32 = x: int | 0 <= x < 0x1_0000_0000
  type int32 = x: int | -0x8000_0000 <= x < 0x8000_0000

  datatype Option<+T> = None | Some(value: T)

  /** A Go result: a value, a returned error, or a runtime panic (index out of range,
      nil dereference) that the source does not guard against. */
  datatype Result<+T> = Ok(value: T) | Err(msg: string) | Panic(msg: string) {
    predicate IsFailure() { !Ok? }

    function PropagateFailure<U>(): Result<U>
      requires !Ok?
    {
      if Err? then Err(msg) else Panic(msg)
    }

    function Extract(): T
      requires Ok?
    {
      value
    }
  }

  function Pow256(n: nat): (r: nat)
    ensures r >= 1
  {
    if n == 0 then 1 else 256 * Pow256(n - 1)
  }

  function Pow2(k: nat): (r: nat)
    ensures r >= 1
  {
    if k == 0 then 1 else 2 * Pow2(k - 1)
  }

  // ---------------------------------------------------------------- bytes and numbers

  /** The value of the k low-order bits of b, read one bit at a time. */
  function LowValue(b: bv8, k: nat): (v: nat)
    ensures v < Pow2(k)
  {
    if k == 0 then 0 else 2 * LowValue(b >> 1, k - 1) + (if b & 1 == 1 then 1 else 0)
  }

  /** The unsigned value of a byte. */
  function ByteValue(b: bv8): (v: nat)
    ensures v < 256
  {
    LowValue(b, 8)
  }

  /** The byte holding the k low-order bits of x. */
  function LowByte(x: nat, k: nat): bv8
  {
    if k == 0 then 0 else (LowByte(x / 2, k - 1) << 1) | (if x % 2 == 1 then 1 else 0)
  }

  /** The byte of value x. */
  function ByteOf(x: nat): bv8
    requires x < 256
  {
    LowByte(x, 8)
  }

  lemma HalfByte(b: bv8)
    ensures (b >> 1) as int == b as int / 2
  {
  }

  lemma LowBit(b: bv8)
    ensures b & 1 == 1 <==> b as int % 2 == 1
  {
  }

  lemma DoubleByte(y: bv8, c: bv8)
    requires y as int < 128 && (c == 0 || c == 1)
    ensures ((y << 1) | c) as int == 2 * y as int + c as int
  {
  }

  lemma {:induction false} LowValueInt(b: bv8, k: nat)
    requires b as int < Pow2(k)
    ensures LowValue(b, k) == b as int
  {
    if k > 0 {
      HalfByte(b);
      LowBit(b);
      LowValueInt(b >> 1, k - 1);
    }
  }

  lemma {:induction false} LowByteInt(x: nat, k: nat)
    requires k <= 8 && x < Pow2(k)
    ensures LowByte(x, k) as int == x
  {
    if k > 0 {
      LowByteInt(x / 2, k - 1);
      assert Pow2(k - 1) <= 128 by { PowMonotone(k - 1, 7); }
      DoubleByte(LowByte(x / 2, k - 1), if x % 2 == 1 then 1 else 0);
    }
  }

  lemma {:induction false} PowMonotone(j: nat, k: nat)
    requires j <= k
    ensures Pow2(j) <= Pow2(k)
  {
    if j < k {
      PowMonotone(j, k - 1);
    }
  }

  /** A byte's value is its numeric value. */
  lemma ByteValueInt(b: bv8)
    ensures ByteValue(b) == b as int
  {
    assert Pow2(8) == 256;
    LowValueInt(b, 8);
  }

  /** The byte of value x has value x, and a byte is the byte of its value. */
  lemma ByteRoundTrip(x: nat, b: bv8)
    requires x < 256
    ensures ByteValue(ByteOf(x)) == x
    ensures ByteOf(ByteValue(b)) == b
  {
    assert Pow2(8) == 256;
    LowByteInt(x, 8);
    ByteValueInt(ByteOf(x));
    ByteValueInt(b);
    LowByteInt(b as int, 8);
  }

  /** The byte of a number below 256 is its bit-vector conversion. */
  lemma ByteOfIsCast(x: nat)
    requires x < 256
    ensures ByteOf(x) == x as bv8
  {
    ByteRoundTrip(x, 0);
    ByteValueInt(ByteOf(x));
  }

  /** Converting a number below 256 to a byte and back gives the number. */
  lemma IntCastBack(x: nat)
    requires x < 256
    ensures (x as bv8) as int == x
  {
    ByteRoundTrip(x, 0);
    ByteValueInt(ByteOf(x));
    ByteOfIsCast(x);
  }

  // ---------------------------------------------------------------- little-endian

  /** The unsigned little-endian value of a byte string. */
  function LittleEndian(bs: seq<bv8>): (v: nat)
    ensures v < Pow256(|bs|)
  {
    ValueFrom(bs, 0)
  }

  /** The little-endian value of the bytes from position i on, read by index. */
  function ValueFrom(bs: seq<bv8>, i: nat): (v: nat)
    requires i <= |bs|
    ensures v < Pow256(|bs| - i)
    decreases |bs| - i
  {
    if i == |bs| then 0 else ByteValue(bs[i]) + 256 * ValueFrom(bs, i + 1)
  }

  lemma {:induction false} ValueFromShift(bs: seq<bv8>, i: nat)
    requires 1 <= i <= |bs|
    ensures ValueFrom(bs, i) == ValueFrom(bs[1..], i - 1)
    decreases |bs| - i
  {
    if i < |bs| {
      ValueFromShift(bs, i + 1);
      assert bs[1..][i - 1] == bs[i];
    }
  }

  /** The little-endian value of the n bytes at offset off, read in place. */
  function WordAt(bs: seq<bv8>, off: nat, n: nat): (v: nat)
    requires off + n <= |bs|
    ensures v < Pow256(n)
    decreases n
  {
    if n == 0 then 0 else ByteValue(bs[off]) + 256 * WordAt(bs, off + 1, n - 1)
  }

  /** A two-byte word by the numeric values of its bytes. */
  lemma Word16(bs: seq<bv8>, off: nat)
    requires off + 2 <= |bs|
    ensures WordAt(bs, off, 2) == bs[off] as int + 256 * bs[off + 1] as int
  {
    ByteValueInt(bs[off]);
    ByteValueInt(bs[off + 1]);
  }

  /** Reading in place agrees with reading the slice. */
  lemma {:induction false} WordAtSlice(bs: seq<bv8>, off: nat, n: nat)
    requires off + n <= |bs|
    ensures WordAt(bs, off, n) == LittleEndian(bs[off..off + n])
  {
    WordAtFrom(bs, off, n, 0);
  }

  lemma {:induction false} WordAtFrom(bs: seq<bv8>, off: nat, n: nat, i: nat)
    requires off + n <= |bs| && i <= n
    ensures WordAt(bs, off + i, n - i) == ValueFrom(bs[off..off + n], i)
    decreases n - i
  {
    if i < n {
      WordAtFrom(bs, off, n, i + 1);
      assert bs[off..off + n][i] == bs[off + i];
    }
  }

  /** The first byte is the least significant digit. */
  lemma LittleEndianCons(bs: seq<bv8>)
    requires bs != []
    ensures LittleEndian(bs) == ByteValue(bs[0]) + 256 * LittleEndian(bs[1..])
  {
    ValueFromShift(bs, 1);
  }

  /** The n low-order bytes of v, least significant first (Go's PutUintN). */
  function LittleEndianBytes(v: nat, n: nat): (bs: seq<bv8>)
    ensures |bs| == n
  {
    if n == 0 then [] else [ByteOf(v % 256)] + LittleEndianBytes(v / 256, n - 1)
  }

  lemma DigitSplit(b: int, t: int)
    requires 0 <= b < 256
    ensures (b + 256 * t) % 256 == b && (b + 256 * t) / 256 == t
  {
  }

  lemma {:induction false} LittleEndianRoundTrip(v: nat, n: nat)
    requires v < Pow256(n)
    ensures LittleEndian(LittleEndianBytes(v, n)) == v
  {
    if n > 0 {
      var p := Pow256(n - 1);
      assert v < 256 * p;
      var q := v / 256;
      assert q < p;
      LittleEndianRoundTrip(q, n - 1);
      var bs := LittleEndianBytes(v, n);
      ByteRoundTrip(v % 256, 0);
      assert bs[1..] == LittleEndianBytes(q, n - 1);
      LittleEndianCons(bs);
    }
  }

  lemma {:induction false} LittleEndianBytesOfValue(bs: seq<bv8>)
    ensures LittleEndianBytes(LittleEndian(bs), |bs|) == bs
  {
    if bs != [] {
      var t := LittleEndian(bs[1..]);
      var v := LittleEndian(bs);
      var b := ByteValue(bs[0]);
      LittleEndianCons(bs);
      DigitSplit(b, t);
      ByteRoundTrip(0, bs[0]);
      LittleEndianBytesOfValue(bs[1..]);
      assert LittleEndianBytes(v, |bs|) == [ByteOf(v % 256)] + LittleEndianBytes(t, |bs| - 1);
    }
  }

  /** Go's conversion of an integer to a signed n-byte integer (two's complement). */
  function SignedOf(v: int, n: nat): (r: int)
    requires n > 0
    ensures 0 - Pow256(n) / 2 <= r < Pow256(n) / 2
  {
    var h := 128 * Pow256(n - 1);
    assert Pow256(n) == 2 * h;
    var u := v % (2 * h);
    if u < h then u else u - 2 * h
  }

  /** Reading the n-byte two's-complement pattern of v as signed gives v back. */
  lemma SignedOfMod(v: int, n: nat)
    requires n in {1, 2, 4} && 0 - Pow256(n) / 2 <= v < Pow256(n) / 2
    ensures SignedOf(v % Pow256(n), n) == v
  {
    assert Pow256(1) == 0x100;
    assert Pow256(2) == 0x1_0000;
    if n == 4 {
      assert Pow256(4) == 0x1_0000_0000 by { assert Pow256(3) == 0x100_0000; }
    }
    SignedOfModulus(v, Pow256(n), n);
  }

  /** The same, for the modulus m = 256^n written out. */
  lemma SignedOfModulus(v: int, m: nat, n: nat)
    requires n in {1, 2, 4} && m == Pow256(n)
    requires m == 0x100 || m == 0x1_0000 || m == 0x1_0000_0000
    requires 0 - m / 2 <= v < m / 2
    ensures SignedOf(v % m, n) == v
  {
    var u := v % m;
    if m == 0x100 {
      assert u == if v >= 0 then v else v + 0x100;
      assert u % 0x100 == u;
    } else if m == 0x1_0000 {
      assert u == if v >= 0 then v else v + 0x1_0000;
      assert u % 0x1_0000 == u;
    } else {
      assert u == if v >= 0 then v else v + 0x1_0000_0000;
      assert u % 0x1_0000_0000 == u;
    }
    assert Pow256(n) == 2 * (128 * Pow256(n - 1));
    assert SignedOf(u, n) == if u < m / 2 then u else u - m;
  }

  /** Only the residue modulo 256^n matters to SignedOf. */
  lemma SignedOfResidue(v: int, n: nat)
    requires n > 0
    ensures SignedOf(v % Pow256(n), n) == SignedOf(v, n)
  {
    var m := Pow256(n);
    var h := 128 * Pow256(n - 1);
    assert m == 2 * h;
    ModOfResidue(v, m);
  }

  lemma ModOfResidue(v: int, m: int)
    requires m > 0
    ensures (v % m) % m == v % m
  {
    var u := v % m;
    assert 0 <= u < m;
  }

  /** The last position of x in s (a Go map filled by a loop over s keeps the last). */
  function LastIndex<T(==)>(s: seq<T>, x: T): (i: nat)
    requires x in s
    ensures i < |s| && s[i] == x
    ensures forall j :: i < j < |s| ==> s[j] != x
  {
    if s[|s| - 1] == x then |s| - 1 else LastIndex(s[..|s| - 1], x)
  }

  /** unicode.IsSpace, which strings.Fields and strings.TrimSpace split and trim on: the
      ASCII white space (tab, line feed, vertical tab, form feed, carriage return, space)
      and, beyond ASCII, the characters of WideSpace. */
  predicate IsSpace(c: char)
  {
    if c < '\U{80}' then c == ' ' || '\t' <= c <= '\r' else WideSpace(c)
  }

  /** NEL, NO-BREAK SPACE and the other characters Unicode gives the White_Space property. */
  predicate WideSpace(c: char)
  {
    c == '\U{85}' || c == '\U{A0}' || c == '\U{1680}' || '\U{2000}' <= c <= '\U{200A}'
    || c == '\U{2028}' || c == '\U{2029}' || c == '\U{202F}' || c == '\U{205F}' || c == '\U{3000}'
  }

  /** strings.Split(s, sep) for a one-character separator. */
  function Split(s: string, sep: char): (parts: seq<string>)
    ensures |parts| >= 1
    ensures forall i :: 0 <= i < |parts| ==> sep !in parts[i]
  {
    if s == [] then [""]
    else
      var rest := Split(s[1..], sep);
      if s[0] == sep then [""] + rest
      else [[s[0]] + rest[0]] + rest[1..]
  }

  /** Split(s, sep) has a single part exactly when sep does not occur in s. */
  lemma {:induction false} SplitSingle(s: string, sep: char)
    ensures |Split(s, sep)| == 1 <==> sep !in s
    ensures sep !in s ==> Split(s, sep) == [s]
  {
    if s != [] {
      SplitSingle(s[1..], sep);
      assert s == [s[0]] + s[1..];
      assert sep in s <==> s[0] == sep || sep in s[1..];
    }
  }

  /** Split(a + [sep] + b) with no sep in a yields a followed by the parts of b. */
  lemma {:induction false} SplitAt(a: string, sep: char, b: string)
    requires sep !in a
    ensures Split(a + [sep] + b, sep) == [a] + Split(b, sep)
  {
    if a == [] {
      assert a + [sep] + b == [sep] + b;
      assert ([sep] + b)[1..] == b;
    } else {
      SplitAt(a[1..], sep, b);
      assert (a + [sep] + b)[1..] == a[1..] + [sep] + b;
      assert (a + [sep] + b)[0] == a[0];
      assert a == [a[0]] + a[1..];
    }
  }

  /** The parts joined back with the separator between them. */
  function Join(parts: seq<string>, sep: char): string
    requires |parts| >= 1
  {
    if |parts| == 1 then parts[0] else parts[0] + [sep] + Join(parts[1..], sep)
  }

  /** Joining the parts of a split gives back the string. */
  lemma {:induction false} SplitJoin(s: string, sep: char)
    ensures Join(Split(s, sep), sep) == s
  {
    if s != [] {
      SplitJoin(s[1..], sep);
      var rest := Split(s[1..], sep);
      var parts := Split(s, sep);
      if s[0] == sep {
        assert parts[1..] == rest;
      } else {
        assert parts[1..] == rest[1..];
        if |rest| > 1 {
          assert Join(rest, sep) == rest[0] + [sep] + Join(rest[1..], sep);
        }
      }
      assert s == [s[0]] + s[1..];
    }
  }
}
