/** Bit buffers of pkg/bits: a byte string whose last byte may be only partly used,
    the in-place bit and word updates on its backing bytes, the textual form, the
    concatenation used to rebuild reports and the scanner used to split them. */
module Bits {
  import opened Common

  /** A bit buffer: the `missingBits` low-order bits of the last byte are not part of it. */
  datatype Bits = Bits(missingBits: uint8, bytes: seq<bv8>)

  /** The number of bits in the buffer. */
  function Len(b: Bits): (n: int)
    ensures n <= 8 * |b.bytes|
    ensures Valid(b) ==> 0 <= n && |b.bytes| == (n + 7) / 8
  {
    |b.bytes| * 8 - b.missingBits
  }

  /** The shape that every constructor of a non-degenerate buffer produces. */
  predicate Valid(b: Bits)
  {
    b.missingBits < 8 && (b.missingBits > 0 ==> |b.bytes| > 0)
  }

  /** The byte with only bit k set, that is 1 << k. */
  function Mask(k: nat): (m: bv8)
    requires k < 8
  {
    if k == 0 then 1 else if k == 1 then 2 else if k == 2 then 4 else if k == 3 then 8
    else if k == 4 then 16 else if k == 5 then 32 else if k == 6 then 64 else 128
  }

  /** Bit k of x counted from the least significant bit (the numbering of IsSet). */
  predicate LsbBit(x: bv8, k: nat)
    requires k < 8
  {
    x & Mask(k) != 0
  }

  /** Bit i of x counted from the most significant bit (the numbering of String). */
  predicate MsbBit(x: bv8, i: nat)
    requires i < 8
  {
    x & Mask(7 - i) != 0
  }

  /** Go's left shift of a byte: a count of 8 or more clears it. */
  function ShiftLeft(x: bv8, s: nat): bv8
  {
    if s == 0 then x else if s == 1 then x << 1 else if s == 2 then x << 2
    else if s == 3 then x << 3 else if s == 4 then x << 4 else if s == 5 then x << 5
    else if s == 6 then x << 6 else if s == 7 then x << 7 else 0
  }

  /** Go's right shift of a byte: a count of 8 or more clears it. */
  function ShiftRight(x: bv8, s: nat): bv8
  {
    if s == 0 then x else if s == 1 then x >> 1 else if s == 2 then x >> 2
    else if s == 3 then x >> 3 else if s == 4 then x >> 4 else if s == 5 then x >> 5
    else if s == 6 then x >> 6 else if s == 7 then x >> 7 else 0
  }

  // ---------------------------------------------------------------- single bits

  function IsSet(b: Bits, bit: nat): bool
  {
    if bit >= Len(b) then false else LsbBit(b.bytes[bit / 8], bit % 8)
  }

  /** The backing bytes after Set (on) or Clear (!on) of `bit`. */
  function WithBit(bytes: seq<bv8>, missingBits: uint8, bit: nat, on: bool): (r: seq<bv8>)
    ensures |r| == |bytes|
  {
    if bit >= Len(Bits(missingBits, bytes)) then bytes
    else
      var x := bytes[bit / 8];
      var mask := Mask(bit % 8);
      bytes[bit / 8 := if on then x | mask else x & !mask]
  }

  lemma SetBitOf(x: bv8, k: nat, j: nat)
    requires k < 8 && j < 8
    ensures LsbBit(x | Mask(k), j) == (j == k || LsbBit(x, j))
    ensures LsbBit(x & !Mask(k), j) == (j != k && LsbBit(x, j))
  {
  }

  /** After Set or Clear of `bit` below Len, exactly that bit reads `on`; every other
      bit, and every bit when `bit` is past Len, reads as before. */
  lemma WithBitIsSet(bytes: seq<bv8>, missingBits: uint8, bit: nat, on: bool, j: nat)
    ensures IsSet(Bits(missingBits, WithBit(bytes, missingBits, bit, on)), j)
         == if j == bit && bit < Len(Bits(missingBits, bytes)) then on
            else IsSet(Bits(missingBits, bytes), j)
  {
    var b := Bits(missingBits, bytes);
    if bit < Len(b) && j < Len(b) && j / 8 == bit / 8 {
      SetBitOf(bytes[bit / 8], bit % 8, j % 8);
    }
  }

  method Set(buf: array<bv8>, missingBits: uint8, bit: nat) returns (changed: bool)
    modifies buf
    ensures changed == (bit < Len(Bits(missingBits, old(buf[..])))
                        && !IsSet(Bits(missingBits, old(buf[..])), bit))
    ensures buf[..] == WithBit(old(buf[..]), missingBits, bit, true)
  {
    if bit >= buf.Length * 8 - missingBits {
      return false;
    }
    var byteOffset := bit / 8;
    var mask := Mask(bit % 8);
    changed := buf[byteOffset] & mask == 0;
    buf[byteOffset] := buf[byteOffset] | mask;
  }

  method Clear(buf: array<bv8>, missingBits: uint8, bit: nat) returns (changed: bool)
    modifies buf
    ensures changed == IsSet(Bits(missingBits, old(buf[..])), bit)
    ensures buf[..] == WithBit(old(buf[..]), missingBits, bit, false)
  {
    if bit >= buf.Length * 8 - missingBits {
      return false;
    }
    var byteOffset := bit / 8;
    var mask := Mask(bit % 8);
    changed := buf[byteOffset] & mask != 0;
    buf[byteOffset] := buf[byteOffset] & !mask;
  }

  // ---------------------------------------------------------------- whole buffer

  predicate AllZero(bytes: seq<bv8>)
  {
    forall i :: 0 <= i < |bytes| ==> bytes[i] == 0
  }

  method ClearAll(buf: array<bv8>) returns (changed: bool)
    modifies buf
    ensures changed == !AllZero(old(buf[..]))
    ensures AllZero(buf[..])
  {
    changed := false;
    var i := 0;
    while i < buf.Length
      invariant 0 <= i <= buf.Length
      invariant forall k :: 0 <= k < i ==> buf[k] == 0
      invariant forall k :: i <= k < buf.Length ==> buf[k] == old(buf[k])
      invariant changed == !AllZero(old(buf[..i]))
    {
      if buf[i] != 0 {
        changed := true;
      }
      assert old(buf[..i + 1]) == old(buf[..i]) + [old(buf[i])];
      buf[i] := 0;
      i := i + 1;
    }
    assert old(buf[..i]) == old(buf[..]);
  }

  method IsEmpty(b: Bits) returns (empty: bool)
    ensures empty == AllZero(b.bytes)
  {
    var i := 0;
    while i < |b.bytes|
      invariant 0 <= i <= |b.bytes|
      invariant AllZero(b.bytes[..i])
    {
      if b.bytes[i] != 0 {
        return false;
      }
      assert b.bytes[..i + 1] == b.bytes[..i] + [b.bytes[i]];
      i := i + 1;
    }
    assert b.bytes[..i] == b.bytes;
    return true;
  }

  lemma SomeBitOf(x: bv8) returns (k: nat)
    requires x != 0
    ensures k < 8 && LsbBit(x, k)
  {
    if LsbBit(x, 0) { k := 0; }
    else if LsbBit(x, 1) { k := 1; }
    else if LsbBit(x, 2) { k := 2; }
    else if LsbBit(x, 3) { k := 3; }
    else if LsbBit(x, 4) { k := 4; }
    else if LsbBit(x, 5) { k := 5; }
    else if LsbBit(x, 6) { k := 6; }
    else { k := 7; }
  }

  /** A buffer with every byte zero has no bit set; with no missing bits the converse
      holds too, so IsEmpty is exactly "no bit is set". */
  lemma EmptyIffNoBitSet(b: Bits)
    ensures AllZero(b.bytes) ==> forall j: nat :: !IsSet(b, j)
    ensures b.missingBits == 0 && (forall j: nat :: !IsSet(b, j)) ==> AllZero(b.bytes)
  {
    if b.missingBits == 0 && !AllZero(b.bytes) {
      var i :| 0 <= i < |b.bytes| && b.bytes[i] != 0;
      var k := SomeBitOf(b.bytes[i]);
      assert IsSet(b, 8 * i + k);
    }
  }

  method Equal(a: Bits, b: Bits) returns (eq: bool)
    ensures eq == (a == b)
  {
    if a.missingBits != b.missingBits || |a.bytes| != |b.bytes| {
      return false;
    }
    var i := 0;
    while i < |a.bytes|
      invariant 0 <= i <= |a.bytes|
      invariant a.bytes[..i] == b.bytes[..i]
    {
      if a.bytes[i] != b.bytes[i] {
        return false;
      }
      assert a.bytes[..i + 1] == a.bytes[..i] + [a.bytes[i]];
      assert b.bytes[..i + 1] == b.bytes[..i] + [b.bytes[i]];
      i := i + 1;
    }
    assert a.bytes == a.bytes[..i] && b.bytes == b.bytes[..i];
    return true;
  }

  /** Clone: a fresh copy of the backing bytes, so no later update is shared. */
  method Clone(buf: array<bv8>) returns (copy: array<bv8>)
    ensures fresh(copy)
    ensures copy[..] == buf[..]
  {
    copy := new bv8[buf.Length](i reads buf => if 0 <= i < buf.Length then buf[i] else 0);
  }

  // ---------------------------------------------------------------- little-endian words

  /** The byte string after binary.LittleEndian.PutUintN at byte `offset`. */
  function PutWord(bytes: seq<bv8>, offset: nat, width: nat, value: nat): (r: seq<bv8>)
    requires offset + width <= |bytes|
    ensures |r| == |bytes|
  {
    bytes[..offset] + LittleEndianBytes(value, width) + bytes[offset + width..]
  }

  /** Reading the word back gives the value modulo its width; no other byte changes. */
  lemma PutWordThenRead(bytes: seq<bv8>, offset: nat, width: nat, value: nat)
    requires offset + width <= |bytes| && value < Pow256(width)
    ensures LittleEndian(PutWord(bytes, offset, width, value)[offset..offset + width]) == value
    ensures forall k :: 0 <= k < |bytes| && !(offset <= k < offset + width) ==>
              PutWord(bytes, offset, width, value)[k] == bytes[k]
  {
    var r := PutWord(bytes, offset, width, value);
    assert r[offset..offset + width] == LittleEndianBytes(value, width);
    LittleEndianRoundTrip(value, width);
  }

  /** SetUint8, SetUint16 and SetUint32: the value is written at byte index·width. */
  method SetUint(buf: array<bv8>, index: nat, width: nat, value: nat)
    requires width == 1 || width == 2 || width == 4
    requires value < Pow256(width)
    requires index * width + width <= buf.Length
    modifies buf
    ensures buf[..] == PutWord(old(buf[..]), index * width, width, value)
  {
    var offset := index * width;
    var word := LittleEndianBytes(value, width);
    var k := 0;
    while k < width
      invariant 0 <= k <= width
      invariant forall j :: 0 <= j < buf.Length ==>
                  buf[j] == if offset <= j < offset + k then word[j - offset] else old(buf[j])
    {
      buf[offset + k] := word[k];
      k := k + 1;
    }
    assert buf[..] == PutWord(old(buf[..]), offset, width, value);
  }

  // ---------------------------------------------------------------- textual form

  /** The eight characters that fmt's %08b writes for x, most significant bit first. */
  function FormatByte(x: bv8): string
  {
    seq(8, i requires 0 <= i < 8 => if MsbBit(x, i) then '1' else '0')
  }

  /** String: the bytes in %08b separated by single spaces, the last one cut to its used
      bits. The cut length is computed in uint8, so more than 8 missing bits panics. */
  function Format(b: Bits): Result<string>
  {
    FormatBytes(b.bytes, b.missingBits)
  }

  function FormatBytes(bytes: seq<bv8>, missingBits: uint8): Result<string>
  {
    if bytes == [] then Ok("")
    else if |bytes| == 1 then
      if missingBits == 0 then Ok(FormatByte(bytes[0]))
      else if missingBits > 8 then Panic("slice bounds out of range")
      else Ok(FormatByte(bytes[0])[..8 - missingBits])
    else
      var rest :- FormatBytes(bytes[1..], missingBits);
      Ok(FormatByte(bytes[0]) + " " + rest)
  }

  /** strings.Fields: the maximal runs of non-space characters, in order. */
  function Fields(s: string): (ws: seq<string>)
    ensures forall i :: 0 <= i < |ws| ==> |ws[i]| > 0
    decreases |s|
  {
    if s == [] then []
    else if IsSpace(s[0]) then Fields(s[1..])
    else
      var w := Word(s);
      [w] + Fields(s[|w|..])
  }

  /** The leading run of non-space characters of s. */
  function Word(s: string): (w: string)
    ensures |w| <= |s| && w == s[..|w|]
    ensures s != [] && !IsSpace(s[0]) ==> |w| > 0
    ensures forall i :: 0 <= i < |w| ==> !IsSpace(w[i])
    ensures |w| < |s| ==> IsSpace(s[|w|])
  {
    if s == [] || IsSpace(s[0]) then [] else [s[0]] + Word(s[1..])
  }

  /** The length of s in UTF-8 bytes, which is what Go's len counts. */
  function Utf8Len(s: string): nat
  {
    if s == [] then 0
    else
      var c := s[0] as int;
      (if c < 0x80 then 1 else if c < 0x800 then 2 else if c < 0x1_0000 then 3 else 4)
      + Utf8Len(s[1..])
  }

  predicate IsBinaryDigit(c: char)
  {
    c == '0' || c == '1'
  }

  function Digit(c: char): bv8
  {
    if c == '1' then 1 else 0
  }

  /** strconv.ParseUint(w, 2, 8) for the eight-character words it is called on here. */
  function ParseBinary(w: string): Option<bv8>
  {
    if |w| == 8 && forall i :: 0 <= i < 8 ==> IsBinaryDigit(w[i]) then
      Some((Digit(w[0]) << 7) | (Digit(w[1]) << 6) | (Digit(w[2]) << 5) | (Digit(w[3]) << 4)
         | (Digit(w[4]) << 3) | (Digit(w[5]) << 2) | (Digit(w[6]) << 1) | Digit(w[7]))
    else None
  }

  function Zeros(n: nat): (z: string)
    ensures |z| == n && forall i :: 0 <= i < n ==> z[i] == '0'
  {
    seq(n, _ => '0')
  }

  /** One word of NewBitSetFromString: its byte and its missing-bit count. A short word is
      padded with zeros and allowed only last; a long last word makes strings.Repeat panic. */
  function ParseWord(w: string, isLast: bool): Result<(bv8, uint8)>
  {
    var n := Utf8Len(w);
    if n == 8 then
      match ParseBinary(w)
      case None => Err("invalid byte value")
      case Some(x) => Ok((x, 0))
    else if !isLast then Err("incomplete byte in the middle of the string")
    else if n > 8 then Panic("strings: negative Repeat count")
    else
      match ParseBinary(w + Zeros(8 - n))
      case None => Err("invalid byte value")
      case Some(x) => var missing: uint8 := 8 - n; Ok((x, missing))
  }

  /** The loop of NewBitSetFromString from word i on, with the bytes and the missing-bit
      count gathered so far; the first failing word decides the error. */
  function ParseFrom(ws: seq<string>, i: nat, acc: seq<bv8>, missing: uint8): Result<Bits>
    requires i <= |ws|
    decreases |ws| - i
  {
    if i == |ws| then Ok(Bits(missing, acc))
    else
      var p :- ParseWord(ws[i], i == |ws| - 1);
      ParseFrom(ws, i + 1, acc + [p.0], if Utf8Len(ws[i]) == 8 then missing else p.1)
  }

  function FromString(s: string): Result<Bits>
  {
    ParseFrom(Fields(s), 0, [], 0)
  }

  method NewBitSetFromString(s: string) returns (res: Result<Bits>)
    ensures res == FromString(s)
  {
    var words := Fields(s);
    var buf := new bv8[|words|];
    var missing: uint8 := 0;
    var i := 0;
    while i < |words|
      invariant 0 <= i <= |words|
      invariant FromString(s) == ParseFrom(words, i, buf[..i], missing)
    {
      var w := words[i];
      if Utf8Len(w) == 8 {
        var v := ParseBinary(w);
        if v.None? {
          return Err("invalid byte value");
        }
        buf[i] := v.value;
      } else {
        if i != |words| - 1 {
          return Err("incomplete byte in the middle of the string");
        }
        if Utf8Len(w) > 8 {
          return Panic("strings: negative Repeat count");
        }
        missing := 8 - Utf8Len(w);
        var v := ParseBinary(w + Zeros(8 - Utf8Len(w)));
        if v.None? {
          return Err("invalid byte value");
        }
        buf[i] := v.value;
      }
      assert buf[..i + 1] == buf[..i] + [buf[i]];
      i := i + 1;
    }
    assert buf[..i] == buf[..];
    return Ok(Bits(missing, buf[..]));
  }

  /** The last m bits of x, counted from the most significant bit, are zero. */
  predicate LowBitsZero(x: bv8, m: nat)
  {
    forall i :: 8 - m <= i < 8 ==> !MsbBit(x, i)
  }

  /** The used bits of the last byte are followed only by zero bits. */
  predicate Canonical(b: Bits)
  {
    Valid(b) && (b.missingBits > 0 ==> LowBitsZero(b.bytes[|b.bytes| - 1], b.missingBits))
  }

  lemma ParseFormatByte(x: bv8)
    ensures ParseBinary(FormatByte(x)) == Some(x)
  {
    var w := FormatByte(x);
    assert forall i :: 0 <= i < 8 ==> IsBinaryDigit(w[i]);
    assert Digit(w[0]) == (x & 128) >> 7;
    assert Digit(w[1]) == (x & 64) >> 6;
    assert Digit(w[2]) == (x & 32) >> 5;
    assert Digit(w[3]) == (x & 16) >> 4;
    assert Digit(w[4]) == (x & 8) >> 3;
    assert Digit(w[5]) == (x & 4) >> 2;
    assert Digit(w[6]) == (x & 2) >> 1;
    assert Digit(w[7]) == x & 1;
  }

  lemma {:induction false} AsciiUtf8Len(s: string)
    requires forall i :: 0 <= i < |s| ==> IsBinaryDigit(s[i])
    ensures Utf8Len(s) == |s|
  {
    if s != [] {
      AsciiUtf8Len(s[1..]);
    }
  }

  /** The words String writes: one per byte, the last cut to its used bits. */
  function ByteWords(bytes: seq<bv8>, missingBits: uint8): (ws: seq<string>)
    requires missingBits <= 8
    ensures |ws| == |bytes|
  {
    if bytes == [] then []
    else if |bytes| == 1 then [FormatByte(bytes[0])[..8 - missingBits]]
    else [FormatByte(bytes[0])] + ByteWords(bytes[1..], missingBits)
  }

  lemma FieldsOfWord(w: string, rest: string)
    requires |w| > 0 && forall i :: 0 <= i < |w| ==> !IsSpace(w[i])
    requires rest == [] || IsSpace(rest[0])
    ensures Fields(w + rest) == [w] + Fields(rest)
  {
    WordOf(w, rest);
    assert (w + rest)[|w|..] == rest;
  }

  lemma {:induction false} WordOf(w: string, rest: string)
    requires forall i :: 0 <= i < |w| ==> !IsSpace(w[i])
    requires rest == [] || IsSpace(rest[0])
    ensures Word(w + rest) == w
  {
    if w != [] {
      WordOf(w[1..], rest);
      assert (w + rest)[1..] == w[1..] + rest;
    } else {
      assert w + rest == rest;
    }
  }

  lemma {:induction false} FieldsOfFormat(bytes: seq<bv8>, missingBits: uint8)
    requires missingBits < 8
    ensures FormatBytes(bytes, missingBits).Ok?
    ensures Fields(FormatBytes(bytes, missingBits).value) == ByteWords(bytes, missingBits)
  {
    if bytes == [] {
    } else if |bytes| == 1 {
      var w := FormatByte(bytes[0])[..8 - missingBits];
      assert w + [] == w;
      FieldsOfWord(w, []);
    } else {
      FieldsOfFormat(bytes[1..], missingBits);
      var rest := FormatBytes(bytes[1..], missingBits).value;
      var w := FormatByte(bytes[0]);
      FormatCons(bytes, missingBits, rest);
      FormatByteWord(bytes[0]);
      FieldsOfWord(w, " " + rest);
      assert (" " + rest)[1..] == rest;
    }
  }

  lemma FormatCons(bytes: seq<bv8>, missingBits: uint8, rest: string)
    requires |bytes| > 1 && FormatBytes(bytes[1..], missingBits) == Ok(rest)
    ensures FormatBytes(bytes, missingBits) == Ok(FormatByte(bytes[0]) + (" " + rest))
  {
    assert FormatByte(bytes[0]) + " " + rest == FormatByte(bytes[0]) + (" " + rest);
  }

  /** A formatted byte is one word of eight digits. */
  lemma FormatByteWord(x: bv8)
    ensures |FormatByte(x)| == 8 && forall i :: 0 <= i < 8 ==> !IsSpace(FormatByte(x)[i])
  {
  }

  lemma LastWordPadded(x: bv8, m: uint8)
    requires 0 < m < 8
    requires LowBitsZero(x, m)
    ensures FormatByte(x)[..8 - m] + Zeros(m) == FormatByte(x)
  {
  }

  lemma {:induction false} ParseByteWords(b: Bits, i: nat)
    requires Canonical(b) && i < |b.bytes|
    ensures ParseFrom(ByteWords(b.bytes, b.missingBits), i, b.bytes[..i], 0) == Ok(b)
    decreases |b.bytes| - i
  {
    var ws := ByteWords(b.bytes, b.missingBits);
    ByteWordsAt(b.bytes, b.missingBits, i);
    var x := b.bytes[i];
    var w := ws[i];
    ParseFormatByte(x);
    AsciiUtf8Len(FormatByte(x));
    assert b.bytes[..i] + [x] == b.bytes[..i + 1];
    if i < |b.bytes| - 1 {
      assert w == FormatByte(x);
      ParseByteWords(b, i + 1);
    } else {
      assert b.bytes[..i + 1] == b.bytes;
      var m := b.missingBits;
      if m > 0 {
        assert w == FormatByte(x)[..8 - m];
        assert forall k :: 0 <= k < |w| ==> IsBinaryDigit(w[k]);
        AsciiUtf8Len(w);
        LastWordPadded(x, m);
      } else {
        assert w == FormatByte(x);
      }
    }
  }

  lemma {:induction false} ByteWordsAt(bytes: seq<bv8>, m: uint8, i: nat)
    requires m <= 8 && i < |bytes|
    ensures |ByteWords(bytes, m)| == |bytes|
    ensures ByteWords(bytes, m)[i]
         == if i == |bytes| - 1 then FormatByte(bytes[i])[..8 - m] else FormatByte(bytes[i])
  {
    if |bytes| > 1 {
      if i > 0 {
        ByteWordsAt(bytes[1..], m, i - 1);
      } else {
        ByteWordsAt(bytes[1..], m, 0);
      }
    }
  }

  /** Round trip of the textual form: parsing what String writes for a canonical buffer
      gives the buffer back. */
  lemma FormatThenParse(b: Bits)
    requires Canonical(b)
    ensures Format(b).Ok?
    ensures FromString(Format(b).value) == Ok(b)
  {
    FieldsOfFormat(b.bytes, b.missingBits);
    if |b.bytes| > 0 {
      ParseByteWords(b, 0);
      assert b.bytes[..0] == [];
    }
  }

  /** NewBitSetFromString then String returns the input string, for every string that
      String can produce. */
  lemma ParseThenFormat(b: Bits, s: string)
    requires Canonical(b) && Format(b) == Ok(s)
    ensures FromString(s).Ok? && Format(FromString(s).value) == Ok(s)
  {
    FormatThenParse(b);
  }

  // ---------------------------------------------------------------- concatenation

  /** The bits of a valid buffer, most significant bit of each byte first. */
  function BitString(b: Bits): (s: seq<bool>)
    requires Valid(b)
    ensures |s| == Len(b)
  {
    seq(Len(b), p requires 0 <= p < Len(b) => MsbBit(b.bytes[p / 8], p % 8))
  }

  /** The byte that carries over into position |l|-1+t of a concatenation: the last byte
      of l for t = 0, else the low part of r's byte t-1 shifted up by l's missing bits. */
  function Carry(l: Bits, r: Bits, t: nat): bv8
    requires Valid(l) && l.missingBits > 0 && t <= |r.bytes|
  {
    if t == 0 then l.bytes[|l.bytes| - 1] else ShiftLeft(r.bytes[t - 1], l.missingBits)
  }

  function Joined(l: Bits, r: Bits, t: nat): bv8
    requires Valid(l) && l.missingBits > 0 && t <= |r.bytes|
  {
    Carry(l, r, t) | Incoming(l, r, t)
  }

  /** The top bits of r's byte t moved down into l's missing bits (none past r's end). */
  function Incoming(l: Bits, r: Bits, t: nat): bv8
    requires Valid(l) && l.missingBits > 0 && t <= |r.bytes|
  {
    if t < |r.bytes| then ShiftRight(r.bytes[t], 8 - l.missingBits) else 0
  }

  function ConcatSize(l: Bits, r: Bits): int
  {
    |l.bytes| + |r.bytes| - (if l.missingBits + r.missingBits >= 8 then 1 else 0)
  }

  /** Byte k of the concatenation when l has missing bits: l's full bytes, then the
      joined bytes. */
  function ConcatAt(l: Bits, r: Bits, k: nat): bv8
    requires Valid(l) && l.missingBits > 0 && k <= |l.bytes| - 1 + |r.bytes|
  {
    if k < |l.bytes| - 1 then l.bytes[k] else Joined(l, r, k - (|l.bytes| - 1))
  }

  /** The intended ConcatBits: r's bits are shifted into l's missing bits. */
  function Concat(l: Bits, r: Bits): (c: Bits)
    requires Valid(l) && Valid(r)
  {
    if l.missingBits == 0 then Bits(r.missingBits, l.bytes + r.bytes)
    else
      var size := ConcatSize(l, r);
      Bits((l.missingBits + r.missingBits) % 8,
           seq(size, k requires 0 <= k < size => ConcatAt(l, r, k)))
  }

  lemma OrBit(x: bv8, y: bv8, i: nat)
    requires i < 8
    ensures MsbBit(x | y, i) == (MsbBit(x, i) || MsbBit(y, i))
  {
  }

  lemma ShiftRightBit(y: bv8, s: nat, i: nat)
    requires i < 8 && s <= 8
    ensures MsbBit(ShiftRight(y, s), i) == (i >= s && MsbBit(y, i - s))
  {
    if s == 0 {
    } else if s == 1 {
    } else if s == 2 {
    } else if s == 3 {
    } else if s == 4 {
    } else if s == 5 {
    } else if s == 6 {
    } else if s == 7 {
    }
  }

  lemma ShiftLeftBit(y: bv8, s: nat, i: nat)
    requires i < 8 && s <= 8
    ensures MsbBit(ShiftLeft(y, s), i) == (i + s < 8 && MsbBit(y, i + s))
  {
    if s == 0 {
    } else if s == 1 {
    } else if s == 2 {
    } else if s == 3 {
    } else if s == 4 {
    } else if s == 5 {
    } else if s == 6 {
    } else if s == 7 {
    }
  }

  /** The low missing bits of every carry byte are zero when l is canonical. */
  lemma CarryLowZero(l: Bits, r: Bits, t: nat, i: nat)
    requires Canonical(l) && l.missingBits > 0 && t <= |r.bytes|
    requires 8 - l.missingBits <= i < 8
    ensures !MsbBit(Carry(l, r, t), i)
  {
    if t > 0 {
      ShiftLeftBit(r.bytes[t - 1], l.missingBits, i);
    }
  }

  /** The bits of Joined(t): the carry's used bits, then the top bits of r's byte t. */
  lemma JoinedBit(l: Bits, r: Bits, t: nat, i: nat)
    requires Canonical(l) && l.missingBits > 0 && t <= |r.bytes| && i < 8
    ensures MsbBit(Joined(l, r, t), i)
         == if i < 8 - l.missingBits then MsbBit(Carry(l, r, t), i)
            else t < |r.bytes| && MsbBit(r.bytes[t], i - (8 - l.missingBits))
  {
    OrBit(Carry(l, r, t), Incoming(l, r, t), i);
    IncomingBit(l, r, t, i);
    if i >= 8 - l.missingBits {
      CarryLowZero(l, r, t, i);
    }
  }

  lemma IncomingBit(l: Bits, r: Bits, t: nat, i: nat)
    requires Valid(l) && l.missingBits > 0 && t <= |r.bytes| && i < 8
    ensures MsbBit(Incoming(l, r, t), i)
         == (i >= 8 - l.missingBits && t < |r.bytes| && MsbBit(r.bytes[t], i - (8 - l.missingBits)))
  {
    if t < |r.bytes| {
      ShiftRightBit(r.bytes[t], 8 - l.missingBits, i);
    } else {
      assert Incoming(l, r, t) & Mask(7 - i) == 0;
    }
  }

  /** ConcatBits puts l's bits first and r's bits after them, with (l.m + r.m) mod 8
      missing bits. */
  lemma ConcatBitString(l: Bits, r: Bits)
    requires Canonical(l) && Valid(r)
    ensures Valid(Concat(l, r))
    ensures Concat(l, r).missingBits == (l.missingBits + r.missingBits) % 8
    ensures Len(Concat(l, r)) == Len(l) + Len(r)
    ensures BitString(Concat(l, r)) == BitString(l) + BitString(r)
  {
    if l.missingBits == 0 {
      AlignedBitString(l, r);
    } else {
      ShiftedBitString(l, r);
    }
  }

  lemma AlignedBitString(l: Bits, r: Bits)
    requires Canonical(l) && Valid(r) && l.missingBits == 0
    ensures Valid(Concat(l, r)) && Concat(l, r).missingBits == r.missingBits % 8
    ensures Len(Concat(l, r)) == Len(l) + Len(r)
    ensures BitString(Concat(l, r)) == BitString(l) + BitString(r)
  {
    assert Concat(l, r) == Bits(r.missingBits, l.bytes + r.bytes);
    assert Len(Concat(l, r)) == Len(l) + Len(r) by {
      assert |l.bytes + r.bytes| * 8 == |l.bytes| * 8 + |r.bytes| * 8;
    }
    AppendBitString(l, r);
  }

  lemma ShiftedBitString(l: Bits, r: Bits)
    requires Canonical(l) && Valid(r) && l.missingBits > 0
    ensures Valid(Concat(l, r)) && Concat(l, r).missingBits == (l.missingBits + r.missingBits) % 8
    ensures Len(Concat(l, r)) == Len(l) + Len(r)
    ensures BitString(Concat(l, r)) == BitString(l) + BitString(r)
  {
    var c := Concat(l, r);
    ConcatLen(l, r);
    forall p | 0 <= p < Len(c)
      ensures BitString(c)[p] == (BitString(l) + BitString(r))[p]
    {
      ShiftedBitAt(l, r, p);
    }
  }

  lemma ShiftedBitAt(l: Bits, r: Bits, p: nat)
    requires Canonical(l) && Valid(r) && l.missingBits > 0 && p < Len(l) + Len(r)
    ensures ConcatLenFacts(l, r)
    ensures BitString(Concat(l, r))[p] == (BitString(l) + BitString(r))[p]
  {
    var c := Concat(l, r);
    ConcatLen(l, r);
    var bl, br := BitString(l), BitString(r);
    var want := if p < Len(l) then Bit(l, p) else Bit(r, p - Len(l));
    assert BitString(c)[p] == want by {
      ConcatBit(l, r, p);
      BitStringAt(c, p);
    }
    assert (bl + br)[p] == want by {
      AppendAt(bl, br, p);
      if p < Len(l) {
        BitStringAt(l, p);
      } else {
        BitStringAt(r, p - Len(l));
      }
    }
  }

  lemma AppendAt(a: seq<bool>, b: seq<bool>, p: nat)
    requires p < |a| + |b|
    ensures (a + b)[p] == if p < |a| then a[p] else b[p - |a|]
  {
  }

  lemma ConcatBit(l: Bits, r: Bits, p: nat)
    requires Canonical(l) && Valid(r) && l.missingBits > 0 && p < Len(l) + Len(r)
    ensures ConcatLenFacts(l, r)
    ensures Bit(Concat(l, r), p) == if p < Len(l) then Bit(l, p) else Bit(r, p - Len(l))
  {
    ConcatLen(l, r);
    ConcatByte(l, r, p / 8);
    if p < Len(l) {
      ConcatLeftBit(l, r, p);
    } else {
      ConcatRightBit(l, r, p);
    }
  }

  /** Bit p of a buffer, counting from the most significant bit of its first byte. */
  function Bit(b: Bits, p: nat): bool
    requires Valid(b) && p < Len(b)
  {
    MsbBit(b.bytes[p / 8], p % 8)
  }

  lemma BitStringAt(b: Bits, p: nat)
    requires Valid(b) && p < Len(b)
    ensures BitString(b)[p] == Bit(b, p)
  {
  }

  lemma ConcatByte(l: Bits, r: Bits, k: nat)
    requires Valid(l) && Valid(r) && l.missingBits > 0 && k < ConcatSize(l, r)
    ensures k <= |l.bytes| - 1 + |r.bytes|
    ensures Concat(l, r).bytes[k] == ConcatAt(l, r, k)
  {
  }

  predicate ConcatLenFacts(l: Bits, r: Bits)
    requires Valid(l) && Valid(r)
  {
    Valid(Concat(l, r)) && Len(Concat(l, r)) == Len(l) + Len(r)
  }

  lemma ConcatLen(l: Bits, r: Bits)
    requires Valid(l) && Valid(r) && l.missingBits > 0
    ensures Valid(Concat(l, r)) && Len(Concat(l, r)) == Len(l) + Len(r)
  {
  }

  /** With no missing bits in l, ConcatBits is plain byte concatenation. */
  lemma AppendBitString(l: Bits, r: Bits)
    requires Valid(l) && Valid(r) && l.missingBits == 0
    ensures BitString(Bits(r.missingBits, l.bytes + r.bytes)) == BitString(l) + BitString(r)
  {
    var c := Bits(r.missingBits, l.bytes + r.bytes);
    forall p | 0 <= p < Len(c)
      ensures BitString(c)[p] == (BitString(l) + BitString(r))[p]
    {
      AppendBitAt(l, r, p);
    }
  }

  lemma AppendBitAt(l: Bits, r: Bits, p: nat)
    requires Valid(l) && Valid(r) && l.missingBits == 0 && p < Len(l) + Len(r)
    ensures Valid(Bits(r.missingBits, l.bytes + r.bytes))
    ensures p < Len(Bits(r.missingBits, l.bytes + r.bytes))
    ensures BitString(Bits(r.missingBits, l.bytes + r.bytes))[p] == (BitString(l) + BitString(r))[p]
  {
    var c := Bits(r.missingBits, l.bytes + r.bytes);
    var bl, br := BitString(l), BitString(r);
    AppendAt(bl, br, p);
    if p >= Len(l) {
      var q := p - Len(l);
      assert BitString(c)[p] == br[q] by {
        assert q / 8 == p / 8 - |l.bytes| && q % 8 == p % 8;
        assert c.bytes[p / 8] == r.bytes[q / 8];
      }
    } else {
      assert BitString(c)[p] == bl[p] by {
        assert c.bytes[p / 8] == l.bytes[p / 8];
      }
    }
  }

  /** Bit p of the concatenation, for p below Len(l), is bit p of l. */
  lemma ConcatLeftBit(l: Bits, r: Bits, p: nat)
    requires Canonical(l) && Valid(r) && l.missingBits > 0 && p < Len(l)
    ensures p / 8 <= |l.bytes| - 1 + |r.bytes|
    ensures MsbBit(ConcatAt(l, r, p / 8), p % 8) == MsbBit(l.bytes[p / 8], p % 8)
  {
    if p / 8 == |l.bytes| - 1 {
      JoinedBit(l, r, 0, p % 8);
    }
  }

  /** Bit Len(l)+q of the concatenation is bit q of r. */
  lemma ConcatRightBit(l: Bits, r: Bits, p: nat)
    requires Canonical(l) && Valid(r) && l.missingBits > 0
    requires Len(l) <= p < Len(l) + Len(r)
    ensures p / 8 <= |l.bytes| - 1 + |r.bytes|
    ensures MsbBit(ConcatAt(l, r, p / 8), p % 8)
         == MsbBit(r.bytes[(p - Len(l)) / 8], (p - Len(l)) % 8)
  {
    var q := p - Len(l);
    var m := l.missingBits;
    var n := |l.bytes|;
    var a := q / 8;
    var e := q % 8;
    if e < m {
      DivMod8(p, n - 1 + a, 8 - m + e);
      JoinedBit(l, r, a, 8 - m + e);
    } else {
      DivMod8(p, n + a, e - m);
      JoinedBit(l, r, a + 1, e - m);
      ShiftLeftBit(r.bytes[a], m, e - m);
    }
  }

  lemma DivMod8(p: nat, k: nat, b: nat)
    requires p == 8 * k + b && b < 8
    ensures p / 8 == k && p % 8 == b
  {
  }

  /** Concatenating canonical buffers gives a canonical buffer, so a fold of ConcatBits
      over canonical fields stays canonical. */
  lemma ConcatCanonical(l: Bits, r: Bits)
    requires Canonical(l) && Canonical(r)
    ensures Canonical(Concat(l, r))
  {
    var c := Concat(l, r);
    ConcatBitString(l, r);
    var m := l.missingBits;
    if m > 0 && c.missingBits > 0 {
      var k := |c.bytes| - 1;
      var t := k - (|l.bytes| - 1);
      var last := c.bytes[k];
      assert last == ConcatAt(l, r, k);
      assert last == Joined(l, r, t);
      assert t == if m + r.missingBits >= 8 then |r.bytes| - 1 else |r.bytes|;
      forall i | 8 - c.missingBits <= i < 8
        ensures !MsbBit(last, i)
      {
        JoinedLastBit(l, r, t, i);
      }
    }
  }

  /** The unused bits of the last joined byte are clear. */
  lemma JoinedLastBit(l: Bits, r: Bits, t: nat, i: nat)
    requires Canonical(l) && Canonical(r) && l.missingBits > 0
    requires (l.missingBits + r.missingBits) % 8 > 0 && 8 - (l.missingBits + r.missingBits) % 8 <= i < 8
    requires t == if l.missingBits + r.missingBits >= 8 then |r.bytes| - 1 else |r.bytes|
    ensures !MsbBit(Joined(l, r, t), i)
  {
    var m := l.missingBits;
    JoinedBit(l, r, t, i);
    if i < 8 - m {
      assert t == |r.bytes| && t > 0;
      ShiftLeftBit(r.bytes[t - 1], m, i);
    } else if t < |r.bytes| {
      assert t == |r.bytes| - 1;
    }
  }

  /** ConcatBits with the loop fixed to stop after r's last byte. */
  method ConcatBits(l: Bits, r: Bits) returns (c: Bits)
    requires Valid(l) && Valid(r)
    ensures c == Concat(l, r)
  {
    if l.missingBits == 0 {
      return Bits(r.missingBits, l.bytes + r.bytes);
    }
    var n := |l.bytes|;
    var size := ConcatSize(l, r);
    var result := new bv8[size](k => if 0 <= k < n then l.bytes[k] else 0);
    var ri := 0;
    while ri < |r.bytes|
      invariant 0 <= ri <= |r.bytes|
      invariant forall k :: 0 <= k < n - 1 + ri ==> result[k] == ConcatAt(l, r, k)
      invariant n - 1 + ri < size ==> result[n - 1 + ri] == Carry(l, r, ri)
    {
      JoinAt(result, l, r, ri);
      ri := ri + 1;
    }
    var bytes := result[..];
    assert forall k :: 0 <= k < |bytes| ==> bytes[k] == ConcatAt(l, r, k) by {
      ConcatAtLast(l, r);
    }
    c := Bits((l.missingBits + r.missingBits) % 8, bytes);
    ConcatBytes(l, r, bytes);
  }

  /** One turn of ConcatBits' loop: byte |l|-1+t takes r's byte t's top bits, and the
      next byte, when there is one, takes the carry of r's byte t. */
  method JoinAt(result: array<bv8>, l: Bits, r: Bits, t: nat)
    requires Valid(l) && l.missingBits > 0 && t < |r.bytes|
    requires result.Length == ConcatSize(l, r) && |l.bytes| - 1 + t < result.Length
    requires result[|l.bytes| - 1 + t] == Carry(l, r, t)
    modifies result
    ensures result[|l.bytes| - 1 + t] == ConcatAt(l, r, |l.bytes| - 1 + t)
    ensures |l.bytes| + t < result.Length ==> result[|l.bytes| + t] == Carry(l, r, t + 1)
    ensures forall k :: 0 <= k < result.Length && k != |l.bytes| - 1 + t && k != |l.bytes| + t
              ==> result[k] == old(result[k])
  {
    var i := |l.bytes| - 1 + t;
    ConcatAtJoined(l, r, t, i);
    result[i] := result[i] | ShiftRight(r.bytes[t], 8 - l.missingBits);
    if i + 1 < result.Length {
      result[i + 1] := ShiftLeft(r.bytes[t], l.missingBits);
    }
  }

  /** Byte |l|-1+t of the concatenation, for t inside r, joins the carry with r's byte t. */
  lemma ConcatAtJoined(l: Bits, r: Bits, t: nat, k: nat)
    requires Valid(l) && l.missingBits > 0 && t < |r.bytes| && k == |l.bytes| - 1 + t
    ensures ConcatAt(l, r, k) == Carry(l, r, t) | ShiftRight(r.bytes[t], 8 - l.missingBits)
  {
    assert k - (|l.bytes| - 1) == t;
    var low: bv8 := ShiftRight(r.bytes[t], 8 - l.missingBits);
    assert Joined(l, r, t) == Carry(l, r, t) | low;
  }

  /** Past r's last byte, the concatenation's byte is the bare carry. */
  lemma ConcatAtLast(l: Bits, r: Bits)
    requires Valid(l) && l.missingBits > 0
    ensures ConcatAt(l, r, |l.bytes| - 1 + |r.bytes|) == Carry(l, r, |r.bytes|)
  {
    assert Joined(l, r, |r.bytes|) == Carry(l, r, |r.bytes|) | 0;
  }

  /** A byte sequence of Concat's size that agrees with ConcatAt everywhere is Concat's. */
  lemma ConcatBytes(l: Bits, r: Bits, bytes: seq<bv8>)
    requires Valid(l) && Valid(r) && l.missingBits > 0
    requires |bytes| == ConcatSize(l, r)
    requires forall k :: 0 <= k < |bytes| ==> bytes[k] == ConcatAt(l, r, k)
    ensures Bits((l.missingBits + r.missingBits) % 8, bytes) == Concat(l, r)
  {
  }

  /** ConcatBits as written: when l has missing bits the loop only stops at the result's
      last index, so unless r's missing bits fill l's gap it reads past r's end. */
  method ConcatBitsAsWritten(l: Bits, r: Bits) returns (res: Result<Bits>)
    ensures l.missingBits == 0 ==> res == Ok(Bits(r.missingBits, l.bytes + r.bytes))
    ensures Valid(l) && Valid(r) && l.missingBits > 0 && l.missingBits + r.missingBits < 8
            ==> res.Panic?
    ensures Valid(l) && Valid(r) && l.missingBits + r.missingBits >= 8
            ==> res == Ok(Concat(l, r))
  {
    if l.missingBits == 0 {
      return Ok(Bits(r.missingBits, l.bytes + r.bytes));
    }
    var m := l.missingBits;
    var n := |l.bytes|;
    var sum := (m + r.missingBits) % 256;
    var size := n + |r.bytes| - (if sum >= 8 then 1 else 0);
    if size < 0 {
      return Panic("makeslice: len out of range");
    }
    var result := new bv8[size](k => if 0 <= k < n then l.bytes[k] else 0);
    var back := (8 - m) % 256;
    ghost var valid := Valid(l) && Valid(r) && sum >= 8;
    assert valid ==> back == 8 - m && sum == m + r.missingBits && size == ConcatSize(l, r);
    assert valid ==> Built(result[..], l, r, 0);
    var ok := JoinAsWritten(result, l, r, back, valid);
    if !ok {
      return Panic("index out of range");
    }
    res := Ok(Bits(sum % 8, result[..]));
  }

  /** The loop of ConcatBits as written, which stops only when it reaches the result's last
      index; false when it indexes past r's end or outside the result first. */
  method JoinAsWritten(result: array<bv8>, l: Bits, r: Bits, back: nat, ghost valid: bool) returns (ok: bool)
    requires valid ==> Built(result[..], l, r, 0) && back == 8 - l.missingBits
    modifies result
    ensures valid ==> ok && result[..] == Concat(l, r).bytes
    ensures result.Length == |l.bytes| + |r.bytes| ==> !ok
  {
    var ri := 0;
    while true
      invariant 0 <= ri <= |r.bytes|
      invariant valid ==> Built(result[..], l, r, ri)
      decreases |r.bytes| - ri
    {
      var i := |l.bytes| - 1 + ri;
      if i < 0 || i >= result.Length || ri >= |r.bytes| {
        return false;
      }
      ghost var before := result[..];
      var last := JoinTurn(result, i, r.bytes[ri], back, l.missingBits);
      if valid {
        TurnKeepsBuilt(before, l, r, ri, i, back);
      }
      if last {
        return true;
      }
      ri := ri + 1;
    }
  }

  /** The writes of one turn of the as-written loop: byte i takes x's top bits and, unless
      i is the last index, byte i+1 takes x's low bits. */
  method JoinTurn(result: array<bv8>, i: nat, x: bv8, back: nat, m: nat) returns (last: bool)
    requires i < result.Length
    modifies result
    ensures last == (i == result.Length - 1)
    ensures result[..] == TurnBytes(old(result[..]), i, x, back, m)
  {
    result[i] := result[i] | ShiftRight(x, back);
    if i == result.Length - 1 {
      return true;
    }
    result[i + 1] := ShiftLeft(x, m);
    return false;
  }

  function TurnBytes(a: seq<bv8>, i: nat, x: bv8, back: nat, m: nat): (r: seq<bv8>)
    requires i < |a|
    ensures |r| == |a|
  {
    if i == |a| - 1 then a[i := a[i] | ShiftRight(x, back)]
    else a[i := a[i] | ShiftRight(x, back)][i + 1 := ShiftLeft(x, m)]
  }

  /** A turn keeps the loop's array built, or, at the last index, completes Concat. */
  lemma TurnKeepsBuilt(a: seq<bv8>, l: Bits, r: Bits, t: nat, i: nat, back: nat)
    requires Built(a, l, r, t) && i == |l.bytes| - 1 + t && back == 8 - l.missingBits
    ensures i == |a| - 1 ==> TurnBytes(a, i, r.bytes[t], back, l.missingBits) == Concat(l, r).bytes
    ensures i != |a| - 1 ==> Built(TurnBytes(a, i, r.bytes[t], back, l.missingBits), l, r, t + 1)
  {
    if i == |a| - 1 {
      BuiltLast(a, l, r, t, i, back);
    } else {
      BuiltStep(a, l, r, t, i, back);
    }
  }

  /** The as-written loop's array before turn t, on inputs where the loop ends: the bytes
      before |l|-1+t are the concatenation's and byte |l|-1+t holds the carry. */
  ghost predicate Built(a: seq<bv8>, l: Bits, r: Bits, t: nat)
  {
    Valid(l) && Valid(r) && l.missingBits > 0 && l.missingBits + r.missingBits >= 8
    && |a| == ConcatSize(l, r) && t < |r.bytes| && |l.bytes| - 1 + t < |a|
    && (forall k :: 0 <= k < |l.bytes| - 1 + t ==> a[k] == ConcatAt(l, r, k))
    && a[|l.bytes| - 1 + t] == Carry(l, r, t)
  }

  /** A turn of the as-written loop that does not reach the last index. */
  lemma BuiltStep(a: seq<bv8>, l: Bits, r: Bits, t: nat, i: nat, back: nat)
    requires Built(a, l, r, t) && i == |l.bytes| - 1 + t && back == 8 - l.missingBits && i < |a| - 1
    ensures Built(a[i := a[i] | ShiftRight(r.bytes[t], back)][i + 1 := ShiftLeft(r.bytes[t], l.missingBits)], l, r, t + 1)
  {
    JoinedByte(l, r, t, i, a[i], back);
    BuiltExtend(a, l, r, t, i, a[i] | ShiftRight(r.bytes[t], back), ShiftLeft(r.bytes[t], l.missingBits));
  }

  /** The byte a turn stores at i is the concatenation's, and the byte after it the next
      carry. */
  lemma JoinedByte(l: Bits, r: Bits, t: nat, i: nat, carry: bv8, back: nat)
    requires Valid(l) && l.missingBits > 0 && t < |r.bytes| && i == |l.bytes| - 1 + t
    requires carry == Carry(l, r, t) && back == 8 - l.missingBits
    ensures carry | ShiftRight(r.bytes[t], back) == ConcatAt(l, r, i)
    ensures t + 1 <= |r.bytes| ==> ShiftLeft(r.bytes[t], l.missingBits) == Carry(l, r, t + 1)
  {
    ConcatAtJoined(l, r, t, i);
  }

  /** Storing the concatenation's byte i and the next carry extends the built prefix. */
  lemma BuiltExtend(a: seq<bv8>, l: Bits, r: Bits, t: nat, i: nat, p: bv8, q: bv8)
    requires Built(a, l, r, t) && i == |l.bytes| - 1 + t && i < |a| - 1
    requires p == ConcatAt(l, r, i) && t + 1 < |r.bytes| && q == Carry(l, r, t + 1)
    ensures Built(a[i := p][i + 1 := q], l, r, t + 1)
  {
    var b := a[i := p][i + 1 := q];
    assert |l.bytes| - 1 + (t + 1) == i + 1;
    forall k | 0 <= k < i + 1
      ensures b[k] == ConcatAt(l, r, k)
    {
    }
  }

  /** The turn of the as-written loop that reaches the last index completes Concat. */
  lemma BuiltLast(a: seq<bv8>, l: Bits, r: Bits, t: nat, i: nat, back: nat)
    requires Built(a, l, r, t) && i == |l.bytes| - 1 + t && back == 8 - l.missingBits && i == |a| - 1
    ensures a[i := a[i] | ShiftRight(r.bytes[t], back)] == Concat(l, r).bytes
  {
    ConcatAtJoined(l, r, t, i);
    ConcatAsWrittenResult(l, r, a[i := a[i] | ShiftRight(r.bytes[t], back)], t);
  }

  /** The as-written loop's array, once it stops at the last index, is Concat's bytes. */
  lemma ConcatAsWrittenResult(l: Bits, r: Bits, result: seq<bv8>, ri: nat)
    requires Valid(l) && Valid(r) && l.missingBits > 0 && l.missingBits + r.missingBits >= 8
    requires ri < |r.bytes| && |result| == ConcatSize(l, r) && |l.bytes| - 1 + ri == |result| - 1
    requires forall k :: 0 <= k < |result| ==> result[k] == ConcatAt(l, r, k)
    ensures result == Concat(l, r).bytes
  {
  }

  // ---------------------------------------------------------------- scanner

  /** Scanner.Next on the scanner's bytes at bit offset `offset`, recording `missing` as
      the field's missing bits. A field that ends on a byte boundary is sliced out whole;
      any other field is built from bytes shifted left by the start bit, with its last
      byte overwritten from the field's first byte. */
  function NextField(bytes: seq<bv8>, offset: nat, bitSize: nat, missing: uint8): Result<Bits>
  {
    var byteStart := offset / 8;
    var bitStart := offset % 8;
    var byteSize := bitSize / 8 + (if bitSize % 8 > 0 then 1 else 0);
    if (offset + bitSize) % 8 == 0 then
      if byteStart + byteSize <= |bytes| then
        Ok(Bits(missing, bytes[byteStart..byteStart + byteSize]))
      else Panic("slice bounds out of range")
    else if byteSize == 0 || byteStart + (if byteSize >= 2 then byteSize - 2 else 0) >= |bytes| then
      Panic("index out of range")
    else
      Ok(Bits(missing, Shifted(bytes, byteStart, byteSize, bitStart)))
  }

  /** The field bytes of an unaligned field: each byte shifted left by the start bit, the
      last one taken from the field's first byte. */
  function Shifted(bytes: seq<bv8>, byteStart: nat, byteSize: nat, bitStart: nat): (r: seq<bv8>)
    requires byteSize > 0 && byteStart + (if byteSize >= 2 then byteSize - 2 else 0) < |bytes|
    ensures |r| == byteSize
  {
    seq(byteSize, i requires 0 <= i < byteSize =>
          ShiftLeft(bytes[byteStart + (if i < byteSize - 1 then i else 0)], bitStart))
  }

  /** Next as written: the missing bits are bitSize mod 8, the number of bits the field
      USES in its last byte. */
  function NextBitsAsWritten(bytes: seq<bv8>, offset: nat, bitSize: nat): Result<Bits>
  {
    NextField(bytes, offset, bitSize, bitSize % 8)
  }

  /** A 3-bit field read as written reports a length of 5 bits. */
  lemma NextLengthAsWritten()
    ensures NextBitsAsWritten([0], 0, 3).Ok?
    ensures Len(NextBitsAsWritten([0], 0, 3).value) == 5
  {
  }

  /** Next with the missing bits counted as the unused bits of the last byte. */
  function NextBits(bytes: seq<bv8>, offset: nat, bitSize: nat): Result<Bits>
  {
    NextField(bytes, offset, bitSize, (8 - bitSize % 8) % 8)
  }

  /** For a whole number of bytes the field as written is the intended one. */
  lemma NextAgrees(bytes: seq<bv8>, offset: nat, bitSize: nat)
    requires bitSize % 8 == 0
    ensures NextBitsAsWritten(bytes, offset, bitSize) == NextBits(bytes, offset, bitSize)
  {
  }

  /** A whole-byte field at a byte offset is exactly the next bytes of the input. */
  lemma NextWholeBytes(bytes: seq<bv8>, offset: nat, bitSize: nat)
    requires offset % 8 == 0 && bitSize % 8 == 0
    requires offset / 8 + bitSize / 8 <= |bytes|
    ensures NextBits(bytes, offset, bitSize)
         == Ok(Bits(0, bytes[offset / 8..offset / 8 + bitSize / 8]))
  {
    assert (offset + bitSize) % 8 == 0;
  }

  /** Next never panics for a field that fits in the input, and the field it returns is
      a valid buffer exactly bitSize bits long. */
  lemma NextInRange(bytes: seq<bv8>, offset: nat, bitSize: nat)
    requires bitSize > 0 && offset + bitSize <= 8 * |bytes|
    ensures NextBits(bytes, offset, bitSize).Ok?
    ensures Valid(NextBits(bytes, offset, bitSize).value)
    ensures Len(NextBits(bytes, offset, bitSize).value) == bitSize
  {
    var byteStart := offset / 8;
    var byteSize := bitSize / 8 + (if bitSize % 8 > 0 then 1 else 0);
    assert 8 * byteSize - (8 - bitSize % 8) % 8 == bitSize;
    assert 8 * byteStart <= offset;
    if (offset + bitSize) % 8 == 0 {
      assert offset % 8 + bitSize % 8 == 0 || offset % 8 + bitSize % 8 == 8;
      assert 8 * (byteStart + byteSize) <= offset + bitSize + 7;
    } else {
      assert byteStart < |bytes|;
    }
  }

  /** The bytes of an unaligned field, as Next's loop leaves them, make up NextField. */
  lemma NextShifted(bytes: seq<bv8>, offset: nat, bitSize: nat, missing: uint8, field: seq<bv8>)
    requires (offset + bitSize) % 8 != 0
    requires |field| == bitSize / 8 + (if bitSize % 8 > 0 then 1 else 0) > 0
    requires offset / 8 < |bytes| && offset / 8 + |field| - 2 < |bytes|
    requires forall k :: 0 <= k < |field| - 1 ==> field[k] == ShiftLeft(bytes[offset / 8 + k], offset % 8)
    requires field[|field| - 1] == ShiftLeft(bytes[offset / 8], offset % 8)
    ensures NextField(bytes, offset, bitSize, missing) == Ok(Bits(missing, field))
  {
    var n := |field|;
    var shifted := seq(n, i requires 0 <= i < n =>
                         ShiftLeft(bytes[offset / 8 + (if i < n - 1 then i else 0)], offset % 8));
    assert shifted == field;
  }

  /** An unaligned field whose bytes run past the input panics. */
  lemma NextPanics(bytes: seq<bv8>, offset: nat, bitSize: nat, missing: uint8)
    requires (offset + bitSize) % 8 != 0
    requires var byteSize := bitSize / 8 + (if bitSize % 8 > 0 then 1 else 0);
             byteSize == 0 || offset / 8 >= |bytes| || offset / 8 + byteSize - 2 >= |bytes|
    ensures NextField(bytes, offset, bitSize, missing) == Panic("index out of range")
  {
  }

  class Scanner {
    var bitOffset: nat
    const bytes: seq<bv8>

    constructor (data: seq<bv8>)
      ensures bytes == data && bitOffset == 0
    {
      bytes := data;
      bitOffset := 0;
    }

    /** Reads the next bitSize-bit field and advances past it; the field records
        bitSize mod 8 as its missing bits, as the source does (see NextBitsAsWritten). */
    method Next(bitSize: nat) returns (b: Result<Bits>)
      modifies this
      ensures bitOffset == old(bitOffset) + bitSize
      ensures b == NextBitsAsWritten(bytes, old(bitOffset), bitSize)
    {
      var byteStart := bitOffset / 8;
      var bitEnd := (bitOffset + bitSize) % 8;
      var byteSize := bitSize / 8;
      var missing: uint8 := bitSize % 8;
      if missing > 0 {
        byteSize := byteSize + 1;
      }
      var start := bitOffset;
      bitOffset := bitOffset + bitSize;
      if bitEnd == 0 {
        if byteStart + byteSize > |bytes| {
          return Panic("slice bounds out of range");
        }
        return Ok(Bits(missing, bytes[byteStart..byteStart + byteSize]));
      }
      b := ShiftedField(bytes, start, bitSize, missing);
    }
  }

  /** The unaligned branch of Scanner.Next: each byte is shifted left by the start bit,
      the bits shifted out are OR-ed into the following byte (and then overwritten), and
      the last byte is taken from the field's first byte. */
  method ShiftedField(bytes: seq<bv8>, offset: nat, bitSize: nat, missing: uint8)
    returns (b: Result<Bits>)
    requires (offset + bitSize) % 8 != 0
    ensures b == NextField(bytes, offset, bitSize, missing)
  {
    var byteStart := offset / 8;
    var bitStart := offset % 8;
    var byteSize := bitSize / 8 + (if bitSize % 8 > 0 then 1 else 0);
    if byteSize == 0 {
      NextPanics(bytes, offset, bitSize, missing);
      return Panic("index out of range");
    }
    var result := new bv8[byteSize];
    var i := 0;
    while i < byteSize - 1
      invariant 0 <= i <= byteSize - 1
      invariant i > 0 ==> byteStart + i - 1 < |bytes|
      invariant forall k :: 0 <= k < i ==> result[k] == ShiftLeft(bytes[byteStart + k], bitStart)
    {
      if byteStart + i >= |bytes| {
        NextPanics(bytes, offset, bitSize, missing);
        return Panic("index out of range");
      }
      result[i] := ShiftLeft(bytes[byteStart + i], bitStart);
      result[i + 1] := result[i + 1] | ShiftRight(bytes[byteStart + i], 8 - bitStart);
      i := i + 1;
    }
    if byteStart >= |bytes| {
      NextPanics(bytes, offset, bitSize, missing);
      return Panic("index out of range");
    }
    result[byteSize - 1] := ShiftLeft(bytes[byteStart], bitStart);
    b := Ok(Bits(missing, result[..]));
    NextShifted(bytes, offset, bitSize, missing, result[..]);
  }
}
