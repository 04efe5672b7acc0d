/** The keyboard driver of hidapi/hidusage/keyboard.go: a 240-bit bitmap of pressed keys,
    and the parser that fills it from the input items of a keyboard report. */
module Keyboard {
  import opened Common
  import opened Descriptor
  import opened Usages
  import opened Fields
  import Bits

  /** KeyBits: a [30]byte array; key k is bit k mod 8 of byte k div 8. */
  type KeyBits = s: seq<bv8> | |s| == 30 witness Zeros(30)

  /** n zero bytes. */
  function Zeros(n: nat): (r: seq<bv8>)
    ensures |r| == n && forall i :: 0 <= i < n ==> r[i] == 0
  {
    if n == 0 then [] else Zeros(n - 1) + [0]
  }

  /** KeyBits{}: no key pressed. */
  const NoKeys: KeyBits := Zeros(30)

  /** Bit i of a byte. */
  predicate BitOf(b: bv8, i: nat)
    requires i < 8
  {
    b & (1 as bv8 << i) != 0
  }

  /** Whether key is pressed in the bitmap. */
  predicate Held(k: KeyBits, key: nat)
    requires key < 240
  {
    BitOf(k[key / 8], key % 8)
  }

  lemma HeldAt(k: KeyBits, byteIndex: nat, bitIndex: nat)
    requires byteIndex < 30 && bitIndex < 8
    ensures 8 * byteIndex + bitIndex < 240
    ensures Held(k, 8 * byteIndex + bitIndex) <==> BitOf(k[byteIndex], bitIndex)
  {
    Bits.DivMod8(8 * byteIndex + bitIndex, byteIndex, bitIndex);
  }

  /** IsPressed: the bit of the key; keys 240 to 255 index past the 30 bytes, which is a
      run-time panic. */
  function IsPressed(k: KeyBits, key: uint8): (r: Result<bool>)
    ensures r.Panic? <==> key >= 240
    ensures key < 240 ==> r == Ok(Held(k, key))
  {
    if key / 8 >= 30 then Panic("index out of range") else Ok(BitOf(k[key / 8], key % 8))
  }

  /** PressedKeys: exactly the pressed keys, in ascending order. */
  method PressedKeys(k: KeyBits) returns (keys: seq<uint8>)
    ensures forall x: nat :: x in keys <==> x < 240 && Held(k, x)
    ensures forall i, j :: 0 <= i < j < |keys| ==> keys[i] < keys[j]
  {
    keys := [];
    var byteIndex := 0;
    while byteIndex < 30
      invariant 0 <= byteIndex <= 30
      invariant forall x: nat :: x in keys <==> x < 8 * byteIndex && Held(k, x)
      invariant forall i, j :: 0 <= i < j < |keys| ==> keys[i] < keys[j]
      invariant forall i :: 0 <= i < |keys| ==> keys[i] < 8 * byteIndex
    {
      var b := k[byteIndex];
      var bitIndex := 0;
      while bitIndex < 8
        invariant 0 <= bitIndex <= 8
        invariant forall x: nat :: x in keys <==> x < 8 * byteIndex + bitIndex && Held(k, x)
        invariant forall i, j :: 0 <= i < j < |keys| ==> keys[i] < keys[j]
        invariant forall i :: 0 <= i < |keys| ==> keys[i] < 8 * byteIndex + bitIndex
      {
        HeldAt(k, byteIndex, bitIndex);
        if b & (1 as bv8 << bitIndex) != 0 {
          keys := keys + [8 * byteIndex + bitIndex];
        }
        bitIndex := bitIndex + 1;
      }
      byteIndex := byteIndex + 1;
    }
  }

  // ---------------------------------------------------------------- the driver

  /** KeyboardDriver: the input items and the byte each starts at, -1 for a constant
      item. */
  datatype KeyboardDriver = KeyboardDriver(inputs: seq<DataItem>, startBytes: seq<int>)

  /** The bit offset of item i: the sizes of the items before it. */
  function BitOffset(inputs: seq<DataItem>, i: nat): nat
    requires i <= |inputs|
  {
    if i == 0 then 0 else BitOffset(inputs, i - 1) + FieldSize(inputs[i - 1])
  }

  /** Whether NewKeyboardDriver accepts the items: all on the keyboard page, and every
      non-constant one starting on a byte boundary. */
  predicate Accepted(inputs: seq<DataItem>)
  {
    forall i :: 0 <= i < |inputs| ==>
      inputs[i].usagePage == KeyboardKeypad && (IsConstant(inputs[i].flags) || BitOffset(inputs, i) % 8 == 0)
  }

  /** The start byte NewKeyboardDriver records for item i. */
  function StartByte(inputs: seq<DataItem>, i: nat): int
    requires i < |inputs|
  {
    if IsConstant(inputs[i].flags) then -1 else BitOffset(inputs, i) / 8
  }

  /** A driver NewKeyboardDriver builds: one start byte per item, as StartByte says. */
  predicate Built(d: KeyboardDriver)
  {
    |d.startBytes| == |d.inputs| && forall i :: 0 <= i < |d.inputs| ==> d.startBytes[i] == StartByte(d.inputs, i)
  }

  /** NewKeyboardDriver: an error for an item off the keyboard page or a non-constant
      item that does not start on a byte boundary. */
  method NewKeyboardDriver(inputs: seq<DataItem>) returns (r: Result<KeyboardDriver>)
    ensures r.Ok? <==> Accepted(inputs)
    ensures r.Ok? ==> r.value.inputs == inputs && Built(r.value)
    ensures !r.Panic?
  {
    var bitOffset := 0;
    var startBytes := [];
    var i := 0;
    while i < |inputs|
      invariant 0 <= i <= |inputs| && bitOffset == BitOffset(inputs, i) && |startBytes| == i
      invariant forall j :: 0 <= j < i ==> startBytes[j] == StartByte(inputs, j)
      invariant forall j :: 0 <= j < i ==>
                  inputs[j].usagePage == KeyboardKeypad && (IsConstant(inputs[j].flags) || BitOffset(inputs, j) % 8 == 0)
    {
      var item := inputs[i];
      if item.usagePage != KeyboardKeypad {
        return Err("unsupported usage page");
      }
      if IsConstant(item.flags) {
        bitOffset := bitOffset + item.reportSize * item.reportCount;
        startBytes := startBytes + [-1];
      } else {
        if bitOffset % 8 != 0 {
          return Err("report descriptor is not byte-aligned");
        }
        startBytes := startBytes + [bitOffset / 8];
        bitOffset := bitOffset + item.reportSize * item.reportCount;
      }
      i := i + 1;
    }
    return Ok(KeyboardDriver(inputs, startBytes));
  }

  /** The number of bytes Parse reads for an item. */
  function ByteSize(d: DataItem): nat
  {
    (FieldSize(d) + 7) / 8
  }

  /** The bytes the driver reads for two different non-constant items never overlap. */
  lemma ReadsDisjoint(d: KeyboardDriver, i: nat, j: nat)
    requires Built(d) && Accepted(d.inputs) && i < j < |d.inputs|
    requires !IsConstant(d.inputs[i].flags) && !IsConstant(d.inputs[j].flags)
    ensures d.startBytes[i] + ByteSize(d.inputs[i]) <= d.startBytes[j]
  {
    OffsetGrows(d.inputs, i + 1, j);
    var oi, oj := BitOffset(d.inputs, i), BitOffset(d.inputs, j);
    assert oi % 8 == 0 && oj % 8 == 0;
    assert oi + FieldSize(d.inputs[i]) <= oj;
  }

  lemma {:induction false} OffsetGrows(inputs: seq<DataItem>, i: nat, j: nat)
    requires i <= j <= |inputs|
    ensures BitOffset(inputs, i) <= BitOffset(inputs, j)
  {
    if i < j {
      OffsetGrows(inputs, i, j - 1);
    }
  }

  // ---------------------------------------------------------------- Parse

  /** A variable item: its nonzero bytes are copied from byte start on; a zero byte never
      overwrites, so overlapping items keep each other's keys. */
  function CopyNonzero(keys: KeyBits, start: nat, data: seq<bv8>): KeyBits
  {
    seq(30, x requires 0 <= x < 30 => if start <= x < start + |data| && data[x - start] != 0 then data[x - start] else keys[x])
  }

  /** Whether every nonzero byte of a variable item lands inside the bitmap. */
  predicate CopyFits(start: nat, data: seq<bv8>)
  {
    forall j :: 0 <= j < |data| && data[j] != 0 ==> start + j < 30
  }

  /** An array item: the bit of every nonzero keycode is set. */
  function SetKeyBits(keys: KeyBits, data: seq<bv8>): KeyBits
    requires ArrayFits(data)
  {
    if data == [] then keys
    else
      var k := SetKeyBits(keys, data[..|data| - 1]);
      var b := data[|data| - 1];
      if b == 0 then k else k[b as int / 8 := k[b as int / 8] | (1 as bv8 << (b as int % 8))]
  }

  /** Whether every nonzero keycode of an array item is below 240. */
  predicate ArrayFits(data: seq<bv8>)
  {
    forall j :: 0 <= j < |data| ==> data[j] as int < 240
  }

  /** Setting the bit of a key keeps the other keys and presses that one. */
  lemma PressOne(k: KeyBits, b: bv8, x: nat)
    requires 0 < b as int < 240 && x < 240
    ensures var k2 := k[b as int / 8 := k[b as int / 8] | (1 as bv8 << (b as int % 8))];
            Held(k2, x) <==> Held(k, x) || x == b as int
  {
    var i, j := x / 8, b as int / 8;
    if i == j && x % 8 != b as int % 8 {
      var p, q := x % 8, b as int % 8;
      assert (k[i] | (1 as bv8 << q)) & (1 as bv8 << p) == k[i] & (1 as bv8 << p) by {
        assert p < 8 && q < 8 && p != q;
        BitDistinct(k[i], p, q);
      }
    }
  }

  lemma BitDistinct(a: bv8, p: nat, q: nat)
    requires p < 8 && q < 8 && p != q
    ensures (a | (1 as bv8 << q)) & (1 as bv8 << p) == a & (1 as bv8 << p)
  {
  }

  /** Whether a nonzero keycode of the item is x. */
  predicate Lists(data: seq<bv8>, x: nat)
  {
    exists j :: 0 <= j < |data| && data[j] != 0 && data[j] as int == x
  }

  lemma ListsLast(init: seq<bv8>, b: bv8, x: nat)
    ensures Lists(init + [b], x) <==> Lists(init, x) || (b != 0 && b as int == x)
  {
    var data := init + [b];
    if Lists(data, x) && !(b != 0 && b as int == x) {
      var j :| 0 <= j < |data| && data[j] != 0 && data[j] as int == x;
      assert j < |init| && init[j] == data[j];
    }
    if Lists(init, x) {
      var j :| 0 <= j < |init| && init[j] != 0 && init[j] as int == x;
      assert data[j] == init[j];
    }
    if b != 0 && b as int == x {
      assert data[|init|] == b;
    }
  }

  /** An array item presses exactly its nonzero keycodes, on top of the keys pressed
      before it. */
  lemma {:induction false} SetKeyBitsHeld(keys: KeyBits, data: seq<bv8>, x: nat)
    requires ArrayFits(data) && x < 240
    ensures Held(SetKeyBits(keys, data), x) <==> Held(keys, x) || Lists(data, x)
  {
    if data != [] {
      var init := data[..|data| - 1];
      var b := data[|data| - 1];
      assert data == init + [b];
      SetKeyBitsHeld(keys, init, x);
      ListsLast(init, b, x);
      if b != 0 {
        PressOne(SetKeyBits(keys, init), b, x);
      }
    }
  }

  /** The keys after item i of the driver, or the panic a read past the report, or a write
      past the bitmap, causes. */
  function ParseItem(d: KeyboardDriver, report: seq<bv8>, keys: KeyBits, i: nat): (r: Result<KeyBits>)
    requires Built(d) && i < |d.inputs|
  {
    var item := d.inputs[i];
    var start := d.startBytes[i];
    if start < 0 then Ok(keys)
    else if start + ByteSize(item) > |report| then Panic("slice bounds out of range")
    else
      var data := report[start..start + ByteSize(item)];
      if IsVariable(item.flags) then
        if CopyFits(item.usageMinimum as int / 8, data) then Ok(CopyNonzero(keys, item.usageMinimum as int / 8, data))
        else Panic("index out of range")
      else
        if ArrayFits(data) then Ok(SetKeyBits(keys, data)) else Panic("index out of range")
  }

  /** The keys after the first n items, starting from none. */
  function ParseItems(d: KeyboardDriver, report: seq<bv8>, n: nat): Result<KeyBits>
    requires Built(d) && n <= |d.inputs|
  {
    if n == 0 then Ok(NoKeys)
    else
      match ParseItems(d, report, n - 1)
      case Ok(keys) => ParseItem(d, report, keys, n - 1)
      case Err(m) => Err(m)
      case Panic(m) => Panic(m)
  }

  /** A panic stops Parse: the items after it change nothing. */
  lemma {:induction false} PanicSticks(d: KeyboardDriver, report: seq<bv8>, i: nat, n: nat, m: string)
    requires Built(d) && i <= n <= |d.inputs| && ParseItems(d, report, i) == Panic(m)
    ensures ParseItems(d, report, n) == Panic(m)
  {
    if i < n {
      PanicSticks(d, report, i, n - 1, m);
    }
  }

  /** Parse: the bitmap of the report's pressed keys. The report ID byte is not skipped. */
  method Parse(d: KeyboardDriver, report: seq<bv8>) returns (r: Result<KeyBits>)
    requires Built(d)
    ensures r == ParseItems(d, report, |d.inputs|)
  {
    var keys := new bv8[30](i => 0);
    assert keys[..] == NoKeys;
    var i := 0;
    while i < |d.inputs|
      invariant 0 <= i <= |d.inputs|
      invariant ParseItems(d, report, i) == Ok(keys[..])
    {
      var panic := ParseInto(d, report, keys, i);
      if panic.Some? {
        PanicSticks(d, report, i + 1, |d.inputs|, panic.value);
        return Panic(panic.value);
      }
      i := i + 1;
    }
    return Ok(keys[..]);
  }

  /** One pass of Parse's loop on the key array: the panic it meets, if any. */
  method ParseInto(d: KeyboardDriver, report: seq<bv8>, keys: array<bv8>, i: nat) returns (panic: Option<string>)
    requires Built(d) && i < |d.inputs| && keys.Length == 30
    modifies keys
    ensures panic.None? ==> ParseItem(d, report, old(keys[..]), i) == Ok(keys[..])
    ensures panic.Some? ==> ParseItem(d, report, old(keys[..]), i) == Panic(panic.value)
  {
    var item := d.inputs[i];
    var start := d.startBytes[i];
    if start < 0 {
      return None;
    }
    var size := ByteSize(item);
    if start + size > |report| {
      return Some("slice bounds out of range");
    }
    var data := report[start..start + size];
    var ok;
    if IsVariable(item.flags) {
      ok := CopyInto(keys, item.usageMinimum as int / 8, data);
    } else {
      ok := PressInto(keys, data);
    }
    if !ok {
      return Some("index out of range");
    }
    return None;
  }

  /** The variable case of Parse on the key array; false where it would panic. */
  method CopyInto(keys: array<bv8>, start: nat, data: seq<bv8>) returns (ok: bool)
    requires keys.Length == 30
    modifies keys
    ensures ok <==> CopyFits(start, data)
    ensures ok ==> keys[..] == CopyNonzero(old(keys[..]), start, data)
  {
    ghost var k0: KeyBits := keys[..];
    var j := 0;
    while j < |data|
      invariant 0 <= j <= |data| && CopyFits(start, data[..j])
      invariant keys[..] == CopyNonzero(k0, start, data[..j])
    {
      if data[j] != 0 {
        if start + j >= 30 {
          assert !CopyFits(start, data);
          return false;
        }
        keys[start + j] := data[j];
      }
      assert data[..j + 1] == data[..j] + [data[j]];
      j := j + 1;
    }
    assert data[..j] == data;
    return true;
  }

  /** The array case of Parse on the key array; false where it would panic. */
  method PressInto(keys: array<bv8>, data: seq<bv8>) returns (ok: bool)
    requires keys.Length == 30
    modifies keys
    ensures ok <==> ArrayFits(data)
    ensures ok ==> keys[..] == SetKeyBits(old(keys[..]), data)
  {
    ghost var k0: KeyBits := keys[..];
    var j := 0;
    while j < |data|
      invariant 0 <= j <= |data| && ArrayFits(data[..j])
      invariant keys[..] == SetKeyBits(k0, data[..j])
    {
      var b := data[j];
      if b != 0 && b as int / 8 >= 30 {
        assert data[j] as int >= 240;
        return false;
      }
      SetKeyBitsSnoc(k0, data, j);
      if b != 0 {
        PressKey(keys, b);
      }
      j := j + 1;
    }
    assert data[..j] == data;
    return true;
  }

  /** Sets the bit of keycode b in the key array. */
  method PressKey(keys: array<bv8>, b: bv8)
    requires keys.Length == 30 && 0 < b as int < 240
    modifies keys
    ensures keys[..] == old(keys[..])[b as int / 8 := old(keys[b as int / 8]) | (1 as bv8 << (b as int % 8))]
  {
    keys[b as int / 8] := keys[b as int / 8] | (1 as bv8 << (b as int % 8));
  }

  /** One more keycode of an array item: its bit is set on what the earlier ones built. */
  lemma SetKeyBitsSnoc(keys: KeyBits, data: seq<bv8>, j: nat)
    requires j < |data| && ArrayFits(data[..j]) && data[j] as int < 240
    ensures ArrayFits(data[..j + 1])
    ensures var k := SetKeyBits(keys, data[..j]);
            var b := data[j];
            SetKeyBits(keys, data[..j + 1])
            == if b == 0 then k else k[b as int / 8 := k[b as int / 8] | (1 as bv8 << (b as int % 8))]
  {
    assert data[..j + 1][..j] == data[..j];
  }
}
