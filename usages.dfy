/** Usages of hidapi/usage.go: a 16-bit usage page and a 16-bit usage ID packed into one
    32-bit value, and the textual form ("key.A", "btn.3", "A") the flow configuration
    uses to name them. */
module Usages {
  import opened Common

  /** The packed usage: page in the high half, ID in the low half. */
  type Usage = uint32

  /** The two pages the textual form can name (HID Usage Tables, sections 10 and 12). */
  const KeyboardKeypad: uint16 := 0x07
  const Button: uint16 := 0x09

  /** NewUsage: the page shifted into the high half, OR-ed with the ID. The halves do not
      overlap, so the OR is a sum. */
  function NewUsage(page: uint16, id: uint16): (u: Usage)
    ensures u / 0x1_0000 == page && u % 0x1_0000 == id
  {
    page * 0x1_0000 + id
  }

  function Page(u: Usage): uint16
  {
    u / 0x1_0000
  }

  function ID(u: Usage): uint16
  {
    u % 0x1_0000
  }

  /** Packing and unpacking are inverse for every page, every ID and every usage. */
  lemma UsageRoundTrip(page: uint16, id: uint16, u: Usage)
    ensures Page(NewUsage(page, id)) == page && ID(NewUsage(page, id)) == id
    ensures NewUsage(Page(u), ID(u)) == u
    ensures NewUsage(page, id) == u <==> Page(u) == page && ID(u) == id
  {
  }

  // ---------------------------------------------------------------- strconv.Atoi

  predicate IsDigit(c: char)
  {
    '0' <= c <= '9'
  }

  predicate AllDigits(s: string)
  {
    forall i :: 0 <= i < |s| ==> IsDigit(s[i])
  }

  /** The value of a string of decimal digits. */
  function DigitsValue(s: string): nat
    requires AllDigits(s)
  {
    if s == [] then 0 else 10 * DigitsValue(s[..|s| - 1]) + (s[|s| - 1] - '0') as int
  }

  const MinInt64: int := -0x8000_0000_0000_0000
  const MaxInt64: int := 0x7FFF_FFFF_FFFF_FFFF

  /** The digits after an optional leading sign. */
  function Unsigned(s: string): (d: string)
    ensures |d| <= |s| && d == s[|s| - |d|..]
  {
    if |s| > 0 && (s[0] == '+' || s[0] == '-') then s[1..] else s
  }

  /** strconv.Atoi on a 64-bit platform: an optional sign, then one or more decimal
      digits, and a value that fits in int. */
  function Atoi(s: string): (r: Result<int>)
    ensures r.Ok? ==> MinInt64 <= r.value <= MaxInt64
    ensures Unsigned(s) == [] || !AllDigits(Unsigned(s)) ==> r == Err("invalid syntax")
  {
    var digits := Unsigned(s);
    if digits == [] || !AllDigits(digits) then Err("invalid syntax")
    else
      var v := if s[0] == '-' then 0 - DigitsValue(digits) else DigitsValue(digits);
      if v < MinInt64 || v > MaxInt64 then Err("value out of range") else Ok(v)
  }

  /** The decimal digits of n, without leading zeros. */
  function Decimal(n: nat): (s: string)
    ensures s != [] && AllDigits(s)
  {
    if n < 10 then [('0' as int + n) as char]
    else Decimal(n / 10) + [('0' as int + n % 10) as char]
  }

  lemma {:induction false} DecimalValue(n: nat)
    ensures DigitsValue(Decimal(n)) == n
  {
    if n >= 10 {
      DecimalValue(n / 10);
      var s := Decimal(n);
      assert s[..|s| - 1] == Decimal(n / 10);
    }
  }

  /** Atoi reads back every decimal numeral in range, signed or not. */
  lemma AtoiOfDecimal(n: nat)
    requires n <= MaxInt64
    ensures Atoi(Decimal(n)) == Ok(n)
    ensures Atoi("-" + Decimal(n)) == Ok(0 - n)
  {
    DecimalValue(n);
    AtoiOfDigits(Decimal(n), n);
    AtoiOfNegated(Decimal(n), n);
  }

  lemma AtoiOfDigits(d: string, n: nat)
    requires d != [] && AllDigits(d) && DigitsValue(d) == n && n <= MaxInt64
    ensures Atoi(d) == Ok(n)
  {
    UnsignedOfDigits(d);
  }

  lemma UnsignedOfDigits(d: string)
    requires d != [] && AllDigits(d)
    ensures Unsigned(d) == d
  {
    assert IsDigit(d[0]);
  }

  lemma AtoiOfNegated(d: string, n: nat)
    requires d != [] && AllDigits(d) && DigitsValue(d) == n && n <= MaxInt64
    ensures Atoi("-" + d) == Ok(0 - n)
  {
    var m := "-" + d;
    assert m[0] == '-' && m[1..] == d;
    assert Unsigned(m) == d;
  }

  // ---------------------------------------------------------------- usage names

  /** The usage a prefix and a name denote: "key" looks the name up as "Key<name>" in the
      key-code table (0 or absent is unknown), "btn" parses it as a decimal number that
      is then truncated to 16 bits. */
  function ParsePrefixed(keyCodes: map<string, uint8>, prefix: string, name: string): (r: Result<Usage>)
  {
    if prefix == "key" then
      var key := "Key" + name;
      if key !in keyCodes || keyCodes[key] == 0 then Err("invalid key code")
      else Ok(NewUsage(KeyboardKeypad, keyCodes[key]))
    else if prefix == "btn" then
      match Atoi(name)
      case Ok(code) => Ok(NewUsage(Button, code % 0x1_0000))
      case _ => Err("invalid button code")
    else Err("invalid usage prefix")
  }

  /** ParseUsage: "prefix.name", or a bare name meaning "key.name". */
  function ParseUsage(keyCodes: map<string, uint8>, s: string): (r: Result<Usage>)
  {
    var split := Split(s, '.');
    var parts := if |split| == 1 then ["key", split[0]] else split;
    if |parts| != 2 then Err("invalid usage")
    else ParsePrefixed(keyCodes, parts[0], parts[1])
  }

  /** A name with exactly one dot splits there; a name with none is a key name. */
  lemma ParseUsageCases(keyCodes: map<string, uint8>, prefix: string, name: string)
    requires '.' !in prefix && '.' !in name
    ensures ParseUsage(keyCodes, prefix + "." + name) == ParsePrefixed(keyCodes, prefix, name)
    ensures ParseUsage(keyCodes, name) == ParsePrefixed(keyCodes, "key", name)
  {
    SplitAt(prefix, '.', name);
    SplitSingle(name, '.');
    assert prefix + "." + name == prefix + ['.'] + name;
  }

  /** A name with two or more dots is rejected whatever surrounds them. */
  lemma TwoDotsRejected(keyCodes: map<string, uint8>, a: string, b: string, c: string)
    requires '.' !in a && '.' !in b
    ensures ParseUsage(keyCodes, a + "." + b + "." + c).Err?
  {
    SplitAt(a, '.', b + "." + c);
    SplitAt(b, '.', c);
    assert a + "." + b + "." + c == a + ['.'] + (b + ['.'] + c);
    assert b + "." + c == b + ['.'] + c;
  }

  /** "btn.N" for a decimal N names button N mod 2^16. */
  lemma ButtonNames(keyCodes: map<string, uint8>, n: nat)
    requires n <= MaxInt64
    ensures ParseUsage(keyCodes, "btn." + Decimal(n)) == Ok(NewUsage(Button, n % 0x1_0000))
  {
    var d := Decimal(n);
    AtoiOfDecimal(n);
    assert '.' !in d by {
      assert AllDigits(d);
    }
    ParseUsageCases(keyCodes, "btn", d);
    assert "btn." + d == "btn" + "." + d;
  }

  /** "key.X" names the table entry "KeyX" when it is present and non-zero, and is
      rejected otherwise. */
  lemma KeyNames(keyCodes: map<string, uint8>, name: string)
    requires '.' !in name
    ensures ParseUsage(keyCodes, "key." + name).Ok?
            <==> "Key" + name in keyCodes && keyCodes["Key" + name] != 0
    ensures ParseUsage(keyCodes, "key." + name).Ok?
            ==> ParseUsage(keyCodes, "key." + name).value == NewUsage(KeyboardKeypad, keyCodes["Key" + name])
  {
    ParseUsageCases(keyCodes, "key", name);
    assert "key." + name == "key" + "." + name;
  }

  /** A prefix other than "key" and "btn" is rejected. */
  lemma UnknownPrefixRejected(keyCodes: map<string, uint8>, prefix: string, name: string)
    requires '.' !in prefix && '.' !in name && prefix != "key" && prefix != "btn"
    ensures ParseUsage(keyCodes, prefix + "." + name) == Err("invalid usage prefix")
  {
    ParseUsageCases(keyCodes, prefix, name);
  }

  // ---------------------------------------------------------------- lists of names

  function TrimLeft(s: string): string
  {
    if s != [] && IsSpace(s[0]) then TrimLeft(s[1..]) else s
  }

  function TrimRight(s: string): string
  {
    if s != [] && IsSpace(s[|s| - 1]) then TrimRight(s[..|s| - 1]) else s
  }

  /** strings.TrimSpace over ASCII white space. */
  function TrimSpace(s: string): string
  {
    TrimRight(TrimLeft(s))
  }

  /** TrimLeft drops exactly the leading white space. */
  lemma {:induction false} TrimLeftDrops(s: string)
    ensures |TrimLeft(s)| <= |s| && TrimLeft(s) == s[|s| - |TrimLeft(s)|..]
    ensures TrimLeft(s) != [] ==> !IsSpace(TrimLeft(s)[0])
    ensures forall i :: 0 <= i < |s| - |TrimLeft(s)| ==> IsSpace(s[i])
  {
    if s != [] && IsSpace(s[0]) {
      TrimLeftDrops(s[1..]);
      assert s[1..][|s| - 1 - |TrimLeft(s)|..] == s[|s| - |TrimLeft(s)|..];
    }
  }

  /** TrimRight drops exactly the trailing white space. */
  lemma {:induction false} TrimRightDrops(s: string)
    ensures |TrimRight(s)| <= |s| && TrimRight(s) == s[..|TrimRight(s)|]
    ensures TrimRight(s) != [] ==> !IsSpace(TrimRight(s)[|TrimRight(s)| - 1])
    ensures forall i :: |TrimRight(s)| <= i < |s| ==> IsSpace(s[i])
  {
    if s != [] && IsSpace(s[|s| - 1]) {
      TrimRightDrops(s[..|s| - 1]);
      assert s[..|s| - 1][..|TrimRight(s)|] == s[..|TrimRight(s)|];
    }
  }

  /** TrimSpace returns a slice of its input that neither starts nor ends with white
      space, and everything it drops is white space. */
  lemma TrimSpaceSlice(s: string)
    ensures exists lo, hi :: 0 <= lo <= hi <= |s| && TrimSpace(s) == s[lo..hi]
                             && (forall i :: 0 <= i < lo ==> IsSpace(s[i]))
                             && (forall i :: hi <= i < |s| ==> IsSpace(s[i]))
    ensures TrimSpace(s) != [] ==> !IsSpace(TrimSpace(s)[0]) && !IsSpace(TrimSpace(s)[|TrimSpace(s)| - 1])
  {
    var l := TrimLeft(s);
    TrimLeftDrops(s);
    TrimRightDrops(l);
    var lo := |s| - |l|;
    var hi := lo + |TrimRight(l)|;
    assert TrimSpace(s) == s[lo..hi];
    forall i | hi <= i < |s| ensures IsSpace(s[i]) {
      assert s[i] == l[i - lo];
    }
  }

  /** One entry of ParseUsages: trimmed, rejected when empty, then parsed. */
  function Entry(keyCodes: map<string, uint8>, s: string): Result<Usage>
  {
    var part := TrimSpace(s);
    if part == "" then Err("empty usage") else ParseUsage(keyCodes, part)
  }

  /** All the values when every result is Ok, else the first failure. */
  function Collect(rs: seq<Result<Usage>>): (r: Result<seq<Usage>>)
    ensures r.Ok? <==> forall i :: 0 <= i < |rs| ==> rs[i].Ok?
    ensures r.Ok? ==> |r.value| == |rs| && forall i :: 0 <= i < |rs| ==> r.value[i] == rs[i].value
  {
    if rs == [] then Ok([])
    else
      var rest := Collect(rs[1..]);
      assert forall i :: 1 <= i < |rs| ==> rs[i] == rs[1..][i - 1];
      if !rs[0].Ok? then rs[0].PropagateFailure()
      else if !rest.Ok? then rest.PropagateFailure()
      else Ok([rs[0].value] + rest.value)
  }

  /** The failure Collect reports is the first one. */
  lemma {:induction false} CollectFirstFailure(rs: seq<Result<Usage>>, i: nat)
    requires i < |rs| && !rs[i].Ok?
    requires forall k :: 0 <= k < i ==> rs[k].Ok?
    ensures Collect(rs) == rs[i].PropagateFailure()
  {
    if i > 0 {
      assert forall k :: 0 <= k < i - 1 ==> rs[1..][k] == rs[k + 1];
      CollectFirstFailure(rs[1..], i - 1);
    }
  }

  /** The result of ParseUsages: every entry in order, or the failure of the first bad one. */
  function UsagesOf(keyCodes: map<string, uint8>, strs: seq<string>): Result<seq<Usage>>
  {
    Collect(seq(|strs|, i requires 0 <= i < |strs| => Entry(keyCodes, strs[i])))
  }

  /** The body of ParseUsages' loop for one entry. */
  method ParseEntry(keyCodes: map<string, uint8>, s: string) returns (r: Result<Usage>)
    ensures r == Entry(keyCodes, s)
  {
    var part := TrimSpace(s);
    if part == "" {
      return Err("empty usage");
    }
    r := ParseUsage(keyCodes, part);
  }

  /** ParseUsages: the loop over the entries, stopping at the first bad one. */
  method ParseUsages(keyCodes: map<string, uint8>, strs: seq<string>) returns (r: Result<seq<Usage>>)
    ensures r == UsagesOf(keyCodes, strs)
  {
    ghost var rs := seq(|strs|, i requires 0 <= i < |strs| => Entry(keyCodes, strs[i]));
    var usages: seq<Usage> := [];
    var i := 0;
    while i < |strs|
      invariant 0 <= i <= |strs| && |usages| == i
      invariant forall k :: 0 <= k < i ==> rs[k].Ok? && usages[k] == rs[k].value
    {
      var usage := ParseEntry(keyCodes, strs[i]);
      assert rs[i] == usage;
      if !usage.Ok? {
        CollectFirstFailure(rs, i);
        return usage.PropagateFailure();
      }
      usages := usages + [usage.value];
      i := i + 1;
    }
    assert UsagesOf(keyCodes, strs) == Collect(rs);
    assert Collect(rs).Ok? && Collect(rs).value == usages;
    r := Ok(usages);
  }

  /** ParseUsages succeeds exactly when every entry is non-blank after trimming and
      names a usage; it then returns those usages in order. */
  lemma UsagesOfEntries(keyCodes: map<string, uint8>, strs: seq<string>)
    ensures UsagesOf(keyCodes, strs).Ok? <==>
              forall i :: 0 <= i < |strs| ==>
                TrimSpace(strs[i]) != "" && ParseUsage(keyCodes, TrimSpace(strs[i])).Ok?
    ensures UsagesOf(keyCodes, strs).Ok? ==>
              |UsagesOf(keyCodes, strs).value| == |strs|
              && forall i :: 0 <= i < |strs| ==>
                   UsagesOf(keyCodes, strs).value[i] == ParseUsage(keyCodes, TrimSpace(strs[i])).value
  {
    var rs := seq(|strs|, i requires 0 <= i < |strs| => Entry(keyCodes, strs[i]));
    assert UsagesOf(keyCodes, strs) == Collect(rs);
    forall i | 0 <= i < |strs|
      ensures rs[i].Ok? <==> TrimSpace(strs[i]) != "" && ParseUsage(keyCodes, TrimSpace(strs[i])).Ok?
      ensures rs[i].Ok? ==> rs[i].value == ParseUsage(keyCodes, TrimSpace(strs[i])).value
    {
      assert rs[i] == Entry(keyCodes, strs[i]);
    }
  }
}
