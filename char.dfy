/** The Char action of components/actions/char.go: one printable ASCII character mapped to
    a key of the Keyboard/Keypad page for a US layout, together with whether Shift must be
    held to type it. */
module Chars {
  import opened Common
  import opened Usages

  // Keyboard/Keypad page usage IDs (HID Usage Tables, section 10).
  const KeyA: uint8 := 0x04
  const Key1: uint8 := 0x1E
  const Key2: uint8 := 0x1F
  const Key3: uint8 := 0x20
  const Key4: uint8 := 0x21
  const Key5: uint8 := 0x22
  const Key6: uint8 := 0x23
  const Key7: uint8 := 0x24
  const Key8: uint8 := 0x25
  const Key9: uint8 := 0x26
  const Key0: uint8 := 0x27
  const KeyEnter: uint8 := 0x28
  const KeySpacebar: uint8 := 0x2C
  const KeyMinus: uint8 := 0x2D
  const KeyEqual: uint8 := 0x2E
  const KeyLeftBracket: uint8 := 0x2F
  const KeyRightBracket: uint8 := 0x30
  const KeyBackslash: uint8 := 0x31
  const KeySemicolon: uint8 := 0x33
  const KeyQuote: uint8 := 0x34
  const KeyGraveAccent: uint8 := 0x35
  const KeyComma: uint8 := 0x36
  const KeyPeriod: uint8 := 0x37
  const KeySlash: uint8 := 0x38
  const KeyLeftShift: uint8 := 0xE1
  const KeyRightShift: uint8 := 0xE5

  /** asciiCharMap read as a Go map: a character it lacks reads as 0. */
  function AsciiKey(r: char): uint8
  {
    match r
    case '-' => KeyMinus
    case '=' => KeyEqual
    case '[' => KeyLeftBracket
    case ']' => KeyRightBracket
    case '\\' => KeyBackslash
    case ';' => KeySemicolon
    case '\'' => KeyQuote
    case ',' => KeyComma
    case '.' => KeyPeriod
    case '/' => KeySlash
    case '`' => KeyGraveAccent
    case ' ' => KeySpacebar
    case _ => 0
  }

  /** asciiCharMapShifted read as a Go map: a character it lacks reads as 0. */
  function AsciiShiftedKey(r: char): uint8
  {
    match r
    case '_' => KeyMinus
    case '+' => KeyEqual
    case '{' => KeyLeftBracket
    case '}' => KeyRightBracket
    case '|' => KeyBackslash
    case ':' => KeySemicolon
    case '"' => KeyQuote
    case '<' => KeyComma
    case '>' => KeyPeriod
    case '?' => KeySlash
    case '~' => KeyGraveAccent
    case '!' => Key1
    case '@' => Key2
    case '#' => Key3
    case '$' => Key4
    case '%' => Key5
    case '^' => Key6
    case '&' => Key7
    case '*' => Key8
    case '(' => Key9
    case ')' => Key0
    case _ => 0
  }

  /** The key to press and whether Shift must be held with it. */
  datatype CharKey = CharKey(key: uint8, shift: bool)

  predicate Printable(r: char)
  {
    ' ' <= r <= '~'
  }

  /** GetAsciiCharKey exactly as written: a digit d maps to Key0 + d. */
  function GetAsciiCharKeyAsWritten(r: char): (res: Result<CharKey>)
    ensures res.Ok? ==> Printable(r)
  {
    if r < ' ' || r > '~' then Err("char must be a printable ASCII character")
    else if AsciiKey(r) != 0 then Ok(CharKey(AsciiKey(r), false))
    else if AsciiShiftedKey(r) != 0 then Ok(CharKey(AsciiShiftedKey(r), true))
    else if 'a' <= r <= 'z' then Ok(CharKey(KeyA + (r as int - 'a' as int), false))
    else if 'A' <= r <= 'Z' then Ok(CharKey(KeyA + (r as int - 'A' as int), true))
    else if '0' <= r <= '9' then Ok(CharKey(Key0 + (r as int - '0' as int), false))
    else Err("unsupported character")
  }

  /** The key of a digit as the HID Keyboard/Keypad page numbers them: '1'..'9' from Key1
      upwards, and '0' after '9'. */
  function DigitKey(r: char): (k: uint8)
    requires '0' <= r <= '9'
    ensures Key1 <= k <= Key0
  {
    if r == '0' then Key0 else Key1 + (r as int - '1' as int)
  }

  /** GetAsciiCharKey with the digit row numbered as the HID page numbers it; every other
      case as written. */
  function GetAsciiCharKey(r: char): (res: Result<CharKey>)
    ensures res.Ok? ==> Printable(r)
  {
    if r < ' ' || r > '~' then Err("char must be a printable ASCII character")
    else if AsciiKey(r) != 0 then Ok(CharKey(AsciiKey(r), false))
    else if AsciiShiftedKey(r) != 0 then Ok(CharKey(AsciiShiftedKey(r), true))
    else if 'a' <= r <= 'z' then Ok(CharKey(KeyA + (r as int - 'a' as int), false))
    else if 'A' <= r <= 'Z' then Ok(CharKey(KeyA + (r as int - 'A' as int), true))
    else if '0' <= r <= '9' then Ok(CharKey(DigitKey(r), false))
    else Err("unsupported character")
  }

  /** The two versions differ only on the digits '1' to '9'. */
  lemma AsWrittenDiffersOnlyOnDigits(r: char)
    ensures GetAsciiCharKeyAsWritten(r) == GetAsciiCharKey(r) <==> !('1' <= r <= '9')
  {
  }

  /** As written, '1' types Enter and '9' types the same key as ']'. */
  lemma DigitsAsWrittenCollide()
    ensures GetAsciiCharKeyAsWritten('1') == Ok(CharKey(KeyEnter, false))
    ensures GetAsciiCharKeyAsWritten('9') == GetAsciiCharKeyAsWritten(']')
  {
  }

  // ---------------------------------------------------------------- the inverse

  /** The character an unshifted non-letter, non-digit key types on a US layout. */
  function UnshiftedChar(key: uint8): Option<char>
  {
    match key
    case 0x2C => Some(' ')
    case 0x2D => Some('-')
    case 0x2E => Some('=')
    case 0x2F => Some('[')
    case 0x30 => Some(']')
    case 0x31 => Some('\\')
    case 0x33 => Some(';')
    case 0x34 => Some('\'')
    case 0x35 => Some('`')
    case 0x36 => Some(',')
    case 0x37 => Some('.')
    case 0x38 => Some('/')
    case _ => None
  }

  /** The character a non-letter key types with Shift held on a US layout. */
  function ShiftedChar(key: uint8): Option<char>
  {
    match key
    case 0x1E => Some('!')
    case 0x1F => Some('@')
    case 0x20 => Some('#')
    case 0x21 => Some('$')
    case 0x22 => Some('%')
    case 0x23 => Some('^')
    case 0x24 => Some('&')
    case 0x25 => Some('*')
    case 0x26 => Some('(')
    case 0x27 => Some(')')
    case 0x2D => Some('_')
    case 0x2E => Some('+')
    case 0x2F => Some('{')
    case 0x30 => Some('}')
    case 0x31 => Some('|')
    case 0x33 => Some(':')
    case 0x34 => Some('"')
    case 0x35 => Some('~')
    case 0x36 => Some('<')
    case 0x37 => Some('>')
    case 0x38 => Some('?')
    case _ => None
  }

  /** What a key, with or without Shift, types on a US layout: an independent reading of
      the HID key layout, written by key rather than by character. */
  function Typed(k: CharKey): Option<char>
  {
    if KeyA <= k.key < KeyA + 26 then
      Some(((if k.shift then 'A' else 'a') as int + (k.key - KeyA)) as char)
    else if !k.shift && Key1 <= k.key <= Key9 then Some(('1' as int + (k.key - Key1)) as char)
    else if !k.shift && k.key == Key0 then Some('0')
    else if k.shift then ShiftedChar(k.key)
    else UnshiftedChar(k.key)
  }

  /** Every printable ASCII character is accepted, and its key typed with its shift state
      gives back that very character; nothing else is accepted. */
  lemma CharKeyRoundTrip(r: char)
    ensures GetAsciiCharKey(r).Ok? <==> Printable(r)
    ensures GetAsciiCharKey(r).Ok? ==> Typed(GetAsciiCharKey(r).value) == Some(r)
  {
    if Printable(r) {
      var n := r as int;
      if 'a' <= r <= 'z' || 'A' <= r <= 'Z' || '0' <= r <= '9' {
      } else {
        assert n in {32, 33, 34, 35, 36, 37, 38, 39, 40, 41, 42, 43, 44, 45, 46, 47,
                     58, 59, 60, 61, 62, 63, 64, 91, 92, 93, 94, 95, 96, 123, 124, 125, 126};
      }
    }
  }

  /** Hence two different characters never share a key and shift state. */
  lemma CharKeyInjective(r1: char, r2: char)
    requires GetAsciiCharKey(r1).Ok? && GetAsciiCharKey(r2).Ok? && r1 != r2
    ensures GetAsciiCharKey(r1) != GetAsciiCharKey(r2)
  {
    CharKeyRoundTrip(r1);
    CharKeyRoundTrip(r2);
  }

  /** Letters: lower case is KeyA plus the offset without Shift, upper case the same key
      with Shift. */
  lemma LetterKeys(offset: nat)
    requires offset < 26
    ensures GetAsciiCharKey(('a' as int + offset) as char) == Ok(CharKey(KeyA + offset, false))
    ensures GetAsciiCharKey(('A' as int + offset) as char) == Ok(CharKey(KeyA + offset, true))
  {
  }

  /** The unshifted table is consulted first, then the shifted one. */
  lemma TablesFirst(r: char)
    requires Printable(r)
    ensures AsciiKey(r) != 0 ==> GetAsciiCharKey(r) == Ok(CharKey(AsciiKey(r), false))
    ensures AsciiKey(r) == 0 && AsciiShiftedKey(r) != 0 ==> GetAsciiCharKey(r) == Ok(CharKey(AsciiShiftedKey(r), true))
  {
  }

  /** Every shifted symbol sits on the key of some unshifted character or digit. */
  lemma ShiftedSharesBaseKey(r: char)
    requires AsciiShiftedKey(r) != 0
    ensures exists b :: Printable(b) && GetAsciiCharKey(b) == Ok(CharKey(AsciiShiftedKey(r), false))
  {
    var k := AsciiShiftedKey(r);
    if Key1 <= k <= Key9 {
      var b := ('1' as int + (k - Key1)) as char;
      assert GetAsciiCharKey(b) == Ok(CharKey(k, false));
    } else if k == Key0 {
      assert GetAsciiCharKey('0') == Ok(CharKey(k, false));
    } else {
      var b := UnshiftedChar(k).value;
      assert GetAsciiCharKey(b) == Ok(CharKey(k, false));
    }
  }

  /** The usages NewCharActionHandler presses: the key alone, or Shift held around it. */
  datatype CharAction = Plain(usage: Usage) | WithShift(modifier: Usage, usage: Usage)

  /** The action that types a looked-up key: the key alone, or with left or right Shift. */
  function ActionOf(k: CharKey, rightShift: bool): (a: CharAction)
    ensures a.usage == NewUsage(KeyboardKeypad, k.key)
    ensures a.WithShift? <==> k.shift
    ensures a.WithShift? ==> a.modifier == NewUsage(KeyboardKeypad, if rightShift then KeyRightShift else KeyLeftShift)
  {
    var usage := NewUsage(KeyboardKeypad, k.key);
    if k.shift then WithShift(NewUsage(KeyboardKeypad, if rightShift then KeyRightShift else KeyLeftShift), usage)
    else Plain(usage)
  }

  /** What the lookup as written gives: a key for every printable character, the one
      that types it unless it is a digit from '1' to '9', and Key0 + d for a digit d. */
  lemma AsWrittenKey(r: char)
    ensures GetAsciiCharKeyAsWritten(r).Ok? <==> Printable(r)
    ensures GetAsciiCharKeyAsWritten(r).Ok? && !('1' <= r <= '9') ==>
              Typed(GetAsciiCharKeyAsWritten(r).value) == Some(r)
    ensures '0' <= r <= '9' ==> GetAsciiCharKeyAsWritten(r) == Ok(CharKey(Key0 + (r as int - '0' as int), false))
  {
    CharKeyRoundTrip(r);
    AsWrittenDiffersOnlyOnDigits(r);
  }

  /** CreateHandler and NewCharActionHandler exactly as written: the argument must be one
      character, looked up with the digit branch as written, so that '1' to '9' press the
      keys Key0 + 1 to Key0 + 9 (Enter, Escape, ...) instead of the digits. */
  function NewCharActionAsWritten(s: string, rightShift: bool): (res: Result<CharAction>)
    ensures res.Ok? <==> |s| == 1 && Printable(s[0])
    ensures res.Ok? ==> Page(res.value.usage) == KeyboardKeypad && ID(res.value.usage) < 0x100
    ensures res.Ok? && !('1' <= s[0] <= '9') ==>
              Typed(CharKey(ID(res.value.usage) as uint8, res.value.WithShift?)) == Some(s[0])
    ensures res.Ok? && '0' <= s[0] <= '9' ==>
              res.value == Plain(NewUsage(KeyboardKeypad, Key0 + (s[0] as int - '0' as int)))
    ensures res.Ok? && res.value.WithShift? ==>
              res.value.modifier == NewUsage(KeyboardKeypad, if rightShift then KeyRightShift else KeyLeftShift)
  {
    if |s| != 1 then Err("char must be a single character")
    else
      AsWrittenKey(s[0]);
      var k :- GetAsciiCharKeyAsWritten(s[0]);
      Ok(ActionOf(k, rightShift))
  }

  /** NewCharActionHandler with the corrected lookup: an action exists exactly for one
      printable character, and it types that character. */
  function NewCharAction(s: string, rightShift: bool): (res: Result<CharAction>)
    ensures res.Ok? <==> |s| == 1 && Printable(s[0])
    ensures res.Ok? ==> Page(res.value.usage) == KeyboardKeypad
    ensures res.Ok? ==> ID(res.value.usage) < 0x100 &&
                        Typed(CharKey(ID(res.value.usage) as uint8, res.value.WithShift?)) == Some(s[0])
    ensures res.Ok? && res.value.WithShift? ==>
              res.value.modifier == NewUsage(KeyboardKeypad, if rightShift then KeyRightShift else KeyLeftShift)
  {
    if |s| != 1 then Err("char must be a single character")
    else
      CharKeyRoundTrip(s[0]);
      var k :- GetAsciiCharKey(s[0]);
      Ok(ActionOf(k, rightShift))
  }

  /** The handler as written and the corrected one build the same action for every
      argument except a single digit from '1' to '9', where they press different keys. */
  lemma {:induction false} CharActionDiffersOnlyOnDigits(s: string, rightShift: bool)
    ensures (NewCharActionAsWritten(s, rightShift) == NewCharAction(s, rightShift))
            <==> !(|s| == 1 && '1' <= s[0] <= '9')
  {
    if |s| == 1 {
      AsWrittenDiffersOnlyOnDigits(s[0]);
      if '1' <= s[0] <= '9' {
        assert DigitKey(s[0]) != Key0 + (s[0] as int - '0' as int);
        assert NewCharAction(s, rightShift).value.usage != NewCharActionAsWritten(s, rightShift).value.usage;
      }
    }
  }
}
