/** The static tables of the keyboard emulator: Windows virtual-key codes,
    the character-to-key table and the two tables for characters typed with
    Shift held down. All are immutable. */
module Constants {
  import opened Results
  import opened Strings
  import opened Tables

  // Input types
  const INPUT_MOUSE: int := 0
  const INPUT_KEYBOARD: int := 1
  const INPUT_HARDWARE: int := 2

  // Keyboard event flags
  const KEYEVENTF_EXTENDEDKEY: int := 0x0001
  const KEYEVENTF_KEYUP: int := 0x0002
  const KEYEVENTF_UNICODE: int := 0x0004
  const KEYEVENTF_SCANCODE: int := 0x0008

  // Special keys
  const VK_BACK: int := 0x08
  const VK_TAB: int := 0x09
  const VK_RETURN: int := 0x0D
  const VK_SHIFT: int := 0x10
  const VK_CONTROL: int := 0x11
  const VK_MENU: int := 0x12
  const VK_PAUSE: int := 0x13
  const VK_CAPITAL: int := 0x14
  const VK_ESCAPE: int := 0x1B
  const VK_SPACE: int := 0x20
  const VK_PRIOR: int := 0x21
  const VK_NEXT: int := 0x22
  const VK_END: int := 0x23
  const VK_HOME: int := 0x24
  const VK_LEFT: int := 0x25
  const VK_UP: int := 0x26
  const VK_RIGHT: int := 0x27
  const VK_DOWN: int := 0x28
  const VK_SELECT: int := 0x29
  const VK_PRINT: int := 0x2A
  const VK_EXECUTE: int := 0x2B
  const VK_SNAPSHOT: int := 0x2C
  const VK_INSERT: int := 0x2D
  const VK_DELETE: int := 0x2E
  const VK_HELP: int := 0x2F

  // Digits
  const VK_0: int := 0x30
  const VK_1: int := 0x31
  const VK_2: int := 0x32
  const VK_3: int := 0x33
  const VK_4: int := 0x34
  const VK_5: int := 0x35
  const VK_6: int := 0x36
  const VK_7: int := 0x37
  const VK_8: int := 0x38
  const VK_9: int := 0x39

  // Letters
  const VK_A: int := 0x41
  const VK_B: int := 0x42
  const VK_C: int := 0x43
  const VK_D: int := 0x44
  const VK_E: int := 0x45
  const VK_F: int := 0x46
  const VK_G: int := 0x47
  const VK_H: int := 0x48
  const VK_I: int := 0x49
  const VK_J: int := 0x4A
  const VK_K: int := 0x4B
  const VK_L: int := 0x4C
  const VK_M: int := 0x4D
  const VK_N: int := 0x4E
  const VK_O: int := 0x4F
  const VK_P: int := 0x50
  const VK_Q: int := 0x51
  const VK_R: int := 0x52
  const VK_S: int := 0x53
  const VK_T: int := 0x54
  const VK_U: int := 0x55
  const VK_V: int := 0x56
  const VK_W: int := 0x57
  const VK_X: int := 0x58
  const VK_Y: int := 0x59
  const VK_Z: int := 0x5A

  // Windows keys
  const VK_LWIN: int := 0x5B
  const VK_RWIN: int := 0x5C
  const VK_APPS: int := 0x5D

  // Numeric keypad
  const VK_NUMPAD0: int := 0x60
  const VK_NUMPAD1: int := 0x61
  const VK_NUMPAD2: int := 0x62
  const VK_NUMPAD3: int := 0x63
  const VK_NUMPAD4: int := 0x64
  const VK_NUMPAD5: int := 0x65
  const VK_NUMPAD6: int := 0x66
  const VK_NUMPAD7: int := 0x67
  const VK_NUMPAD8: int := 0x68
  const VK_NUMPAD9: int := 0x69
  const VK_MULTIPLY: int := 0x6A
  const VK_ADD: int := 0x6B
  const VK_SEPARATOR: int := 0x6C
  const VK_SUBTRACT: int := 0x6D
  const VK_DECIMAL: int := 0x6E
  const VK_DIVIDE: int := 0x6F

  // Function keys
  const VK_F1: int := 0x70
  const VK_F2: int := 0x71
  const VK_F3: int := 0x72
  const VK_F4: int := 0x73
  const VK_F5: int := 0x74
  const VK_F6: int := 0x75
  const VK_F7: int := 0x76
  const VK_F8: int := 0x77
  const VK_F9: int := 0x78
  const VK_F10: int := 0x79
  const VK_F11: int := 0x7A
  const VK_F12: int := 0x7B
  const VK_F13: int := 0x7C
  const VK_F14: int := 0x7D
  const VK_F15: int := 0x7E
  const VK_F16: int := 0x7F
  const VK_F17: int := 0x80
  const VK_F18: int := 0x81
  const VK_F19: int := 0x82
  const VK_F20: int := 0x83
  const VK_F21: int := 0x84
  const VK_F22: int := 0x85
  const VK_F23: int := 0x86
  const VK_F24: int := 0x87

  // Lock keys
  const VK_NUMLOCK: int := 0x90
  const VK_SCROLL: int := 0x91

  // Left and right modifier keys
  const VK_LSHIFT: int := 0xA0
  const VK_RSHIFT: int := 0xA1
  const VK_LCONTROL: int := 0xA2
  const VK_RCONTROL: int := 0xA3
  const VK_LMENU: int := 0xA4
  const VK_RMENU: int := 0xA5

  // OEM punctuation keys (US layout)
  const VK_OEM_1: int := 0xBA
  const VK_OEM_PLUS: int := 0xBB
  const VK_OEM_COMMA: int := 0xBC
  const VK_OEM_MINUS: int := 0xBD
  const VK_OEM_PERIOD: int := 0xBE
  const VK_OEM_2: int := 0xBF
  const VK_OEM_3: int := 0xC0
  const VK_OEM_4: int := 0xDB
  const VK_OEM_5: int := 0xDC
  const VK_OEM_6: int := 0xDD
  const VK_OEM_7: int := 0xDE
  const VK_OEM_8: int := 0xDF

  // The named codes, grouped as declared above.
  const SPECIAL_KEY_CODES: seq<int> := [
    VK_BACK, VK_TAB, VK_RETURN, VK_SHIFT, VK_CONTROL, VK_MENU,
    VK_PAUSE, VK_CAPITAL, VK_ESCAPE, VK_SPACE, VK_PRIOR, VK_NEXT,
    VK_END, VK_HOME, VK_LEFT, VK_UP, VK_RIGHT, VK_DOWN,
    VK_SELECT, VK_PRINT, VK_EXECUTE, VK_SNAPSHOT, VK_INSERT, VK_DELETE,
    VK_HELP
  ]
  const DIGIT_KEY_CODES: seq<int> := [
    VK_0, VK_1, VK_2, VK_3, VK_4, VK_5, VK_6, VK_7, VK_8, VK_9
  ]
  const LETTER_KEY_CODES: seq<int> := [
    VK_A, VK_B, VK_C, VK_D, VK_E, VK_F, VK_G, VK_H, VK_I, VK_J, VK_K, VK_L, VK_M,
    VK_N, VK_O, VK_P, VK_Q, VK_R, VK_S, VK_T, VK_U, VK_V, VK_W, VK_X, VK_Y, VK_Z
  ]
  const WINDOWS_KEY_CODES: seq<int> := [VK_LWIN, VK_RWIN, VK_APPS]
  const NUMPAD_KEY_CODES: seq<int> := [
    VK_NUMPAD0, VK_NUMPAD1, VK_NUMPAD2, VK_NUMPAD3, VK_NUMPAD4,
    VK_NUMPAD5, VK_NUMPAD6, VK_NUMPAD7, VK_NUMPAD8, VK_NUMPAD9,
    VK_MULTIPLY, VK_ADD, VK_SEPARATOR, VK_SUBTRACT, VK_DECIMAL, VK_DIVIDE
  ]
  const FUNCTION_KEY_CODES: seq<int> := [
    VK_F1, VK_F2, VK_F3, VK_F4, VK_F5, VK_F6, VK_F7, VK_F8, VK_F9, VK_F10, VK_F11, VK_F12,
    VK_F13, VK_F14, VK_F15, VK_F16, VK_F17, VK_F18, VK_F19, VK_F20, VK_F21, VK_F22, VK_F23, VK_F24
  ]
  const LOCK_KEY_CODES: seq<int> := [VK_NUMLOCK, VK_SCROLL]
  const SIDED_MODIFIER_CODES: seq<int> := [
    VK_LSHIFT, VK_RSHIFT, VK_LCONTROL, VK_RCONTROL, VK_LMENU, VK_RMENU
  ]
  const OEM_KEY_CODES: seq<int> := [
    VK_OEM_1, VK_OEM_PLUS, VK_OEM_COMMA, VK_OEM_MINUS, VK_OEM_PERIOD, VK_OEM_2,
    VK_OEM_3, VK_OEM_4, VK_OEM_5, VK_OEM_6, VK_OEM_7, VK_OEM_8
  ]

  /** Every virtual-key constant above, in declaration order. */
  const ALL_VK_CODES: seq<int> :=
    SPECIAL_KEY_CODES + DIGIT_KEY_CODES + LETTER_KEY_CODES + WINDOWS_KEY_CODES +
    NUMPAD_KEY_CODES + FUNCTION_KEY_CODES + LOCK_KEY_CODES + SIDED_MODIFIER_CODES +
    OEM_KEY_CODES

  // The character-to-key table, written in four consecutive groups.

  /** Letters 'a' .. 'z' on VK_A .. VK_Z. */
  const LETTER_KEYS: Table<int> := [
    ('a', VK_A), ('b', VK_B), ('c', VK_C), ('d', VK_D), ('e', VK_E), ('f', VK_F),
    ('g', VK_G), ('h', VK_H), ('i', VK_I), ('j', VK_J), ('k', VK_K), ('l', VK_L),
    ('m', VK_M), ('n', VK_N), ('o', VK_O), ('p', VK_P), ('q', VK_Q), ('r', VK_R),
    ('s', VK_S), ('t', VK_T), ('u', VK_U), ('v', VK_V), ('w', VK_W), ('x', VK_X),
    ('y', VK_Y), ('z', VK_Z)
  ]

  /** Digits of the main keyboard. */
  const DIGIT_KEYS: Table<int> := [
    ('0', VK_0), ('1', VK_1), ('2', VK_2), ('3', VK_3), ('4', VK_4),
    ('5', VK_5), ('6', VK_6), ('7', VK_7), ('8', VK_8), ('9', VK_9)
  ]

  /** Space, tab and both line terminators (each of which is Enter). */
  const WHITESPACE_KEYS: Table<int> := [
    (' ', VK_SPACE), ('\t', VK_TAB), ('\n', VK_RETURN), ('\r', VK_RETURN)
  ]

  /** Unshifted punctuation on the OEM keys. */
  const PUNCTUATION_KEYS: Table<int> := [
    (';', VK_OEM_1), ('=', VK_OEM_PLUS), (',', VK_OEM_COMMA), ('-', VK_OEM_MINUS),
    ('.', VK_OEM_PERIOD), ('/', VK_OEM_2), ('`', VK_OEM_3), ('[', VK_OEM_4),
    ('\\', VK_OEM_5), (']', VK_OEM_6), ('\'', VK_OEM_7)
  ]

  /** Characters typed by one key without modifiers. */
  const CHAR_TO_VK: Table<int> := LETTER_KEYS + DIGIT_KEYS + WHITESPACE_KEYS + PUNCTUATION_KEYS

  /** Characters that need Shift held down: the upper-case letters ... */
  const UPPER_LETTERS: seq<char> := [
    'A', 'B', 'C', 'D', 'E', 'F', 'G', 'H', 'I', 'J', 'K', 'L', 'M',
    'N', 'O', 'P', 'Q', 'R', 'S', 'T', 'U', 'V', 'W', 'X', 'Y', 'Z'
  ]

  /** ... and the symbols on the upper half of a key. */
  const SHIFTED_SYMBOLS: seq<char> := [
    '!', '@', '#', '$', '%', '^', '&', '*', '(', ')', '_', '+',
    '{', '}', '|', ':', '\"', '<', '>', '?', '~'
  ]

  const SHIFT_CHARS: seq<char> := UPPER_LETTERS + SHIFTED_SYMBOLS

  /** For each shifted symbol, the character on the same key without Shift. */
  const SHIFT_CHAR_MAP: Table<char> := [
    ('!', '1'), ('@', '2'), ('#', '3'), ('$', '4'), ('%', '5'), ('^', '6'),
    ('&', '7'), ('*', '8'), ('(', '9'), (')', '0'), ('_', '-'), ('+', '='),
    ('{', '['), ('}', ']'), ('|', '\\'), (':', ';'), ('\"', '\''),
    ('<', ','), ('>', '.'), ('?', '/'), ('~', '`')
  ]

  /** A code that the Windows input functions accept. */
  predicate IsKeyCode(vk: int) {
    0 <= vk <= 255
  }

  /** Every named virtual-key code is a valid, non-zero key code. */
  lemma VkCodesInRange()
    ensures forall v :: v in ALL_VK_CODES ==> IsKeyCode(v) && v != 0
  {
    SpecialCodesValid();
    DigitCodesValid();
    LetterCodesValid();
    WindowsCodesValid();
    NumpadCodesValid();
    FunctionCodesValid();
    LockCodesValid();
    SidedModifierCodesValid();
    OemCodesValid();
  }

  // One lemma per group keeps each proof small.
  lemma SpecialCodesValid() ensures forall v :: v in SPECIAL_KEY_CODES ==> IsKeyCode(v) && v != 0 {}
  lemma DigitCodesValid() ensures forall v :: v in DIGIT_KEY_CODES ==> IsKeyCode(v) && v != 0 {}
  lemma LetterCodesValid() ensures forall v :: v in LETTER_KEY_CODES ==> IsKeyCode(v) && v != 0 {}
  lemma WindowsCodesValid() ensures forall v :: v in WINDOWS_KEY_CODES ==> IsKeyCode(v) && v != 0 {}
  lemma NumpadCodesValid() ensures forall v :: v in NUMPAD_KEY_CODES ==> IsKeyCode(v) && v != 0 {}
  lemma FunctionCodesValid() ensures forall v :: v in FUNCTION_KEY_CODES ==> IsKeyCode(v) && v != 0 {}
  lemma LockCodesValid() ensures forall v :: v in LOCK_KEY_CODES ==> IsKeyCode(v) && v != 0 {}
  lemma SidedModifierCodesValid() ensures forall v :: v in SIDED_MODIFIER_CODES ==> IsKeyCode(v) && v != 0 {}
  lemma OemCodesValid() ensures forall v :: v in OEM_KEY_CODES ==> IsKeyCode(v) && v != 0 {}

  /** An ASCII letter or digit. */
  predicate IsAlphanumeric(c: char) {
    'a' <= c <= 'z' || 'A' <= c <= 'Z' || '0' <= c <= '9'
  }

  // The shape of each literal table, checked entry by entry.

  lemma LetterKeysShape()
    ensures |LETTER_KEYS| == 26
    ensures forall i :: 0 <= i < 26 ==> LETTER_KEYS[i] == (('a' as int + i) as char, VK_A + i)
  {
  }

  lemma DigitKeysShape()
    ensures |DIGIT_KEYS| == 10
    ensures forall i :: 0 <= i < 10 ==> DIGIT_KEYS[i] == (('0' as int + i) as char, VK_0 + i)
  {
  }

  lemma UpperLettersShape()
    ensures |UPPER_LETTERS| == 26
    ensures forall i :: 0 <= i < 26 ==> UPPER_LETTERS[i] == ('A' as int + i) as char
  {
  }

  lemma WhitespaceKeysShape()
    ensures forall i :: 0 <= i < |WHITESPACE_KEYS| ==>
      !IsAlphanumeric(WHITESPACE_KEYS[i].0) && IsKeyCode(WHITESPACE_KEYS[i].1) && WHITESPACE_KEYS[i].1 != 0
  {
  }

  lemma PunctuationKeysShape()
    ensures forall i :: 0 <= i < |PUNCTUATION_KEYS| ==>
      !IsAlphanumeric(PUNCTUATION_KEYS[i].0) && IsKeyCode(PUNCTUATION_KEYS[i].1) && PUNCTUATION_KEYS[i].1 != 0
  {
  }

  /** The Shift set lists the shifted symbols in the same order as the
      keys of the shifted-symbol table. */
  lemma ShiftedSymbolsAligned()
    ensures |SHIFTED_SYMBOLS| == |SHIFT_CHAR_MAP| == 21
    ensures forall i :: 0 <= i < 21 ==> SHIFTED_SYMBOLS[i] == SHIFT_CHAR_MAP[i].0
  {
  }

  lemma ShiftedSymbolsShape()
    ensures forall i :: 0 <= i < |SHIFTED_SYMBOLS| ==> !IsAlphanumeric(SHIFTED_SYMBOLS[i])
  {
  }

  lemma ShiftedSymbolsNotWhitespace()
    ensures forall i, j :: 0 <= i < |SHIFTED_SYMBOLS| && 0 <= j < |WHITESPACE_KEYS| ==>
      SHIFTED_SYMBOLS[i] != WHITESPACE_KEYS[j].0
  {
  }

  lemma ShiftedSymbolsNotPunctuation()
    ensures forall i, j :: 0 <= i < |SHIFTED_SYMBOLS| && 0 <= j < |PUNCTUATION_KEYS| ==>
      SHIFTED_SYMBOLS[i] != PUNCTUATION_KEYS[j].0
  {
  }

  // Lookups in the character table.

  /** Looking a character up in the character table: letters and digits
      find their consecutive codes, anything else is looked up among the
      whitespace and punctuation entries. */
  lemma CharToVkLookup(c: char)
    ensures 'a' <= c <= 'z' ==> Get(CHAR_TO_VK, c) == Some(VK_A + (c as int - 'a' as int))
    ensures '0' <= c <= '9' ==> Get(CHAR_TO_VK, c) == Some(VK_0 + (c as int - '0' as int))
    ensures !('a' <= c <= 'z') && !('0' <= c <= '9') ==>
      Get(CHAR_TO_VK, c) == Get(WHITESPACE_KEYS + PUNCTUATION_KEYS, c)
  {
    var others := WHITESPACE_KEYS + PUNCTUATION_KEYS;
    assert CHAR_TO_VK == LETTER_KEYS + (DIGIT_KEYS + others);
    GetAppend(LETTER_KEYS, DIGIT_KEYS + others, c);
    GetAppend(DIGIT_KEYS, others, c);
    LetterKeysShape();
    DigitKeysShape();
    if 'a' <= c <= 'z' {
      GetFirst(LETTER_KEYS, c as int - 'a' as int);
    } else {
      GetAbsent(LETTER_KEYS, c);
      if '0' <= c <= '9' {
        GetFirst(DIGIT_KEYS, c as int - '0' as int);
      } else {
        GetAbsent(DIGIT_KEYS, c);
      }
    }
  }

  /** A whitespace or punctuation entry is never a letter or digit. */
  lemma OtherKeysFound(c: char)
    requires HasKey(WHITESPACE_KEYS + PUNCTUATION_KEYS, c)
    ensures !IsAlphanumeric(c)
    ensures IsKeyCode(Get(WHITESPACE_KEYS + PUNCTUATION_KEYS, c).value)
    ensures Get(WHITESPACE_KEYS + PUNCTUATION_KEYS, c).value != 0
  {
    GetAppend(WHITESPACE_KEYS, PUNCTUATION_KEYS, c);
    WhitespaceKeysShape();
    PunctuationKeysShape();
    if HasKey(WHITESPACE_KEYS, c) {
      var i := GetIndex(WHITESPACE_KEYS, c);
    } else {
      var i := GetIndex(PUNCTUATION_KEYS, c);
    }
  }

  /** Every code in the character table is a valid, non-zero key code. */
  lemma CharToVkCodesValid(c: char)
    requires HasKey(CHAR_TO_VK, c)
    ensures IsKeyCode(Get(CHAR_TO_VK, c).value) && Get(CHAR_TO_VK, c).value != 0
  {
    CharToVkLookup(c);
    if !('a' <= c <= 'z') && !('0' <= c <= '9') {
      OtherKeysFound(c);
    }
  }

  /** Sample entries of the character table; Enter is reached from both line
      terminators, so the table is not injective. */
  lemma CharToVkEntries()
    ensures Get(CHAR_TO_VK, 'a') == Some(VK_A) && Get(CHAR_TO_VK, 'z') == Some(VK_Z)
    ensures Get(CHAR_TO_VK, '0') == Some(VK_0) && Get(CHAR_TO_VK, '9') == Some(VK_9)
    ensures Get(CHAR_TO_VK, ' ') == Some(VK_SPACE)
    ensures '\n' != '\r' && Get(CHAR_TO_VK, '\n') == Get(CHAR_TO_VK, '\r') == Some(VK_RETURN)
  {
    CharToVkLookup('a');
    CharToVkLookup('z');
    CharToVkLookup('0');
    CharToVkLookup('9');
    CharToVkLookup(' ');
    CharToVkLookup('\n');
    CharToVkLookup('\r');
    GetAppend(WHITESPACE_KEYS, PUNCTUATION_KEYS, ' ');
    GetAppend(WHITESPACE_KEYS, PUNCTUATION_KEYS, '\n');
    GetAppend(WHITESPACE_KEYS, PUNCTUATION_KEYS, '\r');
    GetFirst(WHITESPACE_KEYS, 0);
    GetFirst(WHITESPACE_KEYS, 2);
    GetFirst(WHITESPACE_KEYS, 3);
  }

  /** The lower-case form of every upper-case letter has its own key, the
      letter's key. */
  lemma UpperLetterKey(c: char)
    requires IsUpper(c)
    ensures Get(CHAR_TO_VK, Lower(c)) == Some(VK_A + (c as int - 'A' as int))
  {
    CharToVkLookup(Lower(c));
  }

  // The Shift tables.

  /** The Shift set is the upper-case letters plus the keys of the
      shifted-symbol table. */
  lemma ShiftCharsShape(c: char)
    ensures Contains(SHIFT_CHARS, c) <==> IsUpper(c) || HasKey(SHIFT_CHAR_MAP, c)
  {
    ContainsIsIn(SHIFT_CHARS, c);
    UpperLettersShape();
    ShiftedSymbolsAligned();
    assert c in SHIFT_CHARS <==> c in UPPER_LETTERS || c in SHIFTED_SYMBOLS;
    if IsUpper(c) {
      assert UPPER_LETTERS[c as int - 'A' as int] == c;
    }
    if c in SHIFTED_SYMBOLS {
      var i :| 0 <= i < |SHIFTED_SYMBOLS| && SHIFTED_SYMBOLS[i] == c;
      GetHasKey(SHIFT_CHAR_MAP, i);
    }
    if HasKey(SHIFT_CHAR_MAP, c) {
      var i := GetIndex(SHIFT_CHAR_MAP, c);
      assert SHIFTED_SYMBOLS[i] == c;
    }
  }

  /** A shifted symbol is no letter or digit and has no key of its own. */
  lemma ShiftedSymbolNotKey(c: char)
    requires HasKey(SHIFT_CHAR_MAP, c)
    ensures !IsAlphanumeric(c)
    ensures !HasKey(CHAR_TO_VK, c)
  {
    var i := GetIndex(SHIFT_CHAR_MAP, c);
    ShiftedSymbolsAligned();
    ShiftedSymbolsShape();
    assert SHIFTED_SYMBOLS[i] == c;
    CharToVkLookup(c);
    ShiftedSymbolsNotWhitespace();
    ShiftedSymbolsNotPunctuation();
    GetAbsent(WHITESPACE_KEYS + PUNCTUATION_KEYS, c);
  }

  /** No character is both typed directly and typed with Shift. */
  lemma ShiftCharsDisjoint(c: char)
    requires Contains(SHIFT_CHARS, c)
    ensures !HasKey(CHAR_TO_VK, c)
  {
    ShiftCharsShape(c);
    if HasKey(SHIFT_CHAR_MAP, c) {
      ShiftedSymbolNotKey(c);
    } else {
      CharToVkLookup(c);
      if HasKey(WHITESPACE_KEYS + PUNCTUATION_KEYS, c) {
        OtherKeysFound(c);
      }
    }
  }

  /** The base characters of the shifted symbols, entry by entry. */
  lemma ShiftBasesShape()
    ensures forall i :: 0 <= i < 10 ==> '0' <= SHIFT_CHAR_MAP[i].1 <= '9'
    ensures forall i :: 10 <= i < 21 ==> exists j :: 0 <= j < |PUNCTUATION_KEYS| && PUNCTUATION_KEYS[j].0 == SHIFT_CHAR_MAP[i].1
  {
    assert PUNCTUATION_KEYS[3].0 == SHIFT_CHAR_MAP[10].1;
    assert PUNCTUATION_KEYS[1].0 == SHIFT_CHAR_MAP[11].1;
    assert PUNCTUATION_KEYS[7].0 == SHIFT_CHAR_MAP[12].1;
    assert PUNCTUATION_KEYS[9].0 == SHIFT_CHAR_MAP[13].1;
    assert PUNCTUATION_KEYS[8].0 == SHIFT_CHAR_MAP[14].1;
    assert PUNCTUATION_KEYS[0].0 == SHIFT_CHAR_MAP[15].1;
    assert PUNCTUATION_KEYS[10].0 == SHIFT_CHAR_MAP[16].1;
    assert PUNCTUATION_KEYS[2].0 == SHIFT_CHAR_MAP[17].1;
    assert PUNCTUATION_KEYS[4].0 == SHIFT_CHAR_MAP[18].1;
    assert PUNCTUATION_KEYS[5].0 == SHIFT_CHAR_MAP[19].1;
    assert PUNCTUATION_KEYS[6].0 == SHIFT_CHAR_MAP[20].1;
  }

  /** The base character of every shifted symbol has a key of its own. */
  lemma ShiftMapClosed(c: char)
    requires HasKey(SHIFT_CHAR_MAP, c)
    ensures HasKey(CHAR_TO_VK, Get(SHIFT_CHAR_MAP, c).value)
  {
    var i := GetIndex(SHIFT_CHAR_MAP, c);
    var b := SHIFT_CHAR_MAP[i].1;
    ShiftedSymbolsAligned();
    ShiftBasesShape();
    CharToVkLookup(b);
    if i >= 10 {
      var j :| 0 <= j < |PUNCTUATION_KEYS| && PUNCTUATION_KEYS[j].0 == b;
      PunctuationKeysShape();
      assert (WHITESPACE_KEYS + PUNCTUATION_KEYS)[|WHITESPACE_KEYS| + j].0 == b;
      GetHasKey(WHITESPACE_KEYS + PUNCTUATION_KEYS, |WHITESPACE_KEYS| + j);
    }
  }

  /** Sample entries of the shifted-symbol table. */
  lemma ShiftMapEntries()
    ensures Get(SHIFT_CHAR_MAP, '!') == Some('1') && Get(SHIFT_CHAR_MAP, '@') == Some('2')
    ensures Get(SHIFT_CHAR_MAP, '(') == Some('9') && Get(SHIFT_CHAR_MAP, ')') == Some('0')
  {
    ShiftMapDistinct();
    GetDistinct(SHIFT_CHAR_MAP, 0);
    GetDistinct(SHIFT_CHAR_MAP, 1);
    GetDistinct(SHIFT_CHAR_MAP, 8);
    GetDistinct(SHIFT_CHAR_MAP, 9);
  }

  // Each table has distinct keys, so the first entry with a key is its only
  // one, as in the dictionaries being modelled.

  /** The whitespace and punctuation entries have distinct keys, none of
      them a letter or digit. */
  lemma OtherKeysDistinct()
    ensures DistinctKeys(WHITESPACE_KEYS + PUNCTUATION_KEYS)
    ensures forall j :: 0 <= j < |WHITESPACE_KEYS + PUNCTUATION_KEYS| ==>
      !IsAlphanumeric((WHITESPACE_KEYS + PUNCTUATION_KEYS)[j].0)
  {
    WhitespaceKeysShape();
    PunctuationKeysShape();
    DistinctKeysAppend(WHITESPACE_KEYS, PUNCTUATION_KEYS);
  }

  /** No character has two entries in the character table. */
  lemma CharToVkDistinct()
    ensures DistinctKeys(CHAR_TO_VK)
  {
    var others := WHITESPACE_KEYS + PUNCTUATION_KEYS;
    LetterKeysShape();
    DigitKeysShape();
    OtherKeysDistinct();
    DistinctKeysAppend(DIGIT_KEYS, others);
    var rest := DIGIT_KEYS + others;
    forall j | 0 <= j < |rest|
      ensures '0' <= rest[j].0 <= '9' || !IsAlphanumeric(rest[j].0)
    {
      if j < |DIGIT_KEYS| {
        assert rest[j] == DIGIT_KEYS[j];
      } else {
        assert rest[j] == others[j - |DIGIT_KEYS|];
      }
    }
    DistinctKeysAppend(LETTER_KEYS, rest);
    assert CHAR_TO_VK == LETTER_KEYS + rest;
  }

  /** No shifted symbol has two entries in the shifted-symbol table. */
  lemma ShiftMapDistinct()
    ensures DistinctKeys(SHIFT_CHAR_MAP)
  {
    var a, b, c := SHIFT_CHAR_MAP[..7], SHIFT_CHAR_MAP[7..14], SHIFT_CHAR_MAP[14..];
    FirstThirdDistinct();
    SecondThirdDistinct();
    LastThirdDistinct();
    ShiftMapThirdsApart();
    DistinctKeysAppend(b, c);
    DistinctKeysAppend(a, b + c);
    assert a + (b + c) == SHIFT_CHAR_MAP;
  }

  // The shifted-symbol table in three parts of seven entries, so that each
  // proof compares few pairs.

  lemma FirstThirdDistinct() ensures DistinctKeys(SHIFT_CHAR_MAP[..7]) {}
  lemma SecondThirdDistinct() ensures DistinctKeys(SHIFT_CHAR_MAP[7..14]) {}
  lemma LastThirdDistinct() ensures DistinctKeys(SHIFT_CHAR_MAP[14..]) {}

  lemma ShiftMapThirdsApart()
    ensures forall i, j :: 0 <= i < |SHIFT_CHAR_MAP[7..14]| && 0 <= j < |SHIFT_CHAR_MAP[14..]| ==>
      SHIFT_CHAR_MAP[7..14][i].0 != SHIFT_CHAR_MAP[14..][j].0
    ensures forall i, j :: 0 <= i < |SHIFT_CHAR_MAP[..7]| && 0 <= j < |SHIFT_CHAR_MAP[7..14] + SHIFT_CHAR_MAP[14..]| ==>
      SHIFT_CHAR_MAP[..7][i].0 != (SHIFT_CHAR_MAP[7..14] + SHIFT_CHAR_MAP[14..])[j].0
  {
    SecondLastApart();
    FirstSecondApart();
    FirstLastApart();
    var b, c := SHIFT_CHAR_MAP[7..14], SHIFT_CHAR_MAP[14..];
    forall j | 0 <= j < |b + c|
      ensures (b + c)[j] == if j < 7 then b[j] else c[j - 7]
    {
    }
  }

  lemma FirstSecondApart()
    ensures forall i, j :: 0 <= i < 7 && 0 <= j < 7 ==> SHIFT_CHAR_MAP[..7][i].0 != SHIFT_CHAR_MAP[7..14][j].0
  {
  }

  lemma FirstLastApart()
    ensures forall i, j :: 0 <= i < 7 && 0 <= j < 7 ==> SHIFT_CHAR_MAP[..7][i].0 != SHIFT_CHAR_MAP[14..][j].0
  {
  }

  lemma SecondLastApart()
    ensures forall i, j :: 0 <= i < 7 && 0 <= j < 7 ==> SHIFT_CHAR_MAP[7..14][i].0 != SHIFT_CHAR_MAP[14..][j].0
  {
  }
}
