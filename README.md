# pykeyemu, modelled in Dafny

pykeyemu types text on Windows. It turns characters into virtual-key
codes and sends them to the operating system through `SendInput`.
This project models its core in Dafny and proves the behaviour of that model:

- `constants.dfy` (module `Constants`) holds the virtual-key codes and the
  character tables: `CHAR_TO_VK`, `SHIFT_CHARS` and `SHIFT_CHAR_MAP`.
  Python dictionaries and sets become lists of entries in source order.
  A lookup returns the first matching entry (`Tables.Get`).
- `utils.dfy` (module `Utils`) models the text helpers:
  - which characters are supported, text validation and segmentation;
  - the typing-time estimate and line-ending normalization;
  - escaping, typing profiles and the delays a profile produces.
- `wininput.dfy` (module `WinInput`) models key-event sequencing.
  - A `Keyboard` object stands for the operating system. Every batch given
    to `SendInput` is appended to its `log`.
  - How many events the system accepts comes from an oracle, `answer`,
    fixed when the keyboard is made.
  - `time.sleep` becomes a `Sleep` entry in the log.
- `strings.dfy` (module `Strings`) models the Python string primitives used:
  `str.isupper`, `str.lower` and `str.replace`.
- `tables.dfy` (module `Tables`) provides lookup in entry lists.
- `results.dfy` (module `Results`) turns every `ValueError` into an `Err`
  carrying the reason.

Durations are exact reals. Each draw of `random.random()` is an explicit
argument, so every bound holds for every possible draw.

## Model

| member | source | states |
|---|---|---|
| Constants.VkCodesInRange | constants.py:19-158 | every named virtual-key code lies in 0..255 and is non-zero |
| Constants.CharToVkLookup | constants.py:161-168 | letters `a`..`z` map to consecutive codes from `VK_A`, digits to consecutive codes from `VK_0`; other characters are found among the whitespace and punctuation entries |
| Constants.CharToVkCodesValid | constants.py:161-173 | every value of `CHAR_TO_VK` is a valid, non-zero key code (so `if vk_code:` never rejects a found key) |
| Constants.CharToVkEntries | constants.py:161-173 | `a`, `z`, `0`, `9` and space map to their keys; `\n` and `\r` both map to `VK_RETURN`, so the table is not injective |
| Constants.UpperLetterKey | constants.py:161-166 | the lower-case form of an upper-case letter maps to the letter's key |
| Constants.ShiftCharsShape | constants.py:176-189 | `SHIFT_CHARS` is exactly the upper-case letters plus the keys of `SHIFT_CHAR_MAP` |
| Constants.ShiftedSymbolNotKey | constants.py:161-189 | a shifted symbol is not a letter or digit and has no key of its own |
| Constants.ShiftCharsDisjoint | constants.py:161-181 | no character of `SHIFT_CHARS` is a key of `CHAR_TO_VK` |
| Constants.ShiftMapClosed | constants.py:184-189 | every value of `SHIFT_CHAR_MAP` is a key of `CHAR_TO_VK` |
| Constants.ShiftMapEntries | constants.py:184-189 | `!` maps to `1`, `@` to `2`, `(` to `9` and `)` to `0` |
| Constants.CharToVkDistinct | constants.py:161-173 | no character has two entries in `CHAR_TO_VK`, so the first entry with a key is its only one |
| Constants.ShiftMapDistinct | constants.py:184-189 | no shifted symbol has two entries in `SHIFT_CHAR_MAP` |
| Tables.GetIndex | wininput.py:230 | `dict.get` on a key that is present returns the value of an entry carrying that key, the first one |
| Tables.GetAbsent | wininput.py:242 | `dict.get` on a key that no entry carries returns nothing |
| Tables.GetHasKey | utils.py:72 | `c in dict` holds for the key of every entry |
| Tables.GetDistinct | constants.py:161-173 | when no key repeats, every entry is found by its key, so reading the entries first-to-last agrees with a dictionary literal |
| Tables.ContainsIsIn | utils.py:80 | membership in a set given by its elements is `c in s` |
| Strings.UpperIsAlphabet | wininput.py:228 | `isupper` holds exactly for the 26 capitals `A`..`Z`, which are exactly the characters `lower` changes; lowering twice is lowering once |
| Strings.LowerLettersBijective | utils.py:76 | `lower` maps the capitals one-to-one onto the small letters: every small letter is the lower case of one capital, 32 code points below it, and of no other |
| Strings.Replace | utils.py:175-179 | `str.replace` reads the text left to right and replaces non-overlapping occurrences; replacing a pattern by itself changes nothing, and a same-length replacement keeps the length |
| Strings.ReplaceCharRemoves | utils.py:211 | replacing a character by text without it removes every occurrence and adds only characters of the replacement |
| Utils.Uniform | utils.py:31 | `random.uniform(a, b)` from a draw `u`: `a` for draw 0, `b` for draw 1, and between `a` and `b` for draws in `[0, 1]` |
| Utils.ClampAtZero | utils.py:32 | `max(0, x)`: never negative, never below `x`, and either `x` or 0 |
| Utils.HumanizeDelay | utils.py:26-32 | raises for a negative base delay (checked first) or a negative variance; otherwise the result is never negative, lies within the variance of the base delay, and equals the base delay when the variance is 0 |
| Utils.HumanizeDelayReachesRange | utils.py:31-32 | every delay in `[base - variance, base + variance]` that is not negative is produced by some draw |
| Utils.IsCharSupported | utils.py:68-69 | an input of length other than one is unsupported |
| Utils.SupportedChars | utils.py:59-85 | a character is supported exactly when it is a key of `CHAR_TO_VK` or a member of `SHIFT_CHARS` (ASCII case mapping) |
| Utils.FirstIndexAt | utils.py:52-55 | an index holding the first occurrence of its character is that character's first index |
| Utils.ValidateText | utils.py:34-57 | the flag is true iff the list is empty; the list holds exactly the unsupported characters of the text, each once, in order of first occurrence |
| Utils.SplitTextBySupport | utils.py:87-124 | the chunks join back to the text; each chunk is non-empty and all its characters carry its flag; adjacent flags differ; the empty text gives no chunks |
| Utils.SegmentationUnique | utils.py:87-124 | only one list of chunks has those properties, so the split is determined by the text |
| Utils.FirstChunkIsMaximal | utils.py:110-119 | the first chunk is the longest run of equally supported characters at the start of the text |
| Utils.CountSupported | utils.py:146 | the number of typed characters is at most the length of the text |
| Utils.CountSupportedAppend | utils.py:146 | the number of typed characters of a concatenation is the sum of the parts' counts |
| Utils.CalculateTypingTime | utils.py:126-152 | raises for a negative delay; otherwise the estimate is never negative |
| Utils.TypingTimeBound | utils.py:145-152 | the estimate never exceeds one delay per character of the text |
| Utils.TypingTimeGaps | utils.py:149-152 | with at least one typed character, the estimate is `(typed - 1) * delay` |
| Utils.TypingTimeFewTyped | utils.py:149-150 | with no typed character, or one, the estimate is 0 |
| Utils.Gaps | utils.py:149-152 | no time for at most one keystroke; never negative for a non-negative delay |
| Utils.TypingTimeConcat | utils.py:145-152 | joining two texts that each have a typed character adds exactly one delay |
| Utils.TypingTimeIgnoresUnsupported | utils.py:146 | appending untypeable characters does not change the estimate |
| Utils.TypingTimeExamples | utils.py:145-152 | `"Hello"` at 0.1 gives 0.4; `"A"` and `""` give 0 |
| Utils.NormalizeLineEndings | utils.py:154-181 | raises unless the target is `\n`, `\r\n` or `\r`; otherwise the line structure is unchanged; with target `\n` no CR remains; otherwise every LF of the normalized text is written as the target |
| Utils.TwoPassesToUnix | utils.py:175-176 | the two replace passes (CR LF, then lone CR) turn every line ending into LF in one left-to-right reading |
| Utils.ToUnixHasNoCr | utils.py:175-176 | after normalizing to LF no CR is left |
| Utils.ToUnixInvertsReplace | utils.py:178-179 | writing the LFs of CR-free text as CR LF or CR can be read back to the same text |
| Utils.EscapeSpecialChars | utils.py:183-213 | the seven `replace` passes show every character on its own: its escape if it has one, otherwise itself |
| Utils.EscapeStep | utils.py:210-211 | one more `replace` pass escapes one more character, because no earlier escape contains it |
| Utils.EscapeMapKeys | utils.py:199-207 | the escaped characters are exactly LF, CR, TAB, BS, FF, VT and NUL |
| Utils.EscapeMapDistinct | utils.py:199-207 | no control character has two escapes |
| Utils.EscapeRemovesControls | utils.py:199-213 | none of the escaped characters is left in the output |
| Utils.EscapeKeepsOthers | utils.py:209-213 | text without those characters is returned unchanged |
| Utils.EscapeAppend | utils.py:209-213 | escaping a concatenation concatenates the escaped parts |
| Utils.EscapeNotInjective | utils.py:199-207 | a line feed and the two characters backslash and `n` escape alike, so escaping cannot be undone |
| Utils.VarianceRatio | utils.py:239-244 | the variance ratio lies between 0.2 and 0.4 |
| Utils.CreateTypingProfile | utils.py:215-254 | raises for wpm <= 0; otherwise base delay times wpm is 12, the variance is the base delay times the ratio and lies strictly between 0 and the base delay, the pause chance is 0.05 and the pause lasts three base delays |
| Utils.ProfileFasterIsQuicker | utils.py:233-246 | a faster typist has no longer a base delay and no larger a variance |
| Utils.ProfileExamples | utils.py:233-253 | 20 wpm gives 0.6 s varying by 0.24 s and a 1.8 s pause; 60 wpm gives 0.2 s varying by 0.06 s; 80 wpm gives 0.15 s varying by 0.03 s and a 0.45 s pause |
| Utils.ProfileDict | utils.py:248-254 | the dictionary of a profile has every key that applying it needs |
| Utils.MissingKey | utils.py:276-279 | reports nothing exactly when every required key is present, otherwise the first required key that is absent |
| Utils.ApplyTypingProfile | utils.py:256-295 | a missing key raises, naming the first missing key in the order `base_delay`, `variance`, `pause_chance`, `pause_duration`; otherwise the delays are one per typed character, pausing or jittered as its draws say |
| Utils.KeyDelay | utils.py:287-291 | a pausing draw gives the pause duration; otherwise the jittered delay, which fails exactly for a negative base delay or variance; every delay given is the pause or a non-negative delay within the variance of the base delay |
| Utils.Delays | utils.py:281-295 | reference reading of the loop: one delay per typed character, in order, ended by the first error |
| Utils.DelaysErrPersists | utils.py:283-293 | once a character's delay raises, the whole call raises with that error |
| Utils.DelaysShape | utils.py:281-295 | there are as many delays as typed characters, each the pause duration or a jittered base delay |
| Utils.DelaysFail | utils.py:283-293 | applying fails exactly when the base delay or the variance is negative and some typed character does not pause; the base delay is checked first |
| Utils.DelaysPositive | utils.py:281-295 | with `0 <= variance < base delay` and a positive pause every delay is positive |
| Utils.CreatedProfileApplies | utils.py:215-295 | a profile made from a positive wpm has every required key, and applying it never fails and gives only positive delays |
| WinInput.TapEvents | wininput.py:162-178 | the batch of a tap has `2 + 2 * |mods|` events, each on the key or on one of the modifiers |
| WinInput.FirstInvalid | wininput.py:165-168 | the first modifier outside 0..255, every earlier one valid |
| WinInput.TapEventsNest | wininput.py:162-178 | a tap batch has `2 + 2 * |mods|` events: the modifiers down in order, then the key down; its second half mirrors the first with each press turned into a release |
| WinInput.TruthyFound | wininput.py:231 | on a `CHAR_TO_VK` lookup, `if vk_code:` holds exactly when the character is a key of the table |
| WinInput.Resolve | wininput.py:226-244 | the key stroke `_type_character` taps: a non-zero key with no modifier or Shift alone; a stroke without Shift is the character's own entry in `CHAR_TO_VK` |
| WinInput.ResolveSupported | wininput.py:227-248 | a character has a key stroke exactly when the support check accepts it, although the two look in the tables in different orders (ASCII case mapping) |
| WinInput.ResolveUpper | wininput.py:227-232 | an upper-case letter is typed as its letter key with Shift |
| WinInput.ResolveShifted | wininput.py:233-239 | a shifted symbol is typed as its unshifted character's key with Shift |
| WinInput.ResolveDirect | wininput.py:241-244 | a key of `CHAR_TO_VK` is typed as its own key with no modifier |
| WinInput.ResolveValid | wininput.py:227-244 | every key stroke found has a valid, non-zero key and either no modifier or Shift alone |
| WinInput.TypingLog | wininput.py:204-210 | what typing a text sends: at most a batch and a pause per character, and every pause lasts `delay` seconds, which is positive |
| WinInput.TypingLogAppend | wininput.py:204-210 | typing two texts one after the other leaves their two logs one after the other |
| WinInput.TypingLogCounts | wininput.py:204-210 | typing a text sends one batch per supported character, and sleeps once per character when the delay is positive and never when it is 0 |
| WinInput.ModifierFrameNests | wininput.py:264-275 | the body's entries lie between the modifier presses and releases, and each modifier is released as far from the end as it was pressed from the start |
| WinInput.KeyStateBit | wininput.py:295 | `state & 0x8000` is set exactly when the state, taken modulo 2^16, is at least `0x8000` |
| WinInput.IsKeyPressed | wininput.py:277-295 | raises outside 0..255; otherwise reports bit `0x8000` of the state in two's complement, as Python's `&` computes it |
| WinInput.KeyPressedIffNegative | wininput.py:290-295 | for a signed 16-bit state the key is down exactly when the state is negative |
| WinInput.AcceptedStep | wininput.py:204-212 | typing one more character keeps the log accepted exactly when its own tap, if any, is accepted |
| WinInput.Keyboard.SendInput | wininput.py:88-107 | an empty list succeeds without reaching the system; otherwise the batch is logged, and it succeeds iff the system reports every event inserted |
| WinInput.Keyboard.PressKey | wininput.py:109-125 | an invalid code raises and sends nothing; otherwise one key-down event is sent |
| WinInput.Keyboard.ReleaseKey | wininput.py:127-143 | an invalid code raises and sends nothing; otherwise one key-up event is sent |
| WinInput.Keyboard.TapKey | wininput.py:145-180 | an invalid key, or else the first invalid modifier, raises before anything is sent; otherwise exactly one tap batch is sent |
| WinInput.Keyboard.TypeCharacter | wininput.py:214-248 | an input of length other than one raises; otherwise the character's tap is sent, and an unsupported character sends nothing and fails |
| WinInput.Keyboard.TapResolved | wininput.py:230-232 | tapping a found key stroke sends its one tap batch and succeeds iff the system accepts the whole batch |
| WinInput.Keyboard.TypeString | wininput.py:182-212 | a negative delay raises before anything is sent; otherwise every character is typed in order with its pause, and the result is true iff every character has a key stroke and every batch was accepted |
| WinInput.Keyboard.TypeAndPause | wininput.py:204-210 | one round of the loop: the character's tap, if it has a key stroke, then the pause when the delay is positive; it succeeds iff the character has a key stroke and its tap is accepted |
| WinInput.Keyboard.WithModifiers | wininput.py:250-275 | an invalid modifier raises with the earlier ones pressed and never released; otherwise the presses, the body and the releases in reverse order are logged, and a raising body still has its modifiers released |
| WinInput.MockedOneTests | test_pykeyemu.py:255-279 | against a `SendInput` that always reports one event inserted, `tap_key(VK_A)`, `tap_key(VK_A, [VK_CONTROL])` and `type_string("Hello", 0.1)` all return false |
| WinInput.CountingMockTests | test_pykeyemu.py:255-279 | against a `SendInput` that reports every event inserted, the same three calls return true |
| WinInput.HelloStartsShifted | test_pykeyemu.py:276-279 | typing "Hello" first sends one batch of four events, Shift and H down and up, so a system reporting one event inserted rejects it |

## Left out

- The ctypes structures (`KEYBDINPUT`, `INPUT`, the `argtypes` and
  `restype` settings) and `_create_keyboard_input` are left out: they are
  field packing for a foreign call. A key event is just a key and a
  direction.
- `user32.SendInput` and `GetAsyncKeyState` are calls into the operating
  system. The first is the keyboard's `answer` oracle; the state the second
  returns is a parameter of `IsKeyPressed`.
- `time.sleep` is logged as a `Sleep` entry; no time passes.
- The warning `_type_character` prints for an unsupported character is left
  out.
- `random.random()` and `random.uniform` are draws passed in as arguments.
  `ApplyTypingProfile` takes one `Draw` for each position of the text, and
  only the draws of typed characters are used.
- Floating point is modelled as exact reals. Equalities such as 0.4 for
  `"Hello"` hold in the model; they may differ in the last bit in Python.
- `isinstance` checks are left out; Dafny's static types make them
  vacuous. That includes the list check of `with_modifiers`.
- `IsUpper` and `Lower` cover ASCII only. Python's `isupper` and `lower`
  also treat other characters as upper case; for example U+212A
  KELVIN SIGN lowers to `k`. For such a character `_is_char_supported`
  answers yes while `_type_character` sends nothing. That disagreement lies
  outside this model.
- The character tables are modelled as entry lists, not hash maps. Their
  keys are distinct (`Constants.CharToVkDistinct`,
  `Constants.ShiftMapDistinct`, `Utils.EscapeMapDistinct`), so a lookup
  returns the one matching value (`Tables.GetDistinct`).
- Default arguments are not modelled; every caller passes every argument.
  The defaults are `humanize_delay(0.05, 0.02)`, `delay=0.05` for
  `calculate_typing_time` and `type_string`, `target='\n'` for
  `normalize_line_endings`, `wpm=60` for `create_typing_profile`, and
  `modifiers=None` for `tap_key`. `TapKey` takes that `None` as `[]`.
- `Utils.IsCharSupported`: `if base_char` is always true here, because
  every value of `SHIFT_CHAR_MAP` is a one-character string.
- `WinInput.Keyboard.WithModifiers`: the body is given by the entries it
  logs and whether it raises. It is not code running against the keyboard.
  The return values of `press_key` and `release_key` are dropped, as in the
  source.
- `WinInput.Keyboard.TypeString`: the source ignores the per-character
  result except through the success flag, and so does the model.
- The doc comments of `calculate_typing_time` and `create_typing_profile`
  give examples the code does not produce: 1.1 s for "Hello World", and
  0.025 s for 80 wpm. The model follows the code: 1.0 s and 0.15 s.
- Other files of the repository are not part of this model: the demo and
  example scripts, packaging, re-exports and the tests. Only the mocked
  keyboard tests appear, under "Findings".

## Findings

| source | as written | input that shows it | evidently intended | confidence | as-written member | corrected member |
|---|---|---|---|---|---|---|
| test_pykeyemu.py:218 | the keyboard tests mock `SendInput` to return 1, while `_send_input` succeeds only when the count equals `len(inputs)` (wininput.py:101-107) | `tap_key(VK_A)` sends 2 events in one call, so it returns false; `test_tap_key`, `test_tap_key_with_modifiers` and `test_type_string` (lines 255-279) assert true, and `test_complete_workflow` (lines 369-374), under the same mock set up at line 342, asserts true for `type_string("Hello, World!")` and `tap_key(VK_A, [VK_CONTROL])` | the mock reports every event of the batch inserted, and these calls return true | not executed | WinInput.MockedOneTests | WinInput.CountingMockTests |
