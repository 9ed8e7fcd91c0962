/** Keyboard input through the Win32 `SendInput` call. The operating system
    is a `Keyboard` object: every batch of key events handed to `SendInput`
    is appended to its log, and how many events of a batch the system
    accepts is an oracle fixed when the keyboard is made. Pauses between
    keystrokes are logged as `Sleep` entries instead of taking time. */
module WinInput {
  import opened Results
  import opened Strings
  import opened Tables
  import opened Constants
  import Utils

  /** One keyboard `INPUT` record: the key and whether it goes down or up
      (`dwFlags` 0 or `KEYEVENTF_KEYUP`). */
  datatype KeyEvent = Down(vk: int) | Up(vk: int)

  /** What reaches the system: a batch of events in one `SendInput` call,
      or a pause of some seconds. */
  datatype Entry = Batch(events: seq<KeyEvent>) | Sleep(seconds: real)

  /** A key to tap and the modifiers to hold while tapping it. */
  datatype KeyStroke = KeyStroke(vk: int, modifiers: seq<int>)

  /** Index of the first code outside 0..255, or `|codes|` when all are
      valid. */
  function FirstInvalid(codes: seq<int>): (k: nat)
    ensures k <= |codes|
    ensures forall j :: 0 <= j < k ==> IsKeyCode(codes[j])
    ensures k < |codes| ==> !IsKeyCode(codes[k])
    decreases |codes|
  {
    if codes == [] then 0
    else if !IsKeyCode(codes[0]) then 0
    else 1 + FirstInvalid(codes[1..])
  }

  /** Modifiers going down, in the order given. */
  function Presses(mods: seq<int>): seq<KeyEvent> {
    seq(|mods|, i requires 0 <= i < |mods| => Down(mods[i]))
  }

  /** Modifiers coming up, last one first. */
  function Releases(mods: seq<int>): seq<KeyEvent> {
    seq(|mods|, i requires 0 <= i < |mods| => Up(mods[|mods| - 1 - i]))
  }

  /** The single batch that taps `vk` while holding `mods`. */
  function TapEvents(vk: int, mods: seq<int>): (e: seq<KeyEvent>)
    ensures |e| == 2 + 2 * |mods|
    ensures forall i :: 0 <= i < |e| ==> e[i].vk == vk || e[i].vk in mods
  {
    Presses(mods) + [Down(vk), Up(vk)] + Releases(mods)
  }

  /** A tap presses the modifiers in order and then the key, and releases
      everything in the reverse order: the second half of the batch mirrors
      the first with every press turned into a release. */
  lemma TapEventsNest(vk: int, mods: seq<int>)
    ensures var e := TapEvents(vk, mods);
      |e| == 2 + 2 * |mods| &&
      (forall i :: 0 <= i < |mods| ==> e[i] == Down(mods[i])) &&
      e[|mods|] == Down(vk) &&
      forall i :: 0 <= i <= |mods| ==> e[i].Down? && e[|e| - 1 - i] == Up(e[i].vk)
  {
    var e := TapEvents(vk, mods);
    forall i | 0 <= i <= |mods|
      ensures e[i].Down? && e[|e| - 1 - i] == Up(e[i].vk)
    {
      if i < |mods| {
        assert e[i] == Presses(mods)[i];
        assert e[|e| - 1 - i] == Releases(mods)[|mods| - 1 - i];
      }
    }
  }

  /** Truthiness of a looked-up key code: present and not zero. */
  predicate Truthy(vk: Option<int>) {
    vk.Some? && vk.value != 0
  }

  /** On a `CHAR_TO_VK` lookup, `if vk_code:` holds exactly when the
      character is a key of the table: no entry carries code 0. */
  lemma TruthyFound(c: char)
    ensures Truthy(Get(CHAR_TO_VK, c)) <==> HasKey(CHAR_TO_VK, c)
  {
    if HasKey(CHAR_TO_VK, c) {
      CharToVkCodesValid(c);
    }
  }

  /** The key stroke that types `c`, found the way the typing code looks
      for it: shifted characters first (an upper-case letter through its
      lower-case key, any other through its unshifted character), then the
      direct table. */
  function Resolve(c: char): (k: Option<KeyStroke>)
    ensures k.Some? ==> k.value.vk != 0
    ensures k.Some? ==> k.value.modifiers == [] || k.value.modifiers == [VK_SHIFT]
    ensures k.Some? && k.value.modifiers == [] ==> Get(CHAR_TO_VK, c) == Some(k.value.vk)
  {
    if Contains(SHIFT_CHARS, c) && IsUpper(c) && Truthy(Get(CHAR_TO_VK, Lower(c))) then
      Some(KeyStroke(Get(CHAR_TO_VK, Lower(c)).value, [VK_SHIFT]))
    else if Contains(SHIFT_CHARS, c) && !IsUpper(c) && Get(SHIFT_CHAR_MAP, c).Some?
      && Truthy(Get(CHAR_TO_VK, Get(SHIFT_CHAR_MAP, c).value)) then
      Some(KeyStroke(Get(CHAR_TO_VK, Get(SHIFT_CHAR_MAP, c).value).value, [VK_SHIFT]))
    else if Truthy(Get(CHAR_TO_VK, c)) then
      Some(KeyStroke(Get(CHAR_TO_VK, c).value, []))
    else None
  }

  /** The typing code and the support check agree: a character has a key
      stroke exactly when it is supported, although the two look in the
      tables in different orders. */
  lemma ResolveSupported(c: char)
    ensures Resolve(c).Some? <==> Utils.Supported(c)
  {
    Utils.SupportedChars(c);
    ShiftCharsShape(c);
    if IsUpper(c) {
      UpperLetterKey(c);
    }
    if HasKey(SHIFT_CHAR_MAP, c) {
      ShiftMapClosed(c);
      CharToVkCodesValid(Get(SHIFT_CHAR_MAP, c).value);
    }
    if HasKey(CHAR_TO_VK, c) {
      CharToVkCodesValid(c);
    }
  }

  /** An upper-case letter is typed as its letter key with Shift. */
  lemma ResolveUpper(c: char)
    requires IsUpper(c)
    ensures Resolve(c) == Some(KeyStroke(VK_A + (c as int - 'A' as int), [VK_SHIFT]))
  {
    ShiftCharsShape(c);
    UpperLetterKey(c);
  }

  /** A shifted symbol is typed as the key of its unshifted character with
      Shift. */
  lemma ResolveShifted(c: char)
    requires HasKey(SHIFT_CHAR_MAP, c)
    ensures Resolve(c).Some? && Resolve(c).value.modifiers == [VK_SHIFT]
    ensures Get(CHAR_TO_VK, Get(SHIFT_CHAR_MAP, c).value) == Some(Resolve(c).value.vk)
  {
    ShiftCharsShape(c);
    ShiftedSymbolNotKey(c);
    ShiftMapClosed(c);
    CharToVkCodesValid(Get(SHIFT_CHAR_MAP, c).value);
  }

  /** A character of the direct table is typed as its own key, with no
      modifier. */
  lemma ResolveDirect(c: char)
    requires HasKey(CHAR_TO_VK, c)
    ensures Resolve(c) == Some(KeyStroke(Get(CHAR_TO_VK, c).value, []))
  {
    CharToVkCodesValid(c);
    ShiftCharsShape(c);
    if Contains(SHIFT_CHARS, c) {
      ShiftCharsDisjoint(c);
    }
  }

  /** Every key stroke found is a valid, non-zero key with no modifier or
      with Shift alone. */
  lemma ResolveValid(c: char)
    requires Resolve(c).Some?
    ensures IsKeyCode(Resolve(c).value.vk) && Resolve(c).value.vk != 0
    ensures Resolve(c).value.modifiers == [] || Resolve(c).value.modifiers == [VK_SHIFT]
  {
    ShiftCharsShape(c);
    if IsUpper(c) {
      UpperLetterKey(c);
    }
    if HasKey(SHIFT_CHAR_MAP, c) {
      ShiftMapClosed(c);
      CharToVkCodesValid(Get(SHIFT_CHAR_MAP, c).value);
    }
    if HasKey(CHAR_TO_VK, c) {
      CharToVkCodesValid(c);
    }
  }

  /** The batch that typing `c` sends, if it has a key stroke. */
  function Taps(c: char): (t: seq<Entry>)
    ensures |t| <= 1
  {
    if Resolve(c).Some? then [Batch(TapEvents(Resolve(c).value.vk, Resolve(c).value.modifiers))] else []
  }

  /** The pause after each character, if there is one. */
  function Pause(delay: real): (t: seq<Entry>)
    ensures |t| <= 1
  {
    if delay > 0.0 then [Sleep(delay)] else []
  }

  /** The log that typing one character leaves: its tap, then the pause. */
  function CharLog(c: char, delay: real): seq<Entry> {
    Taps(c) + Pause(delay)
  }

  /** The log that typing a text leaves, character after character. */
  function TypingLog(text: string, delay: real): (log: seq<Entry>)
    ensures |log| <= 2 * |text|
    ensures forall i :: 0 <= i < |log| && log[i].Sleep? ==> log[i] == Sleep(delay) && 0.0 < delay
    decreases |text|
  {
    if text == [] then [] else TypingLog(text[..|text| - 1], delay) + CharLog(text[|text| - 1], delay)
  }

  function CountBatches(log: seq<Entry>): nat
    decreases |log|
  {
    if log == [] then 0 else CountBatches(log[..|log| - 1]) + (if log[|log| - 1].Batch? then 1 else 0)
  }

  function CountSleeps(log: seq<Entry>): nat
    decreases |log|
  {
    if log == [] then 0 else CountSleeps(log[..|log| - 1]) + (if log[|log| - 1].Sleep? then 1 else 0)
  }

  lemma {:induction false} CountsAppend(a: seq<Entry>, b: seq<Entry>)
    ensures CountBatches(a + b) == CountBatches(a) + CountBatches(b)
    ensures CountSleeps(a + b) == CountSleeps(a) + CountSleeps(b)
    decreases |b|
  {
    if b == [] {
      assert a + b == a;
    } else {
      assert (a + b)[..|a + b| - 1] == a + b[..|b| - 1];
      CountsAppend(a, b[..|b| - 1]);
    }
  }

  /** Typing a text sends one batch per supported character, and pauses
      once per character, supported or not, exactly when the delay is
      positive. */
  lemma {:induction false} TypingLogCounts(text: string, delay: real)
    ensures CountBatches(TypingLog(text, delay)) == Utils.CountSupported(text)
    ensures CountSleeps(TypingLog(text, delay)) == if delay > 0.0 then |text| else 0
    decreases |text|
  {
    if text != [] {
      var n := |text| - 1;
      TypingLogCounts(text[..n], delay);
      CountsAppend(TypingLog(text[..n], delay), CharLog(text[n], delay));
      ResolveSupported(text[n]);
      CharLogCounts(text[n], delay);
    }
  }

  lemma CharLogCounts(c: char, delay: real)
    ensures CountBatches(CharLog(c, delay)) == if Resolve(c).Some? then 1 else 0
    ensures CountSleeps(CharLog(c, delay)) == if delay > 0.0 then 1 else 0
  {
    var taps, sleeps := Taps(c), Pause(delay);
    CountsAppend(taps, sleeps);
    if taps != [] {
      assert taps[..0] == [];
    }
    if sleeps != [] {
      assert sleeps[..0] == [];
    }
  }

  /** The modifier presses `with_modifiers` sends on entry, one call each. */
  function PressEntries(mods: seq<int>): seq<Entry> {
    seq(|mods|, i requires 0 <= i < |mods| => Batch([Down(mods[i])]))
  }

  /** The modifier releases it sends on exit, one call each, last first. */
  function ReleaseEntries(mods: seq<int>): seq<Entry> {
    seq(|mods|, i requires 0 <= i < |mods| => Batch([Up(mods[|mods| - 1 - i])]))
  }

  /** Holding modifiers around a body: whatever the body sends lies
      between the presses and the releases, and each modifier is released
      exactly as far from the end as it was pressed from the start. */
  lemma ModifierFrameNests(mods: seq<int>, body: seq<Entry>)
    ensures var log := PressEntries(mods) + body + ReleaseEntries(mods);
      |log| == 2 * |mods| + |body| &&
      log[|mods|..|mods| + |body|] == body &&
      forall i :: 0 <= i < |mods| ==>
        log[i] == Batch([Down(mods[i])]) && log[|log| - 1 - i] == Batch([Up(mods[i])])
  {
    var log := PressEntries(mods) + body + ReleaseEntries(mods);
    assert log[|mods|..|mods| + |body|] == body;
    forall i | 0 <= i < |mods|
      ensures log[i] == Batch([Down(mods[i])]) && log[|log| - 1 - i] == Batch([Up(mods[i])])
    {
      assert log[i] == PressEntries(mods)[i];
      assert log[|log| - 1 - i] == ReleaseEntries(mods)[|mods| - 1 - i];
    }
  }

  /** The 16-bit state `GetAsyncKeyState` reports, masked by `0x8000`: its
      most significant bit, taken on the two's-complement form of `state`
      as Python's `&` does. */
  function KeyStateBit(state: int): (b: bool)
    ensures b <==> state % 0x1_0000 >= 0x8000
  {
    HighBit(state % 0x1_0000);
    ((state % 0x1_0000) as bv16) & 0x8000 != 0
  }

  /** Whether key `vk` is down, given the state the system reports for it. */
  function IsKeyPressed(vk: int, state: int): (r: Result<bool>)
    ensures r.Err? <==> !IsKeyCode(vk)
    ensures r.Err? ==> r.error == InvalidKeyCode(vk)
    ensures r.Ok? ==> (r.value <==> state % 0x1_0000 >= 0x8000)
  {
    if !IsKeyCode(vk) then Err(InvalidKeyCode(vk))
    else Ok(KeyStateBit(state))
  }

  lemma HighBit(x: int)
    requires 0 <= x < 0x1_0000
    ensures (x as bv16) & 0x8000 != 0 <==> x >= 0x8000
  {
    var b := x as bv16;
    assert b & 0x8000 != 0 <==> b >= 0x8000;
  }

  /** For a state in the signed 16-bit range the system reports, a key is
      down exactly when the state is negative. */
  lemma KeyPressedIffNegative(vk: int, state: int)
    requires IsKeyCode(vk) && -0x8000 <= state < 0x8000
    ensures IsKeyPressed(vk, state) == Ok(state < 0)
  {
    if state < 0 {
      assert state % 0x1_0000 == state + 0x1_0000;
    } else {
      assert state % 0x1_0000 == state;
    }
  }

  /** Whether the system, answering as `answer` does, accepted every event
      of each batch in `log` from position `start` on. */
  predicate Accepted(log: seq<Entry>, start: nat, answer: (nat, nat) -> nat) {
    forall j :: start <= j < |log| && log[j].Batch? ==> answer(j, |log[j].events|) == |log[j].events|
  }

  /** Typing one more character keeps every earlier batch accepted exactly
      when its own tap, if any, is accepted. */
  lemma AcceptedStep(before: seq<Entry>, c: char, delay: real, start: nat, answer: (nat, nat) -> nat)
    requires start <= |before|
    ensures Accepted(before + CharLog(c, delay), start, answer) <==>
      Accepted(before, start, answer) &&
      (Resolve(c).Some? ==>
        var n := |TapEvents(Resolve(c).value.vk, Resolve(c).value.modifiers)|;
        answer(|before|, n) == n)
  {
    var log := before + CharLog(c, delay);
    assert forall j :: 0 <= j < |before| ==> log[j] == before[j];
    if Resolve(c).Some? {
      assert log[|before|] == Batch(TapEvents(Resolve(c).value.vk, Resolve(c).value.modifiers));
    } else if delay > 0.0 {
      assert log[|before|] == Sleep(delay);
    }
  }

  /** Whether `c` has a key stroke and the system, answering as `answer`
      does, accepts all of its tap sent at log position `at`. */
  predicate TapAccepted(c: char, at: nat, answer: (nat, nat) -> nat) {
    Resolve(c).Some? &&
    var n := |TapEvents(Resolve(c).value.vk, Resolve(c).value.modifiers)|;
    answer(at, n) == n
  }

  /** One step of typing a text: the overall success after character `i`
      is the success so far and that of the character's own tap. */
  lemma TypingStep(text: string, i: nat, delay: real, before: seq<Entry>, start: nat,
                   answer: (nat, nat) -> nat, success: bool)
    requires i < |text| && start <= |before|
    requires success <==> (forall j :: 0 <= j < i ==> Resolve(text[j]).Some?) && Accepted(before, start, answer)
    ensures (success && TapAccepted(text[i], |before|, answer)) <==>
      (forall j :: 0 <= j < i + 1 ==> Resolve(text[j]).Some?) &&
      Accepted(before + CharLog(text[i], delay), start, answer)
  {
    AcceptedStep(before, text[i], delay, start, answer);
  }

  /** Typing two texts one after the other leaves the two logs one after
      the other. */
  lemma {:induction false} TypingLogAppend(a: string, b: string, delay: real)
    ensures TypingLog(a + b, delay) == TypingLog(a, delay) + TypingLog(b, delay)
    decreases |b|
  {
    if b == [] {
      assert a + b == a;
    } else {
      var n := |b| - 1;
      assert (a + b)[..|a + b| - 1] == a + b[..n];
      assert (a + b)[|a + b| - 1] == b[n];
      TypingLogAppend(a, b[..n], delay);
    }
  }

  lemma TypingLogStep(start: seq<Entry>, before: seq<Entry>, text: string, i: nat, delay: real)
    requires i < |text| && before == start + TypingLog(text[..i], delay)
    ensures before + CharLog(text[i], delay) == start + TypingLog(text[..i + 1], delay)
  {
    assert text[..i + 1][..i] == text[..i];
  }

  /** The system's keyboard input, as seen by the typing code. */
  class Keyboard {
    /** Everything sent so far, oldest first. */
    var log: seq<Entry>
    /** How many events `SendInput` reports inserted when a batch of the
        given length is sent at the given log position. */
    const answer: (nat, nat) -> nat

    constructor(answer: (nat, nat) -> nat)
      ensures log == [] && this.answer == answer
    {
      log := [];
      this.answer := answer;
    }

    /** Hand a batch to the system. An empty batch is not sent and counts
        as a success; otherwise success means every event was inserted. */
    method SendInput(inputs: seq<KeyEvent>) returns (ok: bool)
      modifies this
      ensures inputs == [] ==> ok && log == old(log)
      ensures inputs != [] ==> log == old(log) + [Batch(inputs)]
      ensures inputs != [] ==> (ok <==> answer(|old(log)|, |inputs|) == |inputs|)
    {
      if inputs == [] {
        return true;
      }
      var inserted := answer(|log|, |inputs|);
      log := log + [Batch(inputs)];
      return inserted == |inputs|;
    }

    /** Press key `vk` without releasing it. */
    method PressKey(vk: int) returns (r: Result<bool>)
      modifies this
      ensures !IsKeyCode(vk) ==> r == Err(InvalidKeyCode(vk)) && log == old(log)
      ensures IsKeyCode(vk) ==> log == old(log) + [Batch([Down(vk)])]
      ensures IsKeyCode(vk) ==> r == Ok(answer(|old(log)|, 1) == 1)
    {
      if !IsKeyCode(vk) {
        return Err(InvalidKeyCode(vk));
      }
      var ok := SendInput([Down(vk)]);
      return Ok(ok);
    }

    /** Release key `vk`. */
    method ReleaseKey(vk: int) returns (r: Result<bool>)
      modifies this
      ensures !IsKeyCode(vk) ==> r == Err(InvalidKeyCode(vk)) && log == old(log)
      ensures IsKeyCode(vk) ==> log == old(log) + [Batch([Up(vk)])]
      ensures IsKeyCode(vk) ==> r == Ok(answer(|old(log)|, 1) == 1)
    {
      if !IsKeyCode(vk) {
        return Err(InvalidKeyCode(vk));
      }
      var ok := SendInput([Up(vk)]);
      return Ok(ok);
    }

    /** Tap `vk` while holding `mods`, as one batch. Every code is checked
        before anything is sent. */
    method TapKey(vk: int, mods: seq<int>) returns (r: Result<bool>)
      modifies this
      ensures !IsKeyCode(vk) ==> r == Err(InvalidKeyCode(vk)) && log == old(log)
      ensures IsKeyCode(vk) && FirstInvalid(mods) < |mods| ==>
        r == Err(InvalidModifier(mods[FirstInvalid(mods)])) && log == old(log)
      ensures IsKeyCode(vk) && FirstInvalid(mods) == |mods| ==>
        log == old(log) + [Batch(TapEvents(vk, mods))] &&
        r == Ok(answer(|old(log)|, 2 + 2 * |mods|) == 2 + 2 * |mods|)
    {
      if !IsKeyCode(vk) {
        return Err(InvalidKeyCode(vk));
      }
      var inputs := [];
      for i := 0 to |mods|
        invariant i <= FirstInvalid(mods)
        invariant inputs == Presses(mods[..i])
      {
        if !IsKeyCode(mods[i]) {
          return Err(InvalidModifier(mods[i]));
        }
        inputs := inputs + [Down(mods[i])];
      }
      assert mods[..|mods|] == mods;
      inputs := inputs + [Down(vk), Up(vk)];
      for i := 0 to |mods|
        invariant inputs == Presses(mods) + [Down(vk), Up(vk)] + Releases(mods)[..i]
      {
        assert Releases(mods)[..i + 1] == Releases(mods)[..i] + [Up(mods[|mods| - 1 - i])];
        inputs := inputs + [Up(mods[|mods| - 1 - i])];
      }
      assert Releases(mods)[..|mods|] == Releases(mods);
      TapEventsNest(vk, mods);
      var ok := SendInput(inputs);
      return Ok(ok);
    }

    /** Type the one character `s`, with Shift when it needs it. A
        character without a key stroke sends nothing and fails. */
    method TypeCharacter(s: string) returns (r: Result<bool>)
      modifies this
      ensures |s| != 1 ==> r == Err(NotOneCharacter) && log == old(log)
      ensures |s| == 1 ==> log == old(log) + Taps(s[0])
      ensures |s| == 1 ==> r == Ok(TapAccepted(s[0], |old(log)|, answer))
    {
      if |s| != 1 {
        return Err(NotOneCharacter);
      }
      var c := s[0];
      if Contains(SHIFT_CHARS, c) {
        if IsUpper(c) {
          var vk := Get(CHAR_TO_VK, Lower(c));
          if Truthy(vk) {
            r := TapResolved(c);
            return;
          }
        } else {
          var baseChar := Get(SHIFT_CHAR_MAP, c);
          if baseChar.Some? {
            var vk := Get(CHAR_TO_VK, baseChar.value);
            if Truthy(vk) {
              r := TapResolved(c);
              return;
            }
          }
        }
      }
      var vk := Get(CHAR_TO_VK, c);
      if Truthy(vk) {
        r := TapResolved(c);
        return;
      }
      return Ok(false);
    }

    /** Tap the key stroke found for `c`. */
    method TapResolved(c: char) returns (r: Result<bool>)
      requires Resolve(c).Some?
      modifies this
      ensures log == old(log) + Taps(c)
      ensures r == Ok(TapAccepted(c, |old(log)|, answer))
    {
      var stroke := Resolve(c).value;
      ResolveValid(c);
      assert FirstInvalid(stroke.modifiers) == |stroke.modifiers|;
      r := TapKey(stroke.vk, stroke.modifiers);
    }

    /** Type `text` character by character, pausing `delay` seconds after
        each one when it is positive. A character that fails does not stop
        the rest; the result says whether all of them succeeded. */
    method TypeString(text: string, delay: real) returns (r: Result<bool>)
      modifies this
      ensures delay < 0.0 ==> r == Err(NegativeDelay) && log == old(log)
      ensures 0.0 <= delay ==> log == old(log) + TypingLog(text, delay)
      ensures 0.0 <= delay ==> r.Ok?
      ensures 0.0 <= delay ==>
        (r.value <==> (forall i :: 0 <= i < |text| ==> Resolve(text[i]).Some?)
                      && Accepted(log, |old(log)|, answer))
    {
      if delay < 0.0 {
        return Err(NegativeDelay);
      }
      var success := true;
      for i := 0 to |text|
        invariant log == old(log) + TypingLog(text[..i], delay)
        invariant success <==> (forall j :: 0 <= j < i ==> Resolve(text[j]).Some?)
                               && Accepted(log, |old(log)|, answer)
      {
        var before, old_success := log, success;
        var charSuccess := TypeAndPause(text[i], delay);
        if !charSuccess {
          success := false;
        }
        TypingLogStep(old(log), before, text, i, delay);
        TypingStep(text, i, delay, before, |old(log)|, answer, old_success);
      }
      assert text[..|text|] == text;
      return Ok(success);
    }

    /** One round of typing a text: type `c`, then pause `delay` seconds
        when it is positive. */
    method TypeAndPause(c: char, delay: real) returns (ok: bool)
      modifies this
      ensures log == old(log) + CharLog(c, delay)
      ensures ok == TapAccepted(c, |old(log)|, answer)
    {
      var charResult := TypeCharacter([c]);
      assert [c][0] == c;
      ok := charResult.value;
      if delay > 0.0 {
        log := log + [Sleep(delay)];
      }
    }

    /** Hold `mods` around a body that sends `body` and may raise. The
        modifiers are checked one at a time while being pressed: an invalid
        one raises with the earlier ones left down. Otherwise they are all
        released, last first, whether or not the body raises. */
    method WithModifiers(mods: seq<int>, body: seq<Entry>, bodyRaises: bool) returns (r: Result<()>)
      modifies this
      ensures FirstInvalid(mods) < |mods| ==>
        r == Err(InvalidModifier(mods[FirstInvalid(mods)])) &&
        log == old(log) + PressEntries(mods[..FirstInvalid(mods)])
      ensures FirstInvalid(mods) == |mods| ==>
        log == old(log) + PressEntries(mods) + body + ReleaseEntries(mods) &&
        r == (if bodyRaises then Err(BodyRaised) else Ok(()))
    {
      for i := 0 to |mods|
        invariant i <= FirstInvalid(mods)
        invariant log == old(log) + PressEntries(mods[..i])
      {
        if !IsKeyCode(mods[i]) {
          return Err(InvalidModifier(mods[i]));
        }
        var _ := PressKey(mods[i]);
        assert PressEntries(mods[..i + 1]) == PressEntries(mods[..i]) + [Batch([Down(mods[i])])];
      }
      assert mods[..|mods|] == mods;
      log := log + body;
      for i := 0 to |mods|
        invariant log == old(log) + PressEntries(mods) + body + ReleaseEntries(mods)[..i]
      {
        var _ := ReleaseKey(mods[|mods| - 1 - i]);
        assert ReleaseEntries(mods)[..i + 1] == ReleaseEntries(mods)[..i] + [Batch([Up(mods[|mods| - 1 - i])])];
      }
      assert ReleaseEntries(mods)[..|mods|] == ReleaseEntries(mods);
      return if bodyRaises then Err(BodyRaised) else Ok(());
    }
  }

  // The keyboard tests replace `SendInput` by a mock that always reports
  // one event inserted. A tap sends at least two events in one call, so
  // against that mock the calls below report failure; a mock that reports
  // every event of the batch inserted makes them succeed.

  /** `tap_key(VK_A)`, `tap_key(VK_A, [VK_CONTROL])` and
      `type_string("Hello", 0.1)` against a system that always reports one
      event inserted. */
  method MockedOneTests() returns (tap: Result<bool>, chord: Result<bool>, typed: Result<bool>)
    ensures tap == Ok(false) && chord == Ok(false) && typed == Ok(false)
  {
    var keyboard := new Keyboard((at: nat, n: nat) => 1);
    tap := keyboard.TapKey(VK_A, []);
    chord := keyboard.TapKey(VK_A, [VK_CONTROL]);
    var start := keyboard.log;
    typed := keyboard.TypeString("Hello", 0.1);
    HelloStartsShifted();
    assert keyboard.log[|start|] == TypingLog("Hello", 0.1)[0];
  }

  /** Typing "Hello" starts with one batch of four events: Shift and H
      down, then both up. */
  lemma HelloStartsShifted()
    ensures TypingLog("Hello", 0.1)[0] == Batch(TapEvents(VK_H, [VK_SHIFT]))
    ensures |TapEvents(VK_H, [VK_SHIFT])| == 4
  {
    TypingLogAppend("H", "ello", 0.1);
    assert "H" + "ello" == "Hello";
    assert TypingLog("H", 0.1) == TypingLog([], 0.1) + CharLog('H', 0.1);
    ResolveUpper('H');
  }

  /** The same calls against a system that reports every event of a batch
      inserted. */
  method CountingMockTests() returns (tap: Result<bool>, chord: Result<bool>, typed: Result<bool>)
    ensures tap == Ok(true) && chord == Ok(true) && typed == Ok(true)
  {
    var keyboard := new Keyboard((at: nat, n: nat) => n);
    tap := keyboard.TapKey(VK_A, []);
    chord := keyboard.TapKey(VK_A, [VK_CONTROL]);
    typed := keyboard.TypeString("Hello", 0.1);
    ResolveUpper('H');
    CharToVkLookup('e');
    ResolveDirect('e');
    CharToVkLookup('l');
    ResolveDirect('l');
    CharToVkLookup('o');
    ResolveDirect('o');
  }
}
