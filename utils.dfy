/** Text handling and typing cadence: which characters can be typed, how a
    text splits into typeable and untypeable runs, and the delays a typing
    profile produces. Durations are exact reals; every random draw is an
    explicit argument, so each bound below holds for every possible draw. */
module Utils {
  import opened Results
  import opened Strings
  import opened Tables
  import opened Constants

  // ---------------------------------------------------------------------
  // humanize_delay

  /** `random.uniform(a, b)`, which Python computes as `a + (b - a) * u` from
      a draw `u` of `random.random()`. */
  function Uniform(a: real, b: real, u: real): (r: real)
    ensures u == 0.0 ==> r == a
    ensures u == 1.0 ==> r == b
    ensures a <= b && 0.0 <= u <= 1.0 ==> a <= r <= b
  {
    var width := b - a;
    if a <= b && 0.0 <= u <= 1.0 then
      ScaleMonotone(u, 1.0, width);
      assert width * u <= width;
      a + width * u
    else a + width * u
  }

  /** Python's `max(0, x)`. */
  function ClampAtZero(x: real): (r: real)
    ensures 0.0 <= r && x <= r
    ensures r == x || r == 0.0
  {
    if x < 0.0 then 0.0 else x
  }

  /** A base delay jittered by at most `variance` either way and never
      negative; `u` is the draw behind `random.uniform(-variance, variance)`. */
  function HumanizeDelay(baseDelay: real, variance: real, u: real): (r: Result<real>)
    requires 0.0 <= u <= 1.0
    ensures r.Err? <==> baseDelay < 0.0 || variance < 0.0
    ensures baseDelay < 0.0 ==> r == Err(NegativeBaseDelay)
    ensures 0.0 <= baseDelay && variance < 0.0 ==> r == Err(NegativeVariance)
    ensures r.Ok? ==> 0.0 <= r.value && baseDelay - variance <= r.value <= baseDelay + variance
    ensures r.Ok? && variance == 0.0 ==> r.value == baseDelay
  {
    if baseDelay < 0.0 then Err(NegativeBaseDelay)
    else if variance < 0.0 then Err(NegativeVariance)
    else
      var variation := Uniform(-variance, variance, u);
      Ok(ClampAtZero(baseDelay + variation))
  }

  /** Every delay in the promised range is produced by some draw: the range
      `[max(0, base - variance), base + variance]` is exactly the image. */
  lemma HumanizeDelayReachesRange(baseDelay: real, variance: real, d: real)
    requires 0.0 <= baseDelay && 0.0 < variance
    requires 0.0 <= d && baseDelay - variance <= d <= baseDelay + variance
    ensures exists u :: 0.0 <= u <= 1.0 && HumanizeDelay(baseDelay, variance, u) == Ok(d)
  {
    var u := (d - baseDelay + variance) / (2.0 * variance);
    assert 0.0 <= u <= 1.0;
    assert Uniform(-variance, variance, u) == d - baseDelay;
    assert HumanizeDelay(baseDelay, variance, u) == Ok(d);
  }

  // ---------------------------------------------------------------------
  // _is_char_supported

  /** Whether a one-character string can be typed: it has its own key, or
      it is an upper-case letter whose lower case has one, or it is a
      shifted symbol whose base character has one. Any other length is
      simply unsupported. */
  function IsCharSupported(s: string): (r: bool)
    ensures r ==> |s| == 1
  {
    if |s| != 1 then false
    else
      var c := s[0];
      if HasKey(CHAR_TO_VK, c) then true
      else if IsUpper(c) && HasKey(CHAR_TO_VK, Lower(c)) then true
      else if Contains(SHIFT_CHARS, c) then
        var baseChar := Get(SHIFT_CHAR_MAP, c);
        baseChar.Some? && HasKey(CHAR_TO_VK, baseChar.value)
      else false
  }

  /** The support test applied to one character of a text. */
  predicate Supported(c: char) {
    IsCharSupported([c])
  }

  /** The supported characters are exactly those with a key of their own
      and those in the Shift set: the two fallback checks never turn a
      Shift character away. */
  lemma SupportedChars(c: char)
    ensures Supported(c) <==> HasKey(CHAR_TO_VK, c) || Contains(SHIFT_CHARS, c)
  {
    ShiftCharsShape(c);
    if IsUpper(c) {
      UpperLetterKey(c);
    }
    if HasKey(SHIFT_CHAR_MAP, c) {
      ShiftMapClosed(c);
    }
  }

  // ---------------------------------------------------------------------
  // validate_text

  /** Position of the first occurrence of `c` in `s`. */
  function FirstIndex(s: string, c: char): (k: nat)
    requires c in s
    ensures k < |s| && s[k] == c && c !in s[..k]
  {
    if s[0] == c then 0
    else
      var k := 1 + FirstIndex(s[1..], c);
      assert s[..k] == [s[0]] + s[1..][..k - 1];
      k
  }

  lemma {:induction false} FirstIndexAt(s: string, i: nat)
    requires i < |s| && s[i] !in s[..i]
    ensures FirstIndex(s, s[i]) == i
  {
    if i > 0 {
      assert s[0] == s[..i][0];
      assert s[1..][i - 1] == s[i];
      assert s[1..][..i - 1] == s[..i][1..];
      FirstIndexAt(s[1..], i - 1);
    }
  }

  /** Reports whether every character of `text` can be typed, together with
      each untypeable character once, in order of first occurrence. */
  method ValidateText(text: string) returns (valid: bool, unsupported: seq<char>)
    ensures valid <==> unsupported == []
    ensures forall c :: c in unsupported <==> c in text && !Supported(c)
    ensures forall a :: 0 <= a < |unsupported| ==> unsupported[a] in text
    ensures forall a, b :: 0 <= a < b < |unsupported| ==> unsupported[a] != unsupported[b]
    ensures forall a, b :: 0 <= a < b < |unsupported| ==>
      FirstIndex(text, unsupported[a]) < FirstIndex(text, unsupported[b])
  {
    unsupported := [];
    var i := 0;
    while i < |text|
      invariant 0 <= i <= |text|
      invariant forall c :: c in unsupported <==> c in text[..i] && !Supported(c)
      invariant forall a :: 0 <= a < |unsupported| ==> unsupported[a] in text
      invariant forall a, b :: 0 <= a < b < |unsupported| ==> unsupported[a] != unsupported[b]
      invariant forall a :: 0 <= a < |unsupported| ==> FirstIndex(text, unsupported[a]) < i
      invariant forall a, b :: 0 <= a < b < |unsupported| ==>
        FirstIndex(text, unsupported[a]) < FirstIndex(text, unsupported[b])
    {
      var c := text[i];
      assert text[..i + 1] == text[..i] + [c];
      if !IsCharSupported([c]) {
        if c !in unsupported {
          assert c !in text[..i];
          FirstIndexAt(text, i);
          unsupported := unsupported + [c];
        }
      }
      i := i + 1;
    }
    assert text[..i] == text;
    valid := |unsupported| == 0;
  }

  // ---------------------------------------------------------------------
  // split_text_by_support

  /** One run of text together with the support flag of its characters. */
  datatype Chunk = Chunk(text: string, supported: bool)

  /** The chunks' texts joined in order. */
  function Join(chunks: seq<Chunk>): string {
    if chunks == [] then [] else chunks[0].text + Join(chunks[1..])
  }

  lemma {:induction false} JoinAppend(chunks: seq<Chunk>, last: Chunk)
    ensures Join(chunks + [last]) == Join(chunks) + last.text
  {
    if chunks == [] {
      assert [last][1..] == [];
    } else {
      assert (chunks + [last])[1..] == chunks[1..] + [last];
      JoinAppend(chunks[1..], last);
    }
  }

  /** Every character of `text` has support flag `flag`. */
  predicate AllFlagged(text: string, flag: bool) {
    text == [] || (Supported(text[0]) == flag && AllFlagged(text[1..], flag))
  }

  lemma {:induction false} AllFlaggedAppend(text: string, c: char, flag: bool)
    requires AllFlagged(text, flag) && Supported(c) == flag
    ensures AllFlagged(text + [c], flag)
  {
    if text != [] {
      assert (text + [c])[1..] == text[1..] + [c];
      AllFlaggedAppend(text[1..], c, flag);
    }
  }

  /** A non-empty run all of whose characters carry the chunk's flag. */
  predicate IsRun(chunk: Chunk) {
    chunk.text != [] && AllFlagged(chunk.text, chunk.supported)
  }

  /** Every chunk is a run. */
  predicate Homogeneous(chunks: seq<Chunk>) {
    forall k :: 0 <= k < |chunks| ==> IsRun(chunks[k])
  }

  /** Neighbouring chunks carry different flags. */
  predicate Alternating(chunks: seq<Chunk>) {
    forall k :: 0 < k < |chunks| ==> chunks[k - 1].supported != chunks[k].supported
  }

  /** `chunks` cuts `text` into maximal runs of equal support. */
  predicate IsSegmentation(chunks: seq<Chunk>, text: string) {
    Join(chunks) == text && Homogeneous(chunks) && Alternating(chunks)
  }

  /** Splits a text into its maximal runs of supported and of unsupported
      characters, in order. */
  method SplitTextBySupport(text: string) returns (chunks: seq<Chunk>)
    ensures IsSegmentation(chunks, text)
    ensures text == [] ==> chunks == []
  {
    if text == [] {
      return [];
    }
    chunks := [];
    var current: string := [];
    var currentSupported := IsCharSupported([text[0]]);
    var i := 0;
    while i < |text|
      invariant 0 <= i <= |text|
      invariant Join(chunks) + current == text[..i]
      invariant Homogeneous(chunks) && Alternating(chunks)
      invariant i == 0 ==> currentSupported == Supported(text[0]) && current == []
      invariant i > 0 ==> IsRun(Chunk(current, currentSupported))
      invariant chunks != [] ==> chunks[|chunks| - 1].supported != currentSupported
    {
      var c := text[i];
      var charSupported := IsCharSupported([c]);
      assert text[..i + 1] == text[..i] + [c];
      if charSupported == currentSupported {
        GrowRun(current, c, currentSupported);
        current := current + [c];
      } else {
        if current != [] {
          CloseChunk(chunks, Chunk(current, currentSupported));
          chunks := chunks + [Chunk(current, currentSupported)];
        }
        current := [c];
        currentSupported := charSupported;
      }
      i := i + 1;
    }
    assert text[..i] == text;
    if current != [] {
      CloseChunk(chunks, Chunk(current, currentSupported));
      chunks := chunks + [Chunk(current, currentSupported)];
    }
  }

  /** A run, or the empty text, grows by a character carrying its flag. */
  lemma GrowRun(current: string, c: char, flag: bool)
    requires current == [] || IsRun(Chunk(current, flag))
    requires Supported(c) == flag
    ensures IsRun(Chunk(current + [c], flag))
  {
    if current == [] {
      assert current + [c] == [c];
    } else {
      AllFlaggedAppend(current, c, flag);
    }
  }

  /** Appending a run whose flag differs from the last chunk's keeps a
      sequence of chunks homogeneous and alternating. */
  lemma CloseChunk(chunks: seq<Chunk>, run: Chunk)
    requires Homogeneous(chunks) && Alternating(chunks) && IsRun(run)
    requires chunks != [] ==> chunks[|chunks| - 1].supported != run.supported
    ensures Homogeneous(chunks + [run]) && Alternating(chunks + [run])
    ensures Join(chunks + [run]) == Join(chunks) + run.text
  {
    HomogeneousAppend(chunks, run);
    AlternatingAppend(chunks, run);
    JoinAppend(chunks, run);
  }

  lemma HomogeneousAppend(chunks: seq<Chunk>, run: Chunk)
    requires Homogeneous(chunks) && IsRun(run)
    ensures Homogeneous(chunks + [run])
  {
    var all := chunks + [run];
    forall k | 0 <= k < |all|
      ensures IsRun(all[k])
    {
      if k < |chunks| {
        assert all[k] == chunks[k];
      }
    }
  }

  lemma AlternatingAppend(chunks: seq<Chunk>, run: Chunk)
    requires Alternating(chunks)
    requires chunks != [] ==> chunks[|chunks| - 1].supported != run.supported
    ensures Alternating(chunks + [run])
  {
    var all := chunks + [run];
    forall k | 0 < k < |all|
      ensures all[k - 1].supported != all[k].supported
    {
      assert all[k - 1] == chunks[k - 1];
    }
  }

  /** Length of the longest prefix of `text` whose characters all have
      support flag `flag`. */
  function RunLength(text: string, flag: bool): (n: nat)
    ensures n <= |text|
  {
    if text == [] || Supported(text[0]) != flag then 0 else 1 + RunLength(text[1..], flag)
  }

  lemma {:induction false} RunLengthOfRun(run: string, rest: string, flag: bool)
    requires AllFlagged(run, flag)
    requires rest == [] || Supported(rest[0]) != flag
    ensures RunLength(run + rest, flag) == |run|
  {
    if run == [] {
      assert run + rest == rest;
    } else {
      assert (run + rest)[0] == run[0];
      assert (run + rest)[1..] == run[1..] + rest;
      RunLengthOfRun(run[1..], rest, flag);
    }
  }

  /** The first chunk of a segmentation is the longest run at the start. */
  lemma FirstChunkIsMaximal(xs: seq<Chunk>, text: string)
    requires IsSegmentation(xs, text) && xs != []
    ensures |xs[0].text| == RunLength(text, xs[0].supported)
  {
    var tail := xs[1..];
    assert text == xs[0].text + Join(tail);
    assert IsRun(xs[0]);
    if tail != [] {
      assert tail[0] == xs[1] && IsRun(xs[1]);
      assert Join(tail) == xs[1].text + Join(tail[1..]);
      assert Join(tail)[0] == xs[1].text[0];
    }
    RunLengthOfRun(xs[0].text, Join(tail), xs[0].supported);
  }

  lemma TailSegmentation(xs: seq<Chunk>, text: string)
    requires IsSegmentation(xs, text) && xs != []
    ensures IsSegmentation(xs[1..], text[|xs[0].text|..])
  {
    var tail := xs[1..];
    assert text == xs[0].text + Join(tail);
    assert Join(tail) == text[|xs[0].text|..];
    forall k | 0 <= k < |tail|
      ensures IsRun(tail[k])
    {
      assert tail[k] == xs[k + 1];
    }
    forall k | 0 < k < |tail|
      ensures tail[k - 1].supported != tail[k].supported
    {
      assert tail[k - 1] == xs[k] && tail[k] == xs[k + 1];
    }
  }

  lemma {:induction false} JoinLength(chunks: seq<Chunk>)
    requires Homogeneous(chunks)
    ensures |Join(chunks)| >= |chunks|
  {
    if chunks != [] {
      assert IsRun(chunks[0]);
      forall k | 0 <= k < |chunks[1..]|
        ensures IsRun(chunks[1..][k])
      {
        assert chunks[1..][k] == chunks[k + 1];
      }
      JoinLength(chunks[1..]);
    }
  }

  /** The segmentation of a text is unique: any two ways of cutting it into
      non-empty, homogeneous, alternating runs are the same, so the split
      above is determined by the text alone. */
  lemma {:induction false} SegmentationUnique(xs: seq<Chunk>, ys: seq<Chunk>, text: string)
    requires IsSegmentation(xs, text) && IsSegmentation(ys, text)
    ensures xs == ys
    decreases |text|
  {
    if xs == [] || ys == [] {
      JoinLength(xs);
      JoinLength(ys);
    } else {
      var x, y := xs[0], ys[0];
      assert IsRun(x) && IsRun(y);
      assert text == x.text + Join(xs[1..]) == y.text + Join(ys[1..]);
      assert x.supported == Supported(text[0]) == y.supported by {
        assert text[0] == x.text[0] && text[0] == y.text[0];
      }
      FirstChunkIsMaximal(xs, text);
      FirstChunkIsMaximal(ys, text);
      assert x.text == text[..|x.text|] == y.text;
      TailSegmentation(xs, text);
      TailSegmentation(ys, text);
      SegmentationUnique(xs[1..], ys[1..], text[|x.text|..]);
      assert xs == [x] + xs[1..] && ys == [y] + ys[1..];
    }
  }

  // ---------------------------------------------------------------------
  // calculate_typing_time

  /** Number of characters of `text` that will be typed. */
  function CountSupported(text: string): (n: nat)
    ensures n <= |text|
  {
    if text == [] then 0
    else CountSupported(text[..|text| - 1]) + (if Supported(text[|text| - 1]) then 1 else 0)
  }

  lemma {:induction false} CountSupportedAppend(a: string, b: string)
    ensures CountSupported(a + b) == CountSupported(a) + CountSupported(b)
    decreases |b|
  {
    if b == [] {
      assert a + b == a;
    } else {
      assert (a + b)[..|a + b| - 1] == a + b[..|b| - 1];
      CountSupportedAppend(a, b[..|b| - 1]);
    }
  }

  /** The time needed to type `text` with `delay` between keystrokes: one
      gap between each two consecutive typed characters. */
  function CalculateTypingTime(text: string, delay: real): (r: Result<real>)
    ensures r.Err? <==> delay < 0.0
    ensures r.Err? ==> r.error == NegativeDelay
    ensures r.Ok? ==> 0.0 <= r.value
  {
    if delay < 0.0 then Err(NegativeDelay)
    else
      GapsBound(CountSupported(text), |text|, delay);
      Ok(Gaps(CountSupported(text), delay))
  }

  /** The estimate never exceeds one delay per character of the text. */
  lemma TypingTimeBound(text: string, delay: real)
    requires 0.0 <= delay
    ensures CalculateTypingTime(text, delay).value <= (|text| as real) * delay
  {
    GapsBound(CountSupported(text), |text|, delay);
  }

  /** Total delay between `typed` keystrokes; none for one keystroke or none. */
  function Gaps(typed: nat, delay: real): (r: real)
    ensures typed <= 1 ==> r == 0.0
    ensures 0.0 <= delay ==> 0.0 <= r
  {
    if typed <= 1 then 0.0
    else
      if 0.0 <= delay then ScaleMonotone(0.0, (typed - 1) as real, delay); ((typed - 1) as real) * delay
      else ((typed - 1) as real) * delay
  }

  lemma GapsBound(typed: nat, n: nat, delay: real)
    requires typed <= n && 0.0 <= delay
    ensures 0.0 <= Gaps(typed, delay) <= (n as real) * delay
  {
    if typed > 1 {
      ScaleMonotone((typed - 1) as real, n as real, delay);
    }
  }

  lemma ScaleMonotone(x: real, y: real, d: real)
    requires 0.0 <= x <= y && 0.0 <= d
    ensures 0.0 <= x * d <= y * d
  {
  }

  /** With at least one typed character, the estimate is one delay per
      typed character after the first. */
  lemma TypingTimeGaps(text: string, delay: real)
    requires 0.0 <= delay && CountSupported(text) >= 1
    ensures CalculateTypingTime(text, delay).Ok?
    ensures CalculateTypingTime(text, delay).value == ((CountSupported(text) - 1) as real) * delay
  {
    var typed := CountSupported(text);
    if typed == 1 {
      assert ((typed - 1) as real) * delay == 0.0 * delay == 0.0;
    }
  }

  /** With no typed character, or only one, typing takes no time. */
  lemma TypingTimeFewTyped(text: string, delay: real)
    requires 0.0 <= delay && CountSupported(text) <= 1
    ensures CalculateTypingTime(text, delay) == Ok(0.0)
  {
  }

  /** Concatenating two texts that each have a typed character adds exactly
      one delay between them. */
  lemma TypingTimeConcat(a: string, b: string, delay: real)
    requires 0.0 <= delay
    requires CountSupported(a) >= 1 && CountSupported(b) >= 1
    ensures CalculateTypingTime(a + b, delay).value
      == CalculateTypingTime(a, delay).value + CalculateTypingTime(b, delay).value + delay
  {
    CountSupportedAppend(a, b);
    GapsAdd(CountSupported(a), CountSupported(b), delay);
  }

  lemma GapsAdd(m: nat, n: nat, delay: real)
    requires 1 <= m && 1 <= n
    ensures Gaps(m + n, delay) == Gaps(m, delay) + Gaps(n, delay) + delay
  {
  }

  /** Characters that cannot be typed add no time. */
  lemma TypingTimeIgnoresUnsupported(a: string, b: string, delay: real)
    requires forall i :: 0 <= i < |b| ==> !Supported(b[i])
    ensures CalculateTypingTime(a + b, delay).Ok? == CalculateTypingTime(a, delay).Ok?
    ensures CalculateTypingTime(a + b, delay).Ok? ==>
      CalculateTypingTime(a + b, delay).value == CalculateTypingTime(a, delay).value
  {
    CountSupportedAppend(a, b);
    NoneSupported(b);
  }

  lemma {:induction false} NoneSupported(b: string)
    requires forall i :: 0 <= i < |b| ==> !Supported(b[i])
    ensures CountSupported(b) == 0
  {
    if b != [] {
      NoneSupported(b[..|b| - 1]);
    }
  }

  /** Examples: five typed letters give four delays; one letter or none
      give no time. */
  lemma TypingTimeExamples()
    ensures CalculateTypingTime("Hello", 0.1).Ok? && CalculateTypingTime("Hello", 0.1).value == 0.4
    ensures CalculateTypingTime("A", 0.1).Ok? && CalculateTypingTime("A", 0.1).value == 0.0
    ensures CalculateTypingTime("", 0.1).Ok? && CalculateTypingTime("", 0.1).value == 0.0
  {
    SupportedChars('H');
    ShiftCharsShape('H');
    SupportedChars('A');
    ShiftCharsShape('A');
    SupportedChars('e');
    CharToVkLookup('e');
    SupportedChars('l');
    CharToVkLookup('l');
    SupportedChars('o');
    CharToVkLookup('o');
    assert "Hello"[..4] == "Hell" && "Hell"[..3] == "Hel" && "Hel"[..2] == "He" && "He"[..1] == "H";
    assert "H"[..0] == "" && "A"[..0] == "";
    assert CountSupported("H") == 1;
    assert CountSupported("He") == 2;
    assert CountSupported("Hel") == 3;
    assert CountSupported("Hell") == 4;
    assert CountSupported("Hello") == 5;
    assert CountSupported("A") == 1;
  }

  // ---------------------------------------------------------------------
  // normalize_line_endings

  /** The three line endings a text may be normalized to. */
  predicate IsLineEnding(target: string) {
    target == "\n" || target == "\r\n" || target == "\r"
  }

  /** Reference reading of a text's line structure, in one left-to-right
      pass: a CR LF pair or a lone CR becomes LF, everything else is kept. */
  function ToUnix(s: string): string
    decreases |s|
  {
    if s == [] then []
    else if s[0] == '\r' then
      if |s| >= 2 && s[1] == '\n' then "\n" + ToUnix(s[2..]) else "\n" + ToUnix(s[1..])
    else [s[0]] + ToUnix(s[1..])
  }

  /** Text with every line ending written as `target`. */
  method NormalizeLineEndings(text: string, target: string) returns (r: Result<string>)
    ensures r.Err? <==> !IsLineEnding(target)
    ensures r.Err? ==> r.error == InvalidTarget
    ensures r.Ok? ==> ToUnix(r.value) == ToUnix(text)
    ensures r.Ok? && target == "\n" ==> r.value == ToUnix(text) && '\r' !in r.value
    ensures r.Ok? && target != "\n" ==> r.value == Replace(ToUnix(text), "\n", target)
  {
    if !IsLineEnding(target) {
      return Err(InvalidTarget);
    }
    var s := Replace(text, "\r\n", "\n");
    s := Replace(s, "\r", "\n");
    TwoPassesToUnix(text);
    ToUnixHasNoCr(text);
    ToUnixFixes(ToUnix(text));
    if target != "\n" {
      ToUnixInvertsReplace(s, target);
      s := Replace(s, "\n", target);
    }
    return Ok(s);
  }

  /** The two replacement passes of the source, CR LF first and then lone
      CR, compute the one-pass reading. */
  lemma {:induction false} TwoPassesToUnix(s: string)
    ensures Replace(Replace(s, "\r\n", "\n"), "\r", "\n") == ToUnix(s)
    decreases |s|
  {
    if |s| < 2 {
      if |s| == 1 {
        assert s[..1] == s;
      }
    } else if s[..2] == "\r\n" {
      assert s[0] == '\r' && s[1] == '\n';
      var t := Replace(s[2..], "\r\n", "\n");
      assert ("\n" + t)[..1] == "\n" && ("\n" + t)[1..] == t;
      TwoPassesToUnix(s[2..]);
    } else {
      var t := Replace(s[1..], "\r\n", "\n");
      assert ([s[0]] + t)[..1] == [s[0]] && ([s[0]] + t)[1..] == t;
      TwoPassesToUnix(s[1..]);
    }
  }

  lemma {:induction false} ToUnixHasNoCr(s: string)
    ensures '\r' !in ToUnix(s)
    decreases |s|
  {
    if s != [] {
      if s[0] == '\r' && |s| >= 2 && s[1] == '\n' {
        ToUnixHasNoCr(s[2..]);
      } else {
        ToUnixHasNoCr(s[1..]);
      }
    }
  }

  /** A text without CR is already normalized. */
  lemma {:induction false} ToUnixFixes(s: string)
    requires '\r' !in s
    ensures ToUnix(s) == s
    decreases |s|
  {
    if s != [] {
      assert '\r' !in s[1..] by {
        assert forall x :: x in s[1..] ==> x in s;
      }
      ToUnixFixes(s[1..]);
    }
  }

  /** Writing the line endings of a CR-free text as CR LF or as CR loses
      nothing: reading them back gives the text again. */
  lemma {:induction false} ToUnixInvertsReplace(u: string, target: string)
    requires '\r' !in u && IsLineEnding(target)
    ensures ToUnix(Replace(u, "\n", target)) == u
    decreases |u|
  {
    if target == "\n" {
      ReplaceAbsentPattern(u);
      ToUnixFixes(u);
    } else if u != [] {
      assert '\r' !in u[1..] by {
        assert forall x :: x in u[1..] ==> x in u;
      }
      var rest := Replace(u[1..], "\n", target);
      assert u[..1] == [u[0]];
      if u[0] == '\n' {
        assert Replace(u, "\n", target) == target + rest;
        if target == "\r" {
          ReplaceCharRemoves(u[1..], '\n', target);
          assert rest == [] || rest[0] != '\n' by {
            if rest != [] {
              assert rest[0] in rest;
            }
          }
          assert (target + rest)[1..] == rest;
        } else {
          assert (target + rest)[2..] == rest;
        }
      } else {
        assert Replace(u, "\n", target) == [u[0]] + rest;
        assert ([u[0]] + rest)[1..] == rest;
      }
      ToUnixInvertsReplace(u[1..], target);
    }
  }

  lemma {:induction false} ReplaceAbsentPattern(u: string)
    ensures Replace(u, "\n", "\n") == u
    decreases |u|
  {
    if u != [] {
      assert u[..1] == [u[0]];
      ReplaceAbsentPattern(u[1..]);
    }
  }

  // ---------------------------------------------------------------------
  // escape_special_chars

  /** The control characters shown escaped, with their two-character
      escapes, in the order the source applies them: LF, CR, TAB, BS, FF,
      VT and NUL. */
  const ESCAPE_MAP: Table<string> := [
    ('\n', "\\n"), ('\r', "\\r"), ('\t', "\\t"), ('\U{8}', "\\b"),
    ('\U{C}', "\\f"), ('\U{B}', "\\v"), ('\0', "\\0")
  ]

  /** How one character is shown under `entries`: its escape if it has one,
      otherwise itself. */
  function Shown(c: char, entries: Table<string>): string {
    match Get(entries, c)
    case Some(escaped) => escaped
    case None => [c]
  }

  /** Reference reading of escaping: every character shown on its own. */
  function EscapeWith(s: string, entries: Table<string>): string
    decreases |s|
  {
    if s == [] then [] else EscapeWith(s[..|s| - 1], entries) + Shown(s[|s| - 1], entries)
  }

  /** Text with the seven control characters written as escapes. */
  method EscapeSpecialChars(text: string) returns (result: string)
    ensures result == EscapeWith(text, ESCAPE_MAP)
  {
    EscapeMapShape();
    EscapeWithNone(text);
    result := text;
    for i := 0 to |ESCAPE_MAP|
      invariant result == EscapeWith(text, ESCAPE_MAP[..i])
    {
      var (c, escaped) := ESCAPE_MAP[i];
      EscapeStep(text, ESCAPE_MAP[..i], c, escaped);
      assert ESCAPE_MAP[..i] + [(c, escaped)] == ESCAPE_MAP[..i + 1];
      result := Replace(result, [c], escaped);
    }
    assert ESCAPE_MAP[..|ESCAPE_MAP|] == ESCAPE_MAP;
  }

  /** No control character has two escapes. */
  lemma EscapeMapDistinct()
    ensures DistinctKeys(ESCAPE_MAP)
  {
  }

  /** No escape contains a character that is itself escaped. */
  lemma EscapeMapShape()
    ensures forall i, j :: 0 <= i < |ESCAPE_MAP| && 0 <= j < |ESCAPE_MAP| ==>
      ESCAPE_MAP[i].0 !in ESCAPE_MAP[j].1
  {
  }

  lemma {:induction false} EscapeWithNone(s: string)
    ensures EscapeWith(s, []) == s
    decreases |s|
  {
    if s != [] {
      EscapeWithNone(s[..|s| - 1]);
    }
  }

  /** One `replace` pass over text escaped by the earlier entries escapes it
      by one more entry, provided the earlier escapes do not contain the
      character being replaced. */
  lemma {:induction false} EscapeStep(s: string, entries: Table<string>, c: char, escaped: string)
    requires forall j :: 0 <= j < |entries| ==> c !in entries[j].1
    ensures Replace(EscapeWith(s, entries), [c], escaped) == EscapeWith(s, entries + [(c, escaped)])
    decreases |s|
  {
    var more := entries + [(c, escaped)];
    if s == [] {
    } else {
      var p, x := s[..|s| - 1], s[|s| - 1];
      ReplaceCharAppend(EscapeWith(p, entries), Shown(x, entries), c, escaped);
      EscapeStep(p, entries, c, escaped);
      GetAppend(entries, [(c, escaped)], x);
      if HasKey(entries, x) {
        var j := GetIndex(entries, x);
        ReplaceAbsent(entries[j].1, [c], escaped);
      } else if x == c {
        assert [x][..1] == [c] && [x][1..] == [];
      } else {
        assert [x][..1] != [c] && [x][1..] == [];
      }
    }
  }

  /** The characters `EscapeSpecialChars` rewrites are exactly the seven
      control characters. */
  lemma EscapeMapKeys(c: char)
    ensures HasKey(ESCAPE_MAP, c) <==>
      c == '\n' || c == '\r' || c == '\t' || c == '\U{8}' || c == '\U{C}' || c == '\U{B}' || c == '\0'
  {
    if HasKey(ESCAPE_MAP, c) {
      var i := GetIndex(ESCAPE_MAP, c);
    }
    if exists i :: 0 <= i < |ESCAPE_MAP| && ESCAPE_MAP[i].0 == c {
      var i :| 0 <= i < |ESCAPE_MAP| && ESCAPE_MAP[i].0 == c;
      GetHasKey(ESCAPE_MAP, i);
    }
  }

  /** Escaping leaves none of the escaped characters in the output. */
  lemma {:induction false} EscapeRemovesControls(s: string, c: char)
    requires HasKey(ESCAPE_MAP, c)
    ensures c !in EscapeWith(s, ESCAPE_MAP)
    decreases |s|
  {
    if s != [] {
      var x := s[|s| - 1];
      EscapeRemovesControls(s[..|s| - 1], c);
      EscapeMapShape();
      var i := GetIndex(ESCAPE_MAP, c);
      if HasKey(ESCAPE_MAP, x) {
        var j := GetIndex(ESCAPE_MAP, x);
      }
    }
  }

  /** Escaping changes no other character: a text without escaped
      characters is shown as it is. */
  lemma {:induction false} EscapeKeepsOthers(s: string)
    requires forall i :: 0 <= i < |s| ==> !HasKey(ESCAPE_MAP, s[i])
    ensures EscapeWith(s, ESCAPE_MAP) == s
    decreases |s|
  {
    if s != [] {
      EscapeKeepsOthers(s[..|s| - 1]);
    }
  }

  /** Escaping works character by character. */
  lemma {:induction false} EscapeAppend(a: string, b: string)
    ensures EscapeWith(a + b, ESCAPE_MAP) == EscapeWith(a, ESCAPE_MAP) + EscapeWith(b, ESCAPE_MAP)
    decreases |b|
  {
    if b == [] {
      assert a + b == a;
    } else {
      assert (a + b)[..|a + b| - 1] == a + b[..|b| - 1];
      EscapeAppend(a, b[..|b| - 1]);
    }
  }

  /** The escaping cannot be undone: a line feed and the two characters
      backslash and `n` are shown alike. */
  lemma EscapeNotInjective()
    ensures "\n" != "\\n"
    ensures EscapeWith("\n", ESCAPE_MAP) == EscapeWith("\\n", ESCAPE_MAP)
  {
    EscapeMapKeys('\\');
    EscapeMapKeys('n');
    EscapeKeepsOthers("\\n");
    assert "\n"[..0] == [];
  }

  // ---------------------------------------------------------------------
  // create_typing_profile

  /** The parameters of a typist, as the dictionary the source returns. */
  datatype Profile = Profile(
    wpm: int,
    baseDelay: real,
    variance: real,
    pauseChance: real,
    pauseDuration: real)

  /** Share of the base delay by which keystrokes vary: faster typists are
      steadier. */
  function VarianceRatio(wpm: int): (ratio: real)
    ensures 0.2 <= ratio <= 0.4
  {
    if wpm >= 80 then 0.2 else if wpm >= 40 then 0.3 else 0.4
  }

  /** The profile of a typist writing `wpm` words of five characters per
      minute. */
  function CreateTypingProfile(wpm: int): (r: Result<Profile>)
    ensures r.Err? <==> wpm <= 0
    ensures r.Err? ==> r.error == NonPositiveWpm
    ensures r.Ok? ==> r.value.wpm == wpm && r.value.baseDelay * (wpm as real) == 12.0
    ensures r.Ok? ==> r.value.variance == r.value.baseDelay * VarianceRatio(wpm)
    ensures r.Ok? ==> 0.0 < r.value.variance < r.value.baseDelay
    ensures r.Ok? ==> r.value.pauseChance == 0.05 && r.value.pauseDuration == 3.0 * r.value.baseDelay
  {
    if wpm <= 0 then Err(NonPositiveWpm)
    else
      var charsPerMinute := wpm * 5;
      var charsPerSecond := (charsPerMinute as real) / 60.0;
      var baseDelay := 1.0 / charsPerSecond;
      var variance := baseDelay * VarianceRatio(wpm);
      ProfileArithmetic(wpm, baseDelay, variance);
      Ok(Profile(wpm, baseDelay, variance, 0.05, baseDelay * 3.0))
  }

  lemma ProfileArithmetic(wpm: int, baseDelay: real, variance: real)
    requires wpm > 0
    requires baseDelay == 1.0 / ((wpm * 5) as real / 60.0)
    requires variance == baseDelay * VarianceRatio(wpm)
    ensures baseDelay * (wpm as real) == 12.0
    ensures 0.0 < variance < baseDelay
  {
    var w := wpm as real;
    assert (wpm * 5) as real / 60.0 == w / 12.0;
    assert baseDelay == 12.0 / w;
  }

  /** A faster typist waits no longer between keystrokes, and varies no
      more. */
  lemma ProfileFasterIsQuicker(slow: int, fast: int)
    requires 0 < slow <= fast
    ensures CreateTypingProfile(fast).value.baseDelay <= CreateTypingProfile(slow).value.baseDelay
    ensures CreateTypingProfile(fast).value.variance <= CreateTypingProfile(slow).value.variance
  {
    var p, q := CreateTypingProfile(slow).value, CreateTypingProfile(fast).value;
    InverseAntitone(slow as real, fast as real, p.baseDelay, q.baseDelay);
    ScaleMonotone(VarianceRatio(fast), VarianceRatio(slow), q.baseDelay);
    ScaleMonotone(q.baseDelay, p.baseDelay, VarianceRatio(slow));
  }

  lemma InverseAntitone(x: real, y: real, a: real, b: real)
    requires 0.0 < x <= y && a * x == 12.0 && b * y == 12.0
    ensures 0.0 < b <= a
  {
    assert a == 12.0 / x && b == 12.0 / y;
  }

  /** Sixty words per minute give 0.2 s between keystrokes varying by
      0.06 s; eighty give 0.15 s varying by 0.03 s; twenty, in the slow
      band, give 0.6 s varying by 0.24 s. */
  lemma ProfileExamples()
    ensures CreateTypingProfile(20).Ok?
    ensures CreateTypingProfile(20).value.baseDelay == 0.6
    ensures CreateTypingProfile(20).value.variance == 0.24
    ensures CreateTypingProfile(20).value.pauseDuration == 1.8
    ensures CreateTypingProfile(60).Ok?
    ensures CreateTypingProfile(60).value.baseDelay == 0.2
    ensures CreateTypingProfile(60).value.variance == 0.06
    ensures CreateTypingProfile(80).value.baseDelay == 0.15
    ensures CreateTypingProfile(80).value.variance == 0.03
    ensures CreateTypingProfile(80).value.pauseDuration == 0.45
  {
  }

  // ---------------------------------------------------------------------
  // apply_typing_profile

  /** The entries of a profile's dictionary that delays are drawn from, in
      the order the source checks for them. */
  const REQUIRED_KEYS: seq<string> := ["base_delay", "variance", "pause_chance", "pause_duration"]

  /** A profile as the dictionary the source builds, keyed by name. */
  function ProfileDict(p: Profile): (d: map<string, real>)
    ensures forall k :: k in REQUIRED_KEYS ==> k in d
  {
    map["wpm" := p.wpm as real, "base_delay" := p.baseDelay, "variance" := p.variance,
        "pause_chance" := p.pauseChance, "pause_duration" := p.pauseDuration]
  }

  /** The first of `keys` that `profile` lacks. */
  function MissingKey(profile: map<string, real>, keys: seq<string>): (r: Option<string>)
    ensures r.None? <==> forall k :: k in keys ==> k in profile
    ensures r.Some? ==> r.value in keys && r.value !in profile
    ensures r.Some? ==>
      exists j :: 0 <= j < |keys| && keys[j] == r.value && forall i :: 0 <= i < j ==> keys[i] in profile
  {
    if keys == [] then None
    else if keys[0] !in profile then Some(keys[0])
    else MissingKey(profile, keys[1..])
  }

  /** The two draws of `random.random()` behind one keystroke: one decides
      whether to pause, the other jitters the delay. */
  datatype Draw = Draw(pause: real, jitter: real)

  predicate ValidDraws(draws: seq<Draw>) {
    forall i :: 0 <= i < |draws| ==> 0.0 <= draws[i].jitter <= 1.0
  }

  /** The delay after one typed character. */
  function KeyDelay(baseDelay: real, variance: real, pauseChance: real, pauseDuration: real, d: Draw): (r: Result<real>)
    requires 0.0 <= d.jitter <= 1.0
    ensures d.pause < pauseChance ==> r == Ok(pauseDuration)
    ensures r.Err? <==> !(d.pause < pauseChance) && (baseDelay < 0.0 || variance < 0.0)
    ensures r.Ok? ==> Plausible(r.value, baseDelay, variance, pauseDuration)
  {
    if d.pause < pauseChance then Ok(pauseDuration) else HumanizeDelay(baseDelay, variance, d.jitter)
  }

  /** Reference reading of the delays for `text`: one per typed character,
      `draws[i]` serving the character at position `i`; the first failing
      draw ends the sequence with its error. */
  function Delays(text: string, baseDelay: real, variance: real, pauseChance: real,
                  pauseDuration: real, draws: seq<Draw>): (r: Result<seq<real>>)
    requires |draws| == |text| && ValidDraws(draws)
    ensures r.Ok? ==> |r.value| == CountSupported(text)
    decreases |text|
  {
    if text == [] then Ok([])
    else
      var n := |text| - 1;
      var prefix := Delays(text[..n], baseDelay, variance, pauseChance, pauseDuration, draws[..n]);
      if prefix.Err? || !Supported(text[n]) then prefix
      else
        var d := KeyDelay(baseDelay, variance, pauseChance, pauseDuration, draws[n]);
        if d.Err? then Err(d.error) else Ok(prefix.value + [d.value])
  }

  /** The delays to wait after each typed character of `text`, following
      `profile`. */
  method ApplyTypingProfile(text: string, profile: map<string, real>, draws: seq<Draw>)
    returns (r: Result<seq<real>>)
    requires |draws| == |text| && ValidDraws(draws)
    ensures MissingKey(profile, REQUIRED_KEYS).Some? ==>
      r == Err(MissingProfileKey(MissingKey(profile, REQUIRED_KEYS).value))
    ensures MissingKey(profile, REQUIRED_KEYS).None? ==>
      r == Delays(text, profile["base_delay"], profile["variance"], profile["pause_chance"],
                  profile["pause_duration"], draws)
  {
    for k := 0 to |REQUIRED_KEYS|
      invariant MissingKey(profile, REQUIRED_KEYS) == MissingKey(profile, REQUIRED_KEYS[k..])
    {
      if REQUIRED_KEYS[k] !in profile {
        return Err(MissingProfileKey(REQUIRED_KEYS[k]));
      }
      assert REQUIRED_KEYS[k..][1..] == REQUIRED_KEYS[k + 1..];
    }
    var baseDelay, variance := profile["base_delay"], profile["variance"];
    var pauseChance, pauseDuration := profile["pause_chance"], profile["pause_duration"];
    var delays := [];
    for i := 0 to |text|
      invariant Delays(text[..i], baseDelay, variance, pauseChance, pauseDuration, draws[..i]) == Ok(delays)
    {
      assert text[..i + 1][..i] == text[..i] && draws[..i + 1][..i] == draws[..i];
      if !Supported(text[i]) {
        continue;
      }
      var delay: real;
      if draws[i].pause < pauseChance {
        delay := pauseDuration;
      } else {
        var h := HumanizeDelay(baseDelay, variance, draws[i].jitter);
        if h.Err? {
          DelaysErrPersists(text, i + 1, baseDelay, variance, pauseChance, pauseDuration, draws);
          return Err(h.error);
        }
        delay := h.value;
      }
      delays := delays + [delay];
    }
    assert text[..|text|] == text && draws[..|draws|] == draws;
    return Ok(delays);
  }

  /** Once a prefix of the text fails, the whole text fails the same way. */
  lemma {:induction false} DelaysErrPersists(text: string, i: nat, baseDelay: real, variance: real,
                                             pauseChance: real, pauseDuration: real, draws: seq<Draw>)
    requires |draws| == |text| && ValidDraws(draws) && i <= |text|
    requires Delays(text[..i], baseDelay, variance, pauseChance, pauseDuration, draws[..i]).Err?
    ensures Delays(text, baseDelay, variance, pauseChance, pauseDuration, draws)
      == Delays(text[..i], baseDelay, variance, pauseChance, pauseDuration, draws[..i])
    decreases |text| - i
  {
    if i == |text| {
      assert text[..i] == text && draws[..i] == draws;
    } else {
      assert text[..i + 1][..i] == text[..i] && draws[..i + 1][..i] == draws[..i];
      DelaysErrPersists(text, i + 1, baseDelay, variance, pauseChance, pauseDuration, draws);
    }
  }

  /** A delay the profile can produce: the pause, or the base delay jittered
      within the variance and never negative. */
  predicate Plausible(x: real, baseDelay: real, variance: real, pauseDuration: real) {
    x == pauseDuration || (0.0 <= x && baseDelay - variance <= x <= baseDelay + variance)
  }

  /** One delay per typed character, each of them the pause or a jittered
      base delay. */
  lemma {:induction false} DelaysShape(text: string, baseDelay: real, variance: real,
                                       pauseChance: real, pauseDuration: real, draws: seq<Draw>)
    requires |draws| == |text| && ValidDraws(draws)
    ensures var r := Delays(text, baseDelay, variance, pauseChance, pauseDuration, draws);
      r.Ok? ==> (|r.value| == CountSupported(text) &&
        forall k :: 0 <= k < |r.value| ==> Plausible(r.value[k], baseDelay, variance, pauseDuration))
    decreases |text|
  {
    if text != [] {
      var n := |text| - 1;
      DelaysShape(text[..n], baseDelay, variance, pauseChance, pauseDuration, draws[..n]);
    }
  }

  /** The delays fail exactly when the base delay or the variance is
      negative and some typed character does not pause (only those draw a
      jittered delay); the base delay is checked first. */
  lemma {:induction false} DelaysFail(text: string, baseDelay: real, variance: real,
                                      pauseChance: real, pauseDuration: real, draws: seq<Draw>)
    requires |draws| == |text| && ValidDraws(draws)
    ensures var r := Delays(text, baseDelay, variance, pauseChance, pauseDuration, draws);
      r.Err? <==> ((baseDelay < 0.0 || variance < 0.0) &&
        exists i :: 0 <= i < |text| && Supported(text[i]) && !(draws[i].pause < pauseChance))
    ensures var r := Delays(text, baseDelay, variance, pauseChance, pauseDuration, draws);
      r.Err? ==> r.error == (if baseDelay < 0.0 then NegativeBaseDelay else NegativeVariance)
    decreases |text|
  {
    if text != [] {
      var n := |text| - 1;
      DelaysFail(text[..n], baseDelay, variance, pauseChance, pauseDuration, draws[..n]);
      if exists i :: 0 <= i < n && Supported(text[..n][i]) && !(draws[..n][i].pause < pauseChance) {
        var i :| 0 <= i < n && Supported(text[..n][i]) && !(draws[..n][i].pause < pauseChance);
        assert text[i] == text[..n][i] && draws[i] == draws[..n][i];
      }
      if exists i :: 0 <= i < |text| && Supported(text[i]) && !(draws[i].pause < pauseChance) {
        var i :| 0 <= i < |text| && Supported(text[i]) && !(draws[i].pause < pauseChance);
        if i < n {
          assert text[..n][i] == text[i] && draws[..n][i] == draws[i];
        }
      }
    }
  }

  /** With a positive base delay above the variance and a positive pause,
      every draw gives a delay, and every delay is positive. */
  lemma DelaysPositive(text: string, baseDelay: real, variance: real,
                       pauseChance: real, pauseDuration: real, draws: seq<Draw>)
    requires |draws| == |text| && ValidDraws(draws)
    requires 0.0 <= variance < baseDelay && 0.0 < pauseDuration
    ensures var r := Delays(text, baseDelay, variance, pauseChance, pauseDuration, draws);
      r.Ok? && forall k :: 0 <= k < |r.value| ==> r.value[k] > 0.0
  {
    DelaysFail(text, baseDelay, variance, pauseChance, pauseDuration, draws);
    DelaysShape(text, baseDelay, variance, pauseChance, pauseDuration, draws);
  }

  /** A profile made by `CreateTypingProfile` has every required entry, and
      applying it never fails and never waits zero or less. */
  lemma CreatedProfileApplies(wpm: int, text: string, draws: seq<Draw>)
    requires wpm > 0 && |draws| == |text| && ValidDraws(draws)
    ensures var p := CreateTypingProfile(wpm).value;
      var d := ProfileDict(p);
      MissingKey(d, REQUIRED_KEYS).None? &&
      d["base_delay"] == p.baseDelay && d["variance"] == p.variance &&
      d["pause_chance"] == p.pauseChance && d["pause_duration"] == p.pauseDuration
    ensures var p := CreateTypingProfile(wpm).value;
      var r := Delays(text, p.baseDelay, p.variance, p.pauseChance, p.pauseDuration, draws);
      r.Ok? && |r.value| == CountSupported(text) && forall k :: 0 <= k < |r.value| ==> r.value[k] > 0.0
  {
    var p := CreateTypingProfile(wpm).value;
    DelaysPositive(text, p.baseDelay, p.variance, p.pauseChance, p.pauseDuration, draws);
    DelaysShape(text, p.baseDelay, p.variance, p.pauseChance, p.pauseDuration, draws);
  }
}
