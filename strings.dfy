/** The Python string primitives the core relies on: `str.isupper`,
    `str.lower` and `str.replace`, restricted to what the model needs. */
module Strings {

  /** `c.isupper()`, over the ASCII letters only. */
  predicate IsUpper(c: char) {
    'A' <= c <= 'Z'
  }

  /** `c.lower()`: ASCII upper-case letters map to lower case, every other
      character to itself. */
  function Lower(c: char): char {
    if IsUpper(c) then (c as int + 32) as char else c
  }

  /** The upper-case characters are the 26 capitals of the English
      alphabet, and exactly the characters that lowering changes; lowering
      twice is lowering once. */
  lemma UpperIsAlphabet(c: char)
    ensures IsUpper(c) <==> c in "ABCDEFGHIJKLMNOPQRSTUVWXYZ"
    ensures IsUpper(c) <==> Lower(c) != c
    ensures Lower(Lower(c)) == Lower(c)
  {
  }

  /** Lowering maps the 26 capitals one-to-one onto the 26 small letters:
      every small letter is the lower case of exactly one capital. */
  lemma LowerLettersBijective(x: char, c: char)
    requires 'a' <= x <= 'z'
    ensures exists u :: IsUpper(u) && Lower(u) == x
    ensures IsUpper(c) && Lower(c) == x ==> c as int == x as int - 32
  {
    var u := (x as int - 32) as char;
    assert IsUpper(u) && Lower(u) == x;
  }

  /** `s.replace(pat, rep)`: scan left to right, replacing every
      non-overlapping occurrence of the non-empty pattern `pat`. */
  function Replace(s: string, pat: string, rep: string): (r: string)
    requires pat != []
    ensures pat == rep ==> r == s
    ensures |rep| == |pat| ==> |r| == |s|
    decreases |s|
  {
    if |s| < |pat| then s
    else if s[..|pat|] == pat then
      assert s == s[..|pat|] + s[|pat|..];
      rep + Replace(s[|pat|..], pat, rep)
    else [s[0]] + Replace(s[1..], pat, rep)
  }

  /** Replacing a single character by a text that does not contain it
      removes every occurrence of that character, and touches nothing else:
      any other character of the result is a character of `s` or of `rep`. */
  lemma {:induction false} ReplaceCharRemoves(s: string, c: char, rep: string)
    requires c !in rep
    ensures c !in Replace(s, [c], rep)
    ensures forall x :: x in Replace(s, [c], rep) ==> x in s || x in rep
  {
    if |s| >= 1 {
      ReplaceCharRemoves(s[1..], c, rep);
      assert forall x :: x in s[1..] ==> x in s;
    }
  }

  /** Replacing a character that does not occur changes nothing. */
  lemma {:induction false} ReplaceAbsent(s: string, pat: string, rep: string)
    requires |pat| == 1 && pat[0] !in s
    ensures Replace(s, pat, rep) == s
  {
    if |s| >= 1 {
      assert s[..1] == [s[0]];
      ReplaceAbsent(s[1..], pat, rep);
    }
  }

  /** Replacement distributes over a split of the subject at a character
      that is not part of the one-character pattern. */
  lemma {:induction false} ReplaceCharAppend(a: string, b: string, c: char, rep: string)
    ensures Replace(a + b, [c], rep) == Replace(a, [c], rep) + Replace(b, [c], rep)
  {
    if a == [] {
      assert a + b == b;
    } else {
      assert (a + b)[..1] == a[..1];
      assert (a + b)[1..] == a[1..] + b;
      ReplaceCharAppend(a[1..], b, c, rep);
    }
  }
}
