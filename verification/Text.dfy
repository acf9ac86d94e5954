/** White space, letter case and substring search; letter case on the ASCII letters only. */
module Text {
  function LowerChar(c: char): char {
    if 'A' <= c <= 'Z' then (c as int + 32) as char else c
  }

  function Lower(s: string): (r: string)
    ensures |r| == |s|
    ensures forall i | 0 <= i < |s| :: r[i] == LowerChar(s[i])
  {
    seq(|s|, i requires 0 <= i < |s| => LowerChar(s[i]))
  }

  const UPPER := "ABCDEFGHIJKLMNOPQRSTUVWXYZ"
  const LOWER := "abcdefghijklmnopqrstuvwxyz"

  /** Each capital letter becomes the small letter at its place in the alphabet; anything else is kept. */
  lemma LowerCharIs(c: char)
    ensures forall k | 0 <= k < 26 && c == UPPER[k] :: LowerChar(c) == LOWER[k]
    ensures c !in UPPER ==> LowerChar(c) == c
  {
    if 'A' <= c <= 'Z' {
      var k := c as int - 'A' as int;
      assert UPPER[k] == c;
    }
  }

  predicate IsLower(s: string) {
    Lower(s) == s
  }

  lemma LowerIsLower(s: string)
    ensures IsLower(Lower(s))
  {
  }

  predicate Contains(s: string, needle: string) {
    needle <= s || (s != "" && Contains(s[1..], needle))
  }

  /** The needle stands in the text from place i on. */
  predicate StandsAt(s: string, needle: string, i: nat) {
    i + |needle| <= |s| && s[i..i + |needle|] == needle
  }

  ghost predicate Mentions(s: string, needle: string) {
    exists i: nat :: StandsAt(s, needle, i)
  }

  lemma {:induction false} ContainsIffMentions(s: string, needle: string)
    ensures Contains(s, needle) <==> Mentions(s, needle)
    decreases |s|
  {
    if needle <= s { assert StandsAt(s, needle, 0); }
    if s != "" {
      ContainsIffMentions(s[1..], needle);
      forall i: nat ensures StandsAt(s[1..], needle, i) <==> StandsAt(s, needle, i + 1) {
        if i + 1 + |needle| <= |s| { assert s[1..][i..i + |needle|] == s[i + 1..i + 1 + |needle|]; }
      }
      if i: nat :| StandsAt(s, needle, i) {
        if i > 0 { assert StandsAt(s[1..], needle, i - 1); }
      }
      if i: nat :| StandsAt(s[1..], needle, i) { assert StandsAt(s, needle, i + 1); }
    }
  }

  /** The white space class of ECMAScript regular expressions. */
  predicate IsSpace(c: char) {
    || '\t' <= c <= '\r' || c == ' ' || c == '\U{00A0}' || c == '\U{1680}'
    || '\U{2000}' <= c <= '\U{200A}' || c == '\U{2028}' || c == '\U{2029}'
    || c == '\U{202F}' || c == '\U{205F}' || c == '\U{3000}' || c == '\U{FEFF}'
  }

  predicate IsBlank(s: string) {
    forall c | c in s :: IsSpace(c)
  }
}
