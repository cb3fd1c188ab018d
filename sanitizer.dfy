/**
 * The sanitiser `analyze_ingredients` applies before building its prompt:
 * `re.sub(r'[^a-zA-Z0-9, ]', '', text)`, which deletes every character outside
 * the ASCII letters, the ASCII digits, the comma and the space.
 */
module Sanitizer {

  /** The regular-expression class `[a-zA-Z0-9, ]`. */
  predicate IsAllowed(c: char)
  {
    ('a' <= c <= 'z') || ('A' <= c <= 'Z') || ('0' <= c <= '9') || c == ',' || c == ' '
  }

  /** Every character of `s` is in the kept class. */
  predicate AllAllowed(s: string)
  {
    forall k :: 0 <= k < |s| ==> IsAllowed(s[k])
  }

  /** The characters of `text` in the kept class, in their original order. */
  function Sanitize(text: string): (r: string)
    ensures AllAllowed(r)
    ensures |r| <= |text|
  {
    if text == [] then []
    else (if IsAllowed(text[0]) then [text[0]] else []) + Sanitize(text[1..])
  }

  /** `sub` is obtained from `s` by deleting characters (and keeping the rest in order). */
  predicate IsSubsequence(sub: string, s: string)
    decreases |s|
  {
    if sub == [] then true
    else if s == [] then false
    else if sub[0] == s[0] then IsSubsequence(sub[1..], s[1..])
    else IsSubsequence(sub, s[1..])
  }

  /** The output is an in-order subsequence of the input. */
  lemma {:induction false} SanitizeIsSubsequence(text: string)
    ensures IsSubsequence(Sanitize(text), text)
  {
    if text != [] {
      SanitizeIsSubsequence(text[1..]);
      if IsAllowed(text[0]) {
        assert Sanitize(text)[1..] == Sanitize(text[1..]);
      } else {
        assert Sanitize(text) == Sanitize(text[1..]);
        assert Sanitize(text) != [] ==> Sanitize(text)[0] != text[0];
      }
    }
  }

  /** Exactly the kept characters survive: every kept one with its full count, no other. */
  lemma {:induction false} SanitizeCounts(text: string, c: char)
    ensures multiset(Sanitize(text))[c] == if IsAllowed(c) then multiset(text)[c] else 0
  {
    if text != [] {
      SanitizeCounts(text[1..], c);
      assert text == [text[0]] + text[1..];
      assert multiset(text) == multiset([text[0]]) + multiset(text[1..]);
    }
  }

  /** Text made only of kept characters passes through unchanged. */
  lemma {:induction false} SanitizeKeepsClean(text: string)
    requires AllAllowed(text)
    ensures Sanitize(text) == text
  {
    if text != [] {
      SanitizeKeepsClean(text[1..]);
      assert text == [text[0]] + text[1..];
    }
  }

  /** Sanitising twice gives the same text as sanitising once. */
  lemma SanitizeIdempotent(text: string)
    ensures Sanitize(Sanitize(text)) == Sanitize(text)
  {
    SanitizeKeepsClean(Sanitize(text));
  }

  /** The filter works character by character, so it distributes over concatenation. */
  lemma {:induction false} SanitizeConcat(a: string, b: string)
    ensures Sanitize(a + b) == Sanitize(a) + Sanitize(b)
  {
    if a != [] {
      var head := if IsAllowed(a[0]) then [a[0]] else [];
      assert (a + b)[0] == a[0];
      assert (a + b)[1..] == a[1..] + b;
      assert Sanitize(a + b) == head + Sanitize(a[1..] + b);
      SanitizeConcat(a[1..], b);
      assert Sanitize(a) == head + Sanitize(a[1..]);
    } else {
      assert a + b == b;
    }
  }

  /** Input made of letters, digits, commas and spaces reaches the prompt as it was typed. */
  lemma CleanExample()
    ensures Sanitize("sugar, red dye 40") == "sugar, red dye 40"
  {
    var t := "sugar, red dye 40";
    assert forall k :: 0 <= k < |t| ==> IsAllowed(t[k]);
    SanitizeKeepsClean(t);
  }

  /** A hyphen is deleted even inside a name: "Red-40" reaches the prompt as "Red40". */
  lemma PunctuationExample()
    ensures Sanitize("Red-40") == "Red40"
  {
  }

}
