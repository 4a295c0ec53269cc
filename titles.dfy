/**
 * `clean_title` (defcon.py:50-52): the matching key of a talk title.
 * The title is lower-cased (`str.lower`) and then every character the
 * pattern `[^a-z^0-9]` (compiled with IGNORECASE) matches is deleted.
 */
module Titles {

  /** Characters matched by the class `[a-z^0-9]` under IGNORECASE: the ASCII
      letters of either case, the ASCII digits, the caret (a literal inside the
      class), and the four non-ASCII letters that Python's `re` folds onto
      `i`, `s` and `k` (U+0130, U+0131, U+017F, U+212A). */
  predicate InClass(c: char) {
    || 'a' <= c <= 'z' || 'A' <= c <= 'Z' || '0' <= c <= '9' || c == '^'
    || c == '\U{0130}' || c == '\U{0131}' || c == '\U{017F}' || c == '\U{212A}'
  }

  /** The characters a matching key can contain. */
  predicate IsKeyChar(c: char) {
    || 'a' <= c <= 'z' || '0' <= c <= '9' || c == '^'
    || c == '\U{0131}' || c == '\U{017F}'
  }

  /** `str.lower` on one character, for the characters that decide the key:
      ASCII capitals, CAPITAL I WITH DOT ABOVE (which becomes `i` followed by a
      combining dot) and KELVIN SIGN (which becomes `k`). */
  function LowerChar(c: char): (r: string)
    ensures forall i | 0 <= i < |r| :: !('A' <= r[i] <= 'Z') && r[i] != '\U{0130}' && r[i] != '\U{212A}'
    ensures forall i | 0 <= i < |r| :: InClass(r[i]) ==> IsKeyChar(r[i])
  {
    if 'A' <= c <= 'Z' then [(c as int + 32) as char]
    else if c == '\U{0130}' then ['i', '\U{0307}']
    else if c == '\U{212A}' then ['k']
    else [c]
  }

  /** `title.lower()` */
  function Lower(s: string): string {
    if s == [] then [] else LowerChar(s[0]) + Lower(s[1..])
  }

  /** `chars.sub('', s)`: delete every character outside the class. */
  function Strip(s: string): string {
    if s == [] then [] else (if InClass(s[0]) then [s[0]] else []) + Strip(s[1..])
  }

  /** `clean_title(title)` */
  function CleanTitle(title: string): string {
    Strip(Lower(title))
  }

  lemma {:induction false} LowerConcat(a: string, b: string)
    ensures Lower(a + b) == Lower(a) + Lower(b)
  {
    if a == [] {
      assert a + b == b;
    } else {
      assert (a + b)[0] == a[0] && (a + b)[1..] == a[1..] + b;
      LowerConcat(a[1..], b);
      assert Lower(a + b) == LowerChar(a[0]) + (Lower(a[1..]) + Lower(b));
    }
  }

  lemma {:induction false} StripConcat(a: string, b: string)
    ensures Strip(a + b) == Strip(a) + Strip(b)
  {
    if a == [] {
      assert a + b == b;
    } else {
      assert (a + b)[0] == a[0] && (a + b)[1..] == a[1..] + b;
      StripConcat(a[1..], b);
    }
  }

  /** The key of a concatenation is the concatenation of the keys. */
  lemma CleanTitleConcat(a: string, b: string)
    ensures CleanTitle(a + b) == CleanTitle(a) + CleanTitle(b)
  {
    LowerConcat(a, b);
    StripConcat(Lower(a), Lower(b));
  }

  /** What `Strip` keeps of a lower-cased string are key characters. */
  lemma {:induction false} StripOfLowered(s: string)
    requires forall i | 0 <= i < |s| :: InClass(s[i]) ==> IsKeyChar(s[i])
    ensures forall i | 0 <= i < |Strip(s)| :: IsKeyChar(Strip(s)[i])
  {
    if s != [] {
      StripOfLowered(s[1..]);
    }
  }

  lemma {:induction false} LoweredInClassIsKey(s: string)
    ensures forall i | 0 <= i < |Lower(s)| :: InClass(Lower(s)[i]) ==> IsKeyChar(Lower(s)[i])
  {
    if s != [] {
      LoweredInClassIsKey(s[1..]);
      var h, t := LowerChar(s[0]), Lower(s[1..]);
      assert Lower(s) == h + t;
      forall i | 0 <= i < |h + t| && InClass((h + t)[i]) ensures IsKeyChar((h + t)[i]) {
        if i >= |h| { assert (h + t)[i] == t[i - |h|]; }
      }
    }
  }

  /** A key contains only lower-case ASCII letters, ASCII digits, the caret,
      and the two non-ASCII letters U+0131 and U+017F. */
  lemma KeyAlphabet(title: string)
    ensures forall i | 0 <= i < |CleanTitle(title)| :: IsKeyChar(CleanTitle(title)[i])
  {
    LoweredInClassIsKey(title);
    StripOfLowered(Lower(title));
  }

  /** For an ASCII title, the key contains only `a-z`, `0-9` and `^`. */
  lemma AsciiKeyAlphabet(title: string)
    requires forall i | 0 <= i < |title| :: title[i] < '\U{80}'
    ensures forall i | 0 <= i < |CleanTitle(title)| ::
      var c := CleanTitle(title)[i]; 'a' <= c <= 'z' || '0' <= c <= '9' || c == '^'
  {
    AsciiStaysAscii(title);
    KeyAlphabet(title);
  }

  lemma {:induction false} AsciiStaysAscii(s: string)
    requires forall i | 0 <= i < |s| :: s[i] < '\U{80}'
    ensures forall i | 0 <= i < |CleanTitle(s)| :: CleanTitle(s)[i] < '\U{80}'
  {
    if s != [] {
      AsciiStaysAscii(s[1..]);
      assert s == [s[0]] + s[1..];
      CleanTitleConcat([s[0]], s[1..]);
      assert CleanTitle([s[0]]) == Strip(LowerChar(s[0]));
      var h, t := CleanTitle([s[0]]), CleanTitle(s[1..]);
      forall i | 0 <= i < |h + t| ensures (h + t)[i] < '\U{80}' {
        if i >= |h| { assert (h + t)[i] == t[i - |h|]; }
      }
    }
  }

  /** A string of key characters is its own key. */
  lemma {:induction false} KeyIsFixedPoint(key: string)
    requires forall i | 0 <= i < |key| :: IsKeyChar(key[i])
    ensures CleanTitle(key) == key
  {
    if key != [] {
      KeyIsFixedPoint(key[1..]);
      assert key == [key[0]] + key[1..];
      CleanTitleConcat([key[0]], key[1..]);
    }
  }

  /** `clean_title` is idempotent. */
  lemma CleanTitleIdempotent(title: string)
    ensures CleanTitle(CleanTitle(title)) == CleanTitle(title)
  {
    KeyAlphabet(title);
    KeyIsFixedPoint(CleanTitle(title));
  }

  lemma CleanTitleOfChar(c: char)
    ensures CleanTitle([c]) == Strip(LowerChar(c))
  {
    assert [c][1..] == [];
    assert Lower([c]) == LowerChar(c) + [];
    assert LowerChar(c) + [] == LowerChar(c);
  }

  /** Case does not matter: an ASCII capital and its lower-case letter give the same key. */
  lemma CaseIgnored(a: string, c: char, b: string)
    requires 'A' <= c <= 'Z'
    ensures CleanTitle(a + [c] + b) == CleanTitle(a + [(c as int + 32) as char] + b)
  {
    var l := (c as int + 32) as char;
    CleanTitleConcat(a + [c], b);
    CleanTitleConcat(a, [c]);
    CleanTitleConcat(a + [l], b);
    CleanTitleConcat(a, [l]);
    CleanTitleOfChar(c);
    CleanTitleOfChar(l);
    assert Strip([l]) == [l] + Strip([l][1..]);
  }

  /** Punctuation does not matter: a character outside the class is dropped. */
  lemma PunctuationIgnored(a: string, c: char, b: string)
    requires !InClass(c)
    ensures CleanTitle(a + [c] + b) == CleanTitle(a + b)
  {
    CleanTitleOfChar(c);
    assert LowerChar(c) == [c];
    assert Strip([c]) == [] + Strip([c][1..]);
    assert CleanTitle([c]) == [];
    CleanTitleConcat(a, [c]);
    assert CleanTitle(a + [c]) == CleanTitle(a);
    CleanTitleConcat(a + [c], b);
    CleanTitleConcat(a, b);
  }

  /** The caret is a literal inside the class, so it survives into the key. */
  lemma CaretKept(a: string, b: string)
    ensures CleanTitle(a + "^" + b) == CleanTitle(a) + "^" + CleanTitle(b)
  {
    CleanTitleConcat(a + "^", b);
    CleanTitleConcat(a, "^");
  }
}
