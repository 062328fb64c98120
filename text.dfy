/** The string handling `shop` relies on: `str.lower`, `str.strip`, the substring
    test `needle in hay` and `normalize_text` (app.py:69-74). */
module Text {
  import opened Wrappers

  /** Python's `str.isspace`: the characters `str.strip()` removes (tab to
      carriage return, the four information separators, space, next line,
      no-break space, ogham space mark, the spaces U+2000 to U+200A, line and
      paragraph separators, narrow no-break space, medium mathematical space
      and ideographic space). */
  predicate IsSpace(c: char)
  {
    || '\U{0009}' <= c <= '\U{000D}'
    || '\U{001C}' <= c <= '\U{0020}'
    || c == '\U{0085}' || c == '\U{00A0}' || c == '\U{1680}'
    || '\U{2000}' <= c <= '\U{200A}'
    || c == '\U{2028}' || c == '\U{2029}' || c == '\U{202F}' || c == '\U{205F}' || c == '\U{3000}'
  }

  /** `str.lower` on the ASCII letters; every other character is kept. */
  function LowerChar(c: char): char
  {
    if 'A' <= c <= 'Z' then (c as int + 32) as char else c
  }

  function Lower(s: string): (r: string)
    ensures |r| == |s|
    ensures forall i :: 0 <= i < |s| ==> r[i] == LowerChar(s[i])
    ensures forall i :: 0 <= i < |r| ==> !('A' <= r[i] <= 'Z')
  {
    seq(|s|, i requires 0 <= i < |s| => LowerChar(s[i]))
  }

  /** How many whitespace characters `s` starts with. */
  function LeadingSpaces(s: string): (n: nat)
    ensures n <= |s|
    ensures forall k :: 0 <= k < n ==> IsSpace(s[k])
    ensures n < |s| ==> !IsSpace(s[n])
  {
    if s == [] || !IsSpace(s[0]) then 0 else 1 + LeadingSpaces(s[1..])
  }

  /** How many whitespace characters `s` ends with. */
  function TrailingSpaces(s: string): (n: nat)
    ensures n <= |s|
    ensures forall k :: |s| - n <= k < |s| ==> IsSpace(s[k])
    ensures n < |s| ==> !IsSpace(s[|s| - n - 1])
  {
    if s == [] || !IsSpace(s[|s| - 1]) then 0 else 1 + TrailingSpaces(s[..|s| - 1])
  }

  /** `str.strip()`: "" when `s` is all whitespace, otherwise the slice between
      the leading and the trailing whitespace. The result then neither starts
      nor ends with whitespace. */
  function Strip(s: string): (r: string)
    ensures r == [] <==> forall k :: 0 <= k < |s| ==> IsSpace(s[k])
    ensures r != [] ==>
              && LeadingSpaces(s) + TrailingSpaces(s) < |s|
              && r == s[LeadingSpaces(s)..|s| - TrailingSpaces(s)]
              && !IsSpace(r[0]) && !IsSpace(r[|r| - 1])
  {
    var a, t := LeadingSpaces(s), TrailingSpaces(s);
    if a == |s| then ""
    else
      assert !IsSpace(s[a]);
      assert a < |s| - t;
      s[a..|s| - t]
  }

  /** `needle` occurs in `hay` starting at position `i`. */
  predicate OccursAt(needle: string, hay: string, i: nat)
  {
    i + |needle| <= |hay| && hay[i..i + |needle|] == needle
  }

  /** Python's `needle in hay` for strings. */
  predicate Contains(needle: string, hay: string)
  {
    exists i | 0 <= i <= |hay| :: OccursAt(needle, hay, i)
  }

  /** The empty query occurs in every text, so a query that normalises to ""
      keeps every product in the substring search. */
  lemma EmptyContained(hay: string)
    ensures Contains("", hay)
  {
    assert OccursAt("", hay, 0);
  }

  /** `normalize_text`: a missing or empty text gives ""; otherwise the text is
      passed through `fold` (Unicode NFKD decomposition with combining marks
      dropped, left abstract), lower-cased and stripped. */
  function Normalize(fold: string -> string, text: Option<string>): (r: string)
    ensures text.None? || text.value == "" ==> r == ""
    ensures text.Some? && text.value != "" ==> r == Strip(Lower(fold(text.value)))
    ensures forall i :: 0 <= i < |r| ==> !('A' <= r[i] <= 'Z')
    ensures r != [] ==> !IsSpace(r[0]) && !IsSpace(r[|r| - 1])
  {
    if text.None? || text.value == "" then "" else Strip(Lower(fold(text.value)))
  }
}
