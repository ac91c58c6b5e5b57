/**
 * The text operations the crawlers apply to scraped markup: Python's `str.strip()`,
 * BeautifulSoup's `get_text(strip=True)` over the strings of a tag, and counting the
 * descendants of a tag that have a given name.
 */
module Text {

  /** The characters `str.isspace()` accepts, which are the ones `str.strip()` removes. */
  predicate IsSpace(c: char) {
    || c == ' '
    || ('\t' <= c <= '\r')
    || ('\U{1C}' <= c <= '\U{1F}')
    || c == '\U{85}' || c == '\U{A0}' || c == '\U{1680}'
    || ('\U{2000}' <= c <= '\U{200A}')
    || c == '\U{2028}' || c == '\U{2029}' || c == '\U{202F}' || c == '\U{205F}' || c == '\U{3000}'
  }

  /** The first position at or after `i` that does not hold whitespace (or `|s|`). */
  function SkipSpaces(s: string, i: nat): (j: nat)
    requires i <= |s|
    ensures i <= j <= |s|
    ensures forall k :: i <= k < j ==> IsSpace(s[k])
    ensures j < |s| ==> !IsSpace(s[j])
    decreases |s| - i
  {
    if i < |s| && IsSpace(s[i]) then SkipSpaces(s, i + 1) else i
  }

  /** The end of `s[lo..hi]` once its trailing whitespace is dropped. */
  function DropSpaces(s: string, lo: nat, hi: nat): (e: nat)
    requires lo <= hi <= |s|
    ensures lo <= e <= hi
    ensures forall k :: e <= k < hi ==> IsSpace(s[k])
    ensures lo < e ==> !IsSpace(s[e - 1])
    decreases hi
  {
    if lo < hi && IsSpace(s[hi - 1]) then DropSpaces(s, lo, hi - 1) else hi
  }

  /**
   * `r` is the slice of `s` that starts at `i`, and everything of `s` before and
   * after that slice is whitespace.
   */
  ghost predicate Framed(s: string, r: string, i: int) {
    && 0 <= i <= |s| - |r|
    && s[i..i + |r|] == r
    && (forall k :: 0 <= k < i ==> IsSpace(s[k]))
    && (forall k :: i + |r| <= k < |s| ==> IsSpace(s[k]))
  }

  /** Python's `s.strip()`: remove whitespace at both ends and nothing else. */
  function Strip(s: string): (r: string)
    ensures Framed(s, r, SkipSpaces(s, 0))
    ensures r != [] ==> !IsSpace(r[0]) && !IsSpace(r[|r| - 1])
  {
    var b := SkipSpaces(s, 0);
    s[b..DropSpaces(s, b, |s|)]
  }

  /** Stripping twice is stripping once. */
  lemma StripIdempotent(s: string)
    ensures Strip(Strip(s)) == Strip(s)
  {
    var r := Strip(s);
    assert SkipSpaces(r, 0) == 0;
    assert DropSpaces(r, 0, |r|) == |r|;
  }

  /**
   * BeautifulSoup's `tag.get_text(strip=True)`: every string inside the tag is
   * stripped and the results are joined with no separator.
   */
  function StrippedText(strings: seq<string>): (r: string)
    ensures |r| <= TotalLength(strings)
    ensures (forall k :: 0 <= k < |strings| ==> Strip(strings[k]) == []) ==> r == []
  {
    if strings == [] then []
    else StrippedText(strings[..|strings| - 1]) + Strip(strings[|strings| - 1])
  }

  /** Stripping a list of strings piecewise: the text of two runs of strings is the two texts joined. */
  lemma {:induction false} StrippedTextConcat(a: seq<string>, b: seq<string>)
    ensures StrippedText(a + b) == StrippedText(a) + StrippedText(b)
    decreases |b|
  {
    hide Strip, TotalLength;
    if b == [] {
      assert a + b == a;
    } else {
      var b' := b[..|b| - 1];
      assert (a + b)[..|a + b| - 1] == a + b';
      StrippedTextConcat(a, b');
    }
  }

  /** The text of a single string is that string stripped. */
  lemma StrippedTextSingle(s: string)
    ensures StrippedText([s]) == Strip(s)
  {
    assert [s][..0] == [];
  }

  /** The number of characters in all of `strings`. */
  function TotalLength(strings: seq<string>): nat {
    if strings == [] then 0 else TotalLength(strings[..|strings| - 1]) + |strings[|strings| - 1]|
  }

  /** How many entries of `names` equal `name` (BeautifulSoup's `len(tag.find_all(name))`). */
  function Count(names: seq<string>, name: string): (n: nat)
    ensures n == multiset(names)[name]
    ensures n <= |names|
    ensures n == 0 <==> name !in names
  {
    assert names != [] ==> names == names[..|names| - 1] + [names[|names| - 1]];
    if names == [] then 0
    else Count(names[..|names| - 1], name) + (if names[|names| - 1] == name then 1 else 0)
  }
}
