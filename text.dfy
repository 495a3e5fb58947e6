/** Character classes and string helpers with the meaning Python 2's `re`
    (without `re.UNICODE`) and `str.strip()` give them on ASCII text. */
module Text {

  /** `\d`: an ASCII decimal digit. */
  predicate IsDigit(c: char) {
    '0' <= c <= '9'
  }

  /** `\s` and the characters `strip()` removes: space, tab, newline,
      vertical tab, form feed, carriage return. */
  predicate IsSpace(c: char) {
    c == ' ' || '\t' <= c <= '\r'
  }

  datatype CharClass = Digits | Spaces

  predicate InClass(c: char, cls: CharClass) {
    match cls
    case Digits => IsDigit(c)
    case Spaces => IsSpace(c)
  }

  /** Every character of `s[lo..hi]` belongs to `cls`. */
  predicate AllIn(s: string, lo: nat, hi: nat, cls: CharClass) {
    lo <= hi <= |s| && forall k :: lo <= k < hi ==> InClass(s[k], cls)
  }

  /** `lit` occurs in `s` at position `i`. */
  predicate LiteralAt(s: string, i: nat, lit: string) {
    i + |lit| <= |s| && s[i..i + |lit|] == lit
  }

  predicate StartsWith(s: string, prefix: string) {
    LiteralAt(s, 0, prefix)
  }

  /** End of the longest run of `cls` characters starting at `i`: where a
      greedy `\d+` or `\s+` tried at `i` stops. */
  function RunEnd(s: string, i: nat, cls: CharClass): (j: nat)
    requires i <= |s|
    ensures AllIn(s, i, j, cls)
    ensures j == |s| || !InClass(s[j], cls)
    decreases |s| - i
  {
    if i == |s| || !InClass(s[i], cls) then i else RunEnd(s, i + 1, cls)
  }

  /** A run that cannot be extended is the one `RunEnd` finds. */
  lemma RunEndUnique(s: string, i: nat, j: nat, cls: CharClass)
    requires AllIn(s, i, j, cls)
    requires j == |s| || !InClass(s[j], cls)
    ensures RunEnd(s, i, cls) == j
  {
  }

  /** `int(s[lo:hi])` for a run of ASCII digits. */
  function DigitsValue(s: string, lo: nat, hi: nat): nat
    requires AllIn(s, lo, hi, Digits)
    decreases hi - lo
  {
    if hi == lo then 0
    else 10 * DigitsValue(s, lo, hi - 1) + (s[hi - 1] as int - '0' as int)
  }

  /** Start of the text left by `strip()`: the first non-blank position. */
  function StripStart(s: string): (lo: nat)
    ensures AllIn(s, 0, lo, Spaces)
    ensures lo == |s| || !IsSpace(s[lo])
  {
    RunEnd(s, 0, Spaces)
  }

  /** End of the text left by `strip()`: one past the last non-blank
      position at or after `lo`. */
  function StripEnd(s: string, lo: nat): (hi: nat)
    requires lo <= |s|
    ensures lo <= hi && AllIn(s, hi, |s|, Spaces)
    ensures hi == lo || !IsSpace(s[hi - 1])
    decreases |s|
  {
    if |s| == lo || !IsSpace(s[|s| - 1]) then |s|
    else StripEnd(s[..|s| - 1], lo)
  }

  /** Python's `str.strip()`: the slice of `s` left after removing leading
      and trailing whitespace. */
  function Strip(s: string): (r: string)
    ensures r == [] || (!IsSpace(r[0]) && !IsSpace(r[|r| - 1]))
    ensures exists lo: nat, hi: nat :: AllIn(s, 0, lo, Spaces) && AllIn(s, hi, |s|, Spaces) && lo <= hi && r == s[lo..hi]
  {
    var lo := StripStart(s);
    var hi := StripEnd(s, lo);
    assert hi > lo ==> s[lo..hi][0] == s[lo] && s[lo..hi][hi - lo - 1] == s[hi - 1];
    s[lo..hi]
  }

  /** Stripping twice is stripping once: `title.strip()` of an already
      stripped title changes nothing. */
  lemma StripIdempotent(s: string)
    ensures Strip(Strip(s)) == Strip(s)
  {
    var r := Strip(s);
    assert StripStart(r) == 0;
    assert StripEnd(r, 0) == |r|;
  }

}
