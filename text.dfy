/** The string operations of Python's `str` that the service relies on:
    `strip`, `lower`, `startswith`, `endswith`, the first match of
    `find`/`split`, and `str(n)` for a non-negative integer. Whitespace and
    case are those of the ASCII range. */
module Text {

  import opened Wrappers

  /** The characters below 128 for which Python's `str.isspace` holds:
      tab through carriage return, the four separators 0x1C-0x1F, and space. */
  predicate IsSpace(c: char) {
    9 <= c as int <= 13 || 28 <= c as int <= 32
  }

  predicate OnlySpaces(s: string) {
    forall i :: 0 <= i < |s| ==> IsSpace(s[i])
  }

  /** Neither end of `s` is whitespace: what `strip` leaves. */
  predicate IsStripped(s: string) {
    s == [] || (!IsSpace(s[0]) && !IsSpace(s[|s| - 1]))
  }

  /** The first index at or after `from` whose character is not
      whitespace, or `|s|`. */
  function SkipSpaces(s: string, from: nat): (i: nat)
    requires from <= |s|
    decreases |s| - from
    ensures from <= i <= |s|
    ensures forall j :: from <= j < i ==> IsSpace(s[j])
    ensures i < |s| ==> !IsSpace(s[i])
  {
    if from < |s| && IsSpace(s[from]) then SkipSpaces(s, from + 1) else from
  }

  /** The index just past the last character before `end`, and not before
      `lo`, that is not whitespace; `lo` when there is none. */
  function SkipSpacesBack(s: string, lo: nat, end: nat): (i: nat)
    requires lo <= end <= |s|
    decreases end
    ensures lo <= i <= end
    ensures forall j :: i <= j < end ==> IsSpace(s[j])
    ensures lo < i ==> !IsSpace(s[i - 1])
  {
    if lo < end && IsSpace(s[end - 1]) then SkipSpacesBack(s, lo, end - 1) else end
  }

  /** Where the text that `strip` keeps begins in `s`. */
  function StripOffset(s: string): (lo: nat)
    ensures lo <= |s|
  {
    SkipSpaces(s, 0)
  }

  /** Where the text that `strip` keeps ends in `s`. */
  function StripEnd(s: string): (hi: nat)
    ensures StripOffset(s) <= hi <= |s|
  {
    SkipSpacesBack(s, StripOffset(s), |s|)
  }

  /** `s.strip()`: the slice of `s` between `StripOffset(s)` and
      `StripEnd(s)`, with only whitespace outside it on either side. */
  function Strip(s: string): (r: string)
    ensures IsStripped(r)
    ensures |r| == StripEnd(s) - StripOffset(s)
    ensures forall j :: 0 <= j < |r| ==> r[j] == s[StripOffset(s) + j]
    ensures forall j :: 0 <= j < StripOffset(s) ==> IsSpace(s[j])
    ensures forall j :: StripEnd(s) <= j < |s| ==> IsSpace(s[j])
  {
    s[StripOffset(s)..StripEnd(s)]
  }

  /** Stripping text that is already stripped changes nothing. */
  lemma StripOfStripped(s: string)
    requires IsStripped(s)
    ensures Strip(s) == s
  {
    if s != [] {
      assert SkipSpaces(s, 0) == 0;
      assert SkipSpacesBack(s, 0, |s|) == |s|;
    }
  }

  /** Stripping twice is stripping once. */
  lemma StripIdempotent(s: string)
    ensures Strip(Strip(s)) == Strip(s)
  {
    StripOfStripped(Strip(s));
  }

  /** Whitespace from `from` up to a non-whitespace character at `k` is
      skipped exactly up to `k`. */
  lemma {:induction false} SkipSpacesTo(s: string, from: nat, k: nat)
    requires from <= k < |s| && !IsSpace(s[k])
    requires forall j :: from <= j < k ==> IsSpace(s[j])
    ensures SkipSpaces(s, from) == k
    decreases k - from
  {
    if from < k {
      SkipSpacesTo(s, from + 1, k);
    }
  }

  /** Whitespace back from `end` down to a non-whitespace character at
      `k - 1` is skipped exactly down to `k`. */
  lemma {:induction false} SkipSpacesBackTo(s: string, lo: nat, end: nat, k: nat)
    requires lo < k <= end <= |s| && !IsSpace(s[k - 1])
    requires forall j :: k <= j < end ==> IsSpace(s[j])
    ensures SkipSpacesBack(s, lo, end) == k
    decreases end
  {
    if k < end {
      SkipSpacesBackTo(s, lo, end - 1, k);
    }
  }

  /** Whitespace around a stripped text is exactly what `strip` removes. */
  lemma StripSurrounded(lead: string, s: string, trail: string)
    requires OnlySpaces(lead) && OnlySpaces(trail)
    requires IsStripped(s) && s != []
    ensures Strip(lead + s + trail) == s
  {
    var t := lead + s + trail;
    var lo := |lead|;
    var hi := |lead| + |s|;
    forall j | 0 <= j < lo
      ensures IsSpace(t[j])
    {
      assert t[j] == lead[j];
    }
    assert t[lo] == s[0];
    SkipSpacesTo(t, 0, lo);
    forall j | hi <= j < |t|
      ensures IsSpace(t[j])
    {
      assert t[j] == trail[j - hi];
    }
    assert t[hi - 1] == s[|s| - 1];
    SkipSpacesBackTo(t, lo, |t|, hi);
    assert t[lo..hi] == s;
  }

  /** `s.startswith(p)` */
  predicate StartsWith(s: string, p: string) {
    |p| <= |s| && s[..|p|] == p
  }

  /** `s.endswith(p)` */
  predicate EndsWith(s: string, p: string) {
    |p| <= |s| && s[|s| - |p|..] == p
  }

  /** ASCII case folding of one character, as `str.lower` does below 128. */
  function LowerChar(c: char): char {
    if 'A' <= c <= 'Z' then (c as int - 'A' as int + 'a' as int) as char else c
  }

  /** `s.lower()`, character by character. */
  function Lower(s: string): (r: string)
    ensures |r| == |s|
  {
    seq(|s|, i requires 0 <= i < |s| => LowerChar(s[i]))
  }

  /** `pat` occurs in `s` starting at index `i`. */
  predicate OccursAt(s: string, pat: string, i: nat) {
    i + |pat| <= |s| && s[i..i + |pat|] == pat
  }

  /** `s.find(pat, from)`: the first index at or after `from` where `pat`
      occurs, or `None` when there is none. */
  function FindFrom(s: string, pat: string, from: nat): (r: Option<nat>)
    decreases |s| - from
    ensures r.Some? ==> from <= r.value && OccursAt(s, pat, r.value)
    ensures r.Some? ==> forall j :: from <= j < r.value ==> !OccursAt(s, pat, j)
    ensures r.None? ==> forall j :: from <= j ==> !OccursAt(s, pat, j)
  {
    if from + |pat| > |s| then None
    else if OccursAt(s, pat, from) then Some(from)
    else FindFrom(s, pat, from + 1)
  }

  predicate IsDigit(c: char) {
    '0' <= c <= '9'
  }

  function DigitChar(d: nat): (c: char)
    requires d < 10
    ensures IsDigit(c)
  {
    ('0' as int + d) as char
  }

  /** `str(n)` for `n >= 0`: its decimal digits, most significant first, with
      no leading zero. */
  function NatToString(n: nat): (r: string)
    ensures r != [] && forall i :: 0 <= i < |r| ==> IsDigit(r[i])
    ensures r[0] == '0' ==> n == 0
  {
    if n < 10 then [DigitChar(n)] else NatToString(n / 10) + [DigitChar(n % 10)]
  }

  /** The value of a string of decimal digits, as `int(s)` reads it. */
  function ParseDecimal(s: string): int {
    if s == [] then 0 else ParseDecimal(s[..|s| - 1]) * 10 + (s[|s| - 1] as int - '0' as int)
  }

  /** `int(str(n)) == n`. */
  lemma {:induction false} ParseNatToString(n: nat)
    ensures ParseDecimal(NatToString(n)) == n
  {
    if n >= 10 {
      var p := NatToString(n / 10);
      var r := p + [DigitChar(n % 10)];
      assert r[..|r| - 1] == p;
      ParseNatToString(n / 10);
    }
  }

  /** Distinct numbers have distinct decimal strings. */
  lemma NatToStringInjective(a: nat, b: nat)
    requires NatToString(a) == NatToString(b)
    ensures a == b
  {
    ParseNatToString(a);
    ParseNatToString(b);
  }
}
