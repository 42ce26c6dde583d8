/**
 The C library routines the proxy relies on, over strings whose characters
 each stand for one byte (so `strlen(s)` is `|s|`): `strstr`/`strchr`,
 `isspace`, `strcasecmp`, `atoi`, `%d` formatting and the `%s` conversion of
 `sscanf`.
 */
module CString {

  datatype Option<T> = None | Some(value: T)

  /** `pat` occurs in `s` starting at index `i`. */
  predicate MatchAt(s: string, pat: string, i: int) {
    0 <= i && i + |pat| <= |s| && s[i..i + |pat|] == pat
  }

  lemma SliceOfTail(s: string, j: int, n: nat)
    requires 1 <= j && j + n <= |s|
    ensures s[j..j + n] == s[1..][j - 1..j - 1 + n]
  {
    var direct, viaTail := s[j..j + n], s[1..][j - 1..j - 1 + n];
    assert forall k :: 0 <= k < n ==> direct[k] == viaTail[k];
  }

  lemma MatchAtTail(s: string, pat: string)
    requires |s| > 0
    ensures forall j :: 1 <= j ==> (MatchAt(s, pat, j) <==> MatchAt(s[1..], pat, j - 1))
  {
    forall j | 1 <= j
      ensures MatchAt(s, pat, j) <==> MatchAt(s[1..], pat, j - 1)
    {
      if j + |pat| <= |s| {
        SliceOfTail(s, j, |pat|);
      }
    }
  }

  /** `strstr(s, pat)`: the index of the first occurrence of `pat` in `s`. */
  function Find(s: string, pat: string): (r: Option<nat>)
    ensures r.Some? ==> MatchAt(s, pat, r.value)
    ensures r.Some? ==> forall j :: 0 <= j < r.value ==> !MatchAt(s, pat, j)
    ensures r.None? ==> forall j :: !MatchAt(s, pat, j)
    decreases |s|
  {
    if MatchAt(s, pat, 0) then Some(0)
    else if |s| == 0 then None
    else
      MatchAtTail(s, pat);
      var r := Find(s[1..], pat);
      if r.Some? then Some(r.value + 1) else None
  }

  /** `strstr(s, pat) != NULL`. */
  predicate Contains(s: string, pat: string) {
    Find(s, pat).Some?
  }

  /** An occurrence with none before it is the one `Find` reports. */
  lemma FindIs(s: string, pat: string, k: nat)
    requires MatchAt(s, pat, k)
    requires forall j :: 0 <= j < k ==> !MatchAt(s, pat, j)
    ensures Find(s, pat) == Some(k)
  {
  }

  /** `strchr(s, c)`: the position of the first `c` in `s`. */
  function IndexOf(s: string, c: char): (r: Option<nat>)
    ensures r.Some? ==> r.value < |s| && s[r.value] == c && c !in s[..r.value]
    ensures r.None? ==> c !in s
  {
    if s == [] then None
    else if s[0] == c then Some(0)
    else
      var r := IndexOf(s[1..], c);
      if r.Some? then
        assert s[..r.value + 1] == [s[0]] + s[1..][..r.value];
        Some(r.value + 1)
      else
        assert s == [s[0]] + s[1..];
        None
  }

  /** The position of a `c` with none before it is what `strchr` finds. */
  lemma IndexOfIs(s: string, c: char, k: nat)
    requires k < |s| && s[k] == c && c !in s[..k]
    ensures IndexOf(s, c) == Some(k)
  {
  }

  /** An occurrence anywhere is found by `strstr`. */
  lemma ContainsAt(s: string, pat: string, i: int)
    requires MatchAt(s, pat, i)
    ensures Contains(s, pat)
  {
  }

  /** A pattern holding a character the string lacks does not occur in it. */
  lemma AbsentCharNotContained(s: string, pat: string, c: char)
    requires c in pat && c !in s
    ensures !Contains(s, pat)
  {
  }

  /** `isspace` in the C locale. */
  predicate IsSpace(c: char) {
    c == ' ' || c == '\t' || c == '\n' || c == '\U{0B}' || c == '\U{0C}' || c == '\r'
  }

  predicate IsDigit(c: char) {
    '0' <= c <= '9'
  }

  predicate AllDigits(s: string) {
    forall i :: 0 <= i < |s| ==> IsDigit(s[i])
  }

  predicate NoSpace(s: string) {
    forall i :: 0 <= i < |s| ==> !IsSpace(s[i])
  }

  predicate AllSpace(s: string) {
    forall i :: 0 <= i < |s| ==> IsSpace(s[i])
  }

  /** `tolower` on one character. */
  function ToLower(c: char): char {
    if 'A' <= c <= 'Z' then (c as int + 32) as char else c
  }

  /** `strcasecmp(a, b) == 0`. */
  predicate EqualsIgnoreCase(a: string, b: string) {
    |a| == |b| && forall i :: 0 <= i < |a| ==> ToLower(a[i]) == ToLower(b[i])
  }

  /** `tolower` applied to every character. */
  function Lower(s: string): (r: string)
    ensures |r| == |s| && forall i :: 0 <= i < |s| ==> r[i] == ToLower(s[i])
  {
    seq(|s|, i requires 0 <= i < |s| => ToLower(s[i]))
  }

  /** `strcasecmp` reports equal exactly when the lower-case forms are equal. */
  lemma EqualsIgnoreCaseLower(a: string, b: string)
    ensures EqualsIgnoreCase(a, b) <==> Lower(a) == Lower(b)
  {
    if Lower(a) == Lower(b) {
      assert forall i :: 0 <= i < |a| ==> Lower(a)[i] == Lower(b)[i];
    }
  }

  /** How many white-space characters `s` starts with. */
  function SpaceRun(s: string): (k: nat)
    ensures k <= |s|
    ensures forall i :: 0 <= i < k ==> IsSpace(s[i])
    ensures k == |s| || !IsSpace(s[k])
  {
    if s != [] && IsSpace(s[0]) then
      var k := SpaceRun(s[1..]) + 1;
      assert forall i :: 1 <= i <= k && i < |s| ==> s[i] == s[1..][i - 1];
      k
    else
      0
  }

  /** How many characters free of white space `s` starts with. */
  function WordRun(s: string): (k: nat)
    ensures k <= |s|
    ensures forall i :: 0 <= i < k ==> !IsSpace(s[i])
    ensures k == |s| || IsSpace(s[k])
  {
    if s != [] && !IsSpace(s[0]) then
      var k := WordRun(s[1..]) + 1;
      assert forall i :: 1 <= i <= k && i < |s| ==> s[i] == s[1..][i - 1];
      k
    else
      0
  }

  /** Drops the leading white space, as `atoi` and `%s` do. */
  function SkipSpace(s: string): string {
    s[SpaceRun(s)..]
  }

  /** Splits off the longest prefix free of white space: the characters `%s` stores. */
  function TakeToken(s: string): (r: (string, string))
    ensures r.0 + r.1 == s
    ensures NoSpace(r.0)
    ensures r.1 == [] || IsSpace(r.1[0])
  {
    var k := WordRun(s);
    (s[..k], s[k..])
  }

  /** A token followed by white space (or nothing) is taken whole. */
  lemma TakeTokenOf(tok: string, rest: string)
    requires NoSpace(tok)
    requires rest == [] || IsSpace(rest[0])
    ensures TakeToken(tok + rest) == (tok, rest)
  {
    var s := tok + rest;
    var k := WordRun(s);
    assert s[..|tok|] == tok && s[|tok|..] == rest;
  }

  /** `sscanf(line, "%s %s", first, second)` when it fills both: two
      white-space separated words. `None` when the line has fewer than two
      words, in which case `sscanf` leaves a buffer unset. */
  function ScanTwo(line: string): (r: Option<(string, string)>)
    ensures r.Some? ==> r.value.0 != [] && NoSpace(r.value.0) && r.value.1 != [] && NoSpace(r.value.1)
  {
    var first := TakeToken(SkipSpace(line));
    if first.0 == [] then None
    else
      var second := TakeToken(SkipSpace(first.1));
      if second.0 == [] then None else Some((first.0, second.0))
  }

  /** White space followed by a non-space character (or nothing) is skipped whole. */
  lemma SkipSpaceOf(ws: string, t: string)
    requires AllSpace(ws)
    requires t == [] || !IsSpace(t[0])
    ensures SkipSpace(ws + t) == t
  {
    var s := ws + t;
    var k := SpaceRun(s);
    assert s[|ws|..] == t;
  }

  /** One `%s`: white space skipped, then a whole word taken. */
  lemma ReadWord(ws: string, w: string, rest: string)
    requires AllSpace(ws) && w != [] && NoSpace(w)
    requires rest == [] || IsSpace(rest[0])
    ensures TakeToken(SkipSpace(ws + w + rest)) == (w, rest)
  {
    assert ws + w + rest == ws + (w + rest);
    assert (w + rest)[0] == w[0];
    SkipSpaceOf(ws, w + rest);
    TakeTokenOf(w, rest);
  }

  /** `%s %s` skips leading white space, reads the first word, skips the white
      space after it and reads the second word. */
  lemma ScanTwoWords(ws0: string, a: string, ws1: string, b: string, rest: string)
    requires AllSpace(ws0) && AllSpace(ws1) && ws1 != []
    requires a != [] && NoSpace(a) && b != [] && NoSpace(b)
    requires rest == [] || IsSpace(rest[0])
    ensures ScanTwo(ws0 + a + ws1 + b + rest) == Some((a, b))
  {
    var afterA := ws1 + b + rest;
    assert ws0 + a + ws1 + b + rest == ws0 + a + afterA;
    assert afterA[0] == ws1[0];
    ReadWord(ws0, a, afterA);
    ReadWord(ws1, b, rest);
  }

  /** Two words separated by a space and followed by white space (or nothing)
      are what `%s %s` reads back. */
  lemma ScanTwoOf(a: string, b: string, rest: string)
    requires a != [] && NoSpace(a) && b != [] && NoSpace(b)
    requires rest == [] || IsSpace(rest[0])
    ensures ScanTwo(a + " " + b + rest) == Some((a, b))
  {
    assert [] + a + " " + b + rest == a + " " + b + rest;
    ScanTwoWords([], a, " ", b, rest);
  }

  /** The line holds at least two words: a non-space character, later a white
      space, and later again a non-space character. */
  predicate HasTwoWords(line: string) {
    exists i, k, j :: 0 <= i < k < j < |line| && !IsSpace(line[i]) && IsSpace(line[k]) && !IsSpace(line[j])
  }

  /** When `sscanf` fills both buffers, the line holds two words. */
  lemma ScanTwoSomeHasTwo(line: string)
    requires ScanTwo(line).Some?
    ensures HasTwoWords(line)
  {
    var k0 := SpaceRun(line);
    var s0 := line[k0..];
    var w := WordRun(s0);
    var f1 := s0[w..];
    var k1 := SpaceRun(f1);
    var s1 := f1[k1..];
    assert 0 < w && k1 < |f1| && WordRun(s1) > 0;
    assert IsSpace(f1[0]) && !IsSpace(s1[0]);
    var i, k, j := k0, k0 + w, k0 + w + k1;
    assert line[i] == s0[0];
    assert line[k] == s0[w] == f1[0];
    assert line[j] == s0[w + k1] == f1[k1];
  }

  /** A line whose non-space characters form one unbroken run `[lo, hi)` holds
      fewer than two words. */
  lemma OneRunOnly(line: string, lo: int, hi: int)
    requires 0 <= lo <= hi <= |line|
    requires forall m :: 0 <= m < |line| && !IsSpace(line[m]) ==> lo <= m < hi
    requires forall m :: lo <= m < hi ==> !IsSpace(line[m])
    ensures !HasTwoWords(line)
  {
  }

  /** Leading white space, one word, then only white space: fewer than two words. */
  lemma OneWordLine(line: string, k0: nat, w: nat)
    requires k0 <= |line| && w <= |line| - k0
    requires AllSpace(line[..k0])
    requires NoSpace(line[k0..][..w])
    requires AllSpace(line[k0..][w..])
    ensures !HasTwoWords(line)
  {
    assert forall m :: 0 <= m < k0 ==> line[m] == line[..k0][m];
    assert forall m :: k0 <= m < k0 + w ==> line[m] == line[k0..][..w][m - k0];
    assert forall m :: k0 + w <= m < |line| ==> line[m] == line[k0..][w..][m - k0 - w];
    OneRunOnly(line, k0, k0 + w);
  }

  lemma SpaceRunPrefix(s: string)
    ensures AllSpace(s[..SpaceRun(s)])
  {
    assert forall i :: 0 <= i < SpaceRun(s) ==> s[..SpaceRun(s)][i] == s[i];
  }

  lemma WordRunPrefix(s: string)
    ensures NoSpace(s[..WordRun(s)])
  {
    assert forall i :: 0 <= i < WordRun(s) ==> s[..WordRun(s)][i] == s[i];
  }

  /** `sscanf` leaves a buffer unset only when no word starts the line or only white space follows the first one. */
  lemma ScanTwoNoneRuns(line: string)
    requires ScanTwo(line).None?
    ensures var s0 := line[SpaceRun(line)..];
            AllSpace(s0[WordRun(s0)..])
  {
    var s0 := line[SpaceRun(line)..];
    var f1 := s0[WordRun(s0)..];
    if WordRun(s0) != 0 {
      assert SpaceRun(f1) == |f1|;
      SpaceRunPrefix(f1);
      assert f1[..|f1|] == f1;
    }
  }

  /** When `sscanf` leaves a buffer unset, the line holds fewer than two words. */
  lemma ScanTwoNoneFewerWords(line: string)
    requires ScanTwo(line).None?
    ensures !HasTwoWords(line)
  {
    var k0 := SpaceRun(line);
    var s0 := line[k0..];
    SpaceRunPrefix(line);
    WordRunPrefix(s0);
    ScanTwoNoneRuns(line);
    OneWordLine(line, k0, WordRun(s0));
  }

  /** `sscanf` fills both buffers exactly when the line holds two words. */
  lemma ScanTwoFillsBoth(line: string)
    ensures ScanTwo(line).Some? <==> HasTwoWords(line)
  {
    if ScanTwo(line).Some? {
      ScanTwoSomeHasTwo(line);
    } else {
      ScanTwoNoneFewerWords(line);
    }
  }

  /** The leading run of decimal digits: what `atoi` reads. */
  function LeadingDigits(s: string): (d: string)
    ensures |d| <= |s| && d == s[..|d|]
    ensures AllDigits(d)
    ensures |d| == |s| || !IsDigit(s[|d|])
  {
    if s != [] && IsDigit(s[0]) then [s[0]] + LeadingDigits(s[1..]) else []
  }

  lemma {:induction false} LeadingDigitsOf(ds: string, rest: string)
    requires AllDigits(ds)
    requires rest == [] || !IsDigit(rest[0])
    ensures LeadingDigits(ds + rest) == ds
  {
    if ds != [] {
      assert (ds + rest)[1..] == ds[1..] + rest;
      LeadingDigitsOf(ds[1..], rest);
      assert [ds[0]] + ds[1..] == ds;
    }
  }

  /** The number a string of decimal digits denotes. */
  function DecimalValue(ds: string): nat
    requires AllDigits(ds)
  {
    if ds == [] then 0
    else DecimalValue(ds[..|ds| - 1]) * 10 + (ds[|ds| - 1] as int - '0' as int)
  }

  /** `atoi`: optional white space, an optional sign, then decimal digits (the
      source's `int` overflow is not modelled: the result is unbounded). */
  function Atoi(s: string): int {
    var t := SkipSpace(s);
    if t != [] && t[0] == '-' then -(DecimalValue(LeadingDigits(t[1..])) as int)
    else if t != [] && t[0] == '+' then DecimalValue(LeadingDigits(t[1..]))
    else DecimalValue(LeadingDigits(t))
  }

  function DigitChar(d: nat): (c: char)
    requires d < 10
    ensures IsDigit(c) && c as int - '0' as int == d
  {
    ('0' as int + d) as char
  }

  /** `sprintf("%d", n)` for a non-negative `n`. */
  function Decimal(n: nat): (s: string)
    ensures s != [] && AllDigits(s)
  {
    if n < 10 then [DigitChar(n)] else Decimal(n / 10) + [DigitChar(n % 10)]
  }

  /** Printing a number with `%d` and reading its digits back gives the number. */
  lemma {:induction false} DecimalRoundTrip(n: nat)
    ensures DecimalValue(Decimal(n)) == n
  {
    var s := Decimal(n);
    if n >= 10 {
      DecimalRoundTrip(n / 10);
      assert s[..|s| - 1] == Decimal(n / 10);
    }
  }

  /** `atoi` of a space, a `%d`-printed number and any non-digit tail is that number. */
  lemma AtoiOfDecimal(n: nat, rest: string)
    requires rest == [] || !IsDigit(rest[0])
    ensures Atoi(" " + Decimal(n) + rest) == n
  {
    var d := Decimal(n);
    var s := " " + d + rest;
    assert s == " " + (d + rest);
    assert (d + rest)[0] == d[0];
    SkipSpaceOf(" ", d + rest);
    LeadingDigitsOf(d, rest);
    DecimalRoundTrip(n);
  }

  /** `atoi(strchr(line, ':') + 1)`: the number after a header's first colon. */
  function ValueAfterColon(line: string): int
    requires ':' in line
  {
    Atoi(line[IndexOf(line, ':').value + 1..])
  }
}
