/**
 * The Python `str` operations the migration scripts rely on, over `seq<char>`:
 * `strip`, `lower`/`upper`, `capitalize`, `title`, slicing, `split`, `rsplit`,
 * whitespace `split()`, `join` and `replace`. Case mapping covers the ASCII letters;
 * `isspace` covers every character Python counts as whitespace.
 */
module Text {

  import opened Options

  /** Python's `str.isspace()` for one character. */
  predicate IsSpace(c: char) {
    || c == ' '
    || '\t' <= c <= '\r'
    || '\U{001C}' <= c <= '\U{001F}'
    || c == '\U{0085}' || c == '\U{00A0}' || c == '\U{1680}'
    || '\U{2000}' <= c <= '\U{200A}'
    || c == '\U{2028}' || c == '\U{2029}' || c == '\U{202F}' || c == '\U{205F}' || c == '\U{3000}'
  }

  predicate IsDigit(c: char) { '0' <= c <= '9' }
  predicate IsUpper(c: char) { 'A' <= c <= 'Z' }
  predicate IsLower(c: char) { 'a' <= c <= 'z' }
  predicate IsAlpha(c: char) { IsUpper(c) || IsLower(c) }

  /** A character of the regular-expression class `\w`. */
  predicate IsWordChar(c: char) { IsAlpha(c) || IsDigit(c) || c == '_' }

  predicate AllSpace(s: string) { forall i | 0 <= i < |s| :: IsSpace(s[i]) }
  predicate AllDigits(s: string) { forall i | 0 <= i < |s| :: IsDigit(s[i]) }
  predicate AllAlpha(s: string) { forall i | 0 <= i < |s| :: IsAlpha(s[i]) }
  predicate HasDigit(s: string) { exists i | 0 <= i < |s| :: IsDigit(s[i]) }

  lemma AllDigitsSplit(s: string, k: nat)
    requires AllDigits(s) && k <= |s|
    ensures AllDigits(s[..k]) && AllDigits(s[k..])
  {
    forall i | 0 <= i < k ensures IsDigit(s[..k][i]) {
      assert s[..k][i] == s[i];
    }
    forall i | 0 <= i < |s| - k ensures IsDigit(s[k..][i]) {
      assert s[k..][i] == s[k + i];
    }
  }

  function UpperChar(c: char): (r: char)
    ensures !IsLower(r)
    ensures IsAlpha(r) <==> IsAlpha(c)
    ensures !IsLower(c) ==> r == c
  {
    if IsLower(c) then (c as int - 32) as char else c
  }

  function LowerChar(c: char): (r: char)
    ensures !IsUpper(r)
    ensures IsAlpha(r) <==> IsAlpha(c)
    ensures !IsUpper(c) ==> r == c
  {
    if IsUpper(c) then (c as int + 32) as char else c
  }

  lemma LowerUpperChar(c: char)
    ensures LowerChar(UpperChar(c)) == LowerChar(c)
    ensures UpperChar(LowerChar(c)) == UpperChar(c)
  {
  }

  /** Python's `str.upper()`. */
  function Upper(s: string): (r: string)
    ensures |r| == |s|
    ensures forall i | 0 <= i < |s| :: r[i] == UpperChar(s[i])
  {
    seq(|s|, i requires 0 <= i < |s| => UpperChar(s[i]))
  }

  /** Python's `str.lower()`. */
  function Lower(s: string): (r: string)
    ensures |r| == |s|
    ensures forall i | 0 <= i < |s| :: r[i] == LowerChar(s[i])
  {
    seq(|s|, i requires 0 <= i < |s| => LowerChar(s[i]))
  }

  lemma LowerConcat(a: string, b: string)
    ensures Lower(a + b) == Lower(a) + Lower(b)
  {
  }

  lemma LowerUpper(s: string)
    ensures Lower(Upper(s)) == Lower(s)
  {
    forall i | 0 <= i < |s| ensures Lower(Upper(s))[i] == Lower(s)[i] {
      LowerUpperChar(s[i]);
    }
  }

  lemma LowerOfSpaces(s: string)
    requires AllSpace(s)
    ensures Lower(s) == s
  {
  }

  /** The end of the run of whitespace that starts at `i`. */
  function SpaceRunEnd(s: string, i: nat): (n: nat)
    requires i <= |s|
    ensures i <= n <= |s|
    ensures forall k | i <= k < n :: IsSpace(s[k])
    ensures n == |s| || !IsSpace(s[n])
    decreases |s| - i
  {
    if i < |s| && IsSpace(s[i]) then SpaceRunEnd(s, i + 1) else i
  }

  /** The start of the run of whitespace that ends at `j`. */
  function SpaceRunStart(s: string, j: nat): (n: nat)
    requires j <= |s|
    ensures n <= j
    ensures forall k | n <= k < j :: IsSpace(s[k])
    ensures n == 0 || !IsSpace(s[n - 1])
  {
    if j > 0 && IsSpace(s[j - 1]) then SpaceRunStart(s, j - 1) else j
  }

  /** `s` starts with exactly `n` whitespace characters. */
  predicate LeadingRunOf(s: string, n: nat) {
    n <= |s| && (forall k | 0 <= k < n :: IsSpace(s[k])) && (n == |s| || !IsSpace(s[n]))
  }

  /** `s` ends with exactly `|s| - n` whitespace characters. */
  predicate TrailingRunOf(s: string, n: nat) {
    n <= |s| && (forall k | n <= k < |s| :: IsSpace(s[k])) && (n == 0 || !IsSpace(s[n - 1]))
  }

  /** The whitespace run at the start of a string is determined by where it stops. */
  lemma LeadingRun(s: string, n: nat)
    requires LeadingRunOf(s, n)
    ensures SpaceRunEnd(s, 0) == n
  {
  }

  /** The whitespace run at the end of a string is determined by where it starts. */
  lemma TrailingRun(s: string, n: nat)
    requires TrailingRunOf(s, n)
    ensures SpaceRunStart(s, |s|) == n
  {
  }

  /** Python's `str.lstrip()`: the characters from the end of the leading whitespace on. */
  function StripLeft(s: string): (r: string)
    ensures |r| <= |s|
    ensures r == [] || !IsSpace(r[0])
  {
    var n := SpaceRunEnd(s, 0);
    seq(|s| - n, k requires 0 <= k < |s| - n => s[n + k])
  }

  /** `lstrip` keeps the string from the end of its leading whitespace. */
  lemma StripLeftIsSlice(s: string)
    ensures StripLeft(s) == s[SpaceRunEnd(s, 0)..]
  {
  }

  /** What `lstrip` drops is whitespace, and what it keeps is the rest of the string. */
  lemma StripLeftSuffix(s: string)
    ensures StripLeft(s) == s[|s| - |StripLeft(s)|..]
    ensures AllSpace(s[..|s| - |StripLeft(s)|])
  {
    StripLeftIsSlice(s);
    var n := SpaceRunEnd(s, 0);
    assert forall k | 0 <= k < n :: s[..n][k] == s[k];
  }

  /** Python's `str.rstrip()`: drops the trailing whitespace. */
  function StripRight(s: string): (r: string)
    ensures |r| <= |s| && r == s[..|r|]
    ensures AllSpace(s[|r|..])
    ensures r == [] || !IsSpace(r[|r| - 1])
  {
    var n := SpaceRunStart(s, |s|);
    assert forall k | 0 <= k < |s| - n :: s[n..][k] == s[n + k];
    s[..n]
  }

  /** `strip` only removes characters: whatever it keeps was in the string. */
  lemma StripKeeps(s: string, c: char)
    ensures c in Strip(s) ==> c in s
  {
    StripLeftIsSlice(s);
  }

  /** Python's `str.strip()`. */
  function Strip(s: string): (r: string)
    ensures |r| <= |s|
    ensures r == [] || (!IsSpace(r[0]) && !IsSpace(r[|r| - 1]))
    ensures r == [] <==> AllSpace(s)
  {
    var t := StripLeft(s);
    var r := StripRight(t);
    assert r == [] ==> AllSpace(s) by {
      if r == [] {
        StripLeftSuffix(s);
        assert s == s[..|s| - |t|] + t;
      }
    }
    r
  }

  lemma StripLeftNoSpace(s: string)
    requires s == [] || !IsSpace(s[0])
    ensures StripLeft(s) == s
  {
    LeadingRun(s, 0);
  }

  lemma StripRightNoSpace(s: string)
    requires s == [] || !IsSpace(s[|s| - 1])
    ensures StripRight(s) == s
  {
    TrailingRun(s, |s|);
  }

  /** A string with no whitespace at either end is its own strip. */
  lemma StripNoSpace(s: string)
    requires s == [] || (!IsSpace(s[0]) && !IsSpace(s[|s| - 1]))
    ensures Strip(s) == s
  {
    StripLeftNoSpace(s);
    StripRightNoSpace(s);
  }

  /** Stripping twice is stripping once. */
  lemma StripIdempotent(s: string)
    ensures Strip(Strip(s)) == Strip(s)
  {
    StripNoSpace(Strip(s));
  }

  lemma StripLeftSpaces(a: string, s: string)
    requires AllSpace(a)
    ensures StripLeft(a + s) == StripLeft(s)
  {
    var n := SpaceRunEnd(s, 0);
    var t := a + s;
    assert forall k | 0 <= k < |a| + n :: t[k] == if k < |a| then a[k] else s[k - |a|];
    LeadingRun(t, |a| + n);
    assert t[|a| + n..] == s[n..];
  }

  lemma StripRightSpaces(s: string, b: string)
    requires AllSpace(b)
    ensures StripRight(s + b) == StripRight(s)
  {
    var n := SpaceRunStart(s, |s|);
    var t := s + b;
    assert forall k | n <= k < |t| :: t[k] == if k < |s| then s[k] else b[k - |s|];
    TrailingRun(t, n);
    assert t[..n] == s[..n];
  }

  lemma AllSpaceStripLeft(s: string)
    requires AllSpace(s)
    ensures StripLeft(s) == []
  {
    LeadingRun(s, |s|);
  }

  lemma StripLeftAppend(s: string, b: string)
    requires AllSpace(b)
    ensures StripLeft(s + b) == if AllSpace(s) then [] else StripLeft(s) + b
  {
    var t := s + b;
    if AllSpace(s) {
      assert AllSpace(t) by {
        assert forall k | 0 <= k < |t| :: t[k] == if k < |s| then s[k] else b[k - |s|];
      }
      AllSpaceStripLeft(t);
    } else {
      var n := SpaceRunEnd(s, 0);
      assert n < |s|;
      assert forall k | 0 <= k <= n :: t[k] == s[k];
      LeadingRun(t, n);
      StripLeftIsSlice(s);
      StripLeftIsSlice(t);
      assert t[n..] == s[n..] + b;
    }
  }

  /** Surrounding whitespace does not change what `strip` yields. */
  lemma StripPadded(a: string, s: string, b: string)
    requires AllSpace(a) && AllSpace(b)
    ensures Strip(a + s + b) == Strip(s)
  {
    assert a + s + b == a + (s + b);
    StripLeftSpaces(a, s + b);
    StripLeftAppend(s, b);
    if AllSpace(s) {
      AllSpaceStripLeft(s);
    } else {
      StripRightSpaces(StripLeft(s), b);
    }
  }

  /** Case mapping leaves whitespace where it is. */
  lemma SpaceLower(c: char)
    ensures IsSpace(LowerChar(c)) <==> IsSpace(c)
  {
  }

  /** Lower-casing and stripping commute: whitespace has no case. */
  lemma StripLower(s: string)
    ensures Strip(Lower(s)) == Lower(Strip(s))
  {
    StripLeftLower(s);
    StripRightLower(StripLeft(s));
  }

  lemma StripLeftLower(s: string)
    ensures StripLeft(Lower(s)) == Lower(StripLeft(s))
  {
    var n := SpaceRunEnd(s, 0);
    assert LeadingRunOf(Lower(s), n) by {
      LowerSpaces(s);
    }
    LeadingRun(Lower(s), n);
    LowerSlices(s, n);
  }

  lemma StripRightLower(s: string)
    ensures StripRight(Lower(s)) == Lower(StripRight(s))
  {
    var n := SpaceRunStart(s, |s|);
    assert TrailingRunOf(Lower(s), n) by {
      LowerSpaces(s);
    }
    TrailingRun(Lower(s), n);
    LowerSlices(s, n);
  }

  lemma LowerSpaces(s: string)
    ensures forall k | 0 <= k < |s| :: IsSpace(Lower(s)[k]) <==> IsSpace(s[k])
  {
    forall k | 0 <= k < |s| ensures IsSpace(Lower(s)[k]) <==> IsSpace(s[k]) {
      SpaceLower(s[k]);
    }
  }

  lemma LowerSlices(s: string, n: nat)
    requires n <= |s|
    ensures Lower(s)[..n] == Lower(s[..n]) && Lower(s)[n..] == Lower(s[n..])
  {
  }

  /** Python's `str.capitalize()`: first character upper case, the rest lower case. */
  function Capitalize(s: string): (r: string)
    ensures |r| == |s| && Lower(r) == Lower(s)
    ensures r != [] ==> r[0] == UpperChar(s[0])
    ensures forall i | 1 <= i < |r| :: !IsUpper(r[i])
  {
    if s == [] then [] else [UpperChar(s[0])] + Lower(s[1..])
  }

  /** Capitalizing depends only on the letters, not on their case. */
  lemma CapitalizeLower(s: string)
    ensures Capitalize(Lower(s)) == Capitalize(s)
  {
    if s != [] {
      LowerUpperChar(s[0]);
      assert UpperChar(LowerChar(s[0])) == UpperChar(s[0]);
      assert Lower(s)[1..] == Lower(s[1..]);
      assert Lower(Lower(s[1..])) == Lower(s[1..]);
    }
  }

  /** Two strings capitalize alike exactly when they agree up to case. */
  lemma CapitalizeSameIff(a: string, b: string)
    ensures Capitalize(a) == Capitalize(b) <==> Lower(a) == Lower(b)
  {
    if Lower(a) == Lower(b) {
      CapitalizeLower(a);
      CapitalizeLower(b);
    }
  }

  /** Capitalizing keeps whitespace where it was. */
  lemma CapitalizeSpaces(s: string)
    ensures (Capitalize(s) == [] || !IsSpace(Capitalize(s)[0])) <==> (s == [] || !IsSpace(s[0]))
    ensures (Capitalize(s) == [] || !IsSpace(Capitalize(s)[|s| - 1])) <==> (s == [] || !IsSpace(s[|s| - 1]))
  {
    if s != [] {
      assert Lower(Capitalize(s))[|s| - 1] == Lower(s)[|s| - 1];
      assert Lower(Capitalize(s))[0] == Lower(s)[0];
    }
  }

  lemma CapitalizeIdempotent(s: string)
    ensures Capitalize(Capitalize(s)) == Capitalize(s)
  {
    CapitalizeSameIff(Capitalize(s), s);
  }

  /** The body of Python's `str.title()`: `afterLetter` tells whether the previous character was a letter. */
  function TitleFrom(s: string, afterLetter: bool): (r: string)
    ensures |r| == |s| && Lower(r) == Lower(s)
    ensures forall i | 0 <= i < |s| ::
      r[i] == if (if i == 0 then afterLetter else IsAlpha(s[i - 1])) then LowerChar(s[i]) else UpperChar(s[i])
  {
    if s == [] then []
    else
      var c := if afterLetter then LowerChar(s[0]) else UpperChar(s[0]);
      LowerUpperChar(s[0]);
      [c] + TitleFrom(s[1..], IsAlpha(s[0]))
  }

  /** Python's `str.title()`: every letter that starts a run of letters upper case, every other letter lower case. */
  function Title(s: string): (r: string)
    ensures |r| == |s| && Lower(r) == Lower(s)
    ensures forall i | 0 <= i < |s| && IsAlpha(s[i]) ::
      IsUpper(r[i]) <==> (i == 0 || !IsAlpha(s[i - 1]))
  {
    TitleFrom(s, false)
  }

  /** On a single word of letters, `title()` and `capitalize()` agree. */
  lemma TitleOneWord(s: string)
    requires AllAlpha(s)
    ensures Title(s) == Capitalize(s)
  {
    var t, c := Title(s), Capitalize(s);
    assert t == TitleFrom(s, false);
    forall i | 0 <= i < |s| ensures t[i] == c[i] {
      if i > 0 {
        assert IsAlpha(s[i - 1]);
        assert t[i] == LowerChar(s[i]);
        assert c[i] == Lower(s[1..])[i - 1] == LowerChar(s[1..][i - 1]);
      }
    }
  }

  /** Python's `s[:n]`. */
  function Take(s: string, n: nat): (r: string)
    ensures |r| == if |s| <= n then |s| else n
    ensures r == s[..|r|]
  {
    if |s| <= n then s else s[..n]
  }

  /** Index of the first `c` in `s` at or after `i`, or -1. */
  function IndexFrom(s: string, c: char, i: nat): (n: int)
    requires i <= |s|
    ensures n == -1 || i <= n < |s|
    ensures n >= 0 ==> s[n] == c
    ensures forall k | i <= k < (if n < 0 then |s| else n) :: s[k] != c
    decreases |s| - i
  {
    if i == |s| then -1 else if s[i] == c then i else IndexFrom(s, c, i + 1)
  }

  /** Index of the first `c` in `s`, or -1 (Python's `str.find`). */
  function IndexOf(s: string, c: char): (i: int)
    ensures -1 <= i < |s|
    ensures i >= 0 ==> s[i] == c
    ensures forall k | 0 <= k < (if i < 0 then |s| else i) :: s[k] != c
  {
    IndexFrom(s, c, 0)
  }

  /** Index of the last `c` in `s`, or -1 (Python's `str.rfind`). */
  function LastIndexOf(s: string, c: char): (i: int)
    ensures -1 <= i < |s|
    ensures i >= 0 ==> s[i] == c && c !in s[i + 1..]
    ensures i < 0 ==> c !in s
  {
    if s == [] then -1
    else if s[|s| - 1] == c then |s| - 1
    else LastIndexOf(s[..|s| - 1], c)
  }

  /** Python's `sep.join(parts)` for a one-character separator. */
  function Join(parts: seq<string>, sep: char): string
  {
    if parts == [] then []
    else if |parts| == 1 then parts[0]
    else parts[0] + [sep] + Join(parts[1..], sep)
  }

  /** Python's `s.split(sep)` for a one-character separator. */
  function Split(s: string, sep: char): (parts: seq<string>)
    ensures |parts| >= 1
    ensures forall k | 0 <= k < |parts| :: sep !in parts[k]
    decreases |s|
  {
    var i := IndexOf(s, sep);
    if i < 0 then [s]
    else
      assert sep !in s[..i] by {
        assert forall k | 0 <= k < i :: s[..i][k] == s[k];
      }
      var rest := Split(s[i + 1..], sep);
      assert forall k | 1 <= k < |rest| + 1 :: ([s[..i]] + rest)[k] == rest[k - 1];
      [s[..i]] + rest
  }

  /** Splitting and joining on the same separator gives the string back. */
  lemma {:induction false} JoinSplit(s: string, sep: char)
    ensures Join(Split(s, sep), sep) == s
    decreases |s|
  {
    var i := IndexOf(s, sep);
    if i >= 0 {
      var a, rest := s[..i], s[i + 1..];
      var tail := Split(rest, sep);
      assert Split(s, sep) == [a] + tail;
      JoinSplit(rest, sep);
      JoinCons(a, tail, sep);
      Unsplit(s, i);
    }
  }

  lemma JoinCons(a: string, tail: seq<string>, sep: char)
    requires |tail| >= 1
    ensures Join([a] + tail, sep) == a + [sep] + Join(tail, sep)
  {
    assert ([a] + tail)[1..] == tail;
  }

  lemma Unsplit(s: string, i: nat)
    requires i < |s|
    ensures s == s[..i] + [s[i]] + s[i + 1..]
  {
  }

  /** Joining parts free of the separator and splitting again gives the parts back. */
  lemma {:induction false} SplitJoin(parts: seq<string>, sep: char)
    requires |parts| >= 1
    requires forall k | 0 <= k < |parts| :: sep !in parts[k]
    ensures Split(Join(parts, sep), sep) == parts
    decreases |parts|
  {
    if |parts| > 1 {
      SplitJoin(parts[1..], sep);
      SplitCons(parts[0], sep, Join(parts[1..], sep));
      assert parts == [parts[0]] + parts[1..];
    } else {
      SplitAbsent(parts[0], sep);
    }
  }

  lemma SplitCons(a: string, sep: char, rest: string)
    requires sep !in a
    ensures Split(a + [sep] + rest, sep) == [a] + Split(rest, sep)
  {
    var s := a + [sep] + rest;
    IndexOfAfter(a, sep, rest);
    assert s[..|a|] == a;
    assert s[|a| + 1..] == rest;
  }

  lemma IndexOfAfter(a: string, c: char, b: string)
    requires c !in a
    ensures IndexOf(a + [c] + b, c) == |a|
  {
    var t := a + [c] + b;
    var n := IndexFrom(t, c, 0);
    assert t[|a|] == c;
    assert forall k | 0 <= k < |a| :: t[k] == a[k];
  }

  /** A string without the separator splits into itself alone. */
  lemma SplitAbsent(s: string, sep: char)
    requires sep !in s
    ensures Split(s, sep) == [s]
  {
    assert forall k | 0 <= k < |s| :: s[k] != sep;
  }

  /** Python's `s.split(sep, 1)`: the text before the first separator and, if there is one, the text after it. */
  function SplitOnce(s: string, sep: char): (r: (string, Option<string>))
    ensures sep !in r.0
    ensures r.1.None? ==> r.0 == s
    ensures r.1.Some? ==> s == r.0 + [sep] + r.1.value
  {
    var i := IndexOf(s, sep);
    if i < 0 then (s, None) else (s[..i], Some(s[i + 1..]))
  }

  /** Python's `s.rsplit(sep, 1)` when `sep` occurs: the text before and after the last separator. */
  function SplitLast(s: string, sep: char): (r: (string, string))
    requires sep in s
    ensures sep !in r.1
    ensures s == r.0 + [sep] + r.1
  {
    var i := LastIndexOf(s, sep);
    (s[..i], s[i + 1..])
  }

  /** Index of the first whitespace character of `s`, or -1. */
  function IndexOfSpace(s: string): (i: int)
    ensures -1 <= i < |s|
    ensures i >= 0 ==> IsSpace(s[i]) && NoSpace(s[..i])
    ensures i < 0 ==> NoSpace(s)
  {
    if s == [] then -1
    else if IsSpace(s[0]) then 0
    else
      var j := IndexOfSpace(s[1..]);
      assert s[1..][..if j < 0 then 0 else j] == s[1..if j < 0 then 1 else j + 1];
      if j < 0 then -1 else j + 1
  }

  predicate NoSpace(s: string) { forall i | 0 <= i < |s| :: !IsSpace(s[i]) }

  /** Python's `s.split()` without arguments: the maximal runs of non-whitespace characters. */
  function Words(s: string): (w: seq<string>)
    ensures forall k | 0 <= k < |w| :: w[k] != [] && NoSpace(w[k])
    decreases |s|
  {
    var t := StripLeft(s);
    if t == [] then []
    else
      var i := IndexOfSpace(t);
      if i < 0 then [t]
      else
        var word, tail := t[..i], t[i..];
        assert |tail| < |s|;
        [word] + Words(tail)
  }

  /** Python's `" ".join(words)`. */
  function JoinWords(w: seq<string>): string
  {
    Join(w, ' ')
  }

  /** Python's `s.replace(pat, rep)`: every non-overlapping occurrence, scanning left to right. */
  function ReplaceAll(s: string, pat: string, rep: string): (r: string)
    requires pat != []
    ensures pat[0] !in s ==> r == s
    decreases |s|
  {
    if |s| < |pat| then s
    else if s[..|pat|] == pat then rep + ReplaceAll(s[|pat|..], pat, rep)
    else [s[0]] + ReplaceAll(s[1..], pat, rep)
  }

  /** Python's `s.replace(c, "")` for a one-character `c`: every occurrence of `c` removed. */
  function RemoveAll(s: string, c: char): string
    decreases |s|
  {
    if s == [] then [] else (if s[0] == c then [] else [s[0]]) + RemoveAll(s[1..], c)
  }

  /** Removing a character is replacing its one-character text by nothing. */
  lemma {:induction false} RemoveAllIsReplace(s: string, c: char)
    ensures RemoveAll(s, c) == ReplaceAll(s, [c], [])
    decreases |s|
  {
    if s != [] {
      RemoveAllIsReplace(s[1..], c);
      assert s[..1] == [s[0]];
    }
  }

  /** A text without the character is left as it is. */
  lemma {:induction false} RemoveAbsent(s: string, c: char)
    requires c !in s
    ensures RemoveAll(s, c) == s
    decreases |s|
  {
    if s != [] {
      assert c !in s[1..];
      RemoveAbsent(s[1..], c);
      assert s == [s[0]] + s[1..];
    }
  }

  /** Removing every occurrence of a character leaves no occurrence of it. */
  lemma {:induction false} RemoveChar(s: string, c: char)
    ensures c !in ReplaceAll(s, [c], [])
    decreases |s|
  {
    if |s| >= 1 {
      RemoveChar(s[1..], c);
    }
  }

  /** Keeps the characters of `s` that satisfy `keep`, in order. */
  function Filter(s: string, keep: char -> bool): (r: string)
    ensures |r| <= |s|
    ensures forall i | 0 <= i < |r| :: keep(r[i])
    ensures forall i | 0 <= i < |r| :: r[i] in s
  {
    if s == [] then []
    else (if keep(s[0]) then [s[0]] else []) + Filter(s[1..], keep)
  }

  lemma {:induction false} FilterConcat(a: string, b: string, keep: char -> bool)
    ensures Filter(a + b, keep) == Filter(a, keep) + Filter(b, keep)
    decreases |a|
  {
    if a != [] {
      assert (a + b)[1..] == a[1..] + b;
      FilterConcat(a[1..], b, keep);
    } else {
      assert a + b == b;
    }
  }

  lemma {:induction false} FilterDropsAll(s: string, keep: char -> bool)
    requires forall i | 0 <= i < |s| :: !keep(s[i])
    ensures Filter(s, keep) == []
    decreases |s|
  {
    if s != [] {
      FilterDropsAll(s[1..], keep);
    }
  }

  lemma {:induction false} FilterKeepsAll(s: string, keep: char -> bool)
    requires forall i | 0 <= i < |s| :: keep(s[i])
    ensures Filter(s, keep) == s
    decreases |s|
  {
    if s != [] {
      FilterKeepsAll(s[1..], keep);
    }
  }

  /** A prefix holding no first character of the pattern is copied as it stands. */
  lemma {:induction false} ReplaceAfterPrefix(p: string, s: string, pat: string, rep: string)
    requires pat != [] && forall k | 0 <= k < |p| :: p[k] != pat[0]
    ensures ReplaceAll(p + s, pat, rep) == p + ReplaceAll(s, pat, rep)
    decreases |p|
  {
    if p == [] {
      assert p + s == s;
    } else {
      ReplaceSkip(p, s, pat, rep);
      ReplaceAfterPrefix(p[1..], s, pat, rep);
      Recons(p, ReplaceAll(s, pat, rep));
    }
  }

  /** The first character of `p + s` is kept when the pattern cannot start there. */
  lemma ReplaceSkip(p: string, s: string, pat: string, rep: string)
    requires pat != [] && p != [] && p[0] != pat[0]
    ensures ReplaceAll(p + s, pat, rep) == [p[0]] + ReplaceAll(p[1..] + s, pat, rep)
  {
    var t := p + s;
    assert t[1..] == p[1..] + s;
    if |t| >= |pat| {
      assert t[..|pat|][0] == p[0];
    } else {
      assert t == [p[0]] + (p[1..] + s);
    }
  }

  lemma Recons(p: string, r: string)
    requires p != []
    ensures [p[0]] + (p[1..] + r) == p + r
  {
  }

  lemma ReplaceWhole(pat: string, rep: string)
    requires pat != []
    ensures ReplaceAll(pat, pat, rep) == rep
  {
    assert pat[..|pat|] == pat;
    assert pat[|pat|..] == [];
    assert rep + [] == rep;
  }

  /** Splitting once at the first separator, when the text before it has none. */
  lemma SplitOnceCons(a: string, sep: char, rest: string)
    requires sep !in a
    ensures SplitOnce(a + [sep] + rest, sep) == (a, Some(rest))
  {
    var s := a + [sep] + rest;
    IndexOfAfter(a, sep, rest);
    assert s[..|a|] == a;
    assert s[|a| + 1..] == rest;
  }

  /** Splitting once at the last separator, when the text after it has none. */
  lemma SplitLastCons(a: string, sep: char, b: string)
    requires sep !in b
    ensures SplitLast(a + [sep] + b, sep) == (a, b)
  {
    var s := a + [sep] + b;
    assert s[|a|] == sep;
    var i := LastIndexOf(s, sep);
    assert s[..|a|] == a;
    assert s[|a| + 1..] == b;
  }
}
