/** The JavaScript string built-ins the script relies on: `toLowerCase`, `replace`
    with a one-character string pattern, `trim`, `replace` with the regular
    expression `/(\s+)/`, and `Array.prototype.join`. Each is related to an
    independent description of its result, by its own contract or by the lemmas
    next to it. */
module Text {
  import opened Wrappers

  /** The characters ECMAScript counts as white space in both `String.prototype.trim`
      and the `\s` class: the WhiteSpace set (TAB, VT, FF, ZWNBSP and every Zs space
      separator) together with the LineTerminator set (LF, CR, LS, PS). */
  predicate IsWhitespace(c: char) {
    var n := c as int;
    n == 0x09 || n == 0x0A || n == 0x0B || n == 0x0C || n == 0x0D || n == 0x20 ||
    n == 0xA0 || n == 0x1680 || (0x2000 <= n <= 0x200A) || n == 0x2028 ||
    n == 0x2029 || n == 0x202F || n == 0x205F || n == 0x3000 || n == 0xFEFF
  }

  predicate NoWhitespace(s: string) {
    forall i :: 0 <= i < |s| ==> !IsWhitespace(s[i])
  }

  /** Neither end of `s` is white space. */
  predicate IsTrimmed(s: string) {
    s == [] || (!IsWhitespace(s[0]) && !IsWhitespace(s[|s| - 1]))
  }

  // ---------------------------------------------------------------- lower case

  /** `toLowerCase` on one character, over the ASCII letters only. */
  function LowerChar(c: char): char {
    if 'A' <= c <= 'Z' then (c as int + 32) as char else c
  }

  /** `String.prototype.toLowerCase`, ASCII letters only. */
  function Lower(s: string): string {
    seq(|s|, i requires 0 <= i < |s| => LowerChar(s[i]))
  }

  /** The lowered string holds no upper-case letter, and only the upper-case letters
      of the input changed. */
  lemma LowerChangesOnlyCapitals(s: string)
    ensures forall i :: 0 <= i < |s| ==> !('A' <= Lower(s)[i] <= 'Z')
    ensures forall i :: 0 <= i < |s| ==> (Lower(s)[i] == s[i] <==> !('A' <= s[i] <= 'Z'))
  {
  }

  /** Lowering twice is lowering once. */
  lemma LowerIdempotent(s: string)
    ensures Lower(Lower(s)) == Lower(s)
  {
    var once := Lower(s);
    assert forall i :: 0 <= i < |s| ==> Lower(once)[i] == once[i];
  }

  // ------------------------------------------------- replace first occurrence

  /** Index of the first occurrence of `c` in `s` (`indexOf`), if any. */
  function FirstIndex(s: string, c: char): (r: Option<nat>)
    ensures r.None? <==> c !in s
    ensures r.Some? ==> r.value < |s| && s[r.value] == c && c !in s[..r.value]
  {
    if s == [] then None
    else if s[0] == c then Some(0)
    else match FirstIndex(s[1..], c)
      case None => None
      case Some(k) => assert s[..k + 1] == [s[0]] + s[1..][..k]; Some(k + 1)
  }

  /** `s.replace(pattern, replacement)` for one-character string arguments: only the
      first occurrence of `pattern` is replaced. */
  function ReplaceFirst(s: string, pattern: char, replacement: char): string {
    var first := FirstIndex(s, pattern);
    if first.Some? then s[first.value := replacement] else s
  }

  /** The contract of `FirstIndex` determines it: an occurrence with none before it
      is the first. */
  lemma FirstIndexAt(s: string, c: char, k: nat)
    requires k < |s| && s[k] == c && c !in s[..k]
    ensures FirstIndex(s, c) == Some(k)
  {
  }

  /** When the pattern occurs in `a`, replacing in `a + b` leaves `b` alone. */
  lemma ReplaceFirstInPrefix(a: string, b: string, pattern: char, replacement: char)
    requires pattern in a
    ensures ReplaceFirst(a + b, pattern, replacement) == ReplaceFirst(a, pattern, replacement) + b
  {
    var k := FirstIndex(a, pattern).value;
    assert (a + b)[..k] == a[..k];
    FirstIndexAt(a + b, pattern, k);
    assert (a + b)[k := replacement] == a[k := replacement] + b;
  }

  /** The pattern's first occurrence is the one after a prefix free of it: only that
      occurrence is replaced, whatever follows. */
  lemma ReplaceFirstAfter(a: string, b: string, pattern: char, replacement: char)
    requires pattern !in a
    ensures ReplaceFirst(a + [pattern] + b, pattern, replacement) == a + [replacement] + b
  {
    var s := a + [pattern] + b;
    assert s[..|a|] == a;
    FirstIndexAt(s, pattern, |a|);
    assert s[|a| := replacement] == a + [replacement] + b;
  }

  /** `ReplaceFirst` keeps the length and changes at most one position: the first
      occurrence of the pattern, which becomes the replacement. */
  lemma ReplaceFirstChangesOnePosition(s: string, pattern: char, replacement: char)
    ensures |ReplaceFirst(s, pattern, replacement)| == |s|
    ensures FirstIndex(s, pattern).Some? ==>
      ReplaceFirst(s, pattern, replacement)[FirstIndex(s, pattern).value] == replacement
    ensures forall i :: 0 <= i < |s| && ReplaceFirst(s, pattern, replacement)[i] != s[i] ==>
      FirstIndex(s, pattern) == Some(i) && s[i] == pattern &&
      ReplaceFirst(s, pattern, replacement)[i] == replacement
    ensures pattern !in s ==> ReplaceFirst(s, pattern, replacement) == s
  {
  }

  // --------------------------------------------------------------------- trim

  /** Drops the white space at the front of `s`. */
  function TrimStart(s: string): (r: string)
    ensures |r| <= |s| && r == s[|s| - |r|..]
    ensures forall i :: 0 <= i < |s| - |r| ==> IsWhitespace(s[i])
    ensures r == [] || !IsWhitespace(r[0])
  {
    if s != [] && IsWhitespace(s[0]) then TrimStart(s[1..]) else s
  }

  /** Drops the white space at the back of `s`. */
  function TrimEnd(s: string): (r: string)
    ensures |r| <= |s| && r == s[..|r|]
    ensures forall i :: |r| <= i < |s| ==> IsWhitespace(s[i])
    ensures r == [] || !IsWhitespace(r[|r| - 1])
  {
    if s != [] && IsWhitespace(s[|s| - 1]) then TrimEnd(s[..|s| - 1]) else s
  }

  /** `String.prototype.trim`: the result is the slice of `s` left once the white
      space at both ends is removed, and a trimmed string is left as it is. */
  function Trim(s: string): (r: string)
    ensures IsTrimmed(r)
    ensures exists a :: StripsTo(s, r, a)
    ensures IsTrimmed(s) ==> r == s
  {
    var front := TrimStart(s);
    var both := TrimEnd(front);
    assert StripsTo(s, both, |s| - |front|);
    both
  }

  /** `r` is the slice of `s` from `a` on, and everything of `s` outside it is
      white space. */
  predicate StripsTo(s: string, r: string, a: nat) {
    a + |r| <= |s| && r == s[a..a + |r|] &&
    (forall i :: 0 <= i < a ==> IsWhitespace(s[i])) &&
    (forall i :: a + |r| <= i < |s| ==> IsWhitespace(s[i]))
  }

  /** Trimming twice is trimming once. */
  lemma TrimIdempotent(s: string)
    ensures Trim(Trim(s)) == Trim(s)
  {
  }

  // ---------------------------------------------- replace first white-space run

  /** Index of the first white-space character of `s`, if any. */
  function FindWhitespace(s: string): (r: Option<nat>)
    ensures r.None? <==> NoWhitespace(s)
    ensures r.Some? ==> r.value < |s| && IsWhitespace(s[r.value]) && NoWhitespace(s[..r.value])
  {
    if s == [] then None
    else if IsWhitespace(s[0]) then Some(0)
    else match FindWhitespace(s[1..])
      case None => None
      case Some(k) => assert s[..k + 1] == [s[0]] + s[1..][..k]; Some(k + 1)
  }

  /** The contract of `FindWhitespace` determines it: a white-space character with
      none before it is the first. */
  lemma FindWhitespaceAt(s: string, i: nat)
    requires i < |s| && IsWhitespace(s[i]) && NoWhitespace(s[..i])
    ensures FindWhitespace(s) == Some(i)
  {
  }

  /** The end of the maximal white-space run that starts at `i` (`i` itself when
      `s[i]` is not white space). */
  function RunEnd(s: string, i: nat): (j: nat)
    requires i <= |s|
    ensures i <= j <= |s|
    ensures forall k :: i <= k < j ==> IsWhitespace(s[k])
    ensures j == |s| || !IsWhitespace(s[j])
    decreases |s| - i
  {
    if i < |s| && IsWhitespace(s[i]) then RunEnd(s, i + 1) else i
  }

  /** Dropping the first character of `s` shifts every run end down by one. */
  lemma {:induction false} RunEndShift(s: string, i: nat)
    requires 0 < |s| && i < |s|
    ensures RunEnd(s, i + 1) == RunEnd(s[1..], i) + 1
    decreases |s| - i
  {
    if i + 1 < |s| && IsWhitespace(s[i + 1]) {
      RunEndShift(s, i + 1);
    }
  }

  /** `s.replace(/(\s+)/, replacement)`: the leftmost maximal run of white space is
      replaced by `replacement` and nothing else changes; a string without white
      space is returned as it is. */
  function ReplaceFirstWhitespaceRun(s: string, replacement: string): (r: string)
    ensures match FindWhitespace(s)
      case None => r == s
      case Some(i) => r == s[..i] + replacement + s[RunEnd(s, i)..]
  {
    if s == [] then []
    else if IsWhitespace(s[0]) then replacement + s[RunEnd(s, 0)..]
    else
      var rest := ReplaceFirstWhitespaceRun(s[1..], replacement);
      match FindWhitespace(s[1..])
      case None =>
        assert FindWhitespace(s) == None;
        [s[0]] + rest
      case Some(k) =>
        ReplaceRunStep(s, replacement, k);
        [s[0]] + rest
  }

  /** The step of `ReplaceFirstWhitespaceRun` past a first character that is not
      white space, when the rest holds white space from `k` on. */
  lemma ReplaceRunStep(s: string, replacement: string, k: nat)
    requires s != [] && !IsWhitespace(s[0])
    requires FindWhitespace(s[1..]) == Some(k)
    ensures FindWhitespace(s) == Some(k + 1)
    ensures [s[0]] + (s[1..][..k] + replacement + s[1..][RunEnd(s[1..], k)..]) ==
      s[..k + 1] + replacement + s[RunEnd(s, k + 1)..]
  {
    var j := RunEnd(s[1..], k);
    RunEndShift(s, k);
    assert s[..k + 1] == [s[0]] + s[1..][..k];
    assert s[j + 1..] == s[1..][j..];
  }

  /** Replacing the first run by a white-space-free text keeps a trimmed string
      trimmed. */
  lemma ReplaceRunKeepsTrimmed(s: string, replacement: string)
    requires IsTrimmed(s)
    requires replacement != [] && NoWhitespace(replacement)
    ensures IsTrimmed(ReplaceFirstWhitespaceRun(s, replacement))
  {
    var r := ReplaceFirstWhitespaceRun(s, replacement);
    match FindWhitespace(s)
    case None =>
    case Some(i) =>
      var j := RunEnd(s, i);
      assert IsWhitespace(s[j - 1]);
      assert j < |s|;
      assert i != 0;
      assert r[|r| - 1] == s[|s| - 1];
      assert r[0] == s[0];
  }

  /** The number of maximal white-space runs in `s`. */
  function WhitespaceRuns(s: string): nat
    decreases |s|
  {
    if s == [] then 0
    else if IsWhitespace(s[0]) then 1 + WhitespaceRuns(s[RunEnd(s, 0)..])
    else WhitespaceRuns(s[1..])
  }

  /** A string has no white-space run exactly when it has no white space. */
  lemma {:induction false} NoRunsMeansNoWhitespace(s: string)
    ensures WhitespaceRuns(s) == 0 <==> NoWhitespace(s)
    decreases |s|
  {
    if s != [] && !IsWhitespace(s[0]) {
      NoRunsMeansNoWhitespace(s[1..]);
      assert NoWhitespace(s) <==> NoWhitespace(s[1..]) by {
        assert forall i :: 0 < i < |s| ==> s[i] == s[1..][i - 1];
      }
    }
  }

  /** With at most one white-space run, replacing the first run by a white-space-free
      text leaves no white space at all. */
  lemma {:induction false} SingleRunReplacedLeavesNoWhitespace(s: string, replacement: string)
    requires WhitespaceRuns(s) <= 1
    requires NoWhitespace(replacement)
    ensures NoWhitespace(ReplaceFirstWhitespaceRun(s, replacement))
    decreases |s|
  {
    if s == [] {
    } else if IsWhitespace(s[0]) {
      var rest := s[RunEnd(s, 0)..];
      NoRunsMeansNoWhitespace(rest);
      assert ReplaceFirstWhitespaceRun(s, replacement) == replacement + rest;
    } else {
      SingleRunReplacedLeavesNoWhitespace(s[1..], replacement);
      assert ReplaceFirstWhitespaceRun(s, replacement) ==
        [s[0]] + ReplaceFirstWhitespaceRun(s[1..], replacement);
    }
  }

  // --------------------------------------------------------------------- join

  /** `Array.prototype.join(sep)` over strings. */
  function Join(sep: string, xs: seq<string>): string {
    if |xs| == 0 then ""
    else if |xs| == 1 then xs[0]
    else xs[0] + sep + Join(sep, xs[1..])
  }

  /** The number of occurrences of `c` in `s`. */
  function Count(s: string, c: char): nat {
    if s == [] then 0 else (if s[0] == c then 1 else 0) + Count(s[1..], c)
  }

  /** The number of occurrences of `c` in all of `xs`. */
  function CountAll(xs: seq<string>, c: char): nat {
    if xs == [] then 0 else Count(xs[0], c) + CountAll(xs[1..], c)
  }

  lemma {:induction false} CountAppend(a: string, b: string, c: char)
    ensures Count(a + b, c) == Count(a, c) + Count(b, c)
    decreases |a|
  {
    if a != [] {
      assert (a + b)[1..] == a[1..] + b;
      CountAppend(a[1..], b, c);
    } else {
      assert a + b == b;
    }
  }

  /** Joining with a one-character separator adds exactly one separator between
      neighbouring elements, beside those the elements already hold. */
  lemma {:induction false} JoinCount(sep: char, xs: seq<string>)
    requires |xs| >= 1
    ensures Count(Join([sep], xs), sep) == |xs| - 1 + CountAll(xs, sep)
    decreases |xs|
  {
    if |xs| > 1 {
      JoinCount(sep, xs[1..]);
      CountAppend(xs[0] + [sep], Join([sep], xs[1..]), sep);
      CountAppend(xs[0], [sep], sep);
      assert Count([sep], sep) == 1;
    } else {
      assert xs[1..] == [];
      assert CountAll(xs, sep) == Count(xs[0], sep) + CountAll(xs[1..], sep);
    }
  }

  /** `s.split(sep)`, the inverse of joining with a one-character separator. */
  function Split(s: string, sep: char): (r: seq<string>)
    ensures |r| >= 1
    ensures forall k :: 0 <= k < |r| ==> sep !in r[k]
    decreases |s|
  {
    match FirstIndex(s, sep)
    case None => [s]
    case Some(k) => [s[..k]] + Split(s[k + 1..], sep)
  }

  /** Splitting a join gives the elements back when none of them holds the separator. */
  lemma {:induction false} SplitJoin(sep: char, xs: seq<string>)
    requires |xs| >= 1
    requires forall k :: 0 <= k < |xs| ==> sep !in xs[k]
    ensures Split(Join([sep], xs), sep) == xs
    decreases |xs|
  {
    if |xs| > 1 {
      var head, tail := xs[0], Join([sep], xs[1..]);
      var s := head + [sep] + tail;
      assert Join([sep], xs) == s;
      FirstIndexAfterHead(head, sep, tail);
      assert s[..|head|] == head;
      assert s[|head| + 1..] == tail;
      SplitJoin(sep, xs[1..]);
    }
  }

  lemma FirstIndexAfterHead(head: string, sep: char, tail: string)
    requires sep !in head
    ensures FirstIndex(head + [sep] + tail, sep) == Some(|head|)
  {
    var s := head + [sep] + tail;
    var r := FirstIndex(s, sep);
    assert forall k :: 0 <= k < |head| ==> s[k] == head[k];
    assert s[|head|] == sep;
    assert r.Some?;
  }
}
