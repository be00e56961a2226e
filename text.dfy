/** Character classes and string operations of Python and JavaScript, as the
    backend and the add-in use them. Only ASCII is modelled: Python's `\s`,
    `\d`, `\w`, `str.isspace()` and JavaScript's `\s` also accept non-ASCII
    characters, and Python's `splitlines()` also breaks at '\r', '\x0b',
    '\x0c', '\x1c'-'\x1e', '\x85', U+2028 and U+2029. */
module Text {

  /** ASCII characters for which Python's `str.isspace()` holds: what `\s`
      matches and what `str.strip()` removes. */
  predicate IsPySpace(c: char) {
    c == ' ' || ('\t' <= c <= '\r') || ('\U{1C}' <= c <= '\U{1F}')
  }

  /** ASCII characters that JavaScript's `trim()` removes and its `\s` matches. */
  predicate IsJsSpace(c: char) {
    c == ' ' || ('\t' <= c <= '\r')
  }

  predicate IsDigit(c: char) { '0' <= c <= '9' }

  predicate IsAsciiLetter(c: char) { 'a' <= c <= 'z' || 'A' <= c <= 'Z' }

  /** The regex class `[a-zA-Z0-9]`. */
  predicate IsAsciiAlnum(c: char) { IsDigit(c) || IsAsciiLetter(c) }

  /** ASCII `\w`. */
  predicate IsWordChar(c: char) { IsAsciiAlnum(c) || c == '_' }

  predicate IsUpperAscii(c: char) { 'A' <= c <= 'Z' }

  predicate IsLowerAscii(c: char) { 'a' <= c <= 'z' }

  /** ASCII lower-casing: only 'A'..'Z' change, and nothing upper-case is
      left. */
  function ToLower(c: char): (d: char)
    ensures d != c <==> IsUpperAscii(c)
    ensures !IsUpperAscii(d)
    ensures IsWordChar(d) <==> IsWordChar(c)
  {
    if 'A' <= c <= 'Z' then (c as int + 32) as char else c
  }

  /** ASCII upper-casing: only 'a'..'z' change, nothing lower-case is left,
      and the character keeps its lower-case form. */
  function ToUpper(c: char): (d: char)
    ensures d != c <==> IsLowerAscii(c)
    ensures !IsLowerAscii(d)
    ensures ToLower(d) == ToLower(c)
  {
    if 'a' <= c <= 'z' then (c as int - 32) as char else c
  }

  /** `str.lower()` / `toLowerCase()` on ASCII. */
  function LowerAll(s: string): (r: string)
    ensures |r| == |s| && forall k :: 0 <= k < |s| ==> r[k] == ToLower(s[k])
  {
    seq(|s|, k requires 0 <= k < |s| => ToLower(s[k]))
  }

  /** `toUpperCase()` on ASCII. */
  function UpperAll(s: string): (r: string)
    ensures |r| == |s| && forall k :: 0 <= k < |s| ==> r[k] == ToUpper(s[k])
  {
    seq(|s|, k requires 0 <= k < |s| => ToUpper(s[k]))
  }

  /** Lower-casing changes exactly the upper-case letters, one for one, and
      leaves none. */
  lemma LowerAllChanges(s: string)
    ensures |LowerAll(s)| == |s|
    ensures forall k :: 0 <= k < |s| ==> (LowerAll(s)[k] != s[k] <==> IsUpperAscii(s[k]))
    ensures forall k :: 0 <= k < |s| ==> !IsUpperAscii(LowerAll(s)[k])
    ensures LowerAll(s) == s <==> forall k :: 0 <= k < |s| ==> !IsUpperAscii(s[k])
  {
    if LowerAll(s) != s {
      var k :| 0 <= k < |s| && LowerAll(s)[k] != s[k];
      assert IsUpperAscii(s[k]);
    }
  }

  /** Upper-casing changes exactly the lower-case letters and leaves none. */
  lemma UpperAllChanges(s: string)
    ensures |UpperAll(s)| == |s|
    ensures forall k :: 0 <= k < |s| ==> (UpperAll(s)[k] != s[k] <==> IsLowerAscii(s[k]))
    ensures forall k :: 0 <= k < |s| ==> !IsLowerAscii(UpperAll(s)[k])
  {
  }

  /** Lower-casing twice is lower-casing once. */
  lemma LowerAllIdempotent(s: string)
    ensures LowerAll(LowerAll(s)) == LowerAll(s)
  {
    LowerAllChanges(LowerAll(s));
  }

  /** Upper-casing twice is upper-casing once. */
  lemma UpperAllIdempotent(s: string)
    ensures UpperAll(UpperAll(s)) == UpperAll(s)
  {
    assert forall k :: 0 <= k < |s| ==> UpperAll(UpperAll(s))[k] == UpperAll(s)[k];
  }

  /** Upper-casing first does not change the lower-cased form: texts that
      differ only in case have the same lower-cased form. */
  lemma LowerOfUpper(s: string)
    ensures LowerAll(UpperAll(s)) == LowerAll(s)
  {
    assert forall k :: 0 <= k < |s| ==> LowerAll(UpperAll(s))[k] == LowerAll(s)[k];
  }

  /** Every character of `s` is in the class `p`. */
  predicate All(s: string, p: char -> bool) {
    forall k :: 0 <= k < |s| ==> p(s[k])
  }

  /** A slice is all in `p` exactly when each of its positions is. */
  lemma AllSlice(s: string, i: nat, j: nat, p: char -> bool)
    requires i <= j <= |s|
    ensures All(s[i..j], p) <==> forall k :: i <= k < j ==> p(s[k])
  {
    if All(s[i..j], p) {
      forall k | i <= k < j ensures p(s[k]) {
        assert s[i..j][k - i] == s[k];
      }
    }
  }

  predicate StartsWith(s: string, prefix: string) {
    |prefix| <= |s| && s[..|prefix|] == prefix
  }

  predicate EndsWith(s: string, suffix: string) {
    |suffix| <= |s| && s[|s| - |suffix|..] == suffix
  }

  /** Neither end of `s` is in the class `ws`. */
  predicate Unpadded(s: string, ws: char -> bool) {
    s == [] || (!ws(s[0]) && !ws(s[|s| - 1]))
  }

  /** How many characters at the start of `s` are in the class `ws`. */
  function LeadingCount(s: string, ws: char -> bool): (k: nat)
    ensures k <= |s|
    ensures forall i :: 0 <= i < k ==> ws(s[i])
    ensures k < |s| ==> !ws(s[k])
  {
    if |s| > 0 && ws(s[0]) then 1 + LeadingCount(s[1..], ws) else 0
  }

  /** The length of `s` without its trailing characters in the class `ws`. */
  function TrailingStart(s: string, ws: char -> bool): (k: nat)
    ensures k <= |s|
    ensures forall i :: k <= i < |s| ==> ws(s[i])
    ensures k > 0 ==> !ws(s[k - 1])
  {
    if |s| > 0 && ws(s[|s| - 1]) then TrailingStart(s[..|s| - 1], ws) else |s|
  }

  /** Python's `str.strip()` (with `IsPySpace`) and JavaScript's `trim()`
      (with `IsJsSpace`): `s` without the longest prefix and the longest
      suffix of characters in `ws`. */
  function Strip(s: string, ws: char -> bool): (r: string)
    ensures |r| <= |s| && Unpadded(r, ws)
  {
    var i := LeadingCount(s, ws);
    var t := s[i..];
    t[..TrailingStart(t, ws)]
  }

  /** What `Strip` removes is padding on either side: the result is the
      slice of `s` after its leading padding, and what lies around it is all
      in `ws`; it removes everything exactly when all of `s` is padding. */
  lemma StripShape(s: string, ws: char -> bool)
    ensures Strip(s, ws) == [] <==> All(s, ws)
    ensures var i, r := LeadingCount(s, ws), Strip(s, ws);
            && i + |r| <= |s| && r == s[i..i + |r|]
            && All(s[..i], ws) && All(s[i + |r|..], ws)
  {
    var i := LeadingCount(s, ws);
    var t := s[i..];
    var r := t[..TrailingStart(t, ws)];
    assert r == Strip(s, ws);
    assert r == s[i..i + |r|];
    assert All(s[..i], ws);
    assert s[i + |r|..] == t[|r|..];
  }

  /** Stripping a string that has no padding changes nothing. */
  lemma StripUnpadded(s: string, ws: char -> bool)
    requires Unpadded(s, ws)
    ensures Strip(s, ws) == s
  {
    if s != [] {
      assert LeadingCount(s, ws) == 0;
      assert s[0..] == s;
    }
  }

  /** JavaScript's `s.split(sep)` for a one-character separator: the pieces
      of `s` between separators, in order. */
  function Split(s: string, sep: char): (parts: seq<string>)
    ensures |parts| >= 1
    ensures forall k :: 0 <= k < |parts| ==> sep !in parts[k]
  {
    if |s| == 0 then [""]
    else
      var rest := Split(s[1..], sep);
      if s[0] == sep then [""] + rest
      else [[s[0]] + rest[0]] + rest[1..]
  }

  /** `sep.join(parts)` (Python) and `parts.join(sep)` (JavaScript). */
  function Join(sep: string, parts: seq<string>): string {
    if |parts| == 0 then ""
    else if |parts| == 1 then parts[0]
    else parts[0] + sep + Join(sep, parts[1..])
  }

  lemma {:induction false} JoinConcat(sep: string, p: seq<string>, q: seq<string>)
    requires |p| > 0 && |q| > 0
    ensures Join(sep, p + q) == Join(sep, p) + sep + Join(sep, q)
  {
    if |p| == 1 {
      assert (p + q)[1..] == q;
    } else {
      assert (p + q)[1..] == p[1..] + q;
      JoinConcat(sep, p[1..], q);
    }
  }

  /** Joining the pieces with the separator rebuilds the string. */
  lemma {:induction false} JoinSplit(s: string, sep: char)
    ensures Join([sep], Split(s, sep)) == s
  {
    if |s| > 0 {
      var rest := Split(s[1..], sep);
      JoinSplit(s[1..], sep);
      if s[0] == sep {
        assert ([""] + rest)[1..] == rest;
      } else if |rest| > 1 {
        assert ([[s[0]] + rest[0]] + rest[1..])[1..] == rest[1..];
        assert Join([sep], rest) == rest[0] + [sep] + Join([sep], rest[1..]);
      }
    }
  }

  /** Splitting a joined list of separator-free pieces gives the pieces back. */
  lemma {:induction false} SplitJoin(parts: seq<string>, sep: char)
    requires |parts| > 0
    requires forall k :: 0 <= k < |parts| ==> sep !in parts[k]
    ensures Split(Join([sep], parts), sep) == parts
  {
    if |parts| == 1 {
      SplitFree(parts[0], sep);
    } else {
      SplitJoin(parts[1..], sep);
      SplitPrefix(parts[0], Join([sep], parts[1..]), sep);
      assert [parts[0]] + parts[1..] == parts;
    }
  }

  lemma {:induction false} SplitFree(s: string, sep: char)
    requires sep !in s
    ensures Split(s, sep) == [s]
  {
    if |s| > 0 {
      SplitFree(s[1..], sep);
      assert [s[0]] + s[1..] == s;
    }
  }

  lemma {:induction false} SplitPrefix(a: string, b: string, sep: char)
    requires sep !in a
    ensures Split(a + [sep] + b, sep) == [a] + Split(b, sep)
  {
    if |a| == 0 {
      assert ([] + [sep] + b)[1..] == b;
    } else {
      assert (a + [sep] + b)[1..] == a[1..] + [sep] + b;
      SplitPrefix(a[1..], b, sep);
      assert [a[0]] + a[1..] == a;
    }
  }

  /** A separator splits the string into the pieces of either side. */
  lemma SplitConcat(a: string, b: string, sep: char)
    ensures Split(a + [sep] + b, sep) == Split(a, sep) + Split(b, sep)
  {
    var p, q := Split(a, sep), Split(b, sep);
    JoinSplit(a, sep);
    JoinSplit(b, sep);
    JoinConcat([sep], p, q);
    SplitJoin(p + q, sep);
  }

  /** Python's `str.splitlines()` with '\n' as the only line boundary: no
      line for the empty text after a final newline, no line at all for "". */
  function SplitLines(s: string): (lines: seq<string>)
    ensures forall k :: 0 <= k < |lines| ==> '\n' !in lines[k]
  {
    if s == "" then []
    else
      var parts := Split(s, '\n');
      if s[|s| - 1] == '\n' then parts[..|parts| - 1] else parts
  }

  /** The lines joined by '\n', plus the final newline if there was one,
      are the text again; only "" has no lines. */
  lemma SplitLinesRoundTrip(s: string)
    ensures SplitLines(s) == [] <==> s == ""
    ensures Join("\n", SplitLines(s)) + (if s != "" && s[|s| - 1] == '\n' then "\n" else "") == s
  {
    if s != "" && s[|s| - 1] == '\n' {
      var a := s[..|s| - 1];
      assert s == a + ['\n'] + "";
      SplitConcat(a, "", '\n');
      var p := Split(a, '\n');
      assert Split(s, '\n') == p + [""];
      assert SplitLines(s) == p;
      JoinConcat("\n", p, [""]);
      JoinSplit(s, '\n');
      assert Join("\n", SplitLines(s)) + "\n" == s;
    } else if s != "" {
      JoinSplit(s, '\n');
      assert SplitLines(s) == Split(s, '\n');
    }
  }

  /** One more element of a prefix: the step a loop over `s` takes at `i`. */
  lemma PrefixStep<T>(s: seq<T>, i: nat)
    requires i < |s|
    ensures s[..i + 1][..i] == s[..i] && s[..i + 1][i] == s[i]
  {
  }

  /** One element fewer of a suffix: the element at `i` and the suffix after it. */
  lemma SuffixStep<T>(s: seq<T>, i: nat)
    requires i < |s|
    ensures [s[i]] + s[i + 1..] == s[i..]
  {
  }
}
