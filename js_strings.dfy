/**
 * The string operations of JavaScript that the core relies on:
 * `trim`, `split` on a one-character separator, `indexOf`, `startsWith` and `includes`.
 */
module JsStrings {
  import opened Wrappers

  /**
   * The characters `String.prototype.trim` removes: WhiteSpace and LineTerminator of
   * ECMAScript (tab to carriage return, space, no-break space, the Unicode space
   * separators, line and paragraph separator, byte order mark).
   */
  predicate IsJsWhitespace(c: char) {
    || ('\t' <= c <= '\r') || c == ' '
    || ('\U{00A0}' <= c
        && (|| c == '\U{00A0}' || c == '\U{1680}' || ('\U{2000}' <= c <= '\U{200A}')
            || c == '\U{2028}' || c == '\U{2029}' || c == '\U{202F}' || c == '\U{205F}'
            || c == '\U{3000}' || c == '\U{FEFF}'))
  }

  /** The number of whitespace characters `s` starts with. */
  function LeadingWhitespace(s: string): (n: nat)
    ensures n <= |s|
  {
    if s != [] && IsJsWhitespace(s[0]) then 1 + LeadingWhitespace(s[1..]) else 0
  }

  /** The number of whitespace characters `s` ends with. */
  function TrailingWhitespace(s: string): (n: nat)
    ensures n <= |s|
  {
    if s != [] && IsJsWhitespace(s[|s| - 1]) then 1 + TrailingWhitespace(s[..|s| - 1]) else 0
  }

  /** `LeadingWhitespace` counts the whole whitespace run at the start, and no more. */
  lemma {:induction false} LeadingWhitespaceRun(s: string)
    ensures forall k | 0 <= k < LeadingWhitespace(s) :: IsJsWhitespace(s[k])
    ensures LeadingWhitespace(s) < |s| ==> !IsJsWhitespace(s[LeadingWhitespace(s)])
  {
    if s != [] && IsJsWhitespace(s[0]) {
      var t := s[1..];
      LeadingWhitespaceRun(t);
      forall k | 1 <= k < LeadingWhitespace(s) ensures IsJsWhitespace(s[k]) {
        assert s[k] == t[k - 1];
      }
      if LeadingWhitespace(s) < |s| {
        assert s[LeadingWhitespace(s)] == t[LeadingWhitespace(t)];
      }
    }
  }

  /** `TrailingWhitespace` counts the whole whitespace run at the end, and no more. */
  lemma {:induction false} TrailingWhitespaceRun(s: string)
    ensures forall k | |s| - TrailingWhitespace(s) <= k < |s| :: IsJsWhitespace(s[k])
    ensures TrailingWhitespace(s) < |s| ==> !IsJsWhitespace(s[|s| - 1 - TrailingWhitespace(s)])
  {
    if s != [] && IsJsWhitespace(s[|s| - 1]) {
      var p := s[..|s| - 1];
      TrailingWhitespaceRun(p);
      forall k | |s| - TrailingWhitespace(s) <= k < |s| - 1 ensures IsJsWhitespace(s[k]) {
        assert s[k] == p[k];
      }
      if TrailingWhitespace(s) < |s| {
        assert s[|s| - 1 - TrailingWhitespace(s)] == p[|p| - 1 - TrailingWhitespace(p)];
      }
    }
  }

  /** `s.trimStart()`. */
  function TrimStart(s: string): string {
    s[LeadingWhitespace(s)..]
  }

  /** What `trimStart` leaves does not begin with whitespace. */
  lemma TrimStartHead(s: string)
    ensures TrimStart(s) != [] ==> !IsJsWhitespace(TrimStart(s)[0])
  {
    LeadingWhitespaceRun(s);
    if TrimStart(s) != [] {
      assert TrimStart(s)[0] == s[LeadingWhitespace(s)];
    }
  }

  /** `s.trimEnd()`. */
  function TrimEnd(s: string): string {
    s[..|s| - TrailingWhitespace(s)]
  }

  /** `s.trim()`. */
  function Trim(s: string): (r: string)
    ensures |r| <= |s|
  {
    TrimEnd(TrimStart(s))
  }

  /** Neither end of a trimmed text is whitespace. */
  lemma TrimEnds(s: string)
    ensures Trim(s) != [] ==> !IsJsWhitespace(Trim(s)[0]) && !IsJsWhitespace(Trim(s)[|Trim(s)| - 1])
  {
    var t0, t := TrimStart(s), Trim(s);
    LeadingWhitespaceRun(s);
    TrailingWhitespaceRun(t0);
    if t != [] {
      assert t[0] == t0[0] == s[LeadingWhitespace(s)];
      assert t[|t| - 1] == t0[|t0| - 1 - TrailingWhitespace(t0)];
    }
  }

  /** `s.trim()` is empty (falsy) exactly when every character of `s` is whitespace. */
  lemma TrimEmptyIffBlank(s: string)
    ensures Trim(s) == "" <==> forall k | 0 <= k < |s| :: IsJsWhitespace(s[k])
  {
    var n := LeadingWhitespace(s);
    var t0 := TrimStart(s);
    LeadingWhitespaceRun(s);
    TrailingWhitespaceRun(t0);
    if Trim(s) == "" {
      assert TrailingWhitespace(t0) == |t0|;
      TrimStartHead(s);
      assert t0 == [];
    } else if n < |s| {
      assert !IsJsWhitespace(s[n]);
    }
  }

  /** `s.indexOf(c)`: the first position of `c`, if any. */
  function IndexOf(s: string, c: char): (r: Option<nat>)
    ensures r.Some? ==> r.value < |s| && s[r.value] == c && c !in s[..r.value]
    ensures r.None? <==> c !in s
  {
    if s == [] then None
    else if s[0] == c then Some(0)
    else
      var rest := IndexOf(s[1..], c);
      if rest.Some? then
        assert s[..rest.value + 1] == [s[0]] + s[1..][..rest.value];
        Some(rest.value + 1)
      else None
  }

  /** `s.split(sep)` for a one-character separator: never empty, "" gives [""]. */
  function Split(s: string, sep: char): (r: seq<string>)
    ensures |r| >= 1
    ensures forall i | 0 <= i < |r| :: sep !in r[i]
    ensures IndexOf(s, sep).None? ==> r == [s]
    ensures IndexOf(s, sep).Some? ==> |r| >= 2 && r[0] == s[..IndexOf(s, sep).value]
    decreases |s|
  {
    match IndexOf(s, sep)
    case None => [s]
    case Some(i) => [s[..i]] + Split(s[i + 1..], sep)
  }

  /** `parts.join(sep)`. */
  function Join(parts: seq<string>, sep: char): string
    requires |parts| >= 1
  {
    if |parts| == 1 then parts[0] else parts[0] + [sep] + Join(parts[1..], sep)
  }

  /** Joining the pieces of a split gives back the original text. */
  lemma {:induction false} JoinSplit(s: string, sep: char)
    ensures Join(Split(s, sep), sep) == s
    decreases |s|
  {
    match IndexOf(s, sep)
    case None =>
    case Some(i) =>
      JoinSplit(s[i + 1..], sep);
      assert s == s[..i] + [sep] + s[i + 1..];
  }

  /** Splitting a join of separator-free pieces gives back the pieces. */
  lemma {:induction false} SplitJoin(parts: seq<string>, sep: char)
    requires |parts| >= 1
    requires forall i | 0 <= i < |parts| :: sep !in parts[i]
    ensures Split(Join(parts, sep), sep) == parts
  {
    if |parts| > 1 {
      var s := Join(parts, sep);
      assert s == parts[0] + [sep] + Join(parts[1..], sep);
      IndexOfAfterFreePrefix(parts[0], Join(parts[1..], sep), sep);
      assert s[|parts[0]| + 1..] == Join(parts[1..], sep);
      assert s[..|parts[0]|] == parts[0];
      SplitJoin(parts[1..], sep);
    } else {
      assert IndexOf(parts[0], sep).None?;
    }
  }

  lemma IndexOfAfterFreePrefix(a: string, b: string, sep: char)
    requires sep !in a
    ensures IndexOf(a + [sep] + b, sep) == Some(|a|)
  {
    var s := a + [sep] + b;
    assert s[|a|] == sep;
    assert s[..|a|] == a;
  }

  /** The first occurrence of `c` is the one with no `c` before it. */
  lemma IndexOfFirst(s: string, c: char, j: nat)
    requires j < |s| && s[j] == c && c !in s[..j]
    ensures IndexOf(s, c) == Some(j)
  {
  }

  /** Leading whitespace in front of a word is exactly what `TrimStart` counts. */
  lemma {:induction false} LeadingWhitespacePadded(w: string, x: string)
    requires forall k | 0 <= k < |w| :: IsJsWhitespace(w[k])
    requires x != [] && !IsJsWhitespace(x[0])
    ensures LeadingWhitespace(w + x) == |w|
    decreases |w|
  {
    if w != [] {
      assert (w + x)[0] == w[0];
      assert (w + x)[1..] == w[1..] + x;
      LeadingWhitespacePadded(w[1..], x);
    } else {
      assert w + x == x;
    }
  }

  /** So `TrimStart` removes exactly that whitespace. */
  lemma TrimStartPadded(w: string, x: string)
    requires forall k | 0 <= k < |w| :: IsJsWhitespace(w[k])
    requires x != [] && !IsJsWhitespace(x[0])
    ensures TrimStart(w + x) == x
  {
    LeadingWhitespacePadded(w, x);
    assert (w + x)[|w|..] == x;
  }

  /** Text that does not start with whitespace keeps its start. */
  lemma TrimStartOfWord(s: string)
    requires s != [] && !IsJsWhitespace(s[0])
    ensures TrimStart(s) == s
  {
    assert LeadingWhitespace(s) == 0;
  }

  /** Text that neither starts nor ends with whitespace is its own trim. */
  lemma TrimOfWord(s: string)
    requires s != [] && !IsJsWhitespace(s[0]) && !IsJsWhitespace(s[|s| - 1])
    ensures Trim(s) == s
  {
    TrimStartOfWord(s);
    assert TrailingWhitespace(s) == 0;
  }

  /** Whitespace in front of such text is all that `trim` removes. */
  lemma TrimOfPaddedWord(w: string, x: string)
    requires forall k | 0 <= k < |w| :: IsJsWhitespace(w[k])
    requires x != [] && !IsJsWhitespace(x[0]) && !IsJsWhitespace(x[|x| - 1])
    ensures Trim(w + x) == x
  {
    TrimStartPadded(w, x);
    TrimOfWord(x);
  }

  /** Trailing whitespace after a word is exactly what `TrimEnd` counts. */
  lemma {:induction false} TrailingWhitespacePadded(x: string, w: string)
    requires forall k | 0 <= k < |w| :: IsJsWhitespace(w[k])
    requires x != [] && !IsJsWhitespace(x[|x| - 1])
    ensures TrailingWhitespace(x + w) == |w|
    decreases |w|
  {
    if w != [] {
      var s := x + w;
      assert s[|s| - 1] == w[|w| - 1];
      assert s[..|s| - 1] == x + w[..|w| - 1];
      TrailingWhitespacePadded(x, w[..|w| - 1]);
    } else {
      assert x + w == x;
    }
  }

  /** So `TrimEnd` removes exactly that whitespace. */
  lemma TrimEndPadded(x: string, w: string)
    requires forall k | 0 <= k < |w| :: IsJsWhitespace(w[k])
    requires x != [] && !IsJsWhitespace(x[|x| - 1])
    ensures TrimEnd(x + w) == x
  {
    TrailingWhitespacePadded(x, w);
    assert (x + w)[..|x|] == x;
  }

  /** The `k`-th character of the trimmed text is the `k`-th after the leading whitespace. */
  lemma TrimAt(s: string, k: nat)
    requires k < |Trim(s)|
    ensures LeadingWhitespace(s) + k < |s| && Trim(s)[k] == s[LeadingWhitespace(s) + k]
  {
  }

  /** A prefix of the slice `s[a..b]` is the slice of `s` of that length at `a`. */
  lemma SliceOfSlice(s: string, a: nat, b: nat, n: nat)
    requires a + n <= b <= |s|
    ensures s[a..b][..n] == s[a..a + n]
  {
  }

  /** `s.trim()` is a contiguous piece of `s`, starting after its leading whitespace. */
  lemma TrimIsSlice(s: string)
    ensures var a := LeadingWhitespace(s); a + |Trim(s)| <= |s| && Trim(s) == s[a..a + |Trim(s)|]
  {
    var a, t0 := LeadingWhitespace(s), TrimStart(s);
    var n := |t0| - TrailingWhitespace(t0);
    SliceOfSlice(s, a, |s|, n);
  }

  /** `s.startsWith(prefix)`. */
  predicate StartsWith(s: string, prefix: string) {
    |prefix| <= |s| && s[..|prefix|] == prefix
  }

  /** A string starting with `prefix` has `prefix`'s characters at its first positions. */
  lemma StartsWithAt(s: string, prefix: string, k: nat)
    requires StartsWith(s, prefix) && k < |prefix|
    ensures k < |s| && s[k] == prefix[k]
  {
    assert s[..|prefix|][k] == s[k];
  }

  /** `s.includes(sub)`: `sub` occurs at some position of `s`. */
  predicate Includes(s: string, sub: string)
    decreases |s|
  {
    StartsWith(s, sub) || (s != [] && Includes(s[1..], sub))
  }

  /** Every piece of `s` is included in `s`. */
  lemma {:induction false} IncludesSlice(s: string, a: nat, n: nat)
    requires a + n <= |s|
    ensures Includes(s, s[a..a + n])
    decreases a
  {
    if a > 0 {
      assert s[1..][a - 1..a - 1 + n] == s[a..a + n];
      IncludesSlice(s[1..], a - 1, n);
    }
  }
}
