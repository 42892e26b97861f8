/** The parts of Python 3's `str` that the tfvars merge relies on:
    `isspace`, `strip`, `startswith`, `splitlines` and `"\n".join`.
    Dafny strings are sequences of Unicode scalar values; Python's may also
    hold lone surrogates, which the model does not represent. */
module PyStr {

  /** Python 3's `str.isspace()` table: the code points `strip()` removes by default. */
  predicate IsSpace(c: char) {
    c == ' ' || c == '\t' || c == '\n' || c == '\U{0B}' || c == '\U{0C}' || c == '\r'
    || ('\U{1C}' <= c <= '\U{1F}') || c == '\U{85}' || c == '\U{A0}' || c == '\U{1680}'
    || ('\U{2000}' <= c <= '\U{200A}') || c == '\U{2028}' || c == '\U{2029}'
    || c == '\U{202F}' || c == '\U{205F}' || c == '\U{3000}'
  }

  /** The code points at which Python's `str.splitlines()` ends a line. */
  predicate IsLineBreak(c: char) {
    c == '\n' || c == '\r' || c == '\U{0B}' || c == '\U{0C}' || ('\U{1C}' <= c <= '\U{1E}')
    || c == '\U{85}' || c == '\U{2028}' || c == '\U{2029}'
  }

  predicate NoLineBreak(s: string) {
    forall i :: 0 <= i < |s| ==> !IsLineBreak(s[i])
  }

  /** Text whose only line boundary is '\n'; on it `splitlines()` is a split at '\n'. */
  predicate NewlineOnlyBreaks(s: string) {
    forall i :: 0 <= i < |s| ==> IsLineBreak(s[i]) ==> s[i] == '\n'
  }

  predicate AllSpace(s: string) {
    forall i :: 0 <= i < |s| ==> IsSpace(s[i])
  }

  /** Neither end of `s` is whitespace. */
  predicate Trimmed(s: string) {
    s == [] || (!IsSpace(s[0]) && !IsSpace(s[|s| - 1]))
  }

  /** `s.lstrip()`: the suffix of `s` left after its leading whitespace. */
  function LStrip(s: string): (r: string)
    ensures |r| <= |s|
    ensures r == [] || !IsSpace(r[0])
  {
    if |s| > 0 && IsSpace(s[0]) then LStrip(s[1..]) else s
  }

  /** `s.rstrip()`: the prefix of `s` left after its trailing whitespace. */
  function RStrip(s: string): (r: string)
    ensures |r| <= |s|
    ensures r == [] || (r[0] == s[0] && !IsSpace(r[|r| - 1]))
  {
    if |s| > 0 && IsSpace(s[|s| - 1]) then RStrip(s[..|s| - 1]) else s
  }

  /** `s.strip()`: the result has whitespace at neither end. */
  function Strip(s: string): (r: string)
    ensures r == [] || (!IsSpace(r[0]) && !IsSpace(r[|r| - 1]))
    ensures |r| <= |s|
  {
    RStrip(LStrip(s))
  }

  /** What `lstrip()` removes is whitespace, and what it keeps is a suffix. */
  lemma {:induction false} LStripShape(s: string)
    ensures LStrip(s) == s[|s| - |LStrip(s)|..]
    ensures AllSpace(s[..|s| - |LStrip(s)|])
  {
    if |s| > 0 && IsSpace(s[0]) {
      LStripShape(s[1..]);
      var n := |s| - |LStrip(s)|;
      assert s[1..][..n - 1] == s[1..n];
    }
  }

  /** What `rstrip()` removes is whitespace, and what it keeps is a prefix. */
  lemma {:induction false} RStripShape(s: string)
    ensures RStrip(s) == s[..|RStrip(s)|]
    ensures AllSpace(s[|RStrip(s)|..])
  {
    if |s| > 0 && IsSpace(s[|s| - 1]) {
      RStripShape(s[..|s| - 1]);
      var n := |RStrip(s)|;
      assert s[..|s| - 1][n..] == s[n..|s| - 1];
    }
  }

  /** What `strip()` removes: `s` is whitespace, then `Strip(s)` (starting at
      the returned index), then whitespace. */
  lemma StripShape(s: string) returns (i: nat)
    ensures i + |Strip(s)| <= |s| && s[i..i + |Strip(s)|] == Strip(s)
    ensures AllSpace(s[..i]) && AllSpace(s[i + |Strip(s)|..])
  {
    var l := LStrip(s);
    var r := RStrip(l);
    LStripShape(s);
    RStripShape(l);
    i := |s| - |l|;
    assert s[i..][..|r|] == s[i..i + |r|];
    assert l[|r|..] == s[i + |r|..];
  }

  /** `s.endswith(suffix)`: a proof helper for stating how the entry line ends,
      not an operation the merge performs. */
  predicate EndsWith(s: string, suffix: string) {
    |suffix| <= |s| && s[|s| - |suffix|..] == suffix
  }

  /** `s.startswith(prefix)`. */
  predicate StartsWith(s: string, prefix: string) {
    |prefix| <= |s| && s[..|prefix|] == prefix
  }

  lemma {:induction false} LStripSkips(pre: string, u: string)
    requires AllSpace(pre)
    ensures LStrip(pre + u) == LStrip(u)
    decreases |pre|
  {
    if pre != [] {
      assert (pre + u)[0] == pre[0];
      assert (pre + u)[1..] == pre[1..] + u;
      LStripSkips(pre[1..], u);
    } else {
      assert pre + u == u;
    }
  }

  lemma {:induction false} RStripSkips(u: string, post: string)
    requires AllSpace(post)
    ensures RStrip(u + post) == RStrip(u)
    decreases |post|
  {
    if post != [] {
      assert (u + post)[|u + post| - 1] == post[|post| - 1];
      assert (u + post)[..|u + post| - 1] == u + post[..|post| - 1];
      RStripSkips(u, post[..|post| - 1]);
    } else {
      assert u + post == u;
    }
  }

  /** The converse of Strip's contract: whitespace around a trimmed string is what `strip()` removes. */
  lemma StripExact(pre: string, t: string, post: string)
    requires AllSpace(pre) && AllSpace(post) && Trimmed(t)
    ensures Strip(pre + t + post) == t
  {
    assert pre + t + post == pre + (t + post);
    LStripSkips(pre, t + post);
    if t == [] {
      assert t + post == post;
      LStripSkips(post, []);
      assert post + [] == post;
      assert LStrip(post) == [];
    } else {
      RStripSkips(t, post);
    }
  }

  /** Every line followed by a newline: the text `"\n".join(lines) + "\n"` denotes. */
  function Unlines(lines: seq<string>): string {
    if lines == [] then "" else lines[0] + "\n" + Unlines(lines[1..])
  }

  /** `"\n".join(lines)`: with a final newline added it terminates every line. */
  function Join(lines: seq<string>): (r: string)
    ensures lines != [] ==> r + "\n" == Unlines(lines)
    ensures lines == [] ==> r == ""
  {
    if |lines| == 0 then ""
    else if |lines| == 1 then lines[0]
    else lines[0] + "\n" + Join(lines[1..])
  }

  /** Index of the first '\n' in `s`, or `|s|` when there is none. */
  function NewlineIndex(s: string): (i: nat)
    ensures i <= |s| && (i < |s| ==> s[i] == '\n')
    ensures forall j :: 0 <= j < i ==> s[j] != '\n'
  {
    if |s| == 0 || s[0] == '\n' then 0 else 1 + NewlineIndex(s[1..])
  }

  lemma UnlinesCons(l: string, tail: seq<string>)
    ensures Unlines([l] + tail) == l + "\n" + Unlines(tail)
  {
    assert ([l] + tail)[1..] == tail;
  }

  lemma NoBreakBeforeNewline(s: string, i: nat)
    requires NewlineOnlyBreaks(s)
    requires i == NewlineIndex(s)
    ensures NoLineBreak(s[..i])
  {
    forall j | 0 <= j < i ensures !IsLineBreak(s[..i][j]) {
      assert s[..i][j] == s[j];
    }
  }

  lemma NewlineOnlyAfterNewline(s: string, i: nat)
    requires NewlineOnlyBreaks(s)
    requires i == NewlineIndex(s) < |s|
    ensures NewlineOnlyBreaks(s[i + 1..])
  {
    var rest := s[i + 1..];
    forall j | 0 <= j < |rest| ensures IsLineBreak(rest[j]) ==> rest[j] == '\n' {
      assert rest[j] == s[i + 1 + j];
    }
  }

  lemma CutAtNewline(s: string, i: nat)
    requires i < |s| && s[i] == '\n'
    ensures s == s[..i] + "\n" + s[i + 1..]
  {
  }

  /** Cutting `s` at its first '\n' (index `i`): the piece before it has no line
      break and the rest keeps '\n' as its only break. */
  lemma SplitStep(s: string, i: nat)
    requires NewlineOnlyBreaks(s)
    requires i == NewlineIndex(s)
    ensures NoLineBreak(s[..i])
    ensures i < |s| ==> NewlineOnlyBreaks(s[i + 1..]) && s == s[..i] + "\n" + s[i + 1..]
  {
    NoBreakBeforeNewline(s, i);
    if i < |s| {
      NewlineOnlyAfterNewline(s, i);
      CutAtNewline(s, i);
    }
  }

  /** `s.splitlines()` on text whose only line break is '\n': the pieces between
      breaks, with no empty piece after a final '\n'. Terminating each piece
      with '\n' gives back `s`, plus a newline when `s` lacked a final one. */
  function SplitLines(s: string): (lines: seq<string>)
    requires NewlineOnlyBreaks(s)
    ensures forall k :: 0 <= k < |lines| ==> NoLineBreak(lines[k])
    ensures Unlines(lines) == if s == [] || s[|s| - 1] == '\n' then s else s + "\n"
    decreases |s|
  {
    if s == [] then []
    else
      var i := NewlineIndex(s);
      SplitStep(s, i);
      if i == |s| then
        assert s[..i] == s;
        [s]
      else
        var rest := s[i + 1..];
        var tail := SplitLines(rest);
        UnlinesCons(s[..i], tail);
        assert rest != [] ==> s[|s| - 1] == rest[|rest| - 1];
        [s[..i]] + tail
  }

  lemma NewlineOnlyCons(l: string, t: string)
    requires NoLineBreak(l) && NewlineOnlyBreaks(t)
    ensures NewlineOnlyBreaks(l + "\n" + t)
  {
    var s := l + "\n" + t;
    forall j | 0 <= j < |s| ensures IsLineBreak(s[j]) ==> s[j] == '\n' {
      if j < |l| {
        assert s[j] == l[j];
      } else if j > |l| {
        assert s[j] == t[j - |l| - 1];
      }
    }
  }

  /** Splitting a newline-free line followed by '\n' and more text. */
  lemma SplitCons(l: string, t: string)
    requires NoLineBreak(l) && NewlineOnlyBreaks(t)
    ensures NewlineOnlyBreaks(l + "\n" + t)
    ensures SplitLines(l + "\n" + t) == [l] + SplitLines(t)
  {
    NewlineOnlyCons(l, t);
    var s := l + "\n" + t;
    assert s[|l|] == '\n';
    forall j | 0 <= j < |l| ensures s[j] != '\n' {
      assert s[j] == l[j];
    }
    assert NewlineIndex(s) == |l|;
    assert s[..|l|] == l;
    assert s[|l| + 1..] == t;
  }

  /** Text made of newline-free lines, each terminated by '\n', has '\n' as its
      only line break and splits back into exactly those lines. */
  lemma {:induction false} SplitUnlines(lines: seq<string>)
    requires forall k :: 0 <= k < |lines| ==> NoLineBreak(lines[k])
    ensures NewlineOnlyBreaks(Unlines(lines))
    ensures SplitLines(Unlines(lines)) == lines
  {
    if lines != [] {
      SplitUnlines(lines[1..]);
      SplitCons(lines[0], Unlines(lines[1..]));
    }
  }

  /** Python's round trip `("\n".join(lines) + "\n").splitlines() == lines`. */
  lemma JoinSplitRoundTrip(lines: seq<string>)
    requires lines != []
    requires forall k :: 0 <= k < |lines| ==> NoLineBreak(lines[k])
    ensures NewlineOnlyBreaks(Join(lines) + "\n")
    ensures SplitLines(Join(lines) + "\n") == lines
  {
    SplitUnlines(lines);
  }
}
