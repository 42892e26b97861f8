/** What the tfvars merge promises: where the entry goes, what is kept, when it
    fails or skips, the entry's format, replay idempotence and the behaviour
    on the default content. */
module MergeProperties {
  import opened PyStr
  import opened TfvarsMerge

  /** No request field contains a line boundary. */
  predicate FieldsHaveNoLineBreak(req: Request) {
    NoLineBreak(req.dbName) && NoLineBreak(req.engine) && NoLineBreak(req.environment)
    && (req.slackId.Some? ==> NoLineBreak(req.slackId.value))
  }

  /** A database name that survives `strip()` at its start: the entry line for it
      strips to a line that starts with the name. */
  predicate StripStable(dbName: string) {
    dbName != [] && !IsSpace(dbName[0])
  }

  lemma NoLineBreakConcat(a: string, b: string)
    ensures NoLineBreak(a + b) <==> NoLineBreak(a) && NoLineBreak(b)
  {
    if NoLineBreak(a) && NoLineBreak(b) {
      forall i | 0 <= i < |a + b| ensures !IsLineBreak((a + b)[i]) {
        if i >= |a| {
          assert (a + b)[i] == b[i - |a|];
        }
      }
    }
    if NoLineBreak(a + b) {
      forall i | 0 <= i < |a| ensures !IsLineBreak(a[i]) {
        assert (a + b)[i] == a[i];
      }
      forall i | 0 <= i < |b| ensures !IsLineBreak(b[i]) {
        assert (a + b)[i + |a|] == b[i];
      }
    }
  }

  lemma QuotedHasNoLineBreak(s: string)
    requires NoLineBreak(s)
    ensures NoLineBreak(Quoted(s))
  {
    NoLineBreakConcat("\"", s);
    NoLineBreakConcat("\"" + s, "\"");
  }

  lemma EntryValueHasNoLineBreak(req: Request)
    requires FieldsHaveNoLineBreak(req)
    ensures NoLineBreak(EntryValue(req))
  {
    QuotedHasNoLineBreak(req.environment);
    QuotedHasNoLineBreak(req.engine);
    if HasSlackId(req) {
      QuotedHasNoLineBreak(req.slackId.value);
      NoLineBreakConcat(", slack_id = ", Quoted(req.slackId.value));
    }
    var a := "{ environment = " + Quoted(req.environment);
    NoLineBreakConcat("{ environment = ", Quoted(req.environment));
    var b := a + ", engine = ";
    NoLineBreakConcat(a, ", engine = ");
    var c := b + Quoted(req.engine);
    NoLineBreakConcat(b, Quoted(req.engine));
    var d := c + SlackClause(req);
    NoLineBreakConcat(c, SlackClause(req));
    NoLineBreakConcat(d, " }");
  }

  /** The entry line is a single line when the fields are. */
  lemma EntryHasNoLineBreak(req: Request)
    requires FieldsHaveNoLineBreak(req)
    ensures NoLineBreak(EntryLine(req))
  {
    EntryValueHasNoLineBreak(req);
    NoLineBreakConcat(req.dbName, " = ");
    NoLineBreakConcat("  ", KeyPrefix(req.dbName));
    NoLineBreakConcat("  " + KeyPrefix(req.dbName), EntryValue(req));
  }

  /** Stripping the entry line removes exactly its two-space indent, so the
      entry is recognised as one for its own database. */
  lemma EntryStrips(req: Request)
    requires StripStable(req.dbName)
    ensures Strip(EntryLine(req)) == KeyPrefix(req.dbName) + EntryValue(req)
    ensures IsEntryFor(EntryLine(req), req.dbName)
  {
    var body := KeyPrefix(req.dbName) + EntryValue(req);
    assert EntryLine(req) == "  " + body + "";
    assert body[0] == req.dbName[0];
    assert body[|body| - 1] == EntryValue(req)[|EntryValue(req)| - 1] == '}';
    assert AllSpace("  ");
    StripExact("  ", body, "");
    assert body[..|KeyPrefix(req.dbName)|] == KeyPrefix(req.dbName);
  }

  /** `if slack_id:` — a present, non-empty id closes the entry with its
      clause; an absent or empty id gives the line without one. */
  lemma SlackClauseTruthiness(req: Request)
    ensures HasSlackId(req) ==> EndsWith(EntryLine(req), ", slack_id = " + Quoted(req.slackId.value) + " }")
    ensures !HasSlackId(req) ==> EntryLine(req) == EntryLine(req.(slackId := None))
  {
    if HasSlackId(req) {
      var head := "  " + KeyPrefix(req.dbName) + "{ environment = " + Quoted(req.environment)
                  + ", engine = " + Quoted(req.engine);
      var tail := ", slack_id = " + Quoted(req.slackId.value) + " }";
      assert EntryLine(req) == head + tail;
    }
  }

  /** The merge fails exactly when no line strips to `environments = {`. */
  lemma ErrorIffNoOpener(lines: seq<string>, req: Request)
    ensures MergeLines(lines, req).Error? <==> forall i :: 0 <= i < |lines| ==> !StripsTo(lines[i], Opener)
    ensures MergeLines(lines, req).Error? ==> MergeLines(lines, req) == Error(MissingOpenerMessage)
  {
  }

  /** The anchor is the first opener: with `k` the first line that strips to the
      opener, later openers play no part; the merge skips exactly when a line
      anywhere after `k` (to the end of the file) is an entry for the database,
      and otherwise inserts the entry directly after line `k`. */
  lemma AnchorIsFirstOpener(lines: seq<string>, req: Request, k: nat)
    requires k < |lines| && StripsTo(lines[k], Opener)
    requires forall i :: 0 <= i < k ==> !StripsTo(lines[i], Opener)
    ensures MergeLines(lines, req).Skipped? <==> exists j :: k < j < |lines| && IsEntryFor(lines[j], req.dbName)
    ensures MergeLines(lines, req).Skipped? ==> MergeLines(lines, req) == Skipped(SkipMessage(req.dbName))
    ensures MergeLines(lines, req).Updated? ==> MergeLines(lines, req).text == Unlines(InsertAfter(lines, k, EntryLine(req)))
    ensures !MergeLines(lines, req).Error?
  {
    FirstStripsToIs(lines, Opener, k);
  }

  /** Updated text always ends in a newline. */
  lemma UpdatedEndsWithNewline(lines: seq<string>, req: Request)
    requires MergeLines(lines, req).Updated?
    ensures var text := MergeLines(lines, req).text; |text| > 0 && text[|text| - 1] == '\n'
  {
    var k := FirstStripsTo(lines, Opener).value;
    var ls := InsertAfter(lines, k, EntryLine(req));
    var rest := Unlines(ls[1..]);
    assert Unlines(ls) == ls[0] + "\n" + rest;
    if ls[1..] != [] {
      UnlinesEndsWithNewline(ls[1..]);
    }
  }

  lemma {:induction false} UnlinesEndsWithNewline(ls: seq<string>)
    requires ls != []
    ensures |Unlines(ls)| > 0 && Unlines(ls)[|Unlines(ls)| - 1] == '\n'
  {
    if ls[1..] != [] {
      UnlinesEndsWithNewline(ls[1..]);
    }
  }

  lemma InsertKeepsNoLineBreak(lines: seq<string>, req: Request, k: nat)
    requires forall i :: 0 <= i < |lines| ==> NoLineBreak(lines[i])
    requires FieldsHaveNoLineBreak(req)
    requires k < |lines|
    ensures forall i :: 0 <= i < |lines| + 1 ==> NoLineBreak(InsertAfter(lines, k, EntryLine(req))[i])
  {
    var ls := InsertAfter(lines, k, EntryLine(req));
    EntryHasNoLineBreak(req);
    forall i | 0 <= i < |ls| ensures NoLineBreak(ls[i]) {
      if i > k + 1 {
        assert ls[i] == lines[i - 1];
      }
    }
  }

  /** On newline-free lines, the updated text splits back into the lines with
      the entry inserted directly after the first opener. */
  lemma UpdatedLinesSplit(lines: seq<string>, req: Request)
    requires forall i :: 0 <= i < |lines| ==> NoLineBreak(lines[i])
    requires FieldsHaveNoLineBreak(req)
    requires MergeLines(lines, req).Updated?
    ensures FirstStripsTo(lines, Opener).Some?
    ensures NewlineOnlyBreaks(MergeLines(lines, req).text)
    ensures SplitLines(MergeLines(lines, req).text)
            == InsertAfter(lines, FirstStripsTo(lines, Opener).value, EntryLine(req))
  {
    var k := FirstStripsTo(lines, Opener).value;
    InsertKeepsNoLineBreak(lines, req, k);
    SplitUnlines(InsertAfter(lines, k, EntryLine(req)));
  }

  /** Splitting the updated text gives back the original lines with the entry
      inserted directly after the first opener: one more line, every other
      line unchanged and in its old order. */
  lemma UpdatedTextLines(existing: Option<string>, req: Request)
    requires NewlineOnlyBreaks(Content(existing))
    requires FieldsHaveNoLineBreak(req)
    requires Merge(existing, req).Updated?
    ensures NewlineOnlyBreaks(Merge(existing, req).text)
    ensures var lines := SplitLines(Content(existing));
            FirstStripsTo(lines, Opener).Some?
            && SplitLines(Merge(existing, req).text)
               == InsertAfter(lines, FirstStripsTo(lines, Opener).value, EntryLine(req))
  {
    UpdatedLinesSplit(SplitLines(Content(existing)), req);
  }

  /** After an update the database has exactly one entry after the opener: the
      inserted line. */
  lemma UpdatedHasOneEntry(lines: seq<string>, req: Request)
    requires StripStable(req.dbName)
    requires MergeLines(lines, req).Updated?
    ensures var k := FirstStripsTo(lines, Opener).value;
            var ls := InsertAfter(lines, k, EntryLine(req));
            forall j :: k < j < |ls| ==> (IsEntryFor(ls[j], req.dbName) <==> j == k + 1)
  {
    var k := FirstStripsTo(lines, Opener).value;
    var ls := InsertAfter(lines, k, EntryLine(req));
    EntryStrips(req);
    forall j | k < j < |ls| ensures IsEntryFor(ls[j], req.dbName) <==> j == k + 1 {
      if j > k + 1 {
        assert ls[j] == lines[j - 1];
      }
    }
  }

  /** Replaying a request against the text it produced is a no-op: the opener
      is still first at the same index and the inserted entry now follows it. */
  lemma ReplayIsSkipped(existing: Option<string>, req: Request)
    requires NewlineOnlyBreaks(Content(existing))
    requires FieldsHaveNoLineBreak(req) && StripStable(req.dbName)
    requires Merge(existing, req).Updated?
    ensures NewlineOnlyBreaks(Merge(existing, req).text)
    ensures Merge(Some(Merge(existing, req).text), req) == Skipped(SkipMessage(req.dbName))
  {
    var lines := SplitLines(Content(existing));
    var k := FirstStripsTo(lines, Opener).value;
    var ls := InsertAfter(lines, k, EntryLine(req));
    UpdatedTextLines(existing, req);
    var text := Merge(existing, req).text;
    assert SplitLines(Content(Some(text))) == ls;
    FirstStripsToIs(ls, Opener, k);
    EntryStrips(req);
    assert IsEntryFor(ls[k + 1], req.dbName);
  }

  /** A database name that `strip()` would eat into (empty, or starting with
      whitespace) is never found, so the merge never skips for it. */
  lemma UnstableNameNeverSkips(lines: seq<string>, req: Request)
    requires !StripStable(req.dbName)
    ensures !MergeLines(lines, req).Skipped?
  {
    forall line: string ensures !IsEntryFor(line, req.dbName) {
      assert IsSpace(KeyPrefix(req.dbName)[0]);
    }
  }

  /** For such a name replay is not idempotent: merging the request into the
      text it produced updates again, adding a second entry line. */
  lemma UnstableReplayAddsEntry(existing: Option<string>, req: Request)
    requires NewlineOnlyBreaks(Content(existing))
    requires FieldsHaveNoLineBreak(req) && !StripStable(req.dbName)
    requires Merge(existing, req).Updated?
    ensures NewlineOnlyBreaks(Merge(existing, req).text)
    ensures Merge(Some(Merge(existing, req).text), req).Updated?
  {
    var lines := SplitLines(Content(existing));
    var k := FirstStripsTo(lines, Opener).value;
    var ls := InsertAfter(lines, k, EntryLine(req));
    UpdatedTextLines(existing, req);
    var text := Merge(existing, req).text;
    assert SplitLines(Content(Some(text))) == ls;
    FirstStripsToIs(ls, Opener, k);
    UnstableNameNeverSkips(ls, req);
  }

  /** The `" = "` delimiter keeps distinct space-free names apart: an entry for
      `db10` is not an entry for `db1`, nor the other way round. */
  lemma DistinctNamesDoNotMatch(dbName: string, other: string, rest: string)
    requires dbName != other
    requires ' ' !in dbName && ' ' !in other
    ensures !StartsWith(other + " = " + rest, KeyPrefix(dbName))
  {
    var s := other + " = " + rest;
    var p := KeyPrefix(dbName);
    if |p| <= |s| {
      var n := |dbName|;
      if n < |other| {
        assert s[..|p|][n] == other[n] != ' ' == p[n];
      } else if n > |other| {
        assert s[..|p|][|other|] == ' ' != dbName[|other|] == p[|other|];
      } else {
        var i :| 0 <= i < n && dbName[i] != other[i];
        assert s[..|p|][i] == other[i] != dbName[i] == p[i];
      }
    }
  }

  /** The same on the lines the merge writes: the entry inserted for a
      space-free database is not an entry for any other space-free name, so a
      later request for `db1` is not skipped because of the line for `db10`. */
  lemma DistinctEntriesDoNotMatch(r: Request, dbName: string)
    requires StripStable(r.dbName) && r.dbName != dbName
    requires ' ' !in dbName && ' ' !in r.dbName
    ensures !IsEntryFor(EntryLine(r), dbName)
  {
    EntryStrips(r);
    assert KeyPrefix(r.dbName) + EntryValue(r) == r.dbName + " = " + EntryValue(r);
    DistinctNamesDoNotMatch(dbName, r.dbName, EntryValue(r));
  }

  /** The lines of the default content. */
  function DefaultLines(): seq<string> {
    ["environments = {", "}", "", "aws_region = \"us-east-1\""]
  }

  lemma DefaultLinesJoin()
    ensures Unlines(DefaultLines()) == DefaultContent
  {
    var ls := DefaultLines();
    assert ls[1..] == ["}", "", "aws_region = \"us-east-1\""];
    assert ls[1..][1..] == ["", "aws_region = \"us-east-1\""];
    assert ls[1..][1..][1..] == ["aws_region = \"us-east-1\""];
    assert ls[1..][1..][1..][1..] == [];
    assert Unlines(ls) == "environments = {" + "\n" + ("}" + "\n" + ("" + "\n" + ("aws_region = \"us-east-1\"" + "\n" + "")));
  }

  lemma DefaultLinesHaveNoLineBreak()
    ensures forall i :: 0 <= i < |DefaultLines()| ==> NoLineBreak(DefaultLines()[i])
  {
    assert NoLineBreak("environments = {");
    assert NoLineBreak("}");
    assert NoLineBreak("aws_region = \"us-east-1\"");
  }

  /** The default content is the four lines of DefaultLines, each ended by '\n'. */
  lemma DefaultContentSplits()
    ensures NewlineOnlyBreaks(DefaultContent)
    ensures SplitLines(DefaultContent) == DefaultLines()
  {
    DefaultLinesJoin();
    DefaultLinesHaveNoLineBreak();
    SplitUnlines(DefaultLines());
  }

  /** `aws_region = "us-east-1"` starts with `<db> = ` only for `aws_region`. */
  lemma RegionLineEntry(dbName: string)
    ensures IsEntryFor("aws_region = \"us-east-1\"", dbName) <==> dbName == "aws_region"
  {
    var s := "aws_region = \"us-east-1\"";
    StripExact("", s, "");
    assert "" + s + "" == s;
    var p := KeyPrefix(dbName);
    if StartsWith(s, p) {
      var n := |dbName|;
      assert s[n] == p[n] == ' ' && s[n + 1] == p[n + 1] == '=';
      assert s[..|p|][n] == s[n] && s[..|p|][n + 1] == s[n + 1];
      assert n == 10 by {
        forall m | 0 <= m < |s| - 1 && s[m] == ' ' && s[m + 1] == '=' ensures m == 10 {
        }
      }
      assert dbName == p[..10] == s[..10];
    }
  }

  lemma DefaultFirstOpener()
    ensures FirstStripsTo(DefaultLines(), Opener) == Some(0)
  {
    var ls := DefaultLines();
    StripExact("", ls[0], "");
    assert "" + ls[0] + "" == ls[0];
    FirstStripsToIs(ls, Opener, 0);
  }

  /** After the opener of the default content, only the region line can read
      as an entry, and only for `aws_region`. */
  lemma DefaultEntryAfterOpener(dbName: string)
    ensures (exists j :: 0 < j < |DefaultLines()| && IsEntryFor(DefaultLines()[j], dbName))
            <==> dbName == "aws_region"
  {
    var ls := DefaultLines();
    StripExact("", ls[1], "");
    assert "" + ls[1] + "" == ls[1];
    StripExact("", ls[2], "");
    RegionLineEntry(dbName);
    forall j | 0 < j < |ls| ensures IsEntryFor(ls[j], dbName) <==> j == 3 && dbName == "aws_region" {
      if j == 1 {
        assert !IsEntryFor(ls[1], dbName);
      } else if j == 2 {
        assert !IsEntryFor(ls[2], dbName);
      }
    }
    if dbName == "aws_region" {
      assert IsEntryFor(ls[3], dbName);
    }
  }

  lemma DefaultTailText()
    ensures "\n" + Unlines(DefaultLines()[1..]) == "\n}\n\naws_region = \"us-east-1\"\n"
  {
    var t := DefaultLines()[1..];
    assert t == ["}", "", "aws_region = \"us-east-1\""];
    assert t[1..] == ["", "aws_region = \"us-east-1\""];
    assert t[1..][1..] == ["aws_region = \"us-east-1\""];
    assert t[1..][1..][1..] == [];
    assert Unlines(t) == "}" + "\n" + ("" + "\n" + ("aws_region = \"us-east-1\"" + "\n" + ""));
  }

  lemma DefaultInsertText(req: Request)
    ensures Unlines(InsertAfter(DefaultLines(), 0, EntryLine(req)))
            == "environments = {\n" + EntryLine(req) + "\n}\n\naws_region = \"us-east-1\"\n"
  {
    var ls := DefaultLines();
    var e := EntryLine(req);
    var ins := InsertAfter(ls, 0, e);
    var tail := Unlines(ls[1..]);
    assert ins == [ls[0]] + ([e] + ls[1..]);
    UnlinesCons(ls[0], [e] + ls[1..]);
    UnlinesCons(e, ls[1..]);
    assert Unlines(ins) == ls[0] + "\n" + (e + "\n" + tail);
    assert ls[0] + "\n" + (e + "\n" + tail) == (ls[0] + "\n") + e + ("\n" + tail);
    DefaultTailText();
    assert ls[0] + "\n" == "environments = {\n";
  }

  /** With the file absent the merge never fails: it inserts the entry into
      the default content, unless the database is named `aws_region`, whose
      `aws_region = ...` line then reads as an existing entry. */
  lemma DefaultContentMerge(req: Request)
    ensures NewlineOnlyBreaks(Content(None))
    ensures Merge(None, req) ==
      if req.dbName == "aws_region" then Skipped(SkipMessage(req.dbName))
      else Updated("environments = {\n" + EntryLine(req) + "\n}\n\naws_region = \"us-east-1\"\n")
  {
    DefaultContentSplits();
    DefaultFirstOpener();
    DefaultEntryAfterOpener(req.dbName);
    DefaultInsertText(req);
  }

  /** Within one environment the branch name identifies the database. */
  lemma BranchNameIdentifiesDatabase(a: Request, b: Request)
    requires a.environment == b.environment
    ensures BranchName(a) == BranchName(b) <==> a.dbName == b.dbName
  {
    if BranchName(a) == BranchName(b) {
      var p := "add-" + a.environment + "-";
      assert BranchName(a) == p + a.dbName && BranchName(b) == p + b.dbName;
      assert a.dbName == BranchName(a)[|p|..];
    }
  }

  /** Across environments it does not: `prod-eu`/`orders` and `prod`/`eu-orders`
      share the branch `add-prod-eu-orders`. */
  lemma BranchNamesCanCollide()
    ensures var a := Request("orders", "postgres", "prod-eu", None);
            var b := Request("eu-orders", "postgres", "prod", None);
            a.environment != b.environment && BranchName(a) == BranchName(b)
  {
  }
}
