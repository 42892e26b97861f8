/** The tfvars merge of the RDS provisioning handler: given the current text of
    `terraform/environments/terraform.tfvars` (or nothing, when the file could
    not be fetched) and one provisioning request, produce the new file text,
    report that the database already has an entry, or fail because the
    `environments = {` block opener is missing. */
module TfvarsMerge {
  import opened PyStr

  datatype Option<T> = None | Some(value: T)

  /** A provisioning request as parsed from the queue message. */
  datatype Request = Request(dbName: string, engine: string, environment: string, slackId: Option<string>)

  datatype MergeResult =
    | Error(message: string)   // the handler raises: no block opener
    | Skipped(message: string) // the database already has an entry
    | Updated(text: string)    // the content to commit

  /** Content used when the file cannot be fetched from the branch. */
  const DefaultContent := "environments = {\n}\n\naws_region = \"us-east-1\"\n"

  const MissingOpenerMessage := "Could not find 'environments = {' in terraform.tfvars"

  function SkipMessage(dbName: string): string {
    "Database '" + dbName + "' already exists"
  }

  /** The text the merge works on. */
  function Content(existing: Option<string>): string {
    match existing
    case Some(text) => text
    case None => DefaultContent
  }

  /** The line that opens the `environments` block, once stripped. */
  const Opener := "environments = {"

  /** `line.strip() == text` */
  predicate StripsTo(line: string, text: string) {
    Strip(line) == text
  }

  /** What a line must start with, once stripped, to be an entry for `dbName`. */
  function KeyPrefix(dbName: string): string {
    dbName + " = "
  }

  predicate IsEntryFor(line: string, dbName: string) {
    StartsWith(Strip(line), KeyPrefix(dbName))
  }

  /** Python truthiness of `slack_id`: absent and empty are both false. */
  predicate HasSlackId(req: Request) {
    req.slackId.Some? && req.slackId.value != ""
  }

  function Quoted(s: string): string {
    "\"" + s + "\""
  }

  /** The `, slack_id = "<id>"` clause, present only when the id is truthy. */
  function SlackClause(req: Request): string {
    if HasSlackId(req) then ", slack_id = " + Quoted(req.slackId.value) else ""
  }

  /** `{ environment = "<env>", engine = "<engine>"[, slack_id = "<id>"] }` */
  function EntryValue(req: Request): string {
    "{ environment = " + Quoted(req.environment) + ", engine = " + Quoted(req.engine)
    + SlackClause(req) + " }"
  }

  /** `  <db> = { environment = "<env>", engine = "<engine>"[, slack_id = "<id>"] }` */
  function EntryLine(req: Request): string {
    "  " + KeyPrefix(req.dbName) + EntryValue(req)
  }

  /** The index of the first line that strips to `text`, if any. */
  function FirstStripsTo(lines: seq<string>, text: string): (r: Option<nat>)
    ensures r.None? ==> forall i :: 0 <= i < |lines| ==> !StripsTo(lines[i], text)
    ensures r.Some? ==> r.value < |lines| && StripsTo(lines[r.value], text)
    ensures r.Some? ==> forall i :: 0 <= i < r.value ==> !StripsTo(lines[i], text)
  {
    if lines == [] then None
    else if StripsTo(lines[0], text) then Some(0)
    else match FirstStripsTo(lines[1..], text)
      case None => None
      case Some(k) => Some(k + 1)
  }

  /** A line that strips to `text` with none before it is the one FirstStripsTo finds. */
  lemma FirstStripsToIs(lines: seq<string>, text: string, k: nat)
    requires k < |lines| && StripsTo(lines[k], text)
    requires forall i :: 0 <= i < k ==> !StripsTo(lines[i], text)
    ensures FirstStripsTo(lines, text) == Some(k)
  {
  }

  /** Python's `lines.insert(k + 1, line)`: `line` directly after index `k`,
      everything else in its old order. */
  function InsertAfter(lines: seq<string>, k: nat, line: string): (r: seq<string>)
    requires k < |lines|
    ensures |r| == |lines| + 1 && r[k + 1] == line
    ensures forall i :: 0 <= i <= k ==> r[i] == lines[i]
    ensures forall i :: k < i < |lines| ==> r[i + 1] == lines[i]
  {
    lines[..k + 1] + [line] + lines[k + 1..]
  }

  /** The merge on the file's lines: fail without an opener; skip when a line
      anywhere after the first opener is an entry for the database; otherwise
      insert the entry after the opener and terminate every line with '\n'. */
  function MergeLines(lines: seq<string>, req: Request): MergeResult {
    match FirstStripsTo(lines, Opener)
    case None => Error(MissingOpenerMessage)
    case Some(k) =>
      if exists j :: k < j < |lines| && IsEntryFor(lines[j], req.dbName) then
        Skipped(SkipMessage(req.dbName))
      else
        Updated(Unlines(InsertAfter(lines, k, EntryLine(req))))
  }

  /** The merge on the file as fetched (or absent). */
  function Merge(existing: Option<string>, req: Request): MergeResult
    requires NewlineOnlyBreaks(Content(existing))
  {
    MergeLines(SplitLines(Content(existing)), req)
  }

  /** The opener search: the index of the first line that strips to `text`,
      or -1 when there is none. */
  method FindStripsTo(lines: seq<string>, text: string) returns (start: int)
    ensures start == match FirstStripsTo(lines, text) case None => -1 case Some(k) => k
  {
    start := -1;
    for i := 0 to |lines|
      invariant start == -1
      invariant forall j :: 0 <= j < i ==> !StripsTo(lines[j], text)
    {
      if Strip(lines[i]) == text {
        start := i;
        break;
      }
    }
    if start != -1 {
      FirstStripsToIs(lines, text, start);
    }
  }

  /** The duplicate scan: whether some line after index `start`, once
      stripped, starts with `dbName + " = "`. */
  method FindEntryAfter(lines: seq<string>, start: nat, dbName: string) returns (found: bool)
    ensures found <==> exists j :: start < j < |lines| && IsEntryFor(lines[j], dbName)
  {
    var prefix := KeyPrefix(dbName);
    var j := start + 1;
    while j < |lines|
      invariant forall m :: start < m < j && m < |lines| ==> !IsEntryFor(lines[m], dbName)
    {
      if StartsWith(Strip(lines[j]), prefix) {
        return true;
      }
      j := j + 1;
    }
    return false;
  }

  /** Builds the entry line piece by piece, as the handler does. */
  method BuildEntry(req: Request) returns (entry: string)
    ensures entry == EntryLine(req)
  {
    entry := "  " + KeyPrefix(req.dbName) + "{ environment = " + Quoted(req.environment)
             + ", engine = " + Quoted(req.engine);
    ghost var head := entry;
    match req.slackId {
      case Some(id) =>
        if id != "" {
          entry := entry + (", slack_id = " + Quoted(id));
        }
      case None =>
    }
    assert entry == head + SlackClause(req);
    entry := entry + " }";
  }

  /** The handler's merge, step by step: find the opener, scan for a duplicate,
      build the entry line, insert it and rejoin the lines. */
  method MergeConfig(existing: Option<string>, req: Request) returns (result: MergeResult)
    requires NewlineOnlyBreaks(Content(existing))
    ensures result == Merge(existing, req)
  {
    var content := DefaultContent;
    if existing.Some? {
      content := existing.value;
    }
    assert content == Content(existing);
    var lines := SplitLines(content);
    assert Merge(existing, req) == MergeLines(lines, req);

    var start := FindStripsTo(lines, Opener);
    if start == -1 {
      return Error(MissingOpenerMessage);
    }
    assert FirstStripsTo(lines, Opener) == Some(start);

    var duplicate := FindEntryAfter(lines, start, req.dbName);
    if duplicate {
      return Skipped(SkipMessage(req.dbName));
    }

    var entry := BuildEntry(req);
    ghost var before := lines;
    lines := lines[..start + 1] + [entry] + lines[start + 1..];
    assert lines == InsertAfter(before, start, entry);
    result := Updated(Join(lines) + "\n");
  }

  /** The feature branch the change is committed to. */
  function BranchName(req: Request): string {
    "add-" + req.environment + "-" + req.dbName
  }
}
