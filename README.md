# tfvars merge of the RDS provisioning handler

The handler receives a provisioning request: a database name, an engine, a
target environment and an optional Slack id. It adds one line for that database
to `terraform/environments/terraform.tfvars` on branch `add-<environment>-<db_name>`.
Then it opens a pull request. This project models the only logic in that
handler, the text merge in `lambda_handler`, and proves what the merge does.

- `py_str.dfy` (module `PyStr`): the Python 3 `str` operations the merge uses.
  That is `strip()` (with Python's full `isspace` table), `startswith`,
  `splitlines()` and `"\n".join`.
- `tfvars_merge.dfy` (module `TfvarsMerge`): the request and result datatypes.
  It holds the default file content, the entry-line format, and the
  specification functions `MergeLines` and `Merge`. `MergeConfig` is the
  handler's merge written the way the handler runs it. Its opener search is a
  `for` loop that `break`s. Its duplicate scan is a loop that returns early.
  It builds the entry with `+=` and inserts it into the line list. Each of
  these is proved equal to the specification.
- `merge_properties.dfy` (module `MergeProperties`): lemmas about the
  specification. They cover the error and skip conditions, where the entry is
  inserted, that every other line is kept, the trailing newline, replay
  idempotence, the default content, the `" = "` delimiter and the branch name.

The merge has three results:
- `Error`: no line strips to `environments = {`. The handler raises here.
- `Skipped`: some line after the first opener, once stripped, starts with
  `<db_name> = `. The scan runs to the end of the file, not only to the
  block's closing `}`.
- `Updated(text)`: the entry line goes directly after the first opener, and
  every line is terminated by `"\n"`.

If the file cannot be fetched, the handler uses
`environments = {\n}\n\naws_region = "us-east-1"\n` instead. With that content
the merge never fails. It does skip for a database named `aws_region`, because
the line `aws_region = "us-east-1"` then reads as an existing entry
(`DefaultContentMerge`).

Two consequences of the handler's plain prefix test are proved.
- A database name that is empty or starts with whitespace is never found,
  because `strip()` removes the whitespace the key prefix would need. For
  such a name the merge never skips (`UnstableNameNeverSkips`), so replaying
  a request updates again and adds a second entry (`UnstableReplayAddsEntry`).
- The branch name identifies the database within one environment, but not
  across environments: `prod-eu`/`orders` and `prod`/`eu-orders` share one
  branch (`BranchNamesCanCollide`).

Two behaviours of the code are worth noting. The duplicate scan is not limited
to the `environments` block: it runs to the end of the file. A file with
several openers is not rejected, because the first one is used.

## Model

| member | source | states |
|---|---|---|
| TfvarsMerge.Content | sam/lambda/handler.py:40-47 | the fetched text, or the default skeleton `environments = {\n}\n\naws_region = "us-east-1"\n` when the fetch raised; `DefaultContentSplits` and `DefaultContentMerge` state what that skeleton splits into and merges to |
| TfvarsMerge.IsEntryFor | sam/lambda/handler.py:64 | a line is an entry for a database when, stripped, it starts with `<db_name> = `; `EntryStrips`, `DistinctNamesDoNotMatch`, `DistinctEntriesDoNotMatch`, `RegionLineEntry` and `UnstableNameNeverSkips` state which lines that accepts |
| TfvarsMerge.EntryLine | sam/lambda/handler.py:69-72 | the entry line format; `BuildEntry` proves the handler's `+=` construction builds it, and `EntryStrips`, `EntryHasNoLineBreak` and `SlackClauseTruthiness` state its shape |
| TfvarsMerge.MergeLines | sam/lambda/handler.py:52-78 | the merge on the file's lines: error without an opener, skip when an entry follows the first opener, otherwise the entry inserted after it; `ErrorIffNoOpener`, `AnchorIsFirstOpener`, `UpdatedEndsWithNewline`, `UpdatedLinesSplit` and `UpdatedHasOneEntry` state these cases |
| TfvarsMerge.Merge | sam/lambda/handler.py:49-78 | the merge on the fetched or default content split into lines; `MergeConfig` is proved equal to it, and `UpdatedTextLines`, `ReplayIsSkipped`, `UnstableReplayAddsEntry` and `DefaultContentMerge` state its behaviour |
| TfvarsMerge.BranchName | sam/lambda/handler.py:25 | `add-<environment>-<db_name>`; `BranchNameIdentifiesDatabase` and `BranchNamesCanCollide` state when two requests share it |
| PyStr.Strip | sam/lambda/handler.py:55 | `strip()`: the result has no Python whitespace at either end and is no longer than the input |
| PyStr.StripShape | sam/lambda/handler.py:55 | the input is whitespace, then the stripped text, then whitespace |
| PyStr.StripExact | sam/lambda/handler.py:55 | conversely, whitespace around a trimmed string strips to exactly that string |
| PyStr.SplitLines | sam/lambda/handler.py:50 | `splitlines()` on text whose only line break is `\n`: no piece holds a line break, and terminating each piece with `\n` gives the text back (plus a final `\n` if it had none) |
| PyStr.Join | sam/lambda/handler.py:78 | `"\n".join(lines)` followed by `"\n"` is every line terminated by `\n`; joining no lines gives `""` |
| PyStr.SplitUnlines | sam/lambda/handler.py:78 | lines without line breaks, each terminated by `\n`, split back into exactly those lines |
| PyStr.JoinSplitRoundTrip | sam/lambda/handler.py:78 | `("\n".join(lines) + "\n").splitlines() == lines` for non-empty lists of lines without breaks |
| TfvarsMerge.FirstStripsTo | sam/lambda/handler.py:53-57 | returns the index of a line that strips to the text with no such line before it, or None exactly when no line does |
| TfvarsMerge.FirstStripsToIs | sam/lambda/handler.py:54-57 | a matching line with no match before it is the index found: later openers are ignored |
| TfvarsMerge.InsertAfter | sam/lambda/handler.py:75 | `lines.insert(k + 1, line)`: one more line, the new line at `k + 1`, lines up to `k` in place, later lines shifted by one |
| TfvarsMerge.FindStripsTo | sam/lambda/handler.py:53-57 | the search loop with `break` returns the first opener index, or -1 when there is none |
| TfvarsMerge.FindEntryAfter | sam/lambda/handler.py:63-66 | the early-return scan is true exactly when a line after the opener, stripped, starts with `<db_name> = ` |
| TfvarsMerge.BuildEntry | sam/lambda/handler.py:69-72 | the `+=` construction yields exactly the entry line format, with the slack clause only for a truthy id |
| TfvarsMerge.MergeConfig | sam/lambda/handler.py:44-78 | the handler's merge equals the specification `Merge` on every input with `\n`-only line breaks, the absent file included |
| MergeProperties.ErrorIffNoOpener | sam/lambda/handler.py:53-60 | the merge fails, with the handler's message, exactly when no line strips to `environments = {` |
| MergeProperties.AnchorIsFirstOpener | sam/lambda/handler.py:54-75 | with `k` the first opener the merge never fails; it skips exactly when a line after `k`, to the end of the file, is an entry for the database; otherwise its text is the entry inserted after `k` |
| MergeProperties.UpdatedEndsWithNewline | sam/lambda/handler.py:78 | updated text is non-empty and ends in `\n` |
| MergeProperties.UpdatedLinesSplit | sam/lambda/handler.py:75-78 | when no line or request field holds a line break, the updated text has `\n` as its only break and splits into the original lines with the entry inserted after the first opener |
| MergeProperties.UpdatedTextLines | sam/lambda/handler.py:50-78 | the same, from the fetched or default content: the new file's lines are exactly the old lines plus the entry |
| MergeProperties.UpdatedHasOneEntry | sam/lambda/handler.py:63-75 | for a name that is non-empty and does not start with whitespace, after an update the only line after the opener that is an entry for the database is the inserted one |
| MergeProperties.ReplayIsSkipped | sam/lambda/handler.py:50-78 | re-running the same request on the updated text is Skipped |
| MergeProperties.UnstableNameNeverSkips | sam/lambda/handler.py:63-66 | a database name that is empty or starts with whitespace never causes a skip |
| MergeProperties.UnstableReplayAddsEntry | sam/lambda/handler.py:50-78 | for such a name, merging the request into the text it produced updates again instead of skipping |
| MergeProperties.DistinctNamesDoNotMatch | sam/lambda/handler.py:64 | with the `" = "` delimiter, distinct names without spaces never match each other's entries (`db1` against `db10 = ...`) |
| MergeProperties.DistinctEntriesDoNotMatch | sam/lambda/handler.py:64-72 | for a space-free database name that is non-empty and does not start with whitespace, the entry line the merge writes for it is not an entry for any other space-free name, so the line for `db10` never makes a request for `db1` skip |
| MergeProperties.EntryStrips | sam/lambda/handler.py:64-72 | for a name that is non-empty and does not start with whitespace, the entry line strips to its key prefix and value, so it counts as an entry for its own database |
| MergeProperties.EntryHasNoLineBreak | sam/lambda/handler.py:69-72 | the entry is a single line when the request fields contain no line break |
| MergeProperties.SlackClauseTruthiness | sam/lambda/handler.py:70-71 | a present, non-empty Slack id ends the entry with `, slack_id = "<id>" }`; an absent or empty id gives the line of no id |
| MergeProperties.DefaultContentSplits | sam/lambda/handler.py:46-50 | the default content splits into `environments = {`, `}`, the empty line and `aws_region = "us-east-1"` |
| MergeProperties.RegionLineEntry | sam/lambda/handler.py:64 | `aws_region = "us-east-1"` is an entry for a database exactly when that database is named `aws_region` |
| MergeProperties.DefaultContentMerge | sam/lambda/handler.py:46-78 | with the file absent the merge never fails; it gives `environments = {\n<entry>\n}\n\naws_region = "us-east-1"\n`, or Skipped for `aws_region` |
| MergeProperties.BranchNameIdentifiesDatabase | sam/lambda/handler.py:25 | within one environment, two requests share the branch name exactly when they name the same database |
| MergeProperties.BranchNamesCanCollide | sam/lambda/handler.py:25 | requests for different environments can share a branch name |

## Left out

- Queue message unpacking and `json.loads` (sam/lambda/handler.py:9-15) are external parsing. The request arrives as a parsed `Request`. Fields that are not strings, and missing keys, are not modelled.
- Secrets Manager and `os.environ` (sam/lambda/handler.py:18-24) are calls to external services.
- All GitHub calls (sam/lambda/handler.py:29-47, 81-110) are network I/O. This covers branch lookup and creation, fetching the file, create or update, and the pull request. The fetch becomes an `Option<string>` input. `None` means `get_contents` or the UTF-8 decode raised, since the bare `except` catches both. The file version token (`sha`) and the create/update choice are not modelled.
- `print` logging and the commit message, PR title and PR body (sam/lambda/handler.py:65, 84, 92, 98-108) are output only. The status dictionaries become the `MergeResult` constructors. The raised exception becomes `Error`, carrying the handler's message.
- `splitlines()` is modelled only on text whose single line boundary is `\n`. The model does not cover `\r`, `\r\n`, `\v`, `\f`, `\x1c`-`\x1e`, `\x85`, U+2028 or U+2029. Every member that splits text requires this.
- Lone surrogates, which a Python `str` from `json.loads` can hold, are not represented: Dafny strings are sequences of Unicode scalar values. The merge treats such a character like any other character that is neither whitespace nor a line break.
- SplitLines: requires `\n`-only text. Python accepts any text here, so this precondition is narrower than the source.
- UpdatedTextLines: stated only for request fields without line breaks. A field holding a line break makes the committed file's lines differ from the inserted list.
- ReplayIsSkipped: stated only for fields without line breaks and a database name that is non-empty and does not start with whitespace. An empty name or one starting with whitespace updates again (UnstableReplayAddsEntry). A `\n` in `db_name` also makes the replay update again. A `\n` in the other fields still skips, which the lemma does not cover.
