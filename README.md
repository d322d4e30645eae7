# Review-on-stop hook: a verified model

This project models the decision core of a stop hook for an AI coding
assistant. Whenever the assistant tries to stop, the hook:

1. collects the current git change set: the changed and untracked paths
   (`targets`) and a zero-context patch;
2. rebuilds the review context document from that change set;
3. carries over what still applies from the previous document: checklist
   entries whose file label still names a changed file, and the lint phase
   when nothing changed;
4. either allows the stop, or blocks it with the next phase to work on:
   fix the review checklist, start a review, run the linters, or an
   unknown-state fallback.

The project has three modules:

- `Text` (`text.dfy`) models the Python string built-ins the hook relies on:
  - `strip` over ASCII whitespace;
  - `splitlines` on `'\n'`;
  - `join`, `endswith` and `str(n)`;
  - the "drop the empty strings" comprehension.

  It proves their inverse and shape properties, for example that joining
  lines with `'\n'` and splitting again gives the lines back.
- `DiffUtils` (`diff_utils.dfy`) models `scripts/diff_utils.py`. Every git
  command becomes a `Reply(code, out)`, and the collector sees them as one
  `GitReplies` record.
  - The target merge and the patch assembly are methods with loops. Each is
    proved equal to a specification function, and the merge order,
    membership, freedom from duplicates and fragment selection are proved
    about those functions.
  - `summarize_diff` and `filter_files_by_extension` are pure functions.
- `ReviewOnStop` (`review_on_stop.dfy`) models `scripts/review_on_stop.py`:
  - checklist reconciliation, as a loop proved equal to a filter function;
  - the document rebuild. `main` mutates the document in place, so it is a
    class, `ContextDocument`, whose method is proved against the pure
    `NextState` carry-over function;
  - the stop predicate and the priority-ordered reason selector;
  - `RunHook`, one full invocation.

## Model

| member | source | states |
|---|---|---|
| Text.Strip | scripts/diff_utils.py:101 | `str.strip()` leaves no whitespace at either end |
| Text.TrimStartSpec | scripts/diff_utils.py:101 | `lstrip` removes exactly a leading run of whitespace and keeps the rest as a suffix |
| Text.TrimEndSpec | scripts/diff_utils.py:101 | `rstrip` removes exactly a trailing run of whitespace and keeps the rest as a prefix |
| Text.StripEmptyIff | scripts/review_on_stop.py:34 | a string strips to `""` iff every character is whitespace, which is when `t.strip()` is falsy |
| Text.StripStripped | scripts/diff_utils.py:101 | stripping an already stripped string is the identity |
| Text.IndexOfSpec | scripts/review_on_stop.py:41 | the position `split(":", 1)` cuts at is the first occurrence |
| Text.IndexOfIs | scripts/review_on_stop.py:41 | that first occurrence is unique |
| Text.LinesShape | scripts/diff_utils.py:106 | no line from `splitlines` holds a line break, and only `""` has no lines |
| Text.LinesOfJoin | scripts/diff_utils.py:111 | `"\n".join` of break-free lines whose last line is non-empty splits back into exactly those lines |
| Text.JoinLines | scripts/diff_utils.py:106 | splitting text that does not end in `'\n'` and joining with `'\n'` gives the text back |
| Text.Lines | scripts/diff_utils.py:106 | `splitlines`; its properties are stated by `LinesShape`, `LinesOfJoin` and `JoinLines` |
| Text.Join | scripts/diff_utils.py:101 | `sep.join(parts)`; its properties are stated by `LinesOfJoin`, `JoinLines` and `JoinStripped` |
| Text.Decimal | scripts/diff_utils.py:111 | `str(n)` is a non-empty string of digits with no leading zero; `DecimalRoundTrip` states that it reads back as `n` |
| Text.JoinStripped | scripts/diff_utils.py:101 | joining non-empty stripped parts gives a non-empty stripped string, whatever the separator |
| Text.DecimalRoundTrip | scripts/diff_utils.py:111 | the count printed in the note reads back as the number of lines left out |
| Text.DropEmptyFilter | scripts/diff_utils.py:46 | `[f for f in xs if f]` keeps the order, edits nothing, and keeps every occurrence of each non-empty string and none of `""` |
| Text.DropEmptyNone | scripts/diff_utils.py:101 | the "skip empty parts" filter is the identity when no part is empty |
| DiffUtils.NonEmptyLines | scripts/diff_utils.py:46 | `[f for f in out.splitlines() if f]`; its properties are stated by `ParsedLines` |
| DiffUtils.ParsedLines | scripts/diff_utils.py:46-58 | paths parsed from command output are the output's lines, in order, none empty and none holding a line break |
| DiffUtils.ListedPathsShape | scripts/diff_utils.py:45-58 | a failed listing contributes no path, and no listed path is empty |
| DiffUtils.MergeTargets | scripts/diff_utils.py:60-63 | the copy-then-append loop computes `AppendNew(tracked, untracked)` |
| DiffUtils.CollectTargets | scripts/diff_utils.py:32-65 | `get_git_diff_files` returns `CollectedTargets`: nothing outside a repository; the tracked paths come from `diff --name-only` when the ref verifies and from `ls-files` otherwise |
| DiffUtils.AppendNew | scripts/diff_utils.py:60-63 | the copy-then-append merge as a function; its properties are stated by `AppendNewKeeps` and `AppendNewAdds` |
| DiffUtils.CollectedTargets | scripts/diff_utils.py:32-65 | the list `get_git_diff_files` returns; its properties are stated by `MergedTargets` and `NotARepository` |
| DiffUtils.AppendNewKeeps | scripts/diff_utils.py:60-63 | the tracked list stays in front unchanged, and the result holds a path iff it is tracked or untracked |
| DiffUtils.AppendNewAdds | scripts/diff_utils.py:60-63 | the appended tail lists untracked paths in their reported order and none already present, so a duplicate-free tracked list gives a duplicate-free result |
| DiffUtils.MergedTargets | scripts/diff_utils.py:38-65 | the collected targets start with the tracked list, then list untracked paths in order; every path of both lists is present, none is empty, and none repeats if the tracked list has no repeats |
| DiffUtils.NotARepository | scripts/diff_utils.py:34-36 | outside a repository there are no targets and the patch is empty |
| DiffUtils.CollectPatch | scripts/diff_utils.py:68-101 | `get_git_diff_unified`'s loop computes `CollectedPatch`: the non-empty fragments joined by `"\n\n"`, stripped |
| DiffUtils.CollectedPatch | scripts/diff_utils.py:68-101 | the patch `get_git_diff_unified` returns; its properties are stated by `PatchFragments`, `StrippedPatch` and `NotARepository` |
| DiffUtils.UntrackedPartsMembers | scripts/diff_utils.py:92-99 | an untracked file's diff is a fragment iff git exited 0 or 1 with non-empty output |
| DiffUtils.PatchFragments | scripts/diff_utils.py:78-101 | the reference diff comes first when it succeeded with output; the fragments are exactly it and the successful untracked diffs; none is empty, so skipping empty parts removes nothing |
| DiffUtils.StrippedPatch | scripts/diff_utils.py:101 | with output stripped by the command wrapper, the final strip changes nothing and the patch is the plain `"\n\n"` join |
| DiffUtils.PrefixTo | scripts/diff_utils.py:111 | `lines[:k]` is a prefix of `lines` holding `min(k, len(lines))` lines for `k >= 0`, and `max(0, len(lines) + k)` lines for negative `k` |
| DiffUtils.SummarizeDiff | scripts/diff_utils.py:104-108 | a patch with at most `max_lines` lines is returned unchanged |
| DiffUtils.SummaryKeepsHead | scripts/diff_utils.py:104-111 | a longer patch is summarized as exactly its first `max_lines` lines, then one note line naming the number of lines left out |
| DiffUtils.SummaryOfZero | scripts/diff_utils.py:106-111 | with `max_lines` 0, a non-empty patch becomes an empty line, then the note counting all its lines |
| DiffUtils.SummaryOfNegative | scripts/diff_utils.py:106-111 | with a negative `max_lines`, all but the last `-max_lines` lines are kept, and the note counts `len(lines) - max_lines` lines, more than the patch has |
| DiffUtils.FilterFilesByExtension | scripts/diff_utils.py:114-122 | the result is a subsequence of `files` that keeps every occurrence of each file ending with one of the extensions and no other file |
| ReviewOnStop.ParseStatus | scripts/review_on_stop.py:154-165 | a stored status string is one of the three phases exactly when it spells that phase's name |
| ReviewOnStop.StatusRoundTrip | scripts/review_on_stop.py:204-207 | writing a status and reading it back are inverse in both directions |
| ReviewOnStop.ContextDocument.Build | scripts/review_on_stop.py:101-123 | `build_context` creates the document `FreshContext` describes |
| ReviewOnStop.MergeChecklistEntries | scripts/review_on_stop.py:22-45 | the entry-by-entry loop returns `Reconciled`: `[]` when the stored checklist is not a list or there are no targets, otherwise the string entries the keep rule accepts, in order |
| ReviewOnStop.KeepEntries | scripts/review_on_stop.py:36-45 | the entry-by-entry filter as a function; its properties are stated by `KeepEntriesFilter` |
| ReviewOnStop.Reconciled | scripts/review_on_stop.py:22-45 | `merge_checklist_entries` as a function; its properties are stated by `ReconciledIsFilter`, `ReconcileRules`, `BlankTargetsKeepAll` and `ReconcileIdempotent` |
| ReviewOnStop.KeepEntriesFilter | scripts/review_on_stop.py:36-45 | the kept entries are a subsequence of the string entries, unedited; every occurrence of a string the keep rule accepts is kept, and no other string |
| ReviewOnStop.ReconciledIsFilter | scripts/review_on_stop.py:27-45 | reconciliation keeps order and text and drops non-strings; with no targets nothing survives; otherwise an entry survives iff the keep rule accepts it, with every occurrence kept |
| ReviewOnStop.NormalizedTargetsMembers | scripts/review_on_stop.py:33-35 | the normalized targets are exactly the non-blank targets, trimmed |
| ReviewOnStop.ReconcileRules | scripts/review_on_stop.py:40-44 | an entry without `:` is kept; an empty label or a label naming a target is kept; a non-empty label absent from a non-empty target set is dropped |
| ReviewOnStop.BlankTargetsKeepAll | scripts/review_on_stop.py:33-44 | when targets exist but are all blank, every string entry is kept, in order |
| ReviewOnStop.ReconcileIdempotent | scripts/review_on_stop.py:22-45 | reconciling a reconciled checklist against the same targets changes nothing |
| ReviewOnStop.LabelOf | scripts/review_on_stop.py:40-41 | the label of `"path:message"` is `path` when the path has no `:` and no surrounding blanks |
| ReviewOnStop.CarryOver | scripts/review_on_stop.py:187-207 | the carry-over applied to a built document; its properties are stated by `NextStateRules` and `RunTwiceUnchanged` |
| ReviewOnStop.NextState | scripts/review_on_stop.py:101-123 | the document one run writes: built fresh, then carried over; its properties are stated by `NextStateRules` and `RunTwiceUnchanged` |
| ReviewOnStop.NextStateRules | scripts/review_on_stop.py:187-207 | see the note below the table |
| ReviewOnStop.ContextDocument.CarryOverFrom | scripts/review_on_stop.py:187-207 | the in-place updates of `main` turn the document into `CarryOver(old document, previous document)` |
| ReviewOnStop.RunTwiceUnchanged | scripts/review_on_stop.py:190-207 | a second run on an unchanged tree, reading the first run's document, writes the same document again, so the lint phase is kept |
| ReviewOnStop.ShouldAllowStop | scripts/review_on_stop.py:126-136 | `should_allow_stop`, comparing the status text with "done"; its properties are stated by `StopRule` |
| ReviewOnStop.StopRule | scripts/review_on_stop.py:126-136 | for a well-formed status: stop is allowed when there are no targets; with targets, stop is allowed iff the checklist is empty and the status is done |
| ReviewOnStop.GenerateReason | scripts/review_on_stop.py:139-175 | `generate_reason`, comparing the status text with the phase names; its properties are stated by `ReasonPriority` and `FallbackOnlyForUnknownStatus` |
| ReviewOnStop.ReasonPriority | scripts/review_on_stop.py:139-175 | see the note below the table |
| ReviewOnStop.FallbackOnlyForUnknownStatus | scripts/review_on_stop.py:153-175 | a blocked stop whose status is a phase name always gets one of the three path-naming instructions |
| ReviewOnStop.Decide | scripts/review_on_stop.py:213-220 | allow when `should_allow_stop` holds, otherwise block with `generate_reason`; its properties are stated by `RunHook` and the scenario lemmas below |
| ReviewOnStop.Collected | scripts/review_on_stop.py:71-78 | `changed_files_unified0`: nothing outside a repository, otherwise the collected targets and patch; `NoRepositoryAllows` states its effect |
| ReviewOnStop.RunHook | scripts/review_on_stop.py:178-220 | one invocation writes `NextState(previous, collected targets, collected patch)` and decides `Decide` on it |
| ReviewOnStop.NoRepositoryAllows | scripts/review_on_stop.py:71-78 | outside a repository the hook always allows the stop |
| ReviewOnStop.ChangedDiffRestartsReview | scripts/review_on_stop.py:190-207 | with targets, a changed diff and no surviving entry, the hook blocks and asks to start a review |
| ReviewOnStop.FirstRunStartsReview | scripts/review_on_stop.py:83-88 | with the default previous document and one changed file, the hook asks to start a review |
| ReviewOnStop.OpenEntryBlocks | scripts/review_on_stop.py:40-44 | an entry labelled with a still-changed file survives, and the hook blocks on the checklist |
| ReviewOnStop.StaleEntryDropped | scripts/review_on_stop.py:40-44 | an entry labelled with a file that left the change set is dropped, and the hook falls through to the review phase |
| ReviewOnStop.LintPhaseCarried | scripts/review_on_stop.py:204-207 | on an unchanged diff, a stored in_progress asks to run the linters, and a stored done allows the stop |

Notes on the rows that say "see the note below the table":

- `ReviewOnStop.NextStateRules` states that:
  - targets and patch are always the fresh ones;
  - the checklist is the reconciled list;
  - the status is the stored one when the diff is unchanged and the stored status is truthy, and pending otherwise;
  - the status is always well formed.
- `ReviewOnStop.ReasonPriority` states that:
  - a non-empty checklist gives fix-checklist;
  - otherwise pending gives start-review;
  - otherwise in_progress gives run-linters;
  - otherwise the fallback is given;
  - the first three name the document path.

  Like `StopRule`, it is stated for a well-formed status, the only kind `NextState` produces (`NextStateRules`).

The "only when non-empty" guard on the carried checklist (scripts/review_on_stop.py:200) changes nothing observable. When reconciliation returns `[]`, the fresh checklist is `[]` already. `NextStateRules` states this: the new checklist is the reconciled list in every case.

## Left out

- The command wrappers `run` and `run_command`, their 30-second timeout and their exception handling. Each git command is an input `Reply(code, out)`, where `out` is the stdout the wrapper returns (already stripped). `StrippedPatch` states what that stripping implies for the patch.
- Repeated identical git queries are answered by one `Reply`: `rev-parse --git-dir` is asked three times: by `is_git_repo` (scripts/review_on_stop.py:67), by the target collector and by the patch collector. `rev-parse --verify` and `ls-files --others` are each asked once by the target collector and once by the patch collector. A working tree that changes between the two queries is not modelled.
- The `ref` and `unified` parameters are fixed by the replies the caller supplies; `HEAD` and 0 are not named in the model.
- JSON reading and writing, `mkdir`, and `load_context`'s fallbacks for a missing or unreadable file. The previous document is the input `PrevDoc`, and `DefaultPrev` is the fallback document. `dict.get` defaults are assumed already applied.
- Malformed previous documents are only partly modelled: a non-list checklist is `None`, and non-string checklist entries are `NonStr`. Not modelled are non-list `targets`, non-string statuses, and non-string entries inside `current_targets`; targets are always strings here.
- A `review` or `lint` value that is not a JSON object. `.get` then raises (scripts/review_on_stop.py:188, 205) and the hook exits 1. `build_context` has already overwritten the file with a fresh document (scripts/review_on_stop.py:120), so the stored checklist is lost. The model always reads a well-shaped `PrevDoc`.
- ReviewOnStop.Truthy: models the truthiness of a string status only; other JSON values such as numbers and lists are not modelled.
- The `generatedAt` timestamp, the environment-derived `ROOT` and `CTX_PATH`, and the relative path computation. The relative document path is the `docPath` parameter.
- Printing the decision as JSON, the catch-all `except`, and `sys.exit(1)`. `Decision` is the value that would be printed.
- The Japanese reason texts. A `Reason` records which instruction is given and the path it names. The fallback instruction names only the file `context.json`, not the document's relative path.
- `str.strip` and `str.splitlines` handle only the ASCII whitespace set and `'\n'`. Unicode whitespace and other line boundaries (`\r`, `\r\n`, `\x0b`, `\x1c`–`\x1e`, `\x85` and the Unicode separators …) are not line breaks in this model.
- `DefaultPrev`, the document `load_context` falls back to (scripts/review_on_stop.py:83-98), is a constant, not a function; `FirstRunStartsReview` states what the hook does with it.
- The default argument values (`ref="HEAD"`, `unified=0`, `max_lines=100`) are not modelled as defaults; callers pass the values.
