/** The diff collector: which files changed and what the zero-context patch is.

    Every git query becomes one `Reply` (exit code, stdout as the command
    wrapper returns it), gathered in a `GitReplies` record; the collector only
    decides which replies to use and how to combine them. */
module DiffUtils {
  import opened Text

  /** The exit code and standard output of one git command. */
  datatype Reply = Reply(code: int, out: string)

  /** Git's answers to the queries the collector makes for one reference. */
  datatype GitReplies = GitReplies(
    gitDir: Reply,                   // git rev-parse --git-dir
    verifyRef: Reply,                // git rev-parse --verify <ref>
    diffNames: Reply,                // git diff --name-only <ref>
    lsFiles: Reply,                  // git ls-files
    others: Reply,                   // git ls-files --others --exclude-standard
    diffUnified: Reply,              // git diff --unified=<n> <ref>
    untrackedDiff: string -> Reply   // git diff --unified=<n> --no-index /dev/null <path>
  )

  /** The non-empty lines of a command's output: `[f for f in out.splitlines() if f]`. */
  function NonEmptyLines(out: string): seq<string> {
    DropEmpty(Lines(out))
  }

  /** Parsed output lists the lines of the output in order, none of them
      empty and none holding a line break. */
  lemma ParsedLines(out: string)
    ensures var r := NonEmptyLines(out);
      (forall k :: 0 <= k < |r| ==> r[k] != "" && OneLine(r[k])) &&
      IsSubsequence(r, Lines(out))
  {
    var r := NonEmptyLines(out);
    DropEmptyFilter(Lines(out));
    LinesShape(out);
    assert forall k :: 0 <= k < |r| ==> r[k] in Lines(out);
  }

  /** The paths a listing command reports: nothing unless it exited 0 with output. */
  function ListedPaths(reply: Reply): seq<string> {
    if reply.code == 0 && reply.out != "" then NonEmptyLines(reply.out) else []
  }

  /** A failed listing contributes nothing, and no listed path is empty. */
  lemma ListedPathsShape(reply: Reply)
    ensures reply.code != 0 ==> ListedPaths(reply) == []
    ensures forall k :: 0 <= k < |ListedPaths(reply)| ==> ListedPaths(reply)[k] != ""
  {
    ParsedLines(reply.out);
  }

  /** The tracked changes: the diff against the reference when it verifies,
      otherwise every tracked file (a repository without commits). */
  function TrackedPaths(g: GitReplies): seq<string> {
    if g.verifyRef.code == 0 then ListedPaths(g.diffNames) else ListedPaths(g.lsFiles)
  }

  function UntrackedPaths(g: GitReplies): seq<string> {
    ListedPaths(g.others)
  }

  /** `targets` extended by each path of `paths` it does not already hold, in order. */
  function AppendNew(targets: seq<string>, paths: seq<string>): seq<string>
    decreases |paths|
  {
    if paths == [] then targets
    else AppendNew(if paths[0] in targets then targets else targets + [paths[0]], paths[1..])
  }

  /** The change set `get_git_diff_files` reports. */
  function CollectedTargets(g: GitReplies): seq<string> {
    if g.gitDir.code != 0 then [] else AppendNew(TrackedPaths(g), UntrackedPaths(g))
  }

  /** Copies the tracked list and appends every untracked path not yet in it. */
  method MergeTargets(tracked: seq<string>, untracked: seq<string>) returns (targets: seq<string>)
    ensures targets == AppendNew(tracked, untracked)
  {
    targets := tracked;
    for i := 0 to |untracked|
      invariant AppendNew(targets, untracked[i..]) == AppendNew(tracked, untracked)
    {
      assert untracked[i..][1..] == untracked[i + 1..];
      var path := untracked[i];
      if path !in targets {
        targets := targets + [path];
      }
    }
  }

  /** `get_git_diff_files`: the changed and untracked paths, tracked ones first. */
  method CollectTargets(g: GitReplies) returns (targets: seq<string>)
    ensures targets == CollectedTargets(g)
  {
    if g.gitDir.code != 0 {
      return [];
    }
    var tracked: seq<string> := [];
    if g.verifyRef.code == 0 {
      if g.diffNames.code == 0 && g.diffNames.out != "" {
        tracked := NonEmptyLines(g.diffNames.out);
      }
    } else {
      if g.lsFiles.code == 0 && g.lsFiles.out != "" {
        tracked := NonEmptyLines(g.lsFiles.out);
      }
    }
    var untracked: seq<string> := [];
    if g.others.code == 0 && g.others.out != "" {
      untracked := NonEmptyLines(g.others.out);
    }
    targets := MergeTargets(tracked, untracked);
  }

  /** What `AppendNew` promises: `targets` stays in front unchanged, every path
      of either list is present, the appended tail lists paths of `paths` in
      their order and none already in `targets`, and no duplicate is created. */
  lemma {:induction false} AppendNewKeeps(targets: seq<string>, paths: seq<string>)
    ensures var r := AppendNew(targets, paths);
      |targets| <= |r| && r[..|targets|] == targets &&
      (forall x :: x in r <==> x in targets || x in paths)
    decreases |paths|
  {
    if paths != [] {
      var p := paths[0];
      var next := if p in targets then targets else targets + [p];
      AppendNewKeeps(next, paths[1..]);
      var r := AppendNew(targets, paths);
      assert r[..|targets|] == next[..|targets|];
      assert forall x :: x in paths <==> x == p || x in paths[1..] by {
        assert paths == [p] + paths[1..];
      }
    }
  }

  lemma {:induction false} AppendNewAdds(targets: seq<string>, paths: seq<string>)
    ensures var r := AppendNew(targets, paths);
      |targets| <= |r| &&
      IsSubsequence(r[|targets|..], paths) &&
      (forall k :: |targets| <= k < |r| ==> r[k] !in targets) &&
      (NoDuplicates(targets) ==> NoDuplicates(r))
    decreases |paths|
  {
    if paths != [] {
      var p := paths[0];
      var next := if p in targets then targets else targets + [p];
      AppendNewAdds(next, paths[1..]);
      AppendNewKeeps(next, paths[1..]);
      var r := AppendNew(targets, paths);
      if p !in targets {
        assert r[|targets|..] == [p] + r[|next|..];
        assert r[|targets|..][1..] == r[|next|..];
        forall k | |targets| <= k < |r| ensures r[k] !in targets {
          if k >= |next| {
            assert r[k] !in next;
          } else {
            assert r[k] == p;
          }
        }
      }
    }
  }

  /** The target list starts with the tracked list as reported, followed by
      untracked paths in their reported order; it names every path of both
      lists and repeats none when the tracked list repeats none. */
  lemma MergedTargets(g: GitReplies)
    requires g.gitDir.code == 0
    ensures var t, u, r := TrackedPaths(g), UntrackedPaths(g), CollectedTargets(g);
      |t| <= |r| && r[..|t|] == t &&
      IsSubsequence(r[|t|..], u) &&
      (forall x :: x in r <==> x in t || x in u) &&
      (forall k :: 0 <= k < |r| ==> r[k] != "") &&
      (NoDuplicates(t) ==> NoDuplicates(r))
  {
    var t, u := TrackedPaths(g), UntrackedPaths(g);
    AppendNewKeeps(t, u);
    AppendNewAdds(t, u);
    ListedPathsShape(g.diffNames);
    ListedPathsShape(g.lsFiles);
    ListedPathsShape(g.others);
    assert forall k :: 0 <= k < |t| ==> t[k] != "";
    assert forall k :: 0 <= k < |u| ==> u[k] != "";
    var r := CollectedTargets(g);
    forall k | 0 <= k < |r| ensures r[k] != "" {
      assert r[k] in r;
    }
  }

  /** The diff against the reference, when it verifies and the diff succeeded
      with some output. */
  function RefPart(g: GitReplies): seq<string> {
    if g.verifyRef.code == 0 && g.diffUnified.code == 0 && g.diffUnified.out != ""
    then [g.diffUnified.out] else []
  }

  /** One untracked file's diff against an empty file: `git diff --no-index`
      exits 1 when the files differ, so 0 and 1 both count as success. */
  function UntrackedPart(reply: Reply): seq<string> {
    if (reply.code == 0 || reply.code == 1) && reply.out != "" then [reply.out] else []
  }

  function UntrackedParts(paths: seq<string>, diff: string -> Reply): seq<string>
    decreases |paths|
  {
    if paths == [] then []
    else UntrackedParts(paths[..|paths| - 1], diff) + UntrackedPart(diff(paths[|paths| - 1]))
  }

  /** The fragments `get_git_diff_unified` collects, in order. */
  function PatchParts(g: GitReplies): seq<string> {
    RefPart(g) + UntrackedParts(UntrackedPaths(g), g.untrackedDiff)
  }

  /** The patch `get_git_diff_unified` returns. */
  function CollectedPatch(g: GitReplies): string {
    if g.gitDir.code != 0 then "" else Strip(Join(DropEmpty(PatchParts(g)), "\n\n"))
  }

  /** `get_git_diff_unified`: the reference diff and each untracked file's
      diff, the non-empty ones joined by a blank line, stripped. */
  method CollectPatch(g: GitReplies) returns (patch: string)
    ensures patch == CollectedPatch(g)
  {
    if g.gitDir.code != 0 {
      return "";
    }
    var parts: seq<string> := [];
    if g.verifyRef.code == 0 {
      if g.diffUnified.code == 0 && g.diffUnified.out != "" {
        parts := parts + [g.diffUnified.out];
      }
    }
    if g.others.code == 0 && g.others.out != "" {
      var paths := NonEmptyLines(g.others.out);
      for i := 0 to |paths|
        invariant parts == RefPart(g) + UntrackedParts(paths[..i], g.untrackedDiff)
      {
        assert paths[..i + 1][..i] == paths[..i];
        var reply := g.untrackedDiff(paths[i]);
        if (reply.code == 0 || reply.code == 1) && reply.out != "" {
          parts := parts + [reply.out];
        }
      }
      assert paths[..|paths|] == paths;
    }
    assert parts == PatchParts(g);
    patch := Strip(Join(DropEmpty(parts), "\n\n"));
  }

  /** Which untracked diffs become fragments: exactly the successful,
      non-empty ones, and every fragment is non-empty. */
  lemma {:induction false} UntrackedPartsMembers(paths: seq<string>, diff: string -> Reply)
    ensures forall k :: 0 <= k < |UntrackedParts(paths, diff)| ==> UntrackedParts(paths, diff)[k] != ""
    ensures forall x :: x in UntrackedParts(paths, diff) <==>
      exists p :: p in paths && (diff(p).code == 0 || diff(p).code == 1) && diff(p).out == x && x != ""
    decreases |paths|
  {
    if paths != [] {
      var init, last := paths[..|paths| - 1], paths[|paths| - 1];
      UntrackedPartsMembers(init, diff);
      assert paths == init + [last];
      forall x ensures x in UntrackedParts(paths, diff) <==>
        exists p :: p in paths && (diff(p).code == 0 || diff(p).code == 1) && diff(p).out == x && x != ""
      {
        if x in UntrackedParts(paths, diff) && x !in UntrackedParts(init, diff) {
          assert last in paths;
        }
      }
    }
  }

  /** The fragments of the patch: the reference diff (first, when present)
      and the successful untracked diffs; none of them is empty, so the
      "skip empty parts" filter before joining removes nothing. */
  lemma PatchFragments(g: GitReplies)
    ensures forall k :: 0 <= k < |PatchParts(g)| ==> PatchParts(g)[k] != ""
    ensures DropEmpty(PatchParts(g)) == PatchParts(g)
    ensures RefPart(g) != [] ==> PatchParts(g)[0] == g.diffUnified.out
    ensures forall x :: x in PatchParts(g) <==>
      (x in RefPart(g)) ||
      exists p :: p in UntrackedPaths(g) && (g.untrackedDiff(p).code == 0 || g.untrackedDiff(p).code == 1) &&
        g.untrackedDiff(p).out == x && x != ""
  {
    UntrackedPartsMembers(UntrackedPaths(g), g.untrackedDiff);
    DropEmptyNone(PatchParts(g));
  }

  /** Git output arrives stripped from the command wrapper; then the final
      strip changes nothing and the patch is just the fragments joined by a
      blank line. */
  lemma StrippedPatch(g: GitReplies)
    requires g.gitDir.code == 0
    requires IsStripped(g.diffUnified.out)
    requires forall p :: IsStripped(g.untrackedDiff(p).out)
    ensures CollectedPatch(g) == Join(PatchParts(g), "\n\n")
  {
    PatchFragments(g);
    var parts := PatchParts(g);
    UntrackedPartsMembers(UntrackedPaths(g), g.untrackedDiff);
    forall k | 0 <= k < |parts| ensures IsStripped(parts[k]) {
      assert parts[k] in parts;
    }
    JoinStripped(parts, "\n\n");
    StripStripped(Join(parts, "\n\n"));
  }

  /** Outside a repository there is nothing to review. */
  lemma NotARepository(g: GitReplies)
    requires g.gitDir.code != 0
    ensures CollectedTargets(g) == [] && CollectedPatch(g) == ""
  {
  }

  /** Python's `xs[:k]`: a negative `k` counts from the end. */
  function PrefixTo<T>(xs: seq<T>, k: int): (r: seq<T>)
    ensures |r| <= |xs| && r == xs[..|r|]
    ensures 0 <= k ==> |r| == if k <= |xs| then k else |xs|
    ensures k < 0 ==> |r| == if |xs| + k > 0 then |xs| + k else 0
  {
    if k >= |xs| then xs
    else if k >= 0 then xs[..k]
    else if |xs| + k > 0 then xs[..|xs| + k]
    else []
  }

  /** `PrefixTo` as a plain slice, for a non-negative and a negative bound. */
  lemma PrefixToSlices<T>(xs: seq<T>, k: int)
    ensures 0 <= k <= |xs| ==> PrefixTo(xs, k) == xs[..k]
    ensures k < 0 && |xs| + k >= 0 ==> PrefixTo(xs, k) == xs[..|xs| + k]
  {
  }

  /** The line `summarize_diff` appends after the kept lines. */
  function MoreLinesNote(n: nat): string {
    "... (" + Decimal(n) + " more lines)"
  }

  /** `summarize_diff(patch, max_lines)`. */
  function SummarizeDiff(patch: string, maxLines: int): (r: string)
    ensures |Lines(patch)| <= maxLines ==> r == patch
  {
    var lines := Lines(patch);
    if |lines| <= maxLines then patch
    else Join(PrefixTo(lines, maxLines), "\n") + "\n" + MoreLinesNote(|lines| - maxLines)
  }

  /** A patch longer than `maxLines` lines is cut to exactly its first
      `maxLines` lines followed by one note giving the number left out. */
  lemma SummaryKeepsHead(patch: string, maxLines: int)
    requires 1 <= maxLines < |Lines(patch)|
    ensures Lines(SummarizeDiff(patch, maxLines)) ==
      Lines(patch)[..maxLines] + [MoreLinesNote(|Lines(patch)| - maxLines)]
  {
    PrefixToSlices(Lines(patch), maxLines);
    SummaryIsJoin(patch, maxLines);
    LinesOfHeadAndNote(patch, maxLines, |Lines(patch)| - maxLines);
  }

  /** A negative `max_lines` slices from the end: all but the last
      `-max_lines` lines are kept, yet the note counts `len(lines) - max_lines`
      lines, more than the patch has. */
  lemma SummaryOfNegative(patch: string, maxLines: int)
    requires maxLines < 0 && |Lines(patch)| + maxLines >= 1
    ensures Lines(SummarizeDiff(patch, maxLines)) ==
      Lines(patch)[..|Lines(patch)| + maxLines] + [MoreLinesNote(|Lines(patch)| - maxLines)]
    ensures |Lines(patch)| - maxLines > |Lines(patch)|
  {
    PrefixToSlices(Lines(patch), maxLines);
    SummaryIsJoin(patch, maxLines);
    LinesOfHeadAndNote(patch, |Lines(patch)| + maxLines, |Lines(patch)| - maxLines);
  }

  /** With `max_lines` 0 nothing of a non-empty patch is kept: the summary is
      a line break followed by the note counting every line. */
  lemma SummaryOfZero(patch: string)
    requires patch != ""
    ensures SummarizeDiff(patch, 0) == "\n" + MoreLinesNote(|Lines(patch)|)
    ensures Lines(SummarizeDiff(patch, 0)) == ["", MoreLinesNote(|Lines(patch)|)]
  {
    LinesShape(patch);
    var note := MoreLinesNote(|Lines(patch)|);
    NoteIsOneLine(|Lines(patch)|);
    LinesAfterLine("", note);
    assert "" + "\n" + note == "\n" + note;
    assert Lines(note) == [note];
  }

  /** The summary of a long patch is the kept lines and the note, joined. */
  lemma SummaryIsJoin(patch: string, maxLines: int)
    requires maxLines < |Lines(patch)| && PrefixTo(Lines(patch), maxLines) != []
    ensures SummarizeDiff(patch, maxLines) ==
      Join(PrefixTo(Lines(patch), maxLines) + [MoreLinesNote(|Lines(patch)| - maxLines)], "\n")
  {
    var lines := Lines(patch);
    JoinSnoc(PrefixTo(lines, maxLines), MoreLinesNote(|lines| - maxLines), "\n");
  }

  lemma LinesOfHeadAndNote(patch: string, m: nat, n: nat)
    requires m <= |Lines(patch)|
    ensures var lines, note := Lines(patch), MoreLinesNote(n);
      Lines(Join(lines[..m] + [note], "\n")) == lines[..m] + [note]
  {
    var lines, note := Lines(patch), MoreLinesNote(n);
    LinesShape(patch);
    var ys := lines[..m] + [note];
    NoteIsOneLine(n);
    forall k | 0 <= k < |ys|
      ensures OneLine(ys[k])
    {
      if k < m {
        assert ys[k] == lines[k];
      }
    }
    LinesOfJoin(ys);
  }

  lemma NoteIsOneLine(n: nat)
    ensures MoreLinesNote(n) != "" && OneLine(MoreLinesNote(n))
  {
    var note, d := MoreLinesNote(n), Decimal(n);
    assert note == "... (" + d + " more lines)";
    assert forall k :: 0 <= k < |note| ==> note[k] != '\n';
    OneLineIff(note);
  }

  lemma {:induction false} JoinSnoc(xs: seq<string>, y: string, sep: string)
    requires xs != []
    ensures Join(xs + [y], sep) == Join(xs, sep) + sep + y
    decreases |xs|
  {
    if |xs| > 1 {
      assert (xs + [y])[1..] == xs[1..] + [y];
      JoinSnoc(xs[1..], y, sep);
    }
  }

  /** `any(f.endswith(ext) for ext in extensions)`. */
  predicate HasExtension(f: string, extensions: seq<string>) {
    exists e :: e in extensions && EndsWith(f, e)
  }

  /** `filter_files_by_extension`: the files, in order, that end with one of
      the extensions. */
  function FilterFilesByExtension(files: seq<string>, extensions: seq<string>): (r: seq<string>)
    ensures IsSubsequence(r, files)
    ensures forall f :: f in r <==> f in files && HasExtension(f, extensions)
    ensures forall f :: multiset(r)[f] == if HasExtension(f, extensions) then multiset(files)[f] else 0
    decreases |files|
  {
    if files == [] then []
    else
      assert multiset(files) == multiset{files[0]} + multiset(files[1..]) by {
        assert files == [files[0]] + files[1..];
      }
      if HasExtension(files[0], extensions) then [files[0]] + FilterFilesByExtension(files[1..], extensions)
      else FilterFilesByExtension(files[1..], extensions)
  }
}
