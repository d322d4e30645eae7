/** The stop hook's state machine.

    On every stop attempt the hook rebuilds the review context document from
    the freshly collected change set, carries over what still applies from the
    previous document (the checklist entries that still name a changed file,
    and the lint phase when nothing changed), then either lets the assistant
    stop or blocks it with the next action to take. */
module ReviewOnStop {
  import opened Text
  import opened DiffUtils

  datatype Option<T> = None | Some(value: T)

  /** A checklist entry as read back from the previous document, where JSON
      allows any value; only strings are checklist items. */
  datatype Item = Str(text: string) | NonStr

  /** `lint.status`. `Other` is any string the document may hold besides the
      three phase names. */
  datatype LintStatus = Pending | InProgress | Done | Other(raw: string)

  function ParseStatus(s: string): (st: LintStatus)
    ensures WellFormed(st)
  {
    if s == "pending" then Pending
    else if s == "in_progress" then InProgress
    else if s == "done" then Done
    else Other(s)
  }

  function StatusText(st: LintStatus): string {
    match st
    case Pending => "pending"
    case InProgress => "in_progress"
    case Done => "done"
    case Other(raw) => raw
  }

  /** An `Other` status never spells one of the phase names. */
  predicate WellFormed(st: LintStatus) {
    st.Other? ==> st.raw != "pending" && st.raw != "in_progress" && st.raw != "done"
  }

  /** Writing a status and reading it back are inverse. */
  lemma StatusRoundTrip(st: LintStatus, s: string)
    ensures WellFormed(st) ==> ParseStatus(StatusText(st)) == st
    ensures StatusText(ParseStatus(s)) == s
  {
  }

  /** The review context document (its `generatedAt` stamp aside). */
  datatype Context = Context(
    targets: seq<string>,     // review.targets
    patch: string,            // review.patchUnified0
    checklist: seq<string>,   // review.checklist
    tools: seq<string>,       // lint.tools
    status: LintStatus)       // lint.status

  const LintTools: seq<string> := ["eslint", "ruff"]

  /** The document `build_context` writes before anything is carried over. */
  function FreshContext(targets: seq<string>, patch: string): Context {
    Context(targets, patch, [], LintTools, Pending)
  }

  /** What the hook reads from the previous document, with the defaults
      `dict.get` supplies for missing keys already in place: `checklist` is
      `None` when the stored value is not a list, `status` is `None` when
      the key is missing. */
  datatype PrevDoc = PrevDoc(
    targets: seq<string>,
    patch: string,
    checklist: Option<seq<Item>>,
    status: Option<string>)

  /** The document `load_context` substitutes when the file is missing or unreadable. */
  const DefaultPrev: PrevDoc := PrevDoc([], "", Some([]), Some("pending"))

  /** The document as the next invocation will read it back. */
  function AsPrev(ctx: Context): PrevDoc {
    PrevDoc(ctx.targets, ctx.patch, Some(Items(ctx.checklist)), Some(StatusText(ctx.status)))
  }

  function Items(entries: seq<string>): seq<Item> {
    seq(|entries|, k requires 0 <= k < |entries| => Str(entries[k]))
  }

  /** The string entries of a stored checklist, in order. */
  function Strings(items: seq<Item>): seq<string>
    decreases |items|
  {
    if items == [] then []
    else if items[0].Str? then [items[0].text] + Strings(items[1..])
    else Strings(items[1..])
  }

  // ---------------------------------------------------------------------
  // Checklist reconciliation (`merge_checklist_entries`)
  // ---------------------------------------------------------------------

  /** The current targets, trimmed, blank ones left out. */
  function NormalizedTargets(targets: seq<string>): set<string> {
    set t | t in targets && Strip(t) != "" :: Strip(t)
  }

  /** The file label of an entry: the text before its first ':', trimmed. */
  function Label(entry: string): string {
    Strip(entry[..IndexOf(entry, ':')])
  }

  /** An entry survives unless it has a ':' and its non-empty label is not
      one of the (non-empty) normalized targets. */
  predicate Keeps(entry: string, norm: set<string>) {
    ':' !in entry || norm == {} || Label(entry) == "" || Label(entry) in norm
  }

  /** The string entries of `items` the keep rule accepts, in order. */
  function KeepEntries(items: seq<Item>, norm: set<string>): seq<string>
    decreases |items|
  {
    if items == [] then []
    else if items[0].Str? && Keeps(items[0].text, norm) then [items[0].text] + KeepEntries(items[1..], norm)
    else KeepEntries(items[1..], norm)
  }

  /** The checklist entries still relevant to the current targets. */
  function Reconciled(previous: Option<seq<Item>>, targets: seq<string>): seq<string> {
    if previous.None? || targets == [] then []
    else KeepEntries(previous.value, NormalizedTargets(targets))
  }

  /** `KeepEntries` at position `i`: the entry there, if kept, then the rest. */
  lemma KeepEntriesAt(items: seq<Item>, i: nat, norm: set<string>)
    requires i < |items|
    ensures KeepEntries(items[i..], norm) ==
      (if items[i].Str? && Keeps(items[i].text, norm) then [items[i].text] else []) + KeepEntries(items[i + 1..], norm)
  {
    assert items[i..][1..] == items[i + 1..];
  }

  /** `merge_checklist_entries`: filters the previous checklist entry by entry. */
  method MergeChecklistEntries(previous: Option<seq<Item>>, currentTargets: seq<string>)
    returns (merged: seq<string>)
    ensures merged == Reconciled(previous, currentTargets)
  {
    if previous.None? {
      return [];
    }
    if currentTargets == [] {
      return [];
    }
    var items := previous.value;
    var norm := NormalizedTargets(currentTargets);
    merged := [];
    for i := 0 to |items|
      invariant merged + KeepEntries(items[i..], norm) == KeepEntries(items, norm)
    {
      KeepEntriesAt(items, i, norm);
      var entry := items[i];
      if entry.NonStr? {
        continue;
      }
      var text := entry.text;
      if ':' in text {
        var candidate := Label(text);
        if norm != {} && candidate != "" && candidate !in norm {
          continue;
        }
      }
      merged := merged + [text];
    }
  }

  lemma {:induction false} EmptyIsSubsequence<T>(ys: seq<T>)
    ensures IsSubsequence([], ys)
    decreases |ys|
  {
    if ys != [] {
      EmptyIsSubsequence(ys[1..]);
    }
  }

  /** `KeepEntries` is a filter: it lists string entries of `items` in their
      order, unedited, and holds exactly those the keep rule accepts. */
  lemma {:induction false} KeepEntriesFilter(items: seq<Item>, norm: set<string>)
    ensures IsSubsequence(KeepEntries(items, norm), Strings(items))
    ensures forall x :: x in KeepEntries(items, norm) <==> Str(x) in items && Keeps(x, norm)
    ensures forall x :: multiset(KeepEntries(items, norm))[x] ==
                        if Keeps(x, norm) then multiset(Strings(items))[x] else 0
    decreases |items|
  {
    if items != [] {
      KeepEntriesFilter(items[1..], norm);
      assert forall x :: Str(x) in items <==> Str(x) == items[0] || Str(x) in items[1..] by {
        assert items == [items[0]] + items[1..];
      }
      if items[0].Str? {
        var text := items[0].text;
        assert Strings(items) == [text] + Strings(items[1..]);
        assert multiset(Strings(items)) == multiset{text} + multiset(Strings(items[1..]));
        if Keeps(text, norm) {
          assert multiset(KeepEntries(items, norm)) == multiset{text} + multiset(KeepEntries(items[1..], norm));
        } else {
          assert IsSubsequence(KeepEntries(items, norm), Strings(items));
        }
      }
    }
  }

  /** Reconciliation is a filter: the result lists string entries of the
      previous checklist in their order and unedited, and, when there are
      targets, an entry is kept exactly when it is a string the keep rule
      accepts. With no targets nothing survives. */
  lemma ReconciledIsFilter(items: seq<Item>, targets: seq<string>)
    ensures IsSubsequence(Reconciled(Some(items), targets), Strings(items))
    ensures targets == [] ==> Reconciled(Some(items), targets) == []
    ensures targets != [] ==> forall x :: x in Reconciled(Some(items), targets) <==>
      Str(x) in items && Keeps(x, NormalizedTargets(targets))
    ensures targets != [] ==>
      forall x :: multiset(Reconciled(Some(items), targets))[x] ==
                  if Keeps(x, NormalizedTargets(targets)) then multiset(Strings(items))[x] else 0
  {
    if targets == [] {
      EmptyIsSubsequence(Strings(items));
    } else {
      KeepEntriesFilter(items, NormalizedTargets(targets));
    }
  }

  /** The normalized targets are the trimmed non-blank targets, and only those. */
  lemma NormalizedTargetsMembers(targets: seq<string>, x: string)
    ensures x in NormalizedTargets(targets) <==> x != "" && exists t :: t in targets && Strip(t) == x
  {
  }

  /** The keep rule, case by case, when there are targets: an entry without
      ':' is kept; an entry whose label is empty or names a normalized target
      is kept; an entry with a non-empty label naming none of a non-empty
      normalized target set is dropped. */
  lemma ReconcileRules(items: seq<Item>, targets: seq<string>, entry: string)
    requires targets != [] && Str(entry) in items
    ensures ':' !in entry ==> entry in Reconciled(Some(items), targets)
    ensures ':' in entry && (Label(entry) == "" || Label(entry) in NormalizedTargets(targets)) ==>
      entry in Reconciled(Some(items), targets)
    ensures (':' in entry && Label(entry) != "" && NormalizedTargets(targets) != {} &&
             Label(entry) !in NormalizedTargets(targets)) ==>
      entry !in Reconciled(Some(items), targets)
  {
    ReconciledIsFilter(items, targets);
  }

  /** Targets that are all blank normalize to nothing, and then every string
      entry survives, in order. */
  lemma BlankTargetsKeepAll(items: seq<Item>, targets: seq<string>)
    requires targets != []
    requires forall t :: t in targets ==> Strip(t) == ""
    ensures Reconciled(Some(items), targets) == Strings(items)
  {
    assert NormalizedTargets(targets) == {};
    KeepAllWithoutTargets(items);
  }

  lemma {:induction false} KeepAllWithoutTargets(items: seq<Item>)
    ensures KeepEntries(items, {}) == Strings(items)
    decreases |items|
  {
    if items != [] {
      KeepAllWithoutTargets(items[1..]);
    }
  }

  /** Reconciling an already reconciled checklist against the same targets
      changes nothing. */
  lemma ReconcileIdempotent(previous: Option<seq<Item>>, targets: seq<string>)
    ensures var once := Reconciled(previous, targets);
      Reconciled(Some(Items(once)), targets) == once
  {
    if previous.Some? && targets != [] {
      var norm := NormalizedTargets(targets);
      KeepEntriesFilter(previous.value, norm);
      KeepKept(KeepEntries(previous.value, norm), norm);
    }
  }

  lemma {:induction false} KeepKept(entries: seq<string>, norm: set<string>)
    requires forall x :: x in entries ==> Keeps(x, norm)
    ensures KeepEntries(Items(entries), norm) == entries
    decreases |entries|
  {
    if entries != [] {
      assert Items(entries)[1..] == Items(entries[1..]);
      assert entries[0] in entries;
      KeepKept(entries[1..], norm);
    }
  }

  // ---------------------------------------------------------------------
  // Rebuilding the document (`main`)
  // ---------------------------------------------------------------------

  /** The diff is judged unchanged when targets and patch both equal the
      previous document's. */
  predicate ReviewUnchanged(prev: PrevDoc, targets: seq<string>, patch: string) {
    targets == prev.targets && patch == prev.patch
  }

  /** A stored status that Python reads as true: present and not "". */
  predicate Truthy(status: Option<string>) {
    status.Some? && status.value != ""
  }

  /** The carry-over `main` applies to a freshly built document. */
  function CarryOver(ctx: Context, prev: PrevDoc): Context {
    var carried := Reconciled(prev.checklist, ctx.targets);
    var withChecklist := if carried != [] then ctx.(checklist := carried) else ctx;
    if ReviewUnchanged(prev, ctx.targets, ctx.patch) && Truthy(prev.status)
    then withChecklist.(status := ParseStatus(prev.status.value))
    else withChecklist
  }

  /** The document written for the collected `targets` and `patch`. */
  function NextState(prev: PrevDoc, targets: seq<string>, patch: string): Context {
    CarryOver(FreshContext(targets, patch), prev)
  }

  /** The carry-over rules: targets and patch are always the fresh ones; the
      checklist is the reconciled one (the "only when non-empty" guard only
      ever replaces [] with []); the lint phase survives only an unchanged
      diff with a truthy stored status, and restarts at pending otherwise. */
  lemma NextStateRules(prev: PrevDoc, targets: seq<string>, patch: string)
    ensures var s := NextState(prev, targets, patch);
      s.targets == targets && s.patch == patch && s.tools == LintTools &&
      s.checklist == Reconciled(prev.checklist, targets) &&
      (ReviewUnchanged(prev, targets, patch) && Truthy(prev.status) ==> s.status == ParseStatus(prev.status.value)) &&
      (!(ReviewUnchanged(prev, targets, patch) && Truthy(prev.status)) ==> s.status == Pending) &&
      WellFormed(s.status)
  {
  }

  /** Running the hook twice on an unchanged working tree: the second run
      reads back the first run's document and writes the same document again,
      so in particular the lint phase is kept. */
  lemma RunTwiceUnchanged(prev: PrevDoc, targets: seq<string>, patch: string)
    ensures var once := NextState(prev, targets, patch);
      NextState(AsPrev(once), targets, patch) == once
  {
    var once := NextState(prev, targets, patch);
    NextStateRules(prev, targets, patch);
    ReconcileIdempotent(prev.checklist, targets);
    NextStateRules(AsPrev(once), targets, patch);
    StatusRoundTrip(once.status, "");
    assert Truthy(AsPrev(once).status) by {
      if once.status == Pending {
      } else {
        assert once.status == ParseStatus(prev.status.value);
        StatusRoundTrip(once.status, prev.status.value);
      }
    }
  }

  /** The document object `main` fills in: built fresh, then updated in place. */
  class ContextDocument {
    var targets: seq<string>
    var patch: string
    var checklist: seq<string>
    var tools: seq<string>
    var status: LintStatus

    function Value(): Context
      reads this
    {
      Context(targets, patch, checklist, tools, status)
    }

    /** `build_context`, for the collected change set. */
    constructor Build(targets: seq<string>, patch: string)
      ensures Value() == FreshContext(targets, patch)
    {
      this.targets := targets;
      this.patch := patch;
      checklist := [];
      tools := LintTools;
      status := Pending;
    }

    /** The in-place carry-over of `main`: overwrite the checklist with the
        reconciled one when that is non-empty, and the lint status with the
        stored one when the diff is unchanged and the stored status truthy. */
    method CarryOverFrom(prev: PrevDoc)
      modifies this
      ensures Value() == CarryOver(old(Value()), prev)
    {
      var reviewUnchanged := targets == prev.targets && patch == prev.patch;
      var carried := MergeChecklistEntries(prev.checklist, targets);
      if carried != [] {
        checklist := carried;
      }
      if reviewUnchanged && prev.status.Some? && prev.status.value != "" {
        status := ParseStatus(prev.status.value);
      }
    }
  }

  // ---------------------------------------------------------------------
  // Deciding (`should_allow_stop`, `generate_reason`)
  // ---------------------------------------------------------------------

  /** `should_allow_stop`. */
  predicate ShouldAllowStop(ctx: Context) {
    ctx.targets == [] || (ctx.checklist == [] && StatusText(ctx.status) == "done")
  }

  /** The instruction a blocking decision carries. The first three name the
      document by the path they are given; the fallback message names only
      the file `context.json`. */
  datatype Reason =
    | FixChecklist(docPath: string)
    | StartReview(docPath: string)
    | RunLinters(docPath: string)
    | UnknownState

  predicate MentionsPath(r: Reason, path: string) {
    !r.UnknownState? && r.docPath == path
  }

  /** `generate_reason`: the checklist first, then the lint phase. */
  function GenerateReason(ctx: Context, docPath: string): Reason {
    if ctx.checklist != [] then FixChecklist(docPath)
    else if StatusText(ctx.status) == "pending" then StartReview(docPath)
    else if StatusText(ctx.status) == "in_progress" then RunLinters(docPath)
    else UnknownState
  }

  datatype Decision = Allow | Block(reason: Reason)

  function Decide(ctx: Context, docPath: string): Decision {
    if ShouldAllowStop(ctx) then Allow else Block(GenerateReason(ctx, docPath))
  }

  /** Stop is allowed with no changes, or with an empty checklist once the
      lint phase is done, and for nothing else. (Every document the hook
      writes has a well-formed status, by `NextStateRules`.) */
  lemma StopRule(ctx: Context)
    requires WellFormed(ctx.status)
    ensures ctx.targets == [] ==> ShouldAllowStop(ctx)
    ensures ctx.targets != [] ==> (ShouldAllowStop(ctx) <==> ctx.checklist == [] && ctx.status == Done)
  {
  }

  /** The priority of the instructions, and that each of the first three
      names the document's path. */
  lemma ReasonPriority(ctx: Context, docPath: string)
    requires WellFormed(ctx.status)
    ensures var r := GenerateReason(ctx, docPath);
      (r.FixChecklist? <==> ctx.checklist != []) &&
      (r.StartReview? <==> ctx.checklist == [] && ctx.status == Pending) &&
      (r.RunLinters? <==> ctx.checklist == [] && ctx.status == InProgress) &&
      (r.UnknownState? <==> ctx.checklist == [] && ctx.status != Pending && ctx.status != InProgress) &&
      (!r.UnknownState? ==> MentionsPath(r, docPath))
  {
  }

  /** The fallback instruction is only reached for a status outside the
      three phases: a blocked stop on a document whose status is a phase name
      always gets one of the three instructions, each naming the path. */
  lemma FallbackOnlyForUnknownStatus(ctx: Context, docPath: string)
    requires !ShouldAllowStop(ctx)
    requires !ctx.status.Other?
    ensures Decide(ctx, docPath).Block?
    ensures MentionsPath(Decide(ctx, docPath).reason, docPath)
  {
  }

  /** The change set and patch `changed_files_unified0` returns. */
  function Collected(g: GitReplies): (seq<string>, string) {
    if g.gitDir.code != 0 then ([], "") else (CollectedTargets(g), CollectedPatch(g))
  }

  /** One invocation of the hook: collect the change set, rebuild the
      document from it and the previous one, then decide. */
  method RunHook(prev: PrevDoc, g: GitReplies, docPath: string) returns (ctx: Context, decision: Decision)
    ensures ctx == NextState(prev, Collected(g).0, Collected(g).1)
    ensures decision == Decide(ctx, docPath)
  {
    var targets: seq<string> := [];
    var patch := "";
    if g.gitDir.code == 0 {
      targets := CollectTargets(g);
      patch := CollectPatch(g);
    }
    var doc := new ContextDocument.Build(targets, patch);
    doc.CarryOverFrom(prev);
    ctx := doc.Value();
    if ShouldAllowStop(ctx) {
      decision := Allow;
    } else {
      decision := Block(GenerateReason(ctx, docPath));
    }
  }

  /** Outside a repository the hook always allows the stop. */
  lemma NoRepositoryAllows(prev: PrevDoc, g: GitReplies, docPath: string)
    requires g.gitDir.code != 0
    ensures Decide(NextState(prev, Collected(g).0, Collected(g).1), docPath) == Allow
  {
  }

  /** A changed diff always restarts the lint phase: with targets, no
      surviving checklist entry and a diff that differs from the stored one,
      the hook blocks and asks for a review pass. */
  lemma ChangedDiffRestartsReview(prev: PrevDoc, targets: seq<string>, patch: string, docPath: string)
    requires targets != [] && !ReviewUnchanged(prev, targets, patch)
    requires Reconciled(prev.checklist, targets) == []
    ensures Decide(NextState(prev, targets, patch), docPath) == Block(StartReview(docPath))
  {
  }

  /** A first run in a repository with one modified file blocks and asks for
      a review. */
  lemma FirstRunStartsReview(docPath: string)
    ensures Decide(NextState(DefaultPrev, ["a.py"], "@@ -1 +1 @@"), docPath) == Block(StartReview(docPath))
  {
  }

  /** The label of an entry written "path:message" is the path, when the
      path has no ':' and no surrounding blanks. */
  lemma LabelOf(path: string, message: string)
    requires ':' !in path && IsStripped(path)
    ensures ':' in path + ":" + message
    ensures Label(path + ":" + message) == path
  {
    var entry := path + ":" + message;
    assert entry[|path|] == ':';
    assert forall j :: 0 <= j < |path| ==> entry[j] != ':' by {
      assert forall j :: 0 <= j < |path| ==> entry[j] == path[j];
    }
    IndexOfIs(entry, ':', |path|);
    assert entry[..|path|] == path;
    StripStripped(path);
  }

  /** A checklist entry labelled with a file still in the change set is
      kept, so the hook blocks on the checklist. */
  lemma OpenEntryBlocks(path: string, message: string, targets: seq<string>, patch: string, docPath: string)
    requires path != "" && ':' !in path && IsStripped(path) && path in targets
    ensures var prev := PrevDoc([], "", Some([Str(path + ":" + message)]), Some("pending"));
      Decide(NextState(prev, targets, patch), docPath) == Block(FixChecklist(docPath))
  {
    var entry := path + ":" + message;
    var norm := NormalizedTargets(targets);
    LabelOf(path, message);
    StripStripped(path);
    assert path in norm;
    assert Keeps(entry, norm);
    assert KeepEntries([Str(entry)], norm) == [entry];
  }

  /** A checklist entry labelled with a file that left the change set is
      dropped, and the decision falls through to the lint phase. */
  lemma StaleEntryDropped(path: string, message: string, other: string, patch: string, docPath: string)
    requires path != "" && ':' !in path && IsStripped(path)
    requires other != "" && IsStripped(other) && other != path
    ensures var prev := PrevDoc([], "", Some([Str(path + ":" + message)]), Some("pending"));
      Decide(NextState(prev, [other], patch), docPath) == Block(StartReview(docPath))
  {
    var entry := path + ":" + message;
    LabelOf(path, message);
    StripStripped(other);
    assert NormalizedTargets([other]) == {other};
    assert !Keeps(entry, {other});
    assert KeepEntries([Str(entry)], {other}) == [];
  }

  /** An unchanged diff keeps the linting phase: the hook asks to run the
      linters; and once the phase is done with an empty checklist it allows
      the stop. */
  lemma LintPhaseCarried(targets: seq<string>, patch: string, docPath: string)
    requires targets != []
    ensures Decide(NextState(PrevDoc(targets, patch, Some([]), Some("in_progress")), targets, patch), docPath)
      == Block(RunLinters(docPath))
    ensures Decide(NextState(PrevDoc(targets, patch, Some([]), Some("done")), targets, patch), docPath)
      == Allow
  {
  }
}
