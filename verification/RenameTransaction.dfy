/**
  src/workspace_edits.rs, second half: applying a rename preview to many files by staging
  every replacement, validating, committing file by file, and rolling back.
 */
module RenameTransaction {
  import opened Wrappers
  import opened Utf8
  import opened FileSystems
  import Positions
  import WorkspaceEdits

  // ----- the plan of a transaction -----

  datatype FilePreview = FilePreview(path: string, absolutePath: Path, before: Text, edits: seq<WorkspaceEdits.RenameEdit>) {
    predicate Valid() {
      WorkspaceEdits.Applicable(before, edits)
    }

    function Old(): Bytes {
      Encode(before)
    }

    /** The bytes of `apply_edits(before, edits)`, and none when the edits cannot be applied. */
    function New(): Bytes {
      if Valid() then Encode(WorkspaceEdits.Edited(before, edits)) else []
    }
  }

  /** `sibling_transaction_path` */
  function SiblingTransactionPath(target: Path, id: nat, index: nat, role: Role): Path {
    Path(target.directory, Transaction(id, index, role))
  }

  /** What the three paths of one file hold. */
  datatype View = View(target: Option<Bytes>, stage: Option<Bytes>, backup: Option<Bytes>)

  datatype Plan = Plan(files: seq<FilePreview>, id: nat) {
    function Target(k: nat): Path
      requires k < |files|
    {
      files[k].absolutePath
    }

    function Stage(k: nat): Path
      requires k < |files|
    {
      SiblingTransactionPath(Target(k), id, k, Replacement)
    }

    function Backup(k: nat): Path
      requires k < |files|
    {
      SiblingTransactionPath(Target(k), id, k, Original)
    }

    /** Valid previews of distinct targets, and an identifier that no path carries yet. */
    ghost predicate Valid(init: Files) {
      && (forall k :: 0 <= k < |files| ==> files[k].Valid() && !Carries(Target(k)))
      && (forall j, k :: 0 <= j < k < |files| ==> Target(j) != Target(k))
      && (forall path :: path in init ==> !Carries(path))
    }

    predicate Carries(path: Path) {
      path.name.Transaction? && path.name.id == id
    }

    ghost predicate Owns(k: nat, path: Path) {
      && k < |files|
      && (path == Target(k) || path == Stage(k) || path == Backup(k))
    }

    ghost predicate Foreign(path: Path) {
      forall k :: 0 <= k < |files| ==> !Owns(k, path)
    }

    ghost function ViewOf(state: Files, k: nat): View
      requires k < |files|
    {
      View(Lookup(state, Target(k)), Lookup(state, Stage(k)), Lookup(state, Backup(k)))
    }

    /** Nothing outside the transaction differs from `init`. */
    ghost predicate OthersKept(state: Files, init: Files) {
      forall path :: Foreign(path) ==> Lookup(state, path) == Lookup(init, path)
    }

    /** Each original is still at its target or at its backup path. */
    ghost predicate OriginalsKept(state: Files, init: Files) {
      forall k :: 0 <= k < |files| ==> OriginalKept(ViewOf(state, k), init, k)
    }

    ghost predicate OriginalKept(view: View, init: Files, k: nat) {
      && k < |files|
      && (view.target == Lookup(init, Target(k)) || view.backup == Lookup(init, Target(k)))
    }

    ghost predicate AllReplaced(state: Files)
    {
      forall k :: 0 <= k < |files| ==> ViewOf(state, k).target == Some(files[k].New())
    }

    /** What may be seen between two calls: every original survives, or every target is already new. */
    ghost predicate Safe(state: Files, init: Files)
    {
      OriginalsKept(state, init) || AllReplaced(state)
    }

    ghost predicate SafeSince(history: seq<Files>, from: nat, init: Files)
    {
      forall i :: from <= i < |history| ==> Safe(history[i], init)
    }

    /** Nothing but stage files has differed since `from`. */
    ghost predicate StagesSince(history: seq<Files>, from: nat, init: Files) {
      forall i :: from <= i < |history| ==> OnlyStages(history[i], init)
    }

    /** Nothing but stage files differs from `init`. */
    ghost predicate OnlyStages(state: Files, init: Files) {
      && OthersKept(state, init)
      && forall k :: 0 <= k < |files| ==>
           ViewOf(state, k).target == Lookup(init, Target(k)) && ViewOf(state, k).backup == None
    }

    /** What the paths of file `k` hold once it is staged, given how far its commit has come. */
    ghost function Progress(k: nat, originalMoved: bool, replacementInstalled: bool): View
      requires k < |files|
    {
      var old', new' := Some(files[k].Old()), Some(files[k].New());
      if replacementInstalled then View(new', None, old')
      else if originalMoved then View(None, new', old')
      else View(old', new', None)
    }
  }

  /** The state changed at most at the paths of file `j`. */
  ghost predicate ChangedAt(plan: Plan, before: Files, after: Files, j: nat) {
    && j < |plan.files|
    && forall path :: !plan.Owns(j, path) ==> Lookup(after, path) == Lookup(before, path)
  }

  /** The paths of two files of a valid plan never coincide. */
  lemma {:induction false} OwnersDistinct(plan: Plan, init: Files, j: nat, k: nat)
    requires plan.Valid(init) && j < |plan.files| && k < |plan.files| && j != k
    ensures !plan.Owns(j, plan.Target(k)) && !plan.Owns(j, plan.Stage(k)) && !plan.Owns(j, plan.Backup(k))
  {
    assert plan.Target(j) != plan.Target(k) by {
      if j < k {
        assert plan.Target(j) != plan.Target(k);
      } else {
        assert plan.Target(k) != plan.Target(j);
      }
    }
    assert !plan.Carries(plan.Target(j)) && !plan.Carries(plan.Target(k));
  }

  lemma {:induction false} OtherViewsKept(plan: Plan, init: Files, before: Files, after: Files, j: nat)
    requires plan.Valid(init) && j < |plan.files| && ChangedAt(plan, before, after, j)
    ensures forall k :: 0 <= k < |plan.files| && k != j ==> plan.ViewOf(after, k) == plan.ViewOf(before, k)
    ensures plan.OthersKept(before, init) ==> plan.OthersKept(after, init)
  {
    forall k | 0 <= k < |plan.files| && k != j
      ensures plan.ViewOf(after, k) == plan.ViewOf(before, k)
    {
      OwnersDistinct(plan, init, j, k);
    }
  }

  lemma {:induction false} InitialView(plan: Plan, init: Files, k: nat)
    requires plan.Valid(init) && k < |plan.files|
    ensures plan.ViewOf(init, k) == View(Lookup(init, plan.Target(k)), None, None)
    ensures plan.Target(k) != plan.Stage(k) && plan.Target(k) != plan.Backup(k) && plan.Stage(k) != plan.Backup(k)
  {
    assert plan.Carries(plan.Stage(k)) && plan.Carries(plan.Backup(k));
    assert !plan.Carries(plan.Target(k));
  }

  /** When every file looks as it did, the whole file system is as it was. */
  lemma {:induction false} SameViewsSameFiles(plan: Plan, init: Files, state: Files)
    requires plan.Valid(init) && plan.OthersKept(state, init)
    requires forall k :: 0 <= k < |plan.files| ==> plan.ViewOf(state, k) == plan.ViewOf(init, k)
    ensures state == init
  {
    forall path
      ensures Lookup(state, path) == Lookup(init, path)
    {
      if !plan.Foreign(path) {
        var k :| 0 <= k < |plan.files| && plan.Owns(k, path);
        assert plan.ViewOf(state, k) == plan.ViewOf(init, k);
      }
    }
    assert forall path :: path in state <==> Lookup(state, path).Some?;
    assert forall path :: path in init <==> Lookup(init, path).Some?;
    assert forall path :: path in init ==> init[path] == Lookup(init, path).value == state[path];
  }

  lemma {:induction false} OnlyStagesIsSafe(plan: Plan, init: Files, state: Files)
    requires plan.Valid(init) && plan.OnlyStages(state, init)
    ensures plan.Safe(state, init)
  {
  }

  lemma {:induction false} InitOnlyStages(plan: Plan, init: Files)
    requires plan.Valid(init)
    ensures plan.OnlyStages(init, init)
    ensures forall k :: 0 <= k < |plan.files| ==> plan.ViewOf(init, k).stage == None
  {
    forall k | 0 <= k < |plan.files|
      ensures plan.ViewOf(init, k) == View(Lookup(init, plan.Target(k)), None, None)
    {
      InitialView(plan, init, k);
    }
  }

  /** A change of one stage file is a change of nothing but stage files. */
  lemma {:induction false} StageChange(plan: Plan, init: Files, before: Files, after: Files, k: nat)
    requires plan.Valid(init) && plan.OnlyStages(before, init) && k < |plan.files|
    requires forall path :: path != plan.Stage(k) ==> Lookup(after, path) == Lookup(before, path)
    ensures plan.OnlyStages(after, init)
    ensures forall j :: 0 <= j < |plan.files| && j != k ==> plan.ViewOf(after, j) == plan.ViewOf(before, j)
  {
    InitialView(plan, init, k);
    assert ChangedAt(plan, before, after, k);
    OtherViewsKept(plan, init, before, after, k);
  }

  /** With every stage gone, nothing differs any more. */
  lemma {:induction false} CleanIsInitial(plan: Plan, init: Files, state: Files)
    requires plan.Valid(init) && plan.OnlyStages(state, init)
    requires forall k :: 0 <= k < |plan.files| ==> plan.ViewOf(state, k).stage == None
    ensures state == init
  {
    InitOnlyStages(plan, init);
    SameViewsSameFiles(plan, init, state);
  }

  // ----- staging -----

  /** The file of a preview still holds the text that the preview was made from. */
  ghost predicate Unchanged(file: FilePreview, state: Files) {
    Lookup(state, file.absolutePath) == Some(file.Old())
  }

  /** Looking at decoded texts is looking at bytes: a file whose text differs has other contents. */
  lemma {:induction false} OtherTextOtherBytes(file: FilePreview, state: Files, current: Option<Text>)
    requires current.Some? ==> Lookup(state, file.absolutePath) == Some(Encode(current.value))
    requires current.None? ==> file.absolutePath !in state || Decode(state[file.absolutePath]).None?
    ensures current == Some(file.before) <==> Unchanged(file, state)
  {
    if current.Some? {
      if Encode(current.value) == Encode(file.before) {
        EncodeInjective(current.value, file.before);
      }
    } else {
      DecodeInvertsEncode(file.before);
    }
  }

  /**
    `validate_unchanged`: every file is compared, those that differ are reported in the order of
    the plan, and these are exactly the files that have changed, but for files whose check failed.
   */
  method ValidateUnchanged(fs: FileSystem, files: seq<FilePreview>) returns (conflicts: seq<string>)
    modifies fs`faults, fs`observed
    ensures fs.faults >= old(fs.faults)
    ensures Conflicting(files, |files|, fs.files, conflicts, fs.faults - old(fs.faults))
    ensures old(fs.observed) <= fs.observed
    ensures var seen := fs.observed[|old(fs.observed)|..];
            Comparison(files, fs.files, |fs.history|, seen) && conflicts == Differing(files, seen)
  {
    hide Encode, Decode, Conflicting, Comparison, Differing, Unchanged;
    conflicts := [];
    NothingCompared(files, fs.files, |fs.history|);
    ghost var seen: seq<Observation> := [];
    for k := 0 to |files|
      invariant fs.faults >= old(fs.faults)
      invariant Conflicting(files, k, fs.files, conflicts, fs.faults - old(fs.faults))
      invariant |seen| == k && fs.observed == old(fs.observed) + seen
      invariant Comparison(files[..k], fs.files, |fs.history|, seen) && conflicts == Differing(files[..k], seen)
    {
      var file := files[k];
      ghost var faults := fs.faults;
      var current := fs.ReadResolved(file.absolutePath);
      if fs.faults == faults || current.Some? {
        OtherTextOtherBytes(file, fs.files, current);
      }
      ghost var reported := conflicts;
      if current != Some(file.before) {
        conflicts := conflicts + [file.path];
      }
      OneMoreCompared(files, k, fs.files, reported, conflicts, faults - old(fs.faults), fs.faults - old(fs.faults));
      ghost var o := Compared(file.absolutePath, current, fs.files, |fs.history|);
      OneMoreSeen(files, k, fs.files, |fs.history|, seen, o, reported);
      seen := seen + [o];
    }
    assert files[..|files|] == files;
    assert fs.observed[|old(fs.observed)|..] == seen;
  }

  /** One comparison for each file, in order, all of them made on `state` at one moment. */
  ghost predicate Comparison(files: seq<FilePreview>, state: Files, moment: nat, seen: seq<Observation>) {
    && |seen| == |files|
    && forall k :: 0 <= k < |files| ==>
         && seen[k].Compared? && seen[k].path == files[k].absolutePath
         && seen[k].state == state && seen[k].moment == moment
  }

  /** The files whose comparison did not show the text that the preview was made from. */
  ghost function Differing(files: seq<FilePreview>, seen: seq<Observation>): seq<string>
    requires |seen| == |files|
  {
    if files == [] then
      []
    else
      var last := |files| - 1;
      Differing(files[..last], seen[..last]) +
      if seen[last].Compared? && seen[last].text == Some(files[last].before) then [] else [files[last].path]
  }

  lemma {:induction false} NothingCompared(files: seq<FilePreview>, state: Files, moment: nat)
    ensures Conflicting(files, 0, state, [], 0)
    ensures Comparison(files[..0], state, moment, []) && Differing(files[..0], []) == []
  {
  }

  lemma {:induction false} OneMoreSeen(files: seq<FilePreview>, k: nat, state: Files, moment: nat,
                                       seen: seq<Observation>, o: Observation, reported: seq<string>)
    requires k < |files| && Comparison(files[..k], state, moment, seen) && reported == Differing(files[..k], seen)
    requires o.Compared? && o.path == files[k].absolutePath && o.state == state && o.moment == moment
    ensures Comparison(files[..k + 1], state, moment, seen + [o])
    ensures Differing(files[..k + 1], seen + [o]) ==
            if o.text == Some(files[k].before) then reported else reported + [files[k].path]
  {
    assert files[..k + 1][..k] == files[..k] && (seen + [o])[..k] == seen;
  }

  lemma {:induction false} NoneDiffers(files: seq<FilePreview>, seen: seq<Observation>, k: nat)
    requires |seen| == |files| && Differing(files, seen) == [] && k < |files|
    ensures seen[k].Compared? && seen[k].text == Some(files[k].before)
  {
    var last := |files| - 1;
    if k < last {
      NoneDiffers(files[..last], seen[..last], k);
    }
  }

  /** What the conflicts among the first `n` files say when `faults` calls have failed. */
  ghost predicate Conflicting(files: seq<FilePreview>, n: nat, state: Files, conflicts: seq<string>, faults: int) {
    && n <= |files|
    && (forall k :: 0 <= k < n && !Unchanged(files[k], state) ==> files[k].path in conflicts)
    && (forall c :: c in conflicts ==> exists k :: 0 <= k < n && ReportedAs(files[k], state, c, faults))
  }

  ghost predicate ReportedAs(file: FilePreview, state: Files, c: string, faults: int) {
    file.path == c && (!Unchanged(file, state) || faults > 0)
  }

  lemma {:induction false} OneMoreCompared(files: seq<FilePreview>, k: nat, state: Files, before: seq<string>,
                                           after: seq<string>,
                                           faults: int, faults': int)
    requires k < |files| && Conflicting(files, k, state, before, faults) && faults <= faults'
    requires after == before || after == before + [files[k].path]
    requires after == before ==> Unchanged(files[k], state)
    requires after != before ==> !Unchanged(files[k], state) || faults < faults'
    requires faults >= 0
    ensures Conflicting(files, k + 1, state, after, faults')
  {
    hide Unchanged;
    forall c | c in after
      ensures exists j :: 0 <= j < k + 1 && ReportedAs(files[j], state, c, faults')
    {
      if c in before {
        var j :| 0 <= j < k && ReportedAs(files[j], state, c, faults);
        assert ReportedAs(files[j], state, c, faults');
      } else {
        assert ReportedAs(files[k], state, c, faults');
      }
    }
  }

  /** `remove_staged_path` */
  method RemoveStagedPath(fs: FileSystem, path: Path, failures: seq<Path>) returns (r: seq<Path>)
    modifies fs`files, fs`history, fs`faults
    ensures forall p :: p != path ==> Lookup(fs.files, p) == Lookup(old(fs.files), p)
    ensures (r == failures && Lookup(fs.files, path) == None) ||
            (r == failures + [path] && fs.files == old(fs.files) && fs.faults > old(fs.faults))
    ensures fs.history == old(fs.history) + [fs.files] && fs.faults >= old(fs.faults)
  {
    var outcome := fs.Remove(path);
    r := if outcome == RemoveFailed then failures + [path] else failures;
  }

  /** Every state since `from` differs from `base` at `path` at most. */
  ghost predicate ChangedOnlySince(history: seq<Files>, from: nat, base: Files, path: Path) {
    forall i :: from <= i < |history| ==> forall p :: p != path ==> Lookup(history[i], p) == Lookup(base, p)
  }

  /** `stage_file` and `stage_file_with` */
  method StageFile(fs: FileSystem, file: FilePreview, stage: Path) returns (ok: bool, cleanupFailures: seq<Path>)
    requires file.Valid()
    modifies fs`files, fs`history, fs`faults
    ensures forall p :: p != stage ==> Lookup(fs.files, p) == Lookup(old(fs.files), p)
    ensures ok ==> Lookup(fs.files, stage) == Some(file.New()) && cleanupFailures == []
    ensures !ok && Lookup(old(fs.files), stage) == None ==>
              cleanupFailures == if stage in fs.files then [stage] else []
    ensures |old(fs.history)| <= |fs.history| && fs.history[..|old(fs.history)|] == old(fs.history)
    ensures ChangedOnlySince(fs.history, |old(fs.history)|, old(fs.files), stage)
    ensures fs.faults >= old(fs.faults)
    ensures !ok ==> Lookup(old(fs.files), stage) != None || fs.faults - old(fs.faults) >= 1 + |cleanupFailures|
  {
    hide Encode, WorkspaceEdits.Edited, WorkspaceEdits.Applicable;
    cleanupFailures := [];
    var metadata := fs.Try();
    if !metadata {
      return false, [];
    }
    var created := fs.CreateNew(stage);
    if !created {
      return false, [];
    }
    ok := fs.Try();
    if ok {
      var after := WorkspaceEdits.ApplyEdits(file.before, file.edits);
      ok := fs.Write(stage, Encode(after));
    }
    if !ok {
      cleanupFailures := RemoveStagedPath(fs, stage, []);
    }
  }

  lemma {:induction false} StageOfView(plan: Plan, state: Files, k: nat)
    requires k < |plan.files|
    ensures plan.ViewOf(state, k).stage == Lookup(state, plan.Stage(k))
    ensures plan.ViewOf(state, k).target == Lookup(state, plan.files[k].absolutePath)
  {
  }

  lemma {:induction false} StagesDistinct(plan: Plan, j: nat, k: nat)
    requires j < |plan.files| && k < |plan.files| && j != k
    ensures plan.Stage(j) != plan.Stage(k)
  {
  }

  /** Every reported path is the stage of one of the files `low..high`. */
  ghost predicate StagesOf(plan: Plan, low: nat, high: nat, failures: seq<Path>) {
    && high <= |plan.files|
    && forall p :: p in failures ==> exists k :: low <= k < high && p == plan.Stage(k)
  }

  /** Stage `k` as it was, when it is reported, and gone otherwise. */
  ghost predicate CleanedUp(plan: Plan, before: Files, after: Files, failures: seq<Path>, k: nat) {
    && k < |plan.files|
    && plan.ViewOf(after, k).stage == if plan.Stage(k) in failures then plan.ViewOf(before, k).stage else None
  }

  /** One more stage has been dealt with. */
  lemma {:induction false} CleanedUpStep(plan: Plan, start: Files, before: Files, after: Files, failures: seq<Path>,
                                         r: seq<Path>, k: nat)
    requires k < |plan.files| && StagesOf(plan, 0, k, failures)
    requires forall j :: 0 <= j < k ==> CleanedUp(plan, start, before, failures, j)
    requires forall j :: 0 <= j < |plan.files| && j != k ==> plan.ViewOf(after, j) == plan.ViewOf(before, j)
    requires plan.ViewOf(before, k) == plan.ViewOf(start, k)
    requires (r == failures && plan.ViewOf(after, k).stage == None) || (r == failures + [plan.Stage(k)] && after == before)
    ensures StagesOf(plan, 0, k + 1, r)
    ensures forall j :: 0 <= j < k + 1 ==> CleanedUp(plan, start, after, r, j)
  {
    hide Plan.ViewOf, Plan.Stage;
    forall j | 0 <= j < k + 1
      ensures CleanedUp(plan, start, after, r, j)
    {
      if j < k {
        assert CleanedUp(plan, start, before, failures, j);
        StagesDistinct(plan, j, k);
      } else if plan.Stage(k) in failures {
        var i :| 0 <= i < k && plan.Stage(k) == plan.Stage(i);
        StagesDistinct(plan, i, k);
      }
    }
    forall p | p in r
      ensures exists j :: 0 <= j < k + 1 && p == plan.Stage(j)
    {
      if p in failures {
        var j :| 0 <= j < k && p == plan.Stage(j);
      }
    }
  }

  /**
    `cleanup_staged`, for the first `n` files of the plan: a stage is gone, or it is as it
    was and reported, and a failed call pays for each report.
   */
  method CleanupStaged(fs: FileSystem, plan: Plan, n: nat, ghost init: Files, ghost from: nat)
    returns (failures: seq<Path>)
    requires plan.Valid(init) && n <= |plan.files|
    requires plan.OnlyStages(fs.files, init)
    requires from <= |fs.history| && plan.StagesSince(fs.history, from, init)
    modifies fs`files, fs`history, fs`faults
    ensures old(fs.history) <= fs.history
    ensures plan.OnlyStages(fs.files, init)
    ensures from <= |fs.history| && plan.StagesSince(fs.history, from, init)
    ensures StagesOf(plan, 0, n, failures)
    ensures forall k :: 0 <= k < n ==> CleanedUp(plan, old(fs.files), fs.files, failures, k)
    ensures forall k :: n <= k < |plan.files| ==> plan.ViewOf(fs.files, k) == plan.ViewOf(old(fs.files), k)
    ensures fs.faults - old(fs.faults) >= |failures|
  {
    hide *;
    failures := [];
    ghost var start := fs.files;
    NothingReported(plan);
    for k := 0 to n
      invariant old(fs.history) <= fs.history
      invariant fs.faults - old(fs.faults) >= |failures|
      invariant plan.OnlyStages(fs.files, init)
      invariant from <= |fs.history| && plan.StagesSince(fs.history, from, init)
      invariant StagesOf(plan, 0, k, failures)
      invariant forall j :: 0 <= j < k ==> CleanedUp(plan, start, fs.files, failures, j)
      invariant forall j :: k <= j < |plan.files| ==> plan.ViewOf(fs.files, j) == plan.ViewOf(start, j)
    {
      ghost var before, seen, reported := fs.files, fs.history, failures;
      failures := RemoveStagedPath(fs, plan.Stage(k), failures);
      StageChange(plan, init, before, fs.files, k);
      StagesExtend(plan, init, seen, from, fs.files);
      StageOfView(plan, fs.files, k);
      CleanedUpStep(plan, start, before, fs.files, reported, failures, k);
    }
  }

  lemma {:induction false} NothingReported(plan: Plan)
    ensures StagesOf(plan, 0, 0, [])
    ensures forall k :: 0 <= k <= |plan.files| ==> StagesOf(plan, k, |plan.files|, [])
  {
  }

  class StagedFile {
    const target: Path
    const stage: Path
    const backup: Path
    const displayPath: string
    var originalMoved: bool
    var replacementInstalled: bool

    constructor (target: Path, stage: Path, backup: Path, displayPath: string)
      ensures this.target == target && this.stage == stage && this.backup == backup && this.displayPath == displayPath
      ensures !originalMoved && !replacementInstalled
    {
      this.target, this.stage, this.backup, this.displayPath := target, stage, backup, displayPath;
      originalMoved, replacementInstalled := false, false;
    }
  }

  /** `staged` holds one record for each of the first `|staged|` files of the plan. */
  ghost predicate Records(staged: seq<StagedFile>, plan: Plan) {
    && |staged| <= |plan.files|
    && (forall k :: 0 <= k < |staged| ==>
          staged[k].target == plan.Target(k) && staged[k].stage == plan.Stage(k) && staged[k].backup == plan.Backup(k))
    && forall j, k :: 0 <= j < k < |staged| ==> staged[j] != staged[k]
  }

  /** Every staged file is as far as its two flags say. */
  ghost predicate FlagsTell(staged: seq<StagedFile>, plan: Plan, state: Files)
    reads staged
  {
    && Records(staged, plan)
    && forall k :: 0 <= k < |staged| ==>
         plan.ViewOf(state, k) == plan.Progress(k, staged[k].originalMoved, staged[k].replacementInstalled)
  }

  datatype ApplyError =
    | Canceled(cleanupFailures: seq<Path>)
    | Conflict(paths: seq<string>, cleanupFailures: seq<Path>)
    | StageFailed(path: string, cleanupFailures: seq<Path>)
    | Application(path: string, rollbackFailures: seq<Path>)

  /**
    Every error has its reason, and so has everything it reports as left behind: `faults` is
    the number of calls that failed for no reason of the transaction's own, at least one for
    each report and one more for an error that nothing else explains.
   */
  ghost predicate Explained(plan: Plan, init: Files, error: ApplyError, cancelled: bool, faults: int) {
    match error
    case Canceled(cleanupFailures) => cancelled && faults >= |cleanupFailures|
    case Conflict(paths, cleanupFailures) =>
      && paths != [] && Conflicting(plan.files, |plan.files|, init, paths, faults - |cleanupFailures|)
      && faults >= |cleanupFailures|
    case StageFailed(_, cleanupFailures) => faults >= 1 + |cleanupFailures|
    case Application(_, rollbackFailures) => faults >= 1 + |rollbackFailures|
  }

  /** What every error but `Application` leaves: exactly the reported stages. */
  ghost predicate Refused(plan: Plan, init: Files, state: Files, cleanupFailures: seq<Path>) {
    && plan.OnlyStages(state, init)
    && StagesOf(plan, 0, |plan.files|, cleanupFailures)
    && (forall k :: 0 <= k < |plan.files| ==> StageReported(plan, state, cleanupFailures, k))
  }

  ghost predicate StageReported(plan: Plan, state: Files, failures: seq<Path>, k: nat) {
    && k < |plan.files|
    && (plan.ViewOf(state, k).stage.Some? <==> plan.Stage(k) in failures)
  }

  /** Staging file `k` of the plan. */
  method StageOne(fs: FileSystem, plan: Plan, k: nat, ghost init: Files, ghost from: nat)
    returns (ok: bool, cleanupFailures: seq<Path>)
    requires plan.Valid(init) && k < |plan.files|
    requires plan.OnlyStages(fs.files, init) && plan.ViewOf(fs.files, k).stage == None
    requires from <= |fs.history| && plan.StagesSince(fs.history, from, init)
    modifies fs`files, fs`history, fs`faults
    ensures old(fs.history) <= fs.history
    ensures from <= |fs.history| && plan.StagesSince(fs.history, from, init)
    ensures plan.OnlyStages(fs.files, init)
    ensures forall j :: 0 <= j < |plan.files| && j != k ==> plan.ViewOf(fs.files, j) == plan.ViewOf(old(fs.files), j)
    ensures ok ==> plan.ViewOf(fs.files, k).stage == Some(plan.files[k].New())
    ensures !ok ==> cleanupFailures == if plan.ViewOf(fs.files, k).stage.Some? then [plan.Stage(k)] else []
    ensures fs.faults >= old(fs.faults) && (!ok ==> fs.faults - old(fs.faults) >= 1 + |cleanupFailures|)
  {
    ghost var before, seen := fs.files, |fs.history|;
    ok, cleanupFailures := StageFile(fs, plan.files[k], plan.Stage(k));
    StageChange(plan, init, before, fs.files, k);
    StagingOnlyStages(plan, init, fs.history, from, seen, before, k);
  }

  /** Cleaning up the first `n` stages, all of them there, after an error that has itself left what `reported` says. */
  method GiveUp(fs: FileSystem, plan: Plan, n: nat, reported: seq<Path>, ghost init: Files, ghost from: nat)
    returns (failures: seq<Path>)
    requires plan.Valid(init) && n <= |plan.files|
    requires plan.OnlyStages(fs.files, init)
    requires forall k :: 0 <= k < n ==> plan.ViewOf(fs.files, k).stage.Some?
    requires StagesOf(plan, n, |plan.files|, reported)
    requires forall k :: n <= k < |plan.files| ==> StageReported(plan, fs.files, reported, k)
    requires from <= |fs.history| && plan.StagesSince(fs.history, from, init)
    modifies fs`files, fs`history, fs`faults
    ensures old(fs.history) <= fs.history
    ensures from <= |fs.history| && plan.StagesSince(fs.history, from, init)
    ensures Refused(plan, init, fs.files, failures)
    ensures fs.faults - old(fs.faults) >= |failures| - |reported| >= 0
  {
    hide *;
    ghost var before := fs.files;
    var more := CleanupStaged(fs, plan, n, init, from);
    failures := reported + more;
    RefusedAfterCleanup(plan, init, before, fs.files, n, reported, more);
  }

  lemma {:induction false} RefusedAfterCleanup(plan: Plan, init: Files, before: Files, after: Files, n: nat,
                                               reported: seq<Path>, more: seq<Path>)
    requires n <= |plan.files| && plan.OnlyStages(after, init)
    requires StagesOf(plan, n, |plan.files|, reported) && StagesOf(plan, 0, n, more)
    requires forall k :: 0 <= k < n ==> plan.ViewOf(before, k).stage.Some? && CleanedUp(plan, before, after, more, k)
    requires forall k :: n <= k < |plan.files| ==>
               StageReported(plan, before, reported, k) && plan.ViewOf(after, k) == plan.ViewOf(before, k)
    ensures Refused(plan, init, after, reported + more)
  {
    hide Plan.ViewOf, Plan.Stage, Plan.OnlyStages;
    forall k | 0 <= k < |plan.files|
      ensures StageReported(plan, after, reported + more, k)
    {
      if k < n {
        assert CleanedUp(plan, before, after, more, k);
        NotReportedElsewhere(plan, n, |plan.files|, reported, k);
      } else {
        assert StageReported(plan, before, reported, k);
        NotReportedElsewhere(plan, 0, n, more, k);
      }
    }
  }

  lemma {:induction false} NotReportedElsewhere(plan: Plan, low: nat, high: nat, failures: seq<Path>, k: nat)
    requires high <= |plan.files| && k < |plan.files| && StagesOf(plan, low, high, failures) && !(low <= k < high)
    ensures plan.Stage(k) !in failures
  {
    forall p | p in failures
      ensures p != plan.Stage(k)
    {
      var j :| low <= j < high && p == plan.Stage(j);
      StagesDistinct(plan, j, k);
    }
  }

  /** An error that reports nothing has left nothing. */
  lemma {:induction false} RefusedClean(plan: Plan, init: Files, state: Files)
    requires plan.Valid(init) && Refused(plan, init, state, [])
    ensures state == init
  {
    forall k | 0 <= k < |plan.files|
      ensures plan.ViewOf(state, k).stage == None
    {
      assert StageReported(plan, state, [], k);
    }
    CleanIsInitial(plan, init, state);
  }

  lemma {:induction false} NoRecords(plan: Plan)
    ensures Records([], plan)
  {
  }

  /** The record of the next staged file, with neither of its renames done. */
  method AddRecord(plan: Plan, staged: seq<StagedFile>) returns (file: StagedFile)
    requires Records(staged, plan) && |staged| < |plan.files|
    ensures fresh(file) && !file.originalMoved && !file.replacementInstalled
    ensures Records(staged + [file], plan)
  {
    var k := |staged|;
    file := new StagedFile(plan.Target(k), plan.Stage(k), plan.Backup(k), plan.files[k].path);
  }

  /** How far staging has come: the first `k` files are staged and recorded, the others untouched. */
  ghost predicate Staging(plan: Plan, init: Files, state: Files, k: nat) {
    && k <= |plan.files|
    && plan.OnlyStages(state, init)
    && (forall j :: 0 <= j < |plan.files| ==> plan.files[j].Valid())
    && (forall j :: 0 <= j < k ==> plan.ViewOf(state, j).stage == Some(plan.files[j].New()))
    && (forall j :: k <= j < |plan.files| ==> plan.ViewOf(state, j).stage == None)
  }

  lemma {:induction false} StagingBegins(plan: Plan, init: Files)
    requires plan.Valid(init)
    ensures Staging(plan, init, init, 0)
  {
    InitOnlyStages(plan, init);
  }

  lemma {:induction false} StagingGoesOn(plan: Plan, init: Files, before: Files, after: Files, k: nat)
    requires k < |plan.files| && Staging(plan, init, before, k) && plan.OnlyStages(after, init)
    requires forall j :: 0 <= j < |plan.files| && j != k ==> plan.ViewOf(after, j) == plan.ViewOf(before, j)
    requires plan.ViewOf(after, k).stage == Some(plan.files[k].New())
    ensures Staging(plan, init, after, k + 1)
  {
    hide Plan.ViewOf, Plan.OnlyStages, FilePreview.Valid, FilePreview.New;
  }

  /** Every stage is there for the files staged so far, and file `k` has left what it reports. */
  lemma {:induction false} StagingStops(plan: Plan, init: Files, before: Files, after: Files, k: nat,
                                        reported: seq<Path>)
    requires k < |plan.files| && Staging(plan, init, before, k)
    requires forall j :: 0 <= j < |plan.files| && j != k ==> plan.ViewOf(after, j) == plan.ViewOf(before, j)
    requires reported == if plan.ViewOf(after, k).stage.Some? then [plan.Stage(k)] else []
    ensures forall j :: 0 <= j < k ==> plan.ViewOf(after, j).stage.Some?
    ensures StagesOf(plan, k, |plan.files|, reported)
    ensures forall j :: k <= j < |plan.files| ==> StageReported(plan, after, reported, j)
  {
    hide Plan.ViewOf, Plan.OnlyStages, Plan.Stage, FilePreview.Valid, FilePreview.New;
    forall j | k <= j < |plan.files|
      ensures StageReported(plan, after, reported, j)
    {
      if j != k {
        StagesDistinct(plan, j, k);
      }
    }
  }

  lemma {:induction false} AllStagesThere(plan: Plan, init: Files, state: Files, k: nat)
    requires k <= |plan.files| && Staging(plan, init, state, k)
    ensures plan.OnlyStages(state, init)
    ensures forall j :: 0 <= j < k ==> plan.ViewOf(state, j).stage.Some?
    ensures StagesOf(plan, k, |plan.files|, [])
    ensures forall j :: k <= j < |plan.files| ==> StageReported(plan, state, [], j)
    ensures AllValid(plan)
  {
    hide Plan.ViewOf, Plan.OnlyStages, FilePreview.Valid, FilePreview.New;
  }

  lemma {:induction false} NextIsUnstaged(plan: Plan, init: Files, state: Files, k: nat)
    requires k < |plan.files| && Staging(plan, init, state, k)
    ensures plan.OnlyStages(state, init) && plan.ViewOf(state, k).stage == None && plan.files[k].Valid()
  {
    hide Plan.ViewOf, Plan.OnlyStages, FilePreview.Valid, FilePreview.New;
  }

  /** One turn of the staging loop. */
  method StageNext(fs: FileSystem, token: Cancellation, plan: Plan, k: nat, ghost init: Files, ghost from: nat)
    returns (r: Result<(), ApplyError>)
    requires plan.Valid(init) && k < |plan.files| && Staging(plan, init, fs.files, k)
    requires from <= |fs.history| && plan.StagesSince(fs.history, from, init)
    modifies fs, token
    ensures old(fs.history) <= fs.history
    ensures from <= |fs.history| && plan.StagesSince(fs.history, from, init)
    ensures fs.faults >= old(fs.faults)
    ensures r.Ok? ==> Staging(plan, init, fs.files, k + 1)
    ensures r.Err? ==> StagingFailed(plan, init, fs.files, r.error, token.cancelled, fs.faults - old(fs.faults))
    ensures fs.observed == old(fs.observed) + [Asked(r.Err? && r.error.Canceled?, old(fs.files), |old(fs.history)|)]
    ensures r.Err? && r.error.StageFailed? ==> r.error.path == plan.files[k].path
  {
    hide *;
    var cancelled := token.IsCancelled(fs);
    if cancelled {
      AllStagesThere(plan, init, fs.files, k);
      var failures := GiveUp(fs, plan, k, [], init, from);
      StagingIsExplained(plan, init, fs.files, Canceled(failures), true, fs.faults - old(fs.faults));
      return Err(Canceled(failures));
    }
    NextIsUnstaged(plan, init, fs.files, k);
    ghost var before := fs.files;
    var ok, cleanupFailures := StageOne(fs, plan, k, init, from);
    if !ok {
      StagingStops(plan, init, before, fs.files, k, cleanupFailures);
      var failures := GiveUp(fs, plan, k, cleanupFailures, init, from);
      StagingIsExplained(plan, init, fs.files, StageFailed(plan.files[k].path, failures), token.cancelled,
                         fs.faults - old(fs.faults));
      return Err(StageFailed(plan.files[k].path, failures));
    }
    StagingGoesOn(plan, init, before, fs.files, k);
    r := Ok(());
  }

  ghost predicate StagingFailed(plan: Plan, init: Files, state: Files, error: ApplyError, cancelled: bool,
                                faults: int) {
    && !error.Application? && !error.Conflict? && Refused(plan, init, state, error.cleanupFailures)
    && Explained(plan, init, error, cancelled, faults)
  }

  lemma {:induction false} StagingIsExplained(plan: Plan, init: Files, state: Files, error: ApplyError, cancelled: bool,
                                              faults: int)
    requires error.Canceled? || error.StageFailed?
    requires Refused(plan, init, state, error.cleanupFailures) && (error.Canceled? ==> cancelled)
    requires faults >= |error.cleanupFailures| + if error.StageFailed? then 1 else 0
    ensures StagingFailed(plan, init, state, error, cancelled, faults)
  {
    hide Refused;
  }

  /** More calls may have failed than an error needs for its explanation. */
  lemma {:induction false} StillExplained(plan: Plan, init: Files, state: Files, error: ApplyError, cancelled: bool,
                                          faults: int, more: int)
    requires StagingFailed(plan, init, state, error, cancelled, faults) && faults <= more
    ensures StagingFailed(plan, init, state, error, cancelled, more)
  {
    hide Refused;
  }

  /** A question to the token, with exactly the first `k` files staged. */
  ghost predicate Polled(plan: Plan, init: Files, o: Observation, cancelled: bool, k: nat) {
    && k <= |plan.files|
    && o.Asked? && o.cancelled == cancelled && Staging(plan, init, o.state, k)
  }

  /** Before each of the first `|seen|` files, and behind the one before it, the answer was no. */
  ghost predicate PolledEach(plan: Plan, init: Files, seen: seq<Observation>) {
    |seen| <= |plan.files| && forall k :: 0 <= k < |seen| ==> Polled(plan, init, seen[k], false, k)
  }

  /** What a failed staging has asked: the last answer is yes exactly if it was cancelled. */
  ghost predicate PolledUntil(plan: Plan, init: Files, seen: seq<Observation>, error: ApplyError) {
    && 0 < |seen| <= |plan.files|
    && var k := |seen| - 1;
       && PolledEach(plan, init, seen[..k]) && Polled(plan, init, seen[k], error.Canceled?, k)
       && (error.StageFailed? ==> error.path == plan.files[k].path)
  }

  lemma {:induction false} PolledStep(plan: Plan, init: Files, seen: seq<Observation>, o: Observation,
                                      cancelled: bool)
    requires |seen| < |plan.files| && PolledEach(plan, init, seen)
    requires o.Asked? && o.cancelled == cancelled && Staging(plan, init, o.state, |seen|)
    ensures Polled(plan, init, o, cancelled, |seen|)
    ensures !cancelled ==> PolledEach(plan, init, seen + [o])
  {
    hide Staging;
  }

  lemma {:induction false} PolledError(plan: Plan, init: Files, seen: seq<Observation>, o: Observation, error: ApplyError)
    requires |seen| < |plan.files| && PolledEach(plan, init, seen)
    requires o.Asked? && o.cancelled == error.Canceled? && Staging(plan, init, o.state, |seen|)
    requires error.StageFailed? ==> error.path == plan.files[|seen|].path
    ensures PolledUntil(plan, init, seen + [o], error)
  {
    hide Staging;
    assert (seen + [o])[..|seen|] == seen;
  }

  lemma {:induction false} NonePolled(plan: Plan, init: Files)
    ensures PolledEach(plan, init, [])
  {
  }

  /** The staging loop of `apply_rename_preview_with`. */
  method StageAll(fs: FileSystem, token: Cancellation, plan: Plan, ghost init: Files, ghost from: nat)
    returns (r: Result<seq<StagedFile>, ApplyError>)
    requires plan.Valid(init) && fs.files == init
    requires from <= |fs.history| && plan.StagesSince(fs.history, from, init)
    modifies fs, token
    ensures old(fs.history) <= fs.history
    ensures fs.faults >= old(fs.faults)
    ensures from <= |fs.history| && plan.StagesSince(fs.history, from, init)
    ensures r.Err? ==> StagingFailed(plan, init, fs.files, r.error, token.cancelled, fs.faults - old(fs.faults))
    ensures r.Ok? ==> Records(r.value, plan) && |r.value| == |plan.files|
    ensures r.Ok? ==> forall f :: f in r.value ==> fresh(f) && !f.originalMoved && !f.replacementInstalled
    ensures r.Ok? ==> Staging(plan, init, fs.files, |plan.files|)
    ensures old(fs.observed) <= fs.observed
    ensures var seen := fs.observed[|old(fs.observed)|..];
            if r.Ok? then |seen| == |plan.files| && PolledEach(plan, init, seen) else PolledUntil(plan, init, seen, r.error)
  {
    hide *;
    NoRecords(plan);
    StagingBegins(plan, init);
    NonePolled(plan, init);
    var staged: seq<StagedFile> := [];
    ghost var seen: seq<Observation> := [];
    for k := 0 to |plan.files|
      invariant old(fs.history) <= fs.history
      invariant |staged| == k && Records(staged, plan) && fs.faults >= old(fs.faults)
      invariant forall f :: f in staged ==> fresh(f) && !f.originalMoved && !f.replacementInstalled
      invariant from <= |fs.history| && plan.StagesSince(fs.history, from, init)
      invariant Staging(plan, init, fs.files, k)
      invariant |seen| == k && PolledEach(plan, init, seen) && fs.observed == old(fs.observed) + seen
    {
      ghost var faults, before, moment := fs.faults, fs.files, |fs.history|;
      var next := StageNext(fs, token, plan, k, init, from);
      ghost var o := Asked(next.Err? && next.error.Canceled?, before, moment);
      if next.Err? {
        PolledError(plan, init, seen, o, next.error);
        assert fs.observed[|old(fs.observed)|..] == seen + [o];
        StillExplained(plan, init, fs.files, next.error, token.cancelled, fs.faults - faults, fs.faults - old(fs.faults));
        return Err(next.error);
      }
      var file := AddRecord(plan, staged);
      staged := staged + [file];
      PolledStep(plan, init, seen, o, false);
      seen := seen + [o];
    }
    assert fs.observed[|old(fs.observed)|..] == seen;
    r := Ok(staged);
  }

  lemma {:induction false} StagingOnlyStages(plan: Plan, init: Files, history: seq<Files>, from: nat, seen: nat,
                                             before: Files, k: nat)
    requires plan.Valid(init) && plan.OnlyStages(before, init) && k < |plan.files|
    requires from <= seen <= |history|
    requires plan.StagesSince(history[..seen], from, init)
    requires ChangedOnlySince(history, seen, before, plan.Stage(k))
    ensures plan.StagesSince(history, from, init)
  {
    hide Plan.OnlyStages, Plan.Stage, Plan.Valid;
    forall i | from <= i < |history|
      ensures plan.OnlyStages(history[i], init)
    {
      if i < seen {
        assert history[i] == history[..seen][i];
      } else {
        StageChange(plan, init, before, history[i], k);
      }
    }
  }

  lemma {:induction false} StagesExtend(plan: Plan, init: Files, history: seq<Files>, from: nat, state: Files)
    requires plan.StagesSince(history, from, init) && plan.OnlyStages(state, init)
    ensures plan.StagesSince(history + [state], from, init)
  {
    hide Plan.OnlyStages;
  }

  lemma {:induction false} StagesAreSafe(plan: Plan, init: Files, history: seq<Files>, from: nat)
    requires plan.Valid(init) && plan.StagesSince(history, from, init)
    ensures plan.SafeSince(history, from, init)
  {
    hide Plan.OnlyStages, Plan.Safe, Plan.Valid;
    forall i | from <= i < |history|
      ensures plan.Safe(history[i], init)
    {
      OnlyStagesIsSafe(plan, init, history[i]);
    }
  }

  lemma {:induction false} SafeAt(plan: Plan, init: Files, history: seq<Files>, from: nat, i: nat)
    requires plan.Valid(init) && plan.SafeSince(history, from, init) && from <= i < |history|
    ensures plan.Safe(history[i], init)
  {
  }

  lemma {:induction false} SafeEverywhere(plan: Plan, init: Files, history: seq<Files>, from: nat)
    requires plan.Valid(init)
    requires forall i :: from <= i < |history| ==> plan.Safe(history[i], init)
    ensures plan.SafeSince(history, from, init)
  {
  }

  // ----- committing and rolling back -----

  /** `commit_file` */
  method CommitFile(fs: FileSystem, file: StagedFile) returns (ok: bool)
    requires !file.originalMoved && !file.replacementInstalled
    modifies fs`files, fs`history, fs`faults, file
    ensures ok <==> file.replacementInstalled
    ensures file.replacementInstalled ==> file.originalMoved
    ensures !file.originalMoved ==> fs.files == old(fs.files)
    ensures file.originalMoved ==> file.target in old(fs.files)
    ensures file.originalMoved && !file.replacementInstalled ==>
              fs.files == MovedOriginal(old(fs.files), file.target, file.backup)
    ensures file.replacementInstalled ==>
              var moved := MovedOriginal(old(fs.files), file.target, file.backup);
              file.stage in moved && fs.files == (moved - {file.stage})[file.target := moved[file.stage]]
    ensures !file.originalMoved ==> fs.history == old(fs.history) + [fs.files]
    ensures file.originalMoved ==>
              fs.history == old(fs.history) + [MovedOriginal(old(fs.files), file.target, file.backup), fs.files]
    ensures fs.faults >= old(fs.faults)
    ensures !file.originalMoved ==> file.target !in old(fs.files) || fs.faults > old(fs.faults)
    ensures file.originalMoved && !file.replacementInstalled ==>
              file.stage !in MovedOriginal(old(fs.files), file.target, file.backup) || fs.faults > old(fs.faults)
  {
    ok := fs.Rename(file.target, file.backup);
    if !ok {
      return;
    }
    file.originalMoved := true;
    ok := fs.Rename(file.stage, file.target);
    if !ok {
      return;
    }
    file.replacementInstalled := true;
  }

  ghost function MovedOriginal(files: Files, target: Path, backup: Path): Files
    requires target in files
  {
    (files - {target})[backup := files[target]]
  }

  /** The two renames of a commit take a file from staged to moved to installed, and touch no other file. */
  lemma {:induction false} CommitProgress(plan: Plan, init: Files, before: Files, k: nat)
    requires plan.Valid(init) && k < |plan.files|
    requires plan.ViewOf(before, k) == plan.Progress(k, false, false)
    ensures plan.Target(k) in before
    ensures var moved := MovedOriginal(before, plan.Target(k), plan.Backup(k));
            && plan.ViewOf(moved, k) == plan.Progress(k, true, false)
            && ChangedAt(plan, before, moved, k)
            && plan.Stage(k) in moved
            && var installed := (moved - {plan.Stage(k)})[plan.Target(k) := moved[plan.Stage(k)]];
               && plan.ViewOf(installed, k) == plan.Progress(k, true, true)
               && ChangedAt(plan, before, installed, k)
  {
    InitialView(plan, init, k);
    assert Lookup(before, plan.Target(k)).Some? && Lookup(before, plan.Stage(k)).Some?;
  }

  /** A commit under way keeps every original, at its target or at its backup path. */
  lemma {:induction false} ProgressIsSafe(plan: Plan, init: Files, state: Files)
    requires plan.Valid(init)
    requires forall k :: 0 <= k < |plan.files| ==> Lookup(init, plan.Target(k)) == Some(plan.files[k].Old())
    requires forall k :: 0 <= k < |plan.files| ==> InProgress(plan, state, k)
    ensures plan.Safe(state, init)
  {
    forall k | 0 <= k < |plan.files|
      ensures plan.OriginalKept(plan.ViewOf(state, k), init, k)
    {
      assert InProgress(plan, state, k);
    }
  }

  ghost predicate InProgress(plan: Plan, state: Files, k: nat) {
    && k < |plan.files|
    && exists moved, installed :: plan.ViewOf(state, k) == plan.Progress(k, moved, installed)
  }

  /** The contents that the preview was made from are the contents the transaction found. */
  ghost predicate Validated(plan: Plan, init: Files) {
    forall k :: 0 <= k < |plan.files| ==> Lookup(init, plan.Target(k)) == Some(plan.files[k].Old())
  }

  lemma {:induction false} FlagsAreSafe(staged: seq<StagedFile>, plan: Plan, init: Files, state: Files)
    requires plan.Valid(init) && Validated(plan, init)
    requires Records(staged, plan) && |staged| == |plan.files| && FlagsTell(staged, plan, state)
    ensures plan.OriginalsKept(state, init) && plan.Safe(state, init)
  {
    forall k | 0 <= k < |plan.files|
      ensures InProgress(plan, state, k)
    {
      assert plan.ViewOf(state, k) == plan.Progress(k, staged[k].originalMoved, staged[k].replacementInstalled);
    }
    ProgressIsSafe(plan, init, state);
    assert plan.OriginalsKept(state, init) by {
      forall k | 0 <= k < |plan.files|
        ensures plan.OriginalKept(plan.ViewOf(state, k), init, k)
      {
        assert InProgress(plan, state, k);
      }
    }
  }

  lemma {:induction false} OriginalsAreSafe(plan: Plan, init: Files, state: Files)
    requires plan.Valid(init) && plan.OriginalsKept(state, init)
    ensures plan.Safe(state, init)
  {
  }

  /** A change of file `k` that keeps its original keeps all originals. */
  lemma {:induction false} OneChangeKeepsOriginals(plan: Plan, init: Files, before: Files, after: Files, k: nat)
    requires plan.Valid(init) && k < |plan.files|
    requires plan.OriginalsKept(before, init) && plan.OthersKept(before, init)
    requires ChangedAt(plan, before, after, k)
    requires plan.OriginalKept(plan.ViewOf(after, k), init, k)
    ensures plan.OriginalsKept(after, init) && plan.OthersKept(after, init) && plan.Safe(after, init)
    ensures forall j :: 0 <= j < |plan.files| && j != k ==> plan.ViewOf(after, j) == plan.ViewOf(before, j)
  {
    OtherViewsKept(plan, init, before, after, k);
    forall j | 0 <= j < |plan.files|
      ensures plan.OriginalKept(plan.ViewOf(after, j), init, j)
    {
      if j != k {
        assert plan.OriginalKept(plan.ViewOf(before, j), init, j);
      }
    }
  }

  /** The calls of the commit of file `k`, as `history` shows them from `since` on. */
  ghost predicate CommitCalls(plan: Plan, history: seq<Files>, since: nat, k: nat, moved: bool, installed: bool) {
    && k < |plan.files|
    && since + (if moved then 2 else 1) <= |history|
    && plan.ViewOf(history[since], k) == plan.Progress(k, moved, false)
    && (moved ==> plan.ViewOf(history[since + 1], k) == plan.Progress(k, true, installed))
  }

  lemma {:induction false} CommitCallsKept(plan: Plan, before: seq<Files>, after: seq<Files>, since: nat, k: nat,
                                           moved: bool, installed: bool)
    requires k < |plan.files| && plan.files[k].Valid() && before <= after
    requires CommitCalls(plan, before, since, k, moved, installed)
    ensures CommitCalls(plan, after, since, k, moved, installed)
  {
    hide Plan.ViewOf, Plan.Progress, FilePreview.Valid;
  }

  /** The first `n` files have been committed one after the other since `since`. */
  ghost predicate CommittedInOrder(plan: Plan, history: seq<Files>, since: nat, n: nat) {
    && n <= |plan.files|
    && forall k :: 0 <= k < n ==> CommitCalls(plan, history, since + 2 * k, k, true, true)
  }

  lemma {:induction false} CommittedKept(plan: Plan, before: seq<Files>, after: seq<Files>, since: nat, n: nat)
    requires n <= |plan.files| && AllValid(plan) && before <= after && CommittedInOrder(plan, before, since, n)
    ensures CommittedInOrder(plan, after, since, n)
  {
    hide CommitCalls;
    forall k | 0 <= k < n
      ensures CommitCalls(plan, after, since + 2 * k, k, true, true)
    {
      CommitCallsKept(plan, before, after, since + 2 * k, k, true, true);
    }
  }

  lemma {:induction false} NoneCommitted(plan: Plan, history: seq<Files>, since: nat)
    requires AllValid(plan)
    ensures CommittedInOrder(plan, history, since, 0)
  {
  }

  lemma {:induction false} OneMoreCommitted(plan: Plan, before: seq<Files>, after: seq<Files>, since: nat, k: nat)
    requires k < |plan.files| && AllValid(plan) && before <= after && CommittedInOrder(plan, before, since, k)
    requires CommitCalls(plan, after, since + 2 * k, k, true, true)
    ensures CommittedInOrder(plan, after, since, k + 1)
  {
    hide CommitCalls;
    CommittedKept(plan, before, after, since, k);
  }

  /** The commit of file `k`, behind those of all files before it, was the one that failed. */
  ghost predicate CommitFailedAt(plan: Plan, history: seq<Files>, since: nat, k: nat)
  {
    && k < |plan.files| && CommittedInOrder(plan, history, since, k)
    && (CommitCalls(plan, history, since + 2 * k, k, false, false) || CommitCalls(plan, history, since + 2 * k, k, true, false))
  }

  lemma {:induction false} CommitFailure(plan: Plan, before: seq<Files>, middle: seq<Files>, after: seq<Files>,
                                         since: nat, k: nat, moved: bool)
    requires k < |plan.files| && AllValid(plan) && before <= middle <= after && CommittedInOrder(plan, before, since, k)
    requires CommitCalls(plan, middle, since + 2 * k, k, moved, false)
    ensures CommitFailedAt(plan, after, since, k)
  {
    hide CommitCalls;
    CommittedKept(plan, before, after, since, k);
    CommitCallsKept(plan, middle, after, since + 2 * k, k, moved, false);
  }

  /** One turn of the commit loop. */
  method CommitOne(fs: FileSystem, plan: Plan, staged: seq<StagedFile>, k: nat, ghost init: Files, ghost from: nat)
    returns (ok: bool)
    requires plan.Valid(init) && Validated(plan, init) && plan.OthersKept(fs.files, init)
    requires Records(staged, plan) && |staged| == |plan.files| && FlagsTell(staged, plan, fs.files)
    requires k < |staged| && !staged[k].originalMoved && !staged[k].replacementInstalled
    requires from <= |fs.history| && plan.SafeSince(fs.history, from, init)
    modifies fs`files, fs`history, fs`faults, staged[k]
    ensures plan.OthersKept(fs.files, init) && FlagsTell(staged, plan, fs.files)
    ensures from <= |fs.history| && plan.SafeSince(fs.history, from, init)
    ensures ok <==> staged[k].replacementInstalled
    ensures staged[k].replacementInstalled ==> staged[k].originalMoved
    ensures fs.faults >= old(fs.faults) && (!ok ==> fs.faults > old(fs.faults))
    ensures old(fs.history) <= fs.history && (ok ==> |fs.history| == |old(fs.history)| + 2)
    ensures plan.files[k].Valid() && CommitCalls(plan, fs.history, |old(fs.history)|, k, staged[k].originalMoved, ok)
  {
    hide Plan.ViewOf, Plan.Progress, Plan.OthersKept, Plan.SafeSince, Plan.Safe, Plan.OriginalsKept, Plan.OriginalKept,
         Plan.Valid, Validated, CommitCalls, FilePreview.Valid, ChangedAt;
    ghost var before, seen := fs.files, fs.history;
    ValidFiles(plan, init);
    StillStaged(staged, plan, before, k);
    CommitProgress(plan, init, before, k);
    FlagsAreSafe(staged, plan, init, before);
    ok := CommitFile(fs, staged[k]);
    ghost var moved, installed := staged[k].originalMoved, staged[k].replacementInstalled;
    CommitShown(plan, init, before, fs.files, seen, fs.history, from, k, moved, installed);
    forall j | 0 <= j < |staged|
      ensures plan.ViewOf(fs.files, j) == plan.Progress(j, staged[j].originalMoved, staged[j].replacementInstalled)
    {
      assert j != k ==> staged[j] != staged[k];
    }
  }

  lemma {:induction false} ValidFiles(plan: Plan, init: Files)
    requires plan.Valid(init)
    ensures AllValid(plan)
  {
  }

  lemma {:induction false} StillStaged(staged: seq<StagedFile>, plan: Plan, state: Files, k: nat)
    requires Records(staged, plan) && k < |staged| && (forall j :: 0 <= j < |plan.files| ==> plan.files[j].Valid())
    requires FlagsTell(staged, plan, state) && !staged[k].originalMoved && !staged[k].replacementInstalled
    ensures plan.ViewOf(state, k) == plan.Progress(k, false, false)
    ensures staged[k].target == plan.Target(k) && staged[k].stage == plan.Stage(k) && staged[k].backup == plan.Backup(k)
  {
    hide Plan.ViewOf, Plan.Progress, FilePreview.Valid;
  }

  /** What the calls of one commit leave, and what the history shows of them. */
  lemma {:induction false} CommitShown(plan: Plan, init: Files, before: Files, after: Files, seen: seq<Files>,
                                       history: seq<Files>, from: nat, k: nat, moved: bool, installed: bool)
    requires plan.Valid(init) && Validated(plan, init) && k < |plan.files|
    requires plan.ViewOf(before, k) == plan.Progress(k, false, false)
    requires plan.OriginalsKept(before, init) && plan.OthersKept(before, init)
    requires from <= |seen| && plan.SafeSince(seen, from, init) && (installed ==> moved)
    requires !moved ==> after == before && history == seen + [after]
    requires moved ==>
               && plan.Target(k) in before
               && var m := MovedOriginal(before, plan.Target(k), plan.Backup(k));
                  && history == seen + [m, after]
                  && if installed then plan.Stage(k) in m && after == (m - {plan.Stage(k)})[plan.Target(k) := m[plan.Stage(k)]]
                     else after == m
    ensures plan.ViewOf(after, k) == plan.Progress(k, moved, installed)
    ensures forall j :: 0 <= j < |plan.files| && j != k ==> plan.ViewOf(after, j) == plan.ViewOf(before, j)
    ensures plan.OthersKept(after, init) && plan.SafeSince(history, from, init)
    ensures CommitCalls(plan, history, |seen|, k, moved, installed)
  {
    hide Plan.ViewOf, Plan.Progress, Plan.OthersKept, Plan.SafeSince, Plan.Safe, Plan.OriginalsKept, Plan.OriginalKept,
         ChangedAt, Plan.Valid, FilePreview.Valid, Validated, CommitCalls;
    ValidFiles(plan, init);
    CommitProgress(plan, init, before, k);
    ghost var m := MovedOriginal(before, plan.Target(k), plan.Backup(k));
    ghost var i := (m - {plan.Stage(k)})[plan.Target(k) := m[plan.Stage(k)]];
    ProgressKeeps(plan, init, k, true, false);
    ProgressKeeps(plan, init, k, true, true);
    OriginalsAreSafe(plan, init, before);
    OneChangeKeepsOriginals(plan, init, before, m, k);
    OneChangeKeepsOriginals(plan, init, before, i, k);
    assert history[..|seen|] == seen;
    CommitHistorySafe(plan, init, history, from, |seen|, before, m, i);
    ShownCalls(plan, history, |seen|, k, before, moved, installed);
  }

  lemma {:induction false} ProgressKeeps(plan: Plan, init: Files, k: nat, moved: bool, installed: bool)
    requires k < |plan.files| && plan.files[k].Valid() && Validated(plan, init) && (installed ==> moved)
    ensures plan.OriginalKept(plan.Progress(k, moved, installed), init, k)
  {
  }

  lemma {:induction false} ShownCalls(plan: Plan, history: seq<Files>, since: nat, k: nat, before: Files, moved: bool,
                                      installed: bool)
    requires k < |plan.files| && plan.files[k].Valid() && since + (if moved then 2 else 1) <= |history|
    requires plan.ViewOf(history[since], k) == plan.Progress(k, moved, false)
    requires moved ==> plan.ViewOf(history[since + 1], k) == plan.Progress(k, true, installed)
    ensures CommitCalls(plan, history, since, k, moved, installed)
  {
    hide Plan.ViewOf, Plan.Progress;
  }

  lemma {:induction false} CommitHistorySafe(plan: Plan, init: Files, history: seq<Files>, from: nat, seen: nat,
                          before: Files, moved: Files, installed: Files)
    requires plan.Valid(init) && from <= seen <= |history|
    requires plan.SafeSince(history[..seen], from, init)
    requires plan.Safe(before, init) && plan.Safe(moved, init) && plan.Safe(installed, init)
    requires forall i :: seen <= i < |history| ==> history[i] == before || history[i] == moved || history[i] == installed
    ensures plan.SafeSince(history, from, init)
  {
    hide *;
    forall i | from <= i < |history|
      ensures plan.Safe(history[i], init)
    {
      if i < seen {
        SafeAt(plan, init, history[..seen], from, i);
      }
    }
    SafeEverywhere(plan, init, history, from);
  }

  lemma {:induction false} SafeExtends(plan: Plan, init: Files, history: seq<Files>, from: nat, state: Files)
    requires plan.Valid(init) && from <= |history|
    requires plan.SafeSince(history, from, init) && plan.Safe(state, init)
    ensures plan.SafeSince(history + [state], from, init)
  {
    hide *;
    forall i | from <= i < |history + [state]|
      ensures plan.Safe((history + [state])[i], init)
    {
      if i < |history| {
        SafeAt(plan, init, history, from, i);
      }
    }
    SafeEverywhere(plan, init, history + [state], from);
  }

  /** What removing the target, or moving the backup over it, does to the paths of file `k`. */
  lemma {:induction false} RollbackViews(plan: Plan, init: Files, before: Files, k: nat)
    requires plan.Valid(init) && k < |plan.files|
    ensures var v, removed := plan.ViewOf(before, k), before - {plan.Target(k)};
            ChangedAt(plan, before, removed, k) && plan.ViewOf(removed, k) == View(None, v.stage, v.backup)
    ensures plan.Backup(k) in before ==>
              var v := plan.ViewOf(before, k);
              var restored := (before - {plan.Backup(k)})[plan.Target(k) := before[plan.Backup(k)]];
              ChangedAt(plan, before, restored, k) && plan.ViewOf(restored, k) == View(v.backup, v.stage, None)
  {
    InitialView(plan, init, k);
  }

  lemma {:induction false} RemovedStageView(plan: Plan, init: Files, before: Files, after: Files, k: nat)
    requires plan.Valid(init) && k < |plan.files|
    requires forall path :: path != plan.Stage(k) ==> Lookup(after, path) == Lookup(before, path)
    ensures ChangedAt(plan, before, after, k)
    ensures plan.ViewOf(after, k) == plan.ViewOf(before, k).(stage := Lookup(after, plan.Stage(k)))
  {
    InitialView(plan, init, k);
  }

  /** What rollback is going to remove or move is there. */
  lemma {:induction false} CommittedPaths(plan: Plan, state: Files, k: nat, originalMoved: bool,
                                          replacementInstalled: bool)
    requires k < |plan.files| && plan.files[k].Valid()
    requires plan.ViewOf(state, k) == plan.Progress(k, originalMoved, replacementInstalled)
    ensures replacementInstalled ==> plan.Target(k) in state
    ensures originalMoved || replacementInstalled ==> plan.Backup(k) in state
  {
  }

  /** What the paths of file `k` hold after a rollback that reports `failures`. */
  ghost function Left(plan: Plan, failures: seq<Path>, k: nat): View
    requires k < |plan.files|
  {
    var old', new' := Some(plan.files[k].Old()), Some(plan.files[k].New());
    var kept, removed := plan.Target(k) in failures, plan.Backup(k) in failures;
    View(if kept then new' else if removed then None else old',
         if plan.Stage(k) in failures then new' else None,
         if kept || removed then old' else None)
  }

  ghost predicate RolledBack(plan: Plan, state: Files, failures: seq<Path>, k: nat) {
    && k < |plan.files|
    && plan.ViewOf(state, k) == Left(plan, failures, k)
  }

  /** Every reported path belongs to one of the files `low..`. */
  ghost predicate PathsOf(plan: Plan, low: nat, failures: seq<Path>) {
    forall p :: p in failures ==> exists k :: low <= k < |plan.files| && plan.Owns(k, p)
  }

  ghost predicate NoneOwned(plan: Plan, failures: seq<Path>, k: nat) {
    && k < |plan.files|
    && forall p :: p in failures ==> !plan.Owns(k, p)
  }

  /** The reports added are about file `k`. */
  ghost predicate AddsFor(plan: Plan, failures: seq<Path>, r: seq<Path>, k: nat) {
    && k < |plan.files|
    && (|failures| <= |r| && r[..|failures|] == failures && forall p :: p in r[|failures|..] ==> plan.Owns(k, p))
  }

  /** Three reports at most, for the target, the backup and the stage of file `k`. */
  function Added(plan: Plan, k: nat, kept: bool, removed: bool, staged: bool): seq<Path>
    requires k < |plan.files|
  {
    (if kept then [plan.Target(k)] else []) + (if removed then [plan.Backup(k)] else [])
    + (if staged then [plan.Stage(k)] else [])
  }

  lemma {:induction false} AddedPaths(plan: Plan, k: nat, kept: bool, removed: bool, staged: bool)
    requires k < |plan.files|
    requires plan.Target(k) != plan.Stage(k) && plan.Target(k) != plan.Backup(k) && plan.Stage(k) != plan.Backup(k)
    ensures var added := Added(plan, k, kept, removed, staged);
            && (plan.Target(k) in added <==> kept) && (plan.Backup(k) in added <==> removed)
            && (plan.Stage(k) in added <==> staged) && forall p :: p in added ==> plan.Owns(k, p)
  {
    hide Plan.Target, Plan.Backup, Plan.Stage;
  }

  lemma {:induction false} ReportsFor(plan: Plan, init: Files, state: Files, failures: seq<Path>, r: seq<Path>, k: nat,
                                      kept: bool, removed: bool, staged: bool)
    requires plan.Valid(init) && k < |plan.files| && plan.files[k].Valid() && NoneOwned(plan, failures, k)
    requires r == failures + Added(plan, k, kept, removed, staged)
    requires var old', new' := Some(plan.files[k].Old()), Some(plan.files[k].New());
             plan.ViewOf(state, k) == View(if kept then new' else if removed then None else old',
                                           if staged then new' else None, if kept || removed then old' else None)
    ensures AddsFor(plan, failures, r, k) && RolledBack(plan, state, r, k)
  {
    hide Plan.Valid, Plan.ViewOf, Plan.Stage, Plan.Backup, Plan.Target, FilePreview.Valid, FilePreview.New,
         FilePreview.Old, Added;
    InitialView(plan, init, k);
    AddedPaths(plan, k, kept, removed, staged);
    assert plan.Owns(k, plan.Target(k)) && plan.Owns(k, plan.Backup(k)) && plan.Owns(k, plan.Stage(k));
    assert r[|failures|..] == Added(plan, k, kept, removed, staged);
  }

  lemma {:induction false} OwnedOnce(plan: Plan, init: Files, j: nat, k: nat, p: Path)
    requires plan.Valid(init) && j < |plan.files| && k < |plan.files| && j != k && plan.Owns(j, p)
    ensures !plan.Owns(k, p)
  {
    OwnersDistinct(plan, init, j, k);
  }

  /** The reports about the files behind `k` say nothing about file `k`. */
  lemma {:induction false} NotYetReported(plan: Plan, init: Files, failures: seq<Path>, k: nat)
    requires plan.Valid(init) && k < |plan.files| && PathsOf(plan, k + 1, failures)
    ensures NoneOwned(plan, failures, k)
  {
    hide Plan.Valid, Plan.Owns;
    forall p | p in failures
      ensures !plan.Owns(k, p)
    {
      var j :| k + 1 <= j < |plan.files| && plan.Owns(j, p);
      OwnedOnce(plan, init, j, k, p);
    }
  }

  /** Reports about file `k` change nothing in what is said about another file. */
  lemma {:induction false} OthersStayRolledBack(plan: Plan, init: Files, before: Files, after: Files,
                                                failures: seq<Path>, r: seq<Path>,
                                                k: nat, j: nat)
    requires plan.Valid(init) && j < |plan.files| && k < |plan.files| && j != k && plan.files[j].Valid()
    requires AddsFor(plan, failures, r, k) && plan.ViewOf(after, j) == plan.ViewOf(before, j)
    requires RolledBack(plan, before, failures, j)
    ensures RolledBack(plan, after, r, j)
  {
    OwnersDistinct(plan, init, k, j);
    hide Plan.Valid, Plan.ViewOf, Plan.Owns, Plan.Stage, Plan.Backup, Plan.Target, FilePreview.Valid, FilePreview.New,
         FilePreview.Old;
    assert r == failures + r[|failures|..];
    assert forall p :: p in r <==> p in failures || p in r[|failures|..];
  }

  lemma {:induction false} PathsOfStep(plan: Plan, failures: seq<Path>, r: seq<Path>, k: nat)
    requires k < |plan.files| && PathsOf(plan, k + 1, failures) && AddsFor(plan, failures, r, k)
    ensures PathsOf(plan, k, r)
  {
    hide Plan.Owns;
    assert r == failures + r[|failures|..];
    forall p | p in r
      ensures exists j :: k <= j < |plan.files| && plan.Owns(j, p)
    {
      if p in failures {
        var j :| k + 1 <= j < |plan.files| && plan.Owns(j, p);
      } else {
        assert p in r[|failures|..];
      }
    }
  }

  /** No original is lost, nothing foreign has changed, and neither was the case since `from`. */
  ghost predicate Guarded(fs: FileSystem, plan: Plan, init: Files, from: nat)
    reads fs
  {
    && plan.OriginalsKept(fs.files, init) && plan.OthersKept(fs.files, init)
    && from <= |fs.history| && plan.SafeSince(fs.history, from, init)
  }

  /** One more call, about file `k`, that keeps its original. */
  lemma {:induction false} StillGuarded(plan: Plan, init: Files, before: Files, after: Files, seen: seq<Files>,
                                        from: nat, k: nat)
    requires plan.Valid(init) && k < |plan.files| && from <= |seen|
    requires plan.OriginalsKept(before, init) && plan.OthersKept(before, init) && plan.SafeSince(seen, from, init)
    requires after == before || (ChangedAt(plan, before, after, k) && plan.OriginalKept(plan.ViewOf(after, k), init, k))
    ensures plan.OriginalsKept(after, init) && plan.OthersKept(after, init) && plan.SafeSince(seen + [after], from, init)
    ensures forall j :: 0 <= j < |plan.files| && j != k ==> plan.ViewOf(after, j) == plan.ViewOf(before, j)
  {
    hide *;
    if after != before {
      OneChangeKeepsOriginals(plan, init, before, after, k);
    }
    OriginalsAreSafe(plan, init, after);
    SafeExtends(plan, init, seen, from, after);
  }

  lemma {:induction false} BackedUp(plan: Plan, init: Files, view: View, k: nat)
    requires k < |plan.files| && Validated(plan, init)
    requires view.target == Some(plan.files[k].Old()) || view.backup == Some(plan.files[k].Old())
    ensures plan.OriginalKept(view, init, k)
  {
  }

  /** Removing the replacement of file `k`. */
  method RemoveReplacement(fs: FileSystem, plan: Plan, k: nat, ghost init: Files, ghost from: nat) returns (ok: bool)
    requires plan.Valid(init) && Validated(plan, init) && k < |plan.files| && plan.files[k].Valid()
    requires Guarded(fs, plan, init, from) && plan.ViewOf(fs.files, k) == plan.Progress(k, true, true)
    modifies fs`files, fs`history, fs`faults
    ensures old(fs.history) <= fs.history
    ensures Guarded(fs, plan, init, from)
    ensures plan.ViewOf(fs.files, k) == if ok then View(None, None, Some(plan.files[k].Old())) else plan.Progress(k, true, true)
    ensures forall j :: 0 <= j < |plan.files| && j != k ==> plan.ViewOf(fs.files, j) == plan.ViewOf(old(fs.files), j)
    ensures fs.faults - old(fs.faults) >= if ok then 0 else 1
  {
    hide Plan.ViewOf, Plan.OriginalsKept, Plan.OthersKept, Plan.SafeSince, Plan.Valid, FilePreview.Valid,
         FilePreview.New,
         FilePreview.Old, ChangedAt, Lookup, Validated, Plan.OriginalKept;
    ghost var before, seen := fs.files, fs.history;
    CommittedPaths(plan, before, k, true, true);
    RollbackViews(plan, init, before, k);
    BackedUp(plan, init, View(None, None, Some(plan.files[k].Old())), k);
    var outcome := fs.Remove(plan.Target(k));
    ok := outcome == Removed;
    StillGuarded(plan, init, before, fs.files, seen, from, k);
  }

  /** Moving the backup of file `k` back over its target. */
  method RestoreOriginal(fs: FileSystem, plan: Plan, k: nat, ghost stage: Option<Bytes>, ghost init: Files,
                         ghost from: nat)
    returns (ok: bool)
    requires plan.Valid(init) && Validated(plan, init) && k < |plan.files|
    requires Guarded(fs, plan, init, from) && plan.ViewOf(fs.files, k) == View(None, stage, Some(plan.files[k].Old()))
    modifies fs`files, fs`history, fs`faults
    ensures old(fs.history) <= fs.history
    ensures Guarded(fs, plan, init, from)
    ensures var original := Some(plan.files[k].Old());
            plan.ViewOf(fs.files, k) == if ok then View(original, stage, None) else View(None, stage, original)
    ensures forall j :: 0 <= j < |plan.files| && j != k ==> plan.ViewOf(fs.files, j) == plan.ViewOf(old(fs.files), j)
    ensures fs.faults - old(fs.faults) >= if ok then 0 else 1
  {
    hide Plan.ViewOf, Plan.OriginalsKept, Plan.OthersKept, Plan.SafeSince, Plan.Valid, FilePreview.Old, ChangedAt,
         Lookup, Validated,
         Plan.OriginalKept;
    ghost var before, seen := fs.files, fs.history;
    BackupOfView(plan, before, k);
    RollbackViews(plan, init, before, k);
    BackedUp(plan, init, View(Some(plan.files[k].Old()), stage, None), k);
    ok := fs.Rename(plan.Backup(k), plan.Target(k));
    StillGuarded(plan, init, before, fs.files, seen, from, k);
  }

  lemma {:induction false} BackupOfView(plan: Plan, state: Files, k: nat)
    requires k < |plan.files| && plan.ViewOf(state, k).backup.Some?
    ensures plan.Backup(k) in state
  {
  }

  /** Removing the stage of file `k`, whose original is already where it belongs or could not be brought there. */
  method RemoveStage(fs: FileSystem, plan: Plan, k: nat, failures: seq<Path>, ghost init: Files,
                     ghost from: nat) returns (r: seq<Path>)
    requires plan.Valid(init) && k < |plan.files| && Guarded(fs, plan, init, from)
    requires plan.OriginalKept(plan.ViewOf(fs.files, k), init, k)
    modifies fs`files, fs`history, fs`faults
    ensures old(fs.history) <= fs.history
    ensures Guarded(fs, plan, init, from)
    ensures var v := plan.ViewOf(old(fs.files), k);
            || (r == failures && plan.ViewOf(fs.files, k) == v.(stage := None))
            || (r == failures + [plan.Stage(k)] && plan.ViewOf(fs.files, k) == v && fs.faults > old(fs.faults))
    ensures forall j :: 0 <= j < |plan.files| && j != k ==> plan.ViewOf(fs.files, j) == plan.ViewOf(old(fs.files), j)
    ensures fs.faults >= old(fs.faults)
  {
    hide Plan.ViewOf, Plan.OriginalsKept, Plan.OthersKept, Plan.SafeSince, Plan.Valid, ChangedAt, Lookup;
    ghost var before, seen := fs.files, fs.history;
    r := RemoveStagedPath(fs, plan.Stage(k), failures);
    RemovedStageView(plan, init, before, fs.files, k);
    StillGuarded(plan, init, before, fs.files, seen, from, k);
  }

  /** One turn of the loop of `rollback`, for file `k`. */
  method RollbackOne(fs: FileSystem, plan: Plan, file: StagedFile, k: nat, failures: seq<Path>,
                     ghost init: Files, ghost from: nat)
    returns (r: seq<Path>)
    requires plan.Valid(init) && Validated(plan, init) && k < |plan.files| && plan.files[k].Valid()
    requires file.target == plan.Target(k) && file.stage == plan.Stage(k) && file.backup == plan.Backup(k)
    requires file.replacementInstalled ==> file.originalMoved
    requires plan.ViewOf(fs.files, k) == plan.Progress(k, file.originalMoved, file.replacementInstalled)
    requires Guarded(fs, plan, init, from) && NoneOwned(plan, failures, k)
    modifies fs`files, fs`history, fs`faults
    ensures old(fs.history) <= fs.history
    ensures Guarded(fs, plan, init, from)
    ensures forall j :: 0 <= j < |plan.files| && j != k ==> plan.ViewOf(fs.files, j) == plan.ViewOf(old(fs.files), j)
    ensures AddsFor(plan, failures, r, k) && RolledBack(plan, fs.files, r, k)
    ensures fs.faults - old(fs.faults) >= |r| - |failures|
  {
    hide Plan.ViewOf, Plan.Valid, Guarded, NoneOwned, AddsFor, RolledBack, Validated, FilePreview.Valid,
         FilePreview.New, FilePreview.Old,
         Plan.OriginalKept;
    r := failures;
    ghost var unrestored, unremoved := false, false;
    if file.replacementInstalled {
      var removed := RemoveReplacement(fs, plan, k, init, from);
      if !removed {
        r := r + [file.target];
        ReportsFor(plan, init, fs.files, failures, r, k, true, false, false);
        return;
      }
    }
    if file.originalMoved {
      var restored := RestoreOriginal(fs, plan, k, plan.ViewOf(fs.files, k).stage, init, from);
      if !restored {
        r := r + [file.backup];
        unrestored := true;
      }
    }
    if !file.replacementInstalled {
      BackedUp(plan, init, plan.ViewOf(fs.files, k), k);
      ghost var reported := r;
      r := RemoveStage(fs, plan, k, r, init, from);
      unremoved := r != reported;
    }
    ReportsFor(plan, init, fs.files, failures, r, k, false, unrestored, unremoved);
  }

  /** How far rollback has come: file `k` and those behind it are rolled back, the others as far as their flags say. */
  ghost predicate RollingBack(plan: Plan, staged: seq<StagedFile>, state: Files, failures: seq<Path>, k: nat)
    reads staged
  {
    && Records(staged, plan) && |staged| == |plan.files| && k <= |staged|
    && (forall j :: 0 <= j < k ==>
          plan.ViewOf(state, j) == plan.Progress(j, staged[j].originalMoved, staged[j].replacementInstalled))
    && (forall j :: k <= j < |staged| ==> RolledBack(plan, state, failures, j))
    && PathsOf(plan, k, failures)
  }

  lemma {:induction false} RollingBackStep(plan: Plan, init: Files, staged: seq<StagedFile>, before: Files,
                                           after: Files,
                                           failures: seq<Path>, r: seq<Path>, k: nat)
    requires plan.Valid(init) && Records(staged, plan) && |staged| == |plan.files| && k < |staged|
    requires AllValid(plan)
    requires RollingBack(plan, staged, before, failures, k + 1)
    requires forall j :: 0 <= j < |plan.files| && j != k ==> plan.ViewOf(after, j) == plan.ViewOf(before, j)
    requires AddsFor(plan, failures, r, k) && RolledBack(plan, after, r, k)
    ensures RollingBack(plan, staged, after, r, k)
  {
    hide Plan.Valid, Plan.ViewOf, Plan.Progress, Plan.Owns, Records, RolledBack, AddsFor, PathsOf, FilePreview.Valid;
    PathsOfStep(plan, failures, r, k);
    forall j | k <= j < |staged|
      ensures RolledBack(plan, after, r, j)
    {
      if j != k {
        OthersStayRolledBack(plan, init, before, after, failures, r, k, j);
      }
    }
  }

  /** What a failed commit has left, once it is rolled back: exactly what the reports say, file by file. */
  ghost predicate Restored(plan: Plan, init: Files, state: Files, failures: seq<Path>)
  {
    && plan.OthersKept(state, init) && plan.OriginalsKept(state, init)
    && (forall k :: 0 <= k < |plan.files| ==> RolledBack(plan, state, failures, k))
    && PathsOf(plan, 0, failures)
  }

  /** A rollback that reports nothing has restored everything. */
  lemma {:induction false} RestoredClean(plan: Plan, init: Files, state: Files)
    requires plan.Valid(init) && Validated(plan, init) && AllValid(plan) && Restored(plan, init, state, [])
    ensures state == init
  {
    forall k | 0 <= k < |plan.files|
      ensures plan.ViewOf(state, k) == plan.ViewOf(init, k)
    {
      assert RolledBack(plan, state, [], k);
      InitialView(plan, init, k);
    }
    SameViewsSameFiles(plan, init, state);
  }

  ghost predicate AllValid(plan: Plan) {
    forall j :: 0 <= j < |plan.files| ==> plan.files[j].Valid()
  }

  /** `rollback` */
  method Rollback(fs: FileSystem, plan: Plan, staged: seq<StagedFile>, ghost init: Files, ghost from: nat)
    returns (failures: seq<Path>)
    requires plan.Valid(init) && Validated(plan, init) && AllValid(plan) && plan.OthersKept(fs.files, init)
    requires Records(staged, plan) && |staged| == |plan.files| && FlagsTell(staged, plan, fs.files)
    requires forall f :: f in staged && f.replacementInstalled ==> f.originalMoved
    requires from <= |fs.history| && plan.SafeSince(fs.history, from, init)
    modifies fs`files, fs`history, fs`faults
    ensures old(fs.history) <= fs.history
    ensures Restored(plan, init, fs.files, failures)
    ensures from <= |fs.history| && plan.SafeSince(fs.history, from, init)
    ensures fs.faults - old(fs.faults) >= |failures|
  {
    hide *;
    failures := [];
    RollbackBegins(fs, plan, staged, init, from);
    for k := |staged| downto 0
      invariant old(fs.history) <= fs.history
      invariant fs.faults - old(fs.faults) >= |failures|
      invariant Guarded(fs, plan, init, from)
      invariant RollingBack(plan, staged, fs.files, failures, k)
    {
      ghost var before, reported := fs.files, failures;
      NextToRollBack(plan, staged, before, failures, k);
      NotYetReported(plan, init, failures, k);
      failures := RollbackOne(fs, plan, staged[k], k, failures, init, from);
      RollingBackStep(plan, init, staged, before, fs.files, reported, failures, k);
    }
    RollbackEnds(fs, plan, staged, failures, init, from);
  }

  lemma {:induction false} RollbackBegins(fs: FileSystem, plan: Plan, staged: seq<StagedFile>, init: Files, from: nat)
    requires plan.Valid(init) && Validated(plan, init) && AllValid(plan) && plan.OthersKept(fs.files, init)
    requires Records(staged, plan) && |staged| == |plan.files| && FlagsTell(staged, plan, fs.files)
    requires from <= |fs.history| && plan.SafeSince(fs.history, from, init)
    ensures Guarded(fs, plan, init, from) && RollingBack(plan, staged, fs.files, [], |staged|)
  {
    hide Plan.Valid, Plan.OriginalsKept, Plan.OthersKept, Plan.SafeSince, Plan.Safe, Plan.ViewOf, Plan.Progress,
         Validated, RolledBack;
    FlagsAreSafe(staged, plan, init, fs.files);
  }

  lemma {:induction false} NextToRollBack(plan: Plan, staged: seq<StagedFile>, state: Files, failures: seq<Path>,
                                          k: nat)
    requires Records(staged, plan) && |staged| == |plan.files| && k < |staged| && AllValid(plan)
    requires RollingBack(plan, staged, state, failures, k + 1)
    ensures plan.files[k].Valid() && PathsOf(plan, k + 1, failures)
    ensures plan.ViewOf(state, k) == plan.Progress(k, staged[k].originalMoved, staged[k].replacementInstalled)
    ensures staged[k].target == plan.Target(k) && staged[k].stage == plan.Stage(k) && staged[k].backup == plan.Backup(k)
  {
    hide Plan.ViewOf, Plan.Progress, RolledBack, PathsOf, FilePreview.Valid;
  }

  lemma {:induction false} RollbackEnds(fs: FileSystem, plan: Plan, staged: seq<StagedFile>, failures: seq<Path>,
                                        init: Files, from: nat)
    requires plan.Valid(init) && AllValid(plan) && Records(staged, plan) && |staged| == |plan.files|
    requires Guarded(fs, plan, init, from) && RollingBack(plan, staged, fs.files, failures, 0)
    ensures Restored(plan, init, fs.files, failures)
    ensures from <= |fs.history| && plan.SafeSince(fs.history, from, init)
  {
    hide Plan.Valid, Plan.OriginalsKept, Plan.OthersKept, Plan.SafeSince, Plan.ViewOf, Plan.Progress, RolledBack,
         PathsOf,
         FilePreview.Valid;
  }

  /** The commit loop, with its rollback on the first failure. */
  method CommitAll(fs: FileSystem, plan: Plan, staged: seq<StagedFile>, ghost init: Files, ghost from: nat)
    returns (r: Result<(), ApplyError>)
    requires plan.Valid(init) && Validated(plan, init) && AllValid(plan) && plan.OthersKept(fs.files, init)
    requires Records(staged, plan) && |staged| == |plan.files| && FlagsTell(staged, plan, fs.files)
    requires forall f :: f in staged ==> !f.originalMoved && !f.replacementInstalled
    requires from <= |fs.history| && plan.SafeSince(fs.history, from, init)
    modifies fs`files, fs`history, fs`faults, staged
    ensures from <= |fs.history| && plan.SafeSince(fs.history, from, init)
    ensures fs.faults >= old(fs.faults)
    ensures r.Ok? ==> plan.OthersKept(fs.files, init)
    ensures r.Ok? ==>
              forall k :: 0 <= k < |plan.files| ==> plan.ViewOf(fs.files, k) == plan.Progress(k, true, true)
    ensures r.Err? ==>
              && r.error.Application? && Restored(plan, init, fs.files, r.error.rollbackFailures)
              && fs.faults - old(fs.faults) >= 1 + |r.error.rollbackFailures|
    ensures old(fs.history) <= fs.history
    ensures r.Ok? ==> CommittedInOrder(plan, fs.history, |old(fs.history)|, |plan.files|)
    ensures r.Err? ==>
              exists k: nat :: CommitFailedAt(plan, fs.history, |old(fs.history)|, k) && r.error.path == plan.files[k].path
  {
    hide Plan.ViewOf, Plan.Progress, Plan.OthersKept, Plan.OriginalsKept, Plan.SafeSince, Plan.Safe, Plan.Valid,
         Validated, FilePreview.Valid, Restored, CommitCalls, CommittedInOrder, CommitFailedAt;
    NoneCommitted(plan, fs.history, |fs.history|);
    for k := 0 to |staged|
      invariant old(fs.history) <= fs.history && |fs.history| == |old(fs.history)| + 2 * k
      invariant CommittedInOrder(plan, fs.history, |old(fs.history)|, k)
      invariant plan.OthersKept(fs.files, init) && FlagsTell(staged, plan, fs.files) && fs.faults >= old(fs.faults)
      invariant from <= |fs.history| && plan.SafeSince(fs.history, from, init)
      invariant forall j :: 0 <= j < k ==> staged[j].originalMoved && staged[j].replacementInstalled
      invariant forall j :: k <= j < |staged| ==> !staged[j].originalMoved && !staged[j].replacementInstalled
    {
      ghost var before := fs.history;
      var ok := CommitOne(fs, plan, staged, k, init, from);
      ghost var middle, moved := fs.history, staged[k].originalMoved;
      if !ok {
        var failures := Rollback(fs, plan, staged, init, from);
        CommitFailure(plan, before, middle, fs.history, |old(fs.history)|, k, moved);
        return Err(Application(plan.files[k].path, failures));
      }
      OneMoreCommitted(plan, before, fs.history, |old(fs.history)|, k);
    }
    r := Ok(());
  }

  lemma {:induction false} ReplacedIsSafe(plan: Plan, init: Files, state: Files)
    requires plan.Valid(init)
    requires forall k :: 0 <= k < |plan.files| ==> plan.ViewOf(state, k).target == Some(plan.files[k].New())
    ensures plan.Safe(state, init)
  {
  }

  /** A file after its backup was dealt with; the backups that stayed are the warnings. */
  ghost predicate Finished(plan: Plan, state: Files, warnings: seq<Path>, k: nat) {
    && k < |plan.files|
    && plan.ViewOf(state, k) ==
    View(Some(plan.files[k].New()), None, if plan.Backup(k) in warnings then Some(plan.files[k].Old()) else None)
  }

  method RemoveBackups(fs: FileSystem, plan: Plan, ghost init: Files, ghost from: nat) returns (warnings: seq<Path>)
    requires plan.Valid(init) && plan.OthersKept(fs.files, init)
    requires forall k :: 0 <= k < |plan.files| ==> plan.ViewOf(fs.files, k) == plan.Progress(k, true, true)
    requires from <= |fs.history| && plan.SafeSince(fs.history, from, init)
    modifies fs`files, fs`history, fs`faults
    ensures old(fs.history) <= fs.history
    ensures plan.OthersKept(fs.files, init)
    ensures from <= |fs.history| && plan.SafeSince(fs.history, from, init)
    ensures forall k :: 0 <= k < |plan.files| ==> Finished(plan, fs.files, warnings, k)
    ensures forall w :: w in warnings ==> exists k :: 0 <= k < |plan.files| && w == plan.Backup(k)
    ensures fs.faults >= old(fs.faults) + |warnings|
  {
    warnings := [];
    for k := 0 to |plan.files|
      invariant old(fs.history) <= fs.history
      invariant fs.faults >= old(fs.faults) + |warnings|
      invariant plan.OthersKept(fs.files, init)
      invariant from <= |fs.history| && plan.SafeSince(fs.history, from, init)
      invariant forall w :: w in warnings ==> exists j :: 0 <= j < k && w == plan.Backup(j)
      invariant forall j :: 0 <= j < k ==> Finished(plan, fs.files, warnings, j)
      invariant forall j :: k <= j < |plan.files| ==> plan.ViewOf(fs.files, j) == plan.Progress(j, true, true)
    {
      warnings := RemoveBackup(fs, plan, k, warnings, init, from);
    }
  }

  method RemoveBackup(fs: FileSystem, plan: Plan, k: nat, warnings: seq<Path>, ghost init: Files, ghost from: nat)
    returns (r: seq<Path>)
    requires plan.Valid(init) && plan.OthersKept(fs.files, init) && k < |plan.files|
    requires forall w :: w in warnings ==> exists j :: 0 <= j < k && w == plan.Backup(j)
    requires forall j :: 0 <= j < k ==> Finished(plan, fs.files, warnings, j)
    requires forall j :: k <= j < |plan.files| ==> plan.ViewOf(fs.files, j) == plan.Progress(j, true, true)
    requires from <= |fs.history| && plan.SafeSince(fs.history, from, init)
    modifies fs`files, fs`history, fs`faults
    ensures old(fs.history) <= fs.history
    ensures plan.OthersKept(fs.files, init)
    ensures from <= |fs.history| && plan.SafeSince(fs.history, from, init)
    ensures forall w :: w in r ==> exists j :: 0 <= j < k + 1 && w == plan.Backup(j)
    ensures forall j :: 0 <= j <= k ==> Finished(plan, fs.files, r, j)
    ensures forall j :: k < j < |plan.files| ==> plan.ViewOf(fs.files, j) == plan.Progress(j, true, true)
    ensures fs.faults - old(fs.faults) >= |r| - |warnings| >= 0
  {
    hide Plan.ViewOf, Plan.OthersKept, Plan.SafeSince, Plan.Safe, Plan.Valid, ChangedAt;
    ghost var before, seen := fs.files, fs.history;
    assert plan.Valid(init);
    BackupsDistinct(plan, init);
    BackupView(plan, init, before, k);
    CommittedPaths(plan, before, k, true, true);
    var outcome := fs.Remove(plan.Backup(k));
    r := if outcome != Removed then warnings + [plan.Backup(k)] else warnings;
    OtherViewsKept(plan, init, before, before - {plan.Backup(k)}, k);
    forall j | 0 <= j < |plan.files|
      ensures plan.ViewOf(fs.files, j).target == Some(plan.files[j].New())
    {
      if j < k {
        assert Finished(plan, before, warnings, j);
      }
    }
    ReplacedIsSafe(plan, init, fs.files);
    SafeExtends(plan, init, seen, from, fs.files);
    forall j | 0 <= j <= k
      ensures Finished(plan, fs.files, r, j)
    {
      if j < k {
        assert Finished(plan, before, warnings, j);
      }
    }
  }

  lemma {:induction false} BackupsDistinct(plan: Plan, init: Files)
    requires plan.Valid(init)
    ensures forall k :: 0 <= k < |plan.files| ==> plan.files[k].Valid()
    ensures forall j, k :: 0 <= j < |plan.files| && 0 <= k < |plan.files| && j != k ==> plan.Backup(j) != plan.Backup(k)
  {
  }

  lemma {:induction false} BackupView(plan: Plan, init: Files, before: Files, k: nat)
    requires plan.Valid(init) && k < |plan.files|
    ensures plan.Backup(k) in before <==> plan.ViewOf(before, k).backup.Some?
    ensures var after := before - {plan.Backup(k)};
            ChangedAt(plan, before, after, k) &&
            plan.ViewOf(after, k) == plan.ViewOf(before, k).(backup := None)
  {
    InitialView(plan, init, k);
  }

  // ----- the whole transaction -----

  datatype Outcome = Outcome(fileCount: nat, paths: seq<string>, warnings: seq<Path>)

  /** What an applied preview has done. */
  ghost predicate Applied(plan: Plan, init: Files, state: Files, outcome: Outcome)
  {
    && Validated(plan, init)
    && plan.OthersKept(state, init)
    && (forall k :: 0 <= k < |plan.files| ==> Finished(plan, state, outcome.warnings, k))
    && outcome.fileCount == |outcome.paths| == |plan.files|
    && forall k :: 0 <= k < |plan.files| ==> outcome.paths[k] == plan.files[k].path
  }

  /** What an error reports as left behind. */
  function Reports(error: ApplyError): seq<Path> {
    if error.Application? then error.rollbackFailures else error.cleanupFailures
  }

  /** What a failed application has left: exactly what it reports. */
  ghost predicate Failed(plan: Plan, init: Files, state: Files, error: ApplyError)
  {
    if error.Application? then
      Validated(plan, init) && Restored(plan, init, state, error.rollbackFailures)
    else
      Refused(plan, init, state, error.cleanupFailures)
  }

  // What an error says about the files it concerns.

  /** The files that are not as they were. */
  ghost function LeftFiles(plan: Plan, init: Files, state: Files): set<nat> {
    set k | 0 <= k < |plan.files| && plan.ViewOf(state, k) != plan.ViewOf(init, k)
  }

  ghost predicate Named(plan: Plan, reports: seq<Path>, k: nat) {
    && k < |plan.files|
    && exists p :: p in reports && plan.Owns(k, p)
  }

  /** Every file left different is named, by a path of its own. */
  lemma {:induction false} LeftFilesAreNamed(plan: Plan, init: Files, state: Files, error: ApplyError, k: nat)
    requires plan.Valid(init) && Failed(plan, init, state, error) && k in LeftFiles(plan, init, state)
    ensures Named(plan, Reports(error), k)
  {
    InitialView(plan, init, k);
    if error.Application? {
      assert RolledBack(plan, state, error.rollbackFailures, k);
      assert plan.Target(k) in Reports(error) || plan.Backup(k) in Reports(error) || plan.Stage(k) in Reports(error);
    } else {
      assert StageReported(plan, state, error.cleanupFailures, k);
      assert plan.Stage(k) in Reports(error);
    }
  }

  /** A path names one file at most, so there are at least as many reports as files named. */
  lemma {:induction false} NamesCounted(plan: Plan, init: Files, named: set<nat>, reports: seq<Path>)
    requires plan.Valid(init)
    requires forall k :: k in named ==> k < |plan.files| && Named(plan, reports, k)
    ensures |named| <= |reports|
    decreases |reports|
  {
    hide Plan.Valid, Plan.Owns;
    if reports == [] {
      assert forall k: nat :: k < |plan.files| ==> !Named(plan, reports, k);
      assert named == {};
    } else {
      var last, rest := reports[|reports| - 1], reports[..|reports| - 1];
      assert forall p :: p in reports ==> p in rest || p == last;
      if k :| k in named && plan.Owns(k, last) {
        forall j | j in named - {k}
          ensures Named(plan, rest, j)
        {
          OwnedOnce(plan, init, k, j, last);
          assert Named(plan, reports, j);
        }
        NamesCounted(plan, init, named - {k}, rest);
      } else {
        forall j | j in named
          ensures Named(plan, rest, j)
        {
          assert Named(plan, reports, j);
        }
        NamesCounted(plan, init, named, rest);
      }
    }
  }

  /** What is a reason by itself: anything but a cancellation or a target that has changed. */
  ghost predicate NeedsFault(plan: Plan, init: Files, error: ApplyError) {
    !error.Canceled? && (error.Conflict? ==> Validated(plan, init))
  }

  lemma {:induction false} ReportsArePaid(plan: Plan, init: Files, error: ApplyError, cancelled: bool, faults: int)
    requires Explained(plan, init, error, cancelled, faults)
    ensures faults >= |Reports(error)| + if NeedsFault(plan, init, error) then 1 else 0
  {
    if error.Conflict? && Validated(plan, init) {
      var c := error.paths[0];
      assert c in error.paths;
      var spare := faults - |error.cleanupFailures|;
      var k :| 0 <= k < |plan.files| && ReportedAs(plan.files[k], init, c, spare);
      assert Unchanged(plan.files[k], init);
    }
  }

  /**
    For each file left different one call has failed, and one more for an error that neither
    a cancellation nor a changed target explains.
   */
  lemma {:induction false} LeftFilesArePaid(plan: Plan, init: Files, state: Files, error: ApplyError, cancelled: bool,
                                            faults: int)
    requires plan.Valid(init) && Failed(plan, init, state, error) && Explained(plan, init, error, cancelled, faults)
    ensures |LeftFiles(plan, init, state)| + (if NeedsFault(plan, init, error) then 1 else 0) <= faults
    ensures LeftFiles(plan, init, state) == {} ==> state == init
  {
    hide *;
    ghost var left := LeftFiles(plan, init, state);
    forall k | k in left
      ensures k < |plan.files| && Named(plan, Reports(error), k)
    {
      LeftFilesAreNamed(plan, init, state, error, k);
    }
    NamesCounted(plan, init, left, Reports(error));
    ReportsArePaid(plan, init, error, cancelled, faults);
    if left == {} {
      NothingLeft(plan, init, state, error);
    }
  }

  lemma {:induction false} NothingLeft(plan: Plan, init: Files, state: Files, error: ApplyError)
    requires plan.Valid(init) && Failed(plan, init, state, error) && LeftFiles(plan, init, state) == {}
    ensures state == init
  {
    forall k | 0 <= k < |plan.files|
      ensures plan.ViewOf(state, k) == plan.ViewOf(init, k)
    {
      assert k !in LeftFiles(plan, init, state);
    }
    SameViewsSameFiles(plan, init, state);
  }

  /** One failed call at most, and an error that needs one: then nothing is left of the rename. */
  lemma {:induction false} OneFaultLeavesNothing(plan: Plan, init: Files, state: Files, error: ApplyError,
                                                 cancelled: bool, faults: int)
    requires plan.Valid(init) && Failed(plan, init, state, error) && Explained(plan, init, error, cancelled, faults)
    requires NeedsFault(plan, init, error) && faults <= 1
    ensures state == init && faults == 1
  {
    hide *;
    LeftFilesArePaid(plan, init, state, error, cancelled, faults);
  }

  /** What follows for every error from what it leaves and what explains it. */
  lemma {:induction false} AccountedFor(plan: Plan, init: Files, state: Files, error: ApplyError, cancelled: bool,
                                        faults: int)
    requires plan.Valid(init) && Failed(plan, init, state, error) && Explained(plan, init, error, cancelled, faults)
    ensures NeedsFault(plan, init, error) && faults <= 1 ==> state == init
    ensures Validated(plan, init) ==> cancelled || faults > 0
  {
    hide Failed, Explained, NeedsFault, Validated, Plan.Valid;
    if NeedsFault(plan, init, error) && faults <= 1 {
      OneFaultLeavesNothing(plan, init, state, error, cancelled, faults);
    }
    if Validated(plan, init) && !cancelled && faults <= 0 {
      ReportsArePaid(plan, init, error, cancelled, faults);
      UncancelledNeedsFault(plan, init, error, faults);
    }
  }

  lemma {:induction false} UncancelledNeedsFault(plan: Plan, init: Files, error: ApplyError, faults: int)
    requires Validated(plan, init) && Explained(plan, init, error, false, faults)
    ensures NeedsFault(plan, init, error)
  {
  }

  lemma {:induction false} StagingFailureFails(plan: Plan, init: Files, state: Files, error: ApplyError,
                                               cancelled: bool, faults: int)
    requires plan.Valid(init) && StagingFailed(plan, init, state, error, cancelled, faults)
    ensures Failed(plan, init, state, error) && Explained(plan, init, error, cancelled, faults)
    ensures error.Canceled? || error.StageFailed?
  {
  }

  lemma {:induction false} CommitFailureFails(plan: Plan, init: Files, state: Files, error: ApplyError,
                                              cancelled: bool, faults: int)
    requires plan.Valid(init) && Validated(plan, init) && AllValid(plan) && error.Application?
    requires Restored(plan, init, state, error.rollbackFailures) && faults >= 1 + |error.rollbackFailures|
    ensures Failed(plan, init, state, error) && Explained(plan, init, error, cancelled, faults)
  {
  }

  /** As long as only stages have changed, the conflicts found are conflicts with the initial files. */
  lemma {:induction false} ConflictFails(plan: Plan, init: Files, compared: Files, state: Files, paths: seq<string>,
                                         failures: seq<Path>,
                                         cancelled: bool, spare: int, faults: int)
    requires plan.Valid(init) && plan.OnlyStages(compared, init) && Refused(plan, init, state, failures)
    requires paths != [] && Conflicting(plan.files, |plan.files|, compared, paths, spare) && 0 <= spare <= faults - |failures|
    ensures Failed(plan, init, state, Conflict(paths, failures))
    ensures Explained(plan, init, Conflict(paths, failures), cancelled, faults)
  {
    forall k | 0 <= k < |plan.files|
      ensures Unchanged(plan.files[k], compared) == Unchanged(plan.files[k], init)
    {
      StageOfView(plan, compared, k);
    }
    hide Unchanged, Plan.OnlyStages, Plan.Valid, Refused;
    forall c | c in paths
      ensures exists k :: 0 <= k < |plan.files| && ReportedAs(plan.files[k], init, c, faults - |failures|)
    {
      var k :| 0 <= k < |plan.files| && ReportedAs(plan.files[k], compared, c, spare);
      assert ReportedAs(plan.files[k], init, c, faults - |failures|);
    }
  }

  lemma {:induction false} NoConflict(plan: Plan, state: Files, faults: int)
    requires Conflicting(plan.files, |plan.files|, state, [], faults)
    ensures forall k :: 0 <= k < |plan.files| ==> Unchanged(plan.files[k], state)
    ensures Validated(plan, state)
  {
  }

  lemma {:induction false} NothingLeftAtOnce(plan: Plan, init: Files)
    requires plan.Valid(init)
    ensures plan.OnlyStages(init, init) && Refused(plan, init, init, [])
  {
    InitOnlyStages(plan, init);
  }

  // What a transaction asks and compares, and what it makes of the answers.

  /** No answer was that the transaction is cancelled. */
  ghost predicate NoYes(seen: seq<Observation>) {
    forall o :: o in seen && o.Asked? ==> !o.cancelled
  }

  /** The last answer was yes, and no other. */
  ghost predicate YesAtLast(seen: seq<Observation>) {
    && seen != []
    && var last := |seen| - 1; seen[last].Asked? && seen[last].cancelled && NoYes(seen[..last])
  }

  /** Every file was found, on `state`, to hold the text that its preview was made from. */
  ghost predicate Confirmed(plan: Plan, state: Files, moment: nat, seen: seq<Observation>) {
    && |seen| == |plan.files|
    && forall k :: 0 <= k < |plan.files| ==> seen[k] == Compared(plan.Target(k), Some(plan.files[k].before), state, moment)
  }

  /**
    What lies between the last stage and the first rename: the answer is no, every file is
    compared, and the answer is no again, with no call in between that could change a file.
   */
  ghost predicate LastCheck(plan: Plan, init: Files, seen: seq<Observation>) {
    && |seen| == |plan.files| + 2
    && Polled(plan, init, seen[0], false, |plan.files|) && seen[|plan.files| + 1] == seen[0]
    && Confirmed(plan, seen[0].state, seen[0].moment, seen[1..|plan.files| + 1])
  }

  /** All that is asked and compared before a commit. */
  ghost predicate AllClear(plan: Plan, init: Files, from: nat, seen: seq<Observation>) {
    var n := |plan.files|;
    && |seen| == 3 * n + 3
    && seen[0] == Asked(false, init, from) && Confirmed(plan, init, from, seen[1..n + 1])
    && PolledEach(plan, init, seen[n + 1..2 * n + 1])
    && LastCheck(plan, init, seen[2 * n + 1..])
  }

  /** The conflicts are what a comparison of all files, behind which nothing was asked any more, has shown. */
  ghost predicate FoundDiffering(plan: Plan, seen: seq<Observation>, paths: seq<string>) {
    && |plan.files| <= |seen|
    && var compared := seen[|seen| - |plan.files|..];
       && (forall k :: 0 <= k < |plan.files| ==> compared[k].Compared? && compared[k].path == plan.Target(k))
       && paths == Differing(plan.files, compared)
  }

  /** Every outcome of a transaction is the one that its observations call for. */
  ghost predicate Heeded(plan: Plan, init: Files, from: nat, seen: seq<Observation>, r: Result<Outcome, ApplyError>) {
    match r
    case Ok(_) => AllClear(plan, init, from, seen)
    case Err(Application(_, _)) => AllClear(plan, init, from, seen)
    case Err(Canceled(_)) => YesAtLast(seen)
    case Err(Conflict(paths, _)) => NoYes(seen) && FoundDiffering(plan, seen, paths)
    case Err(StageFailed(path, _)) =>
      && NoYes(seen) && |plan.files| + 2 <= |seen| <= 2 * |plan.files| + 1
      && var k := |seen| - |plan.files| - 2; path == plan.files[k].path && Polled(plan, init, seen[|seen| - 1], false, k)
  }

  /** An answer of yes is the last thing a transaction hears, and it reports the cancellation. */
  lemma {:induction false} YesIsHeeded(plan: Plan, init: Files, from: nat, seen: seq<Observation>,
                                       r: Result<Outcome, ApplyError>, i: nat)
    requires Heeded(plan, init, from, seen, r) && i < |seen| && seen[i].Asked? && seen[i].cancelled
    ensures r.Err? && r.error.Canceled? && i == |seen| - 1
  {
    hide Staging, Polled;
    var n := |plan.files|;
    assert seen[i] in seen;
    if r.Ok? || r.error.Application? {
      ClearOfYes(plan, init, from, seen);
    } else if r.error.Canceled? {
      OneYes(seen, i);
    }
  }

  lemma {:induction false} OneYes(seen: seq<Observation>, i: nat)
    requires YesAtLast(seen) && i < |seen|
    ensures seen[i].Asked? && seen[i].cancelled ==> i == |seen| - 1
  {
    if i < |seen| - 1 {
      assert seen[i] == seen[..|seen| - 1][i];
    }
  }

  lemma {:induction false} ClearOfYes(plan: Plan, init: Files, from: nat, seen: seq<Observation>)
    requires AllClear(plan, init, from, seen)
    ensures NoYes(seen)
  {
    hide Staging;
    var n := |plan.files|;
    forall i | 0 <= i < |seen|
      ensures seen[i].Asked? ==> !seen[i].cancelled
    {
      if 1 <= i <= n {
        assert seen[i] == seen[1..n + 1][i - 1];
      } else if n < i <= 2 * n {
        assert seen[i] == seen[n + 1..2 * n + 1][i - n - 1];
      } else if i > 0 {
        LastCheckClear(plan, init, seen[2 * n + 1..], i - 2 * n - 1);
        assert seen[i] == seen[2 * n + 1..][i - 2 * n - 1];
      }
    }
  }

  lemma {:induction false} LastCheckClear(plan: Plan, init: Files, seen: seq<Observation>, i: nat)
    requires LastCheck(plan, init, seen) && i < |seen|
    ensures seen[i].Asked? ==> !seen[i].cancelled
  {
    hide Staging;
    if 1 <= i <= |plan.files| {
      assert seen[i] == seen[1..|plan.files| + 1][i - 1];
    }
  }

  /** No rename was made before the last check, and what follows is the commit, file by file. */
  ghost predicate CommitsBehind(plan: Plan, init: Files, from: nat, history: seq<Files>, moment: nat,
                                r: Result<Outcome, ApplyError>)
  {
    && from <= moment <= |history| && plan.StagesSince(history[..moment], from, init)
    && match r
       case Ok(_) => CommittedInOrder(plan, history, moment, |plan.files|)
       case Err(Application(path, _)) => exists k: nat :: CommitFailedAt(plan, history, moment, k) && path == plan.files[k].path
       case Err(_) => false
  }

  lemma {:induction false} ComparedAll(plan: Plan, state: Files, moment: nat, seen: seq<Observation>)
    requires Comparison(plan.files, state, moment, seen) && Differing(plan.files, seen) == []
    ensures Confirmed(plan, state, moment, seen)
  {
    forall k | 0 <= k < |plan.files|
      ensures seen[k].text == Some(plan.files[k].before)
    {
      NoneDiffers(plan.files, seen, k);
    }
  }

  /** What the second half of a transaction observes, and what it makes of it. */
  ghost predicate Closing(plan: Plan, init: Files, seen: seq<Observation>, r: Result<Outcome, ApplyError>) {
    match r
    case Ok(_) => LastCheck(plan, init, seen)
    case Err(Application(_, _)) => LastCheck(plan, init, seen)
    case Err(Canceled(_)) => YesAtLast(seen)
    case Err(Conflict(paths, _)) => NoYes(seen) && FoundDiffering(plan, seen, paths)
    case Err(StageFailed(_, _)) => false
  }

  /** What the first half observes before anything is staged. */
  ghost predicate Opening(plan: Plan, init: Files, from: nat, seen: seq<Observation>) {
    && |seen| == |plan.files| + 1
    && seen[0] == Asked(false, init, from) && Confirmed(plan, init, from, seen[1..])
  }

  lemma {:induction false} OpeningClear(plan: Plan, init: Files, from: nat, seen: seq<Observation>)
    requires Opening(plan, init, from, seen)
    ensures NoYes(seen)
  {
    forall i | 0 <= i < |seen|
      ensures seen[i].Asked? ==> !seen[i].cancelled
    {
      if i > 0 {
        assert seen[i] == seen[1..][i - 1];
      }
    }
  }

  lemma {:induction false} OpenedBy(plan: Plan, init: Files, from: nat, compared: seq<Observation>)
    requires Comparison(plan.files, init, from, compared) && Differing(plan.files, compared) == []
    ensures Opening(plan, init, from, [Asked(false, init, from)] + compared)
  {
    hide Confirmed;
    ComparedAll(plan, init, from, compared);
    assert ([Asked(false, init, from)] + compared)[1..] == compared;
  }

  lemma {:induction false} ConflictHeeded(plan: Plan, state: Files, moment: nat, asked: Observation,
                                          compared: seq<Observation>, paths: seq<string>)
    requires asked.Asked? && !asked.cancelled && Comparison(plan.files, state, moment, compared)
    requires paths == Differing(plan.files, compared)
    ensures NoYes([asked] + compared) && FoundDiffering(plan, [asked] + compared, paths)
  {
    assert ([asked] + compared)[1..] == compared;
  }

  lemma {:induction false} LastChecked(plan: Plan, init: Files, asked: Observation, compared: seq<Observation>)
    requires Polled(plan, init, asked, false, |plan.files|)
    requires Comparison(plan.files, asked.state, asked.moment, compared) && Differing(plan.files, compared) == []
    ensures LastCheck(plan, init, [asked] + compared + [asked])
    ensures NoYes([asked] + compared)
  {
    hide Confirmed, Polled;
    ComparedAll(plan, asked.state, asked.moment, compared);
    assert ([asked] + compared + [asked])[1..|plan.files| + 1] == compared;
    SaidNo(plan, init, asked, false, |plan.files|);
  }

  lemma {:induction false} SaidNo(plan: Plan, init: Files, o: Observation, cancelled: bool, k: nat)
    requires k <= |plan.files| && Polled(plan, init, o, cancelled, k)
    ensures o.Asked? && o.cancelled == cancelled
  {
    hide Staging;
  }

  lemma {:induction false} LastCheckLength(plan: Plan, init: Files, seen: seq<Observation>)
    requires LastCheck(plan, init, seen)
    ensures |seen| == |plan.files| + 2
  {
    hide Staging;
  }

  lemma {:induction false} EachPolledClear(plan: Plan, init: Files, polls: seq<Observation>)
    requires PolledEach(plan, init, polls)
    ensures NoYes(polls)
  {
    hide Staging;
  }

  lemma {:induction false} StagingHeeded(plan: Plan, init: Files, from: nat, opening: seq<Observation>,
                                         polls: seq<Observation>, error: ApplyError)
    requires Opening(plan, init, from, opening) && PolledUntil(plan, init, polls, error)
    requires error.Canceled? || error.StageFailed?
    ensures Heeded(plan, init, from, opening + polls, Err(error))
  {
    hide Staging;
    OpeningClear(plan, init, from, opening);
    var k := |polls| - 1;
    EachPolledClear(plan, init, polls[..k]);
    SaidNo(plan, init, polls[k], error.Canceled?, k);
    hide Opening, PolledEach, Polled;
    var seen := opening + polls;
    assert seen[..|seen| - 1] == opening + polls[..k];
    assert seen == opening + polls[..k] + [polls[k]];
  }

  lemma {:induction false} ClosingHeeded(plan: Plan, init: Files, from: nat, opening: seq<Observation>,
                                         polls: seq<Observation>, closing: seq<Observation>,
                                         r: Result<Outcome, ApplyError>)
    requires Opening(plan, init, from, opening) && |polls| == |plan.files| && PolledEach(plan, init, polls)
    requires Closing(plan, init, closing, r)
    ensures Heeded(plan, init, from, opening + polls + closing, r)
  {
    hide Staging, Polled, LastCheck, AllClear, YesAtLast, FoundDiffering, NoYes, Opening, PolledEach;
    OpeningClear(plan, init, from, opening);
    EachPolledClear(plan, init, polls);
    NoYesJoin(opening, polls);
    if r.Ok? || r.error.Application? {
      ClearWhenClosed(plan, init, from, opening, polls, closing);
    } else if r.error.Canceled? {
      YesBehind(opening + polls, closing);
    } else {
      DifferingBehind(plan, opening + polls, closing, r.error.paths);
    }
  }

  lemma {:induction false} NoYesJoin(a: seq<Observation>, b: seq<Observation>)
    requires NoYes(a) && NoYes(b)
    ensures NoYes(a + b)
  {
  }

  lemma {:induction false} YesBehind(a: seq<Observation>, b: seq<Observation>)
    requires NoYes(a) && YesAtLast(b)
    ensures YesAtLast(a + b)
  {
    assert (a + b)[..|a + b| - 1] == a + b[..|b| - 1];
  }

  lemma {:induction false} DifferingBehind(plan: Plan, a: seq<Observation>, b: seq<Observation>, paths: seq<string>)
    requires NoYes(a) && NoYes(b) && FoundDiffering(plan, b, paths)
    ensures NoYes(a + b) && FoundDiffering(plan, a + b, paths)
  {
    NoYesJoin(a, b);
    hide NoYes;
    assert (a + b)[|a + b| - |plan.files|..] == b[|b| - |plan.files|..];
  }

  lemma {:induction false} ClearWhenClosed(plan: Plan, init: Files, from: nat, opening: seq<Observation>,
                                           polls: seq<Observation>, closing: seq<Observation>)
    requires Opening(plan, init, from, opening) && |polls| == |plan.files| && PolledEach(plan, init, polls)
    requires LastCheck(plan, init, closing)
    ensures AllClear(plan, init, from, opening + polls + closing)
  {
    LastCheckLength(plan, init, closing);
    hide Polled, PolledEach, LastCheck, Confirmed;
    var n, seen := |plan.files|, opening + polls + closing;
    assert seen[0] == opening[0] && seen[1..n + 1] == opening[1..];
    assert seen[n + 1..2 * n + 1] == polls && seen[2 * n + 1..] == closing;
  }

  /**
    `apply_rename_preview`: all or nothing, for every pattern of failures and cancellation.
    A success has replaced every target and left only the backups it warns about; an error
    leaves exactly what it reports, file by file, and a failed call pays for each report;
    and between any two calls, failing or not, no original is lost before every target is new.
    The token is asked at the start, before each file, and on both sides of the last
    comparison; a yes ends the transaction, and no rename is made before the last no.
   */
  method ApplyRenamePreview(fs: FileSystem, token: Cancellation, plan: Plan) returns (r: Result<Outcome, ApplyError>)
    requires plan.Valid(fs.files)
    modifies fs, token
    ensures r.Ok? ==> Applied(plan, old(fs.files), fs.files, r.value)
    ensures r.Ok? ==> |r.value.warnings| <= fs.faults - old(fs.faults)
    ensures r.Err? ==> Failed(plan, old(fs.files), fs.files, r.error)
    ensures r.Err? ==> Explained(plan, old(fs.files), r.error, token.cancelled, fs.faults - old(fs.faults))
    ensures old(fs.history) <= fs.history && old(fs.observed) <= fs.observed
    ensures plan.SafeSince(fs.history, |old(fs.history)|, old(fs.files))
    // Nothing is refused without a reason, and one failed call alone leaves nothing behind.
    ensures Validated(plan, old(fs.files)) && !token.cancelled && fs.faults == old(fs.faults) ==> r.Ok?
    ensures r.Err? && NeedsFault(plan, old(fs.files), r.error) && fs.faults <= old(fs.faults) + 1 ==>
              fs.files == old(fs.files)
    // Cancellations and changed files are heeded: at the start, and whenever they are seen.
    ensures old(token.cancelled) ==> r == Err(Canceled([]))
    ensures old(token.cancelled) || !Validated(plan, old(fs.files)) ==>
              r.Err? && fs.files == old(fs.files) && fs.history == old(fs.history)
    ensures Heeded(plan, old(fs.files), |old(fs.history)|, fs.observed[|old(fs.observed)|..], r)
    ensures AllValid(plan)
    ensures r.Ok? || r.error.Application? ==>
              CommitsBehind(plan, old(fs.files), |old(fs.history)|, fs.history, fs.observed[|fs.observed| - 1].moment, r)
  {
    hide *;
    ghost var init, from, watched := fs.files, |fs.history|, |fs.observed|;
    NothingYetIsSafe(plan, init, fs.history);
    NothingLeftAtOnce(plan, init);
    var cancelled := token.IsCancelled(fs);
    if cancelled {
      CanceledAtOnce(plan, init, from, fs.observed[watched..]);
      return Err(Canceled([]));
    }
    ghost var asked := fs.observed[watched];
    var conflicts := ValidateUnchanged(fs, plan.files);
    ghost var compared := fs.observed[watched + 1..];
    ghost var opening := [asked] + compared;
    assert fs.observed[watched..] == opening;
    if conflicts != [] {
      ConflictAtOnce(plan, init, from, asked, compared, conflicts, token.cancelled, fs.faults - old(fs.faults));
      return Err(Conflict(conflicts, []));
    }
    NoConflict(plan, init, fs.faults - old(fs.faults));
    OpenedBy(plan, init, from, compared);
    ghost var before := fs.faults;
    var staging := StageAll(fs, token, plan, init, from);
    ghost var polls := fs.observed[watched + |opening|..];
    if staging.Err? {
      StagesAreSafe(plan, init, fs.history, from);
      StagingRefused(plan, init, from, fs.files, opening, polls, staging.error, token.cancelled, fs.faults - before,
                     fs.faults - old(fs.faults));
      assert fs.observed[watched..] == opening + polls;
      return Err(staging.error);
    }
    var staged := staging.value;
    assert forall i :: 0 <= i < |staged| ==> staged[i] in staged;
    ghost var closed := |fs.observed|;
    r := CommitStaged(fs, token, plan, staged, init, from, old(fs.faults));
    ClosingHeeded(plan, init, from, opening, polls, fs.observed[closed..], r);
    assert fs.observed[watched..] == opening + polls + fs.observed[closed..];
  }

  lemma {:induction false} CanceledAtOnce(plan: Plan, init: Files, from: nat, seen: seq<Observation>)
    requires plan.Valid(init) && Refused(plan, init, init, []) && seen == [Asked(true, init, from)]
    ensures Failed(plan, init, init, Canceled([])) && Explained(plan, init, Canceled([]), true, 0)
    ensures Heeded(plan, init, from, seen, Err(Canceled([])))
  {
    StagingIsExplained(plan, init, init, Canceled([]), true, 0);
    StagingFailureFails(plan, init, init, Canceled([]), true, 0);
    AccountedFor(plan, init, init, Canceled([]), true, 0);
    hide Refused, Failed, Explained, Validated, NeedsFault, Plan.Valid;
  }

  lemma {:induction false} ConflictAtOnce(plan: Plan, init: Files, from: nat, asked: Observation,
                                          compared: seq<Observation>, paths: seq<string>, cancelled: bool, faults: int)
    requires plan.Valid(init) && plan.OnlyStages(init, init) && Refused(plan, init, init, []) && faults >= 0
    requires paths != [] && Conflicting(plan.files, |plan.files|, init, paths, faults)
    requires asked.Asked? && !asked.cancelled && Comparison(plan.files, init, from, compared)
    requires paths == Differing(plan.files, compared)
    ensures Failed(plan, init, init, Conflict(paths, [])) && Explained(plan, init, Conflict(paths, []), cancelled, faults)
    ensures Heeded(plan, init, from, [asked] + compared, Err(Conflict(paths, [])))
    ensures Validated(plan, init) ==> cancelled || faults > 0
  {
    ConflictFails(plan, init, init, init, paths, [], cancelled, faults, faults);
    AccountedFor(plan, init, init, Conflict(paths, []), cancelled, faults);
    ConflictHeeded(plan, init, from, asked, compared, paths);
    hide Refused, Failed, Explained, Validated, NeedsFault, Plan.Valid, NoYes, FoundDiffering, Conflicting, Comparison;
  }

  lemma {:induction false} StagingRefused(plan: Plan, init: Files, from: nat, state: Files, opening: seq<Observation>,
                                          polls: seq<Observation>, error: ApplyError, cancelled: bool, faults: int, more: int)
    requires plan.Valid(init) && StagingFailed(plan, init, state, error, cancelled, faults) && faults <= more
    requires Opening(plan, init, from, opening) && PolledUntil(plan, init, polls, error)
    ensures Failed(plan, init, state, error) && Explained(plan, init, error, cancelled, more)
    ensures Heeded(plan, init, from, opening + polls, Err(error))
    ensures NeedsFault(plan, init, error) && more <= 1 ==> state == init
    ensures Validated(plan, init) ==> cancelled || more > 0
    ensures error.Canceled? || error.StageFailed?
  {
    StillExplained(plan, init, state, error, cancelled, faults, more);
    StagingFailureFails(plan, init, state, error, cancelled, more);
    AccountedFor(plan, init, state, error, cancelled, more);
    StagingHeeded(plan, init, from, opening, polls, error);
    hide Refused, Failed, Explained, Validated, NeedsFault, Plan.Valid, Heeded, StagingFailed, Opening, PolledUntil;
  }

  /** The second half of `apply_rename_preview_with`: the last checks, the commit, and the backups. */
  method CommitStaged(fs: FileSystem, token: Cancellation, plan: Plan, staged: seq<StagedFile>,
                      ghost init: Files, ghost from: nat, ghost faults: nat)
    returns (r: Result<Outcome, ApplyError>)
    requires plan.Valid(init) && Staging(plan, init, fs.files, |plan.files|) && faults <= fs.faults
    requires Records(staged, plan) && |staged| == |plan.files|
    requires forall f :: f in staged ==> !f.originalMoved && !f.replacementInstalled
    requires from <= |fs.history| && plan.StagesSince(fs.history, from, init)
    modifies fs, token, staged
    ensures old(fs.history) <= fs.history && plan.SafeSince(fs.history, from, init) && faults <= fs.faults
    ensures r.Ok? ==> Applied(plan, init, fs.files, r.value) && |r.value.warnings| <= fs.faults - faults
    ensures r.Err? ==> Failed(plan, init, fs.files, r.error)
    ensures r.Err? ==> Explained(plan, init, r.error, token.cancelled, fs.faults - faults)
    ensures Validated(plan, init) && !token.cancelled && fs.faults == faults ==> r.Ok?
    ensures r.Err? && NeedsFault(plan, init, r.error) && fs.faults <= faults + 1 ==> fs.files == init
    ensures old(fs.observed) <= fs.observed && Closing(plan, init, fs.observed[|old(fs.observed)|..], r)
    ensures AllValid(plan)
    ensures r.Ok? || r.error.Application? ==>
              CommitsBehind(plan, init, from, fs.history, fs.observed[|fs.observed| - 1].moment, r)
  {
    hide *;
    ghost var stagedFiles, watched, moment := fs.files, |fs.observed|, |fs.history|;
    AllStagesThere(plan, init, stagedFiles, |plan.files|);
    var cancelled := token.IsCancelled(fs);
    ghost var asked := fs.observed[watched];
    if cancelled {
      r := GiveUpCanceled(fs, token, plan, init, from, faults);
      NothingSeen();
      ClosedByYes(plan, init, [], asked, r);
      assert fs.observed[watched..] == [] + [asked];
      return;
    }
    ghost var before := fs.faults;
    var conflicts := ValidateUnchanged(fs, plan.files);
    ghost var compared := fs.observed[watched + 1..];
    if conflicts != [] {
      ghost var spare := fs.faults - before;
      r := GiveUpConflict(fs, plan, conflicts, stagedFiles, token.cancelled, spare, init, from, faults);
      ConflictHeeded(plan, stagedFiles, moment, asked, compared, conflicts);
      assert fs.observed[watched..] == [asked] + compared;
      ClosedBy(plan, init, [asked] + compared, r);
      return;
    }
    NoConflict(plan, fs.files, fs.faults - before);
    AskedWhenStaged(plan, init, asked);
    LastChecked(plan, init, asked, compared);
    cancelled := token.IsCancelled(fs);
    ghost var last := fs.observed[|fs.observed| - 1];
    assert fs.observed[watched..] == [asked] + compared + [last];
    if cancelled {
      r := GiveUpCanceled(fs, token, plan, init, from, faults);
      ClosedByYes(plan, init, [asked] + compared, last, r);
      return;
    }
    StagedAndValidated(plan, init, fs.files, staged);
    r := CommitChecked(fs, plan, staged, token.cancelled, init, from, faults);
    ClosedBy(plan, init, [asked] + compared + [last], r);
  }

  /** The commit and the removal of the backups, once nothing stands in the way any more. */
  method CommitChecked(fs: FileSystem, plan: Plan, staged: seq<StagedFile>, ghost cancelled: bool, ghost init: Files,
                       ghost from: nat, ghost faults: nat)
    returns (r: Result<Outcome, ApplyError>)
    requires plan.Valid(init) && Validated(plan, init) && AllValid(plan) && plan.OthersKept(fs.files, init)
    requires Records(staged, plan) && |staged| == |plan.files| && FlagsTell(staged, plan, fs.files)
    requires forall f :: f in staged ==> !f.originalMoved && !f.replacementInstalled
    requires from <= |fs.history| && plan.StagesSince(fs.history, from, init) && faults <= fs.faults
    modifies fs`files, fs`history, fs`faults, staged
    ensures old(fs.history) <= fs.history && plan.SafeSince(fs.history, from, init) && faults <= fs.faults
    ensures r.Ok? ==> Applied(plan, init, fs.files, r.value) && |r.value.warnings| <= fs.faults - faults
    ensures r.Err? ==> r.error.Application? && Failed(plan, init, fs.files, r.error)
    ensures r.Err? ==> Explained(plan, init, r.error, cancelled, fs.faults - faults)
    ensures fs.faults == faults && !cancelled ==> r.Ok?
    ensures r.Err? && NeedsFault(plan, init, r.error) && fs.faults <= faults + 1 ==> fs.files == init
    ensures CommitsBehind(plan, init, from, fs.history, |old(fs.history)|, r)
  {
    hide *;
    StagesAreSafe(plan, init, fs.history, from);
    var committed := CommitAll(fs, plan, staged, init, from);
    if committed.Err? {
      CommitFailureFails(plan, init, fs.files, committed.error, cancelled, fs.faults - faults);
      AccountedFor(plan, init, fs.files, committed.error, cancelled, fs.faults - faults);
      CommitFailureBehind(plan, init, from, old(fs.history), fs.history, committed.error);
      return Err(committed.error);
    }
    ghost var committedHistory := fs.history;
    var warnings := RemoveBackups(fs, plan, init, from);
    var paths := seq(|plan.files|, k requires 0 <= k < |plan.files| => plan.files[k].path);
    AppliedAfterAll(plan, init, fs.files, paths, warnings);
    r := Ok(Outcome(|plan.files|, paths, warnings));
    CommitBehind(plan, init, from, old(fs.history), committedHistory, fs.history, r);
  }

  lemma {:induction false} AskedWhenStaged(plan: Plan, init: Files, asked: Observation)
    requires asked.Asked? && !asked.cancelled && Staging(plan, init, asked.state, |plan.files|)
    ensures Polled(plan, init, asked, false, |plan.files|)
  {
    hide Staging;
  }

  lemma {:induction false} NothingSeen()
    ensures NoYes([])
  {
  }

  lemma {:induction false} ClosedByYes(plan: Plan, init: Files, before: seq<Observation>, last: Observation,
                                       r: Result<Outcome, ApplyError>)
    requires NoYes(before) && last.Asked? && last.cancelled && r.Err? && r.error.Canceled?
    ensures Closing(plan, init, before + [last], r)
  {
    hide NoYes;
    assert (before + [last])[..|before|] == before;
  }

  lemma {:induction false} ClosedBy(plan: Plan, init: Files, seen: seq<Observation>, r: Result<Outcome, ApplyError>)
    requires if r.Ok? || r.error.Application? then LastCheck(plan, init, seen)
             else r.error.Conflict? && NoYes(seen) && FoundDiffering(plan, seen, r.error.paths)
    ensures Closing(plan, init, seen, r)
  {
    hide LastCheck, NoYes, FoundDiffering;
  }

  lemma {:induction false} CommitFailureBehind(plan: Plan, init: Files, from: nat, before: seq<Files>,
                                               after: seq<Files>, error: ApplyError)
    requires AllValid(plan) && from <= |before| && plan.StagesSince(before, from, init) && before <= after
    requires error.Application? && exists k: nat :: CommitFailedAt(plan, after, |before|, k) && error.path == plan.files[k].path
    ensures CommitsBehind(plan, init, from, after, |before|, Err(error))
  {
    hide Plan.StagesSince, CommitFailedAt;
    assert after[..|before|] == before;
  }

  lemma {:induction false} CommitBehind(plan: Plan, init: Files, from: nat, before: seq<Files>, middle: seq<Files>,
                                        after: seq<Files>, r: Result<Outcome, ApplyError>)
    requires AllValid(plan) && from <= |before| && plan.StagesSince(before, from, init) && before <= middle <= after
    requires r.Ok? && CommittedInOrder(plan, middle, |before|, |plan.files|)
    ensures CommitsBehind(plan, init, from, after, |before|, r)
  {
    CommittedKept(plan, middle, after, |before|, |plan.files|);
    hide Plan.StagesSince, CommittedInOrder;
    assert after[..|before|] == before;
  }

  /** A file has changed with every file staged. */
  method GiveUpConflict(fs: FileSystem, plan: Plan, conflicts: seq<string>, ghost compared: Files, ghost cancelled: bool,
                        ghost spare: int, ghost init: Files, ghost from: nat, ghost faults: nat)
    returns (r: Result<Outcome, ApplyError>)
    requires plan.Valid(init) && Staging(plan, init, fs.files, |plan.files|) && fs.files == compared
    requires conflicts != [] && Conflicting(plan.files, |plan.files|, compared, conflicts, spare)
    requires 0 <= spare && faults + spare <= fs.faults
    requires from <= |fs.history| && plan.StagesSince(fs.history, from, init)
    modifies fs`files, fs`history, fs`faults
    ensures old(fs.history) <= fs.history && plan.SafeSince(fs.history, from, init) && faults <= fs.faults
    ensures r.Err? && r.error.Conflict? && r.error.paths == conflicts && Failed(plan, init, fs.files, r.error)
    ensures Explained(plan, init, r.error, cancelled, fs.faults - faults)
    ensures NeedsFault(plan, init, r.error) && fs.faults <= faults + 1 ==> fs.files == init
    ensures Validated(plan, init) ==> cancelled || fs.faults > faults
  {
    hide *;
    AllStagesThere(plan, init, fs.files, |plan.files|);
    var failures := GiveUp(fs, plan, |plan.files|, [], init, from);
    StagesAreSafe(plan, init, fs.history, from);
    ConflictFails(plan, init, compared, fs.files, conflicts, failures, cancelled, spare, fs.faults - faults);
    AccountedFor(plan, init, fs.files, Conflict(conflicts, failures), cancelled, fs.faults - faults);
    r := Err(Conflict(conflicts, failures));
  }

  /** Cancelled with every file staged. */
  method GiveUpCanceled(fs: FileSystem, token: Cancellation, plan: Plan, ghost init: Files, ghost from: nat,
                        ghost faults: nat)
    returns (r: Result<Outcome, ApplyError>)
    requires plan.Valid(init) && Staging(plan, init, fs.files, |plan.files|) && faults <= fs.faults && token.cancelled
    requires from <= |fs.history| && plan.StagesSince(fs.history, from, init)
    modifies fs`files, fs`history, fs`faults
    ensures old(fs.history) <= fs.history && plan.SafeSince(fs.history, from, init) && faults <= fs.faults
    ensures r.Err? && r.error.Canceled? && Failed(plan, init, fs.files, r.error)
    ensures Explained(plan, init, r.error, true, fs.faults - faults)
    ensures NeedsFault(plan, init, r.error) && fs.faults <= faults + 1 ==> fs.files == init
  {
    hide *;
    AllStagesThere(plan, init, fs.files, |plan.files|);
    var failures := GiveUp(fs, plan, |plan.files|, [], init, from);
    StagesAreSafe(plan, init, fs.history, from);
    StagingIsExplained(plan, init, fs.files, Canceled(failures), true, fs.faults - faults);
    StagingFailureFails(plan, init, fs.files, Canceled(failures), true, fs.faults - faults);
    AccountedFor(plan, init, fs.files, Canceled(failures), true, fs.faults - faults);
    r := Err(Canceled(failures));
  }

  lemma {:induction false} AppliedAfterAll(plan: Plan, init: Files, state: Files, paths: seq<string>,
                                           warnings: seq<Path>)
    requires plan.Valid(init) && Validated(plan, init) && plan.OthersKept(state, init)
    requires forall k :: 0 <= k < |plan.files| ==> Finished(plan, state, warnings, k)
    requires |paths| == |plan.files| && forall k :: 0 <= k < |plan.files| ==> paths[k] == plan.files[k].path
    ensures Applied(plan, init, state, Outcome(|plan.files|, paths, warnings))
  {
    hide Validated, Plan.Valid, Plan.OthersKept, Finished;
  }

  lemma {:induction false} NothingYetIsSafe(plan: Plan, init: Files, history: seq<Files>)
    requires plan.Valid(init)
    ensures AllValid(plan) && plan.StagesSince(history, |history|, init)
    ensures plan.SafeSince(history, |history|, init)
  {
  }

  lemma {:induction false} StagedAndValidated(plan: Plan, init: Files, state: Files, staged: seq<StagedFile>)
    requires plan.Valid(init) && Staging(plan, init, state, |plan.files|)
    requires Records(staged, plan) && |staged| == |plan.files|
    requires forall f :: f in staged ==> !f.originalMoved && !f.replacementInstalled
    requires forall k :: 0 <= k < |plan.files| ==> Unchanged(plan.files[k], state)
    ensures AllValid(plan) && Validated(plan, init) && FlagsTell(staged, plan, state) && plan.OthersKept(state, init)
  {
    forall k | 0 <= k < |plan.files|
      ensures Lookup(init, plan.Target(k)) == Some(plan.files[k].Old())
      ensures plan.ViewOf(state, k) == plan.Progress(k, staged[k].originalMoved, staged[k].replacementInstalled)
    {
      assert Unchanged(plan.files[k], state);
      assert plan.ViewOf(state, k).target == Lookup(init, plan.Target(k));
    }
  }

  /** What normalization accepts is a preview whose new contents splice in exactly what the server asked for. */
  lemma {:induction false} AcceptedPreview(path: string, target: Path, text: Text,
                                           raws: seq<WorkspaceEdits.RawTextEdit>,
                                           encoding: Positions.PositionEncoding)
    requires WorkspaceEdits.NormalizeDocument(raws, text, encoding).Ok?
    ensures var edits := WorkspaceEdits.NormalizeDocument(raws, text, encoding).value;
            var file := FilePreview(path, target, text, edits);
            && file.Valid()
            && (forall e :: e in edits ==> WorkspaceEdits.Addresses(text, e))
            && (forall k :: 0 <= k < |raws| ==> WorkspaceEdits.Addressable(raws[k], text, encoding))
            && var splices := WorkspaceEdits.SplicesOf(text, edits);
               && multiset(splices) == multiset(WorkspaceEdits.RawSplices(raws, text, encoding))
               && WorkspaceEdits.Ordered(splices, 0, |text|)
               && file.New() == Encode(WorkspaceEdits.LastToFirst(text, splices))
  {
    hide WorkspaceEdits.NormalizeDocument, WorkspaceEdits.SplicesOf, WorkspaceEdits.RawSplices, WorkspaceEdits.Ordered,
         WorkspaceEdits.LastToFirst, WorkspaceEdits.Addresses, WorkspaceEdits.Addressable;
    var edits := WorkspaceEdits.NormalizeDocument(raws, text, encoding).value;
    WorkspaceEdits.AcceptedDocument(raws, text, encoding);
    WorkspaceEdits.ApplicableIsOrdered(text, edits);
  }

  /**
    An applied rename, file by file: where its target held the text that the preview was
    made from, it now holds the edited text, nothing is left of the stage, and the original
    is left only at a backup path that the outcome warns about.
   */
  lemma {:induction false} AppliedMeans(plan: Plan, init: Files, state: Files, outcome: Outcome, k: nat)
    requires plan.Valid(init) && Applied(plan, init, state, outcome) && k < |plan.files|
    ensures Lookup(init, plan.Target(k)) == Some(plan.files[k].Old())
    ensures Lookup(state, plan.Target(k)) == Some(plan.files[k].New())
    ensures Lookup(state, plan.Stage(k)) == None
    ensures Lookup(state, plan.Backup(k)) ==
            if plan.Backup(k) in outcome.warnings then Some(plan.files[k].Old()) else None
  {
    assert Finished(plan, state, outcome.warnings, k);
  }
}
