/**
 * The per-repository cleanup pipeline of `main`: the artifacts a search
 * returns are split into skipped ones (an exclusion pattern matches their
 * path) and delete commands; the commands run on a worker pool and every
 * completed command becomes one report record. Records of all repositories
 * accumulate into the CSV report.
 *
 * The JFrog CLI is not modelled: what a search printed and how each delete
 * process ended are parameters. The worker pool is a loop that takes the
 * pending commands in an order it chooses freely.
 */
module Cleanup {
  import opened Values
  import opened Text
  import opened Glob
  import opened Exclusion
  import opened Repositories

  // ---------------------------------------------------------------------
  // Delete commands and their outcome

  /**
   * `build_delete_command`: the path is always at index 3, where the
   * report reads it back; `--dry-run` is added exactly in dry-run mode.
   */
  function BuildDeleteCommand(path: string, dryRun: bool): (cmd: seq<string>)
    ensures |cmd| == if dryRun then 6 else 5
    ensures cmd[3] == path
    ensures cmd[..3] == ["jf", "rt", "del"] && cmd[4] == "--quiet"
    ensures dryRun <==> |cmd| == 6 && cmd[5] == "--dry-run"
  {
    var cmd := ["jf", "rt", "del", path, "--quiet"];
    if dryRun then cmd + ["--dry-run"] else cmd
  }

  /**
   * The label `execute_delete` logs after a successful run: it looks for
   * `--dry-run` anywhere in the command, the path included.
   */
  function SuccessLabel(cmd: seq<string>): string
  {
    if "--dry-run" in cmd then "DRYRUN-COMPLETE" else "DELETED"
  }

  /**
   * A successful deletion is logged as a dry run exactly in dry-run mode,
   * or when the path itself reads `--dry-run`.
   */
  lemma SuccessLabelOfCommand(path: string, dryRun: bool)
    ensures SuccessLabel(BuildDeleteCommand(path, dryRun)) == "DRYRUN-COMPLETE" <==> dryRun || path == "--dry-run"
  {
    var cmd := BuildDeleteCommand(path, dryRun);
    if "--dry-run" in cmd {
      var k :| 0 <= k < |cmd| && cmd[k] == "--dry-run";
      assert k == 3 || k == 5;
    }
    if dryRun {
      assert cmd[5] == "--dry-run";
    }
    if path == "--dry-run" {
      assert cmd[3] == "--dry-run";
    }
  }

  /** How the delete process ended. */
  datatype ProcessResult =
    | Succeeded                 // exit status 0
    | Failed(stderr: string)    // CalledProcessError, with what the process wrote to stderr
    | Raised(message: string)   // any other exception, which `execute_delete` does not catch

  /** What `future.result()` gives back: `(success, error_msg)`, or the exception it re-raises. */
  datatype DeleteResult = Finished(success: bool, errorMsg: string) | Threw(message: string)

  /**
   * `execute_delete`: success with an empty message; on failure the
   * stripped stderr, or "Unknown error" when stderr is empty; any other
   * exception passes through.
   */
  function ExecuteDelete(run: ProcessResult): (r: DeleteResult)
    ensures r.Threw? <==> run.Raised?
    ensures r.Finished? ==> (r.success <==> run.Succeeded?)
    ensures r.Finished? && r.success ==> r.errorMsg == []
    ensures run.Failed? && run.stderr == [] ==> r.errorMsg == "Unknown error"
    ensures run.Failed? && run.stderr != [] ==>
              |r.errorMsg| <= |run.stderr|
              && (r.errorMsg == [] <==> forall k :: 0 <= k < |run.stderr| ==> IsSpace(run.stderr[k]))
    ensures run.Failed? && run.stderr != [] ==> r.errorMsg == Strip(run.stderr)
    ensures run.Raised? ==> r.Threw? && r.message == run.message
  {
    match run
    case Succeeded => Finished(true, "")
    case Failed(stderr) => Finished(false, if stderr != [] then Strip(stderr) else "Unknown error")
    case Raised(message) => Threw(message)
  }

  // ---------------------------------------------------------------------
  // Report records

  /** One row of the CSV report: Repository, Path, Status, Exclusion Pattern, Error. */
  datatype Record = Record(repository: Json, path: string, status: string, exclusionPattern: string, error: string)

  /** The record of a completed delete command; the path is read back from `cmd[3]`. */
  function DeleteRecord(repoKey: Json, cmd: seq<string>, result: DeleteResult): (r: Record)
    requires |cmd| > 3
    ensures r.repository == repoKey && r.path == cmd[3] && r.exclusionPattern == []
    ensures r.status == "deleted" <==> result.Finished? && result.success
    ensures r.status == "error" <==> result.Finished? && !result.success
    ensures r.status == "Error" <==> result.Threw?
    ensures r.error == if result.Finished? then result.errorMsg else result.message
  {
    match result
    case Finished(success, errorMsg) =>
      Record(repoKey, cmd[3], if success then "deleted" else "error", "", errorMsg)
    case Threw(message) => Record(repoKey, cmd[3], "Error", "", message)
  }

  // ---------------------------------------------------------------------
  // Splitting the artifacts

  /** What happens to one artifact: skipped by a pattern, or a delete command. */
  datatype Step = Skip(path: string, pattern: string) | Delete(cmd: seq<string>)

  /**
   * `item.get("path", "")`: None when the item is not an object (the
   * AttributeError of `.get`) or its path is not a string (the TypeError
   * the matcher raises).
   */
  function ItemPath(item: Json): (r: Option<string>)
    ensures r.None? <==> !item.JObj? || ("path" in item.fields && !item.fields["path"].JStr?)
    ensures r.Some? && "path" in item.fields ==> r.value == item.fields["path"].s
    ensures r.Some? && "path" !in item.fields ==> r.value == []
  {
    if !item.JObj? then None
    else
      match Get(item.fields, "path", JStr(""))
      case JStr(s) => Some(s)
      case _ => None
  }

  /**
   * The step of one artifact: skipped, recording the first matching
   * pattern, exactly when some pattern matches its path (`FirstMatchIndex`
   * finds one exactly then); otherwise the delete command for its path.
   */
  function Classify(item: Json, patterns: seq<string>, dryRun: bool): (r: Outcome<Step>)
    ensures r.Done? <==> ItemPath(item).Some?
    ensures r.Done? ==> (r.value.Skip? <==> FirstMatchIndex(ItemPath(item).value, patterns).Some?)
    ensures r.Done? && r.value.Skip? ==>
              r.value.path == ItemPath(item).value
              && r.value.pattern == patterns[FirstMatchIndex(r.value.path, patterns).value]
    ensures r.Done? && r.value.Delete? ==>
              |r.value.cmd| > 3 && r.value.cmd[3] == ItemPath(item).value
              && r.value.cmd == BuildDeleteCommand(ItemPath(item).value, dryRun)
  {
    match ItemPath(item)
    case None => Crashed
    case Some(path) =>
      match FirstMatchIndex(path, patterns)
      case Some(i) => Done(Skip(path, patterns[i]))
      case None => Done(Delete(BuildDeleteCommand(path, dryRun)))
  }

  /** Delete steps carry a command long enough to hold a path at index 3. */
  predicate WellFormed(steps: seq<Step>)
  {
    forall i :: 0 <= i < |steps| ==> steps[i].Delete? ==> |steps[i].cmd| > 3
  }

  /** The steps of all artifacts, in order; Crashed as soon as one artifact crashes. */
  function Steps(artifacts: seq<Json>, patterns: seq<string>, dryRun: bool): (r: Outcome<seq<Step>>)
    ensures r.Done? <==> forall i :: 0 <= i < |artifacts| ==> ItemPath(artifacts[i]).Some?
    ensures r.Done? ==> |r.value| == |artifacts| && WellFormed(r.value)
    ensures r.Done? ==> forall i :: 0 <= i < |artifacts| ==> Classify(artifacts[i], patterns, dryRun) == Done(r.value[i])
  {
    if forall i :: 0 <= i < |artifacts| ==> ItemPath(artifacts[i]).Some? then
      Done(seq(|artifacts|, i requires 0 <= i < |artifacts| => Classify(artifacts[i], patterns, dryRun).value))
    else
      Crashed
  }

  /** The `skipped` records, in artifact order. */
  function SkipRecords(repoKey: Json, steps: seq<Step>): (rs: seq<Record>)
    ensures forall k :: 0 <= k < |rs| ==>
              rs[k].repository == repoKey && rs[k].status == "skipped" && rs[k].error == []
    decreases |steps|
  {
    if steps == [] then []
    else
      var init := SkipRecords(repoKey, steps[..|steps| - 1]);
      match steps[|steps| - 1]
      case Skip(path, pattern) => init + [Record(repoKey, path, "skipped", pattern, "")]
      case Delete(_) => init
  }

  /** `delete_commands`, in artifact order. */
  function Commands(steps: seq<Step>): (cmds: seq<seq<string>>)
    requires WellFormed(steps)
    ensures forall k :: 0 <= k < |cmds| ==> |cmds[k]| > 3
    decreases |steps|
  {
    if steps == [] then []
    else
      var init := Commands(steps[..|steps| - 1]);
      match steps[|steps| - 1]
      case Skip(_, _) => init
      case Delete(cmd) => init + [cmd]
  }

  /** The records of the delete commands, in submission order; `run(k)` is how command `k` ended. */
  function DeleteRecords(repoKey: Json, cmds: seq<seq<string>>, run: nat -> ProcessResult): (rs: seq<Record>)
    requires forall k :: 0 <= k < |cmds| ==> |cmds[k]| > 3
    ensures |rs| == |cmds|
    ensures forall k :: 0 <= k < |cmds| ==> rs[k] == DeleteRecord(repoKey, cmds[k], ExecuteDelete(run(k)))
  {
    seq(|cmds|, k requires 0 <= k < |cmds| => DeleteRecord(repoKey, cmds[k], ExecuteDelete(run(k))))
  }

  /**
   * The delete records read straight off the commands and how their
   * processes ended: the k-th names the k-th command's path, is `deleted`,
   * `error` or `Error` exactly when process k succeeded, failed or raised,
   * and carries no pattern and the message `execute_delete` produced.
   */
  lemma DeleteRecordsFollowRun(repoKey: Json, cmds: seq<seq<string>>, run: nat -> ProcessResult)
    requires forall k :: 0 <= k < |cmds| ==> |cmds[k]| > 3
    ensures |DeleteRecords(repoKey, cmds, run)| == |cmds|
    ensures forall k :: 0 <= k < |cmds| ==>
              var rec := DeleteRecords(repoKey, cmds, run)[k];
              && rec.repository == repoKey && rec.path == cmds[k][3] && rec.exclusionPattern == []
              && (rec.status == "deleted" <==> run(k).Succeeded?)
              && (rec.status == "error" <==> run(k).Failed?)
              && (rec.status == "Error" <==> run(k).Raised?)
              && (run(k).Succeeded? ==> rec.error == [])
              && (run(k).Failed? ==> rec.error == if run(k).stderr == [] then "Unknown error" else Strip(run(k).stderr))
              && (run(k).Raised? ==> rec.error == run(k).message)
  {
  }

  /** The record an artifact yields, given the submission index its command would get. */
  function StepRecord(repoKey: Json, step: Step, run: nat -> ProcessResult, k: nat): Record
    requires step.Delete? ==> |step.cmd| > 3
  {
    match step
    case Skip(path, pattern) => Record(repoKey, path, "skipped", pattern, "")
    case Delete(cmd) => DeleteRecord(repoKey, cmd, ExecuteDelete(run(k)))
  }

  /** One record per artifact, in artifact order. */
  function PerArtifact(repoKey: Json, steps: seq<Step>, run: nat -> ProcessResult): (rs: seq<Record>)
    requires WellFormed(steps)
    ensures |rs| == |steps|
    decreases |steps|
  {
    if steps == [] then []
    else
      var init := steps[..|steps| - 1];
      PerArtifact(repoKey, init, run) + [StepRecord(repoKey, steps[|steps| - 1], run, |Commands(init)|)]
  }

  /** The steps before the last one are well formed too. */
  lemma WellFormedInit(steps: seq<Step>)
    requires WellFormed(steps) && steps != []
    ensures WellFormed(steps[..|steps| - 1])
  {
    var init := steps[..|steps| - 1];
    forall i | 0 <= i < |init| ensures init[i].Delete? ==> |init[i].cmd| > 3 {
      assert init[i] == steps[i];
    }
  }

  /** Appending a step adds its record to the skipped records or its command to the commands. */
  lemma StepSnoc(repoKey: Json, steps: seq<Step>, step: Step)
    requires WellFormed(steps) && WellFormed(steps + [step])
    ensures (steps + [step])[..|steps|] == steps
    ensures step.Skip? ==> SkipRecords(repoKey, steps + [step]) == SkipRecords(repoKey, steps) + [Record(repoKey, step.path, "skipped", step.pattern, "")]
                           && Commands(steps + [step]) == Commands(steps)
    ensures step.Delete? ==> SkipRecords(repoKey, steps + [step]) == SkipRecords(repoKey, steps)
                             && Commands(steps + [step]) == Commands(steps) + [step.cmd]
  {
    assert (steps + [step])[..|steps|] == steps;
  }

  /** Every artifact yields either a `skipped` record or a delete command, never both and never neither. */
  lemma {:induction false} PartitionCount(repoKey: Json, steps: seq<Step>)
    requires WellFormed(steps)
    ensures |SkipRecords(repoKey, steps)| + |Commands(steps)| == |steps|
    decreases |steps|
  {
    if steps != [] {
      var init := steps[..|steps| - 1];
      WellFormedInit(steps);
      PartitionCount(repoKey, init);
      assert steps == init + [steps[|steps| - 1]];
      StepSnoc(repoKey, init, steps[|steps| - 1]);
    }
  }

  /**
   * The skipped records and the delete records together are, as a
   * multiset, exactly one record per artifact.
   */
  lemma {:induction false} OneRecordPerArtifact(repoKey: Json, steps: seq<Step>, run: nat -> ProcessResult)
    requires WellFormed(steps)
    ensures multiset(SkipRecords(repoKey, steps) + DeleteRecords(repoKey, Commands(steps), run))
            == multiset(PerArtifact(repoKey, steps, run))
    decreases |steps|
  {
    if steps != [] {
      var init := steps[..|steps| - 1];
      var last := steps[|steps| - 1];
      WellFormedInit(steps);
      var rec := StepRecord(repoKey, last, run, |Commands(init)|);
      OneRecordPerArtifact(repoKey, init, run);
      assert PerArtifact(repoKey, steps, run) == PerArtifact(repoKey, init, run) + [rec];
      assert steps == init + [last];
      AppendStepRecords(repoKey, init, last, run);
    }
  }

  /** One more step adds its record to the skipped and delete records together. */
  lemma AppendStepRecords(repoKey: Json, init: seq<Step>, last: Step, run: nat -> ProcessResult)
    requires WellFormed(init) && WellFormed(init + [last])
    ensures multiset(SkipRecords(repoKey, init + [last]) + DeleteRecords(repoKey, Commands(init + [last]), run))
            == multiset(SkipRecords(repoKey, init) + DeleteRecords(repoKey, Commands(init), run))
               + multiset{StepRecord(repoKey, last, run, |Commands(init)|)}
  {
    var steps := init + [last];
    assert steps[|init|] == last;
    var skips, cmds := SkipRecords(repoKey, init), Commands(init);
    var dels := DeleteRecords(repoKey, cmds, run);
    var rec := StepRecord(repoKey, last, run, |cmds|);
    if last.Skip? {
      assert SkipRecords(repoKey, steps) == skips + [rec] && Commands(steps) == cmds by {
        StepSnoc(repoKey, init, last);
      }
      MultisetMoveLast(skips, dels, rec);
    } else {
      assert SkipRecords(repoKey, steps) == skips && Commands(steps) == cmds + [last.cmd] by {
        StepSnoc(repoKey, init, last);
      }
      assert DeleteRecords(repoKey, cmds + [last.cmd], run) == dels + [rec] by {
        DeleteRecordsSnoc(repoKey, cmds, last.cmd, run);
      }
      MultisetAppendLast(skips, dels, rec);
    }
  }

  lemma MultisetAppendLast(xs: seq<Record>, ys: seq<Record>, x: Record)
    ensures multiset(xs + (ys + [x])) == multiset(xs + ys) + multiset{x}
  {
    assert xs + (ys + [x]) == (xs + ys) + [x];
  }

  lemma MultisetMoveLast(xs: seq<Record>, ys: seq<Record>, x: Record)
    ensures multiset(xs + [x] + ys) == multiset(xs + ys) + multiset{x}
  {
  }

  lemma DeleteRecordsSnoc(repoKey: Json, cmds: seq<seq<string>>, cmd: seq<string>, run: nat -> ProcessResult)
    requires forall k :: 0 <= k < |cmds| ==> |cmds[k]| > 3
    requires |cmd| > 3
    ensures DeleteRecords(repoKey, cmds + [cmd], run)
            == DeleteRecords(repoKey, cmds, run) + [DeleteRecord(repoKey, cmd, ExecuteDelete(run(|cmds|)))]
  {
  }

  /**
   * The i-th record of `PerArtifact` carries the i-th artifact's path, is
   * `skipped` exactly when that artifact was excluded, and names an
   * exclusion pattern exactly then.
   */
  lemma {:induction false} PerArtifactAt(repoKey: Json, steps: seq<Step>, run: nat -> ProcessResult)
    requires WellFormed(steps)
    ensures forall i :: 0 <= i < |steps| ==> RecordOfStep(repoKey, PerArtifact(repoKey, steps, run)[i], steps[i])
    decreases |steps|
  {
    if steps != [] {
      var init := steps[..|steps| - 1];
      WellFormedInit(steps);
      PerArtifactAt(repoKey, init, run);
      var per := PerArtifact(repoKey, steps, run);
      var last := steps[|steps| - 1];
      assert per == PerArtifact(repoKey, init, run) + [StepRecord(repoKey, last, run, |Commands(init)|)];
      forall i | 0 <= i < |steps| ensures RecordOfStep(repoKey, per[i], steps[i]) {
        if i < |init| {
          assert steps[i] == init[i] && per[i] == PerArtifact(repoKey, init, run)[i];
        }
      }
    }
  }

  /**
   * `rec` is the record of `step`: it carries the repository key and the
   * step's path, is `skipped` exactly for a skip, and names a pattern
   * exactly then.
   */
  predicate RecordOfStep(repoKey: Json, rec: Record, step: Step)
    requires step.Delete? ==> |step.cmd| > 3
  {
    && rec.repository == repoKey
    && rec.path == (if step.Skip? then step.path else step.cmd[3])
    && (rec.status == "skipped" <==> step.Skip?)
    && rec.exclusionPattern == (if step.Skip? then step.pattern else [])
  }

  /**
   * One record per artifact, in artifact order: the i-th carries the
   * repository key and the i-th artifact's path; it is `skipped` exactly
   * when some exclusion pattern matches that path, and then names the
   * first such pattern; otherwise it names none.
   */
  lemma RecordsFollowArtifacts(repoKey: Json, artifacts: seq<Json>, patterns: seq<string>, dryRun: bool,
                               run: nat -> ProcessResult)
    requires Steps(artifacts, patterns, dryRun).Done?
    ensures |PerArtifact(repoKey, Steps(artifacts, patterns, dryRun).value, run)| == |artifacts|
    ensures forall i :: 0 <= i < |artifacts| ==>
              var r := PerArtifact(repoKey, Steps(artifacts, patterns, dryRun).value, run)[i];
              var path := ItemPath(artifacts[i]).value;
              && r.repository == repoKey && r.path == path
              && (r.status == "skipped" <==> exists j :: 0 <= j < |patterns| && FnMatch(path, patterns[j]))
              && (r.status == "skipped" ==> r.exclusionPattern == patterns[FirstMatchIndex(path, patterns).value])
              && (r.status != "skipped" ==> r.exclusionPattern == [])
  {
    var steps := Steps(artifacts, patterns, dryRun).value;
    PerArtifactAt(repoKey, steps, run);
    forall i | 0 <= i < |artifacts| ensures Classify(artifacts[i], patterns, dryRun) == Done(steps[i]) {
    }
  }

  /**
   * Dry-run mode changes the delete commands but not the records: the
   * report reads back only the path of each command, so with the same
   * process outcomes a dry run reports exactly what a real run would,
   * `deleted` statuses included.
   */
  lemma DryRunSameRecords(repoKey: Json, artifacts: seq<Json>, patterns: seq<string>, run: nat -> ProcessResult)
    requires Steps(artifacts, patterns, true).Done?
    ensures Steps(artifacts, patterns, false).Done?
    ensures |Commands(Steps(artifacts, patterns, true).value)| == |Commands(Steps(artifacts, patterns, false).value)|
    ensures PerArtifact(repoKey, Steps(artifacts, patterns, true).value, run)
            == PerArtifact(repoKey, Steps(artifacts, patterns, false).value, run)
  {
    var dry, wet := Steps(artifacts, patterns, true).value, Steps(artifacts, patterns, false).value;
    forall i | 0 <= i < |artifacts| ensures SameRecord(dry[i], wet[i]) {
      assert Classify(artifacts[i], patterns, true) == Done(dry[i]);
      assert Classify(artifacts[i], patterns, false) == Done(wet[i]);
    }
    SameRecords(repoKey, dry, wet, run);
  }

  /** Two steps that yield the same record: the same skip, or deletes of the same path. */
  predicate SameRecord(a: Step, b: Step)
  {
    match a
    case Skip(_, _) => a == b
    case Delete(cmd) => b.Delete? && |cmd| > 3 && |b.cmd| > 3 && cmd[3] == b.cmd[3]
  }

  /** Step sequences that agree record by record submit as many commands and yield the same records. */
  lemma {:induction false} SameRecords(repoKey: Json, xs: seq<Step>, ys: seq<Step>, run: nat -> ProcessResult)
    requires WellFormed(xs) && WellFormed(ys) && |xs| == |ys|
    requires forall i :: 0 <= i < |xs| ==> SameRecord(xs[i], ys[i])
    ensures |Commands(xs)| == |Commands(ys)|
    ensures PerArtifact(repoKey, xs, run) == PerArtifact(repoKey, ys, run)
    decreases |xs|
  {
    if xs != [] {
      var n := |xs|;
      var xInit, yInit := xs[..n - 1], ys[..n - 1];
      WellFormedInit(xs);
      WellFormedInit(ys);
      SameRecords(repoKey, xInit, yInit, run);
      var k := |Commands(xInit)|;
      assert SameRecord(xs[n - 1], ys[n - 1]);
      CommandsLast(xs);
      CommandsLast(ys);
      SameStepRecord(repoKey, xs[n - 1], ys[n - 1], run, k);
      PerArtifactLast(repoKey, xs, run);
      PerArtifactLast(repoKey, ys, run);
    }
  }

  /** The last step adds one command exactly when it is a delete. */
  lemma CommandsLast(steps: seq<Step>)
    requires WellFormed(steps) && steps != []
    ensures WellFormed(steps[..|steps| - 1])
    ensures |Commands(steps)| == |Commands(steps[..|steps| - 1])| + (if steps[|steps| - 1].Delete? then 1 else 0)
  {
    WellFormedInit(steps);
  }

  /** The last step's record follows the records of the steps before it. */
  lemma PerArtifactLast(repoKey: Json, steps: seq<Step>, run: nat -> ProcessResult)
    requires WellFormed(steps) && steps != []
    ensures WellFormed(steps[..|steps| - 1])
    ensures PerArtifact(repoKey, steps, run)
            == PerArtifact(repoKey, steps[..|steps| - 1], run)
               + [StepRecord(repoKey, steps[|steps| - 1], run, |Commands(steps[..|steps| - 1])|)]
  {
    WellFormedInit(steps);
  }

  lemma SameStepRecord(repoKey: Json, x: Step, y: Step, run: nat -> ProcessResult, k: nat)
    requires SameRecord(x, y)
    ensures StepRecord(repoKey, x, run, k) == StepRecord(repoKey, y, run, k)
  {
  }

  // ---------------------------------------------------------------------
  // One repository

  /** Shuffle helper: the records picked out by a list of indices. */
  function Pick(all: seq<Record>, idx: seq<nat>): (rs: seq<Record>)
    requires forall t :: 0 <= t < |idx| ==> idx[t] < |all|
    ensures |rs| == |idx|
    ensures forall t :: 0 <= t < |idx| ==> rs[t] == all[idx[t]]
  {
    seq(|idx|, t requires 0 <= t < |idx| => all[idx[t]])
  }

  /**
   * Completing the command at position `p` of the pending indices moves its
   * record from the pending ones to the completed ones.
   */
  lemma CompleteOne(all: seq<Record>, pending: seq<nat>, p: nat, rest: seq<nat>, completed: seq<Record>, record: Record)
    requires forall t :: 0 <= t < |pending| ==> pending[t] < |all|
    requires p < |pending| && rest == pending[..p] + pending[p + 1..] && record == all[pending[p]]
    requires multiset(completed) + multiset(Pick(all, pending)) == multiset(all)
    ensures forall t :: 0 <= t < |rest| ==> rest[t] < |all|
    ensures multiset(completed + [record]) + multiset(Pick(all, rest)) == multiset(all)
  {
    assert Pick(all, pending) == Pick(all, pending[..p]) + [record] + Pick(all, pending[p + 1..]);
    assert Pick(all, rest) == Pick(all, pending[..p]) + Pick(all, pending[p + 1..]);
  }

  /** Classifying one more artifact extends the steps by that artifact's step. */
  lemma StepsSnoc(artifacts: seq<Json>, patterns: seq<string>, dryRun: bool, i: nat, steps: seq<Step>, step: Step)
    requires i < |artifacts|
    requires Steps(artifacts[..i], patterns, dryRun) == Done(steps)
    requires Classify(artifacts[i], patterns, dryRun) == Done(step)
    ensures Steps(artifacts[..i + 1], patterns, dryRun) == Done(steps + [step])
  {
    var prefix := artifacts[..i + 1];
    forall k | 0 <= k < |prefix| ensures Classify(prefix[k], patterns, dryRun) == Done((steps + [step])[k]) {
      if k < i {
        assert prefix[k] == artifacts[..i][k];
      }
    }
    assert Steps(prefix, patterns, dryRun).value == steps + [step];
  }

  /** An artifact that crashes crashes the whole repository. */
  lemma CrashAt(artifacts: seq<Json>, patterns: seq<string>, dryRun: bool, i: nat)
    requires i < |artifacts| && Classify(artifacts[i], patterns, dryRun).Crashed?
    ensures Steps(artifacts, patterns, dryRun).Crashed?
  {
  }

  /** One more classified artifact extends the steps, the skipped records and the commands. */
  lemma SplitStep(repoKey: Json, artifacts: seq<Json>, patterns: seq<string>, dryRun: bool, i: nat, steps: seq<Step>, step: Step)
    requires i < |artifacts|
    requires Steps(artifacts[..i], patterns, dryRun) == Done(steps)
    requires Classify(artifacts[i], patterns, dryRun) == Done(step)
    ensures Steps(artifacts[..i + 1], patterns, dryRun) == Done(steps + [step])
    ensures WellFormed(steps + [step])
    ensures SkipRecords(repoKey, steps + [step])
            == SkipRecords(repoKey, steps) + (if step.Skip? then [Record(repoKey, step.path, "skipped", step.pattern, "")] else [])
    ensures Commands(steps + [step]) == Commands(steps) + (if step.Delete? then [step.cmd] else [])
  {
    StepsSnoc(artifacts, patterns, dryRun, i, steps, step);
    StepSnoc(repoKey, steps, step);
  }

  /**
   * The body of `main`'s loop for one artifact: its `skipped` record's
   * pattern column is `", ".join(matched_patterns)`, which holds the one
   * pattern that matched; Crashed where the source raises.
   */
  method ClassifyArtifact(item: Json, exclusionPatterns: seq<string>, dryRun: bool) returns (r: Outcome<Step>)
    ensures r == Classify(item, exclusionPatterns, dryRun)
  {
    if !item.JObj? {
      return Crashed;  // `item.get` on a non-dictionary raises AttributeError
    }
    var pathValue := Get(item.fields, "path", JStr(""));
    if !pathValue.JStr? {
      return Crashed;  // the matcher raises TypeError on a non-string path
    }
    var path := pathValue.s;
    var matched := new PatternSet();
    var excluded := IsExcluded(path, exclusionPatterns, matched);
    if excluded {
      var joined, order := JoinSet(", ", matched.patterns);
      assert matched.patterns == {exclusionPatterns[FirstMatchIndex(path, exclusionPatterns).value]};
      r := Done(Skip(path, joined));
    } else {
      var cmd := BuildDeleteCommand(path, dryRun);
      r := Done(Delete(cmd));
    }
  }

  /**
   * The loop of `main` over one repository's artifacts: an excluded
   * artifact becomes a `skipped` record naming the pattern that matched,
   * any other one a delete command.
   */
  method SplitArtifacts(repoKey: Json, artifacts: seq<Json>, exclusionPatterns: seq<string>, dryRun: bool)
    returns (crashed: bool, csvRecords: seq<Record>, deleteCommands: seq<seq<string>>)
    ensures crashed <==> Steps(artifacts, exclusionPatterns, dryRun).Crashed?
    ensures !crashed ==>
              var steps := Steps(artifacts, exclusionPatterns, dryRun).value;
              csvRecords == SkipRecords(repoKey, steps) && deleteCommands == Commands(steps)
  {
    csvRecords, deleteCommands := [], [];
    ghost var steps: seq<Step> := [];
    for i := 0 to |artifacts|
      invariant Steps(artifacts[..i], exclusionPatterns, dryRun) == Done(steps)
      invariant WellFormed(steps)
      invariant csvRecords == SkipRecords(repoKey, steps)
      invariant deleteCommands == Commands(steps)
    {
      var outcome := ClassifyArtifact(artifacts[i], exclusionPatterns, dryRun);
      if outcome.Crashed? {
        CrashAt(artifacts, exclusionPatterns, dryRun, i);
        return true, [], [];
      }
      var step := outcome.value;
      SplitStep(repoKey, artifacts, exclusionPatterns, dryRun, i, steps, step);
      if step.Skip? {
        csvRecords := csvRecords + [Record(repoKey, step.path, "skipped", step.pattern, "")];
      } else {
        deleteCommands := deleteCommands + [step.cmd];
      }
      steps := steps + [step];
    }
    assert artifacts[..|artifacts|] == artifacts;
    return false, csvRecords, deleteCommands;
  }

  /**
   * The worker pool: every submitted command runs once and completes into
   * one record, the records arriving in whatever order the commands
   * complete. `run(k)` is how the `k`-th submitted command ends.
   */
  method RunDeletes(repoKey: Json, deleteCommands: seq<seq<string>>, run: nat -> ProcessResult)
    returns (completed: seq<Record>)
    requires forall k :: 0 <= k < |deleteCommands| ==> |deleteCommands[k]| > 3
    ensures |completed| == |deleteCommands|
    ensures multiset(completed) == multiset(DeleteRecords(repoKey, deleteCommands, run))
  {
    ghost var all := DeleteRecords(repoKey, deleteCommands, run);
    var pending: seq<nat> := seq(|deleteCommands|, k requires 0 <= k < |deleteCommands| => k);
    assert Pick(all, pending) == all;
    completed := [];
    while pending != []
      invariant forall t :: 0 <= t < |pending| ==> pending[t] < |deleteCommands|
      invariant multiset(completed) + multiset(Pick(all, pending)) == multiset(all)
      decreases |pending|
    {
      var p :| 0 <= p < |pending|;
      var k := pending[p];
      var outcome := ExecuteDelete(run(k));
      var record := DeleteRecord(repoKey, deleteCommands[k], outcome);
      var rest := pending[..p] + pending[p + 1..];
      CompleteOne(all, pending, p, rest, completed, record);
      completed := completed + [record];
      pending := rest;
    }
    assert |completed| == |multiset(completed)| == |multiset(all)| == |all|;
  }

  /**
   * One repository: the `skipped` records come first, in artifact order;
   * then one record per delete command, in whatever order the commands
   * complete. As a multiset that is one record per artifact.
   */
  method ProcessRepository(repoKey: Json, artifacts: seq<Json>, exclusionPatterns: seq<string>, dryRun: bool,
                           run: nat -> ProcessResult)
    returns (result: Outcome<seq<Record>>)
    ensures result.Crashed? <==> Steps(artifacts, exclusionPatterns, dryRun).Crashed?
    ensures result.Done? ==>
              var steps := Steps(artifacts, exclusionPatterns, dryRun).value;
              var skipped := SkipRecords(repoKey, steps);
              && |result.value| == |artifacts|
              && |skipped| <= |result.value|
              && result.value[..|skipped|] == skipped
              && multiset(result.value[|skipped|..]) == multiset(DeleteRecords(repoKey, Commands(steps), run))
    ensures result.Done? ==>
              multiset(result.value) == multiset(PerArtifact(repoKey, Steps(artifacts, exclusionPatterns, dryRun).value, run))
  {
    var crashed, csvRecords, deleteCommands := SplitArtifacts(repoKey, artifacts, exclusionPatterns, dryRun);
    if crashed {
      return Crashed;
    }
    var completed := RunDeletes(repoKey, deleteCommands, run);
    ghost var steps := Steps(artifacts, exclusionPatterns, dryRun).value;
    PartitionCount(repoKey, steps);
    OneRecordPerArtifact(repoKey, steps, run);
    result := Done(csvRecords + completed);
    assert result.value[..|csvRecords|] == csvRecords;
    assert result.value[|csvRecords|..] == completed;
  }
}
