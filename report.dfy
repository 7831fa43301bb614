/**
 * The loop of `main` over all repositories: each repository's search
 * output is decoded, its artifacts are processed, and the records of all
 * repositories accumulate into the CSV report.
 *
 * What each search printed (`search(i)` for the i-th repository, None when
 * the search failed), what `json.loads` makes of a text (`decode`) and how
 * the k-th delete command of the i-th repository ends (`run(i, k)`) are
 * parameters.
 */
module Report {
  import opened Values
  import opened Text
  import opened Glob
  import opened Exclusion
  import opened Repositories
  import opened Cleanup

  /**
   * `parse_artifacts` on what `json.loads` made of the search output: a
   * list is the artifact list itself, an object's `results` entry is taken
   * as it stands, and anything else (a decoding error included) is the
   * empty list.
   */
  function ParseArtifacts(decoded: Decoded): (v: Json)
    ensures decoded.Parsed? && decoded.value.JArr? ==> v == decoded.value
    ensures decoded.Parsed? && decoded.value.JObj? && "results" in decoded.value.fields ==>
              v == decoded.value.fields["results"]
    ensures !(decoded.Parsed? && (decoded.value.JArr? || (decoded.value.JObj? && "results" in decoded.value.fields))) ==>
              v == JArr([])
  {
    match decoded
    case Malformed => JArr([])
    case Parsed(data) =>
      if data.JArr? then data
      else if data.JObj? && "results" in data.fields then data.fields["results"]
      else JArr([])
  }

  /** A bare list of artifacts and the same list wrapped as `{"results": ...}` are read alike. */
  lemma EnvelopeTransparent(items: seq<Json>, extra: map<string, Json>)
    ensures ParseArtifacts(Parsed(JArr(items)))
            == ParseArtifacts(Parsed(JObj(extra["results" := JArr(items)])))
            == JArr(items)
  {
  }

  /**
   * The artifacts that `main` goes on to process: none when the parsed
   * value is falsy (`if not artifacts: continue`); the list's items; for
   * any other value, Crashed, since `len` rejects numbers and booleans and
   * iterating a string or an object yields strings, on which `item.get`
   * fails.
   */
  function ArtifactItems(v: Json): (r: Outcome<seq<Json>>)
    ensures !Truthy(v) ==> r == Done([])
    ensures v.JArr? ==> r == Done(v.items)
    ensures r.Crashed? <==> Truthy(v) && !v.JArr?
  {
    if !Truthy(v) then Done([])
    else if v.JArr? then Done(v.items)
    else Crashed
  }

  /** The artifacts of one repository, given what its search printed. */
  function SearchArtifacts(raw: Option<string>, decode: string -> Decoded): (r: Outcome<seq<Json>>)
    ensures raw.None? || raw.value == [] ==> r == Done([])
    ensures raw.Some? && raw.value != [] && ParseArtifacts(decode(raw.value)).JArr? ==>
              r == Done(ParseArtifacts(decode(raw.value)).items)
    ensures raw.Some? && raw.value != [] && !Truthy(ParseArtifacts(decode(raw.value))) ==> r == Done([])
    ensures r.Crashed? <==> raw.Some? && raw.value != [] && Truthy(ParseArtifacts(decode(raw.value)))
                            && !ParseArtifacts(decode(raw.value)).JArr?
  {
    match raw
    case None => Done([])
    case Some(output) =>
      if output == [] then Done([]) else ArtifactItems(ParseArtifacts(decode(output)))
  }

  /**
   * The records one repository contributes, one per artifact in artifact
   * order (the report may hold them in another order, see `CleanUp`).
   */
  function RepoRecords(repoKey: Json, raw: Option<string>, decode: string -> Decoded,
                       patterns: seq<string>, dryRun: bool, run: nat -> ProcessResult): (r: Outcome<seq<Record>>)
    ensures r.Done? <==> SearchArtifacts(raw, decode).Done? && Steps(SearchArtifacts(raw, decode).value, patterns, dryRun).Done?
    ensures r.Done? ==> |r.value| == |SearchArtifacts(raw, decode).value|
  {
    match SearchArtifacts(raw, decode)
    case Crashed => Crashed
    case Done(artifacts) =>
      match Steps(artifacts, patterns, dryRun)
      case Crashed => Crashed
      case Done(steps) => Done(PerArtifact(repoKey, steps, run))
  }

  /** The cases of `RepoRecords`, one per branch `main` takes after the search. */
  lemma RepoRecordsCases(repoKey: Json, raw: Option<string>, decode: string -> Decoded,
                         patterns: seq<string>, dryRun: bool, run: nat -> ProcessResult)
    ensures raw.None? || raw.value == [] ==> RepoRecords(repoKey, raw, decode, patterns, dryRun, run) == Done([])
    ensures raw.Some? && raw.value != [] ==>
              var v := ParseArtifacts(decode(raw.value));
              && (!Truthy(v) ==> RepoRecords(repoKey, raw, decode, patterns, dryRun, run) == Done([]))
              && (Truthy(v) && !v.JArr? ==> RepoRecords(repoKey, raw, decode, patterns, dryRun, run).Crashed?)
              && (v.JArr? ==> RepoRecords(repoKey, raw, decode, patterns, dryRun, run)
                                == match Steps(v.items, patterns, dryRun)
                                   case Crashed => Crashed
                                   case Done(steps) => Done(PerArtifact(repoKey, steps, run)))
  {
  }

  /** How the delete commands of the i-th repository end. */
  function RunOf(run: (nat, nat) -> ProcessResult, i: nat): nat -> ProcessResult
  {
    (k: nat) => run(i, k)
  }

  /** The records the i-th repository contributes. */
  function Contribution(repos: seq<Repository>, i: nat, patterns: seq<string>, dryRun: bool,
                        search: nat -> Option<string>, decode: string -> Decoded,
                        run: (nat, nat) -> ProcessResult): Outcome<seq<Record>>
    requires i < |repos|
  {
    RepoRecords(repos[i].key, search(i), decode, patterns, dryRun, RunOf(run, i))
  }

  /** The contributions of all repositories, in the order the repositories are listed. */
  function Contributions(repos: seq<Repository>, patterns: seq<string>, dryRun: bool,
                         search: nat -> Option<string>, decode: string -> Decoded,
                         run: (nat, nat) -> ProcessResult): (cs: seq<Outcome<seq<Record>>>)
    ensures |cs| == |repos|
    ensures forall i :: 0 <= i < |repos| ==> cs[i] == Contribution(repos, i, patterns, dryRun, search, decode, run)
  {
    seq(|repos|, i requires 0 <= i < |repos| => Contribution(repos, i, patterns, dryRun, search, decode, run))
  }

  /**
   * Contributions one after another, as `csv_records` accumulates them;
   * a single crashing contribution crashes the whole.
   */
  function Gather(outs: seq<Outcome<seq<Record>>>): (r: Outcome<seq<Record>>)
    ensures r.Done? <==> forall i :: 0 <= i < |outs| ==> outs[i].Done?
    decreases |outs|
  {
    if outs == [] then Done([])
    else
      match Gather(outs[..|outs| - 1])
      case Crashed => Crashed
      case Done(before) =>
        match outs[|outs| - 1]
        case Crashed => Crashed
        case Done(more) => Done(before + more)
  }

  /** One more contribution is appended after the ones before it. */
  lemma GatherSnoc(outs: seq<Outcome<seq<Record>>>, out: Outcome<seq<Record>>)
    ensures Gather(outs + [out])
            == if Gather(outs).Crashed? || out.Crashed? then Crashed else Done(Gather(outs).value + out.value)
  {
    assert (outs + [out])[..|outs|] == outs;
  }

  /** Gathering one more element of a sequence of contributions. */
  lemma GatherPrefix(outs: seq<Outcome<seq<Record>>>, i: nat)
    requires i < |outs|
    ensures Gather(outs[..i + 1])
            == if Gather(outs[..i]).Crashed? || outs[i].Crashed? then Crashed else Done(Gather(outs[..i]).value + outs[i].value)
  {
    assert outs[..i + 1] == outs[..i] + [outs[i]];
    GatherSnoc(outs[..i], outs[i]);
  }

  /** A completed gathering is as long as the contributions together. */
  lemma {:induction false} GatherLength(outs: seq<Outcome<seq<Record>>>, counts: seq<nat>)
    requires |counts| == |outs|
    requires forall i :: 0 <= i < |outs| ==> outs[i].Done? ==> |outs[i].value| == counts[i]
    requires Gather(outs).Done?
    ensures |Gather(outs).value| == Sum(counts)
    decreases |outs|
  {
    if outs != [] {
      var n := |outs|;
      assert outs == outs[..n - 1] + [outs[n - 1]];
      GatherSnoc(outs[..n - 1], outs[n - 1]);
      GatherLength(outs[..n - 1], counts[..n - 1]);
    }
  }

  /** The records of the whole run, repository after repository. */
  function RunRecords(repos: seq<Repository>, patterns: seq<string>, dryRun: bool,
                      search: nat -> Option<string>, decode: string -> Decoded,
                      run: (nat, nat) -> ProcessResult): (r: Outcome<seq<Record>>)
    ensures r.Done? <==> forall i :: 0 <= i < |repos| ==> Contribution(repos, i, patterns, dryRun, search, decode, run).Done?
  {
    Gather(Contributions(repos, patterns, dryRun, search, decode, run))
  }

  /**
   * The loop of `main` over the repositories. Without repositories it
   * stops before writing any report (None). Otherwise it crashes exactly
   * when some repository does, and the report holds, as a multiset, the
   * records of every repository.
   */
  method CleanUp(repos: seq<Repository>, exclusionPatterns: seq<string>, dryRun: bool,
                 search: nat -> Option<string>, decode: string -> Decoded, run: (nat, nat) -> ProcessResult)
    returns (report: Outcome<Option<seq<Record>>>)
    ensures repos == [] ==> report == Done(None)
    ensures repos != [] ==>
              (report.Crashed? <==> RunRecords(repos, exclusionPatterns, dryRun, search, decode, run).Crashed?)
    ensures repos != [] && report.Done? ==>
              report.value.Some?
              && multiset(report.value.value)
                 == multiset(RunRecords(repos, exclusionPatterns, dryRun, search, decode, run).value)
  {
    if repos == [] {
      return Done(None);  // "No LOCAL or FEDERATED repositories found."
    }
    ghost var contributions := Contributions(repos, exclusionPatterns, dryRun, search, decode, run);
    var csvRecords: seq<Record> := [];
    ghost var expected: seq<Record> := [];
    for i := 0 to |repos|
      invariant Gather(contributions[..i]) == Done(expected)
      invariant multiset(csvRecords) == multiset(expected)
    {
      ghost var contributed := contributions[i];
      assert contributed == RepoRecords(repos[i].key, search(i), decode, exclusionPatterns, dryRun, RunOf(run, i));
      RepoRecordsCases(repos[i].key, search(i), decode, exclusionPatterns, dryRun, RunOf(run, i));
      GatherPrefix(contributions, i);
      var rawOutput := search(i);
      if rawOutput.None? || rawOutput.value == [] {
        assert expected + [] == expected;
        continue;
      }
      var artifacts := ParseArtifacts(decode(rawOutput.value));
      if !Truthy(artifacts) {
        assert expected + [] == expected;
        continue;
      }
      if !artifacts.JArr? {
        return Crashed;
      }
      var records := ProcessRepository(repos[i].key, artifacts.items, exclusionPatterns, dryRun, RunOf(run, i));
      if records.Crashed? {
        return Crashed;
      }
      csvRecords := csvRecords + records.value;
      expected := expected + contributed.value;
    }
    assert contributions[..|repos|] == contributions;
    return Done(Some(csvRecords));
  }

  /** The number of artifacts the search of each repository found. */
  function FoundArtifacts(repos: seq<Repository>, search: nat -> Option<string>, decode: string -> Decoded): (counts: seq<nat>)
    ensures |counts| == |repos|
    ensures forall i :: 0 <= i < |repos| ==>
              counts[i] == match SearchArtifacts(search(i), decode)
                           case Crashed => 0
                           case Done(artifacts) => |artifacts|
  {
    seq(|repos|, i requires 0 <= i < |repos| =>
      match SearchArtifacts(search(i), decode)
      case Crashed => 0
      case Done(artifacts) => |artifacts|)
  }

  /**
   * A run that completes reports exactly one record per artifact found:
   * a repository whose search failed, printed nothing or found nothing
   * contributes no record.
   */
  lemma OneRecordPerFoundArtifact(repos: seq<Repository>, patterns: seq<string>, dryRun: bool,
                                  search: nat -> Option<string>, decode: string -> Decoded,
                                  run: (nat, nat) -> ProcessResult)
    requires RunRecords(repos, patterns, dryRun, search, decode, run).Done?
    ensures |RunRecords(repos, patterns, dryRun, search, decode, run).value| == Sum(FoundArtifacts(repos, search, decode))
  {
    var cs := Contributions(repos, patterns, dryRun, search, decode, run);
    var counts := FoundArtifacts(repos, search, decode);
    forall i | 0 <= i < |repos| && cs[i].Done? ensures |cs[i].value| == counts[i] {
      var artifacts := SearchArtifacts(search(i), decode).value;
      RecordsFollowArtifacts(repos[i].key, artifacts, patterns, dryRun, RunOf(run, i));
    }
    GatherLength(cs, counts);
  }

  /** A failed or silent search contributes no record. */
  lemma FailedSearchContributesNothing(repos: seq<Repository>, i: nat, patterns: seq<string>, dryRun: bool,
                                       search: nat -> Option<string>, decode: string -> Decoded,
                                       run: (nat, nat) -> ProcessResult)
    requires i < |repos|
    requires search(i).None? || search(i) == Some([])
    ensures Contribution(repos, i, patterns, dryRun, search, decode, run) == Done([])
  {
  }

  /** A crash in any one repository ends the whole run without a report. */
  lemma CrashInOneRepositoryCrashesRun(repos: seq<Repository>, i: nat, patterns: seq<string>, dryRun: bool,
                                       search: nat -> Option<string>, decode: string -> Decoded,
                                       run: (nat, nat) -> ProcessResult)
    requires i < |repos|
    requires Contribution(repos, i, patterns, dryRun, search, decode, run).Crashed?
    ensures RunRecords(repos, patterns, dryRun, search, decode, run).Crashed?
  {
    assert Contributions(repos, patterns, dryRun, search, decode, run)[i].Crashed?;
  }

  /** Given the same search results and process outcomes, a dry run reports what a real run would. */
  lemma DryRunSameReport(repos: seq<Repository>, patterns: seq<string>,
                         search: nat -> Option<string>, decode: string -> Decoded,
                         run: (nat, nat) -> ProcessResult)
    ensures RunRecords(repos, patterns, true, search, decode, run)
            == RunRecords(repos, patterns, false, search, decode, run)
  {
    var dry := Contributions(repos, patterns, true, search, decode, run);
    var wet := Contributions(repos, patterns, false, search, decode, run);
    forall i | 0 <= i < |repos| ensures dry[i] == wet[i] {
      match SearchArtifacts(search(i), decode)
      case Crashed =>
      case Done(artifacts) =>
        if Steps(artifacts, patterns, true).Done? {
          DryRunSameRecords(repos[i].key, artifacts, patterns, RunOf(run, i));
        }
    }
    assert dry == wet;
  }
}
