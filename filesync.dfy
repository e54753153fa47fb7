/**
 * The "write only if changed" rule shared by the three generators: a target
 * file is replaced when it is missing or when its content differs from the
 * freshly generated content, and is left alone (timestamps and all)
 * otherwise. The file system is a map from paths to contents.
 */
module FileSync {
  import opened Wrappers

  /** A file path as the list of its components, directories first. */
  type Path = seq<string>

  /** `Path.parent`: the directory that holds `p`. */
  function Parent(p: Path): Path
  {
    if |p| == 0 then [] else p[..|p| - 1]
  }

  /**
   * What a run over several targets leaves behind: the files, the targets
   * replaced in order, and whether the run finished (`false` when an
   * exception ended it; the targets replaced before that stay replaced).
   */
  datatype Outcome = Outcome(files: map<Path, string>, written: seq<Path>, ok: bool)

  /** `not target.exists() or not filecmp.cmp(generated, target, shallow=False)`. */
  predicate ShouldReplace(files: map<Path, string>, path: Path, content: string)
  {
    path !in files || files[path] != content
  }

  /** The targets that a sync of `generated` into `files` replaces. */
  function Changed(files: map<Path, string>, generated: map<Path, string>): set<Path>
  {
    set p | p in generated && ShouldReplace(files, p, generated[p])
  }

  /** The generated files whose targets lie in `done`. */
  function Restrict(generated: map<Path, string>, done: set<Path>): map<Path, string>
  {
    map p | p in generated.Keys * done :: generated[p]
  }

  /** The targets in `done` that a sync of `generated` into `files` replaces. */
  function ChangedAmong(files: map<Path, string>, generated: map<Path, string>, done: set<Path>): set<Path>
  {
    set p | p in generated.Keys * done && ShouldReplace(files, p, generated[p])
  }

  /** Syncing one more generated file extends both the tree and the changed set by it alone. */
  lemma SyncStep(files: map<Path, string>, generated: map<Path, string>, done: set<Path>, p: Path)
    requires p in generated && p !in done
    ensures (files + Restrict(generated, done))[p := generated[p]] == files + Restrict(generated, done + {p})
    ensures ChangedAmong(files, generated, done + {p})
            == ChangedAmong(files, generated, done) + (if ShouldReplace(files, p, generated[p]) then {p} else {})
    ensures ShouldReplace(files + Restrict(generated, done), p, generated[p]) == ShouldReplace(files, p, generated[p])
  {
  }

  /** Syncing the same generated files a second time replaces nothing. */
  lemma SyncSettles(files: map<Path, string>, generated: map<Path, string>)
    ensures Changed(files + generated, generated) == {}
  {
    forall p | p in generated
      ensures !ShouldReplace(files + generated, p, generated[p])
    {
    }
  }

  /** One generated file: its target and its content, or None when generating it raised. */
  datatype Job = Job(path: Path, content: Option<string>)

  /**
   * Each job in order replaces its target if different; the first job that
   * raised ends the run, and the targets replaced before it stay replaced.
   */
  function ReplaceEach(files: map<Path, string>, jobs: seq<Job>): (r: Outcome)
    ensures files.Keys <= r.files.Keys
    decreases |jobs|
  {
    if |jobs| == 0 then Outcome(files, [], true)
    else
      match jobs[0].content
      case None => Outcome(files, [], false)
      case Some(text) =>
        var p := jobs[0].path;
        var rest := ReplaceEach(files[p := text], jobs[1..]);
        Outcome(rest.files, (if ShouldReplace(files, p, text) then [p] else []) + rest.written, rest.ok)
  }

  /**
   * The state of a loop over jobs: finishing the run over `jobs` from
   * `files`, after `written`, gives `whole`.
   */
  ghost predicate Resumes(whole: Outcome, files: map<Path, string>, jobs: seq<Job>, written: seq<Path>)
  {
    var r := ReplaceEach(files, jobs);
    whole == Outcome(r.files, written + r.written, r.ok)
  }

  /** Before the first job nothing is written. */
  lemma ResumeStart(files: map<Path, string>, jobs: seq<Job>)
    ensures Resumes(ReplaceEach(files, jobs), files, jobs[0..], [])
  {
    assert jobs[0..] == jobs;
    assert [] + ReplaceEach(files, jobs).written == ReplaceEach(files, jobs).written;
  }

  /** A job with content moves the loop state past it. */
  lemma ResumeNext(whole: Outcome, files: map<Path, string>, jobs: seq<Job>, k: nat, written: seq<Path>)
    requires k < |jobs| && jobs[k].content.Some?
    requires Resumes(whole, files, jobs[k..], written)
    ensures var p := jobs[k].path;
            var text := jobs[k].content.value;
            Resumes(whole, files[p := text], jobs[k + 1..],
                    written + (if ShouldReplace(files, p, text) then [p] else []))
  {
    assert jobs[k..][0] == jobs[k] && jobs[k..][1..] == jobs[k + 1..];
    var p := jobs[k].path;
    var text := jobs[k].content.value;
    var step := if ShouldReplace(files, p, text) then [p] else [];
    var rest := ReplaceEach(files[p := text], jobs[k + 1..]).written;
    assert written + (step + rest) == written + step + rest;
  }

  /** A job that raised ends the run there. */
  lemma ResumeStop(whole: Outcome, files: map<Path, string>, jobs: seq<Job>, k: nat, written: seq<Path>)
    requires k < |jobs| && jobs[k].content.None?
    requires Resumes(whole, files, jobs[k..], written)
    ensures whole == Outcome(files, written, false)
  {
    assert jobs[k..][0] == jobs[k];
    assert written + [] == written;
  }

  /** With no jobs left the run is complete. */
  lemma ResumeDone(whole: Outcome, files: map<Path, string>, jobs: seq<Job>, written: seq<Path>)
    requires Resumes(whole, files, jobs[|jobs|..], written)
    ensures whole == Outcome(files, written, true)
  {
    assert jobs[|jobs|..] == [];
    assert written + [] == written;
  }

  /** No target is listed twice. */
  ghost predicate DistinctTargets(jobs: seq<Job>)
  {
    forall i, j :: 0 <= i < j < |jobs| ==> jobs[i].path != jobs[j].path
  }

  /** A run completes exactly when no job raised. */
  lemma {:induction false} ReplaceEachOk(files: map<Path, string>, jobs: seq<Job>)
    ensures ReplaceEach(files, jobs).ok <==> forall k :: 0 <= k < |jobs| ==> jobs[k].content.Some?
    decreases |jobs|
  {
    if |jobs| > 0 && jobs[0].content.Some? {
      var p := jobs[0].path;
      ReplaceEachOk(files[p := jobs[0].content.value], jobs[1..]);
      assert forall k :: 1 <= k < |jobs| ==> jobs[k] == jobs[1..][k - 1];
    }
  }

  /** A run leaves every file that is not one of its targets as it was. */
  lemma {:induction false} ReplaceEachFrame(files: map<Path, string>, jobs: seq<Job>, q: Path)
    requires forall k :: 0 <= k < |jobs| ==> jobs[k].path != q
    requires q in files
    ensures ReplaceEach(files, jobs).files[q] == files[q]
    decreases |jobs|
  {
    if |jobs| > 0 && jobs[0].content.Some? {
      ReplaceEachFrame(files[jobs[0].path := jobs[0].content.value], jobs[1..], q);
    }
  }

  /**
   * After a complete run over distinct targets every target holds its
   * job's content, and a target is reported exactly when it was missing or
   * held different content before the run.
   */
  lemma {:induction false} ReplaceEachResult(files: map<Path, string>, jobs: seq<Job>)
    requires DistinctTargets(jobs) && ReplaceEach(files, jobs).ok
    ensures var r := ReplaceEach(files, jobs);
            forall k :: 0 <= k < |jobs| ==>
              && jobs[k].content.Some?
              && jobs[k].path in r.files
              && r.files[jobs[k].path] == jobs[k].content.value
              && (jobs[k].path in r.written <==> ShouldReplace(files, jobs[k].path, jobs[k].content.value))
    decreases |jobs|
  {
    if |jobs| > 0 {
      var p := jobs[0].path;
      var text := jobs[0].content.value;
      var tail := jobs[1..];
      var r := ReplaceEach(files, jobs);
      var rest := ReplaceEach(files[p := text], tail);
      assert r == Outcome(rest.files, (if ShouldReplace(files, p, text) then [p] else []) + rest.written, rest.ok);
      assert forall k :: 1 <= k < |jobs| ==> jobs[k] == tail[k - 1];
      ReplaceEachResult(files[p := text], tail);
      ReplaceEachFrame(files[p := text], tail, p);
      assert forall q :: q in rest.written ==> exists k :: 0 <= k < |tail| && tail[k].path == q by {
        WrittenTargets(files[p := text], tail);
      }
    }
  }

  /** Every reported target is one of the jobs' targets. */
  lemma {:induction false} WrittenTargets(files: map<Path, string>, jobs: seq<Job>)
    ensures forall q :: q in ReplaceEach(files, jobs).written ==> exists k :: 0 <= k < |jobs| && jobs[k].path == q
    decreases |jobs|
  {
    if |jobs| > 0 && jobs[0].content.Some? {
      var tail := jobs[1..];
      WrittenTargets(files[jobs[0].path := jobs[0].content.value], tail);
      assert forall k :: 0 <= k < |tail| ==> tail[k] == jobs[k + 1];
    }
  }

  /** Running the same jobs twice over distinct targets: the second run writes nothing. */
  lemma ReplaceEachTwice(files: map<Path, string>, jobs: seq<Job>)
    requires DistinctTargets(jobs) && ReplaceEach(files, jobs).ok
    ensures var after := ReplaceEach(files, jobs).files;
            ReplaceEach(after, jobs) == Outcome(after, [], true)
  {
    ReplaceEachResult(files, jobs);
    QuietJobs(ReplaceEach(files, jobs).files, jobs);
  }

  /** Jobs whose targets already hold their content write nothing. */
  lemma {:induction false} QuietJobs(files: map<Path, string>, jobs: seq<Job>)
    requires forall k :: 0 <= k < |jobs| ==>
               jobs[k].content.Some? && jobs[k].path in files && files[jobs[k].path] == jobs[k].content.value
    ensures ReplaceEach(files, jobs) == Outcome(files, [], true)
    decreases |jobs|
  {
    if |jobs| > 0 {
      assert files[jobs[0].path := jobs[0].content.value] == files;
      assert forall k :: 1 <= k < |jobs| ==> jobs[k] == jobs[1..][k - 1];
      QuietJobs(files, jobs[1..]);
    }
  }

  /** A directory tree: the files under it, by path. */
  class FileStore {
    var files: map<Path, string>

    constructor (initial: map<Path, string>)
      ensures files == initial
    {
      files := initial;
    }

    /** `open(path, 'w')` and write `content`: the file is (re)created unconditionally. */
    method Write(path: Path, content: string)
      modifies this
      ensures files == old(files)[path := content]
    {
      files := files[path := content];
    }

    /**
     * Moves freshly generated `content` to `path` only when the target is
     * missing or differs; reports whether it did.
     */
    method ReplaceIfDifferent(path: Path, content: string) returns (replaced: bool)
      modifies this
      ensures replaced == ShouldReplace(old(files), path, content)
      ensures files == old(files)[path := content]
      ensures !replaced ==> files == old(files)
    {
      replaced := ShouldReplace(files, path, content);
      if replaced {
        files := files[path := content];
      }
    }

    /**
     * One step of a loop over `jobs`: the `k`th job, writing `text` at
     * `path`, replaces its file if different and records it if it did.
     */
    method Perform(ghost jobs: seq<Job>, k: nat, path: Path, text: string, ghost whole: Outcome,
                   written: seq<Path>) returns (now: seq<Path>)
      requires k < |jobs| && jobs[k] == Job(path, Some(text))
      requires Resumes(whole, files, jobs[k..], written)
      modifies this
      ensures Resumes(whole, files, jobs[k + 1..], now)
      ensures files == old(files)[path := text]
    {
      ResumeNext(whole, files, jobs, k, written);
      var replaced := ReplaceIfDifferent(path, text);
      now := written + (if replaced then [path] else []);
    }

    /**
     * The walk over a scratch tree: every generated file is replaced into
     * this tree if different; the set of replaced paths is reported.
     */
    method SyncFrom(generated: map<Path, string>) returns (changed: set<Path>)
      modifies this
      ensures files == old(files) + generated
      ensures changed == Changed(old(files), generated)
    {
      ghost var initial := files;
      var pending := generated.Keys;
      ghost var done: set<Path> := {};
      changed := {};
      assert files + Restrict(generated, done) == files;
      while pending != {}
        invariant pending == generated.Keys - done && done <= generated.Keys
        invariant files == initial + Restrict(generated, done)
        invariant changed == ChangedAmong(initial, generated, done)
        decreases pending
      {
        var p :| p in pending;
        SyncStep(initial, generated, done, p);
        var replaced := ReplaceIfDifferent(p, generated[p]);
        if replaced {
          changed := changed + {p};
        } else {
          assert changed + {} == changed;
        }
        pending := pending - {p};
        done := done + {p};
      }
      assert Restrict(generated, done) == generated;
      assert ChangedAmong(initial, generated, done) == Changed(initial, generated);
    }
  }
}
