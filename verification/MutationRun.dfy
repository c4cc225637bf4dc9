/** The mutation run: mutants are written over the target files one at a time, the suite is run on each, and
    the files are put back. */
module MutationRun {
  import opened Wrappers
  import opened Mutants

  /** A file's text: a module that parses, or one that does not. */
  datatype Text = Module(tree: Node) | Broken(raw: string)

  /** What one run of the suite would do if it were let run: its exit code, or an exception, and after how long. */
  datatype Outcome = Exit(code: int, took: nat) | Raises(took: nat)

  /** One run of the suite, as it happened: on which files, when the budget was last looked at, from when to when
      it ran, and whether it passed. */
  datatype Ran = Ran(files: map<string, Text>, checked: nat, began: nat, ended: nat, passed: bool)

  datatype Survivor = Survivor(file: string, mutant: Mutant)

  /** A mutant to run: of which target, at which path. */
  datatype Job = Job(rel: string, path: string, mutant: Mutant)

  datatype Report = Report(baselinePass: bool, total: nat, survivors: seq<Survivor>)

  /** `None` when the suite raised. */
  type Finished = Option<Report>

  /** The path a target names inside the repository, if it names a file there. */
  type Resolver = string -> Option<string>

  /** The files with one mutated. */
  predicate OneMutated(files: map<string, Text>, now: map<string, Text>, path: string, m: Mutant) {
    && path in files && files[path].Module?
    && now == files[path := Module(m.tree)]
    && m.tree != files[path].tree && SameBut(files[path].tree, m.tree, m.site.path)
  }

  /** The run was started with its timeout left in the budget, and was cut at its timeout. */
  predicate InTime(r: Ran, deadline: nat, timeout: nat) {
    r.checked + timeout <= deadline && r.checked <= r.began <= r.ended <= r.began + timeout
  }

  /** The runs after the baseline are each of one mutant, and in time. */
  predicate RunsOk(files: map<string, Text>, runs: seq<Ran>, jobs: seq<Job>, deadline: nat, timeout: nat) {
    && |runs| == |jobs|
    && forall k | 0 <= k < |runs| ::
         OneMutated(files, runs[k].files, jobs[k].path, jobs[k].mutant) && InTime(runs[k], deadline, timeout)
  }

  /** The mutants the suite passed on. */
  function Survived(runs: seq<Ran>, jobs: seq<Job>): seq<Survivor>
    requires |runs| == |jobs|
  {
    if runs == [] then []
    else
      var n := |runs| - 1;
      var init := Survived(runs[..n], jobs[..n]);
      if runs[n].passed then init + [Survivor(jobs[n].rel, jobs[n].mutant)] else init
  }

  lemma SurvivedMore(runs: seq<Ran>, jobs: seq<Job>, r: Ran, j: Job)
    requires |runs| == |jobs|
    ensures Survived(runs + [r], jobs + [j])
         == Survived(runs, jobs) + if r.passed then [Survivor(j.rel, j.mutant)] else []
  {
    var n := |runs|;
    assert (runs + [r])[..n] == runs && (jobs + [j])[..n] == jobs;
  }

  lemma RunsMore(files: map<string, Text>, runs: seq<Ran>, jobs: seq<Job>, deadline: nat, timeout: nat, r: Ran, j: Job)
    requires RunsOk(files, runs, jobs, deadline, timeout)
    requires OneMutated(files, r.files, j.path, j.mutant) && InTime(r, deadline, timeout)
    ensures RunsOk(files, runs + [r], jobs + [j], deadline, timeout)
  {
    hide OneMutated;
  }

  // ---------------------------------------------------------------- what there is to run

  /** The mutant of a site. */
  function MutantAt(t: Node, s: Site): Mutant {
    Mutant(s, if Within(t, s.path) && SiteKind(At(t, s.path)).Some? then Mutated(t, s.path) else t)
  }

  /** The mutants of a module: of the first sites on the wanted lines, up to the cap, which is at least one. */
  function MutantsFor(t: Node, lines: Option<set<int>>, cap: int): (r: seq<Mutant>)
    ensures |r| == Min(if cap < 1 then 1 else cap, |Wanted(Sites(t), lines)|)
  {
    var wanted := Wanted(Sites(t), lines);
    seq(Min(if cap < 1 then 1 else cap, |wanted|), (i: int) requires 0 <= i < |wanted| => MutantAt(t, wanted[i]))
  }

  lemma MadeAre(t: Node, lines: Option<set<int>>, cap: int, ms: seq<Mutant>)
    requires var wanted := Wanted(Sites(t), lines);
             AreMutants(t, ms, wanted[..Min(if cap < 1 then 1 else cap, |wanted|)])
    ensures ms == MutantsFor(t, lines, cap)
  {
    hide Within, At, SiteKind, Mutated, Sites, Wanted;
  }

  function JobsFor(rel: string, path: string, ms: seq<Mutant>): (r: seq<Job>)
    ensures |r| == |ms| && forall i | 0 <= i < |ms| :: r[i] == Job(rel, path, ms[i])
  {
    seq(|ms|, (i: int) requires 0 <= i < |ms| => Job(rel, path, ms[i]))
  }

  /** Which lines of a target are wanted: all, unless it has an entry. */
  function LinesOf(lines: map<string, set<int>>, rel: string): Option<set<int>> {
    if rel in lines then Some(lines[rel]) else None
  }

  /** The mutants of one target, none unless it names a module inside the repository. */
  function TargetJobs(files: map<string, Text>, rel: string, resolve: Resolver, lines: map<string, set<int>>, cap: int)
      : seq<Job> {
    var path := resolve(rel);
    if path.Some? && path.value in files && files[path.value].Module?
    then JobsFor(rel, path.value, MutantsFor(files[path.value].tree, LinesOf(lines, rel), cap)) else []
  }

  /** Every mutant there is to run, target by target. */
  function AllJobs(files: map<string, Text>, targets: seq<string>, resolve: Resolver, lines: map<string, set<int>>,
                   cap: int): seq<Job> {
    if targets == [] then []
    else
      var n := |targets| - 1;
      AllJobs(files, targets[..n], resolve, lines, cap) + TargetJobs(files, targets[n], resolve, lines, cap)
  }

  lemma JobsMore(files: map<string, Text>, targets: seq<string>, resolve: Resolver, lines: map<string, set<int>>,
                 cap: int, t: nat)
    requires t < |targets|
    ensures AllJobs(files, targets[..t + 1], resolve, lines, cap)
         == AllJobs(files, targets[..t], resolve, lines, cap) + TargetJobs(files, targets[t], resolve, lines, cap)
  {
    assert targets[..t + 1][..t] == targets[..t];
  }

  lemma NothingYet(files: map<string, Text>, targets: seq<string>, resolve: Resolver, lines: map<string, set<int>>,
                   cap: int)
    ensures AllJobs(files, targets[..0], resolve, lines, cap) == []
    ensures [] <= AllJobs(files, targets, resolve, lines, cap)
  {
  }

  lemma {:induction false} JobsPrefix(files: map<string, Text>, targets: seq<string>, resolve: Resolver,
                                      lines: map<string, set<int>>, cap: int, t: nat)
    requires t <= |targets|
    ensures AllJobs(files, targets[..t], resolve, lines, cap) <= AllJobs(files, targets, resolve, lines, cap)
    decreases |targets| - t
  {
    if t == |targets| {
      assert targets[..t] == targets;
    } else {
      JobsMore(files, targets, resolve, lines, cap, t);
      JobsPrefix(files, targets, resolve, lines, cap, t + 1);
    }
  }

  /** The mutants of a module: one for each of the first wanted sites, the tree mutated there; of all of them if the
      cap allows it, else of as many as the cap says, but of one at least. */
  lemma MutantsForAre(t: Node, lines: Option<set<int>>, cap: int)
    ensures var wanted, ms := Wanted(Sites(t), lines), MutantsFor(t, lines, cap);
            && |ms| == (if |wanted| <= 1 || |wanted| <= cap then |wanted| else if cap <= 1 then 1 else cap)
            && forall i | 0 <= i < |ms| ::
                 && Within(t, wanted[i].path) && SiteKind(At(t, wanted[i].path)).Some?
                 && ms[i] == Mutant(wanted[i], Mutated(t, wanted[i].path))
  {
    hide Within, At, SiteKind, Mutated, Sites, Wanted;
    var wanted := Wanted(Sites(t), lines);
    WantedFrom(Sites(t), lines);
    SitesInTree(t);
    forall i | 0 <= i < |wanted| ensures Within(t, wanted[i].path) && SiteKind(At(t, wanted[i].path)).Some? {
      assert wanted[i] in wanted;
    }
  }

  lemma JobsOfTarget(files: map<string, Text>, rel: string, resolve: Resolver, lines: map<string, set<int>>, cap: int)
    ensures AreJobs(files, rel, resolve(rel), lines, cap, TargetJobs(files, rel, resolve, lines, cap))
    ensures var path := resolve(rel);
            TargetJobs(files, rel, resolve, lines, cap) ==
            if path.Some? && path.value in files && files[path.value].Module?
            then JobsFor(rel, path.value, MutantsFor(files[path.value].tree, LinesOf(lines, rel), cap)) else []
  {
  }

  /** What there is to run, target by target: nothing for a target that names no module inside the repository, else
      the module's mutants in order. */
  lemma JobsInOrder(files: map<string, Text>, targets: seq<string>, resolve: Resolver, lines: map<string, set<int>>,
                    cap: int, t: nat)
    requires t < |targets|
    ensures AllJobs(files, targets[..0], resolve, lines, cap) == []
    ensures AllJobs(files, targets[..t], resolve, lines, cap) <= AllJobs(files, targets[..t + 1], resolve, lines, cap)
    ensures AllJobs(files, targets[..t + 1], resolve, lines, cap) <= AllJobs(files, targets, resolve, lines, cap)
    ensures var jobs := AllJobs(files, targets[..t + 1], resolve, lines, cap)
                          [|AllJobs(files, targets[..t], resolve, lines, cap)|..];
            AreJobs(files, targets[t], resolve(targets[t]), lines, cap, jobs)
  {
    hide AllJobs, TargetJobs, AreJobs;
    NothingYet(files, targets, resolve, lines, cap);
    JobsMore(files, targets, resolve, lines, cap, t);
    JobsPrefix(files, targets, resolve, lines, cap, t + 1);
    JobsOfTarget(files, targets[t], resolve, lines, cap);
  }

  /** These are the jobs of one target. */
  predicate AreJobs(files: map<string, Text>, rel: string, path: Option<string>, lines: map<string, set<int>>,
                    cap: int, jobs: seq<Job>) {
    if path.None? || path.value !in files || files[path.value].Broken? then jobs == []
    else
      var ms := MutantsFor(files[path.value].tree, if rel in lines then Some(lines[rel]) else None, cap);
      |jobs| == |ms| && forall i | 0 <= i < |ms| :: jobs[i] == Job(rel, path.value, ms[i])
  }

  lemma NextJob(all: seq<Job>, before: seq<Job>, jobs: seq<Job>, i: nat)
    requires i < |all| && jobs == before + all[..i]
    ensures jobs + [all[i]] == before + all[..i + 1]
  {
  }

  lemma SomeJobs(all: seq<Job>, before: seq<Job>, jobs: seq<Job>, i: nat)
    requires i <= |all| && jobs == before + all[..i]
    ensures jobs <= before + all && (i == |all| ==> jobs == before + all)
  {
  }

  lemma Restored(original: map<string, Text>, files: map<string, Text>, path: string)
    requires path in original && path in files && files == original[path := files[path]]
    ensures files[path := original[path]] == original
  {
  }

  class Runner {
    const suite: nat -> Outcome         // the n-th run of the suite
    const lag: nat -> nat               // how long the n-th writing of a file takes
    var files: map<string, Text>
    var clock: nat
    ghost var runs: seq<Ran>
    var writes: nat                     // how often a file was written
    ghost var jobs: seq<Job>            // the mutants of the runs after the baseline
    var done: nat                       // how often the suite was run

    constructor (theSuite: nat -> Outcome, theLag: nat -> nat, theFiles: map<string, Text>, now: nat)
      ensures suite == theSuite && lag == theLag && files == theFiles
                && clock == now && runs == [] && writes == 0 && done == 0
      ensures jobs == []
    {
      suite, lag, files, clock, done := theSuite, theLag, theFiles, now, 0;
      runs, writes, jobs := [], 0, [];
    }

    /** `_run_pytest`: a run that is not over at its timeout is cut there and does not count as passing. */
    method RunSuite(timeout: nat, ghost checked: nat) returns (code: Option<int>)
      modifies `clock, `runs, `done
      ensures done == old(done) + 1
      ensures var o := suite(old(done));
              && clock == old(clock) + Min(o.took, timeout)
              && code == (if o.took > timeout then Some(1) else
                           match o case Exit(c, _) => Some(c) case Raises(_) => None)
      ensures runs == old(runs) + [Ran(files, checked, old(clock), clock, code == Some(0))]
      ensures code.None? <==> LastRaised(timeout)
    {
      var o := suite(done);
      ghost var began := clock;
      clock, done := clock + Min(o.took, timeout), done + 1;
      code := if o.took > timeout then Some(1) else match o case Exit(c, _) => Some(c) case Raises(_) => None;
      runs := runs + [Ran(files, checked, began, clock, code == Some(0))];
    }

    method Write(path: string, text: Text)
      modifies `files, `writes, `clock
      ensures files == old(files)[path := text] && writes == old(writes) + 1 && clock == old(clock) + lag(old(writes))
    {
      files := files[path := text];
      clock, writes := clock + lag(writes), writes + 1;
    }

    /** The last run of the suite raised before its timeout. */
    predicate LastRaised(timeout: nat)
      reads `done
    {
      done > 0 && suite(done - 1).Raises? && suite(done - 1).took <= timeout
    }

    /** The runs so far, the baseline first, and what they have shown. */
    ghost predicate Tally(original: map<string, Text>, deadline: nat, timeout: nat, survivors: seq<Survivor>,
                          total: nat)
      reads `runs, `jobs
    {
      && |runs| == total + 1 && |jobs| == total
      && RunsOk(original, runs[1..], jobs, deadline, timeout)
      && survivors == Survived(runs[1..], jobs)
    }

    /** `run_mutation`. However it ends, every file has its text back. A suite that does not pass unmutated is
        reported and no file is written. Else the mutants of the targets are run one after the other, each on exactly
        one file with exactly one mutation, started with its timeout left in the budget and cut at it; all of them,
        unless the suite raised or the budget does not leave another timeout. The survivors are exactly the mutants it
        passed on. */
    method RunMutation(targets: seq<string>, resolve: Resolver, lines: map<string, set<int>>, cap: int,
                       timeout: nat, budget: nat) returns (r: Finished)
      requires runs == [] && jobs == []
      requires forall t :: resolve(t).Some? ==> resolve(t).value in files
      modifies this
      ensures files == old(files)
      ensures |runs| >= 1 && runs[0].files == old(files)
      ensures runs[0].began == old(clock) && runs[0].ended <= old(clock) + timeout
      ensures r.None? <==> LastRaised(timeout)
      ensures r.Some? && !r.value.baselinePass ==>
                |runs| == 1 && !runs[0].passed && writes == old(writes) && r.value.total == 0
      ensures r.Some? && r.value.baselinePass ==>
                && runs[0].passed && r.value.total == |runs| - 1 == |jobs|
                && r.value.survivors == Survived(runs[1..], jobs)
      ensures !runs[0].passed ==> writes == old(writes)
      ensures RunsOk(old(files), runs[1..], jobs, old(clock) + budget, timeout)
      ensures jobs <= AllJobs(old(files), targets, resolve, lines, cap)
      ensures r.Some? && r.value.baselinePass && jobs != AllJobs(old(files), targets, resolve, lines, cap) ==>
                clock + timeout > old(clock) + budget
    {
      hide RunsOk, Survived, OneMutated, AllJobs, TargetJobs, JobsFor, MutantsFor, LinesOf, LastRaised;
      ghost var original := files;
      var deadline := clock + budget;
      var baseline := RunSuite(timeout, clock);
      NoRuns(original, runs[1..], deadline, timeout);
      if baseline.None? { return None; }
      if baseline.value != 0 { return Some(Report(false, 0, [])); }
      var survivors, total := [], 0;
      var t := 0;
      NothingYet(original, targets, resolve, lines, cap);
      while t < |targets|
        invariant t <= |targets| && files == original && Tally(original, deadline, timeout, survivors, total)
        invariant runs[0].passed && runs[0].files == original && !LastRaised(timeout)
        invariant runs[0].began == old(clock) && runs[0].ended <= old(clock) + timeout
        invariant jobs == AllJobs(original, targets[..t], resolve, lines, cap)
      {
        JobsMore(original, targets, resolve, lines, cap, t);
        JobsPrefix(original, targets, resolve, lines, cap, t + 1);
        JobsOfTarget(original, targets[t], resolve, lines, cap);
        var path := resolve(targets[t]);
        if path.Some? && files[path.value].Module? {
          var ok, more, n := RunTarget(targets[t], path.value, LinesOf(lines, targets[t]), cap, timeout, deadline,
                                       survivors, total, original);
          if !ok { return None; }
          survivors, total := more, n;
          if clock + timeout > deadline { break; }
        }
        t := t + 1;
      }
      if t == |targets| {
        assert targets[..t] == targets;
      }
      return Some(Report(true, total, survivors));
    }

    /** One mutant, written over its file and run on. */
    method RunMutant(rel: string, path: string, m: Mutant, timeout: nat, deadline: nat, soFar: seq<Survivor>,
                     count: nat, ghost original: map<string, Text>)
        returns (ok: bool, survivors: seq<Survivor>, total: nat)
      requires path in original && original[path].Module? && path in files && files == original[path := files[path]]
      requires m.tree != original[path].tree && SameBut(original[path].tree, m.tree, m.site.path)
      requires clock + timeout <= deadline && Tally(original, deadline, timeout, soFar, count)
      modifies this
      ensures files == original[path := Module(m.tree)] && |runs| >= 1 && runs[0] == old(runs)[0]
      ensures jobs == old(jobs) + [Job(rel, path, m)] && (!ok <==> LastRaised(timeout))
      ensures ok ==> Tally(original, deadline, timeout, survivors, total)
      ensures RunsOk(original, runs[1..], jobs, deadline, timeout)
    {
      hide RunsOk, Survived, OneMutated, SameBut, LastRaised;
      ghost var before, checked := runs, clock;
      Write(path, Module(m.tree));
      var code := RunSuite(timeout, checked);
      ghost var last, job := runs[|runs| - 1], Job(rel, path, m);
      assert runs[1..] == before[1..] + [last];
      IsMutated(original, last.files, path, m);
      RunsMore(original, before[1..], jobs, deadline, timeout, last, job);
      SurvivedMore(before[1..], jobs, last, job);
      jobs, total := jobs + [job], count + 1;
      ok, survivors := code.Some?, if code == Some(0) then soFar + [Survivor(rel, m)] else soFar;
    }

    /** One target: its mutants, while there is time, and then its text again. */
    method RunTarget(rel: string, path: string, lines: Option<set<int>>, cap: int, timeout: nat, deadline: nat,
                     soFar: seq<Survivor>, count: nat, ghost original: map<string, Text>)
        returns (ok: bool, survivors: seq<Survivor>, total: nat)
      requires files == original && path in files && files[path].Module? && !LastRaised(timeout)
      requires Tally(original, deadline, timeout, soFar, count)
      modifies this
      ensures files == original && |runs| >= 1 && runs[0] == old(runs)[0]
      ensures !ok <==> LastRaised(timeout)
      ensures ok ==> Tally(original, deadline, timeout, survivors, total)
      ensures RunsOk(original, runs[1..], jobs, deadline, timeout)
      ensures jobs <= old(jobs) + JobsFor(rel, path, MutantsFor(original[path].tree, lines, cap))
      ensures ok && jobs != old(jobs) + JobsFor(rel, path, MutantsFor(original[path].tree, lines, cap)) ==>
                clock + timeout > deadline
    {
      hide RunsOk, Survived, OneMutated, AreMutants, Wanted, Sites, SameBut, MutantsFor, JobsFor, LastRaised,
           MutantAt, Within, At, SiteKind, Mutated;
      var text := files[path];
      var mutants := GenerateMutants(text.tree, lines, cap);
      MutantsAreSingle(text.tree, lines, mutants, Min(if cap < 1 then 1 else cap, |Wanted(Sites(text.tree), lines)|));
      MadeAre(text.tree, lines, cap, mutants);
      survivors, total, ok := soFar, count, true;
      ghost var began, all := runs[0], JobsFor(rel, path, mutants);
      var i := 0;
      while i < |mutants|
        invariant i <= |mutants| && path in files && files == original[path := files[path]]
        invariant |runs| >= 1 && runs[0] == began && Tally(original, deadline, timeout, survivors, total)
        invariant jobs == old(jobs) + all[..i] && !LastRaised(timeout)
      {
        if clock + timeout > deadline { break; }
        var m := mutants[i];
        assert m in mutants;
        NextJob(all, old(jobs), jobs, i);
        ok, survivors, total := RunMutant(rel, path, m, timeout, deadline, survivors, total, original);
        i := i + 1;
        if !ok { break; }
      }
      Restored(original, files, path);
      Write(path, text);
      SomeJobs(all, old(jobs), jobs, i);
    }
  }

  lemma NoRuns(files: map<string, Text>, runs: seq<Ran>, deadline: nat, timeout: nat)
    requires runs == []
    ensures RunsOk(files, runs, [], deadline, timeout) && Survived(runs, []) == []
  {
  }

  lemma IsMutated(files: map<string, Text>, now: map<string, Text>, path: string, m: Mutant)
    requires path in files && files[path].Module? && now == files[path := Module(m.tree)]
    requires m.tree != files[path].tree && SameBut(files[path].tree, m.tree, m.site.path)
    ensures OneMutated(files, now, path, m)
  {
  }

  /** When the timeout fits the budget, every run ends within the budget from when the whole began, but for the
      time it took to write the mutant after the budget was looked at. */
  lemma EndsInTime(files: map<string, Text>, runs: seq<Ran>, jobs: seq<Job>, start: nat, budget: nat, timeout: nat)
    requires runs != [] && runs[0].began == start && runs[0].ended <= start + timeout && timeout <= budget
    requires RunsOk(files, runs[1..], jobs, start + budget, timeout)
    ensures runs[0].ended <= start + budget
    ensures forall r | r in runs[1..] :: r.ended <= start + budget + (r.began - r.checked)
  {
    forall r | r in runs[1..] ensures r.ended <= start + budget + (r.began - r.checked) {
      var k :| 0 <= k < |runs[1..]| && runs[1..][k] == r;
      assert OneMutated(files, runs[1..][k].files, jobs[k].path, jobs[k].mutant);
    }
  }
}
