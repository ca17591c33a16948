/**
 * A conversion run over the folders the walk visits: each folder is
 * processed in turn, recoverable failures are logged and skipped, and an
 * uncaught failure ends the run.
 */
module Run {
  import opened Errors
  import opened Settings
  import Spectra
  import Artifacts
  import Pipeline
  import opened Traversal

  /** What the run is given from outside: the OPUS file test and the file decoder. */
  datatype Env<V> = Env(isOpus: string -> bool, decode: Spectra.Decoder<V>)

  /** Whether the run is still going or an uncaught failure ended it. */
  datatype Status = Running | Aborted(failure: Failure)

  /** One logged folder: its path, its output base name and how it ended. */
  datatype Event = Event(path: string, base: string, outcome: Pipeline.Outcome)

  /** The files present in the output locations, the folder log and the run status. */
  datatype RunState = RunState(existing: set<string>, log: seq<Event>, status: Status)

  /** Convert one visited folder: an uncaught failure stops the run, anything else is logged. */
  function Step<V(==)>(cfg: Config, env: Env<V>, st: RunState, v: Visit): (r: RunState)
    ensures st.status.Aborted? ==> r == st
    ensures st.existing <= r.existing && |st.log| <= |r.log| && r.log[..|st.log|] == st.log
  {
    if st.status.Aborted? then st
    else
      var base := OutputBase(cfg, v);
      var o := Pipeline.ProcessFolder(cfg, env.decode, v.files, base, st.existing);
      if o.Crashed? then st.(status := Aborted(o.failure))
      else RunState(st.existing + Pipeline.Writes(o), st.log + [Event(v.path, base, o)], Running)
  }

  /** Apply `step` to the visited folders in order. */
  function Fold(step: (RunState, Visit) -> RunState, st: RunState, vs: seq<Visit>): RunState
    decreases |vs|
  {
    if |vs| == 0 then st else Fold(step, step(st, vs[0]), vs[1..])
  }

  /** True when `step` leaves a stopped run alone, as a raised exception skips all later folders. */
  ghost predicate KeepsStopped(step: (RunState, Visit) -> RunState)
  {
    forall s: RunState, v: Visit :: s.status.Aborted? ==> step(s, v) == s
  }

  /** Folding over `a + b` is folding over `a`, then over `b`. */
  lemma {:induction false} FoldConcat(step: (RunState, Visit) -> RunState, st: RunState, a: seq<Visit>, b: seq<Visit>)
    ensures Fold(step, st, a + b) == Fold(step, Fold(step, st, a), b)
    decreases |a|
  {
    if |a| > 0 {
      assert (a + b)[0] == a[0];
      assert (a + b)[1..] == a[1..] + b;
      FoldConcat(step, step(st, a[0]), a[1..], b);
    } else {
      assert a + b == b;
    }
  }

  /** A stopped run stays stopped: nothing after an uncaught failure happens. */
  lemma {:induction false} FoldStopped(step: (RunState, Visit) -> RunState, st: RunState, vs: seq<Visit>)
    requires KeepsStopped(step) && st.status.Aborted?
    ensures Fold(step, st, vs) == st
    decreases |vs|
  {
    if |vs| > 0 {
      FoldStopped(step, step(st, vs[0]), vs[1..]);
    }
  }

  /** The converter's processing of one folder, as a step of the walk. */
  function Processing<V(==)>(cfg: Config, env: Env<V>): (step: (RunState, Visit) -> RunState)
    ensures KeepsStopped(step)
  {
    (s: RunState, v: Visit) => Step(cfg, env, s, v)
  }

  /** Convert the visited folders in order. */
  function RunFrom<V(==)>(cfg: Config, env: Env<V>, st: RunState, vs: seq<Visit>): RunState
  {
    Fold(Processing(cfg, env), st, vs)
  }

  /** Running the folders is one step on the first, then running the rest. */
  lemma RunFromUnfold<V>(cfg: Config, env: Env<V>, st: RunState, vs: seq<Visit>)
    requires |vs| > 0
    ensures RunFrom(cfg, env, st, vs) == RunFrom(cfg, env, Step(cfg, env, st, vs[0]), vs[1..])
  {
  }

  /** A stopped run stays stopped: nothing after an uncaught failure happens. */
  lemma RunFromAborted<V>(cfg: Config, env: Env<V>, st: RunState, vs: seq<Visit>)
    requires st.status.Aborted?
    ensures RunFrom(cfg, env, st, vs) == st
  {
    FoldStopped(Processing(cfg, env), st, vs);
  }

  /** Running the visits only adds files and log entries. */
  lemma {:induction false} RunFromGrows<V>(cfg: Config, env: Env<V>, st: RunState, vs: seq<Visit>)
    ensures var r := RunFrom(cfg, env, st, vs);
      st.existing <= r.existing && |st.log| <= |r.log| && r.log[..|st.log|] == st.log
    decreases |vs|
  {
    if |vs| > 0 {
      var t := Step(cfg, env, st, vs[0]);
      RunFromUnfold(cfg, env, st, vs);
      RunFromGrows(cfg, env, t, vs[1..]);
      var r := RunFrom(cfg, env, st, vs);
      assert r.log[..|st.log|] == r.log[..|t.log|][..|st.log|];
    }
  }

  /**
   * True when `step`, applied to a running state and any of `vs`, keeps the
   * run going and appends one entry naming that folder and its output base.
   */
  ghost predicate LogsEach(step: (RunState, Visit) -> RunState, cfg: Config, vs: seq<Visit>)
  {
    forall s: RunState, k :: 0 <= k < |vs| && s.status.Running? ==>
      var t := step(s, vs[k]);
      && t.status.Running? && |t.log| == |s.log| + 1 && t.log[..|s.log|] == s.log
      && t.log[|s.log|].path == vs[k].path && t.log[|s.log|].base == OutputBase(cfg, vs[k])
  }

  /** A step that logs every folder keeps a fold going and logs the folders in order. */
  lemma {:induction false} FoldLogsEach(step: (RunState, Visit) -> RunState, cfg: Config, st: RunState, vs: seq<Visit>)
    requires st.status.Running? && LogsEach(step, cfg, vs)
    ensures var r := Fold(step, st, vs);
      && r.status.Running? && |r.log| == |st.log| + |vs| && r.log[..|st.log|] == st.log
      && forall k :: 0 <= k < |vs| ==>
           r.log[|st.log| + k].path == vs[k].path && r.log[|st.log| + k].base == OutputBase(cfg, vs[k])
    decreases |vs|
  {
    if |vs| > 0 {
      var t := step(st, vs[0]);
      assert forall k :: 0 <= k < |vs| - 1 ==> vs[1..][k] == vs[k + 1];
      FoldLogsEach(step, cfg, t, vs[1..]);
      var r := Fold(step, st, vs);
      assert r == Fold(step, t, vs[1..]);
      assert r.log[..|st.log|] == r.log[..|t.log|][..|st.log|];
      forall k | 0 <= k < |vs|
        ensures r.log[|st.log| + k].path == vs[k].path && r.log[|st.log| + k].base == OutputBase(cfg, vs[k])
      {
        if k == 0 {
          assert r.log[|st.log|] == r.log[..|t.log|][|st.log|];
        } else {
          assert vs[k] == vs[1..][k - 1];
        }
      }
    }
  }

  /**
   * Failure isolation: a run in which no folder hits an uncaught failure
   * reaches the end and logs exactly one outcome per converted folder, in
   * order, each naming its folder and output base.
   */
  lemma NoCrashLogsEveryFolder<V>(cfg: Config, env: Env<V>, st: RunState, vs: seq<Visit>)
    requires st.status.Running?
    requires forall k :: 0 <= k < |vs| ==>
      var l := Pipeline.LoadAndProcess(cfg, env.decode, vs[k].files);
      l.Ok? || Recoverable(l.error)
    ensures RunFrom(cfg, env, st, vs).status.Running?
    ensures |RunFrom(cfg, env, st, vs).log| == |st.log| + |vs|
    ensures forall k :: 0 <= k < |vs| ==>
      var e := RunFrom(cfg, env, st, vs).log[|st.log| + k];
      e.path == vs[k].path && e.base == OutputBase(cfg, vs[k])
  {
    var step := Processing(cfg, env);
    forall s: RunState, k | 0 <= k < |vs| && s.status.Running?
      ensures var t := step(s, vs[k]);
        && t.status.Running? && |t.log| == |s.log| + 1 && t.log[..|s.log|] == s.log
        && t.log[|s.log|].path == vs[k].path && t.log[|s.log|].base == OutputBase(cfg, vs[k])
    {
      StepWithoutCrash(cfg, env, s, vs[k]);
    }
    FoldLogsEach(step, cfg, st, vs);
  }

  /** A folder that loads or fails only with a caught assertion keeps the run going and logs one entry. */
  lemma StepWithoutCrash<V>(cfg: Config, env: Env<V>, st: RunState, v: Visit)
    requires st.status.Running?
    requires var l := Pipeline.LoadAndProcess(cfg, env.decode, v.files); l.Ok? || Recoverable(l.error)
    ensures Step(cfg, env, st, v).status.Running?
    ensures |Step(cfg, env, st, v).log| == |st.log| + 1
    ensures var e := Step(cfg, env, st, v).log[|st.log|];
      e.path == v.path && e.base == OutputBase(cfg, v)
  {
  }

  /**
   * A run only stops on an uncaught failure of the model (no absorbance data,
   * empty separator); the decoder is total here, so its own exceptions are not modelled.
   */
  lemma {:induction false} AbortOnlyOnUncaught<V>(cfg: Config, env: Env<V>, st: RunState, vs: seq<Visit>)
    requires st.status.Running?
    requires RunFrom(cfg, env, st, vs).status.Aborted?
    ensures !Recoverable(RunFrom(cfg, env, st, vs).status.failure)
    decreases |vs|
  {
    var t := Step(cfg, env, st, vs[0]);
    if t.status.Aborted? {
      RunFromAborted(cfg, env, t, vs[1..]);
    } else {
      AbortOnlyOnUncaught(cfg, env, t, vs[1..]);
    }
  }

  /**
   * A folder whose files hold no absorbance block ends the whole run when it
   * is converted, rather than being skipped like a rejected folder.
   */
  lemma EmptyBatchAbortsRun<V>(cfg: Config, env: Env<V>, st: RunState, v: Visit)
    requires st.status.Running?
    requires |Spectra.BatchBlocks(v.files, env.decode)| == 0
    requires !(Artifacts.CheckedName(cfg, OutputBase(cfg, v)) in st.existing && !cfg.update)
    ensures Step(cfg, env, st, v).status == Aborted(NoAbsorbanceBlocks)
    ensures Step(cfg, env, st, v).existing == st.existing
  {
  }

  /**
   * One folder of the second pass: if the first pass converted it without
   * stopping and its files are all still present, the second pass finds the
   * result or rejects the folder again, and writes nothing.
   */
  lemma SecondPassStep<V>(cfg: Config, env: Env<V>, v: Visit, s1: RunState, s2: RunState)
    requires ValidConfig(cfg) && !cfg.update
    requires s1.status.Running? && s2.status.Running?
    requires Step(cfg, env, s1, v).status.Running?
    requires Step(cfg, env, s1, v).existing <= s2.existing
    ensures var t := Step(cfg, env, s2, v);
      && t.status.Running?
      && t.existing == s2.existing
      && |t.log| == |s2.log| + 1 && t.log[..|s2.log|] == s2.log
      && !t.log[|s2.log|].outcome.Saved?
  {
    Pipeline.ReprocessSavesNothing(cfg, env.decode, v.files, OutputBase(cfg, v), s1.existing, s2.existing);
  }

  /** True when `log` extends `prefix` with entries none of which saved a folder. */
  predicate ExtendsWithoutSaves(log: seq<Event>, prefix: seq<Event>)
  {
    |prefix| <= |log| && log[..|prefix|] == prefix &&
    forall k :: |prefix| <= k < |log| ==> !log[k].outcome.Saved?
  }

  /** Extensions without saves compose. */
  lemma ExtendsWithoutSavesTrans(a: seq<Event>, b: seq<Event>, c: seq<Event>)
    requires ExtendsWithoutSaves(b, a) && ExtendsWithoutSaves(c, b)
    ensures ExtendsWithoutSaves(c, a)
  {
    assert c[..|a|] == c[..|b|][..|a|];
    forall k | |a| <= k < |b|
      ensures !c[k].outcome.Saved?
    {
      assert c[k] == c[..|b|][k];
    }
  }

  /**
   * Converting the same folders a second time without update writes
   * nothing: every folder is either found already converted or rejected again.
   */
  lemma {:induction false} SecondPassWritesNothing<V>(cfg: Config, env: Env<V>, vs: seq<Visit>,
                                                     s1: RunState, s2: RunState)
    requires ValidConfig(cfg) && !cfg.update
    requires s1.status.Running? && s2.status.Running?
    requires RunFrom(cfg, env, s1, vs).status.Running?
    requires RunFrom(cfg, env, s1, vs).existing <= s2.existing
    ensures var r := RunFrom(cfg, env, s2, vs);
      && r.status.Running?
      && r.existing == s2.existing
      && ExtendsWithoutSaves(r.log, s2.log)
    decreases |vs|
  {
    if |vs| > 0 {
      var t1 := Step(cfg, env, s1, vs[0]);
      var t2 := Step(cfg, env, s2, vs[0]);
      assert RunFrom(cfg, env, s1, vs) == RunFrom(cfg, env, t1, vs[1..]);
      if t1.status.Aborted? {
        RunFromAborted(cfg, env, t1, vs[1..]);
      }
      RunFromGrows(cfg, env, t1, vs[1..]);
      SecondPassStep(cfg, env, vs[0], s1, s2);
      SecondPassWritesNothing(cfg, env, vs[1..], t1, t2);
      var r := RunFrom(cfg, env, s2, vs);
      assert r == RunFrom(cfg, env, t2, vs[1..]);
      ExtendsWithoutSavesTrans(s2.log, t2.log, r.log);
    }
  }
}
