/**
 The watch table `watcher` registers (gulpfile.js:30-38): a glob pattern and
 the task re-run when a file matching it changes. Glob matching and the
 re-running itself belong to gulp and are not modelled; the table is.
 */
module WatchTable {
  import opened Optional
  import opened TaskGraph

  /** One `gulp.watch(patterns, task)` registration. */
  datatype Binding = Binding(pattern: string, task: TaskName)

  /** The registrations, in the order `watcher` makes them. */
  const Bindings: seq<Binding> := [Binding("data/*", DataProcessing), Binding("static/**/*", CopyFiles)]

  /** The task the first registration for `pattern` re-runs, if any. Gulp fires
      every registration whose glob matches, so this single answer is the whole
      story only for a table that registers each pattern once, as `Bindings`
      does (`PatternsRegisteredOnce`). */
  function BoundTask(bindings: seq<Binding>, pattern: string): (r: Option<TaskName>)
    ensures r.None? <==> forall k :: 0 <= k < |bindings| ==> bindings[k].pattern != pattern
    ensures r.Some? ==>
              exists k :: && 0 <= k < |bindings| && bindings[k] == Binding(pattern, r.value)
                          && forall j :: 0 <= j < k ==> bindings[j].pattern != pattern
    decreases |bindings|
  {
    if |bindings| == 0 then None
    else if bindings[0].pattern == pattern then Some(bindings[0].task)
    else
      var r := BoundTask(bindings[1..], pattern);
      assert forall k :: 1 <= k < |bindings| ==> bindings[k] == bindings[1..][k - 1];
      r
  }

  /** Each pattern is registered once, so a change re-runs exactly one task. */
  lemma PatternsRegisteredOnce()
    ensures forall i, j :: 0 <= i < j < |Bindings| ==> Bindings[i].pattern != Bindings[j].pattern
    ensures BoundTask(Bindings, "data/*") == Some(DataProcessing)
    ensures BoundTask(Bindings, "static/**/*") == Some(CopyFiles)
  {
  }

  /** Watched changes re-run only preparation tasks: never `clean` and never
      the bundler, and each of them is a task the development pipeline runs
      before the watcher starts. */
  lemma WatchedTasksArePrepTasks()
    ensures forall k :: 0 <= k < |Bindings| ==> Bindings[k].task in PrepTasks
    ensures forall k :: 0 <= k < |Bindings| ==> Precedes(ServeGraph, Bindings[k].task, Watcher)
  {
    ServePrepFirst();
    forall k | 0 <= k < |Bindings|
      ensures Bindings[k].task in PrepTasks && Precedes(ServeGraph, Bindings[k].task, Watcher)
    {
      assert Bindings[k].task == DataProcessing || Bindings[k].task == CopyFiles;
    }
  }

  /** The watches are registered only in the development pipeline. */
  lemma WatcherOnlyInServe()
    ensures Watcher in Tasks(ServeGraph) && Watcher !in Tasks(DefaultGraph)
  {
    ServeGraphShape();
    DefaultGraphShape();
  }
}
