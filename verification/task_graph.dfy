/**
 The exported task graphs (gulpfile.js:119-146) as immutable trees over task
 names. `Series` children run one after another and `Parallel` children
 start together; only the static ordering this implies is modelled, as the
 relation `Precedes`. How gulp schedules, completes or fails tasks is not.
 */
module TaskGraph {
  import opened Optional

  /** The task functions the gulpfile defines. */
  datatype TaskName =
    | Clean            // deletes `dist` and `.parcel-cache`
    | DataProcessing   // writes `dist/api/readings.json`
    | TimeFile         // writes `app/scripts/time.json`
    | CopyFiles        // copies `static/**/*` into `dist`
    | Watcher          // registers the file watches
    | ParcelServe      // starts the development server
    | ParcelBuild      // runs the production build

  /** A task tree: a leaf task, `gulp.series(...)` or `gulp.parallel(...)`. */
  datatype Graph =
    | Task(name: TaskName)
    | Series(children: seq<Graph>)
    | Parallel(children: seq<Graph>)

  /** Every task that occurs in the tree. */
  function Tasks(g: Graph): set<TaskName>
    decreases g, 1, 0
  {
    if g.Task? then {g.name} else TasksFrom(g, 0)
  }

  /** The tasks of the children of `g` from position `k` on. */
  function TasksFrom(g: Graph, k: nat): set<TaskName>
    requires !g.Task? && k <= |g.children|
    decreases g, 0, |g.children| - k
  {
    if k == |g.children| then {} else Tasks(g.children[k]) + TasksFrom(g, k + 1)
  }

  /** `a` must finish before `b` starts: some series puts an earlier step
      holding `a` before a later step holding `b`. A parallel group orders
      nothing by itself; only orderings inside its branches survive. */
  predicate Precedes(g: Graph, a: TaskName, b: TaskName)
    decreases g
  {
    match g
    case Task(_) => false
    case Series(cs) =>
      || (exists i, j :: 0 <= i < j < |cs| && a in Tasks(cs[i]) && b in Tasks(cs[j]))
      || (exists i :: 0 <= i < |cs| && Precedes(cs[i], a, b))
    case Parallel(cs) =>
      exists i :: 0 <= i < |cs| && Precedes(cs[i], a, b)
  }

  /** Every task occurs at most once: sibling subtrees share no task. */
  predicate Distinct(g: Graph)
    decreases g
  {
    || g.Task?
    || (&& (forall k :: 0 <= k < |g.children| ==> Distinct(g.children[k]))
        && (forall i, j :: 0 <= i < j < |g.children| ==> Tasks(g.children[i]) !! Tasks(g.children[j])))
  }

  /** The preparation group both pipelines share: `dataProcessing`,
      `timeFile` and `copyFiles` in parallel. */
  const PrepGroup: Graph := Parallel([Task(DataProcessing), Task(TimeFile), Task(CopyFiles)])

  /** The tasks of the preparation group. */
  const PrepTasks: set<TaskName> := {DataProcessing, TimeFile, CopyFiles}

  /** The development group: the watcher and the development server in parallel. */
  const DevGroup: Graph := Parallel([Task(Watcher), Task(ParcelServe)])

  /** The production pipeline exported as `default` (gulpfile.js:135-146). */
  const DefaultGraph: Graph := Series([Task(Clean), PrepGroup, Task(ParcelBuild)])

  /** The development pipeline exported as `serve` (gulpfile.js:122-132). */
  const ServeGraph: Graph := Series([PrepGroup, DevGroup])

  /** The gulpfile's exports by name (gulpfile.js:119, 122, 135). */
  function Exported(name: string): Option<Graph> {
    if name == "clean" then Some(Task(Clean))
    else if name == "serve" then Some(ServeGraph)
    else if name == "default" then Some(DefaultGraph)
    else None
  }

  /** The tasks from position `k` on are those of the children from `k` on. */
  lemma {:induction false} TasksFromMembers(g: Graph, k: nat, t: TaskName)
    requires !g.Task? && k <= |g.children|
    ensures t in TasksFrom(g, k) <==> exists i :: k <= i < |g.children| && t in Tasks(g.children[i])
    decreases |g.children| - k
  {
    if k < |g.children| {
      TasksFromMembers(g, k + 1, t);
    }
  }

  /** A task of a child is a task of the whole tree. */
  lemma ChildTask(g: Graph, k: nat, t: TaskName)
    requires !g.Task? && k < |g.children| && t in Tasks(g.children[k])
    ensures t in Tasks(g)
  {
    TasksFromMembers(g, 0, t);
  }

  /** A task of a group belongs to one of its children. */
  lemma OwningChild(g: Graph, t: TaskName) returns (k: nat)
    requires !g.Task? && t in Tasks(g)
    ensures k < |g.children| && t in Tasks(g.children[k])
  {
    TasksFromMembers(g, 0, t);
    k :| 0 <= k < |g.children| && t in Tasks(g.children[k]);
  }

  /** In a tree without repeated tasks, a task sits in at most one child. */
  lemma OwningChildUnique(g: Graph, i: nat, j: nat, t: TaskName)
    requires Distinct(g) && !g.Task?
    requires i < |g.children| && j < |g.children|
    requires t in Tasks(g.children[i]) && t in Tasks(g.children[j])
    ensures i == j
  {
  }

  /** Only tasks of the tree take part in its ordering. */
  lemma {:induction false} PrecedesWithinTasks(g: Graph, a: TaskName, b: TaskName)
    requires Precedes(g, a, b)
    ensures a in Tasks(g) && b in Tasks(g)
    decreases g
  {
    var cs := g.children;
    if g.Series? && exists i, j :: 0 <= i < j < |cs| && a in Tasks(cs[i]) && b in Tasks(cs[j]) {
      var i, j :| 0 <= i < j < |cs| && a in Tasks(cs[i]) && b in Tasks(cs[j]);
      ChildTask(g, i, a);
      ChildTask(g, j, b);
    } else {
      var k :| 0 <= k < |cs| && Precedes(cs[k], a, b);
      PrecedesWithinTasks(cs[k], a, b);
      ChildTask(g, k, a);
      ChildTask(g, k, b);
    }
  }

  /** `Precedes` is asymmetric (so also irreflexive) when no task is repeated. */
  lemma {:induction false} PrecedesAsymmetric(g: Graph, a: TaskName, b: TaskName)
    requires Distinct(g) && Precedes(g, a, b)
    ensures !Precedes(g, b, a)
    decreases g
  {
    if Precedes(g, b, a) {
      var ia, ib := OrderWitness(g, a, b);
      var jb, ja := OrderWitness(g, b, a);
      OwningChildUnique(g, ia, ja, a);
      OwningChildUnique(g, ib, jb, b);
      PrecedesAsymmetric(g.children[ia], a, b);
      assert false;
    }
  }

  /** The children that hold `a` and `b` when `a` precedes `b`: an earlier and
      a later step, or one child that orders them itself. */
  lemma OrderWitness(g: Graph, a: TaskName, b: TaskName) returns (i: nat, j: nat)
    requires Precedes(g, a, b)
    ensures !g.Task? && i <= j < |g.children|
    ensures a in Tasks(g.children[i]) && b in Tasks(g.children[j])
    ensures i < j ==> g.Series?
    ensures i == j ==> Precedes(g.children[i], a, b)
  {
    var cs := g.children;
    if g.Series? && exists i', j' :: 0 <= i' < j' < |cs| && a in Tasks(cs[i']) && b in Tasks(cs[j']) {
      i, j :| 0 <= i < j < |cs| && a in Tasks(cs[i]) && b in Tasks(cs[j]);
    } else {
      var k :| 0 <= k < |cs| && Precedes(cs[k], a, b);
      PrecedesWithinTasks(cs[k], a, b);
      i, j := k, k;
    }
  }

  /** `Precedes` is transitive when no task is repeated. */
  lemma {:induction false} PrecedesTransitive(g: Graph, a: TaskName, b: TaskName, c: TaskName)
    requires Distinct(g) && Precedes(g, a, b) && Precedes(g, b, c)
    ensures Precedes(g, a, c)
    decreases g
  {
    var cs := g.children;
    var ia, ib := OrderWitness(g, a, b);
    var jb, jc := OrderWitness(g, b, c);
    OwningChildUnique(g, ib, jb, b);
    if ia < jc {
      assert g.Series? && 0 <= ia < jc < |cs| && a in Tasks(cs[ia]) && c in Tasks(cs[jc]);
    } else {
      PrecedesTransitive(cs[ia], a, b, c);
      assert 0 <= ia < |cs| && Precedes(cs[ia], a, c);
    }
  }

  /** Two tasks in different branches of a parallel group are not ordered by it. */
  lemma ParallelOrdersNothingAcross(cs: seq<Graph>, i: nat, j: nat, a: TaskName, b: TaskName)
    requires Distinct(Parallel(cs))
    requires i < |cs| && j < |cs| && i != j
    requires a in Tasks(cs[i]) && b in Tasks(cs[j])
    ensures !Precedes(Parallel(cs), a, b)
  {
    if Precedes(Parallel(cs), a, b) {
      var ia, ib := OrderWitness(Parallel(cs), a, b);
      OwningChildUnique(Parallel(cs), ia, i, a);
      OwningChildUnique(Parallel(cs), ib, j, b);
    }
  }

  /** Every task of an earlier step of a series precedes every task of a later step. */
  lemma SeriesOrdersSteps(cs: seq<Graph>, i: nat, j: nat, a: TaskName, b: TaskName)
    requires i < j < |cs|
    requires a in Tasks(cs[i]) && b in Tasks(cs[j])
    ensures Precedes(Series(cs), a, b)
  {
  }

  /** Tasks and distinctness of a group with two children. */
  lemma TwoChildren(g: Graph)
    requires !g.Task? && |g.children| == 2
    ensures Tasks(g) == Tasks(g.children[0]) + Tasks(g.children[1])
    ensures Distinct(g) <==>
              Distinct(g.children[0]) && Distinct(g.children[1]) && Tasks(g.children[0]) !! Tasks(g.children[1])
  {
    var cs := g.children;
    forall t | t in Tasks(g)
      ensures t in Tasks(cs[0]) + Tasks(cs[1])
    {
      var k := OwningChild(g, t);
    }
    forall t | t in Tasks(cs[0]) + Tasks(cs[1])
      ensures t in Tasks(g)
    {
      if t in Tasks(cs[0]) { ChildTask(g, 0, t); } else { ChildTask(g, 1, t); }
    }
  }

  /** Tasks and distinctness of a group with three children. */
  lemma ThreeChildren(g: Graph)
    requires !g.Task? && |g.children| == 3
    ensures Tasks(g) == Tasks(g.children[0]) + Tasks(g.children[1]) + Tasks(g.children[2])
    ensures Distinct(g) <==>
              && Distinct(g.children[0]) && Distinct(g.children[1]) && Distinct(g.children[2])
              && Tasks(g.children[0]) !! Tasks(g.children[1])
              && Tasks(g.children[0]) !! Tasks(g.children[2])
              && Tasks(g.children[1]) !! Tasks(g.children[2])
  {
    var cs := g.children;
    forall t | t in Tasks(g)
      ensures t in Tasks(cs[0]) + Tasks(cs[1]) + Tasks(cs[2])
    {
      var k := OwningChild(g, t);
    }
    forall t | t in Tasks(cs[0]) + Tasks(cs[1]) + Tasks(cs[2])
      ensures t in Tasks(g)
    {
      if t in Tasks(cs[0]) {
        ChildTask(g, 0, t);
      } else if t in Tasks(cs[1]) {
        ChildTask(g, 1, t);
      } else {
        ChildTask(g, 2, t);
      }
    }
    if && Distinct(cs[0]) && Distinct(cs[1]) && Distinct(cs[2])
       && Tasks(cs[0]) !! Tasks(cs[1]) && Tasks(cs[0]) !! Tasks(cs[2]) && Tasks(cs[1]) !! Tasks(cs[2]) {
      forall k | 0 <= k < |cs|
        ensures Distinct(cs[k])
      {
        if k == 0 {} else if k == 1 {} else {}
      }
      forall i, j | 0 <= i < j < |cs|
        ensures Tasks(cs[i]) !! Tasks(cs[j])
      {
        if i == 0 && j == 1 {} else if i == 0 {} else {}
      }
    }
  }

  /** The preparation group holds the three preparation tasks, once each,
      and orders none of them. */
  lemma PrepGroupFacts()
    ensures Tasks(PrepGroup) == PrepTasks
    ensures Distinct(PrepGroup)
    ensures forall t, u :: !Precedes(PrepGroup, t, u)
  {
    ThreeChildren(PrepGroup);
  }

  /** The development group holds the watcher and the server and orders neither. */
  lemma DevGroupFacts()
    ensures Tasks(DevGroup) == {Watcher, ParcelServe}
    ensures Distinct(DevGroup)
    ensures forall t, u :: !Precedes(DevGroup, t, u)
  {
    TwoChildren(DevGroup);
  }

  /** Two tasks of the same child are ordered by the tree only if that child orders them. */
  lemma OrderedOnlyWithinChild(g: Graph, k: nat, t: TaskName, u: TaskName)
    requires Distinct(g) && !g.Task? && k < |g.children|
    requires t in Tasks(g.children[k]) && u in Tasks(g.children[k])
    requires !Precedes(g.children[k], t, u)
    ensures !Precedes(g, t, u)
  {
    if Precedes(g, t, u) {
      var i, j := OrderWitness(g, t, u);
      OwningChildUnique(g, i, k, t);
      OwningChildUnique(g, j, k, u);
    }
  }

  /** Nothing outside the first step of a series precedes a task of that step. */
  lemma NothingBeforeFirstStep(cs: seq<Graph>, x: TaskName, t: TaskName)
    requires Distinct(Series(cs)) && |cs| > 0 && x in Tasks(cs[0])
    requires !Precedes(cs[0], t, x)
    ensures !Precedes(Series(cs), t, x)
  {
    if Precedes(Series(cs), t, x) {
      var i, j := OrderWitness(Series(cs), t, x);
    }
  }

  /** A task of the last step of a series precedes nothing outside that step. */
  lemma NothingAfterLastStep(cs: seq<Graph>, x: TaskName, t: TaskName)
    requires Distinct(Series(cs)) && |cs| > 0 && x in Tasks(cs[|cs| - 1])
    requires !Precedes(cs[|cs| - 1], x, t)
    ensures !Precedes(Series(cs), x, t)
  {
    if Precedes(Series(cs), x, t) {
      var i, j := OrderWitness(Series(cs), x, t);
    }
  }

  /** The tasks and the shape of `default`. */
  lemma DefaultGraphShape()
    ensures Distinct(DefaultGraph)
    ensures Tasks(DefaultGraph) == {Clean, ParcelBuild} + PrepTasks
  {
    PrepGroupFacts();
    ThreeChildren(DefaultGraph);
  }

  /** In `default`, `clean` precedes every preparation task and nothing precedes `clean`. */
  lemma DefaultCleanFirst()
    ensures forall t :: t in PrepTasks ==> Precedes(DefaultGraph, Clean, t)
    ensures forall t :: !Precedes(DefaultGraph, t, Clean)
  {
    var cs := DefaultGraph.children;
    DefaultGraphShape();
    PrepGroupFacts();
    forall t | t in PrepTasks
      ensures Precedes(DefaultGraph, Clean, t)
    {
      SeriesOrdersSteps(cs, 0, 1, Clean, t);
    }
    forall t
      ensures !Precedes(DefaultGraph, t, Clean)
    {
      NothingBeforeFirstStep(cs, Clean, t);
    }
  }

  /** In `default`, every preparation task precedes the build and the build precedes nothing. */
  lemma DefaultBuildLast()
    ensures forall t :: t in PrepTasks ==> Precedes(DefaultGraph, t, ParcelBuild)
    ensures Precedes(DefaultGraph, Clean, ParcelBuild)
    ensures forall t :: !Precedes(DefaultGraph, ParcelBuild, t)
  {
    var cs := DefaultGraph.children;
    DefaultGraphShape();
    PrepGroupFacts();
    forall t | t in PrepTasks
      ensures Precedes(DefaultGraph, t, ParcelBuild)
    {
      SeriesOrdersSteps(cs, 1, 2, t, ParcelBuild);
    }
    SeriesOrdersSteps(cs, 0, 2, Clean, ParcelBuild);
    forall t
      ensures !Precedes(DefaultGraph, ParcelBuild, t)
    {
      NothingAfterLastStep(cs, ParcelBuild, t);
    }
  }

  /** In `default`, the preparation tasks are not ordered among themselves. */
  lemma DefaultPrepUnordered()
    ensures forall t, u :: t in PrepTasks && u in PrepTasks ==> !Precedes(DefaultGraph, t, u)
  {
    DefaultGraphShape();
    PrepGroupFacts();
    forall t, u | t in PrepTasks && u in PrepTasks
      ensures !Precedes(DefaultGraph, t, u)
    {
      OrderedOnlyWithinChild(DefaultGraph, 1, t, u);
    }
  }

  /** In `default`, `clean` comes first, then the three preparation tasks in
      parallel, then the production build. */
  lemma DefaultGraphOrder()
    ensures Distinct(DefaultGraph)
    ensures Tasks(DefaultGraph) == {Clean, ParcelBuild} + PrepTasks
    ensures forall t :: t in PrepTasks ==> Precedes(DefaultGraph, Clean, t) && Precedes(DefaultGraph, t, ParcelBuild)
    ensures Precedes(DefaultGraph, Clean, ParcelBuild)
    ensures forall t, u :: t in PrepTasks && u in PrepTasks ==> !Precedes(DefaultGraph, t, u)
    ensures forall t :: !Precedes(DefaultGraph, t, Clean) && !Precedes(DefaultGraph, ParcelBuild, t)
  {
    DefaultGraphShape();
    DefaultCleanFirst();
    DefaultBuildLast();
    DefaultPrepUnordered();
  }

  /** The tasks and the shape of `serve`. */
  lemma ServeGraphShape()
    ensures Distinct(ServeGraph)
    ensures Tasks(ServeGraph) == PrepTasks + {Watcher, ParcelServe}
  {
    PrepGroupFacts();
    DevGroupFacts();
    TwoChildren(ServeGraph);
  }

  /** In `serve`, every preparation task precedes the watcher and the server. */
  lemma ServePrepFirst()
    ensures forall p :: p in PrepTasks ==> Precedes(ServeGraph, p, Watcher) && Precedes(ServeGraph, p, ParcelServe)
  {
    var cs := ServeGraph.children;
    ServeGraphShape();
    PrepGroupFacts();
    DevGroupFacts();
    forall p | p in PrepTasks
      ensures Precedes(ServeGraph, p, Watcher) && Precedes(ServeGraph, p, ParcelServe)
    {
      SeriesOrdersSteps(cs, 0, 1, p, Watcher);
      SeriesOrdersSteps(cs, 0, 1, p, ParcelServe);
    }
  }

  /** In `serve`, neither the preparation tasks nor the two final tasks are
      ordered among themselves. */
  lemma ServeGroupsUnordered()
    ensures !Precedes(ServeGraph, Watcher, ParcelServe) && !Precedes(ServeGraph, ParcelServe, Watcher)
    ensures forall t, u :: t in PrepTasks && u in PrepTasks ==> !Precedes(ServeGraph, t, u)
  {
    ServeGraphShape();
    PrepGroupFacts();
    DevGroupFacts();
    OrderedOnlyWithinChild(ServeGraph, 1, Watcher, ParcelServe);
    OrderedOnlyWithinChild(ServeGraph, 1, ParcelServe, Watcher);
    forall t, u | t in PrepTasks && u in PrepTasks
      ensures !Precedes(ServeGraph, t, u)
    {
      OrderedOnlyWithinChild(ServeGraph, 0, t, u);
    }
  }

  /** In `serve`, `clean` never runs, and the watcher and the development
      server both start only after all three preparation tasks. */
  lemma ServeGraphOrder()
    ensures Distinct(ServeGraph)
    ensures Tasks(ServeGraph) == PrepTasks + {Watcher, ParcelServe}
    ensures Clean !in Tasks(ServeGraph)
    ensures forall p :: p in PrepTasks ==> Precedes(ServeGraph, p, Watcher) && Precedes(ServeGraph, p, ParcelServe)
    ensures !Precedes(ServeGraph, Watcher, ParcelServe) && !Precedes(ServeGraph, ParcelServe, Watcher)
    ensures forall t, u :: t in PrepTasks && u in PrepTasks ==> !Precedes(ServeGraph, t, u)
  {
    ServeGraphShape();
    assert Clean !in PrepTasks + {Watcher, ParcelServe};
    ServePrepFirst();
    ServeGroupsUnordered();
  }

  /** Of the three exports, only `clean` and `default` delete the output;
      `serve` keeps earlier output, and the bundler never runs in `clean`. */
  lemma CleanOnlyOutsideServe(name: string)
    requires Exported(name).Some?
    ensures Clean in Tasks(Exported(name).value) <==> name != "serve"
    ensures name == "clean" ==> Tasks(Exported(name).value) == {Clean}
  {
    DefaultGraphShape();
    ServeGraphShape();
  }
}
