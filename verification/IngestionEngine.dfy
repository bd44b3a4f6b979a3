/**
 Running an ingestion pipeline (`internal/biz/rag/ingestion.go`).

 Nodes name their successor; the engine looks for the one node that nobody names and walks on from
 it. What conditions and nodes do to the document is a parameter. The walk is proved to log every
 node exactly when the pipeline has no dangling reference and no cycle.
 */
module IngestionEngine {
  import opened Basics
  import StableSort
  import Text

  /** A node; `kind` is its normalised type, `next` is empty at the end of the chain. */
  datatype NodeConfig = NodeConfig(id: string, kind: string, enabled: bool, next: string)

  datatype NodeResult = NodeResult(success: bool, shouldContinue: bool)

  /** What lies outside the engine: the node implementations and the condition evaluator. */
  datatype World<!Data> = World(
    implemented: set<string>,
    condition: (Data, NodeConfig) -> bool,
    execute: (Data, NodeConfig) -> (Data, NodeResult))

  datatype Log = Disabled(id: string) | Unmet(id: string) | Ran(id: string, result: NodeResult)

  datatype Error =
    | DuplicateNode(id: string)
    | NoStartNode
    | MultipleStartNodes(ids: seq<string>)
    | CircularPipeline(id: string)
    | NoImplementation(kind: string)
    | NodeFailed(id: string)
    | MissingNext(next: string, from: string)

  datatype Status = Pending | Running | Completed | Failed

  class IngestionContext<Data(!new)> {
    var data: Data
    var status: Status
    var logs: seq<Log>
    var error: Option<Error>

    constructor (data: Data)
      ensures this.data == data && status == Pending && logs == [] && error == None
    {
      this.data, status, logs, error := data, Pending, [], None;
    }

    method Fail(e: Error)
      modifies this`status, this`error
      ensures status == Failed && error == Some(e)
    {
      status, error := Failed, Some(e);
    }
  }

  // ----- Pipelines as graphs -----

  ghost predicate UniqueIds(nodes: seq<NodeConfig>) {
    forall i, j :: 0 <= i < j < |nodes| ==> nodes[i].id != nodes[j].id
  }

  function NodeMap(nodes: seq<NodeConfig>): map<string, NodeConfig> {
    if nodes == [] then map[] else NodeMap(nodes[..|nodes| - 1])[nodes[|nodes| - 1].id := nodes[|nodes| - 1]]
  }

  function Referenced(nodes: seq<NodeConfig>): set<string> {
    set n | n in nodes && n.next != "" :: n.next
  }

  /** The nodes that no node names as its successor. */
  function Starts(nodes: seq<NodeConfig>, referenced: set<string>): seq<NodeConfig> {
    if nodes == [] then [] else
    var last := nodes[|nodes| - 1];
    Starts(nodes[..|nodes| - 1], referenced) + if last.id in referenced then [] else [last]
  }

  predicate ById(a: NodeConfig, b: NodeConfig) {
    Text.StringLess(a.id, b.id)
  }

  /** `sort.Slice` by ID. Where IDs are distinct there is only one result. */
  function InIdOrder(nodes: seq<NodeConfig>): seq<NodeConfig> {
    StableSort.Sort(nodes, ById)
  }

  function NodeIds(nodes: seq<NodeConfig>): seq<string> {
    seq(|nodes|, k requires 0 <= k < |nodes| => nodes[k].id)
  }

  ghost predicate IsNodeMap(m: map<string, NodeConfig>) {
    forall id :: id in m ==> m[id].id == id
  }

  /** Every named successor exists. */
  ghost predicate Resolvable(m: map<string, NodeConfig>) {
    forall id :: id in m && m[id].next != "" ==> m[id].next in m
  }

  /** A chain of nodes, each naming the next. An empty name is none, even if a node has an empty ID. */
  ghost predicate IsPath(m: map<string, NodeConfig>, p: seq<string>) {
    && (forall i :: 0 <= i < |p| ==> p[i] in m && (i > 0 ==> p[i] != ""))
    && forall i :: 0 <= i < |p| - 1 ==> m[p[i]].next == p[i + 1]
  }

  ghost predicate IsCycle(m: map<string, NodeConfig>, p: seq<string>) {
    p != [] && IsPath(m, p) && m[p[|p| - 1]].next == p[0] && p[0] != ""
  }

  ghost predicate Acyclic(m: map<string, NodeConfig>) {
    forall p :: !IsCycle(m, p)
  }

  // ----- The walk -----

  datatype Outcome<Data> = Outcome(logs: seq<Log>, data: Data, error: Option<Error>)

  /** What happens at one node: its log entry, the new data, whether the walk goes on, and a failure. */
  datatype Visit<Data> = Visit(logs: seq<Log>, data: Data, goesOn: bool, error: Option<Error>)

  function VisitNode<Data(!new)>(w: World<Data>, n: NodeConfig, data: Data): Visit<Data> {
    if !n.enabled then Visit([Disabled(n.id)], data, true, None)
    else if !w.condition(data, n) then Visit([Unmet(n.id)], data, true, None)
    else if n.kind !in w.implemented then Visit([], data, false, Some(NoImplementation(n.kind)))
    else
      var (data', r) := w.execute(data, n);
      Visit([Ran(n.id, r)], data', r.success && r.shouldContinue, if r.success then None else Some(NodeFailed(n.id)))
  }

  function Walk<Data(!new)>(w: World<Data>, m: map<string, NodeConfig>, current: string, visited: set<string>,
                            data: Data): Outcome<Data>
    requires current in m
    decreases m.Keys - visited
  {
    if current in visited then Outcome([], data, Some(CircularPipeline(current))) else
    var v := VisitNode(w, m[current], data);
    var next := m[current].next;
    if !v.goesOn || next == "" then Outcome(v.logs, v.data, v.error)
    else if next !in m then Outcome(v.logs, v.data, Some(MissingNext(next, m[current].id)))
    else
      assert m.Keys - (visited + {current}) < m.Keys - visited by {
        assert current in m.Keys - visited && current !in m.Keys - (visited + {current});
      }
      var rest := Walk(w, m, next, visited + {current}, v.data);
      Outcome(v.logs + rest.logs, rest.data, rest.error)
  }

  /** Which status an outcome leaves behind. A circular pipeline is reported but not marked as failed. */
  function StatusAfter(error: Option<Error>): Status {
    match error
    case None => Completed
    case Some(CircularPipeline(_)) => Running
    case Some(_) => Failed
  }

  function Ids(logs: seq<Log>): seq<string> {
    seq(|logs|, k requires 0 <= k < |logs| => logs[k].id)
  }

  ghost predicate NoRepeats(ids: seq<string>) {
    forall i, j :: 0 <= i < j < |ids| ==> ids[i] != ids[j]
  }

  lemma IdsConcat(a: seq<Log>, b: seq<Log>)
    ensures Ids(a + b) == Ids(a) + Ids(b)
  {
  }

  /** Whatever the nodes do: the log is a chain from the start on that visits no node twice. */
  lemma {:induction false} WalkIsAPath<Data(!new)>(w: World<Data>, m: map<string, NodeConfig>, current: string,
                                                   visited: set<string>, data: Data)
    requires current in m && IsNodeMap(m)
    ensures var ids := Ids(Walk(w, m, current, visited, data).logs);
            && IsPath(m, ids) && NoRepeats(ids) && (ids != [] ==> ids[0] == current)
            && forall i :: 0 <= i < |ids| ==> ids[i] !in visited
    decreases m.Keys - visited
  {
    if current !in visited {
      var v, next := VisitNode(w, m[current], data), m[current].next;
      if v.goesOn && next != "" && next in m {
        var rest := Walk(w, m, next, visited + {current}, v.data);
        assert current in m.Keys - visited && current !in m.Keys - (visited + {current});
        WalkIsAPath(w, m, next, visited + {current}, v.data);
        IdsConcat(v.logs, rest.logs);
        assert Ids(v.logs) == [current];
        PathCons(m, current, Ids(rest.logs));
      }
    }
  }

  lemma PathCons(m: map<string, NodeConfig>, id: string, p: seq<string>)
    requires id in m && IsPath(m, p) && (p != [] ==> m[id].next == p[0] != "") && NoRepeats(p) && id !in p
    ensures IsPath(m, [id] + p) && NoRepeats([id] + p)
  {
  }

  // ----- What the log says -----

  /** The data once the nodes that the log says have run have run, in this order. */
  function DataAfter<Data(!new)>(w: World<Data>, m: map<string, NodeConfig>, logs: seq<Log>, data: Data): Data
    requires forall i :: 0 <= i < |logs| ==> logs[i].id in m
  {
    if logs == [] then data
    else DataAfter(w, m, logs[1..], if logs[0].Ran? then w.execute(data, m[logs[0].id]).0 else data)
  }

  /** Entry `log` is that of node `n`, which was reached with this data. */
  ghost predicate Says<Data(!new)>(w: World<Data>, n: NodeConfig, log: Log, data: Data) {
    && (log.Disabled? <==> !n.enabled)
    && (log.Unmet? <==> n.enabled && !w.condition(data, n))
    && (log.Ran? <==> n.enabled && w.condition(data, n))
    && (log.Ran? ==> n.kind in w.implemented && log.result == w.execute(data, n).1)
  }

  /** Every entry but the last says that the pipeline goes on. */
  ghost predicate GoesOnAfter(logs: seq<Log>, i: nat)
    requires i < |logs|
  {
    logs[i].Ran? ==> logs[i].result.success && logs[i].result.shouldContinue
  }

  ghost predicate AllIn(m: map<string, NodeConfig>, logs: seq<Log>) {
    forall i :: 0 <= i < |logs| ==> logs[i].id in m
  }

  lemma Behind<Data(!new)>(w: World<Data>, m: map<string, NodeConfig>, first: Log, rest: seq<Log>, i: nat, data: Data)
    requires first.id in m && AllIn(m, rest) && i <= |rest|
    ensures AllIn(m, ([first] + rest)[..i + 1]) && AllIn(m, rest[..i])
    ensures DataAfter(w, m, ([first] + rest)[..i + 1], data) ==
            DataAfter(w, m, rest[..i], if first.Ran? then w.execute(data, m[first.id]).0 else data)
  {
    assert ([first] + rest)[..i + 1][1..] == rest[..i];
  }

  /** What an entry of the log means, and that all but the last go on. */
  ghost predicate Tells<Data(!new)>(w: World<Data>, m: map<string, NodeConfig>, logs: seq<Log>, data: Data, i: nat)
    requires AllIn(m, logs) && i < |logs|
  {
    && Says(w, m[logs[i].id], logs[i], DataAfter(w, m, logs[..i], data))
    && (i < |logs| - 1 ==> GoesOnAfter(logs, i))
  }

  lemma {:induction false} TellsBehind<Data(!new)>(w: World<Data>, m: map<string, NodeConfig>, first: Log,
                                                   rest: seq<Log>, data: Data, i: nat)
    requires first.id in m && AllIn(m, rest) && i < |rest| && AllIn(m, [first] + rest)
    requires Tells(w, m, rest, if first.Ran? then w.execute(data, m[first.id]).0 else data, i)
    ensures Tells(w, m, [first] + rest, data, i + 1)
  {
    hide Says;
    Behind(w, m, first, rest, i, data);
  }

  lemma TellsFirst<Data(!new)>(w: World<Data>, m: map<string, NodeConfig>, n: NodeConfig, rest: seq<Log>, data: Data)
    requires IsNodeMap(m) && n.id in m && m[n.id] == n && AllIn(m, VisitNode(w, n, data).logs + rest)
    requires VisitNode(w, n, data).logs != [] && (rest != [] ==> VisitNode(w, n, data).goesOn)
    ensures |VisitNode(w, n, data).logs| == 1
    ensures Tells(w, m, VisitNode(w, n, data).logs + rest, data, 0)
  {
    assert (VisitNode(w, n, data).logs + rest)[..0] == [];
  }

  /**
   What a run did, told from its log: a node is logged as disabled exactly if it is, as unmet exactly if it
   is enabled and its condition is false of the data at that point, and as run exactly if it is enabled and
   its condition is true; then the entry holds what the implementation answers on that data.
   */
  lemma {:induction false} LogTells<Data(!new)>(w: World<Data>, m: map<string, NodeConfig>, current: string,
                                                visited: set<string>, data: Data)
    requires current in m && IsNodeMap(m)
    ensures var o := Walk(w, m, current, visited, data);
            && AllIn(m, o.logs) && o.data == DataAfter(w, m, o.logs, data)
            && forall i :: 0 <= i < |o.logs| ==> Tells(w, m, o.logs, data, i)
    decreases m.Keys - visited
  {
    hide Tells, Says;
    if current !in visited {
      var v, next := VisitNode(w, m[current], data), m[current].next;
      VisitData(w, m, m[current], data);
      if v.goesOn && next != "" && next in m {
        assert current in m.Keys - visited && current !in m.Keys - (visited + {current});
        LogTells(w, m, next, visited + {current}, v.data);
        var rest := Walk(w, m, next, visited + {current}, v.data).logs;
        var o := Walk(w, m, current, visited, data);
        assert o.logs == [v.logs[0]] + rest;
        TellsFirst(w, m, m[current], rest, data);
        forall i | 0 <= i < |o.logs| ensures Tells(w, m, o.logs, data, i) {
          if i > 0 { TellsBehind(w, m, v.logs[0], rest, data, i - 1); }
        }
        Behind(w, m, v.logs[0], rest, |rest|, data);
        assert o.logs[..|rest| + 1] == o.logs && rest[..|rest|] == rest;
      } else if v.logs != [] {
        assert v.logs + [] == v.logs;
        TellsFirst(w, m, m[current], [], data);
      }
    }
  }

  lemma VisitData<Data(!new)>(w: World<Data>, m: map<string, NodeConfig>, n: NodeConfig, data: Data)
    requires n.id in m && m[n.id] == n
    ensures var v := VisitNode(w, n, data);
            && |v.logs| <= 1 && AllIn(m, v.logs) && v.data == DataAfter(w, m, v.logs, data)
            && (v.goesOn ==> |v.logs| == 1 && v.logs[0].id == n.id)
            && (v.logs != [] ==> v.data == if v.logs[0].Ran? then w.execute(data, n).0 else data)
  {
    var v := VisitNode(w, n, data);
    if v.logs != [] {
      assert v.logs[1..] == [];
      assert DataAfter(w, m, v.logs[1..], v.data) == v.data;
    }
  }

  /** How a walk ends, told from its last entry, and from the node that would have come next. */
  ghost predicate EndsAs<Data(!new)>(w: World<Data>, m: map<string, NodeConfig>, current: string, visited: set<string>,
                                     o: Outcome<Data>)
    requires current in m && AllIn(m, o.logs)
  {
    var n := |o.logs|;
    if n > 0 && o.logs[n - 1].Ran? && !o.logs[n - 1].result.success then o.error == Some(NodeFailed(o.logs[n - 1].id))
    else if n > 0 && o.logs[n - 1].Ran? && !o.logs[n - 1].result.shouldContinue then o.error == None
    else
      var next := if n == 0 then current else m[o.logs[n - 1].id].next;
      if n > 0 && next == "" then o.error == None
      else if next !in m then n > 0 && o.error == Some(MissingNext(next, o.logs[n - 1].id))
      else if next in visited || next in Ids(o.logs) then o.error == Some(CircularPipeline(next))
      else
        && m[next].enabled && w.condition(o.data, m[next]) && m[next].kind !in w.implemented
        && o.error == Some(NoImplementation(m[next].kind))
  }

  lemma EndsOneFurther<Data(!new)>(w: World<Data>, m: map<string, NodeConfig>, current: string, visited: set<string>,
                                   first: Log, rest: Outcome<Data>)
    requires IsNodeMap(m) && current in m && first.id == current && m[current].next in m && m[current].next != ""
    requires first.Ran? ==> first.result.success && first.result.shouldContinue
    requires AllIn(m, rest.logs) && EndsAs(w, m, m[current].next, visited + {current}, rest)
    ensures AllIn(m, [first] + rest.logs)
    ensures EndsAs(w, m, current, visited, Outcome([first] + rest.logs, rest.data, rest.error))
  {
    IdsConcat([first], rest.logs);
    assert Ids([first]) == [current];
  }

  /**
   A failed node ends the run with its error, a node that does not let the pipeline go on ends it without
   one; otherwise what comes next decides: nothing, a missing node, one met before, or one whose condition
   is met but which has no implementation.
   */
  lemma {:induction false} LogEnds<Data(!new)>(w: World<Data>, m: map<string, NodeConfig>, current: string,
                                               visited: set<string>, data: Data)
    requires current in m && IsNodeMap(m)
    ensures var o := Walk(w, m, current, visited, data); AllIn(m, o.logs) && EndsAs(w, m, current, visited, o)
    decreases m.Keys - visited
  {
    if current !in visited {
      var v, next := VisitNode(w, m[current], data), m[current].next;
      VisitData(w, m, m[current], data);
      if v.goesOn && next != "" && next in m {
        assert current in m.Keys - visited && current !in m.Keys - (visited + {current});
        LogEnds(w, m, next, visited + {current}, v.data);
        var rest := Walk(w, m, next, visited + {current}, v.data);
        hide EndsAs;
        assert v.logs == [v.logs[0]];
        EndsOneFurther(w, m, current, visited, v.logs[0], rest);
      } else if v.logs != [] {
        assert Ids(v.logs) == [current];
      }
    }
  }

  // ----- Completeness -----

  /** Every node that is due is implemented, succeeds and lets the pipeline go on. */
  ghost predicate AllGoesWell<Data(!new)>(w: World<Data>, m: map<string, NodeConfig>) {
    forall id, data :: id in m ==> VisitNode(w, m[id], data).goesOn
  }

  /** The chain's last node has no successor. */
  ghost predicate EndsAtLast(m: map<string, NodeConfig>, p: seq<string>) {
    p != [] && p[|p| - 1] in m && m[p[|p| - 1]].next == ""
  }

  /**
   When all goes well, the walk ends without error at a node without successor, or a reference dangles,
   or the path walked so far closes to a cycle.
   */
  lemma {:induction false} WalkEnds<Data(!new)>(w: World<Data>, m: map<string, NodeConfig>, current: string,
                                                path: seq<string>, visited: set<string>, data: Data)
    requires current in m && IsNodeMap(m) && AllGoesWell(w, m)
    requires IsPath(m, path) && (path != [] ==> m[path[|path| - 1]].next == current != "")
    requires visited == set id | id in path
    ensures var o := Walk(w, m, current, visited, data);
            match o.error
            case None => EndsAtLast(m, Ids(o.logs))
            case Some(e) => (e.CircularPipeline? && !Acyclic(m)) || (e.MissingNext? && !Resolvable(m))
    decreases m.Keys - visited
  {
    if current in visited {
      CloseCycle(m, path, current);
    } else {
      var v, next := VisitNode(w, m[current], data), m[current].next;
      assert v.goesOn && |v.logs| == 1 && v.logs[0].id == current;
      assert Ids(v.logs) == [current];
      if next != "" && next in m {
        assert current in m.Keys - visited && current !in m.Keys - (visited + {current});
        PathSnoc(m, path, current);
        WalkEnds(w, m, next, path + [current], visited + {current}, v.data);
        IdsConcat(v.logs, Walk(w, m, next, visited + {current}, v.data).logs);
      }
    }
  }

  lemma PathSnoc(m: map<string, NodeConfig>, path: seq<string>, id: string)
    requires IsPath(m, path) && id in m && (path != [] ==> m[path[|path| - 1]].next == id != "")
    ensures IsPath(m, path + [id])
  {
  }

  lemma CloseCycle(m: map<string, NodeConfig>, path: seq<string>, id: string)
    requires IsPath(m, path) && id in path && id != "" && m[path[|path| - 1]].next == id
    ensures !Acyclic(m)
  {
    var i :| 0 <= i < |path| && path[i] == id;
    var p := path[i..];
    forall k | 0 <= k < |p| - 1
      ensures m[p[k]].next == p[k + 1]
    {
      assert p[k] == path[i + k] && p[k + 1] == path[i + k + 1];
    }
    assert IsCycle(m, p);
  }

  /** Some node that has not been met names `id` as its successor. */
  ghost predicate NamedOutside(m: map<string, NodeConfig>, met: set<string>, id: string) {
    id != "" && exists u :: u in m && u !in met && m[u].next == id
  }

  /**
   The graph argument. A walk that has come to its end from the only start has left nobody out: going
   backwards from a node it has not met would never leave the unmet nodes, and so run into a cycle.
   */
  lemma {:induction false} BackwardsForever(m: map<string, NodeConfig>, met: set<string>, path: seq<string>)
    requires IsNodeMap(m) && path != [] && IsPath(m, path) && NoRepeats(path)
    requires forall id :: id in path ==> id !in met
    requires forall id :: id in m && id !in met ==> NamedOutside(m, met, id)
    ensures !Acyclic(m)
    decreases m.Keys - Met(path)
  {
    assert path[0] in path && NamedOutside(m, met, path[0]);
    var u :| u in m && u !in met && m[u].next == path[0];
    if u in path {
      CloseFront(m, path, u);
    } else {
      PathCons(m, u, path);
      LessToMeet(m, path, u);
      BackwardsForever(m, met, [u] + path);
    }
  }

  lemma LessToMeet(m: map<string, NodeConfig>, path: seq<string>, u: string)
    requires u in m && u !in path
    ensures m.Keys - Met([u] + path) < m.Keys - Met(path)
  {
    assert u in [u] + path;
    assert u in m.Keys - Met(path) && u !in m.Keys - Met([u] + path);
    forall id | id in Met(path) ensures id in Met([u] + path) {
      var i :| 0 <= i < |path| && path[i] == id;
      assert ([u] + path)[i + 1] == id;
    }
  }

  lemma CloseFront(m: map<string, NodeConfig>, path: seq<string>, u: string)
    requires IsNodeMap(m) && IsPath(m, path) && u in path && m[u].next == path[0] != ""
    ensures !Acyclic(m)
  {
    var i :| 0 <= i < |path| && path[i] == u;
    var p := path[..i + 1];
    assert IsPath(m, p) && p[|p| - 1] == u;
    assert IsCycle(m, p);
  }

  ghost predicate IsNamed(m: map<string, NodeConfig>, id: string) {
    id != "" && exists u :: u in m && m[u].next == id
  }

  /** The single start: everyone else is named by somebody. */
  ghost predicate OnlyStart(m: map<string, NodeConfig>, start: string) {
    && start in m && !IsNamed(m, start)
    && forall id {:trigger IsNamed(m, id)} :: id in m && id != start ==> IsNamed(m, id)
  }

  /** The walk has met every node. */
  ghost predicate MeetsAll(m: map<string, NodeConfig>, logs: seq<Log>) {
    forall id :: id in m ==> id in Ids(logs)
  }

  ghost function Met(p: seq<string>): set<string> {
    set id | id in p
  }

  lemma StaysOnPath(m: map<string, NodeConfig>, p: seq<string>, u: string)
    requires IsPath(m, p) && EndsAtLast(m, p) && u in p
    ensures u in m && (m[u].next == "" || m[u].next in p)
  {
    var i :| 0 <= i < |p| && p[i] == u;
    if i < |p| - 1 { assert m[u].next == p[i + 1]; }
  }

  lemma NamedFromOutside(m: map<string, NodeConfig>, start: string, p: seq<string>, id: string)
    requires OnlyStart(m, start) && IsPath(m, p) && EndsAtLast(m, p) && p[0] == start && id in m && id !in p
    ensures NamedOutside(m, Met(p), id)
  {
    assert p[0] in p && IsNamed(m, id);
    var u :| u in m && m[u].next == id;
    if u in p { StaysOnPath(m, p, u); }
  }

  lemma {:induction false} LostMeansCycle(m: map<string, NodeConfig>, start: string, p: seq<string>, lost: string)
    requires IsNodeMap(m) && OnlyStart(m, start)
    requires IsPath(m, p) && EndsAtLast(m, p) && p[0] == start && lost in m && lost !in p
    ensures !Acyclic(m)
  {
    hide OnlyStart, IsPath, EndsAtLast, Acyclic, NoRepeats, NamedOutside;
    forall id | id in m && id !in Met(p) ensures NamedOutside(m, Met(p), id) { NamedFromOutside(m, start, p, id); }
    LonePath(m, lost);
    BackwardsForever(m, Met(p), [lost]);
  }

  lemma LonePath(m: map<string, NodeConfig>, id: string)
    requires id in m
    ensures IsPath(m, [id]) && NoRepeats([id])
  {
  }

  /** A path from the only start to a node without successor meets everyone, unless there is a cycle. */
  lemma FinishedPathMeetsAll(m: map<string, NodeConfig>, start: string, p: seq<string>)
    requires IsNodeMap(m) && OnlyStart(m, start)
    requires IsPath(m, p) && EndsAtLast(m, p) && p[0] == start && Acyclic(m)
    ensures forall id :: id in m ==> id in p
  {
    if lost :| lost in m && lost !in p { LostMeansCycle(m, start, p, lost); }
  }

  /** A path that meets every node exactly once and ends without successor leaves room for no cycle. */
  lemma FullPathHasNoCycle(m: map<string, NodeConfig>, p: seq<string>)
    requires IsNodeMap(m) && IsPath(m, p) && NoRepeats(p) && EndsAtLast(m, p)
    requires forall id :: id in m ==> id in p
    ensures Resolvable(m) && Acyclic(m)
  {
    forall id | id in m && m[id].next != "" ensures m[id].next in m {
      var i :| 0 <= i < |p| && p[i] == id;
      assert i < |p| - 1 && m[id].next == p[i + 1];
    }
    forall c ensures !IsCycle(m, c) { PathIsNoCycle(m, p, c); }
  }

  lemma PathIsNoCycle(m: map<string, NodeConfig>, p: seq<string>, c: seq<string>)
    requires IsPath(m, p) && NoRepeats(p) && EndsAtLast(m, p)
    requires forall id :: id in m ==> id in p
    ensures !IsCycle(m, c)
  {
    if c != [] && IsPath(m, c) {
      var i :| 0 <= i < |p| && p[i] == c[0];
      FollowsPath(m, p, c, i, |c| - 1);
      var k := i + |c| - 1;
      if k < |p| - 1 { assert m[p[k]].next == p[k + 1] != p[i]; }
    }
  }

  /** Along a path without repetition, a chain of nodes stays in step. */
  lemma {:induction false} FollowsPath(m: map<string, NodeConfig>, p: seq<string>, c: seq<string>, i: nat, k: nat)
    requires IsPath(m, p) && EndsAtLast(m, p) && IsPath(m, c)
    requires k < |c| && i < |p| && p[i] == c[0]
    ensures i + k < |p| && p[i + k] == c[k]
  {
    if k > 0 {
      FollowsPath(m, p, c, i, k - 1);
      assert m[c[k - 1]].next == c[k] != "";
      assert i + k - 1 < |p| - 1;
    }
  }

  /**
   Completeness, exactly. From the only start, with every node doing well, the walk succeeds and meets
   every node if and only if all references resolve and there is no cycle.
   */
  lemma WalkMeetsAllIffSound<Data(!new)>(w: World<Data>, m: map<string, NodeConfig>, start: string, data: Data)
    requires IsNodeMap(m) && OnlyStart(m, start) && AllGoesWell(w, m)
    ensures var o := Walk(w, m, start, {}, data);
            o.error == None && MeetsAll(m, o.logs) <==> Resolvable(m) && Acyclic(m)
  {
    var o := Walk(w, m, start, {}, data);
    WalkIsAPath(w, m, start, {}, data);
    WalkEnds(w, m, start, [], {}, data);
    var ids := Ids(o.logs);
    if o.error == None {
      if Acyclic(m) { FinishedPathMeetsAll(m, start, ids); }
      if MeetsAll(m, o.logs) { FullPathHasNoCycle(m, ids); }
    }
  }

  // ----- Which error the walk ends with -----

  /** `p` leads from the start to a node that names no node to go on with. */
  ghost predicate Stops(m: map<string, NodeConfig>, start: string, p: seq<string>) {
    p != [] && IsPath(m, p) && p[0] == start && !(m[p[|p| - 1]].next != "" && m[p[|p| - 1]].next in m)
  }

  /** From the start the pipeline comes to a node without successor. */
  ghost predicate Finishes(m: map<string, NodeConfig>, start: string) {
    exists p :: Stops(m, start, p) && EndsAtLast(m, p)
  }

  /** From the start the pipeline comes to a reference that does not resolve. */
  ghost predicate Dangles(m: map<string, NodeConfig>, start: string) {
    exists p :: Stops(m, start, p) && !EndsAtLast(m, p)
  }

  /** A node determines what follows it. */
  lemma {:induction false} InStep(m: map<string, NodeConfig>, p: seq<string>, i: nat, j: nat, k: nat)
    requires IsPath(m, p) && i < j && j + k < |p| && p[i] == p[j]
    ensures p[i + k] == p[j + k]
  {
    if k > 0 {
      InStep(m, p, i, j, k - 1);
      assert m[p[i + (k - 1)]].next == p[i + (k - 1) + 1];
      assert m[p[j + (k - 1)]].next == p[j + (k - 1) + 1];
    }
  }

  /** A path that stops has met no node twice. */
  lemma StopsWithoutRepeat(m: map<string, NodeConfig>, start: string, p: seq<string>)
    requires Stops(m, start, p)
    ensures NoRepeats(p)
  {
    forall i, j | 0 <= i < j < |p| ensures p[i] != p[j] {
      if p[i] == p[j] {
        var k := |p| - 1 - j;
        assert m[p[i + k]].next == p[i + k + 1];
        InStep(m, p, i, j, k);
      }
    }
  }

  function ErrorBehind(m: map<string, NodeConfig>, id: string): Option<Error>
    requires id in m
  {
    if m[id].next == "" then None else Some(MissingNext(m[id].next, m[id].id))
  }

  /** The walk follows a path that stops, to its end. */
  lemma {:induction false} WalkFollows<Data(!new)>(w: World<Data>, m: map<string, NodeConfig>, start: string,
                                                   p: seq<string>, i: nat, data: Data)
    requires AllGoesWell(w, m) && Stops(m, start, p) && NoRepeats(p) && i < |p|
    ensures Walk(w, m, p[i], Met(p[..i]), data).error == ErrorBehind(m, p[|p| - 1])
    decreases |p| - i
  {
    var v := VisitNode(w, m[p[i]], data);
    assert p[i] !in p[..i];
    if i < |p| - 1 {
      assert m[p[i]].next == p[i + 1] && p[i + 1] in m && p[i + 1] != "";
      WalkFollows(w, m, start, p, i + 1, v.data);
      assert p[..i + 1] == p[..i] + [p[i]];
      assert Met(p[..i + 1]) == Met(p[..i]) + {p[i]};
    }
  }

  lemma {:induction false} WalkOfStop<Data(!new)>(w: World<Data>, m: map<string, NodeConfig>, start: string,
                                                  p: seq<string>, data: Data)
    requires start in m && AllGoesWell(w, m) && Stops(m, start, p)
    ensures var error := Walk(w, m, start, {}, data).error;
            if EndsAtLast(m, p) then error == None else error.Some? && error.value.MissingNext?
  {
    hide Walk, AllGoesWell, NoRepeats;
    StopsWithoutRepeat(m, start, p);
    WalkFollows(w, m, start, p, 0, data);
    assert Met(p[..0]) == {};
  }

  /** The path of a walk that has ended, but not at a cycle. */
  lemma {:induction false} WalkStops<Data(!new)>(w: World<Data>, m: map<string, NodeConfig>, current: string,
                                                 visited: set<string>, data: Data)
      returns (p: seq<string>)
    requires current in m && AllGoesWell(w, m)
    requires var e := Walk(w, m, current, visited, data).error; e.None? || !e.value.CircularPipeline?
    ensures Stops(m, current, p)
    decreases m.Keys - visited
  {
    var v, next := VisitNode(w, m[current], data), m[current].next;
    p := [current];
    if next != "" && next in m {
      assert current in m.Keys - visited && current !in m.Keys - (visited + {current});
      var rest := WalkStops(w, m, next, visited + {current}, v.data);
      p := [current] + rest;
    }
  }

  lemma {:induction false} WalkErrors<Data(!new)>(w: World<Data>, m: map<string, NodeConfig>, current: string,
                                                  visited: set<string>, data: Data)
    requires current in m && AllGoesWell(w, m)
    ensures var e := Walk(w, m, current, visited, data).error;
            e.None? || e.value.CircularPipeline? || e.value.MissingNext?
    decreases m.Keys - visited
  {
    var v, next := VisitNode(w, m[current], data), m[current].next;
    if current !in visited && next != "" && next in m {
      assert current in m.Keys - visited && current !in m.Keys - (visited + {current});
      WalkErrors(w, m, next, visited + {current}, v.data);
    }
  }

  /** How a walk ends when every node does well: each of the three ends, exactly. */
  lemma {:induction false} WalkEndsIff<Data(!new)>(w: World<Data>, m: map<string, NodeConfig>, start: string,
                                                   data: Data)
    requires start in m && AllGoesWell(w, m)
    ensures var error := Walk(w, m, start, {}, data).error;
            && (error == None <==> Finishes(m, start))
            && (error.Some? && error.value.MissingNext? <==> Dangles(m, start))
            && (error.Some? && error.value.CircularPipeline? <==> !Finishes(m, start) && !Dangles(m, start))
  {
    hide Walk, AllGoesWell, IsPath, EndsAtLast;
    var error := Walk(w, m, start, {}, data).error;
    WalkErrors(w, m, start, {}, data);
    forall p | Stops(m, start, p)
      ensures if EndsAtLast(m, p) then error == None else error.Some? && error.value.MissingNext?
    {
      WalkOfStop(w, m, start, p, data);
    }
    if error.None? || !error.value.CircularPipeline? {
      var p := WalkStops(w, m, start, {}, data);
      assert Stops(m, start, p);
    }
  }

  /** When a walk succeeds and leaves a node out, exactly: it finishes beside a cycle that it does not reach. */
  lemma {:induction false} LeavesOutIff<Data(!new)>(w: World<Data>, m: map<string, NodeConfig>, start: string,
                                                    data: Data)
    requires IsNodeMap(m) && OnlyStart(m, start) && AllGoesWell(w, m)
    ensures var o := Walk(w, m, start, {}, data);
            o.error == None && !MeetsAll(m, o.logs) <==> Finishes(m, start) && !Acyclic(m)
  {
    hide Finishes, Walk, AllGoesWell;
    var o := Walk(w, m, start, {}, data);
    WalkEndsIff(w, m, start, data);
    if o.error == None {
      WalkIsAPath(w, m, start, {}, data);
      WalkEnds(w, m, start, [], {}, data);
      if Acyclic(m) { FinishedPathMeetsAll(m, start, Ids(o.logs)); }
      if MeetsAll(m, o.logs) { FullPathHasNoCycle(m, Ids(o.logs)); }
    }
  }

  // ----- Lists of nodes and maps of nodes -----

  lemma {:induction false} NodeMapOfList(nodes: seq<NodeConfig>)
    requires UniqueIds(nodes)
    ensures IsNodeMap(NodeMap(nodes))
    ensures forall n :: n in nodes ==> n.id in NodeMap(nodes) && NodeMap(nodes)[n.id] == n
    ensures forall id :: id in NodeMap(nodes) ==> NodeMap(nodes)[id] in nodes
  {
    if nodes != [] {
      var front := nodes[..|nodes| - 1];
      NodeMapOfList(front);
      assert nodes == front + [nodes[|nodes| - 1]];
    }
  }

  lemma {:induction false} StartsAreUnreferenced(nodes: seq<NodeConfig>, referenced: set<string>)
    ensures forall n :: n in Starts(nodes, referenced) <==> n in nodes && n.id !in referenced
  {
    if nodes != [] {
      var front, last := nodes[..|nodes| - 1], nodes[|nodes| - 1];
      StartsAreUnreferenced(front, referenced);
      assert nodes == front + [last];
      if last.id !in referenced { assert Starts(nodes, referenced)[|Starts(front, referenced)|] == last; }
    }
  }

  lemma SingleStart(nodes: seq<NodeConfig>)
    requires UniqueIds(nodes) && |Starts(nodes, Referenced(nodes))| == 1
    ensures Starts(nodes, Referenced(nodes))[0] in nodes
    ensures OnlyStart(NodeMap(nodes), Starts(nodes, Referenced(nodes))[0].id)
  {
    var s := Starts(nodes, Referenced(nodes));
    StartsAreUnreferenced(nodes, Referenced(nodes));
    assert s == [s[0]] && s[0] in s;
    NodeMapOfList(nodes);
    var m := NodeMap(nodes);
    forall id | id in m && m[id].next != "" ensures m[id].next in Referenced(nodes) { assert m[id] in nodes; }
    forall id | id in m && id != s[0].id ensures IsNamed(m, id) {
      assert m[id] !in s;
      assert id in Referenced(nodes);
      var n :| n in nodes && n.next == id;
      assert n.id in m && m[n.id].next == id;
    }
  }

  // ----- The code -----

  lemma IdsAreOrdered()
    ensures StableSort.StrictWeakOrder(ById)
  {
    forall a: NodeConfig ensures !ById(a, a) { Text.StringLessIrreflexive(a.id); }
    forall a: NodeConfig, b: NodeConfig | ById(a, b) ensures !ById(b, a) {
      if ById(b, a) {
        Text.StringLessTransitive(a.id, b.id, a.id);
        Text.StringLessIrreflexive(a.id);
      }
    }
    forall a: NodeConfig, b: NodeConfig, c: NodeConfig | !ById(a, b) && !ById(b, c) ensures !ById(a, c) {
      if ById(a, c) {
        Text.StringLessTotal(a.id, b.id);
        Text.StringLessTotal(b.id, c.id);
        if a.id != b.id { Text.StringLessTransitive(b.id, a.id, c.id); }
      }
    }
  }

  method FindStartNodes(nodes: seq<NodeConfig>, referenced: set<string>) returns (starts: seq<NodeConfig>)
    ensures starts == InIdOrder(Starts(nodes, referenced))
    ensures multiset(starts) == multiset(Starts(nodes, referenced)) && |starts| == |Starts(nodes, referenced)|
    ensures StableSort.SortedBy(starts, ById)
  {
    starts := [];
    for i := 0 to |nodes|
      invariant starts == Starts(nodes[..i], referenced)
    {
      assert nodes[..i + 1][..i] == nodes[..i];
      if nodes[i].id !in referenced {
        starts := starts + [nodes[i]];
      }
    }
    assert nodes[..|nodes|] == nodes;
    IdsAreOrdered();
    StableSort.SortSorted(starts, ById);
    StableSort.SortPermutes(starts, ById);
    starts := InIdOrder(starts);
  }

  lemma IndexSnoc(nodes: seq<NodeConfig>, i: nat)
    requires i < |nodes| && UniqueIds(nodes[..i])
    ensures NodeMap(nodes[..i + 1]) == NodeMap(nodes[..i])[nodes[i].id := nodes[i]]
    ensures Referenced(nodes[..i + 1]) == Referenced(nodes[..i]) + if nodes[i].next != "" then {nodes[i].next} else {}
    ensures UniqueIds(nodes[..i + 1]) <==> nodes[i].id !in NodeMap(nodes[..i])
  {
    assert nodes[..i + 1] == nodes[..i] + [nodes[i]];
    assert (nodes[..i] + [nodes[i]])[..i] == nodes[..i];
    UniqueSnoc(nodes[..i], nodes[i]);
    ReferencedSnoc(nodes[..i], nodes[i]);
  }

  lemma ReferencedSnoc(front: seq<NodeConfig>, n: NodeConfig)
    ensures Referenced(front + [n]) == Referenced(front) + if n.next != "" then {n.next} else {}
  {
  }

  lemma UniqueSnoc(front: seq<NodeConfig>, n: NodeConfig)
    requires UniqueIds(front)
    ensures UniqueIds(front + [n]) <==> n.id !in NodeMap(front)
  {
    NodeMapOfList(front);
    if n.id in NodeMap(front) {
      var k :| 0 <= k < |front| && front[k] == NodeMap(front)[n.id];
      assert (front + [n])[k].id == (front + [n])[|front|].id;
    } else {
      forall k | 0 <= k < |front| ensures front[k].id != n.id { assert front[k] in front; }
    }
  }

  lemma UniquePrefix(nodes: seq<NodeConfig>, i: nat)
    requires i <= |nodes| && UniqueIds(nodes)
    ensures UniqueIds(nodes[..i])
  {
  }

  /** The first loop of `Execute`: the node map and the referenced IDs, or the first duplicate. */
  method IndexNodes(nodes: seq<NodeConfig>)
    returns (nodeMap: map<string, NodeConfig>, referenced: set<string>, duplicate: Option<Error>, ghost at: nat)
    ensures duplicate == None ==> UniqueIds(nodes) && nodeMap == NodeMap(nodes) && referenced == Referenced(nodes)
    ensures duplicate.Some? ==>
              at < |nodes| && UniqueIds(nodes[..at]) && !UniqueIds(nodes[..at + 1]) && !UniqueIds(nodes)
    ensures duplicate.Some? ==> duplicate == Some(DuplicateNode(nodes[at].id))
  {
    nodeMap, referenced := map[], {};
    for i := 0 to |nodes|
      invariant UniqueIds(nodes[..i]) && nodeMap == NodeMap(nodes[..i]) && referenced == Referenced(nodes[..i])
    {
      var n := nodes[i];
      IndexSnoc(nodes, i);
      if n.id in nodeMap {
        if UniqueIds(nodes) { UniquePrefix(nodes, i + 1); }
        return nodeMap, referenced, Some(DuplicateNode(n.id)), i;
      }
      nodeMap := nodeMap[n.id := n];
      if n.next != "" {
        referenced := referenced + {n.next};
      }
    }
    assert nodes[..|nodes|] == nodes;
    return nodeMap, referenced, None, 0;
  }

  /** One turn of the main loop, up to the step to the next node. */
  method ExecuteNode<Data(!new)>(ctx: IngestionContext<Data>, node: NodeConfig, w: World<Data>)
      returns (goesOn: bool, err: Option<Error>)
    requires ctx.status == Running
    modifies ctx
    ensures var v := VisitNode(w, node, old(ctx.data));
            && goesOn == v.goesOn && err == v.error && ctx.data == v.data && ctx.logs == old(ctx.logs) + v.logs
            && (goesOn ==> ctx.status == Running && err == None)
            && (!goesOn ==> ctx.status == StatusAfter(err))
            && ctx.error == if err.Some? then err else old(ctx.error)
  {
    if !node.enabled {
      ctx.logs := ctx.logs + [Disabled(node.id)];
      return true, None;
    }
    if !w.condition(ctx.data, node) {
      ctx.logs := ctx.logs + [Unmet(node.id)];
      return true, None;
    }
    if node.kind !in w.implemented {
      ctx.Fail(NoImplementation(node.kind));
      return false, Some(NoImplementation(node.kind));
    }
    var (data, result) := w.execute(ctx.data, node);
    ctx.data := data;
    ctx.logs := ctx.logs + [Ran(node.id, result)];
    if !result.success {
      ctx.Fail(NodeFailed(node.id));
      return false, Some(NodeFailed(node.id));
    }
    if !result.shouldContinue {
      ctx.status := Completed;
    }
    return result.shouldContinue, None;
  }

  lemma Regroup(a: seq<Log>, b: seq<Log>, c: seq<Log>)
    ensures a + b + c == a + (b + c)
  {
  }

  lemma StatusOfEnds()
    ensures StatusAfter(None) == Completed
    ensures forall id :: StatusAfter(Some(CircularPipeline(id))) == Running
    ensures forall a, b :: StatusAfter(Some(MissingNext(a, b))) == Failed
  {
  }

  lemma WalkStep<Data(!new)>(w: World<Data>, m: map<string, NodeConfig>, current: string, visited: set<string>,
                             data: Data)
    requires current in m
    ensures var o, v, next := Walk(w, m, current, visited, data), VisitNode(w, m[current], data), m[current].next;
            if current in visited then o == Outcome([], data, Some(CircularPipeline(current)))
            else if !v.goesOn || next == "" then o == Outcome(v.logs, v.data, v.error)
            else if next !in m then o == Outcome(v.logs, v.data, Some(MissingNext(next, m[current].id)))
            else
              var rest := Walk(w, m, next, visited + {current}, v.data);
              o == Outcome(v.logs + rest.logs, rest.data, rest.error)
  {
  }

  /** Which errors a walk can end with, and which status each leaves behind. */
  lemma {:induction false} WalkStatus<Data(!new)>(w: World<Data>, m: map<string, NodeConfig>, start: string, data: Data)
    requires start in m && IsNodeMap(m)
    ensures var error := Walk(w, m, start, {}, data).error;
            && (error.Some? ==>
                  !error.value.DuplicateNode? && !error.value.NoStartNode? && !error.value.MultipleStartNodes?)
            && (StatusAfter(error) == Completed <==> error == None)
            && (StatusAfter(error) == Running <==> error.Some? && error.value.CircularPipeline?)
            && (StatusAfter(error) == Failed <==> error.Some? && !error.value.CircularPipeline?)
  {
    hide Walk;
    LogEnds(w, m, start, {}, data);
  }

  /** The main loop of `Execute`, from the start node on. */
  method RunFrom<Data(!new)>(ctx: IngestionContext<Data>, m: map<string, NodeConfig>, start: string, w: World<Data>)
      returns (err: Option<Error>)
    requires start in m && IsNodeMap(m) && ctx.status == Running
    modifies ctx
    ensures var o := Walk(w, m, start, {}, old(ctx.data));
            && err == o.error && ctx.data == o.data && ctx.logs == old(ctx.logs) + o.logs &&
                 ctx.status == StatusAfter(err)
    ensures ctx.status == Failed ==> ctx.error == err
  {
    hide *;
    StatusOfEnds();
    var visited: set<string> := {};
    var current := start;
    ghost var logs0, all := ctx.logs, Walk(w, m, start, {}, ctx.data);
    while true
      invariant current in m && visited <= m.Keys && ctx.status == Running
      invariant var o := Walk(w, m, current, visited, ctx.data);
                all.error == o.error && all.data == o.data && logs0 + all.logs == ctx.logs + o.logs
      decreases m.Keys - visited
    {
      WalkStep(w, m, current, visited, ctx.data);
      if current in visited {
        return Some(CircularPipeline(current));
      }
      assert current in m.Keys - visited && current !in m.Keys - (visited + {current});
      var node := m[current];
      ghost var v, before := VisitNode(w, node, ctx.data), ctx.logs;
      visited := visited + {current};
      var goesOn: bool;
      goesOn, err := ExecuteNode(ctx, node, w);
      if !goesOn {
        return;
      }
      if node.next == "" {
        ctx.status := Completed;
        return None;
      }
      if node.next !in m {
        ctx.Fail(MissingNext(node.next, node.id));
        return Some(MissingNext(node.next, node.id));
      }
      current := node.next;
      Regroup(before, v.logs, Walk(w, m, current, visited, ctx.data).logs);
    }
  }

  lemma SortedAlone(nodes: seq<NodeConfig>)
    requires |nodes| == 1
    ensures InIdOrder(nodes) == nodes
  {
    assert nodes == [nodes[0]] && nodes[1..] == [];
    assert StableSort.Sort(nodes[1..], ById) == [];
  }

  method Execute<Data(!new)>(ctx: IngestionContext<Data>, nodes: seq<NodeConfig>, w: World<Data>)
      returns (err: Option<Error>)
    modifies ctx
    ensures err == None <==> ctx.status == Completed
    ensures ctx.status == Running <==>
              err.Some? && (err.value.DuplicateNode? || err.value.NoStartNode? || err.value.MultipleStartNodes? ||
                            err.value.CircularPipeline?)
    ensures ctx.status == Failed <==>
              err.Some? && (err.value.NoImplementation? || err.value.NodeFailed? || err.value.MissingNext?)
    ensures ctx.status == Failed ==> ctx.error == err
    ensures !UniqueIds(nodes) ==>
              err.Some? && err.value.DuplicateNode? && ctx.status == Running && ctx.logs == old(ctx.logs)
    ensures UniqueIds(nodes) && Starts(nodes, Referenced(nodes)) == [] ==>
              err == Some(NoStartNode) && ctx.status == Running && ctx.logs == old(ctx.logs)
    ensures UniqueIds(nodes) && |Starts(nodes, Referenced(nodes))| > 1 ==>
              err == Some(MultipleStartNodes(NodeIds(InIdOrder(Starts(nodes, Referenced(nodes)))))) &&
                ctx.status == Running && ctx.logs == old(ctx.logs)
    ensures UniqueIds(nodes) && |Starts(nodes, Referenced(nodes))| == 1 ==>
              var start := Starts(nodes, Referenced(nodes))[0].id;
              start in NodeMap(nodes) &&
              var o := Walk(w, NodeMap(nodes), start, {}, old(ctx.data));
              && err == o.error && ctx.data == o.data && ctx.logs == old(ctx.logs) + o.logs &&
                   ctx.status == StatusAfter(err)
  {
    hide Walk, NodeMap, Referenced, Starts, UniqueIds, NodeIds, InIdOrder, StatusAfter, IsNodeMap, OnlyStart;
    ctx.status := Running;
    ghost var at: nat;
    var nodeMap: map<string, NodeConfig>, referenced: set<string>, duplicate: Option<Error>;
    nodeMap, referenced, duplicate, at := IndexNodes(nodes);
    if duplicate.Some? {
      return duplicate;
    }
    var starts := FindStartNodes(nodes, referenced);
    if |starts| == 0 {
      return Some(NoStartNode);
    }
    if |starts| > 1 {
      return Some(MultipleStartNodes(NodeIds(starts)));
    }
    NodeMapOfList(nodes);
    SingleStart(nodes);
    SortedAlone(Starts(nodes, Referenced(nodes)));
    WalkStatus(w, nodeMap, starts[0].id, ctx.data);
    err := RunFrom(ctx, nodeMap, starts[0].id, w);
  }

  /**
   Which pipelines with one start succeed, which of these leave a node out, and with which error the others
   end, as conditions on the configuration. A node is left out, and the run reported as completed all the
   same, exactly if the start leads to an end and there is a cycle beside it.
   */
  lemma {:induction false} PipelineSucceedsIff<Data(!new)>(nodes: seq<NodeConfig>, w: World<Data>, data: Data)
    requires UniqueIds(nodes) && |Starts(nodes, Referenced(nodes))| == 1 && AllGoesWell(w, NodeMap(nodes))
    ensures Starts(nodes, Referenced(nodes))[0].id in NodeMap(nodes)
    ensures var m, start := NodeMap(nodes), Starts(nodes, Referenced(nodes))[0].id;
            var o := Walk(w, m, start, {}, data);
            && (o.error == None <==> Finishes(m, start))
            && (o.error == None && (exists n :: n in nodes && n.id !in Ids(o.logs)) <==>
                 Finishes(m, start) && !Acyclic(m))
            && (o.error.Some? && o.error.value.MissingNext? <==> Dangles(m, start))
            && (o.error.Some? && o.error.value.CircularPipeline? <==> !Finishes(m, start) && !Dangles(m, start))
  {
    NodeMapOfList(nodes);
    SingleStart(nodes);
    var m, start := NodeMap(nodes), Starts(nodes, Referenced(nodes))[0].id;
    WalkEndsIff(w, m, start, data);
    LeavesOutIff(w, m, start, data);
    hide Walk, AllGoesWell, Finishes, Dangles, Acyclic, OnlyStart, NodeMap, Referenced;
    var o := Walk(w, m, start, {}, data);
    assert MeetsAll(m, o.logs) <==> forall n :: n in nodes ==> n.id in Ids(o.logs);
  }

  /** The pipelines that a walk from the only start covers, as conditions on the configuration. */
  lemma PipelineCompleteIffSound<Data(!new)>(nodes: seq<NodeConfig>, w: World<Data>, data: Data)
    requires UniqueIds(nodes) && |Starts(nodes, Referenced(nodes))| == 1
    requires AllGoesWell(w, NodeMap(nodes))
    ensures Starts(nodes, Referenced(nodes))[0].id in NodeMap(nodes)
    ensures var o := Walk(w, NodeMap(nodes), Starts(nodes, Referenced(nodes))[0].id, {}, data);
            && NoRepeats(Ids(o.logs)) && IsPath(NodeMap(nodes), Ids(o.logs))
            && (o.error == None && (forall n :: n in nodes ==> n.id in Ids(o.logs)) <==>
                 Resolvable(NodeMap(nodes)) && Acyclic(NodeMap(nodes)))
  {
    NodeMapOfList(nodes);
    SingleStart(nodes);
    var m, start := NodeMap(nodes), Starts(nodes, Referenced(nodes))[0].id;
    WalkIsAPath(w, m, start, {}, data);
    WalkMeetsAllIffSound(w, m, start, data);
    var o := Walk(w, m, start, {}, data);
    assert MeetsAll(m, o.logs) <==> forall n :: n in nodes ==> n.id in Ids(o.logs);
  }

  /** A disabled node, and beside it two enabled ones that name each other. */
  function Detached(a: string, b: string, c: string): seq<NodeConfig> {
    [NodeConfig(a, "", false, ""), NodeConfig(b, "", true, c), NodeConfig(c, "", true, b)]
  }

  lemma StartsSnoc(front: seq<NodeConfig>, n: NodeConfig, referenced: set<string>)
    ensures Starts(front + [n], referenced) == Starts(front, referenced) + if n.id in referenced then [] else [n]
  {
    assert (front + [n])[..|front|] == front;
  }

  lemma DetachedReferences(a: string, b: string, c: string)
    requires b != "" && c != ""
    ensures Referenced(Detached(a, b, c)) == {b, c}
  {
    var nodes := Detached(a, b, c);
    assert nodes[1] in nodes && nodes[2] in nodes;
  }

  lemma {:induction false} DetachedStarts(a: string, b: string, c: string)
    requires a != b && b != c && a != c && b != "" && c != ""
    ensures UniqueIds(Detached(a, b, c))
    ensures Starts(Detached(a, b, c), Referenced(Detached(a, b, c))) == [Detached(a, b, c)[0]]
  {
    DetachedReferences(a, b, c);
    hide Starts, Referenced;
    var nodes, named := Detached(a, b, c), {b, c};
    StartsOfNothing(named);
    StartsSnoc([], nodes[0], named);
    StartsSnoc([nodes[0]], nodes[1], named);
    StartsSnoc([nodes[0]] + [nodes[1]], nodes[2], named);
    assert [] + [nodes[0]] == [nodes[0]] && nodes == [nodes[0]] + [nodes[1]] + [nodes[2]];
  }

  lemma StartsOfNothing(referenced: set<string>)
    ensures Starts([], referenced) == []
  {
  }

  /** A detached cycle is never executed, and the run is reported as completed all the same. */
  lemma DetachedCycleGoesUnnoticed<Data(!new)>(w: World<Data>, data: Data, a: string, b: string, c: string)
    requires a != b && b != c && a != c && b != "" && c != ""
    ensures var nodes := Detached(a, b, c);
            && UniqueIds(nodes) && Starts(nodes, Referenced(nodes)) == [nodes[0]] && a in NodeMap(nodes)
            && Walk(w, NodeMap(nodes), a, {}, data) == Outcome([Disabled(a)], data, None)
  {
    var nodes := Detached(a, b, c);
    DetachedStarts(a, b, c);
    NodeMapOfList(nodes);
    assert nodes[0] in nodes;
  }
}
