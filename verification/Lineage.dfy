/** The lineage graph: recorders that find or create nodes and edges, and the trace
    that closes a starting point under edges in both directions. */
module Lineage {
  import opened Keys
  import opened Collections
  import opened Partitions

  // ----- Tracing -----

  datatype Node = Node(id: Key, name: string)
  datatype Arc = Arc(from: Key, to: Key)

  ghost function ArcPairs(edges: seq<Arc>): set<Pair> {
    set e | e in edges :: (e.from, e.to)
  }

  /** Connected to a seed by edges taken in either direction. */
  ghost predicate Reached(edges: seq<Arc>, seeds: set<Key>, x: Key) {
    exists s :: s in seeds && Connected(ArcPairs(edges), s, x)
  }

  ghost predicate ClosedUnder(edges: seq<Arc>, xs: set<Key>) {
    forall i {:trigger edges[i]} :: 0 <= i < |edges| ==> (edges[i].from in xs <==> edges[i].to in xs)
  }

  lemma ReachedStep(edges: seq<Arc>, seeds: set<Key>, i: nat, x: Key, y: Key)
    requires i < |edges| && Reached(edges, seeds, x)
    requires (x == edges[i].from && y == edges[i].to) || (x == edges[i].to && y == edges[i].from)
    ensures Reached(edges, seeds, y)
  {
    var s :| s in seeds && Connected(ArcPairs(edges), s, x);
    assert edges[i] in edges;
    ConnectedLink(ArcPairs(edges), x, y);
    ConnectedTrans(ArcPairs(edges), s, x, y);
  }

  lemma {:induction false} ClosedHoldsWalk(edges: seq<Arc>, xs: set<Key>, w: seq<Key>)
    requires ClosedUnder(edges, xs) && Walk(ArcPairs(edges), w) && w[0] in xs
    ensures w[|w| - 1] in xs
    decreases |w|
  {
    if |w| > 1 {
      var n := |w| - 1;
      var front := w[..n];
      assert forall i :: 0 <= i < |front| - 1 ==> Linked(ArcPairs(edges), w[i], w[i + 1]) && front[i] == w[i];
      ClosedHoldsWalk(edges, xs, front);
      assert Linked(ArcPairs(edges), w[n - 1], w[n]);
      var e :| e in edges && ((e.from, e.to) == (w[n - 1], w[n]) || (e.from, e.to) == (w[n], w[n - 1]));
      var i :| 0 <= i < |edges| && edges[i] == e;
    }
  }

  lemma ClosedHoldsReached(edges: seq<Arc>, seeds: set<Key>, xs: set<Key>, x: Key)
    requires ClosedUnder(edges, xs) && seeds <= xs && Reached(edges, seeds, x)
    ensures x in xs
  {
    var s :| s in seeds && Connected(ArcPairs(edges), s, x);
    var w :| Walk(ArcPairs(edges), w) && w[0] == s && w[|w| - 1] == x;
    ClosedHoldsWalk(edges, xs, w);
  }

  ghost predicate AllReached(edges: seq<Arc>, seeds: set<Key>, xs: set<Key>) {
    forall x {:trigger Reached(edges, seeds, x)} :: x in xs ==> Reached(edges, seeds, x)
  }

  lemma SeedsReached(edges: seq<Arc>, seeds: set<Key>)
    ensures AllReached(edges, seeds, seeds)
  {
    forall x | x in seeds ensures Reached(edges, seeds, x) {
      ConnectedRefl(ArcPairs(edges), x);
    }
  }

  /** A closed set between the seeds and what they reach is exactly what they reach. */
  lemma ClosedIsReached(edges: seq<Arc>, seeds: set<Key>, xs: set<Key>)
    requires ClosedUnder(edges, xs) && seeds <= xs && AllReached(edges, seeds, xs)
    ensures forall x :: x in xs <==> Reached(edges, seeds, x)
  {
    forall x | Reached(edges, seeds, x) ensures x in xs {
      ClosedHoldsReached(edges, seeds, xs, x);
    }
  }

  ghost function Endpoints(edges: seq<Arc>): set<Key> {
    (set e | e in edges :: e.from) + (set e | e in edges :: e.to)
  }

  /** One pass over the edges, adding the far end of every edge that touches the set. */
  method Pass(edges: seq<Arc>, ghost seeds: set<Key>, before: set<Key>) returns (after: set<Key>, changed: bool)
    requires AllReached(edges, seeds, before)
    requires before <= seeds + Endpoints(edges)
    ensures before <= after <= seeds + Endpoints(edges)
    ensures AllReached(edges, seeds, after)
    ensures changed <==> after != before
    ensures !changed ==> ClosedUnder(edges, after)
  {
    after, changed := before, false;
    for i := 0 to |edges|
      invariant before <= after <= seeds + Endpoints(edges)
      invariant AllReached(edges, seeds, after)
      invariant changed <==> after != before
      invariant !changed ==> forall j {:trigger edges[j]} :: 0 <= j < i ==> (edges[j].from in after <==> edges[j].to in after)
    {
      var edge := edges[i];
      assert edge in edges;
      if edge.to in after && edge.from !in after {
        ReachedStep(edges, seeds, i, edge.to, edge.from);
        after, changed := after + {edge.from}, true;
      }
      if edge.from in after && edge.to !in after {
        ReachedStep(edges, seeds, i, edge.from, edge.to);
        after, changed := after + {edge.to}, true;
      }
    }
  }

  /** The while-changed loop: repeats the pass until nothing is added. It ends because
      every pass but the last takes an endpoint out of those not yet reached. */
  method Close(edges: seq<Arc>, seeds: set<Key>) returns (reached: set<Key>)
    ensures forall x :: x in reached <==> Reached(edges, seeds, x)
    ensures reached <= seeds + Endpoints(edges)
  {
    reached := seeds;
    SeedsReached(edges, seeds);
    var changed := true;
    ghost var all := seeds + Endpoints(edges);
    while changed
      invariant seeds <= reached <= all
      invariant AllReached(edges, seeds, reached)
      invariant !changed ==> ClosedUnder(edges, reached)
      decreases all - reached, changed
    {
      var after;
      after, changed := Pass(edges, seeds, reached);
      if changed {
        ghost var x :| x in after && x !in reached;
        assert x in all - reached && x !in all - after;
      }
      reached := after;
    }
    ClosedIsReached(edges, seeds, reached);
  }

  function Seeds(nodes: seq<Node>, start: Key): set<Key> {
    set n | n in nodes && (n.id == start || n.name == start) :: n.id
  }

  /** Everything connected to the seeds. */
  ghost function Component(edges: seq<Arc>, seeds: set<Key>): set<Key> {
    set x | x in seeds + Endpoints(edges) && Reached(edges, seeds, x)
  }

  lemma {:induction false} WhereSame<T>(s: seq<T>, f: T -> bool, g: T -> bool)
    requires forall x :: x in s ==> f(x) == g(x)
    ensures Where(s, f) == Where(s, g)
  {
    if s == [] {
    } else {
      WhereSame(s[1..], f, g);
    }
  }

  /** Connected to a node whose identifier or name is the starting point. */
  ghost predicate FromStart(nodes: seq<Node>, edges: seq<Arc>, start: Key, x: Key) {
    exists n :: n in nodes && (n.id == start || n.name == start) && Connected(ArcPairs(edges), n.id, x)
  }

  lemma StartIsSeed(nodes: seq<Node>, edges: seq<Arc>, start: Key, x: Key)
    ensures FromStart(nodes, edges, start, x) <==> Reached(edges, Seeds(nodes, start), x)
  {
    if FromStart(nodes, edges, start, x) {
      var n :| n in nodes && (n.id == start || n.name == start) && Connected(ArcPairs(edges), n.id, x);
      assert n.id in Seeds(nodes, start);
    }
    if Reached(edges, Seeds(nodes, start), x) {
      var s :| s in Seeds(nodes, start) && Connected(ArcPairs(edges), s, x);
      var n :| n in nodes && (n.id == start || n.name == start) && n.id == s;
    }
  }

  /** The trace holds exactly the nodes connected to the starting point, found by id or by
      name, and exactly the edges that touch them, each list in stored order. */
  method Trace(nodes: seq<Node>, edges: seq<Arc>, start: Key) returns (found: seq<Node>, arcs: seq<Arc>)
    ensures var component := Component(edges, Seeds(nodes, start));
            && found == Where(nodes, (n: Node) => n.id in component)
            && arcs == Where(edges, (e: Arc) => e.from in component || e.to in component)
    ensures forall n :: n in found <==> n in nodes && FromStart(nodes, edges, start, n.id)
    ensures forall e :: e in arcs <==> e in edges && (FromStart(nodes, edges, start, e.from) || FromStart(nodes, edges, start, e.to))
  {
    var seeds := Seeds(nodes, start);
    forall x ensures FromStart(nodes, edges, start, x) <==> Reached(edges, seeds, x) {
      StartIsSeed(nodes, edges, start, x);
    }
    if seeds == {} {
      found, arcs := [], [];
      WhereNone(nodes, edges);
      return;
    }
    var xs := Close(edges, seeds);
    ghost var component := Component(edges, seeds);
    ComponentIs(edges, seeds, xs);
    found := Where(nodes, (n: Node) => n.id in xs);
    WhereExactly(nodes, (n: Node) => n.id in xs);
    WhereSame(nodes, (n: Node) => n.id in xs, (n: Node) => n.id in component);
    arcs := Where(edges, (e: Arc) => e.from in xs && e.to in xs);
    TouchingIsInside(edges, seeds, xs);
    WhereExactly(edges, (e: Arc) => e.from in xs && e.to in xs);
    WhereSame(edges, (e: Arc) => e.from in xs && e.to in xs, (e: Arc) => e.from in component || e.to in component);
  }

  lemma ComponentIs(edges: seq<Arc>, seeds: set<Key>, xs: set<Key>)
    requires xs <= seeds + Endpoints(edges) && forall x :: x in xs <==> Reached(edges, seeds, x)
    ensures xs == Component(edges, seeds)
  {
  }

  lemma {:induction false} WhereFalse<T>(s: seq<T>, f: T -> bool)
    requires forall x :: x in s ==> !f(x)
    ensures Where(s, f) == []
  {
    if s == [] {
    } else {
      WhereFalse(s[1..], f);
    }
  }

  /** Without seeds there is nothing to find. */
  lemma WhereNone(nodes: seq<Node>, edges: seq<Arc>)
    ensures var component := Component(edges, {});
            && Where(nodes, (n: Node) => n.id in component) == []
            && Where(edges, (e: Arc) => e.from in component || e.to in component) == []
    ensures forall x :: !Reached(edges, {}, x)
  {
    var component := Component(edges, {});
    assert component == {};
    WhereFalse(nodes, (n: Node) => n.id in component);
    WhereFalse(edges, (e: Arc) => e.from in component || e.to in component);
  }

  lemma TouchingIsInside(edges: seq<Arc>, seeds: set<Key>, xs: set<Key>)
    requires forall x :: x in xs <==> Reached(edges, seeds, x)
    ensures forall e :: e in edges && (e.from in xs || e.to in xs) ==> e.from in xs && e.to in xs
  {
    forall e | e in edges && (e.from in xs || e.to in xs) ensures e.from in xs && e.to in xs {
      var i :| 0 <= i < |edges| && edges[i] == e;
      if e.from in xs {
        ReachedStep(edges, seeds, i, e.from, e.to);
      } else {
        ReachedStep(edges, seeds, i, e.to, e.from);
      }
    }
  }

  // ----- Recording -----

  /** The namespaces that recorders use; each fixes the node type that goes with it. */
  datatype Namespace = RawDatasets | MappingJobs | CanonicalFields | MartDatasets | ExportDatasets

  /** Nodes are found by type, namespace and name, which identify them here. */
  datatype Vertex = Vertex(namespace: Namespace, name: string)
  datatype Relation = Used | Generated | Produced | DerivedFrom
  datatype Edge = Edge(from: Vertex, to: Vertex, relation: Relation)
  datatype Graph = Graph(vertices: seq<Vertex>, edges: seq<Edge>)

  datatype Recording =
    | OfMapping(snapshot: string, mapping: string, version: string, targets: seq<string>)
    | OfMart(mart: string, source: Option<string>, job: Option<(string, Option<string>)>)
    | OfExport(mart: string, published: string)

  function Raw(id: string): Vertex { Vertex(RawDatasets, id) }
  function Job(mapping: string, version: string): Vertex { Vertex(MappingJobs, mapping + ":" + version) }
  function Field(mapping: string, target: string): Vertex { Vertex(CanonicalFields, mapping + "." + target) }
  function Mart(id: string): Vertex { Vertex(MartDatasets, id) }
  function Published(id: string): Vertex { Vertex(ExportDatasets, id) }

  function JobVersion(version: Option<string>): string {
    if version.Some? && version.value != "" then version.value else "unversioned"
  }

  /** The names under which nodes are found again. */
  lemma VertexNames(mapping: string, version: string, target: string)
    ensures Job(mapping, JobVersion(Some(version))).name == mapping + (if version == "" then ":unversioned" else ":" + version)
    ensures Job(mapping, JobVersion(None)).name == mapping + ":unversioned"
    ensures Field(mapping, target).name == mapping + "." + target
  {
    assert mapping + ":" + "unversioned" == mapping + ":unversioned";
    assert mapping + ":" + version == mapping + (":" + version);
  }

  function RawOf(source: Option<string>): Option<Vertex> {
    if source.Some? then Some(Raw(source.value)) else None
  }

  function JobOf(job: Option<(string, Option<string>)>): Option<Vertex> {
    if job.Some? then Some(Job(job.value.0, JobVersion(job.value.1))) else None
  }

  function Present<T>(x: Option<T>): set<T> {
    if x.Some? then {x.value} else {}
  }

  /** The nodes that a recording is about. */
  function VerticesOf(r: Recording): set<Vertex> {
    match r
    case OfMapping(snapshot, mapping, version, targets) =>
      {Raw(snapshot), Job(mapping, version)} + set t | t in targets :: Field(mapping, t)
    case OfMart(mart, source, job) => {Mart(mart)} + Present(RawOf(source)) + Present(JobOf(job))
    case OfExport(mart, published) => {Mart(mart), Published(published)}
  }

  /** And its edges. A mart hangs below the mapping job, else below the raw snapshot, else
      below nothing; a job hangs below the raw snapshot if there is one. */
  function EdgesOf(r: Recording): set<Edge> {
    match r
    case OfMapping(snapshot, mapping, version, targets) =>
      {Edge(Raw(snapshot), Job(mapping, version), Used)}
      + set t | t in targets :: Edge(Job(mapping, version), Field(mapping, t), Generated)
    case OfMart(mart, source, job) => MartEdges(Mart(mart), RawOf(source), JobOf(job))
    case OfExport(mart, published) => {Edge(Mart(mart), Published(published), DerivedFrom)}
  }

  function MartEdges(mart: Vertex, raw: Option<Vertex>, job: Option<Vertex>): set<Edge> {
    match (raw, job)
    case (None, None) => {}
    case (Some(r), None) => {Edge(r, mart, Produced)}
    case (None, Some(j)) => {Edge(j, mart, Produced)}
    case (Some(r), Some(j)) => {Edge(r, j, Used), Edge(j, mart, Produced)}
  }

  function Layer(v: Vertex): nat {
    match v.namespace
    case RawDatasets => 0
    case MappingJobs => 1
    case CanonicalFields => 2
    case MartDatasets => 2
    case ExportDatasets => 3
  }

  predicate Upward(e: Edge) {
    Layer(e.from) < Layer(e.to)
  }

  predicate Anchored(g: Graph, e: Edge) {
    e.from in g.vertices && e.to in g.vertices
  }

  /** No duplicate vertex or edge, every edge between stored vertices and strictly up the layers. */
  ghost predicate WellFormed(g: Graph) {
    && Distinct(g.vertices) && Distinct(g.edges)
    && forall e :: e in g.edges ==> Upward(e) && Anchored(g, e)
  }

  /** `after` holds what `before` held, in place, and exactly `vs` and `es` besides, without
      storing anything twice. */
  ghost predicate Adds(before: Graph, after: Graph, vs: set<Vertex>, es: set<Edge>) {
    Extends(before.vertices, after.vertices, vs) && Extends(before.edges, after.edges, es)
  }

  ghost predicate Extends<T(!new)>(before: seq<T>, after: seq<T>, added: set<T>) {
    && before <= after
    && (forall x :: x in after <==> x in before || x in added)
    && (Distinct(before) ==> Distinct(after))
  }

  lemma ExtendsTrans<T(!new)>(a: seq<T>, b: seq<T>, c: seq<T>, xs: set<T>, ys: set<T>)
    requires Extends(a, b, xs) && Extends(b, c, ys)
    ensures Extends(a, c, xs + ys)
  {
  }

  lemma AddsTrans(a: Graph, b: Graph, c: Graph, vs: set<Vertex>, es: set<Edge>, ws: set<Vertex>, fs: set<Edge>)
    requires Adds(a, b, vs, es) && Adds(b, c, ws, fs)
    ensures Adds(a, c, vs + ws, es + fs)
  {
    ExtendsTrans(a.vertices, b.vertices, c.vertices, vs, ws);
    ExtendsTrans(a.edges, b.edges, c.edges, es, fs);
  }

  /** Storing again what is stored changes nothing. */
  lemma ExtendsTwice<T(!new)>(a: seq<T>, b: seq<T>, c: seq<T>, xs: set<T>)
    requires Extends(a, b, xs) && Extends(b, c, xs) && Distinct(b)
    ensures c == b
  {
    if |b| < |c| {
      NothingNewRepeats(b, c);
    }
  }

  lemma NothingNewRepeats<T>(b: seq<T>, c: seq<T>)
    requires b <= c && |b| < |c| && forall x :: x in c ==> x in b
    ensures !Distinct(c)
  {
    assert c[|b|] in b;
    var i :| 0 <= i < |b| && b[i] == c[|b|];
    assert c[i] == c[|b|];
  }

  /** Recording the same thing again changes nothing. */
  lemma RecordersIdempotent(a: Graph, b: Graph, c: Graph, r: Recording)
    requires WellFormed(a) && Adds(a, b, VerticesOf(r), EdgesOf(r)) && Adds(b, c, VerticesOf(r), EdgesOf(r))
    ensures c == b
  {
    ExtendsTwice(a.vertices, b.vertices, c.vertices, VerticesOf(r));
    ExtendsTwice(a.edges, b.edges, c.edges, EdgesOf(r));
  }

  lemma RecordedEdges(r: Recording, e: Edge)
    requires e in EdgesOf(r)
    ensures Upward(e) && e.from in VerticesOf(r) && e.to in VerticesOf(r)
  {
    match r
    case OfMapping(_, _, _, _) =>
    case OfExport(_, _) =>
    case OfMart(mart, source, job) => MartEdgesUpward(Mart(mart), RawOf(source), JobOf(job), e);
  }

  lemma MartEdgesUpward(mart: Vertex, raw: Option<Vertex>, job: Option<Vertex>, e: Edge)
    requires e in MartEdges(mart, raw, job) && Layer(mart) == 2
    requires (raw.Some? ==> Layer(raw.value) == 0) && (job.Some? ==> Layer(job.value) == 1)
    ensures Upward(e) && e.from in {mart} + Present(raw) + Present(job) && e.to in {mart} + Present(raw) + Present(job)
  {
  }

  lemma RecordingKeepsWellFormed(before: Graph, after: Graph, r: Recording)
    requires WellFormed(before) && Adds(before, after, VerticesOf(r), EdgesOf(r))
    ensures WellFormed(after)
  {
    forall e | e in after.edges ensures Upward(e) && Anchored(after, e) {
      if e in before.edges {
        assert Anchored(before, e);
      } else {
        RecordedEdges(r, e);
      }
    }
  }

  /** The graphs that a sequence of recordings leaves, from nothing. */
  ghost predicate Recorded(recordings: seq<Recording>, graphs: seq<Graph>) {
    && |graphs| == |recordings| + 1 && graphs[0] == Graph([], [])
    && forall i :: 0 <= i < |recordings| ==> Adds(graphs[i], graphs[i + 1], VerticesOf(recordings[i]), EdgesOf(recordings[i]))
  }

  ghost predicate MadeBy(recordings: seq<Recording>, n: nat, e: Edge) {
    exists k :: 0 <= k < n <= |recordings| && e in EdgesOf(recordings[k])
  }

  /** Over every sequence of recordings the graph is well formed and its edges are exactly
      those of the recordings so far. */
  lemma {:induction false} EveryRecordedGraph(recordings: seq<Recording>, graphs: seq<Graph>, n: nat)
    requires Recorded(recordings, graphs) && n <= |recordings|
    ensures WellFormed(graphs[n]) && forall e :: e in graphs[n].edges <==> MadeBy(recordings, n, e)
  {
    if n == 0 {
    } else {
      EveryRecordedGraph(recordings, graphs, n - 1);
      RecordingKeepsWellFormed(graphs[n - 1], graphs[n], recordings[n - 1]);
      forall e ensures MadeBy(recordings, n, e) <==> MadeBy(recordings, n - 1, e) || e in EdgesOf(recordings[n - 1]) {
        MadeByNext(recordings, n - 1, e);
      }
    }
  }

  lemma MadeByNext(recordings: seq<Recording>, n: nat, e: Edge)
    requires n < |recordings|
    ensures MadeBy(recordings, n + 1, e) <==> MadeBy(recordings, n, e) || e in EdgesOf(recordings[n])
  {
    if MadeBy(recordings, n, e) {
      var k :| 0 <= k < n && e in EdgesOf(recordings[k]);
      assert k < n + 1;
    }
  }

  /** A directed path along edges of the graph. */
  ghost predicate Path(g: Graph, p: seq<Vertex>) {
    |p| > 0 && forall i {:trigger p[i]} :: 0 <= i < |p| - 1 ==> exists e :: e in g.edges && e.from == p[i] && e.to == p[i + 1]
  }

  lemma {:induction false} PathsClimb(g: Graph, p: seq<Vertex>, i: nat, j: nat)
    requires WellFormed(g) && Path(g, p) && i <= j < |p|
    ensures Layer(p[i]) + (j - i) <= Layer(p[j])
    decreases j
  {
    if i == j {
    } else {
      PathsClimb(g, p, i, j - 1);
      assert p[j - 1] == p[j - 1];
    }
  }

  /** The graph stays acyclic: a path has at most four vertices and never returns. */
  lemma RecordedGraphAcyclic(g: Graph, p: seq<Vertex>)
    requires WellFormed(g) && Path(g, p)
    ensures |p| <= 4 && (|p| > 1 ==> p[0] != p[|p| - 1])
  {
    PathsClimb(g, p, 0, |p| - 1);
  }

  ghost predicate RecordedBy(recordings: seq<Recording>, n: nat, r: Recording) {
    exists k :: 0 <= k < n <= |recordings| && recordings[k] == r
  }

  lemma EdgeStored(recordings: seq<Recording>, graphs: seq<Graph>, n: nat, r: Recording, e: Edge)
    requires Recorded(recordings, graphs) && n <= |recordings| && RecordedBy(recordings, n, r) && e in EdgesOf(r)
    ensures e in graphs[n].edges
  {
    var k :| 0 <= k < n && recordings[k] == r;
    assert MadeBy(recordings, n, e);
    EveryRecordedGraph(recordings, graphs, n);
  }

  /** What recording is for: a published export leads back through its mart and the versioned
      mapping to the raw snapshot, and the snapshot leads to every mapped field. */
  lemma ExportLeadsToRaw(recordings: seq<Recording>, graphs: seq<Graph>, n: nat, snapshot: string, mapping: string, version: string,
                         targets: seq<string>, field: string, mart: string, published: string)
    requires Recorded(recordings, graphs) && n <= |recordings| && version != "" && field in targets
    requires RecordedBy(recordings, n, OfMapping(snapshot, mapping, version, targets))
    requires RecordedBy(recordings, n, OfMart(mart, Some(snapshot), Some((mapping, Some(version)))))
    requires RecordedBy(recordings, n, OfExport(mart, published))
    ensures Path(graphs[n], [Raw(snapshot), Job(mapping, version), Mart(mart), Published(published)])
    ensures Path(graphs[n], [Raw(snapshot), Job(mapping, version), Field(mapping, field)])
  {
    var raw, job, target := Raw(snapshot), Job(mapping, version), Mart(mart);
    EdgeStored(recordings, graphs, n, OfMapping(snapshot, mapping, version, targets), Edge(raw, job, Used));
    EdgeStored(recordings, graphs, n, OfMapping(snapshot, mapping, version, targets), Edge(job, Field(mapping, field), Generated));
    EdgeStored(recordings, graphs, n, OfMart(mart, Some(snapshot), Some((mapping, Some(version)))), Edge(job, target, Produced));
    EdgeStored(recordings, graphs, n, OfExport(mart, published), Edge(target, Published(published), DerivedFrom));
  }

  class Recorder {
    var graph: Graph

    constructor ()
      ensures graph == Graph([], [])
    {
      graph := Graph([], []);
    }

    /** Finds the vertex or creates it. */
    method Ensure(v: Vertex)
      modifies this
      ensures Adds(old(graph), graph, {v}, {})
    {
      if v !in graph.vertices {
        graph := graph.(vertices := graph.vertices + [v]);
      }
    }

    /** Finds the edge or creates it. */
    method Link(from: Vertex, to: Vertex, relation: Relation)
      modifies this
      ensures Adds(old(graph), graph, {}, {Edge(from, to, relation)})
    {
      var e := Edge(from, to, relation);
      if e !in graph.edges {
        graph := graph.(edges := graph.edges + [e]);
      }
    }

    /** A vertex that hangs below another. */
    method Hang(from: Vertex, to: Vertex, relation: Relation)
      modifies this
      ensures Adds(old(graph), graph, {to}, {Edge(from, to, relation)})
    {
      Ensure(to);
      ghost var middle := graph;
      Link(from, to, relation);
      AddsTrans(old(graph), middle, graph, {to}, {}, {}, {Edge(from, to, relation)});
      assert {to} + {} == {to} && {} + {Edge(from, to, relation)} == {Edge(from, to, relation)};
    }

    method RecordMapping(snapshot: string, mapping: string, version: string, targets: seq<string>) returns (nodes: seq<Vertex>)
      requires WellFormed(graph)
      modifies this
      ensures var r := OfMapping(snapshot, mapping, version, targets);
              Adds(old(graph), graph, VerticesOf(r), EdgesOf(r)) && WellFormed(graph)
      ensures nodes == [Raw(snapshot), Job(mapping, version)] + seq(|targets|, i requires 0 <= i < |targets| => Field(mapping, targets[i]))
    {
      var source, job := Raw(snapshot), Job(mapping, version);
      Ensure(source);
      ghost var middle := graph;
      Hang(source, job, Used);
      AddsTrans(old(graph), middle, graph, {source}, {}, {job}, {Edge(source, job, Used)});
      nodes := [source, job];
      ghost var r := OfMapping(snapshot, mapping, version, []);
      SameAdds(old(graph), graph, {source} + {job}, {} + {Edge(source, job, Used)}, r);
      for i := 0 to |targets|
        invariant r == OfMapping(snapshot, mapping, version, targets[..i])
        invariant Adds(old(graph), graph, VerticesOf(r), EdgesOf(r))
        invariant nodes == [source, job] + seq(i, j requires 0 <= j < i => Field(mapping, targets[j]))
      {
        var field := Field(mapping, targets[i]);
        middle := graph;
        Hang(job, field, Generated);
        AddsTrans(old(graph), middle, graph, VerticesOf(r), EdgesOf(r), {field}, {Edge(job, field, Generated)});
        OneMoreTarget(snapshot, mapping, version, targets, i);
        r := OfMapping(snapshot, mapping, version, targets[..i + 1]);
        nodes := nodes + [field];
      }
      assert targets[..|targets|] == targets;
      RecordingKeepsWellFormed(old(graph), graph, r);
    }

    /** What is known to be stored: the raw snapshot, the job and the edge between them. */
    method EnsureJob(job: Vertex, raw: Option<Vertex>)
      modifies this
      ensures Adds(old(graph), graph, {job}, if raw.Some? then {Edge(raw.value, job, Used)} else {})
    {
      if raw.Some? {
        Hang(raw.value, job, Used);
      } else {
        Ensure(job);
      }
    }

    method RecordMart(mart: string, source: Option<string>, job: Option<(string, Option<string>)>) returns (nodes: seq<Vertex>)
      requires WellFormed(graph)
      modifies this
      ensures var r := OfMart(mart, source, job);
              Adds(old(graph), graph, VerticesOf(r), EdgesOf(r)) && WellFormed(graph)
      ensures nodes == [Mart(mart)] + (if source.Some? then [RawOf(source).value] else []) + (if job.Some? then [JobOf(job).value] else [])
    {
      var target := Mart(mart);
      var raw, work := RawOf(source), JobOf(job);
      nodes := HangMart(target, raw, work);
      SameAdds(old(graph), graph, {target} + Present(raw) + Present(work), MartEdges(target, raw, work), OfMart(mart, source, job));
      RecordingKeepsWellFormed(old(graph), graph, OfMart(mart, source, job));
    }

    method HangMart(target: Vertex, raw: Option<Vertex>, job: Option<Vertex>) returns (nodes: seq<Vertex>)
      modifies this
      ensures Adds(old(graph), graph, {target} + Present(raw) + Present(job), MartEdges(target, raw, job))
      ensures nodes == [target] + (if raw.Some? then [raw.value] else []) + (if job.Some? then [job.value] else [])
    {
      ghost var vs, es: set<Edge>, middle := {target}, {}, graph;
      Ensure(target);
      nodes := [target];
      var upstream: Option<Vertex> := None;
      if raw.Some? {
        middle := graph;
        Ensure(raw.value);
        AddsTrans(old(graph), middle, graph, vs, es, {raw.value}, {});
        vs, es := vs + {raw.value}, es + {};
        nodes, upstream := nodes + [raw.value], raw;
      }
      if job.Some? {
        middle := graph;
        EnsureJob(job.value, upstream);
        ghost var added := if upstream.Some? then {Edge(upstream.value, job.value, Used)} else {};
        AddsTrans(old(graph), middle, graph, vs, es, {job.value}, added);
        vs, es := vs + {job.value}, es + added;
        nodes, upstream := nodes + [job.value], job;
      }
      if upstream.Some? {
        middle := graph;
        Link(upstream.value, target, Produced);
        AddsTrans(old(graph), middle, graph, vs, es, {}, {Edge(upstream.value, target, Produced)});
        vs, es := vs + {}, es + {Edge(upstream.value, target, Produced)};
      }
      assert vs == {target} + Present(raw) + Present(job);
      assert es == MartEdges(target, raw, job);
    }

    method RecordExport(mart: string, published: string) returns (nodes: seq<Vertex>, edge: Edge)
      requires WellFormed(graph)
      modifies this
      ensures var r := OfExport(mart, published);
              Adds(old(graph), graph, VerticesOf(r), EdgesOf(r)) && WellFormed(graph)
      ensures nodes == [Mart(mart), Published(published)] && edge == Edge(Mart(mart), Published(published), DerivedFrom)
    {
      var source, target := Mart(mart), Published(published);
      Ensure(source);
      ghost var middle := graph;
      Hang(source, target, DerivedFrom);
      nodes, edge := [source, target], Edge(source, target, DerivedFrom);
      AddsTrans(old(graph), middle, graph, {source}, {}, {target}, {edge});
      SameAdds(old(graph), graph, {source} + {target}, {} + {edge}, OfExport(mart, published));
      RecordingKeepsWellFormed(old(graph), graph, OfExport(mart, published));
    }
  }

  lemma SameAdds(before: Graph, after: Graph, vs: set<Vertex>, es: set<Edge>, r: Recording)
    requires Adds(before, after, vs, es) && vs == VerticesOf(r) && es == EdgesOf(r)
    ensures Adds(before, after, VerticesOf(r), EdgesOf(r))
  {
  }

  lemma OneMoreTarget(snapshot: string, mapping: string, version: string, targets: seq<string>, i: nat)
    requires i < |targets|
    ensures var r, r' := OfMapping(snapshot, mapping, version, targets[..i]), OfMapping(snapshot, mapping, version, targets[..i + 1]);
            && VerticesOf(r') == VerticesOf(r) + {Field(mapping, targets[i])}
            && EdgesOf(r') == EdgesOf(r) + {Edge(Job(mapping, version), Field(mapping, targets[i]), Generated)}
  {
    assert targets[..i + 1] == targets[..i] + [targets[i]];
    forall t ensures t in targets[..i + 1] <==> t in targets[..i] || t == targets[i] {
    }
  }
}
