/** The data-flow diagram (pythreatspec/pythreatspec.py, `PTSDfd` and
    `PTSDfdEdge`): edges between components, kept in a tree nested by source
    boundary, source component, destination boundary and destination component. */
module DataFlow {
  import opened Wrappers
  import opened Records
  import opened Identifiers

  /** What `PTSDfdEdge.meta` can hold: nothing, a `PTSSourceMeta`, or some other object. */
  datatype EdgeMeta = Unset | Meta(source: SourceMeta) | OtherObject

  /** `PTSDfdEdge` */
  datatype Edge = Edge(sourceBoundary: string, sourceComponent: string, destBoundary: string,
                       destComponent: string, connection: string, meta: EdgeMeta)

  const Uni := "uni"
  const Bi := "bi"

  /** `PTSDfdEdge.__init__`: every end point passes through `text_to_identifier`. */
  function MakeEdge(sb: string, sc: string, db: string, dc: string, connection: string, meta: EdgeMeta): (e: Edge)
    ensures Canonical(e.sourceBoundary) && Canonical(e.sourceComponent)
    ensures Canonical(e.destBoundary) && Canonical(e.destComponent)
    ensures e.connection == connection && e.meta == meta
  {
    Edge(TextToIdentifier(sb), TextToIdentifier(sc), TextToIdentifier(db), TextToIdentifier(dc), connection, meta)
  }

  /** The leaf of the tree: `{'type': …, 'meta': …}`. */
  datatype EdgeInfo = EdgeInfo(connection: string, meta: SourceMeta)

  type Tree = map<string, map<string, map<string, map<string, EdgeInfo>>>>

  /** The edge stored for the four end points, if any. */
  function Lookup(t: Tree, sb: string, sc: string, db: string, dc: string): Option<EdgeInfo>
  {
    if sb in t && sc in t[sb] && db in t[sb][sc] && dc in t[sb][sc][db] then Some(t[sb][sc][db][dc]) else None
  }

  /** The four steps of `add_edge`: create each missing level, then the leaf. */
  function WithSourceBoundary(t: Tree, sb: string): (r: Tree)
    ensures sb in r
  {
    if sb in t then t else t[sb := map[]]
  }

  function WithSourceComponent(t: Tree, sb: string, sc: string): (r: Tree)
    requires sb in t
    ensures sb in r && sc in r[sb]
  {
    if sc in t[sb] then t else t[sb := t[sb][sc := map[]]]
  }

  function WithDestBoundary(t: Tree, sb: string, sc: string, db: string): (r: Tree)
    requires sb in t && sc in t[sb]
    ensures sb in r && sc in r[sb] && db in r[sb][sc]
  {
    if db in t[sb][sc] then t else t[sb := t[sb][sc := t[sb][sc][db := map[]]]]
  }

  function WithDestComponent(t: Tree, sb: string, sc: string, db: string, dc: string, info: EdgeInfo): (r: Tree)
    requires sb in t && sc in t[sb] && db in t[sb][sc]
  {
    if dc in t[sb][sc][db] then t
    else t[sb := t[sb][sc := t[sb][sc][db := t[sb][sc][db][dc := info]]]]
  }

  /** The tree with the edge's leaf filled in when the four end points have none yet. */
  function Insert(t: Tree, e: Edge, info: EdgeInfo): Tree
  {
    var t1 := WithSourceBoundary(t, e.sourceBoundary);
    var t2 := WithSourceComponent(t1, e.sourceBoundary, e.sourceComponent);
    var t3 := WithDestBoundary(t2, e.sourceBoundary, e.sourceComponent, e.destBoundary);
    WithDestComponent(t3, e.sourceBoundary, e.sourceComponent, e.destBoundary, e.destComponent, info)
  }

  /** `PTSDfd.add_edge`: refuses an edge without metadata or with metadata of
      the wrong type, and never replaces an edge already stored. */
  function EdgeAdded(t: Tree, e: Edge): (r: Result<Tree, Error>)
    ensures e.meta.Unset? <==> r == Failure(MetadataNotSet)
    ensures e.meta.OtherObject? <==> r == Failure(MetadataWrongType)
  {
    match e.meta
    case Unset => Failure(MetadataNotSet)
    case OtherObject => Failure(MetadataWrongType)
    case Meta(m) => Success(Insert(t, e, EdgeInfo(e.connection, m)))
  }

  /** Creating an empty level changes no stored edge. */
  lemma LevelsKeepEdges(t: Tree, e: Edge, sb: string, sc: string, db: string, dc: string)
    ensures var t1 := WithSourceBoundary(t, e.sourceBoundary);
      var t2 := WithSourceComponent(t1, e.sourceBoundary, e.sourceComponent);
      var t3 := WithDestBoundary(t2, e.sourceBoundary, e.sourceComponent, e.destBoundary);
      && Lookup(t1, sb, sc, db, dc) == Lookup(t, sb, sc, db, dc)
      && Lookup(t2, sb, sc, db, dc) == Lookup(t, sb, sc, db, dc)
      && Lookup(t3, sb, sc, db, dc) == Lookup(t, sb, sc, db, dc)
  {
  }

  /** The first edge between two end points is the one kept; every other edge stays as it was. */
  lemma InsertLookup(t: Tree, e: Edge, info: EdgeInfo, sb: string, sc: string, db: string, dc: string)
    ensures var l := Lookup(Insert(t, e, info), sb, sc, db, dc);
      if (sb, sc, db, dc) == (e.sourceBoundary, e.sourceComponent, e.destBoundary, e.destComponent)
      then l == (if Lookup(t, sb, sc, db, dc).Some? then Lookup(t, sb, sc, db, dc) else Some(info))
      else l == Lookup(t, sb, sc, db, dc)
  {
    LevelsKeepEdges(t, e, sb, sc, db, dc);
  }

  /** After an insertion the edge is there, so adding it again changes nothing. */
  lemma InsertIdempotent(t: Tree, e: Edge, info: EdgeInfo, other: EdgeInfo)
    ensures Insert(Insert(t, e, info), e, other) == Insert(t, e, info)
  {
    var u := Insert(t, e, info);
    InsertLookup(t, e, info, e.sourceBoundary, e.sourceComponent, e.destBoundary, e.destComponent);
    assert Lookup(u, e.sourceBoundary, e.sourceComponent, e.destBoundary, e.destComponent).Some?;
  }

  // ---------------------------------------------------------------- export

  /** One exported edge: its type and where it was declared. */
  function EdgeJson(info: EdgeInfo): Json
  {
    JObject(map["type" := JString(info.connection), "function" := JString(info.meta.func),
                "fname" := JString(info.meta.fname), "lineno" := JInt(info.meta.lineno)])
  }

  /** An exported edge has exactly the keys type, function, fname and lineno,
      holding the connection and the three fields of its metadata. */
  lemma EdgeJsonFields(info: EdgeInfo)
    ensures var r := EdgeJson(info);
      && r.JObject? && r.fields.Keys == {"type", "function", "fname", "lineno"}
      && r.fields["type"] == JString(info.connection) && r.fields["lineno"] == JInt(info.meta.lineno)
      && r.fields["function"] == JString(info.meta.func) && r.fields["fname"] == JString(info.meta.fname)
  {
  }

  function DestJson(m: map<string, EdgeInfo>): Json
  {
    JObject(map dc | dc in m :: EdgeJson(m[dc]))
  }

  function DestBoundaryJson(m: map<string, map<string, EdgeInfo>>): Json
  {
    JObject(map db | db in m :: DestJson(m[db]))
  }

  function SourceComponentJson(m: map<string, map<string, map<string, EdgeInfo>>>): Json
  {
    JObject(map sc | sc in m :: DestBoundaryJson(m[sc]))
  }

  /** `PTSDfd.export_to_json`: the same four-level nesting, each leaf rendered by `EdgeJson`. */
  function TreeJson(t: Tree): Json
  {
    JObject(map sb | sb in t :: SourceComponentJson(t[sb]))
  }

  /** Every stored edge is exported, at its own four keys. */
  lemma TreeJsonLookup(t: Tree, sb: string, sc: string, db: string, dc: string)
    requires Lookup(t, sb, sc, db, dc).Some?
    ensures var j := TreeJson(t);
      && sb in j.fields && sc in j.fields[sb].fields && db in j.fields[sb].fields[sc].fields
      && dc in j.fields[sb].fields[sc].fields[db].fields
      && j.fields[sb].fields[sc].fields[db].fields[dc] == EdgeJson(Lookup(t, sb, sc, db, dc).value)
  {
  }

  /** `PTSDfd`: the tree, filled in place. */
  class Dfd {
    var tree: Tree

    constructor()
      ensures tree == map[]
    {
      tree := map[];
    }

    /** `add_edge` */
    method AddEdge(e: Edge) returns (r: Outcome<Error>)
      modifies this
      ensures EdgeAdded(old(tree), e).Success? ==> r == Pass && tree == EdgeAdded(old(tree), e).value
      ensures EdgeAdded(old(tree), e).Failure? ==> r == Fail(EdgeAdded(old(tree), e).error) && tree == old(tree)
    {
      match e.meta {
        case Unset => return Fail(MetadataNotSet);
        case OtherObject => return Fail(MetadataWrongType);
        case Meta(m) =>
      }
      if e.sourceBoundary !in tree {
        tree := tree[e.sourceBoundary := map[]];
      }
      if e.sourceComponent !in tree[e.sourceBoundary] {
        tree := tree[e.sourceBoundary := tree[e.sourceBoundary][e.sourceComponent := map[]]];
      }
      if e.destBoundary !in tree[e.sourceBoundary][e.sourceComponent] {
        tree := tree[e.sourceBoundary := tree[e.sourceBoundary][e.sourceComponent :=
          tree[e.sourceBoundary][e.sourceComponent][e.destBoundary := map[]]]];
      }
      if e.destComponent !in tree[e.sourceBoundary][e.sourceComponent][e.destBoundary] {
        tree := tree[e.sourceBoundary := tree[e.sourceBoundary][e.sourceComponent :=
          tree[e.sourceBoundary][e.sourceComponent][e.destBoundary :=
          tree[e.sourceBoundary][e.sourceComponent][e.destBoundary][e.destComponent := EdgeInfo(e.connection, e.meta.source)]]]];
      }
      return Pass;
    }

    /** `export_to_json` */
    method ExportToJson() returns (rep: Json)
      ensures rep == TreeJson(tree)
    {
      var r: map<string, Json> := map[];
      var todo := tree.Keys;
      while todo != {}
        invariant todo <= tree.Keys
        invariant r == map sb | sb in tree.Keys - todo :: SourceComponentJson(tree[sb])
        decreases todo
      {
        var sb :| sb in todo;
        var j := ExportSourceComponents(tree[sb]);
        r := r[sb := j];
        todo := todo - {sb};
      }
      return JObject(r);
    }
  }

  method ExportSourceComponents(m: map<string, map<string, map<string, EdgeInfo>>>) returns (rep: Json)
    ensures rep == SourceComponentJson(m)
  {
    var r: map<string, Json> := map[];
    var todo := m.Keys;
    while todo != {}
      invariant todo <= m.Keys
      invariant r == map sc | sc in m.Keys - todo :: DestBoundaryJson(m[sc])
      decreases todo
    {
      var sc :| sc in todo;
      var j := ExportDestBoundaries(m[sc]);
      r := r[sc := j];
      todo := todo - {sc};
    }
    return JObject(r);
  }

  method ExportDestBoundaries(m: map<string, map<string, EdgeInfo>>) returns (rep: Json)
    ensures rep == DestBoundaryJson(m)
  {
    var r: map<string, Json> := map[];
    var todo := m.Keys;
    while todo != {}
      invariant todo <= m.Keys
      invariant r == map db | db in m.Keys - todo :: DestJson(m[db])
      decreases todo
    {
      var db :| db in todo;
      var j := ExportDests(m[db]);
      r := r[db := j];
      todo := todo - {db};
    }
    return JObject(r);
  }

  method ExportDests(m: map<string, EdgeInfo>) returns (rep: Json)
    ensures rep == DestJson(m)
  {
    var r: map<string, Json> := map[];
    var todo := m.Keys;
    while todo != {}
      invariant todo <= m.Keys
      invariant r == map dc | dc in m.Keys - todo :: EdgeJson(m[dc])
      decreases todo
    {
      var dc :| dc in todo;
      r := r[dc := EdgeJson(m[dc])];
      todo := todo - {dc};
    }
    return JObject(r);
  }
}
