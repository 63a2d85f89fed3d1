/** `PyThreatspecReporter` (pythreatspec/pythreatspec.py): the intermediate
    document built from a parser's graph. `Document` is what `export_to_json`
    returns; the class method builds it with the source's loops. */
module Reporter {
  import opened Wrappers
  import opened Records
  import opened DataFlow
  import TM = ThreatModel
  import opened ParserState

  /** The `specification` block every document starts with. */
  const Specification: Json := JObject(map["name" := JString("ThreatSpec"), "version" := JString("0.1.0")])

  /** The five collections of a project, each under its own key. */
  const ProjectKeys: set<string> := {"mitigations", "exposures", "acceptances", "transfers", "reviews"}

  const DocumentKeys: set<string> := {"specification", "document", "boundaries", "components", "threats", "dfd", "projects"}

  function StoreKey(kind: ElementKind): (r: string)
    ensures r in ProjectKeys && r != "reviews"
  {
    match kind
    case Mitigation => "mitigations"
    case Exposure => "exposures"
    case Transfer => "transfers"
    case Acceptance => "acceptances"
  }

  /** The exports of one list of records, in order: a record without metadata
      makes the whole list fail. */
  function RecordsJson(recs: seq<Record>): (r: Result<seq<Json>, Error>)
    ensures r.Success? <==> forall k | 0 <= k < |recs| :: recs[k].meta.Some?
    ensures r.Failure? ==> r.error == MetadataNotSet
    ensures r.Success? ==> |r.value| == |recs| && forall k | 0 <= k < |recs| :: r.value[k] == RecordJson(recs[k]).value
  {
    if recs == [] then Success([])
    else
      match RecordJson(recs[0])
      case Failure(e) => Failure(e)
      case Success(j) =>
        match RecordsJson(recs[1..])
        case Failure(e) => Failure(e)
        case Success(js) => Success([j] + js)
  }

  /** Every record of a list has metadata. */
  predicate AllMeta(recs: seq<Record>)
  {
    forall k | 0 <= k < |recs| :: recs[k].meta.Some?
  }

  /** Every record of a store has metadata. */
  predicate StoreMeta(s: map<string, seq<Record>>)
  {
    forall id | id in s :: AllMeta(s[id])
  }

  /** One relationship dict: each id with the exports of its records, in order. */
  function StoreJson(s: map<string, seq<Record>>): (r: Result<Json, Error>)
    ensures r.Success? <==> StoreMeta(s)
    ensures r.Failure? ==> r.error == MetadataNotSet
  {
    if StoreMeta(s) then Success(JObject(map id | id in s :: JArray(RecordsJson(s[id]).value)))
    else Failure(MetadataNotSet)
  }

  /** A namespace: each id with `inner_rep` of its property. */
  function PropertiesJson(m: map<string, Property>): Json
  {
    JObject(map id | id in m :: PropertyJson(m[id]))
  }

  /** The components: each boundary id with its namespace of components. */
  function ComponentsJson(c: map<string, map<string, Property>>): Json
  {
    JObject(map b | b in c :: PropertiesJson(c[b]))
  }

  /** Every record of the graph can be exported. */
  predicate Exportable(g: TM.Graph)
  {
    StoreMeta(g.reviews) && StoreMeta(g.mitigations) && StoreMeta(g.exposures)
    && StoreMeta(g.acceptances) && StoreMeta(g.transfers)
  }

  /** `project_details`. */
  function ProjectJson(g: TM.Graph): Result<Json, Error>
  {
    if Exportable(g) then
      Success(JObject(map["mitigations" := StoreJson(g.mitigations).value,
                          "exposures" := StoreJson(g.exposures).value,
                          "acceptances" := StoreJson(g.acceptances).value,
                          "transfers" := StoreJson(g.transfers).value,
                          "reviews" := StoreJson(g.reviews).value]))
    else Failure(MetadataNotSet)
  }

  /** `PyThreatspecReporter.export_to_json` for a graph, the parser's two times
      and a project name. */
  function Document(g: TM.Graph, created: int, updated: int, project: string): (r: Result<Json, Error>)
    ensures r.Success? <==> Exportable(g)
    ensures r.Failure? ==> r.error == MetadataNotSet
  {
    match ProjectJson(g)
    case Failure(e) => Failure(e)
    case Success(details) =>
      Success(JObject(map["specification" := Specification,
                          "document" := JObject(map["created" := JInt(created), "updated" := JInt(updated)]),
                          "boundaries" := PropertiesJson(g.boundaries),
                          "components" := ComponentsJson(g.components),
                          "threats" := PropertiesJson(g.threats),
                          "dfd" := TreeJson(g.dfd),
                          "projects" := JObject(map[project := details])]))
  }

  // ---------------------------------------------------------------- what the document holds

  lemma DocumentKeysOf(a: Json, b: Json, c: Json, d: Json, e: Json, f: Json, h: Json)
    ensures map["specification" := a, "document" := b, "boundaries" := c, "components" := d,
                "threats" := e, "dfd" := f, "projects" := h].Keys == DocumentKeys
  {
  }

  lemma ProjectKeysOf(a: Json, b: Json, c: Json, d: Json, e: Json)
    ensures map["mitigations" := a, "exposures" := b, "acceptances" := c, "transfers" := d, "reviews" := e].Keys == ProjectKeys
  {
  }

  /** The document always has the same seven keys, ... */
  lemma DocumentKeysFixed(g: TM.Graph, created: int, updated: int, project: string)
    requires Exportable(g)
    ensures var d := Document(g, created, updated, project).value;
      d.JObject? && d.fields.Keys == DocumentKeys
  {
    DocumentKeysOf(Specification, JObject(map["created" := JInt(created), "updated" := JInt(updated)]),
                   PropertiesJson(g.boundaries), ComponentsJson(g.components), PropertiesJson(g.threats),
                   TreeJson(g.dfd), JObject(map[project := ProjectJson(g).value]));
  }

  /** ... the same specification block and the parser's two times, ... */
  lemma DocumentHeader(g: TM.Graph, created: int, updated: int, project: string)
    requires Exportable(g)
    ensures var d := Document(g, created, updated, project).value;
      && d.JObject? && "specification" in d.fields && "document" in d.fields
      && d.fields["specification"] == Specification
      && d.fields["document"] == JObject(map["created" := JInt(created), "updated" := JInt(updated)])
  {
  }

  /** ... and one project holding all five collections, each present even
      when it is empty. */
  lemma DocumentProject(g: TM.Graph, created: int, updated: int, project: string)
    requires Exportable(g)
    ensures var d := Document(g, created, updated, project).value;
      && d.JObject? && "projects" in d.fields
      && d.fields["projects"].JObject? && d.fields["projects"].fields.Keys == {project}
      && d.fields["projects"].fields[project] == ProjectJson(g).value
      && ProjectJson(g).value.JObject? && ProjectJson(g).value.fields.Keys == ProjectKeys
  {
    ProjectKeysOf(StoreJson(g.mitigations).value, StoreJson(g.exposures).value, StoreJson(g.acceptances).value,
                  StoreJson(g.transfers).value, StoreJson(g.reviews).value);
  }

  /** The collection of a relationship kind in the document's project. */
  function Collection(d: Json, project: string, key: string): Json
  {
    if d.JObject? && "projects" in d.fields && d.fields["projects"].JObject? && project in d.fields["projects"].fields
       && d.fields["projects"].fields[project].JObject? && key in d.fields["projects"].fields[project].fields
    then d.fields["projects"].fields[project].fields[key]
    else JObject(map[])
  }

  /** A store is exported id for id, each with the exports of its records,
      one for one and in the order they were appended. */
  lemma StoreRecords(s: map<string, seq<Record>>, id: string)
    requires StoreMeta(s) && id in s
    ensures var c := StoreJson(s).value;
      && c.JObject? && c.fields.Keys == s.Keys
      && c.fields[id].JArray? && |c.fields[id].items| == |s[id]|
      && forall k | 0 <= k < |s[id]| :: c.fields[id].items[k] == RecordJson(s[id][k]).value
  {
    assert StoreJson(s).value.fields[id] == JArray(RecordsJson(s[id]).value);
  }

  /** Where each store lands in the document: under the project, at the key of its kind. */
  lemma StoreCollection(g: TM.Graph, created: int, updated: int, project: string, kind: ElementKind)
    requires Exportable(g)
    ensures StoreMeta(TM.Store(g, kind))
    ensures Collection(Document(g, created, updated, project).value, project, StoreKey(kind)) == StoreJson(TM.Store(g, kind)).value
  {
    DocumentProject(g, created, updated, project);
    match kind
    case Mitigation =>
    case Exposure =>
    case Transfer =>
    case Acceptance =>
  }

  /** Each id of a relationship store is exported with the exports of its
      records, one for one and in the order they were appended. */
  lemma ExportedRecords(g: TM.Graph, created: int, updated: int, project: string, kind: ElementKind, id: string)
    requires Exportable(g) && id in TM.Store(g, kind)
    ensures var c := Collection(Document(g, created, updated, project).value, project, StoreKey(kind));
      var recs := TM.Store(g, kind)[id];
      && c.JObject? && c.fields.Keys == TM.Store(g, kind).Keys
      && c.fields[id].JArray? && |c.fields[id].items| == |recs|
      && forall k | 0 <= k < |recs| :: c.fields[id].items[k] == RecordJson(recs[k]).value
  {
    StoreCollection(g, created, updated, project, kind);
    StoreRecords(TM.Store(g, kind), id);
  }

  /** The same for the reviews. */
  lemma ExportedReviews(g: TM.Graph, created: int, updated: int, project: string, id: string)
    requires Exportable(g) && id in g.reviews
    ensures var c := Collection(Document(g, created, updated, project).value, project, "reviews");
      var recs := g.reviews[id];
      && c.JObject? && c.fields.Keys == g.reviews.Keys
      && c.fields[id].JArray? && |c.fields[id].items| == |recs|
      && forall k | 0 <= k < |recs| :: c.fields[id].items[k] == RecordJson(recs[k]).value
  {
    DocumentProject(g, created, updated, project);
    StoreRecords(g.reviews, id);
  }

  /** Every boundary is exported under its id with its name, and with its
      description exactly when that is not empty. */
  lemma ExportedProperties(g: TM.Graph, created: int, updated: int, project: string, id: string)
    requires Exportable(g) && id in g.boundaries
    ensures var d := Document(g, created, updated, project).value;
      var p := g.boundaries[id];
      && d.fields["boundaries"].JObject? && d.fields["boundaries"].fields.Keys == g.boundaries.Keys
      && d.fields["boundaries"].fields[id].fields["name"] == JString(p.name)
      && ("description" in d.fields["boundaries"].fields[id].fields <==> p.desc != "")
  {
    DocumentProject(g, created, updated, project);
  }

  /** Every edge of the diagram is exported at its four ids. */
  lemma ExportedEdges(g: TM.Graph, created: int, updated: int, project: string, sb: string, sc: string, db: string, dc: string)
    requires Exportable(g) && Lookup(g.dfd, sb, sc, db, dc).Some?
    ensures var d := Document(g, created, updated, project).value.fields["dfd"];
      d.fields[sb].fields[sc].fields[db].fields[dc] == EdgeJson(Lookup(g.dfd, sb, sc, db, dc).value)
  {
    DocumentProject(g, created, updated, project);
    TreeJsonLookup(g.dfd, sb, sc, db, dc);
  }

  /** A record set by a handler always has metadata, so every valid graph exports. */
  lemma ValidExportable(g: TM.Graph)
    requires TM.Valid(g)
    ensures Exportable(g)
  {
    forall s: map<string, seq<Record>> | s in [g.reviews, g.mitigations, g.exposures, g.acceptances, g.transfers]
      ensures StoreMeta(s)
    {
      assert TM.HasMeta(s);
      forall id | id in s
        ensures AllMeta(s[id])
      {
        forall k | 0 <= k < |s[id]|
          ensures s[id][k].meta.Some?
        {
          assert s[id][k] in s[id];
        }
      }
    }
  }

  /** Whatever comments a fresh parser is given, and whichever of them stops
      it with an error, the reporter can export what it built. */
  lemma ParsedExports(comments: seq<(Option<string>, SourceMeta)>, created: int, updated: int, project: string)
    ensures Document(TM.ParseAll(TM.Empty, comments).graph, created, updated, project).Success?
  {
    TM.EmptyValid();
    TM.ParseAllValid(TM.Empty, comments);
    ValidExportable(TM.ParseAll(TM.Empty, comments).graph);
  }

  // ---------------------------------------------------------------- the reporter

  /** `PyThreatspecReporter`: a parser and a project name. */
  class Reporter {
    const parser: Parser
    const project: string

    constructor(parser: Parser, project: string)
      ensures this.parser == parser && this.project == project
    {
      this.parser := parser;
      this.project := project;
    }

    /** `export_to_json` */
    method ExportToJson() returns (r: Result<Json, Error>)
      ensures r == Document(parser.State(), parser.creationTime, parser.updatedTime, project)
    {
      var boundaries := ExportProperties(parser.boundaries);
      var components := ExportComponents(parser.components);
      var threats := ExportProperties(parser.threats);
      var dfd := parser.dfd.ExportToJson();
      var reviews := ExportStore(parser.reviews);
      if reviews.Failure? {
        return Failure(reviews.error);
      }
      var mitigations := ExportStore(parser.mitigations);
      if mitigations.Failure? {
        return Failure(mitigations.error);
      }
      var exposures := ExportStore(parser.exposures);
      if exposures.Failure? {
        return Failure(exposures.error);
      }
      var acceptances := ExportStore(parser.acceptances);
      if acceptances.Failure? {
        return Failure(acceptances.error);
      }
      var transfers := ExportStore(parser.transfers);
      if transfers.Failure? {
        return Failure(transfers.error);
      }
      var details := JObject(map["mitigations" := mitigations.value, "exposures" := exposures.value,
                                 "acceptances" := acceptances.value, "transfers" := transfers.value,
                                 "reviews" := reviews.value]);
      return Success(JObject(map["specification" := Specification,
                                 "document" := JObject(map["created" := JInt(parser.creationTime), "updated" := JInt(parser.updatedTime)]),
                                 "boundaries" := boundaries, "components" := components, "threats" := threats,
                                 "dfd" := dfd, "projects" := JObject(map[project := details])]));
    }
  }

  /** The loop over a namespace. */
  method ExportProperties(m: map<string, Property>) returns (rep: Json)
    ensures rep == PropertiesJson(m)
  {
    var r: map<string, Json> := map[];
    var todo := m.Keys;
    while todo != {}
      invariant todo <= m.Keys
      invariant r == map id | id in m.Keys - todo :: PropertyJson(m[id])
      decreases todo
    {
      var id :| id in todo;
      r := r[id := PropertyJson(m[id])];
      todo := todo - {id};
    }
    return JObject(r);
  }

  /** The nested loop over the components of each boundary. */
  method ExportComponents(c: map<string, map<string, Property>>) returns (rep: Json)
    ensures rep == ComponentsJson(c)
  {
    var r: map<string, Json> := map[];
    var todo := c.Keys;
    while todo != {}
      invariant todo <= c.Keys
      invariant r == map b | b in c.Keys - todo :: PropertiesJson(c[b])
      decreases todo
    {
      var b :| b in todo;
      var inner := ExportProperties(c[b]);
      r := r[b := inner];
      todo := todo - {b};
    }
    return JObject(r);
  }

  /** The loop over one list of records, appending each export in turn. */
  method ExportRecords(recs: seq<Record>) returns (r: Result<seq<Json>, Error>)
    ensures r == RecordsJson(recs)
  {
    var items: seq<Json> := [];
    var i := 0;
    while i < |recs|
      invariant 0 <= i <= |recs|
      invariant |items| == i && forall k | 0 <= k < i :: recs[k].meta.Some?
      invariant forall k | 0 <= k < i :: items[k] == RecordJson(recs[k]).value
    {
      var j := RecordJson(recs[i]);
      if j.Failure? {
        assert RecordsJson(recs).Failure?;
        return Failure(j.error);
      }
      items := items + [j.value];
      i := i + 1;
    }
    assert RecordsJson(recs).Success?;
    assert RecordsJson(recs).value == items;
    return Success(items);
  }

  /** The loop over one relationship dict. */
  method ExportStore(s: map<string, seq<Record>>) returns (r: Result<Json, Error>)
    ensures r == StoreJson(s)
  {
    var rep: map<string, Json> := map[];
    var todo := s.Keys;
    while todo != {}
      invariant todo <= s.Keys
      invariant forall id | id in s.Keys - todo :: AllMeta(s[id])
      invariant rep == map id | id in s.Keys - todo :: JArray(RecordsJson(s[id]).value)
      decreases todo
    {
      var id :| id in todo;
      var items := ExportRecords(s[id]);
      if items.Failure? {
        return Failure(items.error);
      }
      rep := rep[id := JArray(items.value)];
      todo := todo - {id};
    }
    assert s.Keys - todo == s.Keys;
    assert StoreMeta(s);
    assert rep.Keys == s.Keys;
    assert StoreJson(s).value.fields == rep;
    return Success(JObject(rep));
  }
}
