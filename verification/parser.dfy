/** `PyThreatspecParser` (pythreatspec/pythreatspec.py): the graph held in
    fields that the registry operations and the tag handlers update in place.
    Every method is proved to leave exactly the graph the corresponding
    function of module ThreatModel computes from the graph before the call. */
module ParserState {
  import opened Wrappers
  import opened Chars
  import opened Records
  import opened Identifiers
  import opened DataFlow
  import M = Matchers
  import ML = MatcherLemmas
  import Tags
  import TM = ThreatModel

  /** A handler's outcome and the graph it leaves agree with the model's result. */
  predicate Did(r: Outcome<Error>, after: TM.Graph, before: TM.Graph, res: Result<TM.Graph, Error>)
  {
    match res
    case Failure(e) => r == Fail(e) && after == before
    case Success(g) => r == Pass && after == g
  }

  /** A registry call's returned id and the graph it leaves agree with the model's result. */
  predicate Registered(r: Result<string, Error>, after: TM.Graph, before: TM.Graph, res: Result<(string, TM.Graph), Error>)
  {
    match res
    case Failure(e) => r == Failure(e) && after == before
    case Success((id, g)) => r == Success(id) && after == g
  }

  class Parser {
    const creationTime: int
    const updatedTime: int
    var boundaries: map<string, Property>
    var components: map<string, map<string, Property>>
    var threats: map<string, Property>
    var reviews: map<string, seq<Record>>
    var mitigations: map<string, seq<Record>>
    var exposures: map<string, seq<Record>>
    var acceptances: map<string, seq<Record>>
    var transfers: map<string, seq<Record>>
    const dfd: Dfd

    /** The graph the fields hold. */
    function State(): TM.Graph
      reads this, dfd
    {
      TM.Graph(boundaries, components, threats, reviews, mitigations, exposures, acceptances, transfers, dfd.tree)
    }

    /** `__init__`, with the clock reading `now` as a parameter. */
    constructor(now: int)
      ensures State() == TM.Empty && creationTime == now && updatedTime == now
      ensures fresh(dfd)
    {
      creationTime, updatedTime := now, now;
      boundaries, components, threats := map[], map[], map[];
      reviews, mitigations, exposures, acceptances, transfers := map[], map[], map[], map[], map[];
      dfd := new Dfd();
    }

    /** `add_boundary` */
    method AddBoundary(boundary: string, boundaryId: string) returns (r: Result<string, Error>)
      modifies this
      ensures Registered(r, State(), old(State()), TM.AddBoundary(old(State()), boundary, boundaryId))
    {
      if boundaryId != "" && IsIdentifier(boundary) {
        return Failure(AmbiguousId("boundary"));
      }
      if boundaryId == "" && IsIdentifier(boundary) {
        return Success(boundary);
      }
      var id := boundaryId;
      if id == "" {
        id := TextToIdentifier(boundary);
      }
      if id !in boundaries {
        boundaries := boundaries[id := Property(boundary, "")];
      }
      return Success(id);
    }

    /** `add_component` */
    method AddComponent(boundaryId: string, component: string, componentId: string) returns (r: Result<string, Error>)
      modifies this
      ensures Registered(r, State(), old(State()), TM.AddComponent(old(State()), boundaryId, component, componentId))
    {
      if componentId != "" && IsIdentifier(component) {
        return Failure(AmbiguousId("component"));
      }
      if componentId == "" && IsIdentifier(component) {
        return Success(component);
      }
      var id := componentId;
      if id == "" {
        id := TextToIdentifier(component);
      }
      var inner := if boundaryId in components then components[boundaryId] else map[];
      if id !in inner {
        inner := inner[id := Property(component, "")];
      }
      components := components[boundaryId := inner];
      TM.AddComponentNamed(old(State()), boundaryId, component, componentId);
      return Success(id);
    }

    /** `add_threat` */
    method AddThreat(threat: string, threatId: string) returns (r: Result<string, Error>)
      modifies this
      ensures Registered(r, State(), old(State()), TM.AddThreat(old(State()), threat, threatId))
    {
      if threatId != "" && IsIdentifier(threat) {
        return Failure(AmbiguousId("threat"));
      }
      if threatId == "" && IsIdentifier(threat) {
        return Success(threat);
      }
      var id := threatId;
      if id == "" {
        id := TextToIdentifier(threat);
      }
      if id !in threats {
        threats := threats[id := Property(threat, "")];
      }
      return Success(id);
    }

    /** `_parse_alias`: a class compared as written, then the registry call
        with the explicit id, whose error is passed on. */
    method ParseAlias(comment: string, meta: SourceMeta) returns (r: Outcome<Error>)
      modifies this
      ensures Did(r, State(), old(State()), TM.Handle(old(State()), M.Alias, comment, meta))
    {
      var found := M.Search(M.Alias, comment);
      if found.None? || !found.value.PropertyMatch? {
        return Fail(TM.PatternError(M.Alias));
      }
      var m := found.value;
      TM.HandleApplies(State(), M.Alias, comment, meta, m);
      var pclass := TM.Clean(m.pclass);
      var added: Result<string, Error>;
      if pclass == "component" {
        added := AddComponent(TextToIdentifier(TM.Clean(m.id)), TM.Clean(m.text), TextToIdentifier(TM.Clean(m.subId)));
      } else if pclass == "boundary" {
        added := AddBoundary(TM.Clean(m.text), TextToIdentifier(TM.Clean(m.id)));
      } else if pclass == "threat" {
        added := AddThreat(TM.Clean(m.text), TextToIdentifier(TM.Clean(m.id)));
      } else {
        return Fail(UnknownKey(pclass));
      }
      if added.Failure? {
        return Fail(added.error);
      }
      return Pass;
    }

    /** `_parse_describe`: the first match of the pattern, then `Describe`. */
    method ParseDescribe(comment: string, meta: SourceMeta) returns (r: Outcome<Error>)
      modifies this
      ensures Did(r, State(), old(State()), TM.Handle(old(State()), M.Describe, comment, meta))
    {
      var found := M.Search(M.Describe, comment);
      if found.None? || !found.value.PropertyMatch? {
        return Fail(TM.PatternError(M.Describe));
      }
      var m := found.value;
      TM.HandleApplies(State(), M.Describe, comment, meta, m);
      r := Describe(m.pclass, m.id, m.subId, m.text);
    }

    /** The body of `_parse_describe` after a match: the class lower-cased
        names the kind of entity, whose description is then set. */
    method Describe(pclassGroup: string, idGroup: string, subIdGroup: string, textGroup: string) returns (r: Outcome<Error>)
      modifies this
      ensures Did(r, State(), old(State()), TM.Describe(old(State()), pclassGroup, idGroup, subIdGroup, textGroup))
    {
      var pclass := TM.Clean(LowerStr(pclassGroup));
      var entity: TM.Entity;
      if pclass == "component" {
        entity := TM.ComponentOf(TextToIdentifier(TM.Clean(idGroup)), TextToIdentifier(TM.Clean(subIdGroup)));
      } else if pclass == "boundary" {
        entity := TM.BoundaryOf(TextToIdentifier(TM.Clean(idGroup)));
      } else if pclass == "threat" {
        entity := TM.ThreatOf(TextToIdentifier(TM.Clean(idGroup)));
      } else {
        return Fail(UnknownKey(pclass));
      }
      assert TM.DescribeTarget(pclassGroup, idGroup, subIdGroup) == Success(entity);
      r := SetDescription(entity, TM.Clean(textGroup));
    }

    /** The lookups and the assignment of `_parse_describe`: an unknown boundary
        of a component, or an unknown entity, is refused; otherwise the
        entity's `desc` is replaced in place. */
    method SetDescription(entity: TM.Entity, text: string) returns (r: Outcome<Error>)
      modifies this
      ensures Did(r, State(), old(State()), TM.DescriptionSet(old(State()), entity, text))
    {
      match entity {
        case ComponentOf(boundaryId, describeId) =>
          if boundaryId !in components {
            return Fail(UnknownBoundary(boundaryId));
          }
          if describeId !in components[boundaryId] {
            return Fail(UnknownIdentifier("component", describeId));
          }
          var inner := components[boundaryId];
          components := components[boundaryId := inner[describeId := inner[describeId].(desc := text)]];
        case BoundaryOf(describeId) =>
          if describeId !in boundaries {
            return Fail(UnknownIdentifier("boundary", describeId));
          }
          boundaries := boundaries[describeId := boundaries[describeId].(desc := text)];
        case ThreatOf(describeId) =>
          if describeId !in threats {
            return Fail(UnknownIdentifier("threat", describeId));
          }
          threats := threats[describeId := threats[describeId].(desc := text)];
      }
      return Pass;
    }

    /** `_parse_connects`: the first match of the pattern, then `Connect`. */
    method ParseConnects(comment: string, meta: SourceMeta) returns (r: Outcome<Error>)
      modifies this, dfd
      ensures Did(r, State(), old(State()), TM.Handle(old(State()), M.Connects, comment, meta))
    {
      var found := M.Search(M.Connects, comment);
      if found.None? || !found.value.ConnectsMatch? {
        return Fail(TM.PatternError(M.Connects));
      }
      var m := found.value;
      TM.HandleApplies(State(), M.Connects, comment, meta, m);
      r := Connect(m.sourceBoundary, m.sourceComponent, m.connector, m.destBoundary, m.destComponent, meta);
    }

    /** The body of `_parse_connects` after a match: the edge between the four
        ids, one-directional for the connector `to`, goes to the diagram. */
    method Connect(sb: string, sc: string, connector: string, db: string, dc: string, meta: SourceMeta) returns (r: Outcome<Error>)
      modifies dfd
      ensures Did(r, State(), old(State()), TM.Connect(old(State()), sb, sc, connector, db, dc, meta))
    {
      var sourceBoundaryId := TextToIdentifier(TM.Clean(sb));
      var sourceComponentId := TextToIdentifier(TM.Clean(sc));
      var connection := if TM.Clean(connector) == "to" then Uni else Bi;
      var destBoundaryId := TextToIdentifier(TM.Clean(db));
      var destComponentId := TextToIdentifier(TM.Clean(dc));
      TM.ConnectClosed(State(), sb, sc, connector, db, dc, meta);
      r := Link(MakeEdge(sourceBoundaryId, sourceComponentId, destBoundaryId, destComponentId, connection, Meta(meta)), meta);
    }

    /** `self.dfd.add_edge(edge)` for an edge that carries the tag's metadata:
        it is accepted, and the diagram is the only part of the graph that changes. */
    method Link(e: Edge, meta: SourceMeta) returns (r: Outcome<Error>)
      requires e.meta == Meta(meta)
      modifies dfd
      ensures r == Pass && State() == old(State()).(dfd := Insert(old(State()).dfd, e, EdgeInfo(e.connection, meta)))
    {
      r := dfd.AddEdge(e);
    }

    /** `_parse_review`: the boundary and the component registered, then one
        record appended to the reviews. */
    method ParseReview(comment: string, meta: SourceMeta) returns (r: Outcome<Error>)
      modifies this
      ensures Did(r, State(), old(State()), TM.Handle(old(State()), M.Review, comment, meta))
    {
      var found := M.Search(M.Review, comment);
      if found.None? || !found.value.ReviewMatch? {
        return Fail(TM.PatternError(M.Review));
      }
      var m := found.value;
      TM.HandleApplies(State(), M.Review, comment, meta, m);
      TM.ApplyReview(State(), M.Review, m, meta);
      var boundary, component, text := TM.Clean(m.boundary), TM.Clean(m.component), TM.Clean(m.text);
      TM.ReviewedClosed(State(), boundary, component, text, meta);
      TM.AddBoundaryReference(State(), boundary);
      var b := AddBoundary(boundary, "");
      TM.AddComponentReference(State(), b.value, component);
      var c := AddComponent(b.value, component, "");
      AppendReview(TextToIdentifier(text), ReviewRecord(b.value, c.value, text, [], Some(meta)));
      return Pass;
    }

    /** `if key not in self.reviews: self.reviews[key] = []` and
        `self.reviews[key].append(rec)`. */
    method AppendReview(key: string, rec: Record)
      modifies this
      ensures State() == old(State()).(reviews := TM.Appended(old(State()).reviews, key, rec))
    {
      var list := if key in reviews then reviews[key] else [];
      reviews := reviews[key := list + [rec]];
    }

    /** `_parse_mitigates`, `_parse_exposes`, `_parse_transfers` and
        `_parse_accepts`: the boundary, the component and the threat
        registered, then one record appended to the store of the tag's kind. */
    method ParseRelationship(t: M.Tag, comment: string, meta: SourceMeta) returns (r: Outcome<Error>)
      requires t in {M.Mitigates, M.Exposes, M.Transfers, M.Accepts}
      modifies this
      ensures Did(r, State(), old(State()), TM.Handle(old(State()), t, comment, meta))
    {
      var found := M.Search(t, comment);
      if found.None? || !found.value.ElementMatch? {
        return Fail(TM.PatternError(t));
      }
      var m := found.value;
      TM.HandleApplies(State(), t, comment, meta, m);
      TM.ApplyElement(State(), t, m, meta);
      var kind := TM.KindOf(t);
      var boundary, component, threat, text := TM.Clean(m.boundary), TM.Clean(m.component), TM.Clean(m.threat), TM.Clean(m.text);
      TM.RelatedClosed(State(), kind, boundary, component, threat, text, meta);
      TM.AddBoundaryReference(State(), boundary);
      var b := AddBoundary(boundary, "");
      TM.AddComponentReference(State(), b.value, component);
      var c := AddComponent(b.value, component, "");
      TM.AddThreatReference(State(), threat);
      var th := AddThreat(threat, "");
      Append(kind, TextToIdentifier(text), ElementRecord(kind, b.value, c.value, th.value, text, [], Some(meta)));
      return Pass;
    }

    /** `if key not in store: store[key] = []` and `store[key].append(rec)` on
        the store of `kind`: the list under `key`, or an empty one, extended by `rec`. */
    method Append(kind: ElementKind, key: string, rec: Record)
      modifies this
      ensures State() == TM.WithStore(old(State()), kind, TM.Appended(TM.Store(old(State()), kind), key, rec))
    {
      match kind {
        case Mitigation =>
          var list := if key in mitigations then mitigations[key] else [];
          mitigations := mitigations[key := list + [rec]];
        case Exposure =>
          var list := if key in exposures then exposures[key] else [];
          exposures := exposures[key := list + [rec]];
        case Transfer =>
          var list := if key in transfers then transfers[key] else [];
          transfers := transfers[key := list + [rec]];
        case Acceptance =>
          var list := if key in acceptances then acceptances[key] else [];
          acceptances := acceptances[key := list + [rec]];
      }
    }

    /** `self.parse_table[key](comment, meta)`: a key with no handler is a `KeyError`. */
    method Dispatch(key: string, comment: string, meta: SourceMeta) returns (r: Outcome<Error>)
      modifies this, dfd
      ensures Did(r, State(), old(State()), TM.Step(old(State()), key, comment, meta))
    {
      match Tags.Handler(key) {
        case None =>
          return Fail(UnknownKey(key));
        case Some(t) =>
          match t {
            case Alias => r := ParseAlias(comment, meta);
            case Describe => r := ParseDescribe(comment, meta);
            case Connects => r := ParseConnects(comment, meta);
            case Review => r := ParseReview(comment, meta);
            case Mitigates => r := ParseRelationship(t, comment, meta);
            case Exposes => r := ParseRelationship(t, comment, meta);
            case Transfers => r := ParseRelationship(t, comment, meta);
            case Accepts => r := ParseRelationship(t, comment, meta);
          }
      }
    }

    /** `_parse_comment`: nothing for a missing or empty comment, otherwise the
        handler of each tag keyword found, in order, each on the whole comment;
        the first error stops the loop and the changes before it stay. */
    method ParseComment(comment: Option<string>, meta: SourceMeta) returns (error: Option<Error>)
      modifies this, dfd
      ensures TM.ParseComment(old(State()), comment, meta) == TM.Run(State(), error)
    {
      if comment.None? || comment.value == "" {
        return None;
      }
      var c := comment.value;
      var tags := Tags.FindTags(c);
      var i := 0;
      assert tags[..0] == [];
      while i < |tags|
        invariant 0 <= i <= |tags|
        invariant TM.RunTags(old(State()), tags[..i], c, meta) == TM.Run(State(), None)
      {
        TM.RunTagsPrefix(old(State()), tags, i, c, meta);
        var r := Dispatch(tags[i], c, meta);
        if r.Fail? {
          TM.RunTagsStopped(old(State()), tags, i + 1, c, meta);
          return Some(r.error);
        }
        i := i + 1;
      }
      assert tags[..i] == tags;
      return None;
    }

    /** The comments the front end finds, each with its location, parsed in
        order until one raises. */
    method ParseComments(comments: seq<(Option<string>, SourceMeta)>) returns (error: Option<Error>)
      modifies this, dfd
      ensures TM.ParseAll(old(State()), comments) == TM.Run(State(), error)
    {
      var i := 0;
      assert comments[..0] == [];
      while i < |comments|
        invariant 0 <= i <= |comments|
        invariant TM.ParseAll(old(State()), comments[..i]) == TM.Run(State(), None)
      {
        TM.ParseAllPrefix(old(State()), comments, i);
        error := ParseComment(comments[i].0, comments[i].1);
        if error.Some? {
          TM.ParseAllStopped(old(State()), comments, i + 1);
          return;
        }
        i := i + 1;
      }
      assert comments[..i] == comments;
      return None;
    }
  }
}
