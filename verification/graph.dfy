/** The threat-model graph that `PyThreatspecParser` builds
    (pythreatspec/pythreatspec.py), as a value: the three property namespaces,
    the five relationship stores and the data-flow tree. The registry
    operations, the eight tag handlers and the comment walk of the parser are
    functions from one graph to the next; the class `Parser` (module
    `ParserState`) performs the same steps in place. */
module ThreatModel {
  import opened Wrappers
  import opened Chars
  import opened Records
  import opened Identifiers
  import opened DataFlow
  import M = Matchers
  import ML = MatcherLemmas
  import Tags

  datatype Graph = Graph(
    boundaries: map<string, Property>,
    components: map<string, map<string, Property>>,
    threats: map<string, Property>,
    reviews: map<string, seq<Record>>,
    mitigations: map<string, seq<Record>>,
    exposures: map<string, seq<Record>>,
    acceptances: map<string, seq<Record>>,
    transfers: map<string, seq<Record>>,
    dfd: Tree)

  /** The graph of a fresh parser. */
  const Empty := Graph(map[], map[], map[], map[], map[], map[], map[], map[], map[])

  // ---------------------------------------------------------------- registries

  /** `m` with an entry for `id` named `name`, unless `id` already has one. */
  function Registered(m: map<string, Property>, id: string, name: string): (r: map<string, Property>)
    ensures r.Keys == m.Keys + {id}
    ensures forall k | k in m :: r[k] == m[k]
    ensures id !in m ==> r[id] == Property(name, "")
  {
    if id in m then m else m[id := Property(name, "")]
  }

  /** The id an entry is registered under: the explicit one, or the name turned into an id. */
  function IdFor(name: string, explicitId: string): (r: string)
    ensures explicitId != "" ==> r == explicitId
    ensures explicitId == "" ==> r == TextToIdentifier(name)
  {
    if explicitId != "" then explicitId else TextToIdentifier(name)
  }

  /** `add_boundary`: an explicit id together with an `@`-reference is refused;
      an `@`-reference alone is returned and nothing is registered; otherwise
      the id is returned and registered under the name, first write winning. */
  function AddBoundary(g: Graph, boundary: string, boundaryId: string): (r: Result<(string, Graph), Error>)
    ensures r.Failure? <==> boundaryId != "" && IsIdentifier(boundary)
    ensures r.Failure? ==> r.error == AmbiguousId("boundary")
    ensures boundaryId == "" && IsIdentifier(boundary) ==> r == Success((boundary, g))
    ensures !IsIdentifier(boundary) ==>
      && r.Success? && r.value.0 == IdFor(boundary, boundaryId)
      && r.value.1 == g.(boundaries := r.value.1.boundaries)
      && r.value.1.boundaries.Keys == g.boundaries.Keys + {r.value.0}
      && (forall k | k in g.boundaries :: r.value.1.boundaries[k] == g.boundaries[k])
      && (r.value.0 !in g.boundaries ==> r.value.1.boundaries[r.value.0] == Property(boundary, ""))
  {
    if boundaryId != "" && IsIdentifier(boundary) then Failure(AmbiguousId("boundary"))
    else if IsIdentifier(boundary) then Success((boundary, g))
    else
      var id := IdFor(boundary, boundaryId);
      Success((id, g.(boundaries := Registered(g.boundaries, id, boundary))))
  }

  /** The components registered under a boundary id (none when it has no entry). */
  function ComponentsOf(g: Graph, boundaryId: string): map<string, Property>
  {
    if boundaryId in g.components then g.components[boundaryId] else map[]
  }

  /** `add_component`: the same rules as `add_boundary`, in the namespace of one
      boundary id, whose entry is created on demand; `boundaries` is never touched. */
  function AddComponent(g: Graph, boundaryId: string, component: string, componentId: string)
    : (r: Result<(string, Graph), Error>)
    ensures r.Failure? <==> componentId != "" && IsIdentifier(component)
    ensures r.Failure? ==> r.error == AmbiguousId("component")
    ensures componentId == "" && IsIdentifier(component) ==> r == Success((component, g))
    ensures !IsIdentifier(component) ==>
      && r.Success? && r.value.0 == IdFor(component, componentId)
      && r.value.1 == g.(components := r.value.1.components)
      && r.value.1.components.Keys == g.components.Keys + {boundaryId}
      && (forall b | b in g.components && b != boundaryId :: r.value.1.components[b] == g.components[b])
      && ComponentsOf(r.value.1, boundaryId).Keys == ComponentsOf(g, boundaryId).Keys + {r.value.0}
      && (forall k | k in ComponentsOf(g, boundaryId) ::
            ComponentsOf(r.value.1, boundaryId)[k] == ComponentsOf(g, boundaryId)[k])
      && (r.value.0 !in ComponentsOf(g, boundaryId) ==>
            ComponentsOf(r.value.1, boundaryId)[r.value.0] == Property(component, ""))
  {
    if componentId != "" && IsIdentifier(component) then Failure(AmbiguousId("component"))
    else if IsIdentifier(component) then Success((component, g))
    else
      var id := IdFor(component, componentId);
      var inner := ComponentsOf(g, boundaryId);
      Success((id, g.(components := g.components[boundaryId := Registered(inner, id, component)])))
  }

  /** `add_component` on a name, in one piece. */
  lemma AddComponentNamed(g: Graph, boundaryId: string, component: string, componentId: string)
    requires !IsIdentifier(component)
    ensures AddComponent(g, boundaryId, component, componentId)
         == Success((IdFor(component, componentId),
                     g.(components := g.components[boundaryId :=
                          Registered(ComponentsOf(g, boundaryId), IdFor(component, componentId), component)])))
  {
  }

  /** `add_threat`: the rules of `add_boundary`, in the threat namespace. */
  function AddThreat(g: Graph, threat: string, threatId: string): (r: Result<(string, Graph), Error>)
    ensures r.Failure? <==> threatId != "" && IsIdentifier(threat)
    ensures r.Failure? ==> r.error == AmbiguousId("threat")
    ensures threatId == "" && IsIdentifier(threat) ==> r == Success((threat, g))
    ensures !IsIdentifier(threat) ==>
      && r.Success? && r.value.0 == IdFor(threat, threatId)
      && r.value.1 == g.(threats := r.value.1.threats)
      && r.value.1.threats.Keys == g.threats.Keys + {r.value.0}
      && (forall k | k in g.threats :: r.value.1.threats[k] == g.threats[k])
      && (r.value.0 !in g.threats ==> r.value.1.threats[r.value.0] == Property(threat, ""))
  {
    if threatId != "" && IsIdentifier(threat) then Failure(AmbiguousId("threat"))
    else if IsIdentifier(threat) then Success((threat, g))
    else
      var id := IdFor(threat, threatId);
      Success((id, g.(threats := Registered(g.threats, id, threat))))
  }

  /** Registering a name twice is registering it once: the second call finds the entry. */
  lemma AddBoundaryTwice(g: Graph, boundary: string, boundaryId: string)
    requires AddBoundary(g, boundary, boundaryId).Success?
    ensures var (id, g1) := AddBoundary(g, boundary, boundaryId).value;
      AddBoundary(g1, boundary, boundaryId) == Success((id, g1))
  {
  }

  // ---------------------------------------------------------------- relationship stores

  /** The store of an element kind: `mitigations`, `exposures`, `transfers` or `acceptances`. */
  function Store(g: Graph, kind: ElementKind): map<string, seq<Record>>
  {
    match kind
    case Mitigation => g.mitigations
    case Exposure => g.exposures
    case Transfer => g.transfers
    case Acceptance => g.acceptances
  }

  function WithStore(g: Graph, kind: ElementKind, s: map<string, seq<Record>>): (r: Graph)
    ensures Store(r, kind) == s
    ensures forall k | k != kind :: Store(r, k) == Store(g, k)
    ensures r.reviews == g.reviews && r.dfd == g.dfd
    ensures r.boundaries == g.boundaries && r.components == g.components && r.threats == g.threats
  {
    match kind
    case Mitigation => g.(mitigations := s)
    case Exposure => g.(exposures := s)
    case Transfer => g.(transfers := s)
    case Acceptance => g.(acceptances := s)
  }

  /** The list under `key`, an empty one when there is none yet. */
  function ListOf(s: map<string, seq<Record>>, key: string): seq<Record>
  {
    if key in s then s[key] else []
  }

  /** `if key not in store: store[key] = []` then `store[key].append(rec)`. */
  function Appended(s: map<string, seq<Record>>, key: string, rec: Record): (r: map<string, seq<Record>>)
    ensures r.Keys == s.Keys + {key}
    ensures r[key] == ListOf(s, key) + [rec]
    ensures forall k | k in s && k != key :: r[k] == s[k]
  {
    s[key := ListOf(s, key) + [rec]]
  }

  // ---------------------------------------------------------------- handlers

  /** The field `remove_excessive_space` leaves of a captured group. */
  function Clean(group: string): string
  {
    RemoveExcessiveSpace(group)
  }

  /** The message of the `ValueError` a handler raises when its pattern does not
      match; `_parse_transfers` reuses the message of `_parse_exposes`. */
  function PatternError(t: M.Tag): Error
  {
    match t
    case Transfers => InvalidPattern("@exposes")
    case _ => InvalidPattern(Tags.TagKey(t))
  }

  /** `_parse_alias` after a match. The class is compared as written, so a
      class not written in lower case is a `KeyError` of `alias_table`. */
  function Alias(g: Graph, pclass: string, id: string, subId: string, text: string): Result<Graph, Error>
  {
    var pclass := Clean(pclass);
    if pclass == "component" then
      match AddComponent(g, TextToIdentifier(Clean(id)), Clean(text), TextToIdentifier(Clean(subId)))
      case Failure(e) => Failure(e)
      case Success((_, g')) => Success(g')
    else if pclass == "boundary" then
      match AddBoundary(g, Clean(text), TextToIdentifier(Clean(id)))
      case Failure(e) => Failure(e)
      case Success((_, g')) => Success(g')
    else if pclass == "threat" then
      match AddThreat(g, Clean(text), TextToIdentifier(Clean(id)))
      case Failure(e) => Failure(e)
      case Success((_, g')) => Success(g')
    else Failure(UnknownKey(pclass))
  }

  /** An entity a description can be attached to. */
  datatype Entity = BoundaryOf(id: string) | ComponentOf(boundary: string, id: string) | ThreatOf(id: string)

  function PropertyOf(g: Graph, e: Entity): Option<Property>
  {
    match e
    case BoundaryOf(id) => if id in g.boundaries then Some(g.boundaries[id]) else None
    case ComponentOf(b, id) =>
      if b in g.components && id in g.components[b] then Some(g.components[b][id]) else None
    case ThreatOf(id) => if id in g.threats then Some(g.threats[id]) else None
  }

  /** The entity a `@describe` match names, or the `KeyError` of an unknown class;
      the class is lower-cased first. */
  function DescribeTarget(pclass: string, id: string, subId: string): Result<Entity, Error>
  {
    var pclass := Clean(LowerStr(pclass));
    if pclass == "component" then
      Success(ComponentOf(TextToIdentifier(Clean(id)), TextToIdentifier(Clean(subId))))
    else if pclass == "boundary" then Success(BoundaryOf(TextToIdentifier(Clean(id))))
    else if pclass == "threat" then Success(ThreatOf(TextToIdentifier(Clean(id))))
    else Failure(UnknownKey(pclass))
  }

  /** The description of an existing entity replaced; an unknown boundary of a
      component and an unknown entity are refused. */
  function DescriptionSet(g: Graph, e: Entity, text: string): Result<Graph, Error>
  {
    match e
    case ComponentOf(b, id) =>
      if b !in g.components then Failure(UnknownBoundary(b))
      else if id !in g.components[b] then Failure(UnknownIdentifier("component", id))
      else
        var inner := g.components[b];
        Success(g.(components := g.components[b := inner[id := inner[id].(desc := text)]]))
    case BoundaryOf(id) =>
      if id !in g.boundaries then Failure(UnknownIdentifier("boundary", id))
      else Success(g.(boundaries := g.boundaries[id := g.boundaries[id].(desc := text)]))
    case ThreatOf(id) =>
      if id !in g.threats then Failure(UnknownIdentifier("threat", id))
      else Success(g.(threats := g.threats[id := g.threats[id].(desc := text)]))
  }

  /** `_parse_describe` after a match. */
  function Describe(g: Graph, pclass: string, id: string, subId: string, text: string): Result<Graph, Error>
  {
    match DescribeTarget(pclass, id, subId)
    case Failure(err) => Failure(err)
    case Success(e) => DescriptionSet(g, e, Clean(text))
  }

  /** Setting a description fails exactly when the entity does not exist. */
  lemma DescriptionSetFailsIffMissing(g: Graph, e: Entity, text: string)
    ensures DescriptionSet(g, e, text).Failure? <==> PropertyOf(g, e).None?
  {
  }

  /** When it succeeds, the entity has the new description and its old name,
      and every other entity is as it was. */
  lemma DescriptionSetOnlyDesc(g: Graph, e: Entity, text: string, other: Entity)
    requires DescriptionSet(g, e, text).Success?
    ensures var g' := DescriptionSet(g, e, text).value;
      && PropertyOf(g', e) == Some(Property(PropertyOf(g, e).value.name, text))
      && (other != e ==> PropertyOf(g', other) == PropertyOf(g, other))
  {
  }

  /** Setting a description adds and removes nothing, and leaves the relationship
      stores and the data-flow tree alone. */
  lemma DescriptionSetKeepsShape(g: Graph, e: Entity, text: string)
    requires DescriptionSet(g, e, text).Success?
    ensures var g' := DescriptionSet(g, e, text).value;
      && g'.(boundaries := g.boundaries, components := g.components, threats := g.threats) == g
      && g'.boundaries.Keys == g.boundaries.Keys && g'.threats.Keys == g.threats.Keys
      && g'.components.Keys == g.components.Keys
      && (forall b | b in g.components :: g'.components[b].Keys == g.components[b].Keys)
  {
  }

  /** The ids of a connection: each group cleaned and turned into an id. */
  function Connect(g: Graph, sb: string, sc: string, connector: string, db: string, dc: string, meta: SourceMeta)
    : Result<Graph, Error>
  {
    var connection := if Clean(connector) == "to" then Uni else Bi;
    var edge := MakeEdge(TextToIdentifier(Clean(sb)), TextToIdentifier(Clean(sc)),
                         TextToIdentifier(Clean(db)), TextToIdentifier(Clean(dc)), connection, Meta(meta));
    match EdgeAdded(g.dfd, edge)
    case Failure(e) => Failure(e)
    case Success(t) => Success(g.(dfd := t))
  }

  /** `_parse_review` after a match: the groups are cleaned, then `Reviewed`. */
  function ReviewOf(g: Graph, boundary: string, component: string, text: string, meta: SourceMeta)
    : Result<Graph, Error>
  {
    Reviewed(g, Clean(boundary), Clean(component), Clean(text), meta)
  }

  /** Register the boundary and the component (ids returned as written when
      they are `@`-references), then append one record, with no references and
      the tag's metadata, to the list keyed by the text turned into an id. */
  function Reviewed(g: Graph, boundary: string, component: string, text: string, meta: SourceMeta)
    : Result<Graph, Error>
  {
    match AddBoundary(g, boundary, "")
    case Failure(e) => Failure(e)
    case Success((boundaryId, g1)) =>
      match AddComponent(g1, boundaryId, component, "")
      case Failure(e) => Failure(e)
      case Success((componentId, g2)) =>
        var rec := ReviewRecord(boundaryId, componentId, text, [], Some(meta));
        Success(g2.(reviews := Appended(g2.reviews, TextToIdentifier(text), rec)))
  }

  /** `_parse_mitigates`, `_parse_exposes`, `_parse_transfers` and
      `_parse_accepts` after a match: the groups are cleaned, then `Related`. */
  function ElementOf(g: Graph, kind: ElementKind, boundary: string, component: string, threat: string,
                     text: string, meta: SourceMeta): Result<Graph, Error>
  {
    Related(g, kind, Clean(boundary), Clean(component), Clean(threat), Clean(text), meta)
  }

  /** As `Reviewed`, with the threat registered too and the record appended to
      the store of its kind. */
  function Related(g: Graph, kind: ElementKind, boundary: string, component: string, threat: string,
                   text: string, meta: SourceMeta): Result<Graph, Error>
  {
    match AddBoundary(g, boundary, "")
    case Failure(e) => Failure(e)
    case Success((boundaryId, g1)) =>
      match AddComponent(g1, boundaryId, component, "")
      case Failure(e) => Failure(e)
      case Success((componentId, g2)) =>
        match AddThreat(g2, threat, "")
        case Failure(e) => Failure(e)
        case Success((threatId, g3)) =>
          var rec := ElementRecord(kind, boundaryId, componentId, threatId, text, [], Some(meta));
          Success(WithStore(g3, kind, Appended(Store(g3, kind), TextToIdentifier(text), rec)))
  }

  function KindOf(t: M.Tag): ElementKind
    requires t in {M.Mitigates, M.Exposes, M.Transfers, M.Accepts}
  {
    match t
    case Mitigates => Mitigation
    case Exposes => Exposure
    case Transfers => Transfer
    case Accepts => Acceptance
  }

  /** The handler of tag `t` applied to the groups of its match. */
  function Apply(g: Graph, t: M.Tag, m: M.Match, meta: SourceMeta): Result<Graph, Error>
  {
    match t
    case Alias =>
      if m.PropertyMatch? then Alias(g, m.pclass, m.id, m.subId, m.text) else Failure(PatternError(t))
    case Describe =>
      if m.PropertyMatch? then Describe(g, m.pclass, m.id, m.subId, m.text) else Failure(PatternError(t))
    case Connects =>
      if m.ConnectsMatch? then Connect(g, m.sourceBoundary, m.sourceComponent, m.connector, m.destBoundary, m.destComponent, meta)
      else Failure(PatternError(t))
    case Review =>
      if m.ReviewMatch? then ReviewOf(g, m.boundary, m.component, m.text, meta) else Failure(PatternError(t))
    case Mitigates => ElementApplied(g, Mitigation, t, m, meta)
    case Exposes => ElementApplied(g, Exposure, t, m, meta)
    case Transfers => ElementApplied(g, Transfer, t, m, meta)
    case Accepts => ElementApplied(g, Acceptance, t, m, meta)
  }

  function ElementApplied(g: Graph, kind: ElementKind, t: M.Tag, m: M.Match, meta: SourceMeta): Result<Graph, Error>
  {
    if m.ElementMatch? then ElementOf(g, kind, m.boundary, m.component, m.threat, m.text, meta)
    else Failure(PatternError(t))
  }

  /** `_parse_<tag>(comment, meta)`: the first match of the tag's pattern anywhere
      in the comment, or a `ValueError` when there is none. */
  function Handle(g: Graph, t: M.Tag, comment: string, meta: SourceMeta): Result<Graph, Error>
  {
    match M.Search(t, comment)
    case None => Failure(PatternError(t))
    case Some(m) => Apply(g, t, m, meta)
  }

  /** One pass of the loop: `parse_table[key](comment, meta)`. */
  function Step(g: Graph, key: string, comment: string, meta: SourceMeta): Result<Graph, Error>
  {
    match Tags.Handler(key)
    case None => Failure(UnknownKey(key))
    case Some(t) => Handle(g, t, comment, meta)
  }

  // ---------------------------------------------------------------- comments

  /** The graph after a comment, and the error that stopped it, if any: the
      changes of the handlers that ran before the error stay. */
  datatype Run = Run(graph: Graph, error: Option<Error>)

  /** The `for` loop of `_parse_comment`: each captured keyword is looked up in
      `parse_table` and its handler is run on the whole comment. */
  function RunTags(g: Graph, keys: seq<string>, comment: string, meta: SourceMeta): Run
    decreases |keys|
  {
    if keys == [] then Run(g, None)
    else
      var r := Step(g, keys[0], comment, meta);
      if r.Failure? then Run(g, Some(r.error))
      else RunTags(r.value, keys[1..], comment, meta)
  }

  /** `_parse_comment`: nothing for a missing or empty comment, otherwise one
      handler per tag keyword found, in order. */
  function ParseComment(g: Graph, comment: Option<string>, meta: SourceMeta): Run
  {
    if comment.None? || comment.value == "" then Run(g, None)
    else RunTags(g, Tags.FindTags(comment.value), comment.value, meta)
  }

  /** The comments the front end finds, each with the location it reports,
      handed to `_parse_comment` in order; the first error stops the parse. */
  function ParseAll(g: Graph, comments: seq<(Option<string>, SourceMeta)>): Run
    decreases |comments|
  {
    if comments == [] then Run(g, None)
    else
      var r := ParseComment(g, comments[0].0, comments[0].1);
      if r.error.Some? then r else ParseAll(r.graph, comments[1..])
  }

  // ---------------------------------------------------------------- what the handlers do

  /** The id `add_boundary`, `add_component` and `add_threat` return when no
      explicit id is given: an `@`-reference as written, otherwise the name as an id. */
  function Reference(name: string): (r: string)
    ensures Canonical(r)
    ensures IsIdentifier(name) ==> r == name
    ensures !IsIdentifier(name) ==> r == TextToIdentifier(name)
  {
    if IsIdentifier(name) then name else TextToIdentifier(name)
  }

  /** The graph after a name is noted without an explicit id: unchanged for an
      `@`-reference, otherwise with the name registered under its id. */
  function BoundaryNoted(g: Graph, name: string): (r: Graph)
    ensures r == g.(boundaries := r.boundaries)
    ensures r.boundaries.Keys == if IsIdentifier(name) then g.boundaries.Keys else g.boundaries.Keys + {Reference(name)}
  {
    if IsIdentifier(name) then g else g.(boundaries := Registered(g.boundaries, Reference(name), name))
  }

  function ComponentNoted(g: Graph, boundaryId: string, name: string): (r: Graph)
    ensures r == g.(components := r.components)
    ensures !IsIdentifier(name) ==> Reference(name) in ComponentsOf(r, boundaryId)
  {
    if IsIdentifier(name) then g
    else g.(components := g.components[boundaryId := Registered(ComponentsOf(g, boundaryId), Reference(name), name)])
  }

  function ThreatNoted(g: Graph, name: string): (r: Graph)
    ensures r == g.(threats := r.threats)
    ensures r.threats.Keys == if IsIdentifier(name) then g.threats.Keys else g.threats.Keys + {Reference(name)}
  {
    if IsIdentifier(name) then g else g.(threats := Registered(g.threats, Reference(name), name))
  }

  /** Without an explicit id the registries never fail: each returns the
      reference of the name and registers it unless it is an `@`-reference. */
  lemma AddBoundaryReference(g: Graph, name: string)
    ensures AddBoundary(g, name, "") == Success((Reference(name), BoundaryNoted(g, name)))
  {
  }

  lemma AddComponentReference(g: Graph, boundaryId: string, name: string)
    ensures AddComponent(g, boundaryId, name, "") == Success((Reference(name), ComponentNoted(g, boundaryId, name)))
  {
  }

  lemma AddThreatReference(g: Graph, name: string)
    ensures AddThreat(g, name, "") == Success((Reference(name), ThreatNoted(g, name)))
  {
  }

  /** The record a relationship handler appends, from the cleaned groups: it
      depends on the groups and the metadata only, never on the graph. */
  function ElementRecordOf(kind: ElementKind, boundary: string, component: string, threat: string,
                           text: string, meta: SourceMeta): Record
  {
    ElementRecord(kind, Reference(boundary), Reference(component), Reference(threat), text, [], Some(meta))
  }

  /** What a relationship tag does, in one piece. */
  lemma RelatedClosed(g: Graph, kind: ElementKind, b: string, c: string, threat: string,
                      text: string, meta: SourceMeta)
    ensures Related(g, kind, b, c, threat, text, meta) == Success(
      var g3 := ThreatNoted(ComponentNoted(BoundaryNoted(g, b), Reference(b), c), threat);
      WithStore(g3, kind, Appended(Store(g3, kind), TextToIdentifier(text), ElementRecordOf(kind, b, c, threat, text, meta))))
  {
    AddBoundaryReference(g, b);
    var g1 := BoundaryNoted(g, b);
    AddComponentReference(g1, Reference(b), c);
    AddThreatReference(ComponentNoted(g1, Reference(b), c), threat);
  }

  /** A relationship tag never fails once its pattern matched, and appends
      exactly one record, with no references and the tag's metadata, to the list
      of its store keyed by its text as an id; every other list stays as it was. */
  lemma RelatedAppendsOne(g: Graph, kind: ElementKind, b: string, c: string, threat: string,
                          text: string, meta: SourceMeta)
    ensures Related(g, kind, b, c, threat, text, meta).Success?
    ensures Store(Related(g, kind, b, c, threat, text, meta).value, kind)
         == Appended(Store(g, kind), TextToIdentifier(text), ElementRecordOf(kind, b, c, threat, text, meta))
  {
    RelatedClosed(g, kind, b, c, threat, text, meta);
  }

  /** Every other store, the reviews and the data-flow diagram stay as they were. */
  lemma RelatedKeepsOthers(g: Graph, kind: ElementKind, b: string, c: string, threat: string,
                           text: string, meta: SourceMeta)
    ensures Related(g, kind, b, c, threat, text, meta).Success?
    ensures var g' := Related(g, kind, b, c, threat, text, meta).value;
      && (forall k | k != kind :: Store(g', k) == Store(g, k))
      && g'.reviews == g.reviews && g'.dfd == g.dfd
  {
    RelatedClosed(g, kind, b, c, threat, text, meta);
    NotedKeepsStores(g, b, c, threat);
  }

  /** Registering names touches only the namespaces. */
  lemma NotedKeepsStores(g: Graph, b: string, c: string, threat: string)
    ensures var g3 := ThreatNoted(ComponentNoted(BoundaryNoted(g, b), Reference(b), c), threat);
      && g3.reviews == g.reviews && g3.dfd == g.dfd
      && forall k :: Store(g3, k) == Store(g, k)
  {
  }

  /** The boundary, the component and the threat are known afterwards unless
      they were given as `@`-references, and nothing known is forgotten. */
  lemma RelatedRegisters(g: Graph, kind: ElementKind, b: string, c: string, threat: string,
                         text: string, meta: SourceMeta)
    ensures Related(g, kind, b, c, threat, text, meta).Success?
    ensures var g' := Related(g, kind, b, c, threat, text, meta).value;
      && g.boundaries.Keys <= g'.boundaries.Keys && g.threats.Keys <= g'.threats.Keys
      && (!IsIdentifier(b) ==> Reference(b) in g'.boundaries)
      && (!IsIdentifier(threat) ==> Reference(threat) in g'.threats)
      && (!IsIdentifier(c) ==> Reference(c) in ComponentsOf(g', Reference(b)))
  {
    RelatedClosed(g, kind, b, c, threat, text, meta);
  }

  /** The record `@review` appends, from the cleaned groups. */
  function ReviewRecordOf(boundary: string, component: string, text: string, meta: SourceMeta): Record
  {
    ReviewRecord(Reference(boundary), Reference(component), text, [], Some(meta))
  }

  /** What `@review` does, in one piece. */
  lemma ReviewedClosed(g: Graph, b: string, c: string, text: string, meta: SourceMeta)
    ensures Reviewed(g, b, c, text, meta) == Success(
      var g2 := ComponentNoted(BoundaryNoted(g, b), Reference(b), c);
      g2.(reviews := Appended(g2.reviews, TextToIdentifier(text), ReviewRecordOf(b, c, text, meta))))
  {
    AddBoundaryReference(g, b);
    AddComponentReference(BoundaryNoted(g, b), Reference(b), c);
  }

  /** `@review` never fails once its pattern matched, and appends exactly one
      record to the reviews. */
  lemma ReviewedAppendsOne(g: Graph, b: string, c: string, text: string, meta: SourceMeta)
    ensures Reviewed(g, b, c, text, meta).Success?
    ensures Reviewed(g, b, c, text, meta).value.reviews
         == Appended(g.reviews, TextToIdentifier(text), ReviewRecordOf(b, c, text, meta))
  {
    ReviewedClosed(g, b, c, text, meta);
  }

  /** `@review` leaves the threats, the four element stores and the diagram alone. */
  lemma ReviewedKeepsOthers(g: Graph, b: string, c: string, text: string, meta: SourceMeta)
    ensures Reviewed(g, b, c, text, meta).Success?
    ensures var g' := Reviewed(g, b, c, text, meta).value;
      && (forall k :: Store(g', k) == Store(g, k))
      && g'.threats == g.threats && g'.dfd == g.dfd
  {
    ReviewedClosed(g, b, c, text, meta);
  }

  /** The boundary and the component are known afterwards unless they were
      given as `@`-references. */
  lemma ReviewedRegisters(g: Graph, b: string, c: string, text: string, meta: SourceMeta)
    ensures Reviewed(g, b, c, text, meta).Success?
    ensures var g' := Reviewed(g, b, c, text, meta).value;
      && g.boundaries.Keys <= g'.boundaries.Keys
      && (!IsIdentifier(b) ==> Reference(b) in g'.boundaries)
      && (!IsIdentifier(c) ==> Reference(c) in ComponentsOf(g', Reference(b)))
  {
    ReviewedClosed(g, b, c, text, meta);
  }

  /** `@connects` never fails once its pattern matched: it records the edge
      between the four ids, one-directional exactly when the connector is `to`
      as written, unless the four ids already have an edge; nothing but the
      diagram changes. */
  lemma ConnectAddsEdge(g: Graph, sb: string, sc: string, conn: string, db: string, dc: string, meta: SourceMeta)
    ensures Connect(g, sb, sc, conn, db, dc, meta).Success?
    ensures var g' := Connect(g, sb, sc, conn, db, dc, meta).value;
      var ids := (TextToIdentifier(Clean(sb)), TextToIdentifier(Clean(sc)),
                  TextToIdentifier(Clean(db)), TextToIdentifier(Clean(dc)));
      var before := Lookup(g.dfd, ids.0, ids.1, ids.2, ids.3);
      && g' == g.(dfd := g'.dfd)
      && Lookup(g'.dfd, ids.0, ids.1, ids.2, ids.3)
         == (if before.Some? then before else Some(EdgeInfo(if Clean(conn) == "to" then Uni else Bi, meta)))
  {
    var connection := if Clean(conn) == "to" then Uni else Bi;
    var e := MakeEdge(TextToIdentifier(Clean(sb)), TextToIdentifier(Clean(sc)),
                      TextToIdentifier(Clean(db)), TextToIdentifier(Clean(dc)), connection, Meta(meta));
    InsertLookup(g.dfd, e, EdgeInfo(connection, meta), e.sourceBoundary, e.sourceComponent, e.destBoundary, e.destComponent);
  }

  /** What `@connects` does after a match, in one piece. */
  lemma ConnectClosed(g: Graph, sb: string, sc: string, conn: string, db: string, dc: string, meta: SourceMeta)
    ensures var connection := if Clean(conn) == "to" then Uni else Bi;
      var e := MakeEdge(TextToIdentifier(Clean(sb)), TextToIdentifier(Clean(sc)),
                        TextToIdentifier(Clean(db)), TextToIdentifier(Clean(dc)), connection, Meta(meta));
      Connect(g, sb, sc, conn, db, dc, meta) == Success(g.(dfd := Insert(g.dfd, e, EdgeInfo(connection, meta))))
  {
  }

  /** The tags whose handlers cannot fail once their pattern matched. */
  predicate Total(t: M.Tag)
  {
    t != M.Alias && t != M.Describe
  }

  /** A relationship handler applied to a match of its own shape. */
  lemma ApplyElement(g: Graph, t: M.Tag, m: M.Match, meta: SourceMeta)
    requires t in {M.Mitigates, M.Exposes, M.Transfers, M.Accepts} && m.ElementMatch?
    ensures Apply(g, t, m, meta)
         == Related(g, KindOf(t), Clean(m.boundary), Clean(m.component), Clean(m.threat), Clean(m.text), meta)
  {
  }

  /** The review handler applied to a match of its own shape. */
  lemma ApplyReview(g: Graph, t: M.Tag, m: M.Match, meta: SourceMeta)
    requires t.Review? && m.ReviewMatch?
    ensures Apply(g, t, m, meta) == ReviewOf(g, m.boundary, m.component, m.text, meta)
  {
  }

  /** The handlers of `@connects`, `@review` and the relationship tags accept
      every match of their pattern. */
  lemma ApplyTotal(g: Graph, t: M.Tag, m: M.Match, meta: SourceMeta)
    requires Total(t) && ML.WellFormed(t, m)
    ensures Apply(g, t, m, meta).Success?
  {
    match t {
      case Connects =>
        ConnectAddsEdge(g, m.sourceBoundary, m.sourceComponent, m.connector, m.destBoundary, m.destComponent, meta);
      case Review => ReviewedAppendsOne(g, Clean(m.boundary), Clean(m.component), Clean(m.text), meta);
      case Mitigates | Exposes | Transfers | Accepts =>
        ApplyElement(g, t, m, meta);
        RelatedAppendsOne(g, KindOf(t), Clean(m.boundary), Clean(m.component), Clean(m.threat), Clean(m.text), meta);
      case Alias =>
      case Describe =>
    }
  }

  /** A handler of `@connects`, `@review` or a relationship tag fails exactly
      when its pattern matches nowhere in the comment, and then with the
      message of its pattern. */
  lemma HandleFailsIffNoMatch(g: Graph, t: M.Tag, comment: string, meta: SourceMeta)
    requires Total(t)
    ensures Handle(g, t, comment, meta).Failure? <==> M.Search(t, comment).None?
    ensures Handle(g, t, comment, meta).Failure? ==> Handle(g, t, comment, meta).error == PatternError(t)
  {
    if M.Search(t, comment).Some? {
      ML.SearchWellFormed(t, comment);
      ApplyTotal(g, t, M.Search(t, comment).value, meta);
    }
  }

  /** Every handler works on the first match of its pattern in the comment. */
  lemma HandleApplies(g: Graph, t: M.Tag, comment: string, meta: SourceMeta, m: M.Match)
    requires M.Search(t, comment) == Some(m)
    ensures Handle(g, t, comment, meta) == Apply(g, t, m, meta)
  {
  }

  /** Two tags of the same relationship kind in one comment are both handed the
      whole comment, so both process its first match (`HandleApplies`,
      `ApplyElement`) with the same groups: the same record is appended twice. */
  lemma RelatedTwice(g: Graph, kind: ElementKind, b: string, c: string, threat: string,
                     text: string, meta: SourceMeta)
    ensures Related(g, kind, b, c, threat, text, meta).Success?
    ensures var g1 := Related(g, kind, b, c, threat, text, meta).value;
      Related(g1, kind, b, c, threat, text, meta).Success? &&
      var g2 := Related(g1, kind, b, c, threat, text, meta).value;
      var rec := ElementRecordOf(kind, b, c, threat, text, meta);
      Store(g2, kind)[TextToIdentifier(text)] == ListOf(Store(g, kind), TextToIdentifier(text)) + [rec, rec]
  {
    var key := TextToIdentifier(text);
    var rec := ElementRecordOf(kind, b, c, threat, text, meta);
    RelatedAppendsOne(g, kind, b, c, threat, text, meta);
    var g1 := Related(g, kind, b, c, threat, text, meta).value;
    RelatedAppendsOne(g1, kind, b, c, threat, text, meta);
    AppendedTwice(Store(g, kind), key, rec);
  }

  lemma AppendedTwice(s: map<string, seq<Record>>, key: string, rec: Record)
    ensures Appended(Appended(s, key, rec), key, rec)[key] == ListOf(s, key) + [rec, rec]
  {
    assert ListOf(Appended(s, key, rec), key) == ListOf(s, key) + [rec];
  }

  // ---------------------------------------------------------------- invariants

  predicate KeysCanonical<V>(m: map<string, V>)
  {
    forall k | k in m :: Canonical(k)
  }

  predicate ComponentsCanonical(c: map<string, map<string, Property>>)
  {
    KeysCanonical(c) && forall b | b in c :: KeysCanonical(c[b])
  }

  predicate DestsCanonical(m: map<string, map<string, EdgeInfo>>)
  {
    KeysCanonical(m) && forall db | db in m :: KeysCanonical(m[db])
  }

  predicate SourcesCanonical(m: map<string, map<string, map<string, EdgeInfo>>>)
  {
    KeysCanonical(m) && forall sc | sc in m :: DestsCanonical(m[sc])
  }

  predicate TreeCanonical(t: Tree)
  {
    KeysCanonical(t) && forall sb | sb in t :: SourcesCanonical(t[sb])
  }

  /** Every record of a store carries its source metadata. */
  predicate HasMeta(s: map<string, seq<Record>>)
  {
    forall k | k in s :: forall r | r in s[k] :: r.meta.Some?
  }

  predicate StoreValid(s: map<string, seq<Record>>)
  {
    KeysCanonical(s) && HasMeta(s)
  }

  /** What every graph the parser builds satisfies: every key, in every
      namespace, store and level of the diagram, is an `@`-id or empty, and
      every stored record can be exported. */
  predicate Valid(g: Graph)
  {
    && KeysCanonical(g.boundaries) && ComponentsCanonical(g.components) && KeysCanonical(g.threats)
    && StoreValid(g.reviews) && StoreValid(g.mitigations) && StoreValid(g.exposures)
    && StoreValid(g.acceptances) && StoreValid(g.transfers)
    && TreeCanonical(g.dfd)
  }

  lemma EmptyValid()
    ensures Valid(Empty)
  {
  }

  lemma AppendedValid(s: map<string, seq<Record>>, key: string, rec: Record)
    requires StoreValid(s) && Canonical(key) && rec.meta.Some?
    ensures StoreValid(Appended(s, key, rec))
  {
    var s' := Appended(s, key, rec);
    forall k | k in s' ensures forall r: Record | r in s'[k] :: r.meta.Some? {
      if k != key {
        assert s'[k] == s[k];
      }
    }
  }

  lemma WithStoreValid(g: Graph, kind: ElementKind, s: map<string, seq<Record>>)
    requires Valid(g) && StoreValid(s)
    ensures Valid(WithStore(g, kind, s))
  {
  }

  lemma RegisteredCanonical(m: map<string, Property>, id: string, name: string)
    requires KeysCanonical(m) && Canonical(id)
    ensures KeysCanonical(Registered(m, id, name))
  {
  }

  lemma BoundaryNotedValid(g: Graph, name: string)
    requires Valid(g)
    ensures Valid(BoundaryNoted(g, name))
  {
    if !IsIdentifier(name) {
      RegisteredCanonical(g.boundaries, Reference(name), name);
    }
  }

  lemma ComponentNotedValid(g: Graph, boundaryId: string, name: string)
    requires Valid(g) && Canonical(boundaryId)
    ensures Valid(ComponentNoted(g, boundaryId, name))
  {
    if !IsIdentifier(name) {
      RegisteredCanonical(ComponentsOf(g, boundaryId), Reference(name), name);
    }
  }

  lemma ThreatNotedValid(g: Graph, name: string)
    requires Valid(g)
    ensures Valid(ThreatNoted(g, name))
  {
    if !IsIdentifier(name) {
      RegisteredCanonical(g.threats, Reference(name), name);
    }
  }

  /** With a canonical explicit id the registries keep the graph valid and
      return a canonical id. */
  lemma AddBoundaryValid(g: Graph, name: string, id: string)
    requires Valid(g) && Canonical(id) && AddBoundary(g, name, id).Success?
    ensures Valid(AddBoundary(g, name, id).value.1) && Canonical(AddBoundary(g, name, id).value.0)
  {
    if !IsIdentifier(name) {
      RegisteredCanonical(g.boundaries, IdFor(name, id), name);
    }
  }

  lemma AddComponentValid(g: Graph, boundaryId: string, name: string, id: string)
    requires Valid(g) && Canonical(boundaryId) && Canonical(id) && AddComponent(g, boundaryId, name, id).Success?
    ensures Valid(AddComponent(g, boundaryId, name, id).value.1) && Canonical(AddComponent(g, boundaryId, name, id).value.0)
  {
    if !IsIdentifier(name) {
      RegisteredCanonical(ComponentsOf(g, boundaryId), IdFor(name, id), name);
    }
  }

  lemma AddThreatValid(g: Graph, name: string, id: string)
    requires Valid(g) && Canonical(id) && AddThreat(g, name, id).Success?
    ensures Valid(AddThreat(g, name, id).value.1) && Canonical(AddThreat(g, name, id).value.0)
  {
    if !IsIdentifier(name) {
      RegisteredCanonical(g.threats, IdFor(name, id), name);
    }
  }

  lemma AliasValid(g: Graph, pclass: string, id: string, subId: string, text: string)
    requires Valid(g) && Alias(g, pclass, id, subId, text).Success?
    ensures Valid(Alias(g, pclass, id, subId, text).value)
  {
    var pc := Clean(pclass);
    if pc == "component" {
      AddComponentValid(g, TextToIdentifier(Clean(id)), Clean(text), TextToIdentifier(Clean(subId)));
    } else if pc == "boundary" {
      AddBoundaryValid(g, Clean(text), TextToIdentifier(Clean(id)));
    } else {
      AddThreatValid(g, Clean(text), TextToIdentifier(Clean(id)));
    }
  }

  lemma DescriptionSetValid(g: Graph, e: Entity, text: string)
    requires Valid(g) && DescriptionSet(g, e, text).Success?
    ensures Valid(DescriptionSet(g, e, text).value)
  {
    DescriptionSetKeepsShape(g, e, text);
  }

  lemma DescribeValid(g: Graph, pclass: string, id: string, subId: string, text: string)
    requires Valid(g) && Describe(g, pclass, id, subId, text).Success?
    ensures Valid(Describe(g, pclass, id, subId, text).value)
  {
    DescriptionSetValid(g, DescribeTarget(pclass, id, subId).value, Clean(text));
  }

  lemma DestBoundaryCanonical(m: map<string, map<string, EdgeInfo>>, db: string, dc: string, info: EdgeInfo)
    requires DestsCanonical(m) && Canonical(db) && Canonical(dc)
    ensures var inner := if db in m then m[db] else map[];
      DestsCanonical(m[db := if dc in inner then inner else inner[dc := info]])
  {
  }

  lemma SourceComponentCanonical(m: map<string, map<string, map<string, EdgeInfo>>>, sc: string, db: string, dc: string,
                                 info: EdgeInfo)
    requires SourcesCanonical(m) && Canonical(sc) && Canonical(db) && Canonical(dc)
    ensures var inner := if sc in m then m[sc] else map[];
      var leaf := if db in inner then inner[db] else map[];
      SourcesCanonical(m[sc := inner[db := if dc in leaf then leaf else leaf[dc := info]]])
  {
    var inner := if sc in m then m[sc] else map[];
    DestBoundaryCanonical(inner, db, dc, info);
  }

  /** The tree after the three empty levels are created. */
  lemma LevelsShape(t: Tree, sb: string, sc: string, db: string)
    ensures var l1 := if sb in t then t[sb] else map[];
      var l2 := if sc in l1 then l1[sc] else map[];
      var l3 := if db in l2 then l2[db] else map[];
      var t1 := WithSourceBoundary(t, sb);
      var t2 := WithSourceComponent(t1, sb, sc);
      WithDestBoundary(t2, sb, sc, db) == t[sb := l1[sc := l2[db := l3]]]
  {
    var l1 := if sb in t then t[sb] else map[];
    var l2 := if sc in l1 then l1[sc] else map[];
    var l3 := if db in l2 then l2[db] else map[];
    var t1 := WithSourceBoundary(t, sb);
    assert t1 == t[sb := l1];
    var t2 := WithSourceComponent(t1, sb, sc);
    if sc in l1 {
      assert l1[sc := l2] == l1;
    }
    assert t2 == t[sb := l1[sc := l2]];
    assert t2[sb] == l1[sc := l2] && t2[sb][sc] == l2;
    var t3 := WithDestBoundary(t2, sb, sc, db);
    if db in l2 {
      assert l2[db := l3] == l2;
      assert t3 == t2;
    } else {
      assert t3 == t2[sb := t2[sb][sc := l2[db := l3]]];
      assert l1[sc := l2][sc := l2[db := l3]] == l1[sc := l2[db := l3]];
      assert t[sb := l1[sc := l2]][sb := l1[sc := l2[db := l3]]] == t[sb := l1[sc := l2[db := l3]]];
    }
  }

  /** The tree after `Insert`, level by level. */
  lemma InsertShape(t: Tree, e: Edge, info: EdgeInfo)
    ensures var sb, sc, db, dc := e.sourceBoundary, e.sourceComponent, e.destBoundary, e.destComponent;
      var l1 := if sb in t then t[sb] else map[];
      var l2 := if sc in l1 then l1[sc] else map[];
      var l3 := if db in l2 then l2[db] else map[];
      Insert(t, e, info) == t[sb := l1[sc := l2[db := if dc in l3 then l3 else l3[dc := info]]]]
  {
    var sb, sc, db, dc := e.sourceBoundary, e.sourceComponent, e.destBoundary, e.destComponent;
    var l1 := if sb in t then t[sb] else map[];
    var l2 := if sc in l1 then l1[sc] else map[];
    var l3 := if db in l2 then l2[db] else map[];
    LevelsShape(t, sb, sc, db);
    var t3 := t[sb := l1[sc := l2[db := l3]]];
    assert Insert(t, e, info) == WithDestComponent(t3, sb, sc, db, dc, info);
    if dc !in l3 {
      var x := l3[dc := info];
      assert WithDestComponent(t3, sb, sc, db, dc, info) == t3[sb := t3[sb][sc := t3[sb][sc][db := x]]];
      assert l2[db := l3][db := x] == l2[db := x];
      assert l1[sc := l2[db := l3]][sc := l2[db := x]] == l1[sc := l2[db := x]];
      assert t3[sb := l1[sc := l2[db := x]]] == t[sb := l1[sc := l2[db := x]]];
    }
  }

  lemma TreeUpdateCanonical(t: Tree, sb: string, level: map<string, map<string, map<string, EdgeInfo>>>)
    requires TreeCanonical(t) && Canonical(sb) && SourcesCanonical(level)
    ensures TreeCanonical(t[sb := level])
  {
  }

  lemma InsertCanonical(t: Tree, e: Edge, info: EdgeInfo)
    requires TreeCanonical(t)
    requires Canonical(e.sourceBoundary) && Canonical(e.sourceComponent)
    requires Canonical(e.destBoundary) && Canonical(e.destComponent)
    ensures TreeCanonical(Insert(t, e, info))
  {
    var sb, sc, db, dc := e.sourceBoundary, e.sourceComponent, e.destBoundary, e.destComponent;
    var l1 := if sb in t then t[sb] else map[];
    var l2 := if sc in l1 then l1[sc] else map[];
    var l3 := if db in l2 then l2[db] else map[];
    var level := l1[sc := l2[db := if dc in l3 then l3 else l3[dc := info]]];
    InsertShape(t, e, info);
    SourceComponentCanonical(l1, sc, db, dc, info);
    TreeUpdateCanonical(t, sb, level);
  }

  lemma ConnectValid(g: Graph, sb: string, sc: string, conn: string, db: string, dc: string, meta: SourceMeta)
    requires Valid(g)
    ensures Connect(g, sb, sc, conn, db, dc, meta).Success? && Valid(Connect(g, sb, sc, conn, db, dc, meta).value)
  {
    var connection := if Clean(conn) == "to" then Uni else Bi;
    var e := MakeEdge(TextToIdentifier(Clean(sb)), TextToIdentifier(Clean(sc)),
                      TextToIdentifier(Clean(db)), TextToIdentifier(Clean(dc)), connection, Meta(meta));
    InsertCanonical(g.dfd, e, EdgeInfo(connection, meta));
  }

  lemma ReviewedValid(g: Graph, b: string, c: string, text: string, meta: SourceMeta)
    requires Valid(g)
    ensures Reviewed(g, b, c, text, meta).Success? && Valid(Reviewed(g, b, c, text, meta).value)
  {
    ReviewedClosed(g, b, c, text, meta);
    BoundaryNotedValid(g, b);
    var g1 := BoundaryNoted(g, b);
    ComponentNotedValid(g1, Reference(b), c);
    var g2 := ComponentNoted(g1, Reference(b), c);
    AppendedValid(g2.reviews, TextToIdentifier(text), ReviewRecordOf(b, c, text, meta));
  }

  lemma RelatedValid(g: Graph, kind: ElementKind, b: string, c: string, threat: string, text: string, meta: SourceMeta)
    requires Valid(g)
    ensures Related(g, kind, b, c, threat, text, meta).Success? && Valid(Related(g, kind, b, c, threat, text, meta).value)
  {
    RelatedClosed(g, kind, b, c, threat, text, meta);
    BoundaryNotedValid(g, b);
    var g1 := BoundaryNoted(g, b);
    ComponentNotedValid(g1, Reference(b), c);
    var g2 := ComponentNoted(g1, Reference(b), c);
    ThreatNotedValid(g2, threat);
    var g3 := ThreatNoted(g2, threat);
    var s := Appended(Store(g3, kind), TextToIdentifier(text), ElementRecordOf(kind, b, c, threat, text, meta));
    AppendedValid(Store(g3, kind), TextToIdentifier(text), ElementRecordOf(kind, b, c, threat, text, meta));
    WithStoreValid(g3, kind, s);
  }

  /** Every handler keeps the graph valid. */
  lemma ApplyValid(g: Graph, t: M.Tag, m: M.Match, meta: SourceMeta)
    requires Valid(g) && Apply(g, t, m, meta).Success?
    ensures Valid(Apply(g, t, m, meta).value)
  {
    match t {
      case Alias => AliasValid(g, m.pclass, m.id, m.subId, m.text);
      case Describe => DescribeValid(g, m.pclass, m.id, m.subId, m.text);
      case Connects =>
        ConnectValid(g, m.sourceBoundary, m.sourceComponent, m.connector, m.destBoundary, m.destComponent, meta);
      case Review => ReviewedValid(g, Clean(m.boundary), Clean(m.component), Clean(m.text), meta);
      case _ =>
        ApplyElement(g, t, m, meta);
        RelatedValid(g, KindOf(t), Clean(m.boundary), Clean(m.component), Clean(m.threat), Clean(m.text), meta);
    }
  }

  lemma StepValid(g: Graph, key: string, comment: string, meta: SourceMeta)
    requires Valid(g) && Step(g, key, comment, meta).Success?
    ensures Valid(Step(g, key, comment, meta).value)
  {
    var t := Tags.Handler(key).value;
    ApplyValid(g, t, M.Search(t, comment).value, meta);
  }

  /** The tags of a comment, whatever they are and wherever a handler stops,
      leave a valid graph valid. */
  lemma {:induction false} RunTagsValid(g: Graph, keys: seq<string>, comment: string, meta: SourceMeta)
    requires Valid(g)
    ensures Valid(RunTags(g, keys, comment, meta).graph)
    decreases |keys|
  {
    if keys != [] {
      var r := Step(g, keys[0], comment, meta);
      if r.Success? {
        StepValid(g, keys[0], comment, meta);
        RunTagsValid(r.value, keys[1..], comment, meta);
      }
    }
  }

  lemma ParseCommentValid(g: Graph, comment: Option<string>, meta: SourceMeta)
    requires Valid(g)
    ensures Valid(ParseComment(g, comment, meta).graph)
  {
    if comment.Some? && comment.value != "" {
      RunTagsValid(g, Tags.FindTags(comment.value), comment.value, meta);
    }
  }

  /** Every parse, stopped by an error or not, leaves a valid graph. */
  lemma {:induction false} ParseAllValid(g: Graph, comments: seq<(Option<string>, SourceMeta)>)
    requires Valid(g)
    ensures Valid(ParseAll(g, comments).graph)
    decreases |comments|
  {
    if comments != [] {
      ParseCommentValid(g, comments[0].0, comments[0].1);
      var r := ParseComment(g, comments[0].0, comments[0].1);
      if r.error.None? {
        ParseAllValid(r.graph, comments[1..]);
      }
    }
  }

  // ---------------------------------------------------------------- the comment walk

  /** Running the handlers of two lists of keywords is running the first list,
      then, unless it stopped on an error, the second from where it left off. */
  lemma {:induction false} RunTagsConcat(g: Graph, a: seq<string>, b: seq<string>, comment: string, meta: SourceMeta)
    ensures RunTags(g, a + b, comment, meta)
         == (var r := RunTags(g, a, comment, meta);
             if r.error.Some? then r else RunTags(r.graph, b, comment, meta))
    decreases |a|
  {
    if a == [] {
      assert a + b == b;
    } else {
      assert (a + b)[0] == a[0] && (a + b)[1..] == a[1..] + b;
      var r := Step(g, a[0], comment, meta);
      if r.Success? {
        RunTagsConcat(r.value, a[1..], b, comment, meta);
      }
    }
  }

  /** The walk of one more keyword: the loop body of `_parse_comment`. */
  lemma RunTagsSnoc(g: Graph, keys: seq<string>, key: string, comment: string, meta: SourceMeta)
    requires RunTags(g, keys, comment, meta).error.None?
    ensures var r := RunTags(g, keys, comment, meta);
      var s := Step(r.graph, key, comment, meta);
      RunTags(g, keys + [key], comment, meta)
        == if s.Failure? then Run(r.graph, Some(s.error)) else Run(s.value, None)
  {
    RunTagsConcat(g, keys, [key], comment, meta);
  }

  /** A keyword with no handler (`@ALIAS`, `@Describe`) stops the walk with a
      `KeyError`, leaving the changes of the handlers before it. */
  lemma UnknownKeywordStops(g: Graph, keys: seq<string>, key: string, rest: seq<string>, comment: string, meta: SourceMeta)
    requires Tags.Handler(key).None? && RunTags(g, keys, comment, meta).error.None?
    ensures RunTags(g, keys + [key] + rest, comment, meta)
         == Run(RunTags(g, keys, comment, meta).graph, Some(UnknownKey(key)))
  {
    RunTagsConcat(g, keys + [key], rest, comment, meta);
    RunTagsSnoc(g, keys, key, comment, meta);
  }

  /** A comment without tag lines changes nothing. */
  lemma NoTagsNoChange(g: Graph, comment: Option<string>, meta: SourceMeta)
    requires comment.None? || Tags.FindTags(comment.value) == []
    ensures ParseComment(g, comment, meta) == Run(g, None)
  {
  }

  /** A tag line written the way its pattern reads it yields its own keyword. */
  lemma RenderedTags(t: M.Tag, m: M.Match)
    requires M.NoNewline(ML.Render(t, m))
    ensures Tags.FindTags(ML.Render(t, m)) == [Tags.TagKey(t)]
  {
    ML.RenderStartsWithKeyword(t, m);
    Tags.KeyedLineTags(t, ML.Render(t, m));
  }

  /** ... whose handler then works on exactly the groups it was written from. */
  lemma RenderedStep(g: Graph, t: M.Tag, m: M.Match, meta: SourceMeta)
    requires ML.WellFormed(t, m) && M.NoNewline(ML.Render(t, m))
    ensures Step(g, Tags.TagKey(t), ML.Render(t, m), meta) == Apply(g, t, m, meta)
  {
    var c := ML.Render(t, m);
    Tags.HandlerComplete(t);
    assert c + [] == c;
    ML.SearchRendered(t, m, []);
    HandleApplies(g, t, c, meta, m);
  }

  /** A comment that is one tag line, written the way its pattern reads it,
      runs exactly that tag's handler on exactly those groups. */
  lemma RenderedLine(g: Graph, t: M.Tag, m: M.Match, meta: SourceMeta)
    requires ML.WellFormed(t, m) && M.NoNewline(ML.Render(t, m))
    ensures var r := Apply(g, t, m, meta);
      ParseComment(g, Some(ML.Render(t, m)), meta)
        == if r.Failure? then Run(g, Some(r.error)) else Run(r.value, None)
  {
    var c := ML.Render(t, m);
    RenderedTags(t, m);
    RenderedStep(g, t, m, meta);
    assert c != "" by { assert |Tags.FindTags(c)| == 1; }
    OneTag(g, c, Tags.TagKey(t), meta);
  }

  lemma OneTag(g: Graph, c: string, key: string, meta: SourceMeta)
    requires Tags.FindTags(c) == [key] && c != ""
    ensures var s := Step(g, key, c, meta);
      ParseComment(g, Some(c), meta) == if s.Failure? then Run(g, Some(s.error)) else Run(s.value, None)
  {
    RunTagsSnoc(g, [], key, c, meta);
    assert [] + [key] == [key];
  }

  /** Parsing two runs of comments is parsing the first, then, unless it
      stopped on an error, the second from where it left off. */
  lemma {:induction false} ParseAllConcat(g: Graph, a: seq<(Option<string>, SourceMeta)>,
                                          b: seq<(Option<string>, SourceMeta)>)
    ensures ParseAll(g, a + b)
         == (var r := ParseAll(g, a);
             if r.error.Some? then r else ParseAll(r.graph, b))
    decreases |a|
  {
    if a == [] {
      assert a + b == b;
    } else {
      assert (a + b)[0] == a[0] && (a + b)[1..] == a[1..] + b;
      var r := ParseComment(g, a[0].0, a[0].1);
      if r.error.None? {
        ParseAllConcat(r.graph, a[1..], b);
      }
    }
  }

  /** The loop body of a parse over the front end's comments. */
  lemma ParseAllSnoc(g: Graph, comments: seq<(Option<string>, SourceMeta)>, c: Option<string>, meta: SourceMeta)
    requires ParseAll(g, comments).error.None?
    ensures ParseAll(g, comments + [(c, meta)]) == ParseComment(ParseAll(g, comments).graph, c, meta)
  {
    ParseAllConcat(g, comments, [(c, meta)]);
    var r := ParseComment(ParseAll(g, comments).graph, c, meta);
    assert [(c, meta)][1..] == [];
  }

  /** The walk over the first `i + 1` keywords, from the walk over the first `i`. */
  lemma RunTagsPrefix(g: Graph, keys: seq<string>, i: nat, comment: string, meta: SourceMeta)
    requires i < |keys| && RunTags(g, keys[..i], comment, meta).error.None?
    ensures var r := RunTags(g, keys[..i], comment, meta);
      var s := Step(r.graph, keys[i], comment, meta);
      RunTags(g, keys[..i + 1], comment, meta)
        == if s.Failure? then Run(r.graph, Some(s.error)) else Run(s.value, None)
  {
    PrefixSnoc(keys, i);
    RunTagsExtended(g, keys[..i], keys[i], keys[..i + 1], comment, meta);
  }

  /** A prefix one element longer. */
  lemma PrefixSnoc<T>(s: seq<T>, i: nat)
    requires i < |s|
    ensures s[..i + 1] == s[..i] + [s[i]]
  {
  }

  lemma SplitAt<T>(s: seq<T>, i: nat)
    requires i <= |s|
    ensures s[..i] + s[i..] == s
  {
  }

  /** `RunTagsSnoc`, with the longer sequence named. */
  lemma RunTagsExtended(g: Graph, keys: seq<string>, key: string, longer: seq<string>, comment: string, meta: SourceMeta)
    requires longer == keys + [key] && RunTags(g, keys, comment, meta).error.None?
    ensures var r := RunTags(g, keys, comment, meta);
      var s := Step(r.graph, key, comment, meta);
      RunTags(g, longer, comment, meta)
        == if s.Failure? then Run(r.graph, Some(s.error)) else Run(s.value, None)
  {
    RunTagsSnoc(g, keys, key, comment, meta);
  }

  /** A walk stopped by an error on the first `i` keywords is the whole walk. */
  lemma RunTagsStopped(g: Graph, keys: seq<string>, i: nat, comment: string, meta: SourceMeta)
    requires i <= |keys| && RunTags(g, keys[..i], comment, meta).error.Some?
    ensures RunTags(g, keys, comment, meta) == RunTags(g, keys[..i], comment, meta)
  {
    SplitAt(keys, i);
    RunTagsConcat(g, keys[..i], keys[i..], comment, meta);
  }

  /** The parse of the first `i + 1` comments, from the parse of the first `i`. */
  lemma ParseAllPrefix(g: Graph, comments: seq<(Option<string>, SourceMeta)>, i: nat)
    requires i < |comments| && ParseAll(g, comments[..i]).error.None?
    ensures ParseAll(g, comments[..i + 1]) == ParseComment(ParseAll(g, comments[..i]).graph, comments[i].0, comments[i].1)
  {
    PrefixSnoc(comments, i);
    ParseAllSnoc(g, comments[..i], comments[i].0, comments[i].1);
  }

  /** A parse stopped by an error on the first `i` comments is the whole parse. */
  lemma ParseAllStopped(g: Graph, comments: seq<(Option<string>, SourceMeta)>, i: nat)
    requires i <= |comments| && ParseAll(g, comments[..i]).error.Some?
    ensures ParseAll(g, comments) == ParseAll(g, comments[..i])
  {
    SplitAt(comments, i);
    ParseAllConcat(g, comments[..i], comments[i..]);
  }
}
