/** The records of the threat-model graph and their JSON renderings
    (pythreatspec/pythreatspec.py, `PTSSourceMeta` … `PTSExposure`). */
module Records {
  import opened Wrappers

  /** Why an operation of the tag engine gives up: the `ValueError`s it raises,
      and the `KeyError` of a failed table lookup. */
  datatype Error =
    | InvalidPattern(tag: string)
    | AmbiguousId(pclass: string)
    | UnknownBoundary(id: string)
    | UnknownIdentifier(pclass: string, id: string)
    | UnknownKey(key: string)
    | MetadataNotSet
    | MetadataWrongType

  /** `PTSSourceMeta`: where in the source a tag was found. */
  datatype SourceMeta = SourceMeta(fname: string, lineno: int, func: string)

  /** `PTSBoundary`, `PTSComponent` and `PTSThreat`: a name and a description. */
  datatype Property = Property(name: string, desc: string)

  /** The four subclasses of `PTSElement`; each names its free text differently. */
  datatype ElementKind = Mitigation | Exposure | Transfer | Acceptance

  /** `PTSReview` and the `PTSElement` subclasses. `meta` is None until the
      handler that creates the record sets it. */
  datatype Record =
    | ReviewRecord(boundary: string, component: string, review: string,
                   refs: seq<string>, meta: Option<SourceMeta>)
    | ElementRecord(kind: ElementKind, boundary: string, component: string, threat: string,
                    text: string, refs: seq<string>, meta: Option<SourceMeta>)

  /** The JSON values the exporters build. */
  datatype Json =
    | JInt(i: int)
    | JString(s: string)
    | JArray(items: seq<Json>)
    | JObject(fields: map<string, Json>)

  /** The key under which an element's free text is exported. */
  function TextKey(kind: ElementKind): string
  {
    match kind
    case Mitigation => "mitigation"
    case Exposure => "exposure"
    case Transfer => "transfer"
    case Acceptance => "acceptance"
  }

  function Strings(refs: seq<string>): (r: seq<Json>)
    ensures |r| == |refs| && forall k | 0 <= k < |r| :: r[k] == JString(refs[k])
  {
    if refs == [] then [] else [JString(refs[0])] + Strings(refs[1..])
  }

  /** `PTSSourceMeta.export_to_json`: the keys "file", "line" and "function". */
  function MetaJson(m: SourceMeta): (r: Json)
    ensures r.JObject? && r.fields.Keys == {"file", "line", "function"}
    ensures r.fields["file"] == JString(m.fname) && r.fields["line"] == JInt(m.lineno)
    ensures r.fields["function"] == JString(m.func)
  {
    JObject(map["file" := JString(m.fname), "line" := JInt(m.lineno), "function" := JString(m.func)])
  }

  /** `PTSProperty.inner_rep`: the name, and the description only when there is one. */
  function PropertyJson(p: Property): (r: Json)
    ensures r.JObject? && "name" in r.fields && r.fields["name"] == JString(p.name)
    ensures "description" in r.fields <==> |p.desc| > 0
    ensures "description" in r.fields ==> r.fields["description"] == JString(p.desc)
    ensures r.fields.Keys <= {"name", "description"}
  {
    var rep := map["name" := JString(p.name)];
    if |p.desc| > 0 then JObject(rep["description" := JString(p.desc)]) else JObject(rep)
  }

  /** `PTSReview.export_to_json` and `PTSElement.export_to_json` with the
      subclass's own key: fails exactly when the record has no metadata. */
  function RecordJson(rec: Record): (r: Result<Json, Error>)
    ensures r.Failure? <==> rec.meta.None?
    ensures r.Failure? ==> r.error == MetadataNotSet
    ensures r.Success? ==>
      && r.value.JObject?
      && {"boundary", "component", "refs", "source"} <= r.value.fields.Keys
      && r.value.fields["source"] == MetaJson(rec.meta.value)
      && r.value.fields["boundary"] == JString(rec.boundary)
      && r.value.fields["component"] == JString(rec.component)
      && r.value.fields["refs"] == JArray(Strings(rec.refs))
    ensures r.Success? && rec.ReviewRecord? ==>
      && r.value.fields.Keys == {"boundary", "component", "review", "refs", "source"}
      && r.value.fields["review"] == JString(rec.review)
    ensures r.Success? && rec.ElementRecord? ==>
      && r.value.fields.Keys == {"boundary", "component", "threat", "refs", "source", TextKey(rec.kind)}
      && r.value.fields["threat"] == JString(rec.threat)
      && r.value.fields[TextKey(rec.kind)] == JString(rec.text)
  {
    match rec.meta
    case None => Failure(MetadataNotSet)
    case Some(m) =>
      var rep := map["boundary" := JString(rec.boundary), "component" := JString(rec.component),
                     "refs" := JArray(Strings(rec.refs)), "source" := MetaJson(m)];
      match rec
      case ReviewRecord(_, _, review, _, _) => Success(JObject(rep["review" := JString(review)]))
      case ElementRecord(kind, _, _, threat, text, _, _) =>
        Success(JObject(rep["threat" := JString(threat)][TextKey(kind) := JString(text)]))
  }
}
