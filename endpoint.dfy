/**
 * The REST `/search` handler: each search hit becomes a result record with
 * default values for the keys a document lacks. Unlike the GraphQL field it
 * keeps the tags as stored and never raises on a missing key.
 */
module SearchEndpoint {
  import opened Common
  import SchemaQuery
  import Indexing

  /** One entry of the handler's JSON array; `resultType` is the key named `type`. */
  datatype ResultRecord = ResultRecord(
    txid: string,
    title: string,
    description: Option<string>,
    resultType: string,
    tags: seq<Tag>,
    markers: seq<string>)

  /** The record for one document: each key copied when present, else its default. */
  function ToRecord(doc: Source): ResultRecord
  {
    ResultRecord(
      doc.txid,
      if doc.title.Some? then doc.title.value else "Title unavailable",
      if doc.description.Some? then doc.description.value else Some("Description unavailable"),
      if doc.docType.Some? then doc.docType.value else "Type unavailable",
      if doc.tags.Some? then doc.tags.value else [],
      if doc.markers.Some? then doc.markers.value else [])
  }

  /** The `/search` loop over the hits: one record per hit, in hit order. */
  method SearchHandler(hits: seq<Hit>) returns (res: seq<ResultRecord>)
    ensures |res| == |hits|
    ensures forall i :: 0 <= i < |hits| ==>
      var doc := hits[i].source;
      && res[i].txid == doc.txid
      && res[i].title == (if doc.title.Some? then doc.title.value else "Title unavailable")
      && res[i].description == (if doc.description.Some? then doc.description.value else Some("Description unavailable"))
      && res[i].resultType == (if doc.docType.Some? then doc.docType.value else "Type unavailable")
      && res[i].tags == (if doc.tags.Some? then doc.tags.value else [])
      && res[i].markers == (if doc.markers.Some? then doc.markers.value else [])
  {
    res := [];
    for i := 0 to |hits|
      invariant |res| == i
      invariant forall k :: 0 <= k < i ==> res[k] == ToRecord(hits[k].source)
    {
      res := res + [ToRecord(hits[i].source)];
    }
  }

  /**
   * The two search surfaces agree on every field except the default for a
   * missing `type`, and the GraphQL one renames the tags.
   */
  lemma ProjectionsAgree(doc: Source)
    requires doc.tags.Some?
    ensures var tags := seq(|doc.tags.value|, k requires 0 <= k < |doc.tags.value| => SchemaQuery.ToSearchTag(doc.tags.value[k]));
      var g := SchemaQuery.ToSearchResult(doc, tags);
      var r := ToRecord(doc);
      && g.txid == r.txid && g.title == r.title && g.description == r.description && g.markers == r.markers
      && |g.tags| == |r.tags|
      && (forall k :: 0 <= k < |r.tags| ==> g.tags[k].key == r.tags[k].name && g.tags[k].value == r.tags[k].value)
      && (doc.docType.Some? ==> g.resultType == r.resultType)
      && (doc.docType.None? ==> g.resultType == "Unknown" && r.resultType == "Type unavailable")
  {
  }

  /**
   * A document the classifier found compliant shows its last Title and Type
   * values, a description that is null when no Description tag exists (not
   * the default string), and the ANS-110 marker.
   */
  lemma ClassifiedRecord(src: Source)
    requires Indexing.ANS110(src).Ok? && Indexing.ANS110(src).value.compliant
    ensures var r := ToRecord(Indexing.ANS110(src).value.doc);
      var tags := src.tags.value;
      && Some(r.title) == LastValue(tags, "Title")
      && Some(r.resultType) == LastValue(tags, "Type")
      && r.description == LastValue(tags, "Description")
      && (!HasName(tags, "Description") ==> r.description == None)
      && Indexing.Ans110Marker in r.markers
      && r.tags == tags
  {
  }
}
