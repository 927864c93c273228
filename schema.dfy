/**
 * The GraphQL `search` field: each search hit becomes a `SearchResult`,
 * with its tags renamed from `{name, value}` to `{key, value}` and default
 * strings for the keys a document lacks.
 */
module SchemaQuery {
  import opened Common

  datatype SearchTag = SearchTag(key: string, value: string)

  /** The GraphQL result type; `resultType` is the field named `type`. */
  datatype SearchResult = SearchResult(
    txid: string,
    title: string,
    description: Option<string>,
    resultType: string,
    tags: seq<SearchTag>,
    markers: seq<string>)

  /** One tag as the GraphQL `Tag` type: the name becomes the key. */
  function ToSearchTag(t: Tag): SearchTag
  {
    SearchTag(t.name, t.value)
  }

  /** The result for one document whose `tags` key is present. */
  function ToSearchResult(doc: Source, tags: seq<SearchTag>): SearchResult
  {
    SearchResult(
      doc.txid,
      if doc.title.Some? then doc.title.value else "Title unavailable",
      if doc.description.Some? then doc.description.value else Some("Description unavailable"),
      if doc.docType.Some? then doc.docType.value else "Unknown",
      tags,
      if doc.markers.Some? then doc.markers.value else [])
  }

  /** The inner loop of `search`: the tags, renamed one by one. */
  method ToSearchTags(tags: seq<Tag>) returns (r: seq<SearchTag>)
    ensures |r| == |tags|
    ensures forall i :: 0 <= i < |tags| ==> r[i].key == tags[i].name && r[i].value == tags[i].value
  {
    r := [];
    for i := 0 to |tags|
      invariant |r| == i
      invariant forall k :: 0 <= k < i ==> r[k] == ToSearchTag(tags[k])
    {
      r := r + [ToSearchTag(tags[i])];
    }
  }

  /**
   * `Query.search` over the hits the search engine returned: one result per
   * hit, in hit order; a hit without a `tags` key raises a KeyError.
   */
  method Search(hits: seq<Hit>) returns (r: Result<seq<SearchResult>>)
    ensures r.Err? <==> exists i :: 0 <= i < |hits| && hits[i].source.tags.None?
    ensures r.Err? ==> r.error == KeyError("tags")
    ensures r.Ok? ==> |r.value| == |hits|
    ensures r.Ok? ==> forall i :: 0 <= i < |hits| ==>
      var doc := hits[i].source;
      var res := r.value[i];
      && res.txid == doc.txid
      && |res.tags| == |doc.tags.value|
      && (forall k :: 0 <= k < |res.tags| ==> res.tags[k] == SearchTag(doc.tags.value[k].name, doc.tags.value[k].value))
      && res.title == (if doc.title.Some? then doc.title.value else "Title unavailable")
      && res.description == (if doc.description.Some? then doc.description.value else Some("Description unavailable"))
      && res.resultType == (if doc.docType.Some? then doc.docType.value else "Unknown")
      && res.markers == (if doc.markers.Some? then doc.markers.value else [])
  {
    var res: seq<SearchResult> := [];
    for i := 0 to |hits|
      invariant |res| == i
      invariant forall k :: 0 <= k < i ==> hits[k].source.tags.Some?
      invariant forall k :: 0 <= k < i ==>
        && res[k] == ToSearchResult(hits[k].source, res[k].tags)
        && |res[k].tags| == |hits[k].source.tags.value|
        && forall j :: 0 <= j < |res[k].tags| ==> res[k].tags[j] == ToSearchTag(hits[k].source.tags.value[j])
    {
      var doc := hits[i].source;
      if doc.tags.None? {
        return Err(KeyError("tags"));
      }
      var tags := ToSearchTags(doc.tags.value);
      res := res + [ToSearchResult(doc, tags)];
    }
    r := Ok(res);
  }
}
