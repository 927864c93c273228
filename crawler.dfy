/**
 * One iteration of the crawl worker: claim the oldest pending transaction,
 * look up its tags, fetch its body only when it is HTML, index the
 * document, then mark the transaction crawled. The ledger's tag lookup and
 * the gateway fetch are parameters.
 */
module Crawling {
  import opened Common
  import opened FrontierStore
  import opened Indexing

  /** The cap on stored content, in characters of the response text. */
  const MaxContent := 50000
  const ContentTypeName := "Content-Type"
  const HtmlType := "text/html"

  /** The gateway's answer to `GET /<txid>`. */
  datatype Response = Response(status: int, text: string)

  /** `get_tx_data`: the response text on status 200, None on any other status. */
  function GetTxData(resp: Response): (r: Option<string>)
    ensures r.None? <==> resp.status != 200
    ensures r.Some? ==> r.value == resp.text
  {
    if resp.status != 200 then None else Some(resp.text)
  }

  /** `data[:50000]`: the longest prefix of `data` no longer than the cap. */
  function Truncate(data: string): (r: string)
    ensures r <= data
    ensures |r| == if |data| < MaxContent then |data| else MaxContent
  {
    if |data| <= MaxContent then data else data[..MaxContent]
  }

  /** The scan for the Content-Type tag: the first such tag wins and the loop breaks on it. */
  method FindContentType(tags: seq<Tag>) returns (contentType: Option<string>)
    ensures contentType.None? <==> !HasName(tags, ContentTypeName)
    ensures contentType.Some? ==>
      exists i :: 0 <= i < |tags| && tags[i].name == ContentTypeName && tags[i].value == contentType.value &&
        forall j :: 0 <= j < i ==> tags[j].name != ContentTypeName
    ensures contentType == FirstValue(tags, ContentTypeName)
  {
    contentType := None;
    var i := 0;
    while i < |tags|
      invariant 0 <= i <= |tags|
      invariant forall j :: 0 <= j < i ==> tags[j].name != ContentTypeName
      invariant FirstValue(tags[i..], ContentTypeName) == FirstValue(tags, ContentTypeName)
    {
      assert tags[i..][1..] == tags[i + 1..];
      if tags[i].name == ContentTypeName {
        contentType := Some(tags[i].value);
        break;
      }
      i := i + 1;
    }
  }

  /** The crawl fetches a body: the first Content-Type tag says exactly `text/html`. */
  predicate WantsBody(tags: seq<Tag>)
  {
    FirstValue(tags, ContentTypeName) == Some(HtmlType)
  }

  /**
   * The document `crawl` indexes for `txid`: `{txid, tags, content}`, where
   * content is the truncated body for exactly `text/html` and null otherwise.
   * A failed fetch of an HTML body is an error, since the missing body is
   * sliced unguarded.
   */
  function BuildDocument(txid: string, tags: seq<Tag>, fetch: string -> Response): (r: Result<Source>)
    ensures r.Err? <==> WantsBody(tags) && fetch(txid).status != 200
    ensures r.Err? ==> r.error == ContentUnavailable
    ensures r.Ok? ==> r.value == Source(txid, Some(tags), r.value.content, None, None, None, None, None)
    ensures r.Ok? ==> r.value.content.Some? && (r.value.content.value.Some? <==> WantsBody(tags))
    ensures r.Ok? && WantsBody(tags) ==>
      var body := r.value.content.value.value;
      var data := fetch(txid).text;
      body <= data && |body| == if |data| < MaxContent then |data| else MaxContent
  {
    if !WantsBody(tags) then Ok(Source(txid, Some(tags), Some(None), None, None, None, None, None))
    else
      match GetTxData(fetch(txid))
      case None => Err(ContentUnavailable)
      case Some(data) => Ok(Source(txid, Some(tags), Some(Some(Truncate(data))), None, None, None, None, None))
  }

  /** The side effects of one crawl step, in the order they happen. */
  datatype Event = Fetched(txid: string) | Indexed(txid: string) | Marked(txid: string)

  datatype CrawlOutcome = Idle | Crawled(txid: string) | Failed(txid: string, error: Error)

  /** The fetch event a crawl of `txid` with these tags records: one exactly when the body is wanted. */
  function FetchEvents(txid: string, tags: seq<Tag>): seq<Event>
  {
    if WantsBody(tags) then [Fetched(txid)] else []
  }

  class Crawler {
    const frontier: Frontier
    const index: SearchIndex
    /** The fetches, index writes and completion marks so far. */
    ghost var events: seq<Event>

    ghost predicate Valid()
      reads this, frontier
    {
      frontier.Valid()
    }

    constructor (frontier: Frontier, index: SearchIndex)
      requires frontier.Valid()
      ensures Valid() && this.frontier == frontier && this.index == index && events == []
    {
      this.frontier := frontier;
      this.index := index;
      events := [];
    }

    /**
     * `crawl`: one claim, fetch, index, mark cycle. `lookupTags` stands for
     * the GraphQL tag query (None when it yields no transaction), `fetch` for
     * the gateway, `now` for the clock.
     */
    method Crawl(blockNo: Option<int>, lookupTags: string -> Option<seq<Tag>>, fetch: string -> Response, now: Stamp)
      returns (outcome: CrawlOutcome)
      requires Valid()
      modifies this, frontier, index
      ensures Valid()
      ensures var pick := NextPending(old(frontier.records), blockNo);
        && (outcome.Idle? <==> pick.None?)
        && (!outcome.Idle? ==> outcome.txid == pick.value.txid)
      ensures outcome.Idle? ==> events == old(events)
      ensures !outcome.Crawled? ==> frontier.records == old(frontier.records) && index.docs == old(index.docs)
      ensures outcome.Failed? ==>
        var id := outcome.txid;
        if lookupTags(id).None? then outcome.error == MetadataUnavailable && events == old(events)
        else
          && BuildDocument(id, lookupTags(id).value, fetch) == Err(outcome.error)
          && events == old(events) + FetchEvents(id, lookupTags(id).value)
      ensures outcome.Crawled? ==>
        var id := outcome.txid;
        && lookupTags(id).Some?
        && var tags := lookupTags(id).value;
        && BuildDocument(id, tags, fetch).Ok?
        && index.docs == old(index.docs)[id := BuildDocument(id, tags, fetch).value]
        && frontier.records == MarkCrawled(old(frontier.records), id, now)
        && events == old(events) + FetchEvents(id, tags) + [Indexed(id), Marked(id)]
    {
      var tx := frontier.GetNextTx(blockNo);
      if tx.None? {
        return Idle;
      }
      var id := tx.value.txid;
      var found := lookupTags(id);
      if found.None? {
        return Failed(id, MetadataUnavailable);
      }
      var tags := found.value;
      var contentType := FindContentType(tags);
      var content: Option<string> := None;
      if contentType == Some(HtmlType) {
        events := events + [Fetched(id)];
        var data := GetTxData(fetch(id));
        if data.None? {
          return Failed(id, ContentUnavailable);
        }
        content := Some(Truncate(data.value));
      }
      var doc := Source(id, Some(tags), Some(content), None, None, None, None, None);
      index.IndexDocument(doc);
      events := events + [Indexed(id)];
      frontier.MarkTxCrawled(id, now);
      events := events + [Marked(id)];
      outcome := Crawled(id);
    }
  }

  /**
   * The walk-through of the whole pipeline: discover A at height 100, crawl
   * it as an HTML page, then classify the stored document.
   */
  method PipelineScenario()
  {
    var frontier := new Frontier([]);
    var index := new SearchIndex(map[]);
    var crawler := new Crawler(frontier, index);
    frontier.IngestTxs([Entry("A", 100)]);
    assert frontier.records == [Record("A", 100, None)];
    var tags := [Tag("Content-Type", "text/html"), Tag("Title", "Hi"), Tag("Type", "Article")];
    var outcome := crawler.Crawl(None, id => Some(tags), id => Response(200, "<html>hello</html>"), 7);
    assert FirstValue(tags, ContentTypeName) == Some(HtmlType);
    assert outcome == Crawled("A");
    var stored := index.docs["A"];
    assert stored == Source("A", Some(tags), Some(Some("<html>hello</html>")), None, None, None, None, None);
    assert frontier.records == [Record("A", 100, Some(7))];
    var classified := LocalIndexANS110(stored);
    assert tags[1].name == "Title" && tags[2].name == "Type";
    assert classified.value.compliant;
    assert classified.value.doc.markers == Some([Ans110Marker]);
    assert LastValue(tags, "Title") == Some("Hi");
    assert classified.value.doc.title == Some("Hi");
  }
}
