/**
 * The search-index side of explorar-node: the index itself (a map from
 * txid to `_source`), the ANS-110 classifier `local_index_ANS110`, the
 * marker derivation `index_Misc`, and the per-hit write-back decision of
 * `deep_index`.
 */
module Indexing {
  import opened Common

  const Ans110Marker := "ANS-110"
  const NftMarker := "NFT"
  const UdlMarker := "UDL"

  // ---------------------------------------------------------------------
  // The index

  /** A partial update: every key present in `upd` replaces the stored one; other keys stay. */
  function Merge(stored: Source, upd: Source): (r: Source)
    ensures KeysCover(r, stored) && KeysCover(r, upd)
    ensures KeysCover(upd, stored) ==> r == upd.(txid := stored.txid)
    ensures r.txid == stored.txid
    ensures r.tags == if upd.tags.Some? then upd.tags else stored.tags
    ensures r.content == if upd.content.Some? then upd.content else stored.content
    ensures r.title == if upd.title.Some? then upd.title else stored.title
    ensures r.docType == if upd.docType.Some? then upd.docType else stored.docType
    ensures r.description == if upd.description.Some? then upd.description else stored.description
    ensures r.topics == if upd.topics.Some? then upd.topics else stored.topics
    ensures r.markers == if upd.markers.Some? then upd.markers else stored.markers
  {
    Source(
      stored.txid,
      if upd.tags.Some? then upd.tags else stored.tags,
      if upd.content.Some? then upd.content else stored.content,
      if upd.title.Some? then upd.title else stored.title,
      if upd.docType.Some? then upd.docType else stored.docType,
      if upd.description.Some? then upd.description else stored.description,
      if upd.topics.Some? then upd.topics else stored.topics,
      if upd.markers.Some? then upd.markers else stored.markers)
  }

  /** Every key present in `b` is present in `a`. */
  predicate KeysCover(a: Source, b: Source)
  {
    && (b.tags.Some? ==> a.tags.Some?)
    && (b.content.Some? ==> a.content.Some?)
    && (b.title.Some? ==> a.title.Some?)
    && (b.docType.Some? ==> a.docType.Some?)
    && (b.description.Some? ==> a.description.Some?)
    && (b.topics.Some? ==> a.topics.Some?)
    && (b.markers.Some? ==> a.markers.Some?)
  }

  /** The `search-artx` index: documents keyed by their id, which is the txid. */
  class SearchIndex {
    var docs: map<string, Source>

    /** An index over the documents it already stores, keyed by id. */
    constructor (docs: map<string, Source>)
      ensures this.docs == docs
    {
      this.docs := docs;
    }

    /** `index_document`: store `doc` under `doc.txid`, replacing any earlier document. */
    method IndexDocument(doc: Source)
      modifies this
      ensures docs == old(docs)[doc.txid := doc]
    {
      docs := docs[doc.txid := doc];
    }

    /** `update_document`: a partial update of the document with id `doc.txid`, which must exist. */
    method UpdateDocument(doc: Source) returns (r: Result<()>)
      modifies this
      ensures r.Err? <==> doc.txid !in old(docs)
      ensures r.Err? ==> r.error == DocumentMissing(doc.txid) && docs == old(docs)
      ensures r.Ok? ==> docs == old(docs)[doc.txid := Merge(old(docs)[doc.txid], doc)]
    {
      if doc.txid in docs {
        docs := docs[doc.txid := Merge(docs[doc.txid], doc)];
        r := Ok(());
      } else {
        r := Err(DocumentMissing(doc.txid));
      }
    }
  }

  // ---------------------------------------------------------------------
  // ANS-110 classification

  /** A tag whose value `local_index_ANS110` collects into `topics`. */
  predicate IsTopic(t: Tag)
  {
    t.name != "Title" && t.name != "Type" && t.name != "Description" && Contains(t.name, "Topic:")
  }

  /** The values of the topic tags, in tag order, duplicates kept. */
  function TopicValues(tags: seq<Tag>): (r: seq<string>)
    ensures |r| <= |tags|
  {
    if tags == [] then []
    else
      var last := tags[|tags| - 1];
      TopicValues(tags[..|tags| - 1]) + (if IsTopic(last) then [last.value] else [])
  }

  /** A value is collected iff some topic tag carries it. */
  lemma {:induction false} TopicValuesMembers(tags: seq<Tag>, v: string)
    ensures v in TopicValues(tags) <==> exists i :: 0 <= i < |tags| && IsTopic(tags[i]) && tags[i].value == v
    decreases |tags|
  {
    if tags != [] {
      var init := tags[..|tags| - 1];
      TopicValuesMembers(init, v);
      assert forall i :: 0 <= i < |init| ==> tags[i] == init[i];
    }
  }

  /** Topic collection distributes over concatenation: order is tag order and nothing is merged. */
  lemma {:induction false} TopicValuesAppend(a: seq<Tag>, b: seq<Tag>)
    ensures TopicValues(a + b) == TopicValues(a) + TopicValues(b)
    decreases |b|
  {
    if b == [] {
      assert a + b == a;
    } else {
      var b' := b[..|b| - 1];
      TopicValuesAppend(a, b');
      assert (a + b)[..|a + b| - 1] == a + b';
    }
  }

  /** Only topic tags contribute, so a tag list with no topic tag yields no topics. */
  lemma {:induction false} TopicValuesNone(tags: seq<Tag>)
    requires forall i :: 0 <= i < |tags| ==> !IsTopic(tags[i])
    ensures TopicValues(tags) == []
    decreases |tags|
  {
    if tags != [] {
      TopicValuesNone(tags[..|tags| - 1]);
    }
  }

  /** One more tag of the scan: the last value of `name` advances by that tag alone. */
  lemma LastValueStep(tags: seq<Tag>, i: nat, name: string)
    requires i < |tags|
    ensures LastValue(tags[..i + 1], name) == if tags[i].name == name then Some(tags[i].value) else LastValue(tags[..i], name)
  {
    assert tags[..i + 1][..i] == tags[..i];
  }

  /** One more tag of the scan: the topics advance by that tag alone. */
  lemma TopicValuesStep(tags: seq<Tag>, i: nat)
    requires i < |tags|
    ensures TopicValues(tags[..i + 1]) == TopicValues(tags[..i]) + if IsTopic(tags[i]) then [tags[i].value] else []
  {
    assert tags[..i + 1][..i] == tags[..i];
  }

  /** The marker list after adding "ANS-110": created if the key is absent, appended only if missing. */
  function WithAns110(markers: Option<seq<string>>): (r: seq<string>)
    ensures Ans110Marker in r
    ensures markers.Some? ==> markers.value <= r
    ensures markers.Some? ==> |r| == |markers.value| + (if Ans110Marker in markers.value then 0 else 1)
    ensures markers.None? ==> r == [Ans110Marker]
  {
    match markers
    case None => [Ans110Marker]
    case Some(ms) => if Ans110Marker in ms then ms else ms + [Ans110Marker]
  }

  /** `local_index_ANS110`'s result: whether the document is compliant, and the document afterwards. */
  datatype Classified = Classified(compliant: bool, doc: Source)

  /**
   * The ANS-110 rule: Title and Type are required. A compliant document gets
   * the last Title, Type and Description values, the topics and the marker;
   * any other document is returned unchanged.
   */
  function ANS110(src: Source): (r: Result<Classified>)
    ensures r.Err? <==> src.tags.None?
    ensures r.Err? ==> r.error == KeyError("tags")
    ensures r.Ok? ==> (r.value.compliant <==> HasName(src.tags.value, "Title") && HasName(src.tags.value, "Type"))
    ensures r.Ok? && !r.value.compliant ==> r.value.doc == src
    ensures r.Ok? ==>
      var d := r.value.doc;
      d.txid == src.txid && d.tags == src.tags && d.content == src.content && KeysCover(d, src)
    ensures r.Ok? && r.value.compliant ==>
      var d := r.value.doc;
      var tags := src.tags.value;
      && d.title == LastValue(tags, "Title") && d.docType == LastValue(tags, "Type")
      && d.description == Some(LastValue(tags, "Description"))
      && d.topics == Some(TopicValues(tags))
      && d.markers == Some(WithAns110(src.markers))
      && Ans110Marker in d.markers.value
      && (src.markers.Some? ==> src.markers.value <= d.markers.value)
  {
    match src.tags
    case None => Err(KeyError("tags"))
    case Some(tags) =>
      var title := LastValue(tags, "Title");
      var docType := LastValue(tags, "Type");
      if title.None? || docType.None? then Ok(Classified(false, src))
      else
        Ok(Classified(true, src.(
          title := title,
          docType := docType,
          description := Some(LastValue(tags, "Description")),
          topics := Some(TopicValues(tags)),
          markers := Some(WithAns110(src.markers)))))
  }

  /** Classifying a classified document changes nothing more: the rule is idempotent. */
  lemma ANS110Idempotent(src: Source)
    requires ANS110(src).Ok?
    ensures ANS110(ANS110(src).value.doc) == ANS110(src)
  {
    var once := ANS110(src).value;
    if once.compliant {
      var ms := once.doc.markers.value;
      assert WithAns110(Some(ms)) == ms;
    }
  }

  /**
   * `local_index_ANS110`: scan the tags once, overwriting Title, Type and
   * Description and collecting topics, then write the fields into the
   * document when both required fields were seen.
   */
  method LocalIndexANS110(src: Source) returns (r: Result<Classified>)
    ensures r == ANS110(src)
  {
    if src.tags.None? {
      return Err(KeyError("tags"));
    }
    var tags := src.tags.value;
    var title: Option<string> := None;
    var docType: Option<string> := None;
    var description: Option<string> := None;
    var topics: seq<string> := [];
    var i := 0;
    while i < |tags|
      invariant 0 <= i <= |tags|
      invariant title == LastValue(tags[..i], "Title")
      invariant docType == LastValue(tags[..i], "Type")
      invariant description == LastValue(tags[..i], "Description")
      invariant topics == TopicValues(tags[..i])
    {
      var tag := tags[i];
      LastValueStep(tags, i, "Title");
      LastValueStep(tags, i, "Type");
      LastValueStep(tags, i, "Description");
      TopicValuesStep(tags, i);
      if tag.name == "Title" {
        title := Some(tag.value);
      } else if tag.name == "Type" {
        docType := Some(tag.value);
      } else if tag.name == "Description" {
        description := Some(tag.value);
      } else if Contains(tag.name, "Topic:") {
        topics := topics + [tag.value];
      }
      i := i + 1;
    }
    assert tags[..i] == tags;
    if title.None? || docType.None? {
      return Ok(Classified(false, src));
    }
    var markers: seq<string>;
    if src.markers.None? {
      markers := [Ans110Marker];
    } else if Ans110Marker !in src.markers.value {
      markers := src.markers.value + [Ans110Marker];
    } else {
      markers := src.markers.value;
    }
    r := Ok(Classified(true, src.(
      title := title, docType := docType, description := Some(description),
      topics := Some(topics), markers := Some(markers))));
  }

  // ---------------------------------------------------------------------
  // index_Misc, as written

  /** A tag that makes a document an NFT. */
  predicate IsNftTag(t: Tag)
  {
    t.name == "ContentType" && Contains(t.value, "image")
  }

  /** The markers one tag contributes: "NFT" for an image ContentType, "UDL" for a License. */
  function TagMarkers(t: Tag): seq<string>
  {
    (if IsNftTag(t) then [NftMarker] else []) + (if t.name == "License" then [UdlMarker] else [])
  }

  /** The markers `index_Misc` appends for `tags`, in tag order, one per qualifying tag. */
  function MiscMarkers(tags: seq<Tag>): seq<string>
  {
    if tags == [] then [] else TagMarkers(tags[0]) + MiscMarkers(tags[1..])
  }

  /** The appended markers of two tag lists concatenate: tag order is kept and nothing is merged. */
  lemma {:induction false} MiscMarkersAppend(a: seq<Tag>, b: seq<Tag>)
    ensures MiscMarkers(a + b) == MiscMarkers(a) + MiscMarkers(b)
    decreases |a|
  {
    if a == [] {
      assert a + b == b;
    } else {
      MiscMarkersAppend(a[1..], b);
      assert (a + b)[1..] == a[1..] + b;
    }
  }

  /** One more tag of the loop: the appended markers advance by that tag's markers alone. */
  lemma MiscMarkersStep(tags: seq<Tag>, i: nat)
    requires i < |tags|
    ensures MiscMarkers(tags[..i + 1]) == MiscMarkers(tags[..i]) + TagMarkers(tags[i])
  {
    MiscMarkersAppend(tags[..i], [tags[i]]);
    assert [tags[i]][1..] == [];
    assert tags[..i] + [tags[i]] == tags[..i + 1];
  }

  /** Some tag of `tags` makes the document an NFT. */
  predicate HasNft(tags: seq<Tag>)
  {
    exists i :: 0 <= i < |tags| && IsNftTag(tags[i])
  }

  /** An NFT tag occurs in a non-empty tag list iff it is the first tag or occurs after it. */
  lemma HasNftHead(tags: seq<Tag>)
    requires tags != []
    ensures HasNft(tags) <==> IsNftTag(tags[0]) || HasNft(tags[1..])
  {
    var rest := tags[1..];
    if HasNft(tags) && !IsNftTag(tags[0]) {
      var i :| 0 <= i < |tags| && IsNftTag(tags[i]);
      assert rest[i - 1] == tags[i];
    }
    if HasNft(rest) {
      var i :| 0 <= i < |rest| && IsNftTag(rest[i]);
      assert tags[i + 1] == rest[i];
    }
  }

  /** Only "NFT" and "UDL" are appended, "NFT" iff an image ContentType tag exists, "UDL" iff a License tag does. */
  lemma {:induction false} MiscMarkersContents(tags: seq<Tag>)
    ensures forall k :: 0 <= k < |MiscMarkers(tags)| ==> MiscMarkers(tags)[k] == NftMarker || MiscMarkers(tags)[k] == UdlMarker
    ensures NftMarker in MiscMarkers(tags) <==> HasNft(tags)
    ensures UdlMarker in MiscMarkers(tags) <==> HasName(tags, "License")
    decreases |tags|
  {
    if tags != [] {
      MiscMarkersContents(tags[1..]);
      HasNftHead(tags);
      HasNameHead(tags, "License");
    }
  }

  /** The number of tags named `License`. */
  function LicenseCount(tags: seq<Tag>): nat
  {
    if tags == [] then 0 else (if tags[0].name == "License" then 1 else 0) + LicenseCount(tags[1..])
  }

  /** The number of tags that make a document an NFT. */
  function NftTagCount(tags: seq<Tag>): nat
  {
    if tags == [] then 0 else (if IsNftTag(tags[0]) then 1 else 0) + NftTagCount(tags[1..])
  }

  /** One marker per qualifying tag: "UDL" as often as there are License tags, "NFT" as often as image ContentType tags. */
  lemma {:induction false} MiscMarkersCounts(tags: seq<Tag>)
    ensures multiset(MiscMarkers(tags))[UdlMarker] == LicenseCount(tags)
    ensures multiset(MiscMarkers(tags))[NftMarker] == NftTagCount(tags)
    decreases |tags|
  {
    if tags != [] {
      MiscMarkersCounts(tags[1..]);
    }
  }

  /** `index_Misc` as written: raises on an absent `tags` or `markers` key, appends without deduplication. */
  function IndexMiscAsWritten(src: Source): (r: Result<Source>)
    ensures r.Err? <==> src.tags.None? || src.markers.None?
    ensures r.Ok? && Ans110Marker !in src.markers.value ==> r.value == src
    ensures r.Ok? ==> r.value.markers.Some? && r.value == src.(markers := r.value.markers)
    ensures r.Ok? ==> src.markers.value <= r.value.markers.value
    ensures r.Ok? && Ans110Marker in src.markers.value ==>
      r.value.markers == Some(src.markers.value + MiscMarkers(src.tags.value))
  {
    if src.tags.None? then Err(KeyError("tags"))
    else if src.markers.None? then Err(KeyError("markers"))
    else if Ans110Marker !in src.markers.value then Ok(src)
    else Ok(src.(markers := Some(src.markers.value + MiscMarkers(src.tags.value))))
  }

  /** `index_Misc`: the loop over the tags, appending to the marker list. */
  method IndexMisc(src: Source) returns (r: Result<Source>)
    ensures r == IndexMiscAsWritten(src)
  {
    if src.tags.None? {
      return Err(KeyError("tags"));
    }
    if src.markers.None? {
      return Err(KeyError("markers"));
    }
    var tags := src.tags.value;
    var markers := src.markers.value;
    if Ans110Marker in markers {
      var i := 0;
      while i < |tags|
        invariant 0 <= i <= |tags|
        invariant markers == src.markers.value + MiscMarkers(tags[..i])
      {
        var tag := tags[i];
        MiscMarkersStep(tags, i);
        ghost var before := markers;
        if tag.name == "ContentType" {
          if Contains(tag.value, "image") {
            markers := markers + [NftMarker];
          }
        }
        if tag.name == "License" {
          markers := markers + [UdlMarker];
        }
        assert markers == before + TagMarkers(tag);
        i := i + 1;
      }
      assert tags[..i] == tags;
    }
    r := Ok(src.(markers := Some(markers)));
  }

  /** Finding: running `index_Misc` again on its own output appends the same markers a second time. */
  lemma IndexMiscRepeatsMarkers()
    ensures var src := Source("tx", Some([Tag("License", "UDL-1")]), Some(None), None, None, None, None, Some([Ans110Marker]));
      var once := IndexMiscAsWritten(src).value;
      && once.markers == Some([Ans110Marker, UdlMarker])
      && IndexMiscAsWritten(once).value.markers == Some([Ans110Marker, UdlMarker, UdlMarker])
  {
    var t := Tag("License", "UDL-1");
    var src := Source("tx", Some([t]), Some(None), None, None, None, None, Some([Ans110Marker]));
    assert [t][1..] == [];
    assert TagMarkers(t) == [UdlMarker];
    assert MiscMarkers([t]) == [UdlMarker];
    var once := IndexMiscAsWritten(src).value;
    assert once.markers == Some([Ans110Marker] + [UdlMarker]);
    assert [Ans110Marker] + [UdlMarker] == [Ans110Marker, UdlMarker];
    assert Ans110Marker in [Ans110Marker, UdlMarker];
    assert IndexMiscAsWritten(once).value.markers == Some([Ans110Marker, UdlMarker] + [UdlMarker]);
    assert [Ans110Marker, UdlMarker] + [UdlMarker] == [Ans110Marker, UdlMarker, UdlMarker];
  }

  /** The tags of the write-back example: compliant, with one License tag. */
  const ExampleTags := [Tag("Title", "T"), Tag("Type", "Article"), Tag("License", "L")]

  /** The example's tags call for exactly one "UDL". */
  lemma ExampleTagsMarkers()
    ensures MiscMarkers(ExampleTags) == [UdlMarker]
  {
    var kind, license := Tag("Type", "Article"), Tag("License", "L");
    assert ExampleTags[1..] == [kind, license] && [kind, license][1..] == [license] && [license][1..] == [];
    assert MiscMarkers([license]) == [UdlMarker];
    assert MiscMarkers([kind, license]) == [UdlMarker];
  }

  /** The example document is written back with the ANS-110 markers and one more "UDL". */
  lemma ExampleWriteBack(src: Source)
    requires src.tags == Some(ExampleTags)
    ensures var r := DeepIndexHitAsWritten(src);
      r.Ok? && r.value.Some? && r.value.value.tags == src.tags &&
      r.value.value.markers == Some(WithAns110(src.markers) + [UdlMarker])
  {
    assert ExampleTags[0].name == "Title" && ExampleTags[1].name == "Type";
    var c := ANS110(src).value;
    assert c.compliant && c.doc.markers == Some(WithAns110(src.markers));
    ExampleTagsMarkers();
  }

  /**
   * Finding, in the store: a compliant document gains another "UDL" each time
   * `deep_index` writes it back, since the written-back document is scanned
   * again on the next pass.
   */
  lemma DeepIndexRepeatsMarkers()
    ensures var src := Source("tx", Some(ExampleTags), Some(None), None, None, None, None, None);
      var once := DeepIndexHitAsWritten(src);
      && once.Ok? && once.value.Some?
      && once.value.value.markers == Some([Ans110Marker, UdlMarker])
      && var twice := DeepIndexHitAsWritten(once.value.value);
      && twice.Ok? && twice.value.Some?
      && twice.value.value.markers == Some([Ans110Marker, UdlMarker, UdlMarker])
  {
    var src := Source("tx", Some(ExampleTags), Some(None), None, None, None, None, None);
    ExampleWriteBack(src);
    var d1 := DeepIndexHitAsWritten(src).value.value;
    assert d1.markers == Some([Ans110Marker] + [UdlMarker]);
    assert [Ans110Marker] + [UdlMarker] == [Ans110Marker, UdlMarker];
    ExampleWriteBack(d1);
    assert WithAns110(d1.markers) == [Ans110Marker, UdlMarker];
    assert [Ans110Marker, UdlMarker] + [UdlMarker] == [Ans110Marker, UdlMarker, UdlMarker];
  }

  // ---------------------------------------------------------------------
  // Marker derivation, corrected

  /** Append `m` unless it is already there. */
  function AddOnce(ms: seq<string>, m: string): (r: seq<string>)
    ensures m in r && ms <= r
    ensures r == ms || r == ms + [m]
    ensures m in ms ==> r == ms
  {
    if m in ms then ms else ms + [m]
  }

  /** No marker occurs twice. */
  predicate NoDuplicates(ms: seq<string>)
  {
    forall i, j :: 0 <= i < j < |ms| ==> ms[i] != ms[j]
  }

  /** Adding a marker once keeps a list free of duplicates. */
  lemma AddOnceNoDuplicates(ms: seq<string>, m: string)
    requires NoDuplicates(ms)
    ensures NoDuplicates(AddOnce(ms, m))
  {
  }

  /** The markers one tag calls for, each added unless already there. */
  function AddTagMarkers(ms: seq<string>, t: Tag): (r: seq<string>)
    ensures ms <= r
    ensures forall m :: m in r <==> m in ms || m in TagMarkers(t)
  {
    var ms1 := if IsNftTag(t) then AddOnce(ms, NftMarker) else ms;
    if t.name == "License" then AddOnce(ms1, UdlMarker) else ms1
  }

  /** The markers of `index_Misc` added as a set union: each at most once, in first-qualifying-tag order. */
  function UnionMarkers(ms: seq<string>, tags: seq<Tag>): (r: seq<string>)
    ensures ms <= r
    decreases |tags|
  {
    if tags == [] then ms
    else
      var ms1 := AddTagMarkers(ms, tags[0]);
      var r := UnionMarkers(ms1, tags[1..]);
      assert ms <= ms1 <= r;
      r
  }

  /** The union holds exactly the old markers and the ones `index_Misc` would append. */
  lemma {:induction false} UnionMarkersContents(ms: seq<string>, tags: seq<Tag>)
    ensures forall m :: m in UnionMarkers(ms, tags) <==> m in ms || m in MiscMarkers(tags)
    decreases |tags|
  {
    if tags != [] {
      UnionMarkersContents(AddTagMarkers(ms, tags[0]), tags[1..]);
    }
  }

  /** Markers already present are never added twice: a list without duplicates keeps none. */
  lemma {:induction false} UnionMarkersNoDuplicates(ms: seq<string>, tags: seq<Tag>)
    requires NoDuplicates(ms)
    ensures NoDuplicates(UnionMarkers(ms, tags))
    decreases |tags|
  {
    if tags != [] {
      var t := tags[0];
      var ms1 := if IsNftTag(t) then AddOnce(ms, NftMarker) else ms;
      AddOnceNoDuplicates(ms, NftMarker);
      AddOnceNoDuplicates(ms1, UdlMarker);
      UnionMarkersNoDuplicates(AddTagMarkers(ms, t), tags[1..]);
    }
  }

  /** A union that already holds every marker the tags call for is left as it is. */
  lemma {:induction false} UnionMarkersSaturated(ms: seq<string>, tags: seq<Tag>)
    requires forall m :: m in MiscMarkers(tags) ==> m in ms
    ensures UnionMarkers(ms, tags) == ms
    decreases |tags|
  {
    if tags != [] {
      assert AddTagMarkers(ms, tags[0]) == ms;
      UnionMarkersSaturated(ms, tags[1..]);
    }
  }

  /** Adding the markers as a union twice is the same as adding them once. */
  lemma UnionMarkersIdempotent(ms: seq<string>, tags: seq<Tag>)
    ensures UnionMarkers(UnionMarkers(ms, tags), tags) == UnionMarkers(ms, tags)
  {
    UnionMarkersContents(ms, tags);
    UnionMarkersSaturated(UnionMarkers(ms, tags), tags);
  }

  /**
   * Marker derivation as intended: a no-op unless the document already
   * carries "ANS-110" (an absent marker list is treated as empty), and
   * "NFT" and "UDL" are added as a set union.
   */
  function DeriveMarkers(src: Source): (r: Result<Source>)
    ensures r.Err? <==> src.tags.None?
    ensures r.Ok? && (src.markers.None? || Ans110Marker !in src.markers.value) ==> r.value == src
    ensures r.Ok? ==> r.value == src.(markers := r.value.markers) && KeysCover(r.value, src)
    ensures r.Ok? && src.markers.Some? && Ans110Marker in src.markers.value ==>
      r.value.markers.Some? && src.markers.value <= r.value.markers.value &&
      forall m :: m in r.value.markers.value <==> m in src.markers.value || m in MiscMarkers(src.tags.value)
  {
    if src.tags.None? then Err(KeyError("tags"))
    else if src.markers.None? || Ans110Marker !in src.markers.value then Ok(src)
    else
      UnionMarkersContents(src.markers.value, src.tags.value);
      Ok(src.(markers := Some(UnionMarkers(src.markers.value, src.tags.value))))
  }

  /** Deriving markers twice gives the same document as deriving them once. */
  lemma DeriveMarkersIdempotent(src: Source)
    requires src.tags.Some?
    ensures DeriveMarkers(DeriveMarkers(src).value) == DeriveMarkers(src)
  {
    if src.markers.Some? && Ans110Marker in src.markers.value {
      UnionMarkersIdempotent(src.markers.value, src.tags.value);
    }
  }

  // ---------------------------------------------------------------------
  // The deep_index write-back decision

  /**
   * The fields the ANS-110 rule writes into a document with tags, as `d`
   * carries them: the last Title, Type and Description and the topics, with
   * txid, tags and content kept.
   */
  predicate ClassifiedFields(src: Source, d: Source)
  {
    && src.tags.Some?
    && var tags := src.tags.value;
    && d.txid == src.txid && d.tags == src.tags && d.content == src.content
    && d.title == LastValue(tags, "Title") && d.docType == LastValue(tags, "Type")
    && d.description == Some(LastValue(tags, "Description"))
    && d.topics == Some(TopicValues(tags))
  }

  /**
   * One hit of `deep_index`, with `index_Misc` in the place of the
   * undefined `index_NFT` it calls: classify, derive markers, and ask for a
   * write-back only when the classifier reported the document compliant.
   */
  function DeepIndexHitAsWritten(src: Source): (r: Result<Option<Source>>)
    ensures r.Err? <==> src.tags.None? || (!ANS110(src).value.compliant && src.markers.None?)
    ensures r.Ok? ==> (r.value.Some? <==> ANS110(src).value.compliant)
    ensures r.Ok? && r.value.Some? ==>
      var d := r.value.value;
      ClassifiedFields(src, d) && d.markers == Some(WithAns110(src.markers) + MiscMarkers(src.tags.value))
  {
    match ANS110(src)
    case Err(e) => Err(e)
    case Ok(c) =>
      match IndexMiscAsWritten(c.doc)
      case Err(e) => Err(e)
      case Ok(d) => Ok(if c.compliant then Some(d) else None)
  }

  /** Finding: a freshly crawled document without a Title tag aborts the pass with a KeyError. */
  lemma FreshUntitledHitAborts()
    ensures DeepIndexHitAsWritten(Source("tx", Some([]), Some(None), None, None, None, None, None)) == Err(KeyError("markers"))
  {
  }

  /** One hit of `deep_index` with the corrected marker derivation. */
  function DeepIndexHit(src: Source): (r: Result<Option<Source>>)
    ensures r.Err? <==> src.tags.None?
    ensures r.Ok? ==> (r.value.Some? <==> ANS110(src).value.compliant)
    ensures r.Ok? && r.value.Some? ==>
      var d := r.value.value;
      d.txid == src.txid && d.tags == src.tags && KeysCover(d, src) &&
      d.markers.Some? && Ans110Marker in d.markers.value
  {
    match ANS110(src)
    case Err(e) => Err(e)
    case Ok(c) =>
      match DeriveMarkers(c.doc)
      case Err(e) => Err(e)
      case Ok(d) => Ok(if c.compliant then Some(d) else None)
  }

  /**
   * The document the corrected step writes back: classified by the ANS-110
   * rule, its markers the classified ones followed by those the tags call
   * for that are not yet there.
   */
  lemma DeepIndexHitWrites(src: Source)
    requires DeepIndexHit(src).Ok? && DeepIndexHit(src).value.Some?
    ensures var d := DeepIndexHit(src).value.value;
      && ClassifiedFields(src, d)
      && d.markers.Some? && WithAns110(src.markers) <= d.markers.value
      && forall m :: m in d.markers.value <==> m in WithAns110(src.markers) || m in MiscMarkers(src.tags.value)
  {
  }

  /** Re-running the corrected step on a written-back document writes the same document again. */
  lemma DeepIndexHitIdempotent(src: Source)
    requires DeepIndexHit(src).Ok? && DeepIndexHit(src).value.Some?
    ensures DeepIndexHit(DeepIndexHit(src).value.value) == DeepIndexHit(src)
  {
    var c := ANS110(src).value;
    ANS110Idempotent(src);
    var d := DeriveMarkers(c.doc).value;
    DeriveMarkersIdempotent(c.doc);
    var ms := c.doc.markers.value;
    var tags := src.tags.value;
    UnionMarkersContents(ms, tags);
    assert Ans110Marker in d.markers.value;
    assert ANS110(d) == Ok(Classified(true, d)) by {
      assert WithAns110(d.markers) == d.markers.value;
    }
  }

  /** The documents a batch of hits leaves in the index, or the error that stopped it. */
  datatype BatchOutcome = BatchOutcome(docs: map<string, Source>, error: Option<Error>)

  /** The `for hit in hits` loop of `deep_index` over the index state, stopping at the first error. */
  function DeepIndexBatchSpec(docs: map<string, Source>, hits: seq<Hit>): BatchOutcome
    decreases |hits|
  {
    if hits == [] then BatchOutcome(docs, None)
    else
      match DeepIndexHit(hits[0].source)
      case Err(e) => BatchOutcome(docs, Some(e))
      case Ok(None) => DeepIndexBatchSpec(docs, hits[1..])
      case Ok(Some(d)) =>
        if d.txid in docs then DeepIndexBatchSpec(docs[d.txid := Merge(docs[d.txid], d)], hits[1..])
        else BatchOutcome(docs, Some(DocumentMissing(d.txid)))
  }

  /** A batch only rewrites documents that some compliant hit of the batch names; it adds and removes none. */
  lemma {:induction false} DeepIndexBatchFrame(docs: map<string, Source>, hits: seq<Hit>, id: string)
    requires forall j :: 0 <= j < |hits| ==> hits[j].source.txid != id || !(ANS110(hits[j].source).Ok? && ANS110(hits[j].source).value.compliant)
    ensures DeepIndexBatchSpec(docs, hits).docs.Keys == docs.Keys
    ensures id in docs ==> DeepIndexBatchSpec(docs, hits).docs[id] == docs[id]
    decreases |hits|
  {
    if hits != [] {
      assert forall j :: 0 <= j < |hits[1..]| ==> hits[1..][j] == hits[j + 1];
      match DeepIndexHit(hits[0].source)
      case Err(e) =>
      case Ok(None) => DeepIndexBatchFrame(docs, hits[1..], id);
      case Ok(Some(d)) =>
        if d.txid in docs {
          DeepIndexBatchFrame(docs[d.txid := Merge(docs[d.txid], d)], hits[1..], id);
        }
    }
  }

  /**
   * A batch that ends without error has merged each compliant hit's
   * document into the index, provided no other compliant hit names the same
   * id (the id was present, as the partial update requires).
   */
  lemma {:induction false} DeepIndexBatchWritesBack(docs: map<string, Source>, hits: seq<Hit>, j: nat)
    requires j < |hits|
    requires DeepIndexBatchSpec(docs, hits).error.None?
    requires DeepIndexHit(hits[j].source).Ok? && DeepIndexHit(hits[j].source).value.Some?
    requires forall k :: 0 <= k < |hits| && k != j ==>
      hits[k].source.txid != hits[j].source.txid || !(ANS110(hits[k].source).Ok? && ANS110(hits[k].source).value.compliant)
    ensures var d := DeepIndexHit(hits[j].source).value.value;
      d.txid in docs && d.txid in DeepIndexBatchSpec(docs, hits).docs &&
      DeepIndexBatchSpec(docs, hits).docs[d.txid] == Merge(docs[d.txid], d)
    decreases |hits|
  {
    var id := hits[j].source.txid;
    var rest := hits[1..];
    assert forall k :: 0 <= k < |rest| ==> rest[k] == hits[k + 1];
    var next := DeepIndexBatchStep(docs, hits);
    if j == 0 {
      DeepIndexBatchFrame(next, rest, id);
    } else {
      DeepIndexBatchWritesBack(next, rest, j - 1);
    }
  }

  /** The index after the first hit of a batch that ends without error: the batch goes on from there. */
  lemma DeepIndexBatchStep(docs: map<string, Source>, hits: seq<Hit>) returns (next: map<string, Source>)
    requires hits != []
    requires DeepIndexBatchSpec(docs, hits).error.None?
    ensures DeepIndexHit(hits[0].source).Ok?
    ensures DeepIndexHit(hits[0].source).value.None? ==> next == docs
    ensures DeepIndexHit(hits[0].source).value.Some? ==>
      var d := DeepIndexHit(hits[0].source).value.value;
      d.txid in docs && next == docs[d.txid := Merge(docs[d.txid], d)]
    ensures DeepIndexBatchSpec(docs, hits) == DeepIndexBatchSpec(next, hits[1..])
  {
    match DeepIndexHit(hits[0].source)
    case Ok(None) => next := docs;
    case Ok(Some(d)) => next := docs[d.txid := Merge(docs[d.txid], d)];
  }

  /** The batch loop: write back each compliant hit through a partial update. */
  method DeepIndexBatch(index: SearchIndex, hits: seq<Hit>) returns (error: Option<Error>)
    modifies index
    ensures BatchOutcome(index.docs, error) == DeepIndexBatchSpec(old(index.docs), hits)
  {
    var i := 0;
    while i < |hits|
      invariant 0 <= i <= |hits|
      invariant DeepIndexBatchSpec(index.docs, hits[i..]) == DeepIndexBatchSpec(old(index.docs), hits)
    {
      assert hits[i..][1..] == hits[i + 1..];
      var step := DeepIndexHit(hits[i].source);
      if step.Err? {
        return Some(step.error);
      }
      if step.value.Some? {
        var updated := index.UpdateDocument(step.value.value);
        if updated.Err? {
          return Some(updated.error);
        }
      }
      i := i + 1;
    }
    error := None;
  }
}
