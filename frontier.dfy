/**
 * The crawl frontier: a deduplicating collection of `{txid, block_no,
 * crawled_at}` records. The MongoDB collection is a sequence of records in
 * insertion order; a record is pending while its `crawled_at` is null.
 */
module FrontierStore {
  import opened Common

  /** A timestamp; the clock is a parameter of the operations that read it. */
  type Stamp = nat

  /** An entry handed to ingestion: `{id, block_no}`. */
  datatype Entry = Entry(id: string, blockNo: int)

  datatype Record = Record(txid: string, blockNo: int, crawledAt: Option<Stamp>)

  /** The record `ingest_txs` inserts for a new entry. */
  function NewRecord(e: Entry): Record
  {
    Record(e.id, e.blockNo, None)
  }

  /** `count_documents({"txid": id}) != 0`. */
  predicate HasTx(recs: seq<Record>, id: string)
  {
    exists i | 0 <= i < |recs| :: recs[i].txid == id
  }

  /** At most one record per txid. */
  predicate UniqueIds(recs: seq<Record>)
  {
    forall i, j | 0 <= i < j < |recs| :: recs[i].txid != recs[j].txid
  }

  /** Some entry of the batch carries `id`. */
  predicate InBatch(txs: seq<Entry>, id: string)
  {
    exists j | 0 <= j < |txs| :: txs[j].id == id
  }

  // ---------------------------------------------------------------------
  // Ingestion

  /** The collection after ingesting `txs` one by one, each checked against the updated collection. */
  function Ingest(recs: seq<Record>, txs: seq<Entry>): seq<Record>
    decreases |txs|
  {
    if txs == [] then recs
    else
      var e := txs[0];
      Ingest(if HasTx(recs, e.id) then recs else recs + [NewRecord(e)], txs[1..])
  }

  /** Ingestion only appends: the records that were there before keep their place and content. */
  lemma {:induction false} IngestKeepsExisting(recs: seq<Record>, txs: seq<Entry>)
    ensures |Ingest(recs, txs)| >= |recs|
    ensures Ingest(recs, txs)[..|recs|] == recs
    decreases |txs|
  {
    if txs != [] {
      var e := txs[0];
      var next := if HasTx(recs, e.id) then recs else recs + [NewRecord(e)];
      IngestKeepsExisting(next, txs[1..]);
      assert next[..|recs|] == recs;
      assert Ingest(recs, txs)[..|recs|] == Ingest(next, txs[1..])[..|next|][..|recs|];
    }
  }

  /**
   * Every record appended by ingestion is a fresh pending record built from
   * an entry of the batch (the first one with that id), and its txid was not
   * in the collection beforehand.
   */
  lemma {:induction false} IngestNewRecords(recs: seq<Record>, txs: seq<Entry>, k: int)
    requires |recs| <= k < |Ingest(recs, txs)|
    ensures !HasTx(recs, Ingest(recs, txs)[k].txid)
    ensures Ingest(recs, txs)[k].crawledAt == None
    ensures exists j :: 0 <= j < |txs| && NewRecord(txs[j]) == Ingest(recs, txs)[k] &&
              forall j' :: 0 <= j' < j ==> txs[j'].id != txs[j].id
    decreases |txs|
  {
    var e := txs[0];
    var rest := txs[1..];
    if HasTx(recs, e.id) {
      IngestNewRecords(recs, rest, k);
      var j :| 0 <= j < |rest| && NewRecord(rest[j]) == Ingest(recs, txs)[k] &&
               forall j' :: 0 <= j' < j ==> rest[j'].id != rest[j].id;
      assert txs[j + 1] == rest[j];
      assert e.id != txs[j + 1].id;
      assert forall j' :: 0 <= j' < j + 1 ==> txs[j'].id != txs[j + 1].id by {
        forall j' | 0 <= j' < j + 1 ensures txs[j'].id != txs[j + 1].id {
          if j' > 0 { assert txs[j'] == rest[j' - 1]; }
        }
      }
    } else {
      var next := recs + [NewRecord(e)];
      IngestKeepsExisting(next, rest);
      if k == |recs| {
        assert Ingest(recs, txs)[k] == Ingest(next, rest)[..|next|][k] == NewRecord(e);
        assert NewRecord(txs[0]) == Ingest(recs, txs)[k];
      } else {
        IngestNewRecords(next, rest, k);
        var r := Ingest(recs, txs)[k];
        forall i | 0 <= i < |recs| ensures recs[i].txid != r.txid {
          assert next[i] == recs[i];
        }
        var j :| 0 <= j < |rest| && NewRecord(rest[j]) == r &&
                 forall j' :: 0 <= j' < j ==> rest[j'].id != rest[j].id;
        assert txs[j + 1] == rest[j];
        assert e.id != r.txid by { assert next[|recs|].txid == e.id; }
        assert forall j' :: 0 <= j' < j + 1 ==> txs[j'].id != txs[j + 1].id by {
          forall j' | 0 <= j' < j + 1 ensures txs[j'].id != txs[j + 1].id {
            if j' > 0 { assert txs[j'] == rest[j' - 1]; }
          }
        }
      }
    }
  }

  /** After ingestion a txid has a record iff it had one before or the batch carries it. */
  lemma {:induction false} IngestCoversBatch(recs: seq<Record>, txs: seq<Entry>, id: string)
    ensures HasTx(Ingest(recs, txs), id) <==> HasTx(recs, id) || InBatch(txs, id)
    decreases |txs|
  {
    if txs != [] {
      var e := txs[0];
      var rest := txs[1..];
      var next := if HasTx(recs, e.id) then recs else recs + [NewRecord(e)];
      IngestCoversBatch(next, rest, id);
      assert HasTx(next, id) <==> HasTx(recs, id) || e.id == id by {
        if HasTx(recs, id) {
          var i :| 0 <= i < |recs| && recs[i].txid == id;
          assert next[i] == recs[i];
        }
        if !HasTx(recs, e.id) {
          assert next[|recs|].txid == e.id;
          if HasTx(next, id) {
            var i :| 0 <= i < |next| && next[i].txid == id;
            if i < |recs| { assert recs[i].txid == id; }
          }
        }
      }
      assert InBatch(txs, id) <==> e.id == id || InBatch(rest, id) by {
        if InBatch(txs, id) && e.id != id {
          var j :| 0 <= j < |txs| && txs[j].id == id;
          assert rest[j - 1].id == id;
        }
        if InBatch(rest, id) {
          var j :| 0 <= j < |rest| && rest[j].id == id;
          assert txs[j + 1].id == id;
        }
      }
    }
  }

  /** Ingestion keeps txids unique, even when the batch repeats an id. */
  lemma {:induction false} IngestKeepsUnique(recs: seq<Record>, txs: seq<Entry>)
    requires UniqueIds(recs)
    ensures UniqueIds(Ingest(recs, txs))
    decreases |txs|
  {
    if txs != [] {
      var e := txs[0];
      var next := if HasTx(recs, e.id) then recs else recs + [NewRecord(e)];
      assert UniqueIds(next) by {
        if !HasTx(recs, e.id) {
          forall i, j | 0 <= i < j < |next| ensures next[i].txid != next[j].txid {
            if j == |recs| {
              assert recs[i].txid == next[i].txid;
            }
          }
        }
      }
      IngestKeepsUnique(next, txs[1..]);
    }
  }

  /** Ingesting a batch whose ids are all present already changes nothing. */
  lemma {:induction false} IngestPresentIsNoop(recs: seq<Record>, txs: seq<Entry>)
    requires forall j :: 0 <= j < |txs| ==> HasTx(recs, txs[j].id)
    ensures Ingest(recs, txs) == recs
    decreases |txs|
  {
    if txs != [] {
      assert HasTx(recs, txs[0].id);
      assert forall j :: 0 <= j < |txs[1..]| ==> HasTx(recs, txs[1..][j].id) by {
        forall j | 0 <= j < |txs[1..]| ensures HasTx(recs, txs[1..][j].id) {
          assert txs[1..][j] == txs[j + 1];
        }
      }
      IngestPresentIsNoop(recs, txs[1..]);
    }
  }

  /** Ingesting the same batch twice gives the same collection as ingesting it once. */
  lemma IngestIdempotent(recs: seq<Record>, txs: seq<Entry>)
    ensures Ingest(Ingest(recs, txs), txs) == Ingest(recs, txs)
  {
    var once := Ingest(recs, txs);
    forall j | 0 <= j < |txs| ensures HasTx(once, txs[j].id) {
      IngestCoversBatch(recs, txs, txs[j].id);
    }
    IngestPresentIsNoop(once, txs);
  }

  // ---------------------------------------------------------------------
  // Selection of the next pending record

  /** `{"crawled_at": None}`, plus `{"block_no": b}` when a block is given. */
  predicate Matches(r: Record, blockNo: Option<int>)
  {
    r.crawledAt.None? && (blockNo.None? || r.blockNo == blockNo.value)
  }

  /**
   * `find_one(query, sort=[("block_no", 1)])`: a matching record with the
   * smallest block number; among equals, the first in collection order.
   */
  function NextPending(recs: seq<Record>, blockNo: Option<int>): (r: Option<Record>)
    ensures r.None? <==> forall i :: 0 <= i < |recs| ==> !Matches(recs[i], blockNo)
    ensures r.Some? ==> r.value in recs && Matches(r.value, blockNo)
    ensures r.Some? ==> forall i :: 0 <= i < |recs| && Matches(recs[i], blockNo) ==> r.value.blockNo <= recs[i].blockNo
  {
    if recs == [] then None
    else
      var rest := NextPending(recs[1..], blockNo);
      assert forall i :: 1 <= i < |recs| ==> recs[i] == recs[1..][i - 1];
      if Matches(recs[0], blockNo) && (rest.None? || recs[0].blockNo <= rest.value.blockNo) then
        Some(recs[0])
      else
        rest
  }

  // ---------------------------------------------------------------------
  // Completion marking

  /** The position of the first record with `txid`: the one `update_one` touches. */
  function FindTx(recs: seq<Record>, txid: string): (r: Option<nat>)
    ensures r.None? <==> !HasTx(recs, txid)
    ensures r.Some? ==> r.value < |recs| && recs[r.value].txid == txid
    ensures r.Some? ==> forall j :: 0 <= j < r.value ==> recs[j].txid != txid
  {
    if recs == [] then None
    else if recs[0].txid == txid then Some(0)
    else
      var r := FindTx(recs[1..], txid);
      assert forall i :: 1 <= i < |recs| ==> recs[i] == recs[1..][i - 1];
      if r.Some? then Some(r.value + 1) else None
  }

  /** `update_one({"txid": txid}, {"$set": {"crawled_at": now}})`. */
  function MarkCrawled(recs: seq<Record>, txid: string, now: Stamp): seq<Record>
  {
    match FindTx(recs, txid)
    case None => recs
    case Some(i) => recs[i := recs[i].(crawledAt := Some(now))]
  }

  /**
   * Marking stamps the record with that txid and changes nothing else; an
   * unknown txid leaves the collection as it was.
   */
  lemma MarkCrawledEffect(recs: seq<Record>, txid: string, now: Stamp)
    requires UniqueIds(recs)
    ensures UniqueIds(MarkCrawled(recs, txid, now))
    ensures |MarkCrawled(recs, txid, now)| == |recs|
    ensures !HasTx(recs, txid) ==> MarkCrawled(recs, txid, now) == recs
    ensures forall k :: 0 <= k < |recs| ==>
      var r := MarkCrawled(recs, txid, now)[k];
      r.txid == recs[k].txid && r.blockNo == recs[k].blockNo &&
      r.crawledAt == (if recs[k].txid == txid then Some(now) else recs[k].crawledAt)
  {
    match FindTx(recs, txid)
    case None =>
    case Some(i) =>
      forall k | 0 <= k < |recs| && k != i ensures recs[k].txid != txid {
        if k > i { assert recs[i].txid != recs[k].txid; }
      }
  }

  /** Once marked, a txid is never selected again, whatever the block filter. */
  lemma MarkedNeverSelected(recs: seq<Record>, txid: string, now: Stamp, blockNo: Option<int>)
    requires UniqueIds(recs)
    ensures var next := NextPending(MarkCrawled(recs, txid, now), blockNo);
      next.Some? ==> next.value.txid != txid
  {
    MarkCrawledEffect(recs, txid, now);
  }

  /** Marking twice leaves the record crawled with the second stamp; nothing else differs from marking once. */
  lemma MarkCrawledTwice(recs: seq<Record>, txid: string, t1: Stamp, t2: Stamp)
    requires UniqueIds(recs)
    ensures MarkCrawled(MarkCrawled(recs, txid, t1), txid, t2) == MarkCrawled(recs, txid, t2)
  {
    var once := MarkCrawled(recs, txid, t1);
    MarkCrawledEffect(recs, txid, t1);
    MarkCrawledEffect(once, txid, t2);
    MarkCrawledEffect(recs, txid, t2);
    assert forall k :: 0 <= k < |once| ==> once[k].txid == recs[k].txid;
    var twice := MarkCrawled(once, txid, t2);
    var direct := MarkCrawled(recs, txid, t2);
    assert |twice| == |direct|;
    forall k | 0 <= k < |twice| ensures twice[k] == direct[k] { }
  }

  // ---------------------------------------------------------------------
  // The store

  class Frontier {
    /** The `artx` collection, in insertion order. */
    var records: seq<Record>

    ghost predicate Valid()
      reads this
    {
      UniqueIds(records)
    }

    /** A frontier over the collection as it stands, which holds at most one record per txid. */
    constructor (recs: seq<Record>)
      requires UniqueIds(recs)
      ensures Valid() && records == recs
    {
      records := recs;
    }

    /** `ingest_txs`: insert a pending record for each entry whose txid is not yet in the collection. */
    method IngestTxs(txs: seq<Entry>)
      requires Valid()
      modifies this
      ensures Valid()
      ensures records == Ingest(old(records), txs)
    {
      var i := 0;
      while i < |txs|
        invariant 0 <= i <= |txs|
        invariant UniqueIds(records)
        invariant Ingest(records, txs[i..]) == Ingest(old(records), txs)
      {
        var tx := txs[i];
        assert txs[i..][1..] == txs[i + 1..];
        if !HasTx(records, tx.id) {
          IngestKeepsUnique(records, [tx]);
          records := records + [NewRecord(tx)];
        }
        i := i + 1;
      }
    }

    /** `get_next_tx`: read-only selection of the oldest pending record, optionally within one block. */
    method GetNextTx(blockNo: Option<int>) returns (tx: Option<Record>)
      ensures tx.None? <==> forall i :: 0 <= i < |records| ==> !Matches(records[i], blockNo)
      ensures tx.Some? ==> tx.value in records && tx.value.crawledAt.None?
      ensures tx.Some? && blockNo.Some? ==> tx.value.blockNo == blockNo.value
      ensures tx.Some? ==> forall i :: 0 <= i < |records| && Matches(records[i], blockNo) ==> tx.value.blockNo <= records[i].blockNo
      ensures tx == NextPending(records, blockNo)
    {
      tx := NextPending(records, blockNo);
    }

    /** `mark_tx_crawled`: stamp the record with this txid; an unknown txid is silently ignored. */
    method MarkTxCrawled(txid: string, now: Stamp)
      requires Valid()
      modifies this
      ensures Valid()
      ensures records == MarkCrawled(old(records), txid, now)
    {
      MarkCrawledEffect(records, txid, now);
      var i := FindTx(records, txid);
      if i.Some? {
        records := records[i.value := records[i.value].(crawledAt := Some(now))];
      }
    }
  }
}
