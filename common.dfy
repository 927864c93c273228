/**
 * Values shared by the explorar-node back end: the Option/Result wrappers,
 * the ledger's metadata tags, and the `_source` record that the search
 * index stores for a transaction.
 */
module Common {

  datatype Option<T> = None | Some(value: T)

  /** The exceptions the modelled Python code can raise on its error paths. */
  datatype Error =
    | KeyError(key: string)      // a dictionary lookup of a missing key
    | MetadataUnavailable        // the tag lookup for a transaction gave no result
    | ContentUnavailable         // the gateway answered with a status other than 200
    | DocumentMissing(id: string) // a partial update of an id the index does not hold

  datatype Result<T> = Ok(value: T) | Err(error: Error)

  /** A `{name, value}` metadata tag, in the order the ledger emits them. */
  datatype Tag = Tag(name: string, value: string)

  /**
   * The `_source` of an indexed document. Every optional key is an `Option`
   * that says whether the KEY is present; `content` and `description` may be
   * present with the value null, hence the nested `Option`. `docType` is the
   * key named `type`.
   */
  datatype Source = Source(
    txid: string,
    tags: Option<seq<Tag>>,
    content: Option<Option<string>>,
    title: Option<string>,
    docType: Option<string>,
    description: Option<Option<string>>,
    topics: Option<seq<string>>,
    markers: Option<seq<string>>)

  /** A search or scroll hit: the document id and its `_source`. */
  datatype Hit = Hit(id: string, source: Source)

  /** Python's `needle in hay` on strings: `needle` occurs in `hay` at this position or a later one. */
  predicate Contains(hay: string, needle: string)
    decreases |hay|
  {
    needle <= hay || (hay != [] && Contains(hay[1..], needle))
  }

  /** Some tag in `tags` is named exactly `name`. */
  predicate HasName(tags: seq<Tag>, name: string)
  {
    exists i | 0 <= i < |tags| :: tags[i].name == name
  }

  /** The value of the first tag named `name`, scanning from the front. */
  function FirstValue(tags: seq<Tag>, name: string): (r: Option<string>)
    ensures r.None? <==> !HasName(tags, name)
    ensures r.Some? ==>
      exists i :: 0 <= i < |tags| && tags[i].name == name && tags[i].value == r.value &&
        forall j :: 0 <= j < i ==> tags[j].name != name
  {
    if tags == [] then None
    else if tags[0].name == name then Some(tags[0].value)
    else
      var r := FirstValue(tags[1..], name);
      assert HasName(tags, name) ==> HasName(tags[1..], name) by {
        if HasName(tags, name) {
          var i :| 0 <= i < |tags| && tags[i].name == name;
          assert tags[1..][i - 1].name == name;
        }
      }
      if r.Some? then
        var i :| 0 <= i < |tags[1..]| && tags[1..][i].name == name && tags[1..][i].value == r.value &&
          forall j :: 0 <= j < i ==> tags[1..][j].name != name;
        assert tags[i + 1].name == name && tags[i + 1].value == r.value;
        assert forall j :: 0 <= j < i + 1 ==> tags[j].name != name by {
          forall j | 0 <= j < i + 1 ensures tags[j].name != name {
            if j > 0 { assert tags[j] == tags[1..][j - 1]; }
          }
        }
        r
      else
        r
  }

  /** A name occurs in a non-empty tag list iff it occurs before the last tag or is the last tag's. */
  lemma HasNameSplit(tags: seq<Tag>, name: string)
    requires tags != []
    ensures HasName(tags, name) <==> HasName(tags[..|tags| - 1], name) || tags[|tags| - 1].name == name
  {
    var init := tags[..|tags| - 1];
    if HasName(tags, name) && tags[|tags| - 1].name != name {
      var i :| 0 <= i < |tags| && tags[i].name == name;
      assert init[i].name == name;
    }
    if HasName(init, name) {
      var i :| 0 <= i < |init| && init[i].name == name;
      assert tags[i].name == name;
    }
  }

  /** A name occurs in a non-empty tag list iff it is the first tag's or occurs after it. */
  lemma HasNameHead(tags: seq<Tag>, name: string)
    requires tags != []
    ensures HasName(tags, name) <==> tags[0].name == name || HasName(tags[1..], name)
  {
    var rest := tags[1..];
    if HasName(tags, name) && tags[0].name != name {
      var i :| 0 <= i < |tags| && tags[i].name == name;
      assert rest[i - 1].name == name;
    }
    if HasName(rest, name) {
      var i :| 0 <= i < |rest| && rest[i].name == name;
      assert tags[i + 1].name == name;
    }
  }

  /** The value of the last tag named `name`: the one a front-to-back scan that overwrites keeps. */
  function LastValue(tags: seq<Tag>, name: string): (r: Option<string>)
    ensures r.None? <==> !HasName(tags, name)
    ensures r.Some? ==>
      exists i :: 0 <= i < |tags| && tags[i].name == name && tags[i].value == r.value &&
        forall j :: i < j < |tags| ==> tags[j].name != name
  {
    if tags == [] then None
    else if tags[|tags| - 1].name == name then Some(tags[|tags| - 1].value)
    else
      var init := tags[..|tags| - 1];
      HasNameSplit(tags, name);
      var r := LastValue(init, name);
      if r.Some? then
        var i :| 0 <= i < |init| && init[i].name == name && init[i].value == r.value &&
          forall j :: i < j < |init| ==> init[j].name != name;
        assert tags[i] == init[i];
        assert forall j :: i < j < |tags| ==> tags[j].name != name by {
          forall j | i < j < |tags| ensures tags[j].name != name {
            if j < |init| { assert tags[j] == init[j]; }
          }
        }
        r
      else
        r
  }
}
