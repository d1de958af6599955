/** Cached query for `get_available_post_mime_types()`: the distinct MIME
    types of attachments, materialised as options `cached_mime_type_0`,
    `cached_mime_type_1`, ... holding one MIME type each. */
module GetAvailablePostMimeTypes {
  import opened Text
  import opened Options
  import opened Registry

  /** The PHP namespace that `n()` prepends to callback names. */
  const Namespace := "WBDPCache\\GetAvailablePostMimeTypes\\"

  /** Every materialised row's name starts with this. */
  const MimePrefix := "cached_mime_type_"

  /** The request parameter that asks for a rebuild from the admin. */
  const RebuildParameter := "rebuild_mime_type_cache"

  function OriginalQuery(t: Tables): (r: string)
  {
    "SELECT DISTINCT post_mime_type FROM " + t.posts + " WHERE post_type = 'attachment'"
  }

  function UpdatedQuery(t: Tables): (r: string)
  {
    "SELECT DISTINCT option_value FROM " + t.options + " WHERE option_name like 'cached_mime_type_%'"
  }

  /** The descriptor this module registers. */
  function MimeTypeQueryData(t: Tables): (r: QueryDescriptor)
  {
    QueryDescriptor(
      original := OriginalQuery(t),
      sourceCallback := "\\get_available_post_mime_types",
      expires := DayInSeconds * 1,
      createRecordsCallback := Namespace + "create_cached_mime_types",
      updated := UpdatedQuery(t),
      flushCallback := Namespace + "flush_mime_types")
  }

  /** Filter on the query list. `enabled` is the value of the
      `cache_get_available_post_mime_types` filter (true by default). */
  function AddMimeTypeQueryData(queryData: seq<QueryDescriptor>, enabled: bool, t: Tables): (r: seq<QueryDescriptor>)
    ensures |r| == if enabled then |queryData| + 1 else |queryData|
    ensures r[..|queryData|] == queryData
    ensures enabled ==>
      && r[|queryData|].original == OriginalQuery(t)
      && r[|queryData|].updated == UpdatedQuery(t)
      && r[|queryData|].sourceCallback == "\\get_available_post_mime_types"
      && r[|queryData|].expires == 86400
      && r[|queryData|].createRecordsCallback == Namespace + "create_cached_mime_types"
      && r[|queryData|].flushCallback == Namespace + "flush_mime_types"
  {
    if enabled then queryData + [MimeTypeQueryData(t)] else queryData
  }

  /** Filter on the rebuild decision: only turns "no" into "yes", and only
      for an admin request carrying `rebuild_mime_type_cache=1`. */
  function MaybeRebuildCache(rebuild: bool, isAdmin: bool, get: map<string, string>): (r: bool)
    ensures rebuild ==> r
    ensures r ==> rebuild || (isAdmin && RequestFlagSet(get, RebuildParameter))
    ensures isAdmin && RequestFlagSet(get, RebuildParameter) ==> r
  {
    if !rebuild && isAdmin then RequestFlagSet(get, RebuildParameter) else rebuild
  }

  // ---------------------------------------------------------------------
  // Option names and the rows a rebuild writes

  /** `'cached_mime_type_' . $i` */
  function MimeKey(i: nat): (r: string)
  {
    MimePrefix + Digits(i)
  }

  /** Reads the index back from an option name. */
  function ParseMimeKey(name: string): (r: Option<nat>)
  {
    if MimePrefix <= name && |name| > |MimePrefix| && AllDigits(name[|MimePrefix|..])
    then Some(Value(name[|MimePrefix|..]))
    else None
  }

  lemma MimeKeyRoundTrip(i: nat)
    ensures MimePrefix <= MimeKey(i)
    ensures ParseMimeKey(MimeKey(i)) == Some(i)
  {
    assert MimeKey(i)[|MimePrefix|..] == Digits(i);
    ValueOfDigits(i);
  }

  /** No two indices share an option name, so no `add_option` collides. */
  lemma MimeKeysDistinct()
    ensures forall i: nat, j: nat :: MimeKey(i) == MimeKey(j) ==> i == j
  {
    forall i: nat, j: nat | MimeKey(i) == MimeKey(j) ensures i == j {
      MimeKeyRoundTrip(i);
      MimeKeyRoundTrip(j);
    }
  }

  /** The rows a rebuild adds for `data`: row i is named `MimeKey(i)` and
      holds `data[i]`; duplicate MIME types still get a row each. */
  function MimeRecords(data: seq<string>): (r: map<string, string>)
    ensures r.Keys == set i: nat | i < |data| :: MimeKey(i)
    ensures forall i :: 0 <= i < |data| ==> r[MimeKey(i)] == data[i]
    ensures |r| == |data|
  {
    if data == [] then map[]
    else
      var n := |data| - 1;
      var r := MimeRecords(data[..n]);
      MimeKeysDistinct();
      assert (set i: nat | i < |data| :: MimeKey(i)) == r.Keys + {MimeKey(n)};
      r[MimeKey(n) := data[n]]
  }

  /** Over a flushed table, adding row i after rows 0 .. i-1 never meets a
      taken name, and leaves the rows for `data[..i + 1]`. */
  lemma MimeRecordsStep(flushed: map<string, string>, data: seq<string>, i: nat)
    requires forall k :: k in flushed ==> !(MimePrefix <= k)
    requires i < |data|
    ensures MimeKey(i) !in flushed + MimeRecords(data[..i])
    ensures (flushed + MimeRecords(data[..i]))[MimeKey(i) := data[i]] == flushed + MimeRecords(data[..i + 1])
  {
    MimeRecordsExtend(data, i);
    MimeKeyRoundTrip(i);
    var k := MimeKey(i);
    assert k !in flushed;
    UnionThenUpdate(flushed, MimeRecords(data[..i]), k, data[i]);
  }

  lemma MimeRecordsExtend(data: seq<string>, i: nat)
    requires i < |data|
    ensures MimeKey(i) !in MimeRecords(data[..i])
    ensures MimeRecords(data[..i + 1]) == MimeRecords(data[..i])[MimeKey(i) := data[i]]
  {
    MimeKeysDistinct();
    assert data[..i + 1][..i] == data[..i];
  }

  /** The options table after `create_cached_mime_types(data)` ran on `m`. */
  function MimeTypesCached(m: map<string, string>, data: seq<string>): (r: map<string, string>)
  {
    WithoutPrefix(m, MimePrefix) + MimeRecords(data)
  }

  lemma MimeRecordsPrefixed(data: seq<string>)
    ensures forall k :: k in MimeRecords(data) ==> MimePrefix <= k
  {
    forall k | k in MimeRecords(data) ensures MimePrefix <= k {
      var i: nat :| i < |data| && k == MimeKey(i);
      MimeKeyRoundTrip(i);
    }
  }

  /** After a rebuild the prefixed rows are exactly `MimeKey(0)` ..
      `MimeKey(|data| - 1)`, row i holds `data[i]`, and every other row of
      the table is as it was. */
  lemma {:induction false} MimeTypesCachedContents(m: map<string, string>, data: seq<string>)
    ensures forall k :: MimePrefix <= k ==>
      (k in MimeTypesCached(m, data) <==> exists i: nat :: i < |data| && k == MimeKey(i))
    ensures forall i :: 0 <= i < |data| ==> MimeTypesCached(m, data)[MimeKey(i)] == data[i]
    ensures forall k :: !(MimePrefix <= k) ==>
      (k in MimeTypesCached(m, data) <==> k in m) &&
      (k in m ==> MimeTypesCached(m, data)[k] == m[k])
  {
    var r, records := MimeTypesCached(m, data), MimeRecords(data);
    MimeRecordsPrefixed(data);
    forall k | MimePrefix <= k
      ensures k in r <==> exists i: nat :: i < |data| && k == MimeKey(i)
    {
      assert k in r <==> k in records.Keys;
    }
  }

  /** Rebuilding twice with the same data leaves the table as once. */
  lemma {:induction false} MimeTypesCachedIdempotent(m: map<string, string>, data: seq<string>)
    ensures MimeTypesCached(MimeTypesCached(m, data), data) == MimeTypesCached(m, data)
  {
    MimeRecordsPrefixed(data);
    WithoutPrefixOfRewrite(m, MimePrefix, MimeRecords(data));
  }

  // ---------------------------------------------------------------------
  // The rebuild itself

  /** `flush_mime_types`: deletes every row under the prefix. */
  method FlushMimeTypes(table: OptionsTable)
    modifies table
    ensures table.options == WithoutPrefix(old(table.options), MimePrefix)
  {
    var names := table.GetNamesLike(MimePrefix);
    ghost var start := table.options;
    while names != {}
      invariant names <= NamesLike(start, MimePrefix)
      invariant table.options == start - (NamesLike(start, MimePrefix) - names)
      decreases names
    {
      var name :| name in names;
      var deleted := table.DeleteOption(name);
      names := names - {name};
    }
  }

  /** `create_cached_mime_types`: flushes, then adds row i for each item. */
  method CreateCachedMimeTypes(table: OptionsTable, sourceData: seq<string>) returns (ok: bool)
    modifies table
    ensures ok
    ensures table.options == MimeTypesCached(old(table.options), sourceData)
  {
    FlushMimeTypes(table);
    ghost var flushed := table.options;
    var i := 0;
    while i < |sourceData|
      invariant 0 <= i <= |sourceData|
      invariant table.options == flushed + MimeRecords(sourceData[..i])
    {
      MimeRecordsStep(flushed, sourceData, i);
      var added := table.AddOption(MimeKey(i), sourceData[i]);
      i := i + 1;
    }
    assert sourceData[..i] == sourceData;
    ok := true;
  }
}
