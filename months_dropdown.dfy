/** Cached query for the media library's months dropdown
    (`WP_List_Table->months_dropdown()` for attachments): the distinct
    year/month pairs of attachments, materialised as options
    `cached_attachments_month_dropdown_0000`, `..._0001`, ... holding
    `"<year>_<month>"`. */
module WpAjaxQueryAttachments {
  import opened Text
  import opened Options
  import opened Registry
  import Mime = GetAvailablePostMimeTypes

  /** The PHP namespace that `n()` prepends to callback names. */
  const Namespace := "WBDPCache\\WPAJAXQueryAttachments\\"

  /** Every materialised row's name starts with this. */
  const MonthsPrefix := "cached_attachments_month_dropdown_"

  /** The request parameter that asks for a rebuild from the admin. */
  const RebuildParameter := "rebuild_months_dropdown_cache"

  /** Width to which the row index is zero-padded. */
  const IndexWidth: nat := 4

  /** One row of the original query: `YEAR( post_date )`, `MONTH( post_date )`. */
  datatype YearMonth = YearMonth(year: nat, month: nat)

  /** `get_original_query`: the text `months_dropdown()` sends, whitespace included. */
  function GetOriginalQuery(t: Tables): (r: string)
  {
    "\n\t\t\tSELECT DISTINCT YEAR( post_date ) AS year, MONTH( post_date ) AS month\n\t\t\tFROM "
    + t.posts
    + "\n\t\t\tWHERE post_type = 'attachment'\n\t\t\tAND post_status != 'auto-draft' AND post_status != 'trash'\n\t\t\tORDER BY post_date DESC\n\t\t"
  }

  function UpdatedQuery(t: Tables): (r: string)
  {
    "SELECT SUBSTRING_INDEX(option_value, '_', 1) as year, SUBSTRING_INDEX(option_value, '_', -1) as month FROM "
    + t.options
    + " WHERE option_name like 'cached_attachments_month_dropdown_%' ORDER BY option_name"
  }

  /** The descriptor the filter below builds after its early return, so
      that no caller ever receives it. */
  function MonthsDropdownQueryData(t: Tables): (r: QueryDescriptor)
  {
    QueryDescriptor(
      original := GetOriginalQuery(t),
      sourceCallback := Namespace + "get_months_dropdown_results",
      expires := HourInSeconds * 12,
      createRecordsCallback := Namespace + "create_cached_months",
      updated := UpdatedQuery(t),
      flushCallback := Namespace + "flush_cached_months")
  }

  /** Filter on the query list. It returns before consulting the
      `cache_attachment_months_dropdown` filter, so the months entry is
      never registered. */
  function AddMonthsDropdownQueryData(queryData: seq<QueryDescriptor>): (r: seq<QueryDescriptor>)
    ensures r == queryData
  {
    queryData
  }

  /** Filter on the rebuild decision: only turns "no" into "yes", and only
      for an admin request carrying `rebuild_months_dropdown_cache=1`. */
  function MaybeRebuildCache(rebuild: bool, isAdmin: bool, get: map<string, string>): (r: bool)
    ensures rebuild ==> r
    ensures r ==> rebuild || (isAdmin && RequestFlagSet(get, RebuildParameter))
    ensures isAdmin && RequestFlagSet(get, RebuildParameter) ==> r
  {
    if !rebuild && isAdmin then RequestFlagSet(get, RebuildParameter) else rebuild
  }

  // ---------------------------------------------------------------------
  // Option values

  /** `"{$year_month->year}_{$year_month->month}"` */
  function MonthValue(ym: YearMonth): (r: string)
  {
    Digits(ym.year) + "_" + Digits(ym.month)
  }

  /** Splits a stored value at its `_` back into year and month. The
      replacement query takes the year before the first `_` and the month
      after the last one; this split uses the first `_` for both, which
      agrees on every value `MonthValue` writes, since those hold exactly
      one `_`. */
  function ParseMonthValue(s: string): (r: Option<YearMonth>)
  {
    match IndexOf(s, '_')
    case None => None
    case Some(i) =>
      if 1 <= i && i + 1 < |s| && AllDigits(s[..i]) && AllDigits(s[i + 1..])
      then Some(YearMonth(Value(s[..i]), Value(s[i + 1..])))
      else None
  }

  /** The stored value determines the year and the month it was built from. */
  lemma MonthValueRoundTrip(ym: YearMonth)
    ensures ParseMonthValue(MonthValue(ym)) == Some(ym)
  {
    var y, m := Digits(ym.year), Digits(ym.month);
    var s := MonthValue(ym);
    assert s[|y|] == '_';
    var j := IndexOf(s, '_');
    if j.None? {
      assert false;
    }
    if j.value < |y| {
      assert false;
    } else if j.value > |y| {
      assert false;
    }
    assert s[..|y|] == y && s[|y| + 1..] == m;
    ValueOfDigits(ym.year);
    ValueOfDigits(ym.month);
  }

  // ---------------------------------------------------------------------
  // Option names

  /** `'cached_attachments_month_dropdown_' . str_pad( $i, 4, '0', STR_PAD_LEFT )` */
  function MonthKey(i: nat): (r: string)
  {
    MonthsPrefix + PadLeft(Digits(i), IndexWidth, '0')
  }

  /** Reads the index back from an option name, ignoring the zero padding. */
  function ParseMonthKey(name: string): (r: Option<nat>)
  {
    if MonthsPrefix <= name && |name| > |MonthsPrefix| && AllDigits(name[|MonthsPrefix|..])
    then Some(Value(name[|MonthsPrefix|..]))
    else None
  }

  lemma MonthKeyRoundTrip(i: nat)
    ensures MonthsPrefix <= MonthKey(i)
    ensures ParseMonthKey(MonthKey(i)) == Some(i)
  {
    assert MonthKey(i)[|MonthsPrefix|..] == PadLeft(Digits(i), IndexWidth, '0');
    PaddedDigitsValue(i, IndexWidth);
  }

  /** No two indices share an option name, so no `add_option` collides. */
  lemma MonthKeysDistinct()
    ensures forall i: nat, j: nat :: MonthKey(i) == MonthKey(j) ==> i == j
  {
    forall i: nat, j: nat | MonthKey(i) == MonthKey(j) ensures i == j {
      MonthKeyRoundTrip(i);
      MonthKeyRoundTrip(j);
    }
  }

  /** Below 10000 the padded names all have four digits, so `ORDER BY
      option_name` returns the rows in index order, which is the order of
      the source rows. */
  lemma MonthKeyOrder(i: nat, j: nat)
    requires i < 10000 && j < 10000
    ensures i < j <==> LexLess(MonthKey(i), MonthKey(j))
  {
    var a, b := PadLeft(Digits(i), IndexWidth, '0'), PadLeft(Digits(j), IndexWidth, '0');
    assert Pow10(4) == 10000;
    DigitsLength(i, 4);
    DigitsLength(j, 4);
    PaddedDigitsValue(i, IndexWidth);
    PaddedDigitsValue(j, IndexWidth);
    LexLessCommonPrefix(MonthsPrefix, a, b);
    LexLessCommonPrefix(MonthsPrefix, b, a);
    if i < j {
      LexLessFollowsValue(a, b);
    } else if i == j {
      LexLessIrreflexive(a);
    } else {
      LexLessFollowsValue(b, a);
      LexLessAsymmetric(b, a);
    }
  }

  /** From index 10000 on the names outgrow the padding and the order is
      lost: row 10000 sorts before row 9999. */
  lemma MonthKeyOrderLostAtTenThousand()
    ensures LexLess(MonthKey(10000), MonthKey(9999))
  {
    assert Digits(1) == "1";
    assert Digits(10) == "10";
    assert Digits(100) == "100";
    assert Digits(1000) == "1000";
    assert Digits(10000) == "10000";
    assert Digits(9) == "9";
    assert Digits(99) == "99";
    assert Digits(999) == "999";
    assert Digits(9999) == "9999";
    LexLessCommonPrefix(MonthsPrefix, "10000", "9999");
  }

  // ---------------------------------------------------------------------
  // The rows a rebuild writes

  /** Row i is named `MonthKey(i)` and holds the value of `data[i]`. */
  function MonthRecords(data: seq<YearMonth>): (r: map<string, string>)
    ensures r.Keys == set i: nat | i < |data| :: MonthKey(i)
    ensures forall i :: 0 <= i < |data| ==> r[MonthKey(i)] == MonthValue(data[i])
    ensures |r| == |data|
  {
    if data == [] then map[]
    else
      var n := |data| - 1;
      var r := MonthRecords(data[..n]);
      MonthKeysDistinct();
      assert (set i: nat | i < |data| :: MonthKey(i)) == r.Keys + {MonthKey(n)};
      r[MonthKey(n) := MonthValue(data[n])]
  }

  lemma MonthRecordsExtend(data: seq<YearMonth>, i: nat)
    requires i < |data|
    ensures MonthKey(i) !in MonthRecords(data[..i])
    ensures MonthRecords(data[..i + 1]) == MonthRecords(data[..i])[MonthKey(i) := MonthValue(data[i])]
  {
    MonthKeysDistinct();
    assert data[..i + 1][..i] == data[..i];
  }

  /** Over a flushed table, adding row i after rows 0 .. i-1 never meets a
      taken name, and leaves the rows for `data[..i + 1]`. */
  lemma MonthRecordsStep(flushed: map<string, string>, data: seq<YearMonth>, i: nat)
    requires forall k :: k in flushed ==> !(MonthsPrefix <= k)
    requires i < |data|
    ensures MonthKey(i) !in flushed + MonthRecords(data[..i])
    ensures (flushed + MonthRecords(data[..i]))[MonthKey(i) := MonthValue(data[i])] == flushed + MonthRecords(data[..i + 1])
  {
    MonthRecordsExtend(data, i);
    MonthKeyRoundTrip(i);
    var k := MonthKey(i);
    assert k !in flushed;
    UnionThenUpdate(flushed, MonthRecords(data[..i]), k, MonthValue(data[i]));
  }

  lemma MonthRecordsPrefixed(data: seq<YearMonth>)
    ensures forall k :: k in MonthRecords(data) ==> MonthsPrefix <= k
  {
    forall k | k in MonthRecords(data) ensures MonthsPrefix <= k {
      var i: nat :| i < |data| && k == MonthKey(i);
      MonthKeyRoundTrip(i);
    }
  }

  /** The options table after `create_cached_months(data)` ran on `m`. */
  function MonthsCached(m: map<string, string>, data: seq<YearMonth>): (r: map<string, string>)
  {
    WithoutPrefix(m, MonthsPrefix) + MonthRecords(data)
  }

  /** After a rebuild the prefixed rows are exactly `MonthKey(0)` ..
      `MonthKey(|data| - 1)`, row i holds `"<year>_<month>"` of `data[i]`,
      and every other row of the table is as it was. */
  lemma {:induction false} MonthsCachedContents(m: map<string, string>, data: seq<YearMonth>)
    ensures forall k :: MonthsPrefix <= k ==>
      (k in MonthsCached(m, data) <==> exists i: nat :: i < |data| && k == MonthKey(i))
    ensures forall i :: 0 <= i < |data| ==> MonthsCached(m, data)[MonthKey(i)] == MonthValue(data[i])
    ensures forall k :: !(MonthsPrefix <= k) ==>
      (k in MonthsCached(m, data) <==> k in m) &&
      (k in m ==> MonthsCached(m, data)[k] == m[k])
  {
    var r, records := MonthsCached(m, data), MonthRecords(data);
    MonthRecordsPrefixed(data);
    forall k | MonthsPrefix <= k
      ensures k in r <==> exists i: nat :: i < |data| && k == MonthKey(i)
    {
      assert k in r <==> k in records.Keys;
    }
  }

  /** Rebuilding twice with the same data leaves the table as once. */
  lemma {:induction false} MonthsCachedIdempotent(m: map<string, string>, data: seq<YearMonth>)
    ensures MonthsCached(MonthsCached(m, data), data) == MonthsCached(m, data)
  {
    MonthRecordsPrefixed(data);
    WithoutPrefixOfRewrite(m, MonthsPrefix, MonthRecords(data));
  }

  /** The two modules share the options table but not a prefix: a months
      rebuild leaves every MIME-type row as it was. */
  lemma {:induction false} MonthsCachedKeepsMimeRows(m: map<string, string>, data: seq<YearMonth>)
    ensures forall k :: Mime.MimePrefix <= k ==>
      (k in MonthsCached(m, data) <==> k in m) &&
      (k in m ==> MonthsCached(m, data)[k] == m[k])
  {
    var r := MonthsCached(m, data);
    MonthsCachedContents(m, data);
    forall k | Mime.MimePrefix <= k
      ensures (k in r <==> k in m) && (k in m ==> r[k] == m[k])
    {
      PrefixesApart(k);
    }
  }

  lemma PrefixesApart(k: string)
    requires Mime.MimePrefix <= k
    ensures !(MonthsPrefix <= k)
  {
    assert k[7] == 'm' && MonthsPrefix[7] == 'a';
  }

  // ---------------------------------------------------------------------
  // The rebuild itself

  /** `flush_cached_months`: deletes every row under the prefix. */
  method FlushCachedMonths(table: OptionsTable)
    modifies table
    ensures table.options == WithoutPrefix(old(table.options), MonthsPrefix)
  {
    var names := table.GetNamesLike(MonthsPrefix);
    ghost var start := table.options;
    while names != {}
      invariant names <= NamesLike(start, MonthsPrefix)
      invariant table.options == start - (NamesLike(start, MonthsPrefix) - names)
      decreases names
    {
      var name :| name in names;
      var deleted := table.DeleteOption(name);
      names := names - {name};
    }
  }

  /** `create_cached_months`: flushes, then adds row i for each item. */
  method CreateCachedMonths(table: OptionsTable, sourceData: seq<YearMonth>) returns (ok: bool)
    modifies table
    ensures ok
    ensures table.options == MonthsCached(old(table.options), sourceData)
  {
    FlushCachedMonths(table);
    ghost var flushed := table.options;
    var i := 0;
    while i < |sourceData|
      invariant 0 <= i <= |sourceData|
      invariant table.options == flushed + MonthRecords(sourceData[..i])
    {
      MonthRecordsStep(flushed, sourceData, i);
      var optionName := MonthKey(i);
      var optionValue := MonthValue(sourceData[i]);
      var added := table.AddOption(optionName, optionValue);
      i := i + 1;
    }
    assert sourceData[..i] == sourceData;
    ok := true;
  }
}
