# Cached WPDB Queries: the two feature modules

Cached WPDB Queries is a WordPress plugin. It swaps selected expensive core
`wpdb` queries for cheaper queries against rows it keeps in the options
table. Each feature module gives the plugin four pieces:

- a filter on the query list (`cached_wpdb_queries_list`). It appends one
  descriptor: the original query, the source callback, the expiry, the
  create-records callback, the replacement ("updated") query and the flush
  callback;
- a filter on the rebuild decision (`cached_wpdb_queries_should_rebuild`).
  It can only turn "don't rebuild" into "rebuild", and only for an admin
  request that carries the module's rebuild parameter set to `'1'`;
- a flush, which deletes every option whose name starts with the module's
  prefix;
- a create-records routine. It flushes, then adds one option per source
  item, named from a running index.

The model covers both modules:

- `get-available-post-mime-types.php` (module `GetAvailablePostMimeTypes`)
  writes `cached_mime_type_<i>` and stores the MIME type.
- `wp-ajax-query-attachments.php` (module `WpAjaxQueryAttachments`) writes
  `cached_attachments_month_dropdown_<i padded to 4 digits>` and stores
  `"<year>_<month>"`.

The options table is the class `Options.OptionsTable`. It holds a
`map<string, string>`, and its `AddOption` and `DeleteOption` methods follow
WordPress's `add_option` (refuses a name already taken) and `delete_option`.
Flush and create-records are methods with loops over that table. Each is
proved against a specification function on maps:

- `WithoutPrefix` is the table a flush leaves;
- `MimeTypesCached` and `MonthsCached` are the table a rebuild leaves.

What these functions mean is stated and proved as lemmas:

- which names exist after a rebuild and what they hold;
- that rows outside the prefix are untouched;
- that rebuilding twice gives the same table;
- that generated names never collide;
- that the index can be read back from a name;
- that below index 10000 the padded month names sort in index order. The
  replacement query's `ORDER BY option_name` relies on this.

Module `Text` holds the string pieces:

- PHP's decimal rendering of an integer;
- `str_pad` with `STR_PAD_LEFT`;
- the bytewise order of option names.

Module `Registry` holds the query descriptor, `HOUR_IN_SECONDS`,
`DAY_IN_SECONDS` and the request-flag test. The request state comes in as
parameters: `is_admin()` as a boolean, and `$_GET` after `filter_var_array`
as a map from parameter name to value.

Some parts of the model have no row of their own in the table below:

- Each module's descriptor function, `MimeTypeQueryData` and
  `MonthsDropdownQueryData`, keeps the SQL texts as opaque strings.
  `GetOriginalQuery` reproduces the months query text, whitespace included.
  The `$wpdb->posts` and `$wpdb->options` table names are parameters
  (`Registry.Tables`).
- The months descriptor sits after the unconditional `return` at line 61.
  `AddMonthsDropdownQueryData` therefore returns its input unchanged.
- Everything after the `return` at line 61 builds a complete descriptor, so
  the early return looks unintended. The model follows the code, and the
  plugin's main file does not load this module either
  (cached-wpdb-queries.php:17-22).
- The key and value formats are plain functions whose meaning the lemma
  rows state:
  - `GetAvailablePostMimeTypes.MimeKey` is `'cached_mime_type_' . $i`
    (include/queries/get-available-post-mime-types.php:107). See
    `MimeKeyRoundTrip` and `MimeKeysDistinct`.
  - `WpAjaxQueryAttachments.MonthKey` is the zero-padded months name
    (include/queries/wp-ajax-query-attachments.php:141). See
    `MonthKeyRoundTrip`, `MonthKeysDistinct`, `MonthKeyOrder` and
    `MonthKeyOrderLostAtTenThousand`.
  - `WpAjaxQueryAttachments.MonthValue` is `"{year}_{month}"`
    (include/queries/wp-ajax-query-attachments.php:142). See
    `MonthValueRoundTrip`.
  - `Registry.RequestFlagSet` is the test `'1' === $get[...]`
    (include/queries/get-available-post-mime-types.php:86,
    include/queries/wp-ajax-query-attachments.php:119). See the two
    `MaybeRebuildCache` rows.
- Only the months module zero-pads its index, which keeps
  `ORDER BY option_name` in index order. The MIME module uses the bare
  decimal index, and its replacement query has no `ORDER BY`.

## Model

| member | source | states |
|---|---|---|
| Text.Digits | include/queries/get-available-post-mime-types.php:107 | the decimal text of the running index `$i`: at least one digit, all digits, no leading zero, and exactly `"0"` for index 0 |
| Text.ValueOfDigits | include/queries/get-available-post-mime-types.php:107 | the decimal text reads back as the index it was made from |
| Text.PadLeft | include/queries/wp-ajax-query-attachments.php:141 | `str_pad(..., STR_PAD_LEFT)`: the result has the requested width (or the input's if longer), ends with the input, and is pad characters before it |
| Text.PaddedDigitsValue | include/queries/wp-ajax-query-attachments.php:141 | a zero-padded index is still all digits and still reads back as the index |
| Text.IndexOf | include/queries/wp-ajax-query-attachments.php:82 | finds the first `_` of a stored value, where the replacement query ends the year (the month starts after the last `_`, the same one for every value written); `None` exactly when there is none |
| Text.LexLessFollowsValue | include/queries/wp-ajax-query-attachments.php:82 | for equal-length digit strings, `ORDER BY` order follows numeric order |
| Options.NamesLike | include/queries/get-available-post-mime-types.php:123 | the names the `get_col` lookup returns: exactly the table's names that start with the prefix |
| Options.WithoutPrefix | include/queries/get-available-post-mime-types.php:119-128 | the table after a flush: no name under the prefix remains, every other row is present with its value unchanged |
| Options.OptionsTable.AddOption | include/queries/get-available-post-mime-types.php:107 | `add_option` succeeds exactly when the name is free, then adds that one row; otherwise the table is unchanged |
| Options.OptionsTable.DeleteOption | include/queries/get-available-post-mime-types.php:126 | `delete_option` removes exactly that row and reports whether it existed |
| Options.OptionsTable.GetNamesLike | include/queries/get-available-post-mime-types.php:123 | the lookup of prefixed names returns `NamesLike` of the current table |
| GetAvailablePostMimeTypes.AddMimeTypeQueryData | include/queries/get-available-post-mime-types.php:37-67 | when enabled, the input list with exactly one entry appended, earlier entries and their order unchanged; the entry has the original and updated queries, the source callback `\get_available_post_mime_types`, expiry 86400 s (one day) and this module's create and flush callbacks; when disabled, the input unchanged |
| GetAvailablePostMimeTypes.MaybeRebuildCache | include/queries/get-available-post-mime-types.php:75-90 | never turns true into false; from false, yields true exactly for an admin request with `rebuild_mime_type_cache` equal to `'1'` |
| GetAvailablePostMimeTypes.MimeKeyRoundTrip | include/queries/get-available-post-mime-types.php:107 | every generated name carries the prefix, and the index reads back from it |
| GetAvailablePostMimeTypes.MimeKeysDistinct | include/queries/get-available-post-mime-types.php:103-109 | distinct indices give distinct names, so no `add_option` after the flush collides |
| GetAvailablePostMimeTypes.MimeRecords | include/queries/get-available-post-mime-types.php:103-109 | the rows the loop adds: names exactly `cached_mime_type_<i>` for i below the data length, row i holds `data[i]`, and there are as many rows as items even when MIME types repeat |
| GetAvailablePostMimeTypes.MimeRecordsStep | include/queries/get-available-post-mime-types.php:106-108 | over a flushed table the name for item i is always free, and adding it extends the rows for items 0..i-1 to those for 0..i |
| GetAvailablePostMimeTypes.MimeTypesCachedContents | include/queries/get-available-post-mime-types.php:99-112 | after a rebuild a prefixed name exists exactly when it is `cached_mime_type_<i>` for some index i of the data, it holds `data[i]`, and every row outside the prefix is as before |
| GetAvailablePostMimeTypes.MimeTypesCachedIdempotent | include/queries/get-available-post-mime-types.php:99-112 | rebuilding twice with the same data leaves the same table as rebuilding once |
| GetAvailablePostMimeTypes.FlushMimeTypes | include/queries/get-available-post-mime-types.php:119-128 | the loop of `delete_option` calls leaves `WithoutPrefix` of the old table |
| GetAvailablePostMimeTypes.CreateCachedMimeTypes | include/queries/get-available-post-mime-types.php:99-112 | returns true and leaves `MimeTypesCached` of the old table and the data |
| WpAjaxQueryAttachments.AddMonthsDropdownQueryData | include/queries/wp-ajax-query-attachments.php:58-61 | the early return hands back the input list unchanged, so the months entry is never registered |
| WpAjaxQueryAttachments.MaybeRebuildCache | include/queries/wp-ajax-query-attachments.php:108-123 | never turns true into false; from false, yields true exactly for an admin request with `rebuild_months_dropdown_cache` equal to `'1'` |
| WpAjaxQueryAttachments.MonthValueRoundTrip | include/queries/wp-ajax-query-attachments.php:142 | the stored `"<year>_<month>"` splits at its `_` back into the year and the month it was made from |
| WpAjaxQueryAttachments.MonthKeyRoundTrip | include/queries/wp-ajax-query-attachments.php:141 | every generated name carries the prefix, and the index reads back from it despite the zero padding |
| WpAjaxQueryAttachments.MonthKeysDistinct | include/queries/wp-ajax-query-attachments.php:139-146 | distinct indices give distinct names, so no `add_option` after the flush collides |
| WpAjaxQueryAttachments.MonthKeyOrder | include/queries/wp-ajax-query-attachments.php:82 | for indices below 10000, name i sorts before name j under `ORDER BY option_name` exactly when i < j |
| WpAjaxQueryAttachments.MonthKeyOrderLostAtTenThousand | include/queries/wp-ajax-query-attachments.php:141 | the 4-digit padding bounds that order: the name for index 10000 sorts before the name for 9999 |
| WpAjaxQueryAttachments.MonthRecords | include/queries/wp-ajax-query-attachments.php:136-146 | the rows the loop adds: names exactly `cached_attachments_month_dropdown_<i padded>` for i below the data length, row i holds `"<year>_<month>"` of `data[i]`, one row per item |
| WpAjaxQueryAttachments.MonthRecordsStep | include/queries/wp-ajax-query-attachments.php:141-145 | over a flushed table the name for item i is always free, and adding it extends the rows for items 0..i-1 to those for 0..i |
| WpAjaxQueryAttachments.MonthsCachedContents | include/queries/wp-ajax-query-attachments.php:132-149 | after a rebuild a prefixed name exists exactly when it is the name of some index of the data, it holds that item's `"<year>_<month>"`, and every row outside the prefix is as before |
| WpAjaxQueryAttachments.MonthsCachedIdempotent | include/queries/wp-ajax-query-attachments.php:132-149 | rebuilding twice with the same data leaves the same table as rebuilding once |
| WpAjaxQueryAttachments.MonthsCachedKeepsMimeRows | include/queries/wp-ajax-query-attachments.php:160 | the months prefix and the MIME prefix are apart, so a months rebuild leaves every MIME-type row as it was |
| WpAjaxQueryAttachments.FlushCachedMonths | include/queries/wp-ajax-query-attachments.php:156-165 | the loop of `delete_option` calls leaves `WithoutPrefix` of the old table |
| WpAjaxQueryAttachments.CreateCachedMonths | include/queries/wp-ajax-query-attachments.php:132-149 | returns true and leaves `MonthsCached` of the old table and the data |

## Left out

- `setup()` in both modules registers WordPress hooks with `add_filter`. Hook dispatch is not modelled; each filter is a function called directly.
- The `n()` helper is not modelled. The callback names it builds are written out in full.
- The plugin's main file (cached-wpdb-queries.php) holds only header constants, includes and `setup()` calls.
- The cache engine in `include/core.php` is not part of this model. It does the query matching, the staleness check, the metadata writes and the substitution.
- `get_months_dropdown_results` and WordPress's `get_available_post_mime_types()` read the database. Their results are the `sourceData` parameter of the create methods.
- `is_admin()` is a boolean parameter. `$_GET` read through `filter_var_array` is a map parameter that holds the values after that call. A key that is absent reads as null.
- The effect of `FILTER_SANITIZE_STRING` on the raw request value is not modelled.
- The SQL texts are opaque strings. Running them is not modelled.
- The flush lookup `option_name like '<prefix>%'` is modelled as a literal prefix match. SQL `LIKE` reads `_` as a one-character wildcard, so the real lookup can also delete names that differ from the prefix at an underscore. Under the options table's default case-insensitive collation, `LIKE` also matches names that differ from the prefix in letter case (such as `Cached_mime_type_x`); the model's flush keeps those rows, which the real lookup would delete.
- `ORDER BY option_name` is modelled as a bytewise comparison. Under the table's collation, names that differ only in digits sort the same way.
- `add_option` is modelled as "insert unless the name is taken". Its other steps are not modelled: trimming the name, serialising the value, the deprecated third argument, the autoload flag `'no'`, the object cache, and its action hooks.
- `add_option` and `delete_option` are assumed never to fail on the database. The source ignores the result of `add_option` (get-available-post-mime-types.php:107, wp-ajax-query-attachments.php:144) and returns `true` regardless (:111, :148), so a failed insert would leave a partial cache reported as built; the model does not capture such a partial write, and `ok` is always true.
- `delete_option` is modelled as "remove the row". Its object cache and hooks are not modelled.
- The `$query_data` argument of both create routines is unused by the source and is not a parameter of the model.
- PHP arrays are modelled as sequences. `$query_data[] = ...` is modelled as appending at the end.
- Year and month are non-negative integers rendered in decimal. This is how MySQL's `YEAR()` and `MONTH()` values reach PHP.
- Races between concurrent rebuilds are not modelled. Each method runs alone on the table.
