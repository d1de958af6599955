/** What a feature module hands to the plugin's query list
    (`cached_wpdb_queries_list`): one descriptor per cacheable query. */
module Registry {

  /** WordPress's HOUR_IN_SECONDS and DAY_IN_SECONDS. */
  const HourInSeconds: nat := 3600
  const DayInSeconds: nat := 24 * HourInSeconds

  /** The table names `$wpdb->posts` and `$wpdb->options`, which depend on
      the site's table prefix and are interpolated into the SQL text. */
  datatype Tables = Tables(posts: string, options: string)

  /** One entry of the query list. Callbacks are the names PHP resolves at
      call time; the SQL texts are kept as opaque strings. */
  datatype QueryDescriptor = QueryDescriptor(
    original: string,
    sourceCallback: string,
    expires: nat,
    createRecordsCallback: string,
    updated: string,
    flushCallback: string)

  /** `'1' === $get[$key]` after `filter_var_array`: a key missing from the
      request reads as null and never equals `'1'`. */
  predicate RequestFlagSet(get: map<string, string>, key: string)
  {
    key in get && get[key] == "1"
  }
}
