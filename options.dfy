/** The WordPress options table (`$wpdb->options`) as the cached-query
    modules use it: a store of named string values that `add_option` and
    `delete_option` change one row at a time. */
module Options {

  /** The rows whose name starts with `prefix`, what
      `SELECT option_name ... WHERE option_name like '<prefix>%'` returns. */
  function NamesLike(m: map<string, string>, prefix: string): (names: set<string>)
    ensures names <= m.Keys
    ensures forall k :: k in m && prefix <= k ==> k in names
    ensures forall k :: k in names ==> prefix <= k
  {
    set k | k in m && prefix <= k
  }

  /** The table with every row under `prefix` deleted: what a flush leaves. */
  function WithoutPrefix(m: map<string, string>, prefix: string): (r: map<string, string>)
    ensures forall k :: k in r <==> k in m && !(prefix <= k)
    ensures forall k :: k in r ==> r[k] == m[k]
  {
    m - NamesLike(m, prefix)
  }

  /** Rows added under the prefix after a flush are gone after the next one. */
  lemma WithoutPrefixOfRewrite(m: map<string, string>, prefix: string, rows: map<string, string>)
    requires forall k :: k in rows ==> prefix <= k
    ensures WithoutPrefix(WithoutPrefix(m, prefix) + rows, prefix) == WithoutPrefix(m, prefix)
  {
    var kept := WithoutPrefix(m, prefix);
    var again := WithoutPrefix(kept + rows, prefix);
    forall k ensures k in again <==> k in kept {
    }
    assert again.Keys == kept.Keys;
  }

  /** Adding a row to the right-hand table of a union adds it to the union. */
  lemma UnionThenUpdate(a: map<string, string>, b: map<string, string>, k: string, v: string)
    ensures (a + b)[k := v] == a + b[k := v]
  {
  }

  class OptionsTable {
    /** option_name => option_value */
    var options: map<string, string>

    constructor (initial: map<string, string>)
      ensures options == initial
    {
      options := initial;
    }

    /** `add_option`: refuses, and changes nothing, when the name is taken. */
    method AddOption(name: string, value: string) returns (added: bool)
      modifies this
      ensures added <==> name !in old(options)
      ensures options == if added then old(options)[name := value] else old(options)
    {
      added := name !in options;
      if added {
        options := options[name := value];
      }
    }

    /** `delete_option`: reports whether the row existed. */
    method DeleteOption(name: string) returns (deleted: bool)
      modifies this
      ensures deleted <==> name in old(options)
      ensures options == old(options) - {name}
    {
      deleted := name in options;
      options := options - {name};
    }

    /** `$wpdb->get_col( "SELECT option_name ... like '<prefix>%'" )`. */
    method GetNamesLike(prefix: string) returns (names: set<string>)
      ensures names == NamesLike(options, prefix)
    {
      names := NamesLike(options, prefix);
    }
  }
}
