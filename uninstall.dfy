/**
 * The uninstall script (uninstall.php): delete the plugin's option, select
 * the transient keys by their escaped name prefix, and delete each of them
 * with delete_transient().
 */
module Uninstall {
  import opened Strings
  import opened Options

  const OptionName: string := "whmcs_price_option"

  /** The literal prefix of the plugin's transient rows. */
  const PluginPrefix: string := "_transient_whmcs_"

  /** The rows the WHERE clause selects: the names with the literal prefix (SelectedByPrefix). */
  predicate Selected(name: string) {
    StartsWith(name, PluginPrefix)
  }

  /** The rows the WHERE clause selects. */
  function SelectedNames(rows: map<string, string>): set<string> {
    set name | name in rows && Selected(name)
  }

  /** `REPLACE(option_name, '_transient_', '')` of each name: every occurrence is removed. */
  function KeysOf(names: set<string>): set<string> {
    set name | name in names :: RemoveAll(name, TransientPrefix)
  }

  /** The keys the SELECT returns. */
  function SelectedKeys(rows: map<string, string>): set<string> {
    KeysOf(SelectedNames(rows))
  }

  /** The rows the script leaves, as written. */
  function UninstalledRows(rows: map<string, string>): map<string, string> {
    var kept := rows - {OptionName};
    WithoutTransients(kept, SelectedKeys(kept))
  }

  /** The script: delete_option(), the SELECT, then delete_transient() per key in the order returned. */
  method Uninstall(table: OptionsTable)
    modifies table
    ensures table.rows == UninstalledRows(old(table.rows))
  {
    var optionDeleted := table.DeleteOption(OptionName);
    ghost var kept := table.rows;
    var keys := SelectKeys(table);
    forall i | 0 <= i < |keys|
      ensures !StartsWith(keys[i], "timeout_")
    {
      assert keys[i] in set k | k in keys;
      SelectedKeyShape(kept, keys[i]);
    }
    table.DeleteTransients(keys);
    InTurnIsSetwise(kept, keys);
  }

  /** `$wpdb->get_col()` of the SELECT: one key per selected row, in whatever order the rows come back. */
  method SelectKeys(table: OptionsTable) returns (keys: seq<string>)
    ensures (set k | k in keys) == SelectedKeys(table.rows)
    ensures |keys| == |SelectedNames(table.rows)|
  {
    var names := set name | name in table.rows && Like(name, EscLike(PluginPrefix) + "%");
    SelectedByPattern(table.rows, names);
    keys := [];
    var remaining := names;
    while remaining != {}
      invariant remaining <= names
      invariant (set k | k in keys) == KeysOf(names - remaining)
      invariant |keys| == |names - remaining|
      decreases |remaining|
    {
      var name :| name in remaining;
      SelectStep(names, remaining, name, keys);
      keys := keys + [RemoveAll(name, TransientPrefix)];
      remaining := remaining - {name};
    }
    assert names - remaining == names;
  }

  /** The names the escaped LIKE picks are the selected ones. */
  lemma SelectedByPattern(rows: map<string, string>, names: set<string>)
    requires names == set name | name in rows && Like(name, EscLike(PluginPrefix) + "%")
    ensures names == SelectedNames(rows)
  {
    forall name {
      SelectedByPrefix(name);
    }
  }

  /** One more name taken from the SELECT's result: its key joins the list. */
  lemma SelectStep(names: set<string>, remaining: set<string>, name: string, keys: seq<string>)
    requires name in remaining && remaining <= names
    requires (set k | k in keys) == KeysOf(names - remaining)
    requires |keys| == |names - remaining|
    ensures (set k | k in keys + [RemoveAll(name, TransientPrefix)]) == KeysOf(names - (remaining - {name}))
    ensures |keys + [RemoveAll(name, TransientPrefix)]| == |names - (remaining - {name})|
  {
    var done := names - remaining;
    assert names - (remaining - {name}) == done + {name};
    assert name !in done;
    KeysOfAdd(done, name);
    var key := RemoveAll(name, TransientPrefix);
    assert (set k | k in keys + [key]) == (set k | k in keys) + {key};
  }

  lemma KeysOfAdd(done: set<string>, name: string)
    ensures KeysOf(done + {name}) == KeysOf(done) + {RemoveAll(name, TransientPrefix)}
  {
  }

  /** Every key the SELECT returns starts with "whmcs", so none is "timeout_" followed by another key. */
  lemma SelectedKeyShape(rows: map<string, string>, key: string)
    requires key in SelectedKeys(rows)
    ensures key != [] && key[0] == 'w'
    ensures !StartsWith(key, "timeout_")
  {
    var name :| name in SelectedNames(rows) && key == RemoveAll(name, TransientPrefix);
    var tail := name[16..];
    assert name[..16] == PluginPrefix[..16] == TransientPrefix + "whmcs";
    assert name == (TransientPrefix + "whmcs") + tail;
    assert name == TransientPrefix + ("whmcs" + tail);
    RemoveAllLeading(TransientPrefix, "whmcs" + tail);
    RemoveAllSkip("whmcs", tail, TransientPrefix);
    assert key == "whmcs" + RemoveAll(tail, TransientPrefix);
  }

  /** The escaped pattern selects exactly the names with the literal prefix: underscores match only themselves. */
  lemma SelectedByPrefix(name: string)
    ensures Like(name, EscLike(PluginPrefix) + "%") <==> Selected(name)
  {
    EscapedPrefix(name, PluginPrefix);
  }

  /** The timeout prefix is itself a transient name. */
  lemma TimeoutIsTransient(name: string)
    requires StartsWith(name, TimeoutPrefix)
    ensures StartsWith(name, TransientPrefix)
  {
    assert name[..|TransientPrefix|] == name[..|TimeoutPrefix|][..|TransientPrefix|];
  }

  /** The plugin option is gone, and every row outside `_transient_...` stays with its value. */
  lemma OptionDeletedOthersKept(rows: map<string, string>)
    ensures OptionName !in UninstalledRows(rows)
    ensures forall name :: name in rows && name != OptionName && !StartsWith(name, TransientPrefix) ==>
      name in UninstalledRows(rows) && UninstalledRows(rows)[name] == rows[name]
  {
    forall name | name in rows && name != OptionName && !StartsWith(name, TransientPrefix)
      ensures name in UninstalledRows(rows)
    {
      if StartsWith(name, TimeoutPrefix) {
        TimeoutIsTransient(name);
      }
    }
  }

  /**
   * As written, a selected row "_transient_whmcs_transient_" + x (x without
   * underscores) yields the key "whmcs" + x: the row itself survives, and
   * the row "_transient_whmcs" + x, which the pattern did not select, is
   * deleted.
   */
  lemma ReplaceAllMisses(x: string)
    requires '_' !in x
    ensures var name, other := TransientPrefix + ("whmcs" + (TransientPrefix + x)), TransientPrefix + ("whmcs" + x);
      var rows := map[name := "cached", other := "other"];
      name in UninstalledRows(rows) && other !in UninstalledRows(rows)
  {
    var name, other := TransientPrefix + ("whmcs" + (TransientPrefix + x)), TransientPrefix + ("whmcs" + x);
    var rows := map[name := "cached", other := "other"];
    ExampleRowsDistinct(x, name, other);
    var kept := rows - {OptionName};
    assert kept.Keys == {name, other};
    ExampleSelection(x, name, other);
    ExampleKeys(x, name, other, kept);
    ExampleOfTransients(x, name, other, kept);
    assert name in kept && other in kept;
  }

  /**
   * As written, the timeout row "_transient_timeout_whmcs" + x of the key
   * that the row "_transient_whmcs_transient_" + x yields survives: its
   * value row is absent, so delete_transient() stops before it.
   */
  lemma MissedTimeoutKept(x: string)
    requires '_' !in x
    ensures var name, timeout := TransientPrefix + ("whmcs" + (TransientPrefix + x)), TimeoutPrefix + ("whmcs" + x);
      var rows := map[name := "cached", timeout := "1700000000"];
      name in UninstalledRows(rows) && timeout in UninstalledRows(rows)
  {
    var name, timeout := TransientPrefix + ("whmcs" + (TransientPrefix + x)), TimeoutPrefix + ("whmcs" + x);
    var rows := map[name := "cached", timeout := "1700000000"];
    var key := "whmcs" + x;
    assert |TransientPrefix + key| < |timeout| < |name|;
    assert name[0] == '_' && timeout[0] == '_' && OptionName[0] != '_';
    var kept := rows - {OptionName};
    assert kept.Keys == {name, timeout};
    ExampleSelection(x, name, TransientPrefix + key);
    assert !Selected(timeout) by {
      assert timeout[11] == 't' != PluginPrefix[11];
    }
    ExampleKeys(x, name, timeout, kept);
    assert "timeout_" + key != key by {
      assert |"timeout_" + key| != |key|;
    }
    TimeoutKeptWithoutValue(kept, {key}, key);
    ExampleOfTransients(x, name, TransientPrefix + key, kept);
  }

  /** The two example rows are different, and neither is the plugin option. */
  lemma ExampleRowsDistinct(x: string, name: string, other: string)
    requires name == TransientPrefix + ("whmcs" + (TransientPrefix + x)) && other == TransientPrefix + ("whmcs" + x)
    ensures name != other && name != OptionName && other != OptionName
  {
    assert |other| < |name|;
    assert name[0] == '_' && other[0] == '_' && OptionName[0] != '_';
  }

  /** The key "whmcs" + x removes the second row and not the first. */
  lemma ExampleOfTransients(x: string, name: string, other: string, rows: map<string, string>)
    requires name == TransientPrefix + ("whmcs" + (TransientPrefix + x)) && other == TransientPrefix + ("whmcs" + x)
    ensures OfTransients(other, rows, {"whmcs" + x}) && !OfTransients(name, rows, {"whmcs" + x})
  {
    PrefixRest(TransientPrefix, "whmcs" + x);
    PrefixRest(TransientPrefix, "whmcs" + (TransientPrefix + x));
    assert |"whmcs" + x| < |"whmcs" + (TransientPrefix + x)|;
    assert !StartsWith(name, TimeoutPrefix) by {
      assert name[11] == 'w' != TimeoutPrefix[11];
    }
  }

  /** `prefix + rest` starts with `prefix`, and `rest` follows it. */
  lemma PrefixRest(prefix: string, rest: string)
    ensures StartsWith(prefix + rest, prefix) && (prefix + rest)[|prefix|..] == rest
  {
    assert (prefix + rest)[..|prefix|] == prefix;
  }

  /** REPLACE turns "_transient_whmcs_transient_" + x into "whmcs" + x. */
  lemma ExampleKey(x: string)
    requires '_' !in x
    ensures RemoveAll(TransientPrefix + ("whmcs" + (TransientPrefix + x)), TransientPrefix) == "whmcs" + x
  {
    var tail := TransientPrefix + x;
    RemoveAllLeading(TransientPrefix, "whmcs" + tail);
    RemoveAllSkip("whmcs", tail, TransientPrefix);
    RemoveAllLeading(TransientPrefix, x);
    NotOccursWithoutChar(x, TransientPrefix, '_');
    RemoveAllAbsent(x, TransientPrefix);
  }

  /** Of two rows where only the first is selected, the SELECT yields "whmcs" + x. */
  lemma ExampleKeys(x: string, name: string, other: string, rows: map<string, string>)
    requires '_' !in x
    requires name == TransientPrefix + ("whmcs" + (TransientPrefix + x))
    requires Selected(name) && !Selected(other)
    requires rows.Keys == {name, other}
    ensures SelectedKeys(rows) == {"whmcs" + x}
  {
    ExampleKey(x);
    assert SelectedNames(rows) == {name};
  }

  /** The first example row is selected, the second is not. */
  lemma ExampleSelection(x: string, name: string, other: string)
    requires '_' !in x
    requires name == TransientPrefix + ("whmcs" + (TransientPrefix + x)) && other == TransientPrefix + ("whmcs" + x)
    ensures Selected(name) && !Selected(other)
  {
    assert name[..|PluginPrefix|] == PluginPrefix by {
      assert forall i :: 0 <= i < |PluginPrefix| ==> name[i] == PluginPrefix[i];
    }
    assert !StartsWith(other, PluginPrefix) by {
      if |PluginPrefix| <= |other| {
        assert other[16] == x[0] != PluginPrefix[16];
      }
    }
  }

  /** The evidently intended keys: the prefix stripped once, not every occurrence removed. */
  function IntendedKeys(rows: map<string, string>): set<string> {
    set name | name in rows && Selected(name) && |TransientPrefix| <= |name| :: name[|TransientPrefix|..]
  }

  function IntendedUninstalledRows(rows: map<string, string>): map<string, string> {
    var kept := rows - {OptionName};
    WithoutTransients(kept, IntendedKeys(kept))
  }

  /**
   * With the prefix stripped once, every selected row goes, with its timeout
   * row, and so does the option; a row is only deleted when it is one of
   * these.
   */
  lemma IntendedUninstallClears(rows: map<string, string>)
    ensures OptionName !in IntendedUninstalledRows(rows)
    ensures forall name :: name in rows && StartsWith(name, PluginPrefix) ==>
      name !in IntendedUninstalledRows(rows) &&
      TimeoutPrefix + name[|TransientPrefix|..] !in IntendedUninstalledRows(rows)
    ensures forall name :: (name in rows && name != OptionName && !StartsWith(name, PluginPrefix) &&
                            !StartsWith(name, TimeoutPrefix + "whmcs_")) ==>
      name in IntendedUninstalledRows(rows) && IntendedUninstalledRows(rows)[name] == rows[name]
  {
    var kept := rows - {OptionName};
    var keys := IntendedKeys(kept);
    forall name | name in rows && StartsWith(name, PluginPrefix)
      ensures name !in IntendedUninstalledRows(rows)
      ensures TimeoutPrefix + name[|TransientPrefix|..] !in IntendedUninstalledRows(rows)
    {
      assert name[0] == PluginPrefix[0] != OptionName[0];
      assert name[..|TransientPrefix|] == PluginPrefix[..|TransientPrefix|];
      assert name[|TransientPrefix|..] in keys;
      assert name == TransientPrefix + name[|TransientPrefix|..];
      assert name in kept;
      TransientNames(name[|TransientPrefix|..], TimeoutPrefix + name[|TransientPrefix|..]);
    }
    forall name | name in rows && name != OptionName && !StartsWith(name, PluginPrefix) &&
      !StartsWith(name, TimeoutPrefix + "whmcs_")
      ensures name in IntendedUninstalledRows(rows)
    {
      KeptWhenForeign(kept, name);
    }
  }

  /** Every intended key starts with "whmcs_". */
  lemma IntendedKeysShape(kept: map<string, string>, key: string)
    requires key in IntendedKeys(kept)
    ensures StartsWith(key, "whmcs_")
  {
    var name :| name in kept && Selected(name) && |TransientPrefix| <= |name| && name[|TransientPrefix|..] == key;
    assert key[..6] == name[..|PluginPrefix|][|TransientPrefix|..];
  }

  /** A row that is neither a plugin value row nor a plugin timeout row is no intended key's row. */
  lemma KeptWhenForeign(kept: map<string, string>, name: string)
    requires !StartsWith(name, PluginPrefix) && !StartsWith(name, TimeoutPrefix + "whmcs_")
    ensures !OfTransients(name, kept, IntendedKeys(kept))
  {
    if StartsWith(name, TransientPrefix) && name[|TransientPrefix|..] in IntendedKeys(kept) {
      IntendedKeysShape(kept, name[|TransientPrefix|..]);
      PrefixJoin(name, TransientPrefix, "whmcs_");
    }
    if StartsWith(name, TimeoutPrefix) && name[|TimeoutPrefix|..] in IntendedKeys(kept) {
      IntendedKeysShape(kept, name[|TimeoutPrefix|..]);
      PrefixJoin(name, TimeoutPrefix, "whmcs_");
    }
  }

  /** Two prefixes in a row make one. */
  lemma PrefixJoin(name: string, a: string, b: string)
    requires StartsWith(name, a) && StartsWith(name[|a|..], b)
    ensures StartsWith(name, a + b)
  {
    assert name[..|a + b|] == name[..|a|] + name[|a|..][..|b|];
  }

  /** Removing every "_transient_" from a plugin row name strips only the prefix when the rest has none. */
  lemma StrippedOnce(name: string)
    requires StartsWith(name, PluginPrefix) && !Occurs(name[|TransientPrefix|..], TransientPrefix)
    ensures |TransientPrefix| <= |name| && RemoveAll(name, TransientPrefix) == name[|TransientPrefix|..]
  {
    var rest := name[|TransientPrefix|..];
    assert name[..|TransientPrefix|] == PluginPrefix[..|TransientPrefix|] == TransientPrefix;
    assert name == TransientPrefix + rest;
    RemoveAllLeading(TransientPrefix, rest);
    RemoveAllAbsent(rest, TransientPrefix);
  }

  /** The script as written does what was intended whenever no name repeats "_transient_" after its prefix. */
  lemma WrittenMatchesIntended(rows: map<string, string>)
    requires forall name :: name in rows && StartsWith(name, PluginPrefix) ==>
      !Occurs(name[|TransientPrefix|..], TransientPrefix)
    ensures UninstalledRows(rows) == IntendedUninstalledRows(rows)
  {
    var kept := rows - {OptionName};
    forall name | name in kept && Selected(name)
      ensures |TransientPrefix| <= |name| && RemoveAll(name, TransientPrefix) == name[|TransientPrefix|..]
    {
      StrippedOnce(name);
    }
    assert SelectedKeys(kept) == IntendedKeys(kept);
  }
}
