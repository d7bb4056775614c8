/**
 * The settings page's logic (includes/settings.php): the option sanitiser,
 * the invalid-URL notice, and the button that clears the plugin's transients
 * straight from the options table.
 */
module Settings {
  import opened Strings
  import opened CallPlan
  import opened Options
  import PriceApi
  import Legacy

  const UrlKey: string := "whmcs_url"

  /**
   * sanitize(): a fresh option array holding only the URL, and the URL only
   * when the submitted one is not PHP-empty.
   */
  method Sanitize(input: map<string, string>, sanitizeText: string -> string) returns (clean: map<string, string>)
    ensures clean.Keys <= {UrlKey}
    ensures UrlKey in clean <==> UrlKey in input && !PhpEmpty(input[UrlKey])
    ensures UrlKey in clean ==> clean[UrlKey] == sanitizeText(input[UrlKey])
  {
    clean := map[];
    if UrlKey in input && !PhpEmpty(input[UrlKey]) {
      clean := clean[UrlKey := sanitizeText(input[UrlKey])];
    }
  }

  /** whmcs_url_callback()'s warning: a stored URL that is not empty and fails validation. */
  predicate UrlNotice(options: map<string, string>, validUrl: string -> bool) {
    var url := Setting(options, UrlKey, "");
    !PhpEmpty(url) && !validUrl(url)
  }

  /**
   * What the notice decides: no stored URL, an empty one or "0" (which PHP's
   * empty() also treats as empty) never gets the notice, nor does a valid
   * one; any other stored URL does.
   */
  lemma UrlNoticeCases(options: map<string, string>, validUrl: string -> bool)
    ensures UrlKey !in options ==> !UrlNotice(options, validUrl)
    ensures UrlKey in options && options[UrlKey] in {"", "0"} ==> !UrlNotice(options, validUrl)
    ensures UrlKey in options && validUrl(options[UrlKey]) ==> !UrlNotice(options, validUrl)
    ensures UrlKey in options && options[UrlKey] !in {"", "0"} && !validUrl(options[UrlKey]) ==>
      UrlNotice(options, validUrl)
  {
  }

  /**
   * The notice and the legacy shortcode file's guard split the non-empty URLs
   * between them: the page warns exactly about a non-empty URL with which the
   * legacy shortcode is not defined.
   */
  lemma NoticeIffNotLoaded(options: map<string, string>, validUrl: string -> bool)
    ensures var url := Setting(options, UrlKey, "");
      UrlNotice(options, validUrl) <==> !PhpEmpty(url) && !Legacy.Loaded(url, validUrl)
  {
  }

  const ValuePattern: string := "_transient_whmcs_%"
  const TimeoutPattern: string := "_transient_timeout_whmcs_%"

  /** The rows left by clear_whmcs_cache()'s two DELETE statements. */
  function ClearedRows(rows: map<string, string>): map<string, string> {
    RowsNotLike(RowsNotLike(rows, ValuePattern), TimeoutPattern)
  }

  /** clear_whmcs_cache(). */
  method ClearWhmcsCache(table: OptionsTable)
    modifies table
    ensures table.rows == ClearedRows(old(table.rows))
  {
    table.DeleteWhereLike(ValuePattern);
    table.DeleteWhereLike(TimeoutPattern);
  }

  /**
   * Which rows go: a `_` in either pattern matches any character, so a row
   * goes when it starts like "_transient_whmcs_" or like
   * "_transient_timeout_whmcs_" with every underscore a free position; every
   * other row stays, with its value.
   */
  lemma ClearedExactly(rows: map<string, string>, name: string)
    ensures name in ClearedRows(rows) <==>
      name in rows && !LooseStart(name, "_transient_whmcs_") && !LooseStart(name, "_transient_timeout_whmcs_")
    ensures name in ClearedRows(rows) ==> ClearedRows(rows)[name] == rows[name]
  {
    var value, timeout := "_transient_whmcs_", "_transient_timeout_whmcs_";
    assert ValuePattern == value + "%" && '%' !in value && '\\' !in value;
    assert TimeoutPattern == timeout + "%" && '%' !in timeout && '\\' !in timeout;
    var kept := RowsNotLike(rows, ValuePattern);
    NotLikeLoose(rows, value, name);
    NotLikeLoose(kept, timeout, name);
  }

  /** `DELETE ... WHERE option_name LIKE 'p%'` keeps a row exactly when it does not start like `p`. */
  lemma NotLikeLoose(rows: map<string, string>, p: string, name: string)
    requires '%' !in p && '\\' !in p
    ensures name in RowsNotLike(rows, p + "%") <==> name in rows && !LooseStart(name, p)
  {
    LoosePrefix(name, p);
  }

  /** Every cache entry of the plugin, value and timeout, is cleared. */
  lemma ClearsCacheEntries(rows: map<string, string>, key: string)
    requires StartsWith(key, "whmcs_")
    ensures TransientPrefix + key !in ClearedRows(rows)
    ensures TimeoutPrefix + key !in ClearedRows(rows)
  {
    var value, timeout := TransientPrefix + key, TimeoutPrefix + key;
    ClearedExactly(rows, value);
    ClearedExactly(rows, timeout);
    assert value == "_transient_whmcs_" + key[6..];
    assert timeout == "_transient_timeout_whmcs_" + key[6..];
    assert LooseStart(value, "_transient_whmcs_");
    assert LooseStart(timeout, "_transient_timeout_whmcs_");
  }

  /** A prefix stays a prefix when more text is appended. */
  lemma StartsWithAppend(s: string, t: string, prefix: string)
    requires StartsWith(s, prefix)
    ensures StartsWith(s + t, prefix)
  {
    assert (s + t)[..|prefix|] == s[..|prefix|];
  }

  /** Every product key of WHMCS_Price_API is such an entry. */
  lemma ProductKeyCleared(rows: map<string, string>, pid: int, cycle: string, attr: string)
    ensures TransientPrefix + PriceApi.ProductKey(pid, cycle, attr) !in ClearedRows(rows)
  {
    var k1 := "whmcs_product_" + IntToString(pid);
    StartsWithAppend("whmcs_", "product_", "whmcs_");
    StartsWithAppend("whmcs_product_", IntToString(pid), "whmcs_");
    StartsWithAppend(k1, "_", "whmcs_");
    StartsWithAppend(k1 + "_", cycle, "whmcs_");
    StartsWithAppend(k1 + "_" + cycle, "_", "whmcs_");
    StartsWithAppend(k1 + "_" + cycle + "_", attr, "whmcs_");
    ClearsCacheEntries(rows, PriceApi.ProductKey(pid, cycle, attr));
  }

  /** Every domain key of WHMCS_Price_API is such an entry. */
  lemma DomainKeyCleared(rows: map<string, string>, tld: string, kind: string, period: string)
    ensures TransientPrefix + PriceApi.DomainKey(tld, kind, period) !in ClearedRows(rows)
  {
    var k1 := "whmcs_domain_" + TrimLeftChar(tld, '.');
    StartsWithAppend("whmcs_", "domain_", "whmcs_");
    StartsWithAppend("whmcs_domain_", TrimLeftChar(tld, '.'), "whmcs_");
    StartsWithAppend(k1, "_", "whmcs_");
    StartsWithAppend(k1 + "_", kind, "whmcs_");
    StartsWithAppend(k1 + "_" + kind, "_", "whmcs_");
    StartsWithAppend(k1 + "_" + kind + "_", period, "whmcs_");
    ClearsCacheEntries(rows, PriceApi.DomainKey(tld, kind, period));
  }

  /**
   * Because `_` is a wildcard, a look-alike option that is no transient goes
   * too: "-transient-whmcs-" followed by anything, e.g. "-transient-whmcs-settings".
   */
  lemma LookalikeCleared(rows: map<string, string>, x: string)
    requires "-transient-whmcs-" + x in rows
    ensures "-transient-whmcs-" + x !in ClearedRows(rows)
  {
    var name := "-transient-whmcs-" + x;
    ClearedExactly(rows, name);
    LookalikeLoose(x);
  }

  lemma LookalikeLoose(x: string)
    ensures LooseStart("-transient-whmcs-" + x, "_transient_whmcs_")
  {
    var p, q := "_transient_whmcs_", "-transient-whmcs-";
    assert forall i :: 0 <= i < |p| ==> (q + x)[i] == q[i];
    assert forall i :: 0 <= i < |p| ==> p[i] == '_' || q[i] == p[i];
  }

  /** Clearing a second time removes nothing more. */
  lemma ClearIdempotent(rows: map<string, string>)
    ensures ClearedRows(ClearedRows(rows)) == ClearedRows(rows)
  {
    forall name
      ensures name in ClearedRows(ClearedRows(rows)) <==> name in ClearedRows(rows)
    {
      ClearedExactly(rows, name);
      ClearedExactly(ClearedRows(rows), name);
    }
  }
}
