/**
 * The data service WHMCS_Price_API: every product attribute and every domain
 * price is looked up in the transient cache first and fetched from the WHMCS
 * feed only on a miss; a failed fetch answers "NA" and caches nothing.
 *
 * The feed is an oracle `feed: string -> Response` from the request URL to the
 * answer; the cache is the transient store as a map from key to value.
 */
module PriceApi {
  import opened Strings

  /** The answer of wp_remote_get(): a WP_Error, or an HTTP status code and body. */
  datatype Response = TransportError | Reply(code: int, body: string)

  /** is_wp_error() is false and the status code is exactly 200. */
  predicate Succeeded(r: Response) {
    r.Reply? && r.code == 200
  }

  /** Lifetime of every transient this service writes, in seconds. */
  const CacheExpiry: nat := 3600

  /** The sentinel returned for "no data". */
  const NA: string := "NA"

  /** The wrapper a WHMCS JavaScript feed puts around its payload. */
  const WriteOpen: string := "document.write('"
  const WriteClose: string := "');"

  // ---------------------------------------------------------------------------
  // clean_response
  // ---------------------------------------------------------------------------

  /** Remove every `document.write('`, then every `');`, then trim. */
  function CleanResponse(body: string): string {
    Trim(RemoveAll(RemoveAll(body, WriteOpen), WriteClose))
  }

  /**
   * A wrapped payload comes back unwrapped and trimmed, unless `');` occurs
   * in it or it re-forms `document.write('` with the closing marker (as one
   * ending in `document.write(` does).
   */
  lemma CleanResponseUnwraps(payload: string)
    requires !Occurs(payload, WriteClose) && !Occurs(payload + WriteClose, WriteOpen)
    ensures CleanResponse(WriteOpen + payload + WriteClose) == Trim(payload)
  {
    var rest := payload + WriteClose;
    assert WriteOpen + payload + WriteClose == WriteOpen + rest;
    RemoveAllLeading(WriteOpen, rest);
    RemoveAllAbsent(rest, WriteOpen);
    RemoveCloseAfter(payload);
  }

  /** No `');` can start inside text without one and end in the closing marker after it. */
  lemma {:induction false} RemoveCloseAfter(p: string)
    requires !Occurs(p, WriteClose)
    ensures RemoveAll(p + WriteClose, WriteClose) == p
    decreases |p|
  {
    var s := p + WriteClose;
    if p == [] {
      assert s == WriteClose + [];
      RemoveAllLeading(WriteClose, []);
    } else {
      if |p| >= 3 {
        assert s[..3] == p[..3];
      } else {
        assert s[2] != WriteClose[2];
      }
      assert s[..3] != WriteClose;
      assert s[1..] == p[1..] + WriteClose;
      RemoveCloseAfter(p[1..]);
      assert [p[0]] + p[1..] == p;
    }
  }

  /** A body with neither marker is only trimmed. */
  lemma CleanResponsePlain(body: string)
    requires !Occurs(body, WriteOpen) && !Occurs(body, WriteClose)
    ensures CleanResponse(body) == Trim(body)
  {
    RemoveAllAbsent(body, WriteOpen);
    RemoveAllAbsent(body, WriteClose);
  }

  lemma CleanResponseExample()
    ensures CleanResponse(WriteOpen + "9.99" + WriteClose) == "9.99"
  {
    ExamplePayload("9.99");
    NoMarkers("9.99");
    CleanResponseUnwraps("9.99");
    TrimmedAlready("9.99");
  }

  /** A payload with no `;` and no `w` contains neither marker, even with the closing one appended. */
  lemma NoMarkers(payload: string)
    requires ';' !in payload && 'w' !in payload
    ensures !Occurs(payload, WriteClose) && !Occurs(payload + WriteClose, WriteOpen)
  {
    NotOccursWithoutChar(payload, WriteClose, ';');
    AbsentFromWrapped(payload, 'w');
    NotOccursWithoutChar(payload + WriteClose, WriteOpen, 'w');
  }

  /** Text that neither starts nor ends with a trim character is left as it is by trim(). */
  lemma TrimmedAlready(text: string)
    requires text != [] && !IsTrimSpace(text[0]) && !IsTrimSpace(text[|text| - 1])
    ensures Trim(text) == text
  {
    assert TrimLeft(text) == text;
    assert TrimRight(text) == text;
  }


  lemma AbsentFromWrapped(payload: string, c: char)
    requires c !in payload && c !in WriteClose
    ensures c !in payload + WriteClose
  {
  }

  /** Quotes and parentheses in a plan name survive: `document.write('Joe's (Pro)');` cleans to the name. */
  lemma CleanResponseQuotedName()
    ensures CleanResponse(WriteOpen + "Joe's (Pro)" + WriteClose) == "Joe's (Pro)"
  {
    ExamplePayload("Joe's (Pro)");
    NoMarkers("Joe's (Pro)");
    CleanResponseUnwraps("Joe's (Pro)");
    TrimmedAlready("Joe's (Pro)");
  }

  /** The two example payloads hold no `;` and no `w`, and have no trim character at either end. */
  lemma ExamplePayload(payload: string)
    requires payload == "9.99" || payload == "Joe's (Pro)"
    ensures ';' !in payload && 'w' !in payload
    ensures payload != [] && !IsTrimSpace(payload[0]) && !IsTrimSpace(payload[|payload| - 1])
  {
    if payload == "9.99" {
      assert ';' !in payload && 'w' !in payload;
    } else {
      assert ';' !in payload && 'w' !in payload;
    }
  }

  // ---------------------------------------------------------------------------
  // Cache keys and feed URLs
  // ---------------------------------------------------------------------------

  function ProductKey(pid: int, cycle: string, attr: string): string {
    "whmcs_product_" + IntToString(pid) + "_" + cycle + "_" + attr
  }

  function ProductUrl(base: string, pid: int, cycle: string, attr: string): string {
    base + "/feeds/productsinfo.php?pid=" + IntToString(pid) + "&get=" + attr + "&billingcycle=" + cycle
  }

  function DomainKey(tld: string, kind: string, period: string): string {
    "whmcs_domain_" + TrimLeftChar(tld, '.') + "_" + kind + "_" + period
  }

  function DomainUrl(base: string, tld: string, kind: string, period: string): string {
    base + "/feeds/domainprice.php?tld=." + TrimLeftChar(tld, '.') + "&type=" + kind + "&regperiod=" + period + "&format=1"
  }

  /** Two requests that differ only in the attribute are cached apart. */
  lemma ProductKeyAttributeDistinct(pid: int, cycle: string, a1: string, a2: string)
    requires a1 != a2
    ensures ProductKey(pid, cycle, a1) != ProductKey(pid, cycle, a2)
  {
    var prefix := "whmcs_product_" + IntToString(pid) + "_" + cycle + "_";
    assert ProductKey(pid, cycle, a1) == prefix + a1;
    assert ProductKey(pid, cycle, a2) == prefix + a2;
    assert (prefix + a1)[|prefix|..] == a1;
    assert (prefix + a2)[|prefix|..] == a2;
  }

  /** A string cut at its first underscore determines both halves. */
  lemma SplitAtUnderscore(x1: string, y1: string, x2: string, y2: string)
    requires '_' !in x1 && '_' !in x2
    requires x1 + "_" + y1 == x2 + "_" + y2
    ensures x1 == x2 && y1 == y2
  {
    var s := x1 + "_" + y1;
    IndexOfAfter(x1, y1, '_');
    IndexOfAfter(x2, y2, '_');
    assert x1 == s[..|x1|];
    assert x2 == (x2 + "_" + y2)[..|x2|];
    assert y1 == s[|x1| + 1..];
    assert y2 == (x2 + "_" + y2)[|x2| + 1..];
  }

  /**
   * With billing cycles free of underscores (the six WHMCS cycle names are),
   * the product key determines product, cycle and attribute.
   */
  lemma ProductKeyInjective(p1: int, c1: string, a1: string, p2: int, c2: string, a2: string)
    requires '_' !in c1 && '_' !in c2
    requires ProductKey(p1, c1, a1) == ProductKey(p2, c2, a2)
    ensures p1 == p2 && c1 == c2 && a1 == a2
  {
    var r1 := IntToString(p1) + "_" + (c1 + "_" + a1);
    var r2 := IntToString(p2) + "_" + (c2 + "_" + a2);
    ProductKeyParts(p1, c1, a1);
    ProductKeyParts(p2, c2, a2);
    PrefixCancels("whmcs_product_", r1, r2);
    assert '_' !in IntToString(p1) && '_' !in IntToString(p2);
    SplitAtUnderscore(IntToString(p1), c1 + "_" + a1, IntToString(p2), c2 + "_" + a2);
    SplitAtUnderscore(c1, a1, c2, a2);
    IntToStringInjective(p1, p2);
  }

  lemma ProductKeyParts(p: int, c: string, a: string)
    ensures ProductKey(p, c, a) == "whmcs_product_" + (IntToString(p) + "_" + (c + "_" + a))
  {
  }

  /** A common prefix can be dropped. */
  lemma PrefixCancels(prefix: string, r1: string, r2: string)
    requires prefix + r1 == prefix + r2
    ensures r1 == r2
  {
    assert r1 == (prefix + r1)[|prefix|..];
    assert r2 == (prefix + r2)[|prefix|..];
  }

  /** ".com" and "com" share one cache entry. */
  lemma DomainKeyIgnoresLeadingDot(tld: string, kind: string, period: string)
    ensures DomainKey("." + tld, kind, period) == DomainKey(tld, kind, period)
    ensures DomainUrl("", "." + tld, kind, period) == DomainUrl("", tld, kind, period)
  {
    TrimLeftCharPrefix(tld, '.');
  }

  /** Field values that contain underscores can make two domain requests share a key. */
  lemma DomainKeyCollision()
    ensures DomainKey("a_b", "c", "1") == DomainKey("a", "b_c", "1")
  {
    assert TrimLeftChar("a_b", '.') == "a_b";
    assert TrimLeftChar("a", '.') == "a";
  }

  // ---------------------------------------------------------------------------
  // The fetch-or-cache decision
  // ---------------------------------------------------------------------------

  /** What one lookup returns, the cache afterwards, and the URLs it fetched. */
  datatype Outcome = Outcome(value: string, cache: map<string, string>, fetched: seq<string>)

  /**
   * One call of get_product_data or get_domain_price with configured URL `base`,
   * cache key `key` and feed URL `url`.
   */
  function FetchOrCache(base: string, cache: map<string, string>, key: string, url: string,
                        feed: string -> Response): (o: Outcome)
    // without a URL: the sentinel, and neither the cache nor the feed is touched
    ensures PhpEmpty(base) ==> o == Outcome(NA, cache, [])
    // at most one request, always for `url`, and only on a miss
    ensures o.fetched == (if PhpEmpty(base) || key in cache then [] else [url])
    // only the entry for `key` can change, and an existing entry is never replaced
    ensures forall k :: k != key ==> (k in o.cache <==> k in cache)
    ensures forall k :: k != key && k in cache ==> o.cache[k] == cache[k]
    ensures key in cache ==> key in o.cache && o.cache[key] == cache[key]
    // what is returned is what is now cached, or the sentinel when nothing is cached
    ensures !PhpEmpty(base) && key in o.cache ==> o.value == o.cache[key]
    ensures key !in o.cache ==> o.value == NA
    // the cache is written only with the cleaned body of a successful fetch
    ensures o.cache != cache ==>
      key !in cache && Succeeded(feed(url)) && o.cache == cache[key := CleanResponse(feed(url).body)]
  {
    if PhpEmpty(base) then Outcome(NA, cache, [])
    else if key in cache then Outcome(cache[key], cache, [])
    else
      var response := feed(url);
      if !Succeeded(response) then Outcome(NA, cache, [url])
      else
        var data := CleanResponse(response.body);
        Outcome(data, cache[key := data], [url])
  }

  /** A failed fetch answers the sentinel and writes nothing. */
  lemma FailureCachesNothing(base: string, cache: map<string, string>, key: string, url: string,
                             feed: string -> Response)
    requires !PhpEmpty(base) && key !in cache && !Succeeded(feed(url))
    ensures FetchOrCache(base, cache, key, url, feed) == Outcome(NA, cache, [url])
  {
  }

  /** A successful fetch caches and returns the cleaned body. */
  lemma SuccessCachesCleanBody(base: string, cache: map<string, string>, key: string, url: string,
                               feed: string -> Response)
    requires !PhpEmpty(base) && key !in cache && Succeeded(feed(url))
    ensures var data := CleanResponse(feed(url).body);
      FetchOrCache(base, cache, key, url, feed) == Outcome(data, cache[key := data], [url])
  {
  }

  /**
   * After a lookup that did not fail, the same lookup again, whatever the feed
   * would now answer, returns the same value from the cache without a request.
   */
  lemma RepeatedLookupHits(base: string, cache: map<string, string>, key: string, url: string,
                           feed: string -> Response, later: string -> Response)
    requires !PhpEmpty(base)
    requires key in cache || Succeeded(feed(url))
    ensures var first := FetchOrCache(base, cache, key, url, feed);
      var second := FetchOrCache(base, first.cache, key, url, later);
      second == Outcome(first.value, first.cache, [])
  {
  }

  /** The store as the service leaves it, with the service's own keys. */
  class WhmcsPriceApi {
    /** The transients: cache key to cached string. */
    var cache: map<string, string>
    /** whmcs_url from the plugin option, after esc_url_raw ("" when unset). */
    var url: string
    /** The feed URLs requested so far, oldest first. */
    ghost var Requests: seq<string>

    constructor (url: string, cache: map<string, string>)
      ensures this.url == url && this.cache == cache && Requests == []
    {
      this.url := url;
      this.cache := cache;
      Requests := [];
    }

    method GetProductData(pid: int, cycle: string, attr: string, feed: string -> Response)
      returns (r: string)
      modifies this`cache, this`Requests
      ensures var o := FetchOrCache(url, old(cache), ProductKey(pid, cycle, attr),
                                    ProductUrl(url, pid, cycle, attr), feed);
        r == o.value && cache == o.cache && Requests == old(Requests) + o.fetched
    {
      if PhpEmpty(url) {
        return NA;
      }
      var key := ProductKey(pid, cycle, attr);
      if key in cache {
        return cache[key];
      }
      var request := ProductUrl(url, pid, cycle, attr);
      var response := feed(request);
      Requests := Requests + [request];
      if !Succeeded(response) {
        return NA;
      }
      var data := CleanResponse(response.body);
      cache := cache[key := data];
      return data;
    }

    method GetDomainPrice(tld: string, kind: string, period: string, feed: string -> Response)
      returns (r: string)
      modifies this`cache, this`Requests
      ensures var o := FetchOrCache(url, old(cache), DomainKey(tld, kind, period),
                                    DomainUrl(url, tld, kind, period), feed);
        r == o.value && cache == o.cache && Requests == old(Requests) + o.fetched
    {
      if PhpEmpty(url) {
        return NA;
      }
      var bare := TrimLeftChar(tld, '.');
      var key := "whmcs_domain_" + bare + "_" + kind + "_" + period;
      if key in cache {
        return cache[key];
      }
      var request := url + "/feeds/domainprice.php?tld=." + bare + "&type=" + kind + "&regperiod=" + period + "&format=1";
      var response := feed(request);
      Requests := Requests + [request];
      if !Succeeded(response) {
        return NA;
      }
      var data := CleanResponse(response.body);
      cache := cache[key := data];
      return data;
    }
  }

  /** The service answers a product request from a 200 feed, then from its cache. */
  method ProductScenario(base: string, feed: string -> Response)
    requires !PhpEmpty(base)
    requires feed(ProductUrl(base, 1, "monthly", "price")) == Reply(200, WriteOpen + "9.99" + WriteClose)
  {
    var api := new WhmcsPriceApi(base, map[]);
    CleanResponseExample();
    var first := api.GetProductData(1, "monthly", "price", feed);
    assert first == "9.99";
    assert api.cache == map[ProductKey(1, "monthly", "price") := "9.99"];
    var second := api.GetProductData(1, "monthly", "price", feed);
    assert second == "9.99" && |api.Requests| == 1;
  }
}
