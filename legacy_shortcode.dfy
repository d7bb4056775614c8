/**
 * The older, self-contained shortcode service in
 * includes/short_code/short_code.php: its own copy of the cache-or-fetch
 * logic, with one transient per product attribute, an all-"NA" row when any
 * attribute fails, and wrapped domain and all-domain pages.
 *
 * The shortcode attributes are a map (a missing key is an attribute that was
 * not given); sanitize_text_field and esc_html are parameters.
 */
module Legacy {
  import opened Strings
  import opened PriceApi
  import opened CallPlan

  /** The file defines its shortcode only when the URL option is non-empty and passes URL validation. */
  predicate Loaded(url: string, validUrl: string -> bool) {
    !PhpEmpty(url) && validUrl(url)
  }

  // ---------------------------------------------------------------------------
  // Product rows
  // ---------------------------------------------------------------------------

  /** The row returned when any attribute's fetch fails. */
  const AllNA: map<string, string> := map["name" := NA, "description" := NA, "price" := NA]

  /** The two markers removed, and nothing trimmed. */
  function StripMarkers(body: string): string {
    RemoveAll(RemoveAll(body, WriteOpen), WriteClose)
  }

  /** The loop of fetch_product_data() over the first attributes: the row, the cache, the requests, and whether it gave up. */
  datatype RowOutcome = RowOutcome(row: map<string, string>, cache: map<string, string>, fetched: seq<string>, failed: bool)

  /** fetch_product_data(): the attributes in order, each from the cache or from one request. */
  function FetchRow(base: string, pid: int, cycle: string, show: seq<string>, cache: map<string, string>,
                    feed: string -> Response, sanitize: string -> string, esc: string -> string): (o: RowOutcome)
    ensures |o.fetched| <= |show|
    decreases |show|
  {
    if show == [] then RowOutcome(map[], cache, [], false)
    else
      var o := FetchRow(base, pid, cycle, show[..|show| - 1], cache, feed, sanitize, esc);
      if o.failed then o
      else
        var attr := sanitize(Last(show));
        var key := ProductKey(pid, cycle, attr);
        if key in o.cache then o.(row := o.row[attr := o.cache[key]])
        else
          var url := ProductUrl(base, pid, cycle, attr);
          if !Succeeded(feed(url)) then RowOutcome(AllNA, o.cache, o.fetched + [url], true)
          else
            var value := esc(StripMarkers(feed(url).body));
            RowOutcome(o.row[attr := value], o.cache[key := value], o.fetched + [url], false)
  }

  /** A row only adds to the cache: every entry already there stays, with its value. */
  lemma {:induction false} FetchRowKeepsCache(base: string, pid: int, cycle: string, show: seq<string>,
                                              cache: map<string, string>, feed: string -> Response,
                                              sanitize: string -> string, esc: string -> string)
    ensures var o := FetchRow(base, pid, cycle, show, cache, feed, sanitize, esc);
      forall k :: k in cache ==> k in o.cache && o.cache[k] == cache[k]
    decreases |show|
  {
    if show != [] {
      FetchRowKeepsCache(base, pid, cycle, show[..|show| - 1], cache, feed, sanitize, esc);
    }
  }

  /** One more attribute found in the cache: its value joins the row, with no request. */
  lemma FetchHit(base: string, pid: int, cycle: string, show: seq<string>, i: nat,
                 cache: map<string, string>, feed: string -> Response,
                 sanitize: string -> string, esc: string -> string)
    requires i < |show|
    requires var before := FetchRow(base, pid, cycle, show[..i], cache, feed, sanitize, esc);
      !before.failed && ProductKey(pid, cycle, sanitize(show[i])) in before.cache
    ensures var before := FetchRow(base, pid, cycle, show[..i], cache, feed, sanitize, esc);
      var attr := sanitize(show[i]);
      FetchRow(base, pid, cycle, show[..i + 1], cache, feed, sanitize, esc) ==
        RowOutcome(before.row[attr := before.cache[ProductKey(pid, cycle, attr)]], before.cache, before.fetched, false)
  {
    assert show[..i + 1][..i] == show[..i];
    assert Last(show[..i + 1]) == show[i];
  }

  /** One more attribute fetched: its value joins the row and the cache, after one request. */
  lemma FetchMiss(base: string, pid: int, cycle: string, show: seq<string>, i: nat,
                  cache: map<string, string>, feed: string -> Response,
                  sanitize: string -> string, esc: string -> string)
    requires i < |show|
    requires var before := FetchRow(base, pid, cycle, show[..i], cache, feed, sanitize, esc);
      !before.failed && ProductKey(pid, cycle, sanitize(show[i])) !in before.cache &&
      Succeeded(feed(ProductUrl(base, pid, cycle, sanitize(show[i]))))
    ensures var before := FetchRow(base, pid, cycle, show[..i], cache, feed, sanitize, esc);
      var attr := sanitize(show[i]);
      var url := ProductUrl(base, pid, cycle, attr);
      var value := esc(StripMarkers(feed(url).body));
      FetchRow(base, pid, cycle, show[..i + 1], cache, feed, sanitize, esc) ==
        RowOutcome(before.row[attr := value], before.cache[ProductKey(pid, cycle, attr) := value], before.fetched + [url], false)
  {
    assert show[..i + 1][..i] == show[..i];
    assert Last(show[..i + 1]) == show[i];
  }

  /** Once an attribute has failed, the attributes after it change nothing. */
  lemma {:induction false} FailedStays(base: string, pid: int, cycle: string, show: seq<string>, i: nat,
                                       cache: map<string, string>, feed: string -> Response,
                                       sanitize: string -> string, esc: string -> string)
    requires i <= |show|
    requires FetchRow(base, pid, cycle, show[..i], cache, feed, sanitize, esc).failed
    ensures FetchRow(base, pid, cycle, show, cache, feed, sanitize, esc) ==
      FetchRow(base, pid, cycle, show[..i], cache, feed, sanitize, esc)
    decreases |show|
  {
    if i < |show| {
      var init := show[..|show| - 1];
      assert init[..i] == show[..i];
      FailedStays(base, pid, cycle, init, i, cache, feed, sanitize, esc);
    } else {
      assert show[..i] == show;
    }
  }

  /**
   * When the i-th attribute misses the cache and its request fails, the row
   * is all "NA" (attributes gathered before are dropped), nothing is cached
   * for it, and no later attribute is requested.
   */
  lemma FailureDiscardsRow(base: string, pid: int, cycle: string, show: seq<string>, i: nat,
                           cache: map<string, string>, feed: string -> Response,
                           sanitize: string -> string, esc: string -> string)
    requires i < |show|
    requires !FetchRow(base, pid, cycle, show[..i], cache, feed, sanitize, esc).failed
    requires ProductKey(pid, cycle, sanitize(show[i])) !in FetchRow(base, pid, cycle, show[..i], cache, feed, sanitize, esc).cache
    requires !Succeeded(feed(ProductUrl(base, pid, cycle, sanitize(show[i]))))
    ensures var before := FetchRow(base, pid, cycle, show[..i], cache, feed, sanitize, esc);
      var o := FetchRow(base, pid, cycle, show, cache, feed, sanitize, esc);
      o.row == AllNA && o.cache == before.cache &&
      ProductKey(pid, cycle, sanitize(show[i])) !in o.cache &&
      o.fetched == before.fetched + [ProductUrl(base, pid, cycle, sanitize(show[i]))]
  {
    var prefix := show[..i + 1];
    assert prefix[..|prefix| - 1] == show[..i];
    assert Last(prefix) == show[i];
    FailedStays(base, pid, cycle, show, i + 1, cache, feed, sanitize, esc);
  }

  /** When every attribute is cached, the row is read from the cache: no request, the cache unchanged. */
  lemma {:induction false} AllCachedNoFetch(base: string, pid: int, cycle: string, show: seq<string>,
                                            cache: map<string, string>, feed: string -> Response,
                                            sanitize: string -> string, esc: string -> string)
    requires forall a :: a in show ==> ProductKey(pid, cycle, sanitize(a)) in cache
    ensures var o := FetchRow(base, pid, cycle, show, cache, feed, sanitize, esc);
      !o.failed && o.cache == cache && o.fetched == [] &&
      (forall a :: a in show ==> sanitize(a) in o.row && o.row[sanitize(a)] == cache[ProductKey(pid, cycle, sanitize(a))])
    decreases |show|
  {
    if show != [] {
      var n := |show| - 1;
      var init := show[..n];
      assert forall a :: a in init ==> a in show;
      AllCachedNoFetch(base, pid, cycle, init, cache, feed, sanitize, esc);
      assert show[n] in show;
      FetchHit(base, pid, cycle, show, n, cache, feed, sanitize, esc);
      assert show[..n + 1] == show;
      forall a | a in show
        ensures a in init || a == show[n]
      {
        var k :| 0 <= k < |show| && show[k] == a;
        if k < n {
          assert init[k] == a;
        }
      }
    }
  }

  /** A row's three cells: `$row_data[...] ?? 'N/A'`. */
  datatype Cells = Cells(name: string, description: string, price: string)

  const Missing: string := "N/A"

  function CellsOf(row: map<string, string>): (c: Cells)
    ensures "name" !in row ==> c.name == Missing
    ensures "description" !in row ==> c.description == Missing
    ensures "price" !in row ==> c.price == Missing
  {
    Cells(Setting(row, "name", Missing), Setting(row, "description", Missing), Setting(row, "price", Missing))
  }

  /** A failed row shows "NA" in all three cells. */
  lemma FailedRowCells()
    ensures CellsOf(AllNA) == Cells(NA, NA, NA)
  {
  }

  // ---------------------------------------------------------------------------
  // Whole pages
  // ---------------------------------------------------------------------------

  /** What the shortcode prints: a plain string, or the product table's rows. */
  datatype Page = Plain(text: string) | ProductTable(rows: seq<Cells>)

  /** A page, the cache after it, and the requests made for it. */
  datatype Served = Served(page: Page, cache: map<string, string>, fetched: seq<string>)

  /** The rows of handle_product_pricing()'s loop over the first PIDs, each from fetch_product_data(). */
  function TableRows(base: string, pids: seq<int>, cycle: string, show: seq<string>, cache: map<string, string>,
                     feed: string -> Response, sanitize: string -> string, esc: string -> string): (s: Served)
    ensures s.page.ProductTable? && |s.page.rows| == |pids|
    ensures forall k :: k in cache ==> k in s.cache && s.cache[k] == cache[k]
    decreases |pids|
  {
    if pids == [] then Served(ProductTable([]), cache, [])
    else
      var before := TableRows(base, pids[..|pids| - 1], cycle, show, cache, feed, sanitize, esc);
      var o := FetchRow(base, Last(pids), cycle, show, before.cache, feed, sanitize, esc);
      FetchRowKeepsCache(base, Last(pids), cycle, show, before.cache, feed, sanitize, esc);
      Served(ProductTable(before.page.rows + [CellsOf(o.row)]), o.cache, before.fetched + o.fetched)
  }

  /** The attribute names of the show list: `isset( show ) ? explode( ',', sanitize( show ) ) : []`. */
  function ShowList(atts: map<string, string>, sanitize: string -> string): seq<string> {
    if "show" in atts then Split(sanitize(atts["show"]), ',') else []
  }

  /** handle_product_pricing(): "NA" for an unknown cycle code, otherwise one row per PID. */
  function ProductPricing(base: string, atts: map<string, string>, cache: map<string, string>,
                          feed: string -> Response, sanitize: string -> string, esc: string -> string): Served
    requires "pid" in atts && "bc" in atts
  {
    var bc := sanitize(atts["bc"]);
    if bc !in CycleNames then Served(Plain(NA), cache, [])
    else TableRows(base, IntVals(Split(atts["pid"], ',')), CycleNames[bc], ShowList(atts, sanitize), cache, feed, sanitize, esc)
  }

  /** An unrecognised cycle code answers "NA" before any cache read or request. */
  lemma UnknownCycleAnswersNA(base: string, atts: map<string, string>, cache: map<string, string>,
                              feed: string -> Response, sanitize: string -> string, esc: string -> string)
    requires "pid" in atts && "bc" in atts
    ensures sanitize(atts["bc"]) !in CycleNames <==>
      ProductPricing(base, atts, cache, feed, sanitize, esc) == Served(Plain(NA), cache, [])
  {
    if sanitize(atts["bc"]) in CycleNames {
      var s := ProductPricing(base, atts, cache, feed, sanitize, esc);
      assert s.page.ProductTable?;
    }
  }

  /** Without a show attribute nothing is requested and every cell of every row is "N/A". */
  lemma {:induction false} NoShowNoFetch(base: string, pids: seq<int>, cycle: string, cache: map<string, string>,
                                         feed: string -> Response, sanitize: string -> string, esc: string -> string)
    ensures var s := TableRows(base, pids, cycle, [], cache, feed, sanitize, esc);
      s.cache == cache && s.fetched == [] &&
      forall i :: 0 <= i < |s.page.rows| ==> s.page.rows[i] == Cells(Missing, Missing, Missing)
    decreases |pids|
  {
    if pids != [] {
      NoShowNoFetch(base, pids[..|pids| - 1], cycle, cache, feed, sanitize, esc);
    }
  }

  // ---------------------------------------------------------------------------
  // Domain pages
  // ---------------------------------------------------------------------------

  /**
   * `preg_replace("/document\.write\('(.*?)'\);/", '$1', s)`: every wrapper
   * is replaced by its shortest content, scanning left to right; `.` does
   * not match a newline, so a wrapper whose close comes after a newline is
   * left as it is.
   */
  function UnwrapWrites(s: string): string
    decreases |s|
  {
    if s == [] then []
    else if StartsWith(s, WriteOpen) && CloseAt(s[|WriteOpen|..]).Some? then
      var t := s[|WriteOpen|..];
      var j := CloseAt(t).value;
      t[..j] + UnwrapWrites(t[j + |WriteClose|..])
    else [s[0]] + UnwrapWrites(s[1..])
  }

  /** The first `');` in `t` with no newline before it. */
  function CloseAt(t: string): (r: Option<nat>)
    ensures r.Some? ==> r.value + |WriteClose| <= |t| && StartsWith(t[r.value..], WriteClose)
    ensures r.Some? ==> '\n' !in t[..r.value]
    decreases |t|
  {
    if StartsWith(t, WriteClose) then Some(0)
    else if t == [] || t[0] == '\n' then None
    else
      match CloseAt(t[1..])
      case Some(j) => Some(j + 1)
      case None => None
  }

  /** A payload with no quote and no newline is found up to the closing marker. */
  lemma {:induction false} CloseAtPayload(p: string)
    requires '\'' !in p && '\n' !in p
    ensures CloseAt(p + WriteClose) == Some(|p|)
    decreases |p|
  {
    if p != [] {
      var t := p + WriteClose;
      assert t[1..] == p[1..] + WriteClose;
      assert t[0] == p[0] && p[0] in p;
      CloseAtPayload(p[1..]);
      CloseAtStep(t);
    } else {
      assert p + WriteClose == WriteClose;
    }
  }

  /** A first character that is neither a quote nor a newline only moves the close one place on. */
  lemma CloseAtStep(t: string)
    requires t != [] && t[0] != '\'' && t[0] != '\n' && CloseAt(t[1..]).Some?
    ensures CloseAt(t) == Some(CloseAt(t[1..]).value + 1)
  {
    assert !StartsWith(t, WriteClose) by {
      assert WriteClose[0] == '\'';
    }
  }

  /** A wrapped payload with no quote and no newline comes back as the payload. */
  lemma UnwrapsPayload(p: string)
    requires '\'' !in p && '\n' !in p
    ensures UnwrapWrites(WriteOpen + p + WriteClose) == p
  {
    var s := WriteOpen + p + WriteClose;
    var t := p + WriteClose;
    assert s == WriteOpen + t;
    assert s[|WriteOpen|..] == t;
    assert StartsWith(s, WriteOpen) by {
      assert s[..|WriteOpen|] == WriteOpen;
    }
    CloseAtPayload(p);
    assert t[..|p|] == p;
    assert t[|p| + |WriteClose|..] == [];
  }

  /** Text with no opening marker is left as it is. */
  lemma {:induction false} UnwrapPlain(s: string)
    requires !Occurs(s, WriteOpen)
    ensures UnwrapWrites(s) == s
    decreases |s|
  {
    if s != [] {
      UnwrapPlain(s[1..]);
    }
  }

  const PriceDivOpen: string := "<div class='whmcs-price'>"
  const PriceDivClose: string := "</div>"

  function Wrap(body: string): string {
    PriceDivOpen + UnwrapWrites(body) + PriceDivClose
  }

  /** The cache-then-fetch step shared by the domain and all-domain pages. */
  function CachedPage(cache: map<string, string>, key: string, url: string, feed: string -> Response): (s: Served)
    ensures s.page.Plain?
    ensures s.fetched == (if key in cache then [] else [url])
    ensures key in cache ==> s == Served(Plain(cache[key]), cache, [])
    ensures key !in cache && !Succeeded(feed(url)) ==> s == Served(Plain(NA), cache, [url])
    ensures key !in cache && Succeeded(feed(url)) ==>
      s == Served(Plain(Wrap(feed(url).body)), cache[key := Wrap(feed(url).body)], [url])
  {
    if key in cache then Served(Plain(cache[key]), cache, [])
    else if !Succeeded(feed(url)) then Served(Plain(NA), cache, [url])
    else
      var page := Wrap(feed(url).body);
      Served(Plain(page), cache[key := page], [url])
  }

  /** `"whmcs_domain_{$tld}_{$type}_{$reg_r}"` with the dot already prepended to the TLD. */
  function LegacyDomainKey(tld: string, kind: string, period: string): string {
    "whmcs_domain_." + tld + "_" + kind + "_" + period
  }

  function LegacyDomainUrl(base: string, tld: string, kind: string, period: string): string {
    base + "/feeds/domainprice.php?tld=." + tld + "&type=" + kind + "&regperiod=" + period + "&format=1"
  }

  const AllDomainsKey: string := "whmcs_all_domains"

  function AllDomainsUrl(base: string): string {
    base + "/feeds/domainpricing.php"
  }

  /** handle_domain_pricing(): tld, type and reg sanitized, every 'y' dropped from reg. */
  function DomainPricing(base: string, atts: map<string, string>, cache: map<string, string>,
                         feed: string -> Response, sanitize: string -> string): Served
    requires "tld" in atts && "type" in atts && "reg" in atts
  {
    var tld, kind, period := sanitize(atts["tld"]), sanitize(atts["type"]), StripYears(sanitize(atts["reg"]));
    CachedPage(cache, LegacyDomainKey(tld, kind, period), LegacyDomainUrl(base, tld, kind, period), feed)
  }

  /**
   * The legacy service and WHMCS_Price_API never share a domain entry: the
   * legacy key keeps the dot after "whmcs_domain_", the other strips it.
   */
  lemma DomainKeysApart(tld: string, kind: string, period: string, tld2: string, kind2: string, period2: string)
    ensures LegacyDomainKey(tld, kind, period) != DomainKey(tld2, kind2, period2)
  {
    var prefix := "whmcs_domain_";
    var bare := TrimLeftChar(tld2, '.');
    var legacy := LegacyDomainKey(tld, kind, period);
    var api := DomainKey(tld2, kind2, period2);
    assert legacy == prefix + ("." + tld + "_" + kind + "_" + period);
    assert api == prefix + (bare + "_" + kind2 + "_" + period2);
    assert legacy[|prefix|] == '.';
    if bare == [] {
      assert api[|prefix|] == '_';
    } else {
      assert api[|prefix|] == bare[0];
    }
  }

  /** Product entries, by contrast, are shared: the legacy key is WHMCS_Price_API's key. */
  lemma ProductKeysShared(pid: int, cycle: string, attr: string)
    ensures "whmcs_product_" + IntToString(pid) + "_" + cycle + "_" + attr == ProductKey(pid, cycle, attr)
  {
  }

  // ---------------------------------------------------------------------------
  // Dispatch
  // ---------------------------------------------------------------------------

  datatype Branch = ProductBranch | DomainBranch | AllDomainsBranch

  /** isset() of pid and bc first, then of tld, type and reg together, else the full list. */
  function Dispatch(atts: map<string, string>): (b: Branch)
    ensures b == ProductBranch <==> "pid" in atts && "bc" in atts
    ensures b == DomainBranch <==> !("pid" in atts && "bc" in atts) && "tld" in atts && "type" in atts && "reg" in atts
  {
    if "pid" in atts && "bc" in atts then ProductBranch
    else if "tld" in atts && "type" in atts && "reg" in atts then DomainBranch
    else AllDomainsBranch
  }

  /** array_map('sanitize_text_field', $atts). */
  function SanitizeAll(atts: map<string, string>, sanitize: string -> string): (r: map<string, string>)
    ensures r.Keys == atts.Keys
    ensures forall k :: k in atts ==> r[k] == sanitize(atts[k])
  {
    map k | k in atts :: sanitize(atts[k])
  }

  /** whmcs_func(): the page the shortcode serves, the cache after it and its requests. */
  function ShortcodePage(base: string, atts: map<string, string>, cache: map<string, string>,
                         feed: string -> Response, sanitize: string -> string, esc: string -> string): Served
  {
    var a := SanitizeAll(atts, sanitize);
    match Dispatch(a)
    case ProductBranch => ProductPricing(base, a, cache, feed, sanitize, esc)
    case DomainBranch => DomainPricing(base, a, cache, feed, sanitize)
    case AllDomainsBranch => CachedPage(cache, AllDomainsKey, AllDomainsUrl(base), feed)
  }

  lemma AppendAssoc(a: seq<string>, b: seq<string>, c: seq<string>)
    ensures (a + b) + c == a + (b + c)
  {
  }

  /** The shortcode's state: the transients and the configured URL. */
  class LegacyShortcode {
    var cache: map<string, string>
    var url: string
    ghost var Requests: seq<string>

    constructor (url: string, cache: map<string, string>)
      ensures this.url == url && this.cache == cache && Requests == []
    {
      this.url := url;
      this.cache := cache;
      Requests := [];
    }

    /** The loop of fetch_product_data(): returns early with the all-"NA" row on the first failure. */
    method FetchProductData(pid: int, cycle: string, show: seq<string>, feed: string -> Response,
                            sanitize: string -> string, esc: string -> string)
      returns (row: map<string, string>)
      modifies this`cache, this`Requests
      ensures var o := FetchRow(url, pid, cycle, show, old(cache), feed, sanitize, esc);
        row == o.row && cache == o.cache && Requests == old(Requests) + o.fetched
    {
      var base := url;
      ghost var start, log := cache, Requests;
      ghost var fetched: seq<string> := [];
      row := map[];
      var i := 0;
      while i < |show|
        invariant 0 <= i <= |show|
        invariant FetchRow(base, pid, cycle, show[..i], start, feed, sanitize, esc) == RowOutcome(row, cache, fetched, false)
        invariant Requests == log + fetched
      {
        var attribute := sanitize(show[i]);
        var key := ProductKey(pid, cycle, attribute);
        if key in cache {
          FetchHit(base, pid, cycle, show, i, start, feed, sanitize, esc);
          row := row[attribute := cache[key]];
        } else {
          var request := ProductUrl(base, pid, cycle, attribute);
          var amount := feed(request);
          Requests := Requests + [request];
          fetched := fetched + [request];
          if !Succeeded(amount) {
            FailureDiscardsRow(base, pid, cycle, show, i, start, feed, sanitize, esc);
            return AllNA;
          }
          FetchMiss(base, pid, cycle, show, i, start, feed, sanitize, esc);
          var body := RemoveAll(amount.body, WriteOpen);
          body := RemoveAll(body, WriteClose);
          cache := cache[key := esc(body)];
          row := row[attribute := esc(body)];
        }
        i := i + 1;
      }
      assert show[..i] == show;
    }

    /** handle_product_pricing() once the cycle code is known: one row per PID, intval() of each piece. */
    method ProductRows(pids: seq<string>, cycle: string, show: seq<string>, feed: string -> Response,
                       sanitize: string -> string, esc: string -> string)
      returns (rows: seq<Cells>)
      modifies this`cache, this`Requests
      ensures var s := TableRows(url, IntVals(pids), cycle, show, old(cache), feed, sanitize, esc);
        ProductTable(rows) == s.page && cache == s.cache && Requests == old(Requests) + s.fetched
    {
      rows := [];
      ghost var ids := IntVals(pids);
      var i := 0;
      while i < |pids|
        invariant 0 <= i <= |pids|
        invariant url == old(url)
        invariant var s := TableRows(url, ids[..i], cycle, show, old(cache), feed, sanitize, esc);
          ProductTable(rows) == s.page && cache == s.cache && Requests == old(Requests) + s.fetched
      {
        var pid := IntVal(pids[i]);
        ghost var before := TableRows(url, ids[..i], cycle, show, old(cache), feed, sanitize, esc);
        ghost var o := FetchRow(url, pid, cycle, show, before.cache, feed, sanitize, esc);
        assert ids[..i + 1][..i] == ids[..i] && Last(ids[..i + 1]) == pid;
        assert TableRows(url, ids[..i + 1], cycle, show, old(cache), feed, sanitize, esc) ==
          Served(ProductTable(before.page.rows + [CellsOf(o.row)]), o.cache, before.fetched + o.fetched);
        ghost var requested := Requests;
        var row := FetchProductData(pid, cycle, show, feed, sanitize, esc);
        assert Requests == requested + o.fetched && requested == old(Requests) + before.fetched;
        AppendAssoc(old(Requests), before.fetched, o.fetched);
        rows := rows + [CellsOf(row)];
        i := i + 1;
      }
      assert ids[..i] == ids;
    }

    method HandleProductPricing(atts: map<string, string>, feed: string -> Response,
                                sanitize: string -> string, esc: string -> string)
      returns (page: Page)
      requires "pid" in atts && "bc" in atts
      modifies this`cache, this`Requests
      ensures var s := ProductPricing(url, atts, old(cache), feed, sanitize, esc);
        page == s.page && cache == s.cache && Requests == old(Requests) + s.fetched
    {
      var pids := Split(atts["pid"], ',');
      var bc := sanitize(atts["bc"]);
      var show := if "show" in atts then Split(sanitize(atts["show"]), ',') else [];
      if bc !in CycleNames {
        return Plain(NA);
      }
      var rows := ProductRows(pids, CycleNames[bc], show, feed, sanitize, esc);
      page := ProductTable(rows);
    }

    /** The cache-then-fetch step of the two domain handlers. */
    method ServeCached(key: string, request: string, feed: string -> Response) returns (page: Page)
      modifies this`cache, this`Requests
      ensures var s := CachedPage(old(cache), key, request, feed);
        page == s.page && cache == s.cache && Requests == old(Requests) + s.fetched
    {
      if key in cache {
        return Plain(cache[key]);
      }
      var amount := feed(request);
      Requests := Requests + [request];
      if !Succeeded(amount) {
        return Plain(NA);
      }
      var output := UnwrapWrites(amount.body);
      var formatted := PriceDivOpen + output + PriceDivClose;
      cache := cache[key := formatted];
      page := Plain(formatted);
    }

    method HandleDomainPricing(atts: map<string, string>, feed: string -> Response, sanitize: string -> string)
      returns (page: Page)
      requires "tld" in atts && "type" in atts && "reg" in atts
      modifies this`cache, this`Requests
      ensures var s := DomainPricing(url, atts, old(cache), feed, sanitize);
        page == s.page && cache == s.cache && Requests == old(Requests) + s.fetched
    {
      var tld := "." + sanitize(atts["tld"]);
      var kind := sanitize(atts["type"]);
      var reg := sanitize(atts["reg"]);
      var period := RemoveChar(reg, 'y');
      var key := "whmcs_domain_" + tld + "_" + kind + "_" + period;
      assert key == LegacyDomainKey(sanitize(atts["tld"]), kind, period);
      var request := url + "/feeds/domainprice.php?tld=" + tld + "&type=" + kind + "&regperiod=" + period + "&format=1";
      assert request == LegacyDomainUrl(url, sanitize(atts["tld"]), kind, period);
      page := ServeCached(key, request, feed);
    }

    method HandleAllDomainPricing(feed: string -> Response) returns (page: Page)
      modifies this`cache, this`Requests
      ensures var s := CachedPage(old(cache), AllDomainsKey, AllDomainsUrl(url), feed);
        page == s.page && cache == s.cache && Requests == old(Requests) + s.fetched
    {
      page := ServeCached(AllDomainsKey, url + "/feeds/domainpricing.php", feed);
    }

    /** whmcs_func(): sanitize every attribute, then dispatch. */
    method WhmcsFunc(atts: map<string, string>, feed: string -> Response,
                     sanitize: string -> string, esc: string -> string)
      returns (page: Page)
      modifies this`cache, this`Requests
      ensures var s := ShortcodePage(url, atts, old(cache), feed, sanitize, esc);
        page == s.page && cache == s.cache && Requests == old(Requests) + s.fetched
    {
      var a := SanitizeAll(atts, sanitize);
      if "pid" in a && "bc" in a {
        page := HandleProductPricing(a, feed, sanitize, esc);
      } else if "tld" in a && "type" in a && "reg" in a {
        page := HandleDomainPricing(a, feed, sanitize);
      } else {
        page := HandleAllDomainPricing(feed);
      }
    }
  }

  /** A domain page that was served once is served again from the cache, unchanged, with no request. */
  lemma CachedPageRepeats(cache: map<string, string>, key: string, url: string,
                          feed: string -> Response, later: string -> Response)
    requires key in cache || Succeeded(feed(url))
    ensures var first := CachedPage(cache, key, url, feed);
      CachedPage(first.cache, key, url, later) == Served(first.page, first.cache, [])
  {
  }
}
