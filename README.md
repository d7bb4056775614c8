# whmcs-price, modelled in Dafny

WHMCS Price is a WordPress plugin. It shows product and domain prices from a
WHMCS installation on WordPress pages. The pages can use a `[whmcs]`
shortcode, two Gutenberg blocks or two Elementor widgets. The prices come
from the installation's JavaScript feeds (`feeds/productsinfo.php` and
`feeds/domainprice.php`). Every answer is cached as a WordPress transient.

This project models:

- `price_api.dfy` (`PriceApi`): the data service `WHMCS_Price_API`. It checks
  the cache, builds the feed URL, fetches on a miss, and treats a failure as
  `"NA"` without writing to the cache. It also cleans the `document.write('…');`
  wrapper off the body. The service is a class whose cache changes in place.
  Its methods are proved against the specification function `FetchOrCache`.
- `legacy_shortcode.dfy` (`Legacy`): the older shortcode file
  `includes/short_code/short_code.php`. It keeps its own cache-or-fetch loop
  per product attribute and answers an all-`"NA"` row on the first failure.
  It also serves wrapped domain and all-domain pages.
- `call_plan.dfy` (`CallPlan`): the calls to the data service that one
  rendering of a front end makes, in order:
  - `get_product_data`, `get_domain_price` and `get_all_domain_prices`;
  - the normalisation the front ends share: cycle codes, allow-lists,
    `array_filter`, `intval`, and the pid-major product grid.
- `shortcode.dfy` (`Shortcode`): the shortcode `includes/shortcode/shortcode.php`.
- `product_block.dfy` (`ProductBlock`) and `domain_block.dfy` (`DomainBlock`):
  the two block render templates.
- `product_widget.dfy` (`ProductWidget`) and `domain_widget.dfy` (`DomainWidget`):
  the two Elementor widgets.
- `formatting.dfy` (`Formatting`): `whmcs_parse_price_to_float`. It reads a
  price string with either decimal convention.
- `options.dfy` (`Options`): the WordPress options table, covering:
  - SQL `LIKE`, with its `_` and `%` wildcards and backslash escape;
  - `wpdb::esc_like()`;
  - the deletions made by `delete_option()` and `delete_transient()`.
- `settings.dfy` (`Settings`): the settings page's option sanitiser, its
  invalid-URL notice and the "clear cache" action.
- `uninstall.dfy` (`Uninstall`): the uninstall script.
- `strings.dfy` (`Strings`): the PHP string primitives the code uses:
  - `empty()`, `trim`, `ltrim`;
  - `str_replace` and `preg_replace` of a literal;
  - `explode`, `intval`, `strtolower` and `ucfirst`.

The WHMCS feed is a parameter `feed: string -> Response` that maps the request
URL to a transport error or to an HTTP status and body. The service classes
keep a ghost log `Requests` of the URLs they fetched. The following WordPress
helpers are uninterpreted function parameters:

- `sanitize_text_field`;
- `esc_html`;
- the URL validation `filter_var(…, FILTER_VALIDATE_URL)`.

The cache has no locking, one fixed lifetime (3600 seconds) and plain, unhashed
string keys, and the model has the same. The front
ends call `WHMCS_Price_API::get_all_domain_prices()`, but
`includes/class-whmcs-api.php` does not define it. The model therefore records
that call (`AllDomainsCall`) and does not model what it returns.
`includes/formatting.php` is marked in its header as not in use; its parser
is modelled all the same.

## Model

| member | source | states |
|---|---|---|
| PriceApi.CleanResponseUnwraps | includes/class-whmcs-api.php:24-28 | a payload wrapped in `document.write('…');` comes back unwrapped and trimmed, provided it holds no `');` and no `document.write('` (quotes and parentheses of its own are allowed) |
| PriceApi.CleanResponsePlain | includes/class-whmcs-api.php:24-28 | a body with neither marker is only trimmed |
| PriceApi.CleanResponseExample | includes/class-whmcs-api.php:24-28 | the feed answer `document.write('9.99');` cleans to `9.99` |
| PriceApi.CleanResponseQuotedName | includes/class-whmcs-api.php:24-28 | a product name with an apostrophe and parentheses, `Joe's (Pro)`, survives the cleaning whole |
| PriceApi.ProductKeyAttributeDistinct | includes/class-whmcs-api.php:37 | two product lookups that differ in the attribute use different cache entries |
| PriceApi.ProductKeyInjective | includes/class-whmcs-api.php:37 | with underscore-free cycle names, the product key determines the pid, the cycle and the attribute |
| PriceApi.DomainKeyIgnoresLeadingDot | includes/class-whmcs-api.php:61-66 | `.com` and `com` share one cache key and one feed URL |
| PriceApi.DomainKeyCollision | includes/class-whmcs-api.php:62 | field values with underscores can make two different domain lookups share a cache key |
| PriceApi.FetchOrCache | includes/class-whmcs-api.php:33-52 | without a URL, `NA` and nothing touched; a request only on a miss; only the key's entry can change, and only to the cleaned body of a status-200 answer; the value returned is what is cached, or `NA` |
| PriceApi.FailureCachesNothing | includes/class-whmcs-api.php:44-46 | a failed fetch answers `NA` and leaves the cache as it was |
| PriceApi.SuccessCachesCleanBody | includes/class-whmcs-api.php:48-51 | a status-200 answer is cleaned, cached under the key and returned |
| PriceApi.RepeatedLookupHits | includes/class-whmcs-api.php:38-39 | after a lookup that did not fail, the same lookup returns the same value from the cache without a request, whatever the feed answers now |
| PriceApi.WhmcsPriceApi.constructor | includes/class-whmcs-api.php:16-19 | the service starts with the configured URL, the given cache and no requests |
| PriceApi.WhmcsPriceApi.GetProductData | includes/class-whmcs-api.php:33-52 | the value, the new cache and the requests are those of `FetchOrCache` with the product key and the productsinfo URL |
| PriceApi.WhmcsPriceApi.GetDomainPrice | includes/class-whmcs-api.php:57-77 | the value, the new cache and the requests are those of `FetchOrCache` with the domain key and the domainprice URL, the leading dots trimmed from the TLD |
| Formatting.KeepPriceChars | includes/formatting.php:53-54 | only decimal digits of any script (Unicode category Nd, as `\d` under the `u` flag), `.`, `,` and `-` remain |
| Formatting.OtherDigitRejected | includes/formatting.php:53-108 | a decimal digit outside ASCII survives the filter, and then `is_numeric` rejects the string: null |
| Formatting.ParseArabicIndicRejected | includes/formatting.php:53-108 | `1٠` (with ARABIC-INDIC DIGIT ZERO) keeps both characters and parses to null |
| Formatting.NumericChars | includes/formatting.php:108 | a numeric string holds only ASCII digits, `.`, `-` and `+` |
| Formatting.NormaliseKeeps | includes/formatting.php:62-105 | the separator handling keeps every character other than `.` and `,` and adds none |
| Formatting.LastIndexOf | includes/formatting.php:62-73 | the index of the last occurrence of the character, or -1 when there is none |
| Formatting.ParsePrice | includes/formatting.php:43-109 | a result is numeric (hence ASCII only) and has no comma; an empty or blank input gives null |
| Formatting.ParsePriceMeaning | includes/formatting.php:43-109 | a parsed price keeps every digit of the raw input in order, and its decimal point stands where the last separator stood |
| Formatting.NormaliseShape | includes/formatting.php:62-105 | before the decimal point every separator is dropped and after it everything is kept; without a point every separator is dropped |
| Formatting.BothSeparatorsGiveDecimal | includes/formatting.php:62-73 | with both a dot and a comma, the normalised string always keeps a decimal point |
| Formatting.ParsePriceFilters | includes/formatting.php:53-54 | the result depends only on the price characters of the input |
| Formatting.ParsePriceIgnoresLabel | includes/formatting.php:53-54 | a currency label after the amount is ignored |
| Formatting.ParseDecimalComma | includes/formatting.php:76-90 | `959,00`: one comma followed by exactly two digits is a decimal comma |
| Formatting.ParseThousandsComma | includes/formatting.php:76-90 | one comma followed by other than two digits is a thousands separator |
| Formatting.ParseDecimalDot | includes/formatting.php:93-105 | `1499.00`: one dot followed by exactly two digits stays the decimal point |
| Formatting.ParseThousandsDot | includes/formatting.php:93-105 | one dot followed by other than two digits is a thousands separator |
| Formatting.ParseInteger | includes/formatting.php:108 | digits alone parse as themselves |
| Formatting.ParseDotThenComma | includes/formatting.php:62-73 | `1.499,00` parses as `1499.00` |
| Formatting.ParseCommaThenDot | includes/formatting.php:62-73 | `1,499.00` parses as `1499.00` |
| Formatting.ParseTwoDotsRejected | includes/formatting.php:93-108 | two dots with two digits after the last one are not numeric: null |
| CallPlan.TextAttr | blocks/whmcs-price-product/render.php:21-24 | a missing or empty attribute gives the default; a non-empty text gives its sanitized value |
| CallPlan.CycleNameTable | includes/shortcode/shortcode.php:54-59 | the six codes 1m to 3y map to monthly … triennially, and everything else goes to the fallback |
| CallPlan.AllowOr | includes/elementor/widgets/domain-price-widget.php:166-174 | a value in the allow-list is kept, any other is replaced by the fallback |
| CallPlan.IntVals | includes/shortcode/shortcode.php:88 | the list of `intval()` values, position by position |
| CallPlan.Positive | includes/elementor/widgets/product-price-widget.php:161-164 | exactly the ids above zero remain |
| CallPlan.Allowed | includes/elementor/widgets/product-price-widget.php:182-185 | exactly the columns from the allow-list remain |
| CallPlan.ProductRow | includes/shortcode/shortcode.php:85-92 | one product call per column, in column order |
| CallPlan.GridAt | includes/shortcode/shortcode.php:85-92 | a grid of p pids and c columns has p·c calls, and call i·c+j asks for pid i and column j |
| CallPlan.ColumnsGridAt | includes/shortcode/shortcode.php:85-92 | as GridAt, with each column passed through the sanitizer |
| CallPlan.MappedGridAt | includes/shortcode/shortcode.php:85-92 | as GridAt, with each pid passed through `intval()` and each column through the sanitizer |
| CallPlan.EmitProductGrid | includes/shortcode/shortcode.php:85-92 | the nested loops over pids and columns make exactly the calls of the pid-major grid |
| CallPlan.EmitTypeCalls | includes/elementor/widgets/domain-price-widget.php:193-218 | the loop over types makes one domain call each for register, renew and transfer, in that order |
| CallPlan.EmittedTypeCalls | includes/elementor/widgets/domain-price-widget.php:193-218 | those calls are the three-type plan |
| CallPlan.StripYears | includes/elementor/widgets/domain-price-widget.php:161 | no `y` is left, and nothing new is added |
| CallPlan.PeriodStripsYears | blocks/whmcs-price-domain/render.php:20 | `2y` asks for period `2`, and a period without `y` is kept |
| CallPlan.HeaderLabelCases | includes/shortcode/shortcode.php:67-81 | "name", "description" and "price", in any case and with surrounding spaces, get their fixed labels; any other column is shown as given with its first letter upper-cased |
| CallPlan.EmitHeaders | includes/shortcode/shortcode.php:78-81 | one header label per column, in column order |
| Shortcode.ShortcodeAtts | includes/shortcode/shortcode.php:38-45 | each of pid, bc, show, tld, type and reg is kept when given; a missing show lists name, description and price, and every other missing attribute is empty |
| Shortcode.RegPeriod | includes/shortcode/shortcode.php:102-103 | the digits of reg, or `1` when it has none; the result is always a non-empty string of digits |
| Shortcode.WhmcsFunc | includes/shortcode/shortcode.php:34-114 | the calls are the shortcode's plan; the header row has one label per column, only for the product table |
| Shortcode.ProductsIff | includes/shortcode/shortcode.php:52 | there is always a call, and the first one is a product call exactly when pid and bc are both non-empty |
| Shortcode.ProductCallAt | includes/shortcode/shortcode.php:59-92 | one `get_product_data` per (pid, column), pid-major, with `intval(pid)`, the mapped cycle (monthly for an unknown code) and the sanitized column |
| Shortcode.ProductsTakePrecedence | includes/shortcode/shortcode.php:52-95 | with pid and bc, any tld is ignored and every call is a product call |
| Shortcode.DomainBranch | includes/shortcode/shortcode.php:101-110 | without a product table, a non-empty tld makes one `get_domain_price` with a digits-only period |
| Shortcode.AllDomainsBranch | includes/shortcode/shortcode.php:112-113 | without either, only the full domain list is requested |
| Shortcode.RegPeriodOfYears | includes/shortcode/shortcode.php:102-103 | `2y` gives `2`, and a digit string is kept as it is |
| ProductWidget.WidgetPids | includes/elementor/widgets/product-price-widget.php:161-164 | every pid asked for is positive |
| ProductWidget.Render | includes/elementor/widgets/product-price-widget.php:115-136 | the rendering is the widget's view: nothing without product ids, otherwise the displayed products |
| ProductWidget.RenderProductPricing | includes/elementor/widgets/product-price-widget.php:145-235 | the wrapper keeps the given style, the layout is the allow-listed style, and the loops make the grid's calls |
| ProductWidget.EmptyIdsNoCalls | includes/elementor/widgets/product-price-widget.php:118-124 | nothing is rendered and nothing is requested exactly when product_ids is empty |
| ProductWidget.WidgetCallAt | includes/elementor/widgets/product-price-widget.php:191-232 | one `get_product_data` per (positive pid, allowed column), pid-major, with the mapped cycle |
| ProductWidget.CallsIgnoreStyle | includes/elementor/widgets/product-price-widget.php:189-232 | the display style changes the layout and the wrapper, never the calls |
| ProductWidget.StyleFallback | includes/elementor/widgets/product-price-widget.php:172-178 | an unknown style is laid out as a table, but the wrapper class still carries the given style |
| ProductWidget.WidgetCycleFallback | includes/elementor/widgets/product-price-widget.php:160 | the cycle codes map as the table says, and an unknown code gives annually |
| ProductWidget.DefaultColumnsShown | includes/elementor/widgets/product-price-widget.php:129-132 | with no column selected, name and price are shown, in that order |
| ProductWidget.WidgetPidsOrder | includes/elementor/widgets/product-price-widget.php:161-164 | exactly the pieces whose `intval()` is positive are asked for, in their original order |
| DomainWidget.WidgetAttributes | includes/elementor/widgets/domain-price-widget.php:134-145 | all types are shown exactly when show_all_types is the string `yes` |
| DomainWidget.Render | includes/elementor/widgets/domain-price-widget.php:134-145 | the rendering is the view of the attributes built from the settings |
| DomainWidget.RenderDomainPricing | includes/elementor/widgets/domain-price-widget.php:154-247 | the rendering is the view the attributes determine |
| DomainWidget.EmptyTldListsAll | includes/elementor/widgets/domain-price-widget.php:178-181 | the full list is the only call exactly when the tld is empty |
| DomainWidget.ShowAllThreeTypes | includes/elementor/widgets/domain-price-widget.php:183-218 | with a tld and show-all: register, renew and transfer, in that order, with one tld and one period |
| DomainWidget.SingleTypeAllowListed | includes/elementor/widgets/domain-price-widget.php:171-174 | otherwise exactly one call, whose type is the given one when allowed and register when not |
| DomainWidget.StyleFallback | includes/elementor/widgets/domain-price-widget.php:162-168 | an unknown style is laid out as a table, but the wrapper keeps the given style |
| ProductBlock.BlockColumns | blocks/whmcs-price-product/render.php:23 | the columns as given, or name and price by default |
| ProductBlock.BlockPids | blocks/whmcs-price-product/render.php:46 | every comma-separated piece, trimmed, and none dropped |
| ProductBlock.Render | blocks/whmcs-price-product/render.php:21-123 | the rendering is the block's view |
| ProductBlock.EmptyPidNoCalls | blocks/whmcs-price-product/render.php:28-33 | nothing is rendered exactly when the pid is empty |
| ProductBlock.BlockDefaults | blocks/whmcs-price-product/render.php:21-24 | the defaults are annually, name and price, and table |
| ProductBlock.ColumnsDefault | blocks/whmcs-price-product/render.php:23 | an empty list, or a value that is not a list, gives name and price |
| ProductBlock.UnknownCycle | blocks/whmcs-price-product/render.php:36-45 | an unknown cycle code asks for annually |
| ProductBlock.UnknownStyleNoCalls | blocks/whmcs-price-product/render.php:60-123 | a style other than table, cards and grid makes no call |
| ProductBlock.BlockCallAt | blocks/whmcs-price-product/render.php:46-123 | in every known style there are pieces × columns calls, and call i·c+j asks for `intval()` of the i-th trimmed piece, the mapped cycle and the j-th column sanitized; no piece and no column is dropped |
| ProductBlock.ZeroPidAsked | blocks/whmcs-price-product/render.php:46-74 | a pid of 0 is still requested |
| DomainBlock.BlockAttributes | blocks/whmcs-price-domain/render.php:13-17 | the defaults are register, 1y and table; show-all holds only for the boolean true |
| DomainBlock.Render | blocks/whmcs-price-domain/render.php:13-108 | the rendering is the layout and the calls the attributes determine |
| DomainBlock.EmptyTldListsAll | blocks/whmcs-price-domain/render.php:26-33 | the full list is the only call exactly when the tld is empty |
| DomainBlock.ShowAllThreeTypes | blocks/whmcs-price-domain/render.php:35-80 | register, renew and transfer, in that order; any style other than table and badge is laid out inline |
| DomainBlock.SingleTypePassedThrough | blocks/whmcs-price-domain/render.php:82-108 | otherwise one call, with the type passed through as given: there is no allow-list |
| DomainBlock.ShowAllNeedsTrue | blocks/whmcs-price-domain/render.php:16 | show-all given as a string is not the boolean true |
| Legacy.FetchRow | includes/short_code/short_code.php:111-136 | a failed row is all `NA`; entries already cached are never changed; at most one request per attribute |
| Legacy.FailedStays | includes/short_code/short_code.php:124-126 | once an attribute has failed, the attributes after it change nothing |
| Legacy.FailureDiscardsRow | includes/short_code/short_code.php:124-126 | a failing miss gives an all-`NA` row, drops the attributes gathered before it, caches nothing for its key and makes exactly that one more request |
| Legacy.AllCachedNoFetch | includes/short_code/short_code.php:116-120 | when every attribute is cached, the row comes from the cache with no request and the cache unchanged |
| Legacy.CellsOf | includes/short_code/short_code.php:91-93 | a missing attribute shows `N/A` |
| Legacy.FailedRowCells | includes/short_code/short_code.php:91-125 | a failed row shows `NA` in all three cells |
| Legacy.TableRows | includes/short_code/short_code.php:87-95 | one row per pid, and entries already cached are never changed |
| Legacy.UnknownCycleAnswersNA | includes/short_code/short_code.php:66-77 | the answer is `NA` with no cache read and no request exactly when the cycle code is unknown |
| Legacy.NoShowNoFetch | includes/short_code/short_code.php:64 | without a show attribute nothing is requested and every cell is `N/A` |
| Legacy.CloseAt | includes/short_code/short_code.php:164-191 | the first `');` reached without crossing a newline |
| Legacy.CloseAtPayload | includes/short_code/short_code.php:164-191 | a payload with no quote and no newline is found up to the closing marker |
| Legacy.UnwrapsPayload | includes/short_code/short_code.php:164-191 | the lazy regex returns a wrapped payload with no quote and no newline as it is |
| Legacy.UnwrapPlain | includes/short_code/short_code.php:164-191 | text with no opening marker is left as it is |
| Legacy.CachedPage | includes/short_code/short_code.php:152-167 | a hit serves the cached page; a failed miss serves `NA` and caches nothing; a successful miss caches and serves the wrapped, unwrapped body |
| Legacy.DomainKeysApart | includes/short_code/short_code.php:147-152 | the legacy domain key, which keeps the dot, never equals a `WHMCS_Price_API` domain key |
| Legacy.ProductKeysShared | includes/short_code/short_code.php:115 | the legacy product key is the data service's product key |
| Legacy.Dispatch | includes/short_code/short_code.php:44-50 | products exactly when pid and bc are set; a single domain exactly when they are not, and tld, type and reg are |
| Legacy.SanitizeAll | includes/short_code/short_code.php:38 | the same keys, each value sanitized |
| Legacy.CachedPageRepeats | includes/short_code/short_code.php:153-156 | a page served once is served again from the cache, unchanged, with no request |
| Legacy.LegacyShortcode.constructor | includes/short_code/short_code.php:21-25 | the shortcode starts with the configured URL, the given cache and no requests |
| Legacy.LegacyShortcode.FetchProductData | includes/short_code/short_code.php:111-136 | the loop returns `FetchRow`'s row and leaves its cache and requests |
| Legacy.LegacyShortcode.ProductRows | includes/short_code/short_code.php:87-95 | the loop over pids gives `TableRows`'s page, cache and requests |
| Legacy.LegacyShortcode.HandleProductPricing | includes/short_code/short_code.php:61-99 | the page, cache and requests are those of `ProductPricing` |
| Legacy.LegacyShortcode.ServeCached | includes/short_code/short_code.php:152-167 | the page, cache and requests are those of `CachedPage` |
| Legacy.LegacyShortcode.HandleDomainPricing | includes/short_code/short_code.php:146-169 | the page, cache and requests are those of `DomainPricing` |
| Legacy.LegacyShortcode.HandleAllDomainPricing | includes/short_code/short_code.php:178-196 | the page, cache and requests are those of `CachedPage` for the all-domains key and URL |
| Legacy.LegacyShortcode.WhmcsFunc | includes/short_code/short_code.php:33-51 | the page, cache and requests are those of `ShortcodePage` |
| Options.Tokens | includes/settings.php:212-213 | the pattern never has more tokens than characters |
| Options.EscLike | uninstall.php:32-37 | the escaped pattern is at least as long as the text |
| Options.EscapedPrefix | uninstall.php:32-37 | `LIKE esc_like(lit) . '%'` holds exactly for the names that start with `lit` |
| Options.LoosePrefix | includes/settings.php:212-213 | `LIKE p . '%'` with unescaped underscores holds exactly for the names that match `p` at every non-`_` position |
| Options.RowsNotLike | includes/settings.php:212-213 | the rows left are exactly the rows that do not match, with their values |
| Options.WithoutTransients | uninstall.php:40-42 | the rows left are exactly the rows that are neither the value row of one of the keys nor the timeout row of a key whose value row exists, with their values |
| Options.TimeoutKeptWithoutValue | uninstall.php:40-42 | a timeout row whose value row is missing survives `delete_transient()`, with its value |
| Options.InTurnIsSetwise | uninstall.php:40-42 | for keys that are not themselves timeout keys, deleting their transients one after another, in any order and with repeats, leaves the same rows as deleting them as a set |
| Options.TransientNames | uninstall.php:40-42 | a row is a key's value or timeout row exactly when its name is the prefix followed by that key |
| Options.OptionsTable.DeleteOption | uninstall.php:20 | exactly the named row is removed; the answer is true exactly when the row was there |
| Options.OptionsTable.DeleteWhereLike | includes/settings.php:212-213 | the table becomes the rows that do not match the pattern |
| Options.OptionsTable.DeleteTransient | uninstall.php:40-42 | when the key's value row exists, it and the timeout row are removed and the answer is true; otherwise nothing changes and the answer is false |
| Options.OptionsTable.DeleteTransients | uninstall.php:40-42 | the loop leaves the rows of one `delete_transient()` per key, in the given order |
| Settings.Sanitize | includes/settings.php:122-129 | only the URL is kept, and only when it is not empty; its value is sanitized |
| Settings.UrlNoticeCases | includes/settings.php:144-148 | no stored URL, `""`, `"0"` or a valid URL gets no notice; any other stored URL gets it |
| Settings.NoticeIffNotLoaded | includes/settings.php:146 | the page warns exactly about a non-empty URL with which the legacy shortcode file (short_code.php:25) defines nothing |
| Settings.ClearWhmcsCache | includes/settings.php:207-214 | the table becomes the rows both DELETE statements leave |
| Settings.ClearedExactly | includes/settings.php:212-213 | a row survives exactly when it matches neither pattern, with `_` as a wildcard, and it keeps its value |
| Settings.ClearsCacheEntries | includes/settings.php:212-213 | every entry whose key starts with `whmcs_` is cleared, value and timeout |
| Settings.ProductKeyCleared | includes/settings.php:212-213 | every product entry of the data service is cleared |
| Settings.DomainKeyCleared | includes/settings.php:212-213 | every domain entry of the data service is cleared |
| Settings.LookalikeCleared | includes/settings.php:212-213 | because `_` matches any character, any option whose name is `-transient-whmcs-` followed by anything (such as `-transient-whmcs-settings`, which is not a transient) is deleted too |
| Settings.ClearIdempotent | includes/settings.php:207-214 | a second clear removes nothing more |
| Uninstall.Uninstall | uninstall.php:20-42 | the table becomes the rows left by delete_option, the SELECT and delete_transient for each key in turn |
| Uninstall.SelectKeys | uninstall.php:32-37 | one key per selected name, the prefix replaced, and together exactly the selected keys |
| Uninstall.SelectedKeyShape | uninstall.php:32-37 | every selected key starts with `w`, so none is itself a timeout key |
| Uninstall.MissedTimeoutKept | uninstall.php:34-42 | as written, the row `_transient_whmcs_transient_` + x and the timeout row `_transient_timeout_whmcs` + x both survive |
| Uninstall.SelectedByPrefix | uninstall.php:32-37 | the escaped pattern selects exactly the names starting with `_transient_whmcs_` |
| Uninstall.TimeoutIsTransient | uninstall.php:32-37 | every timeout row name is also a transient row name |
| Uninstall.OptionDeletedOthersKept | uninstall.php:20-42 | the plugin option is gone, and every row that is not a transient stays with its value |
| Uninstall.ReplaceAllMisses | uninstall.php:34 | as written, for any x without underscores, the row `_transient_whmcs_transient_` + x survives and the unrelated row `_transient_whmcs` + x is deleted |
| Uninstall.IntendedUninstallClears | uninstall.php:20-42 | with the prefix stripped once, the option and every plugin row with its timeout row are gone; every other row outside `_transient_timeout_whmcs_…` stays with its value |
| Uninstall.WrittenMatchesIntended | uninstall.php:34 | when no name repeats `_transient_` after its prefix, the script as written does what was intended |

## Left out

- HTTP (`wp_remote_get`, timeouts, headers) is the `feed` parameter; only its status code and body are modelled.
- `sanitize_text_field`, `esc_html`, `esc_attr`, `wp_kses_post` and `filter_var(…, FILTER_VALIDATE_URL)` are uninterpreted parameters, and `esc_url_raw` in `get_url()` is taken as already applied to the stored URL.
- Markup is not modelled: the front ends are modelled by the calls they make and the style they choose, apart from the header labels of the shortcode (`CallPlan.HeaderLabelCases`).
- Translations are not modelled: `__()` is taken as the identity for the shortcode's header labels (`CallPlan.HeaderLabels`), and the header-label tables of the blocks and widgets, which translate fixed column names, are left out.
- The transient lifetime (3600 seconds) is a constant only. Expiry over time and the object cache are not modelled, and `delete_transient()` is modelled without its hooks: it deletes the timeout row only when deleting the value row succeeded, as core WordPress does.
- Concurrency between page loads and requests is not modelled.
- `CallPlan.IntVals`: `intval()` is modelled on leading space, sign and digits, without the exponent form and without saturation at the platform integer width.
- `Options.Tokens`: `LIKE` is modelled case-sensitively and without the table collation.
- `Uninstall.Uninstall`: the order in which the SELECT returns its names is chosen arbitrarily; `Options.InTurnIsSetwise` shows that neither the order nor a repeated key changes the result.
- `Formatting.KeepPriceChars`: the decimal digits are those of Unicode 15.0; a PCRE2 built against another Unicode version may class a few recent digits differently.
- `Formatting.ParsePrice`: it stops before the final `(float)` cast and returns the numeric string. The `is_int`/`is_float` early return is left out, because the model only takes strings.
- `whmcs_format_price_sv_kr` in `includes/formatting.php` is presentation only and is left out.
- `CallPlan.AttrText`: block attributes are modelled as text, a boolean or a list of strings; numeric attributes and the editor's JSON casting are not modelled.
- `Legacy.Dispatch`: the attributes are always a map. A shortcode without attributes, for which WordPress passes an empty string to `array_map`, is not modelled.
- The REST endpoint placeholder, the admin bar, the hook and textdomain registration, the Elementor and block registration code, and the editor scripts (`edit.js`, `index.js`) are left out: they register the code above but compute nothing of their own.
- The return value of `get_all_domain_prices()` is left out, because that method is not defined in the data service.

## Findings

| source | as written | input that shows it | evidently intended | confidence | as-written member | corrected member |
|---|---|---|---|---|---|---|
| uninstall.php:34 | `REPLACE(option_name, '_transient_', '')` removes every `_transient_` in the name, not only the prefix | rows `_transient_whmcs_transient_x` and `_transient_whmcsx` (any x without underscores in place of `x`): the selected row survives, and the unselected `_transient_whmcsx` is deleted | strip the `_transient_` prefix once, so that every selected row and its timeout row are deleted and nothing else | not executed | Uninstall.ReplaceAllMisses | Uninstall.IntendedUninstallClears |
