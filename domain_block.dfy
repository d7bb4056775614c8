/**
 * The domain price block's server-side render
 * (blocks/whmcs-price-domain/render.php): attribute defaults, the period with
 * its 'y's removed, and the dispatch between the full domain list, the
 * three transaction types and one price.
 */
module DomainBlock {
  import opened Strings
  import opened CallPlan

  /** The markup a rendering chooses, and its calls. */
  datatype View = View(style: string, layout: Layout, calls: seq<ApiCall>)

  datatype Layout = AllTlds | TypesTable | TypesBadges | TypesInline | SingleBadge | SingleInline | SinglePrice

  /** The attributes after their defaults. */
  datatype Attributes = Attributes(tld: string, kind: string, regPeriod: string, showAll: bool, style: string)

  /** Defaults register, 1y and table; showAll only for the boolean true. */
  function BlockAttributes(attrs: map<string, Attr>, sanitize: string -> string): (a: Attributes)
    ensures a.showAll <==> "showAll" in attrs && attrs["showAll"] == Flag(true)
    ensures ("transactionType" !in attrs || AttrEmpty(attrs["transactionType"])) ==> a.kind == "register"
    ensures ("regPeriod" !in attrs || AttrEmpty(attrs["regPeriod"])) ==> a.regPeriod == "1y"
    ensures ("displayStyle" !in attrs || AttrEmpty(attrs["displayStyle"])) ==> a.style == "table"
  {
    Attributes(TextAttr(attrs, "tld", "", sanitize),
               TextAttr(attrs, "transactionType", "register", sanitize),
               TextAttr(attrs, "regPeriod", "1y", sanitize),
               "showAll" in attrs && !AttrEmpty(attrs["showAll"]) && attrs["showAll"] == Flag(true),
               TextAttr(attrs, "displayStyle", "table", sanitize))
  }

  function BlockCalls(a: Attributes): seq<ApiCall> {
    if PhpEmpty(a.tld) then [AllDomainsCall]
    else if a.showAll then TypeCalls(a.tld, StripYears(a.regPeriod))
    else [DomainCall(a.tld, a.kind, StripYears(a.regPeriod))]
  }

  function BlockLayout(a: Attributes): Layout {
    if PhpEmpty(a.tld) then AllTlds
    else if a.showAll then
      (if a.style == "table" then TypesTable else if a.style == "badge" then TypesBadges else TypesInline)
    else
      (if a.style == "badge" then SingleBadge else if a.style == "inline" then SingleInline else SinglePrice)
  }

  method Render(attrs: map<string, Attr>, sanitize: string -> string) returns (v: View)
    ensures v == View(BlockAttributes(attrs, sanitize).style, BlockLayout(BlockAttributes(attrs, sanitize)),
                      BlockCalls(BlockAttributes(attrs, sanitize)))
  {
    var a := BlockAttributes(attrs, sanitize);
    var period := RemoveChar(a.regPeriod, 'y');
    var layout: Layout;
    var calls: seq<ApiCall>;
    if PhpEmpty(a.tld) {
      layout, calls := AllTlds, [AllDomainsCall];
    } else if a.showAll {
      if a.style == "table" {
        layout := TypesTable;
      } else if a.style == "badge" {
        layout := TypesBadges;
      } else {
        layout := TypesInline;
      }
      calls := EmitTypeCalls(a.tld, period);
      EmittedTypeCalls(calls, a.tld, period);
    } else {
      if a.style == "badge" {
        layout := SingleBadge;
      } else if a.style == "inline" {
        layout := SingleInline;
      } else {
        layout := SinglePrice;
      }
      calls := [DomainCall(a.tld, a.kind, period)];
    }
    v := View(a.style, layout, calls);
  }

  /** An empty TLD makes only the get_all_domain_prices call. */
  lemma EmptyTldListsAll(a: Attributes)
    ensures PhpEmpty(a.tld) <==> BlockCalls(a) == [AllDomainsCall]
  {
  }

  /** With showAll: register, renew, transfer in that order; any style but table and badge is inline. */
  lemma ShowAllThreeTypes(a: Attributes)
    requires !PhpEmpty(a.tld) && a.showAll
    ensures |BlockCalls(a)| == 3
    ensures forall i :: 0 <= i < 3 ==> BlockCalls(a)[i] == DomainCall(a.tld, DomainTypes[i], StripYears(a.regPeriod))
    ensures a.style != "table" && a.style != "badge" ==> BlockLayout(a) == TypesInline
  {
  }

  /** Otherwise exactly one call, with the type passed through as given: there is no allow-list. */
  lemma SingleTypePassedThrough(a: Attributes)
    requires !PhpEmpty(a.tld) && !a.showAll
    ensures BlockCalls(a) == [DomainCall(a.tld, a.kind, StripYears(a.regPeriod))]
  {
  }

  /** showAll given as the string "1" or "true" is not the boolean true: a single price is shown. */
  lemma ShowAllNeedsTrue(attrs: map<string, Attr>, sanitize: string -> string, s: string)
    requires "showAll" in attrs && attrs["showAll"] == Text(s)
    ensures !BlockAttributes(attrs, sanitize).showAll
  {
  }
}
