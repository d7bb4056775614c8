/**
 * The Elementor domain price widget
 * (includes/elementor/widgets/domain-price-widget.php): its settings are
 * sanitized and allow-listed, and the widget then asks for the full domain
 * list, the three transaction types of one TLD, or one price.
 */
module DomainWidget {
  import opened Strings
  import opened CallPlan

  /** What one rendering shows: its wrapper style, its layout, whether all types are shown, and its calls. */
  datatype View = View(wrapperStyle: string, layout: string, showAll: bool, calls: seq<ApiCall>)

  const WidgetStyles: seq<string> := ["table", "badge", "inline"]

  /** The attributes render() builds from the widget settings. */
  datatype Attributes = Attributes(tld: string, kind: string, regPeriod: string, showAll: bool, style: string)

  /** render(): `??` defaults, sanitize, and show_all_types compared strictly with 'yes'. */
  function WidgetAttributes(settings: map<string, string>, sanitize: string -> string): (a: Attributes)
    ensures a.showAll <==> "show_all_types" in settings && settings["show_all_types"] == "yes"
  {
    Attributes(sanitize(Setting(settings, "tld", "")),
               sanitize(Setting(settings, "transaction_type", "register")),
               sanitize(Setting(settings, "reg_period", "1y")),
               "show_all_types" in settings && settings["show_all_types"] == "yes",
               sanitize(Setting(settings, "display_style", "table")))
  }

  /** The calls of render_domain_pricing(). */
  function DomainCalls(a: Attributes): seq<ApiCall> {
    if PhpEmpty(a.tld) then [AllDomainsCall]
    else if a.showAll then TypeCalls(a.tld, StripYears(a.regPeriod))
    else [DomainCall(a.tld, AllowOr(a.kind, DomainTypes, "register"), StripYears(a.regPeriod))]
  }

  function DomainView(a: Attributes): View {
    View(a.style, AllowOr(a.style, WidgetStyles, "table"), a.showAll, DomainCalls(a))
  }

  method Render(settings: map<string, string>, sanitize: string -> string) returns (v: View)
    ensures v == DomainView(WidgetAttributes(settings, sanitize))
  {
    v := RenderDomainPricing(WidgetAttributes(settings, sanitize));
  }

  /** render_domain_pricing(): strip the period, allow-list style and type, then dispatch. */
  method RenderDomainPricing(a: Attributes) returns (v: View)
    ensures v == DomainView(a)
  {
    var period := RemoveChar(a.regPeriod, 'y');
    var style := a.style;
    if style !in WidgetStyles {
      style := "table";
    }
    var kind := a.kind;
    if kind !in DomainTypes {
      kind := "register";
    }
    var calls: seq<ApiCall>;
    if PhpEmpty(a.tld) {
      calls := [AllDomainsCall];
    } else if a.showAll {
      // The table, badge and inline layouts differ only in markup; each runs
      // the same loop over the three types.
      calls := EmitTypeCalls(a.tld, period);
      EmittedTypeCalls(calls, a.tld, period);
    } else {
      calls := [DomainCall(a.tld, kind, period)];
    }
    v := View(a.style, style, a.showAll, calls);
  }

  /** An empty TLD makes exactly one get_all_domain_prices and no get_domain_price. */
  lemma EmptyTldListsAll(a: Attributes)
    ensures PhpEmpty(a.tld) <==> DomainCalls(a) == [AllDomainsCall]
  {
  }

  /** With a TLD and showAll: register, renew and transfer, in that order, with one TLD and one period. */
  lemma ShowAllThreeTypes(a: Attributes)
    requires !PhpEmpty(a.tld) && a.showAll
    ensures |DomainCalls(a)| == 3
    ensures forall i :: 0 <= i < 3 ==> DomainCalls(a)[i] == DomainCall(a.tld, DomainTypes[i], StripYears(a.regPeriod))
  {
  }

  /** Otherwise exactly one call, whose type is the given one when allowed and register when not. */
  lemma SingleTypeAllowListed(a: Attributes)
    requires !PhpEmpty(a.tld) && !a.showAll
    ensures |DomainCalls(a)| == 1 && DomainCalls(a)[0].DomainCall?
    ensures DomainCalls(a)[0].kind in DomainTypes
    ensures a.kind in DomainTypes ==> DomainCalls(a)[0].kind == a.kind
    ensures a.kind !in DomainTypes ==> DomainCalls(a)[0].kind == "register"
  {
  }

  /** A style outside table, badge and inline is laid out as a table, but the wrapper keeps the given style. */
  lemma StyleFallback(a: Attributes)
    ensures DomainView(a).wrapperStyle == a.style
    ensures DomainView(a).layout in WidgetStyles
    ensures a.style !in WidgetStyles ==> DomainView(a).layout == "table"
    ensures a.style in WidgetStyles ==> DomainView(a).layout == a.style
  {
  }
}
