/**
 * The Elementor product price widget
 * (includes/elementor/widgets/product-price-widget.php): its settings are
 * normalised into a PID list, a billing cycle, a display style and a column
 * list, and every display style then makes one get_product_data per
 * (pid, column).
 */
module ProductWidget {
  import opened Strings
  import opened CallPlan

  /** The widget's settings: the text controls by name, and the multi-select of columns. */
  datatype Settings = Settings(fields: map<string, string>, showColumns: seq<string>)

  /** What one rendering shows: nothing, or a display with its wrapper style, its layout and its calls. */
  datatype View = NoView | Products(wrapperStyle: string, layout: string, calls: seq<ApiCall>)

  const WidgetStyles: seq<string> := ["table", "cards", "grid"]

  const DefaultColumns: seq<string> := ["name", "price"]

  /** The PID list: a comma split, intval() of each piece, and only the values above zero, in order. */
  function WidgetPids(pid: string): (ids: seq<int>)
    ensures forall i :: 0 <= i < |ids| ==> ids[i] > 0
  {
    Positive(IntVals(Split(pid, ',')))
  }

  /** The columns shown: the selected columns, or name and price when none is selected. */
  function WidgetColumns(s: Settings): seq<string> {
    if s.showColumns != [] then s.showColumns else DefaultColumns
  }

  /** The cycle the widget asks for, with annually for an unknown code. */
  function WidgetCycle(s: Settings, sanitize: string -> string): string {
    CycleName(sanitize(Setting(s.fields, "billing_cycle", "")), "annually")
  }

  /** The style as sanitized, before the allow-list. */
  function WidgetStyle(s: Settings, sanitize: string -> string): string {
    sanitize(Setting(s.fields, "display_style", ""))
  }

  /** The PIDs asked for, from the sanitized product_ids setting. */
  function WidgetIds(s: Settings, sanitize: string -> string): seq<int> {
    WidgetPids(sanitize(Setting(s.fields, "product_ids", "")))
  }

  /** The columns asked for: only name, description and price survive, in their order. */
  function WidgetCols(s: Settings): seq<string> {
    Allowed(WidgetColumns(s), ProductColumns)
  }

  function WidgetCalls(s: Settings, sanitize: string -> string): seq<ApiCall> {
    ProductGrid(WidgetIds(s, sanitize), WidgetCycle(s, sanitize), Map(sanitize, WidgetCols(s)))
  }

  function WidgetView(s: Settings, sanitize: string -> string): View {
    if PhpEmpty(Setting(s.fields, "product_ids", "")) then NoView
    else
      var style := WidgetStyle(s, sanitize);
      Products(style, AllowOr(style, WidgetStyles, "table"), WidgetCalls(s, sanitize))
  }

  /** render(): return early without product IDs, otherwise build the attributes and render them. */
  method Render(s: Settings, sanitize: string -> string) returns (v: View)
    ensures v == WidgetView(s, sanitize)
  {
    if PhpEmpty(Setting(s.fields, "product_ids", "")) {
      return NoView;
    }
    var pid := sanitize(Setting(s.fields, "product_ids", ""));
    var cycle := sanitize(Setting(s.fields, "billing_cycle", ""));
    var show := if s.showColumns != [] then s.showColumns else DefaultColumns;
    var style := sanitize(Setting(s.fields, "display_style", ""));
    v := RenderProductPricing(pid, cycle, show, style, sanitize);
  }

  /** render_product_pricing(): normalise, then run the table, cards or grid loops. */
  method RenderProductPricing(pid: string, cycle: string, show: seq<string>, style: string, sanitize: string -> string)
    returns (v: View)
    ensures v == Products(style, AllowOr(style, WidgetStyles, "table"),
                          ProductGrid(WidgetPids(pid), CycleName(cycle, "annually"), Map(sanitize, Allowed(show, ProductColumns))))
  {
    var mapped := CycleName(cycle, "annually");
    var pids := Positive(IntVals(Split(pid, ',')));
    var wrapper := style;
    var layout := style;
    if layout !in WidgetStyles {
      layout := "table";
    }
    var cols := Allowed(show, ProductColumns);
    // The table, cards and grid layouts differ only in markup; each runs the
    // same loops over the PIDs and the columns.
    var calls := EmitProductGrid(pids, mapped, Map(sanitize, cols));
    v := Products(wrapper, layout, calls);
  }

  /** Empty product IDs (missing, "" or "0") render nothing and make no call. */
  lemma EmptyIdsNoCalls(s: Settings, sanitize: string -> string)
    ensures WidgetView(s, sanitize) == NoView <==> PhpEmpty(Setting(s.fields, "product_ids", ""))
    ensures WidgetView(s, sanitize).Products? ==> WidgetView(s, sanitize).calls == WidgetCalls(s, sanitize)
  {
  }

  /**
   * Every style makes the same calls: one get_product_data per (pid, column),
   * pid-major, with the positive PIDs, the mapped cycle and the allowed columns.
   */
  lemma WidgetCallAt(s: Settings, sanitize: string -> string, i: int, j: int)
    requires 0 <= i < |WidgetIds(s, sanitize)| && 0 <= j < |WidgetCols(s)|
    ensures |WidgetCalls(s, sanitize)| == |WidgetIds(s, sanitize)| * |WidgetCols(s)|
    ensures 0 <= i * |WidgetCols(s)| + j < |WidgetCalls(s, sanitize)|
    ensures WidgetCalls(s, sanitize)[i * |WidgetCols(s)| + j] ==
      ProductCall(WidgetIds(s, sanitize)[i], WidgetCycle(s, sanitize), sanitize(WidgetCols(s)[j]))
  {
    var ids, cols, cycle := WidgetIds(s, sanitize), WidgetCols(s), WidgetCycle(s, sanitize);
    assert WidgetCalls(s, sanitize) == ProductGrid(ids, cycle, Map(sanitize, cols));
    ColumnsGridAt(ids, cycle, sanitize, cols, i, j);
  }

  /** The display style changes the layout and the wrapper, never the calls. */
  lemma CallsIgnoreStyle(s: Settings, style: string, sanitize: string -> string)
    ensures WidgetCalls(Settings(s.fields["display_style" := style], s.showColumns), sanitize) == WidgetCalls(s, sanitize)
    ensures WidgetView(s, sanitize).Products? ==>
      WidgetView(Settings(s.fields["display_style" := style], s.showColumns), sanitize).calls == WidgetView(s, sanitize).calls
  {
    var t := Settings(s.fields["display_style" := style], s.showColumns);
    assert Setting(t.fields, "product_ids", "") == Setting(s.fields, "product_ids", "");
    assert Setting(t.fields, "billing_cycle", "") == Setting(s.fields, "billing_cycle", "");
  }

  /**
   * A style outside table, cards and grid is laid out as a table, but the
   * wrapper class still carries the style as given.
   */
  lemma StyleFallback(s: Settings, sanitize: string -> string)
    requires !PhpEmpty(Setting(s.fields, "product_ids", ""))
    ensures WidgetView(s, sanitize).wrapperStyle == WidgetStyle(s, sanitize)
    ensures WidgetView(s, sanitize).layout in WidgetStyles
    ensures WidgetStyle(s, sanitize) in WidgetStyles ==> WidgetView(s, sanitize).layout == WidgetStyle(s, sanitize)
    ensures WidgetStyle(s, sanitize) !in WidgetStyles ==>
      WidgetView(s, sanitize).layout == "table" && WidgetView(s, sanitize).wrapperStyle != WidgetView(s, sanitize).layout
  {
  }

  /** The cycle codes map as everywhere else, with annually for an unknown code. */
  lemma WidgetCycleFallback(s: Settings, sanitize: string -> string)
    ensures sanitize(Setting(s.fields, "billing_cycle", "")) in CycleNames ==>
      WidgetCycle(s, sanitize) == CycleNames[sanitize(Setting(s.fields, "billing_cycle", ""))]
    ensures sanitize(Setting(s.fields, "billing_cycle", "")) !in CycleNames ==> WidgetCycle(s, sanitize) == "annually"
  {
  }

  /** With no column selected the display shows name and price, in that order. */
  lemma DefaultColumnsShown(s: Settings)
    requires s.showColumns == []
    ensures WidgetCols(s) == ["name", "price"]
  {
    assert Allowed(["price"], ProductColumns) == ["price"] by {
      assert ["price"][1..] == [];
    }
    assert DefaultColumns[1..] == ["price"];
  }

  /**
   * The PID list keeps exactly the pieces whose intval() is positive, and in
   * their original order: "3,0,x,-2,5" asks for 3 and then 5.
   */
  lemma WidgetPidsOrder(a: string, b: string)
    ensures WidgetPids(a + "," + b) == WidgetPids(a) + WidgetPids(b)
    ensures forall x :: x in WidgetPids(a) <==> x > 0 && exists p :: p in Split(a, ',') && IntVal(p) == x
  {
    WidgetPidsAppend(a, b);
    forall x
      ensures x in WidgetPids(a) <==> x > 0 && exists p :: p in Split(a, ',') && IntVal(p) == x
    {
      WidgetPidsMember(a, x);
    }
  }

  lemma WidgetPidsAppend(a: string, b: string)
    ensures WidgetPids(a + "," + b) == WidgetPids(a) + WidgetPids(b)
  {
    JoinAppendSplit(a, b);
    IntValsAppend(Split(a, ','), Split(b, ','));
    PositiveAppend(IntVals(Split(a, ',')), IntVals(Split(b, ',')));
  }

  lemma WidgetPidsMember(a: string, x: int)
    ensures x in WidgetPids(a) <==> x > 0 && exists p :: p in Split(a, ',') && IntVal(p) == x
  {
    var ps := Split(a, ',');
    if x > 0 && exists p :: p in ps && IntVal(p) == x {
      var p :| p in ps && IntVal(p) == x;
      var k :| 0 <= k < |ps| && ps[k] == p;
      assert IntVals(ps)[k] == x;
    }
  }

  lemma JoinAppendSplit(a: string, b: string)
    ensures Split(a + "," + b, ',') == Split(a, ',') + Split(b, ',')
  {
    JoinSplit(a, ',');
    JoinSplit(b, ',');
    JoinConcat(Split(a, ','), Split(b, ','), ',');
    var parts := Split(a, ',') + Split(b, ',');
    SplitPieces(a, ',');
    SplitPieces(b, ',');
    assert forall i :: 0 <= i < |parts| ==> ',' !in parts[i] by {
      forall i | 0 <= i < |parts|
        ensures ',' !in parts[i]
      {
        if i >= |Split(a, ',')| {
          assert parts[i] == Split(b, ',')[i - |Split(a, ',')|];
        }
      }
    }
    SplitJoin(parts, ',');
  }

  lemma {:induction false} IntValsAppend(a: seq<string>, b: seq<string>)
    ensures IntVals(a + b) == IntVals(a) + IntVals(b)
  {
    if a == [] {
      assert a + b == b;
    } else {
      assert (a + b)[1..] == a[1..] + b;
      IntValsAppend(a[1..], b);
    }
  }
}
