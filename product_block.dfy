/**
 * The product price block's server-side render
 * (blocks/whmcs-price-product/render.php): attribute defaults, the billing
 * cycle, the trimmed PID list, and one get_product_data per (pid, column) in
 * the table, cards and grid styles.
 */
module ProductBlock {
  import opened Strings
  import opened CallPlan

  /** What one rendering shows: nothing, or a display with its style and its calls. */
  datatype View = NoView | Products(style: string, calls: seq<ApiCall>)

  const BlockStyles: seq<string> := ["table", "cards", "grid"]

  const DefaultColumns: seq<string> := ["name", "price"]

  /** The product IDs, sanitized, or "" when the attribute is empty. */
  function BlockPid(attrs: map<string, Attr>, sanitize: string -> string): string {
    TextAttr(attrs, "pid", "", sanitize)
  }

  function BlockCycle(attrs: map<string, Attr>, sanitize: string -> string): string {
    CycleName(TextAttr(attrs, "billingCycle", "1y", sanitize), "annually")
  }

  /** `! empty( show ) && is_array( show ) ? show : array( 'name', 'price' )`: the columns, unfiltered. */
  function BlockColumns(attrs: map<string, Attr>): (cols: seq<string>)
    ensures cols == DefaultColumns || ("show" in attrs && attrs["show"].Items? && cols == attrs["show"].xs)
  {
    if "show" in attrs && !AttrEmpty(attrs["show"]) && attrs["show"].Items? then attrs["show"].xs else DefaultColumns
  }

  function BlockStyle(attrs: map<string, Attr>, sanitize: string -> string): string {
    TextAttr(attrs, "displayStyle", "table", sanitize)
  }

  /** `array_map( 'trim', explode( ',', $pid ) )`: every piece kept, intval() only at call time. */
  function BlockPids(pid: string): (ps: seq<string>)
    ensures |ps| == |Split(pid, ',')|
    ensures forall i :: 0 <= i < |ps| ==> ps[i] == Trim(Split(pid, ',')[i])
  {
    TrimAll(Split(pid, ','))
  }

  function BlockCalls(attrs: map<string, Attr>, sanitize: string -> string): seq<ApiCall> {
    if BlockStyle(attrs, sanitize) in BlockStyles then
      ProductGrid(IntVals(BlockPids(BlockPid(attrs, sanitize))), BlockCycle(attrs, sanitize), Map(sanitize, BlockColumns(attrs)))
    else []
  }

  function BlockView(attrs: map<string, Attr>, sanitize: string -> string): View {
    if PhpEmpty(BlockPid(attrs, sanitize)) then NoView
    else Products(BlockStyle(attrs, sanitize), BlockCalls(attrs, sanitize))
  }

  /** The render template: defaults, an early return without a PID, then the loops of the chosen style. */
  method Render(attrs: map<string, Attr>, sanitize: string -> string) returns (v: View)
    ensures v == BlockView(attrs, sanitize)
  {
    var pid := TextAttr(attrs, "pid", "", sanitize);
    var cycle := TextAttr(attrs, "billingCycle", "1y", sanitize);
    var show := if "show" in attrs && !AttrEmpty(attrs["show"]) && attrs["show"].Items? then attrs["show"].xs else DefaultColumns;
    var style := TextAttr(attrs, "displayStyle", "table", sanitize);
    if PhpEmpty(pid) {
      return NoView;
    }
    var mapped := CycleName(cycle, "annually");
    var pids := TrimAll(Split(pid, ','));
    assert pid == BlockPid(attrs, sanitize) && style == BlockStyle(attrs, sanitize);
    assert show == BlockColumns(attrs) && mapped == BlockCycle(attrs, sanitize) && pids == BlockPids(pid);
    var calls := [];
    // The table, cards and grid branches of the template differ only in
    // markup; each runs the same loops over the pieces and the columns.
    if style in BlockStyles {
      calls := EmitProductGrid(IntVals(pids), mapped, Map(sanitize, show));
    }
    v := Products(style, calls);
  }

  /** An empty pid (missing, "", "0", or sanitized to one of those) renders nothing and makes no call. */
  lemma EmptyPidNoCalls(attrs: map<string, Attr>, sanitize: string -> string)
    ensures BlockView(attrs, sanitize) == NoView <==> PhpEmpty(BlockPid(attrs, sanitize))
  {
  }

  /** The defaults: cycle 1y (annually), columns name and price, style table. */
  lemma BlockDefaults(attrs: map<string, Attr>, sanitize: string -> string)
    requires "billingCycle" !in attrs && "show" !in attrs && "displayStyle" !in attrs
    ensures BlockCycle(attrs, sanitize) == "annually"
    ensures BlockColumns(attrs) == ["name", "price"]
    ensures BlockStyle(attrs, sanitize) == "table"
  {
  }

  /** A list of columns that is empty, or a value that is not a list, gives name and price. */
  lemma ColumnsDefault(attrs: map<string, Attr>)
    requires "show" in attrs && (attrs["show"] == Items([]) || !attrs["show"].Items?)
    ensures BlockColumns(attrs) == ["name", "price"]
  {
  }

  /** An unknown cycle code asks for annually. */
  lemma UnknownCycle(attrs: map<string, Attr>, sanitize: string -> string)
    requires TextAttr(attrs, "billingCycle", "1y", sanitize) !in CycleNames
    ensures BlockCycle(attrs, sanitize) == "annually"
  {
  }

  /** A style other than table, cards and grid draws the wrapper and makes no call. */
  lemma UnknownStyleNoCalls(attrs: map<string, Attr>, sanitize: string -> string)
    requires BlockStyle(attrs, sanitize) !in BlockStyles
    ensures BlockCalls(attrs, sanitize) == []
  {
  }

  /**
   * In the table, cards and grid styles, call i * |columns| + j asks for the
   * i-th trimmed piece through intval(), the mapped cycle and the j-th column
   * sanitized. Nothing drops a zero or negative PID, nor a column outside
   * name, description and price.
   */
  lemma BlockCallAt(attrs: map<string, Attr>, sanitize: string -> string, i: int, j: int)
    requires BlockStyle(attrs, sanitize) in BlockStyles
    requires 0 <= i < |BlockPids(BlockPid(attrs, sanitize))| && 0 <= j < |BlockColumns(attrs)|
    ensures |BlockCalls(attrs, sanitize)| == |BlockPids(BlockPid(attrs, sanitize))| * |BlockColumns(attrs)|
    ensures 0 <= i * |BlockColumns(attrs)| + j < |BlockCalls(attrs, sanitize)|
    ensures BlockCalls(attrs, sanitize)[i * |BlockColumns(attrs)| + j] ==
      ProductCall(IntVal(BlockPids(BlockPid(attrs, sanitize))[i]), BlockCycle(attrs, sanitize), sanitize(BlockColumns(attrs)[j]))
  {
    MappedGridAt(BlockPids(BlockPid(attrs, sanitize)), BlockCycle(attrs, sanitize), sanitize, BlockColumns(attrs), i, j);
  }

  /** A PID of 0 is still asked for: "0" as the only piece gives calls for product 0. */
  lemma ZeroPidAsked(attrs: map<string, Attr>, sanitize: string -> string)
    requires BlockStyle(attrs, sanitize) in BlockStyles
    requires BlockPids(BlockPid(attrs, sanitize)) == ["0"] && BlockColumns(attrs) == ["price"]
    ensures BlockCalls(attrs, sanitize) == [ProductCall(0, BlockCycle(attrs, sanitize), sanitize("price"))]
  {
    IntValOfIntToString(0);
    assert IntToString(0) == "0";
    assert IntVals(["0"]) == [0];
    assert Map(sanitize, ["price"]) == [sanitize("price")];
    assert ProductGrid([0], BlockCycle(attrs, sanitize), [sanitize("price")]) ==
      ProductRow(0, BlockCycle(attrs, sanitize), [sanitize("price")]);
  }
}
