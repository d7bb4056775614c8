/**
 * What the front ends (the [whmcs] shortcode, the two blocks and the two
 * Elementor widgets) ask of the data service: the calls to get_product_data,
 * get_domain_price and get_all_domain_prices that one rendering makes, in
 * order, together with the normalisation steps they share. Markup is not
 * modelled; the calls are.
 */
module CallPlan {
  import opened Strings

  datatype ApiCall =
    | ProductCall(pid: int, cycle: string, attr: string)
    | DomainCall(tld: string, kind: string, period: string)
    | AllDomainsCall

  /** `$settings[$key] ?? $default` on a settings array of strings. */
  function Setting(settings: map<string, string>, key: string, default: string): string {
    if key in settings then settings[key] else default
  }

  /** A block attribute as the block editor stores it: a string, a boolean or a list of strings. */
  datatype Attr = Text(s: string) | Flag(b: bool) | Items(xs: seq<string>)

  /** PHP empty() on an attribute: "", "0", false and the empty array are empty. */
  predicate AttrEmpty(v: Attr) {
    match v
    case Text(s) => PhpEmpty(s)
    case Flag(b) => !b
    case Items(xs) => xs == []
  }

  /** sanitize_text_field() of an attribute: a boolean is cast to "1" or "", an array gives "". */
  function AttrText(v: Attr, sanitize: string -> string): string {
    match v
    case Text(s) => sanitize(s)
    case Flag(b) => sanitize(if b then "1" else "")
    case Items(_) => ""
  }

  /** `! empty( $attributes[$key] ) ? sanitize_text_field( $attributes[$key] ) : $default`. */
  function TextAttr(attrs: map<string, Attr>, key: string, default: string, sanitize: string -> string): (r: string)
    ensures (key !in attrs || AttrEmpty(attrs[key])) ==> r == default
    ensures key in attrs && attrs[key].Text? && !PhpEmpty(attrs[key].s) ==> r == sanitize(attrs[key].s)
  {
    if key in attrs && !AttrEmpty(attrs[key]) then AttrText(attrs[key], sanitize) else default
  }

  // ---------------------------------------------------------------------------
  // Billing cycles and allow-lists
  // ---------------------------------------------------------------------------

  /** The short billing-cycle codes and the WHMCS cycle names they stand for. */
  const CycleNames: map<string, string> := map[
    "1m" := "monthly", "3m" := "quarterly", "6m" := "semiannually",
    "1y" := "annually", "2y" := "biennially", "3y" := "triennially"]

  /** `$billing_cycles[$code] ?? $fallback`. */
  function CycleName(code: string, fallback: string): string
  {
    if code in CycleNames then CycleNames[code] else fallback
  }

  /** The six codes and their names; every other code is sent to the fallback. */
  lemma CycleNameTable(code: string, fallback: string)
    ensures CycleName("1m", fallback) == "monthly"
    ensures CycleName("3m", fallback) == "quarterly"
    ensures CycleName("6m", fallback) == "semiannually"
    ensures CycleName("1y", fallback) == "annually"
    ensures CycleName("2y", fallback) == "biennially"
    ensures CycleName("3y", fallback) == "triennially"
    ensures code !in {"1m", "3m", "6m", "1y", "2y", "3y"} ==> CycleName(code, fallback) == fallback
  {
    assert CycleNames.Keys == {"1m", "3m", "6m", "1y", "2y", "3y"};
  }

  /** `in_array($value, $allowed, true) ? $value : $fallback`. */
  function AllowOr(value: string, allowed: seq<string>, fallback: string): (r: string)
    ensures value in allowed ==> r == value
    ensures value !in allowed ==> r == fallback
  {
    if value in allowed then value else fallback
  }

  const DomainTypes: seq<string> := ["register", "renew", "transfer"]

  const ProductColumns: seq<string> := ["name", "description", "price"]

  // ---------------------------------------------------------------------------
  // Lists of PIDs and columns
  // ---------------------------------------------------------------------------

  /** array_map('intval', $pids). */
  function IntVals(pids: seq<string>): (r: seq<int>)
    ensures |r| == |pids|
    ensures forall i :: 0 <= i < |pids| ==> r[i] == IntVal(pids[i])
  {
    if pids == [] then [] else [IntVal(pids[0])] + IntVals(pids[1..])
  }

  /** array_map($f, $xs) for a string function. */
  function Map(f: string -> string, xs: seq<string>): (r: seq<string>)
    ensures |r| == |xs|
    ensures forall i :: 0 <= i < |xs| ==> r[i] == f(xs[i])
  {
    if xs == [] then [] else [f(xs[0])] + Map(f, xs[1..])
  }

  /** array_map('trim', $xs). */
  function TrimAll(xs: seq<string>): (r: seq<string>)
    ensures |r| == |xs|
    ensures forall i :: 0 <= i < |xs| ==> r[i] == Trim(xs[i])
  {
    if xs == [] then [] else [Trim(xs[0])] + TrimAll(xs[1..])
  }

  /** array_filter($ids, fn($p) => $p > 0), iterated in its original order. */
  function Positive(ids: seq<int>): (r: seq<int>)
    ensures forall i :: 0 <= i < |r| ==> r[i] > 0
    ensures forall x :: x in r <==> x in ids && x > 0
  {
    if ids == [] then []
    else (if ids[0] > 0 then [ids[0]] else []) + Positive(ids[1..])
  }

  /** Filtering keeps the order: the filter of a concatenation is the concatenation of the filters. */
  lemma {:induction false} PositiveAppend(a: seq<int>, b: seq<int>)
    ensures Positive(a + b) == Positive(a) + Positive(b)
  {
    if a == [] {
      assert a + b == b;
    } else {
      assert (a + b)[1..] == a[1..] + b;
      PositiveAppend(a[1..], b);
    }
  }

  /** array_filter($cols, fn($c) => in_array($c, $allowed, true)), in order. */
  function Allowed(cols: seq<string>, allowed: seq<string>): (r: seq<string>)
    ensures forall i :: 0 <= i < |r| ==> r[i] in allowed
    ensures forall c :: c in r <==> c in cols && c in allowed
  {
    if cols == [] then []
    else (if cols[0] in allowed then [cols[0]] else []) + Allowed(cols[1..], allowed)
  }

  lemma {:induction false} AllowedAppend(a: seq<string>, b: seq<string>, allowed: seq<string>)
    ensures Allowed(a + b, allowed) == Allowed(a, allowed) + Allowed(b, allowed)
  {
    if a == [] {
      assert a + b == b;
    } else {
      assert (a + b)[1..] == a[1..] + b;
      AllowedAppend(a[1..], b, allowed);
    }
  }

  // ---------------------------------------------------------------------------
  // Product grids: one get_product_data per (pid, column), pid-major
  // ---------------------------------------------------------------------------

  /** The calls of one row: one per column, in column order. */
  function ProductRow(pid: int, cycle: string, cols: seq<string>): (calls: seq<ApiCall>)
    ensures |calls| == |cols|
    ensures forall j :: 0 <= j < |cols| ==> calls[j] == ProductCall(pid, cycle, cols[j])
  {
    if cols == [] then [] else [ProductCall(pid, cycle, cols[0])] + ProductRow(pid, cycle, cols[1..])
  }

  /** The calls of a whole table, card list or grid: the rows in pid order. */
  function ProductGrid(pids: seq<int>, cycle: string, cols: seq<string>): seq<ApiCall> {
    if pids == [] then [] else ProductRow(pids[0], cycle, cols) + ProductGrid(pids[1..], cycle, cols)
  }

  lemma MulSucc(a: int, n: int)
    ensures (a + 1) * n == a * n + n
  {
  }

  lemma MulMono(a: int, b: int, n: nat)
    requires a <= b
    ensures a * n <= b * n
  {
  }

  lemma DivMod(k: nat, n: nat)
    requires n > 0
    ensures k == (k / n) * n + k % n && 0 <= k % n < n && 0 <= k / n
  {
  }

  lemma {:induction false} GridLength(pids: seq<int>, cycle: string, cols: seq<string>)
    ensures |ProductGrid(pids, cycle, cols)| == |pids| * |cols|
  {
    if pids != [] {
      GridLength(pids[1..], cycle, cols);
      MulSucc(|pids| - 1, |cols|);
    }
  }

  /**
   * One call per (pid, column): the grid has |pids| * |cols| calls, and the
   * call at i * |cols| + j is for pid i and column j.
   */
  lemma {:induction false} GridAt(pids: seq<int>, cycle: string, cols: seq<string>, i: int, j: int)
    requires 0 <= i < |pids| && 0 <= j < |cols|
    ensures |ProductGrid(pids, cycle, cols)| == |pids| * |cols|
    ensures 0 <= i * |cols| + j < |pids| * |cols|
    ensures ProductGrid(pids, cycle, cols)[i * |cols| + j] == ProductCall(pids[i], cycle, cols[j])
  {
    GridAtOffset(pids, cycle, cols, i, j);
    GridLength(pids[..i], cycle, cols);
    GridLength(pids, cycle, cols);
    MulSucc(i, |cols|);
    MulMono(i + 1, |pids|, |cols|);
  }

  /** GridAt without the arithmetic: the calls of pid i start right after those of the pids before it. */
  lemma GridAtOffset(pids: seq<int>, cycle: string, cols: seq<string>, i: int, j: int)
    requires 0 <= i < |pids| && 0 <= j < |cols|
    ensures |ProductGrid(pids[..i], cycle, cols)| + j < |ProductGrid(pids, cycle, cols)|
    ensures ProductGrid(pids, cycle, cols)[|ProductGrid(pids[..i], cycle, cols)| + j] == ProductCall(pids[i], cycle, cols[j])
  {
    assert pids[..i] + pids[i..] == pids;
    GridAtSplit(pids[..i], pids[i..], cycle, cols, j);
  }

  /** The calls of the first pid of `b`, placed after those of `a`. */
  lemma GridAtSplit(a: seq<int>, b: seq<int>, cycle: string, cols: seq<string>, j: int)
    requires b != [] && 0 <= j < |cols|
    ensures |ProductGrid(a, cycle, cols)| + j < |ProductGrid(a + b, cycle, cols)|
    ensures ProductGrid(a + b, cycle, cols)[|ProductGrid(a, cycle, cols)| + j] == ProductCall(b[0], cycle, cols[j])
  {
    GridAppend(a, b, cycle, cols);
    var rest := ProductGrid(b, cycle, cols);
    var row := ProductRow(b[0], cycle, cols);
    assert rest == row + ProductGrid(b[1..], cycle, cols);
    assert rest[j] == row[j];
  }

  lemma {:induction false} GridAppend(a: seq<int>, b: seq<int>, cycle: string, cols: seq<string>)
    ensures ProductGrid(a + b, cycle, cols) == ProductGrid(a, cycle, cols) + ProductGrid(b, cycle, cols)
  {
    if a == [] {
      assert a + b == b;
    } else {
      assert (a + b)[1..] == a[1..] + b;
      GridAppend(a[1..], b, cycle, cols);
    }
  }

  /** Every call of a grid is a product call for one of its pids and one of its columns. */
  lemma GridCalls(pids: seq<int>, cycle: string, cols: seq<string>, k: int)
    requires 0 <= k < |ProductGrid(pids, cycle, cols)|
    ensures |cols| > 0
    ensures 0 <= k / |cols| < |pids|
    ensures ProductGrid(pids, cycle, cols)[k] ==
      ProductCall(pids[k / |cols|], cycle, cols[k % |cols|])
  {
    GridLength(pids, cycle, cols);
    var n := |cols|;
    assert n > 0;
    DivMod(k, n);
    var i, j := k / n, k % n;
    if i >= |pids| {
      MulMono(|pids|, i, n);
    }
    GridAt(pids, cycle, cols, i, j);
  }

  /** GridAt for a display whose columns go through $f. */
  lemma ColumnsGridAt(pids: seq<int>, cycle: string, f: string -> string, show: seq<string>, i: int, j: int)
    requires 0 <= i < |pids| && 0 <= j < |show|
    ensures |ProductGrid(pids, cycle, Map(f, show))| == |pids| * |show|
    ensures 0 <= i * |show| + j < |pids| * |show|
    ensures ProductGrid(pids, cycle, Map(f, show))[i * |show| + j] == ProductCall(pids[i], cycle, f(show[j]))
  {
    var cols := Map(f, show);
    assert |cols| == |show|;
    GridAt(pids, cycle, cols, i, j);
    assert cols[j] == f(show[j]);
  }

  /** GridAt for a display whose pids go through intval() and whose columns through $f. */
  lemma MappedGridAt(ps: seq<string>, cycle: string, f: string -> string, show: seq<string>, i: int, j: int)
    requires 0 <= i < |ps| && 0 <= j < |show|
    ensures |ProductGrid(IntVals(ps), cycle, Map(f, show))| == |ps| * |show|
    ensures 0 <= i * |show| + j < |ps| * |show|
    ensures ProductGrid(IntVals(ps), cycle, Map(f, show))[i * |show| + j] == ProductCall(IntVal(ps[i]), cycle, f(show[j]))
  {
    var pids := IntVals(ps);
    assert |pids| == |ps| && pids[i] == IntVal(ps[i]);
    ColumnsGridAt(pids, cycle, f, show, i, j);
  }

  lemma {:induction false} GridSnoc(pids: seq<int>, p: int, cycle: string, cols: seq<string>)
    ensures ProductGrid(pids + [p], cycle, cols) == ProductGrid(pids, cycle, cols) + ProductRow(p, cycle, cols)
  {
    if pids == [] {
      assert pids + [p] == [p];
    } else {
      assert (pids + [p])[1..] == pids[1..] + [p];
      GridSnoc(pids[1..], p, cycle, cols);
    }
  }

  /** One more column of the row being emitted. */
  lemma RowStep(before: seq<ApiCall>, pid: int, cycle: string, cols: seq<string>, j: int)
    requires 0 <= j < |cols|
    ensures before + ProductRow(pid, cycle, cols[..j + 1]) ==
      (before + ProductRow(pid, cycle, cols[..j])) + [ProductCall(pid, cycle, cols[j])]
  {
    assert cols[..j + 1] == cols[..j] + [cols[j]];
    RowSnoc(pid, cycle, cols[..j], cols[j]);
  }

  /** One more pid of the grid being emitted. */
  lemma GridStep(pids: seq<int>, cycle: string, cols: seq<string>, i: int)
    requires 0 <= i < |pids|
    ensures ProductGrid(pids[..i + 1], cycle, cols) == ProductGrid(pids[..i], cycle, cols) + ProductRow(pids[i], cycle, cols)
  {
    assert pids[..i + 1] == pids[..i] + [pids[i]];
    GridSnoc(pids[..i], pids[i], cycle, cols);
  }

  lemma {:induction false} RowSnoc(pid: int, cycle: string, cols: seq<string>, c: string)
    ensures ProductRow(pid, cycle, cols + [c]) == ProductRow(pid, cycle, cols) + [ProductCall(pid, cycle, c)]
  {
    if cols == [] {
      assert cols + [c] == [c];
    } else {
      assert (cols + [c])[1..] == cols[1..] + [c];
      RowSnoc(pid, cycle, cols[1..], c);
    }
  }

  /** The nested foreach over pids and columns that every product display runs. */
  method EmitProductGrid(pids: seq<int>, cycle: string, cols: seq<string>) returns (calls: seq<ApiCall>)
    ensures calls == ProductGrid(pids, cycle, cols)
  {
    calls := [];
    var i := 0;
    while i < |pids|
      invariant 0 <= i <= |pids|
      invariant calls == ProductGrid(pids[..i], cycle, cols)
    {
      var j := 0;
      while j < |cols|
        invariant 0 <= j <= |cols|
        invariant calls == ProductGrid(pids[..i], cycle, cols) + ProductRow(pids[i], cycle, cols[..j])
      {
        RowStep(ProductGrid(pids[..i], cycle, cols), pids[i], cycle, cols, j);
        calls := calls + [ProductCall(pids[i], cycle, cols[j])];
        j := j + 1;
      }
      assert cols[..j] == cols;
      GridStep(pids, cycle, cols, i);
      i := i + 1;
    }
    assert pids[..i] == pids;
  }

  // ---------------------------------------------------------------------------
  // Domain displays
  // ---------------------------------------------------------------------------

  /** One get_domain_price per transaction type, in the order register, renew, transfer. */
  method EmitTypeCalls(tld: string, period: string) returns (calls: seq<ApiCall>)
    ensures |calls| == |DomainTypes|
    ensures forall i :: 0 <= i < |DomainTypes| ==> calls[i] == DomainCall(tld, DomainTypes[i], period)
  {
    calls := [];
    var i := 0;
    while i < |DomainTypes|
      invariant 0 <= i <= |DomainTypes|
      invariant |calls| == i
      invariant forall k :: 0 <= k < i ==> calls[k] == DomainCall(tld, DomainTypes[k], period)
    {
      calls := calls + [DomainCall(tld, DomainTypes[i], period)];
      i := i + 1;
    }
  }

  /** The three calls of a "show all types" domain display. */
  function TypeCalls(tld: string, period: string): seq<ApiCall> {
    [DomainCall(tld, "register", period), DomainCall(tld, "renew", period), DomainCall(tld, "transfer", period)]
  }

  lemma EmittedTypeCalls(calls: seq<ApiCall>, tld: string, period: string)
    requires |calls| == |DomainTypes|
    requires forall i :: 0 <= i < |DomainTypes| ==> calls[i] == DomainCall(tld, DomainTypes[i], period)
    ensures calls == TypeCalls(tld, period)
  {
  }

  /** `str_replace('y', '', $period)`: the registration period sent to WHMCS, every 'y' removed. */
  function StripYears(regPeriod: string): (p: string)
    ensures 'y' !in p
    ensures forall c :: c in p ==> c in regPeriod
  {
    RemoveChar(regPeriod, 'y')
  }

  /** The period is the given one with its 'y's removed: "2y" asks for "2", and a period without 'y' is kept. */
  lemma PeriodStripsYears(d: string)
    requires 'y' !in d
    ensures StripYears(d + "y") == d
    ensures StripYears(d) == d
  {
    RemoveCharAppend(d, "y", 'y');
    assert RemoveChar("y", 'y') == [];
  }

  // ---------------------------------------------------------------------------
  // Column headers
  // ---------------------------------------------------------------------------

  const HeaderLabels: map<string, string> := map["name" := "Name", "description" := "Description", "price" := "Price"]

  /** `$header_labels[strtolower(trim($h))] ?? ucfirst($h)`. */
  function HeaderLabel(h: string): string {
    var key := ToLower(Trim(h));
    if key in HeaderLabels then HeaderLabels[key] else UcFirst(h)
  }

  /**
   * A column named like "name", "description" or "price", in any case and
   * with surrounding spaces, gets that column's label; any other column is
   * shown as given with its first letter capitalised.
   */
  lemma HeaderLabelCases(h: string)
    ensures ToLower(Trim(h)) == "name" ==> HeaderLabel(h) == "Name"
    ensures ToLower(Trim(h)) == "description" ==> HeaderLabel(h) == "Description"
    ensures ToLower(Trim(h)) == "price" ==> HeaderLabel(h) == "Price"
    ensures ToLower(Trim(h)) !in {"name", "description", "price"} ==>
      |HeaderLabel(h)| == |h| && (h != [] ==> HeaderLabel(h)[0] == UpperChar(h[0]) && HeaderLabel(h)[1..] == h[1..])
  {
  }

  /** The header row: one label per column, in column order. */
  method EmitHeaders(show: seq<string>) returns (labels: seq<string>)
    ensures |labels| == |show|
    ensures forall i :: 0 <= i < |show| ==> labels[i] == HeaderLabel(show[i])
  {
    labels := [];
    for i := 0 to |show|
      invariant |labels| == i
      invariant forall k :: 0 <= k < i ==> labels[k] == HeaderLabel(show[k])
    {
      labels := labels + [HeaderLabel(show[i])];
    }
  }
}
