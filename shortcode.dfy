/**
 * The [whmcs] shortcode (includes/shortcode/shortcode.php): how its
 * attributes are defaulted and normalised, and which data-service calls one
 * rendering makes.
 */
module Shortcode {
  import opened Strings
  import opened CallPlan

  /** The shortcode's attributes after shortcode_atts(). */
  datatype Atts = Atts(pid: string, bc: string, show: string, tld: string, kind: string, reg: string)

  const DefaultShow := "name,description,price"

  /** shortcode_atts(): each known attribute from the user when given, otherwise its default. */
  function ShortcodeAtts(user: map<string, string>): (a: Atts)
    ensures "pid" in user ==> a.pid == user["pid"]
    ensures "pid" !in user ==> a.pid == ""
    ensures "bc" in user ==> a.bc == user["bc"]
    ensures "bc" !in user ==> a.bc == ""
    ensures "show" in user ==> a.show == user["show"]
    ensures "show" !in user ==> a.show == DefaultShow
    ensures "tld" in user ==> a.tld == user["tld"]
    ensures "tld" !in user ==> a.tld == ""
    ensures "type" in user ==> a.kind == user["type"]
    ensures "type" !in user ==> a.kind == ""
    ensures "reg" in user ==> a.reg == user["reg"]
    ensures "reg" !in user ==> a.reg == ""
  {
    Atts(Setting(user, "pid", ""), Setting(user, "bc", ""), Setting(user, "show", DefaultShow),
         Setting(user, "tld", ""), Setting(user, "type", ""), Setting(user, "reg", ""))
  }

  /** The product table is drawn when both pid and bc are non-empty in PHP's sense. */
  predicate WantsProducts(a: Atts) {
    !PhpEmpty(a.pid) && !PhpEmpty(a.bc)
  }

  /** `preg_replace('/[^0-9]/', '', reg)`, and '1' when nothing is left. */
  function RegPeriod(reg: string): (period: string)
    ensures period != [] && AllDigits(period)
    ensures DigitsOf(reg) != [] ==> period == DigitsOf(reg)
    ensures DigitsOf(reg) == [] ==> period == "1"
  {
    var d := DigitsOf(reg);
    if d != [] then d else "1"
  }

  /** The calls the shortcode makes, in order. */
  function ShortcodeCalls(a: Atts, sanitize: string -> string): seq<ApiCall> {
    if WantsProducts(a) then
      ProductGrid(IntVals(Split(a.pid, ',')), CycleName(a.bc, "monthly"), Map(sanitize, Split(a.show, ',')))
    else if !PhpEmpty(a.tld) then
      [DomainCall(a.tld, sanitize(a.kind), RegPeriod(a.reg))]
    else
      [AllDomainsCall]
  }

  /** whmcs_func(): default the attributes, then draw the product table, one domain price or the full list. */
  method WhmcsFunc(user: map<string, string>, sanitize: string -> string) returns (calls: seq<ApiCall>, headers: seq<string>)
    ensures calls == ShortcodeCalls(ShortcodeAtts(user), sanitize)
    ensures WantsProducts(ShortcodeAtts(user)) ==> |headers| == |Split(ShortcodeAtts(user).show, ',')|
    ensures WantsProducts(ShortcodeAtts(user)) ==>
      forall j :: 0 <= j < |headers| ==> headers[j] == HeaderLabel(Split(ShortcodeAtts(user).show, ',')[j])
    ensures !WantsProducts(ShortcodeAtts(user)) ==> headers == []
  {
    var a := ShortcodeAtts(user);
    headers := [];
    if !PhpEmpty(a.pid) && !PhpEmpty(a.bc) {
      var cycle := CycleName(a.bc, "monthly");
      var pids := Split(a.pid, ',');
      var show := Split(a.show, ',');
      headers := EmitHeaders(show);
      calls := EmitProductGrid(IntVals(pids), cycle, Map(sanitize, show));
      return;
    }
    if !PhpEmpty(a.tld) {
      var period := RegPeriod(a.reg);
      calls := [DomainCall(a.tld, sanitize(a.kind), period)];
      return;
    }
    calls := [AllDomainsCall];
  }

  /** The product table is drawn exactly when pid and bc are both non-empty: its first call is a product call. */
  lemma ProductsIff(a: Atts, sanitize: string -> string)
    ensures |ShortcodeCalls(a, sanitize)| > 0
    ensures ShortcodeCalls(a, sanitize)[0].ProductCall? <==> WantsProducts(a)
  {
    if WantsProducts(a) {
      var pids := IntVals(Split(a.pid, ','));
      var cols := Map(sanitize, Split(a.show, ','));
      GridAt(pids, CycleName(a.bc, "monthly"), cols, 0, 0);
    }
  }

  /**
   * A product table makes exactly one get_product_data per (pid, column),
   * pid-major, with intval(pid), the mapped cycle (monthly when the code is
   * unknown) and the sanitized column name.
   */
  lemma ProductCallAt(a: Atts, sanitize: string -> string, i: int, j: int)
    requires WantsProducts(a)
    requires 0 <= i < |Split(a.pid, ',')| && 0 <= j < |Split(a.show, ',')|
    ensures |ShortcodeCalls(a, sanitize)| == |Split(a.pid, ',')| * |Split(a.show, ',')|
    ensures 0 <= i * |Split(a.show, ',')| + j < |Split(a.pid, ',')| * |Split(a.show, ',')|
    ensures ShortcodeCalls(a, sanitize)[i * |Split(a.show, ',')| + j] ==
      ProductCall(IntVal(Split(a.pid, ',')[i]), CycleName(a.bc, "monthly"), sanitize(Split(a.show, ',')[j]))
  {
    var ps, show, cycle := Split(a.pid, ','), Split(a.show, ','), CycleName(a.bc, "monthly");
    assert ShortcodeCalls(a, sanitize) == ProductGrid(IntVals(ps), cycle, Map(sanitize, show));
    MappedGridAt(ps, cycle, sanitize, show, i, j);
  }

  /** When pid and bc are given, a tld given as well is ignored: every call is a product call. */
  lemma ProductsTakePrecedence(a: Atts, sanitize: string -> string)
    requires WantsProducts(a)
    ensures forall c :: c in ShortcodeCalls(a, sanitize) ==> c.ProductCall?
  {
    var pids := IntVals(Split(a.pid, ','));
    var cols := Map(sanitize, Split(a.show, ','));
    var cycle := CycleName(a.bc, "monthly");
    var grid := ProductGrid(pids, cycle, cols);
    assert ShortcodeCalls(a, sanitize) == grid;
    forall c | c in grid
      ensures c.ProductCall?
    {
      var k :| 0 <= k < |grid| && grid[k] == c;
      GridCalls(pids, cycle, cols, k);
    }
  }

  /** Without a product table, a non-empty tld gives exactly one get_domain_price with a digits-only period. */
  lemma DomainBranch(a: Atts, sanitize: string -> string)
    requires !WantsProducts(a) && !PhpEmpty(a.tld)
    ensures ShortcodeCalls(a, sanitize) == [DomainCall(a.tld, sanitize(a.kind), RegPeriod(a.reg))]
    ensures AllDigits(ShortcodeCalls(a, sanitize)[0].period)
  {
  }

  /** With neither a product table nor a tld, the full domain list is requested and nothing else. */
  lemma AllDomainsBranch(a: Atts, sanitize: string -> string)
    requires !WantsProducts(a) && PhpEmpty(a.tld)
    ensures ShortcodeCalls(a, sanitize) == [AllDomainsCall]
  {
  }

  /** reg="2y" asks for period "2": the suffix is stripped, and every digit string is kept as is. */
  lemma RegPeriodOfYears(d: string)
    requires d != [] && AllDigits(d)
    ensures RegPeriod(d + "y") == d
    ensures RegPeriod(d) == d
  {
    DigitsOfAll(d);
    DigitsOfAppend(d, "y");
    assert DigitsOf("y") == [];
  }
}
