/** CarHubController: the catalogue screen. The cars loaded from the Cars table
    pass through the search and filter predicate, are ordered by the one active
    sort button, and are shown as cards, in order. Prices are whole numbers;
    String.valueOf of a price is the parameter `priceText`, and
    Double.parseDouble is the parameter `parseDouble`. */
module CarHubController {
  import opened Wrappers
  import opened Seqs
  import opened JavaText
  import opened Cars

  // ------------------------------------------------------------ sorting

  /** One press of a sort button: (s + 2) % 3 - 1, with Java's remainder. */
  function NextSortState(s: int): int {
    JavaRem(s + 2, 3) - 1
  }

  /** The press cycles 0 -> 1 -> -1 -> 0, so three presses restore the state. */
  lemma SortCycle(s: int)
    requires -1 <= s <= 1
    ensures NextSortState(s) == (if s == 0 then 1 else if s == 1 then -1 else 0)
    ensures NextSortState(NextSortState(NextSortState(s))) == s
  {
  }

  datatype SortField = PriceSort | YearSort | MileageSort

  function PriceKey(c: Car): int {
    c.price
  }

  /** The year comparator's key: a null year compares as 0. */
  function YearKey(c: Car): int {
    c.year.GetOr(0)
  }

  /** The mileage comparator's key: a null mileage compares as 0. */
  function MileageKey(c: Car): int {
    c.mileage.GetOr(0)
  }

  /** List.sort with the comparator state * compare(key, key): a stable sort
      on the key times the state. */
  function Directed(cars: seq<Car>, state: int, key: Car -> int): seq<Car> {
    SortBy(cars, (c: Car) => state * key(c))
  }

  /** A state of 1 sorts the key ascending and -1 descending, and the cars are
      the same cars. */
  lemma DirectedSpec(cars: seq<Car>, state: int, key: Car -> int)
    requires state == 1 || state == -1
    ensures var r := Directed(cars, state, key);
      && multiset(r) == multiset(cars)
      && (state == 1 ==> forall i, j :: 0 <= i < j < |r| ==> key(r[i]) <= key(r[j]))
      && (state == -1 ==> forall i, j :: 0 <= i < j < |r| ==> key(r[i]) >= key(r[j]))
  {
    var r := Directed(cars, state, key);
    forall i, j | 0 <= i < j < |r| ensures state * key(r[i]) <= state * key(r[j]) {
    }
  }

  /** applySorting: price when its state is set, else year, else mileage;
      with every state 0 the list keeps its order. */
  function Arranged(cars: seq<Car>, price: int, year: int, mileage: int): seq<Car> {
    if price != 0 then Directed(cars, price, PriceKey)
    else if year != 0 then Directed(cars, year, YearKey)
    else if mileage != 0 then Directed(cars, mileage, MileageKey)
    else cars
  }

  /** What applySorting shows: the same cars, ordered by the first set state
      in the direction its sign gives, or unchanged when no state is set. */
  lemma ArrangedSpec(cars: seq<Car>, price: int, year: int, mileage: int)
    requires -1 <= price <= 1 && -1 <= year <= 1 && -1 <= mileage <= 1
    ensures var r := Arranged(cars, price, year, mileage);
      && multiset(r) == multiset(cars)
      && (price == 1 ==> forall i, j :: 0 <= i < j < |r| ==> r[i].price <= r[j].price)
      && (price == -1 ==> forall i, j :: 0 <= i < j < |r| ==> r[i].price >= r[j].price)
      && (price == 0 && year == 1 ==> forall i, j :: 0 <= i < j < |r| ==> YearKey(r[i]) <= YearKey(r[j]))
      && (price == 0 && year == -1 ==> forall i, j :: 0 <= i < j < |r| ==> YearKey(r[i]) >= YearKey(r[j]))
      && (price == 0 && year == 0 && mileage == 1 ==>
            forall i, j :: 0 <= i < j < |r| ==> MileageKey(r[i]) <= MileageKey(r[j]))
      && (price == 0 && year == 0 && mileage == -1 ==>
            forall i, j :: 0 <= i < j < |r| ==> MileageKey(r[i]) >= MileageKey(r[j]))
      && (price == 0 && year == 0 && mileage == 0 ==> r == cars)
  {
    if price != 0 {
      DirectedSpec(cars, price, PriceKey);
    } else if year != 0 {
      DirectedSpec(cars, year, YearKey);
    } else if mileage != 0 {
      DirectedSpec(cars, mileage, MileageKey);
    }
  }

  // ------------------------------------------------------------ search

  /** filterCar: an empty query matches every car; otherwise the query must
      occur in the lower-cased name, model or brand (a null brand as "") or in
      the printed price. */
  predicate FilterCar(c: Car, query: string, price: string) {
    query == []
    || Contains(ToLower(c.name), query)
    || Contains(ToLower(c.model), query)
    || Contains(ToLower(c.brand.GetOr("")), query)
    || Contains(price, query)
  }

  /** The empty query matches everything, and any piece of a car's name, model
      or brand, lower-cased as the search field does, finds the car. */
  lemma FilterCarSpec(c: Car, t: string, price: string)
    ensures FilterCar(c, "", price)
    ensures Contains(c.name, t) ==> FilterCar(c, ToLower(t), price)
    ensures Contains(c.model, t) ==> FilterCar(c, ToLower(t), price)
    ensures c.brand.Some? && Contains(c.brand.value, t) ==> FilterCar(c, ToLower(t), price)
  {
    if Contains(c.name, t) {
      ContainsLower(c.name, t);
    }
    if Contains(c.model, t) {
      ContainsLower(c.model, t);
    }
    if c.brand.Some? && Contains(c.brand.value, t) {
      ContainsLower(c.brand.value, t);
    }
  }

  /** applyFilters' search: a blank field passes every car, otherwise filterCar
      on the trimmed, lower-cased text. */
  predicate SearchMatches(c: Car, search: string, price: string) {
    IsBlank(search) || FilterCar(c, ToLower(Trim(search)), price)
  }

  // ------------------------------------------------------------ brand lists

  const ALL_BRANDS: string := "Все бренды"

  /** String.compareTo(a, b) <= 0: character by character, a proper prefix
      first. */
  predicate LexLe(a: string, b: string)
    decreases |a|
  {
    a == [] || (b != [] && (a[0] < b[0] || (a[0] == b[0] && LexLe(a[1..], b[1..]))))
  }

  lemma {:induction false} LexLeTotal(a: string, b: string)
    ensures LexLe(a, b) || LexLe(b, a)
    decreases |a|
  {
    if a != [] && b != [] && a[0] == b[0] {
      LexLeTotal(a[1..], b[1..]);
    }
  }

  lemma {:induction false} LexLeTransitive(a: string, b: string, c: string)
    requires LexLe(a, b) && LexLe(b, c)
    ensures LexLe(a, c)
    decreases |a|
  {
    if a != [] && b != [] && c != [] && a[0] == b[0] && b[0] == c[0] {
      LexLeTransitive(a[1..], b[1..], c[1..]);
    }
  }

  predicate LexSorted(s: seq<string>) {
    forall i, j :: 0 <= i < j < |s| ==> LexLe(s[i], s[j])
  }

  /** Puts `x` before the first element it precedes. */
  function InsertLex(x: string, s: seq<string>): (r: seq<string>)
    requires LexSorted(s)
    ensures LexSorted(r)
    ensures multiset(r) == multiset(s) + multiset{x}
  {
    if s == [] then [x]
    else if !LexLe(s[0], x) then
      InsertLexFront(x, s);
      [x] + s
    else
      var rest := InsertLex(x, s[1..]);
      assert s == [s[0]] + s[1..];
      InsertLexHead(x, s, rest);
      [s[0]] + rest
  }

  lemma InsertLexFront(x: string, s: seq<string>)
    requires LexSorted(s) && s != [] && !LexLe(s[0], x)
    ensures forall k :: 0 <= k < |s| ==> LexLe(x, s[k])
  {
    LexLeTotal(x, s[0]);
    forall k | 0 <= k < |s| ensures LexLe(x, s[k]) {
      if k > 0 {
        LexLeTransitive(x, s[0], s[k]);
      }
    }
  }

  lemma InsertLexHead(x: string, s: seq<string>, rest: seq<string>)
    requires LexSorted(s) && s != [] && LexLe(s[0], x)
    requires multiset(rest) == multiset(s[1..]) + multiset{x}
    ensures forall k :: 0 <= k < |rest| ==> LexLe(s[0], rest[k])
  {
    forall k | 0 <= k < |rest| ensures LexLe(s[0], rest[k]) {
      assert rest[k] in multiset(rest);
      if rest[k] != x {
        assert rest[k] in multiset(s[1..]);
        var m :| 0 <= m < |s[1..]| && s[1..][m] == rest[k];
        assert s[1..][m] == s[m + 1];
      }
    }
  }

  /** Stream.sorted on strings. */
  function SortLex(s: seq<string>): (r: seq<string>)
    ensures LexSorted(r)
    ensures multiset(r) == multiset(s)
  {
    if s == [] then []
    else
      assert s == s[..|s| - 1] + [s[|s| - 1]];
      InsertLex(s[|s| - 1], SortLex(s[..|s| - 1]))
  }

  /** A brand the lists offer: not null and not blank. */
  predicate IsNamedBrand(b: Option<string>) {
    b.Some? && !IsBlank(b.value)
  }

  /** The map(getBrand) / filter stage of the brand stream, in list order. */
  function NamedBrands(cars: seq<Car>): seq<string> {
    if cars == [] then []
    else
      var last := cars[|cars| - 1];
      NamedBrands(cars[..|cars| - 1]) + if IsNamedBrand(last.brand) then [last.brand.value] else []
  }

  lemma {:induction false} NamedBrandsSpec(cars: seq<Car>)
    ensures forall b :: b in NamedBrands(cars) <==>
      exists k :: 0 <= k < |cars| && cars[k].brand == Some(b) && IsNamedBrand(cars[k].brand)
  {
    if cars != [] {
      var init, last := cars[..|cars| - 1], cars[|cars| - 1];
      NamedBrandsSpec(init);
      assert cars == init + [last];
      forall b | b in NamedBrands(cars)
        ensures exists k :: 0 <= k < |cars| && cars[k].brand == Some(b) && IsNamedBrand(cars[k].brand)
      {
        if b in NamedBrands(init) {
          var k :| 0 <= k < |init| && init[k].brand == Some(b) && IsNamedBrand(init[k].brand);
          assert cars[k] == init[k];
        } else {
          assert cars[|cars| - 1] == last;
        }
      }
      forall b, k | 0 <= k < |cars| && cars[k].brand == Some(b) && IsNamedBrand(cars[k].brand)
        ensures b in NamedBrands(cars)
      {
        if k < |init| {
          assert init[k] == cars[k];
        }
      }
    }
  }

  /** initializeFilters' brand list: "Все бренды", then the distinct named
      brands in ascending order. */
  function BrandChoices(cars: seq<Car>): seq<string> {
    [ALL_BRANDS] + SortLex(Distinct(NamedBrands(cars)))
  }

  /** The list starts with "Все бренды"; after it each named brand of the cars
      appears exactly once, nothing else appears, and the brands ascend. */
  lemma BrandChoicesSpec(cars: seq<Car>)
    ensures var r := BrandChoices(cars);
      && |r| >= 1 && r[0] == ALL_BRANDS
      && (forall i, j :: 1 <= i < j < |r| ==> LexLe(r[i], r[j]) && r[i] != r[j])
      && (forall b :: b in r[1..] <==>
            exists k :: 0 <= k < |cars| && cars[k].brand == Some(b) && IsNamedBrand(cars[k].brand))
  {
    var named := NamedBrands(cars);
    var d := Distinct(named);
    var sorted := SortLex(d);
    var r := BrandChoices(cars);
    assert r[1..] == sorted;
    NamedBrandsSpec(cars);
    PermutationNoDuplicates(sorted, d);
    forall b ensures b in sorted <==> b in named {
      assert b in sorted <==> b in multiset(sorted);
      assert b in d <==> b in multiset(d);
      if b in d {
        var i :| 0 <= i < |d| && d[i] == b;
      }
      if b in named {
        var i :| 0 <= i < |named| && named[i] == b;
      }
    }
    forall i, j | 1 <= i < j < |r| ensures LexLe(r[i], r[j]) && r[i] != r[j] {
      assert r[i] == sorted[i - 1] && r[j] == sorted[j - 1];
    }
  }

  // ------------------------------------------------------------ filters

  /** The new brand filter: "Все бренды" or no choice passes every car,
      otherwise the car's brand must equal the choice ignoring case. */
  predicate NewBrandMatches(c: Car, brand: Option<string>) {
    brand.None? || brand.value == ALL_BRANDS || (c.brand.Some? && EqualsIgnoreCase(c.brand.value, brand.value))
  }

  /** The old brand filter: the same, but the brand must equal the choice
      exactly. */
  predicate OldBrandMatches(c: Car, brand: Option<string>) {
    brand.None? || brand.value == ALL_BRANDS || (c.brand.Some? && c.brand.value == brand.value)
  }

  /** The new year bounds: a car without a year passes both. */
  predicate NewYearWithin(c: Car, lo: Option<int>, hi: Option<int>) {
    && (lo.None? || c.year.None? || c.year.value >= lo.value)
    && (hi.None? || c.year.None? || c.year.value <= hi.value)
  }

  /** The old year combos: a set bound rejects a car without a year. */
  predicate OldYearWithin(c: Car, lo: Option<int>, hi: Option<int>) {
    && (lo.None? || (c.year.Some? && c.year.value >= lo.value))
    && (hi.None? || (c.year.Some? && c.year.value <= hi.value))
  }

  predicate PriceWithin(c: Car, lo: Option<real>, hi: Option<real>) {
    && (lo.None? || c.price as real >= lo.value)
    && (hi.None? || c.price as real <= hi.value)
  }

  /** Whatever the old brand and year controls let through, the new ones let
      through as well; the converse fails (a brand typed in another case, a
      car without a year). */
  lemma OldFiltersStricter(c: Car, brand: Option<string>, lo: Option<int>, hi: Option<int>)
    ensures OldBrandMatches(c, brand) ==> NewBrandMatches(c, brand)
    ensures OldYearWithin(c, lo, hi) ==> NewYearWithin(c, lo, hi)
  {
    if c.brand.Some? {
      EqualsIgnoreCaseReflexiveSymmetric(c.brand.value, c.brand.value);
    }
  }

  /** The two witnesses: "BMW" chosen as "bmw", and a car without a year
      against a lower bound of 2000. */
  lemma FiltersDiffer()
    ensures var c := Car(1, "X5", "E53", 10, Some("BMW"), None, None, None, None);
      && NewBrandMatches(c, Some("bmw")) && !OldBrandMatches(c, Some("bmw"))
      && NewYearWithin(c, Some(2000), None) && !OldYearWithin(c, Some(2000), None)
  {
    var b, chosen := "BMW", "bmw";
    assert CharEqualsIgnoreCase(b[0], chosen[0]) && CharEqualsIgnoreCase(b[1], chosen[1])
      && CharEqualsIgnoreCase(b[2], chosen[2]);
  }

  /** What applyFilters captured: the search text, the new panel's parsed
      bounds and the old controls' values. */
  datatype Criteria = Criteria(
    search: string,
    brand: Option<string>, minYear: Option<int>, maxYear: Option<int>,
    minPrice: Option<real>, maxPrice: Option<real>,
    oldBrand: Option<string>, oldMinYear: Option<int>, oldMaxYear: Option<int>,
    oldMinPrice: Option<real>, oldMaxPrice: Option<real>)

  /** The installed predicate; None is the initial c -> true. */
  predicate Shows(k: Option<Criteria>, c: Car, price: string) {
    k.None? ||
    (&& SearchMatches(c, k.value.search, price)
     && NewBrandMatches(c, k.value.brand)
     && OldBrandMatches(c, k.value.oldBrand)
     && NewYearWithin(c, k.value.minYear, k.value.maxYear)
     && OldYearWithin(c, k.value.oldMinYear, k.value.oldMaxYear)
     && PriceWithin(c, k.value.minPrice, k.value.maxPrice)
     && PriceWithin(c, k.value.oldMinPrice, k.value.oldMaxPrice))
  }

  /** The predicate as the FilteredList holds it, with the price printed by
      `show`. */
  function Passes(k: Option<Criteria>, show: int -> string): Car -> bool {
    (c: Car) => Shows(k, c, show(c.price))
  }

  /** The initial predicate passes every car. */
  lemma PassesAll(cars: seq<Car>, show: int -> string)
    ensures Filter(cars, Passes(None, show)) == cars
  {
    forall i | 0 <= i < |cars| ensures Passes(None, show)(cars[i]) {
      assert Shows(None, cars[i], show(cars[i].price));
    }
    FilterAll(cars, Passes(None, show));
  }

  /** The new filter panel's controls as text. */
  datatype FilterPanel = FilterPanel(brand: Option<string>, yearFrom: string, yearTo: string,
                                     priceFrom: string, priceTo: string)

  /** The old controls: brand and year combo values and the price fields' text. */
  datatype OldControls = OldControls(brand: Option<string>, minYear: Option<int>, maxYear: Option<int>,
                                     minPrice: string, maxPrice: string)

  /** A bound field of the new panel. */
  datatype BoundText<T> = NoBound | Bound(value: T) | Malformed {
    function AsOption(): Option<T>
      requires !Malformed?
    {
      if Bound? then Some(value) else None
    }
  }

  /** A year field: empty after trimming is no bound, else Integer.parseInt of
      the trimmed text. */
  function ParseYearBound(text: string): BoundText<int> {
    var t := Trim(text);
    if t == "" then NoBound
    else match ParseInt(t)
      case Some(v) => Bound(v)
      case None => Malformed
  }

  /** A price field: the same with Double.parseDouble. */
  function ParsePriceBound(text: string, parseDouble: string -> Option<real>): BoundText<real> {
    var t := Trim(text);
    if t == "" then NoBound
    else match parseDouble(t)
      case Some(v) => Bound(v)
      case None => Malformed
  }

  /** An old price field: blank is no bound, and so is text parseDouble
      refuses, because the predicate swallows that exception. */
  function OldPriceBound(text: string, parseDouble: string -> Option<real>): Option<real> {
    if IsBlank(text) then None else parseDouble(text)
  }

  /** A year field is no bound exactly when it holds only characters that
      trim removes, and a bound is always an int. */
  lemma ParseYearBoundSpec(text: string)
    ensures ParseYearBound(text).NoBound? <==> forall i :: 0 <= i < |text| ==> IsTrimmable(text[i])
    ensures ParseYearBound(text).Bound? ==> INT_MIN <= ParseYearBound(text).value <= INT_MAX
    ensures ParseYearBound("20x5").Malformed?
  {
    TrimEmpty(text);
    var t := "20x5";
    TrimSpec(t);
    assert Trim(t) == t by {
      assert TrimStart(t) == t;
      assert TrimEnd(t) == t;
    }
    AsciiDigit(t[2]);
  }

  const YEAR_FROM_WARNING: string := "Неверный формат года (от)"
  const YEAR_TO_WARNING: string := "Неверный формат года (до)"
  const PRICE_FROM_WARNING: string := "Неверный формат цены (от)"
  const PRICE_TO_WARNING: string := "Неверный формат цены (до)"

  /** The panel read in applyFilters' order: the first malformed field's
      warning, or the four bounds. */
  datatype PanelReading =
    | PanelWarning(warning: string)
    | PanelBounds(minYear: Option<int>, maxYear: Option<int>, minPrice: Option<real>, maxPrice: Option<real>)

  function ReadPanel(panel: FilterPanel, parseDouble: string -> Option<real>): PanelReading {
    var yearFrom, yearTo := ParseYearBound(panel.yearFrom), ParseYearBound(panel.yearTo);
    var priceFrom, priceTo := ParsePriceBound(panel.priceFrom, parseDouble), ParsePriceBound(panel.priceTo, parseDouble);
    if yearFrom.Malformed? then PanelWarning(YEAR_FROM_WARNING)
    else if yearTo.Malformed? then PanelWarning(YEAR_TO_WARNING)
    else if priceFrom.Malformed? then PanelWarning(PRICE_FROM_WARNING)
    else if priceTo.Malformed? then PanelWarning(PRICE_TO_WARNING)
    else PanelBounds(yearFrom.AsOption(), yearTo.AsOption(), priceFrom.AsOption(), priceTo.AsOption())
  }

  /** A panel is refused exactly when one of its fields is malformed; the
      warning names the year fields before the price fields and "from" before
      "to"; a refused panel changes nothing. */
  lemma ReadPanelSpec(panel: FilterPanel, parseDouble: string -> Option<real>)
    ensures var r := ReadPanel(panel, parseDouble);
      && (r.PanelWarning? <==>
            ParseYearBound(panel.yearFrom).Malformed? || ParseYearBound(panel.yearTo).Malformed?
            || ParsePriceBound(panel.priceFrom, parseDouble).Malformed?
            || ParsePriceBound(panel.priceTo, parseDouble).Malformed?)
      && (ParseYearBound(panel.yearFrom).Malformed? ==> r == PanelWarning(YEAR_FROM_WARNING))
      && (r == PanelWarning(PRICE_TO_WARNING) ==>
            !ParseYearBound(panel.yearFrom).Malformed? && !ParseYearBound(panel.yearTo).Malformed?
            && !ParsePriceBound(panel.priceFrom, parseDouble).Malformed?)
      && (r.PanelBounds? ==> (r.minYear.Some? <==> ParseYearBound(panel.yearFrom).Bound?))
  {
  }

  /** The criteria applyFilters installs for a well-formed panel. */
  function CriteriaOf(search: string, panel: FilterPanel, bounds: PanelReading, old_: OldControls,
                      parseDouble: string -> Option<real>): Criteria
    requires bounds.PanelBounds?
  {
    Criteria(search, panel.brand, bounds.minYear, bounds.maxYear, bounds.minPrice, bounds.maxPrice,
             old_.brand, old_.minYear, old_.maxYear,
             OldPriceBound(old_.minPrice, parseDouble), OldPriceBound(old_.maxPrice, parseDouble))
  }

  datatype FilterOutcome = Applied(found: nat) | Warned(warning: string)

  // ------------------------------------------------------------ the screen

  class CarHubView {
    const priceText: int -> string
    var carsList: seq<Car>
    var brandChoices: seq<string>
    var filter: Option<Criteria>
    var priceSortState: int
    var yearSortState: int
    var mileageSortState: int
    /** The card pane, in display order. */
    var cards: seq<Car>

    /** Each state is -1, 0 or 1, and at most one of them is set. */
    ghost predicate Valid()
      reads this
    {
      && -1 <= priceSortState <= 1 && -1 <= yearSortState <= 1 && -1 <= mileageSortState <= 1
      && (priceSortState == 0 || (yearSortState == 0 && mileageSortState == 0))
      && (yearSortState == 0 || mileageSortState == 0)
    }

    /** The FilteredList: the loaded cars the installed predicate passes. */
    function Filtered(): seq<Car>
      reads this
    {
      Filter(carsList, Passes(filter, priceText))
    }

    /** initialize: the loaded cars, the brand list, the pass-all predicate,
        no sort and every car on a card. */
    constructor (cars: seq<Car>, priceText: int -> string)
      ensures Valid()
      ensures this.priceText == priceText && carsList == cars && filter == None
      ensures brandChoices == BrandChoices(cars)
      ensures priceSortState == 0 && yearSortState == 0 && mileageSortState == 0
      ensures cards == cars && cards == Filtered()
    {
      this.priceText := priceText;
      carsList := cars;
      brandChoices := BrandChoices(cars);
      filter := None;
      priceSortState, yearSortState, mileageSortState := 0, 0, 0;
      cards := cars;
      new;
      PassesAll(cars, priceText);
    }

    /** applySorting: copies the filtered cars and sorts the copy onto the cards. */
    method ApplySorting()
      modifies this
      ensures cards == Arranged(Filtered(), priceSortState, yearSortState, mileageSortState)
      ensures carsList == old(carsList) && filter == old(filter) && brandChoices == old(brandChoices)
      ensures priceSortState == old(priceSortState) && yearSortState == old(yearSortState)
      ensures mileageSortState == old(mileageSortState)
    {
      var sortedList := Filtered();
      if priceSortState != 0 {
        sortedList := Directed(sortedList, priceSortState, PriceKey);
      } else if yearSortState != 0 {
        sortedList := Directed(sortedList, yearSortState, YearKey);
      } else if mileageSortState != 0 {
        sortedList := Directed(sortedList, mileageSortState, MileageKey);
      }
      cards := sortedList;
    }

    /** resetOtherSorts: every state but the kept one goes to 0. */
    method ResetOtherSorts(keep: SortField)
      modifies this
      ensures priceSortState == if keep == PriceSort then old(priceSortState) else 0
      ensures yearSortState == if keep == YearSort then old(yearSortState) else 0
      ensures mileageSortState == if keep == MileageSort then old(mileageSortState) else 0
      ensures carsList == old(carsList) && filter == old(filter) && brandChoices == old(brandChoices)
      ensures cards == old(cards)
    {
      if keep != PriceSort {
        priceSortState := 0;
      }
      if keep != YearSort {
        yearSortState := 0;
      }
      if keep != MileageSort {
        mileageSortState := 0;
      }
    }

    /** sortByPrice: the other states go to 0, the price state moves one step
        round its cycle, and the cards are re-sorted. */
    method SortByPrice()
      requires Valid()
      modifies this
      ensures Valid()
      ensures priceSortState == NextSortState(old(priceSortState))
      ensures yearSortState == 0 && mileageSortState == 0
      ensures cards == Arranged(Filtered(), priceSortState, 0, 0)
      ensures carsList == old(carsList) && filter == old(filter) && brandChoices == old(brandChoices)
    {
      SortCycle(priceSortState);
      ResetOtherSorts(PriceSort);
      priceSortState := NextSortState(priceSortState);
      ApplySorting();
    }

    /** sortByYear: the same for the year state. */
    method SortByYear()
      requires Valid()
      modifies this
      ensures Valid()
      ensures yearSortState == NextSortState(old(yearSortState))
      ensures priceSortState == 0 && mileageSortState == 0
      ensures cards == Arranged(Filtered(), 0, yearSortState, 0)
      ensures carsList == old(carsList) && filter == old(filter) && brandChoices == old(brandChoices)
    {
      SortCycle(yearSortState);
      ResetOtherSorts(YearSort);
      yearSortState := NextSortState(yearSortState);
      ApplySorting();
    }

    /** sortByMileage: the same for the mileage state. */
    method SortByMileage()
      requires Valid()
      modifies this
      ensures Valid()
      ensures mileageSortState == NextSortState(old(mileageSortState))
      ensures priceSortState == 0 && yearSortState == 0
      ensures cards == Arranged(Filtered(), 0, 0, mileageSortState)
      ensures carsList == old(carsList) && filter == old(filter) && brandChoices == old(brandChoices)
    {
      SortCycle(mileageSortState);
      ResetOtherSorts(MileageSort);
      mileageSortState := NextSortState(mileageSortState);
      ApplySorting();
    }

    /** resetSort: every state to 0, so the cards show the filtered cars in
        load order. */
    method ResetSort()
      modifies this
      ensures Valid()
      ensures priceSortState == 0 && yearSortState == 0 && mileageSortState == 0
      ensures cards == Filtered()
      ensures carsList == old(carsList) && filter == old(filter) && brandChoices == old(brandChoices)
    {
      priceSortState, yearSortState, mileageSortState := 0, 0, 0;
      ApplySorting();
    }

    /** applyFilters: the four bound fields are parsed in order and the first
        malformed one aborts with its warning, leaving the predicate and the
        cards as they were; otherwise the new predicate is installed, sorted
        cards are drawn, and then the cards are redrawn from the filtered list
        in load order. */
    method ApplyFilters(search: string, panel: FilterPanel, controls: OldControls,
                        parseDouble: string -> Option<real>)
      returns (outcome: FilterOutcome)
      requires Valid()
      modifies this
      ensures Valid()
      ensures priceSortState == old(priceSortState) && yearSortState == old(yearSortState)
      ensures mileageSortState == old(mileageSortState)
      ensures carsList == old(carsList) && brandChoices == old(brandChoices)
      ensures var r := ReadPanel(panel, parseDouble);
        && (r.PanelWarning? ==> outcome == Warned(r.warning) && filter == old(filter) && cards == old(cards))
        && (r.PanelBounds? ==>
              && filter == Some(CriteriaOf(search, panel, r, controls, parseDouble))
              && cards == Filtered()
              && outcome == Applied(|Filtered()|))
    {
      var yearFrom := ParseYearBound(panel.yearFrom);
      var yearTo := ParseYearBound(panel.yearTo);
      var priceFrom := ParsePriceBound(panel.priceFrom, parseDouble);
      var priceTo := ParsePriceBound(panel.priceTo, parseDouble);
      if yearFrom.Malformed? {
        outcome := Warned(YEAR_FROM_WARNING);
      } else if yearTo.Malformed? {
        outcome := Warned(YEAR_TO_WARNING);
      } else if priceFrom.Malformed? {
        outcome := Warned(PRICE_FROM_WARNING);
      } else if priceTo.Malformed? {
        outcome := Warned(PRICE_TO_WARNING);
      } else {
        filter := Some(Criteria(search, panel.brand, yearFrom.AsOption(), yearTo.AsOption(),
                                priceFrom.AsOption(), priceTo.AsOption(),
                                controls.brand, controls.minYear, controls.maxYear,
                                OldPriceBound(controls.minPrice, parseDouble),
                                OldPriceBound(controls.maxPrice, parseDouble)));
        ApplySorting();
        cards := Filtered();
        outcome := Applied(|Filtered()|);
      }
    }

    /** applyFilters as evidently intended: the cards keep the active sort. */
    method ApplyFiltersSorted(search: string, panel: FilterPanel, controls: OldControls,
                              parseDouble: string -> Option<real>)
      returns (outcome: FilterOutcome)
      requires Valid()
      modifies this
      ensures Valid()
      ensures priceSortState == old(priceSortState) && yearSortState == old(yearSortState)
      ensures mileageSortState == old(mileageSortState)
      ensures carsList == old(carsList) && brandChoices == old(brandChoices)
      ensures var r := ReadPanel(panel, parseDouble);
        && (r.PanelWarning? ==> outcome == Warned(r.warning) && filter == old(filter) && cards == old(cards))
        && (r.PanelBounds? ==>
              && filter == Some(CriteriaOf(search, panel, r, controls, parseDouble))
              && cards == Arranged(Filtered(), priceSortState, yearSortState, mileageSortState)
              && outcome == Applied(|Filtered()|))
    {
      outcome := ApplyFilters(search, panel, controls, parseDouble);
      if outcome.Applied? {
        ApplySorting();
      }
    }
  }

  /** As written, applyFilters leaves the cards in load order under an active
      sort: with the price state at 1 and a dearer car loaded first, the cards
      it draws are not in ascending price, while the sorted arrangement is. */
  lemma FilterRedrawDropsSort(show: int -> string)
    ensures var dear := Car(1, "A", "A", 20, None, None, None, None, None);
      var cheap := Car(2, "B", "B", 10, None, None, None, None, None);
      var shown := Filter([dear, cheap], Passes(None, show));
      && shown == [dear, cheap] && shown[0].price > shown[1].price
      && Arranged(shown, 1, 0, 0) == [cheap, dear]
  {
    var dear := Car(1, "A", "A", 20, None, None, None, None, None);
    var cheap := Car(2, "B", "B", 10, None, None, None, None, None);
    PassesAll([dear, cheap], show);
    TwoSortedAscending(dear, cheap);
  }

  /** Sorting two cars ascending by price puts the cheaper first. */
  lemma TwoSortedAscending(dear: Car, cheap: Car)
    requires cheap.price < dear.price
    ensures Arranged([dear, cheap], 1, 0, 0) == [cheap, dear]
  {
    var r := Directed([dear, cheap], 1, PriceKey);
    DirectedSpec([dear, cheap], 1, PriceKey);
    assert |r| == 2;
    assert r[0] in multiset(r) && r[1] in multiset(r);
    assert r[0].price <= r[1].price;
  }
}
