/**
 * The budget arithmetic of `budget.ts`: the direct cost of a line item, the
 * amount of a markup, the three-criterion filter and the budget summary.
 * Amounts are mathematical reals: nothing here is about floating-point
 * rounding.
 */
module Budget {
  import opened Optional

  datatype CostType = Labor | Material | Sub

  datatype MarkupMode = Percent | Fixed

  datatype Markup = Markup(mode: MarkupMode, value: real)

  datatype ProjectMarkups = ProjectMarkups(tax: Markup, ohp: Markup, insurance: Markup, contingency: Markup, escalation: Markup)

  /**
   * A line item. The optional fields are `None` when the record leaves them
   * out or holds `null`; the two are treated alike.
   */
  datatype LineItem = LineItem(
    id: string,
    projectId: string,
    areaId: Option<string>,
    scopeId: Option<string>,
    costType: CostType,
    description: string,
    qty: Option<real>,
    unitCost: Option<real>,
    hours: Option<real>,
    hourlyRate: Option<real>,
    subAmount: Option<real>)

  /** The filter value that lets every area, scope or cost type through. */
  const All: string := "all"

  datatype CostTypeFilter = AnyCostType | OnlyCostType(costType: CostType)

  /** Area and scope filters are ids, or `All`. */
  datatype BudgetFilters = BudgetFilters(areaId: string, scopeId: string, costType: CostTypeFilter)

  datatype BudgetSummary = BudgetSummary(
    directSubtotal: real,
    insurance: real,
    ohp: real,
    tax: real,
    contingency: real,
    escalation: real,
    totalBudget: real)

  /** A missing amount counts as zero. */
  function Amount(value: Option<real>): real {
    value.GetOr(0.0)
  }

  /**
   * What an item costs before markups: hours times rate for labour,
   * quantity times unit cost for material, the subcontract amount otherwise.
   */
  function DirectCost(item: LineItem): real {
    match item.costType
    case Labor => Amount(item.hours) * Amount(item.hourlyRate)
    case Material => Amount(item.qty) * Amount(item.unitCost)
    case Sub => Amount(item.subAmount)
  }

  /** Each cost type reads only its own fields: the others may hold anything. */
  lemma DirectCostReadsOwnFields(item: LineItem, qty: Option<real>, unitCost: Option<real>, hours: Option<real>,
                                 hourlyRate: Option<real>, subAmount: Option<real>)
    ensures item.costType == Labor ==>
      DirectCost(item.(qty := qty, unitCost := unitCost, subAmount := subAmount)) == DirectCost(item)
    ensures item.costType == Material ==>
      DirectCost(item.(hours := hours, hourlyRate := hourlyRate, subAmount := subAmount)) == DirectCost(item)
    ensures item.costType == Sub ==>
      DirectCost(item.(qty := qty, unitCost := unitCost, hours := hours, hourlyRate := hourlyRate)) == DirectCost(item)
  {
  }

  /** A missing factor makes a labour or material item cost nothing, and a sub item without an amount too. */
  lemma MissingAmountsCostNothing(item: LineItem)
    ensures item.costType == Labor && (item.hours.None? || item.hourlyRate.None?) ==> DirectCost(item) == 0.0
    ensures item.costType == Material && (item.qty.None? || item.unitCost.None?) ==> DirectCost(item) == 0.0
    ensures item.costType == Sub && item.subAmount.None? ==> DirectCost(item) == 0.0
  {
  }

  /** The amount a markup adds to `baseAmount`: its value when fixed, that percentage of the base otherwise. */
  function MarkupAmount(baseAmount: real, markup: Markup): real {
    if markup.mode == Fixed then markup.value
    else baseAmount * (markup.value / 100.0)
  }

  /** A fixed markup does not depend on the base. */
  lemma FixedMarkupIgnoresBase(base1: real, base2: real, markup: Markup)
    requires markup.mode == Fixed
    ensures MarkupAmount(base1, markup) == MarkupAmount(base2, markup) == markup.value
  {
  }

  /**
   * A percent markup is that fraction of the base: it adds over a split of
   * the base, gives nothing on a zero base, and 100 percent gives the base.
   */
  lemma PercentMarkupProportional(base1: real, base2: real, markup: Markup)
    requires markup.mode == Percent
    ensures MarkupAmount(base1 + base2, markup) == MarkupAmount(base1, markup) + MarkupAmount(base2, markup)
    ensures MarkupAmount(0.0, markup) == 0.0
    ensures MarkupAmount(base1, markup) * 100.0 == base1 * markup.value
    ensures markup.value == 100.0 ==> MarkupAmount(base1, markup) == base1
  {
  }

  /** An item passes the filters when it matches every criterion that is not `All`. */
  predicate Passes(item: LineItem, filters: BudgetFilters) {
    && (filters.areaId == All || item.areaId == Some(filters.areaId))
    && (filters.scopeId == All || item.scopeId == Some(filters.scopeId))
    && (filters.costType.AnyCostType? || item.costType == filters.costType.costType)
  }

  /** `filterLineItems`: the items that pass the filters, in their order. */
  function FilterLineItems(items: seq<LineItem>, filters: BudgetFilters): (kept: seq<LineItem>)
    ensures |kept| <= |items|
    ensures forall i :: 0 <= i < |kept| ==> Passes(kept[i], filters)
  {
    if items == [] then []
    else
      var last := items[|items| - 1];
      FilterLineItems(items[..|items| - 1], filters) + (if Passes(last, filters) then [last] else [])
  }

  /** Filtering a concatenation filters each part. */
  lemma {:induction false} FilterAppend(a: seq<LineItem>, b: seq<LineItem>, filters: BudgetFilters)
    ensures FilterLineItems(a + b, filters) == FilterLineItems(a, filters) + FilterLineItems(b, filters)
    decreases |b|
  {
    if b == [] {
      assert a + b == a;
    } else {
      var init := b[..|b| - 1];
      var last := b[|b| - 1];
      assert (a + b)[..|a + b| - 1] == a + init;
      FilterAppend(a, init, filters);
    }
  }

  /**
   * The filter keeps each item that passes as often as the input has it, and
   * no other item.
   */
  lemma {:induction false} FilterCounts(items: seq<LineItem>, filters: BudgetFilters, x: LineItem)
    ensures multiset(FilterLineItems(items, filters))[x] == if Passes(x, filters) then multiset(items)[x] else 0
  {
    if items != [] {
      var init := items[..|items| - 1];
      assert items == init + [items[|items| - 1]];
      FilterCounts(init, filters, x);
    }
  }

  /** An item is in the filtered list exactly when it is in the input and passes. */
  lemma FilterMembership(items: seq<LineItem>, filters: BudgetFilters, x: LineItem)
    ensures x in FilterLineItems(items, filters) <==> x in items && Passes(x, filters)
  {
    FilterCounts(items, filters, x);
    assert x in FilterLineItems(items, filters) <==> multiset(FilterLineItems(items, filters))[x] > 0;
    assert x in items <==> multiset(items)[x] > 0;
  }

  /**
   * `a` is a subsequence of `b`: the elements of `a` occur in `b` in the same
   * order (matched greedily from the end, which finds an embedding whenever
   * there is one).
   */
  predicate IsSubsequence<T(==)>(a: seq<T>, b: seq<T>)
    decreases |b|
  {
    if a == [] then true
    else if b == [] then false
    else if a[|a| - 1] == b[|b| - 1] then IsSubsequence(a[..|a| - 1], b[..|b| - 1])
    else IsSubsequence(a, b[..|b| - 1])
  }

  /** The filtered list keeps the input order. */
  lemma {:induction false} FilterIsSubsequence(items: seq<LineItem>, filters: BudgetFilters)
    ensures IsSubsequence(FilterLineItems(items, filters), items)
  {
    if items != [] {
      var init := items[..|items| - 1];
      var last := items[|items| - 1];
      var kept := FilterLineItems(items, filters);
      FilterIsSubsequence(init, filters);
      if Passes(last, filters) {
        assert kept[..|kept| - 1] == FilterLineItems(init, filters);
      } else {
        assert kept == FilterLineItems(init, filters);
        if kept != [] {
          assert Passes(kept[|kept| - 1], filters);
        }
      }
    }
  }

  /** The filters that let everything through. */
  const NoFilters: BudgetFilters := BudgetFilters(All, All, AnyCostType)

  /** With every criterion `All`, the filter returns its input. */
  lemma {:induction false} FilterAllIsIdentity(items: seq<LineItem>)
    ensures FilterLineItems(items, NoFilters) == items
  {
    if items != [] {
      FilterAllIsIdentity(items[..|items| - 1]);
      assert items[..|items| - 1] + [items[|items| - 1]] == items;
    }
  }

  /** Filtering twice with the same filters is filtering once. */
  lemma {:induction false} FilterIdempotent(items: seq<LineItem>, filters: BudgetFilters)
    ensures FilterLineItems(FilterLineItems(items, filters), filters) == FilterLineItems(items, filters)
  {
    if items != [] {
      var init := items[..|items| - 1];
      var last := items[|items| - 1];
      FilterIdempotent(init, filters);
      var once := FilterLineItems(init, filters);
      var tail := if Passes(last, filters) then [last] else [];
      FilterAppend(once, tail, filters);
      if Passes(last, filters) {
        assert [last][..0] == [];
        assert FilterLineItems(tail, filters) == [] + [last];
      }
    }
  }

  /** The sum of the items' direct costs, added up from the first. */
  function TotalDirectCost(items: seq<LineItem>): real {
    if items == [] then 0.0
    else TotalDirectCost(items[..|items| - 1]) + DirectCost(items[|items| - 1])
  }

  /** The total over a concatenation is the sum of the totals. */
  lemma {:induction false} TotalAppend(a: seq<LineItem>, b: seq<LineItem>)
    ensures TotalDirectCost(a + b) == TotalDirectCost(a) + TotalDirectCost(b)
    decreases |b|
  {
    if b == [] {
      assert a + b == a;
    } else {
      assert (a + b)[..|a + b| - 1] == a + b[..|b| - 1];
      TotalAppend(a, b[..|b| - 1]);
    }
  }

  /**
   * `summarizeBudget`: the direct subtotal of the filtered items, the five
   * markups on the filtered or the overall subtotal as `applyMarkupsToFilteredView`
   * says, and their total.
   */
  function SummarizeBudget(allItems: seq<LineItem>, filteredItems: seq<LineItem>, markups: ProjectMarkups,
                           applyMarkupsToFilteredView: bool): (summary: BudgetSummary)
    ensures summary.totalBudget == summary.directSubtotal + summary.insurance + summary.ohp + summary.tax
                                   + summary.contingency + summary.escalation
  {
    var subtotalForTable := TotalDirectCost(filteredItems);
    var subtotalForMarkups := TotalDirectCost(if applyMarkupsToFilteredView then filteredItems else allItems);
    var insurance := MarkupAmount(subtotalForMarkups, markups.insurance);
    var ohp := MarkupAmount(subtotalForMarkups, markups.ohp);
    var tax := MarkupAmount(subtotalForMarkups, markups.tax);
    var contingency := MarkupAmount(subtotalForMarkups, markups.contingency);
    var escalation := MarkupAmount(subtotalForMarkups, markups.escalation);
    BudgetSummary(subtotalForTable, insurance, ohp, tax, contingency, escalation,
                  subtotalForTable + insurance + ohp + tax + contingency + escalation)
  }

  /** The five markups of a summary, each on the same base. */
  predicate MarkupsOn(summary: BudgetSummary, base: real, markups: ProjectMarkups) {
    && summary.insurance == MarkupAmount(base, markups.insurance)
    && summary.ohp == MarkupAmount(base, markups.ohp)
    && summary.tax == MarkupAmount(base, markups.tax)
    && summary.contingency == MarkupAmount(base, markups.contingency)
    && summary.escalation == MarkupAmount(base, markups.escalation)
  }

  /**
   * The direct subtotal always covers the filtered items; the markups are
   * on the filtered subtotal when the flag is set and on the overall one
   * otherwise.
   */
  lemma SummaryBases(allItems: seq<LineItem>, filteredItems: seq<LineItem>, markups: ProjectMarkups, apply: bool)
    ensures var summary := SummarizeBudget(allItems, filteredItems, markups, apply);
      && summary.directSubtotal == TotalDirectCost(filteredItems)
      && (apply ==> MarkupsOn(summary, TotalDirectCost(filteredItems), markups))
      && (!apply ==> MarkupsOn(summary, TotalDirectCost(allItems), markups))
  {
  }

  /** With the flag set, the summary does not look at the overall item list. */
  lemma FilteredSummaryIgnoresAllItems(all1: seq<LineItem>, all2: seq<LineItem>, filteredItems: seq<LineItem>,
                                       markups: ProjectMarkups)
    ensures SummarizeBudget(all1, filteredItems, markups, true) == SummarizeBudget(all2, filteredItems, markups, true)
  {
  }

  /**
   * When the view is unfiltered, or when every markup is fixed, the flag
   * makes no difference.
   */
  lemma FlagIrrelevant(allItems: seq<LineItem>, filteredItems: seq<LineItem>, markups: ProjectMarkups)
    requires filteredItems == allItems || (
      && markups.tax.mode == Fixed && markups.ohp.mode == Fixed && markups.insurance.mode == Fixed
      && markups.contingency.mode == Fixed && markups.escalation.mode == Fixed)
    ensures SummarizeBudget(allItems, filteredItems, markups, true) == SummarizeBudget(allItems, filteredItems, markups, false)
  {
  }

  /**
   * The summary of the unfiltered view: the overall direct cost plus the
   * five markups on it.
   */
  lemma UnfilteredSummary(items: seq<LineItem>, markups: ProjectMarkups, apply: bool)
    ensures var summary := SummarizeBudget(items, FilterLineItems(items, NoFilters), markups, apply);
      && summary.directSubtotal == TotalDirectCost(items)
      && MarkupsOn(summary, TotalDirectCost(items), markups)
  {
    FilterAllIsIdentity(items);
  }

  /**
   * When every markup is a percentage, the total is the direct subtotal plus
   * the sum of the percentages of the markup base.
   */
  lemma PercentTotal(allItems: seq<LineItem>, filteredItems: seq<LineItem>, markups: ProjectMarkups, apply: bool)
    requires && markups.tax.mode == Percent && markups.ohp.mode == Percent && markups.insurance.mode == Percent
             && markups.contingency.mode == Percent && markups.escalation.mode == Percent
    ensures var summary := SummarizeBudget(allItems, filteredItems, markups, apply);
      var base := TotalDirectCost(if apply then filteredItems else allItems);
      var percent := markups.tax.value + markups.ohp.value + markups.insurance.value
                     + markups.contingency.value + markups.escalation.value;
      summary.totalBudget * 100.0 == summary.directSubtotal * 100.0 + base * percent
  {
    var summary := SummarizeBudget(allItems, filteredItems, markups, apply);
    var base := TotalDirectCost(if apply then filteredItems else allItems);
    assert MarkupAmount(base, markups.tax) * 100.0 == base * markups.tax.value;
    assert MarkupAmount(base, markups.ohp) * 100.0 == base * markups.ohp.value;
    assert MarkupAmount(base, markups.insurance) * 100.0 == base * markups.insurance.value;
    assert MarkupAmount(base, markups.contingency) * 100.0 == base * markups.contingency.value;
    assert MarkupAmount(base, markups.escalation) * 100.0 == base * markups.escalation.value;
    PercentSum(summary, base, markups);
  }

  lemma PercentSum(summary: BudgetSummary, base: real, markups: ProjectMarkups)
    requires summary.tax * 100.0 == base * markups.tax.value
    requires summary.ohp * 100.0 == base * markups.ohp.value
    requires summary.insurance * 100.0 == base * markups.insurance.value
    requires summary.contingency * 100.0 == base * markups.contingency.value
    requires summary.escalation * 100.0 == base * markups.escalation.value
    requires summary.totalBudget == summary.directSubtotal + summary.insurance + summary.ohp + summary.tax
                                   + summary.contingency + summary.escalation
    ensures summary.totalBudget * 100.0 == summary.directSubtotal * 100.0 + base * (markups.tax.value + markups.ohp.value
              + markups.insurance.value + markups.contingency.value + markups.escalation.value)
  {
    var t, o, i, c, e := markups.tax.value, markups.ohp.value, markups.insurance.value,
                         markups.contingency.value, markups.escalation.value;
    assert base * (t + o + i + c + e) == base * t + base * o + base * i + base * c + base * e;
  }
}
