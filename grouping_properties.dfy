/**
 * What `groupLineItemsByAreaAndScope` promises about its result, proved of
 * `BudgetGrouping.Grouping` (which the method's result equals): the groups
 * partition the items, the subtotals add up, areas and scopes come in
 * first-seen order, each group keeps the input order of its items, and items
 * without an area or a scope land under the unassigned ones.
 */
module GroupingProperties {
  import opened Optional
  import opened Budget
  import opened BudgetGrouping

  /** The items of a list of scope groups, group after group. */
  function ScopeItems(scopes: seq<ScopeGroup>): seq<LineItem> {
    if scopes == [] then [] else ScopeItems(scopes[..|scopes| - 1]) + scopes[|scopes| - 1].items
  }

  /** The items of a list of area groups, area after area and scope after scope. */
  function AllItems(groups: seq<AreaScopeGroup>): seq<LineItem> {
    if groups == [] then [] else AllItems(groups[..|groups| - 1]) + ScopeItems(groups[|groups| - 1].scopes)
  }

  /** The sum of the scope subtotals. */
  function ScopeSubtotalSum(scopes: seq<ScopeGroup>): real {
    if scopes == [] then 0.0 else ScopeSubtotalSum(scopes[..|scopes| - 1]) + scopes[|scopes| - 1].scopeSubtotal
  }

  /** The sum of the area subtotals. */
  function AreaSubtotalSum(groups: seq<AreaScopeGroup>): real {
    if groups == [] then 0.0 else AreaSubtotalSum(groups[..|groups| - 1]) + groups[|groups| - 1].areaSubtotal
  }

  predicate Distinct(ids: seq<string>) {
    forall i, j :: 0 <= i < j < |ids| ==> ids[i] != ids[j]
  }

  // Selections of several keys, one after the other.

  /** The items of each key of `ids` in turn. */
  function Gather(items: seq<LineItem>, level: Level, ids: seq<string>): seq<LineItem> {
    if ids == [] then [] else Gather(items, level, ids[..|ids| - 1]) + Select(items, level, ids[|ids| - 1])
  }

  /** The direct cost of the items of each key of `ids`, added up key by key. */
  function GatherCost(items: seq<LineItem>, level: Level, ids: seq<string>): real {
    if ids == [] then 0.0 else GatherCost(items, level, ids[..|ids| - 1]) + TotalDirectCost(Select(items, level, ids[|ids| - 1]))
  }

  /** The keys of `ids`, as a set. */
  function KeySet(ids: seq<string>): (keys: set<string>)
    ensures forall k :: k in keys <==> k in ids
  {
    if ids == [] then {}
    else
      var init := ids[..|ids| - 1];
      assert forall k :: k in ids <==> k in init || k == ids[|ids| - 1];
      KeySet(init) + {ids[|ids| - 1]}
  }

  lemma DistinctInit(ids: seq<string>)
    requires ids != [] && Distinct(ids)
    ensures Distinct(ids[..|ids| - 1]) && ids[|ids| - 1] !in KeySet(ids[..|ids| - 1])
  {
  }

  /** Gathering distinct keys takes the items of those keys, each as often as it occurs. */
  lemma {:induction false} GatherCount(items: seq<LineItem>, level: Level, ids: seq<string>)
    requires Distinct(ids)
    ensures multiset(Gather(items, level, ids)) == multiset(SelectIn(items, level, KeySet(ids)))
  {
    if ids == [] {
      SelectInNone(items, level);
    } else {
      var init := ids[..|ids| - 1];
      DistinctInit(ids);
      GatherCount(items, level, init);
      SelectSplitCount(items, level, ids[|ids| - 1], KeySet(init));
    }
  }

  /** Gathering distinct keys costs what the items of those keys cost. */
  lemma {:induction false} GatherCostSplit(items: seq<LineItem>, level: Level, ids: seq<string>)
    requires Distinct(ids)
    ensures GatherCost(items, level, ids) == TotalDirectCost(SelectIn(items, level, KeySet(ids)))
  {
    if ids == [] {
      SelectInNone(items, level);
    } else {
      var init := ids[..|ids| - 1];
      DistinctInit(ids);
      GatherCostSplit(items, level, init);
      SelectSplitCost(items, level, ids[|ids| - 1], KeySet(init));
    }
  }

  lemma {:induction false} SelectInNone(items: seq<LineItem>, level: Level)
    ensures SelectIn(items, level, {}) == []
  {
    if items != [] {
      SelectInNone(items[..|items| - 1], level);
    }
  }

  /** Selecting every first-seen key selects every item. */
  lemma SelectInFirstSeen(items: seq<LineItem>, level: Level)
    ensures SelectIn(items, level, KeySet(FirstSeen(items, level))) == items
  {
    forall i | 0 <= i < |items|
      ensures Key(level, items[i]) in KeySet(FirstSeen(items, level))
    {
      FirstSeenMembers(items, level, Key(level, items[i]));
    }
    SelectInAll(items, level, KeySet(FirstSeen(items, level)));
  }

  /** A list of scope groups holding the selections of `ids` holds their gathering. */
  lemma {:induction false} ScopeItemsGather(scopes: seq<ScopeGroup>, items: seq<LineItem>, ids: seq<string>)
    requires |scopes| == |ids|
    requires forall j :: 0 <= j < |ids| ==> scopes[j].items == Select(items, ByScope, ids[j])
    requires forall j :: 0 <= j < |ids| ==> scopes[j].scopeSubtotal == TotalDirectCost(Select(items, ByScope, ids[j]))
    ensures ScopeItems(scopes) == Gather(items, ByScope, ids)
    ensures ScopeSubtotalSum(scopes) == GatherCost(items, ByScope, ids)
  {
    if ids != [] {
      ScopeItemsGather(scopes[..|scopes| - 1], items, ids[..|ids| - 1]);
    }
  }

  /** A list of area groups whose items and subtotals match the selections of `ids` adds up to their gathering. */
  lemma {:induction false} AllItemsGather(groups: seq<AreaScopeGroup>, items: seq<LineItem>, ids: seq<string>)
    requires |groups| == |ids|
    requires forall i :: 0 <= i < |ids| ==> multiset(ScopeItems(groups[i].scopes)) == multiset(Select(items, ByArea, ids[i]))
    requires forall i :: 0 <= i < |ids| ==> groups[i].areaSubtotal == TotalDirectCost(Select(items, ByArea, ids[i]))
    ensures multiset(AllItems(groups)) == multiset(Gather(items, ByArea, ids))
    ensures AreaSubtotalSum(groups) == GatherCost(items, ByArea, ids)
  {
    if ids != [] {
      AllItemsGather(groups[..|groups| - 1], items, ids[..|ids| - 1]);
    }
  }

  /** The scope groups of an area hold its items, each once, and their subtotals add up to the area's. */
  lemma ScopeGroupsPartition(areaItems: seq<LineItem>, scopeLookup: map<string, string>)
    ensures multiset(ScopeItems(ScopeGroups(areaItems, scopeLookup))) == multiset(areaItems)
    ensures ScopeSubtotalSum(ScopeGroups(areaItems, scopeLookup)) == TotalDirectCost(areaItems)
  {
    var ids := FirstSeen(areaItems, ByScope);
    ScopeItemsGather(ScopeGroups(areaItems, scopeLookup), areaItems, ids);
    GatherCount(areaItems, ByScope, ids);
    GatherCostSplit(areaItems, ByScope, ids);
    SelectInFirstSeen(areaItems, ByScope);
  }

  // The promises.

  /**
   * Every item is in exactly one scope group: gathering the items of all the
   * groups gives the input items, each as often as it occurs there.
   */
  lemma GroupingPartitions(items: seq<LineItem>, areaLookup: map<string, string>, scopeLookup: map<string, string>)
    ensures multiset(AllItems(Grouping(items, areaLookup, scopeLookup))) == multiset(items)
  {
    var groups := Grouping(items, areaLookup, scopeLookup);
    var ids := FirstSeen(items, ByArea);
    forall i | 0 <= i < |ids|
      ensures multiset(ScopeItems(groups[i].scopes)) == multiset(Select(items, ByArea, ids[i]))
    {
      ScopeGroupsPartition(Select(items, ByArea, ids[i]), scopeLookup);
    }
    AllItemsGather(groups, items, ids);
    GatherCount(items, ByArea, ids);
    SelectInFirstSeen(items, ByArea);
  }

  /**
   * Each scope subtotal is the direct cost of its items, each area subtotal
   * is the sum of its scope subtotals and the direct cost of its items, and
   * the area subtotals add up to the direct cost of all the items.
   */
  lemma GroupingSubtotals(items: seq<LineItem>, areaLookup: map<string, string>, scopeLookup: map<string, string>)
    ensures var groups := Grouping(items, areaLookup, scopeLookup);
      && (forall i, k :: 0 <= i < |groups| && 0 <= k < |groups[i].scopes| ==>
            groups[i].scopes[k].scopeSubtotal == TotalDirectCost(groups[i].scopes[k].items))
      && (forall i :: 0 <= i < |groups| ==>
            groups[i].areaSubtotal == ScopeSubtotalSum(groups[i].scopes) == TotalDirectCost(ScopeItems(groups[i].scopes)))
      && AreaSubtotalSum(groups) == TotalDirectCost(items)
  {
    var groups := Grouping(items, areaLookup, scopeLookup);
    var ids := FirstSeen(items, ByArea);
    forall i | 0 <= i < |groups|
      ensures groups[i].areaSubtotal == ScopeSubtotalSum(groups[i].scopes) == TotalDirectCost(ScopeItems(groups[i].scopes))
    {
      var areaItems := Select(items, ByArea, ids[i]);
      ScopeGroupsPartition(areaItems, scopeLookup);
      ScopeItemsCost(groups[i].scopes);
    }
    forall i | 0 <= i < |ids|
      ensures multiset(ScopeItems(groups[i].scopes)) == multiset(Select(items, ByArea, ids[i]))
    {
      ScopeGroupsPartition(Select(items, ByArea, ids[i]), scopeLookup);
    }
    AllItemsGather(groups, items, ids);
    GatherCostSplit(items, ByArea, ids);
    SelectInFirstSeen(items, ByArea);
  }

  /** When every scope subtotal is the cost of its items, their sum is the cost of all their items. */
  lemma {:induction false} ScopeItemsCost(scopes: seq<ScopeGroup>)
    requires forall k :: 0 <= k < |scopes| ==> scopes[k].scopeSubtotal == TotalDirectCost(scopes[k].items)
    ensures ScopeSubtotalSum(scopes) == TotalDirectCost(ScopeItems(scopes))
  {
    if scopes != [] {
      var init := scopes[..|scopes| - 1];
      ScopeItemsCost(init);
      TotalAppend(ScopeItems(init), scopes[|scopes| - 1].items);
    }
  }

  // What each group holds, and in which order the groups come.

  /** The items of area `a` and scope `s`, in their order. */
  function Pick(items: seq<LineItem>, a: string, s: string): seq<LineItem> {
    if items == [] then []
    else
      var last := items[|items| - 1];
      Pick(items[..|items| - 1], a, s) + (if AreaKey(last) == a && ScopeKey(last) == s then [last] else [])
  }

  /** An item is picked exactly when it is one of the items and has both keys. */
  lemma {:induction false} PickMembers(items: seq<LineItem>, a: string, s: string, x: LineItem)
    ensures x in Pick(items, a, s) <==> x in items && AreaKey(x) == a && ScopeKey(x) == s
  {
    if items != [] {
      var before := items[..|items| - 1];
      PickMembers(before, a, s, x);
      assert items == before + [items[|items| - 1]];
    }
  }

  /** The picked items keep the input order. */
  lemma {:induction false} PickIsSubsequence(items: seq<LineItem>, a: string, s: string)
    ensures IsSubsequence(Pick(items, a, s), items)
  {
    if items != [] {
      var before := items[..|items| - 1];
      var last := items[|items| - 1];
      var picked := Pick(items, a, s);
      PickIsSubsequence(before, a, s);
      if AreaKey(last) == a && ScopeKey(last) == s {
        assert picked[..|picked| - 1] == Pick(before, a, s);
      } else {
        assert picked == Pick(before, a, s);
        if picked != [] {
          PickMembers(before, a, s, picked[|picked| - 1]);
        }
      }
    }
  }

  /** Selecting by area and then by scope picks the items of both. */
  lemma {:induction false} SelectTwice(items: seq<LineItem>, a: string, s: string)
    ensures Select(Select(items, ByArea, a), ByScope, s) == Pick(items, a, s)
  {
    if items != [] {
      var before := items[..|items| - 1];
      var last := items[|items| - 1];
      var inArea := Select(items, ByArea, a);
      SelectTwice(before, a, s);
      if AreaKey(last) == a {
        assert inArea[..|inArea| - 1] == Select(before, ByArea, a);
        assert inArea[|inArea| - 1] == last;
      } else {
        assert inArea == Select(before, ByArea, a);
      }
    }
  }

  /** Some item has key `k` exactly when its selection is not empty. */
  lemma {:induction false} SelectNonEmpty(items: seq<LineItem>, level: Level, k: string)
    ensures Select(items, level, k) != [] <==> exists i :: 0 <= i < |items| && Key(level, items[i]) == k
  {
    if items != [] {
      var before := items[..|items| - 1];
      var last := items[|items| - 1];
      SelectNonEmpty(before, level, k);
      if Key(level, last) == k {
        assert Key(level, items[|items| - 1]) == k;
      } else {
        assert Select(items, level, k) == Select(before, level, k);
        if exists i :: 0 <= i < |items| && Key(level, items[i]) == k {
          var i :| 0 <= i < |items| && Key(level, items[i]) == k;
          assert before[i] == items[i];
        }
        if exists i :: 0 <= i < |before| && Key(level, before[i]) == k {
          var i :| 0 <= i < |before| && Key(level, before[i]) == k;
          assert before[i] == items[i];
        }
      }
    }
  }

  /** A scope is seen among the items of an area exactly when some item has both. */
  lemma AreaScopeMembers(items: seq<LineItem>, a: string, s: string)
    ensures s in FirstSeen(Select(items, ByArea, a), ByScope) <==>
      exists u :: 0 <= u < |items| && AreaKey(items[u]) == a && ScopeKey(items[u]) == s
  {
    var inArea := Select(items, ByArea, a);
    FirstSeenMembers(inArea, ByScope, s);
    SelectNonEmpty(inArea, ByScope, s);
    SelectTwice(items, a, s);
    var picked := Pick(items, a, s);
    if picked != [] {
      PickMembers(items, a, s, picked[0]);
    }
    forall u | 0 <= u < |items| && AreaKey(items[u]) == a && ScopeKey(items[u]) == s
      ensures items[u] in picked
    {
      PickMembers(items, a, s, items[u]);
    }
  }

  /**
   * First-seen order of the scopes of area `a`: an earlier scope has an item
   * of the area before every item of the area in a later scope.
   */
  lemma {:induction false} ScopeOrder(items: seq<LineItem>, a: string, i: nat, j: nat)
    requires i < j < |FirstSeen(Select(items, ByArea, a), ByScope)|
    ensures var ids := FirstSeen(Select(items, ByArea, a), ByScope);
      exists u :: 0 <= u < |items| && AreaKey(items[u]) == a && ScopeKey(items[u]) == ids[i]
        && forall v :: 0 <= v <= u && AreaKey(items[v]) == a ==> ScopeKey(items[v]) != ids[j]
  {
    var before := items[..|items| - 1];
    var last := items[|items| - 1];
    var inArea := Select(items, ByArea, a);
    var ids := FirstSeen(inArea, ByScope);
    var older := FirstSeen(Select(before, ByArea, a), ByScope);
    assert forall v :: 0 <= v < |before| ==> before[v] == items[v];
    if AreaKey(last) != a {
      assert inArea == Select(before, ByArea, a);
      ScopeOrder(before, a, i, j);
    } else {
      assert inArea[..|inArea| - 1] == Select(before, ByArea, a);
      assert inArea[|inArea| - 1] == last;
      if j < |older| {
        assert ids[i] == older[i] && ids[j] == older[j];
        ScopeOrder(before, a, i, j);
      } else {
        assert ids[i] == older[i] && ids[j] == ScopeKey(last) && ScopeKey(last) !in older;
        assert older[i] in older;
        AreaScopeMembers(before, a, older[i]);
        AreaScopeMembers(before, a, ScopeKey(last));
        var u :| 0 <= u < |before| && AreaKey(before[u]) == a && ScopeKey(before[u]) == older[i];
        assert forall v :: 0 <= v <= u && AreaKey(items[v]) == a ==> ScopeKey(items[v]) != ScopeKey(last);
      }
    }
  }

  /**
   * Areas come in first-seen order: group `i` is the area of some item that
   * comes before every item of the area of a later group `j`; no area appears twice.
   */
  lemma AreasInFirstSeenOrder(items: seq<LineItem>, areaLookup: map<string, string>, scopeLookup: map<string, string>,
                              i: nat, j: nat)
    requires i < j < |Grouping(items, areaLookup, scopeLookup)|
    ensures var groups := Grouping(items, areaLookup, scopeLookup);
      && groups[i].areaId != groups[j].areaId
      && (exists u :: 0 <= u < |items| && AreaKey(items[u]) == groups[i].areaId
            && forall v :: 0 <= v <= u ==> AreaKey(items[v]) != groups[j].areaId)
  {
    FirstSeenOrder(items, ByArea, i, j);
  }

  /**
   * Within an area, scopes come in first-seen order among the area's items,
   * and no scope appears twice.
   */
  lemma ScopesInFirstSeenOrder(items: seq<LineItem>, areaLookup: map<string, string>, scopeLookup: map<string, string>,
                               i: nat, k: nat, l: nat)
    requires i < |Grouping(items, areaLookup, scopeLookup)|
    requires k < l < |Grouping(items, areaLookup, scopeLookup)[i].scopes|
    ensures var area := Grouping(items, areaLookup, scopeLookup)[i];
      && area.scopes[k].scopeId != area.scopes[l].scopeId
      && (exists u :: 0 <= u < |items| && AreaKey(items[u]) == area.areaId && ScopeKey(items[u]) == area.scopes[k].scopeId
            && forall v :: 0 <= v <= u && AreaKey(items[v]) == area.areaId ==> ScopeKey(items[v]) != area.scopes[l].scopeId)
  {
    var a := FirstSeen(items, ByArea)[i];
    ScopeOrder(items, a, k, l);
  }

  /**
   * Each scope group holds exactly the items of its area and scope, at least
   * one, in their input order.
   */
  lemma GroupContents(items: seq<LineItem>, areaLookup: map<string, string>, scopeLookup: map<string, string>,
                      i: nat, k: nat)
    requires i < |Grouping(items, areaLookup, scopeLookup)|
    requires k < |Grouping(items, areaLookup, scopeLookup)[i].scopes|
    ensures var area := Grouping(items, areaLookup, scopeLookup)[i];
      var scope := area.scopes[k];
      && (forall x :: x in scope.items <==> x in items && AreaKey(x) == area.areaId && ScopeKey(x) == scope.scopeId)
      && scope.items != []
      && IsSubsequence(scope.items, items)
  {
    var a := FirstSeen(items, ByArea)[i];
    var s := FirstSeen(Select(items, ByArea, a), ByScope)[k];
    SelectTwice(items, a, s);
    PickIsSubsequence(items, a, s);
    forall x
      ensures x in Pick(items, a, s) <==> x in items && AreaKey(x) == a && ScopeKey(x) == s
    {
      PickMembers(items, a, s, x);
    }
    AreaScopeMembers(items, a, s);
    var u :| 0 <= u < |items| && AreaKey(items[u]) == a && ScopeKey(items[u]) == s;
    PickMembers(items, a, s, items[u]);
  }

  /**
   * Every item lands in the scope group of its scope id within the area group
   * of its area id, the unassigned ones standing in for a missing id; each
   * group is named by the lookup, or "Unassigned Area"/"Unassigned Scope"
   * when the lookup has no entry for its id.
   */
  lemma ItemPlacement(items: seq<LineItem>, areaLookup: map<string, string>, scopeLookup: map<string, string>, u: nat)
    requires u < |items|
    ensures var groups := Grouping(items, areaLookup, scopeLookup);
      var a := items[u].areaId.GetOr(UnassignedAreaId);
      var s := items[u].scopeId.GetOr(UnassignedScopeId);
      exists i, k :: 0 <= i < |groups| && 0 <= k < |groups[i].scopes|
        && groups[i].areaId == a && groups[i].scopes[k].scopeId == s && items[u] in groups[i].scopes[k].items
        && groups[i].areaName == (if a in areaLookup then areaLookup[a] else UnassignedAreaName)
        && groups[i].scopes[k].scopeName == (if s in scopeLookup then scopeLookup[s] else UnassignedScopeName)
  {
    var a := AreaKey(items[u]);
    var s := ScopeKey(items[u]);
    var i := FindArea(items, u);
    var k := FindScope(items, u);
    InOwnGroup(items, u);
    var area := GroupAt(items, areaLookup, scopeLookup, i);
    var scope := ScopeGroupAt(Select(items, ByArea, a), scopeLookup, k);
    assert area.scopes[k] == scope;
  }

  /** The index of an item's area among the areas. */
  lemma FindArea(items: seq<LineItem>, u: nat) returns (i: nat)
    requires u < |items|
    ensures i < |FirstSeen(items, ByArea)| && FirstSeen(items, ByArea)[i] == AreaKey(items[u])
  {
    FirstSeenMembers(items, ByArea, AreaKey(items[u]));
    var ids := FirstSeen(items, ByArea);
    i :| 0 <= i < |ids| && ids[i] == AreaKey(items[u]);
  }

  /** The index of an item's scope among the scopes of its area. */
  lemma FindScope(items: seq<LineItem>, u: nat) returns (k: nat)
    requires u < |items|
    ensures var scopeIds := FirstSeen(Select(items, ByArea, AreaKey(items[u])), ByScope);
      k < |scopeIds| && scopeIds[k] == ScopeKey(items[u])
  {
    AreaScopeMembers(items, AreaKey(items[u]), ScopeKey(items[u]));
    var scopeIds := FirstSeen(Select(items, ByArea, AreaKey(items[u])), ByScope);
    k :| 0 <= k < |scopeIds| && scopeIds[k] == ScopeKey(items[u]);
  }

  /** An item is among the items of its area and scope. */
  lemma InOwnGroup(items: seq<LineItem>, u: nat)
    requires u < |items|
    ensures items[u] in Select(Select(items, ByArea, AreaKey(items[u])), ByScope, ScopeKey(items[u]))
  {
    SelectTwice(items, AreaKey(items[u]), ScopeKey(items[u]));
    PickMembers(items, AreaKey(items[u]), ScopeKey(items[u]), items[u]);
  }

  /** Area group `i`, spelled out. */
  lemma GroupAt(items: seq<LineItem>, areaLookup: map<string, string>, scopeLookup: map<string, string>, i: nat)
    returns (area: AreaScopeGroup)
    requires i < |FirstSeen(items, ByArea)|
    ensures var a := FirstSeen(items, ByArea)[i];
      && i < |Grouping(items, areaLookup, scopeLookup)| && area == Grouping(items, areaLookup, scopeLookup)[i]
      && area.areaId == a && area.areaName == NameOr(areaLookup, a, UnassignedAreaName)
      && area.scopes == ScopeGroups(Select(items, ByArea, a), scopeLookup)
  {
    area := Grouping(items, areaLookup, scopeLookup)[i];
  }

  /** Scope group `k` of an area, spelled out. */
  lemma ScopeGroupAt(areaItems: seq<LineItem>, scopeLookup: map<string, string>, k: nat) returns (scope: ScopeGroup)
    requires k < |FirstSeen(areaItems, ByScope)|
    ensures var s := FirstSeen(areaItems, ByScope)[k];
      && k < |ScopeGroups(areaItems, scopeLookup)| && scope == ScopeGroups(areaItems, scopeLookup)[k]
      && scope.scopeId == s && scope.scopeName == NameOr(scopeLookup, s, UnassignedScopeName)
      && scope.items == Select(areaItems, ByScope, s)
  {
    scope := ScopeGroups(areaItems, scopeLookup)[k];
  }
}
