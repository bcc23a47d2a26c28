/**
 * `groupLineItemsByAreaAndScope`: line items grouped by area, then by scope
 * within each area, with running subtotals. The source fills an
 * insertion-ordered map of areas, each holding an insertion-ordered map of
 * scopes; here such a map is its key order (a sequence) beside a `map`.
 */
module BudgetGrouping {
  import opened Optional
  import opened Budget

  /** An area or scope record: only its id and its name matter here. */
  datatype ReferenceRecord = ReferenceRecord(id: string, name: string)

  datatype ScopeGroup = ScopeGroup(scopeId: string, scopeName: string, scopeSubtotal: real, items: seq<LineItem>)

  datatype AreaScopeGroup = AreaScopeGroup(areaId: string, areaName: string, areaSubtotal: real, scopes: seq<ScopeGroup>)

  const UnassignedAreaId: string := "unassigned-area"
  const UnassignedScopeId: string := "unassigned-scope"
  const UnassignedAreaName: string := "Unassigned Area"
  const UnassignedScopeName: string := "Unassigned Scope"

  /** The area an item is grouped under: its area id, or the unassigned area. */
  function AreaKey(item: LineItem): string {
    item.areaId.GetOr(UnassignedAreaId)
  }

  /** The scope an item is grouped under: its scope id, or the unassigned scope. */
  function ScopeKey(item: LineItem): string {
    item.scopeId.GetOr(UnassignedScopeId)
  }

  /** The two levels of the grouping. */
  datatype Level = ByArea | ByScope

  /** The key an item is grouped under at `level`. */
  function Key(level: Level, item: LineItem): string {
    match level
    case ByArea => AreaKey(item)
    case ByScope => ScopeKey(item)
  }

  /** `new Map(records.map(r => [r.id, r.name]))`: a record overrides earlier ones with the same id. */
  function Lookup(records: seq<ReferenceRecord>): (names: map<string, string>)
    ensures forall id :: id in names <==> exists i :: 0 <= i < |records| && records[i].id == id
  {
    if records == [] then map[]
    else
      var last := records[|records| - 1];
      var before := records[..|records| - 1];
      assert forall i :: 0 <= i < |before| ==> before[i] == records[i];
      Lookup(before)[last.id := last.name]
  }

  /** The name a lookup gives for `id` is that of the last record with that id. */
  lemma {:induction false} LookupLastWins(records: seq<ReferenceRecord>, j: nat)
    requires j < |records|
    requires forall k :: j < k < |records| ==> records[k].id != records[j].id
    ensures records[j].id in Lookup(records) && Lookup(records)[records[j].id] == records[j].name
  {
    if j < |records| - 1 {
      var before := records[..|records| - 1];
      assert before[j] == records[j];
      LookupLastWins(before, j);
    }
  }

  /** `lookup.get(id) ?? fallback`. */
  function NameOr(lookup: map<string, string>, id: string, fallback: string): string {
    if id in lookup then lookup[id] else fallback
  }

  /** The distinct keys of the items, in the order their first item comes. */
  function FirstSeen(items: seq<LineItem>, level: Level): (ids: seq<string>)
    ensures forall i, j :: 0 <= i < j < |ids| ==> ids[i] != ids[j]
  {
    if items == [] then []
    else
      var ids := FirstSeen(items[..|items| - 1], level);
      var k := Key(level, items[|items| - 1]);
      if k in ids then ids else ids + [k]
  }

  /** The first-seen keys are exactly the keys of the items. */
  lemma {:induction false} FirstSeenMembers(items: seq<LineItem>, level: Level, k: string)
    ensures k in FirstSeen(items, level) <==> exists i :: 0 <= i < |items| && Key(level, items[i]) == k
  {
    if items != [] {
      var before := items[..|items| - 1];
      FirstSeenMembers(before, level, k);
      assert forall i :: 0 <= i < |before| ==> before[i] == items[i];
    }
  }

  /**
   * First-seen order: an earlier key has an item before every item of a
   * later key.
   */
  lemma {:induction false} FirstSeenOrder(items: seq<LineItem>, level: Level, i: nat, j: nat)
    requires i < j < |FirstSeen(items, level)|
    ensures var ids := FirstSeen(items, level);
      exists u :: 0 <= u < |items| && Key(level, items[u]) == ids[i] && forall v :: 0 <= v <= u ==> Key(level, items[v]) != ids[j]
  {
    var ids := FirstSeen(items, level);
    var before := items[..|items| - 1];
    var k := Key(level, items[|items| - 1]);
    var older := FirstSeen(before, level);
    assert forall v :: 0 <= v < |before| ==> before[v] == items[v];
    if j < |older| {
      assert ids[i] == older[i] && ids[j] == older[j];
      FirstSeenOrder(before, level, i, j);
    } else {
      assert ids[i] == older[i] && ids[j] == k && k !in older;
      assert older[i] in older;
      FirstSeenMembers(before, level, older[i]);
      FirstSeenMembers(before, level, k);
      var u :| 0 <= u < |before| && Key(level, before[u]) == older[i];
      assert forall v :: 0 <= v <= u ==> Key(level, items[v]) != k;
    }
  }

  /** The items with key `k`, in their order. */
  function Select(items: seq<LineItem>, level: Level, k: string): (sel: seq<LineItem>)
    ensures |sel| <= |items|
    ensures forall i :: 0 <= i < |sel| ==> Key(level, sel[i]) == k
  {
    if items == [] then []
    else
      var last := items[|items| - 1];
      Select(items[..|items| - 1], level, k) + (if Key(level, last) == k then [last] else [])
  }

  /** The items whose key is in `keys`, in their order. */
  function SelectIn(items: seq<LineItem>, level: Level, keys: set<string>): seq<LineItem> {
    if items == [] then []
    else
      var last := items[|items| - 1];
      SelectIn(items[..|items| - 1], level, keys) + (if Key(level, last) in keys then [last] else [])
  }

  lemma SnocInit<T>(s: seq<T>, x: T)
    ensures (s + [x])[..|s|] == s && (s + [x])[|s|] == x
  {
  }

  lemma TakeOneMore<T>(s: seq<T>, n: nat)
    requires n < |s|
    ensures s[..n + 1] == s[..n] + [s[n]]
  {
  }

  lemma TakeAll<T>(s: seq<T>)
    ensures s[..|s|] == s
  {
  }

  /** No item has key `k`: nothing is selected. */
  lemma {:induction false} SelectNone(items: seq<LineItem>, level: Level, k: string)
    requires k !in FirstSeen(items, level)
    ensures Select(items, level, k) == []
  {
    if items != [] {
      var before := items[..|items| - 1];
      assert forall i :: 0 <= i < |before| ==> before[i] == items[i];
      SelectNone(before, level, k);
    }
  }

  /** Every key in `keys`: everything is selected. */
  lemma {:induction false} SelectInAll(items: seq<LineItem>, level: Level, keys: set<string>)
    requires forall i :: 0 <= i < |items| ==> Key(level, items[i]) in keys
    ensures SelectIn(items, level, keys) == items
  {
    if items != [] {
      var before, last := items[..|items| - 1], items[|items| - 1];
      assert Key(level, last) in keys;
      SelectInAll(before, level, keys);
      assert before + [last] == items;
    }
  }

  /** The selections of `items` with one more item at the end. */
  lemma SelectSnoc(items: seq<LineItem>, level: Level, k: string, keys: set<string>)
    requires items != []
    ensures var before, last := items[..|items| - 1], items[|items| - 1];
      && Select(items, level, k) == (if Key(level, last) == k then Select(before, level, k) + [last] else Select(before, level, k))
      && SelectIn(items, level, keys) == (if Key(level, last) in keys then SelectIn(before, level, keys) + [last] else SelectIn(before, level, keys))
  {
    var before := items[..|items| - 1];
    assert Select(before, level, k) + [] == Select(before, level, k);
    assert SelectIn(before, level, keys) + [] == SelectIn(before, level, keys);
  }

  lemma SelectGrows(items: seq<LineItem>, level: Level, k: string, keys: set<string>)
    requires items != [] && Key(level, items[|items| - 1]) == k && k in keys
    ensures Select(items, level, k) == Select(items[..|items| - 1], level, k) + [items[|items| - 1]]
    ensures SelectIn(items, level, keys) == SelectIn(items[..|items| - 1], level, keys) + [items[|items| - 1]]
  {
  }

  lemma SelectInGrows(items: seq<LineItem>, level: Level, keys: set<string>)
    requires items != [] && Key(level, items[|items| - 1]) in keys
    ensures SelectIn(items, level, keys) == SelectIn(items[..|items| - 1], level, keys) + [items[|items| - 1]]
  {
  }

  lemma SelectSame(items: seq<LineItem>, level: Level, k: string)
    requires items != [] && Key(level, items[|items| - 1]) != k
    ensures Select(items, level, k) == Select(items[..|items| - 1], level, k)
  {
    assert Select(items[..|items| - 1], level, k) + [] == Select(items[..|items| - 1], level, k);
  }

  lemma SelectInSame(items: seq<LineItem>, level: Level, keys: set<string>)
    requires items != [] && Key(level, items[|items| - 1]) !in keys
    ensures SelectIn(items, level, keys) == SelectIn(items[..|items| - 1], level, keys)
  {
    assert SelectIn(items[..|items| - 1], level, keys) + [] == SelectIn(items[..|items| - 1], level, keys);
  }

  lemma TotalSnoc(items: seq<LineItem>, last: LineItem)
    ensures TotalDirectCost(items + [last]) == TotalDirectCost(items) + DirectCost(last)
  {
    SnocInit(items, last);
  }

  /** The keys with one more item at the end: its key is appended when new. */
  lemma FirstSeenSnoc(items: seq<LineItem>, level: Level, item: LineItem)
    ensures FirstSeen(items + [item], level)
         == if Key(level, item) in FirstSeen(items, level) then FirstSeen(items, level) else FirstSeen(items, level) + [Key(level, item)]
  {
    SnocInit(items, item);
  }

  /** Selecting the keys `keys + {k}` selects the items of `k` and those of `keys`, as often as they occur. */
  lemma {:induction false} SelectSplitCount(items: seq<LineItem>, level: Level, k: string, keys: set<string>)
    requires k !in keys
    ensures multiset(SelectIn(items, level, keys + {k})) == multiset(Select(items, level, k)) + multiset(SelectIn(items, level, keys))
  {
    if items != [] {
      var before := items[..|items| - 1];
      var last := items[|items| - 1];
      SelectSplitCount(before, level, k, keys);
      if Key(level, last) == k {
        SelectGrows(items, level, k, keys + {k});
        SelectInSame(items, level, keys);
        assert multiset(SelectIn(before, level, keys + {k}) + [last]) == multiset(SelectIn(before, level, keys + {k})) + multiset{last};
        assert multiset(Select(before, level, k) + [last]) == multiset(Select(before, level, k)) + multiset{last};
      } else if Key(level, last) in keys {
        SelectInGrows(items, level, keys + {k});
        SelectInGrows(items, level, keys);
        SelectSame(items, level, k);
        assert multiset(SelectIn(before, level, keys + {k}) + [last]) == multiset(SelectIn(before, level, keys + {k})) + multiset{last};
        assert multiset(SelectIn(before, level, keys) + [last]) == multiset(SelectIn(before, level, keys)) + multiset{last};
      } else {
        SelectInSame(items, level, keys + {k});
        SelectInSame(items, level, keys);
        SelectSame(items, level, k);
      }
    }
  }

  /** Selecting the keys `keys + {k}` costs what the items of `k` and those of `keys` cost. */
  lemma {:induction false} SelectSplitCost(items: seq<LineItem>, level: Level, k: string, keys: set<string>)
    requires k !in keys
    ensures TotalDirectCost(SelectIn(items, level, keys + {k}))
         == TotalDirectCost(Select(items, level, k)) + TotalDirectCost(SelectIn(items, level, keys))
  {
    if items != [] {
      var before := items[..|items| - 1];
      var last := items[|items| - 1];
      SelectSplitCost(before, level, k, keys);
      if Key(level, last) == k {
        SelectGrows(items, level, k, keys + {k});
        SelectInSame(items, level, keys);
        TotalSnoc(SelectIn(before, level, keys + {k}), last);
        TotalSnoc(Select(before, level, k), last);
      } else if Key(level, last) in keys {
        SelectInGrows(items, level, keys + {k});
        SelectInGrows(items, level, keys);
        SelectSame(items, level, k);
        TotalSnoc(SelectIn(before, level, keys + {k}), last);
        TotalSnoc(SelectIn(before, level, keys), last);
      } else {
        SelectInSame(items, level, keys + {k});
        SelectInSame(items, level, keys);
        SelectSame(items, level, k);
      }
    }
  }

  /** Selection keeps the input order. */
  lemma {:induction false} SelectIsSubsequence(items: seq<LineItem>, level: Level, k: string)
    ensures IsSubsequence(Select(items, level, k), items)
  {
    if items != [] {
      var before := items[..|items| - 1];
      var last := items[|items| - 1];
      var sel := Select(items, level, k);
      SelectIsSubsequence(before, level, k);
      if Key(level, last) == k {
        assert sel[..|sel| - 1] == Select(before, level, k);
      } else {
        assert sel == Select(before, level, k);
      }
    }
  }

  // The result, declaratively.

  /** The scope groups of the items of one area, in first-seen order. */
  function ScopeGroups(areaItems: seq<LineItem>, scopeLookup: map<string, string>): seq<ScopeGroup> {
    var ids := FirstSeen(areaItems, ByScope);
    seq(|ids|, j requires 0 <= j < |ids| =>
      var inScope := Select(areaItems, ByScope, ids[j]);
      ScopeGroup(ids[j], NameOr(scopeLookup, ids[j], UnassignedScopeName), TotalDirectCost(inScope), inScope))
  }

  /** The area groups of the items, in first-seen order. */
  function Grouping(items: seq<LineItem>, areaLookup: map<string, string>, scopeLookup: map<string, string>)
    : seq<AreaScopeGroup>
  {
    var ids := FirstSeen(items, ByArea);
    seq(|ids|, i requires 0 <= i < |ids| =>
      var inArea := Select(items, ByArea, ids[i]);
      AreaScopeGroup(ids[i], NameOr(areaLookup, ids[i], UnassignedAreaName), TotalDirectCost(inArea),
                     ScopeGroups(inArea, scopeLookup)))
  }

  // The state of the loop: the two levels of insertion-ordered maps.

  datatype ScopeEntry = ScopeEntry(scopeName: string, scopeSubtotal: real, items: seq<LineItem>)

  datatype AreaEntry = AreaEntry(areaName: string, areaSubtotal: real, scopeOrder: seq<string>, scopes: map<string, ScopeEntry>)

  /** The entry of scope `s` once the items `areaItems` of its area are in. */
  function ScopeEntryOf(areaItems: seq<LineItem>, s: string, scopeLookup: map<string, string>): ScopeEntry {
    var inScope := Select(areaItems, ByScope, s);
    ScopeEntry(NameOr(scopeLookup, s, UnassignedScopeName), TotalDirectCost(inScope), inScope)
  }

  /**
   * The scope map of an area holds, in first-seen order, one entry per scope
   * of the area's items `areaItems`, with the subtotal and the items of that scope.
   */
  ghost predicate ScopesTrack(scopeOrder: seq<string>, scopes: map<string, ScopeEntry>, areaItems: seq<LineItem>,
                        scopeLookup: map<string, string>)
  {
    && scopeOrder == FirstSeen(areaItems, ByScope)
    && (forall s :: s in scopes <==> s in scopeOrder)
    && (forall s :: s in scopes ==> scopes[s] == ScopeEntryOf(areaItems, s, scopeLookup))
  }

  /** The entry of area `a`, once its items `areaItems` are in. */
  ghost predicate AreaTracks(entry: AreaEntry, a: string, areaItems: seq<LineItem>, areaLookup: map<string, string>,
                       scopeLookup: map<string, string>)
  {
    && entry.areaName == NameOr(areaLookup, a, UnassignedAreaName)
    && entry.areaSubtotal == TotalDirectCost(areaItems)
    && ScopesTrack(entry.scopeOrder, entry.scopes, areaItems, scopeLookup)
  }

  /** A new area entry is the entry of an area without items. */
  lemma NewAreaTracks(items: seq<LineItem>, a: string, areaLookup: map<string, string>, scopeLookup: map<string, string>)
    requires a !in FirstSeen(items, ByArea)
    ensures AreaTracks(AreaEntry(NameOr(areaLookup, a, UnassignedAreaName), 0.0, [], map[]), a,
                       Select(items, ByArea, a), areaLookup, scopeLookup)
  {
    SelectNone(items, ByArea, a);
  }

  /** Adding an item keeps the selection of every other area. */
  lemma OtherAreasUnchanged(items: seq<LineItem>, item: LineItem, b: string)
    requires b != AreaKey(item)
    ensures Select(items + [item], ByArea, b) == Select(items, ByArea, b)
  {
    SelectSnoc(items + [item], ByArea, b, {});
    SnocInit(items, item);
  }

  /** Adding an item appends it to the selection of its own area. */
  lemma OwnAreaGrows(items: seq<LineItem>, item: LineItem)
    ensures Select(items + [item], ByArea, AreaKey(item)) == Select(items, ByArea, AreaKey(item)) + [item]
  {
    SelectSnoc(items + [item], ByArea, AreaKey(item), {});
    SnocInit(items, item);
  }

  /**
   * The scope level of one step of the loop: the item's scope entry, found
   * or created (and then appended to the order), with the item added, keeps
   * the scope map tracking the area's items with the item in.
   */
  lemma ScopeAdded(scopeOrder: seq<string>, scopes: map<string, ScopeEntry>, areaItems: seq<LineItem>, item: LineItem,
                   scopeLookup: map<string, string>, newOrder: seq<string>, entry: ScopeEntry)
    requires ScopesTrack(scopeOrder, scopes, areaItems, scopeLookup)
    requires var s := ScopeKey(item);
      var found := if s in scopes then scopes[s] else ScopeEntry(NameOr(scopeLookup, s, UnassignedScopeName), 0.0, []);
      && newOrder == (if s in scopes then scopeOrder else scopeOrder + [s])
      && entry == found.(scopeSubtotal := found.scopeSubtotal + DirectCost(item), items := found.items + [item])
    ensures ScopesTrack(newOrder, scopes[ScopeKey(item) := entry], areaItems + [item], scopeLookup)
  {
    var s := ScopeKey(item);
    EntryAdded(scopeOrder, scopes, areaItems, item, scopeLookup, entry);
    FirstSeenStep(ByScope, scopeOrder, areaItems, item, s, s in scopes);
    DomainStep(scopeOrder, scopes, s, entry, newOrder);
    EntriesStep(scopes, areaItems, item, scopeLookup, entry);
    ScopesTrackIntro(newOrder, scopes[s := entry], areaItems + [item], scopeLookup);
  }

  lemma ScopesTrackIntro(scopeOrder: seq<string>, scopes: map<string, ScopeEntry>, areaItems: seq<LineItem>,
                         scopeLookup: map<string, string>)
    requires scopeOrder == FirstSeen(areaItems, ByScope)
    requires forall s :: s in scopes <==> s in scopeOrder
    requires forall s :: s in scopes ==> scopes[s] == ScopeEntryOf(areaItems, s, scopeLookup)
    ensures ScopesTrack(scopeOrder, scopes, areaItems, scopeLookup)
  {
  }

  /** The entry of the item's scope, found or created, with the item added, is the entry with the item in. */
  lemma EntryAdded(scopeOrder: seq<string>, scopes: map<string, ScopeEntry>, areaItems: seq<LineItem>, item: LineItem,
                   scopeLookup: map<string, string>, entry: ScopeEntry)
    requires ScopesTrack(scopeOrder, scopes, areaItems, scopeLookup)
    requires var s := ScopeKey(item);
      var found := if s in scopes then scopes[s] else ScopeEntry(NameOr(scopeLookup, s, UnassignedScopeName), 0.0, []);
      entry == found.(scopeSubtotal := found.scopeSubtotal + DirectCost(item), items := found.items + [item])
    ensures entry == ScopeEntryOf(areaItems + [item], ScopeKey(item), scopeLookup)
  {
    var s := ScopeKey(item);
    if s !in scopes {
      SelectNone(areaItems, ByScope, s);
    }
    ScopeGrows(areaItems, item, scopeLookup);
  }

  /** Adding the item to the entry of its scope gives the entry with the item in. */
  lemma ScopeGrows(areaItems: seq<LineItem>, item: LineItem, scopeLookup: map<string, string>)
    ensures var entry := ScopeEntryOf(areaItems, ScopeKey(item), scopeLookup);
      entry.(scopeSubtotal := entry.scopeSubtotal + DirectCost(item), items := entry.items + [item])
        == ScopeEntryOf(areaItems + [item], ScopeKey(item), scopeLookup)
  {
    var entry := ScopeEntryOf(areaItems, ScopeKey(item), scopeLookup);
    SelectGrows(areaItems + [item], ByScope, ScopeKey(item), {ScopeKey(item)});
    SnocInit(areaItems, item);
    TotalSnoc(entry.items, item);
  }

  /** Adding the item leaves the entries of the other scopes as they were. */
  lemma OtherScopesUnchanged(areaItems: seq<LineItem>, item: LineItem, t: string, scopeLookup: map<string, string>)
    requires t != ScopeKey(item)
    ensures ScopeEntryOf(areaItems + [item], t, scopeLookup) == ScopeEntryOf(areaItems, t, scopeLookup)
  {
    SelectSnoc(areaItems + [item], ByScope, t, {});
    SnocInit(areaItems, item);
  }

  /** The first-seen order with one more item: its key is appended when it is new. */
  lemma FirstSeenStep(level: Level, order: seq<string>, done: seq<LineItem>, item: LineItem, k: string, known: bool)
    requires order == FirstSeen(done, level)
    requires k == Key(level, item) && (known <==> k in order)
    ensures (if known then order else order + [k]) == FirstSeen(done + [item], level)
  {
    FirstSeenSnoc(done, level, item);
  }

  /** A key order and a map with the same keys keep having the same keys when a key is set and appended if new. */
  lemma DomainStep<V>(order: seq<string>, m: map<string, V>, s: string, v: V, newOrder: seq<string>)
    requires forall t :: t in m <==> t in order
    requires newOrder == if s in m then order else order + [s]
    ensures forall t :: t in m[s := v] <==> t in newOrder
  {
    forall t
      ensures t in m[s := v] <==> t in newOrder
    {
      assert t in order + [s] <==> t in order || t == s;
    }
  }

  /** Setting the entry of the item's scope to the entry with the item in keeps every entry tracking. */
  lemma EntriesStep(scopes: map<string, ScopeEntry>, areaItems: seq<LineItem>, item: LineItem,
                    scopeLookup: map<string, string>, entry: ScopeEntry)
    requires forall t :: t in scopes ==> scopes[t] == ScopeEntryOf(areaItems, t, scopeLookup)
    requires entry == ScopeEntryOf(areaItems + [item], ScopeKey(item), scopeLookup)
    ensures forall t :: t in scopes[ScopeKey(item) := entry] ==>
      scopes[ScopeKey(item) := entry][t] == ScopeEntryOf(areaItems + [item], t, scopeLookup)
  {
    forall t | t in scopes[ScopeKey(item) := entry]
      ensures scopes[ScopeKey(item) := entry][t] == ScopeEntryOf(areaItems + [item], t, scopeLookup)
    {
      if t != ScopeKey(item) {
        OtherScopesUnchanged(areaItems, item, t, scopeLookup);
      }
    }
  }

  /** `Array.from(area.scopes.entries()).map(...)`: an area's scopes as a list in insertion order. */
  function ScopeList(entry: AreaEntry): seq<ScopeGroup>
    requires forall s :: s in entry.scopeOrder ==> s in entry.scopes
  {
    seq(|entry.scopeOrder|, j requires 0 <= j < |entry.scopeOrder| =>
      var s := entry.scopeOrder[j];
      ScopeGroup(s, entry.scopes[s].scopeName, entry.scopes[s].scopeSubtotal, entry.scopes[s].items))
  }

  /** `Array.from(grouped.entries()).map(...)`: the areas as a list in insertion order. */
  function AreaList(areaOrder: seq<string>, grouped: map<string, AreaEntry>): seq<AreaScopeGroup>
    requires forall a :: a in areaOrder ==> a in grouped
    requires forall a :: a in grouped ==> forall s :: s in grouped[a].scopeOrder ==> s in grouped[a].scopes
  {
    seq(|areaOrder|, i requires 0 <= i < |areaOrder| =>
      var a := areaOrder[i];
      AreaScopeGroup(a, grouped[a].areaName, grouped[a].areaSubtotal, ScopeList(grouped[a])))
  }

  /** The list of a tracking area entry is the area's group. */
  lemma AreaListed(entry: AreaEntry, a: string, areaItems: seq<LineItem>, areaLookup: map<string, string>,
                   scopeLookup: map<string, string>)
    requires AreaTracks(entry, a, areaItems, areaLookup, scopeLookup)
    ensures forall s :: s in entry.scopeOrder ==> s in entry.scopes
    ensures AreaScopeGroup(a, entry.areaName, entry.areaSubtotal, ScopeList(entry))
         == AreaScopeGroup(a, NameOr(areaLookup, a, UnassignedAreaName), TotalDirectCost(areaItems),
                           ScopeGroups(areaItems, scopeLookup))
  {
    assert ScopeList(entry) == ScopeGroups(areaItems, scopeLookup);
  }

  /**
   * The body of the loop for one item, once its area's entry is found or
   * created: the item's cost goes into the area subtotal, its scope's entry
   * is found or created, and the item goes into it.
   */
  method AddToArea(areaGroup: AreaEntry, item: LineItem, scopeName: string, directCost: real,
                   ghost a: string, ghost areaItems: seq<LineItem>,
                   ghost areaLookup: map<string, string>, ghost scopeLookup: map<string, string>)
    returns (updated: AreaEntry)
    requires AreaTracks(areaGroup, a, areaItems, areaLookup, scopeLookup)
    requires scopeName == NameOr(scopeLookup, ScopeKey(item), UnassignedScopeName) && directCost == DirectCost(item)
    ensures AreaTracks(updated, a, areaItems + [item], areaLookup, scopeLookup)
  {
    var scopeId := item.scopeId.GetOr(UnassignedScopeId);
    var scopes := areaGroup.scopes;
    var scopeOrder := areaGroup.scopeOrder;
    var scopeGroup: ScopeEntry;
    if scopeId in scopes {
      scopeGroup := scopes[scopeId];
    } else {
      scopeGroup := ScopeEntry(scopeName, 0.0, []);
      scopeOrder := scopeOrder + [scopeId];
    }
    scopeGroup := scopeGroup.(scopeSubtotal := scopeGroup.scopeSubtotal + directCost, items := scopeGroup.items + [item]);
    scopes := scopes[scopeId := scopeGroup];
    ScopeAdded(areaGroup.scopeOrder, areaGroup.scopes, areaItems, item, scopeLookup, scopeOrder, scopeGroup);
    TotalSnoc(areaItems, item);
    updated := AreaEntry(areaGroup.areaName, areaGroup.areaSubtotal + directCost, scopeOrder, scopes);
  }

  /**
   * The area map holds, in first-seen order, one entry per area of the items
   * `done`, each tracking the items of its area.
   */
  ghost predicate GroupedTracks(areaOrder: seq<string>, grouped: map<string, AreaEntry>, done: seq<LineItem>,
                                areaLookup: map<string, string>, scopeLookup: map<string, string>)
  {
    && areaOrder == FirstSeen(done, ByArea)
    && (forall a :: a in grouped <==> a in areaOrder)
    && (forall a :: a in grouped ==> AreaTracks(grouped[a], a, Select(done, ByArea, a), areaLookup, scopeLookup))
  }

  /** The area entry the loop finds, or creates, for the item is the entry of its area so far. */
  lemma AreaFound(areaOrder: seq<string>, grouped: map<string, AreaEntry>, done: seq<LineItem>, item: LineItem,
                  areaLookup: map<string, string>, scopeLookup: map<string, string>)
    requires GroupedTracks(areaOrder, grouped, done, areaLookup, scopeLookup)
    ensures var a := AreaKey(item);
      AreaTracks(if a in grouped then grouped[a] else AreaEntry(NameOr(areaLookup, a, UnassignedAreaName), 0.0, [], map[]),
                 a, Select(done, ByArea, a), areaLookup, scopeLookup)
  {
    if AreaKey(item) !in grouped {
      NewAreaTracks(done, AreaKey(item), areaLookup, scopeLookup);
    }
  }

  /**
   * The area level of one step of the loop: the item's area entry, with the
   * item in, stored back (and its area appended to the order when new), keeps
   * the area map tracking the items with the item in.
   */
  lemma AreaAdded(areaOrder: seq<string>, grouped: map<string, AreaEntry>, done: seq<LineItem>, item: LineItem,
                  areaLookup: map<string, string>, scopeLookup: map<string, string>,
                  newOrder: seq<string>, entry: AreaEntry)
    requires GroupedTracks(areaOrder, grouped, done, areaLookup, scopeLookup)
    requires newOrder == if AreaKey(item) in grouped then areaOrder else areaOrder + [AreaKey(item)]
    requires AreaTracks(entry, AreaKey(item), Select(done, ByArea, AreaKey(item)) + [item], areaLookup, scopeLookup)
    ensures GroupedTracks(newOrder, grouped[AreaKey(item) := entry], done + [item], areaLookup, scopeLookup)
  {
    var a := AreaKey(item);
    FirstSeenStep(ByArea, areaOrder, done, item, a, a in grouped);
    DomainStep(areaOrder, grouped, a, entry, newOrder);
    AreasStep(areaOrder, grouped, done, item, areaLookup, scopeLookup, entry);
    GroupedTracksIntro(newOrder, grouped[a := entry], done + [item], areaLookup, scopeLookup);
  }

  lemma GroupedTracksIntro(areaOrder: seq<string>, grouped: map<string, AreaEntry>, done: seq<LineItem>,
                           areaLookup: map<string, string>, scopeLookup: map<string, string>)
    requires areaOrder == FirstSeen(done, ByArea)
    requires forall a :: a in grouped <==> a in areaOrder
    requires forall a :: a in grouped ==> AreaTracks(grouped[a], a, Select(done, ByArea, a), areaLookup, scopeLookup)
    ensures GroupedTracks(areaOrder, grouped, done, areaLookup, scopeLookup)
  {
  }

  /** Storing the entry with the item in under the item's area keeps every area entry tracking. */
  lemma AreasStep(areaOrder: seq<string>, grouped: map<string, AreaEntry>, done: seq<LineItem>, item: LineItem,
                  areaLookup: map<string, string>, scopeLookup: map<string, string>, entry: AreaEntry)
    requires GroupedTracks(areaOrder, grouped, done, areaLookup, scopeLookup)
    requires AreaTracks(entry, AreaKey(item), Select(done, ByArea, AreaKey(item)) + [item], areaLookup, scopeLookup)
    ensures forall b :: b in grouped[AreaKey(item) := entry] ==>
      AreaTracks(grouped[AreaKey(item) := entry][b], b, Select(done + [item], ByArea, b), areaLookup, scopeLookup)
  {
    OwnAreaGrows(done, item);
    forall b | b in grouped[AreaKey(item) := entry]
      ensures AreaTracks(grouped[AreaKey(item) := entry][b], b, Select(done + [item], ByArea, b), areaLookup, scopeLookup)
    {
      if b != AreaKey(item) {
        OtherAreasUnchanged(done, item, b);
      }
    }
  }

  /** Once every item is in, the lists of the two maps are the grouping. */
  lemma GroupedListed(areaOrder: seq<string>, grouped: map<string, AreaEntry>, items: seq<LineItem>,
                      areaLookup: map<string, string>, scopeLookup: map<string, string>)
    requires GroupedTracks(areaOrder, grouped, items, areaLookup, scopeLookup)
    ensures forall a :: a in areaOrder ==> a in grouped
    ensures forall a :: a in grouped ==> forall s :: s in grouped[a].scopeOrder ==> s in grouped[a].scopes
    ensures AreaList(areaOrder, grouped) == Grouping(items, areaLookup, scopeLookup)
  {
    forall a | a in grouped
      ensures forall s :: s in grouped[a].scopeOrder ==> s in grouped[a].scopes
    {
      AreaListed(grouped[a], a, Select(items, ByArea, a), areaLookup, scopeLookup);
    }
    var groups := AreaList(areaOrder, grouped);
    forall i | 0 <= i < |groups|
      ensures groups[i] == Grouping(items, areaLookup, scopeLookup)[i]
    {
      var a := areaOrder[i];
      AreaListed(grouped[a], a, Select(items, ByArea, a), areaLookup, scopeLookup);
    }
  }

  /** `groupLineItemsByAreaAndScope`. */
  method GroupLineItemsByAreaAndScope(items: seq<LineItem>, areas: seq<ReferenceRecord>, scopes: seq<ReferenceRecord>)
    returns (groups: seq<AreaScopeGroup>)
    ensures groups == Grouping(items, Lookup(areas), Lookup(scopes))
  {
    var areaLookup := Lookup(areas);
    var scopeLookup := Lookup(scopes);
    var areaOrder: seq<string> := [];
    var grouped: map<string, AreaEntry> := map[];
    var n := 0;
    while n < |items|
      invariant n <= |items|
      invariant GroupedTracks(areaOrder, grouped, items[..n], areaLookup, scopeLookup)
    {
      var item := items[n];
      var areaId := item.areaId.GetOr(UnassignedAreaId);
      var scopeId := item.scopeId.GetOr(UnassignedScopeId);
      var areaName := NameOr(areaLookup, areaId, UnassignedAreaName);
      var scopeName := NameOr(scopeLookup, scopeId, UnassignedScopeName);
      var directCost := DirectCost(item);
      ghost var done := items[..n];
      ghost var oldOrder, oldGrouped := areaOrder, grouped;
      AreaFound(areaOrder, grouped, done, item, areaLookup, scopeLookup);

      var areaGroup: AreaEntry;
      if areaId in grouped {
        areaGroup := grouped[areaId];
      } else {
        areaGroup := AreaEntry(areaName, 0.0, [], map[]);
        areaOrder := areaOrder + [areaId];
      }
      areaGroup := AddToArea(areaGroup, item, scopeName, directCost, areaId, Select(done, ByArea, areaId),
                             areaLookup, scopeLookup);
      grouped := grouped[areaId := areaGroup];
      AreaAdded(oldOrder, oldGrouped, done, item, areaLookup, scopeLookup, areaOrder, areaGroup);
      TakeOneMore(items, n);
      n := n + 1;
    }
    TakeAll(items);
    GroupedListed(areaOrder, grouped, items, areaLookup, scopeLookup);
    groups := AreaList(areaOrder, grouped);
  }
}
