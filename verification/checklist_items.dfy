/** The list transforms behind the packing checklist: turning a generated
    packing list into checklist rows, grouping rows by category, the progress
    figure, and the toggle, delete, reset and custom-task updates. */
module ChecklistItems {
  import opened JsText
  import opened ChecklistTypes

  // ---------------------------------------------------------------------
  // Flattening a generated list into rows
  // ---------------------------------------------------------------------

  /** One fresh random token per item, laid out like the categories. */
  predicate IdsFit(cats: seq<ChecklistCategory>, uids: seq<seq<string>>) {
    |uids| == |cats| && forall k :: 0 <= k < |cats| ==> |uids[k]| == |cats[k].items|
  }

  /** The row made for `item` of category `category`: an id built from the
      category, the item and the token, the item as text, not checked. */
  function NewItem(category: string, item: string, uid: string): (r: ChecklistItem)
    ensures r.text == item && !r.checked && r.category == category
  {
    ChecklistItem(category + "-" + item + "-" + uid, item, false, category)
  }

  /** The rows made for one category, in item order. */
  function CategoryItems(cat: ChecklistCategory, uids: seq<string>): seq<ChecklistItem>
    requires |uids| == |cat.items|
  {
    seq(|cat.items|, j requires 0 <= j < |cat.items| => NewItem(cat.name, cat.items[j], uids[j]))
  }

  /** How many (category, item) pairs the list holds. */
  function TotalItems(cats: seq<ChecklistCategory>): nat {
    if cats == [] then 0 else TotalItems(cats[..|cats| - 1]) + |cats[|cats| - 1].items|
  }

  /** The rows of a whole list: each category's rows, categories in order. */
  function Flattened(cats: seq<ChecklistCategory>, uids: seq<seq<string>>): (r: seq<ChecklistItem>)
    requires IdsFit(cats, uids)
    ensures |r| == TotalItems(cats)
  {
    if cats == [] then []
    else
      var n := |cats| - 1;
      Flattened(cats[..n], uids[..n]) + CategoryItems(cats[n], uids[n])
  }

  /** Item `j` of category `k` becomes the row right after the rows of the
      categories before `k` and the items before `j`: one row per pair, in
      category order and then item order, unchecked, with the item as text and
      the category's name as category. */
  lemma {:induction false} FlattenedAt(cats: seq<ChecklistCategory>, uids: seq<seq<string>>, k: nat, j: nat)
    requires IdsFit(cats, uids) && k < |cats| && j < |cats[k].items|
    ensures TotalItems(cats[..k]) + j < |Flattened(cats, uids)|
    ensures Flattened(cats, uids)[TotalItems(cats[..k]) + j] == NewItem(cats[k].name, cats[k].items[j], uids[k][j])
  {
    var n := |cats| - 1;
    if k == n {
      assert cats[..k] == cats[..n];
    } else {
      FlattenedAt(cats[..n], uids[..n], k, j);
      assert cats[..n][..k] == cats[..k];
    }
  }

  /** The loop of the effect: one push per item, category by category. */
  method FlattenCategories(cats: seq<ChecklistCategory>, uids: seq<seq<string>>) returns (items: seq<ChecklistItem>)
    requires IdsFit(cats, uids)
    ensures items == Flattened(cats, uids)
  {
    items := [];
    var k := 0;
    while k < |cats|
      invariant 0 <= k <= |cats|
      invariant items == Flattened(cats[..k], uids[..k])
    {
      var cat := cats[k];
      ghost var before := items;
      var j := 0;
      while j < |cat.items|
        invariant 0 <= j <= |cat.items|
        invariant items == before + CategoryItems(cat, uids[k])[..j]
      {
        items := items + [NewItem(cat.name, cat.items[j], uids[k][j])];
        j := j + 1;
      }
      assert cats[..k + 1][..k] == cats[..k];
      assert uids[..k + 1][..k] == uids[..k];
      k := k + 1;
    }
    assert cats[..|cats|] == cats;
    assert uids[..|uids|] == uids;
  }

  // ---------------------------------------------------------------------
  // Grouping rows by category
  // ---------------------------------------------------------------------

  /** The rows of category `c`, in list order. */
  function ItemsIn(items: seq<ChecklistItem>, c: string): (r: seq<ChecklistItem>)
    ensures |r| <= |items|
    ensures forall i :: 0 <= i < |r| ==> r[i].category == c
  {
    if items == [] then []
    else
      var n := |items| - 1;
      ItemsIn(items[..n], c) + (if items[n].category == c then [items[n]] else [])
  }

  function Texts(items: seq<ChecklistItem>): (r: seq<string>)
    ensures |r| == |items| && forall i :: 0 <= i < |items| ==> r[i] == items[i].text
  {
    seq(|items|, i requires 0 <= i < |items| => items[i].text)
  }

  /** The category names appear once each. */
  predicate DistinctNames(cats: seq<ChecklistCategory>) {
    forall k, l :: 0 <= k < l < |cats| ==> cats[k].name != cats[l].name
  }

  lemma {:induction false} ItemsInAppend(a: seq<ChecklistItem>, b: seq<ChecklistItem>, c: string)
    ensures ItemsIn(a + b, c) == ItemsIn(a, c) + ItemsIn(b, c)
    decreases |b|
  {
    if b != [] {
      var n := |b| - 1;
      assert (a + b)[..|a| + n] == a + b[..n];
      ItemsInAppend(a, b[..n], c);
    } else {
      assert a + b == a;
    }
  }

  lemma {:induction false} ItemsInAll(items: seq<ChecklistItem>, c: string)
    requires forall i :: 0 <= i < |items| ==> items[i].category == c
    ensures ItemsIn(items, c) == items
  {
    if items != [] {
      ItemsInAll(items[..|items| - 1], c);
    }
  }

  lemma {:induction false} ItemsInNone(items: seq<ChecklistItem>, c: string)
    requires forall i :: 0 <= i < |items| ==> items[i].category != c
    ensures ItemsIn(items, c) == []
  {
    if items != [] {
      ItemsInNone(items[..|items| - 1], c);
    }
  }

  /** No row of the flattened list belongs to a category the list does not
      name. */
  lemma {:induction false} FlattenedAbsent(cats: seq<ChecklistCategory>, uids: seq<seq<string>>, c: string)
    requires IdsFit(cats, uids)
    requires forall k :: 0 <= k < |cats| ==> cats[k].name != c
    ensures ItemsIn(Flattened(cats, uids), c) == []
  {
    if cats != [] {
      var n := |cats| - 1;
      FlattenedAbsent(cats[..n], uids[..n], c);
      ItemsInAppend(Flattened(cats[..n], uids[..n]), CategoryItems(cats[n], uids[n]), c);
      ItemsInNone(CategoryItems(cats[n], uids[n]), c);
    }
  }

  /** The texts of a category's rows are its items. */
  lemma CategoryItemsTexts(cat: ChecklistCategory, uids: seq<string>)
    requires |uids| == |cat.items|
    ensures Texts(CategoryItems(cat, uids)) == cat.items
  {
    var t := Texts(CategoryItems(cat, uids));
    assert forall j :: 0 <= j < |t| ==> t[j] == cat.items[j];
  }

  /** Round trip: when category names are distinct, regrouping the flattened
      rows by category gives back each category's rows, so its item texts in
      their original order, nothing lost, duplicated or reordered. */
  lemma {:induction false} RegroupFlattened(cats: seq<ChecklistCategory>, uids: seq<seq<string>>, k: nat)
    requires IdsFit(cats, uids) && DistinctNames(cats) && k < |cats|
    ensures ItemsIn(Flattened(cats, uids), cats[k].name) == CategoryItems(cats[k], uids[k])
    ensures Texts(ItemsIn(Flattened(cats, uids), cats[k].name)) == cats[k].items
  {
    var n := |cats| - 1;
    var c := cats[k].name;
    var front, last := Flattened(cats[..n], uids[..n]), CategoryItems(cats[n], uids[n]);
    assert Flattened(cats, uids) == front + last;
    ItemsInAppend(front, last, c);
    if k == n {
      assert forall l :: 0 <= l < n ==> cats[..n][l].name != c;
      FlattenedAbsent(cats[..n], uids[..n], c);
      ItemsInAll(last, c);
    } else {
      assert DistinctNames(cats[..n]);
      assert cats[..n][k] == cats[k] && uids[..n][k] == uids[k];
      RegroupFlattened(cats[..n], uids[..n], k);
      assert forall j :: 0 <= j < |last| ==> last[j].category == cats[n].name;
      ItemsInNone(last, c);
    }
    CategoryItemsTexts(cats[k], uids[k]);
  }

  /** A name no category carries gets no rows. */
  lemma RegroupUnknown(cats: seq<ChecklistCategory>, uids: seq<seq<string>>, c: string)
    requires IdsFit(cats, uids)
    requires forall k :: 0 <= k < |cats| ==> cats[k].name != c
    ensures ItemsIn(Flattened(cats, uids), c) == []
  {
    FlattenedAbsent(cats, uids, c);
  }

  /** The `reduce` of `groupedItems`: a record from category to its rows,
      filled in one row at a time. */
  method GroupByCategory(items: seq<ChecklistItem>) returns (groups: map<string, seq<ChecklistItem>>)
    ensures forall c :: c in groups <==> ItemsIn(items, c) != []
    ensures forall c :: c in groups ==> groups[c] == ItemsIn(items, c)
  {
    groups := map[];
    var i := 0;
    while i < |items|
      invariant 0 <= i <= |items|
      invariant forall c :: c in groups <==> ItemsIn(items[..i], c) != []
      invariant forall c :: c in groups ==> groups[c] == ItemsIn(items[..i], c)
    {
      var item := items[i];
      if item.category !in groups {
        groups := groups[item.category := []];
      }
      groups := groups[item.category := groups[item.category] + [item]];
      assert items[..i + 1][..i] == items[..i];
      i := i + 1;
    }
    assert items[..|items|] == items;
  }

  // ---------------------------------------------------------------------
  // Progress
  // ---------------------------------------------------------------------

  /** The `filter((item) => item.checked).length` of the list. */
  function CheckedCount(items: seq<ChecklistItem>): (n: nat)
    ensures n <= |items|
  {
    if items == [] then 0
    else CheckedCount(items[..|items| - 1]) + (if items[|items| - 1].checked then 1 else 0)
  }

  predicate AllChecked(items: seq<ChecklistItem>) {
    forall i :: 0 <= i < |items| ==> items[i].checked
  }

  predicate NoneChecked(items: seq<ChecklistItem>) {
    forall i :: 0 <= i < |items| ==> !items[i].checked
  }

  lemma {:induction false} CheckedCountAll(items: seq<ChecklistItem>)
    ensures CheckedCount(items) == |items| <==> AllChecked(items)
  {
    if items != [] {
      var p := items[..|items| - 1];
      CheckedCountAll(p);
      if AllChecked(items) {
        assert AllChecked(p);
      }
    }
  }

  lemma {:induction false} CheckedCountNone(items: seq<ChecklistItem>)
    ensures CheckedCount(items) == 0 <==> NoneChecked(items)
  {
    if items != [] {
      var p := items[..|items| - 1];
      CheckedCountNone(p);
      if NoneChecked(items) {
        assert NoneChecked(p);
      }
    }
  }

  lemma RatioBounds(c: nat, n: nat)
    requires 0 < n && c <= n
    ensures 0.0 <= (c as real / n as real) * 100.0 <= 100.0
    ensures (c as real / n as real) * 100.0 == 100.0 <==> c == n
    ensures (c as real / n as real) * 100.0 == 0.0 <==> c == 0
  {
    var q, cr, nr := c as real / n as real, c as real, n as real;
    assert q * nr == cr;
    assert (1.0 - q) * nr == nr - cr;
    assert q * 100.0 == 100.0 <==> q == 1.0;
    assert q * 100.0 == 0.0 <==> q == 0.0;
    assert q == 1.0 ==> cr == nr;
    assert q == 0.0 ==> cr == 0.0;
  }

  /** The completion percentage: 0 for an empty list, otherwise the share of
      checked rows times 100. It lies in [0, 100], is 100 exactly when the
      list is non-empty and every row is checked, and is 0 exactly when no
      row is checked. */
  function Progress(items: seq<ChecklistItem>): (p: real)
    ensures 0.0 <= p <= 100.0
    ensures p == 100.0 <==> |items| > 0 && AllChecked(items)
    ensures p == 0.0 <==> NoneChecked(items)
  {
    CheckedCountAll(items);
    CheckedCountNone(items);
    if |items| == 0 then 0.0
    else
      RatioBounds(CheckedCount(items), |items|);
      (CheckedCount(items) as real / |items| as real) * 100.0
  }

  /** A freshly generated checklist starts with nothing checked. */
  lemma {:induction false} FlattenedUnchecked(cats: seq<ChecklistCategory>, uids: seq<seq<string>>)
    requires IdsFit(cats, uids)
    ensures NoneChecked(Flattened(cats, uids))
    ensures Progress(Flattened(cats, uids)) == 0.0
  {
    if cats != [] {
      var n := |cats| - 1;
      FlattenedUnchecked(cats[..n], uids[..n]);
    }
  }

  // ---------------------------------------------------------------------
  // Toggle, delete, reset, custom task
  // ---------------------------------------------------------------------

  function ToggleOne(item: ChecklistItem, id: string): ChecklistItem {
    if item.id == id then item.(checked := !item.checked) else item
  }

  /** `toggleItem`: rows whose id is `id` flip `checked`; every other row
      and the order stay as they were. */
  function Toggle(items: seq<ChecklistItem>, id: string): (r: seq<ChecklistItem>)
    ensures |r| == |items|
    ensures forall i :: 0 <= i < |items| && items[i].id != id ==> r[i] == items[i]
    ensures forall i :: 0 <= i < |items| && items[i].id == id ==>
              r[i].id == id && r[i].text == items[i].text && r[i].category == items[i].category
              && r[i].checked == !items[i].checked
  {
    if items == [] then []
    else Toggle(items[..|items| - 1], id) + [ToggleOne(items[|items| - 1], id)]
  }

  /** Toggling twice restores the list. */
  lemma ToggleTwice(items: seq<ChecklistItem>, id: string)
    ensures Toggle(Toggle(items, id), id) == items
  {
    var r := Toggle(Toggle(items, id), id);
    assert forall i :: 0 <= i < |items| ==> r[i] == items[i];
  }

  /** With one row carrying `id`, toggling moves the checked count by one:
      down if that row was checked, up otherwise. */
  lemma {:induction false} ToggleUniqueCount(items: seq<ChecklistItem>, id: string, k: nat)
    requires k < |items| && items[k].id == id
    requires forall i :: 0 <= i < |items| && i != k ==> items[i].id != id
    ensures CheckedCount(Toggle(items, id)) ==
              if items[k].checked then CheckedCount(items) - 1 else CheckedCount(items) + 1
  {
    var n := |items| - 1;
    var t := Toggle(items, id);
    assert t[..n] == Toggle(items[..n], id);
    if k == n {
      TogglePassive(items[..n], id);
    } else {
      ToggleUniqueCount(items[..n], id, k);
    }
  }

  /** Toggling an id no row carries changes nothing. */
  lemma TogglePassive(items: seq<ChecklistItem>, id: string)
    requires forall i :: 0 <= i < |items| ==> items[i].id != id
    ensures Toggle(items, id) == items
  {
  }

  /** `deleteItem`: keeps the rows whose id is not `id`, in order. */
  function Delete(items: seq<ChecklistItem>, id: string): (r: seq<ChecklistItem>)
    ensures |r| <= |items|
    ensures forall i :: 0 <= i < |r| ==> r[i].id != id
  {
    if items == [] then []
    else
      var n := |items| - 1;
      Delete(items[..n], id) + (if items[n].id == id then [] else [items[n]])
  }

  /** Exactly the rows carrying `id` are removed: none of them survives, and
      every other row keeps its number of occurrences. */
  lemma {:induction false} DeleteRemovesExactly(items: seq<ChecklistItem>, id: string)
    ensures forall x :: x in Delete(items, id) ==> x.id != id && x in items
    ensures forall x: ChecklistItem :: x.id != id ==> multiset(Delete(items, id))[x] == multiset(items)[x]
  {
    if items != [] {
      var n := |items| - 1;
      DeleteRemovesExactly(items[..n], id);
      assert items == items[..n] + [items[n]];
    }
  }

  /** Deleting distributes over concatenation, so the rows that stay keep
      their relative order. */
  lemma {:induction false} DeleteAppend(a: seq<ChecklistItem>, b: seq<ChecklistItem>, id: string)
    ensures Delete(a + b, id) == Delete(a, id) + Delete(b, id)
    decreases |b|
  {
    if b == [] {
      assert a + b == a;
    } else {
      var n := |b| - 1;
      var ab := a + b;
      assert ab[..|ab| - 1] == a + b[..n];
      assert ab[|ab| - 1] == b[n];
      var tail := if b[n].id == id then [] else [b[n]];
      assert Delete(ab, id) == Delete(a + b[..n], id) + tail;
      assert Delete(b, id) == Delete(b[..n], id) + tail;
      DeleteAppend(a, b[..n], id);
    }
  }

  /** Deleting an id no row carries changes nothing. */
  lemma {:induction false} DeleteAbsent(items: seq<ChecklistItem>, id: string)
    requires forall i :: 0 <= i < |items| ==> items[i].id != id
    ensures Delete(items, id) == items
  {
    if items != [] {
      var n := |items| - 1;
      DeleteAbsent(items[..n], id);
      assert items == items[..n] + [items[n]];
    }
  }

  /** `resetChecklist`: every row unchecked, ids, texts, categories and
      length kept. */
  function Reset(items: seq<ChecklistItem>): (r: seq<ChecklistItem>)
    ensures |r| == |items|
    ensures forall i :: 0 <= i < |items| ==>
              r[i].id == items[i].id && r[i].text == items[i].text
              && r[i].category == items[i].category && !r[i].checked
  {
    if items == [] then []
    else Reset(items[..|items| - 1]) + [items[|items| - 1].(checked := false)]
  }

  /** Resetting twice is resetting once; a reset list is at 0% progress. */
  lemma ResetIdempotent(items: seq<ChecklistItem>)
    ensures Reset(Reset(items)) == Reset(items)
    ensures Progress(Reset(items)) == 0.0
  {
    var r := Reset(items);
    assert forall i :: 0 <= i < |items| ==> Reset(r)[i] == r[i];
  }

  /** A reset erases any earlier toggle. */
  lemma ResetAfterToggle(items: seq<ChecklistItem>, id: string)
    ensures Reset(Toggle(items, id)) == Reset(items)
  {
    var a := Reset(Toggle(items, id));
    var b := Reset(items);
    assert forall i :: 0 <= i < |items| ==> a[i] == b[i];
  }

  const CustomCategory: string := "Custom"

  /** The row `addCustomTask` appends: id "custom-" and the clock reading in
      milliseconds, the task as typed (untrimmed), unchecked, category
      "Custom". */
  function CustomItem(task: string, now: nat): (r: ChecklistItem)
    ensures |r.id| > 7 && r.id[..7] == "custom-"
    ensures AllDigits(r.id[7..]) && ParseDecimal(r.id[7..]) == now
    ensures r.text == task && !r.checked && r.category == CustomCategory
  {
    var id := "custom-" + NatToString(now);
    assert id[7..] == NatToString(now);
    ParseNatToString(now);
    ChecklistItem(id, task, false, CustomCategory)
  }

  /** Deleting a just-added custom task by its id gives back the list before
      the addition, when no earlier row shared that id. */
  lemma AddThenDelete(items: seq<ChecklistItem>, task: string, now: nat)
    requires forall i :: 0 <= i < |items| ==> items[i].id != CustomItem(task, now).id
    ensures Delete(items + [CustomItem(task, now)], CustomItem(task, now).id) == items
  {
    var id := CustomItem(task, now).id;
    DeleteAppend(items, [CustomItem(task, now)], id);
    DeleteAbsent(items, id);
    assert Delete([CustomItem(task, now)], id) == [] by {
      assert [CustomItem(task, now)][..0] == [];
    }
  }

  /** The new custom row is the last row of the "Custom" group. */
  lemma CustomItemLastInGroup(items: seq<ChecklistItem>, task: string, now: nat)
    ensures ItemsIn(items + [CustomItem(task, now)], CustomCategory)
            == ItemsIn(items, CustomCategory) + [CustomItem(task, now)]
  {
    ItemsInAppend(items, [CustomItem(task, now)], CustomCategory);
    assert [CustomItem(task, now)][..0] == [];
  }
}
