/**
 The one-pricing-form rule: an item has a price of its own or sizes, never both
 and never neither. Creating an item and adding a size keep it, so it holds in
 every menu the commands can reach.
 */
module Pricing {
  import opened Prelude
  import opened Uuids
  import opened Availability
  import opened Sellable

  const MAX_PRICE: int := 2_147_483_647

  datatype PricingError = InvalidPricing | EmptyName | NameConflict | Missing | Retired

  /** A size of a new item: its display name, the key it must be unique by, and its price. */
  datatype NewSize = NewSize(display: string, key: string, price: int)

  predicate GoodPrice(price: int) { 1 <= price <= MAX_PRICE }

  ghost predicate GoodSizes(sizes: seq<NewSize>) {
    && (forall i :: 0 <= i < |sizes| ==> sizes[i].display != "" && GoodPrice(sizes[i].price))
    && (forall i, j :: 0 <= i < j < |sizes| ==> sizes[i].key != sizes[j].key)
  }

  /** The first size that is not good beside those before it. */
  ghost predicate FirstBadSize(sizes: seq<NewSize>, i: nat) {
    i < |sizes| && GoodSizes(sizes[..i]) && !GoodSizes(sizes[..i + 1])
  }

  /** What a size is refused for: no name, then a name that is taken, then its price. */
  ghost function SizeError(sizes: seq<NewSize>, i: nat): PricingError
    requires i < |sizes|
  {
    if sizes[i].display == "" then EmptyName
    else if exists j :: 0 <= j < i && sizes[j].key == sizes[i].key then NameConflict
    else InvalidPricing
  }

  /** Exactly one pricing form, a name, valid prices, and sizes with distinct names. */
  ghost predicate GoodItem(display: string, price: Option<int>, sizes: seq<NewSize>) {
    && (price.Some? <==> sizes == [])
    && display != "" && (price.Some? ==> GoodPrice(price.value)) && GoodSizes(sizes)
  }

  ghost function WithSizes(rows: map<Uuid, Child>, item: Uuid, ids: seq<Uuid>): map<Uuid, Child> {
    map s | s in rows.Keys + Elements(ids) :: if s in ids then Child(item, true, false) else rows[s]
  }

  lemma SizeAdded(rows: map<Uuid, Child>, item: Uuid, ids: seq<Uuid>, i: nat)
    requires i < |ids|
    ensures WithSizes(rows, item, ids[..i + 1]) == WithSizes(rows, item, ids[..i])[ids[i] := Child(item, true, false)]
  {
    assert ids[..i + 1] == ids[..i] + [ids[i]];
  }

  ghost function Created(m: Menu, item: Uuid, priced: bool, ids: seq<Uuid>): Menu {
    m.(items := m.items[item := Item(priced, true, false)], sizes := WithSizes(m.sizes, item, ids))
  }

  /** Generated ids that are not in use. */
  ghost predicate FreshItem(m: Menu, item: Uuid, ids: seq<Uuid>) {
    item !in m.items && forall s :: s in ids ==> s !in m.sizes
  }

  function SizeTo(m: Menu, item: Uuid, id: Uuid): Menu {
    m.(sizes := m.sizes[id := Child(item, true, false)])
  }

  /** Every size belongs to an item, and an item has a price exactly when it has no size. */
  ghost predicate OneForm(m: Menu) {
    && (forall s :: s in m.sizes ==> m.sizes[s].parent in m.items)
    && (forall i :: i in m.items ==> (m.items[i].priced <==> forall s :: s in m.sizes ==> m.sizes[s].parent != i))
  }

  lemma OneFormIsOnePricingForm(m: Menu)
    requires OneForm(m)
    ensures OnePricingForm(m)
  {
  }

  /** After good sizes the next one is good exactly when it has a name, a new key and a good price. */
  lemma BadSize(sizes: seq<NewSize>, i: nat, good: bool)
    requires i < |sizes| && GoodSizes(sizes[..i])
    requires good <==> sizes[i].display != "" && GoodPrice(sizes[i].price)
                       && forall j :: 0 <= j < i ==> sizes[j].key != sizes[i].key
    ensures good <==> GoodSizes(sizes[..i + 1])
    ensures !good ==> FirstBadSize(sizes, i)
  {
    var p := sizes[..i + 1];
    assert p[i] == sizes[i] && forall j :: 0 <= j < i ==> p[j] == sizes[j] == sizes[..i][j];
  }

  class ItemCatalog {
    var menu: Menu

    constructor ()
      ensures menu == Menu(map[], map[], map[], map[])
    {
      menu := Menu(map[], map[], map[], map[]);
    }

    /** `validateNewItem`: the scan of the sizes keeps the keys it has seen. */
    static method ValidateNewItem(display: string, price: Option<int>, sizes: seq<NewSize>)
      returns (r: Option<PricingError>)
      ensures r.None? <==> GoodItem(display, price, sizes)
      ensures (price.Some? <==> sizes != []) ==> r == Some(InvalidPricing)
      ensures (price.Some? <==> sizes == []) && display == "" ==> r == Some(EmptyName)
      ensures (price.Some? <==> sizes == []) && display != "" && price.Some? && !GoodPrice(price.value) ==>
        r == Some(InvalidPricing)
      ensures price.None? && sizes != [] && display != "" && r.Some? ==>
        exists i: nat :: FirstBadSize(sizes, i) && r == Some(SizeError(sizes, i))
    {
      var hasDirect := price.Some?;
      var hasSizes := |sizes| > 0;
      if hasDirect == hasSizes { return Some(InvalidPricing); }
      if display == "" { return Some(EmptyName); }
      if hasDirect && !GoodPrice(price.value) { return Some(InvalidPricing); }
      var seen: set<string> := {};
      for i := 0 to |sizes|
        invariant GoodSizes(sizes[..i])
        invariant forall k :: k in seen <==> exists j :: 0 <= j < i && sizes[j].key == k
      {
        assert sizes[..i + 1] == sizes[..i] + [sizes[i]];
        ghost var good := sizes[i].display != "" && sizes[i].key !in seen && GoodPrice(sizes[i].price);
        BadSize(sizes, i, good);
        if sizes[i].display == "" { return Some(EmptyName); }
        if sizes[i].key in seen { return Some(NameConflict); }
        seen := seen + {sizes[i].key};
        if !GoodPrice(sizes[i].price) { return Some(InvalidPricing); }
        assert sizes[..i + 1] == sizes[..i] + [sizes[i]];
      }
      assert sizes[..|sizes|] == sizes;
      return None;
    }

    /** The new item's row and then one row for each size; `id` and `ids` are the generated ids. */
    method CreateItem(id: Uuid, ids: seq<Uuid>, display: string, price: Option<int>, sizes: seq<NewSize>)
      returns (r: Option<PricingError>)
      requires FreshItem(menu, id, ids) && |ids| == |sizes|
      modifies this
      ensures r.None? <==> GoodItem(display, price, sizes)
      ensures menu == if r.None? then Created(old(menu), id, price.Some?, ids) else old(menu)
    {
      r := ValidateNewItem(display, price, sizes);
      if r.Some? { return; }
      var rows := menu.sizes;
      assert WithSizes(menu.sizes, id, []) == menu.sizes;
      for i := 0 to |ids|
        invariant menu == old(menu) && rows == WithSizes(menu.sizes, id, ids[..i])
      {
        SizeAdded(menu.sizes, id, ids, i);
        rows := rows[ids[i] := Child(id, true, false)];
      }
      assert ids[..|ids|] == ids;
      menu := menu.(items := menu.items[id := Item(price.Some?, true, false)], sizes := rows);
      assert menu == Created(old(menu), id, price.Some?, ids);
    }

    /** Adds a size to a sized item. */
    method AddSize(item: Uuid, id: Uuid, display: string, price: int) returns (r: Option<PricingError>)
      requires id !in menu.sizes
      modifies this
      ensures r.None? <==> item in old(menu).items && !old(menu).items[item].retired && !old(menu).items[item].priced
                           && display != "" && GoodPrice(price)
      ensures r == Some(Missing) <==> item !in old(menu).items
      ensures r == Some(Retired) <==> item in old(menu).items && old(menu).items[item].retired
      ensures r == Some(EmptyName) <==> item in old(menu).items && !old(menu).items[item].retired
                                        && !old(menu).items[item].priced && display == ""
      ensures r != Some(NameConflict)
      ensures menu == if r.None? then SizeTo(old(menu), item, id) else old(menu)
      ensures r.None? ==> menu.sizes == old(menu).sizes[id := Child(item, true, false)]
    {
      if item !in menu.items { return Some(Missing); }
      if menu.items[item].retired { return Some(Retired); }
      if menu.items[item].priced { return Some(InvalidPricing); }
      if display == "" { return Some(EmptyName); }
      if !GoodPrice(price) { return Some(InvalidPricing); }
      menu := menu.(sizes := menu.sizes[id := Child(item, true, false)]);
      return None;
    }
  }

  /** A new item can be sold at once, unless one of its groups asks for more options than can be ordered. */
  lemma CreatedIsSold(m: Menu, item: Uuid, ids: seq<Uuid>, display: string, price: Option<int>, sizes: seq<NewSize>,
                      groups: set<Uuid>)
    requires OneForm(m) && FreshItem(m, item, ids) && |ids| == |sizes| && GoodItem(display, price, sizes)
    ensures Sold(Created(m, item, price.Some?, ids), item, groups) <==>
      forall g :: g in groups && g in m.groups && !m.groups[g].retired ==>
        m.groups[g].minSelections <= |Orderable(m.options, g)|
  {
    var t := Created(m, item, price.Some?, ids);
    SoldExactly(t, item, groups);
    if sizes != [] { assert ids[0] in ids && t.sizes[ids[0]] == Child(item, true, false); }
    assert forall s :: s in m.sizes ==> m.sizes[s].parent != item;
    forall g
      ensures (set o | o in t.options && t.options[o].parent == g && t.options[o].available && !t.options[o].retired)
        == Orderable(m.options, g)
    {
    }
  }

  // ---------- every reachable menu ----------

  /** A command that succeeded, by what it wrote. Retiring and repricing leave an item's pricing form alone. */
  datatype Write =
    | CreateItem(id: Uuid, display: string, price: Option<int>, sizes: seq<NewSize>, ids: seq<Uuid>)
    | AddSize(item: Uuid, id: Uuid)
    | SetFlags(changes: set<Change>)
    | RetireItem(item: Uuid)
    | RetireSize(size: Uuid)

  ghost function Written(m: Menu, w: Write): Menu {
    match w
    case CreateItem(id, display, price, sizes, ids) =>
      if FreshItem(m, id, ids) && |ids| == |sizes| && GoodItem(display, price, sizes)
      then Created(m, id, price.Some?, ids)
      else m
    case AddSize(item, id) =>
      if item in m.items && !m.items[item].retired && !m.items[item].priced && id !in m.sizes
      then SizeTo(m, item, id)
      else m
    case SetFlags(changes) => Update(m, changes)
    case RetireItem(item) =>
      if item in m.items then m.(items := m.items[item := m.items[item].(retired := true)]) else m
    case RetireSize(size) =>
      if size in m.sizes then m.(sizes := m.sizes[size := m.sizes[size].(retired := true)]) else m
  }

  ghost function Run(m: Menu, ws: seq<Write>): Menu
    decreases |ws|
  {
    if ws == [] then m else Run(Written(m, ws[0]), ws[1..])
  }

  lemma CreatedKeepsOneForm(m: Menu, id: Uuid, priced: bool, ids: seq<Uuid>)
    requires OneForm(m) && FreshItem(m, id, ids) && (priced <==> ids == [])
    ensures OneForm(Created(m, id, priced, ids))
  {
    var m' := Created(m, id, priced, ids);
    assert forall s :: s in m'.sizes <==> s in m.sizes || s in ids;
    forall i | i in m'.items ensures m'.items[i].priced <==> forall s :: s in m'.sizes ==> m'.sizes[s].parent != i {
      if i == id {
        if ids != [] { assert ids[0] in m'.sizes && m'.sizes[ids[0]].parent == id; }
      } else {
        assert forall s :: s in m.sizes ==> s in m'.sizes && m'.sizes[s] == m.sizes[s];
        assert forall s :: s in m'.sizes && m'.sizes[s].parent == i ==> s in m.sizes;
      }
    }
  }

  lemma AddedSizeKeepsOneForm(m: Menu, item: Uuid, id: Uuid)
    requires OneForm(m) && item in m.items && !m.items[item].priced && id !in m.sizes
    ensures OneForm(SizeTo(m, item, id))
  {
    var m' := SizeTo(m, item, id);
    forall i | i in m'.items ensures m'.items[i].priced <==> forall s :: s in m'.sizes ==> m'.sizes[s].parent != i {
      assert forall s :: s in m.sizes ==> s in m'.sizes && m'.sizes[s] == m.sizes[s];
      assert id in m'.sizes && m'.sizes[id].parent == item;
    }
  }

  lemma WrittenKeepsOneForm(m: Menu, w: Write)
    requires OneForm(m)
    ensures OneForm(Written(m, w))
  {
    match w {
      case CreateItem(id, display, price, sizes, ids) => CreateKeepsOneForm(m, id, display, price, sizes, ids);
      case AddSize(item, id) =>
        if item in m.items && !m.items[item].priced && id !in m.sizes { AddedSizeKeepsOneForm(m, item, id); }
      case SetFlags(changes) => FlagsKeepOneForm(m, changes);
      case RetireItem(item) => SameFormsKeep(m, Written(m, w));
      case RetireSize(size) => SameFormsKeep(m, Written(m, w));
    }
  }

  lemma CreateKeepsOneForm(m: Menu, id: Uuid, display: string, price: Option<int>, sizes: seq<NewSize>, ids: seq<Uuid>)
    requires OneForm(m)
    ensures OneForm(Written(m, CreateItem(id, display, price, sizes, ids)))
  {
    if FreshItem(m, id, ids) && |ids| == |sizes| && GoodItem(display, price, sizes) {
      assert price.Some? <==> ids == [];
      CreatedKeepsOneForm(m, id, price.Some?, ids);
    }
  }

  lemma FlagsKeepOneForm(m: Menu, changes: set<Change>)
    requires OneForm(m)
    ensures OneForm(Update(m, changes))
  {
    SameFormsKeep(m, Update(m, changes));
  }

  /** Only prices and parents matter to the rule. */
  lemma SameFormsKeep(m: Menu, m': Menu)
    requires OneForm(m)
    requires m'.items.Keys == m.items.Keys && m'.sizes.Keys == m.sizes.Keys
    requires forall i :: i in m.items ==> m'.items[i].priced == m.items[i].priced
    requires forall s :: s in m.sizes ==> m'.sizes[s].parent == m.sizes[s].parent
    ensures OneForm(m')
  {
    forall i | i in m'.items ensures m'.items[i].priced <==> forall s :: s in m'.sizes ==> m'.sizes[s].parent != i {
      assert forall s :: s in m.sizes ==> s in m'.sizes && m'.sizes[s].parent == m.sizes[s].parent;
      assert forall s :: s in m'.sizes ==> s in m.sizes;
    }
  }

  lemma {:induction false} RunKeepsOneForm(m: Menu, ws: seq<Write>)
    requires OneForm(m)
    ensures OneForm(Run(m, ws))
    decreases |ws|
  {
    if ws != [] {
      WrittenKeepsOneForm(m, ws[0]);
      RunKeepsOneForm(Written(m, ws[0]), ws[1..]);
    }
  }

  /**
   In every menu that creating items, adding sizes, setting flags and retiring
   can reach from an empty one, turning entities on never makes a sellable item
   unsellable.
   */
  lemma TurningOnNeverUnsells(ws: seq<Write>, changes: set<Change>, item: Uuid, groups: set<Uuid>)
    requires TurnsOn(changes)
    requires Sold(Run(Menu(map[], map[], map[], map[]), ws), item, groups)
    ensures Sold(Update(Run(Menu(map[], map[], map[], map[]), ws), changes), item, groups)
  {
    var m := Run(Menu(map[], map[], map[], map[]), ws);
    RunKeepsOneForm(Menu(map[], map[], map[], map[]), ws);
    OneFormIsOnePricingForm(m);
    TurningOnKeepsSold(m, changes, item, groups);
  }
}
