/** The compare page: which product each of the two slots shows, the guards
    on choosing a product for a slot, the "Clear" buttons, and which cell of
    a metric row is highlighted as the better one. */
module ComparePage {
  import opened Optional
  import opened ProductList
  import opened Compare

  /** Whether a lower or a higher value of a metric is the better one. */
  datatype Preference = Lower | Higher

  /** `metricPreference`: lower price is better, higher rating and stock are
      better; no other field is a metric. */
  function MetricPreference(fieldKey: string): (pref: Option<Preference>)
    ensures pref.Some? <==> fieldKey in {"price", "rating", "stock"}
    ensures pref == Some(Lower) <==> fieldKey == "price"
  {
    if fieldKey == "price" then Some(Lower)
    else if fieldKey == "rating" || fieldKey == "stock" then Some(Higher)
    else None
  }

  /** The two columns of the table. */
  datatype Side = A | B

  function OtherSide(side: Side): Side
  {
    if side == A then B else A
  }

  /** The highlighting of a cell: neutral, a tie, or better or worse than the
      cell beside it. */
  datatype CellClass = Neutral | Tie | Better | Worse

  /** `x` is strictly better than `y` under the preference. */
  predicate Beats(pref: Preference, x: real, y: real)
  {
    match pref
    case Lower => x < y
    case Higher => x > y
  }

  /** `getMetricCellClass`: the highlighting of one side of a row, given both
      sides' values (`None` for `null` or `undefined`). */
  function MetricCellClass(fieldKey: string, valueA: Option<real>, valueB: Option<real>, side: Side): (r: CellClass)
    ensures MetricPreference(fieldKey).None? || valueA.None? || valueB.None? ==> r == Neutral
    ensures r == Tie <==> MetricPreference(fieldKey).Some? && valueA.Some? && valueB.Some? && valueA == valueB
    ensures r == Better <==>
              && MetricPreference(fieldKey).Some? && valueA.Some? && valueB.Some?
              && if side == A then Beats(MetricPreference(fieldKey).value, valueA.value, valueB.value)
                 else Beats(MetricPreference(fieldKey).value, valueB.value, valueA.value)
  {
    if MetricPreference(fieldKey).None? then Neutral
    else if valueA.None? || valueB.None? then Neutral
    else if valueA.value == valueB.value then Tie
    else
      var aIsBetter :=
        if MetricPreference(fieldKey).value == Lower then valueA.value < valueB.value
        else valueA.value > valueB.value;
      var isBetterCell := if side == A then aIsBetter else !aIsBetter;
      if isBetterCell then Better else Worse
  }

  /** Better and worse trade places; neutral and tie stay. */
  function Flipped(c: CellClass): CellClass
  {
    match c
    case Better => Worse
    case Worse => Better
    case _ => c
  }

  /** The two cells of a row are opposite: exactly one is better and the
      other worse, or both are neutral, or both are a tie. */
  lemma CellsAreOpposite(fieldKey: string, valueA: Option<real>, valueB: Option<real>)
    ensures MetricCellClass(fieldKey, valueA, valueB, B) == Flipped(MetricCellClass(fieldKey, valueA, valueB, A))
    ensures MetricCellClass(fieldKey, valueA, valueB, A) in {Better, Worse}
            <==> MetricPreference(fieldKey).Some? && valueA.Some? && valueB.Some? && valueA != valueB
  {
  }

  /** Swapping the two products swaps the highlighting of the columns. */
  lemma SwappingProductsSwapsCells(fieldKey: string, valueA: Option<real>, valueB: Option<real>, side: Side)
    ensures MetricCellClass(fieldKey, valueB, valueA, side) == MetricCellClass(fieldKey, valueA, valueB, OtherSide(side))
  {
  }

  /** For the price the strictly lower value wins; for rating and stock the
      strictly higher one. */
  lemma WinnerByField(a: real, b: real)
    requires a != b
    ensures MetricCellClass("price", Some(a), Some(b), A) == (if a < b then Better else Worse)
    ensures MetricCellClass("rating", Some(a), Some(b), A) == (if a > b then Better else Worse)
    ensures MetricCellClass("stock", Some(a), Some(b), A) == (if a > b then Better else Worse)
  {
  }

  /** The value a row shows for a slot's product (`productA?.[field.key]`),
      as far as highlighting is concerned: the three metrics, and `None` for
      an empty slot. The category, a string, is never compared, so it is
      `None` here too. */
  function MetricValue(product: Option<Product>, fieldKey: string): (r: Option<real>)
    ensures r.Some? <==> product.Some? && MetricPreference(fieldKey).Some?
    ensures product.Some? && fieldKey == "price" ==> r == Some(product.value.price)
    ensures product.Some? && fieldKey == "rating" ==> r == Some(product.value.rating)
    ensures product.Some? && fieldKey == "stock" ==> r == Some(product.value.stock as real)
  {
    if product.None? then None
    else if fieldKey == "price" then Some(product.value.price)
    else if fieldKey == "rating" then Some(product.value.rating)
    else if fieldKey == "stock" then Some(product.value.stock as real)
    else None
  }

  /** The fields of the comparison table, in order. */
  const ComparisonFields: seq<string> := ["price", "category", "rating", "stock"]

  /** The category row, and every row while a slot is empty, is neutral. */
  lemma NeutralRows(productA: Option<Product>, productB: Option<Product>, side: Side)
    ensures MetricCellClass("category", MetricValue(productA, "category"), MetricValue(productB, "category"), side) == Neutral
    ensures productA.None? || productB.None? ==>
              forall k :: k in ComparisonFields ==>
                MetricCellClass(k, MetricValue(productA, k), MetricValue(productB, k), side) == Neutral
  {
  }

  /** The outcome of choosing a product for a slot. */
  datatype Verdict = Accepted | SameProduct | OtherCategory

  /** The `onChange` guard of a slot: a choice deep-equal to the product in
      the other slot, or of another category than it, is refused. */
  function SelectionVerdict(selected: Product, other: Option<Product>): (v: Verdict)
    ensures v == Accepted <==> other.None? || (selected != other.value && selected.category == other.value.category)
    ensures v == SameProduct <==> other == Some(selected)
  {
    if other.Some? && selected == other.value then SameProduct
    else if other.Some? && selected.category != other.value.category then OtherCategory
    else Accepted
  }

  /** The guard treats the two slots alike. */
  lemma SelectionVerdictSymmetric(x: Product, y: Product)
    ensures SelectionVerdict(x, Some(y)) == SelectionVerdict(y, Some(x))
  {
  }

  /** The product a slot shows: the one whose id the slot's selection holds,
      or failing a selection, the one whose id is at the slot's index in the
      compare list; `None` when there is no id or no loaded product has it. */
  function SlotProduct(products: seq<Product>, selected: Option<int>, list: seq<Product>, slot: nat): (r: Option<Product>)
    ensures r.Some? <==> if selected.Some? then HasId(products, selected.value)
                         else slot < |list| && HasId(products, list[slot].id)
    ensures r.Some? ==> r.value in products
                        && r.value.id == if selected.Some? then selected.value else list[slot].id
  {
    if selected.Some? then FindById(products, selected.value)
    else if slot < |list| then FindById(products, list[slot].id)
    else None
  }

  /** Choosing for slot A can leave both slots showing the same product.
      With `[x, y]` held and no selection, slot B shows `y`; a `z` of `y`'s
      category passes the guard against `y`, the add evicts `x` giving
      `[y, z]`, and then slot A (selecting `z`) and slot B (falling back to
      the list's second entry) both show `z`. */
  lemma SlotAChoiceCanShowOneProductTwice(products: seq<Product>, x: Product, y: Product, z: Product)
    requires UniqueIds(products) && x in products && y in products && z in products
    requires x.id != y.id && z.id != x.id && z.id != y.id && z.category == y.category
    ensures SlotProduct(products, None, [x, y], 1) == Some(y)
    ensures SelectionVerdict(z, Some(y)) == Accepted
    ensures Added([x, y], z) == [y, z]
    ensures SlotProduct(products, Some(z.id), [y, z], 0) == Some(z)
    ensures SlotProduct(products, None, [y, z], 1) == Some(z)
  {
    var iy :| 0 <= iy < |products| && products[iy] == y;
    var iz :| 0 <= iz < |products| && products[iz] == z;
    FindByIdUnique(products, iy);
    FindByIdUnique(products, iz);
  }

  /** The page's state: the loaded products and the two slots' selections
      (`None` for the empty string), beside the shared compare store. */
  class Page {
    var products: seq<Product>
    var selectedA: Option<int>
    var selectedB: Option<int>
    const store: CompareStore

    constructor (store: CompareStore)
      ensures this.store == store
      ensures products == [] && selectedA == None && selectedB == None
    {
      this.store := store;
      products := [];
      selectedA, selectedB := None, None;
    }

    /** The load effect stores what the product service returned. */
    method Load(allProducts: seq<Product>)
      modifies this
      ensures products == allProducts
      ensures selectedA == old(selectedA) && selectedB == old(selectedB)
    {
      products := allProducts;
    }

    /** `productA` */
    function ProductA(): (r: Option<Product>)
      reads this, store
      ensures r.Some? ==> r.value in products
      ensures selectedA.Some? ==> (r.Some? <==> HasId(products, selectedA.value))
      ensures selectedA.None? && store.compareList == [] ==> r.None?
    {
      SlotProduct(products, selectedA, store.compareList, 0)
    }

    /** `productB` */
    function ProductB(): (r: Option<Product>)
      reads this, store
      ensures r.Some? ==> r.value in products
      ensures selectedB.Some? ==> (r.Some? <==> HasId(products, selectedB.value))
      ensures selectedB.None? && |store.compareList| < 2 ==> r.None?
    {
      SlotProduct(products, selectedB, store.compareList, 1)
    }

    /** Slot B's dropdown is enabled once slot A has a selection or the
        compare list is not empty. */
    predicate SlotBEnabled(): (enabled: bool)
      reads this, store
      ensures !enabled ==> ProductA().None?
    {
      selectedA.Some? || |store.compareList| > 0
    }

    /** Choosing the product with id `value` in slot A. */
    method SelectA(value: int)
      requires store.Valid()
      requires HasId(products, value)  // the dropdown lists the loaded products
      modifies this, store
      ensures store.Valid() && products == old(products) && selectedB == old(selectedB)
      ensures var chosen := FindById(old(products), value).value;
              if SelectionVerdict(chosen, old(ProductB())) == Accepted then
                selectedA == Some(value) && store.compareList == Added(old(store.compareList), chosen)
              else
                selectedA == old(selectedA) && store.compareList == old(store.compareList)
    {
      var selectedProd := FindById(products, value).value;
      var productB := ProductB();
      if productB.Some? && selectedProd == productB.value {
        return;
      }
      if productB.Some? && selectedProd.category != productB.value.category {
        return;
      }
      selectedA := Some(value);
      store.AddToCompareList(selectedProd);
    }

    /** Choosing the product with id `value` in slot B. */
    method SelectB(value: int)
      requires store.Valid()
      requires SlotBEnabled()
      requires HasId(products, value)  // the dropdown lists the loaded products
      modifies this, store
      ensures store.Valid() && products == old(products) && selectedA == old(selectedA)
      ensures var chosen := FindById(old(products), value).value;
              if SelectionVerdict(chosen, old(ProductA())) == Accepted then
                selectedB == Some(value) && store.compareList == Added(old(store.compareList), chosen)
              else
                selectedB == old(selectedB) && store.compareList == old(store.compareList)
    {
      var selectedProd := FindById(products, value).value;
      var productA := ProductA();
      if productA.Some? && selectedProd == productA.value {
        return;
      }
      if productA.Some? && selectedProd.category != productA.value.category {
        return;
      }
      selectedB := Some(value);
      store.AddToCompareList(selectedProd);
    }

    /** "Clear" on slot A: drops the first listed product from the store,
        moves slot B's selection into slot A and empties slot B. */
    method ClearA()
      requires store.Valid()
      modifies this, store
      ensures store.Valid() && products == old(products)
      ensures store.compareList ==
                if old(store.compareList) == [] then old(store.compareList)
                else WithoutId(old(store.compareList), old(store.compareList)[0].id)
      ensures selectedA == old(selectedB) && selectedB == None
    {
      if store.compareList != [] {
        store.RemoveFromCompareList(store.compareList[0].id);
      }
      selectedA := selectedB;
      selectedB := None;
    }

    /** "Clear" on slot B: drops the second listed product from the store and
        empties slot B. */
    method ClearB()
      requires store.Valid()
      modifies this, store
      ensures store.Valid() && products == old(products)
      ensures store.compareList ==
                if |old(store.compareList)| < 2 then old(store.compareList)
                else WithoutId(old(store.compareList), old(store.compareList)[1].id)
      ensures selectedA == old(selectedA) && selectedB == None
    {
      if |store.compareList| >= 2 {
        store.RemoveFromCompareList(store.compareList[1].id);
      }
      selectedB := None;
    }
  }
}
