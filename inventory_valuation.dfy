/**
 * Inventory valuation: the total value of all stock, the value per category
 * and the value per product, each quantity times average cost. The lemmas tie
 * the reports to each other and to the movement engine.
 */
module InventoryValuation {
  import opened Common
  import opened Store
  import opened Order
  import opened InventoryService

  // ---------------------------------------------------------------------------
  // Total valuation
  // ---------------------------------------------------------------------------

  function StockValueSum(ks: seq<int>, inventory: map<int, StockRecord>): real
    requires forall i | 0 <= i < |ks| :: ks[i] in inventory
  {
    if ks == [] then 0.0 else Value(inventory[ks[0]]) + StockValueSum(ks[1..], inventory)
  }

  /** SUM(quantity * avg_cost) over every inventory row, whatever the product's status; 0 when there are none. */
  function StockTotal(inventory: map<int, StockRecord>): real {
    StockValueSum(SortedKeys(inventory.Keys), inventory)
  }

  /** The total stock valuation; 0 when there are no inventory rows. */
  function TotalValuation(db: Db): (total: real)
    ensures db.inventory == map[] ==> total == 0.0
  {
    StockTotal(db.inventory)
  }

  lemma {:induction false} StockValueSumNonNegative(ks: seq<int>, inventory: map<int, StockRecord>)
    requires forall i | 0 <= i < |ks| :: ks[i] in inventory
    requires forall p | p in inventory :: inventory[p].quantity >= 0 && inventory[p].avgCost >= 0.0
    ensures StockValueSum(ks, inventory) >= 0.0
  {
    if ks != [] {
      StockValueSumNonNegative(ks[1..], inventory);
      var r := inventory[ks[0]];
      assert r.quantity as real >= 0.0;
      assert Value(r) >= 0.0;
    }
  }

  /** In a consistent database, where no stock or cost is negative, the total valuation is not negative. */
  lemma TotalNonNegative(db: Db)
    requires Consistent(db)
    ensures TotalValuation(db) >= 0.0
  {
    var ks := SortedKeys(db.inventory.Keys);
    forall i | 0 <= i < |ks| ensures ks[i] in db.inventory { assert ks[i] in ks; }
    StockValueSumNonNegative(ks, db.inventory);
  }

  lemma {:induction false} StockValueSumUpdate(ks: seq<int>, inventory: map<int, StockRecord>, p: int, r: StockRecord)
    requires forall i | 0 <= i < |ks| :: ks[i] in inventory
    requires Increasing(ks)
    ensures StockValueSum(ks, inventory[p := r])
         == StockValueSum(ks, inventory) + (if p in ks then Value(r) - Value(inventory[p]) else 0.0)
  {
    if ks != [] {
      assert Increasing(ks[1..]);
      StockValueSumUpdate(ks[1..], inventory, p, r);
      if ks[0] == p {
        assert p !in ks[1..] by {
          forall j | 0 <= j < |ks[1..]| ensures ks[1..][j] != p { assert ks[1..][j] == ks[j + 1]; }
        }
      }
    }
  }

  /** Rewriting one existing stock record changes the total by exactly the change in that record's value. */
  lemma StockTotalAfterSet(inventory: map<int, StockRecord>, p: int, r: StockRecord)
    requires p in inventory
    ensures StockTotal(inventory[p := r]) == StockTotal(inventory) + Value(r) - Value(inventory[p])
  {
    assert inventory[p := r].Keys == inventory.Keys;
    StockValueSumUpdate(SortedKeys(inventory.Keys), inventory, p, r);
  }

  lemma TotalAfterSetStock(db: Db, p: int, r: StockRecord)
    requires p in db.inventory
    ensures TotalValuation(SetStock(db, p, r)) == TotalValuation(db) + Value(r) - Value(db.inventory[p])
  {
    StockTotalAfterSet(db.inventory, p, r);
  }

  /** Stock records that differ in one record by a value change of dv are worth dv more in total. */
  lemma StockTotalAfterChange(inventory: map<int, StockRecord>, next: map<int, StockRecord>, p: int, dv: real)
    requires p in inventory && p in next && next == inventory[p := next[p]]
    requires Value(next[p]) == Value(inventory[p]) + dv
    ensures StockTotal(next) == StockTotal(inventory) + dv
  {
    StockTotalAfterSet(inventory, p, next[p]);
  }

  /** A database whose stock differs in one record by a value change of dv has a total larger by dv. */
  lemma TotalAfterChange(db: Db, d: Db, p: int, rec: StockRecord, dv: real)
    requires p in db.inventory && d.inventory == db.inventory[p := rec]
    requires Value(rec) == Value(db.inventory[p]) + dv
    ensures TotalValuation(d) == TotalValuation(db) + dv
  {
    StockTotalAfterSet(db.inventory, p, rec);
  }

  /** A successful INBOUND of q units at unit cost u raises the total valuation by exactly q*u. */
  lemma InboundRaisesTotal(db: Db, p: int, q: int, c: CostValue)
    requires p in db.inventory && db.inventory[p].quantity >= 0 && q > 0
    requires ApplyMovement(db, p, q, INBOUND, c).Ok?
    ensures TotalValuation(ApplyMovement(db, p, q, INBOUND, c).value) == TotalValuation(db) + q as real * c.amount
  {
    var rec := Move(db.inventory[p], q, INBOUND, c).value;
    TotalAfterSetStock(db, p, rec);
  }

  /** A successful OUTBOUND of q units lowers the total valuation by q times the product's average cost. */
  lemma OutboundLowersTotal(db: Db, p: int, q: int)
    requires ApplyMovement(db, p, q, OUTBOUND, Undefined).Ok?
    ensures TotalValuation(ApplyMovement(db, p, q, OUTBOUND, Undefined).value)
         == TotalValuation(db) - q as real * db.inventory[p].avgCost
  {
    var rec := Move(db.inventory[p], q, OUTBOUND, Undefined).value;
    TotalAfterSetStock(db, p, rec);
  }

  // ---------------------------------------------------------------------------
  // Valuation by product
  // ---------------------------------------------------------------------------

  /** A row of the inventory-products join with its computed total_value. */
  datatype ProductValuation = ProductValuation(
    productId: int, sku: string, name: Option<string>, category: Option<string>,
    quantity: int, avgCost: real, totalValue: real)

  function RowFor(db: Db, p: int): (row: ProductValuation)
    requires p in db.inventory && p in db.products
    ensures row.totalValue == row.quantity as real * row.avgCost
  {
    var pr, st := db.products[p], db.inventory[p];
    ProductValuation(p, pr.sku, pr.name, pr.category, st.quantity, st.avgCost, Value(st))
  }

  /** The inner join of inventory with products, an inventory row without its product being dropped. */
  function JoinFrom(ks: seq<int>, db: Db): (rows: seq<ProductValuation>)
    requires forall k | k in ks :: k in db.inventory
    ensures forall x | x in rows :: x.productId in ks && x.productId in db.products && x == RowFor(db, x.productId)
    ensures forall k | k in ks && k in db.products :: RowFor(db, k) in rows
    ensures Increasing(ks) ==> NoDuplicates(rows)
  {
    if ks == [] then []
    else
      var rest := JoinFrom(ks[1..], db);
      var head := if ks[0] in db.products then [RowFor(db, ks[0])] else [];
      assert forall k | k in ks && k != ks[0] :: k in ks[1..];
      IncreasingTail(ks);
      head + rest
  }

  function JoinedRows(db: Db): seq<ProductValuation> {
    JoinFrom(SortedKeys(db.inventory.Keys), db)
  }

  function RowValue(x: ProductValuation): real {
    x.totalValue
  }

  predicate ValueDesc(a: ProductValuation, b: ProductValuation) {
    a.totalValue >= b.totalValue
  }

  lemma ValueDescIsTotalPreorder()
    ensures TotalPreorder(ValueDesc)
  {}

  /** Every joined product once as a row, ordered by total value, highest first. */
  function ValuationByProduct(db: Db): (report: seq<ProductValuation>)
    ensures SortedBy(report, ValueDesc)
    ensures forall x | x in report :: x.productId in db.inventory && x.productId in db.products && x == RowFor(db, x.productId)
    ensures forall p | p in db.inventory && p in db.products :: RowFor(db, p) in report
    ensures forall i, j | 0 <= i < j < |report| :: report[i].productId != report[j].productId
  {
    var rows := JoinedRows(db);
    var report := SortBy(rows, ValueDesc);
    ValueDescIsTotalPreorder();
    SortBySorted(rows, ValueDesc);
    SameElements(report, rows);
    PermutationNoDuplicates(rows, report);
    assert forall i, j | 0 <= i < j < |report| :: report[i] in report && report[j] in report;
    report
  }

  lemma {:induction false} JoinFromSum(ks: seq<int>, db: Db)
    requires forall i | 0 <= i < |ks| :: ks[i] in db.inventory && ks[i] in db.products
    ensures SumOf(JoinFrom(ks, db), RowValue) == StockValueSum(ks, db.inventory)
  {
    if ks != [] {
      JoinFromSum(ks[1..], db);
      var rest := JoinFrom(ks[1..], db);
      assert JoinFrom(ks, db) == [RowFor(db, ks[0])] + rest;
      assert ([RowFor(db, ks[0])] + rest)[1..] == rest;
    }
  }

  /** In a consistent database the total valuation is the sum of the per-product values. */
  lemma TotalIsSumOfProducts(db: Db)
    requires Consistent(db)
    ensures SumOf(ValuationByProduct(db), RowValue) == TotalValuation(db)
  {
    var ks := SortedKeys(db.inventory.Keys);
    forall i | 0 <= i < |ks| ensures ks[i] in db.inventory && ks[i] in db.products {
      assert ks[i] in ks;
    }
    JoinFromSum(ks, db);
    var rows := JoinedRows(db);
    assert SumOf(rows, RowValue) == StockTotal(db.inventory);
    SumOfPermutation(SortBy(rows, ValueDesc), rows, RowValue);
  }

  // ---------------------------------------------------------------------------
  // Valuation by category
  // ---------------------------------------------------------------------------

  /** One GROUP BY p.category group and its SUM. NULL and '' are different groups. */
  datatype CategoryTotal = CategoryTotal(category: Option<string>, totalValue: real)

  function GroupValue(g: CategoryTotal): real {
    g.totalValue
  }

  predicate DistinctCategories(groups: seq<CategoryTotal>) {
    forall i, j | 0 <= i < j < |groups| :: groups[i].category != groups[j].category
  }

  function Categories(groups: seq<CategoryTotal>): set<Option<string>> {
    set g | g in groups :: g.category
  }

  function RowCategories(rows: seq<ProductValuation>): set<Option<string>> {
    set x | x in rows :: x.category
  }

  lemma RowCategoriesCons(rows: seq<ProductValuation>)
    requires rows != []
    ensures RowCategories(rows) == {rows[0].category} + RowCategories(rows[1..])
  {
    assert rows == [rows[0]] + rows[1..];
    forall c | c in RowCategories(rows) ensures c in {rows[0].category} + RowCategories(rows[1..]) {
      var x :| x in rows && x.category == c;
      if x != rows[0] { assert x in rows[1..]; }
    }
  }

  /** The distinct categories of the rows, each once. */
  function CategoryList(rows: seq<ProductValuation>): (cats: seq<Option<string>>)
    ensures NoDuplicates(cats)
    ensures forall c :: c in cats <==> c in RowCategories(rows)
  {
    if rows == [] then []
    else
      var rest := CategoryList(rows[1..]);
      RowCategoriesCons(rows);
      if rows[0].category in rest then rest else [rows[0].category] + rest
  }

  /** SUM(total_value) over the rows of category c. */
  function CategorySum(rows: seq<ProductValuation>, c: Option<string>): real {
    if rows == [] then 0.0
    else (if rows[0].category == c then rows[0].totalValue else 0.0) + CategorySum(rows[1..], c)
  }

  /** One group per listed category, carrying the sum of that category's rows. */
  function GroupsOf(cats: seq<Option<string>>, rows: seq<ProductValuation>): (groups: seq<CategoryTotal>)
    ensures |groups| == |cats|
    ensures forall i | 0 <= i < |cats| :: groups[i] == CategoryTotal(cats[i], CategorySum(rows, cats[i]))
  {
    if cats == [] then [] else [CategoryTotal(cats[0], CategorySum(rows, cats[0]))] + GroupsOf(cats[1..], rows)
  }

  /** GROUP BY p.category: a group for each distinct category of the joined rows. */
  function GroupByCategory(rows: seq<ProductValuation>): seq<CategoryTotal> {
    GroupsOf(CategoryList(rows), rows)
  }

  /** Each group carries exactly the sum of its category's rows, and the groups have distinct categories. */
  lemma GroupTotals(rows: seq<ProductValuation>)
    ensures DistinctCategories(GroupByCategory(rows))
    ensures Categories(GroupByCategory(rows)) == RowCategories(rows)
    ensures forall g | g in GroupByCategory(rows) :: g.totalValue == CategorySum(rows, g.category)
  {
    var cats := CategoryList(rows);
    var groups := GroupByCategory(rows);
    forall c | c in Categories(groups) ensures c in RowCategories(rows) {
      var g :| g in groups && g.category == c;
      var i :| 0 <= i < |groups| && groups[i] == g;
      assert cats[i] == c;
    }
    forall c | c in RowCategories(rows) ensures c in Categories(groups) {
      var i :| 0 <= i < |cats| && cats[i] == c;
      assert groups[i] in groups;
    }
  }

  /** The value v counted once for every listed category equal to x. */
  function CountedFor(cats: seq<Option<string>>, x: Option<string>, v: real): real {
    if cats == [] then 0.0 else (if cats[0] == x then v else 0.0) + CountedFor(cats[1..], x, v)
  }

  lemma {:induction false} CountedOnce(cats: seq<Option<string>>, x: Option<string>, v: real)
    requires NoDuplicates(cats)
    ensures CountedFor(cats, x, v) == if x in cats then v else 0.0
  {
    if cats != [] {
      assert NoDuplicates(cats[1..]) by {
        forall i, j | 0 <= i < j < |cats[1..]| ensures cats[1..][i] != cats[1..][j] {
          assert cats[1..][i] == cats[i + 1] && cats[1..][j] == cats[j + 1];
        }
      }
      CountedOnce(cats[1..], x, v);
      if cats[0] == x {
        forall k | 0 <= k < |cats[1..]| ensures cats[1..][k] != x { assert cats[1..][k] == cats[k + 1]; }
      } else {
        assert x in cats <==> x in cats[1..] by { assert cats == [cats[0]] + cats[1..]; }
      }
    }
  }

  /** Peeling the first row off: the group sums lose exactly that row's value, in its own group. */
  lemma {:induction false} GroupsOfFirstRow(cats: seq<Option<string>>, rows: seq<ProductValuation>)
    requires rows != []
    ensures SumOf(GroupsOf(cats, rows), GroupValue)
         == CountedFor(cats, rows[0].category, rows[0].totalValue) + SumOf(GroupsOf(cats, rows[1..]), GroupValue)
  {
    if cats != [] {
      GroupsOfFirstRow(cats[1..], rows);
      assert GroupsOf(cats, rows)[1..] == GroupsOf(cats[1..], rows);
      assert GroupsOf(cats, rows[1..])[1..] == GroupsOf(cats[1..], rows[1..]);
    }
  }

  lemma {:induction false} GroupsOfSum(cats: seq<Option<string>>, rows: seq<ProductValuation>)
    requires NoDuplicates(cats)
    requires forall k | 0 <= k < |rows| :: rows[k].category in cats
    ensures SumOf(GroupsOf(cats, rows), GroupValue) == SumOf(rows, RowValue)
  {
    if rows == [] {
      forall i | 0 <= i < |cats| ensures GroupsOf(cats, rows)[i].totalValue == 0.0 {}
      ZeroGroups(GroupsOf(cats, rows));
    } else {
      GroupsOfFirstRow(cats, rows);
      CountedOnce(cats, rows[0].category, rows[0].totalValue);
      assert rows[0].category in cats;
      GroupsOfSum(cats, rows[1..]);
    }
  }

  lemma {:induction false} ZeroGroups(groups: seq<CategoryTotal>)
    requires forall i | 0 <= i < |groups| :: groups[i].totalValue == 0.0
    ensures SumOf(groups, GroupValue) == 0.0
  {
    if groups != [] {
      ZeroGroups(groups[1..]);
    }
  }

  /** The groups together hold every row's value exactly once. */
  lemma GroupByCategorySum(rows: seq<ProductValuation>)
    ensures SumOf(GroupByCategory(rows), GroupValue) == SumOf(rows, RowValue)
  {
    var cats := CategoryList(rows);
    forall k | 0 <= k < |rows| ensures rows[k].category in cats {
      assert rows[k] in rows;
    }
    GroupsOfSum(cats, rows);
  }

  /** A row of the category report: `category || "Uncategorized"` and the group's value. */
  datatype CategoryValuation = CategoryValuation(category: string, totalValue: real)

  const UNCATEGORIZED: string := "Uncategorized"

  /** JavaScript's `category || "Uncategorized"`: NULL and '' both show as Uncategorized. */
  function CategoryLabel(c: Option<string>): (shown: string)
    ensures shown == UNCATEGORIZED <==> c == None || c == Some("") || c == Some(UNCATEGORIZED)
  {
    if c.None? || c.value == "" then UNCATEGORIZED else c.value
  }

  predicate GroupDesc(a: CategoryTotal, b: CategoryTotal) {
    a.totalValue >= b.totalValue
  }

  lemma GroupDescIsTotalPreorder()
    ensures TotalPreorder(GroupDesc)
  {}

  function Labelled(groups: seq<CategoryTotal>): (r: seq<CategoryValuation>)
    ensures |r| == |groups|
    ensures forall i | 0 <= i < |r| :: r[i] == CategoryValuation(CategoryLabel(groups[i].category), groups[i].totalValue)
  {
    if groups == [] then []
    else [CategoryValuation(CategoryLabel(groups[0].category), groups[0].totalValue)] + Labelled(groups[1..])
  }

  /** The category groups, highest value first. */
  function SortedGroups(db: Db): (groups: seq<CategoryTotal>)
    ensures SortedBy(groups, GroupDesc)
    ensures multiset(groups) == multiset(GroupByCategory(JoinedRows(db)))
  {
    var groups := SortBy(GroupByCategory(JoinedRows(db)), GroupDesc);
    GroupDescIsTotalPreorder();
    SortBySorted(GroupByCategory(JoinedRows(db)), GroupDesc);
    groups
  }

  function ValuationByCategory(db: Db): (report: seq<CategoryValuation>)
    ensures |report| == |SortedGroups(db)|
    ensures forall i, j | 0 <= i < j < |report| :: report[i].totalValue >= report[j].totalValue
  {
    Labelled(SortedGroups(db))
  }

  /** Every category of a joined product has exactly one group, carrying the sum of that category's rows. */
  lemma CategoryGroupsExact(db: Db)
    ensures DistinctCategories(GroupByCategory(JoinedRows(db)))
    ensures forall g | g in SortedGroups(db) :: g.totalValue == CategorySum(JoinedRows(db), g.category)
    ensures forall p | p in db.inventory && p in db.products :: db.products[p].category in Categories(SortedGroups(db))
  {
    var rows := JoinedRows(db);
    GroupTotals(rows);
    SameElements(SortedGroups(db), GroupByCategory(rows));
    forall p | p in db.inventory && p in db.products
      ensures db.products[p].category in Categories(SortedGroups(db))
    {
      assert RowFor(db, p) in rows;
      assert db.products[p].category in RowCategories(rows);
    }
  }

  function CategoryValue(x: CategoryValuation): real {
    x.totalValue
  }

  lemma {:induction false} LabelledSum(groups: seq<CategoryTotal>)
    ensures SumOf(Labelled(groups), CategoryValue) == SumOf(groups, GroupValue)
  {
    if groups != [] {
      LabelledSum(groups[1..]);
      assert Labelled(groups)[1..] == Labelled(groups[1..]);
    }
  }

  /** In a consistent database the category values add up to the total valuation. */
  lemma TotalIsSumOfCategories(db: Db)
    requires Consistent(db)
    ensures SumOf(ValuationByCategory(db), CategoryValue) == TotalValuation(db)
  {
    var rows := JoinedRows(db);
    var ks := SortedKeys(db.inventory.Keys);
    forall i | 0 <= i < |ks| ensures ks[i] in db.inventory && ks[i] in db.products {
      assert ks[i] in ks;
    }
    LabelledSum(SortedGroups(db));
    SumOfPermutation(SortedGroups(db), GroupByCategory(rows), GroupValue);
    GroupByCategorySum(rows);
    JoinFromSum(ks, db);
  }

  /**
   * A product with a NULL category and one with an empty category fall into two
   * groups, and both groups are labelled "Uncategorized".
   */
  lemma UncategorizedTwice(db: Db, p: int, q: int)
    requires p in db.inventory && p in db.products && db.products[p].category == None
    requires q in db.inventory && q in db.products && db.products[q].category == Some("")
    ensures exists i, j | 0 <= i < j < |ValuationByCategory(db)| ::
      ValuationByCategory(db)[i].category == UNCATEGORIZED && ValuationByCategory(db)[j].category == UNCATEGORIZED
  {
    CategoryGroupsExact(db);
    var groups := SortedGroups(db);
    assert db.products[p].category in Categories(groups);
    assert db.products[q].category in Categories(groups);
    var i, j := UncategorizedLabelledTwice(groups);
    var report := ValuationByCategory(db);
    assert report == Labelled(groups);
    assert report[i].category == UNCATEGORIZED && report[j].category == UNCATEGORIZED;
  }

  /** Groups for NULL and for '' are two distinct groups, and Labelled shows both as "Uncategorized". */
  lemma UncategorizedLabelledTwice(groups: seq<CategoryTotal>) returns (i: int, j: int)
    requires None in Categories(groups) && Some("") in Categories(groups)
    ensures 0 <= i < j < |Labelled(groups)|
    ensures Labelled(groups)[i].category == UNCATEGORIZED && Labelled(groups)[j].category == UNCATEGORIZED
  {
    var g :| g in groups && g.category == None;
    var h :| h in groups && h.category == Some("");
    var a :| 0 <= a < |groups| && groups[a] == g;
    var b :| 0 <= b < |groups| && groups[b] == h;
    assert a != b;
    i, j := if a < b then a else b, if a < b then b else a;
  }
}
