/**
 * The read-only inventory screens: the stock list of active products with
 * their values, the low-stock list, and the audit trail newest first. Each is
 * a join of inventory (or the audit log) with products.
 */
module InventoryReports {
  import opened Common
  import opened Store
  import opened Order
  import opened Text

  // ---------------------------------------------------------------------------
  // getInventory
  // ---------------------------------------------------------------------------

  /** A row of GET /api/inventory: the stock record with its product's fields and its value. */
  datatype InventoryRow = InventoryRow(
    productId: int, sku: string, name: Option<string>, category: Option<string>,
    quantity: int, avgCost: real, totalValue: real)

  /** The products listed in the stock screen: active ones with a stock record. */
  predicate Listed(db: Db, p: int) {
    p in db.inventory && p in db.products && db.products[p].status == Active
  }

  function InventoryRowFor(db: Db, p: int): (row: InventoryRow)
    requires p in db.inventory && p in db.products
    ensures row.productId == p && row.sku == db.products[p].sku && row.name == db.products[p].name
    ensures row.quantity == db.inventory[p].quantity && row.avgCost == db.inventory[p].avgCost
    ensures row.totalValue == Value(db.inventory[p])
  {
    var pr, st := db.products[p], db.inventory[p];
    InventoryRow(p, pr.sku, pr.name, pr.category, st.quantity, st.avgCost, Value(st))
  }

  /** The ids the stock screen lists (the inner join of inventory and products, active only), ascending. */
  function ListedIds(db: Db): (ids: seq<int>)
    ensures Increasing(ids)
    ensures forall p :: p in ids <==> Listed(db, p)
  {
    SortedKeys(set p | p in db.inventory && Listed(db, p))
  }

  /** The report rows of the given ids, in that order. */
  function InventoryRows(db: Db, ids: seq<int>): (rows: seq<InventoryRow>)
    requires forall i | 0 <= i < |ids| :: Listed(db, ids[i])
    ensures |rows| == |ids|
    ensures forall i | 0 <= i < |ids| :: Listed(db, ids[i]) && rows[i] == InventoryRowFor(db, ids[i])
  {
    if ids == [] then [] else assert Listed(db, ids[0]); [InventoryRowFor(db, ids[0])] + InventoryRows(db, ids[1..])
  }

  /** Every selected id passes the selection. */
  lemma ListedIdsSelected(db: Db)
    ensures forall i | 0 <= i < |ListedIds(db)| :: Listed(db, ListedIds(db)[i])
  {
    var ids := ListedIds(db);
    forall i | 0 <= i < |ids| ensures Listed(db, ids[i]) { assert ids[i] in ids; }
  }

  /** Before sorting: exactly the selected products, one row each. */
  lemma InventoryRowsExact(db: Db)
    requires forall i | 0 <= i < |ListedIds(db)| :: Listed(db, ListedIds(db)[i])
    ensures var rows := InventoryRows(db, ListedIds(db));
      && (forall x | x in rows :: Listed(db, x.productId) && x == InventoryRowFor(db, x.productId))
      && (forall p | Listed(db, p) :: InventoryRowFor(db, p) in rows)
  {
    var ids := ListedIds(db);
    var rows := InventoryRows(db, ids);
    forall p | Listed(db, p) ensures InventoryRowFor(db, p) in rows {
      var i :| 0 <= i < |ids| && ids[i] == p;
      assert rows[i] == InventoryRowFor(db, p);
    }
  }

  /** Distinct ids give distinct rows. */
  lemma InventoryRowsDistinct(db: Db)
    requires forall i | 0 <= i < |ListedIds(db)| :: Listed(db, ListedIds(db)[i])
    ensures NoDuplicates(InventoryRows(db, ListedIds(db)))
  {
    var ids := ListedIds(db);
    var rows := InventoryRows(db, ids);
    forall i, j | 0 <= i < j < |rows| ensures rows[i] != rows[j] {
      assert rows[i].productId == ids[i] && rows[j].productId == ids[j];
    }
  }

  /** `ORDER BY p.name`: ascending, NULL names last. */
  predicate ByName(a: InventoryRow, b: InventoryRow) {
    match (a.name, b.name)
    case (Some(x), Some(y)) => LexLe(x, y)
    case (Some(_), None) => true
    case (None, Some(_)) => false
    case (None, None) => true
  }

  lemma ByNameIsTotalPreorder()
    ensures TotalPreorder(ByName)
  {
    LexLeIsTotalPreorder();
  }

  /**
   * The stock list: one row for every active product that has a stock record,
   * each product once, its value quantity times average cost, ordered by name.
   * Archived products are not listed.
   */
  function GetInventory(db: Db): (report: seq<InventoryRow>)
    ensures SortedBy(report, ByName)
    ensures forall x | x in report :: Listed(db, x.productId) && x == InventoryRowFor(db, x.productId)
    ensures forall p | Listed(db, p) :: InventoryRowFor(db, p) in report
    ensures NoDuplicates(report)
  {
    ListedIdsSelected(db);
    InventoryRowsExact(db);
    InventoryRowsDistinct(db);
    var rows := InventoryRows(db, ListedIds(db));
    var report := SortBy(rows, ByName);
    ByNameIsTotalPreorder();
    SortBySorted(rows, ByName);
    SameElements(report, rows);
    PermutationNoDuplicates(rows, report);
    report
  }

  /**
   * A product with a stock record is listed exactly when it is active, and each
   * row's value is the value of its stock record, the same figure the valuation
   * reports sum.
   */
  lemma InventoryRowValues(db: Db, p: int)
    requires p in db.products && p in db.inventory
    ensures db.products[p].status == Active <==> InventoryRowFor(db, p) in GetInventory(db)
    ensures forall x | x in GetInventory(db) :: x.totalValue == Value(db.inventory[x.productId])
  {}

  // ---------------------------------------------------------------------------
  // getLowStockItems
  // ---------------------------------------------------------------------------

  /** A row of the low-stock list. */
  datatype LowStockRow = LowStockRow(
    productId: int, sku: string, name: Option<string>, category: Option<string>,
    quantity: int, lowStockThreshold: int)

  /**
   * `p.status = 'active' AND i.quantity <= p.low_stock_threshold`: a NULL
   * threshold makes the comparison unknown, so such a product is never low.
   */
  predicate LowStock(db: Db, p: int) {
    && Listed(db, p)
    && db.products[p].lowStockThreshold.Some?
    && db.inventory[p].quantity <= db.products[p].lowStockThreshold.value
  }

  function LowStockRowFor(db: Db, p: int): (row: LowStockRow)
    requires LowStock(db, p)
    ensures row.productId == p && row.quantity == db.inventory[p].quantity
    ensures row.quantity <= row.lowStockThreshold
  {
    var pr := db.products[p];
    LowStockRow(p, pr.sku, pr.name, pr.category, db.inventory[p].quantity, pr.lowStockThreshold.value)
  }

  /** The ids of the low-stock products, ascending. */
  function LowStockIds(db: Db): (ids: seq<int>)
    ensures Increasing(ids)
    ensures forall p :: p in ids <==> LowStock(db, p)
  {
    SortedKeys(set p | p in db.inventory && LowStock(db, p))
  }

  /** The report rows of the given ids, in that order. */
  function LowStockRows(db: Db, ids: seq<int>): (rows: seq<LowStockRow>)
    requires forall i | 0 <= i < |ids| :: LowStock(db, ids[i])
    ensures |rows| == |ids|
    ensures forall i | 0 <= i < |ids| :: LowStock(db, ids[i]) && rows[i] == LowStockRowFor(db, ids[i])
  {
    if ids == [] then [] else assert LowStock(db, ids[0]); [LowStockRowFor(db, ids[0])] + LowStockRows(db, ids[1..])
  }

  /** Every selected id passes the selection. */
  lemma LowStockIdsSelected(db: Db)
    ensures forall i | 0 <= i < |LowStockIds(db)| :: LowStock(db, LowStockIds(db)[i])
  {
    var ids := LowStockIds(db);
    forall i | 0 <= i < |ids| ensures LowStock(db, ids[i]) { assert ids[i] in ids; }
  }

  /** Before sorting: exactly the selected products, one row each. */
  lemma LowStockRowsExact(db: Db)
    requires forall i | 0 <= i < |LowStockIds(db)| :: LowStock(db, LowStockIds(db)[i])
    ensures var rows := LowStockRows(db, LowStockIds(db));
      && (forall x | x in rows :: LowStock(db, x.productId) && x == LowStockRowFor(db, x.productId))
      && (forall p | LowStock(db, p) :: LowStockRowFor(db, p) in rows)
  {
    var ids := LowStockIds(db);
    var rows := LowStockRows(db, ids);
    forall p | LowStock(db, p) ensures LowStockRowFor(db, p) in rows {
      var i :| 0 <= i < |ids| && ids[i] == p;
      assert rows[i] == LowStockRowFor(db, p);
    }
  }

  /** Distinct ids give distinct rows. */
  lemma LowStockRowsDistinct(db: Db)
    requires forall i | 0 <= i < |LowStockIds(db)| :: LowStock(db, LowStockIds(db)[i])
    ensures NoDuplicates(LowStockRows(db, LowStockIds(db)))
  {
    var ids := LowStockIds(db);
    var rows := LowStockRows(db, ids);
    forall i, j | 0 <= i < j < |rows| ensures rows[i] != rows[j] {
      assert rows[i].productId == ids[i] && rows[j].productId == ids[j];
    }
  }

  /** `ORDER BY i.quantity ASC`. */
  predicate ByQuantity(a: LowStockRow, b: LowStockRow) {
    a.quantity <= b.quantity
  }

  lemma ByQuantityIsTotalPreorder()
    ensures TotalPreorder(ByQuantity)
  {}

  /** Exactly the active products at or below their threshold, each once, lowest stock first. */
  function GetLowStockItems(db: Db): (report: seq<LowStockRow>)
    ensures SortedBy(report, ByQuantity)
    ensures forall x | x in report :: LowStock(db, x.productId) && x == LowStockRowFor(db, x.productId)
    ensures forall p | LowStock(db, p) :: LowStockRowFor(db, p) in report
    ensures NoDuplicates(report)
  {
    LowStockIdsSelected(db);
    LowStockRowsExact(db);
    LowStockRowsDistinct(db);
    var rows := LowStockRows(db, LowStockIds(db));
    var report := SortBy(rows, ByQuantity);
    ByQuantityIsTotalPreorder();
    SortBySorted(rows, ByQuantity);
    SameElements(report, rows);
    PermutationNoDuplicates(rows, report);
    report
  }

  /** Every low-stock row is also a row of the stock list, with the same quantity. */
  lemma LowStockIsListed(db: Db)
    ensures forall x | x in GetLowStockItems(db) ::
      InventoryRowFor(db, x.productId) in GetInventory(db) && InventoryRowFor(db, x.productId).quantity == x.quantity
  {}

  /** A product shows as low exactly when its stock row is at or below a threshold it has. */
  lemma LowStockMeaning(db: Db, p: int)
    requires Listed(db, p)
    ensures (exists x | x in GetLowStockItems(db) :: x.productId == p) <==>
            db.products[p].lowStockThreshold.Some? && db.inventory[p].quantity <= db.products[p].lowStockThreshold.value
  {
    if LowStock(db, p) {
      assert LowStockRowFor(db, p) in GetLowStockItems(db);
    }
  }

  // ---------------------------------------------------------------------------
  // getInventoryAudit
  // ---------------------------------------------------------------------------

  /**
   * A row of the audit screen. The audit id is the entry's position in the log
   * plus one, as the serial column hands them out.
   */
  datatype AuditRow = AuditRow(
    auditId: int, sku: string, name: Option<string>,
    changeType: ChangeType, quantityChange: int, referenceId: int)

  function AuditRowFor(db: Db, i: nat): (row: AuditRow)
    requires i < |db.audit| && db.audit[i].productId in db.products
    ensures row.auditId == i + 1
  {
    var e := db.audit[i];
    var pr := db.products[e.productId];
    AuditRow(i + 1, pr.sku, pr.name, e.changeType, e.quantityChange, e.referenceId)
  }

  /** The first n entries of the log joined with their products, newest first. */
  function NewestFirst(db: Db, n: nat): (rows: seq<AuditRow>)
    requires n <= |db.audit|
    ensures |rows| <= n
    ensures forall i | 0 <= i < |rows| :: 1 <= rows[i].auditId <= n
    ensures forall i, j | 0 <= i < j < |rows| :: rows[i].auditId > rows[j].auditId
  {
    if n == 0 then []
    else
      var rest := NewestFirst(db, n - 1);
      if db.audit[n - 1].productId in db.products then [AuditRowFor(db, n - 1)] + rest else rest
  }

  /**
   * The audit screen: the log entries whose product exists, each once, newest
   * first (`ORDER BY created_at DESC`; entries are stamped in log order).
   */
  function GetInventoryAudit(db: Db): (report: seq<AuditRow>)
    ensures |report| <= |db.audit|
    ensures forall i, j | 0 <= i < j < |report| :: report[i].auditId > report[j].auditId
  {
    NewestFirst(db, |db.audit|)
  }

  /**
   * In a consistent database every entry's product exists, so the screen is the
   * whole log reversed: row i shows entry n - 1 - i.
   */
  lemma {:induction false} NewestFirstIsReversed(db: Db, n: nat)
    requires n <= |db.audit| && forall i | 0 <= i < |db.audit| :: db.audit[i].productId in db.products
    ensures |NewestFirst(db, n)| == n
    ensures forall i | 0 <= i < n :: NewestFirst(db, n)[i] == AuditRowFor(db, n - 1 - i)
  {
    if n > 0 {
      NewestFirstIsReversed(db, n - 1);
      var rest := NewestFirst(db, n - 1);
      var rows := [AuditRowFor(db, n - 1)] + rest;
      assert NewestFirst(db, n) == rows;
      forall i | 0 <= i < n ensures rows[i] == AuditRowFor(db, n - 1 - i) {
        if i > 0 { assert rows[i] == rest[i - 1]; }
      }
    }
  }

  lemma AuditIsLogReversed(db: Db)
    requires Consistent(db)
    ensures |GetInventoryAudit(db)| == |db.audit|
    ensures forall i | 0 <= i < |db.audit| :: GetInventoryAudit(db)[i] == AuditRowFor(db, |db.audit| - 1 - i)
  {
    NewestFirstIsReversed(db, |db.audit|);
  }
}
