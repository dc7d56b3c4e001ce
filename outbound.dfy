/**
 * POST /api/outbound: one dispatch with its lines, recorded in a single
 * transaction. The header is inserted first; then every line is checked
 * against the stock the earlier lines have left, stored, taken out of stock by
 * the movement engine and logged in the audit trail with a negative quantity.
 * The first failing line rolls the whole dispatch back.
 */
module Outbound {
  import opened Common
  import opened Store
  import opened InventoryService
  import opened InventoryValuation

  /** One element of `items`, as the JSON body gives it. */
  datatype OutboundLine = OutboundLine(productId: Option<int>, quantity: Option<real>)

  /** The request body; `items` is None when it is not an array. */
  datatype OutboundRequest = OutboundRequest(
    customerName: Option<string>,
    soReference: Option<string>,
    dispatchDate: Option<string>,
    items: Option<seq<OutboundLine>>)

  /** The header check made before the transaction starts. */
  predicate PayloadValid(req: OutboundRequest) {
    TextGiven(req.customerName) && TextGiven(req.dispatchDate) && req.items.Some? && |req.items.value| > 0
  }

  /** The errors one dispatch line can raise: its own checks, the stock checks, and the integer column. */
  predicate LineError(e: Error) {
    e in {InvalidOutboundItem, InventoryRecordNotFound, InsufficientStock, InvalidIntegerSyntax}
  }

  /**
   * One line: check it, look its stock up, refuse it when the stock is short,
   * insert the item, move the stock out, append the audit entry. A line never
   * touches the catalogue or creates a stock record.
   */
  function LineStep(db: Db, outboundId: int, line: OutboundLine): (r: Result<Db>)
    ensures r.Err? ==> LineError(r.error)
    ensures r.Ok? ==> r.value.products == db.products && r.value.inventory.Keys == db.inventory.Keys
  {
    if !(IdGiven(line.productId) && PositiveGiven(line.quantity)) then Err(InvalidOutboundItem)
    else
      var pid := line.productId.value;
      if pid !in db.inventory then Err(InventoryRecordNotFound)
      else if (db.inventory[pid].quantity as real) < line.quantity.value then Err(InsufficientStock)
      else
        match IntColumn(line.quantity.value)
        case Err(e) => Err(e)
        case Ok(q) =>
          var withItem := AddOutboundItem(db, OutboundItem(outboundId, pid, q));
          match ApplyMovement(withItem, pid, q, OUTBOUND, Undefined)
          case Err(e) => Err(e)
          case Ok(moved) => Ok(AddAudit(moved, AuditEntry(pid, OutboundChange, -q, outboundId)))
  }

  /** The lines in order; the first error stops the loop. */
  function ApplyLines(db: Db, outboundId: int, lines: seq<OutboundLine>): (r: Result<Db>)
    ensures r.Err? ==> LineError(r.error)
    ensures r.Ok? ==> r.value.products == db.products && r.value.inventory.Keys == db.inventory.Keys
    decreases |lines|
  {
    if lines == [] then Ok(db)
    else
      match LineStep(db, outboundId, lines[0])
      case Err(e) => Err(e)
      case Ok(d) => ApplyLines(d, outboundId, lines[1..])
  }

  /**
   * The whole request. On success the reply is the new record's id; on any
   * error the database is as it was before the request.
   */
  function CreateOutboundSpec(db: Db, req: OutboundRequest, userId: int): (t: Txn<int>)
    ensures !PayloadValid(req) ==> t == Txn(Err(InvalidOutboundPayload), db)
    ensures t.reply.Err? ==> t.after == db
    ensures t.reply.Ok? ==> t.reply.value == db.nextOutboundId && PayloadValid(req)
  {
    if !PayloadValid(req) then Txn(Err(InvalidOutboundPayload), db)
    else
      var outboundId := db.nextOutboundId;
      var header := AddOutboundRecord(db, req.customerName.value, OrNull(req.soReference), req.dispatchDate.value, userId);
      match ApplyLines(header, outboundId, req.items.value)
      case Err(e) => Txn(Err(e), db)
      case Ok(d) => Txn(Ok(outboundId), d)
  }

  /** createOutbound: the transaction on the live tables, rolled back on the first error. */
  method CreateOutbound(w: Warehouse, req: OutboundRequest, userId: int) returns (r: Result<int>)
    modifies w
    ensures Txn(r, w.State()) == CreateOutboundSpec(old(w.State()), req, userId)
  {
    if !PayloadValid(req) {
      return Err(InvalidOutboundPayload);
    }
    var snapshot := w.State();
    var outboundId := w.InsertOutboundRecord(req.customerName.value, OrNull(req.soReference), req.dispatchDate.value, userId);
    ghost var header := w.State();
    var items := req.items.value;
    var i := 0;
    while i < |items|
      invariant 0 <= i <= |items|
      invariant outboundId == snapshot.nextOutboundId
      invariant ApplyLines(header, outboundId, items) == ApplyLines(w.State(), outboundId, items[i..])
    {
      assert items[i..][0] == items[i] && items[i..][1..] == items[i + 1..];
      var o := DispatchLine(w, outboundId, items[i]);
      if o.Fail? {
        w.Restore(snapshot);
        return Err(o.error);
      }
      i := i + 1;
    }
    assert items[i..] == [];
    return Ok(outboundId);
  }

  /**
   * One iteration of the loop on the live tables. On failure the tables may
   * hold a partly written line; the caller rolls them back.
   */
  method DispatchLine(w: Warehouse, outboundId: int, item: OutboundLine) returns (o: Outcome)
    modifies w
    ensures o.Fail? ==> LineStep(old(w.State()), outboundId, item) == Err(o.error)
    ensures o.Pass? ==> LineStep(old(w.State()), outboundId, item) == Ok(w.State())
  {
    if !item.productId.Some? || item.productId.value == 0 || !item.quantity.Some? || item.quantity.value <= 0.0 {
      return Fail(InvalidOutboundItem);
    }
    var productId := item.productId.value;
    if productId !in w.inventory {
      return Fail(InventoryRecordNotFound);
    }
    if (w.inventory[productId].quantity as real) < item.quantity.value {
      return Fail(InsufficientStock);
    }
    var stored := IntColumn(item.quantity.value);
    if stored.Err? {
      return Fail(stored.error);
    }
    var quantity := stored.value;
    w.InsertOutboundItem(OutboundItem(outboundId, productId, quantity));
    // the stock check above already rules out the engine's own refusal
    var moved := ApplyInventoryMovement(w, productId, quantity, OUTBOUND, Undefined);
    assert moved.Pass?;
    w.InsertAudit(AuditEntry(productId, OutboundChange, -quantity, outboundId));
    o := Pass;
  }

  // ---------------------------------------------------------------------------
  // What a committed dispatch contains
  // ---------------------------------------------------------------------------

  /** A line that passes the checks that do not depend on stock: id given, a positive whole quantity. */
  predicate LineCommits(line: OutboundLine) {
    && IdGiven(line.productId)
    && PositiveGiven(line.quantity)
    && line.quantity.value == line.quantity.value.Floor as real
  }

  function LineQuantity(line: OutboundLine): int
    requires LineCommits(line)
  {
    line.quantity.value.Floor
  }

  /** The outbound_items rows the lines produce, in order. */
  function ItemRows(outboundId: int, lines: seq<OutboundLine>): seq<OutboundItem>
    requires forall k | 0 <= k < |lines| :: LineCommits(lines[k])
    decreases |lines|
  {
    assert lines != [] ==> LineCommits(lines[0]);
    if lines == [] then []
    else [OutboundItem(outboundId, lines[0].productId.value, LineQuantity(lines[0]))] + ItemRows(outboundId, lines[1..])
  }

  /** The audit entries the lines produce, in order: one -quantity entry per line. */
  function AuditRows(outboundId: int, lines: seq<OutboundLine>): seq<AuditEntry>
    requires forall k | 0 <= k < |lines| :: LineCommits(lines[k])
    decreases |lines|
  {
    assert lines != [] ==> LineCommits(lines[0]);
    if lines == [] then []
    else [AuditEntry(lines[0].productId.value, OutboundChange, -LineQuantity(lines[0]), outboundId)]
         + AuditRows(outboundId, lines[1..])
  }

  /** The total quantity the lines take out of one product. */
  function QtyFor(lines: seq<OutboundLine>, p: int): int
    requires forall k | 0 <= k < |lines| :: LineCommits(lines[k])
    decreases |lines|
  {
    assert lines != [] ==> LineCommits(lines[0]);
    if lines == [] then 0
    else (if lines[0].productId.value == p then LineQuantity(lines[0]) else 0) + QtyFor(lines[1..], p)
  }

  /**
   * A line is refused for short stock exactly when it passes the item check,
   * its product has a stock record, and that record, as the earlier lines have
   * left it, holds less than the line asks for.
   */
  lemma ShortStockRefused(db: Db, outboundId: int, line: OutboundLine)
    ensures LineStep(db, outboundId, line) == Err(InsufficientStock) <==>
      && IdGiven(line.productId) && PositiveGiven(line.quantity)
      && line.productId.value in db.inventory
      && (db.inventory[line.productId.value].quantity as real) < line.quantity.value
  {
    if IdGiven(line.productId) && PositiveGiven(line.quantity) {
      var pid := line.productId.value;
      if pid in db.inventory && (db.inventory[pid].quantity as real) >= line.quantity.value {
        match IntColumn(line.quantity.value)
        case Err(e) =>
        case Ok(q) =>
          var withItem := AddOutboundItem(db, OutboundItem(outboundId, pid, q));
          assert withItem.inventory == db.inventory;
          assert ApplyMovement(withItem, pid, q, OUTBOUND, Undefined).Ok?;
      }
    }
  }

  /**
   * A line is refused with "Inventory record not found" exactly when it passes
   * the item check and its product has no stock record.
   */
  lemma MissingRecordRefused(db: Db, outboundId: int, line: OutboundLine)
    ensures LineStep(db, outboundId, line) == Err(InventoryRecordNotFound) <==>
      IdGiven(line.productId) && PositiveGiven(line.quantity) && line.productId.value !in db.inventory
  {
    if IdGiven(line.productId) && PositiveGiven(line.quantity) {
      var pid := line.productId.value;
      if pid in db.inventory && (db.inventory[pid].quantity as real) >= line.quantity.value {
        match IntColumn(line.quantity.value)
        case Err(e) =>
        case Ok(q) =>
          var withItem := AddOutboundItem(db, OutboundItem(outboundId, pid, q));
          assert withItem.inventory == db.inventory;
          assert ApplyMovement(withItem, pid, q, OUTBOUND, Undefined).Ok?;
      }
    }
  }

  /**
   * A dispatch whose first line names a product without a stock record fails
   * with "Inventory record not found" and leaves the database as it was.
   */
  lemma MissingRecordRollsBack(db: Db, req: OutboundRequest, userId: int)
    requires PayloadValid(req)
    requires var line := req.items.value[0];
      IdGiven(line.productId) && PositiveGiven(line.quantity) && line.productId.value !in db.inventory
    ensures CreateOutboundSpec(db, req, userId) == Txn(Err(InventoryRecordNotFound), db)
  {
    var header := AddOutboundRecord(db, req.customerName.value, OrNull(req.soReference), req.dispatchDate.value, userId);
    assert header.inventory == db.inventory;
    MissingRecordRefused(header, db.nextOutboundId, req.items.value[0]);
  }

  /** What one successful line writes: the stock falls by its quantity and keeps its average cost. */
  lemma LineStepCommits(db: Db, outboundId: int, line: OutboundLine)
    requires LineStep(db, outboundId, line).Ok?
    ensures LineCommits(line)
    ensures var d := LineStep(db, outboundId, line).value;
      var p, q := line.productId.value, LineQuantity(line);
      && p in db.inventory
      && q <= db.inventory[p].quantity
      && d == db.(inventory := d.inventory,
                  outboundItems := db.outboundItems + [OutboundItem(outboundId, p, q)],
                  audit := db.audit + [AuditEntry(p, OutboundChange, -q, outboundId)])
      && d.inventory == db.inventory[p := StockRecord(db.inventory[p].quantity - q, db.inventory[p].avgCost)]
  {
    var q := IntColumn(line.quantity.value).value;
    var withItem := AddOutboundItem(db, OutboundItem(outboundId, line.productId.value, q));
    assert withItem.inventory == db.inventory;
  }

  lemma {:induction false} ApplyLinesAllCommit(db: Db, outboundId: int, lines: seq<OutboundLine>)
    requires ApplyLines(db, outboundId, lines).Ok?
    ensures forall k | 0 <= k < |lines| :: LineCommits(lines[k])
    decreases |lines|
  {
    if lines != [] {
      LineStepCommits(db, outboundId, lines[0]);
      ApplyLinesAllCommit(LineStep(db, outboundId, lines[0]).value, outboundId, lines[1..]);
      forall k | 0 <= k < |lines| ensures LineCommits(lines[k]) {
        if k > 0 { assert lines[k] == lines[1..][k - 1]; }
      }
    }
  }

  /** Besides stock, a committed sequence writes only the item and audit tables. */
  lemma {:induction false} ApplyLinesFrame(db: Db, outboundId: int, lines: seq<OutboundLine>)
    requires ApplyLines(db, outboundId, lines).Ok?
    ensures var d := ApplyLines(db, outboundId, lines).value;
      d == db.(inventory := d.inventory, outboundItems := d.outboundItems, audit := d.audit)
    decreases |lines|
  {
    if lines != [] {
      LineStepCommits(db, outboundId, lines[0]);
      ApplyLinesFrame(LineStep(db, outboundId, lines[0]).value, outboundId, lines[1..]);
    }
  }

  /** The items a committed sequence appends are its lines, in order. */
  lemma {:induction false} ApplyLinesItems(db: Db, outboundId: int, lines: seq<OutboundLine>)
    requires ApplyLines(db, outboundId, lines).Ok?
    requires forall k | 0 <= k < |lines| :: LineCommits(lines[k])
    ensures ApplyLines(db, outboundId, lines).value.outboundItems == db.outboundItems + ItemRows(outboundId, lines)
    decreases |lines|
  {
    if lines != [] {
      LineStepCommits(db, outboundId, lines[0]);
      var d := LineStep(db, outboundId, lines[0]).value;
      assert ApplyLines(db, outboundId, lines) == ApplyLines(d, outboundId, lines[1..]);
      assert forall k | 0 <= k < |lines[1..]| :: lines[1..][k] == lines[k + 1];
      ApplyLinesItems(d, outboundId, lines[1..]);
      var item := OutboundItem(outboundId, lines[0].productId.value, LineQuantity(lines[0]));
      assert ItemRows(outboundId, lines) == [item] + ItemRows(outboundId, lines[1..]);
      assert db.outboundItems + [item] + ItemRows(outboundId, lines[1..]) == db.outboundItems + ItemRows(outboundId, lines);
    }
  }

  /** The audit entries a committed sequence appends are one -quantity entry per line, in order. */
  lemma {:induction false} ApplyLinesAudit(db: Db, outboundId: int, lines: seq<OutboundLine>)
    requires ApplyLines(db, outboundId, lines).Ok?
    requires forall k | 0 <= k < |lines| :: LineCommits(lines[k])
    ensures ApplyLines(db, outboundId, lines).value.audit == db.audit + AuditRows(outboundId, lines)
    decreases |lines|
  {
    if lines != [] {
      LineStepCommits(db, outboundId, lines[0]);
      assert forall k | 0 <= k < |lines[1..]| :: lines[1..][k] == lines[k + 1];
      ApplyLinesAudit(LineStep(db, outboundId, lines[0]).value, outboundId, lines[1..]);
      var entry := AuditEntry(lines[0].productId.value, OutboundChange, -LineQuantity(lines[0]), outboundId);
      assert AuditRows(outboundId, lines) == [entry] + AuditRows(outboundId, lines[1..]);
      assert db.audit + [entry] + AuditRows(outboundId, lines[1..]) == db.audit + AuditRows(outboundId, lines);
    }
  }

  /**
   * A committed sequence lowers each product's stock by the quantities its
   * lines take out, and leaves every average cost as it was.
   */
  lemma {:induction false} ApplyLinesQuantities(db: Db, outboundId: int, lines: seq<OutboundLine>)
    requires ApplyLines(db, outboundId, lines).Ok?
    requires forall k | 0 <= k < |lines| :: LineCommits(lines[k])
    ensures var d := ApplyLines(db, outboundId, lines).value;
      && d.inventory.Keys == db.inventory.Keys
      && (forall p | p in db.inventory :: d.inventory[p].quantity == db.inventory[p].quantity - QtyFor(lines, p))
      && (forall p | p in db.inventory :: d.inventory[p].avgCost == db.inventory[p].avgCost)
    decreases |lines|
  {
    if lines != [] {
      LineStepCommits(db, outboundId, lines[0]);
      var mid := LineStep(db, outboundId, lines[0]).value;
      assert forall k | 0 <= k < |lines[1..]| :: lines[1..][k] == lines[k + 1];
      ApplyLinesQuantities(mid, outboundId, lines[1..]);
    }
  }

  /** One line keeps the database consistent when its record id has been issued. */
  lemma LineStepConsistent(db: Db, outboundId: int, line: OutboundLine)
    requires Consistent(db) && 1 <= outboundId < db.nextOutboundId
    requires LineStep(db, outboundId, line).Ok?
    ensures Consistent(LineStep(db, outboundId, line).value)
  {
    LineStepCommits(db, outboundId, line);
    var p, q := line.productId.value, LineQuantity(line);
    var withItem := AddOutboundItem(db, OutboundItem(outboundId, p, q));
    assert Consistent(withItem);
    MovementPreservesConsistent(withItem, p, q, OUTBOUND, Undefined);
  }

  lemma {:induction false} ApplyLinesConsistent(db: Db, outboundId: int, lines: seq<OutboundLine>)
    requires Consistent(db) && 1 <= outboundId < db.nextOutboundId
    requires ApplyLines(db, outboundId, lines).Ok?
    ensures Consistent(ApplyLines(db, outboundId, lines).value)
    decreases |lines|
  {
    if lines != [] {
      LineStepConsistent(db, outboundId, lines[0]);
      ApplyLinesConsistent(LineStep(db, outboundId, lines[0]).value, outboundId, lines[1..]);
    }
  }

  /** A dispatch, committed or rolled back, leaves a consistent database consistent. */
  lemma CreateOutboundConsistent(db: Db, req: OutboundRequest, userId: int)
    requires Consistent(db)
    ensures Consistent(CreateOutboundSpec(db, req, userId).after)
  {
    if PayloadValid(req) {
      var header := AddOutboundRecord(db, req.customerName.value, OrNull(req.soReference), req.dispatchDate.value, userId);
      assert Consistent(header);
      if ApplyLines(header, db.nextOutboundId, req.items.value).Ok? {
        ApplyLinesConsistent(header, db.nextOutboundId, req.items.value);
      }
    }
  }

  /**
   * A committed dispatch adds exactly one header row carrying the request's
   * fields, one item and one -quantity audit entry per line in the order given,
   * lowers each product's stock by the quantities dispatched for it and keeps
   * every average cost. Products and inbound documents are untouched.
   */
  lemma CreateOutboundCommit(db: Db, req: OutboundRequest, userId: int)
    requires CreateOutboundSpec(db, req, userId).reply.Ok?
    ensures var t := CreateOutboundSpec(db, req, userId);
      var id, lines, d := t.reply.value, req.items.value, t.after;
      && (forall k | 0 <= k < |lines| :: LineCommits(lines[k]))
      && d.outboundRecords == db.outboundRecords
           + [OutboundRecord(id, req.customerName.value, OrNull(req.soReference), req.dispatchDate.value, userId)]
      && d.nextOutboundId == id + 1
      && d.outboundItems == db.outboundItems + ItemRows(id, lines)
      && d.audit == db.audit + AuditRows(id, lines)
      && d.products == db.products
      && d.receipts == db.receipts && d.inboundItems == db.inboundItems
      && d.inventory.Keys == db.inventory.Keys
      && (forall p | p in db.inventory :: d.inventory[p].quantity == db.inventory[p].quantity - QtyFor(lines, p))
      && (forall p | p in db.inventory :: d.inventory[p].avgCost == db.inventory[p].avgCost)
  {
    var header := AddOutboundRecord(db, req.customerName.value, OrNull(req.soReference), req.dispatchDate.value, userId);
    ApplyLinesAllCommit(header, db.nextOutboundId, req.items.value);
    ApplyLinesFrame(header, db.nextOutboundId, req.items.value);
    ApplyLinesItems(header, db.nextOutboundId, req.items.value);
    ApplyLinesAudit(header, db.nextOutboundId, req.items.value);
    ApplyLinesQuantities(header, db.nextOutboundId, req.items.value);
  }

  /**
   * The running stock check means a committed dispatch never takes out more of
   * a product, over all its lines together, than was in stock.
   */
  lemma CommittedWithinStock(db: Db, req: OutboundRequest, userId: int)
    requires Consistent(db)
    requires CreateOutboundSpec(db, req, userId).reply.Ok?
    ensures forall k | 0 <= k < |req.items.value| :: LineCommits(req.items.value[k])
    ensures forall p | p in db.inventory :: QtyFor(req.items.value, p) <= db.inventory[p].quantity
  {
    CreateOutboundCommit(db, req, userId);
    CreateOutboundConsistent(db, req, userId);
  }

  /**
   * Two lines for the same product that each fit the stock but together exceed
   * it: the second is checked against the stock the first has left, so the
   * whole dispatch is refused for short stock and nothing changes.
   */
  lemma SecondLineSeesReducedStock(db: Db, customer: string, date: string, userId: int, p: int, q1: nat, q2: nat)
    requires customer != "" && date != "" && p != 0 && p in db.inventory
    requires 0 < q1 <= db.inventory[p].quantity && 0 < q2 <= db.inventory[p].quantity
    requires q1 + q2 > db.inventory[p].quantity
    ensures var req := OutboundRequest(Some(customer), None, Some(date),
                                       Some([OutboundLine(Some(p), Some(q1 as real)), OutboundLine(Some(p), Some(q2 as real))]));
      CreateOutboundSpec(db, req, userId) == Txn(Err(InsufficientStock), db)
  {
    var l1, l2 := OutboundLine(Some(p), Some(q1 as real)), OutboundLine(Some(p), Some(q2 as real));
    var header := AddOutboundRecord(db, customer, None, date, userId);
    var id := db.nextOutboundId;
    assert IntColumn(q1 as real) == Ok(q1);
    assert LineStep(header, id, l1).Ok?;
    LineStepCommits(header, id, l1);
    var mid := LineStep(header, id, l1).value;
    assert mid.inventory[p].quantity == db.inventory[p].quantity - q1;
    assert (mid.inventory[p].quantity as real) < q2 as real;
    assert LineStep(mid, id, l2) == Err(InsufficientStock);
    assert ApplyLines(mid, id, [l2]) == Err(InsufficientStock);
    assert [l1, l2][1..] == [l2];
    assert ApplyLines(header, id, [l1, l2]) == ApplyLines(mid, id, [l2]);
  }

  /** The stock value one dispatched item takes out, at its product's average cost. */
  function ItemOut(item: OutboundItem, inventory: map<int, StockRecord>): real {
    if item.productId in inventory then item.quantity as real * inventory[item.productId].avgCost else 0.0
  }

  /** The stock value the dispatched items take out, at the average costs of the given stock records. */
  function OutValue(items: seq<OutboundItem>, inventory: map<int, StockRecord>): real
    decreases |items|
  {
    if items == [] then 0.0 else ItemOut(items[0], inventory) + OutValue(items[1..], inventory)
  }

  lemma {:induction false} OutValueSameCosts(items: seq<OutboundItem>, a: map<int, StockRecord>, b: map<int, StockRecord>)
    requires a.Keys == b.Keys && forall p | p in a :: a[p].avgCost == b[p].avgCost
    ensures OutValue(items, a) == OutValue(items, b)
    decreases |items|
  {
    if items != [] {
      OutValueSameCosts(items[1..], a, b);
    }
  }

  /** The stock records after one dispatched item: its quantity taken out, the average cost kept. */
  function DrainOne(inventory: map<int, StockRecord>, item: OutboundItem): map<int, StockRecord> {
    var p := item.productId;
    if p in inventory then inventory[p := StockRecord(inventory[p].quantity - item.quantity, inventory[p].avgCost)]
    else inventory
  }

  /** The stock records after taking out each item's quantity in turn. */
  function Drain(inventory: map<int, StockRecord>, items: seq<OutboundItem>): map<int, StockRecord>
    decreases |items|
  {
    if items == [] then inventory else Drain(DrainOne(inventory, items[0]), items[1..])
  }

  /** A committed sequence leaves exactly the stock records that draining its items gives. */
  lemma {:induction false} ApplyLinesDrain(db: Db, outboundId: int, lines: seq<OutboundLine>)
    requires ApplyLines(db, outboundId, lines).Ok?
    requires forall k | 0 <= k < |lines| :: LineCommits(lines[k])
    ensures ApplyLines(db, outboundId, lines).value.inventory == Drain(db.inventory, ItemRows(outboundId, lines))
    decreases |lines|
  {
    if lines != [] {
      LineStepCommits(db, outboundId, lines[0]);
      assert forall k | 0 <= k < |lines[1..]| :: lines[1..][k] == lines[k + 1];
      ApplyLinesDrain(LineStep(db, outboundId, lines[0]).value, outboundId, lines[1..]);
      assert ItemRows(outboundId, lines)[1..] == ItemRows(outboundId, lines[1..]);
    }
  }

  lemma DrainOneValue(r: StockRecord, q: int)
    ensures Value(StockRecord(r.quantity - q, r.avgCost)) == Value(r) - q as real * r.avgCost
  {
    MulSubDistributes(r.quantity as real, q as real, r.avgCost);
  }

  /** Taking one item out of its record rewrites only that record, whose value falls by what the item takes out. */
  lemma TakeOutValue(inventory: map<int, StockRecord>, item: OutboundItem)
    requires item.productId in inventory
    ensures var p, next := item.productId, DrainOne(inventory, item);
      && p in next && next == inventory[p := next[p]]
      && Value(next[p]) == Value(inventory[p]) + -ItemOut(item, inventory)
  {
    DrainOneValue(inventory[item.productId], item.quantity);
  }

  /** One dispatched item lowers the stock value by what it takes out. */
  lemma DrainOneTotal(inventory: map<int, StockRecord>, item: OutboundItem)
    ensures StockTotal(DrainOne(inventory, item)) == StockTotal(inventory) - ItemOut(item, inventory)
  {
    if item.productId in inventory {
      TakeOutValue(inventory, item);
      StockTotalAfterChange(inventory, DrainOne(inventory, item), item.productId, -ItemOut(item, inventory));
    } else {
      assert DrainOne(inventory, item) == inventory;
    }
  }

  /** One dispatched item keeps the set of records and every average cost. */
  lemma DrainOneKeepsCosts(inventory: map<int, StockRecord>, item: OutboundItem)
    ensures var next := DrainOne(inventory, item);
      next.Keys == inventory.Keys && forall p | p in next :: next[p].avgCost == inventory[p].avgCost
  {}

  lemma TakeTwice(t0: real, t1: real, t2: real, x: real, y: real)
    requires t1 == t0 - x && t2 == t1 - y
    ensures t2 == t0 - (x + y)
  {}

  /**
   * Draining keeps every average cost, so the stock value falls by the sum,
   * over the items, of quantity times the average cost before the items.
   */
  lemma {:induction false} DrainTotal(inventory: map<int, StockRecord>, items: seq<OutboundItem>)
    ensures StockTotal(Drain(inventory, items)) == StockTotal(inventory) - OutValue(items, inventory)
    decreases |items|
  {
    if items != [] {
      var next := DrainOne(inventory, items[0]);
      DrainOneTotal(inventory, items[0]);
      DrainOneKeepsCosts(inventory, items[0]);
      DrainTotal(next, items[1..]);
      OutValueSameCosts(items[1..], next, inventory);
      TakeTwice(StockTotal(inventory), StockTotal(next), StockTotal(Drain(inventory, items)),
                ItemOut(items[0], inventory), OutValue(items[1..], inventory));
    }
  }

  /**
   * Because a dispatch never changes an average cost, a committed dispatch
   * lowers the total stock valuation by the sum, over its items, of quantity
   * times the product's average cost before the dispatch.
   */
  lemma CreateOutboundTotal(db: Db, req: OutboundRequest, userId: int)
    requires CreateOutboundSpec(db, req, userId).reply.Ok?
    ensures forall k | 0 <= k < |req.items.value| :: LineCommits(req.items.value[k])
    ensures var id := CreateOutboundSpec(db, req, userId).reply.value;
      TotalValuation(CreateOutboundSpec(db, req, userId).after)
        == TotalValuation(db) - OutValue(ItemRows(id, req.items.value), db.inventory)
  {
    var header := AddOutboundRecord(db, req.customerName.value, OrNull(req.soReference), req.dispatchDate.value, userId);
    ApplyLinesAllCommit(header, db.nextOutboundId, req.items.value);
    ApplyLinesDrain(header, db.nextOutboundId, req.items.value);
    DrainTotal(db.inventory, ItemRows(db.nextOutboundId, req.items.value));
  }

  /** One line lowers the total stock valuation by its quantity times the product's average cost. */
  lemma LineStepTotal(db: Db, outboundId: int, line: OutboundLine)
    requires LineStep(db, outboundId, line).Ok?
    ensures LineCommits(line) && line.productId.value in db.inventory
    ensures TotalValuation(LineStep(db, outboundId, line).value)
         == TotalValuation(db) - LineQuantity(line) as real * db.inventory[line.productId.value].avgCost
  {
    var item := LineStepDrains(db, outboundId, line);
    DrainOneTotal(db.inventory, item);
  }

  /** One successful line leaves the stock records that draining its item gives. */
  lemma LineStepDrains(db: Db, outboundId: int, line: OutboundLine) returns (item: OutboundItem)
    requires LineStep(db, outboundId, line).Ok?
    ensures LineCommits(line) && line.productId.value in db.inventory
    ensures item == OutboundItem(outboundId, line.productId.value, LineQuantity(line))
    ensures ItemOut(item, db.inventory) == LineQuantity(line) as real * db.inventory[line.productId.value].avgCost
    ensures LineStep(db, outboundId, line).value.inventory == DrainOne(db.inventory, item)
  {
    LineStepCommits(db, outboundId, line);
    item := OutboundItem(outboundId, line.productId.value, LineQuantity(line));
  }
}
