/**
 * POST /api/inbound: one goods receipt with its lines, recorded in a single
 * transaction. The header is inserted first; then every line is checked,
 * stored, moved into stock by the movement engine and logged in the audit
 * trail. The first failing line rolls the whole receipt back.
 */
module Inbound {
  import opened Common
  import opened Store
  import opened InventoryService
  import opened InventoryValuation

  /** One element of `items`, as the JSON body gives it. */
  datatype InboundLine = InboundLine(productId: Option<int>, quantity: Option<real>, unitCost: CostValue)

  /** The request body; `items` is None when it is not an array. */
  datatype InboundRequest = InboundRequest(
    supplierId: Option<int>,
    referenceNo: Option<string>,
    receivedDate: Option<string>,
    items: Option<seq<InboundLine>>)

  /** The header check made before the transaction starts. */
  predicate PayloadValid(req: InboundRequest) {
    IdGiven(req.supplierId) && TextGiven(req.receivedDate) && req.items.Some? && |req.items.value| > 0
  }

  /** The controller's own unit cost check: only an absent or a negative cost is refused here. */
  predicate CostRefusedByController(c: CostValue) {
    c.Undefined? || (c.Cost? && c.amount < 0.0)
  }

  /** The errors one receipt line can raise: its own checks, the integer column, and the movement engine. */
  predicate LineError(e: Error) {
    e in {InvalidInboundItem, InboundItemUnitCostRequired, InvalidIntegerSyntax,
          InventoryRecordNotFound, MovementUnitCostRequired}
  }

  /**
   * One line: check it, insert the item, move the stock, append the audit
   * entry. A line never touches the catalogue or creates a stock record.
   */
  function LineStep(db: Db, inboundId: int, line: InboundLine): (r: Result<Db>)
    ensures r.Err? ==> LineError(r.error)
    ensures r.Ok? ==> r.value.products == db.products && r.value.inventory.Keys == db.inventory.Keys
  {
    if !(IdGiven(line.productId) && PositiveGiven(line.quantity)) then Err(InvalidInboundItem)
    else if CostRefusedByController(line.unitCost) then Err(InboundItemUnitCostRequired)
    else
      match IntColumn(line.quantity.value)
      case Err(e) => Err(e)
      case Ok(q) =>
        var pid := line.productId.value;
        var withItem := AddInboundItem(db, InboundItem(inboundId, pid, q, line.unitCost));
        match ApplyMovement(withItem, pid, q, INBOUND, line.unitCost)
        case Err(e) => Err(e)
        case Ok(moved) => Ok(AddAudit(moved, AuditEntry(pid, InboundChange, q, inboundId)))
  }

  /** The lines in order; the first error stops the loop. */
  function ApplyLines(db: Db, inboundId: int, lines: seq<InboundLine>): (r: Result<Db>)
    ensures r.Err? ==> LineError(r.error)
    ensures r.Ok? ==> r.value.products == db.products && r.value.inventory.Keys == db.inventory.Keys
    decreases |lines|
  {
    if lines == [] then Ok(db)
    else
      match LineStep(db, inboundId, lines[0])
      case Err(e) => Err(e)
      case Ok(d) => ApplyLines(d, inboundId, lines[1..])
  }

  /**
   * The whole request. On success the reply is the new receipt's id; on any
   * error the database is as it was before the request.
   */
  function CreateInboundSpec(db: Db, req: InboundRequest, userId: int): (t: Txn<int>)
    ensures !PayloadValid(req) ==> t == Txn(Err(InvalidInboundPayload), db)
    ensures t.reply.Err? ==> t.after == db
    ensures t.reply.Ok? ==> t.reply.value == db.nextInboundId && PayloadValid(req)
  {
    if !PayloadValid(req) then Txn(Err(InvalidInboundPayload), db)
    else
      var inboundId := db.nextInboundId;
      var header := AddReceipt(db, req.supplierId.value, OrNull(req.referenceNo), req.receivedDate.value, userId);
      match ApplyLines(header, inboundId, req.items.value)
      case Err(e) => Txn(Err(e), db)
      case Ok(d) => Txn(Ok(inboundId), d)
  }

  /** createInbound: the transaction on the live tables, rolled back on the first error. */
  method CreateInbound(w: Warehouse, req: InboundRequest, userId: int) returns (r: Result<int>)
    modifies w
    ensures Txn(r, w.State()) == CreateInboundSpec(old(w.State()), req, userId)
  {
    if !PayloadValid(req) {
      return Err(InvalidInboundPayload);
    }
    var snapshot := w.State();
    var inboundId := w.InsertReceipt(req.supplierId.value, OrNull(req.referenceNo), req.receivedDate.value, userId);
    ghost var header := w.State();
    var items := req.items.value;
    var i := 0;
    while i < |items|
      invariant 0 <= i <= |items|
      invariant inboundId == snapshot.nextInboundId
      invariant ApplyLines(header, inboundId, items) == ApplyLines(w.State(), inboundId, items[i..])
    {
      assert items[i..][0] == items[i] && items[i..][1..] == items[i + 1..];
      var o := ReceiveLine(w, inboundId, items[i]);
      if o.Fail? {
        w.Restore(snapshot);
        return Err(o.error);
      }
      i := i + 1;
    }
    assert items[i..] == [];
    return Ok(inboundId);
  }

  /**
   * One iteration of the loop on the live tables. On failure the tables may
   * hold a partly written line; the caller rolls them back.
   */
  method ReceiveLine(w: Warehouse, inboundId: int, item: InboundLine) returns (o: Outcome)
    modifies w
    ensures o.Fail? ==> LineStep(old(w.State()), inboundId, item) == Err(o.error)
    ensures o.Pass? ==> LineStep(old(w.State()), inboundId, item) == Ok(w.State())
  {
    if !item.productId.Some? || item.productId.value == 0 || !item.quantity.Some? || item.quantity.value <= 0.0 {
      return Fail(InvalidInboundItem);
    }
    if item.unitCost.Undefined? || (item.unitCost.Cost? && item.unitCost.amount < 0.0) {
      return Fail(InboundItemUnitCostRequired);
    }
    var stored := IntColumn(item.quantity.value);
    if stored.Err? {
      return Fail(stored.error);
    }
    var productId, quantity := item.productId.value, stored.value;
    w.InsertInboundItem(InboundItem(inboundId, productId, quantity, item.unitCost));
    var moved := ApplyInventoryMovement(w, productId, quantity, INBOUND, item.unitCost);
    if moved.Fail? {
      return Fail(moved.error);
    }
    w.InsertAudit(AuditEntry(productId, InboundChange, quantity, inboundId));
    o := Pass;
  }

  // ---------------------------------------------------------------------------
  // What a committed receipt contains
  // ---------------------------------------------------------------------------

  /** A line that goes all the way through: ids and quantity given, a whole quantity, a usable unit cost. */
  predicate LineCommits(line: InboundLine) {
    && IdGiven(line.productId)
    && PositiveGiven(line.quantity)
    && line.quantity.value == line.quantity.value.Floor as real
    && CostUsable(line.unitCost)
  }

  function LineQuantity(line: InboundLine): int
    requires LineCommits(line)
  {
    line.quantity.value.Floor
  }

  /** The inbound_items rows the lines produce, in order. */
  function ItemRows(inboundId: int, lines: seq<InboundLine>): seq<InboundItem>
    requires forall k | 0 <= k < |lines| :: LineCommits(lines[k])
    decreases |lines|
  {
    assert lines != [] ==> LineCommits(lines[0]);
    if lines == [] then []
    else [InboundItem(inboundId, lines[0].productId.value, LineQuantity(lines[0]), lines[0].unitCost)]
         + ItemRows(inboundId, lines[1..])
  }

  /** The audit entries the lines produce, in order: one +quantity entry per line. */
  function AuditRows(inboundId: int, lines: seq<InboundLine>): seq<AuditEntry>
    requires forall k | 0 <= k < |lines| :: LineCommits(lines[k])
    decreases |lines|
  {
    assert lines != [] ==> LineCommits(lines[0]);
    if lines == [] then []
    else [AuditEntry(lines[0].productId.value, InboundChange, LineQuantity(lines[0]), inboundId)]
         + AuditRows(inboundId, lines[1..])
  }

  /** The total quantity the lines bring in for one product. */
  function QtyFor(lines: seq<InboundLine>, p: int): int
    requires forall k | 0 <= k < |lines| :: LineCommits(lines[k])
    decreases |lines|
  {
    assert lines != [] ==> LineCommits(lines[0]);
    if lines == [] then 0
    else (if lines[0].productId.value == p then LineQuantity(lines[0]) else 0) + QtyFor(lines[1..], p)
  }

  /** What one successful line writes. */
  lemma LineStepCommits(db: Db, inboundId: int, line: InboundLine)
    requires LineStep(db, inboundId, line).Ok?
    ensures LineCommits(line)
    ensures var d := LineStep(db, inboundId, line).value;
      var p := line.productId.value;
      && p in db.inventory
      && d == db.(inventory := d.inventory,
                  inboundItems := db.inboundItems + [InboundItem(inboundId, p, LineQuantity(line), line.unitCost)],
                  audit := db.audit + [AuditEntry(p, InboundChange, LineQuantity(line), inboundId)])
      && d.inventory == db.inventory[p := Move(db.inventory[p], LineQuantity(line), INBOUND, line.unitCost).value]
  {
    var q := IntColumn(line.quantity.value).value;
    var withItem := AddInboundItem(db, InboundItem(inboundId, line.productId.value, q, line.unitCost));
    assert withItem.inventory == db.inventory;
  }

  /** Every line of a committed sequence went through, and the items and audit entries are index-aligned with them. */
  lemma {:induction false} ApplyLinesAllCommit(db: Db, inboundId: int, lines: seq<InboundLine>)
    requires ApplyLines(db, inboundId, lines).Ok?
    ensures forall k | 0 <= k < |lines| :: LineCommits(lines[k])
    decreases |lines|
  {
    if lines != [] {
      LineStepCommits(db, inboundId, lines[0]);
      ApplyLinesAllCommit(LineStep(db, inboundId, lines[0]).value, inboundId, lines[1..]);
      forall k | 0 <= k < |lines| ensures LineCommits(lines[k]) {
        if k > 0 { assert lines[k] == lines[1..][k - 1]; }
      }
    }
  }

  /** Besides stock, a committed sequence writes only the item and audit tables. */
  lemma {:induction false} ApplyLinesFrame(db: Db, inboundId: int, lines: seq<InboundLine>)
    requires ApplyLines(db, inboundId, lines).Ok?
    ensures var d := ApplyLines(db, inboundId, lines).value;
      d == db.(inventory := d.inventory, inboundItems := d.inboundItems, audit := d.audit)
    decreases |lines|
  {
    if lines != [] {
      LineStepCommits(db, inboundId, lines[0]);
      ApplyLinesFrame(LineStep(db, inboundId, lines[0]).value, inboundId, lines[1..]);
    }
  }

  /** The items a committed sequence appends are its lines, in order. */
  lemma {:induction false} ApplyLinesItems(db: Db, inboundId: int, lines: seq<InboundLine>)
    requires ApplyLines(db, inboundId, lines).Ok?
    requires forall k | 0 <= k < |lines| :: LineCommits(lines[k])
    ensures ApplyLines(db, inboundId, lines).value.inboundItems == db.inboundItems + ItemRows(inboundId, lines)
    decreases |lines|
  {
    if lines != [] {
      LineStepCommits(db, inboundId, lines[0]);
      assert forall k | 0 <= k < |lines[1..]| :: lines[1..][k] == lines[k + 1];
      ApplyLinesItems(LineStep(db, inboundId, lines[0]).value, inboundId, lines[1..]);
      var item := InboundItem(inboundId, lines[0].productId.value, LineQuantity(lines[0]), lines[0].unitCost);
      assert ItemRows(inboundId, lines) == [item] + ItemRows(inboundId, lines[1..]);
      assert db.inboundItems + [item] + ItemRows(inboundId, lines[1..]) == db.inboundItems + ItemRows(inboundId, lines);
    }
  }

  /** The audit entries a committed sequence appends are one +quantity entry per line, in order. */
  lemma {:induction false} ApplyLinesAudit(db: Db, inboundId: int, lines: seq<InboundLine>)
    requires ApplyLines(db, inboundId, lines).Ok?
    requires forall k | 0 <= k < |lines| :: LineCommits(lines[k])
    ensures ApplyLines(db, inboundId, lines).value.audit == db.audit + AuditRows(inboundId, lines)
    decreases |lines|
  {
    if lines != [] {
      LineStepCommits(db, inboundId, lines[0]);
      assert forall k | 0 <= k < |lines[1..]| :: lines[1..][k] == lines[k + 1];
      ApplyLinesAudit(LineStep(db, inboundId, lines[0]).value, inboundId, lines[1..]);
      var entry := AuditEntry(lines[0].productId.value, InboundChange, LineQuantity(lines[0]), inboundId);
      assert AuditRows(inboundId, lines) == [entry] + AuditRows(inboundId, lines[1..]);
      assert db.audit + [entry] + AuditRows(inboundId, lines[1..]) == db.audit + AuditRows(inboundId, lines);
    }
  }

  /** A committed sequence raises each product's stock by the quantities its lines bring in. */
  lemma {:induction false} ApplyLinesQuantities(db: Db, inboundId: int, lines: seq<InboundLine>)
    requires ApplyLines(db, inboundId, lines).Ok?
    requires forall k | 0 <= k < |lines| :: LineCommits(lines[k])
    ensures var d := ApplyLines(db, inboundId, lines).value;
      && d.inventory.Keys == db.inventory.Keys
      && forall p | p in db.inventory :: d.inventory[p].quantity == db.inventory[p].quantity + QtyFor(lines, p)
    decreases |lines|
  {
    if lines != [] {
      LineStepCommits(db, inboundId, lines[0]);
      var mid := LineStep(db, inboundId, lines[0]).value;
      assert forall k | 0 <= k < |lines[1..]| :: lines[1..][k] == lines[k + 1];
      ApplyLinesQuantities(mid, inboundId, lines[1..]);
    }
  }

  /** One line keeps the database consistent when its receipt id has been issued. */
  lemma LineStepConsistent(db: Db, inboundId: int, line: InboundLine)
    requires Consistent(db) && 1 <= inboundId < db.nextInboundId
    requires LineStep(db, inboundId, line).Ok?
    ensures Consistent(LineStep(db, inboundId, line).value)
  {
    LineStepCommits(db, inboundId, line);
    var p, q := line.productId.value, LineQuantity(line);
    var withItem := AddInboundItem(db, InboundItem(inboundId, p, q, line.unitCost));
    assert Consistent(withItem);
    MovementPreservesConsistent(withItem, p, q, INBOUND, line.unitCost);
  }

  lemma {:induction false} ApplyLinesConsistent(db: Db, inboundId: int, lines: seq<InboundLine>)
    requires Consistent(db) && 1 <= inboundId < db.nextInboundId
    requires ApplyLines(db, inboundId, lines).Ok?
    ensures Consistent(ApplyLines(db, inboundId, lines).value)
    decreases |lines|
  {
    if lines != [] {
      LineStepConsistent(db, inboundId, lines[0]);
      ApplyLinesConsistent(LineStep(db, inboundId, lines[0]).value, inboundId, lines[1..]);
    }
  }

  /** A receipt, committed or rolled back, leaves a consistent database consistent. */
  lemma CreateInboundConsistent(db: Db, req: InboundRequest, userId: int)
    requires Consistent(db)
    ensures Consistent(CreateInboundSpec(db, req, userId).after)
  {
    if PayloadValid(req) {
      var header := AddReceipt(db, req.supplierId.value, OrNull(req.referenceNo), req.receivedDate.value, userId);
      assert Consistent(header);
      if ApplyLines(header, db.nextInboundId, req.items.value).Ok? {
        ApplyLinesConsistent(header, db.nextInboundId, req.items.value);
      }
    }
  }

  /**
   * A committed receipt adds exactly one header row carrying the request's
   * fields, one item and one +quantity audit entry per line in the order given,
   * and raises each product's stock by the quantities received for it. Products
   * and outbound documents are untouched.
   */
  lemma CreateInboundCommit(db: Db, req: InboundRequest, userId: int)
    requires CreateInboundSpec(db, req, userId).reply.Ok?
    ensures var t := CreateInboundSpec(db, req, userId);
      var id, lines, d := t.reply.value, req.items.value, t.after;
      && (forall k | 0 <= k < |lines| :: LineCommits(lines[k]))
      && d.receipts == db.receipts + [InboundReceipt(id, req.supplierId.value, OrNull(req.referenceNo), req.receivedDate.value, userId)]
      && d.nextInboundId == id + 1
      && d.inboundItems == db.inboundItems + ItemRows(id, lines)
      && d.audit == db.audit + AuditRows(id, lines)
      && d.products == db.products
      && d.outboundRecords == db.outboundRecords && d.outboundItems == db.outboundItems
      && d.inventory.Keys == db.inventory.Keys
      && forall p | p in db.inventory :: d.inventory[p].quantity == db.inventory[p].quantity + QtyFor(lines, p)
  {
    var header := AddReceipt(db, req.supplierId.value, OrNull(req.referenceNo), req.receivedDate.value, userId);
    ApplyLinesAllCommit(header, db.nextInboundId, req.items.value);
    ApplyLinesFrame(header, db.nextInboundId, req.items.value);
    ApplyLinesItems(header, db.nextInboundId, req.items.value);
    ApplyLinesAudit(header, db.nextInboundId, req.items.value);
    ApplyLinesQuantities(header, db.nextInboundId, req.items.value);
  }

  /** No stock record holds a negative quantity. */
  predicate StockNonNegative(inventory: map<int, StockRecord>) {
    forall p | p in inventory :: inventory[p].quantity >= 0
  }

  /** The stock value one line adds to its product's record. */
  lemma LineStepValue(db: Db, inboundId: int, line: InboundLine) returns (p: int, rec: StockRecord)
    requires StockNonNegative(db.inventory)
    requires LineStep(db, inboundId, line).Ok?
    ensures LineCommits(line)
    ensures p in db.inventory && LineStep(db, inboundId, line).value.inventory == db.inventory[p := rec]
    ensures Value(rec) == Value(db.inventory[p]) + LineQuantity(line) as real * line.unitCost.amount
  {
    LineStepCommits(db, inboundId, line);
    p := line.productId.value;
    rec := Move(db.inventory[p], LineQuantity(line), INBOUND, line.unitCost).value;
  }

  /** One line raises the total stock valuation by its quantity times its unit cost. */
  lemma LineStepTotal(db: Db, inboundId: int, line: InboundLine)
    requires StockNonNegative(db.inventory)
    requires LineStep(db, inboundId, line).Ok?
    ensures LineCommits(line)
    ensures TotalValuation(LineStep(db, inboundId, line).value) == TotalValuation(db) + LineValue(line)
  {
    var p, rec := LineStepValue(db, inboundId, line);
    TotalAfterChange(db, LineStep(db, inboundId, line).value, p, rec, LineValue(line));
  }

  /** The stock value one committed line brings in: its quantity times its unit cost. */
  function LineValue(line: InboundLine): real
    requires LineCommits(line)
  {
    LineQuantity(line) as real * line.unitCost.amount
  }

  /** The stock value a sequence of lines brings in: each line's quantity times its unit cost. */
  function InValue(lines: seq<InboundLine>): real
    requires forall k | 0 <= k < |lines| :: LineCommits(lines[k])
    decreases |lines|
  {
    assert lines != [] ==> LineCommits(lines[0]);
    if lines == [] then 0.0
    else LineValue(lines[0]) + InValue(lines[1..])
  }

  /** One committed line over non-negative stock keeps it non-negative. */
  lemma LineStepNonNegative(db: Db, inboundId: int, line: InboundLine)
    requires StockNonNegative(db.inventory)
    requires LineStep(db, inboundId, line).Ok?
    ensures StockNonNegative(LineStep(db, inboundId, line).value.inventory)
  {
    LineStepCommits(db, inboundId, line);
  }

  /** A committed sequence of lines raises the total stock valuation by the value its lines bring in. */
  lemma {:induction false} ApplyLinesTotal(db: Db, inboundId: int, lines: seq<InboundLine>)
    requires StockNonNegative(db.inventory)
    requires ApplyLines(db, inboundId, lines).Ok?
    ensures forall k | 0 <= k < |lines| :: LineCommits(lines[k])
    ensures TotalValuation(ApplyLines(db, inboundId, lines).value) == TotalValuation(db) + InValue(lines)
    decreases |lines|
  {
    ApplyLinesAllCommit(db, inboundId, lines);
    if lines != [] {
      LineStepTotal(db, inboundId, lines[0]);
      LineStepNonNegative(db, inboundId, lines[0]);
      var d := ApplyLinesFirst(db, inboundId, lines);
      ApplyLinesTotal(d, inboundId, lines[1..]);
      InValueCons(lines);
    } else {
      assert ApplyLines(db, inboundId, lines) == Ok(db) && InValue(lines) == 0.0;
    }
  }

  /** A sequence whose first line commits continues from that line's result. */
  lemma ApplyLinesFirst(db: Db, inboundId: int, lines: seq<InboundLine>) returns (d: Db)
    requires lines != [] && LineStep(db, inboundId, lines[0]).Ok?
    ensures d == LineStep(db, inboundId, lines[0]).value
    ensures ApplyLines(db, inboundId, lines) == ApplyLines(d, inboundId, lines[1..])
  {
    d := LineStep(db, inboundId, lines[0]).value;
  }

  lemma InValueCons(lines: seq<InboundLine>)
    requires lines != [] && forall k | 0 <= k < |lines| :: LineCommits(lines[k])
    ensures forall k | 0 <= k < |lines[1..]| :: LineCommits(lines[1..][k])
    ensures InValue(lines) == LineValue(lines[0]) + InValue(lines[1..])
  {
    assert forall k | 0 <= k < |lines[1..]| :: lines[1..][k] == lines[k + 1];
  }

  /**
   * A committed receipt raises the total stock valuation by the sum of quantity
   * times unit cost over its lines.
   */
  lemma CreateInboundTotal(db: Db, req: InboundRequest, userId: int)
    requires Consistent(db)
    requires CreateInboundSpec(db, req, userId).reply.Ok?
    ensures forall k | 0 <= k < |req.items.value| :: LineCommits(req.items.value[k])
    ensures TotalValuation(CreateInboundSpec(db, req, userId).after) == TotalValuation(db) + InValue(req.items.value)
  {
    var header := AddReceipt(db, req.supplierId.value, OrNull(req.referenceNo), req.receivedDate.value, userId);
    assert header.inventory == db.inventory;
    ApplyLinesAllCommit(header, db.nextInboundId, req.items.value);
    ApplyLinesTotal(header, db.nextInboundId, req.items.value);
  }

  /**
   * A null unit cost passes the controller's check (`null < 0` is false) but is
   * refused by the movement engine, so no receipt holding one ever commits.
   */
  lemma NullCostNeverCommits(db: Db, req: InboundRequest, userId: int, k: int)
    requires req.items.Some? && 0 <= k < |req.items.value| && req.items.value[k].unitCost == Null
    ensures CreateInboundSpec(db, req, userId).reply.Err?
    ensures CreateInboundSpec(db, req, userId).after == db
  {
    if CreateInboundSpec(db, req, userId).reply.Ok? {
      CreateInboundCommit(db, req, userId);
    }
  }

  /** A receipt of one acceptable line for a stocked product commits with that line's quantity added. */
  lemma SingleLineCommits(db: Db, supplierId: int, date: string, userId: int, p: int, q: nat, u: real)
    requires supplierId != 0 && date != "" && p != 0 && q > 0 && u >= 0.0 && p in db.inventory
    ensures var req := InboundRequest(Some(supplierId), None, Some(date), Some([InboundLine(Some(p), Some(q as real), Cost(u))]));
      var t := CreateInboundSpec(db, req, userId);
      && t.reply == Ok(db.nextInboundId)
      && p in t.after.inventory
      && t.after.inventory[p].quantity == db.inventory[p].quantity + q
  {
    var line := InboundLine(Some(p), Some(q as real), Cost(u));
    var req := InboundRequest(Some(supplierId), None, Some(date), Some([line]));
    var header := AddReceipt(db, supplierId, None, date, userId);
    assert IntColumn(q as real) == Ok(q);
    assert LineStep(header, db.nextInboundId, line).Ok?;
    assert ApplyLines(header, db.nextInboundId, [line]) == LineStep(header, db.nextInboundId, line);
    CreateInboundCommit(db, req, userId);
  }
}
