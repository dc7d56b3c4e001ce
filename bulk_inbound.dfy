/**
 * POST /api/bulk/inbound: a CSV file of receipt rows recorded in one
 * transaction. Every row becomes its own receipt header with one item; the
 * movement engine brings the row's quantity into stock and the audit trail
 * records it. The first failing row rolls the whole file back; on success the
 * reply counts the rows.
 *
 * The row check exists in two versions. `AsWritten` is the controller's own:
 * quantity is only required to be present. `Corrected` also requires a
 * positive quantity, as the single-receipt endpoint does; without it a negative
 * quantity reaches the movement engine and drives stock below zero.
 */
module BulkInbound {
  import opened Common
  import opened Store
  import opened Text
  import opened InventoryService

  /** One CSV record; a column the file does not have is None. */
  datatype InboundCsvRow = InboundCsvRow(
    supplierId: Option<string>,
    productId: Option<string>,
    quantity: Option<string>,
    unitCost: Option<string>,
    referenceNo: Option<string>,
    receivedDate: Option<string>)

  datatype Validation = AsWritten | Corrected

  /** Number(unit_cost) as the movement engine receives it. */
  function CostOf(text: string): (c: CostValue)
    ensures c.Cost? <==> ToNumber(text).Num?
    ensures c.Cost? ==> c.amount == ToNumber(text).value
    ensures c.Cost? || c.NotANumber?
  {
    match ToNumber(text)
    case NaN => NotANumber
    case Num(x) => Cost(x)
  }

  /** A JavaScript number stored in an integer column: NaN and fractions are refused. */
  function NumberColumn(n: JsNumber): (r: Result<int>)
    ensures r.Ok? <==> n.Num? && n.value == n.value.Floor as real
    ensures r.Ok? ==> r.value as real == n.value
    ensures r.Err? ==> r.error == InvalidIntegerSyntax
  {
    match n
    case NaN => Err(InvalidIntegerSyntax)
    case Num(x) => IntColumn(x)
  }

  /** The checks made on a row before anything is written for it. */
  function RowCheck(row: InboundCsvRow, v: Validation): (o: Outcome)
    ensures o.Pass? ==> TextGiven(row.supplierId) && TextGiven(row.productId) && TextGiven(row.quantity)
                        && TextGiven(row.receivedDate) && row.unitCost.Some?
    ensures o.Pass? && v == Corrected ==> ToNumber(row.quantity.value).Num? && ToNumber(row.quantity.value).value > 0.0
    ensures o.Fail? ==> o.error == InvalidInboundCsvRow || o.error == InboundCsvUnitCostRequired
  {
    if !(TextGiven(row.supplierId) && TextGiven(row.productId) && TextGiven(row.quantity) && TextGiven(row.receivedDate))
    then Fail(InvalidInboundCsvRow)
    else if v == Corrected && !(ToNumber(row.quantity.value).Num? && ToNumber(row.quantity.value).value > 0.0)
    then Fail(InvalidInboundCsvRow)
    else if row.unitCost.None? || (ToNumber(row.unitCost.value).Num? && ToNumber(row.unitCost.value).value < 0.0)
    then Fail(InboundCsvUnitCostRequired)
    else Pass
  }

  /** A row's values once checked and converted, as the inserts receive them. */
  datatype ParsedRow = ParsedRow(
    supplierId: int,
    productId: int,
    quantity: int,
    unitCost: CostValue,
    referenceNo: Option<string>,
    receivedDate: string)

  /**
   * The checks and conversions of one row: the controller's own checks, then
   * the integer columns (supplier, product, quantity), which PostgreSQL refuses
   * when the text is not an integer. The unit cost goes to a numeric column,
   * which also holds NaN, so it is passed on as read.
   */
  function ParseRow(row: InboundCsvRow, v: Validation): (r: Result<ParsedRow>)
    ensures r.Ok? && v == Corrected ==> r.value.quantity > 0
    ensures r.Err? ==> r.error in {InvalidInboundCsvRow, InboundCsvUnitCostRequired, InvalidIntegerSyntax}
  {
    match RowCheck(row, v)
    case Fail(e) => Err(e)
    case Pass =>
      match PgInteger(row.supplierId.value)
      case None => Err(InvalidIntegerSyntax)
      case Some(supplierId) =>
        match PgInteger(row.productId.value)
        case None => Err(InvalidIntegerSyntax)
        case Some(productId) =>
          match NumberColumn(ToNumber(row.quantity.value))
          case Err(e) => Err(e)
          case Ok(q) =>
            Ok(ParsedRow(supplierId, productId, q, CostOf(row.unitCost.value), OrNull(row.referenceNo), row.receivedDate.value))
  }

  /**
   * The writes of one row: its receipt, its item, the INBOUND movement and the
   * audit entry. Only the movement engine can refuse them, and they never touch
   * the catalogue or create a stock record.
   */
  function Commit(db: Db, userId: int, pr: ParsedRow): (r: Result<Db>)
    ensures r.Err? ==> r.error in {InventoryRecordNotFound, MovementUnitCostRequired}
    ensures r.Ok? ==> r.value.products == db.products && r.value.inventory.Keys == db.inventory.Keys
  {
    var inboundId := db.nextInboundId;
    var header := AddReceipt(db, pr.supplierId, pr.referenceNo, pr.receivedDate, userId);
    var withItem := AddInboundItem(header, InboundItem(inboundId, pr.productId, pr.quantity, pr.unitCost));
    match ApplyMovement(withItem, pr.productId, pr.quantity, INBOUND, pr.unitCost)
    case Err(e) => Err(e)
    case Ok(moved) => Ok(AddAudit(moved, AuditEntry(pr.productId, InboundChange, pr.quantity, inboundId)))
  }

  /** One row: the writes if it parsed, its error otherwise. */
  function Step(db: Db, userId: int, parsed: Result<ParsedRow>): (r: Result<Db>)
    ensures r.Err? ==> r.error in {InventoryRecordNotFound, MovementUnitCostRequired} || parsed == Err(r.error)
    ensures r.Ok? ==> r.value.products == db.products && r.value.inventory.Keys == db.inventory.Keys
  {
    match parsed
    case Err(e) => Err(e)
    case Ok(pr) => Commit(db, userId, pr)
  }

  /** Every row of the file, checked and converted. */
  function Parses(rows: seq<InboundCsvRow>, v: Validation): (ps: seq<Result<ParsedRow>>)
    ensures |ps| == |rows|
  {
    seq(|rows|, k requires 0 <= k < |rows| => ParseRow(rows[k], v))
  }

  /**
   * The rows in file order; the first error stops the loop, and it is either a
   * row's own parse error or the movement engine's. Every error rolls
   * the whole file back, so running a row's conversions before its writes gives
   * the same result as the controller's interleaving of the two.
   */
  function ApplyParsed(db: Db, userId: int, ps: seq<Result<ParsedRow>>): (r: Result<Db>)
    ensures r.Err? ==> r.error in {InventoryRecordNotFound, MovementUnitCostRequired} || Err(r.error) in ps
    ensures r.Ok? ==> r.value.products == db.products && r.value.inventory.Keys == db.inventory.Keys
    decreases |ps|
  {
    if ps == [] then Ok(db)
    else
      assert forall x | x in ps[1..] :: x in ps;
      match Step(db, userId, ps[0])
      case Err(e) => Err(e)
      case Ok(d) => ApplyParsed(d, userId, ps[1..])
  }

  /**
   * The whole upload; `file` is None when no file came with the request. On
   * success the reply is the number of rows; on any error the database is as
   * it was.
   */
  function BulkInboundSpec(db: Db, file: Option<seq<InboundCsvRow>>, userId: int, v: Validation): (t: Txn<nat>)
    ensures file.None? ==> t == Txn(Err(CsvFileRequired), db)
    ensures t.reply.Err? ==> t.after == db
    ensures t.reply.Ok? ==> file.Some? && t.reply.value == |file.value|
  {
    match file
    case None => Txn(Err(CsvFileRequired), db)
    case Some(rows) =>
      match ApplyParsed(db, userId, Parses(rows, v))
      case Err(e) => Txn(Err(e), db)
      case Ok(d) => Txn(Ok(|rows|), d)
  }

  /** bulkInboundUpload: all rows in one transaction on the live tables, rolled back on the first error. */
  method BulkInboundUpload(w: Warehouse, file: Option<seq<InboundCsvRow>>, userId: int, v: Validation)
    returns (r: Result<nat>)
    modifies w
    ensures Txn(r, w.State()) == BulkInboundSpec(old(w.State()), file, userId, v)
  {
    if file.None? {
      return Err(CsvFileRequired);
    }
    var snapshot := w.State();
    var o := UploadRows(w, file.value, userId, v);
    if o.Fail? {
      w.Restore(snapshot);
      return Err(o.error);
    }
    return Ok(|file.value|);
  }

  /** The loop over the rows, inside the transaction; the first failure stops it. */
  method UploadRows(w: Warehouse, rows: seq<InboundCsvRow>, userId: int, v: Validation) returns (o: Outcome)
    modifies w
    ensures o.Fail? ==> ApplyParsed(old(w.State()), userId, Parses(rows, v)) == Err(o.error)
    ensures o.Pass? ==> ApplyParsed(old(w.State()), userId, Parses(rows, v)) == Ok(w.State())
  {
    ghost var ps := Parses(rows, v);
    ghost var start := w.State();
    var i := 0;
    while i < |rows|
      invariant 0 <= i <= |rows|
      invariant ApplyParsed(start, userId, ps) == ApplyParsed(w.State(), userId, ps[i..])
    {
      ghost var before := w.State();
      o := UploadRow(w, userId, rows[i], v, ps[i]);
      if o.Fail? {
        ApplyParsedStops(start, before, userId, ps, i, o.error);
        return;
      }
      ApplyParsedGoesOn(start, before, w.State(), userId, ps, i);
      i := i + 1;
    }
    assert ps[i..] == [];
    o := Pass;
  }

  /** A row that goes through hands the rest of the file the database it produced. */
  lemma ApplyParsedGoesOn(snapshot: Db, before: Db, after: Db, userId: int, ps: seq<Result<ParsedRow>>, i: int)
    requires 0 <= i < |ps|
    requires ApplyParsed(snapshot, userId, ps) == ApplyParsed(before, userId, ps[i..])
    requires Step(before, userId, ps[i]) == Ok(after)
    ensures ApplyParsed(snapshot, userId, ps) == ApplyParsed(after, userId, ps[i + 1..])
  {
    assert ps[i..][0] == ps[i] && ps[i..][1..] == ps[i + 1..];
  }

  /** A row that fails ends the file with its error. */
  lemma ApplyParsedStops(snapshot: Db, before: Db, userId: int, ps: seq<Result<ParsedRow>>, i: int, e: Error)
    requires 0 <= i < |ps|
    requires ApplyParsed(snapshot, userId, ps) == ApplyParsed(before, userId, ps[i..])
    requires Step(before, userId, ps[i]) == Err(e)
    ensures ApplyParsed(snapshot, userId, ps) == Err(e)
  {
    assert ps[i..][0] == ps[i];
  }

  /**
   * One iteration of the loop on the live tables, in the controller's order.
   * On failure the tables may hold a partly written row; the caller rolls them
   * back.
   */
  method UploadRow(w: Warehouse, userId: int, row: InboundCsvRow, v: Validation, ghost parsed: Result<ParsedRow>)
    returns (o: Outcome)
    requires parsed == ParseRow(row, v)
    modifies w
    ensures o.Fail? ==> Step(old(w.State()), userId, parsed) == Err(o.error)
    ensures o.Pass? ==> Step(old(w.State()), userId, parsed) == Ok(w.State())
  {
    var checked := RowCheck(row, v);
    if checked.Fail? {
      return checked;
    }
    var supplierId := PgInteger(row.supplierId.value);
    if supplierId.None? {
      return Fail(InvalidIntegerSyntax);
    }
    var inboundId := w.InsertReceipt(supplierId.value, OrNull(row.referenceNo), row.receivedDate.value, userId);
    var productId := PgInteger(row.productId.value);
    if productId.None? {
      return Fail(InvalidIntegerSyntax);
    }
    var stored := NumberColumn(ToNumber(row.quantity.value));
    if stored.Err? {
      return Fail(stored.error);
    }
    var quantity, cost := stored.value, CostOf(row.unitCost.value);
    w.InsertInboundItem(InboundItem(inboundId, productId.value, quantity, cost));
    var moved := ApplyInventoryMovement(w, productId.value, quantity, INBOUND, cost);
    if moved.Fail? {
      return Fail(moved.error);
    }
    w.InsertAudit(AuditEntry(productId.value, InboundChange, quantity, inboundId));
    o := Pass;
  }

  // ---------------------------------------------------------------------------
  // What a committed file contains
  // ---------------------------------------------------------------------------

  /** The writes of all rows, in file order, for rows that all parsed. */
  function CommitAll(db: Db, userId: int, prs: seq<ParsedRow>): Result<Db>
    decreases |prs|
  {
    if prs == [] then Ok(db)
    else
      match Commit(db, userId, prs[0])
      case Err(e) => Err(e)
      case Ok(d) => CommitAll(d, userId, prs[1..])
  }

  /** The receipt headers: one per row, with consecutive ids from firstId. */
  function ReceiptRows(prs: seq<ParsedRow>, firstId: int, userId: int): seq<InboundReceipt>
    decreases |prs|
  {
    if prs == [] then []
    else [InboundReceipt(firstId, prs[0].supplierId, prs[0].referenceNo, prs[0].receivedDate, userId)]
         + ReceiptRows(prs[1..], firstId + 1, userId)
  }

  /** The items: row k's item belongs to receipt firstId + k. */
  function ItemRows(prs: seq<ParsedRow>, firstId: int): seq<InboundItem>
    decreases |prs|
  {
    if prs == [] then []
    else [InboundItem(firstId, prs[0].productId, prs[0].quantity, prs[0].unitCost)] + ItemRows(prs[1..], firstId + 1)
  }

  /** The audit entries: row k's +quantity entry refers to receipt firstId + k. */
  function AuditRows(prs: seq<ParsedRow>, firstId: int): seq<AuditEntry>
    decreases |prs|
  {
    if prs == [] then []
    else [AuditEntry(prs[0].productId, InboundChange, prs[0].quantity, firstId)] + AuditRows(prs[1..], firstId + 1)
  }

  /** The total quantity the rows bring in for one product. */
  function QtyFor(prs: seq<ParsedRow>, p: int): int
    decreases |prs|
  {
    if prs == [] then 0
    else (if prs[0].productId == p then prs[0].quantity else 0) + QtyFor(prs[1..], p)
  }

  /** Row k's receipt, item and audit entry all carry the id firstId + k. */
  lemma {:induction false} RowsShareReceiptIds(prs: seq<ParsedRow>, firstId: int, userId: int)
    ensures |ReceiptRows(prs, firstId, userId)| == |ItemRows(prs, firstId)| == |AuditRows(prs, firstId)| == |prs|
    ensures forall k | 0 <= k < |prs| ::
      && ReceiptRows(prs, firstId, userId)[k].inboundId == firstId + k
      && ItemRows(prs, firstId)[k].inboundId == firstId + k
      && AuditRows(prs, firstId)[k].referenceId == firstId + k
    decreases |prs|
  {
    if prs != [] {
      RowsShareReceiptIds(prs[1..], firstId + 1, userId);
    }
  }

  /** A file whose rows all go through has every row parsed, and its effect is the writes of those rows. */
  lemma {:induction false} ApplyParsedAllOk(db: Db, userId: int, ps: seq<Result<ParsedRow>>)
    requires ApplyParsed(db, userId, ps).Ok?
    ensures AllOk(ps)
    ensures ApplyParsed(db, userId, ps) == CommitAll(db, userId, Values(ps))
    decreases |ps|
  {
    if ps != [] {
      ApplyParsedAllOk(Step(db, userId, ps[0]).value, userId, ps[1..]);
      forall k | 0 <= k < |ps| ensures ps[k].Ok? {
        if k > 0 { assert ps[k] == ps[1..][k - 1]; }
      }
      assert Values(ps)[1..] == Values(ps[1..]);
    }
  }

  /** What the writes of one row change. */
  lemma CommitWrites(db: Db, userId: int, pr: ParsedRow)
    requires Commit(db, userId, pr).Ok?
    ensures var d, id := Commit(db, userId, pr).value, db.nextInboundId;
      && pr.productId in db.inventory
      && d == db.(inventory := d.inventory,
                  receipts := db.receipts + [InboundReceipt(id, pr.supplierId, pr.referenceNo, pr.receivedDate, userId)],
                  nextInboundId := id + 1,
                  inboundItems := db.inboundItems + [InboundItem(id, pr.productId, pr.quantity, pr.unitCost)],
                  audit := db.audit + [AuditEntry(pr.productId, InboundChange, pr.quantity, id)])
      && d.inventory == db.inventory[pr.productId := Move(db.inventory[pr.productId], pr.quantity, INBOUND, pr.unitCost).value]
  {
    var header := AddReceipt(db, pr.supplierId, pr.referenceNo, pr.receivedDate, userId);
    var withItem := AddInboundItem(header, InboundItem(db.nextInboundId, pr.productId, pr.quantity, pr.unitCost));
    assert withItem.inventory == db.inventory;
  }

  /** Besides stock, committed rows write only receipts, their counter, items and audit entries. */
  lemma {:induction false} CommitAllFrame(db: Db, userId: int, prs: seq<ParsedRow>)
    requires CommitAll(db, userId, prs).Ok?
    ensures var d := CommitAll(db, userId, prs).value;
      d == db.(inventory := d.inventory, receipts := d.receipts, nextInboundId := d.nextInboundId,
               inboundItems := d.inboundItems, audit := d.audit)
    decreases |prs|
  {
    if prs != [] {
      CommitWrites(db, userId, prs[0]);
      CommitAllFrame(Commit(db, userId, prs[0]).value, userId, prs[1..]);
    }
  }

  /** Committed rows add one receipt each, in file order, and advance the receipt counter by their count. */
  lemma {:induction false} CommitAllReceipts(db: Db, userId: int, prs: seq<ParsedRow>)
    requires CommitAll(db, userId, prs).Ok?
    ensures var d := CommitAll(db, userId, prs).value;
      && d.receipts == db.receipts + ReceiptRows(prs, db.nextInboundId, userId)
      && d.nextInboundId == db.nextInboundId + |prs|
    decreases |prs|
  {
    if prs != [] {
      CommitWrites(db, userId, prs[0]);
      CommitAllReceipts(Commit(db, userId, prs[0]).value, userId, prs[1..]);
      var head := InboundReceipt(db.nextInboundId, prs[0].supplierId, prs[0].referenceNo, prs[0].receivedDate, userId);
      assert db.receipts + [head] + ReceiptRows(prs[1..], db.nextInboundId + 1, userId)
          == db.receipts + ReceiptRows(prs, db.nextInboundId, userId);
    }
  }

  /** Committed rows append one item each, in file order, each in its row's receipt. */
  lemma {:induction false} CommitAllItems(db: Db, userId: int, prs: seq<ParsedRow>)
    requires CommitAll(db, userId, prs).Ok?
    ensures CommitAll(db, userId, prs).value.inboundItems == db.inboundItems + ItemRows(prs, db.nextInboundId)
    decreases |prs|
  {
    if prs != [] {
      CommitWrites(db, userId, prs[0]);
      CommitAllItems(Commit(db, userId, prs[0]).value, userId, prs[1..]);
      var head := InboundItem(db.nextInboundId, prs[0].productId, prs[0].quantity, prs[0].unitCost);
      assert db.inboundItems + [head] + ItemRows(prs[1..], db.nextInboundId + 1)
          == db.inboundItems + ItemRows(prs, db.nextInboundId);
    }
  }

  /** Committed rows append one +quantity audit entry each, in file order. */
  lemma {:induction false} CommitAllAudit(db: Db, userId: int, prs: seq<ParsedRow>)
    requires CommitAll(db, userId, prs).Ok?
    ensures CommitAll(db, userId, prs).value.audit == db.audit + AuditRows(prs, db.nextInboundId)
    decreases |prs|
  {
    if prs != [] {
      CommitWrites(db, userId, prs[0]);
      CommitAllAudit(Commit(db, userId, prs[0]).value, userId, prs[1..]);
      var head := AuditEntry(prs[0].productId, InboundChange, prs[0].quantity, db.nextInboundId);
      assert db.audit + [head] + AuditRows(prs[1..], db.nextInboundId + 1)
          == db.audit + AuditRows(prs, db.nextInboundId);
    }
  }

  /** Committed rows raise each product's stock by the quantities they bring in. */
  lemma {:induction false} CommitAllQuantities(db: Db, userId: int, prs: seq<ParsedRow>)
    requires CommitAll(db, userId, prs).Ok?
    ensures var d := CommitAll(db, userId, prs).value;
      && d.inventory.Keys == db.inventory.Keys
      && forall p | p in db.inventory :: d.inventory[p].quantity == db.inventory[p].quantity + QtyFor(prs, p)
    decreases |prs|
  {
    if prs != [] {
      CommitWrites(db, userId, prs[0]);
      CommitAllQuantities(Commit(db, userId, prs[0]).value, userId, prs[1..]);
    }
  }

  /**
   * A committed file: every row parses; one receipt, item and +quantity audit
   * entry per row, in file order and sharing the row's receipt id; stock raised
   * by the rows' quantities; products and outbound documents untouched; the
   * reply is the row count.
   */
  lemma BulkInboundCommit(db: Db, rows: seq<InboundCsvRow>, userId: int, v: Validation)
    requires BulkInboundSpec(db, Some(rows), userId, v).reply.Ok?
    ensures AllOk(Parses(rows, v))
    ensures var t, prs := BulkInboundSpec(db, Some(rows), userId, v), Values(Parses(rows, v));
      var d, id := t.after, db.nextInboundId;
      && t.reply.value == |rows|
      && |prs| == |rows|
      && (forall k | 0 <= k < |rows| :: ParseRow(rows[k], v) == Ok(prs[k]))
      && d.receipts == db.receipts + ReceiptRows(prs, id, userId)
      && d.nextInboundId == id + |rows|
      && d.inboundItems == db.inboundItems + ItemRows(prs, id)
      && d.audit == db.audit + AuditRows(prs, id)
      && d.products == db.products
      && d.outboundRecords == db.outboundRecords && d.outboundItems == db.outboundItems
      && d.inventory.Keys == db.inventory.Keys
      && forall p | p in db.inventory :: d.inventory[p].quantity == db.inventory[p].quantity + QtyFor(prs, p)
  {
    var ps := Parses(rows, v);
    ApplyParsedAllOk(db, userId, ps);
    var prs := Values(ps);
    assert forall k | 0 <= k < |rows| :: ParseRow(rows[k], v) == ps[k];
    CommitAllFrame(db, userId, prs);
    CommitAllReceipts(db, userId, prs);
    CommitAllItems(db, userId, prs);
    CommitAllAudit(db, userId, prs);
    CommitAllQuantities(db, userId, prs);
  }

  // ---------------------------------------------------------------------------
  // The missing quantity check
  // ---------------------------------------------------------------------------

  /** A row that parses carries the numbers its text denotes. */
  lemma ParseRowMeaning(row: InboundCsvRow, v: Validation)
    requires ParseRow(row, v).Ok?
    ensures var pr := ParseRow(row, v).value;
      && RowCheck(row, v).Pass?
      && PgInteger(row.supplierId.value) == Some(pr.supplierId)
      && PgInteger(row.productId.value) == Some(pr.productId)
      && ToNumber(row.quantity.value) == Num(pr.quantity as real)
      && pr.unitCost == CostOf(row.unitCost.value)
  {}

  /** The corrected check refuses every row whose quantity is not a positive number. */
  lemma CorrectedRefusesNonPositive(row: InboundCsvRow)
    requires TextGiven(row.supplierId) && TextGiven(row.productId) && TextGiven(row.quantity) && TextGiven(row.receivedDate)
    requires !(ToNumber(row.quantity.value).Num? && ToNumber(row.quantity.value).value > 0.0)
    ensures ParseRow(row, Corrected) == Err(InvalidInboundCsvRow)
  {}

  /** On rows with a positive quantity, or rows refused for a missing field, the two checks agree. */
  lemma ChecksAgreeOnPositive(row: InboundCsvRow)
    requires !(TextGiven(row.supplierId) && TextGiven(row.productId) && TextGiven(row.quantity) && TextGiven(row.receivedDate))
          || (ToNumber(row.quantity.value).Num? && ToNumber(row.quantity.value).value > 0.0)
    ensures ParseRow(row, AsWritten) == ParseRow(row, Corrected)
  {}

  /** The writes of a row with a non-negative quantity keep a consistent database consistent. */
  lemma CommitConsistent(db: Db, userId: int, pr: ParsedRow)
    requires Consistent(db) && pr.quantity >= 0
    requires Commit(db, userId, pr).Ok?
    ensures Consistent(Commit(db, userId, pr).value)
  {
    var header := AddReceipt(db, pr.supplierId, pr.referenceNo, pr.receivedDate, userId);
    var withItem := AddInboundItem(header, InboundItem(db.nextInboundId, pr.productId, pr.quantity, pr.unitCost));
    assert Consistent(withItem);
    MovementPreservesConsistent(withItem, pr.productId, pr.quantity, INBOUND, pr.unitCost);
  }

  /** Rows with non-negative quantities keep a consistent database consistent. */
  lemma {:induction false} CommitAllConsistent(db: Db, userId: int, prs: seq<ParsedRow>)
    requires Consistent(db)
    requires forall k | 0 <= k < |prs| :: prs[k].quantity >= 0
    requires CommitAll(db, userId, prs).Ok?
    ensures Consistent(CommitAll(db, userId, prs).value)
    decreases |prs|
  {
    if prs != [] {
      CommitConsistent(db, userId, prs[0]);
      assert forall k | 0 <= k < |prs[1..]| :: prs[1..][k] == prs[k + 1];
      CommitAllConsistent(Commit(db, userId, prs[0]).value, userId, prs[1..]);
    }
  }

  /** With the corrected check an upload, committed or rolled back, leaves a consistent database consistent. */
  lemma BulkInboundConsistent(db: Db, file: Option<seq<InboundCsvRow>>, userId: int)
    requires Consistent(db)
    ensures Consistent(BulkInboundSpec(db, file, userId, Corrected).after)
  {
    if file.Some? {
      var ps := Parses(file.value, Corrected);
      if ApplyParsed(db, userId, ps).Ok? {
        ApplyParsedAllOk(db, userId, ps);
        var prs := Values(ps);
        forall k | 0 <= k < |prs| ensures prs[k].quantity >= 0 {
          assert ps[k] == ParseRow(file.value[k], Corrected);
        }
        CommitAllConsistent(db, userId, prs);
      }
    }
  }

  /** A row with every column present whose texts read as the given numbers. */
  predicate ReadsAs(row: InboundCsvRow, supplierId: int, productId: int, quantity: real, unitCost: real) {
    && TextGiven(row.supplierId) && TextGiven(row.productId) && TextGiven(row.quantity)
    && TextGiven(row.receivedDate) && row.unitCost.Some?
    && PgInteger(row.supplierId.value) == Some(supplierId)
    && PgInteger(row.productId.value) == Some(productId)
    && ToNumber(row.quantity.value) == Num(quantity)
    && ToNumber(row.unitCost.value) == Num(unitCost)
  }

  /** As written, a row whose quantity reads as a negative whole number parses with that quantity. */
  lemma NegativeRowParses(row: InboundCsvRow, supplierId: int, productId: int, quantity: int, unitCost: real)
    requires ReadsAs(row, supplierId, productId, quantity as real, unitCost) && quantity < 0 && unitCost >= 0.0
    ensures ParseRow(row, AsWritten)
         == Ok(ParsedRow(supplierId, productId, quantity, Cost(unitCost), OrNull(row.referenceNo), row.receivedDate.value))
  {
    assert RowCheck(row, AsWritten) == Pass;
    WholeNumberColumn(quantity);
    ParseRowOfParts(row, AsWritten, supplierId, productId, quantity);
  }

  /** A row that passes the check and whose integer columns convert parses to those values. */
  lemma ParseRowOfParts(row: InboundCsvRow, v: Validation, supplierId: int, productId: int, quantity: int)
    requires RowCheck(row, v) == Pass
    requires PgInteger(row.supplierId.value) == Some(supplierId) && PgInteger(row.productId.value) == Some(productId)
    requires NumberColumn(ToNumber(row.quantity.value)) == Ok(quantity)
    ensures ParseRow(row, v)
         == Ok(ParsedRow(supplierId, productId, quantity, CostOf(row.unitCost.value), OrNull(row.referenceNo), row.receivedDate.value))
  {}

  /** A whole number is stored in an integer column as itself. */
  lemma WholeNumberColumn(k: int)
    ensures NumberColumn(Num(k as real)) == Ok(k)
  {
    assert (k as real).Floor == k;
  }

  /**
   * As written, a row bringing in a negative quantity larger than the product's
   * stock commits: the one-row file is accepted and leaves the stock negative,
   * so the database is no longer consistent. (For 3 units at 5.00 and the row
   * "-5" at unit cost 0, the engine computes -2 units at (15 + 0) / -2 = -7.50.)
   */
  lemma NegativeQuantityAsWritten(db: Db, userId: int, row: InboundCsvRow, supplierId: int, productId: int, quantity: int, unitCost: real)
    requires ReadsAs(row, supplierId, productId, quantity as real, unitCost) && unitCost >= 0.0
    requires Consistent(db) && productId in db.inventory && db.inventory[productId].quantity + quantity < 0
    ensures var t := BulkInboundSpec(db, Some([row]), userId, AsWritten);
      && t.reply == Ok(1)
      && productId in t.after.inventory
      && t.after.inventory[productId].quantity == db.inventory[productId].quantity + quantity < 0
      && !Consistent(t.after)
  {
    NegativeRowParses(row, supplierId, productId, quantity, unitCost);
    var pr := ParsedRow(supplierId, productId, quantity, Cost(unitCost), OrNull(row.referenceNo), row.receivedDate.value);
    SingleRowFile(db, userId, row, AsWritten);
    NegativeCommit(db, userId, pr);
  }

  /** A one-row file commits or fails as its row does. */
  lemma SingleRowFile(db: Db, userId: int, row: InboundCsvRow, v: Validation)
    ensures BulkInboundSpec(db, Some([row]), userId, v)
         == match ApplyParsed(db, userId, [ParseRow(row, v)])
            case Err(e) => Txn(Err(e), db)
            case Ok(d) => Txn(Ok(1), d)
  {
    assert Parses([row], v) == [ParseRow(row, v)];
  }

  /** The writes of a row taking out more than the stock holds commit and leave the stock negative. */
  lemma NegativeCommit(db: Db, userId: int, pr: ParsedRow)
    requires pr.productId in db.inventory && db.inventory[pr.productId].quantity + pr.quantity < 0
    requires CostUsable(pr.unitCost)
    ensures var r := ApplyParsed(db, userId, [Ok(pr)]);
      && r.Ok?
      && pr.productId in r.value.inventory
      && r.value.inventory[pr.productId].quantity == db.inventory[pr.productId].quantity + pr.quantity
      && !Consistent(r.value)
  {
    assert Commit(db, userId, pr).Ok?;
    CommitWrites(db, userId, pr);
    ApplyParsedSingle(db, userId, Ok(pr));
  }

  /** A one-row file is that row's step. */
  lemma ApplyParsedSingle(db: Db, userId: int, parsed: Result<ParsedRow>)
    ensures ApplyParsed(db, userId, [parsed]) == Step(db, userId, parsed)
  {
    assert [parsed][1..] == [];
  }

  /** The corrected check refuses every row with a quantity below one before anything is written. */
  lemma NegativeQuantityCorrected(db: Db, userId: int, row: InboundCsvRow, supplierId: int, productId: int, quantity: int, unitCost: real)
    requires ReadsAs(row, supplierId, productId, quantity as real, unitCost) && quantity <= 0
    ensures BulkInboundSpec(db, Some([row]), userId, Corrected) == Txn(Err(InvalidInboundCsvRow), db)
  {
    CorrectedRefusesNonPositive(row);
    SingleRowFile(db, userId, row, Corrected);
    ApplyParsedSingle(db, userId, Err(InvalidInboundCsvRow));
  }
}
