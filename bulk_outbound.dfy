/**
 * POST /api/bulk/outbound: a CSV file of dispatch rows recorded in one
 * transaction. Every row becomes its own dispatch header with one item; the
 * row is refused when its product has no stock record or too little stock,
 * and otherwise the movement engine takes its quantity out and the audit trail
 * records it with a negative sign. The first failing row rolls the whole file
 * back; on success the reply counts the rows. An empty file is refused before
 * the transaction starts.
 */
module BulkOutbound {
  import opened Common
  import opened Store
  import opened Text
  import opened InventoryService

  /** One CSV record; a column the file does not have is None. */
  datatype OutboundCsvRow = OutboundCsvRow(
    customerName: Option<string>,
    productId: Option<string>,
    quantity: Option<string>,
    soReference: Option<string>,
    dispatchDate: Option<string>)

  /** A column as the controller reads it: absent is the empty text, and spaces around it are dropped. */
  function Column(x: Option<string>): (s: string)
    ensures x.None? ==> s == ""
    ensures x.Some? ==> s == Trim(x.value)
  {
    Trim(x.GetOr(""))
  }

  /** Number(r.quantity): a missing column is undefined, which reads as NaN. */
  function QuantityOf(x: Option<string>): (n: JsNumber)
    ensures x.None? ==> n == NaN
    ensures x.Some? ==> n == ToNumber(x.value)
  {
    match x
    case None => NaN
    case Some(t) => ToNumber(t)
  }

  /** The row check: customer, product and date non-blank, quantity a positive number. */
  predicate RowValid(row: OutboundCsvRow) {
    && Column(row.customerName) != ""
    && Column(row.productId) != ""
    && Column(row.dispatchDate) != ""
    && QuantityOf(row.quantity).Num? && QuantityOf(row.quantity).value > 0.0
  }

  /** A row's values once checked, as the inserts and the stock lookup receive them. */
  datatype ParsedRow = ParsedRow(
    customerName: string,
    productId: int,
    quantity: real,
    whole: bool,
    units: int,
    soReference: Option<string>,
    dispatchDate: string)

  /**
   * The checks and conversions of one row that do not depend on the tables: the
   * controller's row check, then the product id, which PostgreSQL refuses when
   * the text is not an integer. A blank sales-order reference is stored as null.
   * The quantity is kept as read, together with whether the integer column of
   * the item will take it and the whole number it then holds.
   */
  function ParseRow(row: OutboundCsvRow): (r: Result<ParsedRow>)
    ensures r.Err? ==> r.error == InvalidOutboundCsvRow || r.error == InvalidIntegerSyntax
  {
    if !RowValid(row) then Err(InvalidOutboundCsvRow)
    else
      match PgInteger(Column(row.productId))
      case None => Err(InvalidIntegerSyntax)
      case Some(productId) => Ok(PartsOf(row, productId))
  }

  /**
   * A row parses exactly when it passes the check and its product id is an
   * integer; a row failing the check gets the check's error, one passing it
   * the cast's.
   */
  lemma ParseRowMeaning(row: OutboundCsvRow)
    ensures ParseRow(row).Ok? <==> RowValid(row) && PgInteger(Column(row.productId)).Some?
    ensures !RowValid(row) ==> ParseRow(row) == Err(InvalidOutboundCsvRow)
    ensures RowValid(row) && ParseRow(row).Err? ==> ParseRow(row).error == InvalidIntegerSyntax
    ensures ParseRow(row).Ok? ==> ParseRow(row).value == PartsOf(row, PgInteger(Column(row.productId)).value)
  {}

  /** The values of a row that passed the check, with its product id converted. */
  function PartsOf(row: OutboundCsvRow, productId: int): (pr: ParsedRow)
    requires RowValid(row)
    ensures pr.quantity > 0.0 && pr.customerName != "" && pr.dispatchDate != ""
    ensures pr.whole <==> IntColumn(pr.quantity).Ok?
    ensures pr.whole ==> IntColumn(pr.quantity).value == pr.units && pr.units > 0
  {
    var q := QuantityOf(row.quantity).value;
    var so := Column(row.soReference);
    ParsedRow(Column(row.customerName), productId, q, q == q.Floor as real, q.Floor,
              if so == "" then None else Some(so), Column(row.dispatchDate))
  }

  /**
   * The writes of one row: its dispatch header, then the stock lookup and the
   * rest of the row.
   */
  function Commit(db: Db, userId: int, pr: ParsedRow): (r: Result<Db>)
    ensures r.Err? ==> WithdrawError(r.error)
    ensures r.Ok? ==> r.value.products == db.products && r.value.inventory.Keys == db.inventory.Keys
  {
    Withdraw(AddOutboundRecord(db, pr.customerName, pr.soReference, pr.dispatchDate, userId), db.nextOutboundId, pr)
  }

  /** The errors the writes of one row can raise. */
  predicate WithdrawError(e: Error) {
    e in {InventoryRecordNotFound, InsufficientStock, InvalidIntegerSyntax}
  }

  /**
   * After the header: the stock lookup and the stock check, the item (whose
   * integer column refuses a fractional quantity), the OUTBOUND movement and
   * the audit entry. The catalogue is not touched and no stock record is
   * created.
   */
  function Withdraw(db: Db, outboundId: int, pr: ParsedRow): (r: Result<Db>)
    ensures r.Err? ==> WithdrawError(r.error)
    ensures r.Ok? ==> r.value.products == db.products && r.value.inventory.Keys == db.inventory.Keys
  {
    if pr.productId !in db.inventory then Err(InventoryRecordNotFound)
    else if (db.inventory[pr.productId].quantity as real) < pr.quantity then Err(InsufficientStock)
    else if !pr.whole then Err(InvalidIntegerSyntax)
    else
      var withItem := AddOutboundItem(db, OutboundItem(outboundId, pr.productId, pr.units));
      match ApplyMovement(withItem, pr.productId, pr.units, OUTBOUND, Undefined)
      case Err(e) => Err(e)
      case Ok(moved) => Ok(AddAudit(moved, AuditEntry(pr.productId, OutboundChange, -pr.units, outboundId)))
  }

  /** One row: the writes if it parsed, its error otherwise. */
  function Step(db: Db, userId: int, parsed: Result<ParsedRow>): (r: Result<Db>)
    ensures r.Err? ==> WithdrawError(r.error) || parsed == Err(r.error)
    ensures r.Ok? ==> r.value.products == db.products && r.value.inventory.Keys == db.inventory.Keys
  {
    match parsed
    case Err(e) => Err(e)
    case Ok(pr) => Commit(db, userId, pr)
  }

  /** Every row of the file, checked and converted. */
  function Parses(rows: seq<OutboundCsvRow>): (ps: seq<Result<ParsedRow>>)
    ensures |ps| == |rows|
  {
    seq(|rows|, k requires 0 <= k < |rows| => ParseRow(rows[k]))
  }

  /**
   * The rows in file order; the first error stops the loop, and it is either a
   * row's own parse error or one the writes raise. Every error rolls
   * the whole file back, so running a row's table-independent checks before its
   * header insert gives the same result as the controller's order.
   */
  function ApplyParsed(db: Db, userId: int, ps: seq<Result<ParsedRow>>): (r: Result<Db>)
    ensures r.Err? ==> WithdrawError(r.error) || Err(r.error) in ps
    ensures r.Ok? ==> r.value.products == db.products && r.value.inventory.Keys == db.inventory.Keys
    decreases |ps|
  {
    if ps == [] then Ok(db)
    else
      assert forall x | x in ps[1..] :: x in ps;
      match Step(db, userId, ps[0])
      case Err(e) => Err(e)
      case Ok(d) => ApplyParsed(d, userId, ps[1..])
  }

  /**
   * The whole upload; `file` is None when no file came with the request. On
   * success the reply is the number of rows processed; on any error the
   * database is as it was.
   */
  function BulkOutboundSpec(db: Db, file: Option<seq<OutboundCsvRow>>, userId: int): (t: Txn<nat>)
    ensures file.None? ==> t == Txn(Err(NoFileUploaded), db)
    ensures file == Some([]) ==> t == Txn(Err(CsvEmpty), db)
    ensures t.reply.Err? ==> t.after == db
    ensures t.reply.Ok? ==> file.Some? && t.reply.value == |file.value| > 0
  {
    match file
    case None => Txn(Err(NoFileUploaded), db)
    case Some(rows) =>
      if rows == [] then Txn(Err(CsvEmpty), db)
      else
        match ApplyParsed(db, userId, Parses(rows))
        case Err(e) => Txn(Err(e), db)
        case Ok(d) => Txn(Ok(|rows|), d)
  }

  /** bulkOutboundUpload: all rows in one transaction on the live tables, rolled back on the first error. */
  method BulkOutboundUpload(w: Warehouse, file: Option<seq<OutboundCsvRow>>, userId: int)
    returns (r: Result<nat>)
    modifies w
    ensures Txn(r, w.State()) == BulkOutboundSpec(old(w.State()), file, userId)
  {
    if file.None? {
      return Err(NoFileUploaded);
    }
    if file.value == [] {
      return Err(CsvEmpty);
    }
    var snapshot := w.State();
    var processed, o := UploadRows(w, file.value, userId);
    if o.Fail? {
      w.Restore(snapshot);
      return Err(o.error);
    }
    return Ok(processed);
  }

  /**
   * The loop over the rows, inside the transaction, counting the rows it has
   * processed; the first failure stops it.
   */
  method UploadRows(w: Warehouse, rows: seq<OutboundCsvRow>, userId: int) returns (processed: nat, o: Outcome)
    modifies w
    ensures o.Fail? ==> ApplyParsed(old(w.State()), userId, Parses(rows)) == Err(o.error)
    ensures o.Pass? ==> ApplyParsed(old(w.State()), userId, Parses(rows)) == Ok(w.State()) && processed == |rows|
  {
    ghost var ps := Parses(rows);
    ghost var start := w.State();
    processed := 0;
    while processed < |rows|
      invariant 0 <= processed <= |rows|
      invariant ApplyParsed(start, userId, ps) == ApplyParsed(w.State(), userId, ps[processed..])
    {
      ghost var before := w.State();
      o := UploadRow(w, userId, rows[processed], ps[processed]);
      if o.Fail? {
        ApplyParsedStops(start, before, userId, ps, processed, o.error);
        return;
      }
      ApplyParsedGoesOn(start, before, w.State(), userId, ps, processed);
      processed := processed + 1;
    }
    assert ps[processed..] == [];
    o := Pass;
  }

  /** A row that goes through hands the rest of the file the database it produced. */
  lemma ApplyParsedGoesOn(snapshot: Db, before: Db, after: Db, userId: int, ps: seq<Result<ParsedRow>>, i: int)
    requires 0 <= i < |ps|
    requires ApplyParsed(snapshot, userId, ps) == ApplyParsed(before, userId, ps[i..])
    requires Step(before, userId, ps[i]) == Ok(after)
    ensures ApplyParsed(snapshot, userId, ps) == ApplyParsed(after, userId, ps[i + 1..])
  {
    assert ps[i..][0] == ps[i] && ps[i..][1..] == ps[i + 1..];
  }

  /** A row that fails ends the file with its error. */
  lemma ApplyParsedStops(snapshot: Db, before: Db, userId: int, ps: seq<Result<ParsedRow>>, i: int, e: Error)
    requires 0 <= i < |ps|
    requires ApplyParsed(snapshot, userId, ps) == ApplyParsed(before, userId, ps[i..])
    requires Step(before, userId, ps[i]) == Err(e)
    ensures ApplyParsed(snapshot, userId, ps) == Err(e)
  {
    assert ps[i..][0] == ps[i];
  }

  /**
   * One iteration of the loop on the live tables, in the controller's order.
   * On failure the tables may hold a partly written row; the caller rolls them
   * back.
   */
  method UploadRow(w: Warehouse, userId: int, row: OutboundCsvRow, ghost parsed: Result<ParsedRow>)
    returns (o: Outcome)
    requires parsed == ParseRow(row)
    modifies w
    ensures o.Fail? ==> Step(old(w.State()), userId, parsed) == Err(o.error)
    ensures o.Pass? ==> Step(old(w.State()), userId, parsed) == Ok(w.State())
  {
    var customerName := Column(row.customerName);
    var productText := Column(row.productId);
    var quantity := QuantityOf(row.quantity);
    var so := Column(row.soReference);
    var soReference := if so == "" then None else Some(so);
    var dispatchDate := Column(row.dispatchDate);
    if customerName == "" || productText == "" || dispatchDate == "" || !quantity.Num? || quantity.value <= 0.0 {
      return Fail(InvalidOutboundCsvRow);
    }
    var outboundId := w.InsertOutboundRecord(customerName, soReference, dispatchDate, userId);
    var productId := PgInteger(productText);
    if productId.None? {
      return Fail(InvalidIntegerSyntax);
    }
    o := DispatchRow(w, outboundId, PartsOf(row, productId.value));
  }

  /** The rest of a row once its header is written: stock lookup and check, item, movement, audit entry. */
  method DispatchRow(w: Warehouse, outboundId: int, pr: ParsedRow) returns (o: Outcome)
    requires IntColumn(pr.quantity) == if pr.whole then Ok(pr.units) else Err(InvalidIntegerSyntax)
    modifies w
    ensures o.Fail? ==> Withdraw(old(w.State()), outboundId, pr) == Err(o.error)
    ensures o.Pass? ==> Withdraw(old(w.State()), outboundId, pr) == Ok(w.State())
  {
    if pr.productId !in w.inventory {
      return Fail(InventoryRecordNotFound);
    }
    if (w.inventory[pr.productId].quantity as real) < pr.quantity {
      return Fail(InsufficientStock);
    }
    var stored := IntColumn(pr.quantity);
    if stored.Err? {
      return Fail(stored.error);
    }
    var q := stored.value;
    w.InsertOutboundItem(OutboundItem(outboundId, pr.productId, q));
    // the stock check above already rules out the engine's own refusal
    var moved := ApplyInventoryMovement(w, pr.productId, q, OUTBOUND, Undefined);
    assert moved.Pass?;
    w.InsertAudit(AuditEntry(pr.productId, OutboundChange, -q, outboundId));
    o := Pass;
  }

  // ---------------------------------------------------------------------------
  // What a committed file contains
  // ---------------------------------------------------------------------------

  /** The writes of all rows, in file order, for rows that all parsed. */
  function CommitAll(db: Db, userId: int, prs: seq<ParsedRow>): Result<Db>
    decreases |prs|
  {
    if prs == [] then Ok(db)
    else
      match Commit(db, userId, prs[0])
      case Err(e) => Err(e)
      case Ok(d) => CommitAll(d, userId, prs[1..])
  }

  /** The dispatch headers: one per row, with consecutive ids from firstId. */
  function RecordRows(prs: seq<ParsedRow>, firstId: int, userId: int): seq<OutboundRecord>
    decreases |prs|
  {
    if prs == [] then []
    else [OutboundRecord(firstId, prs[0].customerName, prs[0].soReference, prs[0].dispatchDate, userId)]
         + RecordRows(prs[1..], firstId + 1, userId)
  }

  /** The items: row k's item belongs to dispatch firstId + k and carries the row's quantity. */
  function ItemRows(prs: seq<ParsedRow>, firstId: int): seq<OutboundItem>
    decreases |prs|
  {
    if prs == [] then []
    else [OutboundItem(firstId, prs[0].productId, prs[0].units)] + ItemRows(prs[1..], firstId + 1)
  }

  /** The audit entries: row k's -quantity entry refers to dispatch firstId + k. */
  function AuditRows(prs: seq<ParsedRow>, firstId: int): seq<AuditEntry>
    decreases |prs|
  {
    if prs == [] then []
    else [AuditEntry(prs[0].productId, OutboundChange, -prs[0].units, firstId)] + AuditRows(prs[1..], firstId + 1)
  }

  /** The total quantity the rows take out for one product. */
  function QtyFor(prs: seq<ParsedRow>, p: int): int
    decreases |prs|
  {
    if prs == [] then 0
    else (if prs[0].productId == p then prs[0].units else 0) + QtyFor(prs[1..], p)
  }

  /** Row k's header, item and audit entry all carry the id firstId + k. */
  lemma {:induction false} RowsShareOutboundIds(prs: seq<ParsedRow>, firstId: int, userId: int)
    ensures |RecordRows(prs, firstId, userId)| == |ItemRows(prs, firstId)| == |AuditRows(prs, firstId)| == |prs|
    ensures forall k | 0 <= k < |prs| ::
      && RecordRows(prs, firstId, userId)[k].outboundId == firstId + k
      && ItemRows(prs, firstId)[k].outboundId == firstId + k
      && AuditRows(prs, firstId)[k].referenceId == firstId + k
    decreases |prs|
  {
    if prs != [] {
      RowsShareOutboundIds(prs[1..], firstId + 1, userId);
    }
  }

  /** A file whose rows all go through has every row parsed, and its effect is the writes of those rows. */
  lemma {:induction false} ApplyParsedAllOk(db: Db, userId: int, ps: seq<Result<ParsedRow>>)
    requires ApplyParsed(db, userId, ps).Ok?
    ensures AllOk(ps)
    ensures ApplyParsed(db, userId, ps) == CommitAll(db, userId, Values(ps))
    decreases |ps|
  {
    if ps != [] {
      ApplyParsedAllOk(Step(db, userId, ps[0]).value, userId, ps[1..]);
      forall k | 0 <= k < |ps| ensures ps[k].Ok? {
        if k > 0 { assert ps[k] == ps[1..][k - 1]; }
      }
      assert Values(ps)[1..] == Values(ps[1..]);
    }
  }

  /** What the writes of one row change: a committed row's quantity is whole and at most the stock. */
  lemma CommitWrites(db: Db, userId: int, pr: ParsedRow)
    requires Commit(db, userId, pr).Ok?
    ensures var d, id, q := Commit(db, userId, pr).value, db.nextOutboundId, pr.units;
      && pr.productId in db.inventory
      && pr.whole
      && q <= db.inventory[pr.productId].quantity
      && d == db.(inventory := d.inventory,
                  outboundRecords := db.outboundRecords + [OutboundRecord(id, pr.customerName, pr.soReference, pr.dispatchDate, userId)],
                  nextOutboundId := id + 1,
                  outboundItems := db.outboundItems + [OutboundItem(id, pr.productId, q)],
                  audit := db.audit + [AuditEntry(pr.productId, OutboundChange, -q, id)])
      && d.inventory == db.inventory[pr.productId := StockRecord(db.inventory[pr.productId].quantity - q, db.inventory[pr.productId].avgCost)]
  {
    MovementNamesDiffer();
    var header := AddOutboundRecord(db, pr.customerName, pr.soReference, pr.dispatchDate, userId);
    assert header.inventory == db.inventory;
    var withItem := AddOutboundItem(header, OutboundItem(db.nextOutboundId, pr.productId, pr.units));
    assert withItem.inventory == db.inventory;
  }

  /** The documents one committed row appends: its header, its item and its audit entry. */
  lemma CommitDocuments(db: Db, userId: int, pr: ParsedRow)
    requires Commit(db, userId, pr).Ok?
    ensures var d, id := Commit(db, userId, pr).value, db.nextOutboundId;
      && d.outboundRecords == db.outboundRecords + [OutboundRecord(id, pr.customerName, pr.soReference, pr.dispatchDate, userId)]
      && d.nextOutboundId == id + 1
      && d.outboundItems == db.outboundItems + [OutboundItem(id, pr.productId, pr.units)]
      && d.audit == db.audit + [AuditEntry(pr.productId, OutboundChange, -pr.units, id)]
  {
    CommitWrites(db, userId, pr);
  }

  /** Besides stock, committed rows write only dispatch headers, their counter, items and audit entries. */
  lemma {:induction false} CommitAllFrame(db: Db, userId: int, prs: seq<ParsedRow>)
    requires CommitAll(db, userId, prs).Ok?
    ensures var d := CommitAll(db, userId, prs).value;
      d == db.(inventory := d.inventory, outboundRecords := d.outboundRecords, nextOutboundId := d.nextOutboundId,
               outboundItems := d.outboundItems, audit := d.audit)
    decreases |prs|
  {
    if prs != [] {
      CommitWrites(db, userId, prs[0]);
      CommitAllFrame(Commit(db, userId, prs[0]).value, userId, prs[1..]);
    }
  }

  /** Committed rows add one header each, in file order, and advance the dispatch counter by their count. */
  lemma {:induction false} CommitAllRecords(db: Db, userId: int, prs: seq<ParsedRow>)
    requires CommitAll(db, userId, prs).Ok?
    ensures var d := CommitAll(db, userId, prs).value;
      && d.outboundRecords == db.outboundRecords + RecordRows(prs, db.nextOutboundId, userId)
      && d.nextOutboundId == db.nextOutboundId + |prs|
    decreases |prs|
  {
    if prs != [] {
      CommitDocuments(db, userId, prs[0]);
      var d := Commit(db, userId, prs[0]).value;
      CommitAllRecords(d, userId, prs[1..]);
      assert CommitAll(db, userId, prs) == CommitAll(d, userId, prs[1..]);
      var head := OutboundRecord(db.nextOutboundId, prs[0].customerName, prs[0].soReference, prs[0].dispatchDate, userId);
      assert d.outboundRecords + RecordRows(prs[1..], d.nextOutboundId, userId)
          == db.outboundRecords + RecordRows(prs, db.nextOutboundId, userId);
    }
  }

  /** Committed rows append one item each, in file order, each in its row's dispatch. */
  lemma {:induction false} CommitAllItems(db: Db, userId: int, prs: seq<ParsedRow>)
    requires CommitAll(db, userId, prs).Ok?
    ensures CommitAll(db, userId, prs).value.outboundItems == db.outboundItems + ItemRows(prs, db.nextOutboundId)
    decreases |prs|
  {
    if prs != [] {
      CommitDocuments(db, userId, prs[0]);
      CommitAllItems(Commit(db, userId, prs[0]).value, userId, prs[1..]);
      var head := OutboundItem(db.nextOutboundId, prs[0].productId, prs[0].units);
      assert db.outboundItems + [head] + ItemRows(prs[1..], db.nextOutboundId + 1)
          == db.outboundItems + ItemRows(prs, db.nextOutboundId);
    }
  }

  /** Committed rows append one -quantity audit entry each, in file order. */
  lemma {:induction false} CommitAllAudit(db: Db, userId: int, prs: seq<ParsedRow>)
    requires CommitAll(db, userId, prs).Ok?
    ensures CommitAll(db, userId, prs).value.audit == db.audit + AuditRows(prs, db.nextOutboundId)
    decreases |prs|
  {
    if prs != [] {
      CommitDocuments(db, userId, prs[0]);
      CommitAllAudit(Commit(db, userId, prs[0]).value, userId, prs[1..]);
      var head := AuditEntry(prs[0].productId, OutboundChange, -prs[0].units, db.nextOutboundId);
      assert db.audit + [head] + AuditRows(prs[1..], db.nextOutboundId + 1)
          == db.audit + AuditRows(prs, db.nextOutboundId);
    }
  }

  /** Committed rows lower each product's stock by the quantities they take out, and keep its average cost. */
  lemma {:induction false} CommitAllQuantities(db: Db, userId: int, prs: seq<ParsedRow>)
    requires CommitAll(db, userId, prs).Ok?
    ensures var d := CommitAll(db, userId, prs).value;
      && d.inventory.Keys == db.inventory.Keys
      && forall p | p in db.inventory ::
           && d.inventory[p].quantity == db.inventory[p].quantity - QtyFor(prs, p)
           && d.inventory[p].avgCost == db.inventory[p].avgCost
    decreases |prs|
  {
    if prs != [] {
      CommitWrites(db, userId, prs[0]);
      CommitAllQuantities(Commit(db, userId, prs[0]).value, userId, prs[1..]);
    }
  }

  /**
   * A committed file: every row parses; one header, item and -quantity audit
   * entry per row, in file order and sharing the row's dispatch id; stock
   * lowered by the rows' quantities at unchanged average cost; products and
   * receipts untouched; the reply is the row count.
   */
  lemma BulkOutboundCommit(db: Db, rows: seq<OutboundCsvRow>, userId: int)
    requires BulkOutboundSpec(db, Some(rows), userId).reply.Ok?
    ensures AllOk(Parses(rows))
    ensures var t, prs := BulkOutboundSpec(db, Some(rows), userId), Values(Parses(rows));
      && t.reply.value == |rows| == |prs|
      && (forall k | 0 <= k < |rows| :: Parses(rows)[k] == Ok(prs[k]))
      && CommitAll(db, userId, prs) == Ok(t.after)
      && Committed(db, t.after, userId, prs)
  {
    var ps := Parses(rows);
    ApplyParsedAllOk(db, userId, ps);
    CommitAllEffects(db, userId, Values(ps));
  }

  /**
   * What committed rows leave behind: one header, item and -quantity audit
   * entry per row, in file order and sharing the row's dispatch id; stock
   * lowered by the rows' quantities at unchanged average cost; products and
   * receipts untouched.
   */
  predicate Committed(db: Db, d: Db, userId: int, prs: seq<ParsedRow>) {
    var id := db.nextOutboundId;
    && d.outboundRecords == db.outboundRecords + RecordRows(prs, id, userId)
    && d.nextOutboundId == id + |prs|
    && d.outboundItems == db.outboundItems + ItemRows(prs, id)
    && d.audit == db.audit + AuditRows(prs, id)
    && d.products == db.products && d.nextProductId == db.nextProductId
    && d.receipts == db.receipts && d.inboundItems == db.inboundItems && d.nextInboundId == db.nextInboundId
    && d.inventory.Keys == db.inventory.Keys
    && forall p | p in db.inventory ::
         && d.inventory[p].quantity == db.inventory[p].quantity - QtyFor(prs, p)
         && d.inventory[p].avgCost == db.inventory[p].avgCost
  }

  /** Rows that commit leave exactly what `Committed` describes. */
  lemma CommitAllEffects(db: Db, userId: int, prs: seq<ParsedRow>)
    requires CommitAll(db, userId, prs).Ok?
    ensures Committed(db, CommitAll(db, userId, prs).value, userId, prs)
  {
    CommitAllFrame(db, userId, prs);
    CommitAllRecords(db, userId, prs);
    CommitAllItems(db, userId, prs);
    CommitAllAudit(db, userId, prs);
    CommitAllQuantities(db, userId, prs);
  }

  // ---------------------------------------------------------------------------
  // The invariant
  // ---------------------------------------------------------------------------

  /** The writes of one row keep a consistent database consistent: stock never goes below zero. */
  lemma CommitConsistent(db: Db, userId: int, pr: ParsedRow)
    requires Consistent(db)
    requires Commit(db, userId, pr).Ok?
    ensures Consistent(Commit(db, userId, pr).value)
  {
    CommitWrites(db, userId, pr);
    var d := Commit(db, userId, pr).value;
    assert forall i | 0 <= i < |d.outboundItems| :: d.outboundItems[i].productId in d.products by {
      forall i | 0 <= i < |d.outboundItems| ensures d.outboundItems[i].productId in d.products {
        if i < |db.outboundItems| { assert d.outboundItems[i] == db.outboundItems[i]; }
      }
    }
    assert forall i | 0 <= i < |d.audit| :: d.audit[i].productId in d.products by {
      forall i | 0 <= i < |d.audit| ensures d.audit[i].productId in d.products {
        if i < |db.audit| { assert d.audit[i] == db.audit[i]; }
      }
    }
  }

  /** Committed rows keep a consistent database consistent. */
  lemma {:induction false} CommitAllConsistent(db: Db, userId: int, prs: seq<ParsedRow>)
    requires Consistent(db)
    requires CommitAll(db, userId, prs).Ok?
    ensures Consistent(CommitAll(db, userId, prs).value)
    decreases |prs|
  {
    if prs != [] {
      CommitConsistent(db, userId, prs[0]);
      CommitAllConsistent(Commit(db, userId, prs[0]).value, userId, prs[1..]);
    }
  }

  /** An upload, committed or rolled back, leaves a consistent database consistent. */
  lemma BulkOutboundConsistent(db: Db, file: Option<seq<OutboundCsvRow>>, userId: int)
    requires Consistent(db)
    ensures Consistent(BulkOutboundSpec(db, file, userId).after)
  {
    if file.Some? && file.value != [] {
      var ps := Parses(file.value);
      if ApplyParsed(db, userId, ps).Ok? {
        ApplyParsedAllOk(db, userId, ps);
        CommitAllConsistent(db, userId, Values(ps));
      }
    }
  }

  // ---------------------------------------------------------------------------
  // Rows that are refused
  // ---------------------------------------------------------------------------

  /** A one-row file commits or fails as its row does. */
  lemma SingleRowFile(db: Db, userId: int, row: OutboundCsvRow)
    ensures BulkOutboundSpec(db, Some([row]), userId)
         == match ApplyParsed(db, userId, [ParseRow(row)])
            case Err(e) => Txn(Err(e), db)
            case Ok(d) => Txn(Ok(1), d)
  {
    assert Parses([row]) == [ParseRow(row)];
  }

  /** A one-row file is that row's step. */
  lemma ApplyParsedSingle(db: Db, userId: int, parsed: Result<ParsedRow>)
    ensures ApplyParsed(db, userId, [parsed]) == Step(db, userId, parsed)
  {
    assert [parsed][1..] == [];
  }

  /**
   * A row asking for more than the product's stock is refused, and the file
   * with it leaves the database as it was.
   */
  lemma ShortStockRefused(db: Db, userId: int, row: OutboundCsvRow)
    requires ParseRow(row).Ok?
    requires var pr := ParseRow(row).value;
      pr.productId in db.inventory && (db.inventory[pr.productId].quantity as real) < pr.quantity
    ensures BulkOutboundSpec(db, Some([row]), userId) == Txn(Err(InsufficientStock), db)
  {
    SingleRowFile(db, userId, row);
    ApplyParsedSingle(db, userId, ParseRow(row));
  }

  /**
   * A parsed row is refused with "Inventory record not found" exactly when its
   * product has no stock record, and a file of that one row fails with that
   * error and leaves the database as it was.
   */
  lemma MissingRecordRefused(db: Db, userId: int, row: OutboundCsvRow)
    requires ParseRow(row).Ok?
    ensures var pr := ParseRow(row).value;
      Step(db, userId, ParseRow(row)) == Err(InventoryRecordNotFound) <==> pr.productId !in db.inventory
    ensures ParseRow(row).value.productId !in db.inventory ==>
      BulkOutboundSpec(db, Some([row]), userId) == Txn(Err(InventoryRecordNotFound), db)
  {
    var pr := ParseRow(row).value;
    var header := AddOutboundRecord(db, pr.customerName, pr.soReference, pr.dispatchDate, userId);
    assert header.inventory == db.inventory;
    if pr.productId in db.inventory && (db.inventory[pr.productId].quantity as real) >= pr.quantity && pr.whole {
      var withItem := AddOutboundItem(header, OutboundItem(db.nextOutboundId, pr.productId, pr.units));
      assert withItem.inventory == db.inventory;
      assert ApplyMovement(withItem, pr.productId, pr.units, OUTBOUND, Undefined).Ok?;
    }
    SingleRowFile(db, userId, row);
    ApplyParsedSingle(db, userId, ParseRow(row));
  }

  /**
   * The rows are checked against the stock in turn, each seeing what the
   * earlier ones left, so together the rows of a committed file take out no
   * more of a product than its stock held.
   */
  lemma {:induction false} CommittedRowsFitStock(db: Db, userId: int, prs: seq<ParsedRow>, p: int)
    requires CommitAll(db, userId, prs).Ok? && p in db.inventory && db.inventory[p].quantity >= 0
    ensures QtyFor(prs, p) <= db.inventory[p].quantity
    decreases |prs|
  {
    if prs != [] {
      CommitWrites(db, userId, prs[0]);
      CommittedRowsFitStock(Commit(db, userId, prs[0]).value, userId, prs[1..], p);
    }
  }
}
