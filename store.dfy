/**
 * The warehouse database: products, one stock record per product, inbound
 * receipts and their items, outbound records and their items, and the
 * inventory audit log. `Db` is the state as a value; `Warehouse` holds the same
 * tables as fields that the workflows update in place.
 */
module Store {
  import opened Common

  // ---------------------------------------------------------------------------
  // Rows
  // ---------------------------------------------------------------------------

  datatype Status = Active | Archived

  /** A row of `products`; nullable columns are options. */
  datatype Product = Product(
    sku: string,
    name: Option<string>,
    category: Option<string>,
    description: Option<string>,
    tags: seq<string>,
    lowStockThreshold: Option<int>,
    status: Status)

  /** A row of `inventory`: the stock of one product and its weighted average unit cost. */
  datatype StockRecord = StockRecord(quantity: int, avgCost: real)

  /**
   * A unit cost as it reaches the backend: a JSON field may be absent or null,
   * and Number() of CSV text may be NaN.
   */
  datatype CostValue = Undefined | Null | Cost(amount: real) | NotANumber

  datatype InboundReceipt = InboundReceipt(
    inboundId: int, supplierId: int, referenceNo: Option<string>, receivedDate: string, createdBy: int)

  datatype InboundItem = InboundItem(inboundId: int, productId: int, quantity: int, unitCost: CostValue)

  datatype OutboundRecord = OutboundRecord(
    outboundId: int, customerName: string, soReference: Option<string>, dispatchDate: string, createdBy: int)

  datatype OutboundItem = OutboundItem(outboundId: int, productId: int, quantity: int)

  datatype ChangeType = InboundChange | OutboundChange

  /** A row of `inventory_audit`: a signed quantity change and the id of the document behind it. */
  datatype AuditEntry = AuditEntry(productId: int, changeType: ChangeType, quantityChange: int, referenceId: int)

  /**
   * The whole database. Tables keyed by product id are maps; the document and
   * audit tables are sequences in insertion order. The three counters are the
   * serial sequences that hand out product, inbound and outbound ids.
   */
  datatype Db = Db(
    products: map<int, Product>,
    inventory: map<int, StockRecord>,
    receipts: seq<InboundReceipt>,
    inboundItems: seq<InboundItem>,
    outboundRecords: seq<OutboundRecord>,
    outboundItems: seq<OutboundItem>,
    audit: seq<AuditEntry>,
    nextProductId: int,
    nextInboundId: int,
    nextOutboundId: int)

  const EmptyDb := Db(map[], map[], [], [], [], [], [], 1, 1, 1)

  /** The reply of a request together with the database state it leaves behind. */
  datatype Txn<+T> = Txn(reply: Result<T>, after: Db)

  /** The value of a stock record: quantity times average cost. */
  function Value(r: StockRecord): real {
    r.quantity as real * r.avgCost
  }

  // ---------------------------------------------------------------------------
  // The invariant every committed state keeps
  // ---------------------------------------------------------------------------

  predicate UniqueSkus(products: map<int, Product>) {
    forall p, q | p in products && q in products && p != q :: products[p].sku != products[q].sku
  }

  /**
   * Every product has exactly one stock record; stock and average cost are never
   * negative; ids lie below the counters that issued them; every document item
   * and audit entry names an issued document and an existing product; SKUs are
   * unique.
   */
  predicate Consistent(db: Db) {
    && db.inventory.Keys == db.products.Keys
    && (forall p | p in db.inventory :: db.inventory[p].quantity >= 0 && db.inventory[p].avgCost >= 0.0)
    && (forall p | p in db.products :: 1 <= p < db.nextProductId)
    && UniqueSkus(db.products)
    && (forall i | 0 <= i < |db.receipts| :: 1 <= db.receipts[i].inboundId < db.nextInboundId)
    && (forall i | 0 <= i < |db.inboundItems| ::
          1 <= db.inboundItems[i].inboundId < db.nextInboundId && db.inboundItems[i].productId in db.products)
    && (forall i | 0 <= i < |db.outboundRecords| :: 1 <= db.outboundRecords[i].outboundId < db.nextOutboundId)
    && (forall i | 0 <= i < |db.outboundItems| ::
          1 <= db.outboundItems[i].outboundId < db.nextOutboundId && db.outboundItems[i].productId in db.products)
    && (forall i | 0 <= i < |db.audit| :: db.audit[i].productId in db.products)
    && 1 <= db.nextProductId && 1 <= db.nextInboundId && 1 <= db.nextOutboundId
  }

  // ---------------------------------------------------------------------------
  // Single-row writes, as values
  // ---------------------------------------------------------------------------

  /** INSERT INTO inbound_receipts ... RETURNING inbound_id: the row gets the next serial id. */
  function AddReceipt(db: Db, supplierId: int, referenceNo: Option<string>, receivedDate: string, createdBy: int): Db {
    db.(receipts := db.receipts + [InboundReceipt(db.nextInboundId, supplierId, referenceNo, receivedDate, createdBy)],
        nextInboundId := db.nextInboundId + 1)
  }

  function AddInboundItem(db: Db, item: InboundItem): Db {
    db.(inboundItems := db.inboundItems + [item])
  }

  /** INSERT INTO outbound_records ... RETURNING outbound_id. */
  function AddOutboundRecord(db: Db, customerName: string, soReference: Option<string>, dispatchDate: string, createdBy: int): Db {
    db.(outboundRecords := db.outboundRecords + [OutboundRecord(db.nextOutboundId, customerName, soReference, dispatchDate, createdBy)],
        nextOutboundId := db.nextOutboundId + 1)
  }

  function AddOutboundItem(db: Db, item: OutboundItem): Db {
    db.(outboundItems := db.outboundItems + [item])
  }

  function AddAudit(db: Db, entry: AuditEntry): Db {
    db.(audit := db.audit + [entry])
  }

  /** INSERT INTO products ... RETURNING product_id. */
  function AddProduct(db: Db, p: Product): Db {
    db.(products := db.products[db.nextProductId := p], nextProductId := db.nextProductId + 1)
  }

  /** INSERT INTO inventory (product_id, quantity) VALUES (id, 0); the average cost starts at 0. */
  function AddStock(db: Db, productId: int): Db {
    db.(inventory := db.inventory[productId := StockRecord(0, 0.0)])
  }

  function SetProduct(db: Db, productId: int, p: Product): Db {
    db.(products := db.products[productId := p])
  }

  function SetStock(db: Db, productId: int, r: StockRecord): Db {
    db.(inventory := db.inventory[productId := r])
  }

  // ---------------------------------------------------------------------------
  // What the database itself refuses
  // ---------------------------------------------------------------------------

  /**
   * Storing a JavaScript number in an integer column: node-postgres sends its
   * decimal text, which PostgreSQL refuses unless it is a whole number.
   */
  function IntColumn(x: real): (r: Result<int>)
    ensures r.Ok? <==> x == x.Floor as real
    ensures r.Ok? ==> r.value as real == x
    ensures r.Err? ==> r.error == InvalidIntegerSyntax
  {
    if x == x.Floor as real then Ok(x.Floor) else Err(InvalidIntegerSyntax)
  }

  /** Some product, active or archived, already has this SKU. */
  predicate SkuTaken(products: map<int, Product>, sku: string) {
    exists p | p in products :: products[p].sku == sku
  }

  // ---------------------------------------------------------------------------
  // The tables as mutable fields
  // ---------------------------------------------------------------------------

  class Warehouse {
    var products: map<int, Product>
    var inventory: map<int, StockRecord>
    var receipts: seq<InboundReceipt>
    var inboundItems: seq<InboundItem>
    var outboundRecords: seq<OutboundRecord>
    var outboundItems: seq<OutboundItem>
    var audit: seq<AuditEntry>
    var nextProductId: int
    var nextInboundId: int
    var nextOutboundId: int

    /** The current contents of every table. */
    function State(): Db
      reads this
    {
      Db(products, inventory, receipts, inboundItems, outboundRecords, outboundItems, audit,
         nextProductId, nextInboundId, nextOutboundId)
    }

    /** An empty database; every serial starts at 1. */
    constructor ()
      ensures State() == EmptyDb && Consistent(State())
    {
      products, inventory := map[], map[];
      receipts, inboundItems := [], [];
      outboundRecords, outboundItems := [], [];
      audit := [];
      nextProductId, nextInboundId, nextOutboundId := 1, 1, 1;
    }

    /** ROLLBACK: every table returns to the snapshot taken at BEGIN. */
    method Restore(s: Db)
      modifies this
      ensures State() == s
    {
      products, inventory := s.products, s.inventory;
      receipts, inboundItems := s.receipts, s.inboundItems;
      outboundRecords, outboundItems := s.outboundRecords, s.outboundItems;
      audit := s.audit;
      nextProductId, nextInboundId, nextOutboundId := s.nextProductId, s.nextInboundId, s.nextOutboundId;
    }

    method InsertReceipt(supplierId: int, referenceNo: Option<string>, receivedDate: string, createdBy: int)
      returns (inboundId: int)
      modifies this
      ensures inboundId == old(nextInboundId)
      ensures State() == AddReceipt(old(State()), supplierId, referenceNo, receivedDate, createdBy)
    {
      inboundId := nextInboundId;
      receipts := receipts + [InboundReceipt(inboundId, supplierId, referenceNo, receivedDate, createdBy)];
      nextInboundId := nextInboundId + 1;
    }

    method InsertInboundItem(item: InboundItem)
      modifies this
      ensures State() == AddInboundItem(old(State()), item)
    {
      inboundItems := inboundItems + [item];
    }

    method InsertOutboundRecord(customerName: string, soReference: Option<string>, dispatchDate: string, createdBy: int)
      returns (outboundId: int)
      modifies this
      ensures outboundId == old(nextOutboundId)
      ensures State() == AddOutboundRecord(old(State()), customerName, soReference, dispatchDate, createdBy)
    {
      outboundId := nextOutboundId;
      outboundRecords := outboundRecords + [OutboundRecord(outboundId, customerName, soReference, dispatchDate, createdBy)];
      nextOutboundId := nextOutboundId + 1;
    }

    method InsertOutboundItem(item: OutboundItem)
      modifies this
      ensures State() == AddOutboundItem(old(State()), item)
    {
      outboundItems := outboundItems + [item];
    }

    method InsertAudit(entry: AuditEntry)
      modifies this
      ensures State() == AddAudit(old(State()), entry)
    {
      audit := audit + [entry];
    }

    method InsertProduct(p: Product) returns (productId: int)
      modifies this
      ensures productId == old(nextProductId)
      ensures State() == AddProduct(old(State()), p)
    {
      productId := nextProductId;
      products := products[productId := p];
      nextProductId := nextProductId + 1;
    }

    method InsertStock(productId: int)
      modifies this
      ensures State() == AddStock(old(State()), productId)
    {
      inventory := inventory[productId := StockRecord(0, 0.0)];
    }

    method UpdateProduct(productId: int, p: Product)
      modifies this
      ensures State() == SetProduct(old(State()), productId, p)
    {
      products := products[productId := p];
    }

    method UpdateStock(productId: int, r: StockRecord)
      modifies this
      ensures State() == SetStock(old(State()), productId, r)
    {
      inventory := inventory[productId := r];
    }
  }
}
