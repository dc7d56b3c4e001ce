/**
 * POST /api/bulk/inventory: a catalogue file (CSV or XLSX) imported in one
 * transaction. Each record is matched on its SKU, whatever the product's
 * status: an active product with that SKU stops the import, an archived one is
 * rewritten from the record and made active again (its stock is left as it
 * is), and a SKU nobody has yet becomes a new active product with an empty
 * stock record. The first failing record rolls the whole file back.
 */
module BulkInventory {
  import opened Common
  import opened Store
  import opened Text
  import opened Products

  // ---------------------------------------------------------------------------
  // Choosing the parser
  // ---------------------------------------------------------------------------

  datatype FileFormat = Csv | Xlsx

  const CSV_TYPE := "text/csv"
  const EXCEL_TYPE := "application/vnd.ms-excel"
  const XLSX_TYPE := "application/vnd.openxmlformats-officedocument.spreadsheetml.sheet"

  /**
   * The parser for an upload: CSV when the declared type says so or when the
   * file name ends in ".csv" (browsers on Windows often declare CSV files as
   * Excel), XLSX only by its declared type, anything else refused.
   */
  function ParseFile(mimetype: string, originalName: string): (r: Result<FileFormat>)
    ensures EndsWith(originalName, ".csv") ==> r == Ok(Csv)
    ensures mimetype == CSV_TYPE || mimetype == EXCEL_TYPE ==> r == Ok(Csv)
    ensures r == Ok(Xlsx) <==> mimetype == XLSX_TYPE && !EndsWith(originalName, ".csv")
    ensures r.Err? <==> mimetype !in {CSV_TYPE, EXCEL_TYPE, XLSX_TYPE} && !EndsWith(originalName, ".csv")
    ensures r.Err? ==> r.error == UnsupportedFileType
  {
    assert |XLSX_TYPE| != |CSV_TYPE| && |XLSX_TYPE| != |EXCEL_TYPE|;
    if mimetype == CSV_TYPE || mimetype == EXCEL_TYPE || EndsWith(originalName, ".csv") then Ok(Csv)
    else if mimetype == XLSX_TYPE then Ok(Xlsx)
    else Err(UnsupportedFileType)
  }

  // ---------------------------------------------------------------------------
  // Records
  // ---------------------------------------------------------------------------

  /** One record as the parser yields it; a column the file does not have is None. */
  datatype ImportRecord = ImportRecord(
    sku: string,
    name: Option<string>,
    category: Option<string>,
    description: Option<string>,
    tags: Option<string>,
    lowStockThreshold: Option<string>)

  /** The upload: its declared type, the client's file name and the records its parser reads. */
  datatype UploadedFile = UploadedFile(mimetype: string, originalName: string, records: seq<ImportRecord>)

  /** `r.tags ? r.tags.split("|") : []`: the pieces join back to the cell text. */
  function TagsOf(x: Option<string>): (tags: seq<string>)
    ensures !TextGiven(x) ==> tags == []
    ensures TextGiven(x) ==> |tags| >= 1 && Join(tags, '|') == x.value
    ensures forall i | 0 <= i < |tags| :: '|' !in tags[i]
  {
    if TextGiven(x) then
      JoinSplit(x.value, '|');
      Split(x.value, '|')
    else []
  }

  /**
   * The threshold text as the integer column reads it: an absent column is
   * NULL, anything else must be integer text (an empty CSV cell is not).
   */
  function ThresholdOf(x: Option<string>): (r: Result<Option<int>>)
    ensures x.None? ==> r == Ok(None)
    ensures x.Some? ==> (r.Ok? <==> PgInteger(x.value).Some?)
    ensures x.Some? && r.Ok? ==> r.value == PgInteger(x.value)
    ensures r.Err? ==> r.error == InvalidIntegerSyntax
  {
    match x
    case None => Ok(None)
    case Some(t) =>
      match PgInteger(t)
      case None => Err(InvalidIntegerSyntax)
      case Some(n) => Ok(Some(n))
  }

  /** A threshold written as decimal digits is stored as that number. */
  lemma ThresholdOfDigits(n: nat)
    ensures ThresholdOf(Some(NatText(n))) == Ok(Some(n))
  {
    PgIntegerOfNatText(n);
  }

  /** An empty threshold cell is not NULL to the integer column: the record is refused. */
  lemma BlankThresholdRefused()
    ensures ThresholdOf(Some("")) == Err(InvalidIntegerSyntax)
  {
    assert TrimBy("", IsPgSpace) == "";
  }

  /** A record's values as the statements receive them; the threshold may be one the column refuses. */
  datatype ParsedRecord = ParsedRecord(
    sku: string,
    name: Option<string>,
    category: Option<string>,
    description: Option<string>,
    tags: seq<string>,
    threshold: Result<Option<int>>)

  function ParseRecord(r: ImportRecord): ParsedRecord {
    ParsedRecord(r.sku, r.name, r.category, r.description, TagsOf(r.tags), ThresholdOf(r.lowStockThreshold))
  }

  function Parses(records: seq<ImportRecord>): (prs: seq<ParsedRecord>)
    ensures |prs| == |records|
  {
    seq(|records|, k requires 0 <= k < |records| => ParseRecord(records[k]))
  }

  /** The product row a record writes, by INSERT or by the reactivating UPDATE. */
  function Imported(pr: ParsedRecord): Product
    requires pr.threshold.Ok?
  {
    Product(pr.sku, pr.name, pr.category, pr.description, pr.tags, pr.threshold.value, Active)
  }

  // ---------------------------------------------------------------------------
  // The import as a function of the database
  // ---------------------------------------------------------------------------

  /** The errors one record can raise: its SKU is taken by an active product, or its threshold does not cast. */
  predicate StepError(pr: ParsedRecord, e: Error) {
    e == SkuAlreadyExists(pr.sku) || pr.threshold == Err(e)
  }

  /**
   * One record: refuse an active SKU, reactivate an archived one, insert a new
   * one. No stock record is ever removed.
   */
  function Step(db: Db, pr: ParsedRecord): (r: Result<Db>)
    ensures r.Err? ==> StepError(pr, r.error)
    ensures r.Ok? ==> db.inventory.Keys <= r.value.inventory.Keys && db.products.Keys <= r.value.products.Keys
  {
    match SkuOwner(db.products, pr.sku)
    case Some(id) =>
      if db.products[id].status == Active then Err(SkuAlreadyExists(pr.sku))
      else if pr.threshold.Err? then Err(pr.threshold.error)
      else Ok(SetProduct(db, id, Imported(pr)))
    case None =>
      if pr.threshold.Err? then Err(pr.threshold.error)
      else Ok(AddStock(AddProduct(db, Imported(pr)), db.nextProductId))
  }

  /** The records in file order; the first error, one of a record's own, stops the import. */
  function Apply(db: Db, prs: seq<ParsedRecord>): (r: Result<Db>)
    ensures r.Err? ==> exists k | 0 <= k < |prs| :: StepError(prs[k], r.error)
    ensures r.Ok? ==> db.inventory.Keys <= r.value.inventory.Keys && db.products.Keys <= r.value.products.Keys
    decreases |prs|
  {
    if prs == [] then Ok(db)
    else
      match Step(db, prs[0])
      case Err(e) => assert StepError(prs[0], e); Err(e)
      case Ok(d) =>
        var r := Apply(d, prs[1..]);
        assert r.Err? ==> exists k | 0 <= k < |prs| :: StepError(prs[k], r.error) by {
          if r.Err? {
            var k :| 0 <= k < |prs[1..]| && StepError(prs[1..][k], r.error);
            assert prs[1..][k] == prs[k + 1];
          }
        }
        r
  }

  /**
   * The whole request; `file` is None when no file came with it. The parser is
   * chosen before the transaction starts; any error leaves the database as it
   * was.
   */
  function BulkUploadSpec(db: Db, file: Option<UploadedFile>): (t: Txn<()>)
    ensures file.None? ==> t == Txn(Err(FileRequired), db)
    ensures file.Some? && ParseFile(file.value.mimetype, file.value.originalName).Err? ==>
              t == Txn(Err(UnsupportedFileType), db)
    ensures t.reply.Err? ==> t.after == db
    ensures t.reply.Ok? <==> file.Some? && ParseFile(file.value.mimetype, file.value.originalName).Ok?
                              && Apply(db, Parses(file.value.records)).Ok?
    ensures t.reply.Ok? ==> Apply(db, Parses(file.value.records)) == Ok(t.after)
  {
    match file
    case None => Txn(Err(FileRequired), db)
    case Some(f) =>
      match ParseFile(f.mimetype, f.originalName)
      case Err(e) => Txn(Err(e), db)
      case Ok(_) =>
        match Apply(db, Parses(f.records))
        case Err(e) => Txn(Err(e), db)
        case Ok(d) => Txn(Ok(()), d)
  }

  // ---------------------------------------------------------------------------
  // The import on the live tables
  // ---------------------------------------------------------------------------

  /** The handler: the file check, the parser choice, then the records inside BEGIN ... COMMIT/ROLLBACK. */
  method BulkUploadInventory(w: Warehouse, file: Option<UploadedFile>) returns (r: Result<()>)
    modifies w
    ensures Txn(r, w.State()) == BulkUploadSpec(old(w.State()), file)
  {
    if file.None? {
      return Err(FileRequired);
    }
    var format := ParseFile(file.value.mimetype, file.value.originalName);
    if format.Err? {
      // thrown before BEGIN: the ROLLBACK in the handler has nothing to undo
      return Err(format.error);
    }
    var snapshot := w.State();
    var o := UpsertRecords(w, file.value.records);
    if o.Fail? {
      w.Restore(snapshot);
      return Err(o.error);
    }
    return Ok(());
  }

  /** The loop over the records inside the transaction; the first failure stops it. */
  method UpsertRecords(w: Warehouse, records: seq<ImportRecord>) returns (o: Outcome)
    modifies w
    ensures o.Fail? ==> Apply(old(w.State()), Parses(records)) == Err(o.error)
    ensures o.Pass? ==> Apply(old(w.State()), Parses(records)) == Ok(w.State())
  {
    ghost var prs := Parses(records);
    ghost var start := w.State();
    var i := 0;
    while i < |records|
      invariant 0 <= i <= |records|
      invariant Apply(start, prs) == Apply(w.State(), prs[i..])
    {
      ghost var before := w.State();
      o := UpsertRecord(w, records[i], prs[i]);
      if o.Fail? {
        assert prs[i..][0] == prs[i];
        return;
      }
      assert prs[i..][0] == prs[i] && prs[i..][1..] == prs[i + 1..];
      i := i + 1;
    }
    assert prs[i..] == [];
    o := Pass;
  }

  /** One record: the SKU lookup, then the UPDATE or the two INSERTs. */
  method UpsertRecord(w: Warehouse, r: ImportRecord, ghost pr: ParsedRecord) returns (o: Outcome)
    requires pr == ParseRecord(r)
    modifies w
    ensures o.Fail? ==> Step(old(w.State()), pr) == Err(o.error)
    ensures o.Pass? ==> Step(old(w.State()), pr) == Ok(w.State())
  {
    var tags := TagsOf(r.tags);
    var existing := SkuOwner(w.products, r.sku);
    if existing.Some? {
      var productId := existing.value;
      if w.products[productId].status == Active {
        return Fail(SkuAlreadyExists(r.sku));
      }
      var threshold := ThresholdOf(r.lowStockThreshold);
      if threshold.Err? {
        return Fail(threshold.error);
      }
      var p := w.products[productId];
      w.UpdateProduct(productId, p.(name := r.name, category := r.category, description := r.description,
                                    tags := tags, lowStockThreshold := threshold.value, status := Active));
      return Pass;
    }
    var threshold := ThresholdOf(r.lowStockThreshold);
    if threshold.Err? {
      return Fail(threshold.error);
    }
    var productId := w.InsertProduct(Product(r.sku, r.name, r.category, r.description, tags, threshold.value, Active));
    w.InsertStock(productId);
    return Pass;
  }

  // ---------------------------------------------------------------------------
  // What one record does
  // ---------------------------------------------------------------------------

  /** Some active product has SKU s. */
  predicate ActiveSku(products: map<int, Product>, s: string) {
    exists p | p in products :: products[p].sku == s && products[p].status == Active
  }

  /** No record of the file has SKU s. */
  predicate Unlisted(prs: seq<ParsedRecord>, s: string) {
    forall k | 0 <= k < |prs| :: prs[k].sku != s
  }

  /** A SKU an active product has stops the import, naming the SKU. */
  lemma ActiveSkuRefused(db: Db, pr: ParsedRecord, productId: int)
    requires UniqueSkus(db.products) && productId in db.products && db.products[productId].sku == pr.sku
    requires db.products[productId].status == Active
    ensures Step(db, pr) == Err(SkuAlreadyExists(pr.sku))
  {
    SkuOwnerUnique(db.products, pr.sku, productId);
  }

  /**
   * An archived product with the record's SKU keeps its id and SKU, takes the
   * record's other fields and is active again; its stock record and every other
   * table are left alone.
   */
  lemma ArchivedSkuReactivated(db: Db, pr: ParsedRecord, productId: int)
    requires UniqueSkus(db.products) && productId in db.products && db.products[productId].sku == pr.sku
    requires db.products[productId].status == Archived && pr.threshold.Ok?
    ensures Step(db, pr) == Ok(db.(products := db.products[productId := Imported(pr)]))
    ensures Imported(pr).status == Active && Imported(pr).sku == db.products[productId].sku
  {
    SkuOwnerUnique(db.products, pr.sku, productId);
  }

  /** A SKU no product has yet is created exactly as createProduct creates it, tags given. */
  lemma NewSkuCreated(db: Db, pr: ParsedRecord)
    requires !SkuTaken(db.products, pr.sku) && pr.threshold.Ok?
    ensures var req := NewProduct(pr.sku, pr.name, pr.category, pr.description, Some(pr.tags), pr.threshold.value);
      && CreateProductSpec(db, req).reply == Ok(db.nextProductId)
      && Step(db, pr) == Ok(CreateProductSpec(db, req).after)
  {}

  /** A record whose threshold the integer column refuses stops the import, whatever its SKU, unless an active SKU stopped it first. */
  lemma BadThresholdRefused(db: Db, pr: ParsedRecord)
    requires pr.threshold.Err? && !ActiveSku(db.products, pr.sku)
    ensures Step(db, pr) == Err(pr.threshold.error)
  {
    var owner := SkuOwner(db.products, pr.sku);
    if owner.Some? {
      assert db.products[owner.value].status != Active;
    }
  }

  /** Every record that goes through keeps the invariant. */
  lemma StepConsistent(db: Db, pr: ParsedRecord)
    requires Consistent(db) && Step(db, pr).Ok?
    ensures Consistent(Step(db, pr).value)
  {
    match SkuOwner(db.products, pr.sku)
    case Some(id) =>
      SameSkusConsistent(db, id, Imported(pr));
    case None =>
      var req := NewProduct(pr.sku, pr.name, pr.category, pr.description, Some(pr.tags), pr.threshold.value);
      NewSkuCreated(db, pr);
      CreateProductConsistent(db, req);
  }

  /**
   * What a record that goes through changes: only the product with its SKU
   * (now carrying the record's fields and active) and, for a new SKU, a new
   * empty stock record; no SKU of an existing product, no existing stock
   * record and no document changes.
   */
  lemma StepFrame(db: Db, pr: ParsedRecord)
    requires Consistent(db) && Step(db, pr).Ok?
    ensures var d := Step(db, pr).value;
      && (forall p | p in db.products :: p in d.products && d.products[p].sku == db.products[p].sku)
      && (forall p | p in db.products && db.products[p].sku != pr.sku :: d.products[p] == db.products[p])
      && (forall p | p in d.products && p !in db.products :: d.products[p].sku == pr.sku)
      && (forall p | p in db.inventory :: p in d.inventory && d.inventory[p] == db.inventory[p])
      && (forall p | p in d.inventory && p !in db.inventory :: d.inventory[p] == StockRecord(0, 0.0))
      && d == db.(products := d.products, inventory := d.inventory, nextProductId := d.nextProductId)
      && pr.threshold.Ok?
      && SkuOwner(d.products, pr.sku).Some? && d.products[SkuOwner(d.products, pr.sku).value] == Imported(pr)
  {
    var d := Step(db, pr).value;
    StepConsistent(db, pr);
    match SkuOwner(db.products, pr.sku)
    case Some(id) =>
      SkuOwnerUnique(d.products, pr.sku, id);
    case None =>
      SkuOwnerUnique(d.products, pr.sku, db.nextProductId);
  }

  /** A product whose SKU is not the record's is left as it was. */
  lemma StepKeepsOther(db: Db, pr: ParsedRecord, productId: int)
    requires Consistent(db) && productId in db.products && db.products[productId].sku != pr.sku && Step(db, pr).Ok?
    ensures productId in Step(db, pr).value.products
    ensures Step(db, pr).value.products[productId] == db.products[productId]
  {}

  // ---------------------------------------------------------------------------
  // What a committed import does
  // ---------------------------------------------------------------------------

  /** A committed import keeps the invariant. */
  lemma {:induction false} ApplyConsistent(db: Db, prs: seq<ParsedRecord>)
    requires Consistent(db) && Apply(db, prs).Ok?
    ensures Consistent(Apply(db, prs).value)
    decreases |prs|
  {
    if prs != [] {
      StepConsistent(db, prs[0]);
      ApplyConsistent(Step(db, prs[0]).value, prs[1..]);
    }
  }

  /**
   * A committed import never removes a product or changes a SKU, leaves every
   * product whose SKU the file does not list as it was, never touches an
   * existing stock record, gives every new product an empty one, and adds no
   * document.
   */
  lemma {:induction false} ApplyFrame(db: Db, prs: seq<ParsedRecord>)
    requires Consistent(db) && Apply(db, prs).Ok?
    ensures var d := Apply(db, prs).value;
      && (forall p | p in db.products :: p in d.products && d.products[p].sku == db.products[p].sku)
      && (forall p | p in db.products && Unlisted(prs, db.products[p].sku) :: d.products[p] == db.products[p])
      && (forall p | p in d.products && p !in db.products :: !Unlisted(prs, d.products[p].sku))
      && (forall p | p in db.inventory :: p in d.inventory && d.inventory[p] == db.inventory[p])
      && (forall p | p in d.inventory && p !in db.inventory :: d.inventory[p] == StockRecord(0, 0.0))
      && d == db.(products := d.products, inventory := d.inventory, nextProductId := d.nextProductId)
    decreases |prs|
  {
    if prs != [] {
      var d1 := Step(db, prs[0]).value;
      var rest := prs[1..];
      StepFrame(db, prs[0]);
      StepConsistent(db, prs[0]);
      ApplyFrame(d1, rest);
      var d := Apply(d1, rest).value;
      forall p | p in db.products && Unlisted(prs, db.products[p].sku) ensures d.products[p] == db.products[p] {
        assert prs[0].sku != db.products[p].sku;
        assert Unlisted(rest, d1.products[p].sku) by {
          forall k | 0 <= k < |rest| ensures rest[k].sku != d1.products[p].sku { assert rest[k] == prs[k + 1]; }
        }
      }
      forall p | p in d.products && p !in db.products ensures !Unlisted(prs, d.products[p].sku) {
        if p in d1.products {
          assert d.products[p].sku == prs[0].sku;
        } else {
          var k :| 0 <= k < |rest| && rest[k].sku == d.products[p].sku;
          assert prs[k + 1] == rest[k];
        }
      }
    }
  }

  /** Once some product with SKU s is active, no later record may have that SKU. */
  lemma {:induction false} ActiveSkuBlocks(db: Db, prs: seq<ParsedRecord>, s: string)
    requires Consistent(db) && ActiveSku(db.products, s) && Apply(db, prs).Ok?
    ensures Unlisted(prs, s)
    decreases |prs|
  {
    if prs != [] {
      var p :| p in db.products && db.products[p].sku == s && db.products[p].status == Active;
      if prs[0].sku == s {
        ActiveSkuRefused(db, prs[0], p);
        assert false;
      }
      var d1 := Step(db, prs[0]).value;
      StepKeepsOther(db, prs[0], p);
      StepConsistent(db, prs[0]);
      ActiveSkuBlocks(d1, prs[1..], s);
      forall k | 0 <= k < |prs| ensures prs[k].sku != s {
        if k > 0 { assert prs[k] == prs[1..][k - 1]; }
      }
    }
  }

  /** A committed import lists every SKU at most once. */
  lemma {:induction false} ApplyDistinct(db: Db, prs: seq<ParsedRecord>)
    requires Consistent(db) && Apply(db, prs).Ok?
    ensures forall i, j | 0 <= i < j < |prs| :: prs[i].sku != prs[j].sku
    decreases |prs|
  {
    if prs != [] {
      var d1 := Step(db, prs[0]).value;
      var rest := prs[1..];
      StepFrame(db, prs[0]);
      StepConsistent(db, prs[0]);
      ActiveSkuBlocks(d1, rest, prs[0].sku);
      ApplyDistinct(d1, rest);
      forall i, j | 0 <= i < j < |prs| ensures prs[i].sku != prs[j].sku {
        assert prs[j] == rest[j - 1];
        if i > 0 { assert prs[i] == rest[i - 1]; }
      }
    }
  }

  /** After a committed import each record's SKU names the product that carries the record's fields, active. */
  lemma {:induction false} ApplyWrites(db: Db, prs: seq<ParsedRecord>)
    requires Consistent(db) && Apply(db, prs).Ok?
    ensures var d := Apply(db, prs).value;
      forall k | 0 <= k < |prs| ::
        && prs[k].threshold.Ok?
        && SkuOwner(d.products, prs[k].sku).Some?
        && d.products[SkuOwner(d.products, prs[k].sku).value] == Imported(prs[k])
    decreases |prs|
  {
    if prs != [] {
      var d1 := Step(db, prs[0]).value;
      var rest := prs[1..];
      StepFrame(db, prs[0]);
      StepConsistent(db, prs[0]);
      ApplyWrites(d1, rest);
      ApplyFrame(d1, rest);
      ApplyConsistent(d1, rest);
      var d := Apply(d1, rest).value;
      var q := SkuOwner(d1.products, prs[0].sku).value;
      assert ActiveSku(d1.products, prs[0].sku);
      ActiveSkuBlocks(d1, rest, prs[0].sku);
      assert d.products[q] == d1.products[q];
      SkuOwnerUnique(d.products, prs[0].sku, q);
      forall k | 0 <= k < |prs|
        ensures prs[k].threshold.Ok? && SkuOwner(d.products, prs[k].sku).Some?
             && d.products[SkuOwner(d.products, prs[k].sku).value] == Imported(prs[k])
      {
        if k > 0 { assert prs[k] == rest[k - 1]; }
      }
    }
  }

  // ---------------------------------------------------------------------------
  // The request as a whole
  // ---------------------------------------------------------------------------

  /** Whatever file arrives, the invariant holds afterwards. */
  lemma BulkUploadConsistent(db: Db, file: Option<UploadedFile>)
    requires Consistent(db)
    ensures Consistent(BulkUploadSpec(db, file).after)
  {
    if BulkUploadSpec(db, file).reply.Ok? {
      ApplyConsistent(db, Parses(file.value.records));
    }
  }

  /**
   * A committed import: every record's SKU now names an active product with the
   * record's fields, existing stock records are untouched and new ones are
   * empty, products the file does not name are untouched, nothing is removed.
   */
  lemma BulkUploadCommit(db: Db, file: Option<UploadedFile>)
    requires Consistent(db) && BulkUploadSpec(db, file).reply.Ok?
    ensures var d, prs := BulkUploadSpec(db, file).after, Parses(file.value.records);
      && Consistent(d)
      && (forall k | 0 <= k < |prs| ::
            && prs[k].threshold.Ok?
            && SkuOwner(d.products, prs[k].sku).Some?
            && d.products[SkuOwner(d.products, prs[k].sku).value] == Imported(prs[k]))
      && (forall p | p in db.products :: p in d.products && d.products[p].sku == db.products[p].sku)
      && (forall p | p in db.products && Unlisted(prs, db.products[p].sku) :: d.products[p] == db.products[p])
      && (forall p | p in db.inventory :: d.inventory[p] == db.inventory[p])
      && (forall p | p in d.inventory && p !in db.inventory :: d.inventory[p] == StockRecord(0, 0.0))
      && d == db.(products := d.products, inventory := d.inventory, nextProductId := d.nextProductId)
  {
    var prs := Parses(file.value.records);
    ApplyConsistent(db, prs);
    ApplyFrame(db, prs);
    ApplyWrites(db, prs);
  }

  /** A file that lists a SKU twice is refused and nothing is kept. */
  lemma RepeatedSkuRefused(db: Db, file: UploadedFile, i: int, j: int)
    requires Consistent(db)
    requires 0 <= i < j < |file.records| && file.records[i].sku == file.records[j].sku
    ensures BulkUploadSpec(db, Some(file)).reply.Err?
    ensures BulkUploadSpec(db, Some(file)).after == db
  {
    var prs := Parses(file.records);
    assert prs[i].sku == prs[j].sku;
    if BulkUploadSpec(db, Some(file)).reply.Ok? {
      ApplyDistinct(db, prs);
    }
  }

  /** A file that lists the SKU of an active product is refused and nothing is kept. */
  lemma ActiveSkuInFileRefused(db: Db, file: UploadedFile, k: int, productId: int)
    requires Consistent(db) && productId in db.products && db.products[productId].status == Active
    requires 0 <= k < |file.records| && file.records[k].sku == db.products[productId].sku
    ensures BulkUploadSpec(db, Some(file)).reply.Err?
    ensures BulkUploadSpec(db, Some(file)).after == db
  {
    var prs := Parses(file.records);
    assert prs[k].sku == db.products[productId].sku;
    if BulkUploadSpec(db, Some(file)).reply.Ok? {
      ActiveSkuBlocks(db, prs, db.products[productId].sku);
    }
  }
}
