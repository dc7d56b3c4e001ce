/** Failure-carrying wrappers and the error vocabulary of the warehouse backend. */
module Common {

  datatype Option<+T> = None | Some(value: T) {
    function GetOr(default: T): T {
      match this
      case Some(v) => v
      case None => default
    }
  }

  // ---------------------------------------------------------------------------
  // JavaScript truthiness of request fields
  // ---------------------------------------------------------------------------

  /** A numeric id field passes `!x` when it is present and not 0. */
  predicate IdGiven(x: Option<int>) {
    x.Some? && x.value != 0
  }

  /** A text field passes `!x` when it is present and not the empty string. */
  predicate TextGiven(x: Option<string>) {
    x.Some? && x.value != ""
  }

  /** A JSON number passes `!x || x <= 0` exactly when it is present and positive. */
  predicate PositiveGiven(x: Option<real>) {
    x.Some? && x.value > 0.0
  }

  /** `x || null`: a missing or empty text becomes NULL. */
  function OrNull(x: Option<string>): (r: Option<string>)
    ensures r.Some? <==> TextGiven(x)
    ensures r.Some? ==> r == x
  {
    if TextGiven(x) then x else None
  }

  /** The result of an operation that either yields a value or raises one of the backend's errors. */
  datatype Result<+T> = Ok(value: T) | Err(error: Error)

  /** Every result in the sequence is a success. */
  predicate AllOk<T>(rs: seq<Result<T>>) {
    forall k | 0 <= k < |rs| :: rs[k].Ok?
  }

  /** The values of a sequence of successes, in order. */
  function Values<T>(rs: seq<Result<T>>): (vs: seq<T>)
    requires AllOk(rs)
    ensures |vs| == |rs| && forall k | 0 <= k < |rs| :: rs[k] == Ok(vs[k])
  {
    seq(|rs|, k requires 0 <= k < |rs| => rs[k].value)
  }

  /** The result of an operation that yields nothing on success. */
  datatype Outcome = Pass | Fail(error: Error)

  /**
   * Every error the modelled handlers raise or answer with. Each one carries the
   * exact message of the backend (see Message).
   */
  datatype Error =
    // single inbound receipt
    | InvalidInboundPayload
    | InvalidInboundItem
    | InboundItemUnitCostRequired
    // single outbound dispatch
    | InvalidOutboundPayload
    | InvalidOutboundItem
    // movement engine (and the dispatch pre-checks that repeat it)
    | InventoryRecordNotFound
    | InsufficientStock
    | MovementUnitCostRequired
    | InvalidMovementType
    // bulk inbound upload
    | CsvFileRequired
    | InvalidInboundCsvRow
    | InboundCsvUnitCostRequired
    // bulk outbound upload
    | NoFileUploaded
    | CsvEmpty
    | InvalidOutboundCsvRow
    // catalogue import
    | FileRequired
    | UnsupportedFileType
    | SkuAlreadyExists(sku: string)
    // products
    | SkuRequired
    | ProductNotFoundForSku
    | ProductNotFoundOrArchived
    | ProductNotFoundOrAlreadyArchived
    // refused by the database itself
    | DuplicateSkuKey
    | InvalidIntegerSyntax

  /** The message text the backend sends for each error. */
  function Message(e: Error): string {
    match e
    case InvalidInboundPayload => "Invalid inbound payload"
    case InvalidInboundItem => "Invalid inbound item"
    case InboundItemUnitCostRequired => "unit_cost is required for inbound items"
    case InvalidOutboundPayload => "Invalid outbound payload"
    case InvalidOutboundItem => "Invalid outbound item"
    case InventoryRecordNotFound => "Inventory record not found"
    case InsufficientStock => "Insufficient stock"
    case MovementUnitCostRequired => "unit_cost is required for INBOUND"
    case InvalidMovementType => "Invalid movement type"
    case CsvFileRequired => "CSV file is required"
    case InvalidInboundCsvRow => "Invalid CSV row: missing required fields"
    case InboundCsvUnitCostRequired => "unit_cost is required and must be >= 0"
    case NoFileUploaded => "No file uploaded"
    case CsvEmpty => "CSV is empty"
    case InvalidOutboundCsvRow => "Invalid CSV row: missing/invalid required fields"
    case FileRequired => "File is required"
    case UnsupportedFileType => "Unsupported file type"
    case SkuAlreadyExists(sku) => "SKU already exists: " + sku
    case SkuRequired => "sku is required"
    case ProductNotFoundForSku => "Product not found for this SKU"
    case ProductNotFoundOrArchived => "Product not found or archived"
    case ProductNotFoundOrAlreadyArchived => "Product not found or already archived"
    case DuplicateSkuKey => "duplicate key value violates unique constraint"
    case InvalidIntegerSyntax => "invalid input syntax for type integer"
  }
}
