/**
 * The movement engine: the one place where a stock record changes. An INBOUND
 * movement adds quantity and blends the unit cost into a weighted moving
 * average; an OUTBOUND movement removes quantity, never below zero, and keeps
 * the average cost.
 */
module InventoryService {
  import opened Common
  import opened Store

  const INBOUND: string := "INBOUND"
  const OUTBOUND: string := "OUTBOUND"

  /** The two movement types are told apart by their first letter. */
  lemma MovementNamesDiffer()
    ensures INBOUND != OUTBOUND
  {
    assert INBOUND[0] != OUTBOUND[0];
  }

  /** The unit cost an INBOUND movement accepts: present, a number, and not negative. */
  predicate CostUsable(c: CostValue) {
    c.Cost? && c.amount >= 0.0
  }

  /** The new stock record one movement produces, or the error it raises. */
  function Move(rec: StockRecord, quantity: int, movement: string, unitCost: CostValue): (r: Result<StockRecord>)
    ensures movement != INBOUND && movement != OUTBOUND ==> r == Err(InvalidMovementType)
    // INBOUND: refused exactly when the unit cost is unusable
    ensures movement == INBOUND ==> (r.Ok? <==> CostUsable(unitCost))
    ensures movement == INBOUND && r.Err? ==> r.error == MovementUnitCostRequired
    // INBOUND: quantity adds up and the stock value grows by quantity * unit cost
    ensures movement == INBOUND && r.Ok? ==>
      && r.value.quantity == rec.quantity + quantity
      && (r.value.quantity != 0 ==> Value(r.value) == Value(rec) + quantity as real * unitCost.amount)
      && (r.value.quantity == 0 ==> r.value.avgCost == 0.0)
    // OUTBOUND: refused exactly when the stock would go negative; the average cost stays
    ensures movement == OUTBOUND ==> (r.Ok? <==> quantity <= rec.quantity)
    ensures movement == OUTBOUND && r.Err? ==> r.error == InsufficientStock
    ensures movement == OUTBOUND && r.Ok? ==> r.value == StockRecord(rec.quantity - quantity, rec.avgCost)
    ensures movement == OUTBOUND && r.Ok? ==> Value(r.value) == Value(rec) - quantity as real * rec.avgCost
  {
    if movement == INBOUND then
      if !CostUsable(unitCost) then Err(MovementUnitCostRequired)
      else
        var newQty := rec.quantity + quantity;
        var totalValue := Value(rec) + quantity as real * unitCost.amount;
        Ok(StockRecord(newQty, if newQty == 0 then 0.0 else totalValue / newQty as real))
    else if movement == OUTBOUND then
      if rec.quantity - quantity < 0 then Err(InsufficientStock)
      else
        assert (rec.quantity - quantity) as real == rec.quantity as real - quantity as real;
        MulSubDistributes(rec.quantity as real, quantity as real, rec.avgCost);
        Ok(StockRecord(rec.quantity - quantity, rec.avgCost))
    else Err(InvalidMovementType)
  }

  /** The movement applied to the database: the product's stock record must exist. */
  function ApplyMovement(db: Db, productId: int, quantity: int, movement: string, unitCost: CostValue): (r: Result<Db>)
    ensures productId !in db.inventory ==> r == Err(InventoryRecordNotFound)
    ensures productId in db.inventory ==>
      match Move(db.inventory[productId], quantity, movement, unitCost)
      case Err(e) => r == Err(e)
      case Ok(rec) => r.Ok? && productId in r.value.inventory && r.value.inventory[productId] == rec
    // only the target product's record is written
    ensures r.Ok? ==>
      && r.value == db.(inventory := r.value.inventory)
      && r.value.inventory.Keys == db.inventory.Keys
      && forall p | p in db.inventory && p != productId :: r.value.inventory[p] == db.inventory[p]
  {
    if productId !in db.inventory then Err(InventoryRecordNotFound)
    else
      match Move(db.inventory[productId], quantity, movement, unitCost)
      case Err(e) => Err(e)
      case Ok(rec) => Ok(SetStock(db, productId, rec))
  }

  function OutcomeOf(r: Result<Db>): Outcome {
    if r.Ok? then Pass else Fail(r.error)
  }

  /**
   * applyInventoryMovement: read the product's record, compute the new quantity
   * and average cost in the locals, then write the record back.
   */
  method ApplyInventoryMovement(w: Warehouse, productId: int, quantity: int, movement: string, unitCost: CostValue)
    returns (o: Outcome)
    modifies w
    ensures o == OutcomeOf(ApplyMovement(old(w.State()), productId, quantity, movement, unitCost))
    ensures o.Pass? ==> w.State() == ApplyMovement(old(w.State()), productId, quantity, movement, unitCost).value
    ensures o.Fail? ==> w.State() == old(w.State())
  {
    if productId !in w.inventory {
      return Fail(InventoryRecordNotFound);
    }
    var currentQty := w.inventory[productId].quantity;
    var currentCost := w.inventory[productId].avgCost;

    var newQty := currentQty;
    var newAvgCost := currentCost;

    if movement == INBOUND {
      if !CostUsable(unitCost) {
        return Fail(MovementUnitCostRequired);
      }
      var u := unitCost.amount;
      newQty := currentQty + quantity;
      var totalValue := currentQty as real * currentCost + quantity as real * u;
      newAvgCost := if newQty == 0 then 0.0 else totalValue / newQty as real;
      assert totalValue == Value(w.inventory[productId]) + quantity as real * unitCost.amount;
      assert Move(w.inventory[productId], quantity, movement, unitCost).value.avgCost == newAvgCost;
    } else if movement == OUTBOUND {
      newQty := currentQty - quantity;
      if newQty < 0 {
        return Fail(InsufficientStock);
      }
      newAvgCost := currentCost;
    } else {
      return Fail(InvalidMovementType);
    }

    assert Move(w.inventory[productId], quantity, movement, unitCost) == Ok(StockRecord(newQty, newAvgCost));
    w.UpdateStock(productId, StockRecord(newQty, newAvgCost));
    o := Pass;
  }

  // ---------------------------------------------------------------------------
  // What a movement keeps
  // ---------------------------------------------------------------------------

  /** With a non-negative quantity a successful movement keeps stock and average cost non-negative. */
  lemma MoveKeepsNonNegative(rec: StockRecord, quantity: int, movement: string, unitCost: CostValue)
    requires rec.quantity >= 0 && rec.avgCost >= 0.0 && quantity >= 0
    requires Move(rec, quantity, movement, unitCost).Ok?
    ensures var r := Move(rec, quantity, movement, unitCost).value;
      r.quantity >= 0 && r.avgCost >= 0.0
  {
    if movement == INBOUND {
      var newQty := rec.quantity + quantity;
      if newQty != 0 {
        var totalValue := Value(rec) + quantity as real * unitCost.amount;
        assert Value(rec) >= 0.0 by { MulNonNegative(rec.quantity as real, rec.avgCost); }
        MulNonNegative(quantity as real, unitCost.amount);
        DivNonNegative(totalValue, newQty as real);
      }
    }
  }

  lemma MulNonNegative(a: real, b: real)
    requires a >= 0.0 && b >= 0.0
    ensures a * b >= 0.0
  {}

  lemma MulSubDistributes(a: real, b: real, c: real)
    ensures (a - b) * c == a * c - b * c
  {}

  lemma DivNonNegative(a: real, b: real)
    requires a >= 0.0 && b > 0.0
    ensures a / b >= 0.0
  {}

  /** A movement with a non-negative quantity keeps the database consistent. */
  lemma MovementPreservesConsistent(db: Db, productId: int, quantity: int, movement: string, unitCost: CostValue)
    requires Consistent(db) && quantity >= 0
    requires ApplyMovement(db, productId, quantity, movement, unitCost).Ok?
    ensures Consistent(ApplyMovement(db, productId, quantity, movement, unitCost).value)
  {
    MoveKeepsNonNegative(db.inventory[productId], quantity, movement, unitCost);
  }

  /** A failed movement has no record to write: the engine raises before its UPDATE. */
  lemma UnknownProductRefused(db: Db, productId: int, quantity: int, movement: string, unitCost: CostValue)
    requires productId !in db.products && Consistent(db)
    ensures ApplyMovement(db, productId, quantity, movement, unitCost) == Err(InventoryRecordNotFound)
  {}
}
