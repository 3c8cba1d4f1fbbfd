/**
 * Product.stock: the number of "entrada" movement rows of a product minus
 * the number of its "salida" rows. It is derived on every read from the
 * movement table and never stored.
 */
module StockAccounting {
  import opened Models

  /** The ids of product p's movement rows whose type is t. */
  function RowsOfType(movements: map<Id, StockMovement>, p: Id, t: string): set<Id>
  {
    set k | k in movements && movements[k].product == p && movements[k].movementType == t
  }

  /** Product p's stock: its entrada rows counted, minus its salida rows counted. */
  function Stock(movements: map<Id, StockMovement>, p: Id): int
  {
    |RowsOfType(movements, p, ENTRADA)| - |RowsOfType(movements, p, SALIDA)|
  }

  /**
   * What one movement row adds to product p's stock: one for an entrada
   * of p, minus one for a salida of p, nothing otherwise. The quantity,
   * tag, date and description of the row play no part.
   */
  function Contribution(m: StockMovement, p: Id): int
  {
    if m.product != p then 0
    else if m.movementType == ENTRADA then 1
    else if m.movementType == SALIDA then -1
    else 0
  }

  lemma RowsOfTypeInsert(movements: map<Id, StockMovement>, k: Id, m: StockMovement, p: Id, t: string)
    requires k !in movements
    ensures RowsOfType(movements[k := m], p, t)
         == RowsOfType(movements, p, t) + (if m.product == p && m.movementType == t then {k} else {})
    ensures k !in RowsOfType(movements, p, t)
  {
  }

  /** Storing one new row changes p's stock by exactly that row's contribution. */
  lemma StockInsert(movements: map<Id, StockMovement>, k: Id, m: StockMovement, p: Id)
    requires k !in movements
    ensures Stock(movements[k := m], p) == Stock(movements, p) + Contribution(m, p)
  {
    RowsOfTypeInsert(movements, k, m, p, ENTRADA);
    RowsOfTypeInsert(movements, k, m, p, SALIDA);
  }

  /** Deleting one row changes p's stock by minus that row's contribution. */
  lemma StockRemove(movements: map<Id, StockMovement>, k: Id, p: Id)
    requires k in movements
    ensures Stock(movements - {k}, p) == Stock(movements, p) - Contribution(movements[k], p)
  {
    var rest := movements - {k};
    assert rest[k := movements[k]] == movements;
    StockInsert(rest, k, movements[k], p);
  }

  /** Two movement tables with the same rows, agreeing on each row's product and type, give the same stock. */
  lemma StockSameLedger(movements: map<Id, StockMovement>, movements': map<Id, StockMovement>, p: Id)
    requires movements.Keys == movements'.Keys
    requires forall k :: k in movements ==>
               movements'[k].product == movements[k].product &&
               movements'[k].movementType == movements[k].movementType
    ensures Stock(movements', p) == Stock(movements, p)
  {
    RowsOfTypeSameLedger(movements, movements', p, ENTRADA);
    RowsOfTypeSameLedger(movements, movements', p, SALIDA);
  }

  lemma RowsOfTypeSameLedger(movements: map<Id, StockMovement>, movements': map<Id, StockMovement>, p: Id, t: string)
    requires movements.Keys == movements'.Keys
    requires forall k :: k in movements ==>
               movements'[k].product == movements[k].product &&
               movements'[k].movementType == movements[k].movementType
    ensures RowsOfType(movements', p, t) == RowsOfType(movements, p, t)
  {
    forall k
      ensures k in RowsOfType(movements', p, t) <==> k in RowsOfType(movements, p, t)
    {
      assert k in movements' <==> k in movements;
    }
  }

  /** A product no movement row refers to has stock zero. */
  lemma StockWithoutRows(movements: map<Id, StockMovement>, p: Id)
    requires forall k :: k in movements ==> movements[k].product != p
    ensures Stock(movements, p) == 0
  {
    RowsOfTypeWithoutRows(movements, p, ENTRADA);
    RowsOfTypeWithoutRows(movements, p, SALIDA);
  }

  lemma RowsOfTypeWithoutRows(movements: map<Id, StockMovement>, p: Id, t: string)
    requires forall k :: k in movements ==> movements[k].product != p
    ensures RowsOfType(movements, p, t) == {}
  {
    forall k
      ensures k !in RowsOfType(movements, p, t)
    {
      if k in movements {
        assert movements[k].product != p;
      }
    }
  }

  /** A movement table whose key set is not empty has a key. */
  lemma NonEmptyHasKey(movements: map<Id, StockMovement>)
    requires movements.Keys != {}
    ensures exists k :: k in movements.Keys
  {
    if forall k :: k !in movements.Keys {
      assert false;
    }
  }

  /** The sum of the rows' contributions, adding up the rows one at a time. */
  ghost function SumOfContributions(movements: map<Id, StockMovement>, p: Id): int
    decreases |movements|
  {
    if movements.Keys == {} then 0
    else
      NonEmptyHasKey(movements);
      var k :| k in movements.Keys;
      Contribution(movements[k], p) + SumOfContributions(movements - {k}, p)
  }

  /** The stock is the sum of what each row contributes: +1 per entrada, -1 per salida, 0 for any other row. */
  lemma {:induction false} StockIsSumOfContributions(movements: map<Id, StockMovement>, p: Id)
    ensures Stock(movements, p) == SumOfContributions(movements, p)
    decreases |movements|
  {
    if movements.Keys == {} {
      StockWithoutRows(movements, p);
    } else {
      NonEmptyHasKey(movements);
      var k :| k in movements.Keys && SumOfContributions(movements, p)
        == Contribution(movements[k], p) + SumOfContributions(movements - {k}, p);
      StockRemove(movements, k, p);
      StockIsSumOfContributions(movements - {k}, p);
    }
  }
}
