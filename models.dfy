/**
 * The rows of the almacen application: one datatype per model of
 * almacen/models.py, holding the fields that rows of that model store.
 * Foreign keys are the surrogate ids of the referenced rows.
 */
module Models {
  import opened Wrappers

  /** Surrogate primary key, assigned at creation. */
  type Id = int

  /** A calendar date (DateField), kept opaque. */
  type Date = int

  /** A creation timestamp (DateTimeField with auto_now_add), kept opaque. */
  type Timestamp = int

  datatype Category = Category(name: string, img: Option<string>)

  datatype Rfid = Rfid(
    idTagr: string,
    idEsp32: Option<string>,
    status: Option<string>,
    fechaLlegada: Option<Date>,
    fechaAsignado: Option<Date>)

  /** `category` is a PROTECT foreign key to Category. */
  datatype Product = Product(
    name: string,
    img: Option<string>,
    price: real,
    description: string,
    category: Id)

  datatype User = User(name: string, email: string, password: string, img: Option<string>)

  /** Both foreign keys are PROTECT. */
  datatype Transacction = Transacction(user: Id, product: Id, date: Timestamp)

  /** `product` is a nullable SET_NULL foreign key to Product. */
  datatype Nfc = Nfc(idTag: string, status: string, fechaAsignado: Date, product: Option<Id>)

  /** `product` is a PROTECT foreign key; `nfcTag` a nullable SET_NULL one to NFC. */
  datatype StockMovement = StockMovement(
    product: Id,
    nfcTag: Option<Id>,
    quantity: int,
    movementType: string,
    date: Timestamp,
    description: Option<string>)

  const ENTRADA: string := "entrada"
  const SALIDA: string := "salida"

  /** The (stored value, label) choices of StockMovement.movement_type. */
  const MOVEMENT_TYPES: seq<(string, string)> := [("entrada", "Entrada"), ("salida", "Salida")]

  /** Whether `t` is the stored value of one of the movement type choices. */
  predicate IsMovementType(t: string): (b: bool)
    ensures b <==> t == ENTRADA || t == SALIDA
  {
    exists c | c in MOVEMENT_TYPES :: c.0 == t
  }

  /** Why a store operation was refused. */
  datatype Error =
    | UniqueViolation(field: string)            // a unique=True column would hold a duplicate
    | InvalidChoice(field: string, value: string) // a value outside the field's choices
    | MissingReference(field: string)           // a foreign key names no existing row
    | ProtectedError                            // a PROTECT foreign key still refers to the row
    | DoesNotExist                              // no row has the given id
}
