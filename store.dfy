/**
 * The almacen tables and the operations on them: creating, saving and
 * deleting rows under the models' unique constraints and the
 * PROTECT / SET_NULL actions of their foreign keys, and the post_save rule
 * on NFC that records one "entrada" movement when a tag is created with a
 * product.
 */
module Almacen {
  import opened Wrappers
  import opened Models
  import opened StockAccounting

  /** The description the automatic movement of a new NFC tag carries. */
  const AUTO_DESCRIPTION: string := "Asignación automática de etiqueta NFC al producto"

  /** The movement the post_save rule records for tag `tag` created with product `p`. */
  function AutomaticEntrada(p: Id, tag: Id, now: Timestamp): (m: StockMovement)
    ensures IsMovementType(m.movementType) && m.nfcTag == Some(tag) && m.quantity == 1
    ensures forall q :: Contribution(m, q) == if q == p then 1 else 0
  {
    StockMovement(p, Some(tag), 1, ENTRADA, now, Some(AUTO_DESCRIPTION))
  }

  ghost predicate KeysBelow<T>(table: map<Id, T>, bound: Id)
  {
    forall k :: k in table ==> k < bound
  }

  /** NFC.id_tag is unique. */
  ghost predicate UniqueNfcTags(nfcs: map<Id, Nfc>)
  {
    forall a, b :: a in nfcs && b in nfcs && a != b ==> nfcs[a].idTag != nfcs[b].idTag
  }

  /** RFID.id_tagr is unique. */
  ghost predicate UniqueRfidTags(rfids: map<Id, Rfid>)
  {
    forall a, b :: a in rfids && b in rfids && a != b ==> rfids[a].idTagr != rfids[b].idTagr
  }

  /** Whether some tag other than `except` already has id `idTag`. */
  predicate NfcTagTaken(nfcs: map<Id, Nfc>, idTag: string, except: Option<Id>)
  {
    exists n | n in nfcs :: Some(n) != except && nfcs[n].idTag == idTag
  }

  predicate RfidTagTaken(rfids: map<Id, Rfid>, idTagr: string)
  {
    exists n | n in rfids :: rfids[n].idTagr == idTagr
  }

  /** NFC.product is SET_NULL: the tags that referred to product p lose their product. */
  function ClearProduct(nfcs: map<Id, Nfc>, p: Id): (r: map<Id, Nfc>)
    ensures r.Keys == nfcs.Keys
    ensures forall n :: n in r ==> r[n].product != Some(p) && r[n].(product := nfcs[n].product) == nfcs[n]
    ensures forall n :: n in r && nfcs[n].product != Some(p) ==> r[n] == nfcs[n]
    ensures forall n :: n in r && nfcs[n].product == Some(p) ==> r[n] == nfcs[n].(product := None)
  {
    map n | n in nfcs :: if nfcs[n].product == Some(p) then nfcs[n].(product := None) else nfcs[n]
  }

  /** StockMovement.NFC_tag is SET_NULL: the movements that referred to tag t lose their tag. */
  function ClearTag(movements: map<Id, StockMovement>, t: Id): (r: map<Id, StockMovement>)
    ensures r.Keys == movements.Keys
    ensures forall k :: k in r ==> r[k].nfcTag != Some(t) && r[k].(nfcTag := movements[k].nfcTag) == movements[k]
    ensures forall k :: k in r && movements[k].nfcTag != Some(t) ==> r[k] == movements[k]
    ensures forall k :: k in r && movements[k].nfcTag == Some(t) ==> r[k] == movements[k].(nfcTag := None)
  {
    map k | k in movements :: if movements[k].nfcTag == Some(t) then movements[k].(nfcTag := None) else movements[k]
  }

  /** The contents of every table, and the id the next created row receives. */
  datatype Tables = Tables(
    categories: map<Id, Category>,
    rfids: map<Id, Rfid>,
    products: map<Id, Product>,
    users: map<Id, User>,
    transactions: map<Id, Transacction>,
    nfcs: map<Id, Nfc>,
    movements: map<Id, StockMovement>,
    nextId: Id)

  /** Every row's id is below the next id to hand out. */
  ghost predicate FreshIds(t: Tables)
  {
    && KeysBelow(t.categories, t.nextId) && KeysBelow(t.rfids, t.nextId) && KeysBelow(t.products, t.nextId)
    && KeysBelow(t.users, t.nextId) && KeysBelow(t.transactions, t.nextId) && KeysBelow(t.nfcs, t.nextId)
    && KeysBelow(t.movements, t.nextId)
  }

  /** Every foreign key names an existing row of its table. */
  ghost predicate ReferencesExist(t: Tables)
  {
    && (forall p :: p in t.products ==> t.products[p].category in t.categories)
    && (forall x :: x in t.transactions ==>
          t.transactions[x].user in t.users && t.transactions[x].product in t.products)
    && (forall n :: n in t.nfcs && t.nfcs[n].product.Some? ==> t.nfcs[n].product.value in t.products)
    && (forall k :: k in t.movements ==> t.movements[k].product in t.products)
    && (forall k :: k in t.movements && t.movements[k].nfcTag.Some? ==> t.movements[k].nfcTag.value in t.nfcs)
  }

  /** The constraints the models declare, holding of all tables at once. */
  ghost predicate Consistent(t: Tables)
  {
    && FreshIds(t)
    && ReferencesExist(t)
    && UniqueNfcTags(t.nfcs) && UniqueRfidTags(t.rfids)
    && (forall k :: k in t.movements ==> IsMovementType(t.movements[k].movementType))
  }

  // Each store operation keeps the tables consistent.

  lemma AddCategoryConsistent(t: Tables, row: Category)
    requires Consistent(t)
    ensures Consistent(t.(categories := t.categories[t.nextId := row], nextId := t.nextId + 1))
  {
  }

  lemma AddRfidConsistent(t: Tables, row: Rfid)
    requires Consistent(t) && !RfidTagTaken(t.rfids, row.idTagr)
    ensures Consistent(t.(rfids := t.rfids[t.nextId := row], nextId := t.nextId + 1))
  {
  }

  lemma AddProductConsistent(t: Tables, row: Product)
    requires Consistent(t) && row.category in t.categories
    ensures Consistent(t.(products := t.products[t.nextId := row], nextId := t.nextId + 1))
  {
  }

  lemma SaveProductConsistent(t: Tables, id: Id, row: Product)
    requires Consistent(t) && id in t.products && row.category in t.categories
    ensures Consistent(t.(products := t.products[id := row]))
  {
  }

  lemma AddUserConsistent(t: Tables, row: User)
    requires Consistent(t)
    ensures Consistent(t.(users := t.users[t.nextId := row], nextId := t.nextId + 1))
  {
  }

  lemma AddTransacctionConsistent(t: Tables, row: Transacction)
    requires Consistent(t) && row.user in t.users && row.product in t.products
    ensures Consistent(t.(transactions := t.transactions[t.nextId := row], nextId := t.nextId + 1))
  {
  }

  lemma AddNfcConsistent(t: Tables, row: Nfc)
    requires Consistent(t) && !NfcTagTaken(t.nfcs, row.idTag, None)
    requires row.product.Some? ==> row.product.value in t.products
    ensures Consistent(t.(nfcs := t.nfcs[t.nextId := row], nextId := t.nextId + 1))
  {
  }

  lemma SaveNfcConsistent(t: Tables, id: Id, row: Nfc)
    requires Consistent(t) && id in t.nfcs && !NfcTagTaken(t.nfcs, row.idTag, Some(id))
    requires row.product.Some? ==> row.product.value in t.products
    ensures Consistent(t.(nfcs := t.nfcs[id := row]))
  {
  }

  lemma AddMovementConsistent(t: Tables, row: StockMovement)
    requires Consistent(t) && row.product in t.products && IsMovementType(row.movementType)
    requires row.nfcTag.Some? ==> row.nfcTag.value in t.nfcs
    ensures Consistent(t.(movements := t.movements[t.nextId := row], nextId := t.nextId + 1))
  {
  }

  lemma DeleteCategoryConsistent(t: Tables, id: Id)
    requires Consistent(t) && forall p :: p in t.products ==> t.products[p].category != id
    ensures Consistent(t.(categories := t.categories - {id}))
  {
  }

  lemma DeleteProductConsistent(t: Tables, id: Id)
    requires Consistent(t)
    requires forall k :: k in t.movements ==> t.movements[k].product != id
    requires forall x :: x in t.transactions ==> t.transactions[x].product != id
    ensures Consistent(t.(products := t.products - {id}, nfcs := ClearProduct(t.nfcs, id)))
  {
    var nfcs' := ClearProduct(t.nfcs, id);
    assert forall n :: n in nfcs' ==> nfcs'[n].idTag == t.nfcs[n].idTag;
  }

  lemma DeleteUserConsistent(t: Tables, id: Id)
    requires Consistent(t) && forall x :: x in t.transactions ==> t.transactions[x].user != id
    ensures Consistent(t.(users := t.users - {id}))
  {
  }

  lemma DeleteNfcConsistent(t: Tables, id: Id)
    requires Consistent(t)
    ensures Consistent(t.(nfcs := t.nfcs - {id}, movements := ClearTag(t.movements, id)))
  {
  }

  lemma DeleteRfidConsistent(t: Tables, id: Id)
    requires Consistent(t)
    ensures Consistent(t.(rfids := t.rfids - {id}))
  {
  }

  lemma DeleteTransacctionConsistent(t: Tables, id: Id)
    requires Consistent(t)
    ensures Consistent(t.(transactions := t.transactions - {id}))
  {
  }

  lemma DeleteMovementConsistent(t: Tables, id: Id)
    requires Consistent(t)
    ensures Consistent(t.(movements := t.movements - {id}))
  {
  }

  class Store {
    var categories: map<Id, Category>
    var rfids: map<Id, Rfid>
    var products: map<Id, Product>
    var users: map<Id, User>
    var transactions: map<Id, Transacction>
    var nfcs: map<Id, Nfc>
    var movements: map<Id, StockMovement>
    /** The surrogate id the next created row receives. */
    var nextId: Id

    ghost function Snapshot(): Tables
      reads this
    {
      Tables(categories, rfids, products, users, transactions, nfcs, movements, nextId)
    }

    ghost predicate Valid()
      reads this
    {
      Consistent(Snapshot())
    }

    constructor ()
      ensures Valid()
      ensures categories == map[] && rfids == map[] && products == map[] && users == map[]
      ensures transactions == map[] && nfcs == map[] && movements == map[]
    {
      categories, rfids, products, users := map[], map[], map[], map[];
      transactions, nfcs, movements := map[], map[], map[];
      nextId := 0;
    }

    method CreateCategory(name: string, img: Option<string>) returns (id: Id)
      requires Valid()
      modifies this`categories, this`nextId
      ensures Valid()
      ensures id == old(nextId) && id !in old(categories)
      ensures categories == old(categories)[id := Category(name, img)]
    {
      ghost var t := Snapshot();
      AddCategoryConsistent(t, Category(name, img));
      id := nextId;
      categories := categories[id := Category(name, img)];
      nextId := nextId + 1;
      assert Snapshot() == t.(categories := t.categories[t.nextId := Category(name, img)], nextId := t.nextId + 1);
    }

    /** Fails, changing nothing, when another RFID tag already has id_tagr. */
    method CreateRfid(row: Rfid) returns (r: Result<Id, Error>)
      requires Valid()
      modifies this`rfids, this`nextId
      ensures Valid()
      ensures r.Err? <==> RfidTagTaken(old(rfids), row.idTagr)
      ensures r.Err? ==> r.error == UniqueViolation("id_tagr")
      ensures r.Err? ==> rfids == old(rfids) && nextId == old(nextId)
      ensures r.Ok? ==> r.value == old(nextId) && r.value !in old(rfids) && rfids == old(rfids)[r.value := row]
    {
      if RfidTagTaken(rfids, row.idTagr) {
        return Err(UniqueViolation("id_tagr"));
      }
      ghost var t := Snapshot();
      AddRfidConsistent(t, row);
      var id := nextId;
      rfids := rfids[id := row];
      nextId := nextId + 1;
      assert Snapshot() == t.(rfids := t.rfids[t.nextId := row], nextId := t.nextId + 1);
      r := Ok(id);
    }

    /** Fails, changing nothing, when the category does not exist. A new product has stock zero. */
    method CreateProduct(name: string, img: Option<string>, price: real, description: string, category: Id)
      returns (r: Result<Id, Error>)
      requires Valid()
      modifies this`products, this`nextId
      ensures Valid()
      ensures r.Err? <==> category !in categories
      ensures r.Err? ==> r.error == MissingReference("category") && products == old(products) && nextId == old(nextId)
      ensures r.Ok? ==>
                && r.value == old(nextId) && r.value !in old(products)
                && products == old(products)[r.value := Product(name, img, price, description, category)]
                && Stock(movements, r.value) == 0
    {
      if category !in categories {
        return Err(MissingReference("category"));
      }
      ghost var t := Snapshot();
      var row := Product(name, img, price, description, category);
      AddProductConsistent(t, row);
      var id := nextId;
      products := products[id := row];
      nextId := nextId + 1;
      assert Snapshot() == t.(products := t.products[t.nextId := row], nextId := t.nextId + 1);
      StockWithoutRows(movements, id);
      r := Ok(id);
    }

    /** Product.save on an existing product: a plain update of its row. */
    method SaveProduct(id: Id, name: string, img: Option<string>, price: real, description: string, category: Id)
      returns (r: Outcome<Error>)
      requires Valid()
      modifies this`products
      ensures Valid()
      ensures r.Fail? <==> id !in old(products) || category !in categories
      ensures r == Fail(DoesNotExist) <==> id !in old(products)
      ensures r == Fail(MissingReference("category")) <==> id in old(products) && category !in categories
      ensures r.Fail? ==> products == old(products)
      ensures r.Pass? ==> products == old(products)[id := Product(name, img, price, description, category)]
    {
      if id !in products {
        return Fail(DoesNotExist);
      }
      if category !in categories {
        return Fail(MissingReference("category"));
      }
      ghost var t := Snapshot();
      var row := Product(name, img, price, description, category);
      SaveProductConsistent(t, id, row);
      products := products[id := row];
      assert Snapshot() == t.(products := t.products[id := row]);
      r := Pass;
    }

    method CreateUser(row: User) returns (id: Id)
      requires Valid()
      modifies this`users, this`nextId
      ensures Valid()
      ensures id == old(nextId) && id !in old(users)
      ensures users == old(users)[id := row]
    {
      ghost var t := Snapshot();
      AddUserConsistent(t, row);
      id := nextId;
      users := users[id := row];
      nextId := nextId + 1;
      assert Snapshot() == t.(users := t.users[t.nextId := row], nextId := t.nextId + 1);
    }

    /** Fails, changing nothing, when the user or the product does not exist. */
    method CreateTransacction(user: Id, product: Id, now: Timestamp) returns (r: Result<Id, Error>)
      requires Valid()
      modifies this`transactions, this`nextId
      ensures Valid()
      ensures r.Err? <==> user !in users || product !in products
      ensures r.Err? ==> r.error == MissingReference(if user !in users then "user" else "product")
      ensures r.Err? ==> transactions == old(transactions) && nextId == old(nextId)
      ensures r.Ok? ==>
                && r.value == old(nextId) && r.value !in old(transactions)
                && transactions == old(transactions)[r.value := Transacction(user, product, now)]
    {
      if user !in users {
        return Err(MissingReference("user"));
      }
      if product !in products {
        return Err(MissingReference("product"));
      }
      ghost var t := Snapshot();
      var row := Transacction(user, product, now);
      AddTransacctionConsistent(t, row);
      var id := nextId;
      transactions := transactions[id := row];
      nextId := nextId + 1;
      assert Snapshot() == t.(transactions := t.transactions[t.nextId := row], nextId := t.nextId + 1);
      r := Ok(id);
    }

    /**
     * The post_save receiver of NFC (crear_movimiento_stock_entrada): when
     * the tag was just created and has a product P, it records exactly one
     * movement {product = P, NFC_tag = the tag, quantity = 1,
     * type = "entrada"}, which raises P's stock by one and leaves every
     * other stock as it was; otherwise it records nothing.
     */
    method OnNfcSaved(tag: Id, created: bool, now: Timestamp)
      requires Valid() && tag in nfcs
      modifies this`movements, this`nextId
      ensures Valid()
      ensures var p := nfcs[tag].product;
              if created && p.Some? then
                && old(nextId) !in old(movements)
                && movements == old(movements)[old(nextId) := AutomaticEntrada(p.value, tag, now)]
                && Stock(movements, p.value) == old(Stock(movements, p.value)) + 1
              else
                movements == old(movements) && nextId == old(nextId)
      ensures forall q: Id :: Some(q) != nfcs[tag].product ==> Stock(movements, q) == old(Stock(movements, q))
    {
      var p := nfcs[tag].product;
      if created && p.Some? {
        ghost var t := Snapshot();
        var k := nextId;
        var m := AutomaticEntrada(p.value, tag, now);
        AddMovementConsistent(t, m);
        forall q: Id ensures Stock(movements[k := m], q) == Stock(movements, q) + Contribution(m, q) {
          StockInsert(movements, k, m, q);
        }
        movements := movements[k := m];
        nextId := nextId + 1;
        assert Snapshot() == t.(movements := t.movements[t.nextId := m], nextId := t.nextId + 1);
      }
    }

    /**
     * Creates an NFC tag and then runs the post_save receiver with
     * created = true: with a product P, exactly one "entrada" movement of
     * P from this tag is recorded, P's stock goes up by one and every other
     * product's stock stays; without a product no movement is recorded. A
     * duplicate id_tag or a missing product makes the whole creation fail
     * and change nothing.
     */
    method CreateNfc(idTag: string, status: string, fechaAsignado: Date, product: Option<Id>, now: Timestamp)
      returns (r: Result<Id, Error>)
      requires Valid()
      modifies this`nfcs, this`movements, this`nextId
      ensures Valid()
      ensures r.Err? <==> NfcTagTaken(old(nfcs), idTag, None) || (product.Some? && product.value !in products)
      ensures r == Err(UniqueViolation("id_tag")) <==> NfcTagTaken(old(nfcs), idTag, None)
      ensures r == Err(MissingReference("product")) <==>
                !NfcTagTaken(old(nfcs), idTag, None) && product.Some? && product.value !in products
      ensures r.Err? ==> nfcs == old(nfcs) && movements == old(movements) && nextId == old(nextId)
      ensures r.Ok? ==>
                && r.value == old(nextId) && r.value !in old(nfcs)
                && nfcs == old(nfcs)[r.value := Nfc(idTag, status, fechaAsignado, product)]
      ensures r.Ok? && product.None? ==> movements == old(movements)
      ensures r.Ok? && product.Some? ==>
                && r.value + 1 !in old(movements)
                && movements == old(movements)[r.value + 1 := AutomaticEntrada(product.value, r.value, now)]
                && Stock(movements, product.value) == old(Stock(movements, product.value)) + 1
      ensures r.Ok? ==> forall q: Id :: Some(q) != product ==> Stock(movements, q) == old(Stock(movements, q))
    {
      if NfcTagTaken(nfcs, idTag, None) {
        return Err(UniqueViolation("id_tag"));
      }
      if product.Some? && product.value !in products {
        return Err(MissingReference("product"));
      }
      ghost var before := movements;
      var id := InsertNfc(Nfc(idTag, status, fechaAsignado, product));
      assert nfcs[id].product == product;
      OnNfcSaved(id, true, now);
      assert product.Some? ==> movements == before[id + 1 := AutomaticEntrada(product.value, id, now)];
      assert product.Some? ==> Stock(movements, product.value) == Stock(before, product.value) + 1;
      r := Ok(id);
    }

    /**
     * The INSERT half of NFC.save() for a new row whose tag is free and
     * whose product exists. It is a step of CreateNfc, not an operation of
     * its own: by itself it skips the post_save receiver, as only
     * bulk_create would.
     */
    method InsertNfc(row: Nfc) returns (id: Id)
      requires Valid()
      requires !NfcTagTaken(nfcs, row.idTag, None)
      requires row.product.Some? ==> row.product.value in products
      modifies this`nfcs, this`nextId
      ensures Valid()
      ensures id == old(nextId) && id !in old(nfcs) && nfcs == old(nfcs)[id := row]
      ensures nextId == id + 1
    {
      ghost var t := Snapshot();
      AddNfcConsistent(t, row);
      id := nextId;
      nfcs := nfcs[id := row];
      nextId := nextId + 1;
      assert Snapshot() == t.(nfcs := t.nfcs[t.nextId := row], nextId := t.nextId + 1);
    }

    /**
     * Saves an existing NFC tag with new field values and then runs the
     * post_save receiver with created = false, which records nothing: no
     * movement is added and no stock changes, even when the tag had no
     * product and now has one.
     */
    method SaveNfc(id: Id, idTag: string, status: string, fechaAsignado: Date, product: Option<Id>, now: Timestamp)
      returns (r: Outcome<Error>)
      requires Valid()
      modifies this`nfcs, this`movements, this`nextId
      ensures Valid()
      ensures movements == old(movements) && nextId == old(nextId)
      ensures r.Fail? <==>
                id !in old(nfcs) || NfcTagTaken(old(nfcs), idTag, Some(id)) || (product.Some? && product.value !in products)
      ensures r == Fail(DoesNotExist) <==> id !in old(nfcs)
      ensures r == Fail(UniqueViolation("id_tag")) <==> id in old(nfcs) && NfcTagTaken(old(nfcs), idTag, Some(id))
      ensures r == Fail(MissingReference("product")) <==>
                id in old(nfcs) && !NfcTagTaken(old(nfcs), idTag, Some(id)) && product.Some? && product.value !in products
      ensures r.Fail? ==> nfcs == old(nfcs)
      ensures r.Pass? ==> nfcs == old(nfcs)[id := Nfc(idTag, status, fechaAsignado, product)]
    {
      if id !in nfcs {
        return Fail(DoesNotExist);
      }
      if NfcTagTaken(nfcs, idTag, Some(id)) {
        return Fail(UniqueViolation("id_tag"));
      }
      if product.Some? && product.value !in products {
        return Fail(MissingReference("product"));
      }
      ghost var t := Snapshot();
      var row := Nfc(idTag, status, fechaAsignado, product);
      SaveNfcConsistent(t, id, row);
      nfcs := nfcs[id := row];
      assert Snapshot() == t.(nfcs := t.nfcs[id := row]);
      OnNfcSaved(id, false, now);
      r := Pass;
    }

    /**
     * Records a movement by hand. Its type must be one of the choices and
     * its product and tag must exist; the product's stock then moves by
     * one in the movement's direction and no other stock changes.
     */
    method AddMovement(product: Id, nfcTag: Option<Id>, quantity: int, movementType: string,
                       description: Option<string>, now: Timestamp)
      returns (r: Result<Id, Error>)
      requires Valid()
      modifies this`movements, this`nextId
      ensures Valid()
      ensures r.Err? <==>
                product !in products || (nfcTag.Some? && nfcTag.value !in nfcs) || !IsMovementType(movementType)
      ensures r == Err(MissingReference("product")) <==> product !in products
      ensures r == Err(MissingReference("NFC_tag")) <==>
                product in products && nfcTag.Some? && nfcTag.value !in nfcs
      ensures r == Err(InvalidChoice("movement_type", movementType)) <==>
                product in products && (nfcTag.Some? ==> nfcTag.value in nfcs) && !IsMovementType(movementType)
      ensures r.Err? ==> movements == old(movements) && nextId == old(nextId)
      ensures r.Ok? ==>
                var m := StockMovement(product, nfcTag, quantity, movementType, now, description);
                && r.value == old(nextId) && r.value !in old(movements)
                && movements == old(movements)[r.value := m]
                && forall q: Id :: Stock(movements, q) == old(Stock(movements, q)) + Contribution(m, q)
      ensures r.Ok? ==> Stock(movements, product) == old(Stock(movements, product)) + (if movementType == ENTRADA then 1 else -1)
    {
      if product !in products {
        return Err(MissingReference("product"));
      }
      if nfcTag.Some? && nfcTag.value !in nfcs {
        return Err(MissingReference("NFC_tag"));
      }
      if !IsMovementType(movementType) {
        return Err(InvalidChoice("movement_type", movementType));
      }
      ghost var t := Snapshot();
      var id := nextId;
      var m := StockMovement(product, nfcTag, quantity, movementType, now, description);
      AddMovementConsistent(t, m);
      forall q: Id ensures Stock(movements[id := m], q) == Stock(movements, q) + Contribution(m, q) {
        StockInsert(movements, id, m, q);
      }
      movements := movements[id := m];
      nextId := nextId + 1;
      assert Snapshot() == t.(movements := t.movements[t.nextId := m], nextId := t.nextId + 1);
      r := Ok(id);
    }

    /** Category is PROTECTed by Product.category: refused while a product refers to it. */
    method DeleteCategory(id: Id) returns (r: Outcome<Error>)
      requires Valid()
      modifies this`categories
      ensures Valid()
      ensures r.Fail? <==> id !in old(categories) || exists p :: p in products && products[p].category == id
      ensures r == Fail(DoesNotExist) <==> id !in old(categories)
      ensures r == Fail(ProtectedError) <==>
                id in old(categories) && exists p :: p in products && products[p].category == id
      ensures r.Fail? ==> categories == old(categories)
      ensures r.Pass? ==> categories == old(categories) - {id}
    {
      if id !in categories {
        return Fail(DoesNotExist);
      }
      if exists p | p in products :: products[p].category == id {
        return Fail(ProtectedError);
      }
      ghost var t := Snapshot();
      DeleteCategoryConsistent(t, id);
      categories := categories - {id};
      assert Snapshot() == t.(categories := t.categories - {id});
      r := Pass;
    }

    /**
     * Product is PROTECTed by StockMovement.product and Transacction.product,
     * and SET_NULL for NFC.product: refused while a movement or a
     * transaction refers to it; otherwise the tags that referred to it lose
     * their product and keep every other field.
     */
    method DeleteProduct(id: Id) returns (r: Outcome<Error>)
      requires Valid()
      modifies this`products, this`nfcs
      ensures Valid()
      ensures r.Fail? <==>
                || id !in old(products)
                || (exists k :: k in movements && movements[k].product == id)
                || (exists t :: t in transactions && transactions[t].product == id)
      ensures r == Fail(DoesNotExist) <==> id !in old(products)
      ensures r == Fail(ProtectedError) <==>
                id in old(products) &&
                ((exists k :: k in movements && movements[k].product == id) ||
                 (exists t :: t in transactions && transactions[t].product == id))
      ensures r.Fail? ==> products == old(products) && nfcs == old(nfcs)
      ensures r.Pass? ==> products == old(products) - {id} && nfcs.Keys == old(nfcs).Keys
      ensures r.Pass? ==> forall n :: n in old(nfcs) ==>
                nfcs[n] == if old(nfcs)[n].product == Some(id) then old(nfcs)[n].(product := None) else old(nfcs)[n]
    {
      if id !in products {
        return Fail(DoesNotExist);
      }
      if (exists k | k in movements :: movements[k].product == id) ||
         (exists t | t in transactions :: transactions[t].product == id) {
        return Fail(ProtectedError);
      }
      ghost var t := Snapshot();
      DeleteProductConsistent(t, id);
      products := products - {id};
      nfcs := ClearProduct(nfcs, id);
      assert Snapshot() == t.(products := t.products - {id}, nfcs := ClearProduct(t.nfcs, id));
      r := Pass;
    }

    /** User is PROTECTed by Transacction.user: refused while a transaction refers to it. */
    method DeleteUser(id: Id) returns (r: Outcome<Error>)
      requires Valid()
      modifies this`users
      ensures Valid()
      ensures r.Fail? <==> id !in old(users) || exists t :: t in transactions && transactions[t].user == id
      ensures r == Fail(DoesNotExist) <==> id !in old(users)
      ensures r == Fail(ProtectedError) <==>
                id in old(users) && exists t :: t in transactions && transactions[t].user == id
      ensures r.Fail? ==> users == old(users)
      ensures r.Pass? ==> users == old(users) - {id}
    {
      if id !in users {
        return Fail(DoesNotExist);
      }
      if exists t | t in transactions :: transactions[t].user == id {
        return Fail(ProtectedError);
      }
      ghost var t := Snapshot();
      DeleteUserConsistent(t, id);
      users := users - {id};
      assert Snapshot() == t.(users := t.users - {id});
      r := Pass;
    }

    /**
     * NFC is SET_NULL for StockMovement.NFC_tag: deleting a tag always
     * succeeds when it exists; the movements that referred to it lose
     * their tag and keep every other field, so no product's stock changes.
     */
    method DeleteNfc(id: Id) returns (r: Outcome<Error>)
      requires Valid()
      modifies this`nfcs, this`movements
      ensures Valid()
      ensures r.Fail? <==> id !in old(nfcs)
      ensures r.Fail? ==> r.error == DoesNotExist && nfcs == old(nfcs) && movements == old(movements)
      ensures r.Pass? ==> nfcs == old(nfcs) - {id} && movements.Keys == old(movements).Keys
      ensures r.Pass? ==> forall k :: k in old(movements) ==>
                movements[k] == if old(movements)[k].nfcTag == Some(id) then old(movements)[k].(nfcTag := None) else old(movements)[k]
      ensures forall q: Id :: Stock(movements, q) == old(Stock(movements, q))
    {
      if id !in nfcs {
        return Fail(DoesNotExist);
      }
      var severed := ClearTag(movements, id);
      forall q: Id ensures Stock(severed, q) == Stock(movements, q) {
        StockSameLedger(movements, severed, q);
      }
      ghost var t := Snapshot();
      DeleteNfcConsistent(t, id);
      nfcs := nfcs - {id};
      movements := severed;
      assert Snapshot() == t.(nfcs := t.nfcs - {id}, movements := ClearTag(t.movements, id));
      r := Pass;
    }

    /** Nothing refers to an RFID tag. */
    method DeleteRfid(id: Id) returns (r: Outcome<Error>)
      requires Valid()
      modifies this`rfids
      ensures Valid()
      ensures r.Fail? <==> id !in old(rfids)
      ensures r.Fail? ==> r.error == DoesNotExist && rfids == old(rfids)
      ensures r.Pass? ==> rfids == old(rfids) - {id}
    {
      if id !in rfids {
        return Fail(DoesNotExist);
      }
      ghost var t := Snapshot();
      DeleteRfidConsistent(t, id);
      rfids := rfids - {id};
      assert Snapshot() == t.(rfids := t.rfids - {id});
      r := Pass;
    }

    /** Nothing refers to a transaction. */
    method DeleteTransacction(id: Id) returns (r: Outcome<Error>)
      requires Valid()
      modifies this`transactions
      ensures Valid()
      ensures r.Fail? <==> id !in old(transactions)
      ensures r.Fail? ==> r.error == DoesNotExist && transactions == old(transactions)
      ensures r.Pass? ==> transactions == old(transactions) - {id}
    {
      if id !in transactions {
        return Fail(DoesNotExist);
      }
      ghost var t := Snapshot();
      DeleteTransacctionConsistent(t, id);
      transactions := transactions - {id};
      assert Snapshot() == t.(transactions := t.transactions - {id});
      r := Pass;
    }

    /** Nothing refers to a movement; deleting one undoes its contribution to its product's stock. */
    method DeleteMovement(id: Id) returns (r: Outcome<Error>)
      requires Valid()
      modifies this`movements
      ensures Valid()
      ensures r.Fail? <==> id !in old(movements)
      ensures r.Fail? ==> r.error == DoesNotExist && movements == old(movements)
      ensures r.Pass? ==> movements == old(movements) - {id}
      ensures r.Pass? ==> forall q: Id :: Stock(movements, q) == old(Stock(movements, q)) - Contribution(old(movements)[id], q)
    {
      if id !in movements {
        return Fail(DoesNotExist);
      }
      forall q: Id ensures Stock(movements - {id}, q) == Stock(movements, q) - Contribution(movements[id], q) {
        StockRemove(movements, id, q);
      }
      ghost var t := Snapshot();
      DeleteMovementConsistent(t, id);
      movements := movements - {id};
      assert Snapshot() == t.(movements := t.movements - {id});
      r := Pass;
    }
  }
}
