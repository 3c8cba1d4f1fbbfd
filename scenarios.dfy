/**
 * Clients of the store that follow a product through its life and check,
 * from the operations' contracts alone, what the models promise.
 */
module Scenarios {
  import opened Wrappers
  import opened Models
  import opened StockAccounting
  import opened Almacen

  /** A store holding one category and one product of it, with no movements. */
  method StoreWithProduct() returns (store: Store, category: Id, product: Id)
    ensures store.Valid() && fresh(store)
    ensures category in store.categories && product in store.products
    ensures store.products[product].category == category
    ensures store.nfcs == map[] && store.movements == map[] && store.transactions == map[]
  {
    store := new Store();
    category := store.CreateCategory("Bebidas", None);
    var water := store.CreateProduct("Agua", None, 1.5, "Botella de agua", category);
    product := water.value;
  }

  /** Two tags created with the same product raise its stock by two. */
  method TwoTagsForOneProduct()
  {
    var store, _, p := StoreWithProduct();
    assert Stock(store.movements, p) == 0;
    var a := store.CreateNfc("04:A1", "asignado", 1, Some(p), 100);
    assert a.Ok?;
    var b := store.CreateNfc("04:B2", "asignado", 1, Some(p), 101);
    assert b.Ok?;
    assert Stock(store.movements, p) == 2;
  }

  /** A second tag with a taken id is refused and leaves the stock as it was. */
  method TakenTagRefused()
  {
    var store, _, p := StoreWithProduct();
    var a := store.CreateNfc("04:A1", "asignado", 1, Some(p), 100);
    assert a.Ok? && Stock(store.movements, p) == 1;
    var dup := store.CreateNfc("04:A1", "asignado", 2, Some(p), 102);
    assert dup == Err(UniqueViolation("id_tag"));
    assert Stock(store.movements, p) == 1;
  }

  /** A tag created without a product and saved later with one records no movement. */
  method ProductGivenAfterCreation()
  {
    var store, _, p := StoreWithProduct();
    var c := store.CreateNfc("04:C3", "libre", 2, None, 103);
    assert c.Ok?;
    var saved := store.SaveNfc(c.value, "04:C3", "asignado", 3, Some(p), 104);
    assert saved == Pass;
    assert store.movements == map[];
  }

  /** The category is protected by its product, and the product by its movement. */
  method ProtectedDeletes()
  {
    var store, category, p := StoreWithProduct();
    var a := store.CreateNfc("04:A1", "asignado", 1, Some(p), 100);
    assert a.Ok?;
    var delCategory := store.DeleteCategory(category);
    assert delCategory == Fail(ProtectedError);
    var delProduct := store.DeleteProduct(p);
    assert delProduct == Fail(ProtectedError);
  }

  /** Deleting the tag keeps the stock its movement recorded; a salida then brings it back to zero. */
  method DeletedTagKeepsStock()
  {
    var store, _, p := StoreWithProduct();
    var a := store.CreateNfc("04:A1", "asignado", 1, Some(p), 100);
    assert a.Ok? && Stock(store.movements, p) == 1;
    var delTag := store.DeleteNfc(a.value);
    assert delTag == Pass && Stock(store.movements, p) == 1;
    var out := store.AddMovement(p, None, 5, SALIDA, None, 105);
    assert out.Ok? && Stock(store.movements, p) == 0;
  }
}
