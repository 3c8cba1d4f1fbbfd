# almacen inventory store, modelled in Dafny

The almacen application keeps categories, products, RFID and NFC tags,
users, transactions ("Transacction") and stock movements. This project
models its tables, its two pieces of business logic and the naming of
uploaded images:

- **Stock accounting** (`stock.dfy`, module `StockAccounting`). A
  product's stock is derived from its stock-movement rows on every read:
  the number of its `"entrada"` rows minus the number of its `"salida"`
  rows. Rows are counted and `quantity` is ignored.
- **The store** (`store.dfy`, class `Almacen.Store`). There is one `map`
  field per table, keyed by surrogate id. The create and delete of
  every table, and the saves of Product and NFC, are methods, and each
  says in its contract:
  - the new contents of the tables it changes (its `modifies` frame
    names them, so every other table stays as it was);
  - which error it fails with and when;
  - that a failure changes nothing.

  The object invariant `Valid()` covers:
  - every foreign key names an existing row;
  - `NFC.id_tag` and `RFID.id_tagr` values are unique;
  - every stored movement has one of the two allowed types.

  Deletion follows the foreign keys' actions:
  - PROTECT refuses the delete while a row still refers to the target
    (Product→Category, Transacction→User and →Product,
    StockMovement→Product);
  - SET_NULL clears the reference instead (NFC→Product,
    StockMovement→NFC).

  The post-save receiver of NFC is `OnNfcSaved`. When a tag has just been
  created with a product, it records exactly one `"entrada"` movement with
  quantity 1. `CreateNfc` calls it with `created = true` and `SaveNfc`
  with `created = false`. So creating a tag with product P raises P's
  stock by one and leaves every other stock alone. Saving an existing tag
  again records nothing, even when the tag had no product before.
- **Upload paths** (`upload_paths.dfy`, module `UploadPaths`). The three
  `upload_to_*` helpers each build `folder/slug-suffix.ext`:
  - `folder` is `categories_images`, `users_images` or `imagenes`;
  - `ext` is `filename.split('.')[-1]`;
  - `os.path.join` is modelled with POSIX rules.
- `models.dfy` (module `Models`) holds one row datatype per model, the
  movement-type choices and the error kinds. `wrappers.dfy` holds
  `Option`, `Result` and `Outcome`.
- `scenarios.dfy` is a client. Using only the operations' contracts, it
  checks that:
  - two tags created for one product raise its stock by two;
  - a second tag with a taken `id_tag` is refused and changes no stock;
  - a tag given its product later records nothing;
  - a product protects its category, and a movement protects its product;
  - deleting a tag keeps the product's stock.

Inputs that the source takes from outside are parameters of the model:
- `slugify` is a function parameter `string -> string`;
- the random `uuid.uuid4().hex` is a string parameter, sliced `[:8]` as
  Python slices it;
- `auto_now_add` timestamps are a `now` parameter.

Two points about what is checked when a row is stored:
- A foreign key that names no row is refused by the database's foreign
  key constraint, so every create and save that takes a reference fails
  with `MissingReference` when the target is missing. `choices` on
  `movement_type` is different: Django checks it only in `full_clean`,
  which `save()` does not call (see `Almacen.Store.AddMovement` under
  "Left out"). `Stock` counts only the two exact strings, so a row of any
  other type would count neither way (`Contribution` is 0).
- The product price has no lower bound. The code declares no validator
  for it.

## Model

| member | source | states |
|---|---|---|
| `Models.IsMovementType` | almacen/models.py:134-142 | a movement type is allowed exactly when it is `"entrada"` or `"salida"`, the stored values of `MOVEMENT_TYPES` |
| `StockAccounting.Stock` | almacen/models.py:86-91 | the definition of `Product.stock`: the number of the product's movement rows of type `"entrada"` minus the number of type `"salida"`; it carries no contract of its own, and the lemmas below state its properties |
| `StockAccounting.StockInsert` | almacen/models.py:86-91 | storing one new movement changes product p's stock by exactly +1 if it is an entrada of p, -1 if it is a salida of p, and 0 otherwise |
| `StockAccounting.StockRemove` | almacen/models.py:86-91 | deleting one movement changes p's stock by minus that row's contribution |
| `StockAccounting.StockSameLedger` | almacen/models.py:89-91 | two movement tables with the same rows, agreeing on each row's product and type, give every product the same stock, whatever their quantities, tags, dates and descriptions |
| `StockAccounting.StockWithoutRows` | almacen/models.py:86-91 | a product that no movement refers to has stock 0 |
| `StockAccounting.StockIsSumOfContributions` | almacen/models.py:88-91 | the entrada count minus the salida count is the sum over all rows of +1 per entrada of p, -1 per salida of p, and 0 for every other row |
| `UploadPaths.Extension` | almacen/models.py:12 | `filename.split('.')[-1]`: the result holds no `.` and is no longer than the name (its position is stated by `ExtensionIsLastPart`) |
| `UploadPaths.ExtensionIsLastPart` | almacen/models.py:12 | the extension is a suffix of the file name that contains no `.`, and it is preceded by a `.` unless it is the whole name |
| `UploadPaths.ExtensionSplits` | almacen/models.py:12 | a name that contains a `.` is its stem, a `.`, and its extension |
| `UploadPaths.ExtensionAfterDot` | almacen/models.py:12 | the extension of `stem + "." + ext` is `ext` whenever `ext` contains no `.` |
| `UploadPaths.Suffix` | almacen/models.py:15 | the suffix is the first 8 characters of the uuid hex, or all of it when it is shorter |
| `UploadPaths.Join` | almacen/models.py:18 | a name starting with `/` replaces the folder; otherwise a folder not ending in `/` is joined to the name by one `/` |
| `UploadPaths.UploadTo` | almacen/models.py:12-18 | the body the three helpers share; the returned path always ends in the stored name `slug-suffix.ext`, whatever the folder (`Join` keeps its second part last) |
| `UploadPaths.UploadToShape` | almacen/models.py:12-18 | with a relative slug, the stored name is `folder + "/" + slug + "-" + suffix + "." + ext` |
| `UploadPaths.UploadToCategory` | almacen/models.py:10-18 | the category image goes to `categories_images/slug-suffix.ext` |
| `UploadPaths.UploadToUser` | almacen/models.py:21-29 | the user image goes to `users_images/slug-suffix.ext` |
| `UploadPaths.UploadToProducto` | almacen/models.py:50-58 | the product image goes to `imagenes/slug-suffix.ext` |
| `UploadPaths.UploadKeepsExtension` | almacen/models.py:12-15 | the stored name has the same extension as the uploaded file |
| `UploadPaths.DistinctSuffixesDistinctPaths` | almacen/models.py:15 | two uploads for same-named rows into one folder, with different suffixes of equal length, get different stored names |
| `Almacen.AutomaticEntrada` | almacen/models.py:125-131 | the movement the receiver creates has an allowed type, names the tag, has quantity 1, and adds one to the stock of its product and nothing to any other product's |
| `Almacen.ClearProduct` | almacen/models.py:115 | SET_NULL on `NFC.product`: the same tags; every tag that named the product gets `product` None with its other fields unchanged, and every other tag is unchanged |
| `Almacen.ClearTag` | almacen/models.py:140 | SET_NULL on `StockMovement.NFC_tag`: the same movements; every movement that named the tag gets `NFC_tag` None with its other fields unchanged, and every other movement is unchanged |
| `Almacen.Consistent` | almacen/models.py:40-144 | the store invariant (`Store.Valid()` is this predicate of the tables): `id_tag` (:112) and `id_tagr` (:40) values are pairwise distinct; every foreign key resolves: product→category (:65), transaction→user and →product (:103-104), tag→product when set (:115), movement→product and →tag when set (:139-140); every movement type is one of the `MOVEMENT_TYPES` choices (:134-142); every id is below the next id to hand out. A predicate with no contract of its own: each operation's `...Consistent` lemma and every `Store` method's `ensures Valid()` state that it is kept |
| `Almacen.DeleteProductConsistent` | almacen/models.py:104-140 | once no movement and no transaction refers to a product, removing it and setting every tag's `product` to None that named it keeps every foreign key resolvable and the `id_tag` values unique |
| `Almacen.DeleteNfcConsistent` | almacen/models.py:140 | removing a tag and setting to None every movement's `NFC_tag` that named it keeps the store consistent |
| `Almacen.Store.CreateCategory` | almacen/models.py:32-34 | adds exactly one category row under a fresh id |
| `Almacen.Store.CreateRfid` | almacen/models.py:39-44 | fails with a unique violation exactly when `id_tagr` is taken, and then changes nothing; otherwise adds exactly one row under a fresh id |
| `Almacen.Store.CreateProduct` | almacen/models.py:60-65 | fails exactly when the category does not exist; otherwise adds one product row, and the new product's stock is 0 |
| `Almacen.Store.SaveProduct` | almacen/models.py:70-72 | fails with DoesNotExist or a missing category and changes nothing; otherwise replaces that one product row |
| `Almacen.Store.CreateUser` | almacen/models.py:93-97 | adds exactly one user row under a fresh id |
| `Almacen.Store.CreateTransacction` | almacen/models.py:102-105 | fails exactly when the user or the product does not exist; otherwise adds one transaction row stamped `now` |
| `Almacen.Store.OnNfcSaved` | almacen/models.py:120-131 | if `created` and the tag has product P: adds exactly one movement {P, this tag, 1, "entrada"} and raises P's stock by 1; otherwise changes nothing; no other product's stock changes |
| `Almacen.Store.CreateNfc` | almacen/models.py:111-131 | fails exactly on a taken `id_tag` or a missing product, and then changes nothing; otherwise adds the tag plus, with product P, exactly one automatic entrada of P (P's stock +1); without a product no movement; every other stock unchanged |
| `Almacen.Store.InsertNfc` | almacen/models.py:111-115 | the INSERT half of saving a new tag, used only by `CreateNfc`: adds exactly the given row under a fresh id, keeps the invariant, and touches no movement; by itself it skips the receiver, as only `bulk_create` would |
| `Almacen.Store.SaveNfc` | almacen/models.py:121-124 | saving an existing tag never adds a movement, even when its product goes from absent to set; it fails on a missing tag, a taken `id_tag` or a missing product |
| `Almacen.Store.AddMovement` | almacen/models.py:133-144 | fails exactly on a missing product, a missing tag or a type outside the choices; otherwise adds one row, and the product's stock moves by +1 for an entrada or -1 for a salida, with every other stock unchanged |
| `Almacen.Store.DeleteCategory` | almacen/models.py:65 | fails with ProtectedError exactly when a product refers to the category, and then changes nothing; otherwise removes only that row |
| `Almacen.Store.DeleteProduct` | almacen/models.py:104-139 | fails with ProtectedError exactly when a movement or a transaction refers to the product; otherwise removes it, and every tag that referred to it gets product None with its other fields unchanged |
| `Almacen.Store.DeleteUser` | almacen/models.py:103 | fails with ProtectedError exactly when a transaction refers to the user; otherwise removes only that row |
| `Almacen.Store.DeleteNfc` | almacen/models.py:140 | succeeds whenever the tag exists; every movement that referred to it gets NFC tag None with its other fields unchanged, and no product's stock changes |
| `Almacen.Store.DeleteRfid` | almacen/models.py:39 | removes the RFID row; nothing refers to it |
| `Almacen.Store.DeleteTransacction` | almacen/models.py:102 | removes the transaction row; nothing refers to it |
| `Almacen.Store.DeleteMovement` | almacen/models.py:133 | removes the movement row, and every stock drops by that row's contribution |

## Left out

- The image handling of `Product.save` is not modelled. It converts an RGBA or palette image to RGB and, with PIL's `thumbnail`, shrinks it to fit within 800×800 keeping its aspect ratio (never enlarging it), then writes the file (almacen/models.py:74-85). `SaveProduct` is only the row update.
- `slugify` is a function parameter of the upload functions. Its Django code is not part of this model.
- `uuid.uuid4()` is random, so its hex string is a parameter.
- The file storage behind `ImageField` is not modelled. Image fields hold the stored name as an optional string.
- Persistence, queries, database transactions and concurrency are not modelled. Each method runs alone and is all-or-nothing: a failure changes no table. Two tag creations that race become two calls in sequence.
- Ids come from one counter shared by all tables, not one sequence per table. Ids are only surrogate keys.
- `auto_now_add` timestamps and `DateField` dates are opaque numbers. Timestamps are passed in as `now`.
- `DecimalField` price arithmetic is not modelled. The price is an opaque `real`.
- `max_length` limits and `EmailField` validation are not modelled.
- The `__str__` methods are not modelled.
- The RFID fields other than `id_tagr`, and the User fields, have no behaviour. They are stored and never checked.
- Django raises ProtectedError listing every protecting row. The model does not say which row protected the target.
- Django's `full_clean` reports all invalid fields together. `AddMovement` reports the first one, in field order.
- `UploadPaths.UploadToCategory`, `UploadPaths.UploadToUser` and `UploadPaths.UploadToProducto`: the `folder/slug-suffix.ext` shape is stated only for a slug that does not start with `/`. With such a slug, `os.path.join` would drop the folder; `Join` models that case, but these contracts do not state it. Django's `slugify` never yields `/`.
- `UploadPaths.DistinctSuffixesDistinctPaths` assumes the two suffixes have equal length. `uuid4().hex` always has 32 characters, so its `[:8]` prefix always has 8.
- `Almacen.Store.AddMovement` refuses a movement type outside `MOVEMENT_TYPES`, and `Valid()` requires every stored movement to have one of the two types. This follows the validated path (`full_clean`). The code as written stores such a row, because `save()` never runs `full_clean` and a `CharField` with `choices` has no database check. Such a row would count neither way in `Stock`.
- `Almacen.Store.SaveNfc` and `Almacen.Store.SaveProduct` model the update of an existing row only. On an id with no row they fail with `DoesNotExist` and change nothing. Django's `save()` falls back to an INSERT of that row there, and for NFC the post_save receiver then runs with created = true, which records an automatic entrada when the tag has a product. New rows come from `CreateNfc` and `CreateProduct`.
- The `Delete*` methods fail with `DoesNotExist` on an id with no row. Django's `instance.delete()` deletes nothing there. The tables end up the same either way.
- Integer column widths are not modelled. Ids (AutoField) and `quantity` (`IntegerField`) are 32-bit columns in the database but unbounded `int` here; `quantity` plays no part in any contract.
- Updates of existing Category, RFID, User, Transacction and StockMovement rows are not modelled; only Product and NFC have a save. Saving an existing StockMovement with another `product` or `movement_type` would move the stock of two products, and saving an RFID with a taken `id_tagr` would hit its unique constraint; rows of these tables are only created and deleted here.
