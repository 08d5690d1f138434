# worthit record management, modelled in Dafny

worthit is a command-line tracker for purchased items. Each product has a
name, a price, a purchase date, a status (active, idle, broken, sold), and
optional repair count, repair cost, sold price and sold date. Products live
in a store keyed by name that is loaded from a file when a command starts
and saved after each successful change.

This project models the record-management core of that tool:

- `results.dfy` (module `Results`): `Option`, the tool's error kinds and a
  `Result` usable with `:-`. These stand in for Rust's `Option`,
  `anyhow::Error` and the `?` operator.
- `model.dfy` (module `Model`, from `src/model.rs`) holds these parts:
  - the status codes;
  - the `Item` value of a product;
  - the partial-update rule `Updated`;
  - the class `Product`, updated in place by `Update`;
  - the class `Records`, whose `products` map is changed in place by
    `AddProduct` and `RemoveProduct`. `Records.Valid()` is the key/name
    invariant: each key is the name of the product stored under it.
- `handlers.dfy` (module `Handlers`, from `src/utils.rs`) holds the
  `set` validation chain `ValidateSet` and three functions on the store's
  contents: `AddSpec`, `SetSpec` and `RemoveSpec`. It also holds the
  handlers `AddHandler`, `SetHandler` and `DeleteHandler`. Each handler
  changes the `Records` object in place and is proved against its function.
- `handler_properties.dfy` (module `HandlerProperties`) holds lemmas that
  relate several calls. They cover the key/name invariant, the pairing of
  sold price and sold date, the add/delete round trip, and a whole example
  session.

Modelling choices:

- A price or cost is a `real`. The modelled core only compares these with
  `0.0`. The arithmetic on prices in `src/display.rs` is rendering, which is
  left out.
- `u32` is a newtype over `0 .. 2^32`.
- A date is an opaque type. Date parsing (chrono's `%Y-%m-%d` parser) is the
  handler parameter `parse: string -> Option<Date>`.
- `set_handler` takes seven optional arguments. They are bundled in a
  `SetRequest`, and their validated forms in a `Patch`.
- `Records::save` appends the current contents to the ghost field
  `Records.saves`. This makes visible that a save happens exactly once per
  successful command and never after a failure.

The model follows the code on two points a reader might expect otherwise:

- `set_handler` (src/utils.rs:50-61) has no new-name parameter. The CLI's
  `--new-name` (src/cli.rs:31-32) is declared but never passed on. So no
  rename is modelled.
- The code does not keep sold price and sold date both set or both unset for
  every stored product. It only refuses half of a first sale
  (src/utils.rs:110-121). `HandlerProperties.SetKeepsSoldPairing` and
  `HandlerProperties.StoreKeepsSoldPairing` prove what follows from that:
  every command keeps a paired product paired. A product loaded from a file
  with only one of the two fields set is accepted as it is.

## Model

| member | source | states |
|---|---|---|
| `Model.StatusFromU32` | src/model.rs:25-33 | Codes 0, 1, 2, 3 decode to Active, Idle, Broken, Sold in that order. Every other code is an error that names the code. |
| `Model.StatusIdRoundTrip` | src/model.rs:8-33 | Decoding the declaration-order code of any status gives that status back. |
| `Model.Updated` | src/model.rs:71-97 | Partial update: each field given in the patch replaces the current value. Each absent field keeps its value. The name never changes. |
| `Model.UpdateNeverClears` | src/model.rs:92-96 | An absent argument never clears a field: a status, repair or sale field that was set stays set. |
| `Model.UpdateIdempotent` | src/model.rs:82-96 | Applying the same patch twice equals applying it once. The all-absent patch changes nothing. |
| `Model.Product.constructor` | src/model.rs:56-68 | A new product keeps the given name, price and purchase date. Its status is `Some(Active)`. Its repair count, repair cost, sold price and sold date are all `None`. |
| `Model.Product.Update` | src/model.rs:71-97 | Field-by-field assignment in place. The new value is `Updated(old value, patch)` and the name is unchanged. |
| `Model.Records.Contents` | src/model.rs:100-103 | The store's value map has exactly the keys of `products`. Under `Valid()`, each key equals the name of its item. |
| `Model.Records.constructor` | src/model.rs:117-121 | A new store is empty, satisfies the key/name invariant and has saved nothing. |
| `Model.Records.Save` | src/model.rs:134-139 | Saving records the current contents as the newest snapshot. The products are not touched. |
| `Model.Records.AddProduct` | src/model.rs:123-132 | A name that is already a key fails with the duplicate error and leaves the map unchanged. Otherwise the map gains exactly `name ↦ product` and nothing else changes. The key/name invariant is kept. |
| `Model.Records.GetProductMut` | src/model.rs:141-145 | Returns the product stored under the name, and that product carries the name. An absent name fails with not-found. |
| `Model.Records.RemoveProduct` | src/model.rs:147-151 | Returns the stored product and deletes only its key. An absent name fails with not-found and leaves the map unchanged. The key/name invariant is kept. |
| `Model.Records.ListProducts` | src/model.rs:153-155 | Returns every stored product exactly once: one per key, no repeats, none from outside. Its length is the number of keys. |
| `Handlers.CheckPositive` | src/utils.rs:67-73 | A given amount passes unchanged if and only if it is above zero. An absent amount passes as absent. The error is the one supplied for that field. |
| `Handlers.ParseIfGiven` | src/utils.rs:75-84 | A given date string passes as its parsed date if and only if it parses. An absent string passes as absent. A string that does not parse gives the invalid-date error quoting it. |
| `Handlers.StatusIfGiven` | src/utils.rs:86 | A given status code passes as the status with that code if and only if the code is at most 3. Otherwise the error names the code. |
| `Handlers.ValidateSet` | src/utils.rs:67-123 | Accepts a request if and only if every given field is individually valid and the request does not give only half of a first sale. The repair count is never checked. An accepted patch carries exactly the requested values. Errors follow the source order: a bad price gives the price error, then a bad purchase date the invalid-date error quoting it, then a bad status code the error naming the code, then a bad repair cost the repair-cost error, then half of a first sale the pairing error, then a bad sold price the sold-price error, then a bad sold date the invalid-date error quoting it. The pairing error wins over a bad sold price or sold date. |
| `Handlers.AddSpec` | src/utils.rs:28-43 | `add` succeeds if and only if the name is non-empty, the price is above zero, the date parses and the name is new. Errors come in that order. On success the store gains exactly `name ↦ NewItem(name, price, date)` and every other entry is untouched. |
| `Handlers.SetSpec` | src/utils.rs:62-134 | A missing name is reported first, then a name that is not a key, before any field is validated. Otherwise `set` succeeds exactly when `ValidateSet` accepts, and its error is `ValidateSet`'s error, passed on unchanged. On success only the named item changes, and it changes by `Updated`. |
| `Handlers.RemoveSpec` | src/utils.rs:159-161 | Named delete succeeds if and only if the name is a key. It removes exactly that key and leaves every other entry as it was. Otherwise it fails with not-found. |
| `Handlers.AddHandler` | src/utils.rs:21-47 | Checks the name, price and date, builds a fresh product and inserts it, then saves. The resulting store is `AddSpec` of the old one. On any error nothing is inserted and nothing is saved. |
| `Handlers.SetHandler` | src/utils.rs:50-138 | The resulting store is `SetSpec` of the old one, saved once. On any error the store object and every product object are unchanged and nothing is saved, because the single `Update` comes after all checks. |
| `Handlers.DeleteHandler` | src/utils.rs:159-161 | The resulting store is `RemoveSpec` of the old one, saved once. On not-found the store is unchanged and nothing is saved. |
| `HandlerProperties.AddKeepsKeysMatchingNames` | src/utils.rs:41-43 | A successful `add` keeps every key equal to its item's name. |
| `HandlerProperties.SetKeepsKeysMatchingNames` | src/utils.rs:62-134 | A successful `set` keeps every key equal to its item's name. |
| `HandlerProperties.RemoveKeepsKeysMatchingNames` | src/utils.rs:159-161 | A successful named delete keeps every key equal to its item's name. |
| `HandlerProperties.SetKeepsSoldPairing` | src/utils.rs:110-134 | If a product's sold price and sold date are both set or both unset, they still are after an accepted `set`. |
| `HandlerProperties.StoreKeepsSoldPairing` | src/utils.rs:21-161 | `add`, `set` and named delete each keep every product in the store sale-paired. |
| `HandlerProperties.AmendSoldPrice` | src/utils.rs:110-123 | Once either sale field is set, a `set` giving only a positive sold price is accepted and changes only the sold price. |
| `HandlerProperties.FirstSaleNeedsBoth` | src/utils.rs:110-123 | For a product with no sale recorded, giving only the sold price fails with the pairing error, whatever that price is. |
| `HandlerProperties.PriceOnlySet` | src/utils.rs:67-73 | A `set` giving only a positive price changes that item's price and nothing else in the store. |
| `HandlerProperties.RepairCountUnchecked` | src/utils.rs:126-134 | Changing the requested repair count never changes whether `set` accepts the request. An accepted patch carries that repair count. |
| `HandlerProperties.RemoveUndoesAdd` | src/utils.rs:41-43 | Deleting the name that `add` just inserted gives back the store from before the add. |
| `HandlerProperties.AddTwiceFails` | src/model.rs:123-132 | A second valid `add` under the same name fails with the duplicate error. |
| `HandlerProperties.LaptopSession` | src/utils.rs:21-161 | A full session: add "Laptop", set status 2 (Broken), record a sale with both fields, then delete. Each step gives exactly the expected store, ending empty. |

## Left out

- `Records::load` and the file I/O and JSON encoding of `Records::save`
  (src/model.rs:106-115, 134-139) are foreign library behaviour. `Save`
  only records the snapshot it would write.
- Model.Records.Save: a failing file write is not modelled. In the source,
  such a failure turns a command that already changed the in-memory store
  into an error.
- `setup_records_file` (src/utils.rs:11-19): the path comes from the
  platform's data directory. The record path parameter of the handlers is
  dropped with it.
- Date parsing: chrono's `%Y-%m-%d` parser is the parameter `parse`. The
  model does not say which strings parse.
- `show_handler` and everything in `src/display.rs`: table rendering, a
  holding time that depends on the current clock, and a floating-point daily
  cost.
- The interactive branch of `delete_handler` (src/utils.rs:163-177), which
  picks a name from a terminal menu. `Handlers.DeleteHandler` takes the name
  directly.
- `src/cli.rs` and `src/main.rs`: argument parsing and dispatch. That
  includes the CLI's declared but unused `--new-name` flag. It also includes
  the default status of 0 (src/cli.rs:40-46). Because of that default, every
  `worthit set` run without `-s` passes status code 0 and resets the status
  to Active. The model takes the status as given, so the sale step of
  `HandlerProperties.LaptopSession` keeps the status Broken, where the real
  CLI would reset it to Active.
- Stores that break the key/name invariant: a hand-edited records file whose
  key differs from its product's name loads fine in the source
  (src/model.rs:106-115). Such a store is outside the `Records.Valid()`
  precondition of the store methods and of `Handlers.AddHandler`,
  `Handlers.SetHandler` and `Handlers.DeleteHandler`. The pure functions
  `AddSpec`, `SetSpec` and `RemoveSpec` still cover such maps.
- Floating-point edge cases: prices are reals, so NaN and infinities are not
  modelled. In Rust, `price <= 0.0` is false for NaN, so `add` would accept
  a NaN price. The `> 0.0` checks of `set` reject it.
- `Status::to_cantonees` and the `Display` of `Status` are only used when
  rendering.
