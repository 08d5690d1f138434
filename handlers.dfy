/** The validate-then-apply command logic of the purchase tracker
    (src/utils.rs): `add`, `set` and the named form of `delete`.

    Each handler is a method on the store, proved against a function on the
    store's contents (`AddSpec`, `SetSpec`, `RemoveSpec`); what the commands
    promise is proved about those functions. Date parsing is the parameter
    `parse`, standing for the date library's `%Y-%m-%d` parser. */
module Handlers {
  import opened Results
  import opened Model

  /** The arguments of `set` other than the name, as the user typed them. */
  datatype SetRequest = SetRequest(
    price: Option<real>,
    purchaseDate: Option<string>,
    status: Option<u32>,
    repairCount: Option<u32>,
    repairCost: Option<real>,
    soldPrice: Option<real>,
    soldDate: Option<string>)

  // ---------------------------------------------------------------------
  // Validation of the optional fields of `set`
  // ---------------------------------------------------------------------

  /** An optional amount that must be above zero when it is given. */
  function CheckPositive(x: Option<real>, e: Error): (r: Result<Option<real>>)
    ensures r.Ok? <==> (x.Some? ==> x.value > 0.0)
    ensures r.Ok? ==> r.value == x
    ensures r.Err? ==> r.error == e
  {
    match x
    case None => Ok(None)
    case Some(v) => if v > 0.0 then Ok(Some(v)) else Err(e)
  }

  /** An optional date string that must parse when it is given. */
  function ParseIfGiven(s: Option<string>, parse: string -> Option<Date>): (r: Result<Option<Date>>)
    ensures r.Ok? <==> (s.Some? ==> parse(s.value).Some?)
    ensures r.Ok? ==> (r.value.Some? <==> s.Some?)
    ensures r.Ok? && s.Some? ==> r.value == parse(s.value)
    ensures r.Err? ==> s.Some? && r.error == InvalidDate(s.value)
  {
    match s
    case None => Ok(None)
    case Some(text) =>
      match parse(text)
      case None => Err(InvalidDate(text))
      case Some(d) => Ok(Some(d))
  }

  /** An optional status code that must name a status when it is given. */
  function StatusIfGiven(code: Option<u32>): (r: Result<Option<Status>>)
    ensures r.Ok? <==> (code.Some? ==> code.value <= 3)
    ensures r.Ok? ==> (r.value.Some? <==> code.Some?)
    ensures r.Ok? && code.Some? ==> StatusId(r.value.value) == code.value
    ensures r.Err? ==> code.Some? && r.error == InvalidStatusId(code.value as int)
  {
    match code
    case None => Ok(None)
    case Some(id) =>
      var s :- StatusFromU32(id);
      Ok(Some(s))
  }

  /** Exactly one of sold price and sold date is given, for a product that
      has never recorded a sale: the first sale must set both together. */
  predicate FirstSaleHalfGiven(current: Item, req: SetRequest) {
    (req.soldPrice.Some? != req.soldDate.Some?)
    && current.soldPrice.None? && current.soldDate.None?
  }

  /** The fields checked before the sale fields are all acceptable. */
  predicate EarlyFieldsValid(req: SetRequest, parse: string -> Option<Date>) {
    && (req.price.Some? ==> req.price.value > 0.0)
    && (req.purchaseDate.Some? ==> parse(req.purchaseDate.value).Some?)
    && (req.status.Some? ==> req.status.value <= 3)
    && (req.repairCost.Some? ==> req.repairCost.value > 0.0)
  }

  /** When `set` accepts a request for a product, stated field by field.
      The repair count is not mentioned: any count is accepted. */
  predicate SetAcceptable(current: Item, req: SetRequest, parse: string -> Option<Date>) {
    && EarlyFieldsValid(req, parse)
    && !FirstSaleHalfGiven(current, req)
    && (req.soldPrice.Some? ==> req.soldPrice.value > 0.0)
    && (req.soldDate.Some? ==> parse(req.soldDate.value).Some?)
  }

  /** The patch hands on exactly what was requested, dates parsed and the
      status code decoded. */
  predicate CarriesRequest(p: Patch, req: SetRequest, parse: string -> Option<Date>) {
    && p.price == req.price
    && (req.purchaseDate.None? ==> p.purchaseDate.None?)
    && (req.purchaseDate.Some? ==> p.purchaseDate == parse(req.purchaseDate.value))
    && (req.status.None? ==> p.status.None?)
    && (req.status.Some? ==> p.status.Some? && StatusId(p.status.value) == req.status.value)
    && p.repairCount == req.repairCount
    && p.repairCost == req.repairCost
    && p.soldPrice == req.soldPrice
    && (req.soldDate.None? ==> p.soldDate.None?)
    && (req.soldDate.Some? ==> p.soldDate == parse(req.soldDate.value))
  }

  /** The validation chain of `set_handler` for the product `current`:
      price, purchase date, status and repair cost in that order, then the
      first-sale pairing rule, then sold price and sold date. */
  function ValidateSet(current: Item, req: SetRequest, parse: string -> Option<Date>): (r: Result<Patch>)
    ensures r.Ok? <==> SetAcceptable(current, req, parse)
    ensures r.Ok? ==> CarriesRequest(r.value, req, parse)
    ensures req.price.Some? && req.price.value <= 0.0 ==> r == Err(NonPositivePrice)
    ensures && (req.price.Some? ==> req.price.value > 0.0)
            && req.purchaseDate.Some? && parse(req.purchaseDate.value).None?
            ==> r == Err(InvalidDate(req.purchaseDate.value))
    ensures && (req.price.Some? ==> req.price.value > 0.0)
            && (req.purchaseDate.Some? ==> parse(req.purchaseDate.value).Some?)
            && req.status.Some? && req.status.value > 3
            ==> r == Err(InvalidStatusId(req.status.value as int))
    ensures && (req.price.Some? ==> req.price.value > 0.0)
            && (req.purchaseDate.Some? ==> parse(req.purchaseDate.value).Some?)
            && (req.status.Some? ==> req.status.value <= 3)
            && req.repairCost.Some? && req.repairCost.value <= 0.0
            ==> r == Err(NonPositiveRepairCost)
    ensures EarlyFieldsValid(req, parse) && FirstSaleHalfGiven(current, req) ==> r == Err(SoldPairRequired)
    ensures && EarlyFieldsValid(req, parse) && !FirstSaleHalfGiven(current, req)
            && req.soldPrice.Some? && req.soldPrice.value <= 0.0
            ==> r == Err(NonPositiveSoldPrice)
    ensures && EarlyFieldsValid(req, parse) && !FirstSaleHalfGiven(current, req)
            && (req.soldPrice.Some? ==> req.soldPrice.value > 0.0)
            && req.soldDate.Some? && parse(req.soldDate.value).None?
            ==> r == Err(InvalidDate(req.soldDate.value))
  {
    var price :- CheckPositive(req.price, NonPositivePrice);
    var purchaseDate :- ParseIfGiven(req.purchaseDate, parse);
    var status :- StatusIfGiven(req.status);
    var repairCost :- CheckPositive(req.repairCost, NonPositiveRepairCost);
    if FirstSaleHalfGiven(current, req) then
      Err(SoldPairRequired)
    else
      var soldPrice :- CheckPositive(req.soldPrice, NonPositiveSoldPrice);
      var soldDate :- ParseIfGiven(req.soldDate, parse);
      Ok(Patch(price, purchaseDate, status, req.repairCount, repairCost, soldPrice, soldDate))
  }

  // ---------------------------------------------------------------------
  // The commands as functions on the store's contents
  // ---------------------------------------------------------------------

  /** What `add` does to the store's contents. */
  function AddSpec(m: map<string, Item>, name: string, price: real, purchaseDate: string,
                   parse: string -> Option<Date>): (r: Result<map<string, Item>>)
    ensures r.Ok? <==> name != [] && price > 0.0 && parse(purchaseDate).Some? && name !in m
    ensures name == [] ==> r == Err(EmptyName)
    ensures name != [] && price <= 0.0 ==> r == Err(NonPositivePrice)
    ensures name != [] && price > 0.0 && parse(purchaseDate).None? ==> r == Err(InvalidDate(purchaseDate))
    ensures name != [] && price > 0.0 && parse(purchaseDate).Some? && name in m ==> r == Err(DuplicateName(name))
    ensures r.Ok? ==> r.value.Keys == m.Keys + {name}
    ensures r.Ok? ==> r.value[name] == NewItem(name, price, parse(purchaseDate).value)
    ensures r.Ok? ==> forall k :: k in m ==> r.value[k] == m[k]
  {
    if name == [] then Err(EmptyName)
    else if price <= 0.0 then Err(NonPositivePrice)
    else if parse(purchaseDate).None? then Err(InvalidDate(purchaseDate))
    else if name in m then Err(DuplicateName(name))
    else Ok(m[name := NewItem(name, price, parse(purchaseDate).value)])
  }

  /** What `set` does to the store's contents. */
  function SetSpec(m: map<string, Item>, name: Option<string>, req: SetRequest,
                   parse: string -> Option<Date>): (r: Result<map<string, Item>>)
    ensures name.None? ==> r == Err(NameRequired)
    ensures name.Some? && name.value !in m ==> r == Err(NotFound(name.value))
    ensures name.Some? && name.value in m ==> (r.Ok? <==> SetAcceptable(m[name.value], req, parse))
    ensures name.Some? && name.value in m && r.Err? ==> r == Err(ValidateSet(m[name.value], req, parse).error)
    ensures r.Ok? ==> name.Some? && name.value in m && r.value.Keys == m.Keys
    ensures r.Ok? ==> forall k :: k in m && k != name.value ==> r.value[k] == m[k]
    ensures r.Ok? ==> r.value[name.value] == Updated(m[name.value], ValidateSet(m[name.value], req, parse).value)
  {
    if name.None? then Err(NameRequired)
    else if name.value !in m then Err(NotFound(name.value))
    else
      var current := m[name.value];
      var patch :- ValidateSet(current, req, parse);
      Ok(m[name.value := Updated(current, patch)])
  }

  /** What the named form of `delete` does to the store's contents. */
  function RemoveSpec(m: map<string, Item>, name: string): (r: Result<map<string, Item>>)
    ensures r.Ok? <==> name in m
    ensures r.Err? ==> r.error == NotFound(name)
    ensures r.Ok? ==> r.value.Keys == m.Keys - {name}
    ensures r.Ok? ==> forall k :: k in r.value ==> r.value[k] == m[k]
  {
    if name in m then Ok(m - {name}) else Err(NotFound(name))
  }

  // ---------------------------------------------------------------------
  // The handlers
  // ---------------------------------------------------------------------

  /** `add_handler`: checks the name, the price and the date in that order,
      builds a new product and inserts it, then saves. */
  method AddHandler(name: string, price: real, purchaseDate: string, records: Records,
                    parse: string -> Option<Date>) returns (r: Result<()>)
    requires records.Valid()
    modifies records
    ensures records.Valid()
    ensures match AddSpec(old(records.Contents()), name, price, purchaseDate, parse)
      case Ok(m) =>
        && r.Ok? && records.Contents() == m && fresh(records.products[name])
        && records.saves == old(records.saves) + [m]
      case Err(e) =>
        && r == Err(e) && records.products == old(records.products)
        && records.saves == old(records.saves)
  {
    if name == [] {
      return Err(EmptyName);
    }
    if price <= 0.0 {
      return Err(NonPositivePrice);
    }
    var date := parse(purchaseDate);
    if date.None? {
      return Err(InvalidDate(purchaseDate));
    }
    var product := new Product(name, price, date.value);
    var _ :- records.AddProduct(product);
    records.Save();
    return Ok(());
  }

  /** `set_handler`: finds the product, validates every given field and the
      sale pairing, and only then updates the product in place and saves. */
  method SetHandler(name: Option<string>, req: SetRequest, records: Records,
                    parse: string -> Option<Date>) returns (r: Result<()>)
    requires records.Valid()
    modifies records, records.products.Values
    ensures records.Valid() && records.products == old(records.products)
    ensures match SetSpec(old(records.Contents()), name, req, parse)
      case Ok(m) =>
        && r.Ok? && records.Contents() == m
        && records.saves == old(records.saves) + [m]
      case Err(e) =>
        && r == Err(e) && unchanged(records) && unchanged(records.products.Values)
  {
    if name.None? {
      return Err(NameRequired);
    }
    var product :- records.GetProductMut(name.value);
    var patch :- ValidateSet(product.Value(), req, parse);
    product.Update(patch);
    records.Save();
    return Ok(());
  }

  /** The named branch of `delete_handler`: removes that product, then
      saves, or fails with not-found. */
  method DeleteHandler(name: string, records: Records) returns (r: Result<()>)
    requires records.Valid()
    modifies records
    ensures records.Valid()
    ensures match RemoveSpec(old(records.Contents()), name)
      case Ok(m) =>
        && r.Ok? && records.Contents() == m
        && records.saves == old(records.saves) + [m]
      case Err(e) =>
        && r == Err(e) && records.products == old(records.products)
        && records.saves == old(records.saves)
  {
    var _ :- records.RemoveProduct(name);
    records.Save();
    return Ok(());
  }
}
