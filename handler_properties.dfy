/** Properties of the `add`, `set` and `delete` commands that relate several
    operations or several calls: the key/name invariant, the sold-price and
    sold-date pairing, round trips and a complete example session. */
module HandlerProperties {
  import opened Results
  import opened Model
  import opened Handlers

  /** Sold price and sold date are both recorded or both absent. */
  predicate SoldPaired(it: Item) {
    it.soldPrice.Some? == it.soldDate.Some?
  }

  ghost predicate AllSoldPaired(m: map<string, Item>) {
    forall k :: k in m ==> SoldPaired(m[k])
  }

  /** The request that only changes the status code. */
  function StatusOnly(code: u32): SetRequest {
    SetRequest(None, None, Some(code), None, None, None, None)
  }

  /** The request that only records a sale. */
  function SaleOnly(soldPrice: real, soldDate: string): SetRequest {
    SetRequest(None, None, None, None, None, Some(soldPrice), Some(soldDate))
  }

  // ---------------------------------------------------------------------
  // The key/name invariant
  // ---------------------------------------------------------------------

  lemma AddKeepsKeysMatchingNames(m: map<string, Item>, name: string, price: real,
                                  purchaseDate: string, parse: string -> Option<Date>)
    requires KeysMatchNames(m)
    requires AddSpec(m, name, price, purchaseDate, parse).Ok?
    ensures KeysMatchNames(AddSpec(m, name, price, purchaseDate, parse).value)
  {
  }

  lemma SetKeepsKeysMatchingNames(m: map<string, Item>, name: Option<string>, req: SetRequest,
                                  parse: string -> Option<Date>)
    requires KeysMatchNames(m)
    requires SetSpec(m, name, req, parse).Ok?
    ensures KeysMatchNames(SetSpec(m, name, req, parse).value)
  {
  }

  lemma RemoveKeepsKeysMatchingNames(m: map<string, Item>, name: string)
    requires KeysMatchNames(m)
    requires RemoveSpec(m, name).Ok?
    ensures KeysMatchNames(RemoveSpec(m, name).value)
  {
  }

  // ---------------------------------------------------------------------
  // The sold-price / sold-date pairing
  // ---------------------------------------------------------------------

  /** An accepted `set` keeps a product with paired sale fields paired:
      a first sale must give both halves, and a product with both halves
      recorded keeps both. */
  lemma SetKeepsSoldPairing(current: Item, req: SetRequest, parse: string -> Option<Date>)
    requires SoldPaired(current)
    requires ValidateSet(current, req, parse).Ok?
    ensures SoldPaired(Updated(current, ValidateSet(current, req, parse).value))
  {
  }

  /** Every command keeps every product in the store sale-paired. */
  lemma StoreKeepsSoldPairing(m: map<string, Item>, name: string, price: real, purchaseDate: string,
                              target: Option<string>, req: SetRequest, parse: string -> Option<Date>)
    requires AllSoldPaired(m)
    ensures AddSpec(m, name, price, purchaseDate, parse).Ok? ==>
      AllSoldPaired(AddSpec(m, name, price, purchaseDate, parse).value)
    ensures SetSpec(m, target, req, parse).Ok? ==> AllSoldPaired(SetSpec(m, target, req, parse).value)
    ensures RemoveSpec(m, name).Ok? ==> AllSoldPaired(RemoveSpec(m, name).value)
  {
  }

  /** Amending a recorded sale: once either sale field is set, a later
      `set` may give only the sold price, and then only that field changes. */
  lemma AmendSoldPrice(current: Item, soldPrice: real, parse: string -> Option<Date>)
    requires current.soldPrice.Some? || current.soldDate.Some?
    requires soldPrice > 0.0
    ensures var req := SetRequest(None, None, None, None, None, Some(soldPrice), None);
      && ValidateSet(current, req, parse).Ok?
      && Updated(current, ValidateSet(current, req, parse).value) == current.(soldPrice := Some(soldPrice))
  {
  }

  /** A first sale that gives only one half fails with the pairing error,
      even when that half is itself invalid. */
  lemma FirstSaleNeedsBoth(current: Item, soldPrice: real, parse: string -> Option<Date>)
    requires current.soldPrice.None? && current.soldDate.None?
    ensures ValidateSet(current, SetRequest(None, None, None, None, None, Some(soldPrice), None), parse)
      == Err(SoldPairRequired)
  {
  }

  // ---------------------------------------------------------------------
  // Partial updates
  // ---------------------------------------------------------------------

  /** A `set` giving only the price changes the price and nothing else. */
  lemma PriceOnlySet(m: map<string, Item>, name: string, price: real, parse: string -> Option<Date>)
    requires name in m && price > 0.0
    ensures SetSpec(m, Some(name), SetRequest(Some(price), None, None, None, None, None, None), parse)
      == Ok(m[name := m[name].(price := price)])
  {
  }

  /** The repair count is passed through unchecked: changing it never
      changes whether `set` accepts a request. */
  lemma RepairCountUnchecked(current: Item, req: SetRequest, count: Option<u32>,
                             parse: string -> Option<Date>)
    ensures ValidateSet(current, req.(repairCount := count), parse).Ok?
      == ValidateSet(current, req, parse).Ok?
    ensures ValidateSet(current, req.(repairCount := count), parse).Ok? ==>
      ValidateSet(current, req.(repairCount := count), parse).value.repairCount == count
  {
  }

  // ---------------------------------------------------------------------
  // Add and delete
  // ---------------------------------------------------------------------

  /** Deleting what was just added gives back the store from before. */
  lemma RemoveUndoesAdd(m: map<string, Item>, name: string, price: real, purchaseDate: string,
                        parse: string -> Option<Date>)
    requires AddSpec(m, name, price, purchaseDate, parse).Ok?
    ensures RemoveSpec(AddSpec(m, name, price, purchaseDate, parse).value, name) == Ok(m)
  {
    var added := AddSpec(m, name, price, purchaseDate, parse).value;
    assert (added - {name}).Keys == m.Keys;
    assert added - {name} == m;
  }

  /** Adding the same name twice: the second add fails with the duplicate
      error whatever its other arguments. */
  lemma AddTwiceFails(m: map<string, Item>, name: string, price: real, purchaseDate: string,
                      price2: real, purchaseDate2: string, parse: string -> Option<Date>)
    requires AddSpec(m, name, price, purchaseDate, parse).Ok?
    requires price2 > 0.0 && parse(purchaseDate2).Some?
    ensures AddSpec(AddSpec(m, name, price, purchaseDate, parse).value, name, price2, purchaseDate2, parse)
      == Err(DuplicateName(name))
  {
  }

  // ---------------------------------------------------------------------
  // An example session
  // ---------------------------------------------------------------------

  /** Add a laptop, mark it broken, sell it, delete it. */
  lemma LaptopSession(parse: string -> Option<Date>)
    requires parse("2024-1-6").Some? && parse("2025-1-6").Some?
    ensures
      var bought := NewItem("Laptop", 12000.0, parse("2024-1-6").value);
      var broken := bought.(status := Some(Broken));
      var sold := broken.(soldPrice := Some(8000.0), soldDate := parse("2025-1-6"));
      && AddSpec(map[], "Laptop", 12000.0, "2024-1-6", parse) == Ok(map["Laptop" := bought])
      && SetSpec(map["Laptop" := bought], Some("Laptop"), StatusOnly(2), parse)
         == Ok(map["Laptop" := broken])
      && SetSpec(map["Laptop" := broken], Some("Laptop"), SaleOnly(8000.0, "2025-1-6"), parse)
         == Ok(map["Laptop" := sold])
      && RemoveSpec(map["Laptop" := sold], "Laptop") == Ok(map[])
  {
    var bought := NewItem("Laptop", 12000.0, parse("2024-1-6").value);
    var broken := bought.(status := Some(Broken));
    var sold := broken.(soldPrice := Some(8000.0), soldDate := parse("2025-1-6"));
    assert StatusIfGiven(Some(2)) == Ok(Some(Broken));
    assert ValidateSet(bought, StatusOnly(2), parse)
      == Ok(Patch(None, None, Some(Broken), None, None, None, None));
    assert ValidateSet(broken, SaleOnly(8000.0, "2025-1-6"), parse)
      == Ok(Patch(None, None, None, None, None, Some(8000.0), parse("2025-1-6")));
    assert Updated(bought, Patch(None, None, Some(Broken), None, None, None, None)) == broken;
    assert Updated(broken, Patch(None, None, None, None, None, Some(8000.0), parse("2025-1-6"))) == sold;
    assert map["Laptop" := bought]["Laptop" := broken] == map["Laptop" := broken];
    assert map["Laptop" := broken]["Laptop" := sold] == map["Laptop" := sold];
  }
}
