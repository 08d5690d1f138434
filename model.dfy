/** The in-memory record store of the purchase tracker and its item type
    (src/model.rs): product status codes, products and the partial-update
    rule, and the store keyed by product name. */
module Model {
  import opened Results

  /** Rust's `u32`: status codes and repair counts. */
  newtype u32 = x: int | 0 <= x < 0x1_0000_0000

  /** A calendar date. Nothing in the core looks inside a date, it is only
      parsed, stored and replaced. */
  type Date(==)

  datatype Status = Active | Idle | Broken | Sold

  /** The code of each status: its position in the declaration. */
  function StatusId(s: Status): (id: u32)
    ensures id <= 3
  {
    match s
    case Active => 0
    case Idle => 1
    case Broken => 2
    case Sold => 3
  }

  /** The closed code-to-status mapping: 0..3 name the four statuses,
      every other code is an error naming that code. */
  function StatusFromU32(id: u32): (r: Result<Status>)
    ensures r.Ok? <==> id <= 3
    ensures r.Ok? ==> StatusId(r.value) == id
    ensures r.Err? ==> r.error == InvalidStatusId(id as int)
  {
    match id
    case 0 => Ok(Active)
    case 1 => Ok(Idle)
    case 2 => Ok(Broken)
    case 3 => Ok(Sold)
    case _ => Err(InvalidStatusId(id as int))
  }

  /** Decoding the code of a status gives that status back. */
  lemma StatusIdRoundTrip(s: Status)
    ensures StatusFromU32(StatusId(s)) == Ok(s)
  {
  }

  /** The value of a product: every field of the source's `Product`. */
  datatype Item = Item(
    name: string,
    price: real,
    purchaseDate: Date,
    status: Option<Status>,
    repairCount: Option<u32>,
    repairCost: Option<real>,
    soldPrice: Option<real>,
    soldDate: Option<Date>)

  /** The already validated arguments of `Product::update`, one per
      updatable field; `None` means "leave this field as it is". */
  datatype Patch = Patch(
    price: Option<real>,
    purchaseDate: Option<Date>,
    status: Option<Status>,
    repairCount: Option<u32>,
    repairCost: Option<real>,
    soldPrice: Option<real>,
    soldDate: Option<Date>)

  /** The patch that changes nothing. */
  const NoChange := Patch(None, None, None, None, None, None, None)

  /** A freshly bought product: active, with no repair or sale recorded. */
  function NewItem(name: string, price: real, purchaseDate: Date): Item {
    Item(name, price, purchaseDate, Some(Active), None, None, None, None)
  }

  /** The partial-update rule: each field given in the patch replaces the
      current one, each absent field stays as it is, and the name is never
      touched. */
  function Updated(it: Item, p: Patch): (r: Item)
    ensures r.name == it.name
    ensures p.price.Some? ==> r.price == p.price.value
    ensures p.price.None? ==> r.price == it.price
    ensures p.purchaseDate.Some? ==> r.purchaseDate == p.purchaseDate.value
    ensures p.purchaseDate.None? ==> r.purchaseDate == it.purchaseDate
    ensures p.status.Some? ==> r.status == p.status
    ensures p.status.None? ==> r.status == it.status
    ensures p.repairCount.Some? ==> r.repairCount == p.repairCount
    ensures p.repairCount.None? ==> r.repairCount == it.repairCount
    ensures p.repairCost.Some? ==> r.repairCost == p.repairCost
    ensures p.repairCost.None? ==> r.repairCost == it.repairCost
    ensures p.soldPrice.Some? ==> r.soldPrice == p.soldPrice
    ensures p.soldPrice.None? ==> r.soldPrice == it.soldPrice
    ensures p.soldDate.Some? ==> r.soldDate == p.soldDate
    ensures p.soldDate.None? ==> r.soldDate == it.soldDate
  {
    it.(price := p.price.GetOr(it.price),
        purchaseDate := p.purchaseDate.GetOr(it.purchaseDate),
        status := p.status.Or(it.status),
        repairCount := p.repairCount.Or(it.repairCount),
        repairCost := p.repairCost.Or(it.repairCost),
        soldPrice := p.soldPrice.Or(it.soldPrice),
        soldDate := p.soldDate.Or(it.soldDate))
  }

  /** An absent argument never clears a field: whatever was set stays set. */
  lemma UpdateNeverClears(it: Item, p: Patch)
    ensures it.status.Some? ==> Updated(it, p).status.Some?
    ensures it.repairCount.Some? ==> Updated(it, p).repairCount.Some?
    ensures it.repairCost.Some? ==> Updated(it, p).repairCost.Some?
    ensures it.soldPrice.Some? ==> Updated(it, p).soldPrice.Some?
    ensures it.soldDate.Some? ==> Updated(it, p).soldDate.Some?
  {
  }

  /** Applying the same patch twice is the same as applying it once, and
      the empty patch changes nothing. */
  lemma UpdateIdempotent(it: Item, p: Patch)
    ensures Updated(Updated(it, p), p) == Updated(it, p)
    ensures Updated(it, NoChange) == it
  {
  }

  /** The key/name invariant of the store: each key is the name of the
      product stored under it. */
  ghost predicate KeysMatchNames(m: map<string, Item>) {
    forall k :: k in m ==> m[k].name == k
  }

  /** A product in the store, updated in place. */
  class Product {
    var name: string
    var price: real
    var purchaseDate: Date
    var status: Option<Status>
    var repairCount: Option<u32>
    var repairCost: Option<real>
    var soldPrice: Option<real>
    var soldDate: Option<Date>

    /** The current value of every field. */
    function Value(): Item
      reads this
    {
      Item(name, price, purchaseDate, status, repairCount, repairCost, soldPrice, soldDate)
    }

    /** `Product::new`: keeps the name, price and purchase date, starts
        active and leaves every repair and sale field unset. */
    constructor (name: string, price: real, purchaseDate: Date)
      ensures this.name == name && this.price == price && this.purchaseDate == purchaseDate
      ensures status == Some(Active)
      ensures repairCount.None? && repairCost.None? && soldPrice.None? && soldDate.None?
      ensures Value() == NewItem(name, price, purchaseDate)
    {
      this.name := name;
      this.price := price;
      this.purchaseDate := purchaseDate;
      status := Some(Active);
      repairCount := None;
      repairCost := None;
      soldPrice := None;
      soldDate := None;
    }

    /** `Product::update`: assigns the fields one by one, following the
        partial-update rule `Updated`. */
    method Update(p: Patch)
      modifies this
      ensures Value() == Updated(old(Value()), p)
      ensures name == old(name)
    {
      if p.price.Some? {
        price := p.price.value;
      }
      if p.purchaseDate.Some? {
        purchaseDate := p.purchaseDate.value;
      }
      if p.status.Some? {
        status := p.status;
      }
      repairCount := p.repairCount.Or(repairCount);
      repairCost := p.repairCost.Or(repairCost);
      soldPrice := p.soldPrice.Or(soldPrice);
      soldDate := p.soldDate.Or(soldDate);
    }
  }

  /** The store: products keyed by name. */
  class Records {
    var products: map<string, Product>
    /** Every snapshot written to the records file, oldest first. */
    ghost var saves: seq<map<string, Item>>

    /** Each key is the name of the product stored under it. Two keys
        therefore never share one product object. */
    ghost predicate Valid()
      reads this`products, products.Values
    {
      forall k :: k in products ==> products[k].name == k
    }

    /** The store's contents as values. */
    ghost function Contents(): (c: map<string, Item>)
      reads this`products, products.Values
      ensures c.Keys == products.Keys
      ensures Valid() ==> KeysMatchNames(c)
    {
      map k | k in products :: products[k].Value()
    }

    /** `Records::new`: the empty store, nothing saved yet. */
    constructor ()
      ensures Valid() && products == map[] && Contents() == map[] && saves == []
    {
      products := map[];
      saves := [];
    }

    /** `Records::save`, reduced to recording what would be written. */
    method Save()
      modifies this`saves
      ensures saves == old(saves) + [Contents()]
    {
      saves := saves + [Contents()];
    }

    /** `Records::add_product`: refuses a name that is already a key and
        otherwise inserts the product under its own name. */
    method AddProduct(product: Product) returns (r: Result<()>)
      requires Valid()
      modifies this`products
      ensures Valid()
      ensures product.name in old(products) ==>
        r == Err(DuplicateName(product.name)) && products == old(products)
      ensures product.name !in old(products) ==>
        r == Ok(()) && products == old(products)[product.name := product]
    {
      if product.name in products {
        return Err(DuplicateName(product.name));
      }
      products := products[product.name := product];
      return Ok(());
    }

    /** `Records::get_product_mut`: the product stored under `name`, which
        carries that name, or not-found. */
    method GetProductMut(name: string) returns (r: Result<Product>)
      requires Valid()
      ensures name in products ==> r == Ok(products[name]) && r.value.name == name
      ensures name !in products ==> r == Err(NotFound(name))
    {
      if name in products {
        return Ok(products[name]);
      }
      return Err(NotFound(name));
    }

    /** `Records::remove_product`: removes and returns the product under
        `name`, touching no other key, or fails with not-found. */
    method RemoveProduct(name: string) returns (r: Result<Product>)
      requires Valid()
      modifies this`products
      ensures Valid()
      ensures name in old(products) ==>
        r == Ok(old(products[name])) && products == old(products) - {name}
      ensures name !in old(products) ==>
        r == Err(NotFound(name)) && products == old(products)
    {
      if name !in products {
        return Err(NotFound(name));
      }
      r := Ok(products[name]);
      products := products - {name};
    }

    /** `Records::list_products`: every stored product exactly once, in an
        order the map chooses. */
    method ListProducts() returns (r: seq<Product>)
      requires Valid()
      ensures |r| == |products|
      ensures forall i :: 0 <= i < |r| ==> r[i] in products.Values
      ensures forall k :: k in products ==> products[k] in r
      ensures forall i, j :: 0 <= i < j < |r| ==> r[i] != r[j]
    {
      r := [];
      var rest := products.Keys;
      while rest != {}
        invariant rest <= products.Keys
        invariant |r| + |rest| == |products|
        invariant forall i :: 0 <= i < |r| ==> r[i] in products.Values && r[i].name !in rest
        invariant forall k :: k in products && k !in rest ==> products[k] in r
        invariant forall i, j :: 0 <= i < j < |r| ==> r[i] != r[j]
        decreases |rest|
      {
        var k :| k in rest;
        r := r + [products[k]];
        rest := rest - {k};
      }
    }
  }
}
