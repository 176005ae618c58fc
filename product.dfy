/** InventoryManagementSystem/product.py and clothing.py: a product whose
    constructor validates its six untyped arguments in order, raising on the
    first bad one; a clothing item is a product with a size and a colour,
    validated after the base fields. Stock changes are checked so that the
    quantity never drops below zero. */
module Products {
  import opened Wrappers
  import Decimal

  /** A Python argument of unknown type. `bool` is a subclass of `int`,
      which the predicates below take into account. */
  datatype Value = Str(s: string) | Int(i: int) | Float(f: real) | Bool(b: bool) | NoneValue

  /** The ValueError each check raises, in the order the checks run. */
  datatype ProductError =
    | InvalidCategory | InvalidProductId | InvalidName | InvalidPrice
    | InvalidQuantity | InvalidReturnPeriod | InvalidSize | InvalidColor

  /** The exception text of each error. */
  function Message(e: ProductError): string
  {
    match e
    case InvalidCategory => "Error: Invalid category format."
    case InvalidProductId => "Error: Invalid product ID format."
    case InvalidName => "Error: Invalid name format."
    case InvalidPrice => "Error: Invalid price format."
    case InvalidQuantity => "Error: Invalid quantity format."
    case InvalidReturnPeriod => "Error: Invalid return period format."
    case InvalidSize => "Error: Invalid size format."
    case InvalidColor => "Error: Invalid color format."
  }

  /** `isinstance(v, str) and len(v) > 0` */
  predicate IsNonEmptyStr(v: Value) { v.Str? && |v.s| > 0 }

  /** `isinstance(v, int)`, true of bools too. */
  predicate IsInt(v: Value) { v.Int? || v.Bool? }

  /** The integer value of an int or bool. */
  function IntOf(v: Value): int
    requires IsInt(v)
  {
    if v.Int? then v.i else if v.b then 1 else 0
  }

  /** `isinstance(v, (int, float)) and v >= 0` */
  predicate IsNonNegNumber(v: Value)
  {
    (IsInt(v) && IntOf(v) >= 0) || (v.Float? && v.f >= 0.0)
  }

  /** `isinstance(v, int) and v >= 0` */
  predicate IsNonNegInt(v: Value) { IsInt(v) && IntOf(v) >= 0 }

  /** `str(v)` for an int or bool. */
  function IntText(v: Value): string
    requires IsInt(v)
  {
    if v.Int? then Decimal.Render(v.i) else if v.b then "True" else "False"
  }

  /** The validated base fields. Quantity and return period keep the
      argument itself, so a bool stays a bool (and prints as one). */
  datatype Attrs = Attrs(category: string, productId: string, name: string, price: Value,
                         quantity: Value, returnPeriod: Value)

  /** What the validated fields guarantee. */
  predicate AttrsValid(a: Attrs)
  {
    |a.category| > 0 && |a.productId| > 0 && |a.name| > 0 && IsNonNegNumber(a.price)
    && IsNonNegInt(a.quantity) && IsNonNegInt(a.returnPeriod)
  }

  /** Product.__init__: the checks in source order; the first failing one
      decides the error, so a later bad argument never hides an earlier one. */
  function Validate(category: Value, productId: Value, name: Value, price: Value,
                    quantity: Value, returnPeriod: Value): (r: Result<Attrs, ProductError>)
    ensures r.Ok? <==>
      IsNonEmptyStr(category) && (IsNonEmptyStr(productId) || IsInt(productId)) && IsNonEmptyStr(name)
      && IsNonNegNumber(price) && IsNonNegInt(quantity) && IsNonNegInt(returnPeriod)
    ensures r.Ok? ==> AttrsValid(r.value)
    ensures !IsNonEmptyStr(category) ==> r == Err(InvalidCategory)
    ensures IsNonEmptyStr(category) && !IsNonEmptyStr(productId) && !IsInt(productId) ==> r == Err(InvalidProductId)
    ensures r == Err(InvalidName) <==>
      IsNonEmptyStr(category) && (IsNonEmptyStr(productId) || IsInt(productId)) && !IsNonEmptyStr(name)
    ensures r == Err(InvalidReturnPeriod) ==> IsNonNegNumber(price) && IsNonNegInt(quantity)
    ensures (IsNonEmptyStr(category) && (IsNonEmptyStr(productId) || IsInt(productId)) && IsNonEmptyStr(name)
             && !IsNonNegNumber(price)) ==> r == Err(InvalidPrice)
    ensures (IsNonEmptyStr(category) && (IsNonEmptyStr(productId) || IsInt(productId)) && IsNonEmptyStr(name)
             && IsNonNegNumber(price) && !IsNonNegInt(quantity)) ==> r == Err(InvalidQuantity)
    ensures (IsNonEmptyStr(category) && (IsNonEmptyStr(productId) || IsInt(productId)) && IsNonEmptyStr(name)
             && IsNonNegNumber(price) && IsNonNegInt(quantity) && !IsNonNegInt(returnPeriod)) ==> r == Err(InvalidReturnPeriod)
  {
    if !IsNonEmptyStr(category) then Err(InvalidCategory)
    else if !(IsNonEmptyStr(productId) || IsInt(productId)) then Err(InvalidProductId)
    else if !IsNonEmptyStr(name) then Err(InvalidName)
    else if !IsNonNegNumber(price) then Err(InvalidPrice)
    else if !IsNonNegInt(quantity) then Err(InvalidQuantity)
    else if !IsNonNegInt(returnPeriod) then Err(InvalidReturnPeriod)
    else
      var id := if IsNonEmptyStr(productId) then productId.s else IntText(productId);
      Ok(Attrs(category.s, id, name.s, price, quantity, returnPeriod))
  }

  /** The validated fields are the arguments: strings as given, an int ID as
      its decimal text (which reads back as the same int), and the price,
      quantity and return period as given. */
  lemma ValidateKeeps(category: Value, productId: Value, name: Value, price: Value,
                      quantity: Value, returnPeriod: Value)
    requires Validate(category, productId, name, price, quantity, returnPeriod).Ok?
    ensures var a := Validate(category, productId, name, price, quantity, returnPeriod).value;
      && a.category == category.s && a.name == name.s && a.price == price
      && a.quantity == quantity && a.returnPeriod == returnPeriod
      && (productId.Str? ==> a.productId == productId.s)
      && (productId.Int? ==> Decimal.Parse(a.productId) == Some(productId.i))
  {
    if productId.Int? {
      Decimal.RenderRoundTrip(productId.i);
    }
  }

  /** What a clothing item adds to a product. */
  datatype Kind = General | Clothing(size: string, color: string)

  predicate KindValid(k: Kind)
  {
    k.Clothing? ==> |k.size| > 0 && |k.color| > 0
  }

  /** Clothing.__init__: the base checks first, then size, then colour. */
  function ValidateClothing(category: Value, productId: Value, name: Value, price: Value,
                            quantity: Value, returnPeriod: Value, size: Value, color: Value)
    : (r: Result<(Attrs, Kind), ProductError>)
    ensures var base := Validate(category, productId, name, price, quantity, returnPeriod);
      && (base.Err? ==> r == Err(base.error))
      && (base.Ok? && !IsNonEmptyStr(size) ==> r == Err(InvalidSize))
      && (base.Ok? && IsNonEmptyStr(size) && !IsNonEmptyStr(color) ==> r == Err(InvalidColor))
      && (r.Ok? <==> base.Ok? && IsNonEmptyStr(size) && IsNonEmptyStr(color))
      && (r.Ok? ==> r.value == (base.value, Clothing(size.s, color.s)) && AttrsValid(r.value.0) && KindValid(r.value.1))
  {
    match Validate(category, productId, name, price, quantity, returnPeriod)
    case Err(e) => Err(e)
    case Ok(a) =>
      if !IsNonEmptyStr(size) then Err(InvalidSize)
      else if !IsNonEmptyStr(color) then Err(InvalidColor)
      else Ok((a, Clothing(size.s, color.s)))
  }

  /** The two ways updateStock refuses. */
  datatype StockError = NegativeStock | ZeroAmount

  function StockMessage(e: StockError): string
  {
    match e
    case NegativeStock => "Error: Stock quantity cannot be negative."
    case ZeroAmount => "Error: amount entered cannot be 0."
  }

  /** The quantity updateStock leaves, or the error it raises: the
      negativity check comes before the zero check. */
  function StockAfter(quantity: int, amount: int): (r: Result<int, StockError>)
    ensures r == Err(NegativeStock) <==> quantity + amount < 0
    ensures r == Err(ZeroAmount) <==> quantity + amount >= 0 && amount == 0
    ensures r.Ok? ==> r.value == quantity + amount && r.value >= 0 && r.value != quantity
  {
    if amount + quantity < 0 then Err(NegativeStock)
    else if amount == 0 then Err(ZeroAmount)
    else Ok(quantity + amount)
  }

  /** The quantity after a series of updateStock calls, each refused one
      leaving it as it was. */
  function StockHistory(quantity: int, amounts: seq<int>): int
  {
    if |amounts| == 0 then quantity
    else
      var q := StockHistory(quantity, amounts[..|amounts| - 1]);
      match StockAfter(q, amounts[|amounts| - 1])
      case Ok(q') => q'
      case Err(_) => q
  }

  /** The amounts of the history that updateStock accepted. */
  function Accepted(quantity: int, amounts: seq<int>): seq<int>
  {
    if |amounts| == 0 then []
    else
      var q := StockHistory(quantity, amounts[..|amounts| - 1]);
      Accepted(quantity, amounts[..|amounts| - 1]) + (if StockAfter(q, amounts[|amounts| - 1]).Ok? then [amounts[|amounts| - 1]] else [])
  }

  function Sum(s: seq<int>): int
  {
    if |s| == 0 then 0 else Sum(s[..|s| - 1]) + s[|s| - 1]
  }

  /** The quantity never goes below zero, whatever is asked, and it moves
      by exactly the sum of the accepted amounts, none of which is zero. */
  lemma {:induction false} StockInvariant(quantity: int, amounts: seq<int>)
    requires quantity >= 0
    ensures StockHistory(quantity, amounts) >= 0
    ensures StockHistory(quantity, amounts) == quantity + Sum(Accepted(quantity, amounts))
    ensures forall i :: 0 <= i < |Accepted(quantity, amounts)| ==> Accepted(quantity, amounts)[i] != 0
  {
    if |amounts| > 0 {
      var p := amounts[..|amounts| - 1];
      var a := amounts[|amounts| - 1];
      StockInvariant(quantity, p);
      var acc := Accepted(quantity, p);
      if StockAfter(StockHistory(quantity, p), a).Ok? {
        assert (acc + [a])[..|acc|] == acc;
        assert Accepted(quantity, amounts) == acc + [a];
      } else {
        assert Accepted(quantity, amounts) == acc + [];
        assert acc + [] == acc;
      }
    }
  }

  /** `str(v)` of a validated quantity or return period: the decimal
      text of an int, "True" or "False" for a bool. */
  function FieldText(v: Value): (t: string)
    requires IsInt(v)
    ensures v.Int? ==> Decimal.Parse(t) == Some(v.i)
    ensures v.Bool? ==> t == (if v.b then "True" else "False")
  {
    if v.Int? then Decimal.RenderRoundTrip(v.i); IntText(v) else IntText(v)
  }

  /** The fields joined by sep, first to last. */
  function Join(fs: seq<string>, sep: string): string
    requires |fs| > 0
  {
    if |fs| == 1 then fs[0] else Join(fs[..|fs| - 1], sep) + sep + fs[|fs| - 1]
  }

  lemma JoinSnoc(fs: seq<string>, x: string, sep: string)
    requires |fs| > 0
    ensures Join(fs + [x], sep) == Join(fs, sep) + sep + x
  {
    assert (fs + [x])[..|fs|] == fs;
  }

  lemma JoinSix(f0: string, f1: string, f2: string, f3: string, f4: string, f5: string, sep: string)
    ensures Join([f0, f1, f2, f3, f4, f5], sep) == f0 + sep + f1 + sep + f2 + sep + f3 + sep + f4 + sep + f5
  {
    JoinSnoc([f0], f1, sep);
    JoinSnoc([f0, f1], f2, sep);
    JoinSnoc([f0, f1, f2], f3, sep);
    JoinSnoc([f0, f1, f2, f3], f4, sep);
    JoinSnoc([f0, f1, f2, f3, f4], f5, sep);
    assert [f0] + [f1] == [f0, f1];
    assert [f0, f1] + [f2] == [f0, f1, f2];
    assert [f0, f1, f2] + [f3] == [f0, f1, f2, f3];
    assert [f0, f1, f2, f3] + [f4] == [f0, f1, f2, f3, f4];
    assert [f0, f1, f2, f3, f4] + [f5] == [f0, f1, f2, f3, f4, f5];
  }

  /** The fields getProductDetails lists, in order; the price, formatted
      with two decimals by Python, is given as text. */
  function DetailFields(a: Attrs, k: Kind, priceText: string): (fs: seq<string>)
    requires AttrsValid(a)
    ensures |fs| == if k.Clothing? then 8 else 6
  {
    [a.category, a.productId, a.name, priceText, FieldText(a.quantity), FieldText(a.returnPeriod)]
      + (if k.Clothing? then [k.size, k.color] else [])
  }

  /** The labelled fields __str__ lists, in order. */
  function TextFields(a: Attrs, k: Kind, priceText: string): (fs: seq<string>)
    requires AttrsValid(a)
    ensures |fs| == if k.Clothing? then 8 else 6
  {
    ["Category: " + a.category, "ProductID: " + a.productId, "Name: " + a.name, "Price: $" + priceText,
     "Quantity: " + FieldText(a.quantity), "Return Period: " + FieldText(a.returnPeriod)]
      + (if k.Clothing? then ["Size: " + k.size, "Color: " + k.color] else [])
  }

  /** Product.getProductDetails: the six fields, comma-separated. */
  function BaseDetails(a: Attrs, priceText: string): (r: string)
    requires AttrsValid(a)
    ensures r == Join(DetailFields(a, General, priceText), ", ")
  {
    var q, p := FieldText(a.quantity), FieldText(a.returnPeriod);
    JoinSix(a.category, a.productId, a.name, priceText, q, p, ", ");
    assert DetailFields(a, General, priceText) == [a.category, a.productId, a.name, priceText, q, p];
    a.category + ", " + a.productId + ", " + a.name + ", " + priceText + ", " + q + ", " + p
  }

  /** getProductDetails, with Clothing's override appending size and
      colour: every field comma-separated. */
  function Details(a: Attrs, k: Kind, priceText: string): (r: string)
    requires AttrsValid(a)
    ensures r == Join(DetailFields(a, k, priceText), ", ")
  {
    match k
    case General => BaseDetails(a, priceText)
    case Clothing(size, color) =>
      var base := DetailFields(a, General, priceText);
      JoinSnoc(base, size, ", ");
      JoinSnoc(base + [size], color, ", ");
      assert DetailFields(a, k, priceText) == base + [size] + [color];
      BaseDetails(a, priceText) + ", " + size + ", " + color
  }

  /** Product.__str__: the six labelled fields, comma-separated. */
  function BaseText(a: Attrs, priceText: string): (r: string)
    requires AttrsValid(a)
    ensures r == Join(TextFields(a, General, priceText), ", ")
  {
    var c, i, n := "Category: " + a.category, "ProductID: " + a.productId, "Name: " + a.name;
    var pr, q, rp := "Price: $" + priceText, "Quantity: " + FieldText(a.quantity), "Return Period: " + FieldText(a.returnPeriod);
    JoinSix(c, i, n, pr, q, rp, ", ");
    assert TextFields(a, General, priceText) == [c, i, n, pr, q, rp];
    c + ", " + i + ", " + n + ", " + pr + ", " + q + ", " + rp
  }

  /** __str__, with Clothing's override appending labelled size and colour. */
  function Text(a: Attrs, k: Kind, priceText: string): (r: string)
    requires AttrsValid(a)
    ensures r == Join(TextFields(a, k, priceText), ", ")
  {
    match k
    case General => BaseText(a, priceText)
    case Clothing(size, color) =>
      var base := TextFields(a, General, priceText);
      JoinSnoc(base, "Size: " + size, ", ");
      JoinSnoc(base + ["Size: " + size], "Color: " + color, ", ");
      assert TextFields(a, k, priceText) == base + ["Size: " + size] + ["Color: " + color];
      BaseText(a, priceText) + ", " + ("Size: " + size) + ", " + ("Color: " + color)
  }

  /** A clothing item's details and text are its product's, followed by the
      clothing part; the product part ends with the return period, whose
      text reads back as the stored int, or is "True"/"False" for a bool. */
  lemma ClothingSuffix(a: Attrs, size: string, color: string, priceText: string)
    requires AttrsValid(a)
    ensures var d := Details(a, Clothing(size, color), priceText);
      var base := Details(a, General, priceText);
      var tail := FieldText(a.returnPeriod);
      && d[..|base|] == base && d[|base|..] == ", " + size + ", " + color
      && base[|base| - |tail|..] == tail
      && (a.returnPeriod.Int? ==> Decimal.Parse(base[|base| - |tail|..]) == Some(a.returnPeriod.i))
      && (a.returnPeriod.Bool? ==> base[|base| - |tail|..] == if a.returnPeriod.b then "True" else "False")
    ensures var t := Text(a, Clothing(size, color), priceText);
      var base := Text(a, General, priceText);
      t[..|base|] == base && t[|base|..] == ", Size: " + size + ", Color: " + color
  {
    DetailsEndsWithReturnPeriod(a, priceText);
    DetailsClothingSplit(a, size, color, priceText);
    TextClothingSplit(a, size, color, priceText);
  }

  lemma DetailsEndsWithReturnPeriod(a: Attrs, priceText: string)
    requires AttrsValid(a)
    ensures var base := Details(a, General, priceText);
      var tail := FieldText(a.returnPeriod);
      |tail| <= |base| && base[|base| - |tail|..] == tail
  {
    var base := Details(a, General, priceText);
    var tail := FieldText(a.returnPeriod);
    var head := a.category + ", " + a.productId + ", " + a.name + ", " + priceText + ", " + FieldText(a.quantity) + ", ";
    assert base == head + tail;
    assert base[|head|..] == tail;
  }

  lemma DetailsClothingSplit(a: Attrs, size: string, color: string, priceText: string)
    requires AttrsValid(a)
    ensures var d := Details(a, Clothing(size, color), priceText);
      var base := Details(a, General, priceText);
      d == base + (", " + size + ", " + color)
  {
  }

  lemma TextClothingSplit(a: Attrs, size: string, color: string, priceText: string)
    requires AttrsValid(a)
    ensures var t := Text(a, Clothing(size, color), priceText);
      var base := Text(a, General, priceText);
      t == base + (", Size: " + size + ", Color: " + color)
  {
  }

  /** A bool quantity passes validation as an int, is stored as the bool,
      and prints as "True": `Product("c", "1", "n", 1, True, 0)` has the
      details "c, 1, n, 1.00, True, 0". */
  lemma BoolQuantityDetails()
    ensures var v := Validate(Str("c"), Str("1"), Str("n"), Int(1), Bool(true), Int(0));
      && v.Ok? && v.value.quantity == Bool(true)
      && Details(v.value, General, "1.00") == "c, 1, n, 1.00, True, 0"
  {
    var v := Validate(Str("c"), Str("1"), Str("n"), Int(1), Bool(true), Int(0));
    var a := Attrs("c", "1", "n", Int(1), Bool(true), Int(0));
    assert v == Ok(a);
    assert FieldText(Bool(true)) == "True";
    assert FieldText(Int(0)) == "0" by { assert Decimal.Render(0) == "0"; }
    assert Details(a, General, "1.00") == "c" + ", " + "1" + ", " + "n" + ", " + "1.00" + ", " + "True" + ", " + "0";
  }

  /** A product object. A clothing item is one whose kind is Clothing. */
  class Product {
    var attrs: Attrs
    var kind: Kind

    ghost predicate Valid()
      reads this
    {
      AttrsValid(attrs) && KindValid(kind)
    }

    constructor (a: Attrs, k: Kind)
      requires AttrsValid(a) && KindValid(k)
      ensures Valid() && attrs == a && kind == k
    {
      attrs := a;
      kind := k;
    }

    function GetCategory(): string reads this { attrs.category }
    function GetProductId(): string reads this { attrs.productId }
    function GetName(): string reads this { attrs.name }
    function GetPrice(): Value reads this { attrs.price }
    function GetQuantity(): Value reads this { attrs.quantity }
    function GetReturnPeriod(): Value reads this { attrs.returnPeriod }

    /** Clothing.getSize and getColor; only a clothing item has them. */
    function GetSize(): string reads this requires kind.Clothing? { kind.size }
    function GetColor(): string reads this requires kind.Clothing? { kind.color }

    /** updateStock: a refused amount raises and leaves the quantity;
        otherwise the quantity grows by the amount (`+=` on a bool quantity
        gives an int). */
    method UpdateStock(amount: int) returns (err: Option<StockError>)
      requires Valid()
      modifies this
      ensures Valid() && kind == old(kind)
      ensures StockAfter(IntOf(old(attrs.quantity)), amount).Err? ==>
        err == Some(StockAfter(IntOf(old(attrs.quantity)), amount).error) && attrs == old(attrs)
      ensures StockAfter(IntOf(old(attrs.quantity)), amount).Ok? ==>
        err == None && attrs == old(attrs).(quantity := Int(StockAfter(IntOf(old(attrs.quantity)), amount).value))
    {
      var q := IntOf(attrs.quantity);
      if amount + q < 0 {
        return Some(NegativeStock);
      } else if amount == 0 {
        return Some(ZeroAmount);
      }
      attrs := attrs.(quantity := Int(q + amount));
      return None;
    }
  }

  /** `Product(category, productID, name, price, quantity, returnPeriod)`:
      a new product whose getters return the validated arguments, or the
      first validation error. */
  method NewProduct(category: Value, productId: Value, name: Value, price: Value,
                    quantity: Value, returnPeriod: Value) returns (r: Result<Product, ProductError>)
    ensures var v := Validate(category, productId, name, price, quantity, returnPeriod);
      v.Err? ==> r == Err(v.error)
    ensures var v := Validate(category, productId, name, price, quantity, returnPeriod);
      v.Ok? ==>
        && r.Ok? && fresh(r.value) && r.value.Valid() && r.value.kind == General
        && r.value.GetCategory() == v.value.category && r.value.GetProductId() == v.value.productId
        && r.value.GetName() == v.value.name && r.value.GetPrice() == v.value.price
        && r.value.GetQuantity() == v.value.quantity && r.value.GetReturnPeriod() == v.value.returnPeriod
  {
    match Validate(category, productId, name, price, quantity, returnPeriod)
    case Err(e) =>
      r := Err(e);
    case Ok(a) =>
      var p := new Product(a, General);
      r := Ok(p);
  }

  /** `Clothing(..., size, color)`: as NewProduct, then the size and colour
      checks; getSize and getColor return the validated arguments. */
  method NewClothing(category: Value, productId: Value, name: Value, price: Value,
                     quantity: Value, returnPeriod: Value, size: Value, color: Value)
    returns (r: Result<Product, ProductError>)
    ensures var v := ValidateClothing(category, productId, name, price, quantity, returnPeriod, size, color);
      v.Err? ==> r == Err(v.error)
    ensures var v := ValidateClothing(category, productId, name, price, quantity, returnPeriod, size, color);
      v.Ok? ==>
        && r.Ok? && fresh(r.value) && r.value.Valid() && r.value.attrs == v.value.0
        && r.value.kind.Clothing? && r.value.GetSize() == size.s && r.value.GetColor() == color.s
  {
    match ValidateClothing(category, productId, name, price, quantity, returnPeriod, size, color)
    case Err(e) =>
      r := Err(e);
    case Ok(ak) =>
      var p := new Product(ak.0, ak.1);
      r := Ok(p);
  }
}
