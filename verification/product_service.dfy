/** ProductService: the product catalog keyed by product code. The repository
    is a map from code to entity; each mutating operation is a method of the
    service class, proved against a step function that gives its new store and
    its outcome from the old store. */
module Catalog {
  import opened Common
  import opened Responses
  import opened ProductDtos

  /** The persisted product entity (its generated id is not modelled). */
  datatype Product = Product(
    productName: string, price: real, quantity: int, description: Option<string>, code: int)

  /** ProductMapper.toEntity: a field-by-field copy. */
  function ToEntity(dto: ProductDto): Product
  {
    Product(dto.productName, dto.price, dto.quantity, dto.description, dto.code)
  }

  /** ProductMapper.toDto: a field-by-field copy. */
  function ToDto(p: Product): ProductDto
  {
    ProductDto(p.productName, p.price, p.quantity, p.description, p.code)
  }

  /** The body of PATCH /{code}/update: every field may be null. */
  datatype UpdateProductDto = UpdateProductDto(
    productName: Option<string>, price: Option<real>, quantity: Option<int>, description: Option<string>)

  /** The product repository: code -> stored product. */
  type Store = map<int, Product>

  /** Every product is filed under its own code and satisfies the ProductDto
      guards it was created through. */
  ghost predicate ValidStore(s: Store)
  {
    forall c :: c in s ==> s[c].code == c && ToDto(s[c]).Valid()
  }

  type Outcome<T> = Result<GenericResponse<T>, Raised>

  /** The new store and the outcome of one mutating call. */
  datatype Step = Step(store: Store, outcome: Outcome<()>)

  /** A successful envelope meets the declared bounds; a failure is a
      ProductValidationException with an in-range status and a non-blank
      message. */
  ghost predicate WellFormedOutcome<T>(o: Outcome<T>)
  {
    match o
    case Success(e) => e.WellFormed()
    case Failure(x) =>
      x.kind == ProductValidation && x.status.Some? && 100 <= x.status.value <= 599 && !IsBlank(x.message)
  }

  // The exceptions the service throws.

  function AlreadyExists(code: int): (x: Raised)
    ensures x.kind == ProductValidation && x.status == Some(CONFLICT) && !IsBlank(x.message)
  {
    var m := "Product with code " + LongToString(code) + " already exists.";
    VisibleHeadNotBlank(m);
    Raised(ProductValidation, m, Some(CONFLICT))
  }

  function NotFound(code: int): (x: Raised)
    ensures x.kind == ProductValidation && x.status == Some(NOT_FOUND) && !IsBlank(x.message)
  {
    var m := "Product with code " + LongToString(code) + " not found.";
    VisibleHeadNotBlank(m);
    Raised(ProductValidation, m, Some(NOT_FOUND))
  }

  function DoesNotExist(code: int): (x: Raised)
    ensures x.kind == ProductValidation && x.status == Some(NOT_FOUND) && !IsBlank(x.message)
  {
    var m := "Product with code " + LongToString(code) + " does not exist.";
    VisibleHeadNotBlank(m);
    Raised(ProductValidation, m, Some(NOT_FOUND))
  }

  function InvalidPrice(): (x: Raised)
    ensures x.kind == ProductValidation && x.status == Some(BAD_REQUEST) && !IsBlank(x.message)
  {
    var m := "Price must be a non-negative value.";
    VisibleHeadNotBlank(m);
    Raised(ProductValidation, m, Some(BAD_REQUEST))
  }

  /** A service envelope without data. */
  function Done(status: int, message: string): (e: GenericResponse<()>)
    requires 100 <= status <= 599 && |message| > 0 && !IsWhitespace(message[0])
    ensures e.WellFormed() && e.success && e.data.None? && e.status == status && e.message == message
  {
    WellFormedWhen<()>(GenericResponse(status, true, message, None));
    GenericResponse(status, true, message, None)
  }

  /** addProduct: CONFLICT when the code is taken, with the store untouched;
      otherwise the product is filed under its code and nothing else moves. */
  function AddProductStep(s: Store, dto: ProductDto): (r: Step)
    ensures r.outcome.Success? <==> dto.code !in s
    ensures r.outcome.Failure? ==> r.store == s && r.outcome.error == AlreadyExists(dto.code)
    ensures r.outcome.Success? ==>
      && r.outcome.value == GenericResponse(CREATED, true, "Product added successfully", None)
      && r.store.Keys == s.Keys + {dto.code}
      && r.store[dto.code] == ToEntity(dto)
      && (forall c :: c in s ==> r.store[c] == s[c])
    ensures WellFormedOutcome(r.outcome)
    ensures ValidStore(s) && dto.Valid() ==> ValidStore(r.store)
  {
    if dto.code in s then Step(s, Failure(AlreadyExists(dto.code)))
    else Step(s[dto.code := ToEntity(dto)], Success(Done(CREATED, "Product added successfully")))
  }

  /** getProductByCode: the stored product as a DTO, or NOT_FOUND. */
  function GetProductByCode(s: Store, code: int): (r: Outcome<ProductDto>)
    ensures r.Success? <==> code in s
    ensures r.Success? ==> r.value == GenericResponse(OK, true, "Product found", Some(ToDto(s[code])))
    ensures r.Failure? ==> r.error == NotFound(code)
    ensures WellFormedOutcome(r)
  {
    if code in s then
      WellFormedWhen(GenericResponse(OK, true, "Product found", Some(ToDto(s[code]))));
      Success(GenericResponse(OK, true, "Product found", Some(ToDto(s[code]))))
    else Failure(NotFound(code))
  }

  /** updateEntityFromDto: name, price, quantity and description are copied;
      the code stays. */
  function Replaced(p: Product, dto: ProductDto): (q: Product)
    ensures q.code == p.code
    ensures ToDto(q) == dto.(code := p.code)
  {
    p.(productName := dto.productName, price := dto.price, quantity := dto.quantity, description := dto.description)
  }

  /** changeProduct: NOT_FOUND when the code is absent; otherwise exactly the
      four mutable fields of that product take the DTO's values. */
  function ChangeProductStep(s: Store, dto: ProductDto): (r: Step)
    ensures r.outcome.Success? <==> dto.code in s
    ensures r.outcome.Failure? ==> r.store == s && r.outcome.error == NotFound(dto.code)
    ensures r.outcome.Success? ==>
      && r.outcome.value == GenericResponse(OK, true, "Product changed successfully", None)
      && r.store.Keys == s.Keys
      && r.store[dto.code] == Replaced(s[dto.code], dto)
      && (forall c :: c in s && c != dto.code ==> r.store[c] == s[c])
    ensures WellFormedOutcome(r.outcome)
    ensures ValidStore(s) && dto.Valid() ==> ValidStore(r.store)
  {
    if dto.code !in s then Step(s, Failure(NotFound(dto.code)))
    else Step(s[dto.code := Replaced(s[dto.code], dto)], Success(Done(OK, "Product changed successfully")))
  }

  /** The guarded setters of updateProduct: a field is written only when the
      patch value is non-null and non-blank (strings) or non-negative
      (numbers); anything else is ignored without an error. */
  function Patched(p: Product, patch: UpdateProductDto): Product
  {
    p.(productName := if Present(patch.productName) then patch.productName.value else p.productName,
       price := if patch.price.Some? && patch.price.value >= 0.0 then patch.price.value else p.price,
       quantity := if patch.quantity.Some? && patch.quantity.value >= 0 then patch.quantity.value else p.quantity,
       description := if Present(patch.description) then patch.description else p.description)
  }

  /** updateProduct: NOT_FOUND when the code is absent; otherwise only that
      product is patched. */
  function UpdateProductStep(s: Store, code: int, patch: UpdateProductDto): (r: Step)
    ensures r.outcome.Success? <==> code in s
    ensures r.outcome.Failure? ==> r.store == s && r.outcome.error == NotFound(code)
    ensures r.outcome.Success? ==>
      && r.outcome.value == GenericResponse(OK, true, "Product updated successfully", None)
      && r.store.Keys == s.Keys
      && r.store[code] == Patched(s[code], patch)
      && (forall c :: c in s && c != code ==> r.store[c] == s[c])
    ensures WellFormedOutcome(r.outcome)
    ensures ValidStore(s) ==> ValidStore(r.store)
  {
    if code !in s then Step(s, Failure(NotFound(code)))
    else Step(s[code := Patched(s[code], patch)], Success(Done(OK, "Product updated successfully")))
  }

  /** removeProduct: NOT_FOUND ("does not exist.") when the code is absent;
      otherwise exactly that code leaves the store. */
  function RemoveProductStep(s: Store, code: int): (r: Step)
    ensures r.outcome.Success? <==> code in s
    ensures r.outcome.Failure? ==> r.store == s && r.outcome.error == DoesNotExist(code)
    ensures r.outcome.Success? ==>
      && r.outcome.value == GenericResponse(OK, true, "Product removed successfully", None)
      && r.store.Keys == s.Keys - {code}
      && (forall c :: c in r.store ==> r.store[c] == s[c])
    ensures WellFormedOutcome(r.outcome)
    ensures ValidStore(s) ==> ValidStore(r.store)
  {
    if code !in s then Step(s, Failure(DoesNotExist(code)))
    else Step(s - {code}, Success(Done(OK, "Product removed successfully")))
  }

  /** changeProductPrice: the price is checked before the lookup, so a null or
      negative price is BAD_REQUEST whether or not the code exists; then an
      absent code is NOT_FOUND; otherwise only that product's price changes. */
  function ChangeProductPriceStep(s: Store, code: int, price: Option<real>): (r: Step)
    ensures r.outcome.Success? <==> price.Some? && price.value >= 0.0 && code in s
    ensures (price.None? || price.value < 0.0) ==> r == Step(s, Failure(InvalidPrice()))
    ensures price.Some? && price.value >= 0.0 && code !in s ==> r == Step(s, Failure(NotFound(code)))
    ensures r.outcome.Success? ==>
      && r.outcome.value == GenericResponse(OK, true, "Product price changed successfully", None)
      && r.store.Keys == s.Keys
      && r.store[code] == s[code].(price := price.value)
      && (forall c :: c in s && c != code ==> r.store[c] == s[c])
    ensures WellFormedOutcome(r.outcome)
    ensures ValidStore(s) ==> ValidStore(r.store)
  {
    if price.None? || price.value < 0.0 then Step(s, Failure(InvalidPrice()))
    else if code !in s then Step(s, Failure(NotFound(code)))
    else Step(s[code := s[code].(price := price.value)], Success(Done(OK, "Product price changed successfully")))
  }

  /** getAllProducts: one DTO per stored product, in the repository's order. */
  method GetAllProducts(s: Store) returns (r: GenericResponse<seq<ProductDto>>)
    requires ValidStore(s)
    ensures r.status == OK && r.success && r.message == "Products retrieved successfully"
    ensures r.WellFormed() && r.data.Some?
    ensures |r.data.value| == |s|
    ensures forall c :: c in s ==> ToDto(s[c]) in r.data.value
    ensures forall i :: 0 <= i < |r.data.value| ==>
      r.data.value[i].code in s && r.data.value[i] == ToDto(s[r.data.value[i].code])
  {
    var codes := Enumerate(s.Keys);
    var products := [];
    var k := 0;
    while k < |codes|
      invariant 0 <= k <= |codes|
      invariant |products| == k
      invariant forall i :: 0 <= i < k ==> products[i] == ToDto(s[codes[i]])
    {
      products := products + [ToDto(s[codes[k]])];
      k := k + 1;
    }
    forall c | c in s
      ensures ToDto(s[c]) in products
    {
      var i :| 0 <= i < |codes| && codes[i] == c;
      assert products[i] == ToDto(s[c]);
    }
    forall i | 0 <= i < |products|
      ensures products[i].code in s && products[i] == ToDto(s[products[i].code])
    {
      assert codes[i] in codes;
      assert codes[i] in s && s[codes[i]].code == codes[i];
      assert products[i] == ToDto(s[codes[i]]);
    }
    WellFormedWhen(GenericResponse(OK, true, "Products retrieved successfully", Some(products)));
    r := GenericResponse(OK, true, "Products retrieved successfully", Some(products));
  }

  /** Saving a DTO and then getting its code yields the same DTO. */
  lemma AddThenGet(s: Store, dto: ProductDto)
    requires dto.code !in s
    ensures GetProductByCode(AddProductStep(s, dto).store, dto.code)
      == Success(GenericResponse(OK, true, "Product found", Some(dto)))
  {
  }

  /** After a successful remove, getting that code fails with NOT_FOUND. */
  lemma RemoveThenGet(s: Store, code: int)
    requires code in s
    ensures GetProductByCode(RemoveProductStep(s, code).store, code) == Failure(NotFound(code))
  {
  }

  /** After a successful change, getting the code returns the DTO that was
      sent. */
  lemma ChangeThenGet(s: Store, dto: ProductDto)
    requires ValidStore(s) && dto.code in s
    ensures GetProductByCode(ChangeProductStep(s, dto).store, dto.code)
      == Success(GenericResponse(OK, true, "Product found", Some(dto)))
  {
    assert s[dto.code].code == dto.code;
  }

  /** After a successful price change, getting the code returns the old DTO
      with only the new price. */
  lemma PriceChangeThenGet(s: Store, code: int, price: real)
    requires code in s && price >= 0.0
    ensures GetProductByCode(ChangeProductPriceStep(s, code, Some(price)).store, code)
      == Success(GenericResponse(OK, true, "Product found", Some(ToDto(s[code]).(price := price))))
  {
  }

  /** A patch of nulls (or of values the guards ignore) changes nothing, yet
      the call still succeeds. */
  lemma EmptyPatchChangesNothing(s: Store, code: int)
    requires code in s
    ensures UpdateProductStep(s, code, UpdateProductDto(None, None, None, None))
      == Step(s, Success(GenericResponse(OK, true, "Product updated successfully", None)))
  {
  }

  /** A patch carrying only a price changes only the price. */
  lemma PricePatchChangesOnlyPrice(p: Product, price: real)
    requires price >= 0.0
    ensures Patched(p, UpdateProductDto(None, Some(price), None, None)) == p.(price := price)
  {
  }

  /** A patch with a blank name and negative numbers is silently ignored. */
  lemma InvalidPatchIgnored(p: Product, blank: string, price: real, quantity: int)
    requires IsBlank(blank) && price < 0.0 && quantity < 0
    ensures Patched(p, UpdateProductDto(Some(blank), Some(price), Some(quantity), Some(blank))) == p
  {
  }

  class ProductService {
    var products: Store

    ghost predicate Valid()
      reads this
    {
      ValidStore(products)
    }

    constructor ()
      ensures Valid() && products == map[]
    {
      products := map[];
    }

    method AddProduct(productDto: ProductDto) returns (r: Outcome<()>)
      requires Valid() && productDto.Valid()
      modifies this
      ensures Valid()
      ensures products == AddProductStep(old(products), productDto).store
      ensures r == AddProductStep(old(products), productDto).outcome
    {
      if productDto.code in products {
        return Failure(AlreadyExists(productDto.code));
      }
      var product := ToEntity(productDto);
      products := products[product.code := product];
      r := Success(Done(CREATED, "Product added successfully"));
    }

    method ChangeProduct(productDto: ProductDto) returns (r: Outcome<()>)
      requires Valid() && productDto.Valid()
      modifies this
      ensures Valid()
      ensures products == ChangeProductStep(old(products), productDto).store
      ensures r == ChangeProductStep(old(products), productDto).outcome
    {
      if productDto.code !in products {
        return Failure(NotFound(productDto.code));
      }
      var product := products[productDto.code];
      product := product.(productName := productDto.productName);
      product := product.(price := productDto.price);
      product := product.(quantity := productDto.quantity);
      product := product.(description := productDto.description);
      products := products[productDto.code := product];
      r := Success(Done(OK, "Product changed successfully"));
    }

    method UpdateProduct(code: int, updateProductDto: UpdateProductDto) returns (r: Outcome<()>)
      requires Valid()
      modifies this
      ensures Valid()
      ensures products == UpdateProductStep(old(products), code, updateProductDto).store
      ensures r == UpdateProductStep(old(products), code, updateProductDto).outcome
    {
      if code !in products {
        return Failure(NotFound(code));
      }
      var product := products[code];
      if Present(updateProductDto.productName) {
        product := product.(productName := updateProductDto.productName.value);
      }
      if updateProductDto.price.Some? && updateProductDto.price.value >= 0.0 {
        product := product.(price := updateProductDto.price.value);
      }
      if updateProductDto.quantity.Some? && updateProductDto.quantity.value >= 0 {
        product := product.(quantity := updateProductDto.quantity.value);
      }
      if Present(updateProductDto.description) {
        product := product.(description := updateProductDto.description);
      }
      products := products[code := product];
      r := Success(Done(OK, "Product updated successfully"));
    }

    method RemoveProduct(code: int) returns (r: Outcome<()>)
      requires Valid()
      modifies this
      ensures Valid()
      ensures products == RemoveProductStep(old(products), code).store
      ensures r == RemoveProductStep(old(products), code).outcome
    {
      if code !in products {
        return Failure(DoesNotExist(code));
      }
      products := products - {code};
      r := Success(Done(OK, "Product removed successfully"));
    }

    method ChangeProductPrice(code: int, price: Option<real>) returns (r: Outcome<()>)
      requires Valid()
      modifies this
      ensures Valid()
      ensures products == ChangeProductPriceStep(old(products), code, price).store
      ensures r == ChangeProductPriceStep(old(products), code, price).outcome
    {
      if price.None? || price.value < 0.0 {
        return Failure(InvalidPrice());
      }
      if code !in products {
        return Failure(NotFound(code));
      }
      var product := products[code];
      product := product.(price := price.value);
      products := products[code := product];
      r := Success(Done(OK, "Product price changed successfully"));
    }
  }
}
