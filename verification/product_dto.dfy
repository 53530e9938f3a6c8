/** ProductDto: the product record and the guard sequence of its compact
    constructor. */
module ProductDtos {
  import opened Common

  /** The constructor's arguments as a caller may pass them (None is null). */
  datatype ProductDtoArgs = ProductDtoArgs(
    productName: Option<string>, price: Option<real>, quantity: Option<int>,
    description: Option<string>, code: Option<int>)

  /** A constructed ProductDto. Only `description` may still be null. */
  datatype ProductDto = ProductDto(
    productName: string, price: real, quantity: int, description: Option<string>, code: int)
  {
    /** What the compact constructor guarantees of every ProductDto value. */
    predicate Valid()
    {
      !IsBlank(productName) && price >= 0.0 && quantity >= 0 && code > 0
    }

    /** The arguments that construct this record. */
    function Args(): ProductDtoArgs
    {
      ProductDtoArgs(Some(productName), Some(price), Some(quantity), description, Some(code))
    }
  }

  const NAME_MESSAGE := "Product name cannot be null or blank"
  const PRICE_MESSAGE := "Price must be a non-negative number"
  const QUANTITY_MESSAGE := "Quantity must be a non-negative number"
  const CODE_MESSAGE := "Code must be a positive number"

  predicate PriceAccepted(price: Option<real>) { price.Some? && price.value >= 0.0 }
  predicate QuantityAccepted(quantity: Option<int>) { quantity.Some? && quantity.value >= 0 }
  predicate CodeAccepted(code: Option<int>) { code.Some? && code.value > 0 }

  /** The exception the constructor throws. The one-argument constructor it
      calls does not exist on ProductValidationException, so no status is
      known for it. */
  function Rejection(message: string): Raised
  {
    Raised(ProductValidation, message, None)
  }

  /** `new ProductDto(...)`: name, then price, then quantity, then code; the
      first failing check decides the exception; the description is never
      examined. */
  function NewProductDto(args: ProductDtoArgs): (r: Result<ProductDto, Raised>)
    ensures r.Success? <==>
      Present(args.productName) && PriceAccepted(args.price) && QuantityAccepted(args.quantity) && CodeAccepted(args.code)
    ensures r.Success? ==> r.value.Valid() && r.value.Args() == args
    ensures !Present(args.productName) ==> r == Failure(Rejection(NAME_MESSAGE))
    ensures Present(args.productName) && !PriceAccepted(args.price) ==> r == Failure(Rejection(PRICE_MESSAGE))
    ensures Present(args.productName) && PriceAccepted(args.price) && !QuantityAccepted(args.quantity)
      ==> r == Failure(Rejection(QUANTITY_MESSAGE))
    ensures Present(args.productName) && PriceAccepted(args.price) && QuantityAccepted(args.quantity) && !CodeAccepted(args.code)
      ==> r == Failure(Rejection(CODE_MESSAGE))
  {
    if !Present(args.productName) then Failure(Rejection(NAME_MESSAGE))
    else if !PriceAccepted(args.price) then Failure(Rejection(PRICE_MESSAGE))
    else if !QuantityAccepted(args.quantity) then Failure(Rejection(QUANTITY_MESSAGE))
    else if !CodeAccepted(args.code) then Failure(Rejection(CODE_MESSAGE))
    else Success(ProductDto(args.productName.value, args.price.value, args.quantity.value, args.description, args.code.value))
  }

  /** Every valid record is constructed from its own arguments, and nothing
      else constructs it: construction is a bijection between accepted
      arguments and valid records. */
  lemma ProductDtoRoundTrip(d: ProductDto, args: ProductDtoArgs)
    ensures d.Valid() ==> NewProductDto(d.Args()) == Success(d)
    ensures NewProductDto(args) == Success(d) ==> d.Args() == args
  {
  }

  /** Zero price and zero quantity are accepted, and the description is
      unconstrained: null or blank descriptions pass. */
  lemma BoundaryValuesAccepted(name: string, description: Option<string>, code: int)
    requires !IsBlank(name) && code > 0
    ensures NewProductDto(ProductDtoArgs(Some(name), Some(0.0), Some(0), description, Some(code))).Success?
  {
  }
}
