/** ProductController: the route table of required roles, and the handlers
    that check the caller's authorities and then hand the service's envelope
    back with HTTP 200. */
module ProductRoutes {
  import opened Common
  import opened Responses
  import opened ProductDtos
  import opened Accounts
  import opened UserDetailsLookup
  import Catalog

  /** The seven routes under /api/v1/product. */
  datatype Endpoint =
    | AddRoute          // POST /add
    | GetByCodeRoute    // GET /{code}
    | ChangeRoute       // PUT /change
    | UpdateRoute       // PATCH /{code}/update
    | RemoveRoute       // DELETE /{code}
    | ListRoute         // GET /list
    | ChangePriceRoute  // PUT /{code}/change/{price}

  /** The role each route's @PreAuthorize("hasRole(...)") names: the two
      reads need USER, every write needs ADMIN. */
  function RequiredRole(e: Endpoint): (role: string)
    ensures role == "USER" <==> e == GetByCodeRoute || e == ListRoute
    ensures role == "ADMIN" <==> !(e == GetByCodeRoute || e == ListRoute)
  {
    match e
    case GetByCodeRoute => "USER"
    case ListRoute => "USER"
    case _ => "ADMIN"
  }

  /** hasRole(role): the authorities hold "ROLE_" + role; no hierarchy. */
  predicate HasRole(authorities: set<string>, role: string)
  {
    ROLE_PREFIX + role in authorities
  }

  predicate Admits(authorities: set<string>, e: Endpoint)
  {
    HasRole(authorities, RequiredRole(e))
  }

  /** The exception the method-security interceptor throws on refusal. */
  function Denied(): Raised
  {
    Raised(AccessDenied, "Access Denied", None)
  }

  /** ResponseEntity.ok(envelope): a returned envelope travels with HTTP 200
      whatever its own status; a thrown exception passes through. */
  function WrapOk<T>(o: Catalog.Outcome<T>): (r: Result<ResponseEntity<GenericResponse<T>>, Raised>)
    ensures r.Success? <==> o.Success?
    ensures r.Success? ==> r.value.httpStatus == OK && r.value.body == o.value
    ensures r.Failure? ==> r.error == o.error
  {
    match o
    case Success(envelope) => Success(ResponseEntity(OK, envelope))
    case Failure(ex) => Failure(ex)
  }

  /** An account loaded by the user-details service passes a route's check
      exactly when it holds the role the route names. */
  lemma {:induction false} AdmittedIffHoldsRole(user: User, e: Endpoint)
    ensures Admits(Authorities(user.roles), e) <==> Role(RequiredRole(e)) in user.roles
  {
    AuthorityIffRole(user.roles, RequiredRole(e));
  }

  /** ADMIN does not imply USER: an account holding only ADMIN is refused
      both read routes, and one holding only USER every write route. */
  lemma {:induction false} NoRoleHierarchy(e: Endpoint)
    ensures e == GetByCodeRoute || e == ListRoute ==> !Admits(Authorities({Role("ADMIN")}), e)
    ensures !(e == GetByCodeRoute || e == ListRoute) ==> !Admits(Authorities({Role("USER")}), e)
  {
    AuthorityIffRole({Role("ADMIN")}, RequiredRole(e));
    AuthorityIffRole({Role("USER")}, RequiredRole(e));
  }

  /** A successful add answers HTTP 200 carrying an envelope whose own
      status is 201. */
  lemma AddAnswersOkAroundCreated(s: Catalog.Store, dto: ProductDto)
    requires dto.code !in s
    ensures var r := WrapOk(Catalog.AddProductStep(s, dto).outcome);
      r.Success? && r.value.httpStatus == OK && r.value.body.status == CREATED
  {
  }

  class ProductController {
    const productService: Catalog.ProductService

    constructor (productService: Catalog.ProductService)
      ensures this.productService == productService
    {
      this.productService := productService;
    }

    method AddProduct(authorities: set<string>, request: ProductDto)
      returns (r: Result<ResponseEntity<GenericResponse<()>>, Raised>)
      requires productService.Valid() && request.Valid()
      modifies productService
      ensures productService.Valid()
      ensures !Admits(authorities, AddRoute) ==>
        r == Failure(Denied()) && productService.products == old(productService.products)
      ensures Admits(authorities, AddRoute) ==>
        var step := Catalog.AddProductStep(old(productService.products), request);
        productService.products == step.store && r == WrapOk(step.outcome)
    {
      if !Admits(authorities, AddRoute) {
        return Failure(Denied());
      }
      var envelope := productService.AddProduct(request);
      r := WrapOk(envelope);
    }

    method GetProductByCode(authorities: set<string>, code: int)
      returns (r: Result<ResponseEntity<GenericResponse<ProductDto>>, Raised>)
      ensures !Admits(authorities, GetByCodeRoute) ==> r == Failure(Denied())
      ensures Admits(authorities, GetByCodeRoute) ==>
        r == WrapOk(Catalog.GetProductByCode(productService.products, code))
    {
      if !Admits(authorities, GetByCodeRoute) {
        return Failure(Denied());
      }
      r := WrapOk(Catalog.GetProductByCode(productService.products, code));
    }

    method ChangeProduct(authorities: set<string>, request: ProductDto)
      returns (r: Result<ResponseEntity<GenericResponse<()>>, Raised>)
      requires productService.Valid() && request.Valid()
      modifies productService
      ensures productService.Valid()
      ensures !Admits(authorities, ChangeRoute) ==>
        r == Failure(Denied()) && productService.products == old(productService.products)
      ensures Admits(authorities, ChangeRoute) ==>
        var step := Catalog.ChangeProductStep(old(productService.products), request);
        productService.products == step.store && r == WrapOk(step.outcome)
    {
      if !Admits(authorities, ChangeRoute) {
        return Failure(Denied());
      }
      var envelope := productService.ChangeProduct(request);
      r := WrapOk(envelope);
    }

    method UpdateProduct(authorities: set<string>, code: int, request: Catalog.UpdateProductDto)
      returns (r: Result<ResponseEntity<GenericResponse<()>>, Raised>)
      requires productService.Valid()
      modifies productService
      ensures productService.Valid()
      ensures !Admits(authorities, UpdateRoute) ==>
        r == Failure(Denied()) && productService.products == old(productService.products)
      ensures Admits(authorities, UpdateRoute) ==>
        var step := Catalog.UpdateProductStep(old(productService.products), code, request);
        productService.products == step.store && r == WrapOk(step.outcome)
    {
      if !Admits(authorities, UpdateRoute) {
        return Failure(Denied());
      }
      var envelope := productService.UpdateProduct(code, request);
      r := WrapOk(envelope);
    }

    method RemoveProduct(authorities: set<string>, code: int)
      returns (r: Result<ResponseEntity<GenericResponse<()>>, Raised>)
      requires productService.Valid()
      modifies productService
      ensures productService.Valid()
      ensures !Admits(authorities, RemoveRoute) ==>
        r == Failure(Denied()) && productService.products == old(productService.products)
      ensures Admits(authorities, RemoveRoute) ==>
        var step := Catalog.RemoveProductStep(old(productService.products), code);
        productService.products == step.store && r == WrapOk(step.outcome)
    {
      if !Admits(authorities, RemoveRoute) {
        return Failure(Denied());
      }
      var envelope := productService.RemoveProduct(code);
      r := WrapOk(envelope);
    }

    method GetAllProducts(authorities: set<string>)
      returns (r: Result<ResponseEntity<GenericResponse<seq<ProductDto>>>, Raised>)
      requires productService.Valid()
      ensures !Admits(authorities, ListRoute) ==> r == Failure(Denied())
      ensures Admits(authorities, ListRoute) ==>
        && r.Success? && r.value.httpStatus == OK
        && r.value.body.status == OK && r.value.body.success
        && r.value.body.data.Some? && |r.value.body.data.value| == |productService.products|
        && (forall c :: c in productService.products ==>
              Catalog.ToDto(productService.products[c]) in r.value.body.data.value)
    {
      if !Admits(authorities, ListRoute) {
        return Failure(Denied());
      }
      var envelope := Catalog.GetAllProducts(productService.products);
      r := WrapOk(Success(envelope));
    }

    method ChangeProductPrice(authorities: set<string>, code: int, price: Option<real>)
      returns (r: Result<ResponseEntity<GenericResponse<()>>, Raised>)
      requires productService.Valid()
      modifies productService
      ensures productService.Valid()
      ensures !Admits(authorities, ChangePriceRoute) ==>
        r == Failure(Denied()) && productService.products == old(productService.products)
      ensures Admits(authorities, ChangePriceRoute) ==>
        var step := Catalog.ChangeProductPriceStep(old(productService.products), code, price);
        productService.products == step.store && r == WrapOk(step.outcome)
    {
      if !Admits(authorities, ChangePriceRoute) {
        return Failure(Denied());
      }
      var envelope := productService.ChangeProductPrice(code, price);
      r := WrapOk(envelope);
    }
  }
}
