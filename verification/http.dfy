/** Requests and responses of the REST surface as plain values. A request is
    the `adminToken` cookie (if any) and the route with its already-parsed
    inputs; a response is a status code, a JSON payload and what it does to
    the `adminToken` cookie. */
module Http {
  import opened Common
  import opened Storage

  /** The outcome of a schema's `safeParse` on the request body. */
  datatype SafeParse<T> = Success(data: T) | Failure(issue: string)

  /** What multer hands over for the `image` field. */
  datatype File = File(originalname: string, buffer: seq<byte>)

  datatype Route =
    | ListProducts
    | GetProduct(id: string)
    | ProductsByCategory(name: string)
    | CreateProduct(product: SafeParse<ProductData>)
    | UpdateProduct(id: string, product: SafeParse<ProductData>)
    | DeleteProduct(id: string)
    | ListCategories
    | CreateCategory(category: SafeParse<CategoryData>)
    | UpdateCategory(id: string, category: SafeParse<CategoryData>)
    | DeleteCategory(id: string)
    | UploadImage(file: Option<File>)
    | CheckAuth
    | Login(email: string, password: string)
    | Logout
    | ListContacts
    | SubmitContact(contact: SafeParse<ContactInput>)

  datatype Request = Request(cookie: Option<string>, route: Route)

  datatype Payload =
    | Message(text: string)
    | SchemaError(issue: string)
    | ProductJson(product: Product)
    | ProductsJson(products: seq<Product>)
    | CategoryJson(category: Category)
    | CategoriesJson(categories: seq<Category>)
    | ContactJson(contact: Contact)
    | ContactsJson(contacts: seq<Contact>)
    | Flag(flag: bool)
    | ImageUrl(url: string)
    | NoContent

  /** What the response does to the browser's `adminToken` cookie. */
  datatype CookieEffect = Keep | SetToken(token: string) | ClearToken

  datatype Response = Response(status: int, payload: Payload, cookie: CookieEffect)

  /** The cookie the browser sends next, after it has applied `effect`. */
  function ApplyCookie(jar: Option<string>, effect: CookieEffect): Option<string>
  {
    match effect
    case Keep => jar
    case SetToken(t) => Some(t)
    case ClearToken => None
  }

  /** The routes that run behind `authenticateAdmin`. */
  predicate IsProtected(route: Route)
  {
    route.CreateProduct? || route.UpdateProduct? || route.DeleteProduct? ||
    route.CreateCategory? || route.UpdateCategory? || route.DeleteCategory? ||
    route.UploadImage? || route.ListContacts?
  }
}
