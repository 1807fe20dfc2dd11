/** server/routes.ts: every route handler as a pure function from the request
    and the store to the response and the next store. Protected routes run
    behind `authenticateAdmin`; the I/O outcomes a handler cannot decide
    (a failing admin lookup, the random bytes, the file write, the clock)
    arrive in an `Env`. */
module Routes {
  import opened Common
  import opened Tables
  import opened Storage
  import opened Http
  import opened Auth
  import opened Upload
  import opened JsNumbers

  const BadProductId: string := "Yanlış məhsul ID"
  const ProductNotFound: string := "Məhsul tapılmadı"
  const NoImage: string := "Şəkil yüklənmədi"
  const ImageWriteError: string := "Şəkil yükləmə xətası"
  const CategoryNotFound: string := "Kateqoriya tapılmadı"
  const CategoryHasProducts: string := "Bu kateqoriyada məhsullar var"
  const BadCredentials: string := "Email və ya şifrə yanlışdır"
  const LoggedIn: string := "Uğurla giriş edildi"
  const LoggedOut: string := "Çıxış edildi"

  /** What the outside world decides for one request. */
  datatype Env = Env(
    adminLookupFails: bool,  // `getAdminByEmail` throws inside the gate
    random: RandomBytes,     // `randomBytes(16)`
    writeSucceeds: bool,     // the upload's write stream finishes
    now: int)                // the database clock for `createdAt`

  datatype Outcome = Outcome(response: Response, store: Store)

  function Ok(payload: Payload): Response
  {
    Response(200, payload, Keep)
  }

  function Error(status: int, text: string): Response
  {
    Response(status, Message(text), Keep)
  }

  /** Some product's `category` column holds exactly this text. */
  ghost predicate Referenced(s: Store, text: string)
  {
    exists i :: 0 <= i < |s.products.rows| && s.products.rows[i].data.category == text
  }

  // ---------------------------------------------------------------- products

  /** GET /api/products/:id, which reads the id with `parseInt`. */
  function ReadProduct(s: Store, rawId: string): (r: Outcome)
    ensures r.store == s
    ensures r.response.status == 400 <==> ParseInt(rawId).None?
    ensures r.response.status == 404 <==>
      ParseInt(rawId).Some? && ParseInt(rawId).value !in Ids(s.products.rows)
    ensures r.response.status in {200, 400, 404}
    ensures r.response.status == 200 ==>
      && r.response.payload.ProductJson?
      && r.response.payload.product in s.products.rows
      && r.response.payload.product.id == ParseInt(rawId).value
  {
    match ParseInt(rawId)
    case None => Outcome(Error(400, BadProductId), s)
    case Some(id) =>
      match Storage.GetProduct(s, id)
      case None => Outcome(Error(404, ProductNotFound), s)
      case Some(p) => Outcome(Ok(ProductJson(p)), s)
  }

  /** POST /api/products, after the gate. */
  function AddProduct(s: Store, body: SafeParse<ProductData>): (r: Outcome)
    requires Valid(s)
    ensures Valid(r.store)
    ensures body.Failure? ==> r == Outcome(Response(400, SchemaError(body.issue), Keep), s)
    ensures body.Success? ==>
      && r.response.status == 201
      && r.response.payload.ProductJson?
      && r.response.payload.product.data == body.data
      && r.response.payload.product.id !in Ids(s.products.rows)
      && r.store.products.rows == s.products.rows + [r.response.payload.product]
      && r.store == s.(products := r.store.products)
  {
    match body
    case Failure(issue) => Outcome(Response(400, SchemaError(issue), Keep), s)
    case Success(data) =>
      var (s', p) := Storage.CreateProduct(s, data);
      Outcome(Response(201, ProductJson(p), Keep), s')
  }

  /** PUT /api/products/:id, after the gate; the id is read with `Number`. */
  function EditProduct(s: Store, rawId: string, body: SafeParse<ProductData>): (r: Outcome)
    requires Valid(s)
    ensures Valid(r.store)
    ensures body.Failure? ==> r == Outcome(Response(400, SchemaError(body.issue), Keep), s)
    ensures body.Success? && (ToNumber(rawId).None? || ToNumber(rawId).value !in Ids(s.products.rows))
      ==> r == Outcome(Error(404, ProductNotFound), s)
    ensures r.response.status == 200 ==>
      var id := ToNumber(rawId).value;
      && body.Success? && id in Ids(s.products.rows)
      && r.response.payload == ProductJson(Row(id, body.data))
      && r.store == s.(products := r.store.products)
      && |r.store.products.rows| == |s.products.rows|
      && forall i :: 0 <= i < |s.products.rows| ==>
           r.store.products.rows[i] ==
             (if s.products.rows[i].id == id then Row(id, body.data) else s.products.rows[i])
    ensures body.Success? && ToNumber(rawId).Some? && ToNumber(rawId).value in Ids(s.products.rows)
      ==> r.response.status == 200
    ensures r.response.status in {200, 400, 404}
  {
    match body
    case Failure(issue) => Outcome(Response(400, SchemaError(issue), Keep), s)
    case Success(data) =>
      match ToNumber(rawId)
      case None => Outcome(Error(404, ProductNotFound), s)
      case Some(id) =>
        var (s', updated) := Storage.UpdateProduct(s, id, data);
        match updated
        case None => Outcome(Error(404, ProductNotFound), s)
        case Some(p) => Outcome(Ok(ProductJson(p)), s')
  }

  /** DELETE /api/products/:id, after the gate. */
  function RemoveProduct(s: Store, rawId: string): (r: Outcome)
    requires Valid(s)
    ensures Valid(r.store)
    ensures r.response.status == 204 <==>
      ToNumber(rawId).Some? && ToNumber(rawId).value in Ids(s.products.rows)
    ensures r.response.status != 204 ==> r == Outcome(Error(404, ProductNotFound), s)
    ensures r.response.status == 204 ==>
      && r.response.payload == NoContent
      && ToNumber(rawId).value !in Ids(r.store.products.rows)
      && r.store == s.(products := r.store.products)
      && forall p :: p in r.store.products.rows <==>
           p in s.products.rows && p.id != ToNumber(rawId).value
  {
    match ToNumber(rawId)
    case None => Outcome(Error(404, ProductNotFound), s)
    case Some(id) =>
      var (s', removed) := Storage.DeleteProduct(s, id);
      if removed then Outcome(Response(204, NoContent, Keep), s')
      else Outcome(Error(404, ProductNotFound), s)
  }

  // -------------------------------------------------------------- categories

  /** POST /api/categories, after the gate. */
  function AddCategory(s: Store, body: SafeParse<CategoryData>): (r: Outcome)
    requires Valid(s)
    ensures Valid(r.store)
    ensures body.Failure? ==> r == Outcome(Response(400, SchemaError(body.issue), Keep), s)
    ensures body.Success? ==>
      && r.response.status == 201
      && r.response.payload.CategoryJson?
      && r.response.payload.category.data == body.data
      && r.response.payload.category.id !in Ids(s.categories.rows)
      && r.store.categories.rows == s.categories.rows + [r.response.payload.category]
      && r.store == s.(categories := r.store.categories)
  {
    match body
    case Failure(issue) => Outcome(Response(400, SchemaError(issue), Keep), s)
    case Success(data) =>
      var (s', c) := Storage.CreateCategory(s, data);
      Outcome(Response(201, CategoryJson(c), Keep), s')
  }

  /** PUT /api/categories/:id, after the gate. */
  function EditCategory(s: Store, rawId: string, body: SafeParse<CategoryData>): (r: Outcome)
    requires Valid(s)
    ensures Valid(r.store)
    ensures body.Failure? ==> r == Outcome(Response(400, SchemaError(body.issue), Keep), s)
    ensures body.Success? && (ToNumber(rawId).None? || ToNumber(rawId).value !in Ids(s.categories.rows))
      ==> r == Outcome(Error(404, CategoryNotFound), s)
    ensures r.response.status == 200 ==>
      var id := ToNumber(rawId).value;
      && body.Success? && id in Ids(s.categories.rows)
      && r.response.payload == CategoryJson(Row(id, body.data))
      && r.store == s.(categories := r.store.categories)
      && |r.store.categories.rows| == |s.categories.rows|
      && forall i :: 0 <= i < |s.categories.rows| ==>
           r.store.categories.rows[i] ==
             (if s.categories.rows[i].id == id then Row(id, body.data) else s.categories.rows[i])
    ensures body.Success? && ToNumber(rawId).Some? && ToNumber(rawId).value in Ids(s.categories.rows)
      ==> r.response.status == 200
    ensures r.response.status in {200, 400, 404}
  {
    match body
    case Failure(issue) => Outcome(Response(400, SchemaError(issue), Keep), s)
    case Success(data) =>
      match ToNumber(rawId)
      case None => Outcome(Error(404, CategoryNotFound), s)
      case Some(id) =>
        var (s', updated) := Storage.UpdateCategory(s, id, data);
        match updated
        case None => Outcome(Error(404, CategoryNotFound), s)
        case Some(c) => Outcome(Ok(CategoryJson(c)), s')
  }

  /** DELETE /api/categories/:id, after the gate, as written: the guard asks
      for products whose `category` equals the raw id text, then the row is
      deleted by the numeric id. */
  function RemoveCategory(s: Store, rawId: string): (r: Outcome)
    requires Valid(s)
    ensures Valid(r.store)
    ensures Referenced(s, rawId) ==> r == Outcome(Error(400, CategoryHasProducts), s)
    ensures !Referenced(s, rawId) ==>
      (r.response.status == 204 <==>
         ToNumber(rawId).Some? && ToNumber(rawId).value in Ids(s.categories.rows))
    ensures !Referenced(s, rawId) && r.response.status != 204 ==>
      r == Outcome(Error(404, CategoryNotFound), s)
    ensures r.response.status == 204 ==>
      && r.store == s.(categories := r.store.categories)
      && ToNumber(rawId).value !in Ids(r.store.categories.rows)
      && forall c :: c in r.store.categories.rows <==>
           c in s.categories.rows && c.id != ToNumber(rawId).value
  {
    if |GetProductsByCategory(s, rawId)| > 0 then
      Outcome(Error(400, CategoryHasProducts), s)
    else
      match ToNumber(rawId)
      case None => Outcome(Error(404, CategoryNotFound), s)
      case Some(id) =>
        var (s', removed) := Storage.DeleteCategory(s, id);
        if removed then Outcome(Response(204, NoContent, Keep), s')
        else Outcome(Error(404, CategoryNotFound), s)
  }

  // ------------------------------------------------------------------ upload

  /** POST /api/upload, after the gate. */
  function UploadImage(s: Store, file: Option<File>, env: Env): (r: Outcome)
    ensures file.None? ==> r == Outcome(Error(400, NoImage), s)
    ensures file.Some? && !env.writeSucceeds ==> r == Outcome(Error(500, ImageWriteError), s)
    ensures file.Some? && env.writeSucceeds ==>
      var name := ToHex(env.random) + "." + Extension(file.value.originalname);
      && r.response == Ok(ImageUrl("/uploads/" + name))
      && r.store == s.(uploads := s.uploads[name := file.value.buffer])
  {
    match file
    case None => Outcome(Error(400, NoImage), s)
    case Some(f) =>
      match SaveUploadedFile(s.uploads, f.originalname, f.buffer, env.random, env.writeSucceeds)
      case WriteFailed => Outcome(Error(500, ImageWriteError), s)
      case Saved(reference, uploads) => Outcome(Ok(ImageUrl(reference)), s.(uploads := uploads))
  }

  // ------------------------------------------------------------------- admin

  /** GET /api/admin/check-auth. */
  function CheckAuthStatus(s: Store, cookie: Option<string>): (r: Outcome)
    ensures r.store == s
    ensures r.response.status == 200 && r.response.cookie == Keep
    ensures r.response.payload == Flag(Authorized(cookie, s))
  {
    if cookie.None? || cookie.value == "" then Outcome(Ok(Flag(false)), s)
    else Outcome(Ok(Flag(GetAdminByEmail(s, cookie.value).Some?)), s)
  }

  /** The submitted pair matches an admin row under bcrypt's compare. */
  ghost predicate Credentials(s: Store, codec: Codec, email: string, password: string)
  {
    exists i :: 0 <= i < |s.admins.rows| &&
      s.admins.rows[i].data.email == email &&
      codec.compare(password, s.admins.rows[i].data.password)
  }

  /** POST /api/admin/login. */
  function LogIn(s: Store, codec: Codec, email: string, password: string): (r: Outcome)
    requires Valid(s)
    ensures r.store == s
    ensures r.response.status == 200 <==> Credentials(s, codec, email, password)
    ensures r.response.status == 200 ==>
      r.response == Response(200, Message(LoggedIn), SetToken(email))
    ensures r.response.status != 200 ==> r.response == Error(401, BadCredentials)
  {
    match GetAdminByEmail(s, email)
    case None => Outcome(Error(401, BadCredentials), s)
    case Some(admin) =>
      if !ComparePassword(codec, password, admin.data.password) then
        AdminIsUnique(s, email, admin);
        Outcome(Error(401, BadCredentials), s)
      else Outcome(Response(200, Message(LoggedIn), SetToken(admin.data.email)), s)
  }

  lemma AdminIsUnique(s: Store, email: string, admin: Admin)
    requires Valid(s) && admin in s.admins.rows && admin.data.email == email
    ensures forall i :: 0 <= i < |s.admins.rows| && s.admins.rows[i].data.email == email ==>
      s.admins.rows[i] == admin
  {
  }

  /** POST /api/admin/logout. */
  function LogOut(s: Store): (r: Outcome)
    ensures r.store == s
    ensures forall jar :: ApplyCookie(jar, r.response.cookie) == None
    ensures r.response.status == 200
  {
    Outcome(Response(200, Message(LoggedOut), ClearToken), s)
  }

  // ---------------------------------------------------------------- contacts

  /** POST /api/contact (public). */
  function SubmitContact(s: Store, body: SafeParse<ContactInput>, now: int): (r: Outcome)
    requires Valid(s)
    ensures Valid(r.store)
    ensures body.Failure? ==> r == Outcome(Response(400, SchemaError(body.issue), Keep), s)
    ensures body.Success? ==>
      && r.response.status == 200
      && r.response.payload.ContactJson?
      && r.response.payload.contact.data
           == ContactData(body.data.name, body.data.email, body.data.message, now)
      && GetContacts(r.store) == GetContacts(s) + [r.response.payload.contact]
      && r.store == s.(contacts := r.store.contacts)
  {
    match body
    case Failure(issue) => Outcome(Response(400, SchemaError(issue), Keep), s)
    case Success(input) =>
      var (s', c) := CreateContact(s, input, now);
      Outcome(Ok(ContactJson(c)), s')
  }

  // -------------------------------------------------------------- dispatcher

  /** The handler behind the gate, for a protected route. */
  function Protected(s: Store, route: Route, env: Env): (r: Outcome)
    requires Valid(s) && IsProtected(route)
    ensures Valid(r.store)
    ensures r.response.status != 401 && r.response.cookie == Keep
    ensures r.response.status !in {200, 201, 204} ==> r.store == s
    ensures r.response.status == 201 <==>
      (route.CreateProduct? && route.product.Success?) ||
      (route.CreateCategory? && route.category.Success?)
    ensures r.response.status == 500 ==> route.UploadImage?
    ensures route.ListContacts? ==> r.store == s && r.response.payload == ContactsJson(s.contacts.rows)
  {
    match route
    case CreateProduct(body) => AddProduct(s, body)
    case UpdateProduct(id, body) => EditProduct(s, id, body)
    case DeleteProduct(id) => RemoveProduct(s, id)
    case CreateCategory(body) => AddCategory(s, body)
    case UpdateCategory(id, body) => EditCategory(s, id, body)
    case DeleteCategory(id) => RemoveCategory(s, id)
    case UploadImage(file) => UploadImage(s, file, env)
    case ListContacts => Outcome(Ok(ContactsJson(GetContacts(s))), s)
  }

  /** The routes that mutate the store when they succeed. */
  predicate Mutates(route: Route)
  {
    route.CreateProduct? || route.UpdateProduct? || route.DeleteProduct? ||
    route.CreateCategory? || route.UpdateCategory? || route.DeleteCategory? ||
    route.UploadImage? || route.SubmitContact?
  }

  /** One request against the store. */
  function Handle(req: Request, s: Store, env: Env, codec: Codec): (r: Outcome)
    requires Valid(s)
    ensures Valid(r.store)
    ensures IsProtected(req.route) ==>
      (r.response.status == 401 <==> !Authorized(req.cookie, s) || env.adminLookupFails)
    ensures r.response.status == 401 && IsProtected(req.route) ==>
      r == Outcome(Response(401, Message(LoginRequired), Keep), s)
    ensures r.response.status !in {200, 201, 204} ==> r.store == s
    ensures !Mutates(req.route) ==> r.store == s
    ensures r.response.cookie.SetToken? ==> req.route.Login?
    ensures r.response.cookie.ClearToken? ==> req.route.Logout?
    ensures r.response.status in {200, 201, 204, 400, 401, 404, 500}
  {
    match req.route
    case ListProducts => Outcome(Ok(ProductsJson(GetProducts(s))), s)
    case GetProduct(id) => ReadProduct(s, id)
    case ProductsByCategory(name) => Outcome(Ok(ProductsJson(GetProductsByCategory(s, name))), s)
    case ListCategories => Outcome(Ok(CategoriesJson(GetCategories(s))), s)
    case CheckAuth => CheckAuthStatus(s, req.cookie)
    case Login(email, password) => LogIn(s, codec, email, password)
    case Logout => LogOut(s)
    case SubmitContact(body) => SubmitContact(s, body, env.now)
    case _ =>
      match AuthenticateAdmin(req.cookie, s, env.adminLookupFails)
      case Reject(response) => Outcome(response, s)
      case Next => Protected(s, req.route, env)
  }
}
