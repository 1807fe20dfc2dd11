/** Properties that relate several requests: the session round trip through
    login, check-auth and logout; the upload answer with and without a
    session; login failures that look alike; and a created, updated or
    deleted product as the next GET sees it. */
module Scenarios {
  import opened Common
  import opened Tables
  import opened Storage
  import opened Http
  import opened Auth
  import opened Upload
  import opened JsNumbers
  import opened Routes

  /** check-auth answers `true` exactly when the gate would let the same
      cookie through (with a store lookup that does not throw). */
  lemma CheckAuthAgreesWithGate(s: Store, cookie: Option<string>, env: Env, codec: Codec)
    requires Valid(s) && !env.adminLookupFails
    ensures Handle(Request(cookie, CheckAuth), s, env, codec).response.payload
      == Flag(AuthenticateAdmin(cookie, s, env.adminLookupFails).Next?)
  {
  }

  /** Seed the admin, log in with the seeded credential, ask check-auth, log
      out, ask again: the cookie is the admin's email, check-auth says true
      and then false, and no request changes the store. */
  lemma SessionLifecycle(s0: Store, codec: Codec, salt: string, env: Env)
    requires Valid(s0) && Sound(codec) && !HasAdmin(s0, SeedEmail) && !env.adminLookupFails
    ensures
      var s := InitializeAdmin(s0, codec, salt);
      var login := Handle(Request(None, Login(SeedEmail, SeedPassword)), s, env, codec);
      var jar := ApplyCookie(None, login.response.cookie);
      var check := Handle(Request(jar, CheckAuth), login.store, env, codec);
      var logout := Handle(Request(jar, Logout), check.store, env, codec);
      var jar' := ApplyCookie(jar, logout.response.cookie);
      var check' := Handle(Request(jar', CheckAuth), logout.store, env, codec);
      && login.response.status == 200
      && jar == Some(SeedEmail)
      && check.response.payload == Flag(true)
      && jar' == None
      && check'.response.payload == Flag(false)
      && check'.store == s
  {
    var s := InitializeAdmin(s0, codec, salt);
    SeededLoginSucceeds(s0, codec, salt, env);
    var jar := Some(SeedEmail);
    CheckAuthAgreesWithGate(s, jar, env, codec);
    CheckAuthAgreesWithGate(s, None, env, codec);
    assert Handle(Request(jar, Logout), s, env, codec) == LogOut(s);
  }

  /** With the seeded credential, login answers 200 and sets the cookie to
      the seeded email. */
  lemma SeededLoginSucceeds(s0: Store, codec: Codec, salt: string, env: Env)
    requires Valid(s0) && Sound(codec) && !HasAdmin(s0, SeedEmail)
    ensures var s := InitializeAdmin(s0, codec, salt);
      && HasAdmin(s, SeedEmail)
      && Handle(Request(None, Login(SeedEmail, SeedPassword)), s, env, codec)
           == Outcome(Response(200, Message(LoggedIn), SetToken(SeedEmail)), s)
  {
    var s := InitializeAdmin(s0, codec, salt);
    SeededCredentialVerifies(s0, codec, salt);
    var admin := GetAdminByEmail(s, SeedEmail).value;
    var k :| 0 <= k < |s.admins.rows| && s.admins.rows[k] == admin;
    assert Credentials(s, codec, SeedEmail, SeedPassword);
    assert Handle(Request(None, Login(SeedEmail, SeedPassword)), s, env, codec)
      == LogIn(s, codec, SeedEmail, SeedPassword);
  }

  /** Logging out only clears the browser's cookie: the token is the admin's
      (non-empty) email, so a request that presents it again still passes
      the gate. */
  lemma LogoutDoesNotRevokeToken(s: Store, codec: Codec, email: string, password: string, env: Env)
    requires Valid(s) && !env.adminLookupFails && email != ""
    requires Handle(Request(None, Login(email, password)), s, env, codec).response.status == 200
    ensures var login := Handle(Request(None, Login(email, password)), s, env, codec);
      var logout := Handle(Request(Some(email), Logout), login.store, env, codec);
      && login.response.cookie == SetToken(email)
      && AuthenticateAdmin(Some(email), logout.store, false).Next?
  {
    var login := Handle(Request(None, Login(email, password)), s, env, codec);
    assert login == LogIn(s, codec, email, password);
    assert Handle(Request(Some(email), Logout), s, env, codec) == LogOut(s);
    assert Credentials(s, codec, email, password);
    var i :| 0 <= i < |s.admins.rows| && s.admins.rows[i].data.email == email &&
      codec.compare(password, s.admins.rows[i].data.password);
    assert HasAdmin(s, email);
  }

  /** An unknown email and a wrong password get the very same response. */
  lemma LoginFailuresLookAlike(
    s: Store, codec: Codec, env: Env,
    unknown: string, anyPassword: string, known: string, wrongPassword: string)
    requires Valid(s)
    requires !HasAdmin(s, unknown)
    requires HasAdmin(s, known)
    requires !codec.compare(wrongPassword, GetAdminByEmail(s, known).value.data.password)
    ensures Handle(Request(None, Login(unknown, anyPassword)), s, env, codec)
      == Handle(Request(None, Login(known, wrongPassword)), s, env, codec)
    ensures Handle(Request(None, Login(known, wrongPassword)), s, env, codec).response.status == 401
  {
    var admin := GetAdminByEmail(s, known).value;
    AdminIsUnique(s, known, admin);
    assert !Credentials(s, codec, known, wrongPassword);
    assert !Credentials(s, codec, unknown, anyPassword);
  }

  /** With a session, an upload answers 200 with `/uploads/<32 hex>.<ext>`;
      without one it answers 401 and writes nothing. */
  lemma UploadWithAndWithoutSession(
    s: Store, token: string, file: File, env: Env, codec: Codec)
    requires Valid(s) && !env.adminLookupFails && env.writeSucceeds
    requires token != "" && HasAdmin(s, token)
    ensures var r := Handle(Request(Some(token), UploadImage(Some(file))), s, env, codec);
      && r.response.status == 200
      && r.response.payload.ImageUrl?
      && ParseReference(r.response.payload.url)
           == Some((ToHex(env.random), Extension(file.originalname)))
      && |ToHex(env.random)| == 32
    ensures var r := Handle(Request(None, UploadImage(Some(file))), s, env, codec);
      && r.response.status == 401
      && r.store == s
  {
    ReferenceRoundTrip(env.random, file.originalname);
  }

  /** A product created by POST is what GET /api/products/<its id> returns. */
  lemma CreateThenRead(s: Store, data: ProductData)
    requires Valid(s)
    ensures var created := AddProduct(s, Success(data));
      var p := created.response.payload.product;
      p.id >= 1 &&
      ReadProduct(created.store, ToDecimal(p.id)).response == Response(200, ProductJson(p), Keep)
  {
    var created := AddProduct(s, Success(data));
    var p := created.response.payload.product;
    assert p in created.store.products.rows;
    ParsersReadDecimal(p.id);
  }

  /** After a successful PUT, GET of the same id returns the new data. */
  lemma UpdateThenRead(s: Store, id: nat, data: ProductData)
    requires Valid(s) && id in Ids(s.products.rows)
    ensures var edited := EditProduct(s, ToDecimal(id), Success(data));
      && edited.response.status == 200
      && ReadProduct(edited.store, ToDecimal(id)).response
           == Response(200, ProductJson(Row(id, data)), Keep)
  {
    ParsersReadDecimal(id);
    var edited := EditProduct(s, ToDecimal(id), Success(data));
    var k :| 0 <= k < |s.products.rows| && s.products.rows[k].id == id;
    assert edited.store.products.rows[k] == Row(id, data);
    FindUnique(edited.store.products.rows, k);
  }

  /** After a successful DELETE, GET of the same id answers 404. */
  lemma DeleteThenRead(s: Store, id: nat)
    requires Valid(s) && id in Ids(s.products.rows)
    ensures var removed := RemoveProduct(s, ToDecimal(id));
      && removed.response.status == 204
      && ReadProduct(removed.store, ToDecimal(id)).response == Error(404, ProductNotFound)
  {
    ParsersReadDecimal(id);
  }
}
