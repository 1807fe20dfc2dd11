/** server/auth.ts: the bcrypt wrappers, the seeded admin, and the
    `authenticateAdmin` gate. The session token is the admin's email. */
module Auth {
  import opened Common
  import opened Tables
  import opened Storage
  import opened Http

  const SeedEmail: string := "gsynvali@gmail.com"
  const SeedPassword: string := "123321"
  /** The one message every rejection of the gate carries. */
  const LoginRequired: string := "Giriş etməlisiniz"

  /** bcrypt as the server sees it: `hash(password, salt)` with a fresh salt
      from `genSalt(10)`, and `compare(password, digest)`. */
  datatype Codec = Codec(hash: (string, string) -> string, compare: (string, string) -> bool)

  /** The one property of bcrypt the model relies on: a password verifies
      against any digest made from it, whatever the salt. */
  ghost predicate Sound(codec: Codec)
  {
    forall password, salt :: codec.compare(password, codec.hash(password, salt))
  }

  /** `hashPassword`: under `Sound`, the digest verifies the password. */
  function HashPassword(codec: Codec, password: string, salt: string): (digest: string)
    ensures Sound(codec) ==> codec.compare(password, digest)
  {
    codec.hash(password, salt)
  }

  /** `comparePassword`: under `Sound`, a digest made from the password
      always verifies it. */
  function ComparePassword(codec: Codec, password: string, digest: string): (ok: bool)
    ensures Sound(codec) && (exists salt :: digest == codec.hash(password, salt)) ==> ok
  {
    codec.compare(password, digest)
  }

  // --------------------------------------------------------------- bootstrap

  /** `initializeAdmin`: seeds the fixed admin when no admin has its email. */
  function InitializeAdmin(s: Store, codec: Codec, salt: string): (s': Store)
    requires Valid(s)
    ensures Valid(s')
    ensures AdminCount(s'.admins.rows, SeedEmail) == 1
    ensures HasAdmin(s, SeedEmail) ==> s' == s
    ensures !HasAdmin(s, SeedEmail) ==>
      && s' == s.(admins := s'.admins)
      && |s'.admins.rows| == |s.admins.rows| + 1
      && s'.admins.rows[..|s.admins.rows|] == s.admins.rows
      && s'.admins.rows[|s.admins.rows|].data
           == AdminData(SeedEmail, HashPassword(codec, SeedPassword, salt))
  {
    if GetAdminByEmail(s, SeedEmail).Some? then
      AdminCountUnique(s.admins.rows, SeedEmail);
      s
    else
      var created := CreateAdmin(s, AdminData(SeedEmail, HashPassword(codec, SeedPassword, salt)));
      var s' := created.value.0;
      assert s'.admins.rows[..|s.admins.rows|] == s.admins.rows;
      assert created.value.1 in s'.admins.rows;
      AdminCountUnique(s'.admins.rows, SeedEmail);
      s'
  }

  /** Running the bootstrap again, with any salt, changes nothing. */
  lemma InitializeAdminIdempotent(s: Store, codec: Codec, salt1: string, salt2: string)
    requires Valid(s)
    ensures InitializeAdmin(InitializeAdmin(s, codec, salt1), codec, salt2)
      == InitializeAdmin(s, codec, salt1)
  {
    var s1 := InitializeAdmin(s, codec, salt1);
    AdminCountUnique(s1.admins.rows, SeedEmail);
    assert GetAdminByEmail(s1, SeedEmail).Some?;
  }

  /** On a fresh seeding the stored password is the digest, and under the
      bcrypt property the seeded credential verifies against it. */
  lemma SeededCredentialVerifies(s: Store, codec: Codec, salt: string)
    requires Valid(s) && Sound(codec)
    requires !HasAdmin(s, SeedEmail)
    ensures var admin := GetAdminByEmail(InitializeAdmin(s, codec, salt), SeedEmail);
      && admin.Some?
      && admin.value.data.password == HashPassword(codec, SeedPassword, salt)
      && ComparePassword(codec, SeedPassword, admin.value.data.password)
  {
    var s' := InitializeAdmin(s, codec, salt);
    var n := |s.admins.rows|;
    var admin := GetAdminByEmail(s', SeedEmail);
    assert s'.admins.rows[n].data.email == SeedEmail;
    var k :| 0 <= k < |s'.admins.rows| && s'.admins.rows[k] == admin.value;
    assert k == n;
  }

  // -------------------------------------------------------------------- gate

  /** `next()` is called, or the request is answered here. */
  datatype Verdict = Next | Reject(response: Response)

  /** The cookie names an existing admin. */
  ghost predicate Authorized(token: Option<string>, s: Store)
  {
    token.Some? && token.value != "" && HasAdmin(s, token.value)
  }

  function LoginRequiredResponse(): Response
  {
    Response(401, Message(LoginRequired), Keep)
  }

  /** `authenticateAdmin`. `lookupFails` says whether the store lookup throws. */
  function AuthenticateAdmin(token: Option<string>, s: Store, lookupFails: bool): (v: Verdict)
    ensures v.Next? <==> Authorized(token, s) && !lookupFails
    ensures v.Reject? ==> v.response == Response(401, Message(LoginRequired), Keep)
    ensures (token.None? || token == Some("")) ==> v.Reject?
  {
    if token.None? || token.value == "" then Reject(LoginRequiredResponse())
    else if lookupFails then Reject(LoginRequiredResponse())
    else if GetAdminByEmail(s, token.value).None? then Reject(LoginRequiredResponse())
    else Next
  }
}
