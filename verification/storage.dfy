/** The `IStorage` contract (server/storage.ts) over an in-memory store: four
    tables with serial ids, plus the directory of uploaded files that
    `saveUploadedFile` writes into. */
module Storage {
  import opened Common
  import opened Tables

  datatype ProductData = ProductData(
    name: string, description: string, category: string, imageUrl: string, price: string)

  datatype CategoryData = CategoryData(name: string)

  /** What a visitor submits; `createdAt` is filled in by the database. */
  datatype ContactInput = ContactInput(name: string, email: string, message: string)

  datatype ContactData = ContactData(name: string, email: string, message: string, createdAt: int)

  /** `password` holds the bcrypt digest, never the plaintext. */
  datatype AdminData = AdminData(email: string, password: string)

  type Product = Row<ProductData>
  type Category = Row<CategoryData>
  type Contact = Row<ContactData>
  type Admin = Row<AdminData>

  datatype Store = Store(
    products: Table<ProductData>,
    categories: Table<CategoryData>,
    contacts: Table<ContactData>,
    admins: Table<AdminData>,
    uploads: map<string, seq<byte>>)

  /** No two admins share an email (the schema's unique column). */
  ghost predicate UniqueEmails(rows: seq<Admin>)
  {
    forall i, j :: 0 <= i < j < |rows| ==> rows[i].data.email != rows[j].data.email
  }

  ghost predicate Valid(s: Store)
  {
    && WellFormed(s.products)
    && WellFormed(s.categories)
    && WellFormed(s.contacts)
    && WellFormed(s.admins)
    && UniqueEmails(s.admins.rows)
  }

  /** A fresh database with empty tables and an empty upload directory. */
  function EmptyStore(): (s: Store)
    ensures Valid(s)
    ensures s.admins.rows == [] && s.products.rows == [] && s.categories.rows == []
  {
    Store(Tables.Empty(), Tables.Empty(), Tables.Empty(), Tables.Empty(), map[])
  }

  // ---------------------------------------------------------------- products

  function GetProducts(s: Store): seq<Product>
  {
    s.products.rows
  }

  function GetProduct(s: Store, id: int): (r: Option<Product>)
    ensures r.Some? <==> id in Ids(s.products.rows)
    ensures r.Some? ==> r.value in s.products.rows && r.value.id == id
  {
    Find(s.products.rows, id)
  }

  /** Products in table order whose `category` column equals `c`. */
  function ProductsWithCategory(rows: seq<Product>, c: string): (rs: seq<Product>)
    ensures forall p :: p in rs <==> p in rows && p.data.category == c
    ensures |rs| == 0 <==> forall i :: 0 <= i < |rows| ==> rows[i].data.category != c
  {
    if |rows| == 0 then []
    else if rows[0].data.category == c then [rows[0]] + ProductsWithCategory(rows[1..], c)
    else ProductsWithCategory(rows[1..], c)
  }

  function GetProductsByCategory(s: Store, c: string): (rs: seq<Product>)
    ensures forall p :: p in rs <==> p in s.products.rows && p.data.category == c
  {
    ProductsWithCategory(s.products.rows, c)
  }

  function CreateProduct(s: Store, data: ProductData): (res: (Store, Product))
    requires Valid(s)
    ensures Valid(res.0)
    ensures res.1.data == data && res.1.id !in Ids(s.products.rows)
    ensures GetProduct(res.0, res.1.id) == Some(res.1)
    ensures res.0 == s.(products := res.0.products)
    ensures res.0.products.rows == s.products.rows + [res.1]
  {
    var (t, row) := Insert(s.products, data);
    InsertThenFind(s.products, data);
    (s.(products := t), row)
  }

  function UpdateProduct(s: Store, id: int, data: ProductData): (res: (Store, Option<Product>))
    requires Valid(s)
    ensures Valid(res.0)
    ensures res.1.None? <==> id !in Ids(s.products.rows)
    ensures res.1.None? ==> res.0 == s
    ensures res.1.Some? ==> res.1.value == Row(id, data)
    ensures res.0 == s.(products := res.0.products)
    ensures |res.0.products.rows| == |s.products.rows|
    ensures forall i :: 0 <= i < |s.products.rows| ==>
      res.0.products.rows[i] ==
        (if s.products.rows[i].id == id then Row(id, data) else s.products.rows[i])
  {
    var (t, row) := Update(s.products, id, data);
    (s.(products := t), row)
  }

  function DeleteProduct(s: Store, id: int): (res: (Store, bool))
    requires Valid(s)
    ensures Valid(res.0)
    ensures res.1 <==> id in Ids(s.products.rows)
    ensures !res.1 ==> res.0 == s
    ensures id !in Ids(res.0.products.rows)
    ensures forall p :: p in res.0.products.rows <==> p in s.products.rows && p.id != id
    ensures res.0 == s.(products := res.0.products)
  {
    var (t, removed) := Delete(s.products, id);
    (s.(products := t), removed)
  }

  // ---------------------------------------------------------------- contacts

  function GetContacts(s: Store): seq<Contact>
  {
    s.contacts.rows
  }

  /** Inserts the submission; `now` is the database clock behind `createdAt`. */
  function CreateContact(s: Store, input: ContactInput, now: int): (res: (Store, Contact))
    requires Valid(s)
    ensures Valid(res.0)
    ensures res.1.data == ContactData(input.name, input.email, input.message, now)
    ensures res.1.id !in Ids(s.contacts.rows)
    ensures GetContacts(res.0) == GetContacts(s) + [res.1]
    ensures res.0 == s.(contacts := res.0.contacts)
  {
    var (t, row) := Insert(s.contacts, ContactData(input.name, input.email, input.message, now));
    (s.(contacts := t), row)
  }

  // ------------------------------------------------------------------ admins

  function FindByEmail(rows: seq<Admin>, email: string): (r: Option<Admin>)
    ensures r.Some? ==> r.value in rows && r.value.data.email == email
    ensures r.None? <==> forall i :: 0 <= i < |rows| ==> rows[i].data.email != email
  {
    if |rows| == 0 then None
    else if rows[0].data.email == email then Some(rows[0])
    else FindByEmail(rows[1..], email)
  }

  function GetAdminByEmail(s: Store, email: string): (r: Option<Admin>)
    ensures r.Some? ==> r.value in s.admins.rows && r.value.data.email == email
    ensures r.None? <==> !HasAdmin(s, email)
  {
    FindByEmail(s.admins.rows, email)
  }

  /** Some admin row carries this email. */
  ghost predicate HasAdmin(s: Store, email: string)
  {
    exists i :: 0 <= i < |s.admins.rows| && s.admins.rows[i].data.email == email
  }

  /** Number of admin rows carrying `email`. */
  function AdminCount(rows: seq<Admin>, email: string): (n: nat)
    ensures n <= |rows|
    ensures n == 0 <==> forall i :: 0 <= i < |rows| ==> rows[i].data.email != email
  {
    if |rows| == 0 then 0
    else (if rows[0].data.email == email then 1 else 0) + AdminCount(rows[1..], email)
  }

  lemma {:induction false} AdminCountUnique(rows: seq<Admin>, email: string)
    requires UniqueEmails(rows)
    ensures AdminCount(rows, email) <= 1
    ensures AdminCount(rows, email) == 0 <==> FindByEmail(rows, email).None?
  {
    if |rows| > 0 {
      assert UniqueEmails(rows[1..]) by {
        forall i, j | 0 <= i < j < |rows[1..]|
          ensures rows[1..][i].data.email != rows[1..][j].data.email
        {
          assert rows[1..][i] == rows[i + 1] && rows[1..][j] == rows[j + 1];
        }
      }
      AdminCountUnique(rows[1..], email);
      if rows[0].data.email == email {
        forall i | 0 <= i < |rows[1..]|
          ensures rows[1..][i].data.email != email
        {
          assert rows[1..][i] == rows[i + 1];
        }
        assert FindByEmail(rows[1..], email).None?;
      }
    }
  }

  /** `createAdmin`; the unique email column refuses a second admin with the
      same email, which the model reports as None. */
  function CreateAdmin(s: Store, admin: AdminData): (res: Option<(Store, Admin)>)
    requires Valid(s)
    ensures res.None? <==> HasAdmin(s, admin.email)
    ensures res.Some? ==> Valid(res.value.0)
    ensures res.Some? ==> res.value.1.data == admin
    ensures res.Some? ==> res.value.0.admins.rows == s.admins.rows + [res.value.1]
    ensures res.Some? ==> res.value.0 == s.(admins := res.value.0.admins)
  {
    if GetAdminByEmail(s, admin.email).Some? then None
    else
      var (t, row) := Insert(s.admins, admin);
      assert UniqueEmails(t.rows) by {
        forall i, j | 0 <= i < j < |t.rows|
          ensures t.rows[i].data.email != t.rows[j].data.email
        {
          if j == |t.rows| - 1 {
            assert t.rows[i] == s.admins.rows[i];
          } else {
            assert t.rows[i] == s.admins.rows[i] && t.rows[j] == s.admins.rows[j];
          }
        }
      }
      Some((s.(admins := t), row))
  }

  // -------------------------------------------------------------- categories

  function GetCategories(s: Store): seq<Category>
  {
    s.categories.rows
  }

  function CreateCategory(s: Store, data: CategoryData): (res: (Store, Category))
    requires Valid(s)
    ensures Valid(res.0)
    ensures res.1.data == data && res.1.id !in Ids(s.categories.rows)
    ensures Find(res.0.categories.rows, res.1.id) == Some(res.1)
    ensures res.0 == s.(categories := res.0.categories)
    ensures res.0.categories.rows == s.categories.rows + [res.1]
  {
    var (t, row) := Insert(s.categories, data);
    InsertThenFind(s.categories, data);
    (s.(categories := t), row)
  }

  function UpdateCategory(s: Store, id: int, data: CategoryData): (res: (Store, Option<Category>))
    requires Valid(s)
    ensures Valid(res.0)
    ensures res.1.None? <==> id !in Ids(s.categories.rows)
    ensures res.1.None? ==> res.0 == s
    ensures res.1.Some? ==> res.1.value == Row(id, data)
    ensures res.0 == s.(categories := res.0.categories)
    ensures |res.0.categories.rows| == |s.categories.rows|
    ensures forall i :: 0 <= i < |s.categories.rows| ==>
      res.0.categories.rows[i] ==
        (if s.categories.rows[i].id == id then Row(id, data) else s.categories.rows[i])
  {
    var (t, row) := Update(s.categories, id, data);
    (s.(categories := t), row)
  }

  function DeleteCategory(s: Store, id: int): (res: (Store, bool))
    requires Valid(s)
    ensures Valid(res.0)
    ensures res.1 <==> id in Ids(s.categories.rows)
    ensures !res.1 ==> res.0 == s
    ensures id !in Ids(res.0.categories.rows)
    ensures forall c :: c in res.0.categories.rows <==> c in s.categories.rows && c.id != id
    ensures res.0 == s.(categories := res.0.categories)
  {
    var (t, removed) := Delete(s.categories, id);
    (s.(categories := t), removed)
  }
}
