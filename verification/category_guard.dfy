/** The referential guard on DELETE /api/categories/:id. Products name their
    category by its `name` (the admin form offers category names), but the
    route asks for products whose `category` equals the raw `:id` text, so a
    numeric id never matches a real category name and the guard does not
    protect referenced categories. `RemoveCategory` in Routes models the code
    as written; this module shows the gap on a concrete store and proves the
    intended guard, which looks the category up first and asks about its name. */
module CategoryGuard {
  import opened Common
  import opened Tables
  import opened Storage
  import opened Http
  import opened JsNumbers
  import opened Routes

  /** A catalogue with one category, "Shoes" (id 1), and one product in it. */
  function ShoeShop(): (s: Store)
    ensures Valid(s)
  {
    var (s1, _) := Storage.CreateCategory(EmptyStore(), CategoryData("Shoes"));
    var (s2, _) := Storage.CreateProduct(s1, ProductData("Boot", "", "Shoes", "", "10"));
    s2
  }

  /** As written, deleting category 1 succeeds although a product still
      refers to it by name: the product's category names no category. */
  lemma GuardMissesReferencedCategory()
    ensures var s := ShoeShop();
      var r := RemoveCategory(s, "1");
      && s.categories.rows == [Row(1, CategoryData("Shoes"))]
      && Referenced(s, "Shoes")
      && r.response.status == 204
      && r.store.categories.rows == []
      && Referenced(r.store, "Shoes")
  {
    var s := ShoeShop();
    assert s.products.rows[0].data.category == "Shoes";
    assert !Referenced(s, "1") by {
      assert |s.products.rows| == 1;
    }
    assert ToNumber("1") == Some(1) by {
      assert DigitsValue("1") == DigitsValue("") * 10 + 1;
    }
    var r := RemoveCategory(s, "1");
    assert Row(1, CategoryData("Shoes")) in s.categories.rows;
    assert r.store.products == s.products;
  }

  /** DELETE /api/categories/:id with the intended guard: refuse while any
      product names the category that the id designates. */
  function RemoveCategoryByName(s: Store, rawId: string): (r: Outcome)
    requires Valid(s)
    ensures Valid(r.store)
    ensures r.store.products == s.products
    ensures forall c :: c in s.categories.rows && Referenced(s, c.data.name) ==>
      c in r.store.categories.rows
    ensures r.response.status == 204 <==>
      && ToNumber(rawId).Some?
      && ToNumber(rawId).value in Ids(s.categories.rows)
      && !Referenced(s, Find(s.categories.rows, ToNumber(rawId).value).value.data.name)
    ensures r.response.status != 204 ==> r.store == s
    ensures r.response.status == 204 ==>
      && r.response.payload == NoContent
      && r.store == s.(categories := r.store.categories)
      && ToNumber(rawId).value !in Ids(r.store.categories.rows)
      && forall c :: c in r.store.categories.rows <==>
           c in s.categories.rows && c.id != ToNumber(rawId).value
    ensures r.response.status in {204, 400, 404}
  {
    match ToNumber(rawId)
    case None => Outcome(Error(404, CategoryNotFound), s)
    case Some(id) =>
      match Find(s.categories.rows, id)
      case None => Outcome(Error(404, CategoryNotFound), s)
      case Some(category) =>
        if |GetProductsByCategory(s, category.data.name)| > 0 then
          Outcome(Error(400, CategoryHasProducts), s)
        else
          var (s', _) := Storage.DeleteCategory(s, id);
          assert forall c :: c in s.categories.rows && c.id == id ==> c == category by {
            forall c | c in s.categories.rows && c.id == id
              ensures c == category
            {
              var i :| 0 <= i < |s.categories.rows| && s.categories.rows[i] == c;
              FindUnique(s.categories.rows, i);
            }
          }
          Outcome(Response(204, NoContent, Keep), s')
  }

  /** The corrected guard refuses the deletion the written one lets through. */
  lemma CorrectedGuardRefusesShoeShop()
    ensures RemoveCategoryByName(ShoeShop(), "1").response.status == 400
  {
    var s := ShoeShop();
    assert ToNumber("1") == Some(1) by {
      assert DigitsValue("1") == DigitsValue("") * 10 + 1;
    }
    assert s.products.rows[0].data.category == "Shoes";
    FindUnique(s.categories.rows, 0);
  }
}
