/**
 * The request-handling logic of backend/server.js that does not depend on
 * the database driver: the slug derived from a category title, the public
 * `image_url` of a stored file name, the decoding of the `'true'`/`'false'`
 * form flags, the required-field checks of the create handlers, the row an
 * edit writes (slug and image kept when absent), and the
 * `/api/categories/reorder` handler that numbers the listed categories.
 *
 * Request fields arrive as strings or are absent (`Option<string>`); a value
 * is "truthy" in the JavaScript sense when it is present and not empty.
 */
module Server {
  import opened Text

  /** JavaScript truthiness of a request field: present and not the empty string. */
  predicate Truthy(v: Option<string>) {
    v.Some? && v.value != ""
  }

  /** A request of the admin pages: HTTP method (`verb`), address, form fields and the name of an uploaded file. */
  datatype Request<B> = Request(verb: string, url: string, body: B, file: Option<string>)

  /** What a handler sends back: a value, or an HTTP status with the `error` message. */
  datatype Reply<T> = Ok(value: T) | Fail(status: nat, message: string)

  // ---------------------------------------------------------------------------
  // Slugs: title.toLowerCase().replace(/ /g, '-').replace(/[^\w-]+/g, '')
  // ---------------------------------------------------------------------------

  function LowerChar(c: char): char {
    if 'A' <= c <= 'Z' then (c as int + 32) as char else c
  }

  /**
   * `toLowerCase()` on the ASCII letters: no capital letter is left, a
   * character that is not a capital letter is kept, and a capital letter
   * becomes its small letter.
   */
  function Lower(s: string): (r: string)
    ensures |r| == |s|
    ensures forall i :: 0 <= i < |r| ==> !('A' <= r[i] <= 'Z')
    ensures forall i :: 0 <= i < |s| && !('A' <= s[i] <= 'Z') ==> r[i] == s[i]
    ensures forall i :: 0 <= i < |s| && 'A' <= s[i] <= 'Z' ==> 'a' <= r[i] <= 'z' && r[i] as int - s[i] as int == 32
  {
    seq(|s|, i requires 0 <= i < |s| => LowerChar(s[i]))
  }

  /** Lowering twice is lowering once. */
  lemma LowerIdempotent(s: string)
    ensures Lower(Lower(s)) == Lower(s)
  {
  }

  /** Lowering works character by character, so it distributes over concatenation. */
  lemma LowerAppend(a: string, b: string)
    ensures Lower(a + b) == Lower(a) + Lower(b)
  {
  }

  /** `replace(/ /g, '-')`: no space is left, every space becomes `-`, every other character is kept. */
  function Hyphenate(s: string): (r: string)
    ensures |r| == |s|
    ensures ' ' !in r
    ensures forall i :: 0 <= i < |s| && s[i] == ' ' ==> r[i] == '-'
    ensures forall i :: 0 <= i < |s| && s[i] != ' ' ==> r[i] == s[i]
  {
    seq(|s|, i requires 0 <= i < |s| => if s[i] == ' ' then '-' else s[i])
  }

  /** Hyphenating twice is hyphenating once. */
  lemma HyphenateIdempotent(s: string)
    ensures Hyphenate(Hyphenate(s)) == Hyphenate(s)
  {
  }

  /** Replacing spaces distributes over concatenation. */
  lemma HyphenateAppend(a: string, b: string)
    ensures Hyphenate(a + b) == Hyphenate(a) + Hyphenate(b)
  {
  }

  /** The characters `[\w-]`: ASCII letters, digits, `_` and `-`. */
  predicate IsWordOrHyphen(c: char) {
    'a' <= c <= 'z' || 'A' <= c <= 'Z' || '0' <= c <= '9' || c == '_' || c == '-'
  }

  /** `replace(/[^\w-]+/g, '')`: every other character is dropped. */
  function KeepWord(s: string): (r: string)
    ensures |r| <= |s|
  {
    if s == [] then []
    else (if IsWordOrHyphen(s[0]) then [s[0]] else []) + KeepWord(s[1..])
  }

  /** The slug the category handlers store for a title. */
  function Slug(title: string): string {
    KeepWord(Hyphenate(Lower(title)))
  }

  /** The characters a slug is made of: `[a-z0-9_-]`. */
  predicate IsSlugChar(c: char) {
    'a' <= c <= 'z' || '0' <= c <= '9' || c == '_' || c == '-'
  }

  predicate AllSlugChars(s: string) {
    forall i :: 0 <= i < |s| ==> IsSlugChar(s[i])
  }

  lemma {:induction false} KeepWordSlugChars(s: string)
    requires forall i :: 0 <= i < |s| ==> !('A' <= s[i] <= 'Z')
    ensures AllSlugChars(KeepWord(s))
  {
    if s != [] {
      assert forall i :: 0 <= i < |s[1..]| ==> s[1..][i] == s[i + 1];
      KeepWordSlugChars(s[1..]);
    }
  }

  lemma {:induction false} KeepWordFixes(s: string)
    requires AllSlugChars(s)
    ensures KeepWord(s) == s
  {
    if s != [] {
      assert forall i :: 0 <= i < |s[1..]| ==> s[1..][i] == s[i + 1];
      KeepWordFixes(s[1..]);
      assert [s[0]] + s[1..] == s;
    }
  }

  lemma {:induction false} KeepWordAppend(a: string, b: string)
    ensures KeepWord(a + b) == KeepWord(a) + KeepWord(b)
  {
    if a != [] {
      assert (a + b)[0] == a[0];
      assert (a + b)[1..] == a[1..] + b;
      KeepWordAppend(a[1..], b);
    } else {
      assert a + b == b;
    }
  }

  /** A slug holds only `[a-z0-9_-]` and is never longer than its title. */
  lemma SlugShape(title: string)
    ensures AllSlugChars(Slug(title))
    ensures |Slug(title)| <= |title|
  {
    KeepWordSlugChars(Hyphenate(Lower(title)));
  }

  /** A string made of slug characters is its own slug. */
  lemma SlugOfSlug(s: string)
    requires AllSlugChars(s)
    ensures Slug(s) == s
  {
    assert Lower(s) == s;
    assert Hyphenate(Lower(s)) == s;
    KeepWordFixes(s);
  }

  /** Slugging is idempotent. */
  lemma SlugIdempotent(title: string)
    ensures Slug(Slug(title)) == Slug(title)
  {
    SlugShape(title);
    SlugOfSlug(Slug(title));
  }

  /** The slug is computed character by character, so it distributes over concatenation. */
  lemma SlugAppend(a: string, b: string)
    ensures Slug(a + b) == Slug(a) + Slug(b)
  {
    LowerAppend(a, b);
    HyphenateAppend(Lower(a), Lower(b));
    KeepWordAppend(Hyphenate(Lower(a)), Hyphenate(Lower(b)));
  }

  /** Each space of the title becomes one `-` of the slug. */
  lemma SlugSpace(a: string, b: string)
    ensures Slug(a + " " + b) == Slug(a) + "-" + Slug(b)
  {
    SlugAppend(a + " ", b);
    SlugAppend(a, " ");
    assert Hyphenate(Lower(" ")) == "-";
    assert KeepWord("-") == "-";
  }

  /** Characters outside `[\w-]`, such as accented letters or `&`, leave no trace. */
  lemma SlugDrops(a: string, c: char, b: string)
    requires !IsWordOrHyphen(c) && c != ' ' && !('A' <= c <= 'Z')
    ensures Slug(a + [c] + b) == Slug(a) + Slug(b)
  {
    SlugAppend(a + [c], b);
    SlugAppend(a, [c]);
    assert Hyphenate(Lower([c])) == [c];
    assert KeepWord([c]) == [];
  }

  // ---------------------------------------------------------------------------
  // image_url of the GET handlers
  // ---------------------------------------------------------------------------

  /** The start of an absolute address, as tested by `startsWith('http')`. */
  const Http: string := "http"
  const CategoryUploads: string := Http + "://localhost:3000/uploads/categories/"
  const ProductUploads: string := Http + "://localhost:3000/uploads/products/"

  predicate StartsWith(s: string, prefix: string) {
    |prefix| <= |s| && s[..|prefix|] == prefix
  }

  /**
   * `GET /api/categories`: an address starting with `http` is passed through,
   * any other stored name is placed under the category uploads, and an absent
   * or empty value becomes null.
   */
  function CategoryImageUrl(stored: Option<string>): (r: Option<string>)
    ensures r.Some? <==> Truthy(stored)
    ensures r.Some? ==> StartsWith(r.value, Http)
    ensures r.Some? && StartsWith(stored.value, Http) ==> r.value == stored.value
    ensures r.Some? && !StartsWith(stored.value, Http) ==>
      StartsWith(r.value, CategoryUploads) && r.value[|CategoryUploads|..] == stored.value
  {
    if Truthy(stored) && StartsWith(stored.value, Http) then stored
    else if Truthy(stored) then
      assert CategoryUploads + stored.value == Http + ("://localhost:3000/uploads/categories/" + stored.value);
      Some(CategoryUploads + stored.value)
    else None
  }

  /** A category address already served is served unchanged. */
  lemma CategoryImageUrlIdempotent(stored: Option<string>)
    ensures CategoryImageUrl(CategoryImageUrl(stored)) == CategoryImageUrl(stored)
  {
  }

  /**
   * `GET /api/products`: every stored name, even one starting with `http`, is
   * placed under the product uploads; an absent or empty value becomes null.
   */
  function ProductImageUrl(stored: Option<string>): (r: Option<string>)
    ensures r.Some? <==> Truthy(stored)
    ensures r.Some? ==> StartsWith(r.value, ProductUploads) && r.value[|ProductUploads|..] == stored.value
  {
    if Truthy(stored) then Some(ProductUploads + stored.value) else None
  }

  /** Different stored product images are served at different addresses. */
  lemma ProductImageUrlInjective(a: Option<string>, b: Option<string>)
    requires Truthy(a) && Truthy(b)
    ensures ProductImageUrl(a) == ProductImageUrl(b) ==> a == b
  {
  }

  /** Unlike the category mapping, an absolute product address is prefixed again. */
  lemma ProductImageUrlPrefixesAbsolute(url: string)
    requires StartsWith(url, Http)
    ensures ProductImageUrl(Some(url)) != Some(url)
  {
    assert |ProductImageUrl(Some(url)).value| > |url|;
  }

  // ---------------------------------------------------------------------------
  // Flags and required fields
  // ---------------------------------------------------------------------------

  /** `v === 'true' ? 1 : 0` for the three product check boxes. */
  function Flag(v: Option<string>): (f: nat)
    ensures f <= 1
    ensures f == 1 <==> v == Some("true")
  {
    if v == Some("true") then 1 else 0
  }

  /** The multipart fields of a category form. */
  datatype CategoryBody = CategoryBody(title: Option<string>, description: Option<string>)

  /** The multipart fields of a product form. */
  datatype ProductBody = ProductBody(
    name: Option<string>, description: Option<string>, price: Option<string>, categoryId: Option<string>,
    isOutOfStock: Option<string>, isNew: Option<string>, isFeatured: Option<string>)

  /** A row of the categories table (the columns the handlers write). */
  datatype Category = Category(
    id: int, title: Option<string>, slug: string, description: Option<string>, image: Option<string>)

  /** A row of the products table (the columns the handlers write). */
  datatype Product = Product(
    id: int, name: Option<string>, description: Option<string>, price: Option<string>,
    categoryId: Option<string>, isOutOfStock: nat, isNew: nat, isFeatured: nat, image: Option<string>)

  /**
   * `POST /api/categories`: the row inserted under the new id `id`, or 400
   * without a title. `file` is the name multer gave the upload, if any.
   */
  function CreateCategory(id: int, body: CategoryBody, file: Option<string>): (r: Reply<Category>)
    ensures r.Fail? <==> !Truthy(body.title)
    ensures r.Fail? ==> r == Fail(400, "Le titre est obligatoire")
    ensures r.Ok? ==> r.value.id == id && r.value.title == body.title && r.value.slug == Slug(body.title.value)
    ensures r.Ok? ==> r.value.description == Some(if Truthy(body.description) then body.description.value else "")
    ensures r.Ok? ==> r.value.image == file
  {
    if !Truthy(body.title) then Fail(400, "Le titre est obligatoire")
    else
      var description := if Truthy(body.description) then body.description.value else "";
      Ok(Category(id, body.title, Slug(body.title.value), Some(description), file))
  }

  /**
   * `PUT /api/categories/:id` applied to the row found for the id, if any:
   * title and description are written as sent, the slug is recomputed only
   * from a non-empty title, the image is replaced only by an upload.
   */
  function EditCategory(found: Option<Category>, body: CategoryBody, file: Option<string>): (r: Reply<Category>)
    ensures r.Fail? <==> found.None?
    ensures r.Fail? ==> r == Fail(404, "Catégorie non trouvée")
    ensures r.Ok? ==> r.value.id == found.value.id && r.value.title == body.title && r.value.description == body.description
    ensures r.Ok? ==> r.value.slug == if Truthy(body.title) then Slug(body.title.value) else found.value.slug
    ensures r.Ok? ==> r.value.image == if Truthy(file) then file else found.value.image
  {
    match found
    case None => Fail(404, "Catégorie non trouvée")
    case Some(row) =>
      var slug := if Truthy(body.title) then Slug(body.title.value) else row.slug;
      var image := if Truthy(file) then file else row.image;
      Ok(Category(row.id, body.title, slug, body.description, image))
  }

  /** Whatever was sent, an edited category's slug is made of slug characters when the stored one is. */
  lemma EditCategorySlug(row: Category, body: CategoryBody, file: Option<string>)
    requires AllSlugChars(row.slug)
    ensures AllSlugChars(EditCategory(Some(row), body, file).value.slug)
  {
    if Truthy(body.title) { SlugShape(body.title.value); }
  }

  /** The three check boxes as the handlers store them. */
  function Flags(body: ProductBody): (f: (nat, nat, nat))
    ensures f.0 == 1 <==> body.isOutOfStock == Some("true")
    ensures f.1 == 1 <==> body.isNew == Some("true")
    ensures f.2 == 1 <==> body.isFeatured == Some("true")
  {
    (Flag(body.isOutOfStock), Flag(body.isNew), Flag(body.isFeatured))
  }

  /** `POST /api/products`: the row inserted under the new id, or 400 without a name or a price. */
  function CreateProduct(id: int, body: ProductBody, file: Option<string>): (r: Reply<Product>)
    ensures r.Fail? <==> !Truthy(body.name) || !Truthy(body.price)
    ensures r.Fail? ==> r == Fail(400, "Nom et prix obligatoires")
    ensures r.Ok? ==> r.value.id == id && r.value.name == body.name && r.value.price == body.price
    ensures r.Ok? ==> r.value.description == body.description && r.value.categoryId == body.categoryId
    ensures r.Ok? ==> (r.value.isOutOfStock, r.value.isNew, r.value.isFeatured) == Flags(body)
    ensures r.Ok? ==> r.value.image == file
  {
    if !Truthy(body.name) || !Truthy(body.price) then Fail(400, "Nom et prix obligatoires")
    else
      var f := Flags(body);
      Ok(Product(id, body.name, body.description, body.price, body.categoryId, f.0, f.1, f.2, file))
  }

  /**
   * `PUT /api/products/:id` applied to the row found for the id, if any: every
   * field is written as sent, the flags decoded, the image replaced only by an
   * upload. There is no required-field check on edit.
   */
  function EditProduct(found: Option<Product>, body: ProductBody, file: Option<string>): (r: Reply<Product>)
    ensures r.Fail? <==> found.None?
    ensures r.Fail? ==> r == Fail(404, "Produit introuvable")
    ensures r.Ok? ==> r.value.id == found.value.id && r.value.name == body.name && r.value.price == body.price
    ensures r.Ok? ==> r.value.description == body.description && r.value.categoryId == body.categoryId
    ensures r.Ok? ==> (r.value.isOutOfStock, r.value.isNew, r.value.isFeatured) == Flags(body)
    ensures r.Ok? ==> r.value.image == if Truthy(file) then file else found.value.image
  {
    match found
    case None => Fail(404, "Produit introuvable")
    case Some(row) =>
      var f := Flags(body);
      var image := if Truthy(file) then file else row.image;
      Ok(Product(row.id, body.name, body.description, body.price, body.categoryId, f.0, f.1, f.2, image))
  }

  // ---------------------------------------------------------------------------
  // PUT /api/categories/reorder
  // ---------------------------------------------------------------------------

  /** The `newOrder` field of the request: absent or falsy, some other non-array value, or an array of ids. */
  datatype NewOrder = Missing | NotArray | Ids(ids: seq<int>)

  /**
   * The `display_order` column after `UPDATE ... SET display_order = index
   * WHERE id = ids[index]` for each position in turn: an id with no row
   * updates nothing, and a repeated id keeps the last of its positions.
   */
  function Assigned(order: map<int, int>, ids: seq<int>): (r: map<int, int>)
    ensures r.Keys == order.Keys
  {
    if ids == [] then order
    else
      var before := Assigned(order, ids[..|ids| - 1]);
      var id := ids[|ids| - 1];
      if id in before then before[id := |ids| - 1] else before
  }

  predicate Distinct(ids: seq<int>) {
    forall i, j :: 0 <= i < j < |ids| ==> ids[i] != ids[j]
  }

  /** Rows whose id is not listed keep their position. */
  lemma {:induction false} AssignedUnlisted(order: map<int, int>, ids: seq<int>, k: int)
    requires k in order && k !in ids
    ensures Assigned(order, ids)[k] == order[k]
  {
    if ids != [] {
      assert k !in ids[..|ids| - 1];
      AssignedUnlisted(order, ids[..|ids| - 1], k);
    }
  }

  /** With distinct ids, each listed row gets its index in the list. */
  lemma {:induction false} AssignedListed(order: map<int, int>, ids: seq<int>, i: nat)
    requires Distinct(ids) && i < |ids| && ids[i] in order
    ensures Assigned(order, ids)[ids[i]] == i
  {
    var init := ids[..|ids| - 1];
    if i < |ids| - 1 {
      assert init[i] == ids[i];
      AssignedListed(order, init, i);
    }
  }

  /** The ids of the categories table with their `display_order`. */
  class CategoryOrder {
    var displayOrder: map<int, int>

    constructor (initial: map<int, int>)
      ensures displayOrder == initial
    {
      displayOrder := initial;
    }

    /**
     * The reorder handler: 400 "Format invalide" unless `newOrder` is an
     * array; otherwise one update per position, in list order.
     */
    method Reorder(newOrder: NewOrder) returns (r: Reply<string>)
      modifies this
      ensures newOrder.Ids? <==> r.Ok?
      ensures !newOrder.Ids? ==> r == Fail(400, "Format invalide") && displayOrder == old(displayOrder)
      ensures newOrder.Ids? ==> r == Ok("Ordre mis à jour !") && displayOrder == Assigned(old(displayOrder), newOrder.ids)
    {
      if !newOrder.Ids? {
        return Fail(400, "Format invalide");
      }
      var ids := newOrder.ids;
      var i := 0;
      while i < |ids|
        invariant 0 <= i <= |ids|
        invariant displayOrder == Assigned(old(displayOrder), ids[..i])
      {
        assert ids[..i + 1][..i] == ids[..i];
        var id := ids[i];
        if id in displayOrder {
          displayOrder := displayOrder[id := i];
        }
        i := i + 1;
      }
      assert ids[..i] == ids;
      r := Ok("Ordre mis à jour !");
    }
  }
}
