/**
 * The products admin page of src/pages/admin/Products.jsx: the form opened
 * for a new or an existing product, and the multipart request its
 * submission sends, whose check boxes travel as the text `'true'` or
 * `'false'` and are stored by the server as 1 or 0.
 */
module ProductAdmin {
  import opened Text
  import Server

  /**
   * A product as fetched from `GET /api/products`: the price as text (a
   * DECIMAL column), the category id or null, the three 0/1 flag columns.
   */
  datatype ProductItem = ProductItem(
    id: nat, name: string, description: Option<string>, price: string, categoryId: Option<nat>,
    isOutOfStock: int, isNew: int, isFeatured: int, imageUrl: Option<string>)

  /** The form state: the product being edited, the inputs, the chosen file and the preview. */
  datatype ProductForm = ProductForm(
    editing: Option<ProductItem>, name: string, description: string, price: string, categoryId: string,
    isOutOfStock: bool, isNew: bool, isFeatured: bool, image: Option<string>, preview: Option<string>)

  /** The form `openCreateModal` shows: every input empty, every box unchecked, no image. */
  const BlankForm: ProductForm := ProductForm(None, "", "", "", "", false, false, false, None, None)

  /** `product.category_id || ''` as the select holds it: the id as text, or `''` for null or 0. */
  function CategoryField(c: Option<nat>): (s: string)
    ensures s == "" <==> c.None? || c.value == 0
    ensures s != "" ==> AllDigits(s) && ParseDigits(s) == c.value
  {
    if c.Some? && c.value != 0 then
      ParseNatToString(c.value);
      NatToString(c.value)
    else ""
  }

  /** The form `openEditModal(p)` shows. */
  function EditForm(p: ProductItem): (f: ProductForm)
    ensures f.editing == Some(p) && f.name == p.name && f.price == p.price
    ensures f.description == if Server.Truthy(p.description) then p.description.value else ""
    ensures f.categoryId == CategoryField(p.categoryId)
    ensures f.isOutOfStock <==> p.isOutOfStock == 1
    ensures f.isNew <==> p.isNew == 1
    ensures f.isFeatured <==> p.isFeatured == 1
    ensures f.image.None? && f.preview == p.imageUrl
  {
    var description := if Server.Truthy(p.description) then p.description.value else "";
    ProductForm(Some(p), p.name, description, p.price, CategoryField(p.categoryId),
      p.isOutOfStock == 1, p.isNew == 1, p.isFeatured == 1, None, p.imageUrl)
  }

  /** `String(b)`, what `FormData.append` sends for a check box. */
  function BoolText(b: bool): (s: string)
    ensures s == "true" || s == "false"
    ensures (s == "true") == b
  {
    if b then "true" else "false"
  }

  const ProductsUrl: string := "/api/products"

  /** The multipart fields `handleSubmit` appends, all as text. */
  function SubmitBody(f: ProductForm): (b: Server.ProductBody)
    ensures b.name == Some(f.name) && b.description == Some(f.description) && b.price == Some(f.price)
    ensures b.categoryId == Some(f.categoryId)
    ensures b.isOutOfStock == Some(BoolText(f.isOutOfStock)) && b.isNew == Some(BoolText(f.isNew))
    ensures b.isFeatured == Some(BoolText(f.isFeatured))
  {
    Server.ProductBody(Some(f.name), Some(f.description), Some(f.price), Some(f.categoryId),
      Some(BoolText(f.isOutOfStock)), Some(BoolText(f.isNew)), Some(BoolText(f.isFeatured)))
  }

  /** `handleSubmit`: `PUT /api/products/{id}` when editing, else `POST /api/products`; the file only if chosen. */
  function SubmitRequest(f: ProductForm): (r: Server.Request<Server.ProductBody>)
    ensures r.verb == (if f.editing.Some? then "PUT" else "POST")
    ensures f.editing.None? ==> r.url == ProductsUrl
    ensures f.editing.Some? ==> r.url == ProductsUrl + "/" + NatToString(f.editing.value.id)
    ensures r.body == SubmitBody(f) && r.file == f.image
  {
    var url := if f.editing.Some? then ProductsUrl + "/" + NatToString(f.editing.value.id) else ProductsUrl;
    Server.Request(if f.editing.Some? then "PUT" else "POST", url, SubmitBody(f), f.image)
  }

  /** A check box survives the trip to the server: checked is stored as 1, unchecked as 0. */
  lemma FlagRoundTrip(b: bool)
    ensures Server.Flag(Some(BoolText(b))) == if b then 1 else 0
  {
  }

  /** The edit address names the edited product: different ids never share an address. */
  lemma SubmitUrlNamesProduct(f: ProductForm, g: ProductForm)
    requires f.editing.Some? && g.editing.Some?
    ensures SubmitRequest(f).url == SubmitRequest(g).url ==> f.editing.value.id == g.editing.value.id
  {
    var p := ProductsUrl + "/";
    if SubmitRequest(f).url == SubmitRequest(g).url {
      assert NatToString(f.editing.value.id) == (p + NatToString(f.editing.value.id))[|p|..];
      assert NatToString(g.editing.value.id) == (p + NatToString(g.editing.value.id))[|p|..];
      NatToStringInjective(f.editing.value.id, g.editing.value.id);
    }
  }

  /** The server refuses a new product exactly when the name or the price input is empty. */
  lemma CreateNeedsNameAndPrice(f: ProductForm, id: int, upload: Option<string>)
    ensures Server.CreateProduct(id, SubmitRequest(f).body, upload).Fail? <==> f.name == "" || f.price == ""
  {
  }

  /** A new product saved from the blank form with only a name and a price gets no flag set. */
  lemma CreateFromBlankForm(name: string, price: string, id: int)
    requires name != "" && price != ""
    ensures var r := Server.CreateProduct(id, SubmitRequest(BlankForm.(name := name, price := price)).body, None);
      r.Ok? && r.value.isOutOfStock == 0 && r.value.isNew == 0 && r.value.isFeatured == 0 && r.value.image.None?
  {
  }

  /**
   * Saving an edited product without touching the check boxes or the image
   * keeps its stored 0/1 flags and its stored image; any other stored flag
   * value comes back as 0.
   */
  lemma EditRoundTrip(p: ProductItem, row: Server.Product)
    ensures var f := EditForm(p);
      var r := Server.EditProduct(Some(row), SubmitRequest(f).body, SubmitRequest(f).file);
      r.Ok? && r.value.image == row.image &&
      r.value.isOutOfStock == (if p.isOutOfStock == 1 then 1 else 0) &&
      r.value.isNew == (if p.isNew == 1 then 1 else 0) &&
      r.value.isFeatured == (if p.isFeatured == 1 then 1 else 0)
  {
    var f := EditForm(p);
    FlagRoundTrip(f.isOutOfStock);
    FlagRoundTrip(f.isNew);
    FlagRoundTrip(f.isFeatured);
  }

  /** Corollary for rows whose flags are 0 or 1, as the handlers store them. */
  lemma EditKeepsFlags(p: ProductItem, row: Server.Product)
    requires 0 <= p.isOutOfStock <= 1 && 0 <= p.isNew <= 1 && 0 <= p.isFeatured <= 1
    ensures var f := EditForm(p);
      var r := Server.EditProduct(Some(row), SubmitRequest(f).body, SubmitRequest(f).file).value;
      r.isOutOfStock == p.isOutOfStock && r.isNew == p.isNew && r.isFeatured == p.isFeatured
  {
    EditRoundTrip(p, row);
  }

  /** The form of the page. */
  class ProductsPage {
    var form: ProductForm

    constructor ()
      ensures form == BlankForm
    {
      form := BlankForm;
    }

    /** `openCreateModal`: no product being edited, the inputs and boxes reset, no image. */
    method OpenCreateModal()
      modifies this
      ensures form.editing.None? && form.name == "" && form.description == "" && form.price == "" && form.categoryId == ""
      ensures !form.isOutOfStock && !form.isNew && !form.isFeatured
      ensures form.image.None? && form.preview.None?
    {
      form := BlankForm;
    }

    /** `openEditModal(p)`: the inputs and boxes show p. */
    method OpenEditModal(p: ProductItem)
      modifies this
      ensures form == EditForm(p)
    {
      form := EditForm(p);
    }
  }
}
