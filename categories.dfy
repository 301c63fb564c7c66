/**
 * The categories admin page of src/pages/admin/Categories.jsx: the sortable
 * list reordered by drag and drop (dnd-kit's `arrayMove`, then the id list
 * sent to `/api/categories/reorder`), and the create/edit form whose
 * submission picks the address and method.
 */
module CategoryAdmin {
  import opened Text
  import Server

  /** A category as fetched from `GET /api/categories`. */
  datatype CategoryItem = CategoryItem(id: nat, title: string, description: Option<string>, imageUrl: Option<string>)

  predicate HasId(items: seq<CategoryItem>, id: nat) {
    exists i :: 0 <= i < |items| && items[i].id == id
  }

  /** `items.findIndex(item => item.id === id)` for an id that is present. */
  function FindIndex(items: seq<CategoryItem>, id: nat): (k: nat)
    requires HasId(items, id)
    ensures k < |items| && items[k].id == id
    ensures forall j :: 0 <= j < k ==> items[j].id != id
  {
    if items[0].id == id then 0
    else
      assert HasId(items[1..], id) by {
        var i :| 0 <= i < |items| && items[i].id == id;
        assert items[1..][i - 1] == items[i];
      }
      1 + FindIndex(items[1..], id)
  }

  /** `items.map(item => item.id)`. */
  function Ids(items: seq<CategoryItem>): (r: seq<int>)
    ensures |r| == |items|
    ensures forall i :: 0 <= i < |items| ==> r[i] == items[i].id
  {
    seq(|items|, i requires 0 <= i < |items| => items[i].id)
  }

  // ---------------------------------------------------------------------------
  // arrayMove
  // ---------------------------------------------------------------------------

  /** dnd-kit's `arrayMove(s, from, to)`: take out the element at `from`, insert it at `to`. */
  function ArrayMove<T>(s: seq<T>, from: nat, to: nat): (r: seq<T>)
    requires from < |s| && to < |s|
    ensures |r| == |s|
  {
    var rest := s[..from] + s[from + 1..];
    rest[..to] + [s[from]] + rest[to..]
  }

  /** The position of the old list that ends at position i after a move from `from` to `to`. */
  function MovedFrom(from: nat, to: nat, i: nat): nat {
    if i == to then from
    else if from < to && from <= i < to then i + 1
    else if to < from && to < i <= from then i - 1
    else i
  }

  /** An independent, position-by-position description of arrayMove. */
  lemma ArrayMoveAt<T>(s: seq<T>, from: nat, to: nat, i: nat)
    requires from < |s| && to < |s| && i < |s|
    ensures MovedFrom(from, to, i) < |s|
    ensures ArrayMove(s, from, to)[i] == s[MovedFrom(from, to, i)]
  {
    var rest := s[..from] + s[from + 1..];
    assert forall k :: 0 <= k < |rest| ==> rest[k] == if k < from then s[k] else s[k + 1];
    var r := ArrayMove(s, from, to);
    if i < to {
      assert r[i] == rest[i];
    } else if i > to {
      assert r[i] == rest[i - 1];
    }
  }

  /** The dragged element lands at the index of the element it was dropped on. */
  lemma ArrayMoveLands<T>(s: seq<T>, from: nat, to: nat)
    requires from < |s| && to < |s|
    ensures ArrayMove(s, from, to)[to] == s[from]
  {
    ArrayMoveAt(s, from, to, to);
  }

  /**
   * Elements outside the range between `from` and `to` keep their positions;
   * those inside it shift by one towards `from`.
   */
  lemma ArrayMoveFrame<T>(s: seq<T>, from: nat, to: nat)
    requires from < |s| && to < |s|
    ensures forall i :: 0 <= i < |s| && i < from && i < to ==> ArrayMove(s, from, to)[i] == s[i]
    ensures forall i :: 0 <= i < |s| && i > from && i > to ==> ArrayMove(s, from, to)[i] == s[i]
    ensures forall i :: from <= i < to ==> ArrayMove(s, from, to)[i] == s[i + 1]
    ensures forall i :: to < i <= from ==> ArrayMove(s, from, to)[i] == s[i - 1]
  {
    forall i | 0 <= i < |s| ensures ArrayMove(s, from, to)[i] == s[MovedFrom(from, to, i)] {
      ArrayMoveAt(s, from, to, i);
    }
  }

  /** Moving an element onto its own place changes nothing. */
  lemma ArrayMoveSame<T>(s: seq<T>, k: nat)
    requires k < |s|
    ensures ArrayMove(s, k, k) == s
  {
    ArrayMoveFrame(s, k, k);
    ArrayMoveLands(s, k, k);
  }

  /** arrayMove reorders and loses nothing: the result is a permutation. */
  lemma ArrayMovePermutes<T>(s: seq<T>, from: nat, to: nat)
    requires from < |s| && to < |s|
    ensures multiset(ArrayMove(s, from, to)) == multiset(s)
  {
    var rest := s[..from] + s[from + 1..];
    assert s == s[..from] + [s[from]] + s[from + 1..];
    assert multiset(s) == multiset(rest) + multiset{s[from]};
    assert rest == rest[..to] + rest[to..];
    assert multiset(ArrayMove(s, from, to)) == multiset(rest[..to]) + multiset{s[from]} + multiset(rest[to..]);
  }

  /** Moving the categories moves their ids the same way. */
  lemma IdsArrayMove(items: seq<CategoryItem>, from: nat, to: nat)
    requires from < |items| && to < |items|
    ensures Ids(ArrayMove(items, from, to)) == ArrayMove(Ids(items), from, to)
  {
    forall i | 0 <= i < |items| ensures Ids(ArrayMove(items, from, to))[i] == ArrayMove(Ids(items), from, to)[i] {
      ArrayMoveAt(items, from, to, i);
      ArrayMoveAt(Ids(items), from, to, i);
    }
  }

  /** Distinct ids stay distinct after a move. */
  lemma ArrayMoveDistinct(ids: seq<int>, from: nat, to: nat)
    requires from < |ids| && to < |ids| && Server.Distinct(ids)
    ensures Server.Distinct(ArrayMove(ids, from, to))
  {
    var r := ArrayMove(ids, from, to);
    forall i, j | 0 <= i < j < |r| ensures r[i] != r[j] {
      ArrayMoveAt(ids, from, to, i);
      ArrayMoveAt(ids, from, to, j);
    }
  }

  // ---------------------------------------------------------------------------
  // The create/edit form and its submission
  // ---------------------------------------------------------------------------

  /**
   * The form state: the category being edited (null when creating), the
   * title and description inputs, the chosen file and the preview address.
   */
  datatype CategoryForm = CategoryForm(
    editing: Option<CategoryItem>, title: string, description: string,
    image: Option<string>, preview: Option<string>)

  const CategoriesUrl: string := "http://localhost:3000/api/categories"

  /** `handleSubmit`: the request sent for the current form. */
  function SubmitRequest(f: CategoryForm): (r: Server.Request<Server.CategoryBody>)
    ensures r.verb == (if f.editing.Some? then "PUT" else "POST")
    ensures f.editing.None? ==> r.url == CategoriesUrl
    ensures f.editing.Some? ==> r.url == CategoriesUrl + "/" + NatToString(f.editing.value.id)
    ensures r.body == Server.CategoryBody(Some(f.title), Some(f.description))
    ensures r.file == f.image
  {
    var url := if f.editing.Some? then CategoriesUrl + "/" + NatToString(f.editing.value.id) else CategoriesUrl;
    Server.Request(if f.editing.Some? then "PUT" else "POST", url, Server.CategoryBody(Some(f.title), Some(f.description)), f.image)
  }

  /** The edit address names the edited category: different ids never share an address. */
  lemma SubmitUrlNamesCategory(f: CategoryForm, g: CategoryForm)
    requires f.editing.Some? && g.editing.Some?
    ensures SubmitRequest(f).url == SubmitRequest(g).url ==> f.editing.value.id == g.editing.value.id
  {
    var p := CategoriesUrl + "/";
    if SubmitRequest(f).url == SubmitRequest(g).url {
      assert p + NatToString(f.editing.value.id) == p + NatToString(g.editing.value.id);
      assert NatToString(f.editing.value.id) == (p + NatToString(f.editing.value.id))[|p|..];
      assert NatToString(g.editing.value.id) == (p + NatToString(g.editing.value.id))[|p|..];
      NatToStringInjective(f.editing.value.id, g.editing.value.id);
    }
  }

  /** The server rejects a creation exactly when the title input is empty. */
  lemma CreateNeedsTitle(f: CategoryForm, id: int, upload: Option<string>)
    ensures Server.CreateCategory(id, SubmitRequest(f).body, upload).Fail? <==> f.title == ""
  {
  }

  /** The server side of the page: an edit sent without a chosen file keeps the stored image. */
  lemma EditWithoutFileKeepsImage(f: CategoryForm, row: Server.Category)
    requires f.image.None?
    ensures Server.EditCategory(Some(row), SubmitRequest(f).body, SubmitRequest(f).file).value.image == row.image
  {
  }

  /** The category list and the form of the page. */
  class CategoriesPage {
    var categories: seq<CategoryItem>
    var form: CategoryForm

    constructor (fetched: seq<CategoryItem>)
      ensures categories == fetched
      ensures form == CategoryForm(None, "", "", None, None)
    {
      categories := fetched;
      form := CategoryForm(None, "", "", None, None);
    }

    /** `openCreateModal`: no category being edited, empty inputs, no file, no preview. */
    method OpenCreateModal()
      modifies this
      ensures form.editing.None? && form.title == "" && form.description == ""
      ensures form.image.None? && form.preview.None?
      ensures categories == old(categories)
    {
      form := CategoryForm(None, "", "", None, None);
    }

    /** `openEditModal(c)`: the inputs show c, a missing description as `''`; no file is chosen yet. */
    method OpenEditModal(c: CategoryItem)
      modifies this
      ensures form.editing == Some(c) && form.title == c.title
      ensures form.description == if Server.Truthy(c.description) then c.description.value else ""
      ensures form.image.None? && form.preview == c.imageUrl
      ensures categories == old(categories)
    {
      var description := if Server.Truthy(c.description) then c.description.value else "";
      form := CategoryForm(Some(c), c.title, description, None, c.imageUrl);
    }

    /**
     * `handleDragEnd` for a drag of `activeId` dropped on `overId`: unless
     * they are the same, the list is replaced by the arrayMove of the two
     * indexes and the new id list is returned as the reorder payload. The
     * list stays as moved whatever the server answers.
     */
    method HandleDragEnd(activeId: nat, overId: nat) returns (payload: Option<seq<int>>)
      requires HasId(categories, activeId) && HasId(categories, overId)
      modifies this
      ensures activeId == overId ==> categories == old(categories) && payload.None?
      ensures activeId != overId ==>
        categories == ArrayMove(old(categories), FindIndex(old(categories), activeId), FindIndex(old(categories), overId))
      ensures activeId != overId ==> payload == Some(Ids(categories))
      ensures form == old(form)
    {
      payload := None;
      if activeId != overId {
        var oldIndex := FindIndex(categories, activeId);
        var newIndex := FindIndex(categories, overId);
        var newOrder := ArrayMove(categories, oldIndex, newIndex);
        payload := Some(Ids(newOrder));
        categories := newOrder;
      }
    }
  }

  /**
   * Dropping `activeId` on `overId` and sending the payload to the reorder
   * handler puts the dragged category at the dropped-on position, and gives
   * every category stored on the server the display order of its new place.
   */
  lemma DragThenReorder(items: seq<CategoryItem>, activeId: nat, overId: nat, order: map<int, int>)
    requires HasId(items, activeId) && HasId(items, overId) && Server.Distinct(Ids(items))
    ensures var moved := ArrayMove(items, FindIndex(items, activeId), FindIndex(items, overId));
      moved[FindIndex(items, overId)].id == activeId &&
      multiset(moved) == multiset(items) &&
      forall i :: 0 <= i < |moved| && moved[i].id in order ==> Server.Assigned(order, Ids(moved))[moved[i].id] == i
  {
    var from, to := FindIndex(items, activeId), FindIndex(items, overId);
    var moved := ArrayMove(items, from, to);
    ArrayMoveLands(items, from, to);
    ArrayMovePermutes(items, from, to);
    IdsArrayMove(items, from, to);
    ArrayMoveDistinct(Ids(items), from, to);
    forall i | 0 <= i < |moved| && moved[i].id in order
      ensures Server.Assigned(order, Ids(moved))[moved[i].id] == i
    {
      Server.AssignedListed(order, Ids(moved), i);
    }
  }
}
