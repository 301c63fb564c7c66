# MissDelice storefront core in Dafny

MissDelice is a bakery website. It has a public storefront and a small admin area. This project models and proves properties of:

- **Cart**: the cart context (`src/context/CartContext.jsx`). It adds, removes and clears lines, computes the count and the total, and persists the cart in the browser's storage.
- **Checkout sidebar** (`src/components/CartSidebar.jsx`):
  - the pickup time slots offered for the current instant;
  - the order form's change handler;
  - the order sent to the shop;
  - the disabled state of the submit button.
- **Opening hours**:
  - the admin editor (`src/pages/admin/AdminHours.jsx`): its time grid, the codec between the stored text ("09h00 - 12h30 & 14h00 - 19h00") and the four select fields, and the day edits and the save payload;
  - the public page (`src/pages/About.jsx`), which groups consecutive days with the same hours.
- **Back-end handlers** (`backend/server.js`):
  - category slugs;
  - image URLs;
  - validation of the create and edit handlers;
  - the check-box flags;
  - the category reorder.
- **Admin pages**:
  - categories (`src/pages/admin/Categories.jsx`): the form, the request it sends and the drag-and-drop reorder (`arrayMove`);
  - products (`src/pages/admin/Products.jsx`): the form and its multipart request.
- **Public menu**:
  - the menu page (`src/pages/Menu.jsx`): the category filter, the price label, the stock overlay and badges, and the Add button;
  - the home page preview (`src/components/home/MenuPreviewSection.jsx`): a Fisher–Yates shuffle in place, then the first twelve products.

The modules follow the program's files:

| file | module | form |
|---|---|---|
| `text.dfy` | `Text` | shared helpers: digits, clock labels, trimming, splitting |
| `cart.dfy` | `Cart` | pure line functions plus the `CartStore` class holding the state |
| `cart_sidebar.dfy` | `CartSidebar` | slot generation as a method with its loop, the form as a map |
| `admin_hours.dfy` | `AdminHours` | |
| `about.dfy` | `About` | `GetGroupedHours` is the source's loop, proved against a functional grouping |
| `server.dfy` | `Server` | the handlers as functions on explicit request and row values; the reorder as a class updating a `map` |
| `categories.dfy` | `CategoryAdmin` | |
| `products.dfy` | `ProductAdmin` | |
| `menu_preview.dfy` | `MenuPreview` | the shuffle keeps its `array` and its loop |
| `menu.dfy` | `MenuPage` | |

Conventions:

- Prices are integer cents.
- JavaScript `null`/`undefined` is `None`.
- A JavaScript truthiness test on a text value is `Server.Truthy`: present and non-empty.
- The current instant is a parameter (`CartSidebar.Instant`).
- The draws of `Math.random` are a parameter (`js` in `MenuPreview`).

## Model

| member | source | states |
|---|---|---|
| Cart.IndexOf | src/context/CartContext.jsx:24 | the index found is the first line that carries the id |
| Cart.AddNew | src/context/CartContext.jsx:33-36 | a product not yet in the cart is appended as a line of quantity 1 |
| Cart.AddExisting | src/context/CartContext.jsx:26-32 | a product already in the cart has its quantity raised by one; every other line is unchanged and no line is added |
| Cart.RemoveShape | src/context/CartContext.jsx:47-57 | a line of quantity 1 is removed, leaving the others in order; otherwise its quantity drops by one |
| Cart.RemoveKeepsOthers | src/context/CartContext.jsx:43-59 | removing one product never adds or drops another product's line |
| Cart.AddPreservesWellFormed | src/context/CartContext.jsx:21-40 | adding keeps the cart at one line per product, every quantity positive |
| Cart.RemovePreservesWellFormed | src/context/CartContext.jsx:43-59 | removing keeps the cart at one line per product, every quantity positive |
| Cart.AddCountTotal | src/context/CartContext.jsx:21-40 | adding raises the item count by one and the total by the product's unit price |
| Cart.RemoveCountTotal | src/context/CartContext.jsx:43-59 | removing lowers the item count by one and the total by the removed product's unit price |
| Cart.CountConcat | src/context/CartContext.jsx:73-75 | the item count of two carts joined is the sum of their counts |
| Cart.TotalConcat | src/context/CartContext.jsx:68-70 | the total of two carts joined is the sum of their totals |
| Cart.CountAtLeastLines | src/context/CartContext.jsx:73-75 | in a well-formed cart, the count is at least the number of lines; it is zero exactly when the cart is empty |
| Cart.CartStore.constructor | src/context/CartContext.jsx:8-13 | the cart starts as the saved cart, or empty when nothing is saved, and closed |
| Cart.CartStore.Persist | src/context/CartContext.jsx:16-18 | the stored copy equals the current lines |
| Cart.CartStore.AddToCart | src/context/CartContext.jsx:21-40 | new lines as the add function gives them; stored copy in step; count +1; total + unit price |
| Cart.CartStore.RemoveFromCart | src/context/CartContext.jsx:43-59 | new lines as the remove function gives them; stored copy in step; count −1; total − that product's price |
| Cart.CartStore.ClearCart | src/context/CartContext.jsx:62-65 | the cart is empty, with count and total zero |
| Cart.CartStore.SetIsCartOpen | src/context/CartContext.jsx:13 | the open flag takes the given value |
| CartSidebar.GridLabel | src/components/CartSidebar.jsx:46 | every grid point is shown as a clock label "HHhMM" |
| CartSidebar.GridPointMinutes | src/components/CartSidebar.jsx:34-38 | grid point k is 14h00 plus 15·k minutes, and its label reads back as that time |
| CartSidebar.GenerateSlots | src/components/CartSidebar.jsx:25-51 | the loop returns exactly the slots the slot specification offers for the instant |
| CartSidebar.BookableMonotone | src/components/CartSidebar.jsx:43-45 | a bookable slot stays bookable for every later grid point |
| CartSidebar.FirstBookable | src/components/CartSidebar.jsx:43-45 | it names the first bookable grid point: none before it is bookable, and it is bookable unless past the grid |
| CartSidebar.SlotsAreGridSuffix | src/components/CartSidebar.jsx:34-47 | outside Tuesdays, the slots are exactly the grid from the first bookable point to 17h45 |
| CartSidebar.SlotOfferedIff | src/components/CartSidebar.jsx:32-47 | a grid time is offered exactly when the day is not a Tuesday and the time is more than fifteen minutes ahead |
| CartSidebar.GridLabelInjective | src/components/CartSidebar.jsx:46 | distinct grid points carry distinct labels |
| CartSidebar.SlotsShape | src/components/CartSidebar.jsx:25-51 | at most sixteen slots, all clock labels, in strictly increasing time order |
| CartSidebar.BookableBySeconds | src/components/CartSidebar.jsx:40-45 | the millisecond test equals a comparison of the slot's second of the day with now plus fifteen minutes |
| CartSidebar.NothingAfterHalfPastFive | src/components/CartSidebar.jsx:43-45 | from 17h30 on, no slot is offered |
| CartSidebar.HandleChange | src/components/CartSidebar.jsx:61-67 | the named field takes the checked state (check box) or the text; every other field is unchanged |
| CartSidebar.ChangeOverwrites | src/components/CartSidebar.jsx:61-67 | a second change to the same field overrides the first |
| CartSidebar.ChangesCommute | src/components/CartSidebar.jsx:61-67 | changes to different fields commute |
| CartSidebar.UntouchedField | src/components/CartSidebar.jsx:61-67 | a field that no event names keeps its value |
| CartSidebar.OrderAddress | src/components/CartSidebar.jsx:78 | without delivery the address is "Retrait sur place"; with delivery it is the street, ", ", the zip code, a space and the city, each field read back from its place in the text |
| CartSidebar.BuildOrder | src/components/CartSidebar.jsx:73-85 | the order carries the cart lines, the cart total, the form's contact fields, delivery flag and time slot, and the computed address |
| CartSidebar.InitialFormIsPickup | src/components/CartSidebar.jsx:8-17 | an order from a form whose delivery box was never touched is a pickup order |
| CartSidebar.UncheckedIsPickup | src/components/CartSidebar.jsx:78 | an unchecked delivery box gives the pickup address |
| CartSidebar.SubmitDisabled | src/components/CartSidebar.jsx:253 | the button is disabled while submitting or when no slot is available |
| CartSidebar.ClosedTimesDisableSubmit | src/components/CartSidebar.jsx:253 | on a Tuesday or from 17h30 on, the order cannot be submitted |
| AdminHours.GenerateTimeSlots | src/pages/admin/AdminHours.jsx:4-11 | the loop returns the time-grid specification |
| AdminHours.HalfHoursAt | src/pages/admin/AdminHours.jsx:6-9 | entry j of the grid from hour a is a clock label of a·60 + 30·j minutes |
| AdminHours.TimeSlotsShape | src/pages/admin/AdminHours.jsx:4-11 | 37 choices: the empty one, then 06h00 to 23h30 every thirty minutes |
| AdminHours.TimeSlotsClean | src/pages/admin/AdminHours.jsx:4-11 | every choice is empty or a clean time, with no space, '-' or '&' |
| AdminHours.ParseHoursText | src/pages/admin/AdminHours.jsx:19-28 | no text, or an empty one, gives four empty fields; otherwise the fields come from the trimmed halves of the trimmed ranges |
| AdminHours.Normalize | src/pages/admin/AdminHours.jsx:30-38 | each range of the result is either complete or entirely empty |
| AdminHours.ParseOneRange | src/pages/admin/AdminHours.jsx:19-28 | "a - b" parses to a morning range a to b and an empty afternoon |
| AdminHours.ParseTwoRanges | src/pages/admin/AdminHours.jsx:19-28 | "a - b & c - d" parses to the morning range a–b and the afternoon range c–d |
| AdminHours.BuildParseOneRange | src/pages/admin/AdminHours.jsx:19-38 | a stored single range survives a load and a rebuild unchanged |
| AdminHours.BuildParseTwoRanges | src/pages/admin/AdminHours.jsx:19-38 | a stored text with two ranges survives a load and a rebuild unchanged |
| AdminHours.ParseBuild | src/pages/admin/AdminHours.jsx:19-38 | parsing the text built from clean fields gives back the fields with incomplete ranges removed |
| AdminHours.ParseBuildExact | src/pages/admin/AdminHours.jsx:19-38 | with a complete morning range and an afternoon range that is complete or empty, the fields round-trip exactly |
| AdminHours.AfternoonOnlyComesBackAsMorning | src/pages/admin/AdminHours.jsx:30-36 | an afternoon-only day is saved as one range and comes back as a morning range |
| AdminHours.LoneEndpointIgnored | src/pages/admin/AdminHours.jsx:31-36 | an afternoon with only one endpoint does not reach the saved text |
| AdminHours.SetEndpoint | src/pages/admin/AdminHours.jsx:67-75 | exactly the selected field takes the new value |
| AdminHours.LoadDays | src/pages/admin/AdminHours.jsx:46-52 | every fetched day keeps its record and gets the fields parsed from its text |
| AdminHours.ToggleClosed | src/pages/admin/AdminHours.jsx:63-65 | exactly the days with the id flip the closed flag |
| AdminHours.TimeChange | src/pages/admin/AdminHours.jsx:67-75 | the edited day gets the new field and the text rebuilt from its fields; other days are unchanged |
| AdminHours.EditedDayReloads | src/pages/admin/AdminHours.jsx:67-75 | an edit through a select keeps the fields clean, and the saved text reloads as the normalised fields |
| AdminHours.SavePayload | src/pages/admin/AdminHours.jsx:80 | the payload keeps the id, closed flag and text of every day, in order |
| About.GetGroupedHours | src/pages/About.jsx:23-41 | the loop returns exactly the functional grouping of the days |
| About.ExtendGroup | src/pages/About.jsx:31-33 | a day whose state matches the open group extends that group to end at the day |
| About.CloseGroup | src/pages/About.jsx:34-37 | a day whose state differs closes the open group and starts a new one at the day |
| About.FinishScan | src/pages/About.jsx:39 | pushing the last open group completes the grouping |
| About.GroupCount | src/pages/About.jsx:24 | no days give no groups; otherwise there are between one and as many groups as days |
| About.RunsCoverDays | src/pages/About.jsx:23-41 | the groups' day ranges, read in order, give back the whole week |
| About.GroupsAreUniform | src/pages/About.jsx:31-32 | every day of a group has that group's closed flag and hours text |
| About.NeighboursDiffer | src/pages/About.jsx:31-37 | two consecutive groups never share the same closed flag and hours text |
| About.EqualDaysApartStaySeparate | src/pages/About.jsx:23-41 | equal days are merged only when adjacent: a, b, a gives three groups |
| About.DayLabel | src/pages/About.jsx:93 | one day is shown by its name; a range as "first - last" |
| About.HoursLabel | src/pages/About.jsx:97-105 | closed groups show "FERMÉ", open groups their hours text |
| Server.Lower | backend/server.js:120 | no capital ASCII letter is left; every other character is kept and each capital becomes its small letter |
| Server.LowerIdempotent | backend/server.js:120 | lowering an already lowered text changes nothing |
| Server.LowerAppend | backend/server.js:120 | lowering two texts joined gives the two lowered texts joined |
| Server.Hyphenate | backend/server.js:121 | no space is left: each space becomes a hyphen, and every other character is kept |
| Server.HyphenateIdempotent | backend/server.js:121 | replacing the spaces of an already hyphenated text changes nothing |
| Server.HyphenateAppend | backend/server.js:121 | replacing spaces in two texts joined gives the two replaced texts joined |
| Server.SlugShape | backend/server.js:120-122 | a slug holds only lower-case letters, digits, '_' and '-', and is no longer than the title |
| Server.SlugIdempotent | backend/server.js:120-122 | slugging a slug changes nothing |
| Server.SlugAppend | backend/server.js:120-122 | the slug of two texts joined is the join of their slugs |
| Server.SlugSpace | backend/server.js:121 | a space between two words becomes a single hyphen between their slugs |
| Server.SlugDrops | backend/server.js:122 | punctuation outside word characters and '-' disappears from the slug |
| Server.CategoryImageUrl | backend/server.js:104-106 | a missing name gives no URL; an absolute URL is kept; a file name gets the category uploads prefix and can be read back |
| Server.CategoryImageUrlIdempotent | backend/server.js:104-106 | mapping an already mapped URL changes nothing |
| Server.ProductImageUrl | backend/server.js:242-244 | a missing name gives no URL; otherwise the product uploads prefix is added and the name can be read back |
| Server.ProductImageUrlInjective | backend/server.js:242-244 | distinct stored names give distinct URLs |
| Server.ProductImageUrlPrefixesAbsolute | backend/server.js:242-244 | unlike the category mapping, an absolute URL is prefixed again |
| Server.Flag | backend/server.js:265 | a check box is stored as 1 exactly when it was sent as the text "true", else 0 |
| Server.CreateCategory | backend/server.js:112-135 | 400 exactly when the title is missing or empty; otherwise the row has the title, its slug, the description or "", and the uploaded file |
| Server.EditCategory | backend/server.js:188-226 | 404 exactly for an unknown id; otherwise the slug is recomputed only for a non-empty title, and the image is replaced only by an upload |
| Server.EditCategorySlug | backend/server.js:203 | an edit always leaves a well-formed slug |
| Server.Flags | backend/server.js:265-267 | the three flags, each 1 exactly when sent as "true" |
| Server.CreateProduct | backend/server.js:250-276 | 400 exactly when the name or the price is missing or empty; otherwise the row carries the fields, the flags and the upload |
| Server.EditProduct | backend/server.js:278-305 | 404 exactly for an unknown id; otherwise the fields and flags are rewritten and the image replaced only by an upload |
| Server.Assigned | backend/server.js:172-180 | the reorder touches no id outside the table's keys |
| Server.AssignedUnlisted | backend/server.js:172-180 | a category missing from the list keeps its position |
| Server.AssignedListed | backend/server.js:172-180 | with distinct ids, the category at index i of the list gets position i |
| Server.CategoryOrder.constructor | backend/server.js:165-185 | the positions start as given |
| Server.CategoryOrder.Reorder | backend/server.js:165-185 | a body that is not a list gives 400 "Format invalide" and changes nothing; otherwise the positions are reassigned from the list |
| CategoryAdmin.FindIndex | src/pages/admin/Categories.jsx:161-162 | the index is the first category carrying the id |
| CategoryAdmin.ArrayMoveAt | src/pages/admin/Categories.jsx:163 | every position of the moved list holds the element of a computed source position |
| CategoryAdmin.ArrayMoveLands | src/pages/admin/Categories.jsx:163 | the moved element lands at the target index |
| CategoryAdmin.ArrayMoveFrame | src/pages/admin/Categories.jsx:163 | elements outside the two indexes stay; those between them shift by one toward the vacated place |
| CategoryAdmin.ArrayMoveSame | src/pages/admin/Categories.jsx:163 | a move onto the same index changes nothing |
| CategoryAdmin.ArrayMovePermutes | src/pages/admin/Categories.jsx:163 | the moved list is a permutation of the original |
| CategoryAdmin.ArrayMoveDistinct | src/pages/admin/Categories.jsx:163-170 | moving keeps the ids distinct |
| CategoryAdmin.SubmitRequest | src/pages/admin/Categories.jsx:122-138 | PUT to the category's address when editing, POST to the collection otherwise; the body carries the title and description; the file is sent only if chosen |
| CategoryAdmin.SubmitUrlNamesCategory | src/pages/admin/Categories.jsx:131-138 | different categories are edited at different addresses |
| CategoryAdmin.CreateNeedsTitle | src/pages/admin/Categories.jsx:122-138 | the server refuses a new category exactly when the title input is empty |
| CategoryAdmin.EditWithoutFileKeepsImage | src/pages/admin/Categories.jsx:128 | saving an edit with no new file keeps the stored image |
| CategoryAdmin.CategoriesPage.constructor | src/pages/admin/Categories.jsx:113-120 | the page starts with the fetched list and an empty form |
| CategoryAdmin.CategoriesPage.OpenCreateModal | src/pages/admin/Categories.jsx:113-120 | the form is emptied and the list is unchanged |
| CategoryAdmin.CategoriesPage.OpenEditModal | src/pages/admin/Categories.jsx:104-111 | the form shows the category, its description or "", and its image as preview |
| CategoryAdmin.CategoriesPage.HandleDragEnd | src/pages/admin/Categories.jsx:157-176 | a drop on itself changes nothing and sends nothing; otherwise the dragged category moves to the drop index and the new id order is sent |
| CategoryAdmin.DragThenReorder | src/pages/admin/Categories.jsx:157-176 | after a drag, the dragged category sits at the drop index, the list is a permutation, and the server gives every category its new index |
| ProductAdmin.CategoryField | src/pages/admin/Products.jsx:68 | empty exactly for a missing or zero category; otherwise digits that read back as the id |
| ProductAdmin.EditForm | src/pages/admin/Products.jsx:62-77 | the form shows the product; each box is checked exactly when its flag is 1; the description or "" |
| ProductAdmin.BoolText | src/pages/admin/Products.jsx:96-98 | a box is sent as "true" exactly when checked, else "false" |
| ProductAdmin.SubmitBody | src/pages/admin/Products.jsx:91-98 | every input is sent as text, the boxes as "true" or "false" |
| ProductAdmin.SubmitRequest | src/pages/admin/Products.jsx:87-109 | PUT to the product's address when editing, POST to the collection otherwise; the file is sent only if chosen |
| ProductAdmin.FlagRoundTrip | src/pages/admin/Products.jsx:96-98 | a checked box is stored as 1, an unchecked one as 0 |
| ProductAdmin.SubmitUrlNamesProduct | src/pages/admin/Products.jsx:103-109 | different products are edited at different addresses |
| ProductAdmin.CreateNeedsNameAndPrice | src/pages/admin/Products.jsx:87-109 | the server refuses a new product exactly when the name or the price input is empty |
| ProductAdmin.CreateFromBlankForm | src/pages/admin/Products.jsx:47-60 | a product created from the blank form with a name and a price has no flag set and no image |
| ProductAdmin.EditRoundTrip | src/pages/admin/Products.jsx:62-100 | saving an edit without touching the boxes or the image keeps the image; each flag comes back as 1 exactly when it was 1 |
| ProductAdmin.EditKeepsFlags | src/pages/admin/Products.jsx:70-72 | flags stored as 0 or 1 survive an untouched edit |
| ProductAdmin.ProductsPage.OpenCreateModal | src/pages/admin/Products.jsx:47-60 | every input is emptied, every box unchecked, no image |
| ProductAdmin.ProductsPage.OpenEditModal | src/pages/admin/Products.jsx:62-77 | the form becomes the product's edit form |
| MenuPreview.ShuffleArray | src/components/home/MenuPreviewSection.jsx:19-25 | the in-place loop leaves the array as the shuffle specification gives it for the draws |
| MenuPreview.SwapPermutes | src/components/home/MenuPreviewSection.jsx:22 | a swap is a permutation |
| MenuPreview.ShufflePermutes | src/components/home/MenuPreviewSection.jsx:19-25 | whatever the draws, the shuffle is a permutation of its input |
| MenuPreview.ShuffleSettled | src/components/home/MenuPreviewSection.jsx:20-23 | once the loop has passed an index, every position at or above it holds its final element |
| MenuPreview.ShuffleShort | src/components/home/MenuPreviewSection.jsx:20 | lists of length 0 or 1 are left as they are |
| MenuPreview.Preview | src/components/home/MenuPreviewSection.jsx:33 | the first min(12, n) elements |
| MenuPreview.PreviewDrawn | src/components/home/MenuPreviewSection.jsx:33 | the preview holds only listed elements, none more often than listed |
| MenuPreview.FetchPreview | src/components/home/MenuPreviewSection.jsx:32-33 | min(12, n) products, each one fetched, none repeated beyond its multiplicity |
| MenuPage.CategoryItems | src/pages/Menu.jsx:57-59 | every product listed belongs to the category |
| MenuPage.CategoryItemsMembers | src/pages/Menu.jsx:57-59 | a product is listed under a category exactly when it belongs to it |
| MenuPage.CategoryItemsAppend | src/pages/Menu.jsx:57-59 | the filter keeps the fetched order |
| MenuPage.Uncategorised | src/pages/Menu.jsx:57-59 | a product with no category appears under none |
| MenuPage.ChoiceCount | src/pages/Menu.jsx:156 | "N choix" counts exactly the products of the category |
| MenuPage.FormatPrice | src/pages/Menu.jsx:62-64 | the label ends with " €" with a decimal comma before two digits |
| MenuPage.FormatPriceRoundTrip | src/pages/Menu.jsx:62-64 | the label reads back as the price in cents |
| MenuPage.FormatPriceInjective | src/pages/Menu.jsx:62-64 | different prices get different labels |
| MenuPage.OutOfStockHidesActions | src/pages/Menu.jsx:249-297 | an out-of-stock product shows neither the NEW nor the ★ badge nor the Add button |
| MenuPage.OverlayOrAdd | src/pages/Menu.jsx:249-297 | for a 0/1 stock flag, exactly one of the overlay and the Add button is shown |
| MenuPage.ClickAdd | src/pages/Menu.jsx:299-302 | the product is added to the cart, the count rises by one, the total by its unit price, and the cart opens |

## Left out

- Network, database, uploads and storage:
  - Every `fetch`, the MySQL queries and `multer` are represented only by their effect on explicit values. So are the deletion of replaced image files and `localStorage`.
  - A database error reply (500) is not modelled.
  - Request timing (`async`, `isSubmitting` toggling, alerts) is not modelled either.
- The current time is a parameter `Instant` (weekday, second of the day, milliseconds). JavaScript `Date` and time zones are not modelled.
- `Math.random` is replaced by the sequence of indexes it draws.
- The reorder fetch from the categories page is fire-and-forget, and the page does not revert on failure. The model stops at the payload it sends.
- `Server.CategoryOrder.Reorder`: the source's `Promise.all` runs the updates concurrently. The model applies them in list order, so with a repeated id the last index wins.
- `Server.Lower`: only ASCII letters are lowered. Non-ASCII `toLowerCase` mappings (accented capitals, the Kelvin sign, U+0130) are not modelled.
- `MenuPage.FormatPrice`: the price is integer cents. `parseFloat` of a text that is not a number is not modelled, nor `toFixed`'s rounding and exponent form.
- `Cart.Total`: the totals are in cents, where the source sums floating-point prices.
- `Cart.CartStore.RemoveFromCart` requires the product to be in the cart. The source dereferences the found line without a check and would throw otherwise.
- `Cart.CartStore.ClearCart` leaves the stored copy as the empty cart. The source first removes the key, then its persistence effect writes `[]` again.
- `Cart.CartStore.constructor`: a saved value that is not valid JSON is not modelled; the saved cart is taken as already parsed.
- `CategoryAdmin.CategoriesPage.HandleDragEnd` requires both ids to be present in the list. Dropping outside any target (`over` null) is not modelled.
- `Text.TwoDigits` requires a number below 100, which is all the callers pass.
- The About page's loading placeholder is not modelled, and nor are the sidebar's own price label and the other presentation code.
  - The about page itself is modelled.
  - The dashboard, login, navigation bar, footer and legal pages are outside the model.
- `handleImageChange`: the preview object URLs are not modelled. The chosen file is carried by name.
- `CategoryAdmin.CategoryItem`: a category title that is NULL in the database is taken as text.
- `Server.EditCategory`: an edit without a title writes the title as sent (NULL) and keeps the old slug, as the source does.
