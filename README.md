# DenChai menu: menu loading, category sections and view state

This project models the logic inside `DenChaiMenu_Modular.tsx`, the restaurant
menu component of the DenChai site. The rest of the file is presentation.
The logic has three parts:

- **Menu data source** (`MenuData.dfy`). One fetch of the menu endpoint becomes either
  the list of menu items or an error message. The network and `response.json()`
  are an input, `FetchOutcome`: a rejected fetch, or a status plus a body that
  did or did not parse. The body is a JSON value (`JsValues.Json`). Each raw
  record becomes one `MenuItem`. Every field falls back from the capitalised key
  to the lower-case key to `""`, using JavaScript truthiness.
- **Category registry and sections** (`CategoryRegistry.dfy`). This module holds
  the fixed `CATEGORIES` table, the `MOCK_ITEMS` preview data, and the
  `MenuSection` filter. An item is listed under a category when its category is
  a non-empty string that, lower-cased and then trimmed, equals the lower-cased
  id. A category with no such item renders no section.
- **The view** (`MenuView.dfy`). Class `DenChaiMenu` holds the five state cells:
  `menuItems`, `loading`, `error`, `selectedItem` and `activeSection`. Its
  methods are the transitions that write them:
  - the mount effect and `fetchMenu`;
  - `scrollToSection` and `handleSectionInView`;
  - the `MenuSection` visibility effect;
  - item clicks and closing the overlay.

  `Render` gives the screen the cells select: the spinner, then the error
  panel, then the menu.

`JsValues.dfy` holds the JavaScript pieces these rely on: JSON values,
truthiness and `||`, property reads, `trim`, ASCII `toLowerCase`, and the
decimal form of a status code.

The design tool's canvas ("static preview") is the constant `isCanvas` of the view.
The DOM geometry that `scrollToSection` reads is passed in as parameters.
So is the `useInView` signal.

Four behaviours of the code are easy to misread. The model keeps each one as written:

- A wrong-shaped `items` value is not treated as an empty list.
  `(data.items || [])` is empty only when `items` is absent or falsy. A truthy
  `items` that is not an array makes `.map` throw, and the load fails. A null
  body fails too, and so does a null record in the array (`NormaliseBody`, `NormaliseAll`).
- The category id is not trimmed. The code only lower-cases
  the id (`Matches`). The item's category is lower-cased and then trimmed. For
  ASCII case mapping that order does not matter (`LowerTrimCommute`).
- An error message does not always show the error panel. The code
  tests `if (error)`, so an empty message is falsy and the menu renders
  (`Render`, `ErrorShown`).
- On a failed load the code keeps the previous `menuItems`. It does not empty
  them. At mount they are empty anyway (`FetchMenu`).

## Model

| member | source | states |
|---|---|---|
| `MenuData.NormaliseRecord` | DenChaiMenu_Modular.tsx:795-800 | The `.map` callback fails exactly on a null record, with the TypeError for reading `Title`. Every other record yields an item, whatever keys it lacks. |
| `MenuData.NormaliseAll` | DenChaiMenu_Modular.tsx:795-800 | `items.map(...)` succeeds exactly when no record is null. On success there is one item per record, of the same length and in the same order, and item k is record k normalised. |
| `MenuData.NormaliseBody` | DenChaiMenu_Modular.tsx:794-795 | A null body fails. An absent or falsy `items` gives the empty list, with no error. A truthy `items` that is not an array fails with ".map is not a function". An `items` array gives exactly the normalised records (`NormaliseAll`), and a non-empty result comes only from such an array. |
| `MenuData.LoadMenu` | DenChaiMenu_Modular.tsx:790-804 | A rejected fetch fails with the thrown message, or "Unknown error" for a non-Error. A status outside 200-299 fails with "HTTP <status>". A body that does not parse fails with its message. The load succeeds exactly when the status is ok, the body parsed and it normalised, and then its result is the normalised body. |
| `MenuData.LoadMenuItems` | DenChaiMenu_Modular.tsx:790-800 | For an ok response whose body has an `items` array, the load succeeds exactly when no record is null. It then yields one item per record, in order, each field taken by the capitalised/lower-case/`""` fallback from its record. |
| `MenuData.FieldFallback` | DenChaiMenu_Modular.tsx:796-799 | A field is the capitalised key's value when that is truthy. Otherwise it is the lower-case key's value when that is truthy. Otherwise it is `""`. So a field is never missing. |
| `MenuData.NormaliseRecordFields` | DenChaiMenu_Modular.tsx:796-799 | `name`, `price`, `category` and `description` come from the `Title`/`name`, `Price`/`price`, `Category`/`category` and `Description`/`description` key pairs. |
| `MenuData.HttpErrorInjective` | DenChaiMenu_Modular.tsx:793 | The message "HTTP <status>" identifies the status: two different statuses never give the same message. |
| `MenuData.ServerErrorMessage` | DenChaiMenu_Modular.tsx:793 | A 500 response fails the load with exactly "HTTP 500", whatever its body. |
| `MenuData.EmptyObjectLoadsNothing` | DenChaiMenu_Modular.tsx:795 | A 200 response whose body is `{}` loads an empty menu, not an error. |
| `MenuData.CapitalisedRecordScenario` | DenChaiMenu_Modular.tsx:795-800 | A record with `Title` "Pad Thai", `Price` "12", `Category` "Noodles" and `Description` "..." loads as exactly that one item. |
| `JsValues.TrimIsMaximalSlice` | DenChaiMenu_Modular.tsx:521 | `trim` returns a contiguous slice of the string. Everything cut off is white space, and the result neither starts nor ends with white space. |
| `JsValues.TrimIdempotent` | DenChaiMenu_Modular.tsx:521 | Trimming a trimmed string changes nothing. |
| `JsValues.LowerIdempotent` | DenChaiMenu_Modular.tsx:521 | Lower-casing a lower-cased string changes nothing. |
| `JsValues.LowerTrimCommute` | DenChaiMenu_Modular.tsx:521 | Lower-casing then trimming, as the filter does, equals trimming then lower-casing. |
| `JsValues.DecimalRoundTrip` | DenChaiMenu_Modular.tsx:793 | The decimal digits of the status in the error message read back as the status. |
| `CategoryRegistry.Matches` | DenChaiMenu_Modular.tsx:519-521 | An item passes the category test exactly when its category is a non-empty string whose trimmed, lower-cased form equals the lower-cased id. |
| `CategoryRegistry.SectionItems` | DenChaiMenu_Modular.tsx:518-522 | A section's list is no longer than the menu list, and every item in it passes the category test. |
| `CategoryRegistry.SectionItemsMembership` | DenChaiMenu_Modular.tsx:518-522 | An item is listed under a category exactly when it is in the menu list and its category, lower-cased and trimmed, equals the lower-cased id. |
| `CategoryRegistry.SectionItemsCount` | DenChaiMenu_Modular.tsx:518-522 | A matching item occurs in its section as often as in the menu list. A non-matching item never occurs there. |
| `CategoryRegistry.SectionItemsSubsequence` | DenChaiMenu_Modular.tsx:518-522 | A section's list is a subsequence of the menu list, so the original order is kept. |
| `CategoryRegistry.SectionItemsAppend` | DenChaiMenu_Modular.tsx:518-522 | Filtering a concatenation gives the concatenation of the filtered parts. |
| `CategoryRegistry.SectionItemsIdempotent` | DenChaiMenu_Modular.tsx:518-522 | Filtering an already filtered list under the same id changes nothing. |
| `CategoryRegistry.RenderSections` | DenChaiMenu_Modular.tsx:922-938 | There are at most as many sections as categories. Every rendered section belongs to a category of the table and lists at least one item, because an empty filter renders nothing. |
| `CategoryRegistry.RenderedInTableOrder` | DenChaiMenu_Modular.tsx:922-938 | The sections' categories are the table with the empty ones left out, in table order. |
| `CategoryRegistry.OneSectionPerCategory` | DenChaiMenu_Modular.tsx:922-938 | When the ids are pairwise distinct, no two sections share a category id. |
| `CategoryRegistry.OneSectionPerTableCategory` | DenChaiMenu_Modular.tsx:922-938 | With the category table, each category renders at most one section. |
| `CategoryRegistry.RenderedSectionItems` | DenChaiMenu_Modular.tsx:518-524 | A rendered section lists exactly its category's filtered items. |
| `CategoryRegistry.RenderedIff` | DenChaiMenu_Modular.tsx:518-524 | A category gets a section exactly when it is in the table and some menu item matches its id. |
| `CategoryRegistry.RenderedIdIff` | DenChaiMenu_Modular.tsx:518-524 | A section with a given id renders exactly when a table category has that id and some item matches it. |
| `CategoryRegistry.UnmatchedItemHidden` | DenChaiMenu_Modular.tsx:518-524 | An item that matches no category id appears in no section. |
| `CategoryRegistry.NoItemsNoSections` | DenChaiMenu_Modular.tsx:524 | An empty menu list renders no section. |
| `CategoryRegistry.EveryCategoryRenders` | DenChaiMenu_Modular.tsx:922-938 | When every category has a matching item, there is one section per category, in table order, each holding that category's filtered items. |
| `CategoryRegistry.ExactCategoryMatches` | DenChaiMenu_Modular.tsx:518-522 | An item whose category is a lower-case id verbatim matches that id. |
| `CategoryRegistry.CaseInsensitiveMatch` | DenChaiMenu_Modular.tsx:518-522 | An item whose category differs from a lower-case id only in letter case matches that id. |
| `CategoryRegistry.CapitalisedCategoryListed` | DenChaiMenu_Modular.tsx:518-522 | An item with category "Noodles" passes the "noodles" test and is listed in that section. |
| `CategoryRegistry.CategoryIdsDistinct` | DenChaiMenu_Modular.tsx:94-119 | The nine category ids are pairwise distinct. |
| `CategoryRegistry.CategoryIdsLowerCase` | DenChaiMenu_Modular.tsx:94-119 | Every category id is lower-case words with no outer spaces, so lower-casing it changes nothing. |
| `CategoryRegistry.MockItemsCategorised` | DenChaiMenu_Modular.tsx:121-182 | Each preview item's category is a string equal to exactly one category id. |
| `CategoryRegistry.PreviewCategoriesMatched` | DenChaiMenu_Modular.tsx:94-182 | Every category is matched by at least one preview item. |
| `CategoryRegistry.PreviewRendersEveryCategory` | DenChaiMenu_Modular.tsx:94-182 | With the preview items, every category renders a non-empty section, in table order. |
| `MenuView.ModalItem` | DenChaiMenu_Modular.tsx:669-670 | The overlay shows an item exactly when one is selected and the view is not on the canvas. It shows that item. |
| `MenuView.HighlightIsUnique` | DenChaiMenu_Modular.tsx:450-455 | At most one navigation button is highlighted. One is highlighted exactly when the active section is a category id. |
| `MenuView.DenChaiMenu.constructor` | DenChaiMenu_Modular.tsx:772-776 | The cells start with no items, loading, no error, nothing selected, and "appetizers" active. |
| `MenuView.DenChaiMenu.MountEffect` | DenChaiMenu_Modular.tsx:782-810 | On the canvas the preview items are installed, loading ends, and no fetch or error happens. Otherwise the fetch runs: success replaces the items and clears the error, failure records the message and keeps the items. Loading is false afterwards. |
| `MenuView.DenChaiMenu.FetchMenu` | DenChaiMenu_Modular.tsx:789-808 | Success replaces the items wholesale and clears the error. Failure sets the error to the load's message and leaves the items unchanged. In every case loading is false afterwards and the other cells are untouched. |
| `MenuView.DenChaiMenu.SectionMounted` | DenChaiMenu_Modular.tsx:814-815 | The section element exists exactly when the menu is shown, the id is a table category, and some item matches it. |
| `MenuView.DenChaiMenu.ScrollToSection` | DenChaiMenu_Modular.tsx:812-822 | The clicked id becomes active even when no section exists. A scroll happens exactly when that section is on the page, to element top + page offset - 100 - 20. |
| `MenuView.DenChaiMenu.HandleSectionInView` | DenChaiMenu_Modular.tsx:824-826 | The reported id becomes the active section. |
| `MenuView.DenChaiMenu.SectionVisibilityChanged` | DenChaiMenu_Modular.tsx:512-516 | A section coming into view makes its id active, except on the canvas. Otherwise the active section is unchanged. |
| `MenuView.DenChaiMenu.ClickItem` | DenChaiMenu_Modular.tsx:627 | Clicking an item selects it, except on the canvas, where the selection is unchanged. |
| `MenuView.DenChaiMenu.CloseModal` | DenChaiMenu_Modular.tsx:944 | Closing the overlay clears the selection. |
| `MenuView.DenChaiMenu.Render` | DenChaiMenu_Modular.tsx:841-950 | The spinner shows exactly while loading. Otherwise the error panel shows the message exactly when it is non-empty. Otherwise the menu shows the active section, the rendered sections of the current items, and the overlay exactly when an item is selected off the canvas. The overlay then shows the selected item. |
| `MenuView.PreviewSession` | DenChaiMenu_Modular.tsx:783-787 | On the canvas, after mounting and any item click, the menu shows every category's section, "appetizers" active, and no overlay. |
| `MenuView.ServerErrorSession` | DenChaiMenu_Modular.tsx:790-806 | A 500 response leaves the view showing the error panel "HTTP 500", with no menu items. |
| `MenuView.RepeatedSelection` | DenChaiMenu_Modular.tsx:812-826 | After interleaved clicks and in-view reports, the last id written is active, on the canvas or off it. Selecting the same category twice leaves it active. |

## Left out

- The HTTP request, `response.json()` and the `RenderTarget` check are I/O and host calls. The first two are the `FetchOutcome` input, and the canvas is the `isCanvas` constant.
- `useInView` and its geometry (amount 0.3, margin -100px) come from a library. The model takes its result as the `isInView` argument of `SectionVisibilityChanged`.
- `getBoundingClientRect().top` and `window.pageYOffset` are DOM reads, passed in as integers. Fractional pixels are not modelled, and `window.scrollTo` is the returned scroll target.
- `document.getElementById` could in principle find an element of the same id elsewhere on the page. The model looks only at the sections this view renders (`SectionMounted`).
- Lower: `toLowerCase` is modelled for ASCII letters only; full Unicode case mapping is not modelled. `trim` uses the full ECMAScript white-space list.
- Matches: a truthy category that is not a string (a number from the sheet, say) makes `toLowerCase` throw while rendering. The model counts such an item as matching no category.
- Render: an item field holding a JSON object (say `{"Title": {"a": 1}}`) makes React throw "Objects are not valid as a React child" when its section (DenChaiMenu_Modular.tsx:635-652) or the overlay (DenChaiMenu_Modular.tsx:719-738) renders. The model still shows the menu. Numbers, strings and booleans render without error.
- JSON numbers are integers in the model. JSON cannot encode NaN, so a number is falsy exactly when it is zero, fractions included.
- The TypeError messages (`NullRead`, `ItemsNotAnArray`) use one engine's wording. Only the fact that a message is set matters to the view.
- `FetchMenu` runs the whole async function as one step. The spinner shown between `setLoading(true)` and the response is the view's initial state.
- React's render scheduling, state batching, `React.memo` and effect re-runs are not modelled. The source has no guard for a fetch that finishes after unmount, and none is modelled.
- `HeroSection`, `HamburgerMenu`, the navigation bar's styling, animations, property controls and `GitHubSyncTest.tsx` are presentation only. The hamburger drawer's open/closed toggle is UI state outside this core.
- The stray `</>` and the undeclared `navFontSize`/`navPadding` props are JSX defects. The model follows the evident intent: the navigation bar, sections and overlay render as written.
