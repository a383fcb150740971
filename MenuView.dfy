/** The `DenChaiMenu` view: its five state cells, the transitions that write them
    (the fetch effect, navigation clicks, sections reporting that they are in view,
    item clicks and closing the detail overlay) and what it renders from them. */
module MenuView {
  import opened JsValues
  import opened MenuData
  import opened CategoryRegistry

  /** The section highlighted before any click or scroll. */
  const InitialSection := "appetizers"

  /** Height of the sticky navigation bar, and the margin left above a section
      scrolled to. */
  const NavHeight := 100
  const ScrollMargin := 20

  /** What the view shows: the loading spinner, the error panel, or the menu with
      the highlighted category, the rendered sections and the open item, if any. */
  datatype Screen =
    | Spinner
    | ErrorPanel(message: string)
    | Menu(active: string, sections: seq<Section>, modal: Option<MenuItem>)

  /** `if (error)`: the error panel needs a message that is a non-empty string. */
  predicate ErrorShown(error: Option<string>) {
    error.Some? && error.value != []
  }

  /** `ItemModal`: nothing is shown for a null item or on the design canvas. */
  function ModalItem(item: Option<MenuItem>, isCanvas: bool): (r: Option<MenuItem>)
    ensures r.Some? <==> item.Some? && !isCanvas
    ensures r.Some? ==> r == item
  {
    if item.None? || isCanvas then None else item
  }

  /** The navigation buttons, in table order: `true` for the highlighted one. */
  function NavHighlights(active: string): (r: seq<bool>)
    ensures |r| == |Categories|
  {
    seq(|Categories|, i requires 0 <= i < |Categories| => Categories[i].id == active)
  }

  /** At most one button is highlighted, and one is exactly when the active
      section is the id of a category of the table. */
  lemma HighlightIsUnique(active: string)
    ensures forall i, j :: 0 <= i < j < |Categories| ==> !(NavHighlights(active)[i] && NavHighlights(active)[j])
    ensures (exists i :: 0 <= i < |Categories| && NavHighlights(active)[i])
            <==> exists c :: c in Categories && c.id == active
  {
    CategoryIdsDistinct();
    var h := NavHighlights(active);
    if exists c :: c in Categories && c.id == active {
      var c :| c in Categories && c.id == active;
      var i :| 0 <= i < |Categories| && Categories[i] == c;
      assert h[i];
    }
    if exists i :: 0 <= i < |Categories| && h[i] {
      var i :| 0 <= i < |Categories| && h[i];
      assert Categories[i] in Categories;
    }
  }

  class DenChaiMenu {
    /** Whether the view runs on the design tool's static canvas. */
    const isCanvas: bool
    var menuItems: seq<MenuItem>
    var loading: bool
    var error: Option<string>
    var selectedItem: Option<MenuItem>
    var activeSection: string

    /** On the canvas nothing is ever fetched and items are inert: there is no
        error and no selected item. */
    ghost predicate Valid()
      reads this
    {
      isCanvas ==> error.None? && selectedItem.None?
    }

    /** The initial state of the cells, before the mount effect runs. */
    constructor (isCanvas: bool)
      ensures Valid() && this.isCanvas == isCanvas
      ensures menuItems == [] && loading && error.None? && selectedItem.None?
      ensures activeSection == InitialSection
    {
      this.isCanvas := isCanvas;
      menuItems := [];
      loading := true;
      error := None;
      selectedItem := None;
      activeSection := InitialSection;
    }

    /** The mount effect: on the canvas the preview items replace the fetch;
        otherwise `fetchMenu` runs and `outcome` is what the network delivers. */
    method MountEffect(outcome: FetchOutcome)
      requires Valid()
      modifies this
      ensures Valid() && !loading
      ensures isCanvas ==> menuItems == MockItems && error == old(error)
      ensures !isCanvas ==> match LoadMenu(outcome)
                            case Ok(items) => menuItems == items && error.None?
                            case Err(m) => menuItems == old(menuItems) && error == Some(m)
      ensures selectedItem == old(selectedItem) && activeSection == old(activeSection)
    {
      if isCanvas {
        menuItems := MockItems;
        loading := false;
        return;
      }
      FetchMenu(outcome);
    }

    /** `fetchMenu`: loading is raised while the request is out; a successful load
        replaces the items wholesale and clears the error, a failure records its
        message and keeps the items; loading is lowered in every case. */
    method FetchMenu(outcome: FetchOutcome)
      requires Valid() && !isCanvas
      modifies this
      ensures Valid() && !loading
      ensures match LoadMenu(outcome)
              case Ok(items) => menuItems == items && error.None?
              case Err(m) => menuItems == old(menuItems) && error == Some(m)
      ensures selectedItem == old(selectedItem) && activeSection == old(activeSection)
    {
      loading := true;
      var result := LoadMenu(outcome);
      match result {
        case Ok(items) =>
          menuItems := items;
          error := None;
        case Err(m) =>
          error := Some(m);
      }
      loading := false;
    }

    /** The section named `id` is on the page: the menu is shown and that
        category renders a section (`document.getElementById` finds it). That is
        so exactly when `id` is a category of the table that some item matches. */
    function SectionMounted(id: string): (b: bool)
      reads this
      ensures b <==> && !loading && !ErrorShown(error)
                     && (exists c :: c in Categories && c.id == id)
                     && exists x :: x in menuItems && Matches(x, id)
    {
      RenderedIdIff(Categories, menuItems, id);
      && !loading && !ErrorShown(error)
      && exists s :: s in RenderSections(Categories, menuItems) && s.category.id == id
    }

    /** `scrollToSection`: the clicked category becomes active at once; when its
        section is on the page, the page scrolls so that the section's top sits
        the navigation bar's height plus a margin below the viewport's top.
        `elementTop` and `pageOffset` are what the DOM reports. */
    method ScrollToSection(categoryId: string, elementTop: int, pageOffset: int) returns (scrollTo: Option<int>)
      requires Valid()
      modifies this`activeSection
      ensures Valid() && activeSection == categoryId
      ensures scrollTo.Some? <==> SectionMounted(categoryId)
      ensures scrollTo.Some? ==> scrollTo.value + NavHeight + ScrollMargin == elementTop + pageOffset
    {
      activeSection := categoryId;
      if SectionMounted(categoryId) {
        var elementPosition := elementTop + pageOffset;
        scrollTo := Some(elementPosition - NavHeight - ScrollMargin);
      } else {
        scrollTo := None;
      }
    }

    /** `handleSectionInView`: the reported section becomes active. */
    method HandleSectionInView(categoryId: string)
      requires Valid()
      modifies this`activeSection
      ensures Valid() && activeSection == categoryId
    {
      activeSection := categoryId;
    }

    /** The effect in `MenuSection`: a section that comes into view reports its
        category, except on the canvas, where nothing is observed. */
    method SectionVisibilityChanged(category: Category, isInView: bool)
      requires Valid()
      modifies this`activeSection
      ensures Valid()
      ensures activeSection == if isInView && !isCanvas then category.id else old(activeSection)
    {
      if isInView && !isCanvas {
        HandleSectionInView(category.id);
      }
    }

    /** A click on an item row opens it, except on the canvas, where items are inert. */
    method ClickItem(item: MenuItem)
      requires Valid()
      modifies this`selectedItem
      ensures Valid()
      ensures selectedItem == if isCanvas then old(selectedItem) else Some(item)
    {
      if !isCanvas {
        selectedItem := Some(item);
      }
    }

    /** The close button or a click outside the overlay closes it. */
    method CloseModal()
      requires Valid()
      modifies this`selectedItem
      ensures Valid() && selectedItem.None?
    {
      selectedItem := None;
    }

    /** What the view shows: the spinner while loading, otherwise the error panel
        while there is an error message, otherwise the menu, its sections and the
        overlay for the selected item. */
    function Render(): (s: Screen)
      reads this
      ensures loading <==> s.Spinner?
      ensures s.ErrorPanel? <==> !loading && ErrorShown(error)
      ensures s.ErrorPanel? ==> s.message == error.value
      ensures s.Menu? ==> s.active == activeSection && s.sections == RenderSections(Categories, menuItems)
      ensures s.Menu? ==> (s.modal.Some? <==> selectedItem.Some? && !isCanvas)
      ensures s.Menu? ==> s.modal == ModalItem(selectedItem, isCanvas)
      ensures s.Menu? && s.modal.Some? ==> s.modal == selectedItem
    {
      if loading then Spinner
      else if ErrorShown(error) then ErrorPanel(error.value)
      else Menu(activeSection, RenderSections(Categories, menuItems), ModalItem(selectedItem, isCanvas))
    }
  }

  /** On the canvas, after mounting, whatever is clicked or closed, the menu shows
      every category with its preview items and never an overlay. */
  method PreviewSession(outcome: FetchOutcome, clicked: MenuItem) returns (screen: Screen)
    ensures screen.Menu? && screen.active == InitialSection && screen.modal.None?
    ensures RendersEveryCategory(Categories, MockItems) && screen.sections == RenderSections(Categories, MockItems)
  {
    var view := new DenChaiMenu(true);
    view.MountEffect(outcome);
    view.ClickItem(clicked);
    screen := view.Render();
    PreviewRendersEveryCategory();
  }

  /** A server error leaves the view with the message "HTTP 500" and no items. */
  method ServerErrorSession(body: Body) returns (screen: Screen, items: seq<MenuItem>)
    ensures screen == ErrorPanel("HTTP 500") && items == []
  {
    var view := new DenChaiMenu(false);
    view.MountEffect(Response(500, body));
    ServerErrorMessage(body);
    screen := view.Render();
    items := view.menuItems;
  }

  /** Clicking a category or having its section report itself in view leaves the
      same active section however often it is repeated: the last write wins. */
  method RepeatedSelection(view: DenChaiMenu, categoryId: string, other: string) returns (active: string)
    requires view.Valid()
    modifies view
    ensures active == categoryId
  {
    var _ := view.ScrollToSection(other, 0, 0);
    view.HandleSectionInView(other);
    var _ := view.ScrollToSection(categoryId, 0, 0);
    var _ := view.ScrollToSection(categoryId, 0, 0);
    active := view.activeSection;
  }
}
