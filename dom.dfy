/** Values shared by both revisions of the page script: attribute and geometry
    types, the fixed strings the script writes into the page, the element
    inventory a page may or may not provide, and the names of the event
    handlers the script registers. */
module Dom {

  /** The conventional Some/None datatype, standing in for a value or null. */
  datatype Option<+T> = None | Some(value: T)

  /** The value of a `data-category` attribute: `None` when the element has
      no such attribute (`getAttribute` returns null). */
  type Category = Option<string>

  /** The vertical extent of an element's bounding box, in whole pixels. */
  datatype Rect = Rect(top: int, bottom: int)

  const ALL_CATEGORY: string := "all"
  const SCROLL_THRESHOLD: int := 100
  const SCROLLED_BACKGROUND: string := "rgba(26, 26, 26, 0.98)"
  const TOP_BACKGROUND: string := "rgba(26, 26, 26, 0.95)"
  const SEARCH_PAGE: string := "collections.html?search="
  const ENTER_KEY: string := "Enter"
  /** The hamburger glyph the toggle shows while the menu is closed. */
  const MENU_GLYPH: string := "\U{2630}"
  /** The cross glyph the toggle shows while the menu is open. */
  const CLOSE_GLYPH: string := "\U{2715}"

  /** Which of the elements the script looks up at load time the page has:
      the sizes of the node lists and whether each single element exists. */
  datatype Elements = Elements(
    buttons: nat,          // `.category-btn`
    items: nat,            // `.collection-item`
    hasHeader: bool,       // `.header`
    hasSearchInput: bool,  // `#searchInput`
    hasSearchButton: bool, // `#searchBtn`
    hasToggle: bool,       // `#mobileNavToggle`
    hasMenu: bool,         // `#navMenu`
    links: nat)            // `.nav-link`

  /** An event listener the script registers, named by what it handles. */
  datatype Handler =
    | FilterClick(button: nat)  // click on the category button with this index
    | HeaderScroll              // window scroll, header background
    | AnimateScroll             // window scroll, scroll animation pass
    | AnimateLoad               // window load, scroll animation pass
    | SearchClick               // click on the search button
    | SearchKeypress            // key press in the search input
    | ToggleClick               // click on the mobile-nav toggle
    | LinkClick(link: nat)      // click on the nav link with this index
    | OutsideClick              // any click on the document

  /** One click listener per category button. */
  function FilterHandlers(buttons: nat): set<Handler>
  {
    set i | 0 <= i < buttons :: FilterClick(i)
  }

  /** The three kinds of listener of the mobile navigation. */
  function NavHandlers(links: nat): set<Handler>
  {
    {ToggleClick, OutsideClick} + set k | 0 <= k < links :: LinkClick(k)
  }
}
