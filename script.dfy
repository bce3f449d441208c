/** The original page script. Its event handlers become the methods of a
    page-state object whose fields are the DOM markers the handlers write:
    the `active` class of each category button, the `hidden` class and the
    animation play state of each collection item, the header's inline
    background, the window location, the `mobile-active` class of the nav
    menu and the toggle's inner HTML. The listener registration at load time
    is the function `Wiring`. */
module Script {
  import opened Dom
  import opened Filter
  import opened Animation
  import opened Header
  import opened Search
  import Nav

  /** What setting up the listeners leaves behind: the listeners registered
      and whether setup stopped on a null element. */
  datatype Wired = Wired(handlers: set<Handler>, failed: bool)

  /** The listeners registered once the page has loaded. Every category
      button gets a click listener, the header and animation listeners are
      always added, the search listeners are added without a null check (a
      missing button or input throws and ends the setup there) and the mobile
      navigation is wired only when both its toggle and its menu exist. */
  function Wiring(e: Elements): (w: Wired)
    ensures w.failed <==> !(e.hasSearchButton && e.hasSearchInput)
    ensures forall i: nat :: FilterClick(i) in w.handlers <==> i < e.buttons
    ensures HeaderScroll in w.handlers && AnimateScroll in w.handlers && AnimateLoad in w.handlers
    ensures SearchClick in w.handlers <==> e.hasSearchButton
    ensures SearchKeypress in w.handlers <==> e.hasSearchButton && e.hasSearchInput
    ensures ToggleClick in w.handlers <==> e.hasToggle && e.hasMenu
    ensures OutsideClick in w.handlers <==> e.hasToggle && e.hasMenu
    ensures forall k: nat :: LinkClick(k) in w.handlers <==> e.hasToggle && e.hasMenu && k < e.links
  {
    var nav := if e.hasToggle && e.hasMenu then NavHandlers(e.links) else {};
    var loaded := FilterHandlers(e.buttons) + {HeaderScroll} + {AnimateScroll, AnimateLoad};
    if !e.hasSearchButton then Wired(nav + loaded, true)
    else if !e.hasSearchInput then Wired(nav + loaded + {SearchClick}, true)
    else Wired(nav + loaded + {SearchClick, SearchKeypress}, false)
  }

  class Page {
    const buttonCats: array<Category>   // `data-category` of each `.category-btn`
    const active: array<bool>           // `active` class of each button
    const itemCats: array<Category>     // `data-category` of each `.collection-item`
    const hidden: array<bool>           // `hidden` class of each item
    const running: array<bool>          // animation play state of each item is `running`
    var background: string              // the header's inline background
    var location: Option<string>        // where the window was sent, if anywhere
    var menu: Nav.MenuState             // `mobile-active` class of the nav menu
    var toggleHtml: string              // the toggle's inner HTML
    const hasHeader: bool               // the page has a `.header`
    const hasSearchInput: bool          // the page has a `#searchInput`
    const whitespace: set<char>         // what `trim` strips
    const encode: string -> string      // `encodeURIComponent`

    ghost predicate Valid()
      reads this
    {
      && active.Length == buttonCats.Length
      && hidden.Length == itemCats.Length
      && running.Length == itemCats.Length
      && active != hidden && active != running && hidden != running
      && toggleHtml == Nav.Glyph(menu)
    }

    /** The page as loaded: the category attributes and the initial markers
        come from its HTML, no navigation has happened yet. */
    constructor (buttons: seq<Category>, items: seq<Category>,
                 initialActive: seq<bool>, initialHidden: seq<bool>, initialRunning: seq<bool>,
                 initialBackground: string, initialMenu: Nav.MenuState,
                 hasHeader: bool, hasSearchInput: bool,
                 whitespace: set<char>, encode: string -> string)
      requires |initialActive| == |buttons|
      requires |initialHidden| == |items| && |initialRunning| == |items|
      ensures Valid()
      ensures buttonCats[..] == buttons && itemCats[..] == items
      ensures active[..] == initialActive && hidden[..] == initialHidden && running[..] == initialRunning
      ensures background == initialBackground && location == None && menu == initialMenu
      ensures this.hasHeader == hasHeader && this.hasSearchInput == hasSearchInput
      ensures this.whitespace == whitespace && this.encode == encode
      ensures fresh(active) && fresh(hidden) && fresh(running)
    {
      buttonCats := new Category[|buttons|](k requires 0 <= k < |buttons| => buttons[k]);
      active := new bool[|buttons|](k requires 0 <= k < |buttons| => initialActive[k]);
      itemCats := new Category[|items|](j requires 0 <= j < |items| => items[j]);
      hidden := new bool[|items|](j requires 0 <= j < |items| => initialHidden[j]);
      running := new bool[|items|](j requires 0 <= j < |items| => initialRunning[j]);
      background := initialBackground;
      location := None;
      menu := initialMenu;
      toggleHtml := Nav.Glyph(initialMenu);
      this.hasHeader := hasHeader;
      this.hasSearchInput := hasSearchInput;
      this.whitespace := whitespace;
      this.encode := encode;
    }

    /** The click handler of category button `i`: it alone becomes active,
        the items are filtered by its category and the animation pass runs
        over the layout `rects` in a viewport `viewportHeight` high. */
    method ClickCategory(i: nat, rects: seq<Rect>, viewportHeight: int)
      requires Valid() && i < buttonCats.Length && |rects| == itemCats.Length
      modifies active, hidden, running
      ensures Valid()
      ensures active[..] == ActiveAfterClick(active.Length, i)
      ensures hidden[..] == HiddenAfterFilter(buttonCats[i], itemCats[..])
      ensures running[..] == RunningAfterScan(old(running[..]), hidden[..], rects, viewportHeight)
      ensures buttonCats[..] == old(buttonCats[..]) && itemCats[..] == old(itemCats[..])
    {
      var k := 0;
      while k < active.Length
        modifies active
        invariant 0 <= k <= active.Length
        invariant forall m :: 0 <= m < k ==> !active[m]
      {
        active[k] := false;
        k := k + 1;
      }
      active[i] := true;
      var selected := buttonCats[i];
      var j := 0;
      while j < hidden.Length
        modifies hidden
        invariant 0 <= j <= hidden.Length
        invariant forall m :: 0 <= m < j ==> hidden[m] == !Shown(selected, itemCats[m])
      {
        var itemCategory := itemCats[j];
        if selected == Some(ALL_CATEGORY) || itemCategory == selected {
          hidden[j] := false;
        } else {
          hidden[j] := true;
        }
        j := j + 1;
      }
      AnimateOnScroll(rects, viewportHeight);
    }

    /** The animation pass: every item that is not hidden and whose box
        `rects[j]` meets the viewport has its animation set running. */
    method AnimateOnScroll(rects: seq<Rect>, viewportHeight: int)
      requires Valid() && |rects| == itemCats.Length
      modifies running
      ensures Valid()
      ensures running[..] == RunningAfterScan(old(running[..]), hidden[..], rects, viewportHeight)
    {
      var j := 0;
      while j < running.Length
        invariant 0 <= j <= running.Length
        invariant forall m :: 0 <= m < j ==> running[m] == (old(running[m]) || (!hidden[m] && IsVisible(rects[m], viewportHeight)))
        invariant forall m :: j <= m < running.Length ==> running[m] == old(running[m])
      {
        if IsVisible(rects[j], viewportHeight) && !hidden[j] {
          running[j] := true;
        }
        j := j + 1;
      }
    }

    /** The header's scroll handler. Without a header it throws a
        TypeError on `header.style` and changes nothing. */
    method HeaderScroll(scrollY: int) returns (threw: bool)
      requires Valid()
      modifies this`background
      ensures Valid()
      ensures threw <==> !hasHeader
      ensures background == if hasHeader then HeaderBackground(scrollY) else old(background)
    {
      if !hasHeader {
        return true;
      }
      if scrollY > SCROLL_THRESHOLD {
        background := SCROLLED_BACKGROUND;
      } else {
        background := TOP_BACKGROUND;
      }
      return false;
    }

    /** The search: a query that is not blank after trimming sends the window
        to the results page; a blank one leaves the location alone. Without
        a search input it throws a TypeError on `searchInput.value` and
        changes nothing. */
    method PerformSearch(text: string) returns (threw: bool)
      requires Valid()
      modifies this`location
      ensures Valid()
      ensures threw <==> !hasSearchInput
      ensures var target := SearchTarget(text, whitespace, encode);
              location == if hasSearchInput && target.Some? then target else old(location)
    {
      if !hasSearchInput {
        return true;
      }
      var query := Trim(text, whitespace);
      if query != [] {
        location := Some(SEARCH_PAGE + encode(query));
      }
      return false;
    }

    /** The search input's key handler: only Enter searches. The listener
        sits on the input itself, so the `threw` case (Enter without an
        input) cannot happen in the page; it is kept for completeness. */
    method SearchKeypress(key: string, text: string) returns (threw: bool)
      requires Valid()
      modifies this`location
      ensures Valid()
      ensures threw <==> key == ENTER_KEY && !hasSearchInput
      ensures var target := SearchTarget(text, whitespace, encode);
              location == if key == ENTER_KEY && hasSearchInput && target.Some? then target else old(location)
    {
      threw := false;
      if key == ENTER_KEY {
        threw := PerformSearch(text);
      }
    }

    /** The toggle's click handler: the menu flips and the glyph follows. */
    method ToggleClick()
      requires Valid()
      modifies this`menu, this`toggleHtml
      ensures Valid()
      ensures menu == Nav.Step(old(menu), Nav.Toggle)
      ensures toggleHtml == (if menu == Nav.Open then CLOSE_GLYPH else MENU_GLYPH)
    {
      menu := if menu == Nav.Open then Nav.Closed else Nav.Open;
      if menu == Nav.Open {
        toggleHtml := CLOSE_GLYPH;
      } else {
        toggleHtml := MENU_GLYPH;
      }
    }

    /** A nav link's click handler: the menu closes. */
    method LinkClick()
      requires Valid()
      modifies this`menu, this`toggleHtml
      ensures Valid()
      ensures menu == Nav.Step(old(menu), Nav.Link) && toggleHtml == MENU_GLYPH
    {
      menu := Nav.Closed;
      toggleHtml := MENU_GLYPH;
    }

    /** The document's click handler: a click outside both the menu and the
        toggle closes the menu, any other click changes nothing. */
    method DocumentClick(insideMenu: bool, insideToggle: bool)
      requires Valid()
      modifies this`menu, this`toggleHtml
      ensures Valid()
      ensures menu == Nav.Step(old(menu), Nav.Document(insideMenu, insideToggle))
      ensures insideMenu || insideToggle ==> menu == old(menu) && toggleHtml == old(toggleHtml)
    {
      if !insideMenu && !insideToggle {
        menu := Nav.Closed;
        toggleHtml := MENU_GLYPH;
      }
    }
  }

  /** Clicking the same category button twice over an unchanged layout leaves
      the page as one click does. */
  method ClickTwice(p: Page, i: nat, rects: seq<Rect>, viewportHeight: int)
    requires p.Valid() && i < p.buttonCats.Length && |rects| == p.itemCats.Length
    modifies p.active, p.hidden, p.running
    ensures p.Valid()
    ensures p.active[..] == ActiveAfterClick(p.active.Length, i)
    ensures p.hidden[..] == HiddenAfterFilter(p.buttonCats[i], p.itemCats[..])
    ensures p.running[..] == RunningAfterScan(old(p.running[..]), p.hidden[..], rects, viewportHeight)
  {
    p.ClickCategory(i, rects, viewportHeight);
    p.ClickCategory(i, rects, viewportHeight);
    ScanIdempotent(old(p.running[..]), p.hidden[..], rects, viewportHeight);
  }
}
