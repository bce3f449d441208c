/** The null-safe revision of the page script. Listeners go through `On`,
    which skips a null element, and every setup step returns early when the
    elements it needs are missing. The handler bodies themselves are those of
    the original script, apart from the early returns at statics/js.js:62 and
    :79, which this module's `AnimateOnScroll` and `PerformSearch` add; so the
    page here wraps a `Script.Page` and runs its handlers only where a
    listener was registered, and none of them throws. */
module HardenedScript {
  import opened Dom
  import opened Filter
  import opened Animation
  import opened Header
  import opened Search
  import Nav
  import Script

  /** `on(el, evt, handler)`: registers the handler when the element exists
      and does nothing for a null element. */
  function On(registered: set<Handler>, present: bool, h: Handler): (r: set<Handler>)
    ensures registered <= r && r - registered <= {h}
    ensures h in r <==> present || h in registered
  {
    if present then registered + {h} else registered
  }

  /** The `forEach` over the category buttons, one `On` per button. */
  function RegisterButtons(registered: set<Handler>, n: nat): (r: set<Handler>)
    ensures r == registered + FilterHandlers(n)
  {
    if n == 0 then registered else On(RegisterButtons(registered, n - 1), true, FilterClick(n - 1))
  }

  /** The `forEach` over the nav links, one `On` per link. */
  function RegisterLinks(registered: set<Handler>, n: nat): (r: set<Handler>)
    ensures r == registered + set k | 0 <= k < n :: LinkClick(k)
  {
    if n == 0 then registered else On(RegisterLinks(registered, n - 1), true, LinkClick(n - 1))
  }

  /** No filter listener at all unless both node lists are non-empty. */
  function SetupCategoryFiltering(registered: set<Handler>, e: Elements): (r: set<Handler>)
    ensures e.buttons == 0 || e.items == 0 ==> r == registered
    ensures e.buttons > 0 && e.items > 0 ==> r == registered + FilterHandlers(e.buttons)
  {
    if e.buttons == 0 || e.items == 0 then registered else RegisterButtons(registered, e.buttons)
  }

  /** No scroll listener for the header when there is no header. */
  function SetupHeaderScrollEffect(registered: set<Handler>, e: Elements): (r: set<Handler>)
    ensures r == if e.hasHeader then registered + {HeaderScroll} else registered
  {
    if !e.hasHeader then registered else On(registered, true, HeaderScroll)
  }

  /** The animation pass listens on the window, which always exists. */
  function SetupScrollAnimations(registered: set<Handler>): (r: set<Handler>)
    ensures r == registered + {AnimateScroll, AnimateLoad}
  {
    On(On(registered, true, AnimateScroll), true, AnimateLoad)
  }

  /** No search listener unless both the button and the input exist. */
  function SetupSearch(registered: set<Handler>, e: Elements): (r: set<Handler>)
    ensures r == if e.hasSearchButton && e.hasSearchInput then registered + {SearchClick, SearchKeypress} else registered
  {
    if !e.hasSearchButton || !e.hasSearchInput then registered
    else On(On(registered, e.hasSearchButton, SearchClick), e.hasSearchInput, SearchKeypress)
  }

  /** No nav listener unless both the toggle and the menu exist. */
  function SetupMobileNav(registered: set<Handler>, e: Elements): (r: set<Handler>)
    ensures r == if e.hasToggle && e.hasMenu then registered + NavHandlers(e.links) else registered
  {
    if !(e.hasToggle && e.hasMenu) then registered
    else On(RegisterLinks(On(registered, true, ToggleClick), e.links), true, OutsideClick)
  }

  /** The listeners registered once the page has loaded: the nav block runs
      when the script is read, the rest on `DOMContentLoaded`. */
  function Wiring(e: Elements): (r: set<Handler>)
    ensures r ==
      (if e.hasToggle && e.hasMenu then NavHandlers(e.links) else {})
      + (if e.buttons > 0 && e.items > 0 then FilterHandlers(e.buttons) else {})
      + (if e.hasHeader then {HeaderScroll} else {})
      + {AnimateScroll, AnimateLoad}
      + (if e.hasSearchButton && e.hasSearchInput then {SearchClick, SearchKeypress} else {})
  {
    var atLoad := SetupMobileNav({}, e);
    SetupSearch(SetupScrollAnimations(SetupHeaderScrollEffect(SetupCategoryFiltering(atLoad, e), e)), e)
  }

  /** A category button has a click listener exactly when it exists and
      there are items to filter. */
  lemma FilterWired(e: Elements, i: nat)
    ensures FilterClick(i) in Wiring(e) <==> i < e.buttons && e.items > 0
  {
  }

  /** The header listener exists exactly when the header does; the animation
      pass is always wired. */
  lemma HeaderWired(e: Elements)
    ensures HeaderScroll in Wiring(e) <==> e.hasHeader
    ensures AnimateScroll in Wiring(e) && AnimateLoad in Wiring(e)
  {
  }

  /** The search listeners exist exactly when both the button and the input do. */
  lemma SearchWired(e: Elements)
    ensures SearchClick in Wiring(e) <==> e.hasSearchButton && e.hasSearchInput
    ensures SearchKeypress in Wiring(e) <==> e.hasSearchButton && e.hasSearchInput
  {
  }

  /** The nav listeners exist exactly when both the toggle and the menu do. */
  lemma NavWired(e: Elements, k: nat)
    ensures ToggleClick in Wiring(e) <==> e.hasToggle && e.hasMenu
    ensures OutsideClick in Wiring(e) <==> e.hasToggle && e.hasMenu
    ensures LinkClick(k) in Wiring(e) <==> e.hasToggle && e.hasMenu && k < e.links
  {
  }

  /** The revision never registers a listener the original does not. */
  lemma WiringWithinOriginal(e: Elements)
    ensures Wiring(e) <= Script.Wiring(e).handlers
  {
  }

  /** On a page with every element and at least one item, the two revisions
      register the same listeners and the original does not fail. */
  lemma WiringAgreesOnFullPage(e: Elements)
    requires e.hasHeader && e.hasSearchButton && e.hasSearchInput && e.items > 0
    ensures Wiring(e) == Script.Wiring(e).handlers && !Script.Wiring(e).failed
  {
  }

  class Page {
    const elements: Elements
    const handlers: set<Handler>   // the listeners registered at load time
    const core: Script.Page        // the page state the handlers write

    ghost predicate Valid()
      reads this, core
    {
      && core.Valid()
      && handlers == Wiring(elements)
      && elements.buttons == core.buttonCats.Length
      && elements.items == core.itemCats.Length
      && elements.hasHeader == core.hasHeader
      && elements.hasSearchInput == core.hasSearchInput
    }

    /** The page as loaded, with its listeners registered. The category
        attributes and initial markers come from its HTML. */
    constructor (buttons: seq<Category>, items: seq<Category>,
                 initialActive: seq<bool>, initialHidden: seq<bool>, initialRunning: seq<bool>,
                 initialBackground: string, initialMenu: Nav.MenuState,
                 hasHeader: bool, hasSearchInput: bool, hasSearchButton: bool,
                 hasToggle: bool, hasMenu: bool, links: nat,
                 whitespace: set<char>, encode: string -> string)
      requires |initialActive| == |buttons|
      requires |initialHidden| == |items| && |initialRunning| == |items|
      ensures Valid() && fresh(core) && fresh(core.active) && fresh(core.hidden) && fresh(core.running)
      ensures elements == Elements(|buttons|, |items|, hasHeader, hasSearchInput, hasSearchButton, hasToggle, hasMenu, links)
      ensures core.buttonCats[..] == buttons && core.itemCats[..] == items
      ensures core.active[..] == initialActive && core.hidden[..] == initialHidden && core.running[..] == initialRunning
      ensures core.background == initialBackground && core.location == None && core.menu == initialMenu
      ensures core.whitespace == whitespace && core.encode == encode
    {
      elements := Elements(|buttons|, |items|, hasHeader, hasSearchInput, hasSearchButton, hasToggle, hasMenu, links);
      handlers := Wiring(Elements(|buttons|, |items|, hasHeader, hasSearchInput, hasSearchButton, hasToggle, hasMenu, links));
      core := new Script.Page(buttons, items, initialActive, initialHidden, initialRunning,
                              initialBackground, initialMenu, hasHeader, hasSearchInput, whitespace, encode);
    }

    /** A click on category button `i`: the original handler when there are
        items to filter, nothing otherwise. */
    method ClickCategory(i: nat, rects: seq<Rect>, viewportHeight: int)
      requires Valid() && i < elements.buttons && |rects| == elements.items
      modifies core.active, core.hidden, core.running
      ensures Valid()
      ensures elements.items > 0 ==>
        && core.active[..] == ActiveAfterClick(elements.buttons, i)
        && core.hidden[..] == HiddenAfterFilter(core.buttonCats[i], core.itemCats[..])
        && core.running[..] == RunningAfterScan(old(core.running[..]), core.hidden[..], rects, viewportHeight)
      ensures elements.items == 0 ==> core.active[..] == old(core.active[..])
    {
      FilterWired(elements, i);
      if FilterClick(i) in handlers {
        core.ClickCategory(i, rects, viewportHeight);
      }
    }

    /** The animation pass, which returns at once when there are no items. */
    method AnimateOnScroll(rects: seq<Rect>, viewportHeight: int)
      requires Valid() && |rects| == elements.items
      modifies core.running
      ensures Valid()
      ensures core.running[..] == RunningAfterScan(old(core.running[..]), core.hidden[..], rects, viewportHeight)
    {
      if core.itemCats.Length == 0 {
        return;
      }
      core.AnimateOnScroll(rects, viewportHeight);
    }

    /** A window scroll as seen by the header: restyled when it exists, and
        never a TypeError, since the listener is only there with the header. */
    method HeaderScroll(scrollY: int) returns (threw: bool)
      requires Valid()
      modifies core`background
      ensures Valid()
      ensures !threw
      ensures core.background == if elements.hasHeader then HeaderBackground(scrollY) else old(core.background)
    {
      HeaderWired(elements);
      threw := false;
      if Handler.HeaderScroll in handlers {
        threw := core.HeaderScroll(scrollY);
      }
    }

    /** The search, which does nothing, and so never throws, when there is
        no input. */
    method PerformSearch(text: string) returns (threw: bool)
      requires Valid()
      modifies core`location
      ensures Valid()
      ensures !threw
      ensures var target := SearchTarget(text, core.whitespace, core.encode);
              core.location == if elements.hasSearchInput && target.Some? then target else old(core.location)
    {
      if !elements.hasSearchInput {
        return false;
      }
      threw := core.PerformSearch(text);
    }

    /** A click on the search button, with `text` in the input. */
    method SearchClick(text: string) returns (threw: bool)
      requires Valid()
      modifies core`location
      ensures Valid()
      ensures !threw
      ensures var target := SearchTarget(text, core.whitespace, core.encode);
              core.location == if elements.hasSearchButton && elements.hasSearchInput && target.Some? then target else old(core.location)
    {
      SearchWired(elements);
      threw := false;
      if Handler.SearchClick in handlers {
        threw := PerformSearch(text);
      }
    }

    /** A key press in the search input, with `text` in the input. */
    method SearchKeypress(key: string, text: string) returns (threw: bool)
      requires Valid()
      modifies core`location
      ensures Valid()
      ensures !threw
      ensures var target := SearchTarget(text, core.whitespace, core.encode);
              core.location == if elements.hasSearchButton && elements.hasSearchInput && key == ENTER_KEY && target.Some?
                               then target else old(core.location)
    {
      SearchWired(elements);
      threw := false;
      if Handler.SearchKeypress in handlers && key == ENTER_KEY {
        threw := PerformSearch(text);
      }
    }

    /** A click on the toggle. */
    method ToggleClick()
      requires Valid()
      modifies core`menu, core`toggleHtml
      ensures Valid()
      ensures core.menu == if elements.hasToggle && elements.hasMenu then Nav.Step(old(core.menu), Nav.Toggle) else old(core.menu)
      ensures core.toggleHtml == Nav.Glyph(core.menu)
    {
      NavWired(elements, 0);
      if Handler.ToggleClick in handlers {
        core.ToggleClick();
      }
    }

    /** A click on nav link `k`. */
    method LinkClick(k: nat)
      requires Valid() && k < elements.links
      modifies core`menu, core`toggleHtml
      ensures Valid()
      ensures core.menu == if elements.hasToggle && elements.hasMenu then Nav.Closed else old(core.menu)
    {
      NavWired(elements, k);
      if Handler.LinkClick(k) in handlers {
        core.LinkClick();
      }
    }

    /** A click anywhere on the document. */
    method DocumentClick(insideMenu: bool, insideToggle: bool)
      requires Valid()
      modifies core`menu, core`toggleHtml
      ensures Valid()
      ensures core.menu == if elements.hasToggle && elements.hasMenu
                           then Nav.Step(old(core.menu), Nav.Document(insideMenu, insideToggle)) else old(core.menu)
      ensures insideMenu || insideToggle ==> core.menu == old(core.menu) && core.toggleHtml == old(core.toggleHtml)
    {
      NavWired(elements, 0);
      if Handler.OutsideClick in handlers {
        core.DocumentClick(insideMenu, insideToggle);
      }
    }
  }
}
