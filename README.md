# Rugspace page script, modelled in Dafny

The rugspace site ships one client-side script in two revisions: `js.js` and
its null-safe rewrite `statics/js.js`. The script filters a product listing
by category. It restyles the header on scroll and starts the entry animation
of items as they scroll into view. It sends searches to the collections page
and opens and closes a mobile navigation menu.

The model treats the page as an explicit state object whose fields are the
DOM markers the script writes. Those markers are the `active` class of each
category button, the `hidden` class and animation play state of each item,
the header background, the window location, the menu's `mobile-active` class
and the toggle's glyph.

- `Dom` holds the shared types and constants, the element inventory of a page
  (`Elements`) and the names of the listeners (`Handler`).
- `Filter`, `Animation`, `Header`, `Search` and `Nav` hold the decisions the
  handlers make, as functions, together with the lemmas about them.
- `Script` models `js.js`. Its class `Page` holds the markers in arrays and
  fields, and its methods are the handler bodies, proved against the decision
  functions. `Script.Wiring` is the listener registration at load time.
- `HardenedScript` models `statics/js.js`. It holds `on`, the guarded setup
  steps (as functions over the set of registered listeners), and a `Page` that
  wraps a `Script.Page`. The wrapper runs the original handler bodies only
  where the guards let a listener be registered. The handler bodies of the
  two files are the same code apart from the early returns at
  statics/js.js:62 and :79, which `HardenedScript.Page.AnimateOnScroll` and
  `HardenedScript.Page.PerformSearch` add around the original bodies.

Host built-ins the script cannot see are parameters. `encodeURIComponent` is
the function `encode`. The characters `String.prototype.trim` strips are the
set `whitespace`. Element geometry (`getBoundingClientRect`,
`window.innerHeight`) and `window.scrollY` are integer arguments of the
handlers. A listener firing is a direct call of the corresponding method.

A button without a `data-category` attribute does not hide everything. The
comparison is strict equality of two possibly-null values, so such a button
shows exactly the items that lack the attribute too
(`Filter.UnlabelledButtonShowsUnlabelled`).

Where `js.js` dereferences a missing element it throws a TypeError. The
model gives the handler a `threw` result and leaves the page unchanged:
`Script.Page.HeaderScroll` without a header, and `Script.Page.PerformSearch`
without a search input. The second case is reachable, because js.js:97
registers the button's click listener before js.js:98 throws.

The revisions also differ on a page with buttons but no items. In `js.js` a
click still moves the `active` marker. In `statics/js.js` the filter is not
wired at all, so the click changes nothing (`HardenedScript.Page.ClickCategory`).

## Model

| member | source | states |
|---|---|---|
| `Filter.Shown` | js.js:30 | an item is shown when the selection is "all" or equals the item's category, and hidden when neither holds |
| `Filter.ActiveAfterClick` | js.js:16-21 | the active markers after a click have one entry per button |
| `Filter.OnlyClickedActive` | js.js:16-21 | after a click on button i, button k is active iff k == i |
| `Filter.CountTrue` | js.js:16-21 | the number of set markers is at most the number of buttons |
| `Filter.NoneSet` | js.js:16-18 | once every marker is cleared, none is counted |
| `Filter.OneSet` | js.js:16-21 | markers true at exactly one index count exactly one |
| `Filter.ExactlyOneActive` | js.js:16-21 | after a click exactly one button is active |
| `Filter.HiddenAfterFilter` | js.js:27-35 | the filter yields one hidden marker per item |
| `Filter.HiddenIffMismatch` | js.js:24-34 | an item is hidden iff the selection is not "all" and the item's category differs from it |
| `Filter.AllHidesNothing` | js.js:30 | the "all" button hides no item |
| `Filter.UnlabelledButtonShowsUnlabelled` | js.js:28-30 | a button without a category hides exactly the items that have one |
| `Animation.IsVisible` | js.js:74 | a box is visible iff its top is above the viewport's bottom and its bottom below the viewport's top |
| `Animation.RunningAfterScan` | js.js:71-80 | the pass yields one running flag per item |
| `Animation.ScanEffect` | js.js:72-79 | a visible, non-hidden item runs afterwards; a hidden or off-screen item keeps its flag; no flag is cleared |
| `Animation.ScanIdempotent` | js.js:71-80 | a second pass over the same layout changes nothing |
| `Header.HeaderBackground` | js.js:46-50 | the background is the 0.98 value iff scrollY > 100, and always one of the two fixed values |
| `Search.TrimStart` | js.js:89 | drops exactly a whitespace prefix and leaves a result that is a suffix not starting with whitespace |
| `Search.TrimEnd` | js.js:89 | drops exactly a whitespace suffix and leaves a result that is a prefix not ending with whitespace |
| `Search.Trim` | js.js:89 | the trimmed text is empty iff every character is whitespace; otherwise neither end is whitespace |
| `Search.TrimIdempotent` | js.js:89 | trimming twice is trimming once |
| `Search.TrimStartPadding` | js.js:89 | a whitespace prefix before a non-whitespace character is removed exactly |
| `Search.TrimEndPadding` | js.js:89 | a whitespace suffix after a non-whitespace character is removed exactly |
| `Search.TrimPadding` | js.js:89 | trimming a padded word gives the word |
| `Search.SearchTarget` | js.js:88-93 | no target iff the input is all whitespace; otherwise the target is the results page plus the encoded trimmed query |
| `Search.SearchPadded` | js.js:88-93 | a search for a padded word targets the results page for the encoded word |
| `Search.WoolRugQuery` | js.js:88-93 | for any whitespace set holding the space but not `w` or `g`, and an encoder mapping "wool rug" to "wool%20rug", "  wool rug  " targets `collections.html?search=wool%20rug` |
| `Nav.Glyph` | js.js:169-173 | the toggle shows ✕ iff the menu is open and ☰ iff it is closed |
| `Nav.Step` | js.js:165-191 | a toggle click flips the state; a link click closes the menu; a document click closes it iff outside both menu and toggle, else leaves it |
| `Nav.Run` | js.js:164-192 | a series of clicks ending with a link click or an outside click leaves the menu closed |
| `Nav.ToggleFlips` | js.js:165-166 | a toggle click always changes the state, and two toggle clicks restore it |
| `Nav.ToggleParity` | js.js:165-173 | n toggle clicks from Closed leave the menu open iff n is odd |
| `Nav.OnlyToggleOpens` | js.js:164-192 | from Closed, no series of clicks without a toggle click opens the menu |
| `Script.Wiring` | js.js:150-164 | setup fails iff the search button or input is missing; every button gets a filter listener; nav listeners exist iff toggle and menu exist |
| `Script.Page.constructor` | js.js:1-9 | the page starts with the category attributes and the active, hidden, running, background and menu state its HTML gives, and no navigation |
| `Script.Page.ClickCategory` | js.js:13-39 | after a click the active, hidden and running markers are the filter's and the pass's results; category attributes unchanged |
| `Script.Page.AnimateOnScroll` | js.js:71-80 | the running flags become the result of one pass over the old flags |
| `Script.Page.HeaderScroll` | js.js:45-51 | with a header the background becomes the threshold choice for scrollY; without one the handler throws and nothing changes |
| `Script.Page.PerformSearch` | js.js:88-94 | without an input the search throws and nothing changes; otherwise the location becomes the search target when there is one and is unchanged if not |
| `Script.Page.SearchKeypress` | js.js:98-102 | only an Enter key press searches, and it throws exactly when there is no input |
| `Script.Page.ToggleClick` | js.js:165-174 | the menu flips and the glyph is ✕ iff it is now open |
| `Script.Page.LinkClick` | js.js:178-183 | the menu closes and ☰ is shown |
| `Script.Page.DocumentClick` | js.js:186-191 | a click outside both menu and toggle closes the menu; any other click leaves menu and glyph as they were |
| `Script.ClickTwice` | js.js:16-34 | clicking the same button twice leaves the state one click leaves |
| `HardenedScript.On` | statics/js.js:12-14 | a handler is registered iff the element exists, and nothing else is registered |
| `HardenedScript.RegisterButtons` | statics/js.js:19-20 | the button loop registers one filter listener per button |
| `HardenedScript.RegisterLinks` | statics/js.js:153-155 | the link loop registers one listener per nav link |
| `HardenedScript.SetupCategoryFiltering` | statics/js.js:17-20 | no filter listener unless both node lists are non-empty, otherwise one per button |
| `HardenedScript.SetupHeaderScrollEffect` | statics/js.js:39-41 | the header listener is registered iff the header exists |
| `HardenedScript.SetupScrollAnimations` | statics/js.js:72-75 | the animation pass listens to scroll and load |
| `HardenedScript.SetupSearch` | statics/js.js:86-92 | the search listeners are registered iff both button and input exist |
| `HardenedScript.SetupMobileNav` | statics/js.js:147-167 | the nav listeners are registered iff both toggle and menu exist |
| `HardenedScript.Wiring` | statics/js.js:133-167 | the whole setup registers the union of what each guarded step adds |
| `HardenedScript.FilterWired` | statics/js.js:18-20 | button i has a click listener iff it exists and there is at least one item |
| `HardenedScript.HeaderWired` | statics/js.js:40-41 | the header listener exists iff the header does; the animation listeners always exist |
| `HardenedScript.SearchWired` | statics/js.js:87-89 | the search listeners exist iff both the button and the input do |
| `HardenedScript.NavWired` | statics/js.js:147-161 | the toggle, link and document listeners exist iff both toggle and menu do |
| `HardenedScript.WiringWithinOriginal` | statics/js.js:133-141 | the revision registers no listener that the original does not |
| `HardenedScript.WiringAgreesOnFullPage` | statics/js.js:133-141 | with every element and some items present, both revisions register the same listeners and the original does not fail |
| `HardenedScript.Page.constructor` | statics/js.js:1-9 | the page starts with its listeners registered by the guarded setup and the markers its HTML gives, with the glyph of the initial menu state |
| `HardenedScript.Page.ClickCategory` | statics/js.js:18-34 | with items, exactly the clicked button is active and items are hidden iff mismatched; without items the click changes nothing |
| `HardenedScript.Page.AnimateOnScroll` | statics/js.js:61-70 | the running flags become the result of one pass; nothing happens without items |
| `HardenedScript.Page.HeaderScroll` | statics/js.js:40-44 | without a header nothing changes; otherwise the background follows the scrollY > 100 threshold; never throws |
| `HardenedScript.Page.PerformSearch` | statics/js.js:78-84 | without an input nothing changes; otherwise the location becomes the target of a non-blank trimmed query; never throws |
| `HardenedScript.Page.SearchClick` | statics/js.js:86-88 | a click searches only when both button and input exist; never throws |
| `HardenedScript.Page.SearchKeypress` | statics/js.js:86-91 | an Enter key press searches only when both button and input exist; never throws |
| `HardenedScript.Page.ToggleClick` | statics/js.js:147-151 | with the nav present the menu flips and the glyph follows; without it nothing changes |
| `HardenedScript.Page.LinkClick` | statics/js.js:153-159 | with the nav present a link click closes the menu |
| `HardenedScript.Page.DocumentClick` | statics/js.js:161-166 | with the nav present an outside click closes the menu; a click inside menu or toggle never changes it |

## Left out

- Smooth scrolling (js.js:55-68, statics/js.js:48-58): `querySelector` and `scrollIntoView` are browser calls with no logic of their own.
- Ripple effect (js.js:113-123, statics/js.js:101-110): creating and removing DOM nodes on a 600 ms timer.
- Pattern colorizer (js.js:127-147, statics/js.js:114-130): interval and timeout timers over `Math.random`; its guard at statics/js.js:115 is not modelled either.
- Animation delays `index * 0.5 + 's'` (js.js:109, statics/js.js:98): floating-point arithmetic formatted as text.
- `encodeURIComponent` and the whitespace set of `trim`: host built-ins, kept as the parameters `encode` and `whitespace`. `encode` is total: the URIError `encodeURIComponent` throws on a lone surrogate cannot arise, since a Dafny `string` holds Unicode scalar values and cannot contain one.
- Element geometry and scroll offsets are integers, not the browser's floating-point values.
- Listener registration, `DOMContentLoaded`, `load` and navigation through `window.location` are not modelled as browser mechanics: the registered listeners are a set, a firing is a method call, navigation is the `location` field.
- Event propagation is not modelled: in the browser a click on the toggle or a link also reaches the document listener. For the toggle, or a link inside the menu, that listener sees a click inside menu or toggle and does nothing. A `.nav-link` outside the menu (js.js:177 queries the whole document) is closed again by the document listener, which leaves the same end state.
- The listeners `setupInteractiveEffects` and `setupPatternEffects` would register after `setupSearch`; since both are left out, so is the effect of a failed `setupSearch` on them.
- A thrown TypeError is only the `threw` result of the handler. The browser's error reporting is not modelled.
- Script.Page.constructor: derives the toggle's initial glyph from the menu's initial state, so a page whose HTML starts with a mismatched glyph is not modelled.
- HardenedScript.Page.constructor: likewise derives the toggle's initial glyph from the menu's initial state, through the `Script.Page` it wraps, so the same mismatched page is not modelled here either.
- HardenedScript.Page.ClickCategory: runs the original handler, whose animation pass lacks the empty-list return of statics/js.js:62; the handler only runs when there are items, so the two passes agree.
