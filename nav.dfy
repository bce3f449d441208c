/** The mobile navigation as a two-state machine. */
module Nav {
  import opened Dom

  datatype MenuState = Closed | Open

  /** A click the navigation reacts to. */
  datatype NavEvent =
    | Toggle                                            // on the toggle button
    | Link                                              // on a navigation link
    | Document(insideMenu: bool, insideToggle: bool)    // anywhere on the page

  /** The glyph the toggle shows in a state. */
  function Glyph(s: MenuState): (g: string)
    ensures g == CLOSE_GLYPH <==> s == Open
    ensures g == MENU_GLYPH <==> s == Closed
  {
    assert CLOSE_GLYPH[0] != MENU_GLYPH[0];
    match s
    case Open => CLOSE_GLYPH
    case Closed => MENU_GLYPH
  }

  /** The state after one click: a toggle click flips the state, a link
      click closes the menu, and a document click closes it when it lands
      outside both the menu and the toggle and leaves it alone otherwise. */
  function Step(s: MenuState, e: NavEvent): (t: MenuState)
    ensures e == Toggle ==> t != s
    ensures e == Link ==> t == Closed
    ensures e.Document? && !e.insideMenu && !e.insideToggle ==> t == Closed
    ensures e.Document? && (e.insideMenu || e.insideToggle) ==> t == s
  {
    match e
    case Toggle => if s == Open then Closed else Open
    case Link => Closed
    case Document(insideMenu, insideToggle) => if !insideMenu && !insideToggle then Closed else s
  }

  /** The state after a series of clicks. Whatever came before, a series
      that ends with a link click or an outside click leaves the menu closed. */
  function Run(s: MenuState, events: seq<NavEvent>): (t: MenuState)
    ensures events == [] ==> t == s
    ensures events != [] && (events[|events| - 1] == Link || events[|events| - 1] == Document(false, false)) ==> t == Closed
    decreases |events|
  {
    if events == [] then s else Run(Step(s, events[0]), events[1..])
  }

  /** A toggle click always changes the state. */
  lemma ToggleFlips(s: MenuState)
    ensures Step(s, Toggle) != s
    ensures Step(Step(s, Toggle), Toggle) == s
  {
  }

  /** `n` toggle clicks from Closed open the menu exactly when `n` is odd. */
  lemma {:induction false} ToggleParity(n: nat)
    ensures Run(Closed, seq(n, _ => Toggle)) == if n % 2 == 1 then Open else Closed
  {
    if n > 1 {
      var events := seq(n, _ => Toggle);
      assert events[1..][1..] == seq(n - 2, _ => Toggle);
      ToggleParity(n - 2);
    } else if n == 1 {
      assert seq(n, _ => Toggle)[1..] == [];
    }
  }

  /** Without a toggle click the menu never opens. */
  lemma {:induction false} OnlyToggleOpens(s: MenuState, events: seq<NavEvent>)
    requires s == Closed
    requires forall k :: 0 <= k < |events| ==> events[k] != Toggle
    ensures Run(s, events) == Closed
  {
    if events != [] {
      OnlyToggleOpens(Step(s, events[0]), events[1..]);
    }
  }
}
