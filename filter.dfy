/** The decision the category click handler makes: which button is active
    afterwards and which items are hidden. */
module Filter {
  import opened Dom

  /** An item stays visible when the selected category is the wildcard or
      when the two attribute values are strictly equal (two absent attributes
      are equal, an absent and a present one are not). */
  predicate Shown(selected: Category, item: Category)
    ensures selected == Some(ALL_CATEGORY) ==> Shown(selected, item)
    ensures item == selected ==> Shown(selected, item)
    ensures selected != Some(ALL_CATEGORY) && item != selected ==> !Shown(selected, item)
  {
    selected == Some(ALL_CATEGORY) || item == selected
  }

  /** The `active` markers after a click on button `clicked` of `n`. */
  function ActiveAfterClick(n: nat, clicked: nat): (r: seq<bool>)
    requires clicked < n
    ensures |r| == n
  {
    seq(n, k => k == clicked)
  }

  /** The `hidden` markers after filtering `items` by `selected`. */
  function HiddenAfterFilter(selected: Category, items: seq<Category>): (r: seq<bool>)
    ensures |r| == |items|
  {
    seq(|items|, j requires 0 <= j < |items| => !Shown(selected, items[j]))
  }

  /** The number of set markers. */
  function CountTrue(s: seq<bool>): (c: nat)
    ensures c <= |s|
  {
    if s == [] then 0 else (if s[0] then 1 else 0) + CountTrue(s[1..])
  }

  /** After a click exactly the clicked button carries the marker. */
  lemma OnlyClickedActive(n: nat, clicked: nat, k: nat)
    requires clicked < n && k < n
    ensures ActiveAfterClick(n, clicked)[k] <==> k == clicked
  {
  }

  lemma {:induction false} NoneSet(s: seq<bool>)
    requires forall k :: 0 <= k < |s| ==> !s[k]
    ensures CountTrue(s) == 0
  {
    if s != [] {
      NoneSet(s[1..]);
    }
  }

  lemma {:induction false} OneSet(s: seq<bool>, i: nat)
    requires i < |s|
    requires forall k :: 0 <= k < |s| ==> (s[k] <==> k == i)
    ensures CountTrue(s) == 1
  {
    if i == 0 {
      NoneSet(s[1..]);
    } else {
      OneSet(s[1..], i - 1);
    }
  }

  /** After a click exactly one button is active. */
  lemma ExactlyOneActive(n: nat, clicked: nat)
    requires clicked < n
    ensures CountTrue(ActiveAfterClick(n, clicked)) == 1
  {
    OneSet(ActiveAfterClick(n, clicked), clicked);
  }

  /** An item is hidden exactly when the selection is not the wildcard and
      the item's category differs from it. */
  lemma HiddenIffMismatch(selected: Category, items: seq<Category>, j: nat)
    requires j < |items|
    ensures HiddenAfterFilter(selected, items)[j] <==> (selected != Some(ALL_CATEGORY) && items[j] != selected)
  {
  }

  /** The wildcard button hides nothing. */
  lemma AllHidesNothing(items: seq<Category>, j: nat)
    requires j < |items|
    ensures !HiddenAfterFilter(Some(ALL_CATEGORY), items)[j]
  {
  }

  /** A button without a category attribute shows exactly the items that
      lack one too. */
  lemma UnlabelledButtonShowsUnlabelled(items: seq<Category>, j: nat)
    requires j < |items|
    ensures HiddenAfterFilter(None, items)[j] <==> items[j].Some?
  {
  }
}
