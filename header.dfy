/** The header scroll styling: a choice between two fixed backgrounds. */
module Header {
  import opened Dom

  /** The header background for a vertical scroll offset. */
  function HeaderBackground(scrollY: int): (r: string)
    ensures r == SCROLLED_BACKGROUND <==> scrollY > SCROLL_THRESHOLD
    ensures r == SCROLLED_BACKGROUND || r == TOP_BACKGROUND
  {
    if scrollY > SCROLL_THRESHOLD then SCROLLED_BACKGROUND else TOP_BACKGROUND
  }
}
