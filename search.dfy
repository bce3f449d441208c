/** The search dispatch: trimming the query and building the results URL.
    The whitespace set of `String.prototype.trim` and the percent-encoding of
    `encodeURIComponent` are built-ins of the host and stay parameters here. */
module Search {
  import opened Dom

  /** The text without its leading whitespace. */
  function TrimStart(s: string, whitespace: set<char>): (r: string)
    ensures |r| <= |s| && r == s[|s| - |r|..]
    ensures forall k :: 0 <= k < |s| - |r| ==> s[k] in whitespace
    ensures r != [] ==> r[0] !in whitespace
    decreases |s|
  {
    if s != [] && s[0] in whitespace then TrimStart(s[1..], whitespace) else s
  }

  /** The text without its trailing whitespace. */
  function TrimEnd(s: string, whitespace: set<char>): (r: string)
    ensures |r| <= |s| && r == s[..|r|]
    ensures forall k :: |r| <= k < |s| ==> s[k] in whitespace
    ensures r != [] ==> r[|r| - 1] !in whitespace
    decreases |s|
  {
    if s != [] && s[|s| - 1] in whitespace then TrimEnd(s[..|s| - 1], whitespace) else s
  }

  /** The text without whitespace at either end. */
  function Trim(s: string, whitespace: set<char>): (r: string)
    ensures r == [] <==> forall k :: 0 <= k < |s| ==> s[k] in whitespace
    ensures r != [] ==> r[0] !in whitespace && r[|r| - 1] !in whitespace
  {
    var t := TrimStart(s, whitespace);
    var r := TrimEnd(t, whitespace);
    assert r != [] ==> r[0] == s[|s| - |t|];
    r
  }

  /** Trimming twice is trimming once. */
  lemma {:induction false} TrimIdempotent(s: string, whitespace: set<char>)
    ensures Trim(Trim(s, whitespace), whitespace) == Trim(s, whitespace)
  {
    var r := Trim(s, whitespace);
    assert TrimStart(r, whitespace) == r;
    assert TrimEnd(r, whitespace) == r;
  }

  /** Where a search for `text` navigates, or `None` for no navigation. */
  function SearchTarget(text: string, whitespace: set<char>, encode: string -> string): (r: Option<string>)
    ensures r.None? <==> forall k :: 0 <= k < |text| ==> text[k] in whitespace
    ensures r.Some? ==> r.value == SEARCH_PAGE + encode(Trim(text, whitespace))
  {
    var query := Trim(text, whitespace);
    if query != [] then Some(SEARCH_PAGE + encode(query)) else None
  }

  lemma {:induction false} TrimStartPadding(pre: string, rest: string, whitespace: set<char>)
    requires forall k :: 0 <= k < |pre| ==> pre[k] in whitespace
    requires rest != [] && rest[0] !in whitespace
    ensures TrimStart(pre + rest, whitespace) == rest
  {
    if pre != [] {
      assert (pre + rest)[1..] == pre[1..] + rest;
      TrimStartPadding(pre[1..], rest, whitespace);
    } else {
      assert pre + rest == rest;
    }
  }

  lemma {:induction false} TrimEndPadding(rest: string, post: string, whitespace: set<char>)
    requires forall k :: 0 <= k < |post| ==> post[k] in whitespace
    requires rest != [] && rest[|rest| - 1] !in whitespace
    ensures TrimEnd(rest + post, whitespace) == rest
  {
    if post != [] {
      assert (rest + post)[..|rest + post| - 1] == rest + post[..|post| - 1];
      TrimEndPadding(rest, post[..|post| - 1], whitespace);
    } else {
      assert rest + post == rest;
    }
  }

  /** Trimming removes exactly the whitespace around a word that neither
      starts nor ends with whitespace. */
  lemma TrimPadding(pre: string, word: string, post: string, whitespace: set<char>)
    requires forall k :: 0 <= k < |pre| ==> pre[k] in whitespace
    requires forall k :: 0 <= k < |post| ==> post[k] in whitespace
    requires word != [] && word[0] !in whitespace && word[|word| - 1] !in whitespace
    ensures Trim(pre + word + post, whitespace) == word
  {
    assert pre + word + post == pre + (word + post);
    TrimStartPadding(pre, word + post, whitespace);
    TrimEndPadding(word, post, whitespace);
  }

  /** A search for a padded word navigates to the results page for the
      encoded word alone. */
  lemma SearchPadded(pre: string, word: string, post: string, whitespace: set<char>, encode: string -> string)
    requires forall k :: 0 <= k < |pre| ==> pre[k] in whitespace
    requires forall k :: 0 <= k < |post| ==> post[k] in whitespace
    requires word != [] && word[0] !in whitespace && word[|word| - 1] !in whitespace
    ensures SearchTarget(pre + word + post, whitespace, encode) == Some(SEARCH_PAGE + encode(word))
  {
    TrimPadding(pre, word, post, whitespace);
  }

  /** For any whitespace set that holds the space but neither `w` nor `g`,
      and an encoder that maps "wool rug" to "wool%20rug", a search for
      "  wool rug  " leads to `collections.html?search=wool%20rug`. */
  lemma WoolRugQuery(text: string, whitespace: set<char>, encode: string -> string)
    requires text == "  wool rug  "
    requires ' ' in whitespace && 'w' !in whitespace && 'g' !in whitespace
    requires encode("wool rug") == "wool%20rug"
    ensures SearchTarget(text, whitespace, encode) == Some(SEARCH_PAGE + "wool%20rug")
  {
    var word := "wool rug";
    assert word[0] == 'w' && word[|word| - 1] == 'g';
    assert text == "  " + word + "  ";
    SearchPadded("  ", word, "  ", whitespace, encode);
  }
}
