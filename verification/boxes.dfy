/** The string logic of the page boxes: `colonsplit`, the first-space split
    of a title into its white and blue words, and the list of menu items a
    menu box lays out (text, link, first-item styling, "|" separators). */
module Boxes {

  /** The position of the first `sep` in `s`, or `|s|` when there is none. */
  function FirstIndex(s: string, sep: char): (i: nat)
    ensures i <= |s|
    ensures i < |s| ==> s[i] == sep
    ensures sep !in s[..i]
    ensures i == |s| <==> sep !in s
  {
    if |s| == 0 then 0
    else if s[0] == sep then 0
    else
      var i := FirstIndex(s[1..], sep);
      assert s[..i + 1] == [s[0]] + s[1..][..i];
      i + 1
  }

  /** `strings.SplitN(s, sep, 2)` guarded by `strings.Contains(s, sep)`:
      the text before the first `sep` and the rest after it; without a
      `sep`, the whole text and "". */
  function SplitFirst(s: string, sep: char): (parts: (string, string))
    ensures sep !in s ==> parts == (s, "")
    ensures sep in s ==> parts.0 + [sep] + parts.1 == s && sep !in parts.0
  {
    if sep in s then
      var i := FirstIndex(s, sep);
      assert s == s[..i] + [sep] + s[i + 1..];
      (s[..i], s[i + 1..])
    else
      (s, "")
  }

  /** The split is the only one with nothing but `sep`-free text before the
      separator: later separators stay in the second part. */
  lemma SplitFirstUnique(s: string, sep: char, a: string, b: string)
    requires a + [sep] + b == s
    requires sep !in a
    ensures SplitFirst(s, sep) == (a, b)
  {
    assert s[|a|] == sep;
    var i := FirstIndex(s, sep);
    assert i == |a|;
    assert s[..i] == a;
    assert s[i + 1..] == b;
  }

  /** `colonsplit`: a "text:url" menu entry split at its first colon. */
  function ColonSplit(s: string): (parts: (string, string))
    ensures ':' !in s ==> parts == (s, "")
    ensures ':' in s ==> parts.0 + ":" + parts.1 == s && ':' !in parts.0
  {
    SplitFirst(s, ':')
  }

  /** The title split of `AddTitleBox`: the first word, shown white, and
      the rest after the first space, shown blue. */
  function TitleWords(title: string): (words: (string, string))
    ensures ' ' !in title ==> words == (title, "")
    ensures ' ' in title ==> words.0 + " " + words.1 == title && ' ' !in words.0
  {
    SplitFirst(title, ' ')
  }

  /** One entry of a menu box: the link text and target, whether it carries
      the bold menu styling, and whether a "|" separator follows it. */
  datatype MenuItem = MenuItem(text: string, url: string, styled: bool, separator: bool)

  /** The items `AddMenuBox` lays out for its "text:url" links: one per
      link in order, the styling on the first only (the `styleadded` flag),
      and a separator after every item but the last. */
  method MenuItems(links: seq<string>) returns (items: seq<MenuItem>)
    ensures |items| == |links|
    ensures forall i :: 0 <= i < |links| ==> (items[i].text, items[i].url) == ColonSplit(links[i])
    ensures forall i :: 0 <= i < |links| ==> (items[i].styled <==> i == 0)
    ensures forall i :: 0 <= i < |links| ==> (items[i].separator <==> i < |links| - 1)
  {
    items := [];
    var styleadded := false;
    for i := 0 to |links|
      invariant |items| == i
      invariant styleadded <==> i > 0
      invariant forall j :: 0 <= j < i ==> (items[j].text, items[j].url) == ColonSplit(links[j])
      invariant forall j :: 0 <= j < i ==> (items[j].styled <==> j == 0)
      invariant forall j :: 0 <= j < i ==> (items[j].separator <==> j < |links| - 1)
    {
      var (text, url) := ColonSplit(links[i]);
      var styled := false;
      if !styleadded {
        styled := true;
        styleadded := true;
      }
      items := items + [MenuItem(text, url, styled, i < |links| - 1)];
    }
  }

  /** The number of "|" separators among the items. */
  function Separators(items: seq<MenuItem>): nat {
    if |items| == 0 then 0
    else (if items[0].separator then 1 else 0) + Separators(items[1..])
  }

  /** The number of styled items. */
  function StyledCount(items: seq<MenuItem>): nat {
    if |items| == 0 then 0
    else (if items[0].styled then 1 else 0) + StyledCount(items[1..])
  }

  /** n items with a separator after all but the last hold n - 1 separators. */
  lemma {:induction false} SeparatorsBetweenItems(items: seq<MenuItem>)
    requires |items| > 0
    requires forall i :: 0 <= i < |items| ==> (items[i].separator <==> i < |items| - 1)
    ensures Separators(items) == |items| - 1
  {
    if |items| > 1 {
      SeparatorsBetweenItems(items[1..]);
    }
  }

  /** Items styled only at position 0 hold exactly one styled item. */
  lemma {:induction false} OneStyledItem(items: seq<MenuItem>)
    requires |items| > 0
    requires forall i :: 0 <= i < |items| ==> (items[i].styled <==> i == 0)
    ensures StyledCount(items) == 1
  {
    NoneStyled(items[1..]);
  }

  lemma {:induction false} NoneStyled(items: seq<MenuItem>)
    requires forall i :: 0 <= i < |items| ==> !items[i].styled
    ensures StyledCount(items) == 0
  {
    if |items| > 0 {
      NoneStyled(items[1..]);
    }
  }

  /** A menu of n links shows n - 1 separators and one styled link. */
  method MenuSeparators(links: seq<string>) returns (items: seq<MenuItem>)
    requires |links| > 0
    ensures |items| == |links|
    ensures Separators(items) == |links| - 1
    ensures StyledCount(items) == 1
  {
    items := MenuItems(links);
    SeparatorsBetweenItems(items);
    OneStyledItem(items);
  }
}
