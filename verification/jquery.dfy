/** The jQuery snippet emitters: each builds one line of JavaScript by
    concatenation. Their contracts say which call on which tag each snippet
    is, by recovering the argument from the emitted text. */
module JQuery {
  import opened Wrappers

  /** The text strictly between a leading `open` and a trailing `close`, or
      None when `code` is not of that shape. */
  function Between(code: string, open: string, close: string): Option<string> {
    if |open| + |close| <= |code| && code[..|open|] == open && code[|code| - |close|..] == close
    then Some(code[|open|..|code| - |close|])
    else None
  }

  /** Wrapping `x` in `open` and `close`; `Between` recovers `x`. */
  function Wrap(open: string, x: string, close: string): (code: string)
    ensures |code| == |open| + |x| + |close|
    ensures Between(code, open, close) == Some(x)
  {
    var code := open + x + close;
    assert code[..|open|] == open;
    assert code[|code| - |close|..] == close;
    assert code[|open|..|code| - |close|] == x;
    code
  }

  /** `fn`: an anonymous function around `source`. */
  function Fn(source: string): (code: string)
    ensures Between(code, "function() { ", " }") == Some(source)
  {
    Wrap("function() { ", source, " }")
  }

  /** `quote`: a JavaScript string literal (no escaping). */
  function Quote(src: string): (q: string)
    ensures |q| == |src| + 2
    ensures Between(q, "\"", "\"") == Some(src)
  {
    Wrap("\"", src, "\"")
  }

  /** Quoting never merges two different texts. */
  lemma QuoteInjective(a: string, b: string)
    requires Quote(a) == Quote(b)
    ensures a == b
  {
  }

  /** The text of a call of `name` on the tag, up to its argument. */
  function CallOpen(tagname: string, name: string): string {
    "$(" + Quote(tagname) + ")." + name + "("
  }

  /** The argument of a `name` call on the tag, when `code` is one. */
  function CallArgument(code: string, tagname: string, name: string): Option<string> {
    Between(code, CallOpen(tagname, name), ");")
  }

  /** `method`: calls `name` on the tag with the raw JavaScript `value`. */
  function Method(tagname: string, name: string, value: string): (code: string)
    ensures CallArgument(code, tagname, name) == Some(value)
  {
    Wrap(CallOpen(tagname, name), value, ");")
  }

  /** `methodString`: a `method` call whose argument is a string literal. */
  function MethodString(tagname: string, name: string, value: string): (code: string)
    ensures CallArgument(code, tagname, name) == Some(Quote(value))
  {
    Method(tagname, name, Quote(value))
  }

  /** `event`: binds an anonymous function around `source` to an event. */
  function Event(tagname: string, event: string, source: string): (code: string)
    ensures code == Method(tagname, event, Fn(source))
    ensures CallArgument(code, tagname, event) == Some(Fn(source))
  {
    "$(" + Quote(tagname) + ")." + event + "(" + Fn(source) + ");"
  }

  /** `OnDocumentReady`: runs `source` once the document is loaded. */
  function OnDocumentReady(source: string): (code: string)
    ensures Between(code, "$(document).ready(", ");") == Some(Fn(source))
  {
    Wrap("$(document).ready(", Fn(source), ");")
  }

  /** `Alert`: shows `msg` in an alert box. */
  function Alert(msg: string): (code: string)
    ensures Between(code, "alert(", ");") == Some(Quote(msg))
  {
    Wrap("alert(", Quote(msg), ");")
  }

  /** `OnClick`: the click event of the tag. */
  function OnClick(tagname: string, source: string): (code: string)
    ensures CallArgument(code, tagname, "click") == Some(Fn(source))
  {
    Event(tagname, "click", source)
  }

  /** `SetText`: sets the tag's text to a string literal. */
  function SetText(tagname: string, text: string): (code: string)
    ensures CallArgument(code, tagname, "text") == Some(Quote(text))
  {
    MethodString(tagname, "text", text)
  }

  /** `SetHTML`: sets the tag's HTML from a raw JavaScript expression. */
  function SetHTML(tagname: string, html: string): (code: string)
    ensures CallArgument(code, tagname, "html") == Some(html)
  {
    Method(tagname, "html", html)
  }

  /** `SetValue`: sets the tag's value to a string literal. */
  function SetValue(tagname: string, val: string): (code: string)
    ensures CallArgument(code, tagname, "val") == Some(Quote(val))
  {
    MethodString(tagname, "val", val)
  }

  /** `SetRawValue`: sets the tag's value from a raw JavaScript expression. */
  function SetRawValue(tagname: string, val: string): (code: string)
    ensures CallArgument(code, tagname, "val") == Some(val)
  {
    Method(tagname, "val", val)
  }

  /** `Load`: loads the tag's content from a URL. */
  function Load(tagname: string, url: string): (code: string)
    ensures CallArgument(code, tagname, "load") == Some(Quote(url))
  {
    MethodString(tagname, "load", url)
  }

  /** `Hide`: `hide()` with no argument. */
  function Hide(tagname: string): (code: string)
    ensures code == Method(tagname, "hide", "")
  {
    "$(" + Quote(tagname) + ").hide();"
  }

  /** `HideAnimated`: `hide('fast')`. */
  function HideAnimated(tagname: string): (code: string)
    ensures code == Method(tagname, "hide", "'fast'")
  {
    "$(" + Quote(tagname) + ").hide('fast');"
  }

  /** `Show`: `show()` with no argument. */
  function Show(tagname: string): (code: string)
    ensures code == Method(tagname, "show", "")
  {
    "$(" + Quote(tagname) + ").show();"
  }

  /** `ShowAnimated`: `show('fast')`. */
  function ShowAnimated(tagname: string): (code: string)
    ensures code == Method(tagname, "show", "'fast'")
  {
    "$(" + Quote(tagname) + ").show('fast');"
  }

  /** `ShowInline`: shows the tag by setting its display to inline. */
  function ShowInline(tagname: string): (code: string)
    ensures code == Method(tagname, "css", "'display', 'inline'")
  {
    "$(" + Quote(tagname) + ").css('display', 'inline');"
  }

  /** `ShowInlineAnimated`: makes the tag inline, hides it, and fades it in. */
  function ShowInlineAnimated(tagname: string): (code: string)
    ensures code == Method(tagname, "css", "'display', 'inline'") + Method(tagname, "hide", "")
                    + Method(tagname, "show", "'fast'")
  {
    ShowInline(tagname) + Hide(tagname) + ShowAnimated(tagname)
  }

  /** `HideIfNot`: fetches the URL and hides the tag unless the reply is "1". */
  function HideIfNot(booleanURL: string, tagname: string): (code: string)
    ensures Between(code, "$.get(" + Quote(booleanURL) + ", function(data) { if (data != \"1\") {", "}; });")
            == Some(Hide(tagname))
  {
    Wrap("$.get(" + Quote(booleanURL) + ", function(data) { if (data != \"1\") {", Hide(tagname), "}; });")
  }

  /** One test of the three-flag reply: whether `data[index]` is "1" or is
      not, and the code run when the test holds. */
  datatype FlagTest = FlagTest(index: nat, wantOne: bool, action: string)

  /** The JavaScript of one flag test, for a one-digit index. */
  function RenderTest(t: FlagTest): string
    requires t.index < 10
  {
    "if (data[" + [(48 + t.index) as char] + "] " + (if t.wantOne then "==" else "!=") + " \"1\") {"
    + t.action + "};"
  }

  /** The JavaScript of a sequence of flag tests, in order. */
  function RenderTests(ts: seq<FlagTest>): string
    requires forall i :: 0 <= i < |ts| ==> ts[i].index < 10
  {
    if |ts| == 0 then "" else RenderTest(ts[0]) + RenderTests(ts[1..])
  }

  /** Three tests render as their three texts in order. */
  lemma RenderThreeTests(ts: seq<FlagTest>)
    requires |ts| == 3 && ts[0].index < 10 && ts[1].index < 10 && ts[2].index < 10
    ensures RenderTests(ts) == RenderTest(ts[0]) + RenderTest(ts[1]) + RenderTest(ts[2])
  {
    var t1 := ts[1..];
    var t2 := t1[1..];
    assert t1[0] == ts[1] && t2[0] == ts[2] && t2[1..] == [];
    assert RenderTests(t2) == RenderTest(ts[2]) + RenderTests([]);
    assert RenderTests(t1) == RenderTest(ts[1]) + RenderTests(t2);
  }

  /** The text of the tests on positions 0, 1 and 2, one literal each. */
  lemma RenderTestText(d: nat, wantOne: bool, action: string)
    requires d < 3
    ensures RenderTest(FlagTest(d, wantOne, action)) ==
            (if wantOne then
               (if d == 0 then "if (data[0] == \"1\") {" else if d == 1 then "if (data[1] == \"1\") {"
                else "if (data[2] == \"1\") {")
             else
               (if d == 0 then "if (data[0] != \"1\") {" else if d == 1 then "if (data[1] != \"1\") {"
                else "if (data[2] != \"1\") {"))
            + action + "};"
  {
  }

  /** A `$.get` of the URL whose callback runs the flag tests. */
  function FlagCallback(url: string, ts: seq<FlagTest>): string
    requires forall i :: 0 <= i < |ts| ==> ts[i].index < 10
  {
    "$.get(" + Quote(url) + ", function(data) {" + RenderTests(ts) + "});"
  }

  /** The callback text of three tests on positions 0, 1 and 2. */
  lemma FlagCallbackText(url: string, wantOne: bool, a: string, b: string, c: string)
    ensures FlagCallback(url, [FlagTest(0, wantOne, a), FlagTest(1, wantOne, b), FlagTest(2, wantOne, c)]) ==
            if wantOne then
              "$.get(" + Quote(url) + ", function(data) {" + "if (data[0] == \"1\") {" + a + "};"
              + "if (data[1] == \"1\") {" + b + "};" + "if (data[2] == \"1\") {" + c + "};" + "});"
            else
              "$.get(" + Quote(url) + ", function(data) {" + "if (data[0] != \"1\") {" + a + "};"
              + "if (data[1] != \"1\") {" + b + "};" + "if (data[2] != \"1\") {" + c + "};" + "});"
  {
    var ts := [FlagTest(0, wantOne, a), FlagTest(1, wantOne, b), FlagTest(2, wantOne, c)];
    RenderThreeTests(ts);
    RenderTestText(0, wantOne, a);
    RenderTestText(1, wantOne, b);
    RenderTestText(2, wantOne, c);
    var head := "$.get(" + Quote(url) + ", function(data) {";
    var l0 := if wantOne then "if (data[0] == \"1\") {" else "if (data[0] != \"1\") {";
    var l1 := if wantOne then "if (data[1] == \"1\") {" else "if (data[1] != \"1\") {";
    var l2 := if wantOne then "if (data[2] == \"1\") {" else "if (data[2] != \"1\") {";
    Reassociate(head, l0, a, l1, b, l2, c, "};", "});");
  }

  lemma Reassociate(h: string, l0: string, a: string, l1: string, b: string, l2: string, c: string,
                    e: string, z: string)
    ensures h + ((l0 + a + e) + (l1 + b + e) + (l2 + c + e)) + z == h + l0 + a + e + l1 + b + e + l2 + c + e + z
  {
  }

  /** The tests that hide the login, logout and register tags whose flag
      is not "1". */
  function HideTests(logintag: string, logouttag: string, registertag: string): seq<FlagTest> {
    [FlagTest(0, false, Hide(logintag)), FlagTest(1, false, Hide(logouttag)), FlagTest(2, false, Hide(registertag))]
  }

  /** The tests that show the login, logout and register tags whose flag
      is "1". */
  function ShowTests(logintag: string, logouttag: string, registertag: string): seq<FlagTest> {
    [FlagTest(0, true, ShowInline(logintag)), FlagTest(1, true, ShowInline(logouttag)),
     FlagTest(2, true, ShowInline(registertag))]
  }

  /** `HideIfNotLoginLogoutRegister`: flag 0 keeps the login tag, flag 1 the
      logout tag and flag 2 the register tag; a tag whose flag is not "1"
      is hidden. */
  function HideIfNotLoginLogoutRegister(threeBooleanURL: string, logintag: string, logouttag: string,
                                        registertag: string): (code: string)
    ensures code == FlagCallback(threeBooleanURL, HideTests(logintag, logouttag, registertag))
  {
    var src := "$.get(" + Quote(threeBooleanURL) + ", function(data) {";
    var src := src + "if (data[0] != \"1\") {" + Hide(logintag) + "};";
    var src := src + "if (data[1] != \"1\") {" + Hide(logouttag) + "};";
    var src := src + "if (data[2] != \"1\") {" + Hide(registertag) + "};";
    FlagCallbackText(threeBooleanURL, false, Hide(logintag), Hide(logouttag), Hide(registertag));
    src + "});"
  }

  /** `ShowIfLoginLogoutRegister`: a tag whose flag (0 login, 1 logout,
      2 register) is "1" is shown inline. */
  function ShowIfLoginLogoutRegister(threeBooleanURL: string, logintag: string, logouttag: string,
                                     registertag: string): (code: string)
    ensures code == FlagCallback(threeBooleanURL, ShowTests(logintag, logouttag, registertag))
  {
    var src := "$.get(" + Quote(threeBooleanURL) + ", function(data) {";
    var src := src + "if (data[0] == \"1\") {" + ShowInline(logintag) + "};";
    var src := src + "if (data[1] == \"1\") {" + ShowInline(logouttag) + "};";
    var src := src + "if (data[2] == \"1\") {" + ShowInline(registertag) + "};";
    FlagCallbackText(threeBooleanURL, true, ShowInline(logintag), ShowInline(logouttag), ShowInline(registertag));
    src + "});"
  }

  /** Whether a test holds for the reply `data`: `data[i]` is "1" when
      position i holds the character '1'; past the end it is undefined,
      which is not "1". */
  predicate Holds(t: FlagTest, data: string) {
    (t.index < |data| && data[t.index] == '1') == t.wantOne
  }

  /** The actions the flag tests run, in order, for the reply `data`. */
  function Run(ts: seq<FlagTest>, data: string): seq<string> {
    if |ts| == 0 then []
    else (if Holds(ts[0], data) then [ts[0].action] else []) + Run(ts[1..], data)
  }

  /** Three tests run their actions in order. */
  lemma RunThree(ts: seq<FlagTest>, data: string)
    requires |ts| == 3
    ensures Run(ts, data) == (if Holds(ts[0], data) then [ts[0].action] else [])
                             + (if Holds(ts[1], data) then [ts[1].action] else [])
                             + (if Holds(ts[2], data) then [ts[2].action] else [])
  {
    var rest := ts[1..];
    var last := rest[1..];
    assert rest[0] == ts[1] && last[0] == ts[2] && last[1..] == [];
    assert Run(last, data) == (if Holds(ts[2], data) then [ts[2].action] else []) + Run([], data);
    assert Run(rest, data) == (if Holds(ts[1], data) then [ts[1].action] else []) + Run(last, data);
  }

  const SCRIPT_OPEN := "<script type=\"text/javascript\">"
  const SCRIPT_CLOSE := "</script>"

  /** `BodyJS`: a script element that runs `source` once the document is
      ready, or nothing when there is no source. */
  function BodyJS(source: string): (html: string)
    ensures html == "" <==> source == ""
    ensures source != "" ==> Between(html, SCRIPT_OPEN, SCRIPT_CLOSE) == Some(OnDocumentReady(source))
  {
    if source != "" then Wrap(SCRIPT_OPEN, OnDocumentReady(source), SCRIPT_CLOSE) else ""
  }
}
