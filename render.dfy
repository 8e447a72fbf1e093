/**
 * The render path: what the fetch callback of `onCreateView` does with a
 * report — set the title, convert the report into the current view and load
 * the document into the web view. Views other than HTML are shown as
 * preformatted text: tabs expanded to four spaces, HTML-escaped, and wrapped.
 */
module Render {
  import opened Wrappers
  import opened Catalog
  import opened Effects

  /** Opening and closing of the minimal document wrapped around a text view. */
  const PreOpen: string := "<html><body><pre>"
  const PreClose: string := "</pre></body></html>"

  /** Spaces that replace one horizontal tab. */
  const TabSpaces: string := "    "

  /** Number of horizontal tabs in `s`. */
  function TabCount(s: string): nat {
    if s == [] then 0 else (if s[0] == '\t' then 1 else 0) + TabCount(s[1..])
  }

  /** `s.replace("\t", "    ")`: every tab becomes four spaces, everything else is kept. */
  function ExpandTabs(s: string): (r: string)
    ensures forall k :: 0 <= k < |r| ==> r[k] != '\t'
    ensures |r| == |s| + 3 * TabCount(s)
  {
    if s == [] then []
    else (if s[0] == '\t' then TabSpaces else [s[0]]) + ExpandTabs(s[1..])
  }

  /** A tab becomes four spaces; any other character is kept as it is. */
  lemma ExpandTabsChar(c: char)
    ensures ExpandTabs([c]) == if c == '\t' then TabSpaces else [c]
  {
    assert [c][1..] == [];
  }

  /** Expansion works piece by piece. */
  lemma {:induction false} ExpandTabsAppend(a: string, b: string)
    ensures ExpandTabs(a + b) == ExpandTabs(a) + ExpandTabs(b)
  {
    if a == [] {
      assert a + b == b;
    } else {
      assert (a + b)[1..] == a[1..] + b;
      ExpandTabsAppend(a[1..], b);
    }
  }

  /** A text without tabs is left exactly as it is. */
  lemma {:induction false} ExpandTabsFreeIsIdentity(s: string)
    requires forall k :: 0 <= k < |s| ==> s[k] != '\t'
    ensures ExpandTabs(s) == s
  {
    if s != [] {
      ExpandTabsFreeIsIdentity(s[1..]);
    }
  }

  /** Expanding twice is expanding once. */
  lemma ExpandTabsIdempotent(s: string)
    ensures ExpandTabs(ExpandTabs(s)) == ExpandTabs(s)
  {
    ExpandTabsFreeIsIdentity(ExpandTabs(s));
  }

  /** `body` embedded in the minimal preformatted document. */
  function Wrap(body: string): string {
    PreOpen + body + PreClose
  }

  /** The body of a wrapped document, or nothing when `doc` is not one. */
  function Unwrap(doc: string): Option<string> {
    if |doc| >= |PreOpen| + |PreClose| && doc[..|PreOpen|] == PreOpen && doc[|doc| - |PreClose|..] == PreClose
    then Some(doc[|PreOpen|..|doc| - |PreClose|])
    else None
  }

  lemma UnwrapWrap(body: string)
    ensures Unwrap(Wrap(body)) == Some(body)
  {
    var doc := Wrap(body);
    assert doc[..|PreOpen|] == PreOpen;
    assert doc[|doc| - |PreClose|..] == PreClose;
    assert doc[|PreOpen|..|doc| - |PreClose|] == body;
  }

  /**
   * The document loaded for `report`, the converter's text in `view`: HTML is
   * used unchanged, every other view is tab-expanded, then escaped (so the
   * escaper never sees a tab, see ExpandTabs), then wrapped.
   */
  function Content(view: string, report: string, escape: string -> string): (r: string)
    ensures view == HtmlView ==> r == report
    ensures view != HtmlView ==> Unwrap(r) == Some(escape(ExpandTabs(report)))
  {
    if view != HtmlView then
      UnwrapWrap(escape(ExpandTabs(report)));
      Wrap(escape(ExpandTabs(report)))
    else
      report
  }

  /** Raw report bytes, converter and escaper: the foreign pieces of the render path. */
  type Bytes = seq<bv8>
  type Converter = (Bytes, string, bool) -> string

  /**
   * What the render callback does with a fetched report while `view` is
   * current: set the host title (when there is a host activity), convert in
   * display mode and load the content.
   */
  function RenderEffects(view: string, filename: string, raw: Bytes, convert: Converter,
                         escape: string -> string, hasActivity: bool): seq<Effect>
  {
    (if hasActivity then [TitleSet(filename)] else []) +
    [Converted(view, false), Displayed(Content(view, convert(raw, view, false), escape))]
  }

  /** The render path never raises an error, never exports and converts once in display mode. */
  lemma RenderIsQuiet(view: string, filename: string, raw: Bytes, convert: Converter,
                      escape: string -> string, hasActivity: bool)
    ensures var t := RenderEffects(view, filename, raw, convert, escape, hasActivity);
      ErrorRaised !in t && NoFileOutput(t) &&
      Occurrences(t, Converted(view, false)) == 1 && Occurrences(t, Converted(view, true)) == 0
  {
  }
}
