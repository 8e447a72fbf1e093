/**
 * The view catalog (`Core.views`): a fixed, ordered list of renderings a
 * report can be shown in, and the three lookups the report screen makes in
 * it — `findLast` by description, `find` by name and `indexOf`.
 */
module Catalog {
  import opened Wrappers

  /** One rendering: its stable key, its menu label and the MIME type of an exported file. */
  datatype ReportView = ReportView(name: string, desc: string, mime: string)

  /** The rendering shown when no preference is stored; the only one not wrapped as text. */
  const HtmlView: string := "HTML"

  /** MIME type used for an export whose view is not in the catalog. */
  const FallbackMime: string := "text/plain"

  /** `i` is the index of the last entry whose description is `title`. */
  ghost predicate IsLastWithDesc(views: seq<ReportView>, title: string, i: int) {
    0 <= i < |views| && views[i].desc == title &&
    forall j :: i < j < |views| ==> views[j].desc != title
  }

  /** `i` is the index of the first entry whose name is `name`. */
  ghost predicate IsFirstWithName(views: seq<ReportView>, name: string, i: int) {
    0 <= i < |views| && views[i].name == name &&
    forall j :: 0 <= j < i ==> views[j].name != name
  }

  /** `findLast { it.desc == title }`, as an index: scans from the end of the catalog. */
  function LastWithDesc(views: seq<ReportView>, title: string): (r: Option<nat>)
    ensures r.Some? ==> IsLastWithDesc(views, title, r.value)
    ensures r.None? <==> forall j :: 0 <= j < |views| ==> views[j].desc != title
  {
    if |views| == 0 then None
    else if views[|views| - 1].desc == title then Some(|views| - 1)
    else LastWithDesc(views[..|views| - 1], title)
  }

  /** `find { it.name == name }`, as an index: scans from the front of the catalog. */
  function FirstWithName(views: seq<ReportView>, name: string): (r: Option<nat>)
    ensures r.Some? ==> IsFirstWithName(views, name, r.value)
    ensures r.None? <==> forall j :: 0 <= j < |views| ==> views[j].name != name
  {
    if |views| == 0 then None
    else if views[0].name == name then Some(0)
    else match FirstWithName(views[1..], name)
      case None => None
      case Some(k) => Some(k + 1)
  }

  /**
   * The view a click on the menu item titled `title` asks for:
   * `findLast { it.desc == title }?.name.orEmpty()`.
   */
  function RequestedName(views: seq<ReportView>, title: string): (r: string)
    ensures forall i :: IsLastWithDesc(views, title, i) ==> r == views[i].name
    ensures (forall j :: 0 <= j < |views| ==> views[j].desc != title) ==> r == ""
  {
    match LastWithDesc(views, title)
    case Some(i) => views[i].name
    case None => ""
  }

  /**
   * The MIME type of an export in view `view`:
   * `find { it.name == view }?.mime ?: "text/plain"`.
   */
  function MimeFor(views: seq<ReportView>, view: string): (r: string)
    ensures forall i :: IsFirstWithName(views, view, i) ==> r == views[i].mime
    ensures (forall j :: 0 <= j < |views| ==> views[j].name != view) ==> r == FallbackMime
  {
    match FirstWithName(views, view)
    case Some(i) => views[i].mime
    case None => FallbackMime
  }

  /** `indexOf(v)`: the first position holding `v`, or -1 when there is none. */
  function IndexOf(views: seq<ReportView>, v: ReportView): (r: int)
    ensures -1 <= r < |views|
    ensures r == -1 <==> v !in views
    ensures 0 <= r ==> views[r] == v && forall j :: 0 <= j < r ==> views[j] != v
  {
    if |views| == 0 then -1
    else if views[0] == v then 0
    else
      var k := IndexOf(views[1..], v);
      if k == -1 then -1 else k + 1
  }

  /** No two entries share a description. */
  ghost predicate DistinctDescs(views: seq<ReportView>) {
    forall i, j :: 0 <= i < j < |views| ==> views[i].desc != views[j].desc
  }

  /** No two entries share a name. */
  ghost predicate DistinctNames(views: seq<ReportView>) {
    forall i, j :: 0 <= i < j < |views| ==> views[i].name != views[j].name
  }

  /** No entry occurs twice. */
  ghost predicate DistinctEntries(views: seq<ReportView>) {
    forall i, j :: 0 <= i < j < |views| ==> views[i] != views[j]
  }

  /** `name` is the key of some catalog entry. */
  ghost predicate IsViewName(views: seq<ReportView>, name: string) {
    exists i :: 0 <= i < |views| && views[i].name == name
  }

  /** With distinct descriptions, the item labelled `views[i].desc` asks for `views[i].name`. */
  lemma RequestedNameOfEntry(views: seq<ReportView>, i: int)
    requires DistinctDescs(views) && 0 <= i < |views|
    ensures RequestedName(views, views[i].desc) == views[i].name
  {
    assert IsLastWithDesc(views, views[i].desc, i);
  }

  /** With distinct names, an export in view `views[i].name` carries `views[i].mime`. */
  lemma MimeOfEntry(views: seq<ReportView>, i: int)
    requires DistinctNames(views) && 0 <= i < |views|
    ensures MimeFor(views, views[i].name) == views[i].mime
  {
    assert IsFirstWithName(views, views[i].name, i);
  }

  /** With distinct entries, `indexOf` of the entry at position `i` is `i`. */
  lemma IndexOfEntry(views: seq<ReportView>, i: int)
    requires DistinctEntries(views) && 0 <= i < |views|
    ensures IndexOf(views, views[i]) == i
  {
    assert views[i] in views;
  }

  /** The requested name is always empty or the key of a catalog entry. */
  lemma RequestedNameInCatalog(views: seq<ReportView>, title: string)
    ensures RequestedName(views, title) == "" || IsViewName(views, RequestedName(views, title))
  {
    match LastWithDesc(views, title)
    case Some(i) =>
    case None =>
  }
}
