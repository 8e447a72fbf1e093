/**
 * Client code driving the screen through whole interactions, the way the host
 * calls it. The catalog here is illustrative: three views with distinct names
 * and labels.
 */
module Scenarios {
  import opened Wrappers
  import opened Catalog
  import opened ViewMenu
  import opened Effects
  import opened Render
  import opened Export
  import opened ReportDetail

  function SampleViews(): seq<ReportView> {
    [ReportView("HTML", "HTML", "text/html"), ReportView("Text", "Text", "text/plain"),
     ReportView("XML", "XML", "text/xml")]
  }

  /** Report 7 with no stored view: "HTML" is used and the converted text is shown verbatim. */
  method DefaultViewShowsConvertedHtml(raw: Bytes, convert: Converter, escape: string -> string) {
    var f := new ReportDetailFragment(SampleViews(), convert, escape, None);
    f.OnCreate(Some(map[ArgReportId := 7]));
    f.OnAttach(true);
    assert f.view == HtmlView;
    f.OnCreateView();
    assert f.pending == [RenderFetch(7)];
    f.OnRenderDelivered(0, "clip", raw, true);
    assert f.trace == [FetchAdded(ForRender, 7), TitleSet("clip"), Converted(HtmlView, false),
                       Displayed(convert(raw, HtmlView, false))];
  }

  /** An id of -1 means no report: no fetch is registered and nothing is shown. */
  method NoReportNoFetch(convert: Converter, escape: string -> string) {
    var f := new ReportDetailFragment(SampleViews(), convert, escape, None);
    f.OnCreate(Some(map[ArgReportId := NoReport]));
    f.OnAttach(true);
    f.OnCreateView();
    assert f.pending == [] && f.trace == [];
    f.OnRenderDelivered(0, "clip", [1], true);
    assert f.trace == [];
  }

  /** Torn down while the fetch is pending: the late result is dropped and no error is raised. */
  method StoppedScreenDropsLateResult(convert: Converter, escape: string -> string) {
    var f := new ReportDetailFragment(SampleViews(), convert, escape, Some("Text"));
    f.OnCreate(Some(map[ArgReportId := 7]));
    f.OnAttach(true);
    f.OnCreateView();
    f.OnStop();
    f.OnRenderDelivered(0, "clip", [1], true);
    assert f.trace == [FetchAdded(ForRender, 7)];
  }

  /**
   * Picking "XML" while "Text" is shown stores it and rebuilds once; the
   * rebuilt screen fetches again, checks the XML item, and picking it again
   * does nothing.
   */
  method SwitchViewThenRepeat(convert: Converter, escape: string -> string) {
    var f := new ReportDetailFragment(SampleViews(), convert, escape, Some("Text"));
    f.OnCreate(Some(map[ArgReportId := 7]));
    f.OnAttach(true);
    f.OnCreateView();
    assert RequestedName(SampleViews(), "XML") == "XML" by {
      assert IsLastWithDesc(SampleViews(), "XML", 2);
    }
    var consumed := f.OnViewItemClicked("XML", true);
    assert f.view == "XML" && f.storedView == Some("XML");
    assert f.trace == [FetchAdded(ForRender, 7), PrefSaved("XML"), Rebuilt];
    f.OnStop();
    f.OnCreateView();
    assert f.trace == [FetchAdded(ForRender, 7), PrefSaved("XML"), Rebuilt, FetchAdded(ForRender, 7)];
    var menu := f.OnCreateOptionsMenu();
    assert menu[2].checked && !menu[0].checked && !menu[1].checked;
    consumed := f.OnViewItemClicked("XML", true);
    assert f.trace == [FetchAdded(ForRender, 7), PrefSaved("XML"), Rebuilt, FetchAdded(ForRender, 7)];
  }

  /** A successful export of "clip" in view "XML" writes "clip.XML" typed text/xml, and raises no error. */
  method ExportClip(raw: Bytes, convert: Converter, escape: string -> string)
    requires |raw| > 0
  {
    var f := new ReportDetailFragment(SampleViews(), convert, escape, Some("XML"));
    f.OnCreate(Some(map[ArgReportId := 7]));
    f.OnAttach(true);
    var consumed := f.OnExportClicked();
    f.OnActivityResult(SaveFileRequestCode, ResultOk, true);
    assert f.pending == [ExportFetch(7)];
    ghost var before := f.trace;
    f.OnExportDelivered(0, "clip", raw, true, NoFault);
    ghost var t := ExportEffects(SampleViews(), "XML", "clip", raw, convert, true, NoFault);
    assert f.trace == before + t;
    assert IsFirstWithName(SampleViews(), "XML", 2);
    ExportClipAsXml(SampleViews(), 2, raw, convert);
    assert Occurrences(t, FileCreated("text/xml", "clip.XML")) == 1 && Occurrences(t, ErrorRaised) == 0;
  }

  /** A cancelled pick is ignored silently; a pick without a report raises one error. */
  method ExportGuards(convert: Converter, escape: string -> string) {
    var f := new ReportDetailFragment(SampleViews(), convert, escape, None);
    f.OnActivityResult(SaveFileRequestCode, 0, false);
    assert f.trace == [] && f.pending == [];
    f.OnActivityResult(SaveFileRequestCode, ResultOk, true);
    assert f.trace == [ErrorRaised] && f.pending == [];
  }
}
