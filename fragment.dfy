/**
 * The report screen itself (`ReportDetailFragment`): its fields and the
 * lifecycle and menu callbacks that change them. Everything observable it
 * does is appended to `trace`; each callback is proved to append exactly the
 * effects the pure functions of Render, ViewMenu and Export describe.
 */
module ReportDetail {
  import opened Wrappers
  import opened Catalog
  import opened ViewMenu
  import opened Effects
  import opened Render
  import opened Export

  /** Argument key of the report id (`ARG_REPORT_ID`). */
  const ArgReportId: string := "id"

  /** Argument value meaning "no report". */
  const NoReport: int := -1

  /** The fragment's arguments, reduced to their integer entries. */
  type Bundle = map<string, int>

  /** The report id the arguments carry: none when they are absent, lack the key or hold -1. */
  function ArgumentId(arguments: Option<Bundle>): (r: Option<int>)
    ensures r.Some? <==> arguments.Some? && ArgReportId in arguments.value && arguments.value[ArgReportId] != NoReport
    ensures r.Some? ==> r.value == arguments.value[ArgReportId] && r.value != NoReport
  {
    match arguments
    case None => None
    case Some(bundle) =>
      if ArgReportId in bundle && bundle[ArgReportId] != NoReport then Some(bundle[ArgReportId]) else None
  }

  /** A fetch registered with the screen's `CompositeDisposable`, and the callback it feeds. */
  datatype Pending = RenderFetch(id: int) | ExportFetch(id: int)

  class ReportDetailFragment {
    /** `Core.views`. */
    const views: seq<ReportView>
    /** `Core.convertReport`. */
    const convert: Converter
    /** `Html.escapeHtml`. */
    const escape: string -> string

    /** The current view. */
    var view: string
    /** The report shown, if any. */
    var id: Option<int>
    /** Whether `sharedPreferences` is bound (it is taken from the host activity at attach). */
    var prefsBound: bool
    /** What the preference store holds under the view key. */
    var storedView: Option<string>
    /** The fetches whose callbacks can still be delivered. */
    var pending: seq<Pending>
    /** Everything the screen has done, in order. */
    var trace: seq<Effect>

    constructor (views: seq<ReportView>, convert: Converter, escape: string -> string, storedView: Option<string>)
      ensures this.views == views && this.convert == convert && this.escape == escape
      ensures this.storedView == storedView
      ensures view == HtmlView && id == None && !prefsBound && pending == [] && trace == []
    {
      this.views := views;
      this.convert := convert;
      this.escape := escape;
      this.storedView := storedView;
      view := HtmlView;
      id := None;
      prefsBound := false;
      pending := [];
      trace := [];
    }

    /** `onCreate`: take the report id from the arguments; otherwise keep what was there. */
    method OnCreate(arguments: Option<Bundle>)
      modifies this`id
      ensures id == if ArgumentId(arguments).Some? then ArgumentId(arguments) else old(id)
    {
      if arguments.Some? {
        var bundle := arguments.value;
        if ArgReportId in bundle {
          var newId := bundle[ArgReportId];
          if newId != NoReport {
            id := Some(newId);
          }
        }
      }
    }

    /**
     * `onAttach`: bind the preferences through the host activity and, when
     * bound, adopt the stored view or "HTML"; the stored name is not checked
     * against the catalog.
     */
    method OnAttach(hasActivity: bool)
      modifies this`prefsBound, this`view
      ensures prefsBound == hasActivity
      ensures view == if hasActivity then storedView.GetOr(HtmlView) else old(view)
    {
      prefsBound := hasActivity;
      if prefsBound {
        view := storedView.GetOr(HtmlView);
      }
    }

    /** `onStop`: `disposable.clear()`; no pending callback is delivered afterwards. */
    method OnStop()
      modifies this`pending
      ensures pending == []
    {
      pending := [];
    }

    /** `onCreateView`: register one render fetch when there is a report, none otherwise. */
    method OnCreateView()
      modifies this`pending, this`trace
      ensures id.Some? ==> pending == old(pending) + [RenderFetch(id.value)]
                           && trace == old(trace) + [FetchAdded(ForRender, id.value)]
      ensures id.None? ==> pending == old(pending) && trace == old(trace)
    {
      if id.Some? {
        pending := pending + [RenderFetch(id.value)];
        trace := trace + [FetchAdded(ForRender, id.value)];
      }
    }

    /**
     * The render fetch `pending[k]` delivers the report `filename` with bytes
     * `raw`: show it in the view current NOW. Nothing happens for a fetch that
     * was cleared or that feeds the export.
     */
    method OnRenderDelivered(k: nat, filename: string, raw: Bytes, hasActivity: bool)
      modifies this`trace
      ensures trace == old(trace) +
        if k < |pending| && pending[k].RenderFetch?
        then RenderEffects(view, filename, raw, convert, escape, hasActivity)
        else []
    {
      if k < |pending| && pending[k].RenderFetch? {
        if hasActivity {
          trace := trace + [TitleSet(filename)];
        }
        var report := convert(raw, view, false);
        trace := trace + [Converted(view, false)];
        var content := "";
        if view != HtmlView {
          content := content + PreOpen;
          content := content + escape(ExpandTabs(report));
          content := content + PreClose;
          assert content == Wrap(escape(ExpandTabs(report)));
        } else {
          content := content + report;
          assert content == report;
        }
        assert content == Content(view, report, escape);
        trace := trace + [Displayed(content)];
      }
    }

    /** The "change view" submenu built by `onCreateOptionsMenu`, one item per catalog entry. */
    method OnCreateOptionsMenu() returns (menu: seq<MenuEntry>)
      ensures menu == Menu(views, view)
    {
      menu := [];
      for i := 0 to |views|
        invariant |menu| == i
        invariant forall k :: 0 <= k < i ==> menu[k] == Entry(views, k, view)
      {
        var current := views[i];
        var index := IndexOf(views, current);
        menu := menu + [MenuEntry(current.desc, index, current.name == view)];
      }
    }

    /** The export item: ask the host for a directory; the click is consumed. */
    method OnExportClicked() returns (consumed: bool)
      modifies this`trace
      ensures consumed && trace == old(trace) + [PickRequested(SaveFileRequestCode)]
    {
      trace := trace + [PickRequested(SaveFileRequestCode)];
      consumed := true;
    }

    /**
     * A view item titled `title` is clicked: on a change of view, store it
     * (when the preferences are bound) and rebuild the screen (when there is
     * a fragment manager). The click is always consumed.
     */
    method OnViewItemClicked(title: string, hasFragmentManager: bool) returns (consumed: bool)
      modifies this`view, this`storedView, this`trace
      ensures consumed
      ensures var s := Select(views, old(view), title);
        view == s.next &&
        storedView == (if s.changed && prefsBound then Some(s.next) else old(storedView)) &&
        trace == old(trace) + (if s.changed && prefsBound then [PrefSaved(s.next)] else [])
                            + (if s.changed && hasFragmentManager then [Rebuilt] else [])
    {
      var requested := RequestedName(views, title);
      if requested != "" && requested != view {
        view := requested;
        if prefsBound {
          storedView := Some(view);
          trace := trace + [PrefSaved(view)];
        }
        if hasFragmentManager {
          trace := trace + [Rebuilt];
        }
      }
      consumed := true;
    }

    /** `onError`: raise the error signal. */
    method OnError()
      modifies this`trace
      ensures trace == old(trace) + [ErrorRaised]
    {
      trace := trace + [ErrorRaised];
    }

    /** `onActivityResult`: the directory pick came back; register the export fetch if all is in order. */
    method OnActivityResult(requestCode: int, resultCode: int, hasData: bool)
      modifies this`pending, this`trace
      ensures trace == old(trace) + ActivityResultEffects(requestCode, resultCode, hasData, id)
      ensures pending == old(pending) +
        if resultCode == ResultOk && requestCode == SaveFileRequestCode && hasData && id.Some?
        then [ExportFetch(id.value)] else []
    {
      if resultCode == ResultOk {
        if requestCode == SaveFileRequestCode {
          if !hasData {
            OnError();
            return;
          }
          if id.None? {
            OnError();
            return;
          }
          pending := pending + [ExportFetch(id.value)];
          trace := trace + [FetchAdded(ForExport, id.value)];
        }
      }
    }

    /**
     * The export fetch `pending[k]` delivers the report `filename` with bytes
     * `raw`; `canWrite` is the picked directory's permission and `fault` how
     * creating and writing the file goes.
     */
    method OnExportDelivered(k: nat, filename: string, raw: Bytes, canWrite: bool, fault: SinkFault)
      modifies this`trace
      ensures trace == old(trace) +
        if k < |pending| && pending[k].ExportFetch?
        then ExportEffects(views, view, filename, raw, convert, canWrite, fault)
        else []
    {
      if k < |pending| && pending[k].ExportFetch? {
        if |raw| == 0 {
          OnError();
        } else if !canWrite {
          OnError();
        } else {
          var reportText := convert(raw, view, true);
          trace := trace + [Converted(view, true)];
          var name := ExportFilename(filename, view);
          var mime := MimeFor(views, view);
          WriteFile(mime, name, reportText, fault);
        }
      }
    }

    /** The `try` block of the export callback: create, open, write, flush, close; one error at the first failure. */
    method WriteFile(mime: string, name: string, text: string, fault: SinkFault)
      modifies this`trace
      ensures trace == old(trace) + SinkEffects(mime, name, text, fault)
    {
      if fault == CreateFails {
        OnError();
        return;
      }
      trace := trace + [FileCreated(mime, name)];
      if fault == NullStream || fault == OpenThrows {
        OnError();
        return;
      }
      trace := trace + [StreamOpened];
      if fault == WriteThrows {
        OnError();
        return;
      }
      trace := trace + [BytesWritten(text)];
      if fault == FlushThrows {
        OnError();
        return;
      }
      trace := trace + [Flushed];
      if fault == CloseThrows {
        OnError();
        return;
      }
      trace := trace + [Closed];
    }
  }
}
