/**
 * What the report screen does that can be observed from outside: the
 * operations it registers, preference writes, rebuilds, calls into the
 * converter, what it displays, the file I/O of an export and the errors it
 * raises. The screen's history is a sequence of these.
 */
module Effects {

  /** Which callback a registered report fetch feeds. */
  datatype Purpose = ForRender | ForExport

  datatype Effect =
    | FetchAdded(purpose: Purpose, id: int)   // `disposable.add(getReport(id)...subscribe(...))`
    | PickRequested(requestCode: int)         // `startActivityForResult(ACTION_OPEN_DOCUMENT_TREE, code)`
    | PrefSaved(view: string)                 // `putString(preferences_view_key, view).apply()`
    | Rebuilt                                 // `detach(this).attach(this).commit()`
    | TitleSet(title: string)                 // `activity?.title = filename`
    | Converted(view: string, forExport: bool) // `Core.convertReport(report, view, export)`
    | Displayed(content: string)              // `loadDataWithBaseURL(null, content, "text/html", "utf-8", null)`
    | FileCreated(mime: string, name: string) // `directory.createFile(mime, filename)`
    | StreamOpened                            // `openOutputStream(document.uri)` gave a stream
    | BytesWritten(text: string)              // `ostream.write(reportText.toByteArray())`
    | Flushed                                 // `ostream.flush()`
    | Closed                                  // `ostream.close()`
    | ErrorRaised                             // `onError()`

  /** How many times `e` occurs in `t`. */
  function Occurrences(t: seq<Effect>, e: Effect): nat {
    multiset(t)[e]
  }

  /** `t` holds no file output at all. */
  ghost predicate NoFileOutput(t: seq<Effect>) {
    forall k :: 0 <= k < |t| ==> !t[k].FileCreated? && !t[k].BytesWritten? && t[k] != Flushed && t[k] != Closed
  }

  /** `t` holds no call into the converter. */
  ghost predicate NoConversion(t: seq<Effect>) {
    forall k :: 0 <= k < |t| ==> !t[k].Converted?
  }
}
