/**
 * The export workflow as the screen runs it: `onActivityResult` checks the
 * directory-pick result and registers a fetch; the fetch callback checks the
 * report and the directory, converts in export mode and writes one file.
 * Every failure raises exactly one error; nothing is retried.
 */
module Export {
  import opened Wrappers
  import opened Catalog
  import opened Effects
  import opened Render

  /** `Activity.RESULT_OK`. */
  const ResultOk: int := -1

  /** Request code of the directory pick (`SAVE_FILE_REQUEST_CODE`). */
  const SaveFileRequestCode: int := 1

  /** Name of the exported file: `String.format("%s.%s", filename, view)`. */
  function ExportFilename(filename: string, view: string): (r: string)
    ensures |r| == |filename| + 1 + |view|
    ensures r[..|filename|] == filename && r[|filename|] == '.' && r[|filename| + 1..] == view
  {
    filename + "." + view
  }

  /** The report file name of an export named `name` in `view`, if `name` is one. */
  function StripViewSuffix(name: string, view: string): Option<string> {
    if |name| > |view| && name[|name| - |view| - 1] == '.' && name[|name| - |view|..] == view
    then Some(name[..|name| - |view| - 1])
    else None
  }

  /** Every export name gives back its report's file name, and only export names do. */
  lemma StripViewSuffixInverts(filename: string, view: string, name: string)
    ensures StripViewSuffix(ExportFilename(filename, view), view) == Some(filename)
    ensures StripViewSuffix(name, view) == Some(filename) ==> ExportFilename(filename, view) == name
  {
    var n := ExportFilename(filename, view);
    assert n[..|n| - |view| - 1] == filename;
    if StripViewSuffix(name, view) == Some(filename) {
      assert name == name[..|name| - |view| - 1] + "." + name[|name| - |view|..];
    }
  }

  /**
   * `onActivityResult`: a result other than OK or for another request is
   * ignored; a missing result or a missing report id raises an error;
   * otherwise the export fetch is registered.
   */
  function ActivityResultEffects(requestCode: int, resultCode: int, hasData: bool, id: Option<int>): seq<Effect> {
    if resultCode != ResultOk || requestCode != SaveFileRequestCode then []
    else if !hasData then [ErrorRaised]
    else if id.None? then [ErrorRaised]
    else [FetchAdded(ForExport, id.value)]
  }

  lemma ActivityResultOutcomes(requestCode: int, resultCode: int, hasData: bool, id: Option<int>)
    ensures var t := ActivityResultEffects(requestCode, resultCode, hasData, id);
      (resultCode != ResultOk || requestCode != SaveFileRequestCode ==> t == []) &&
      (resultCode == ResultOk && requestCode == SaveFileRequestCode ==>
        |t| == 1 &&
        (t[0] == ErrorRaised <==> !hasData || id.None?) &&
        (t[0].FetchAdded? <==> hasData && id.Some?) &&
        (t[0].FetchAdded? ==> t[0] == FetchAdded(ForExport, id.value)))
  {
  }

  /**
   * The ways creating and writing the file can go, in the order the calls are
   * made: `createFile` throws (or gives no file), the stream is null, opening
   * it throws, writing throws, flushing throws, closing throws, or none.
   */
  datatype SinkFault = NoFault | CreateFails | NullStream | OpenThrows | WriteThrows | FlushThrows | CloseThrows

  /** The `try` block: create the file, open a stream, write, flush, close; `onError` at the first failure. */
  function SinkEffects(mime: string, name: string, text: string, fault: SinkFault): seq<Effect> {
    match fault
    case CreateFails => [ErrorRaised]
    case NullStream => [FileCreated(mime, name), ErrorRaised]
    case OpenThrows => [FileCreated(mime, name), ErrorRaised]
    case WriteThrows => [FileCreated(mime, name), StreamOpened, ErrorRaised]
    case FlushThrows => [FileCreated(mime, name), StreamOpened, BytesWritten(text), ErrorRaised]
    case CloseThrows => [FileCreated(mime, name), StreamOpened, BytesWritten(text), Flushed, ErrorRaised]
    case NoFault => [FileCreated(mime, name), StreamOpened, BytesWritten(text), Flushed, Closed]
  }

  /**
   * The export fetch callback for a report `filename` with bytes `raw`, while
   * `view` is current: an empty report or an unwritable directory raises an
   * error; otherwise the report is converted in export mode and written.
   */
  function ExportEffects(views: seq<ReportView>, view: string, filename: string, raw: Bytes,
                         convert: Converter, canWrite: bool, fault: SinkFault): seq<Effect>
  {
    if |raw| == 0 then [ErrorRaised]
    else if !canWrite then [ErrorRaised]
    else
      [Converted(view, true)] +
      SinkEffects(MimeFor(views, view), ExportFilename(filename, view), convert(raw, view, true), fault)
  }

  /** Everything a successful export does, in order. */
  function SuccessEffects(views: seq<ReportView>, view: string, filename: string, text: string): (t: seq<Effect>)
    ensures |t| == 6
  {
    [Converted(view, true), FileCreated(MimeFor(views, view), ExportFilename(filename, view)),
     StreamOpened, BytesWritten(text), Flushed, Closed]
  }

  /** The export goes through without any failure. */
  predicate Succeeds(raw: Bytes, canWrite: bool, fault: SinkFault) {
    |raw| > 0 && canWrite && fault == NoFault
  }

  /** How many steps of a successful export happen before the first failure. */
  function Progress(raw: Bytes, canWrite: bool, fault: SinkFault): (n: nat)
    ensures n <= 6 && (n == 6 <==> Succeeds(raw, canWrite, fault))
  {
    if |raw| == 0 || !canWrite then 0
    else match fault
      case CreateFails => 1
      case NullStream => 2
      case OpenThrows => 2
      case WriteThrows => 3
      case FlushThrows => 4
      case CloseThrows => 5
      case NoFault => 6
  }

  /**
   * Every export does a prefix of the successful export, in the same order,
   * followed by exactly one error when it stops short: in particular the
   * bytes are written before the flush and the flush comes before the close.
   */
  lemma ExportIsPrefixOfSuccess(views: seq<ReportView>, view: string, filename: string, raw: Bytes,
                                convert: Converter, canWrite: bool, fault: SinkFault)
    ensures var n := Progress(raw, canWrite, fault);
      ExportEffects(views, view, filename, raw, convert, canWrite, fault) ==
        SuccessEffects(views, view, filename, convert(raw, view, true))[..n] +
        (if n < 6 then [ErrorRaised] else [])
  {
    var s := SuccessEffects(views, view, filename, convert(raw, view, true));
    var n := Progress(raw, canWrite, fault);
    var t := ExportEffects(views, view, filename, raw, convert, canWrite, fault);
    if n == 0 {
      assert s[..0] == [];
    } else {
      var sink := SinkEffects(MimeFor(views, view), ExportFilename(filename, view), convert(raw, view, true), fault);
      assert t == [s[0]] + sink;
      assert s[..n] == [s[0]] + s[1..n];
      match fault
      case CreateFails =>
      case NullStream => assert s[1..n] == [s[1]];
      case OpenThrows => assert s[1..n] == [s[1]];
      case WriteThrows => assert s[1..n] == [s[1], s[2]];
      case FlushThrows => assert s[1..n] == [s[1], s[2], s[3]];
      case CloseThrows => assert s[1..n] == [s[1], s[2], s[3], s[4]];
      case NoFault => assert s[1..n] == [s[1], s[2], s[3], s[4], s[5]];
    }
  }

  /** An export raises an error exactly when it does not succeed, and then exactly one. */
  lemma ExportErrorCount(views: seq<ReportView>, view: string, filename: string, raw: Bytes,
                         convert: Converter, canWrite: bool, fault: SinkFault)
    ensures var t := ExportEffects(views, view, filename, raw, convert, canWrite, fault);
      Occurrences(t, ErrorRaised) == (if Succeeds(raw, canWrite, fault) then 0 else 1) &&
      (Closed in t <==> Succeeds(raw, canWrite, fault))
  {
    var s := SuccessEffects(views, view, filename, convert(raw, view, true));
    var n := Progress(raw, canWrite, fault);
    ExportIsPrefixOfSuccess(views, view, filename, raw, convert, canWrite, fault);
    SuccessStepsFacts(s, n);
  }

  /** No step of a successful export raises an error, and only its last one closes. */
  lemma SuccessStepsFacts(s: seq<Effect>, n: nat)
    requires |s| == 6 && n <= 6 && s[5] == Closed
    requires forall k :: 0 <= k < 5 ==> s[k] != Closed
    requires forall k :: 0 <= k < 6 ==> s[k] != ErrorRaised
    ensures var t := s[..n] + (if n < 6 then [ErrorRaised] else []);
      multiset(t)[ErrorRaised] == (if n < 6 then 1 else 0) && (Closed in t <==> n == 6)
  {
    var done := s[..n];
    assert ErrorRaised !in done;
    assert n == 6 ==> done[5] == Closed;
    if n < 6 {
      assert multiset(done + [ErrorRaised]) == multiset(done) + multiset{ErrorRaised};
    }
  }

  /**
   * The converter runs in export mode exactly when the report is non-empty and
   * the directory writable; an empty report fails the same way whether or not
   * the directory is writable, with no conversion and no file output.
   */
  lemma ExportConvertsOnlyAfterChecks(views: seq<ReportView>, view: string, filename: string, raw: Bytes,
                                      convert: Converter, canWrite: bool, fault: SinkFault)
    ensures var t := ExportEffects(views, view, filename, raw, convert, canWrite, fault);
      (Converted(view, true) in t <==> |raw| > 0 && canWrite) &&
      (|raw| == 0 || !canWrite ==> t == [ErrorRaised] && NoConversion(t) && NoFileOutput(t))
  {
    var t := ExportEffects(views, view, filename, raw, convert, canWrite, fault);
    if |raw| > 0 && canWrite {
      assert t[0] == Converted(view, true);
    }
  }

  /**
   * A successful export converts once in export mode and writes one file named
   * `filename.view`, typed with the first catalog entry's MIME type for `view`
   * (text/plain when there is none), holding the converted text.
   */
  lemma ExportSuccess(views: seq<ReportView>, view: string, filename: string, raw: Bytes,
                      convert: Converter, fault: SinkFault)
    requires Succeeds(raw, true, fault)
    ensures var t := ExportEffects(views, view, filename, raw, convert, true, fault);
      t == SuccessEffects(views, view, filename, convert(raw, view, true)) &&
      ErrorRaised !in t &&
      t[1] == FileCreated(MimeFor(views, view), filename + "." + view) &&
      t[3] == BytesWritten(convert(raw, view, true))
  {
  }

  /** A report "clip" exported in view "XML", whose first catalog entry has type text/xml. */
  lemma ExportClipAsXml(views: seq<ReportView>, i: nat, raw: Bytes, convert: Converter)
    requires IsFirstWithName(views, "XML", i) && views[i].mime == "text/xml"
    requires |raw| > 0
    ensures var t := ExportEffects(views, "XML", "clip", raw, convert, true, NoFault);
      Occurrences(t, FileCreated("text/xml", "clip.XML")) == 1 &&
      BytesWritten(convert(raw, "XML", true)) in t &&
      Occurrences(t, ErrorRaised) == 0
  {
    ExportErrorCount(views, "XML", "clip", raw, convert, true, NoFault);
    assert ExportFilename("clip", "XML") == "clip.XML";
  }
}
