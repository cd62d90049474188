/** The drawing-collection store (App.tsx): the list of page records, the
    selected id, the clicked defect, the language and the "processing all"
    flag, with the handlers that change them: upload, scan, scan all, export
    and delete. The detector answers through a function handed to each scan,
    the rasteriser's page images and the object URLs are part of each chosen
    file, and the loaded image of an export is known by its pixel size. */
module App {
  import opened JsRuntime
  import opened Types
  import opened GeminiService
  import PdfUtils

  // ---- building records from uploaded files --------------------------------

  /** One chosen file as the upload handler meets it: the file, the random
      base id drawn for it, the page images `convertPdfToImages` produced (None
      when it threw; only read for a PDF) and the object URL made for it (only
      read for an image). */
  datatype Pick = Pick(file: UploadedFile, baseId: string, pages: Option<seq<string>>, objectUrl: string)

  const PdfType: string := "application/pdf"

  /** The record of page `k` of a PDF whose pages rendered as `images`. */
  function PageRecord(file: UploadedFile, baseId: string, images: seq<string>, k: nat): DrawingFile
    requires k < |images|
  {
    DrawingFile(baseId + "_" + NatText(k), file.name + " - Page " + NatText(k + 1), Pdf, images[k],
                Some(file), Pending, [], Some(k), Some(|images|))
  }

  /** The records of all pages of a PDF, in page order. */
  function PageRecords(file: UploadedFile, baseId: string, images: seq<string>): seq<DrawingFile> {
    seq(|images|, k requires 0 <= k < |images| => PageRecord(file, baseId, images, k))
  }

  /** The record of an image file: the base id itself, no page fields. */
  function ImageRecord(p: Pick): DrawingFile {
    DrawingFile(p.baseId, p.file.name, Image, p.objectUrl, Some(p.file), Pending, [], None, None)
  }

  /** What one file contributes: its pages for a PDF that rendered, nothing
      for a PDF that failed, one record for an `image/` type, and nothing for
      any other type. */
  function FileRecords(p: Pick): seq<DrawingFile> {
    if p.file.mediaType == PdfType then
      if p.pages.Some? then PageRecords(p.file, p.baseId, p.pages.value) else []
    else if StartsWith(p.file.mediaType, "image/") then [ImageRecord(p)]
    else []
  }

  /** `newDrawings`: every file's records, in file order. */
  function NewRecords(picks: seq<Pick>): seq<DrawingFile> {
    if picks == [] then [] else NewRecords(picks[..|picks| - 1]) + FileRecords(picks[|picks| - 1])
  }

  /** A PDF with n rendered pages gives n records in page order; record k is
      page k + 1 of n, named after the file, with id `baseId_k`, pending and
      without defects. */
  lemma PdfPages(p: Pick, k: nat)
    requires p.file.mediaType == PdfType && p.pages.Some? && k < |p.pages.value|
    ensures |FileRecords(p)| == |p.pages.value|
    ensures var d := FileRecords(p)[k];
            && d.id == p.baseId + "_" + NatText(k)
            && d.name == p.file.name + " - Page " + NatText(k + 1)
            && d.fileType == Pdf && d.imageUrl == p.pages.value[k] && d.originalFile == Some(p.file)
            && d.status == Pending && d.errors == []
            && d.pageIndex == Some(k) && d.totalPages == Some(|p.pages.value|)
  {
  }

  /** The pages of one PDF get pairwise different ids. */
  lemma PdfIdsDistinct(p: Pick, j: nat, k: nat)
    requires p.file.mediaType == PdfType && p.pages.Some?
    requires j < |p.pages.value| && k < |p.pages.value| && j != k
    ensures FileRecords(p)[j].id != FileRecords(p)[k].id
  {
    var prefix := p.baseId + "_";
    var a := FileRecords(p)[j].id;
    var b := FileRecords(p)[k].id;
    assert a[|prefix|..] == NatText(j);
    assert b[|prefix|..] == NatText(k);
    NatTextInjective(j, k);
  }

  /** An image gives exactly one record, with the base id and no page fields;
      a failed PDF and any other type give none. */
  lemma OtherFiles(p: Pick)
    ensures p.file.mediaType != PdfType && StartsWith(p.file.mediaType, "image/") ==>
              FileRecords(p) == [DrawingFile(p.baseId, p.file.name, Image, p.objectUrl, Some(p.file), Pending, [], None, None)]
    ensures p.file.mediaType == PdfType && p.pages.None? ==> FileRecords(p) == []
    ensures p.file.mediaType != PdfType && !StartsWith(p.file.mediaType, "image/") ==> FileRecords(p) == []
  {
  }

  /** Every new record is a well-formed pending record without defects. */
  lemma {:induction false} NewRecordsFresh(picks: seq<Pick>)
    ensures forall d :: d in NewRecords(picks) ==> WellFormed(d) && d.status == Pending && d.errors == []
  {
    if picks != [] {
      NewRecordsFresh(picks[..|picks| - 1]);
      var p := picks[|picks| - 1];
      forall d | d in FileRecords(p)
        ensures WellFormed(d) && d.status == Pending && d.errors == []
      {
        if p.file.mediaType == PdfType && p.pages.Some? {
          var k :| 0 <= k < |p.pages.value| && d == PageRecords(p.file, p.baseId, p.pages.value)[k];
        }
      }
    }
  }

  /** A failing file does not stop the others: the files' records follow each
      other in file order. */
  lemma {:induction false} NewRecordsAppend(a: seq<Pick>, b: seq<Pick>)
    ensures NewRecords(a + b) == NewRecords(a) + NewRecords(b)
    decreases |b|
  {
    if b == [] {
      assert a + b == a;
    } else {
      var b' := b[..|b| - 1];
      var last := b[|b| - 1];
      assert (a + b)[..|a + b| - 1] == a + b';
      assert (a + b)[|a + b| - 1] == last;
      calc {
        NewRecords(a + b);
        NewRecords(a + b') + FileRecords(last);
        { NewRecordsAppend(a, b'); }
        NewRecords(a) + NewRecords(b') + FileRecords(last);
        NewRecords(a) + (NewRecords(b') + FileRecords(last));
      }
    }
  }

  // ---- whole-list updates keyed by id -----------------------------------------

  /** `prev.map(d => d.id === id ? { ...d, status } : d)`. */
  function WithStatus(ds: seq<DrawingFile>, id: string, status: ScanStatus): (r: seq<DrawingFile>)
    ensures |r| == |ds|
    ensures forall k :: 0 <= k < |ds| ==> r[k] == if ds[k].id == id then ds[k].(status := status) else ds[k]
  {
    if ds == [] then []
    else [if ds[0].id == id then ds[0].(status := status) else ds[0]] + WithStatus(ds[1..], id, status)
  }

  /** `prev.map(d => d.id === id ? { ...d, status: COMPLETED, errors } : d)`. */
  function WithResult(ds: seq<DrawingFile>, id: string, errors: seq<DrawingError>): (r: seq<DrawingFile>)
    ensures |r| == |ds|
    ensures forall k :: 0 <= k < |ds| ==>
              r[k] == if ds[k].id == id then ds[k].(status := Completed, errors := errors) else ds[k]
  {
    if ds == [] then []
    else [if ds[0].id == id then ds[0].(status := Completed, errors := errors) else ds[0]]
         + WithResult(ds[1..], id, errors)
  }

  /** `prev.filter(d => d.id !== id)`. */
  function WithoutId(ds: seq<DrawingFile>, id: string): (r: seq<DrawingFile>)
    ensures forall d :: d in r <==> d in ds && d.id != id
    ensures |r| <= |ds|
  {
    if ds == [] then []
    else (if ds[0].id == id then [] else [ds[0]]) + WithoutId(ds[1..], id)
  }

  /** Deleting keeps the order of what stays: it distributes over concatenation. */
  lemma {:induction false} WithoutIdAppend(a: seq<DrawingFile>, b: seq<DrawingFile>, id: string)
    ensures WithoutId(a + b, id) == WithoutId(a, id) + WithoutId(b, id)
  {
    if a != [] {
      assert (a + b)[1..] == a[1..] + b;
      WithoutIdAppend(a[1..], b, id);
    } else {
      assert a + b == b;
    }
  }

  /** Deleting an id that is not in the list keeps the list as it is. */
  lemma {:induction false} WithoutAbsentId(ds: seq<DrawingFile>, id: string)
    requires forall k :: 0 <= k < |ds| ==> ds[k].id != id
    ensures WithoutId(ds, id) == ds
  {
    if ds != [] {
      WithoutAbsentId(ds[1..], id);
    }
  }

  /** Both maps keep every id in its place. */
  lemma UpdatesKeepIds(ds: seq<DrawingFile>, id: string, s: ScanStatus, es: seq<DrawingError>)
    ensures Ids(WithStatus(ds, id, s)) == Ids(ds)
    ensures Ids(WithResult(ds, id, es)) == Ids(ds)
  {
  }

  // ---- scanning ----------------------------------------------------------------

  /** The image data a scan sends: the payload of a data URL, otherwise the
      payload of the original file read as a data URL, otherwise "". */
  function Payload(d: DrawingFile): (r: Option<string>)
    ensures StartsWith(d.imageUrl, "data:") ==> r == PdfUtils.Base64Data(d.imageUrl)
    ensures !StartsWith(d.imageUrl, "data:") && d.originalFile.Some? ==>
              r == PdfUtils.Base64Data(d.originalFile.value.dataUrl)
    ensures !StartsWith(d.imageUrl, "data:") && d.originalFile.None? ==> r == Some("")
  {
    if StartsWith(d.imageUrl, "data:") then PdfUtils.Base64Data(d.imageUrl)
    else if d.originalFile.Some? then PdfUtils.Base64Data(d.originalFile.value.dataUrl)
    else Some("")
  }

  /** A page rendered as `data:<type>;base64,<payload>` sends exactly its payload. */
  lemma PagePayload(d: DrawingFile, mediaType: string, payload: string)
    requires ',' !in mediaType && ',' !in payload
    requires d.imageUrl == "data:" + mediaType + ";base64," + payload
    ensures Payload(d) == Some(payload)
  {
    var head := "data:" + mediaType + ";base64";
    assert d.imageUrl == head + "," + payload + [];
    assert StartsWith(d.imageUrl, "data:") by {
      assert d.imageUrl[..5] == "data:";
    }
    PdfUtils.Base64DataSplit(head, payload, []);
  }

  /** The record after a scan that ended with `outcome`. */
  function Scanned(d: DrawingFile, outcome: Outcome<seq<DrawingError>>): (r: DrawingFile)
    ensures outcome.Success? ==> r == d.(status := Completed, errors := outcome.value)
    ensures outcome.Failure? ==> r == d.(status := Error)
  {
    match outcome
    case Success(es) => d.(status := Completed, errors := es)
    case Failure(_) => d.(status := Error)
  }

  /** The list after the scan of `id` ended with `outcome`: on success the
      record is completed and its defects replaced, on failure it is marked
      failed and keeps its defects. */
  function AfterScan(ds: seq<DrawingFile>, id: string, outcome: Outcome<seq<DrawingError>>): (r: seq<DrawingFile>)
    ensures |r| == |ds|
    ensures forall k :: 0 <= k < |ds| ==> r[k] == if ds[k].id == id then Scanned(ds[k], outcome) else ds[k]
  {
    match outcome
    case Success(es) => WithResult(ds, id, es)
    case Failure(_) => WithStatus(ds, id, Error)
  }

  /** The SCANNING mark is overwritten by the end of the scan. */
  lemma AfterScanOverwrites(ds: seq<DrawingFile>, id: string, outcome: Outcome<seq<DrawingError>>)
    ensures AfterScan(WithStatus(ds, id, Scanning), id, outcome) == AfterScan(ds, id, outcome)
  {
    var a := AfterScan(WithStatus(ds, id, Scanning), id, outcome);
    var b := AfterScan(ds, id, outcome);
    assert forall k :: 0 <= k < |ds| ==> a[k] == b[k];
  }

  /** The records a scan pass picks: PENDING and ERROR. */
  predicate Eligible(d: DrawingFile) {
    d.status == Pending || d.status == Error
  }

  /** The ids of the picked records, in list order. */
  function EligibleIds(ds: seq<DrawingFile>): (r: seq<string>)
    ensures |r| <= |ds|
    ensures forall x :: x in r <==> exists k :: 0 <= k < |ds| && Eligible(ds[k]) && ds[k].id == x
  {
    if ds == [] then []
    else
      var init := ds[..|ds| - 1];
      var r := EligibleIds(init) + (if Eligible(ds[|ds| - 1]) then [ds[|ds| - 1].id] else []);
      assert forall k :: 0 <= k < |init| ==> init[k] == ds[k];
      r
  }

  /** Visiting one more record extends the picked ids by its id when it is picked. */
  lemma EligibleIdsSnoc(ds: seq<DrawingFile>, i: nat)
    requires i < |ds|
    ensures EligibleIds(ds[..i + 1]) == EligibleIds(ds[..i]) + (if Eligible(ds[i]) then [ds[i].id] else [])
  {
    assert ds[..i + 1][..i] == ds[..i];
  }

  /** How the scan of record `d` ends, given the detector's answer to its payload. */
  function ScanOutcome(apiKey: Option<string>, parse: string -> Option<Value>, d: DrawingFile,
                   service: Option<string> -> Reply): Outcome<seq<DrawingError>>
  {
    AnalyzeDrawing(apiKey, service(Payload(d)), parse)
  }

  /** The list after the first `n` records of the start-time list have been
      visited by a scan pass. */
  function PassState(apiKey: Option<string>, parse: string -> Option<Value>, start: seq<DrawingFile>,
                     services: seq<Option<string> -> Reply>, n: nat): seq<DrawingFile>
    requires n <= |start| && |services| == |start|
  {
    if n == 0 then start
    else PassVisit(apiKey, parse, start, services, n - 1, PassState(apiKey, parse, start, services, n - 1))
  }

  /** The visit of record `i` of the start-time list: a picked record is
      scanned by its id in the current list `cur`, any other is skipped. */
  function PassVisit(apiKey: Option<string>, parse: string -> Option<Value>, start: seq<DrawingFile>,
                     services: seq<Option<string> -> Reply>, i: nat, cur: seq<DrawingFile>): seq<DrawingFile>
    requires i < |start| && |services| == |start|
  {
    var d := start[i];
    if !Eligible(d) then cur
    else match FindById(cur, d.id)
      case None => cur
      case Some(found) => AfterScan(cur, d.id, ScanOutcome(apiKey, parse, found, services[i]))
  }

  /** Whatever the answers and even with repeated ids, a scan pass never adds,
      drops or reorders records. */
  lemma {:induction false} PassKeepsIds(apiKey: Option<string>, parse: string -> Option<Value>, start: seq<DrawingFile>,
                                        services: seq<Option<string> -> Reply>, n: nat)
    requires n <= |start| && |services| == |start|
    ensures var r := PassState(apiKey, parse, start, services, n);
            |r| == |start| && forall k :: 0 <= k < |r| ==> r[k].id == start[k].id
  {
    if n > 0 {
      var cur := PassState(apiKey, parse, start, services, n - 1);
      PassKeepsIds(apiKey, parse, start, services, n - 1);
      VisitKeepsIds(apiKey, parse, start, services, n - 1, cur);
      assert PassState(apiKey, parse, start, services, n) == PassVisit(apiKey, parse, start, services, n - 1, cur);
    }
  }

  /** One visit keeps every id in its place. */
  lemma VisitKeepsIds(apiKey: Option<string>, parse: string -> Option<Value>, start: seq<DrawingFile>,
                      services: seq<Option<string> -> Reply>, i: nat, cur: seq<DrawingFile>)
    requires i < |start| && |services| == |start|
    ensures var r := PassVisit(apiKey, parse, start, services, i, cur);
            |r| == |cur| && forall k :: 0 <= k < |r| ==> r[k].id == cur[k].id
  {
    var d := start[i];
    if Eligible(d) {
      match FindById(cur, d.id)
      case None =>
      case Some(found) =>
        var r := AfterScan(cur, d.id, ScanOutcome(apiKey, parse, found, services[i]));
        assert forall k :: 0 <= k < |r| ==> r[k].id == cur[k].id;
    }
  }

  /** The list a pass over the first `n` records of `start` should leave when
      ids are unique: the picked records among them scanned once with their
      own answer, everything else as it was at the start. */
  function Expected(apiKey: Option<string>, parse: string -> Option<Value>, start: seq<DrawingFile>,
                    services: seq<Option<string> -> Reply>, n: nat): (r: seq<DrawingFile>)
    requires |services| == |start|
  {
    seq(|start|, k requires 0 <= k < |start| =>
      if k < n && Eligible(start[k]) then Scanned(start[k], ScanOutcome(apiKey, parse, start[k], services[k]))
      else start[k])
  }

  /** When ids are unique, a scan pass leaves every record that was COMPLETED
      or SCANNING at the start as it was, and scans every record that was
      PENDING or ERROR once, with its own answer. */
  lemma ScanAllEffect(apiKey: Option<string>, parse: string -> Option<Value>, start: seq<DrawingFile>,
                      services: seq<Option<string> -> Reply>)
    requires |services| == |start|
    requires forall a, b :: 0 <= a < b < |start| ==> start[a].id != start[b].id
    ensures var r := PassState(apiKey, parse, start, services, |start|);
            |r| == |start| &&
            forall k :: 0 <= k < |start| ==>
              r[k] == if Eligible(start[k]) then Scanned(start[k], ScanOutcome(apiKey, parse, start[k], services[k]))
                      else start[k]
  {
    PassPrefix(apiKey, parse, start, services, |start|);
  }

  lemma {:induction false} PassPrefix(apiKey: Option<string>, parse: string -> Option<Value>,
                                      start: seq<DrawingFile>, services: seq<Option<string> -> Reply>, n: nat)
    requires n <= |start| && |services| == |start|
    requires forall a, b :: 0 <= a < b < |start| ==> start[a].id != start[b].id
    ensures PassState(apiKey, parse, start, services, n) == Expected(apiKey, parse, start, services, n)
  {
    if n == 0 {
      assert start == Expected(apiKey, parse, start, services, 0);
    } else {
      var prev := PassState(apiKey, parse, start, services, n - 1);
      assert PassState(apiKey, parse, start, services, n) == PassVisit(apiKey, parse, start, services, n - 1, prev);
      PassPrefix(apiKey, parse, start, services, n - 1);
      PassStep(apiKey, parse, start, services, n - 1);
    }
  }

  /** One more record of the pass. */
  lemma PassStep(apiKey: Option<string>, parse: string -> Option<Value>, start: seq<DrawingFile>,
                 services: seq<Option<string> -> Reply>, i: nat)
    requires i < |start| && |services| == |start|
    requires forall a, b :: 0 <= a < b < |start| ==> start[a].id != start[b].id
    ensures PassVisit(apiKey, parse, start, services, i, Expected(apiKey, parse, start, services, i))
            == Expected(apiKey, parse, start, services, i + 1)
  {
    if Eligible(start[i]) {
      PassScans(apiKey, parse, start, services, i);
    } else {
      PassSkips(apiKey, parse, start, services, i);
    }
  }

  /** A record that is not picked is skipped, and the list stays as it is. */
  lemma PassSkips(apiKey: Option<string>, parse: string -> Option<Value>, start: seq<DrawingFile>,
                  services: seq<Option<string> -> Reply>, i: nat)
    requires i < |start| && |services| == |start| && !Eligible(start[i])
    ensures Expected(apiKey, parse, start, services, i) == Expected(apiKey, parse, start, services, i + 1)
  {
    var cur := Expected(apiKey, parse, start, services, i);
    var next := Expected(apiKey, parse, start, services, i + 1);
    assert forall k :: 0 <= k < |start| ==> cur[k] == next[k];
  }

  /** A picked record is found by its id and scanned, and no other record changes. */
  lemma PassScans(apiKey: Option<string>, parse: string -> Option<Value>, start: seq<DrawingFile>,
                  services: seq<Option<string> -> Reply>, i: nat)
    requires i < |start| && |services| == |start| && Eligible(start[i])
    requires forall a, b :: 0 <= a < b < |start| ==> start[a].id != start[b].id
    ensures var cur := Expected(apiKey, parse, start, services, i);
            var o := ScanOutcome(apiKey, parse, start[i], services[i]);
            && FindById(cur, start[i].id) == Some(start[i])
            && AfterScan(cur, start[i].id, o) == Expected(apiKey, parse, start, services, i + 1)
  {
    var cur := Expected(apiKey, parse, start, services, i);
    var next := Expected(apiKey, parse, start, services, i + 1);
    var o := ScanOutcome(apiKey, parse, start[i], services[i]);
    ExpectedBefore(apiKey, parse, start, services, i);
    ScanOne(cur, start, i, o);
    var r := AfterScan(cur, start[i].id, o);
    assert forall k :: 0 <= k < |start| ==> r[k] == next[k];
  }

  /** Before record `i` is visited, the expected list agrees with the start
      on every id and still holds record `i` as it was. */
  lemma ExpectedBefore(apiKey: Option<string>, parse: string -> Option<Value>, start: seq<DrawingFile>,
                       services: seq<Option<string> -> Reply>, i: nat)
    requires i < |start| && |services| == |start|
    ensures var cur := Expected(apiKey, parse, start, services, i);
            && |cur| == |start| && cur[i] == start[i]
            && forall j :: 0 <= j < |start| ==> cur[j].id == start[j].id
  {
  }

  /** One step of a pass: in a list that agrees with the start-time list on
      every id, and still holds record `n` as it was, scanning that record's
      id touches that record only. */
  lemma ScanOne(prev: seq<DrawingFile>, start: seq<DrawingFile>, n: nat, o: Outcome<seq<DrawingError>>)
    requires n < |start| == |prev|
    requires forall j :: 0 <= j < |start| ==> prev[j].id == start[j].id
    requires prev[n] == start[n]
    requires forall a, b :: 0 <= a < b < |start| ==> start[a].id != start[b].id
    ensures FindById(prev, start[n].id) == Some(start[n])
    ensures forall k :: 0 <= k < |start| ==>
              AfterScan(prev, start[n].id, o)[k] == if k == n then Scanned(start[n], o) else prev[k]
  {
    forall j | 0 <= j < n
      ensures prev[j].id != start[n].id
    {
      assert prev[j].id == start[j].id;
    }
    FirstMatch(prev, start[n].id, n);
    forall k | 0 <= k < |start| && k != n
      ensures prev[k].id != start[n].id
    {
      assert prev[k].id == start[k].id;
      if k < n {
        assert start[k].id != start[n].id;
      } else {
        assert start[n].id != start[k].id;
      }
    }
  }

  /** A record is found by its id when no earlier record has that id. */
  lemma FirstMatch(ds: seq<DrawingFile>, id: string, k: nat)
    requires k < |ds| && ds[k].id == id
    requires forall j :: 0 <= j < k ==> ds[j].id != id
    ensures FindById(ds, id) == Some(ds[k])
  {
  }

  // ---- export ------------------------------------------------------------------

  /** A record worth exporting: scanned, with at least one defect. */
  predicate Exportable(d: DrawingFile) {
    d.status == Completed && |d.errors| > 0
  }

  /** `name.replace(/\s/g, '_')`: each whitespace character becomes one '_'. */
  function ReplaceSpaces(s: string): (r: string)
    ensures |r| == |s|
    ensures forall k :: 0 <= k < |s| ==> r[k] == if IsSpace(s[k]) then '_' else s[k]
  {
    if s == [] then [] else ReplaceSpaces(s[..|s| - 1]) + [if IsSpace(s[|s| - 1]) then '_' else s[|s| - 1]]
  }

  /** The replaced name has no whitespace left, and replacing again changes nothing. */
  lemma ReplaceSpacesIdempotent(s: string)
    ensures forall k :: 0 <= k < |ReplaceSpaces(s)| ==> !IsSpace(ReplaceSpaces(s)[k])
    ensures ReplaceSpaces(ReplaceSpaces(s)) == ReplaceSpaces(s)
  {
  }

  const ExportPrefix: string := "checked_"
  const ExportSuffix: string := ".jpg"

  /** The download name of an exported drawing. */
  function ExportName(name: string): (r: string)
    ensures |r| == |name| + 12
    ensures StartsWith(r, ExportPrefix) && EndsWith(r, ExportSuffix)
    ensures r[|ExportPrefix|..|r| - |ExportSuffix|] == ReplaceSpaces(name)
  {
    ExportPrefix + ReplaceSpaces(name) + ExportSuffix
  }

  /** What pressing Export does. */
  datatype ExportResult =
    | NothingToExport                                    // no record is worth exporting: an alert
    | NoSelection                                        // nothing selected: nothing happens
    | NeverLoads                                         // the image never loads: the promise never settles
    | Exported(filename: string, image: seq<PdfUtils.Paint>)

  /** `selectedDrawing`: the record with the selected id, if any. */
  function SelectedDrawing(ds: seq<DrawingFile>, selectedId: Option<string>): (r: Option<DrawingFile>)
    ensures selectedId.None? ==> r.None?
    ensures selectedId.Some? ==> r == FindById(ds, selectedId.value)
  {
    if selectedId.None? then None else FindById(ds, selectedId.value)
  }

  /** `handleExport`: refused when no record is worth exporting; otherwise the
      selected record, whether it is worth exporting or not, is composited and
      offered under its export name. */
  function ExportOutcome(ds: seq<DrawingFile>, selectedId: Option<string>, image: Option<(nat, nat)>,
                         measure: (PdfUtils.Font, string) -> real, numText: real -> string): (r: ExportResult)
    ensures r.NothingToExport? <==> forall k :: 0 <= k < |ds| ==> !Exportable(ds[k])
    ensures r.NoSelection? <==> (exists k :: 0 <= k < |ds| && Exportable(ds[k])) && SelectedDrawing(ds, selectedId).None?
    ensures r.NeverLoads? <==> (exists k :: 0 <= k < |ds| && Exportable(ds[k]))
                               && SelectedDrawing(ds, selectedId).Some? && image.None?
    ensures r.Exported? ==> var d := SelectedDrawing(ds, selectedId).value;
              && r.filename == ExportName(d.name)
              && r.image == PdfUtils.Composite(image.value.0, image.value.1, d.errors, measure, numText)
  {
    if forall k :: 0 <= k < |ds| ==> !Exportable(ds[k]) then NothingToExport
    else match SelectedDrawing(ds, selectedId)
      case None => NoSelection
      case Some(d) =>
        if image.None? then NeverLoads
        else Exported(ExportName(d.name), PdfUtils.Composite(image.value.0, image.value.1, d.errors, measure, numText))
  }

  /** Export does not check the selected record: with one exportable record
      and a different, still pending one selected, the pending one is exported. */
  lemma ExportsSelectedRegardless(done: DrawingFile, pending: DrawingFile, size: (nat, nat),
                                  measure: (PdfUtils.Font, string) -> real, numText: real -> string)
    requires Exportable(done) && pending.status == Pending && done.id != pending.id
    ensures ExportOutcome([done, pending], Some(pending.id), Some(size), measure, numText)
            == Exported(ExportName(pending.name), PdfUtils.Composite(size.0, size.1, pending.errors, measure, numText))
  {
    var ds := [done, pending];
    assert Exportable(ds[0]);
    FirstMatch(ds, pending.id, 1);
  }

  /** `!selectedId` is false: an id that is not empty. */
  predicate HasSelection(selectedId: Option<string>) {
    selectedId.Some? && selectedId.value != ""
  }

  /** The test is JavaScript truthiness of the `string | null` selection. */
  lemma SelectionIsTruthy(selectedId: Option<string>)
    ensures HasSelection(selectedId) <==> Truthy(if selectedId.None? then Null else Str(selectedId.value))
  {
  }

  // ---- the store -----------------------------------------------------------------

  class Store {
    const apiKey: Option<string>
    const parse: string -> Option<Value>
    var drawings: seq<DrawingFile>
    var selectedId: Option<string>
    var activeErrorId: Value
    var language: Language
    var isProcessingAll: bool

    /** The initial state: no drawings, nothing selected, English, idle. */
    constructor (apiKey: Option<string>, parse: string -> Option<Value>)
      ensures this.apiKey == apiKey && this.parse == parse
      ensures drawings == [] && selectedId == None && activeErrorId == Null
      ensures language == En && !isProcessingAll
    {
      this.apiKey, this.parse := apiKey, parse;
      drawings, selectedId, activeErrorId := [], None, Null;
      language, isProcessingAll := En, false;
    }

    /** `handleFileUpload`: every file's records are appended after the
        existing ones, and the first new record is selected when nothing was. */
    method Upload(files: Option<seq<Pick>>)
      modifies this`drawings, this`selectedId
      ensures files.None? ==> drawings == old(drawings) && selectedId == old(selectedId)
      ensures files.Some? ==> drawings == old(drawings) + NewRecords(files.value)
      ensures files.Some? && |NewRecords(files.value)| > 0 && !HasSelection(old(selectedId)) ==>
                selectedId == Some(NewRecords(files.value)[0].id)
      ensures files.Some? && (|NewRecords(files.value)| == 0 || HasSelection(old(selectedId))) ==>
                selectedId == old(selectedId)
    {
      if files.None? {
        return;
      }
      var picks := files.value;
      var added: seq<DrawingFile> := [];
      var i := 0;
      while i < |picks|
        invariant 0 <= i <= |picks|
        invariant added == NewRecords(picks[..i])
      {
        var p := picks[i];
        ghost var prefix := added;
        if p.file.mediaType == PdfType {
          if p.pages.Some? {
            var images := p.pages.value;
            var k := 0;
            while k < |images|
              invariant 0 <= k <= |images|
              invariant added == prefix + PageRecords(p.file, p.baseId, images)[..k]
            {
              assert PageRecords(p.file, p.baseId, images)[..k + 1]
                     == PageRecords(p.file, p.baseId, images)[..k] + [PageRecord(p.file, p.baseId, images, k)];
              added := added + [PageRecord(p.file, p.baseId, images, k)];
              k := k + 1;
            }
            assert PageRecords(p.file, p.baseId, images)[..k] == PageRecords(p.file, p.baseId, images);
          }
        } else if StartsWith(p.file.mediaType, "image/") {
          added := added + [ImageRecord(p)];
        }
        assert added == prefix + FileRecords(p);
        assert picks[..i + 1][..i] == picks[..i];
        assert NewRecords(picks[..i + 1]) == NewRecords(picks[..i]) + FileRecords(p);
        i := i + 1;
      }
      assert picks[..i] == picks;
      drawings := drawings + added;
      if |added| > 0 && !HasSelection(selectedId) {
        selectedId := Some(added[0].id);
      }
    }

    /** The first half of `handleScan`: the record is looked up, and when it
        exists every record with its id is marked SCANNING, whatever its state. */
    method BeginScan(id: string) returns (drawing: Option<DrawingFile>)
      modifies this`drawings
      ensures drawing == FindById(old(drawings), id)
      ensures drawing.None? ==> drawings == old(drawings)
      ensures drawing.Some? ==> drawings == WithStatus(old(drawings), id, Scanning)
    {
      drawing := FindById(drawings, id);
      if drawing.Some? {
        drawings := WithStatus(drawings, id, Scanning);
      }
    }

    /** The second half of `handleScan`: the detector's outcome is written back. */
    method FinishScan(id: string, outcome: Outcome<seq<DrawingError>>)
      modifies this`drawings
      ensures drawings == AfterScan(old(drawings), id, outcome)
    {
      match outcome
      case Success(errors) =>
        drawings := WithResult(drawings, id, errors);
      case Failure(_) =>
        drawings := WithStatus(drawings, id, Error);
    }

    /** `handleScan`: an unknown id changes nothing and answers nothing;
        otherwise the record is scanned with the payload of its image, and the
        answer says whether the detector succeeded. */
    method Scan(id: string, service: Option<string> -> Reply) returns (ok: Option<bool>)
      modifies this`drawings
      ensures FindById(old(drawings), id).None? ==> ok.None? && drawings == old(drawings)
      ensures FindById(old(drawings), id).Some? ==>
                var outcome := ScanOutcome(apiKey, parse, FindById(old(drawings), id).value, service);
                ok == Some(outcome.Success?) && drawings == AfterScan(old(drawings), id, outcome)
    {
      ghost var before := drawings;
      var drawing := BeginScan(id);
      if drawing.None? {
        return None;
      }
      var base64 := Payload(drawing.value);
      var outcome := AnalyzeDrawing(apiKey, service(base64), parse);
      FinishScan(id, outcome);
      AfterScanOverwrites(before, id, outcome);
      ok := Some(outcome.Success?);
    }

    /** `scanAll`: the list as it was when the pass started is walked in
        order; each PENDING or ERROR record is selected and scanned, with the
        next answer of `services` (one per record of that list). The flag is
        raised for the whole pass and lowered at its end. */
    method ScanAll(services: seq<Option<string> -> Reply>) returns (visited: seq<string>)
      requires |services| == |drawings|
      modifies this`drawings, this`selectedId, this`isProcessingAll
      ensures visited == EligibleIds(old(drawings))
      ensures drawings == PassState(apiKey, parse, old(drawings), services, |old(drawings)|)
      ensures visited == [] ==> selectedId == old(selectedId)
      ensures visited != [] ==> selectedId == Some(visited[|visited| - 1])
      ensures !isProcessingAll
    {
      isProcessingAll := true;
      var start := drawings;
      visited := [];
      var i := 0;
      while i < |start|
        invariant 0 <= i <= |start|
        invariant isProcessingAll
        invariant visited == EligibleIds(start[..i])
        invariant drawings == PassState(apiKey, parse, start, services, i)
        invariant visited == [] ==> selectedId == old(selectedId)
        invariant visited != [] ==> selectedId == Some(visited[|visited| - 1])
      {
        var d := start[i];
        EligibleIdsSnoc(start, i);
        if Eligible(d) {
          selectedId := Some(d.id);
          var ok := Scan(d.id, services[i]);
          visited := visited + [d.id];
        }
        i := i + 1;
      }
      assert start[..i] == start;
      isProcessingAll := false;
    }

    /** `handleExport`, drawing the markers on a canvas of the loaded image's size. */
    method Export(image: Option<(nat, nat)>, measure: (PdfUtils.Font, string) -> real, numText: real -> string)
      returns (r: ExportResult)
      ensures r == ExportOutcome(drawings, selectedId, image, measure, numText)
    {
      if forall k :: 0 <= k < |drawings| ==> !Exportable(drawings[k]) {
        return NothingToExport;
      }
      var selected := SelectedDrawing(drawings, selectedId);
      if selected.None? {
        return NoSelection;
      }
      var marked := PdfUtils.DrawErrorsOnCanvas(image, selected.value.errors, language, measure, numText);
      if marked.None? {
        return NeverLoads;
      }
      r := Exported(ExportName(selected.value.name), marked.value);
    }

    /** `handleDelete`: the records with that id go, the rest stay in order,
        and the selection is cleared exactly when it was that id. */
    method Delete(id: string)
      modifies this`drawings, this`selectedId
      ensures drawings == WithoutId(old(drawings), id)
      ensures old(selectedId) == Some(id) ==> selectedId.None?
      ensures old(selectedId) != Some(id) ==> selectedId == old(selectedId)
    {
      drawings := WithoutId(drawings, id);
      if selectedId == Some(id) {
        selectedId := None;
      }
    }

    /** A click on a row of the list. */
    method Select(id: string)
      modifies this`selectedId
      ensures selectedId == Some(id)
    {
      selectedId := Some(id);
    }

    /** A click on an overlay or a comment. */
    method ClickError(id: Value)
      modifies this`activeErrorId
      ensures activeErrorId == id
    {
      activeErrorId := id;
    }

    /** The VN / EN switch. */
    method SetLanguage(l: Language)
      modifies this`language
      ensures language == l
    {
      language := l;
    }
  }
}
