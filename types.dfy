/** The records shared by the whole application (types.ts). */
module Types {
  import opened JsRuntime

  /** A defect location on the fixed 0–1000 scale, origin top-left. The four
      coordinates hold the numbers the detector's entries become under
      arithmetic, since arithmetic is the only use the application makes of them. */
  datatype BoundingBox = BoundingBox(ymin: Number, xmin: Number, ymax: Number, xmax: Number)

  /** One detected defect. The record is built from untrusted detector output
      without validation, so `id`, the two descriptions and `kind` (the source's
      `type`) keep whatever value the detector sent; `box` is the optional
      location. */
  datatype DrawingError = DrawingError(
    id: Value,
    descriptionEn: Value,
    descriptionVn: Value,
    box: Option<BoundingBox>,
    kind: Value)

  /** The four severities the declared type admits; nothing enforces them. */
  predicate DeclaredKind(v: Value) {
    v == Str("critical") || v == Str("warning") || v == Str("info")
  }

  /** The per-drawing scan state. */
  datatype ScanStatus = Pending | Scanning | Completed | Error

  datatype FileType = Image | Pdf

  /** An uploaded file: its name, its declared media type and the data URL
      `FileReader.readAsDataURL` produces for it. */
  datatype UploadedFile = UploadedFile(name: string, mediaType: string, dataUrl: string)

  /** One scannable page. `pageIndex` and `totalPages` are present only for
      records made from a PDF. */
  datatype DrawingFile = DrawingFile(
    id: string,
    name: string,
    fileType: FileType,
    imageUrl: string,
    originalFile: Option<UploadedFile>,
    status: ScanStatus,
    errors: seq<DrawingError>,
    pageIndex: Option<nat>,
    totalPages: Option<nat>)

  /** The page fields agree with the kind of record: a PDF page knows its
      position among its document's pages, an image record has neither field. */
  predicate WellFormed(d: DrawingFile) {
    && (d.fileType == Pdf <==> d.pageIndex.Some?)
    && (d.fileType == Pdf <==> d.totalPages.Some?)
    && (d.fileType == Pdf ==> d.pageIndex.value < d.totalPages.value)
  }

  datatype Language = En | Vi

  /** `drawings.find(d => d.id === id)`: the first record with that id. */
  function FindById(ds: seq<DrawingFile>, id: string): (r: Option<DrawingFile>)
    ensures r.None? <==> forall i :: 0 <= i < |ds| ==> ds[i].id != id
    ensures r.Some? ==> r.value in ds && r.value.id == id
    ensures r.Some? ==> exists i :: 0 <= i < |ds| && ds[i] == r.value && forall j :: 0 <= j < i ==> ds[j].id != id
  {
    if ds == [] then None
    else if ds[0].id == id then Some(ds[0])
    else
      var r := FindById(ds[1..], id);
      assert forall j :: 1 <= j < |ds| ==> ds[j] == ds[1..][j - 1];
      r
  }

  /** The ids of a list of records, in order. */
  function Ids(ds: seq<DrawingFile>): (r: seq<string>)
    ensures |r| == |ds| && forall i :: 0 <= i < |ds| ==> r[i] == ds[i].id
  {
    if ds == [] then [] else [ds[0].id] + Ids(ds[1..])
  }
}
