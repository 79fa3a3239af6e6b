/** The mock file-intake store of the upload-and-report app: an upload gate
    (size ceiling, then a MIME allow-list), a module-level list of file records
    with the newest first, the delayed `processing -> completed` step that
    attaches a report URL, a copy-out listing, and a report download whose
    content depends on the file type. */
module FileIntake {
  import opened Wrappers
  import opened Strings
  import Json

  datatype Status = Processing | Completed | Failed

  /** One stored record (`UploadedFile`). */
  datatype UploadedFile = UploadedFile(
    id: string,
    name: string,
    fileType: string,
    size: nat,
    uploadDate: string,
    status: Status,
    reportUrl: Option<string>)

  /** The fields of a browser `File` that the store reads. */
  datatype FileInput = FileInput(name: string, fileType: string, size: nat)

  /** The two errors `uploadFile` throws, in the order it checks them. */
  datatype UploadError = FileSizeExceedsLimit | FileTypeNotSupported

  /** The two errors `downloadReport` throws, in the order it checks them. */
  datatype DownloadError = FileNotFound | ReportNotReady

  function UploadErrorMessage(e: UploadError): string {
    match e
    case FileSizeExceedsLimit => "File size exceeds limit"
    case FileTypeNotSupported => "File type not supported"
  }

  function DownloadErrorMessage(e: DownloadError): string {
    match e
    case FileNotFound => "File not found"
    case ReportNotReady => "Report not ready"
  }

  /** 10 MiB. */
  const MaxUploadSize: nat := 10 * 1024 * 1024

  const AllowedTypes: seq<string> := ["application/pdf", "text/csv", "image/jpeg", "image/png"]

  /** The upload gate: the size ceiling is checked before the type. */
  function UploadGate(f: FileInput): (r: Option<UploadError>)
    ensures r.None? <==> f.size <= MaxUploadSize && f.fileType in AllowedTypes
    ensures r == Some(FileSizeExceedsLimit) <==> f.size > MaxUploadSize
  {
    if f.size > MaxUploadSize then Some(FileSizeExceedsLimit)
    else if f.fileType !in AllowedTypes then Some(FileTypeNotSupported)
    else None
  }

  /** The record a successful upload creates; `id` and `uploadDate` stand for
      `generateId()` and `new Date().toISOString()`. */
  function NewRecord(f: FileInput, id: string, uploadDate: string): UploadedFile {
    UploadedFile(id, f.name, f.fileType, f.size, uploadDate, Processing, None)
  }

  function ReportUrl(id: string): string {
    "/api/reports/" + id
  }

  /** What every stored record satisfies: it passed the gate, and it is either
      still processing without a report URL or completed with its own URL. */
  predicate WellFormed(f: UploadedFile) {
    && f.size <= MaxUploadSize
    && f.fileType in AllowedTypes
    && ((f.status == Processing && f.reportUrl == None)
        || (f.status == Completed && f.reportUrl == Some(ReportUrl(f.id))))
  }

  predicate AllWellFormed(files: seq<UploadedFile>) {
    forall k :: 0 <= k < |files| ==> WellFormed(files[k])
  }

  /** Position of the first record with the given id (`findIndex`, with
      `None` for -1). */
  function FindIndex(files: seq<UploadedFile>, id: string): (r: Option<nat>)
    ensures r.None? <==> forall k :: 0 <= k < |files| ==> files[k].id != id
    ensures r.Some? ==> r.value < |files| && files[r.value].id == id
    ensures r.Some? ==> forall k :: 0 <= k < r.value ==> files[k].id != id
  {
    if |files| == 0 then None
    else if files[0].id == id then Some(0)
    else match FindIndex(files[1..], id)
      case None => None
      case Some(i) => Some(i + 1)
  }

  /** The first record with the given id (`find`). */
  function Find(files: seq<UploadedFile>, id: string): (r: Option<UploadedFile>)
    ensures r.Some? ==> r.value in files && r.value.id == id
    ensures r.Some? ==> exists i :: 0 <= i < |files| && files[i] == r.value
                                  && forall k :: 0 <= k < i ==> files[k].id != id
    ensures r.None? <==> forall k :: 0 <= k < |files| ==> files[k].id != id
  {
    match FindIndex(files, id)
    case None => None
    case Some(i) => Some(files[i])
  }

  /** Same file, whatever its processing state. */
  predicate SameFile(a: UploadedFile, b: UploadedFile) {
    a.id == b.id && a.name == b.name && a.fileType == b.fileType
    && a.size == b.size && a.uploadDate == b.uploadDate
  }

  /** The timer step: the first record with `id` becomes completed with its
      report URL; every other record is untouched; no record means no change. */
  function CompleteReport(files: seq<UploadedFile>, id: string): (r: seq<UploadedFile>)
    ensures |r| == |files|
    ensures FindIndex(files, id).None? ==> r == files
    ensures FindIndex(files, id).Some? ==>
      var i := FindIndex(files, id).value;
      && SameFile(r[i], files[i])
      && r[i].status == Completed && r[i].reportUrl == Some(ReportUrl(id))
      && forall k :: 0 <= k < |files| && k != i ==> r[k] == files[k]
  {
    match FindIndex(files, id)
    case None => files
    case Some(i) => files[i := files[i].(status := Completed, reportUrl := Some(ReportUrl(id)))]
  }

  /** `JSON.stringify({filename, filesize, dimensions, format, analysis}, null, 2)`. */
  function ImageReport(f: UploadedFile): string {
    ImageHead + Json.Quote(f.name) + ImageMiddle(f) + ImageTail
  }

  const ImageHead: string := "{\n  \"filename\": "
  const ImageTail: string := ",\n  \"analysis\": \"Mock image analysis results\"\n}"

  function SizeMember(f: UploadedFile): string {
    "\"filesize\": " + NatToString(f.size)
  }

  function FormatMember(f: UploadedFile): string {
    "\"format\": " + Json.Quote(f.fileType)
  }

  function ImageMiddle(f: UploadedFile): string {
    ",\n  " + SizeMember(f) + ",\n  \"dimensions\": \"800x600\",\n  " + FormatMember(f)
  }

  const PdfReport: string := "Mock PDF report content"
  const CsvReport: string := "id,name,value\n1,item1,100\n2,item2,200"

  /** The report text, chosen by the file type. */
  function ReportContent(f: UploadedFile): string {
    if f.fileType == "application/pdf" then PdfReport
    else if f.fileType == "text/csv" then CsvReport
    else ImageReport(f)
  }

  /** `downloadReport` as a function of the store: unknown id first, then a
      record that is not completed, then the content. */
  function Download(files: seq<UploadedFile>, id: string): Result<string, DownloadError> {
    match Find(files, id)
    case None => Failure(FileNotFound)
    case Some(f) =>
      if f.status != Completed then Failure(ReportNotReady)
      else Success(ReportContent(f))
  }

  /** The module-level `mockFiles` list and the operations over it. */
  class MockFileStore {
    var files: seq<UploadedFile>

    ghost predicate Valid()
      reads this
    {
      AllWellFormed(files)
    }

    constructor ()
      ensures Valid() && files == []
    {
      files := [];
    }

    /** `uploadFile`: a rejected file leaves the store as it was; an accepted
        one is prepended as a new processing record. */
    method UploadFile(file: FileInput, id: string, uploadDate: string)
      returns (r: Result<UploadedFile, UploadError>)
      requires Valid()
      modifies this
      ensures Valid()
      ensures r.Failure? <==> UploadGate(file).Some?
      ensures r.Failure? ==> r.error == UploadGate(file).value && files == old(files)
      ensures r.Success? ==> r.value == NewRecord(file, id, uploadDate)
      ensures r.Success? ==> files == [r.value] + old(files)
    {
      if file.size > MaxUploadSize {
        return Failure(FileSizeExceedsLimit);
      }
      if file.fileType !in AllowedTypes {
        return Failure(FileTypeNotSupported);
      }
      var newFile := NewRecord(file, id, uploadDate);
      files := [newFile] + files;
      r := Success(newFile);
    }

    /** The callback of the 3-second timer that `uploadFile` sets for `id`. */
    method CompleteProcessing(id: string)
      requires Valid()
      modifies this
      ensures Valid()
      ensures files == CompleteReport(old(files), id)
    {
      var index := FindIndex(files, id);
      if index.Some? {
        var i := index.value;
        files := files[i := files[i].(status := Completed, reportUrl := Some(ReportUrl(id)))];
      }
    }

    /** `getFiles`: a copy of the list, the store unchanged. */
    method GetFiles() returns (r: seq<UploadedFile>)
      ensures r == files
    {
      r := files;
    }

    /** `downloadReport`: reads the store and never changes it. */
    method DownloadReport(fileId: string) returns (r: Result<string, DownloadError>)
      ensures Find(files, fileId).None? ==> r == Failure(FileNotFound)
      ensures Find(files, fileId).Some? && Find(files, fileId).value.status != Completed
              ==> r == Failure(ReportNotReady)
      ensures Find(files, fileId).Some? && Find(files, fileId).value.status == Completed
              ==> r == Success(ReportContent(Find(files, fileId).value))
    {
      var file := Find(files, fileId);
      if file.None? {
        return Failure(FileNotFound);
      }
      if file.value.status != Completed {
        return Failure(ReportNotReady);
      }
      r := Success(ReportContent(file.value));
    }
  }

  /** The timer step keeps every record well formed, provided the id it
      completes is that record's own (the URL is built from the searched id). */
  lemma CompleteReportKeepsWellFormed(files: seq<UploadedFile>, id: string)
    requires AllWellFormed(files)
    ensures AllWellFormed(CompleteReport(files, id))
  {
  }

  /** Completing twice is completing once. */
  lemma CompleteReportIdempotent(files: seq<UploadedFile>, id: string)
    ensures CompleteReport(CompleteReport(files, id), id) == CompleteReport(files, id)
  {
    var once := CompleteReport(files, id);
    assert forall k :: 0 <= k < |files| ==> once[k].id == files[k].id;
    assert FindIndex(once, id) == FindIndex(files, id);
  }

  /** The timer of a fresh upload completes the upload itself: it sits at the
      head of the list, so no older record with the same id is touched. */
  lemma UploadThenComplete(f: FileInput, id: string, date: string, files: seq<UploadedFile>)
    ensures CompleteReport([NewRecord(f, id, date)] + files, id)
            == [NewRecord(f, id, date).(status := Completed, reportUrl := Some(ReportUrl(id)))] + files
  {
    var fs := [NewRecord(f, id, date)] + files;
    assert FindIndex(fs, id) == Some(0);
  }

  /** Right after an upload the report is not ready; once the timer has run
      the download succeeds with the content for that file's type. */
  lemma DownloadLifecycle(f: FileInput, id: string, date: string, files: seq<UploadedFile>)
    ensures Download([NewRecord(f, id, date)] + files, id) == Failure(ReportNotReady)
    ensures Download(CompleteReport([NewRecord(f, id, date)] + files, id), id)
            == Success(ReportContent(NewRecord(f, id, date)))
  {
    var fs := [NewRecord(f, id, date)] + files;
    assert FindIndex(fs, id) == Some(0);
    UploadThenComplete(f, id, date, files);
    var done := CompleteReport(fs, id);
    assert FindIndex(done, id) == Some(0);
  }

  /** Downloading an id that no record has fails with "File not found", even
      when other records are completed. */
  lemma DownloadUnknownId(files: seq<UploadedFile>, id: string)
    requires forall k :: 0 <= k < |files| ==> files[k].id != id
    ensures Download(files, id) == Failure(FileNotFound)
  {
  }

  /** For a stored record, which has passed the gate, the JSON branch of the
      report is taken exactly for the two image types. */
  lemma ReportKind(f: UploadedFile)
    requires WellFormed(f)
    ensures ReportContent(f) == ImageReport(f) <==> f.fileType in ["image/jpeg", "image/png"]
  {
    assert ImageReport(f)[0] == '{';
    assert PdfReport[0] == 'M';
    assert CsvReport[0] == 'i';
  }

  /** The image report is a JSON object whose "filename" member reads back as
      the file's name. */
  lemma ImageReportCarriesName(f: UploadedFile)
    ensures ImageHead <= ImageReport(f)
    ensures Json.ReadString(ImageReport(f)[|ImageHead|..]).Some?
    ensures Json.ReadString(ImageReport(f)[|ImageHead|..]).value.0 == f.name
  {
    var rest := ImageMiddle(f) + ImageTail;
    assert ImageReport(f) == ImageHead + (Json.Quote(f.name) + rest);
    assert ImageReport(f)[|ImageHead|..] == Json.Quote(f.name) + rest;
    Json.QuoteRoundTrip(f.name, rest);
  }

  /** The image report carries the file's size and type as members. */
  lemma ImageReportCarriesSizeAndType(f: UploadedFile)
    ensures Contains(ImageReport(f), SizeMember(f))
    ensures Contains(ImageReport(f), FormatMember(f))
  {
    var pre := ImageHead + Json.Quote(f.name);
    var dims := ",\n  \"dimensions\": \"800x600\",\n  ";
    assert ImageReport(f) == (pre + ",\n  ") + SizeMember(f) + (dims + FormatMember(f) + ImageTail);
    ContainsInfix(pre + ",\n  ", SizeMember(f), dims + FormatMember(f) + ImageTail);
    assert ImageReport(f) == (pre + ",\n  " + SizeMember(f) + dims) + FormatMember(f) + ImageTail;
    ContainsInfix(pre + ",\n  " + SizeMember(f) + dims, FormatMember(f), ImageTail);
  }
}
