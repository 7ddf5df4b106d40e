/**
  The file check of `handleFileSelect` in frontend/src/components/DocumentUpload.js: only PDF
  and plain-text files of at most 10 MiB become the selected file; anything else leaves the
  selection as it was and shows an error.
 */
module DocumentUpload {
  import opened Wrappers

  /** The browser's `File`, reduced to what the check reads. */
  datatype FileInfo = FileInfo(mimeType: string, size: nat)

  /** The component's `file` and `error` state. */
  datatype UploadState = UploadState(file: Option<FileInfo>, error: Option<string>)

  const AllowedTypes: seq<string> := ["application/pdf", "text/plain"]

  /** 10 * 1024 * 1024 bytes. */
  const MaxUploadBytes: nat := 10_485_760

  const WrongTypeError: string := "Please upload a PDF or TXT file"
  const TooLargeError: string := "File too large. Maximum size is 10MB."

  /** The state before any file is chosen. */
  const InitialState: UploadState := UploadState(None, None)

  /** A file the check lets through. */
  predicate Acceptable(f: FileInfo) {
    f.mimeType in AllowedTypes && f.size <= MaxUploadBytes
  }

  /** `handleFileSelect`: no file changes nothing; a wrong type, then a size over the limit, sets
      the matching error and keeps the old selection; otherwise the file is selected and the
      error cleared. */
  function HandleFileSelect(s: UploadState, selected: Option<FileInfo>): (r: UploadState)
    ensures selected.None? ==> r == s
    ensures selected.Some? && selected.value.mimeType !in AllowedTypes ==> r == s.(error := Some(WrongTypeError))
    ensures selected.Some? && selected.value.mimeType in AllowedTypes && selected.value.size > MaxUploadBytes ==>
      r == s.(error := Some(TooLargeError))
    ensures selected.Some? && Acceptable(selected.value) ==> r == UploadState(selected, None)
    ensures r.file == s.file || (r.file == selected && r.error == None)
  {
    match selected
    case None => s
    case Some(f) =>
      if f.mimeType !in AllowedTypes then s.(error := Some(WrongTypeError))
      else if f.size > MaxUploadBytes then s.(error := Some(TooLargeError))
      else UploadState(selected, None)
  }

  /** Every state reachable from the initial one holds either no file or an acceptable one. */
  predicate SelectionAcceptable(s: UploadState) {
    s.file.Some? ==> Acceptable(s.file.value)
  }

  /** The check keeps the selection acceptable, whatever file is offered. */
  lemma HandleFileSelectKeepsSelectionAcceptable(s: UploadState, selected: Option<FileInfo>)
    requires SelectionAcceptable(s)
    ensures SelectionAcceptable(HandleFileSelect(s, selected))
  {
  }

  /** The size bound is inclusive: exactly 10 MiB is accepted, one byte more is refused, and a
      file of the wrong type is refused for its type whatever its size. */
  lemma SizeBoundary(t: string)
    requires t in AllowedTypes
    ensures HandleFileSelect(InitialState, Some(FileInfo(t, 10 * 1024 * 1024))) == UploadState(Some(FileInfo(t, MaxUploadBytes)), None)
    ensures HandleFileSelect(InitialState, Some(FileInfo(t, MaxUploadBytes + 1))).error == Some(TooLargeError)
    ensures HandleFileSelect(InitialState, Some(FileInfo("image/png", MaxUploadBytes + 1))).error == Some(WrongTypeError)
  {
    assert "image/png" != AllowedTypes[0] && "image/png" != AllowedTypes[1];
  }
}
