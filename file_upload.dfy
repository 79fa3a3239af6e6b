/** The client-side file picker of the upload-and-report app: `validateFile`
    repeats the store's gate (size ceiling, then the `accept` list), and the
    change, drop and remove handlers keep the selected file and the error
    message in step with it. */
module FileUploadWidget {
  import opened Wrappers
  import opened Strings
  import FileIntake

  const DefaultAccept: string := "application/pdf" + "," + "text/csv" + "," + "image/jpeg" + "," + "image/png"

  /** 10 MiB. */
  const DefaultMaxSize: nat := 10 * 1024 * 1024

  /** The two messages `validateFile` can show. The size message embeds the
      limit as `formatFileSize` prints it. */
  datatype FileError = SizeExceedsMax(maxSize: nat) | TypeNotSupported

  /** `validateFile`, as the error it reports (`None` when it returns true and
      clears the message). */
  function ValidateFile(file: FileIntake.FileInput, accept: string, maxSize: nat): (r: Option<FileError>)
    ensures r.None? <==> file.size <= maxSize && file.fileType in Split(accept, ',')
    ensures r == Some(SizeExceedsMax(maxSize)) <==> file.size > maxSize
    ensures r.Some? ==> r == Some(SizeExceedsMax(maxSize)) || r == Some(TypeNotSupported)
  {
    if file.size > maxSize then Some(SizeExceedsMax(maxSize))
    else if file.fileType !in Split(accept, ',') then Some(TypeNotSupported)
    else None
  }

  /** The default `accept` attribute lists exactly the store's allowed types. */
  lemma DefaultAcceptIsAllowedTypes()
    ensures Split(DefaultAccept, ',') == FileIntake.AllowedTypes
  {
    var types := FileIntake.AllowedTypes;
    assert types[1..][1..][1..] == [types[3]];
    assert Join(types[1..][1..], ',') == types[2] + "," + types[3];
    assert Join(types[1..], ',') == types[1] + "," + types[2] + "," + types[3];
    assert DefaultAccept == Join(types, ',');
    assert forall k :: 0 <= k < |types| ==> ',' !in types[k];
    SplitJoin(types, ',');
  }

  /** With its defaults the picker accepts exactly the files `uploadFile`
      accepts, and rejects for size exactly the files the store rejects for
      size: the two gates agree, including their order. */
  lemma AgreesWithUploadGate(file: FileIntake.FileInput)
    ensures ValidateFile(file, DefaultAccept, DefaultMaxSize).None?
            <==> FileIntake.UploadGate(file).None?
    ensures ValidateFile(file, DefaultAccept, DefaultMaxSize) == Some(SizeExceedsMax(DefaultMaxSize))
            <==> FileIntake.UploadGate(file) == Some(FileIntake.FileSizeExceedsLimit)
    ensures ValidateFile(file, DefaultAccept, DefaultMaxSize) == Some(TypeNotSupported)
            <==> FileIntake.UploadGate(file) == Some(FileIntake.FileTypeNotSupported)
  {
    DefaultAcceptIsAllowedTypes();
  }

  /** The component's state: the selected file, the error message and the
      hidden `<input>` element's current selection. */
  class FileUploadWidget {
    const accept: string
    const maxSize: nat
    var isDragging: bool
    var errorMessage: Option<FileError>
    var selectedFile: Option<FileIntake.FileInput>
    var inputFile: Option<FileIntake.FileInput>

    constructor (accept: string, maxSize: nat)
      ensures this.accept == accept && this.maxSize == maxSize
      ensures !isDragging && errorMessage.None? && selectedFile.None? && inputFile.None?
    {
      this.accept := accept;
      this.maxSize := maxSize;
      isDragging := false;
      errorMessage := None;
      selectedFile := None;
      inputFile := None;
    }

    /** `validateFile` with its `setErrorMessage` effect. */
    method Validate(file: FileIntake.FileInput) returns (ok: bool)
      modifies this`errorMessage
      ensures ok <==> ValidateFile(file, accept, maxSize).None?
      ensures errorMessage == ValidateFile(file, accept, maxSize)
    {
      if file.size > maxSize {
        errorMessage := Some(SizeExceedsMax(maxSize));
        return false;
      }
      var allowedTypes := Split(accept, ',');
      if file.fileType !in allowedTypes {
        errorMessage := Some(TypeNotSupported);
        return false;
      }
      errorMessage := None;
      ok := true;
    }

    /** `handleFileChange`: `picked` is what the input now holds. A valid file
        becomes the selection and is passed to `onFileSelected` (returned as
        `notified`); an invalid one clears the selection and the input and
        nothing is passed on. */
    method HandleFileChange(picked: Option<FileIntake.FileInput>)
      returns (notified: Option<FileIntake.FileInput>)
      modifies this
      ensures isDragging == old(isDragging)
      ensures picked.None? ==> notified.None? && inputFile.None?
      ensures picked.None? ==> selectedFile == old(selectedFile) && errorMessage == old(errorMessage)
      ensures picked.Some? ==> errorMessage == ValidateFile(picked.value, accept, maxSize)
      ensures picked.Some? && errorMessage.None? ==>
                selectedFile == picked && notified == picked && inputFile == picked
      ensures picked.Some? && errorMessage.Some? ==>
                selectedFile.None? && notified.None? && inputFile.None?
    {
      inputFile := picked;
      notified := None;
      if picked.Some? {
        var ok := Validate(picked.value);
        if ok {
          selectedFile := picked;
          notified := picked;
        } else {
          selectedFile := None;
          inputFile := None;
        }
      }
    }

    method HandleDragOver()
      modifies this`isDragging
      ensures isDragging
    {
      isDragging := true;
    }

    method HandleDragLeave()
      modifies this`isDragging
      ensures !isDragging
    {
      isDragging := false;
    }

    /** `handleDrop`: as `handleFileChange`, except that it ends the drag and
        leaves the input element alone. */
    method HandleDrop(dropped: Option<FileIntake.FileInput>)
      returns (notified: Option<FileIntake.FileInput>)
      modifies this
      ensures !isDragging && inputFile == old(inputFile)
      ensures dropped.None? ==> notified.None?
      ensures dropped.None? ==> selectedFile == old(selectedFile) && errorMessage == old(errorMessage)
      ensures dropped.Some? ==> errorMessage == ValidateFile(dropped.value, accept, maxSize)
      ensures dropped.Some? && errorMessage.None? ==> selectedFile == dropped && notified == dropped
      ensures dropped.Some? && errorMessage.Some? ==> selectedFile.None? && notified.None?
    {
      isDragging := false;
      notified := None;
      if dropped.Some? {
        var ok := Validate(dropped.value);
        if ok {
          selectedFile := dropped;
          notified := dropped;
        } else {
          selectedFile := None;
        }
      }
    }

    /** `handleRemoveFile`: clears the selection, the message and the input. */
    method HandleRemoveFile()
      modifies this
      ensures selectedFile.None? && errorMessage.None? && inputFile.None?
      ensures isDragging == old(isDragging)
    {
      selectedFile := None;
      errorMessage := None;
      inputFile := None;
    }
  }
}
