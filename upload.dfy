/** The multer upload middleware (src/middleware/upload.js): the MIME type and
    extension filter, and the uploader's destination and size limit. */
module Upload {
  import opened Wrappers
  import opened Js
  import opened PosixPath
  import opened ImageUtils

  /** A multer error: its code, the message multer attaches to it, and the
      field name it was raised for. */
  datatype MulterError = MulterError(code: string, message: Option<string>, field: Option<string>)

  /** multer's fixed message for each of its error codes. */
  function CodeMessage(code: string): Option<string> {
    if code == "LIMIT_PART_COUNT" then Some("Too many parts")
    else if code == "LIMIT_FILE_SIZE" then Some("File too large")
    else if code == "LIMIT_FILE_COUNT" then Some("Too many files")
    else if code == "LIMIT_FIELD_KEY" then Some("Field name too long")
    else if code == "LIMIT_FIELD_VALUE" then Some("Field value too long")
    else if code == "LIMIT_FIELD_COUNT" then Some("Too many fields")
    else if code == "LIMIT_UNEXPECTED_FILE" then Some("Unexpected field")
    else if code == "MISSING_FIELD_NAME" then Some("Field name missing")
    else None
  }

  /** `new multer.MulterError(code, field)`: the message comes from the code;
      the second argument is stored as the field name. */
  function NewMulterError(code: string, field: string): (e: MulterError)
    ensures e.code == code && e.message == CodeMessage(code)
    ensures e.field == (if field == "" then None else Some(field))
  {
    MulterError(code, CodeMessage(code), if field == "" then None else Some(field))
  }

  const FileTypeMessage := "Invalid file type. Only JPEG, PNG, GIF, and WebP are allowed."

  /** The file-type test: an allowed MIME type, exactly as sent, and an
      allowed extension after lower-casing. */
  predicate AcceptedType(mimetype: string, originalname: string) {
    mimetype in AllowedMimeTypes && Lower(Extname(originalname)) in AllowedExtensions
  }

  /** fileFilter as written: a rejected file yields
      `new MulterError('LIMIT_UNEXPECTED_FILE', <file-type text>)`. */
  function FileFilter(mimetype: string, originalname: string): (r: Result<(), MulterError>)
    ensures r.Ok? <==> AcceptedType(mimetype, originalname)
    ensures r.Err? ==> r.error.code == "LIMIT_UNEXPECTED_FILE" && r.error.message == Some("Unexpected field")
    ensures r.Err? ==> r.error.field == Some(FileTypeMessage)
  {
    if mimetype in AllowedMimeTypes && Lower(Extname(originalname)) in AllowedExtensions then Ok(())
    else Err(NewMulterError("LIMIT_UNEXPECTED_FILE", FileTypeMessage))
  }

  /** fileFilter as evidently intended: the file-type text is the error's
      message. */
  function FileFilterIntended(mimetype: string, originalname: string): (r: Result<(), MulterError>)
    ensures r.Ok? <==> AcceptedType(mimetype, originalname)
    ensures r.Err? ==> r.error.code == "LIMIT_UNEXPECTED_FILE" && r.error.message == Some(FileTypeMessage)
  {
    if AcceptedType(mimetype, originalname) then Ok(())
    else Err(MulterError("LIMIT_UNEXPECTED_FILE", Some(FileTypeMessage), None))
  }

  /** Any allowed MIME type goes with any allowed extension: a name made of a
      non-empty '/'-free stem and an allowed extension, in any letter case,
      is accepted. */
  lemma AllowedPairsAccepted(mimetype: string, stem: string, ext: string)
    requires mimetype in AllowedMimeTypes && Lower(ext) in AllowedExtensions
    requires stem != [] && '/' !in stem && '/' !in ext
    requires |ext| >= 2 && ext[0] == '.' && forall i :: 0 < i < |ext| ==> ext[i] != '.'
    ensures FileFilter(mimetype, stem + ext).Ok?
  {
    var n := stem + ext;
    assert '/' !in n;
    BasenameOfComponent(n);
    LastDotOfSuffix(stem, ext);
    assert n[|stem|..] == ext;
    assert n != ".." by {
      assert |n| >= 3;
    }
  }

  /** The MIME test is exact. */
  lemma MimeTypeIsExact()
    ensures FileFilter("IMAGE/JPEG", "photo.jpg").Err?
  {
    var m := "IMAGE/JPEG";
    assert forall a :: a in AllowedMimeTypes ==> a[0] == 'i';
    assert m[0] == 'I';
    assert m !in AllowedMimeTypes;
    assert !AcceptedType(m, "photo.jpg");
  }

  /** A multer instance's settings: staging directory and file size limit. */
  datatype Uploader = Uploader(dest: string, fileSizeLimit: nat)

  const TheUploader := Uploader("temp_uploads/", MaxSize)
  const UploadPermanent := TheUploader
  const UploadTemporary := TheUploader

  /** What `single(field)` makes of one incoming file: the filter runs first,
      then a file over the limit is cut off with LIMIT_FILE_SIZE. */
  function Receive(u: Uploader, field: string, mimetype: string, originalname: string, size: nat): (r: Result<(), MulterError>)
    ensures r.Ok? <==> AcceptedType(mimetype, originalname) && size <= u.fileSizeLimit
    ensures r.Err? && AcceptedType(mimetype, originalname) ==> r.error.code == "LIMIT_FILE_SIZE"
  {
    var filtered := FileFilter(mimetype, originalname);
    if filtered.Err? then filtered
    else if size > u.fileSizeLimit then Err(NewMulterError("LIMIT_FILE_SIZE", field))
    else Ok(())
  }

  /** Both exported uploaders stage into temp_uploads/ with a 10 MB limit. */
  lemma UploadersAlike()
    ensures UploadPermanent == UploadTemporary
    ensures UploadPermanent.dest == "temp_uploads/" && UploadPermanent.fileSizeLimit == 10485760
  {
  }
}
