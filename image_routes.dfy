/** The image router (src/routes/image.js): which URLs reach the serve
    handler, the directory guard in front of it, and the translation of
    multer's errors into responses. */
module ImageRoutes {
  import opened Wrappers
  import opened Js
  import opened ImageUtils
  import opened Upload

  /** The prefix the image router is mounted under. */
  const Mount := "/api/images/"

  /** An error reaching the router's error handler. */
  datatype RouteError = Multer(e: MulterError) | Other(description: string)

  /** What the error handler does: answer, or hand the error to `next`. */
  datatype Handling = Reply(status: int, message: string) | PassOn(err: RouteError)

  /** `${err.message}`: an absent message prints as "undefined". */
  function MessageText(m: Option<string>): string {
    if m.Some? then m.value else "undefined"
  }

  /** The router's error handler.  Only an error that is not multer's gets
      past it, unchanged; every multer error is answered 400, and apart from
      a size error the client reads multer's own message text at the end of
      the answer. */
  function MapUploadError(err: RouteError): (h: Handling)
    ensures h.PassOn? <==> err.Other?
    ensures h.PassOn? ==> h.err == err
    ensures h.Reply? ==> h.status == 400
    ensures err.Multer? && err.e.code != "LIMIT_FILE_SIZE" ==>
              var t := MessageText(err.e.message);
              |t| <= |h.message| && h.message[|h.message| - |t|..] == t
  {
    match err
    case Other(_) => PassOn(err)
    case Multer(e) =>
      if e.code == "LIMIT_FILE_SIZE" then Reply(400, "File is too large. Maximum size is 10MB.")
      else if e.code == "LIMIT_UNEXPECTED_FILE" then Reply(400, MessageText(e.message))
      else Reply(400, "Upload error: " + MessageText(e.message))
  }

  /** What a client sees when multer refuses an upload: the response, or
      None when the file went through. */
  function UploadRejection(u: Uploader, field: string, mimetype: string, originalname: string, size: nat): Option<Handling> {
    var received := Receive(u, field, mimetype, originalname, size);
    if received.Ok? then None else Some(MapUploadError(Multer(received.error)))
  }

  /** As written, a file of the wrong type is answered with multer's own
      "Unexpected field" text: the file-type explanation is lost. */
  lemma RejectionMessageAsWritten(mimetype: string, originalname: string, size: nat)
    requires !AcceptedType(mimetype, originalname)
    ensures UploadRejection(TheUploader, "image", mimetype, originalname, size) == Some(Reply(400, "Unexpected field"))
  {
  }

  /** With the intended filter, the explanation is what the client reads. */
  lemma RejectionMessageIntended(mimetype: string, originalname: string)
    requires !AcceptedType(mimetype, originalname)
    ensures var f := FileFilterIntended(mimetype, originalname);
            f.Err? && MapUploadError(Multer(f.error)) == Reply(400, FileTypeMessage)
  {
  }

  /** An accepted file over 10 MB gets the size message; an accepted file
      within the limit is not refused at all. */
  lemma OversizeMessage(mimetype: string, originalname: string, size: nat)
    requires AcceptedType(mimetype, originalname)
    ensures size > MaxSize ==>
              UploadRejection(TheUploader, "image", mimetype, originalname, size)
                == Some(Reply(400, "File is too large. Maximum size is 10MB."))
    ensures size <= MaxSize ==> UploadRejection(TheUploader, "image", mimetype, originalname, size).None?
  {
    var received := Receive(TheUploader, "image", mimetype, originalname, size);
    assert TheUploader.fileSizeLimit == MaxSize;
    if size > MaxSize {
      SizeErrorHandled(received.error);
    }
  }

  /** Every size error gets the size message. */
  lemma SizeErrorHandled(e: MulterError)
    requires e.code == "LIMIT_FILE_SIZE"
    ensures MapUploadError(Multer(e)) == Reply(400, "File is too large. Maximum size is 10MB.")
  {
  }

  /** The guard of `GET /:directory/:filename`: only the two public image
      directories reach the serve handler. */
  predicate ServableDirectory(directory: string) {
    directory == "images" || directory == "temp_images"
  }

  /** Index of the first '/' in s, or |s|. */
  function FirstSlash(s: string): (k: nat)
    ensures k <= |s| && '/' !in s[..k]
    ensures k < |s| ==> s[k] == '/'
  {
    if s == [] || s[0] == '/' then 0 else 1 + FirstSlash(s[1..])
  }

  /** The `:directory` and `:filename` parameters of a URL matched by
      `/:directory/:filename` under the mount point (each a non-empty
      segment without '/'), or None when the URL does not match. */
  function ServeParams(url: string): (r: Option<(string, string)>)
    ensures r.Some? ==> r.value.0 != [] && r.value.1 != [] && '/' !in r.value.0 && '/' !in r.value.1
    ensures r.Some? ==> url == Mount + r.value.0 + "/" + r.value.1
  {
    if !StartsWith(url, Mount) then None
    else
      var rest := url[|Mount|..];
      var k := FirstSlash(rest);
      if k == 0 || k == |rest| then None
      else
        var d, f := rest[..k], rest[k + 1..];
        if f == [] || '/' in f then None
        else
          assert rest == d + "/" + f;
          assert url == Mount + rest;
          Some((d, f))
  }

  /** A URL made of the mount point, a directory segment and a file name
      is matched with exactly those parameters. */
  lemma {:induction false} ServeParamsOf(d: string, f: string)
    requires d != [] && f != [] && '/' !in d && '/' !in f
    ensures ServeParams(Mount + d + "/" + f) == Some((d, f))
  {
    var url := Mount + d + "/" + f;
    assert url[..|Mount|] == Mount;
    var rest := url[|Mount|..];
    assert rest == d + ("/" + f);
    FirstSlashAt(d, "/" + f);
    assert rest[..|d|] == d;
    assert rest[|d| + 1..] == f;
  }

  lemma {:induction false} FirstSlashAt(d: string, t: string)
    requires '/' !in d && t != [] && t[0] == '/'
    ensures FirstSlash(d + t) == |d|
  {
    if d != [] {
      assert (d + t)[1..] == d[1..] + t;
      FirstSlashAt(d[1..], t);
    }
  }

  /** A URL with a single segment under the mount point never reaches the
      serve handler. */
  lemma SingleSegmentNotServed(f: string)
    requires '/' !in f
    ensures ServeParams(Mount + f).None?
  {
    var url := Mount + f;
    assert url[..|Mount|] == Mount;
    assert url[|Mount|..] == f;
  }
}
