/** The image controller (src/controllers/image.js) and the promotion of
    temporary images (src/utils/fileUtils.js), over an abstract file system:
    the set of (directory, file name) pairs that exist. */
module ImageFiles {
  import opened Wrappers
  import opened Js
  import opened PosixPath
  import opened ImageUtils
  import opened ImageRoutes

  /** The three directories the image code touches. */
  datatype Dir = TempUploads | TempImages | Images

  function DirName(d: Dir): (r: string)
    ensures d != TempUploads ==> ServableDirectory(r)
  {
    match d
    case TempUploads => "temp_uploads"
    case TempImages => "temp_images"
    case Images => "images"
  }

  /** The directory a served URL names, if it is one of the public two. */
  function PublicDir(directory: string): (r: Option<Dir>)
    ensures r.Some? <==> ServableDirectory(directory)
    ensures r.Some? ==> DirName(r.value) == directory && r.value != TempUploads
  {
    if directory == "images" then Some(Images)
    else if directory == "temp_images" then Some(TempImages)
    else None
  }

  type Files = set<(Dir, string)>

  predicate HexChar(c: char) {
    ('0' <= c <= '9') || ('a' <= c <= 'f')
  }

  /** The text of `randomBytes(16).toString('hex')`: 32 lower-case
      hexadecimal digits. The random bytes themselves are an input. */
  predicate UniqueId(u: string) {
    |u| == 32 && forall i :: 0 <= i < |u| ==> HexChar(u[i])
  }

  /** `${uniqueId}${path.extname(originalname)}` */
  function GeneratedName(uniqueId: string, originalname: string): (r: string)
    requires UniqueId(uniqueId)
    ensures |r| >= 32
  {
    uniqueId + Extname(originalname)
  }

  /** The stored name keeps the original name's extension, letter case
      included, although the stored content is always JPEG. */
  lemma GeneratedNameKeepsExtension(id: string, originalname: string)
    requires UniqueId(id)
    ensures Extname(GeneratedName(id, originalname)) == Extname(originalname)
  {
    var e := Extname(originalname);
    UniqueIdPlain(id);
    ExtnameAfterDotFreeStem(id, e);
  }

  /** A unique id holds neither '.' nor '/'. */
  lemma UniqueIdPlain(id: string)
    requires UniqueId(id)
    ensures id != [] && forall i :: 0 <= i < |id| ==> id[i] != '.' && id[i] != '/'
  {
    forall i | 0 <= i < |id|
      ensures id[i] != '.' && id[i] != '/'
    {
      assert HexChar(id[i]);
    }
  }

  /** A stored name is a single non-empty path component. */
  lemma GeneratedNameComponent(id: string, originalname: string)
    requires UniqueId(id)
    ensures GeneratedName(id, originalname) != [] && '/' !in GeneratedName(id, originalname)
  {
    UniqueIdPlain(id);
    var e := Extname(originalname);
    assert GeneratedName(id, originalname) == id + e;
    assert '/' !in e;
  }

  /** A stored name whose extension is made of safe characters passes the
      sanitising check of the delete and serve handlers, and does not start
      with '.'. */
  lemma GeneratedNameIsSafe(id: string, originalname: string)
    requires UniqueId(id) && SafeName(Extname(originalname))
    ensures SafeName(GeneratedName(id, originalname))
    ensures GeneratedName(id, originalname)[0] != '.'
  {
    var e := Extname(originalname);
    var r := id + e;
    assert GeneratedName(id, originalname) == r;
    forall i | 0 <= i < |r|
      ensures SafeChar(r[i])
    {
      if i < |id| {
        assert HexChar(id[i]);
      } else {
        assert r[i] == e[i - |id|];
      }
    }
    assert HexChar(id[0]);
  }

  /** A file uploaded by multer into temp_uploads/: its staged name and the
      name the client gave it. */
  datatype StagedFile = StagedFile(path: string, originalname: string)

  /** The file-system step that fails during an upload, if any. */
  datatype UploadFault = NoFault | MkdirFails | TranscodeFails | UnlinkFails | StatFails

  /** The response of uploadAndOptimize. */
  datatype UploadReply =
    | NoFile
    | Uploaded(filename: string, url: string, size: nat, mimeType: string)
    | ProcessingFailed
  {
    function Status(): int {
      match this
      case NoFile => 400
      case Uploaded(_, _, _, _) => 201
      case ProcessingFailed => 500
    }
  }

  /** The response of a handler that answers with a status and a message,
      or the error it throws before answering. */
  datatype Outcome = Replied(status: int, message: string) | Thrown(error: string)

  /** Names that denote a directory once joined to a directory path. */
  predicate DirectoryName(n: string) {
    n == "" || n == "." || n == ".."
  }

  /** The directory an upload is written to. */
  function UploadDir(isTemporary: bool): (d: Dir)
    ensures d != TempUploads
  {
    if isTemporary then TempImages else Images
  }

  /** uploadAndOptimize as a function of the file system before it: the
      files afterwards and the response. */
  function UploadEffect(files: Files, file: Option<StagedFile>, isTemporary: bool, id: string,
                        fault: UploadFault, outputSize: nat): (Files, UploadReply)
    requires UniqueId(id)
  {
    if file.None? then (files, NoFile)
    else StoreUpload(files, file.value, UploadDir(isTemporary), GeneratedName(id, file.value.originalname), fault, outputSize)
  }

  /** The steps of uploadAndOptimize after the stored name is chosen:
      transcode the staged file into dir/name, unlink the staged file, read
      the written size. */
  function StoreUpload(files: Files, file: StagedFile, dir: Dir, name: string,
                       fault: UploadFault, outputSize: nat): (Files, UploadReply)
  {
    var staged := (TempUploads, file.path);
    if fault == MkdirFails || fault == TranscodeFails || staged !in files then (files, ProcessingFailed)
    else
      var written := files + {(dir, name)};
      if fault == UnlinkFails then (written, ProcessingFailed)
      else if fault == StatFails then (written - {staged}, ProcessingFailed)
      else (written - {staged},
            Uploaded(name, "/api/images/" + DirName(dir) + "/" + name, outputSize, "image/jpeg"))
  }

  /** deleteFile as a function of the file system before it. */
  function DeleteEffect(files: Files, imageUrl: Value, dir: Dir, unlinkFails: bool): (Files, Outcome) {
    if !Truthy(imageUrl) then (files, Replied(400, "Image URL is required in the request body."))
    else if !imageUrl.Str? then (files, Thrown("TypeError"))
    else
      var filename := Basename(imageUrl.s);
      // sanitizeFilename(filename) !== filename, by SanitizeFixedPoint
      if !SafeName(filename) then (files, Replied(400, "Invalid filename."))
      else if DirectoryName(filename) then (files, Replied(500, "Could not delete the image."))
      else if (dir, filename) !in files then (files, Replied(404, "Image not found."))
      else if unlinkFails then (files, Replied(500, "Could not delete the image."))
      else (files - {(dir, filename)}, Replied(200, "Image deleted successfully."))
  }

  /** The status of `GET /:directory/:filename`: the directory guard, then
      serveImage. A name starting with '.' is refused by the file sender
      without an ENOENT code, and so is answered with 500. */
  function ServeStatus(files: Files, directory: string, filename: string, readFails: bool): int {
    if !ServableDirectory(directory) then 404
    // sanitizeFilename(filename) !== filename, by SanitizeFixedPoint
    else if !SafeName(filename) then 400
    else if filename == [] || filename[0] == '.' then 500
    else if (PublicDir(directory).value, filename) !in files then 404
    else if readFails then 500
    else 200
  }

  const TempPrefix := "/api/images/temp_images/"

  /** promoteTempImage as a function of the file system before it. */
  function Promote(files: Files, tempUrl: string, renameFails: bool): (Files, Option<string>) {
    if tempUrl == [] || !StartsWith(tempUrl, TempPrefix) then (files, None)
    else
      var filename := Basename(tempUrl);
      if DirectoryName(filename) then (files, None)
      else if (TempImages, filename) in files then
        if renameFails then (files, None)
        else (files - {(TempImages, filename)} + {(Images, filename)}, Some("/api/images/" + filename))
      else if (Images, filename) in files then (files, Some("/api/images/" + filename))
      else (files, None)
  }

  /** promoteTempImage as evidently intended: the returned URL names the
      directory the file now lives in. */
  function PromoteIntended(files: Files, tempUrl: string, renameFails: bool): (r: (Files, Option<string>))
    ensures r.0 == Promote(files, tempUrl, renameFails).0
    ensures r.1.Some? <==> Promote(files, tempUrl, renameFails).1.Some?
  {
    var (after, url) := Promote(files, tempUrl, renameFails);
    if url.Some? then (after, Some("/api/images/images/" + Basename(tempUrl))) else (after, None)
  }

  /** The image files, with the handlers that change them. */
  class ImageStore {
    var files: Files

    constructor(initial: Files)
      ensures files == initial
    {
      files := initial;
    }

    /** uploadAndOptimize: check for a file, pick the stored name, write the
        JPEG, remove the staged file, read the written size. */
    method UploadAndOptimize(file: Option<StagedFile>, isTemporary: bool, id: string,
                             fault: UploadFault, outputSize: nat) returns (reply: UploadReply)
      requires UniqueId(id)
      modifies this
      ensures (files, reply) == UploadEffect(old(files), file, isTemporary, id, fault, outputSize)
    {
      if file.None? {
        return NoFile;
      }
      var staged := (TempUploads, file.value.path);
      var filename := GeneratedName(id, file.value.originalname);
      var dir := UploadDir(isTemporary);
      if fault == MkdirFails {
        return ProcessingFailed;
      }
      if fault == TranscodeFails || staged !in files {
        return ProcessingFailed;
      }
      files := files + {(dir, filename)};
      if fault == UnlinkFails {
        return ProcessingFailed;
      }
      files := files - {staged};
      if fault == StatFails {
        return ProcessingFailed;
      }
      reply := Uploaded(filename, "/api/images/" + DirName(dir) + "/" + filename, outputSize, "image/jpeg");
    }

    /** uploadImage: a permanent upload. */
    method UploadImage(file: Option<StagedFile>, id: string, fault: UploadFault, outputSize: nat)
      returns (reply: UploadReply)
      requires UniqueId(id)
      modifies this
      ensures (files, reply) == UploadEffect(old(files), file, false, id, fault, outputSize)
    {
      reply := UploadAndOptimize(file, false, id, fault, outputSize);
    }

    /** deleteFile: check the URL, check its file name, unlink. */
    method DeleteFile(imageUrl: Value, dir: Dir, unlinkFails: bool) returns (out: Outcome)
      modifies this
      ensures (files, out) == DeleteEffect(old(files), imageUrl, dir, unlinkFails)
    {
      if !Truthy(imageUrl) {
        return Replied(400, "Image URL is required in the request body.");
      }
      if !imageUrl.Str? {
        return Thrown("TypeError");
      }
      var filename := Basename(imageUrl.s);
      var sanitized := Sanitize(filename);
      SanitizeFixedPoint(filename);
      if sanitized != filename {
        return Replied(400, "Invalid filename.");
      }
      if DirectoryName(sanitized) {
        return Replied(500, "Could not delete the image.");
      }
      if (dir, sanitized) !in files {
        return Replied(404, "Image not found.");
      }
      if unlinkFails {
        return Replied(500, "Could not delete the image.");
      }
      files := files - {(dir, sanitized)};
      out := Replied(200, "Image deleted successfully.");
    }

    /** deleteImage: delete from images/. */
    method DeleteImage(imageUrl: Value, unlinkFails: bool) returns (out: Outcome)
      modifies this
      ensures (files, out) == DeleteEffect(old(files), imageUrl, Images, unlinkFails)
    {
      out := DeleteFile(imageUrl, Images, unlinkFails);
    }

    /** The serve route: the directory guard, then serveImage. Nothing
        changes. */
    method ServeImage(directory: string, filename: string, readFails: bool) returns (status: int)
      ensures status == ServeStatus(files, directory, filename, readFails)
    {
      if directory != "images" && directory != "temp_images" {
        return 404;
      }
      var sanitized := Sanitize(filename);
      SanitizeFixedPoint(filename);
      if sanitized != filename {
        return 400;
      }
      if sanitized == [] || sanitized[0] == '.' {
        return 500;
      }
      var dir := if directory == "images" then Images else TempImages;
      if (dir, sanitized) !in files {
        return 404;
      }
      status := if readFails then 500 else 200;
    }

    /** promoteTempImage: check the URL, then move temp_images/<name> to
        images/<name>, or find it already there. */
    method PromoteTempImage(tempUrl: string, renameFails: bool) returns (url: Option<string>)
      modifies this
      ensures (files, url) == Promote(old(files), tempUrl, renameFails)
    {
      if tempUrl == [] || !StartsWith(tempUrl, TempPrefix) {
        return None;
      }
      var filename := Basename(tempUrl);
      if DirectoryName(filename) {
        return None;
      }
      if (TempImages, filename) in files {
        if renameFails {
          return None;
        }
        files := files - {(TempImages, filename)} + {(Images, filename)};
        return Some("/api/images/" + filename);
      }
      if (Images, filename) in files {
        return Some("/api/images/" + filename);
      }
      url := None;
    }
  }

  // Properties of the handlers, stated on the functions that specify them.

  /** Without a file, the upload answers 400 and changes nothing. */
  lemma UploadWithoutFile(files: Files, isTemporary: bool, id: string, fault: UploadFault, size: nat)
    requires UniqueId(id)
    ensures UploadEffect(files, None, isTemporary, id, fault, size) == (files, NoFile)
    ensures NoFile.Status() == 400
  {
  }

  /** A successful upload answers 201 with the stored name, the written
      size, the JPEG type, and a URL naming the directory and the file; it
      removes the staged file and adds exactly the stored file. */
  lemma StoreUploadSuccess(files: Files, file: StagedFile, dir: Dir, name: string, size: nat)
    requires dir != TempUploads && (TempUploads, file.path) in files
    ensures var (after, reply) := StoreUpload(files, file, dir, name, NoFault, size);
            reply.Uploaded? && reply.Status() == 201 && reply.mimeType == "image/jpeg" &&
            reply.filename == name && reply.size == size &&
            reply.url == Mount + DirName(dir) + "/" + name &&
            after == files - {(TempUploads, file.path)} + {(dir, name)}
  {
    AddThenRemove(files, (dir, name), (TempUploads, file.path));
  }

  lemma AddThenRemove<T>(s: set<T>, a: T, b: T)
    requires a != b
    ensures s + {a} - {b} == s - {b} + {a}
  {
  }

  /** The same, for the upload with its generated name. */
  lemma UploadSuccess(files: Files, file: StagedFile, isTemporary: bool, id: string, size: nat)
    requires UniqueId(id)
    requires (TempUploads, file.path) in files
    ensures var (after, reply) := UploadEffect(files, Some(file), isTemporary, id, NoFault, size);
            var dir, name := UploadDir(isTemporary), GeneratedName(id, file.originalname);
            reply.Uploaded? && reply.Status() == 201 && reply.mimeType == "image/jpeg" &&
            reply.filename == name && reply.size == size &&
            reply.url == Mount + DirName(dir) + "/" + name &&
            after == files - {(TempUploads, file.path)} + {(dir, name)}
  {
    StoreUploadSuccess(files, file, UploadDir(isTemporary), GeneratedName(id, file.originalname), size);
  }

  /** The URL a stored upload returns is matched by the serve route, with
      the upload's directory and stored name as parameters. */
  lemma StoredUrlRoutes(files: Files, file: StagedFile, dir: Dir, name: string, size: nat)
    requires dir != TempUploads && (TempUploads, file.path) in files
    requires name != [] && '/' !in name
    ensures var reply := StoreUpload(files, file, dir, name, NoFault, size).1;
            reply.Uploaded? && ServeParams(reply.url) == Some((DirName(dir), name))
  {
    StoreUploadSuccess(files, file, dir, name, size);
    ServeParamsOf(DirName(dir), name);
  }

  lemma UploadedUrlRoutes(files: Files, file: StagedFile, isTemporary: bool, id: string, size: nat)
    requires UniqueId(id)
    requires (TempUploads, file.path) in files
    ensures var reply := UploadEffect(files, Some(file), isTemporary, id, NoFault, size).1;
            reply.Uploaded? && ServeParams(reply.url) == Some((DirName(UploadDir(isTemporary)), GeneratedName(id, file.originalname)))
  {
    var dir, name := UploadDir(isTemporary), GeneratedName(id, file.originalname);
    GeneratedNameComponent(id, file.originalname);
    assert UploadEffect(files, Some(file), isTemporary, id, NoFault, size) == StoreUpload(files, file, dir, name, NoFault, size);
    StoredUrlRoutes(files, file, dir, name, size);
  }

  /** Every failed upload answers 500; the staged file is left in place
      unless the failure came after it was removed. */
  lemma UploadFailure(files: Files, file: StagedFile, isTemporary: bool, id: string, fault: UploadFault, size: nat)
    requires UniqueId(id) && fault != NoFault
    ensures var (after, reply) := UploadEffect(files, Some(file), isTemporary, id, fault, size);
            reply == ProcessingFailed && reply.Status() == 500 &&
            ((TempUploads, file.path) in after <==> (TempUploads, file.path) in files && fault != StatFails)
  {
    StoreUploadFailure(files, file, UploadDir(isTemporary), GeneratedName(id, file.originalname), fault, size);
  }

  /** The same, for any public directory and stored name. */
  lemma StoreUploadFailure(files: Files, file: StagedFile, dir: Dir, name: string, fault: UploadFault, size: nat)
    requires dir != TempUploads && fault != NoFault
    ensures var (after, reply) := StoreUpload(files, file, dir, name, fault, size);
            reply == ProcessingFailed &&
            ((TempUploads, file.path) in after <==> (TempUploads, file.path) in files && fault != StatFails)
  {
    assert (dir, name) != (TempUploads, file.path);
  }

  /** A stored image with a serveable name is served with 200. */
  lemma StoredThenServed(files: Files, file: StagedFile, dir: Dir, name: string, size: nat)
    requires dir != TempUploads && (TempUploads, file.path) in files
    requires SafeName(name) && name != [] && name[0] != '.'
    ensures ServeStatus(StoreUpload(files, file, dir, name, NoFault, size).0, DirName(dir), name, false) == 200
  {
    StoreUploadSuccess(files, file, dir, name, size);
    assert PublicDir(DirName(dir)) == Some(dir);
  }

  /** A stored image with a serveable name can be deleted through its own
      URL, which removes exactly that file. */
  lemma StoredThenDeleted(files: Files, file: StagedFile, dir: Dir, name: string, size: nat)
    requires dir != TempUploads && (TempUploads, file.path) in files
    requires SafeName(name) && name != [] && name[0] != '.'
    ensures var (after, reply) := StoreUpload(files, file, dir, name, NoFault, size);
            reply.Uploaded? &&
            DeleteEffect(after, Str(reply.url), dir, false)
              == (after - {(dir, name)}, Replied(200, "Image deleted successfully."))
  {
    StoreUploadSuccess(files, file, dir, name, size);
    DeleteByOwnUrl(StoreUpload(files, file, dir, name, NoFault, size).0, dir, name);
  }

  /** Deleting through the URL of a stored file with a serveable name
      removes exactly that file. */
  lemma DeleteByOwnUrl(files: Files, dir: Dir, name: string)
    requires SafeName(name) && name != [] && name[0] != '.' && (dir, name) in files
    ensures DeleteEffect(files, Str(Mount + DirName(dir) + "/" + name), dir, false)
              == (files - {(dir, name)}, Replied(200, "Image deleted successfully."))
  {
    assert '/' !in name;
    assert Mount + DirName(dir) + "/" + name == (Mount + DirName(dir)) + "/" + name;
    BasenameOfUrl(Mount + DirName(dir), name);
    assert !DirectoryName(name);
  }

  /** An uploaded image (with a safe extension) is served with 200; its
      generated name meets the conditions of StoredThenDeleted, so
      it can also be deleted through the URL the upload returned. */
  lemma UploadThenServe(files: Files, file: StagedFile, isTemporary: bool, id: string, size: nat)
    requires UniqueId(id) && (TempUploads, file.path) in files
    requires SafeName(Extname(file.originalname))
    ensures var r := UploadEffect(files, Some(file), isTemporary, id, NoFault, size);
            ServeStatus(r.0, DirName(UploadDir(isTemporary)), GeneratedName(id, file.originalname), false) == 200
  {
    var name := GeneratedName(id, file.originalname);
    GeneratedNameIsSafe(id, file.originalname);
    GeneratedNameComponent(id, file.originalname);
    var dir := UploadDir(isTemporary);
    var r := UploadEffect(files, Some(file), isTemporary, id, NoFault, size);
    assert r == StoreUpload(files, file, dir, name, NoFault, size);
    StoredThenServed(files, file, dir, name, size);

  }

  /** The last component of `dir/name` is name. */
  lemma BasenameOfUrl(dir: string, name: string)
    requires name != [] && '/' !in name
    ensures Basename(dir + "/" + name) == name
  {
    var url := dir + "/" + name;
    assert StripTrailingSlashes(url) == url;
    AfterLastSlashSplit(dir, name);
  }

  /** Delete without a URL answers 400. */
  lemma DeleteNeedsUrl(files: Files, imageUrl: Value, dir: Dir, unlinkFails: bool)
    requires !Truthy(imageUrl)
    ensures DeleteEffect(files, imageUrl, dir, unlinkFails) == (files, Replied(400, "Image URL is required in the request body."))
  {
  }

  /** Delete refuses a URL whose file name sanitising would change. */
  lemma DeleteRefusesUnsafeName(files: Files, url: string, dir: Dir, unlinkFails: bool)
    requires url != [] && Sanitize(Basename(url)) != Basename(url)
    ensures DeleteEffect(files, Str(url), dir, unlinkFails) == (files, Replied(400, "Invalid filename."))
  {
    SanitizeFixedPoint(Basename(url));
  }

  /** Every answer of delete other than 200 leaves the files as they were. */
  lemma DeleteRefusalChangesNothing(files: Files, imageUrl: Value, dir: Dir, unlinkFails: bool)
    requires DeleteEffect(files, imageUrl, dir, unlinkFails).1 != Replied(200, "Image deleted successfully.")
    ensures DeleteEffect(files, imageUrl, dir, unlinkFails).0 == files
  {
  }

  /** A delete answered 200 removed exactly the one existing file the URL
      names. */
  lemma DeleteRemovesExactlyOne(files: Files, imageUrl: Value, dir: Dir, unlinkFails: bool)
    requires DeleteEffect(files, imageUrl, dir, unlinkFails).1 == Replied(200, "Image deleted successfully.")
    ensures imageUrl.Str? && (dir, Basename(imageUrl.s)) in files
    ensures DeleteEffect(files, imageUrl, dir, unlinkFails).0 == files - {(dir, Basename(imageUrl.s))}
  {
  }

  /** A delete answered 404 named a file that is not there. */
  lemma DeleteMissing(files: Files, imageUrl: Value, dir: Dir, unlinkFails: bool)
    requires DeleteEffect(files, imageUrl, dir, unlinkFails).1 == Replied(404, "Image not found.")
    ensures imageUrl.Str? && (dir, Basename(imageUrl.s)) !in files
  {
  }

  /** Only images/ and temp_images/ are served; temp_uploads/ never is. */
  lemma ServeOnlyPublic(files: Files, directory: string, filename: string, readFails: bool)
    ensures ServeStatus(files, directory, filename, readFails) == 200 ==>
              ServableDirectory(directory) && SafeName(filename) &&
              (PublicDir(directory).value, filename) in files
    ensures ServeStatus(files, "temp_uploads", filename, readFails) == 404
  {
  }

  /** A URL outside temp_images/ is ignored and nothing changes. */
  lemma PromoteIgnoresOtherUrls(files: Files, tempUrl: string, renameFails: bool)
    requires !StartsWith(tempUrl, TempPrefix)
    ensures Promote(files, tempUrl, renameFails) == (files, None)
  {
  }

  /** Promotion moves at most the one file named by the URL, and nothing
      else changes. */
  lemma PromoteTouchesOnlyItsFile(files: Files, tempUrl: string, renameFails: bool, x: (Dir, string))
    requires x.1 != Basename(tempUrl)
    ensures x in Promote(files, tempUrl, renameFails).0 <==> x in files
  {
  }

  /** A successful move leaves the file in images/ and not in temp_images/;
      a file in neither directory yields None. */
  lemma PromoteMoves(files: Files, tempUrl: string)
    requires StartsWith(tempUrl, TempPrefix) && !DirectoryName(Basename(tempUrl))
    ensures var n := Basename(tempUrl);
            var (after, url) := Promote(files, tempUrl, false);
            ((TempImages, n) in files ==>
               url == Some("/api/images/" + n) && (Images, n) in after && (TempImages, n) !in after) &&
            ((TempImages, n) !in files && (Images, n) !in files ==> url.None? && after == files)
  {
  }

  /** Promoting again gives the same URL and changes nothing more. */
  lemma PromoteIdempotent(files: Files, tempUrl: string)
    ensures var (once, url) := Promote(files, tempUrl, false);
            url.Some? ==> Promote(once, tempUrl, false) == (once, url)
  {
  }

  /** As written, the URL of a promoted image has no directory segment, so
      the serve route never matches it. */
  lemma PromotedUrlNotServed(files: Files, tempUrl: string, renameFails: bool)
    ensures var url := Promote(files, tempUrl, renameFails).1;
            url.Some? ==> ServeParams(url.value).None?
  {
    PromoteUrlShape(files, tempUrl, renameFails);
    SingleSegmentNotServed(Basename(tempUrl));
  }

  /** The URL promoteTempImage returns is the mount point followed by the
      bare file name. */
  lemma PromoteUrlShape(files: Files, tempUrl: string, renameFails: bool)
    ensures var url := Promote(files, tempUrl, renameFails).1;
            url.Some? ==> url.value == Mount + Basename(tempUrl)
  {
  }

  /** With the intended URL, a promoted image with a serveable name is
      served from images/ with 200. */
  lemma PromotedUrlServedIntended(files: Files, tempUrl: string)
    requires SafeName(Basename(tempUrl))
    requires Basename(tempUrl) != [] && Basename(tempUrl)[0] != '.'
    ensures var (after, url) := PromoteIntended(files, tempUrl, false);
            url.Some? ==> ServeParams(url.value) == Some(("images", Basename(tempUrl))) &&
                          ServeStatus(after, "images", Basename(tempUrl), false) == 200
  {
    var n := Basename(tempUrl);
    PromoteIntendedShape(files, tempUrl);
    ServeParamsOf("images", n);
    ServedFromImages(PromoteIntended(files, tempUrl, false).0, n);
  }

  /** The intended URL names images/ and the bare file name, and the file
      is then in images/. */
  lemma PromoteIntendedShape(files: Files, tempUrl: string)
    ensures var (after, url) := PromoteIntended(files, tempUrl, false);
            url.Some? ==> url.value == Mount + "images" + "/" + Basename(tempUrl) &&
                          (Images, Basename(tempUrl)) in after
  {
    var n := Basename(tempUrl);
    PromoteLeavesInImages(files, tempUrl);
    IntendedUrlText(n);
  }

  /** A promotion that answers a URL leaves the file in images/. */
  lemma PromoteLeavesInImages(files: Files, tempUrl: string)
    ensures var (after, url) := Promote(files, tempUrl, false);
            url.Some? ==> (Images, Basename(tempUrl)) in after
  {
  }

  lemma IntendedUrlText(n: string)
    ensures "/api/images/images/" + n == Mount + "images" + "/" + n
  {
  }

  /** A file in images/ with a serveable name is served with 200. */
  lemma ServedFromImages(files: Files, n: string)
    requires SafeName(n) && n != [] && n[0] != '.'
    ensures (Images, n) in files ==> ServeStatus(files, "images", n, false) == 200
  {
    assert PublicDir("images") == Some(Images);
  }
}
