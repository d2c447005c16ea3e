/** Gallery uploads (server/src/routes/files.ts): the MIME type and
    extension allowlist that guards every upload, and the admin-only upload
    and delete endpoints. Storing and unlinking the file on disk is outside
    the model; only the `gallery_images` rows are. */
module FilesRoutes {
  import opened Common
  import opened Domain
  import opened AuthMiddleware
  import opened GalleryImageModel

  const AllowedMimeTypes: seq<string> := ["image/jpeg", "image/jpg", "image/png", "image/gif", "image/webp"]
  const AllowedExtensions: seq<string> := [".jpg", ".jpeg", ".png", ".gif", ".webp"]

  /** The upload size limit: 10 MiB. */
  const MaxUploadBytes: int := 10 * 1024 * 1024

  /** The position of the last `.` in `s`, if any. */
  function LastDot(s: string): (r: Option<nat>)
    ensures r.Some? ==> r.value < |s| && s[r.value] == '.' && forall j :: r.value < j < |s| ==> s[j] != '.'
    ensures r.None? ==> forall j :: 0 <= j < |s| ==> s[j] != '.'
  {
    if s == [] then None
    else if s[|s| - 1] == '.' then Some(|s| - 1)
    else LastDot(s[..|s| - 1])
  }

  /** Node's `path.extname` on a name without separators: from the last
      `.` to the end, except that a name whose only dot is its first
      character, and the name `..`, have no extension. */
  function ExtName(name: string): (r: string)
    ensures r != "" ==> && r[0] == '.' && |r| < |name| && name == name[..|name| - |r|] + r
                        && forall j :: 0 < j < |r| ==> r[j] != '.'
    ensures (forall j :: 0 <= j < |name| ==> name[j] != '.') ==> r == ""
    ensures r == "" <==> (forall j :: 0 < j < |name| ==> name[j] != '.') || name == ".."
  {
    match LastDot(name)
    case None => ""
    case Some(i) =>
      if i == 0 || name == ".." then ""
      else
        assert name == name[..i] + name[i..];
        name[i..]
  }

  /** `toLowerCase` on ASCII letters. */
  function LowerChar(c: char): char
  {
    if 'A' <= c <= 'Z' then (c as int + 32) as char else c
  }

  function Lower(s: string): (r: string)
    ensures |r| == |s| && forall i :: 0 <= i < |s| ==> r[i] == LowerChar(s[i])
  {
    seq(|s|, i requires 0 <= i < |s| => LowerChar(s[i]))
  }

  /** `fileFilter`: the MIME type must be one of the five exactly, and the
      lower-cased extension of the original name one of the five. */
  predicate Accepts(mimeType: string, originalName: string)
    ensures Accepts(mimeType, originalName) ==>
              && mimeType in AllowedMimeTypes
              && exists e :: e in AllowedExtensions && |e| < |originalName|
                             && Lower(originalName[|originalName| - |e|..]) == e
  {
    var ext := ExtName(originalName);
    assert Lower(ext) in AllowedExtensions ==> ext != "" && originalName[|originalName| - |ext|..] == ext;
    mimeType in AllowedMimeTypes && Lower(ext) in AllowedExtensions
  }

  /** When `e` starts with the only dot of `e`, the last dot of `base + e`
      is where `e` starts. */
  lemma {:induction false} LastDotOfSuffix(base: string, e: string)
    requires |e| >= 1 && e[0] == '.' && forall j :: 0 < j < |e| ==> e[j] != '.'
    ensures LastDot(base + e) == Some(|base|)
    decreases |e|
  {
    var s := base + e;
    if |e| == 1 {
      assert s[|s| - 1] == '.';
    } else {
      assert s[|s| - 1] == e[|e| - 1] != '.';
      assert s[..|s| - 1] == base + e[..|e| - 1];
      LastDotOfSuffix(base, e[..|e| - 1]);
    }
  }

  /** Any non-empty base followed by an allowed extension, in any case, is
      accepted exactly when the MIME type is allowed. */
  lemma ExtensionMatchIgnoresCase(mimeType: string, base: string, ext: string)
    requires base != "" && Lower(ext) in AllowedExtensions
    ensures Accepts(mimeType, base + ext) <==> mimeType in AllowedMimeTypes
  {
    var lower := Lower(ext);
    assert lower[0] == '.' && forall j :: 0 < j < |lower| ==> lower[j] != '.';
    assert ext[0] == '.' by {
      assert LowerChar(ext[0]) == '.';
    }
    forall j | 0 < j < |ext| ensures ext[j] != '.' {
      assert LowerChar(ext[j]) != '.';
    }
    LastDotOfSuffix(base, ext);
    var name := base + ext;
    assert name != ".." by {
      assert |name| >= 1 + |ext| && |ext| >= 4;
    }
    assert name[|base|..] == ext;
    assert ExtName(name) == ext;
  }

  /** A name without any dot has no extension and is refused. */
  lemma NoExtensionRefused(mimeType: string, name: string)
    requires forall j :: 0 <= j < |name| ==> name[j] != '.'
    ensures !Accepts(mimeType, name)
  {
    assert Lower("") == "";
  }

  /** `.JPG` is accepted like `.jpg`. */
  lemma UpperCaseExtensionAccepted()
    ensures Accepts("image/jpeg", "lion.JPG")
  {
    assert LowerChar('J') == 'j' && LowerChar('P') == 'p' && LowerChar('G') == 'g';
    assert Lower(".JPG") == AllowedExtensions[0];
    assert "lion" + ".JPG" == "lion.JPG";
    ExtensionMatchIgnoresCase("image/jpeg", "lion", ".JPG");
  }

  /** The MIME type is compared as written. */
  lemma MimeTypeCaseMatters()
    ensures !Accepts("IMAGE/JPEG", "lion.jpg")
  {
    var upper := "IMAGE/JPEG";
    assert upper[0] == 'I';
    assert forall k :: 0 <= k < |AllowedMimeTypes| ==> AllowedMimeTypes[k][0] == 'i';
    assert upper !in AllowedMimeTypes;
  }

  /** A name that is nothing but an extension has none. */
  lemma DotFileRefused()
    ensures !Accepts("image/png", ".png")
  {
    var name := ".png";
    assert forall j :: 0 < j < |name| ==> name[j] != '.';
    assert name != "..";
    assert ExtName(name) == "";
    assert "" !in AllowedExtensions;
  }

  /** Only the last extension counts. */
  lemma LastExtensionDecides()
    ensures !Accepts("image/png", "lion.png.exe")
  {
    LastDotOfSuffix("lion.png", ".exe");
    assert "lion.png.exe" == "lion.png" + ".exe";
    assert ExtName("lion.png.exe") == ".exe";
    assert Lower(".exe") == ".exe";
    forall e | e in AllowedExtensions ensures e != ".exe" {
      assert e[1] != 'e';
    }
  }

  /** The file part of a multipart upload. */
  datatype UploadedFile = UploadedFile(originalName: string, mimeType: string, size: int)

  /** The `image` object of a successful upload. */
  datatype UploadAnswer = UploadAnswer(id: int, filename: string, url: string)

  /** `POST /admin/gallery`: `requireAdmin`, then the upload middleware,
      whose errors (a refused file, a file over the size limit) reach the
      application's error handler as 500; 400 when no file came; otherwise
      one row for the stored file, named `suffix` (time and randomness) plus
      the original extension, uploaded by the caller. */
  method Upload(req: Request, file: Option<UploadedFile>, suffix: string, gallery: GalleryTable, now: int)
    returns (reply: Reply<UploadAnswer>)
    requires gallery.Valid()
    modifies req, gallery
    ensures gallery.Valid() && req.session == old(req.session)
    ensures Decide(old(req.session), true).Deny? ==>
              reply == Fail(Decide(old(req.session), true).code, Decide(old(req.session), true).error)
    ensures (Decide(old(req.session), true).Next? && file.Some?
             && (!Accepts(file.value.mimeType, file.value.originalName) || file.value.size > MaxUploadBytes))
            ==> reply == Fail(500, "Internal server error")
    ensures Decide(old(req.session), true).Next? && file.None? ==> reply == Fail(400, "No image file uploaded")
    ensures reply.Ok? <==> && Decide(old(req.session), true).Next? && file.Some?
                           && Accepts(file.value.mimeType, file.value.originalName)
                           && file.value.size <= MaxUploadBytes
    ensures reply.Fail? ==> gallery.rows == old(gallery.rows) && gallery.nextId == old(gallery.nextId)
    ensures reply.Ok? ==>
              var id := old(gallery.nextId);
              var name := suffix + ExtName(file.value.originalName);
              && gallery.rows == old(gallery.rows)[id := GalleryImage(id, name, old(req.session).value.id, now)]
              && gallery.nextId == id + 1
              && reply == Ok(201, UploadAnswer(id, name, "/uploads/" + name))
  {
    var gate := RequireAdmin(req);
    if gate.Deny? {
      return Fail(gate.code, gate.error);
    }
    if file.Some? {
      if !Accepts(file.value.mimeType, file.value.originalName) || file.value.size > MaxUploadBytes {
        return Fail(500, "Internal server error");
      }
    }
    if file.None? {
      return Fail(400, "No image file uploaded");
    }
    var name := suffix + ExtName(file.value.originalName);
    var id := gallery.Create(name, req.user.value.id, now);
    reply := Ok(201, UploadAnswer(id, name, "/uploads/" + name));
  }

  /** `DELETE /admin/gallery/:id`: `requireAdmin`, 400 for an id that does
      not parse, 404 for an unknown image, otherwise exactly that row goes. */
  method DeleteImage(req: Request, id: Option<int>, gallery: GalleryTable) returns (reply: Reply<string>)
    requires gallery.Valid()
    modifies req, gallery
    ensures gallery.Valid() && gallery.nextId == old(gallery.nextId) && req.session == old(req.session)
    ensures Decide(old(req.session), true).Deny? ==>
              reply == Fail(Decide(old(req.session), true).code, Decide(old(req.session), true).error)
    ensures Decide(old(req.session), true).Next? && id.None? ==> reply == Fail(400, "Invalid image ID")
    ensures Decide(old(req.session), true).Next? && id.Some? && id.value !in old(gallery.rows)
            ==> reply == Fail(404, "Image not found")
    ensures reply.Ok? <==> Decide(old(req.session), true).Next? && id.Some? && id.value in old(gallery.rows)
    ensures reply.Fail? ==> gallery.rows == old(gallery.rows)
    ensures reply.Ok? ==> gallery.rows == old(gallery.rows) - {id.value} && reply == Ok(200, "Image deleted successfully")
  {
    var gate := RequireAdmin(req);
    if gate.Deny? {
      return Fail(gate.code, gate.error);
    }
    if id.None? {
      return Fail(400, "Invalid image ID");
    }
    var image := Lookup(gallery.rows, id.value);
    if image.None? {
      return Fail(404, "Image not found");
    }
    gallery.Delete(id.value);
    reply := Ok(200, "Image deleted successfully");
  }
}
