/** The request listener over the files on disk: dispatch by route, the
    upload handler's steps on the file system, and the read-only branches. */
module Server {
  import opened Options
  import opened Text
  import opened Paths
  import opened Http
  import opened Routing
  import opened Upload
  import opened Serving

  const PageNotFound: Response :=
    Response(404, ContentType("text/html"), Text("<h1>\U{26A0}\U{FE0F} Page not found</h1>"))

  /** The answer of every branch except the upload handler, which is the only
      one that changes the files. `home` is the server's own directory. */
  function Respond(fs: map<string, Bytes>, home: seq<string>, route: Route, url: string,
                   decode: string -> Option<string>): (r: Reply)
    requires route != UploadHandler
    ensures route == Index ==>
      r == Sent(ServeStaticFile(fs, Spell(home) + "/public/" + "index.html", "text/html"))
    ensures route == StyleSheet ==>
      r == Sent(ServeStaticFile(fs, Spell(home) + "/public/" + "style.css", "text/css"))
    ensures route == Banner ==>
      r == Sent(ServeStaticFile(fs, Spell(home) + "/public/" + "banner.png", "image/jpeg"))
    ensures route == UploadedFile ==> r == ServeUploaded(fs, home + ["uploads"], url, decode)
    ensures route == NotFound ==> r == Sent(PageNotFound)
    ensures r.Thrown? ==> route == UploadedFile
  {
    match route
    case Index => Sent(ServeStaticFile(fs, PublicFile(home, "index.html"), "text/html"))
    case StyleSheet => Sent(ServeStaticFile(fs, PublicFile(home, "style.css"), "text/css"))
    case Banner => Sent(ServeStaticFile(fs, PublicFile(home, "banner.png"), "image/jpeg"))
    case UploadedFile => ServeUploaded(fs, home + ["uploads"], url, decode)
    case NotFound => Sent(PageNotFound)
  }

  /** `path.join(publicDir, n)` for a plain asset name: the file `n` in the
      "public" directory beside the server. */
  function PublicFile(home: seq<string>, n: string): (p: string)
    requires IsPlainSegment(n)
    ensures p == Spell(home) + "/public/" + n
  {
    JoinPlain(home + ["public"], n);
    RenderChild(home, "public");
    assert Spell(home + ["public"]) == Render(home + ["public"]);
    Join(home + ["public"], n)
  }

  /** A file accepted under a plain name is served back at once from
      /uploads/<name> with the uploaded bytes and the media type of its
      extension. */
  lemma UploadThenServe(fs: map<string, Bytes>, home: seq<string>, form: FormResult,
                        url: string, decode: string -> Option<string>, n: string)
    requires UploadStep(fs, form, home + ["uploads"], false).0 == Saved(n)
    requires IsPlainSegment(n)
    requires decode(ReplaceFirst(url, UploadPrefix, "")) == Some(n)
    ensures var after := UploadStep(fs, form, home + ["uploads"], false).1;
      var p := Spell(home + ["uploads"]) + "/" + n;
      ServeUploaded(after, home + ["uploads"], url, decode)
        == Sent(Response(200, ContentType(MediaTypeOf(p)), Data(fs[form.tempPath])))
    ensures n !in AllowedExt ==> MediaTypeOf(Spell(home + ["uploads"]) + "/" + n) != "application/octet-stream"
  {
    var dir := home + ["uploads"];
    JoinPlain(dir, n);
    PlainNameServed(UploadStep(fs, form, dir, false).1, dir, url, decode, n);
    if n !in AllowedExt {
      AllowedNameMediaType(dir, n);
    }
  }

  /** The server process: the files it sees and its fixed configuration. */
  class FileServer {
    /** The file system, by absolute path. */
    var files: map<string, Bytes>
    /** The segments of the directory the server file lives in. */
    const home: seq<string>
    /** Stand-ins for `encodeURIComponent` and `decodeURIComponent`. */
    const encode: string -> string
    const decode: string -> Option<string>
    /** Whether an exception escaped the listener: Node then ends the
        process, and no further request is answered. */
    var crashed: bool

    /** `__dirname` is an absolute, normalised directory. */
    constructor (home: seq<string>, encode: string -> string, decode: string -> Option<string>,
                 files: map<string, Bytes>)
      requires AllPlain(home)
      ensures this.home == home && this.encode == encode && this.decode == decode
      ensures this.files == files && !crashed
      ensures AllPlain(UploadDir())
    {
      this.home := home;
      this.encode := encode;
      this.decode := decode;
      this.files := files;
      this.crashed := false;
      new;
      assert IsPlainSegment("uploads");
    }

    /** `uploadDir`: "uploads" inside the server's directory. */
    function UploadDir(): seq<string> {
      home + ["uploads"]
    }

    /** `fs.unlinkSync(path)` on an existing file. */
    method Unlink(path: string)
      requires path in files
      modifies this
      ensures files == old(files) - {path} && crashed == old(crashed)
      ensures forall p :: p != path ==> (p in files <==> p in old(files))
    {
      files := files - {path};
    }

    /** `fs.rename(src, dst)`: fails when `src` is missing or `fault` (the
        environment) says so, and leaves the files as they were; otherwise
        `dst` takes `src`'s contents, replacing any file there, and `src` is
        gone. */
    method Rename(src: string, dst: string, fault: bool) returns (ok: bool)
      modifies this
      ensures ok <==> src in old(files) && !fault
      ensures ok ==> files == (old(files) - {src})[dst := old(files)[src]]
      ensures !ok ==> files == old(files)
      ensures crashed == old(crashed)
    {
      ok := src in files && !fault;
      if ok {
        var contents := files[src];
        files := (files - {src})[dst := contents];
      }
    }

    /** The POST /upload callback, given what the multipart parser produced. */
    method HandleUpload(form: FormResult, renameFault: bool) returns (resp: Response)
      modifies this
      ensures var step := UploadStep(old(files), form, UploadDir(), renameFault);
        files == step.1 && resp == UploadResponse(step.0, encode)
      ensures crashed == old(crashed)
    {
      match form {
        case ParseFailed =>
          resp := UploadResponse(UploadFailed, encode);
        case NoFile =>
          resp := UploadResponse(NoFileUploaded, encode);
        case FileField(original, tempPath) =>
          var fileName := StoredName(original);
          if !IsAllowedName(fileName) {
            if tempPath != "" && tempPath in files {
              Unlink(tempPath);
            }
            resp := UploadResponse(InvalidFormat, encode);
            return;
          }
          var newPath := Join(UploadDir(), fileName);
          var ok := Rename(tempPath, newPath, renameFault);
          if !ok {
            resp := UploadResponse(SaveFailed, encode);
            return;
          }
          resp := UploadResponse(Saved(fileName), encode);
      }
    }

    /** The request listener. `form` is what the multipart parser makes of
        the body and `renameFault` whether the file system refuses the move;
        both matter only to POST /upload. */
    method Handle(req: Request, form: FormResult, renameFault: bool) returns (reply: Reply)
      requires !crashed
      modifies this
      ensures RouteOf(req.verb, req.url) == UploadHandler ==>
        var step := UploadStep(old(files), form, UploadDir(), renameFault);
        files == step.1 && reply == Sent(UploadResponse(step.0, encode))
      ensures RouteOf(req.verb, req.url) != UploadHandler ==>
        files == old(files) && reply == Respond(files, home, RouteOf(req.verb, req.url), req.url, decode)
      ensures crashed <==> reply.Thrown?
    {
      var route := RouteOf(req.verb, req.url);
      if route == UploadHandler {
        var resp := HandleUpload(form, renameFault);
        reply := Sent(resp);
      } else {
        reply := Respond(files, home, route, req.url, decode);
        crashed := reply.Thrown?;
      }
    }
  }

  lemma PhotoRoutes()
    ensures RouteOf("POST", "/upload") == UploadHandler
    ensures RouteOf("GET", "/uploads/photo.jpg") == UploadedFile
  {
    assert StartsWith("/uploads/photo.jpg", "/uploads/");
    assert "/uploads/photo.jpg"[1] == 'u';
  }

  lemma PhotoRest(url: string)
    requires url == "/uploads/photo.jpg"
    ensures ReplaceFirst(url, UploadPrefix, "") == "photo.jpg"
  {
    UploadsRest(url, "photo.jpg");
  }

  lemma PhotoMediaType(dir: seq<string>)
    ensures MediaTypeOf(Spell(dir) + "/" + "photo.jpg") == "image/jpeg"
  {
    var n := "photo.jpg";
    UpperCaseExtensionAllowed();
    PhotoNameIsPlain();
    assert NoUpper(n) && n !in AllowedExt && EndsWith(n, ".jpg");
    AllowedNameMediaType(dir, n);
  }

  /** The stored "Photo.JPG" is found at /uploads/photo.jpg and sent as a JPEG. */
  lemma PhotoFetched(home: seq<string>, decode: string -> Option<string>, temp: string, photo: Bytes, url: string)
    requires url == "/uploads/photo.jpg"
    requires decode("photo.jpg") == Some("photo.jpg")
    ensures var step := UploadStep(map[temp := photo], FileField(Some("Photo.JPG"), temp), home + ["uploads"], false);
      && step.0 == Saved("photo.jpg")
      && ServeUploaded(step.1, home + ["uploads"], url, decode)
           == Sent(Response(200, ContentType("image/jpeg"), Data(photo)))
  {
    var fs, dir := map[temp := photo], home + ["uploads"];
    var form := FileField(Some("Photo.JPG"), temp);
    var n := "photo.jpg";
    PhotoStoredLowerCased(fs, dir, temp);
    PhotoRest(url);
    PhotoNameIsPlain();
    UploadThenServe(fs, home, form, url, decode, n);
    PhotoMediaType(dir);
  }

  /** A client of the class: a photo uploaded as "Photo.JPG" is fetched back
      from /uploads/photo.jpg as a JPEG with the uploaded bytes. */
  method UploadThenDownload(home: seq<string>, encode: string -> string, decode: string -> Option<string>,
                            temp: string, photo: Bytes)
    returns (uploaded: Reply, fetched: Reply)
    requires AllPlain(home)
    requires decode("photo.jpg") == Some("photo.jpg")
    ensures uploaded == Sent(UploadResponse(Saved("photo.jpg"), encode))
    ensures fetched == Sent(Response(200, ContentType("image/jpeg"), Data(photo)))
  {
    var server := new FileServer(home, encode, decode, map[temp := photo]);
    PhotoRoutes();
    PhotoFetched(home, decode, temp, photo, "/uploads/photo.jpg");
    uploaded := server.Handle(Request("POST", "/upload"), FileField(Some("Photo.JPG"), temp), false);
    fetched := server.Handle(Request("GET", "/uploads/photo.jpg"), NoFile, false);
  }
}
