/** Answering GET requests from the stored files: `serveStaticFile` and the
    `/uploads/` branch with its path guard and content-type choice. */
module Serving {
  import opened Options
  import opened Text
  import opened Paths
  import opened Http
  import Upload

  const UploadPrefix: string := "/uploads/"

  /** `serveStaticFile`: the file's contents with the given type, or a plain
      404 when it cannot be read. */
  function ServeStaticFile(fs: map<string, Bytes>, path: string, contentType: string): (r: Response)
    ensures r.status == 200 <==> path in fs
    ensures path in fs ==> r.header == ContentType(contentType) && r.body == Data(fs[path])
    ensures path !in fs ==> r == Response(404, ContentType("text/plain"), Text("Not found"))
  {
    if path in fs then Response(200, ContentType(contentType), Data(fs[path]))
    else Response(404, ContentType("text/plain"), Text("Not found"))
  }

  /** The media type sent for a lower-cased extension. */
  function ContentTypeFor(ext: string): (t: string)
    ensures t == "image/jpeg" <==> ext == ".jpg" || ext == ".jpeg"
    ensures t == "image/png" <==> ext == ".png"
    ensures t == "application/pdf" <==> ext == ".pdf"
    ensures t == "application/octet-stream" <==> ext !in {".jpg", ".jpeg", ".png", ".pdf"}
  {
    if ext == ".jpg" || ext == ".jpeg" then "image/jpeg"
    else if ext == ".png" then "image/png"
    else if ext == ".pdf" then "application/pdf"
    else "application/octet-stream"
  }

  /** The media type for a file path, decided by its lower-cased extension:
      one of the four the server knows, and the fallback when the path has no
      extension. */
  function MediaTypeOf(path: string): (t: string)
    ensures t in {"image/jpeg", "image/png", "application/pdf", "application/octet-stream"}
    ensures ExtName(path) == "" ==> t == "application/octet-stream"
  {
    ContentTypeFor(ToLower(ExtName(path)))
  }

  const AccessDenied: Response := Response(403, ContentType("text/plain"), Text("Access denied"))

  /** The `/uploads/` branch. The first "/uploads/" is cut from the URL, the
      rest is decoded (`decode` stands for `decodeURIComponent`; `None` is the
      URIError it throws) and joined to the upload directory `dir`, and the
      result must begin with the directory's spelling: a plain string test. */
  function ServeUploaded(fs: map<string, Bytes>, dir: seq<string>, url: string, decode: string -> Option<string>)
    : (r: Reply)
    ensures r.Thrown? <==> decode(ReplaceFirst(url, UploadPrefix, "")).None?
    ensures r.Sent? ==>
      var p := Join(dir, decode(ReplaceFirst(url, UploadPrefix, "")).value);
      && (r.response == AccessDenied <==> !StartsWith(p, Render(dir)))
      && (r.response.status == 200 <==> StartsWith(p, Render(dir)) && p in fs)
      && (r.response.status == 200 ==> r.response == Response(200, ContentType(MediaTypeOf(p)), Data(fs[p])))
      && (StartsWith(p, Render(dir)) ==> r.response == ServeStaticFile(fs, p, MediaTypeOf(p)))
      && r.response.status in {200, 403, 404}
  {
    match decode(ReplaceFirst(url, UploadPrefix, ""))
    case None => Thrown
    case Some(name) =>
      var filePath := Join(dir, name);
      if !StartsWith(filePath, Render(dir)) then Sent(AccessDenied)
      else Sent(ServeStaticFile(fs, filePath, MediaTypeOf(filePath)))
  }

  /** A decoded name with no ".." segment always passes the guard, so the
      answer is the file or a 404, never a 403. */
  lemma WithoutParentNeverDenied(fs: map<string, Bytes>, dir: seq<string>, url: string,
                                 decode: string -> Option<string>, name: string)
    requires dir != []
    requires decode(ReplaceFirst(url, UploadPrefix, "")) == Some(name)
    requires ".." !in Split(name)
    ensures ServeUploaded(fs, dir, url, decode) == Sent(ServeStaticFile(fs, Join(dir, name), MediaTypeOf(Join(dir, name))))
  {
    JoinWithoutParentStaysUnder(dir, name);
  }

  /** A plain file name is looked up directly under the upload directory. */
  lemma PlainNameServed(fs: map<string, Bytes>, dir: seq<string>, url: string,
                        decode: string -> Option<string>, n: string)
    requires dir != [] && IsPlainSegment(n)
    requires decode(ReplaceFirst(url, UploadPrefix, "")) == Some(n)
    ensures var p := Spell(dir) + "/" + n;
      ServeUploaded(fs, dir, url, decode) == Sent(ServeStaticFile(fs, p, MediaTypeOf(p)))
  {
    JoinPlain(dir, n);
    assert StartsWith(Spell(dir) + "/" + n, Render(dir));
  }

  /** What remains of an /uploads/ URL once the prefix is cut. */
  lemma UploadsRest(url: string, rest: string)
    requires url == UploadPrefix + rest
    ensures ReplaceFirst(url, UploadPrefix, "") == rest
  {
    assert StartsWith(url, UploadPrefix);
    assert url[|UploadPrefix|..] == rest;
  }

  /** Climbing one level out of the upload directory is refused exactly when
      the entry's name does not begin with "uploads". */
  lemma ParentEntryGuard(fs: map<string, Bytes>, root: seq<string>, decode: string -> Option<string>,
                         raw: string, f: string)
    requires IsPlainSegment(f)
    requires decode(raw) == Some(".." + "/" + f)
    ensures ServeUploaded(fs, root + ["uploads"], UploadPrefix + raw, decode) == Sent(AccessDenied)
        <==> !StartsWith(f, "uploads")
  {
    UploadsRest(UploadPrefix + raw, raw);
    JoinParentEntry(root, "uploads", f);
    RenderChild(root, "uploads");
    var c := Spell(root) + "/";
    assert Spell(root) + "/" + f == c + f && Spell(root) + "/" + "uploads" == c + "uploads";
    StartsWithAfterCommon(c, f, "uploads");
  }

  /** "/uploads/../server.js" resolves to the server's own directory and is
      refused with 403. */
  lemma TraversalDenied(fs: map<string, Bytes>, root: seq<string>, decode: string -> Option<string>, url: string)
    requires url == "/uploads/../server.js"
    requires decode("../server.js") == Some("../server.js")
    ensures ServeUploaded(fs, root + ["uploads"], url, decode) == Sent(AccessDenied)
  {
    var raw, f := "../server.js", "server.js";
    assert url == UploadPrefix + raw;
    assert raw == ".." + "/" + f;
    assert f[0] != "uploads"[0];
    ParentEntryGuard(fs, root, decode, raw, f);
  }

  /** "../sib/file" joined to the upload directory lands in the directory
      `sib` next to it. */
  lemma SiblingJoin(root: seq<string>, sib: string, file: string)
    requires IsPlainSegment(sib) && IsPlainSegment(file)
    ensures Join(root + ["uploads"], ".." + "/" + sib + "/" + file) == Spell(root) + "/" + sib + "/" + file
  {
    var dir := root + ["uploads"];
    var inner := sib + "/" + file;
    assert Split(inner) == [sib, file] by {
      SplitAfter(sib, file);
      SplitNoSlash(file);
    }
    assert ".." + "/" + sib + "/" + file == ".." + "/" + inner;
    SplitAfter("..", inner);
    var segs := [".."] + [sib, file];
    var mid := root + [sib];
    calc {
      Resolve(dir, segs);
      { assert dir[..|dir| - 1] == root && segs[1..] == [sib, file]; }
      Resolve(root, [sib, file]);
      { assert [sib, file][1..] == [file]; }
      Resolve(mid, [file]);
      Resolve(mid + [file], []);
    }
    RenderChild(mid, file);
    RenderChild(root, sib);
  }

  /** The guard compares strings, not segments: a sibling directory whose
      name extends "uploads" (such as "uploads2") passes it, so its files are
      served although they lie outside the upload directory. */
  lemma SiblingPassesGuard(fs: map<string, Bytes>, root: seq<string>, decode: string -> Option<string>,
                           raw: string, sib: string, file: string)
    requires IsPlainSegment(sib) && IsPlainSegment(file) && StartsWith(sib, "uploads")
    requires decode(raw) == Some(".." + "/" + sib + "/" + file)
    ensures var p := Spell(root) + "/" + sib + "/" + file;
      ServeUploaded(fs, root + ["uploads"], UploadPrefix + raw, decode) == Sent(ServeStaticFile(fs, p, MediaTypeOf(p)))
    ensures sib != "uploads" ==>
      !StartsWith(Spell(root) + "/" + sib + "/" + file, Render(root + ["uploads"]) + "/")
  {
    UploadsRest(UploadPrefix + raw, raw);
    SiblingJoin(root, sib, file);
    RenderChild(root, "uploads");
    SiblingPrefix(Spell(root), sib, file);
  }

  /** How a path into a sibling `sib` of "uploads" compares with the upload
      directory's spelling `s + "/uploads"`. */
  lemma SiblingPrefix(s: string, sib: string, file: string)
    requires '/' !in sib && StartsWith(sib, "uploads")
    ensures StartsWith(s + "/" + sib + "/" + file, s + "/" + "uploads")
    ensures sib != "uploads" ==> !StartsWith(s + "/" + sib + "/" + file, s + "/" + "uploads" + "/")
  {
    var p := s + "/" + sib + "/" + file;
    var k := |s| + 1;
    assert p[..k + 7] == s + "/" + sib[..7];
    if sib != "uploads" {
      assert |sib| > 7;
      assert p[k + 7] == sib[7];
      assert (s + "/" + "uploads" + "/")[k + 7] == '/';
    }
  }

  /** A plain name with something before a dotted suffix, in any case, is
      served with the media type of that suffix lower-cased. */
  lemma MediaTypeBySuffix(dir: seq<string>, n: string, e: string)
    requires IsPlainSegment(n) && EndsWith(n, e) && |n| > |e|
    requires |e| >= 1 && e[0] == '.' && '.' !in e[1..]
    ensures MediaTypeOf(Spell(dir) + "/" + n) == ContentTypeFor(ToLower(e))
  {
    ExtNameOfSuffix(dir, n, e);
  }

  /** ".JPG" lower-cases to ".jpg". */
  lemma LowerJpg()
    ensures ToLower(".JPG") == ".jpg"
  {
  }

  /** An upper-case extension is lower-cased before the media type is
      chosen: a name such as `a.JPG` is served as `image/jpeg`. */
  lemma UpperCaseSuffixServedAsJpeg(dir: seq<string>, n: string)
    requires IsPlainSegment(n) && EndsWith(n, ".JPG") && |n| > 4
    ensures MediaTypeOf(Spell(dir) + "/" + n) == "image/jpeg"
  {
    MediaTypeBySuffix(dir, n, ".JPG");
    LowerJpg();
  }

  /** The four whitelisted extensions are dotted, lower-case and have no
      second dot. */
  lemma AllowedExtShapes()
    ensures NoUpper(".jpg") && NoUpper(".jpeg") && NoUpper(".png") && NoUpper(".pdf")
    ensures '.' !in ".jpg"[1..] && '.' !in ".jpeg"[1..] && '.' !in ".png"[1..] && '.' !in ".pdf"[1..]
  {
  }

  /** The last characters of a name that ends with `e`. */
  lemma SuffixChar(n: string, e: string, j: nat)
    requires EndsWith(n, e) && 1 <= j <= |e|
    ensures n[|n| - j] == e[|e| - j]
  {
    assert n[|n| - j] == n[|n| - |e|..][|e| - j];
  }

  /** A name ends with at most one of the whitelisted extensions. */
  lemma AllowedSuffixesExclusive(n: string)
    ensures EndsWith(n, ".jpg") ==> !EndsWith(n, ".jpeg") && !EndsWith(n, ".png") && !EndsWith(n, ".pdf")
    ensures EndsWith(n, ".jpeg") ==> !EndsWith(n, ".png") && !EndsWith(n, ".pdf")
    ensures EndsWith(n, ".png") ==> !EndsWith(n, ".pdf")
  {
    if EndsWith(n, ".jpg") {
      SuffixChar(n, ".jpg", 1);
      SuffixChar(n, ".jpg", 3);
    }
    if EndsWith(n, ".jpeg") {
      SuffixChar(n, ".jpeg", 1);
      SuffixChar(n, ".jpeg", 2);
      SuffixChar(n, ".jpeg", 3);
    }
    if EndsWith(n, ".png") {
      SuffixChar(n, ".png", 1);
      SuffixChar(n, ".png", 2);
      SuffixChar(n, ".png", 3);
    }
    if EndsWith(n, ".pdf") {
      SuffixChar(n, ".pdf", 1);
    }
  }

  /** A stored name that passed the whitelist and has something before its
      extension is served with that extension's media type. */
  lemma AllowedNameMediaType(dir: seq<string>, n: string)
    requires IsPlainSegment(n) && Upload.IsAllowedName(n)
    requires n !in Upload.AllowedExt
    ensures MediaTypeOf(Spell(dir) + "/" + n) != "application/octet-stream"
    ensures MediaTypeOf(Spell(dir) + "/" + n) == "image/jpeg" <==> EndsWith(n, ".jpg") || EndsWith(n, ".jpeg")
    ensures MediaTypeOf(Spell(dir) + "/" + n) == "image/png" <==> EndsWith(n, ".png")
    ensures MediaTypeOf(Spell(dir) + "/" + n) == "application/pdf" <==> EndsWith(n, ".pdf")
  {
    Upload.AllowedNameIff(n);
    AllowedSuffixesExclusive(n);
    AllowedExtShapes();
    var e := if EndsWith(n, ".jpg") then ".jpg"
      else if EndsWith(n, ".jpeg") then ".jpeg"
      else if EndsWith(n, ".png") then ".png"
      else ".pdf";
    assert n != e;
    MediaTypeBySuffix(dir, n, e);
  }

  /** A file stored under a bare extension such as ".jpg" passes the
      whitelist, but has no extension for `path.extname` and is served as
      `application/octet-stream`. */
  lemma BareExtensionServedAsOctetStream(dir: seq<string>)
    ensures Upload.IsAllowedName(".jpg")
    ensures MediaTypeOf(Spell(dir) + "/" + ".jpg") == "application/octet-stream"
  {
    assert EndsWith(".jpg", Upload.AllowedExt[0]);
    AllowedExtShapes();
    ExtNameOfDotName(dir, ".jpg");
  }
}
