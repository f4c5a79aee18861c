/** The POST /upload handler's decisions: which name a file is stored under,
    whether its extension is allowed, which of the five outcomes the request
    gets, the redirect that reports it, and what happens to the stored files. */
module Upload {
  import opened Options
  import opened Text
  import opened Paths
  import opened Http

  /** What the multipart parser hands the callback: an error, no `myFile`
      entry, or the first `myFile` entry with its (possibly missing) client
      file name and the temporary path it was written to. */
  datatype FormResult =
    | ParseFailed
    | NoFile
    | FileField(originalFilename: Option<string>, tempPath: string)

  /** The extension whitelist, in the order it is tried. */
  const AllowedExt: seq<string> := [".jpg", ".jpeg", ".png", ".pdf"]

  /** The name a file is stored under: the client's name lower-cased, or ""
      when the client sent none (an empty name is treated alike). */
  function StoredName(original: Option<string>): (name: string)
    ensures NoUpper(name)
    ensures original.None? ==> name == ""
    ensures original.Some? ==> |name| == |original.value|
    ensures original.Some? ==> forall i :: 0 <= i < |name| ==> name[i] == LowerChar(original.value[i])
  {
    ToLower(original.GetOr(""))
  }

  /** `exts.some(ext => name.endsWith(ext))`. */
  function AnySuffix(name: string, exts: seq<string>): (r: bool)
    ensures r <==> exists i :: 0 <= i < |exts| && EndsWith(name, exts[i])
  {
    if exts == [] then false
    else EndsWith(name, exts[0]) || AnySuffix(name, exts[1..])
  }

  predicate IsAllowedName(name: string) {
    AnySuffix(name, AllowedExt)
  }

  /** The whitelist spelled out: a name passes exactly when it ends with one
      of the four extensions. */
  lemma AllowedNameIff(name: string)
    ensures IsAllowedName(name) <==>
      EndsWith(name, ".jpg") || EndsWith(name, ".jpeg") || EndsWith(name, ".png") || EndsWith(name, ".pdf")
  {
    if IsAllowedName(name) {
      var i :| 0 <= i < |AllowedExt| && EndsWith(name, AllowedExt[i]);
    } else {
      assert !EndsWith(name, AllowedExt[0]) && !EndsWith(name, AllowedExt[1]);
      assert !EndsWith(name, AllowedExt[2]) && !EndsWith(name, AllowedExt[3]);
    }
  }

  /** An upper-case extension passes once lower-cased. */
  lemma UpperCaseExtensionAllowed()
    ensures StoredName(Some("Photo.JPG")) == "photo.jpg" && IsAllowedName("photo.jpg")
  {
    var up, low := "Photo.JPG", "photo.jpg";
    forall i | 0 <= i < |up| ensures LowerChar(up[i]) == low[i] {
    }
    assert ToLower(up) == low;
    assert EndsWith(low, AllowedExt[0]);
  }

  /** An extension outside the whitelist is refused. */
  lemma OtherExtensionRefused()
    ensures StoredName(Some("malware.exe")) == "malware.exe" && !IsAllowedName("malware.exe")
  {
    var n := "malware.exe";
    assert NoUpper(n);
    assert n[|n| - 1] == 'e';
    assert !EndsWith(n, AllowedExt[0]) && !EndsWith(n, AllowedExt[1]);
    assert !EndsWith(n, AllowedExt[2]) && !EndsWith(n, AllowedExt[3]);
  }

  /** A missing client file name becomes "" and is refused. */
  lemma MissingNameRefused()
    ensures StoredName(None) == "" && !IsAllowedName("")
  {
  }

  /** The five ways an upload request ends. */
  datatype Outcome = UploadFailed | NoFileUploaded | InvalidFormat | SaveFailed | Saved(fileName: string)

  /** The checks in the handler's order; `renamed` is whether moving the
      temporary file into place worked, and only matters once every check
      before it has passed. */
  function Decide(form: FormResult, renamed: bool): (o: Outcome)
    ensures form.ParseFailed? ==> o == UploadFailed
    ensures form.NoFile? ==> o == NoFileUploaded
    ensures form.FileField? && !IsAllowedName(StoredName(form.originalFilename)) ==> o == InvalidFormat
    ensures o == SaveFailed <==> form.FileField? && IsAllowedName(StoredName(form.originalFilename)) && !renamed
    ensures o.Saved? <==> form.FileField? && IsAllowedName(StoredName(form.originalFilename)) && renamed
    ensures o.Saved? ==> o.fileName == StoredName(form.originalFilename) && IsAllowedName(o.fileName)
  {
    match form
    case ParseFailed => UploadFailed
    case NoFile => NoFileUploaded
    case FileField(original, _) =>
      var name := StoredName(original);
      if !IsAllowedName(name) then InvalidFormat
      else if !renamed then SaveFailed
      else Saved(name)
  }

  /** The message text each outcome reports. */
  function Message(o: Outcome): string {
    match o
    case UploadFailed => "\U{26A0}\U{FE0F} Upload error"
    case NoFileUploaded => "\U{26A0}\U{FE0F} No file uploaded"
    case InvalidFormat => "Invalid file format. Only JPG, JPEG, PNG, PDF allowed."
    case SaveFailed => "\U{26A0}\U{FE0F} File save error"
    case Saved(_) => "File successfully uploaded!"
  }

  /** Outcomes of different kinds report different messages. */
  lemma MessagesDistinct(o: Outcome, p: Outcome)
    requires !(o.Saved? && p.Saved?) && o != p
    ensures Message(o) != Message(p)
  {
  }

  /** The `Location` the handler redirects to; `encode` stands for
      `encodeURIComponent`. */
  function RedirectTarget(o: Outcome, encode: string -> string): (loc: string)
    ensures StartsWith(loc, "/?msg=" + encode(Message(o)) + "&type=")
    ensures !o.Saved? ==> EndsWith(loc, "&type=" + "error")
    ensures o.Saved? ==> EndsWith(loc, "&type=" + "success&file=" + encode(o.fileName))
    ensures |loc| == |"/?msg=" + encode(Message(o)) + "&type="|
      + (if o.Saved? then |"success&file=" + encode(o.fileName)| else |"error"|)
  {
    var msg := encode(Message(o));
    var tail := if o.Saved? then "success&file=" + encode(o.fileName) else "error";
    ConcatEnds("/?msg=" + msg + "&type=", tail);
    ConcatEnds("/?msg=" + msg, "&type=" + tail);
    "/?msg=" + msg + "&type=" + tail
  }

  /** Every outcome answers with a redirect to the form page and no body. */
  function UploadResponse(o: Outcome, encode: string -> string): (r: Response)
    ensures r.status == 302 && r.body == NoBody && r.header.Location?
    ensures r.header == Location(RedirectTarget(o, encode))
    ensures StartsWith(r.header.url, "/?msg=")
  {
    var msg := encode(Message(o));
    var loc := RedirectTarget(o, encode);
    StartsWithPrefix(loc, "/?msg=" + msg, "&type=");
    StartsWithPrefix(loc, "/?msg=", msg);
    Response(302, Location(loc), NoBody)
  }

  /** Two Locations whose encoded messages differ and hold no '&' differ:
      they first part inside the message or right after the shorter one,
      where one has '&' and the other a message character. */
  lemma DistinctMessagesDistinctTargets(mo: string, mp: string, lo: string, lp: string)
    requires mo != mp && '&' !in mo && '&' !in mp
    requires StartsWith(lo, "/?msg=" + mo + "&type=") && StartsWith(lp, "/?msg=" + mp + "&type=")
    ensures lo != lp
  {
    var po, pp := "/?msg=" + mo + "&type=", "/?msg=" + mp + "&type=";
    assert lo[..|po|] == po && lp[..|pp|] == pp;
    if |mo| == |mp| {
      var k :| 0 <= k < |mo| && mo[k] != mp[k];
      assert lo[6 + k] == po[6 + k] == mo[k];
      assert lp[6 + k] == pp[6 + k] == mp[k];
    } else if |mo| < |mp| {
      assert lo[6 + |mo|] == po[6 + |mo|] == '&';
      assert lp[6 + |mo|] == pp[6 + |mo|] == mp[|mo|];
    } else {
      assert lp[6 + |mp|] == pp[6 + |mp|] == '&';
      assert lo[6 + |mp|] == po[6 + |mp|] == mo[|mp|];
    }
  }

  /** Different outcomes redirect to different Locations, for an encoder
      that, like `encodeURIComponent`, is one-to-one and never emits '&'. */
  lemma RedirectsDistinct(o: Outcome, p: Outcome, encode: string -> string)
    requires forall a, b :: encode(a) == encode(b) ==> a == b
    requires forall a :: '&' !in encode(a)
    requires !(o.Saved? && p.Saved?) && o != p
    ensures RedirectTarget(o, encode) != RedirectTarget(p, encode)
  {
    MessagesDistinct(o, p);
    var mo, mp := encode(Message(o)), encode(Message(p));
    assert mo != mp;
    DistinctMessagesDistinctTargets(mo, mp, RedirectTarget(o, encode), RedirectTarget(p, encode));
  }

  /** The whole handler on the stored files `fs` (path to contents): the
      outcome, and the files afterwards. The temporary file is removed only
      on a disallowed name; `renameFault` stands for a rename that fails for a
      reason other than a missing source (a directory in the way, a missing
      parent directory, another device). */
  function UploadStep(fs: map<string, Bytes>, form: FormResult, dir: seq<string>, renameFault: bool)
    : (r: (Outcome, map<string, Bytes>))
    ensures r.0 == Decide(form, form.FileField? && form.tempPath in fs && !renameFault)
    // A rejected upload stores nothing: no path is added and no contents change.
    ensures !r.0.Saved? ==> r.1.Keys <= fs.Keys && forall p :: p in r.1 ==> r.1[p] == fs[p]
    // The temporary file of a disallowed name is deleted, and only it.
    ensures r.0 == InvalidFormat ==>
      r.1 == if form.tempPath != "" && form.tempPath in fs then fs - {form.tempPath} else fs
    ensures r.0 in {UploadFailed, NoFileUploaded, SaveFailed} ==> r.1 == fs
    // An accepted file is moved to the joined path, replacing whatever was there.
    ensures r.0.Saved? ==>
      var src, dst := form.tempPath, Join(dir, r.0.fileName);
      && src in fs && dst in r.1 && r.1[dst] == fs[src]
      && (src != dst ==> src !in r.1)
      && forall p :: p != src && p != dst ==> (p in r.1 <==> p in fs) && (p in r.1 ==> r.1[p] == fs[p])
    // A path is only ever added for an allowed name, at the path that name joins to.
    ensures forall p :: p in r.1 && p !in fs ==>
      r.0.Saved? && IsAllowedName(r.0.fileName) && p == Join(dir, r.0.fileName)
  {
    match form
    case ParseFailed => (UploadFailed, fs)
    case NoFile => (NoFileUploaded, fs)
    case FileField(original, temp) =>
      var name := StoredName(original);
      if !IsAllowedName(name) then
        (InvalidFormat, if temp != "" && temp in fs then fs - {temp} else fs)
      else if temp in fs && !renameFault then
        (Saved(name), (fs - {temp})[Join(dir, name) := fs[temp]])
      else
        (SaveFailed, fs)
  }

  lemma PhotoNameIsPlain()
    ensures IsPlainSegment("photo.jpg")
  {
  }

  /** "Photo.JPG" ends up as "photo.jpg" directly under the upload directory,
      holding the uploaded bytes. */
  lemma PhotoStoredLowerCased(fs: map<string, Bytes>, dir: seq<string>, temp: string)
    requires temp in fs
    ensures var r := UploadStep(fs, FileField(Some("Photo.JPG"), temp), dir, false);
      && r.0 == Saved("photo.jpg")
      && Render(dir + ["photo.jpg"]) in r.1
      && r.1[Render(dir + ["photo.jpg"])] == fs[temp]
  {
    UpperCaseExtensionAllowed();
    PhotoNameIsPlain();
    JoinPlain(dir, "photo.jpg");
  }

  /** "malware.exe" is refused, its temporary file deleted, nothing stored. */
  lemma MalwareRefused(fs: map<string, Bytes>, dir: seq<string>, temp: string, fault: bool)
    requires temp != ""
    ensures var r := UploadStep(fs, FileField(Some("malware.exe"), temp), dir, fault);
      r.0 == InvalidFormat && r.1 == fs - {temp} && temp !in r.1
  {
    OtherExtensionRefused();
  }

  /** The client's file name is not reduced to its last segment: an allowed
      name preceded by "../" is accepted and written next to the upload
      directory instead of inside it. */
  lemma ClientNameCanClimbOut(fs: map<string, Bytes>, home: seq<string>, f: string, temp: string)
    requires IsPlainSegment(f) && NoUpper(f) && IsAllowedName(f)
    requires temp in fs
    ensures var r := UploadStep(fs, FileField(Some(".." + "/" + f), temp), home + ["uploads"], false);
      && r.0 == Saved(".." + "/" + f)
      && Spell(home) + "/" + f in r.1
      && r.1[Spell(home) + "/" + f] == fs[temp]
  {
    var name := ".." + "/" + f;
    assert NoUpper(name);
    var i :| 0 <= i < |AllowedExt| && EndsWith(f, AllowedExt[i]);
    assert name[|name| - |AllowedExt[i]|..] == f[|f| - |AllowedExt[i]|..];
    assert EndsWith(name, AllowedExt[i]);
    JoinParentEntry(home, "uploads", f);
  }
}
