# Upload server: a verified model of its decision core

`server.js` is a small Node HTTP server with four jobs:

- It serves a form page and two assets from `public/`.
- It accepts one file per `POST /upload` through a multipart parser.
- It stores accepted files in `uploads/` beside itself, under their lower-cased client name.
- It serves those files back from `/uploads/<name>`.

This project models the decisions that server makes and proves what they guarantee.

- **Routing** (`routing.dfy`): which branch of the listener's `if / else if` chain a request takes. The first branch whose condition holds wins, and a request that meets none gets the 404 page.
- **Upload validation and outcome** (`upload.dfy`):
  - the stored name is the client's name lower-cased, or `""` when none was sent;
  - the name must end with one of `.jpg`, `.jpeg`, `.png` or `.pdf`;
  - the checks run in a fixed order (parse error, missing file, bad extension, failed move, success), and each outcome has its own message in the 302 redirect.
- **Upload effect on the files** (`upload.dfy`, `server.dfy`):
  - the files are a map from absolute path to bytes, held by the class `Server.FileServer`;
  - a refused name deletes the temporary file;
  - an accepted name moves the temporary file to `path.join(uploadDir, name)` and replaces whatever was there;
  - nothing else changes.
- **Serving uploaded files** (`serving.dfy`):
  - the request path is cut after the first `/uploads/`, decoded, and joined to the upload directory;
  - the guard is the source's plain string-prefix test on the joined path, kept exactly;
  - the media type comes from the lower-cased `path.extname`;
  - `serveStaticFile` answers 404 `Not found` when the file cannot be read, and 200 with the bytes otherwise.
- **Supporting string and path operations** (`text.dfy`, `paths.dfy`): JavaScript's `toLowerCase`, `startsWith`, `endsWith`, `indexOf` and `replace` with a string pattern. POSIX `path.join` of an absolute directory with a relative name is modelled on path segments, as is `path.extname`.

Three facts about where files are read and written are proved as lemmas:

- The guard refuses `/uploads/../server.js` with 403. A segment-wise containment check would refuse it too.
- The guard compares strings rather than path segments. So `/uploads/../uploads2/x` is served from the sibling directory `uploads2`, because its joined path still begins with the upload directory's spelling.
- The upload branch has no guard at all: the client's name goes straight into `path.join`. An upload whose client name is `../photo.jpg` passes the whitelist and is stored beside the upload directory, not inside it.

Files: `options.dfy`, `text.dfy`, `paths.dfy`, `http.dfy`, `routing.dfy`, `upload.dfy`, `serving.dfy` and `server.dfy`. Each is one module.

## Model

| member | source | states |
|---|---|---|
| Routing.RouteOf | server.js:26-107 | The dispatch, written as the chain itself: the branch it picks always has its condition met. `Routing.RouteIff` and `Routing.RouteIsFirstMatch` state the rest. |
| Routing.Guard | server.js:26-107 | The condition of each branch of the chain: GET with url `/` or beginning with `/?`; POST with url `/upload`; GET `/style.css`; GET `/banner.png`; GET with url beginning with `/uploads/`. The final `else` has none. |
| Routing.FirstMatch | server.js:26-126 | Reference reading of an if/else chain. The result is a listed branch whose condition holds, or `NotFound` when no listed condition holds. |
| Routing.RouteIsFirstMatch | server.js:26-126 | The listener's dispatch is the first match over the five branches in source order: index, upload, style.css, banner.png, uploaded file. |
| Routing.GuardsDisjoint | server.js:26-107 | No request satisfies two branch conditions. |
| Routing.RouteIff | server.js:26-126 | A request reaches a branch if and only if it meets that branch's condition (GET with `/` or `/?...`; POST `/upload`; GET `/style.css`; GET `/banner.png`; GET with a `/uploads/` prefix). It gets the 404 page if and only if it meets none. |
| Routing.RouteExamples | server.js:26-126 | Dispatch of sample requests: a status query reaches the index. GET `/upload`, POST to `/uploads/...` and `/index.html` reach the 404 page. |
| Text.StartsWith | server.js:26 | `p` is a prefix of `s`, as `s.startsWith(p)`: no longer than `s`, and equal to as many leading characters of `s` as `p` has. The listener also uses it at server.js:107 and for the path guard at server.js:109. |
| Text.EndsWith | server.js:61 | `p` is a suffix of `s`, as `s.endsWith(p)`: no longer than `s`, and equal to as many trailing characters of `s` as `p` has. |
| Text.ToLower | server.js:57 | Same length, every character lower-cased, no capital letter in the result, and a string without capitals is unchanged. |
| Text.ToLowerIdempotent | server.js:57 | Lower-casing twice is lower-casing once. |
| Text.ToLowerAppend | server.js:57 | Lower-casing distributes over concatenation. |
| Text.IndexOfFrom | server.js:108 | `indexOf` returns the first occurrence at or after the start, or none when the pattern occurs nowhere from there. |
| Text.ReplaceFirst | server.js:108 | `replace` with a string pattern. When the string begins with `pat`, exactly that prefix is replaced. A string in which `pat` does not occur is returned unchanged. |
| Text.StartsWithAfterCommon | server.js:109 | A common front part does not change whether one string begins with another. |
| Paths.Split | server.js:108 | Splitting on `/` gives at least one piece, and no piece contains `/`. |
| Paths.GlueSplit | server.js:108 | Splitting loses nothing: gluing the pieces with `/` restores the string. |
| Paths.SplitAfter | server.js:108 | A separator after a separator-free prefix starts a new segment. |
| Paths.SplitSpelled | server.js:108 | The string "directory/name" splits into the root's empty segment, the directory's segments, then the name's segments. |
| Paths.Resolve | server.js:108 | The normalisation `path.join` applies to the segments: empty and `.` segments vanish, `..` removes the last segment but never climbs above the root, and every other segment is appended. Plain directory segments plus separator-free name segments give only plain segments. |
| Paths.Join | server.js:77 | `path.join(uploadDir, name)` is an absolute path. For a normalised directory it is the spelling of a list of plain segments, that is, a normalised path. |
| Paths.JoinIsNormalisedConcatenation | server.js:108 | `Join(dir, name)` equals normalising the concatenation of the directory's spelling, "/" and the name, which is how `path.join` is defined. |
| Paths.ResolveKeepsPrefix | server.js:108-109 | Without `..` segments, normalising never removes a directory segment. |
| Paths.JoinWithoutParentStaysUnder | server.js:108-109 | A name with no `..` segment joins to a path that begins with the directory's spelling. |
| Paths.RenderChild | server.js:6-7 | One more segment adds "/" and that segment to the spelling. |
| Paths.JoinPlain | server.js:77 | A plain name joins to the directory's child of that name. |
| Paths.JoinParentEntry | server.js:108 | `../f` joined to a directory is the entry `f` beside that directory. |
| Paths.LastIndexOf | server.js:114 | `lastIndexOf` returns the last position of the character, or none when it does not occur. |
| Paths.Basename | server.js:114 | The last segment of a path: an ending of the path with no `/`. |
| Paths.ExtName | server.js:114 | `path.extname`: either "" or an ending of the path that starts with `.` and has no other `.` and no `/`. |
| Paths.BasenameOfChild | server.js:114 | The last segment of "directory/n" is `n`. |
| Paths.ExtNameOfSuffix | server.js:114 | A name that ends with a dotted suffix, has no other dot in that suffix, and has something before it has that suffix as its `extname`. |
| Paths.ExtNameOfDotName | server.js:114 | A name whose only dot is its first character has an empty `extname`. |
| Upload.StoredName | server.js:57 | The stored name is the client's name with every character lower-cased: it has the same length and no capitals. A missing client name gives "". |
| Upload.IsAllowedName | server.js:60-61 | The whitelist test `allowedExt.some(ext => fileName.endsWith(ext))`. `Upload.AllowedNameIff` states what it accepts. |
| Upload.AnySuffix | server.js:61 | `some(ext => name.endsWith(ext))` holds if and only if the name ends with one of the extensions. |
| Upload.AllowedNameIff | server.js:60-61 | A name passes the whitelist if and only if it ends with `.jpg`, `.jpeg`, `.png` or `.pdf`. |
| Upload.UpperCaseExtensionAllowed | server.js:57-61 | `Photo.JPG` is stored as `photo.jpg`, which passes. |
| Upload.OtherExtensionRefused | server.js:57-61 | `malware.exe` is refused. |
| Upload.MissingNameRefused | server.js:57-61 | A missing client name becomes "" and is refused. |
| Upload.Decide | server.js:38-94 | Precedence of the outcomes: parse error, then missing file, then bad extension, then failed move, then success. Success happens exactly when a file field has an allowed stored name and the move worked. It carries the stored name. |
| Upload.Message | server.js:38-94 | The five message texts of the redirects. `Upload.MessagesDistinct` states that they tell the outcomes apart. |
| Upload.MessagesDistinct | server.js:38-94 | Outcomes of different kinds report different messages. |
| Upload.RedirectTarget | server.js:38-94 | The Location begins with `/?msg=` followed by the encoded message and `&type=`. Every failure ends with `&type=error`. Success ends with `&type=success&file=` followed by the encoded stored name. Its length is exactly that prefix plus `error` or `success&file=<encoded name>`, so nothing lies between the two. |
| Upload.UploadResponse | server.js:38-94 | Every outcome answers 302 with no body, and its Location is `RedirectTarget` of that outcome. So it begins with `/?msg=` and carries the outcome's `type=error` or `type=success&file=` ending. |
| Upload.RedirectsDistinct | server.js:38-94 | The five outcome kinds redirect to five different Locations, for an encoder that, like `encodeURIComponent`, is one-to-one and never emits `&`. |
| Upload.DistinctMessagesDistinctTargets | server.js:38-94 | Two Locations carrying different encoded messages without `&` differ, because the message ends at the first `&`. |
| Upload.UploadStep | server.js:37-96 | Effect of the handler on the files. The outcome is `Decide` with "moved" meaning the temporary file existed and the move did not fail. A refused name deletes a present, non-empty temporary path and nothing else. The other failures leave the files unchanged. Success removes the temporary path and puts its bytes at `Join(uploadDir, name)`, replacing any file there, with every other path unchanged. A path is only ever added for an allowed name at that joined path. |
| Upload.PhotoStoredLowerCased | server.js:57-78 | Uploading `Photo.JPG` stores its bytes at `uploads/photo.jpg`. |
| Upload.MalwareRefused | server.js:63-75 | Uploading `malware.exe` is refused, its temporary file is deleted and nothing is stored. |
| Upload.ClientNameCanClimbOut | server.js:57-77 | A client name `../f` with an allowed extension is accepted and stored as `f` beside the upload directory. |
| Serving.ServeStaticFile | server.js:13-23 | 200 with the given media type and the file's bytes when the file exists, otherwise 404 `text/plain` `Not found`. |
| Serving.ContentTypeFor | server.js:115-118 | `.jpg` and `.jpeg` give `image/jpeg`, `.png` gives `image/png`, `.pdf` gives `application/pdf`, each in both directions; anything else gives `application/octet-stream`. |
| Serving.ServeUploaded | server.js:107-121 | Throws exactly when decoding fails. Otherwise the answer is 403 `Access denied` exactly when the joined path does not begin with the upload directory's spelling. When the guard passes, the answer is `ServeStaticFile` of the joined path with the media type of its extension: 200 with the bytes when the file exists, otherwise 404 `Not found`. Every answer is 200, 403 or 404. |
| Serving.MediaTypeOf | server.js:114-118 | The media type of a path is one of the four the server knows. A path without an extension gets `application/octet-stream`. |
| Serving.UploadsRest | server.js:108 | Cutting `/uploads/` from `/uploads/rest` leaves `rest`. |
| Serving.WithoutParentNeverDenied | server.js:108-113 | A decoded name with no `..` segment is never refused with 403. |
| Serving.PlainNameServed | server.js:108-120 | A plain decoded name is looked up directly under the upload directory. |
| Serving.ParentEntryGuard | server.js:108-113 | A decoded `../f` is refused if and only if `f` does not begin with "uploads". |
| Serving.TraversalDenied | server.js:107-113 | `/uploads/../server.js` is refused with 403. |
| Serving.SiblingJoin | server.js:108 | `../sib/file` joined to the upload directory is `file` inside the sibling directory `sib`. |
| Serving.SiblingPrefix | server.js:109 | A path into a sibling whose name extends "uploads" begins with the upload directory's spelling, but not with that spelling plus "/". |
| Serving.SiblingPassesGuard | server.js:108-120 | A file in a sibling directory whose name begins with "uploads" is served through `/uploads/../<sibling>/<file>`, although it is outside the upload directory. |
| Serving.MediaTypeBySuffix | server.js:114-118 | A plain name with a dotted suffix after some text, in any case, is served with the media type of that suffix lower-cased. |
| Serving.UpperCaseSuffixServedAsJpeg | server.js:114-116 | A name ending in `.JPG`, such as `a.JPG`, is served as `image/jpeg`, because the extension is lower-cased first. |
| Serving.AllowedSuffixesExclusive | server.js:60 | A name ends with at most one of the whitelisted extensions. |
| Serving.AllowedNameMediaType | server.js:114-118 | A stored name that passed the whitelist, other than a bare extension, is never served as `application/octet-stream`. Its media type matches its extension, in both directions. |
| Serving.BareExtensionServedAsOctetStream | server.js:114-118 | A file named just `.jpg` passes the whitelist but has no `extname`, so it is served as `application/octet-stream`. |
| Server.PublicFile | server.js:7 | An asset path is the asset name in the `public` directory beside the server. |
| Server.Respond | server.js:26-126 | Answers of the read-only branches: index, style.css and banner.png (sent as `image/jpeg`) from `public/`, the `/uploads/` branch, and the 404 `text/html` page. Only the `/uploads/` branch can throw. |
| Server.UploadThenServe | server.js:77-120 | A file accepted under a plain name is served back at `/uploads/<name>` with the uploaded bytes and the media type of its extension. That media type is never `application/octet-stream` unless the name is a bare extension. |
| Server.PhotoFetched | server.js:57-120 | After `Photo.JPG` is uploaded, `/uploads/photo.jpg` answers 200 `image/jpeg` with the uploaded bytes. |
| Server.FileServer.constructor | server.js:6-7 | The server starts, not crashed, with the given normalised directory, codecs and files. Its upload directory is normalised too. |
| Server.FileServer.UploadDir | server.js:6 | `uploadDir`: the segments of the server's directory followed by `uploads`. The constructor's contract states that it is normalised. |
| Server.FileServer.Unlink | server.js:64-66 | `unlinkSync` removes exactly that path. |
| Server.FileServer.Rename | server.js:78-85 | `rename` fails, changing nothing, exactly when the source is missing or the file system refuses. Otherwise the destination takes the source's bytes, replacing any file there, and the source is gone. |
| Server.FileServer.HandleUpload | server.js:37-96 | The handler's steps leave the files as `UploadStep` says and answer with that outcome's redirect. |
| Server.FileServer.Handle | server.js:25-127 | The listener, on a process that has not crashed. POST `/upload` runs the upload handler. Every other request leaves the files unchanged and gets the `Respond` answer for its route. The process has crashed afterwards exactly when the answer was an uncaught throw. |
| Server.UploadThenDownload | server.js:25-127 | On a fresh server, uploading `Photo.JPG` gets the success redirect for `photo.jpg`, and then GET `/uploads/photo.jpg` returns the photo's bytes as `image/jpeg`. |

## Left out

- Creating the HTTP server, `listen` and the `PORT` default (server.js:25, 129-130) are runtime plumbing. `Handle` takes the request as a value and returns the reply as a value instead of writing to a response object.
- The start-up `mkdirSync` of the upload directory (server.js:9-11) is left out. The file system is a map from path to bytes, with no directories.
- The multipart parser (server.js:31-37) is outside this model. Its result is the value `FormResult`: an error, no `myFile` entry, or the first entry with its optional client name and temporary path. A missing temporary path is the empty string.
- Upload.UploadStep: a missing temporary path is modelled as the empty string. For an allowed name the model then moves whatever is stored at "", and answers `File save error` when nothing is. The source guards a missing path only before `unlinkSync` (server.js:64), not at `fs.rename` (server.js:78). There Node rejects the undefined path with a synchronous TypeError, which ends the process. Neither that throw nor the resulting crash is modelled. `Server.FileServer.HandleUpload` inherits this.
- `encodeURIComponent` and `decodeURIComponent` are parameters, not definitions. A decoding failure (`None`) is the URIError that escapes the listener. It is shown as `Reply.Thrown`, and it leaves the server `crashed`, answering nothing more.
- Serving.ServeUploaded: a decoded name containing a NUL character makes `fs.readFile` throw synchronously. That uncaught error ends the process. The model has no such check, and instead looks the path up and answers 200 or 404.
- Server.FileServer.Handle: the same synchronous throw from `fs.rename` is not modelled. A client name containing a NUL character crashes the source. The model instead stores the file like any other allowed name and keeps `crashed` false.
- Text.ToLower: lower-cases ASCII letters only. JavaScript's full Unicode case mapping is not modelled.
- Paths.Join: models `path.join` for an absolute, already normalised directory and a relative name, on path segments. It does not claim Node's exact behaviour for other inputs.
- Paths.Join: a trailing separator is dropped, where `path.join` keeps it. As a consequence, `/uploads/photo.jpg/` is served by the model like `/uploads/photo.jpg` (200 with the file). The source joins to `.../uploads/photo.jpg/`, on which `readFile` fails, so it answers 404.
- Server.FileServer.Rename: a rename that fails for any reason other than a missing source (a directory in the way, another device, permissions) is the flag `fault`, because the model has no such state.
- Server.FileServer.Unlink: exceptions thrown by `unlinkSync` are not modelled.
- Serving.ServeStaticFile: the only read error modelled is a missing file. Others, such as permissions or a directory at the path, are not: a present path always answers 200.
- Asynchronous callback order and concurrent uploads of the same name are not modelled. Each request is handled to completion before the next.
- File contents are opaque byte sequences. The message texts are constants copied from the source.
