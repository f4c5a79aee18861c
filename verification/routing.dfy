/** The request listener's `if / else if` chain: the first branch whose
    condition holds handles the request. */
module Routing {
  import opened Text

  datatype Route = Index | UploadHandler | StyleSheet | Banner | UploadedFile | NotFound

  /** The branches in the order the listener tries them. */
  const Branches: seq<Route> := [Index, UploadHandler, StyleSheet, Banner, UploadedFile]

  /** The condition of the branch that leads to `r`; the final `else` has none. */
  predicate Guard(r: Route, verb: string, url: string) {
    match r
    case Index => verb == "GET" && (url == "/" || StartsWith(url, "/?"))
    case UploadHandler => verb == "POST" && url == "/upload"
    case StyleSheet => verb == "GET" && url == "/style.css"
    case Banner => verb == "GET" && url == "/banner.png"
    case UploadedFile => verb == "GET" && StartsWith(url, "/uploads/")
    case NotFound => false
  }

  /** The listener's dispatch, written as the chain itself. The branch it
      picks always has its condition met. */
  function RouteOf(verb: string, url: string): (r: Route)
    ensures r != NotFound ==> Guard(r, verb, url)
  {
    if verb == "GET" && (url == "/" || StartsWith(url, "/?")) then Index
    else if verb == "POST" && url == "/upload" then UploadHandler
    else if verb == "GET" && url == "/style.css" then StyleSheet
    else if verb == "GET" && url == "/banner.png" then Banner
    else if verb == "GET" && StartsWith(url, "/uploads/") then UploadedFile
    else NotFound
  }

  /** Reference reading of an if/else chain: the first of `routes` whose
      guard holds, or `NotFound`. */
  function FirstMatch(routes: seq<Route>, verb: string, url: string): (r: Route)
    ensures r != NotFound ==> r in routes && Guard(r, verb, url)
    ensures r == NotFound ==> forall i :: 0 <= i < |routes| ==> !Guard(routes[i], verb, url)
  {
    if routes == [] then NotFound
    else if Guard(routes[0], verb, url) then routes[0]
    else FirstMatch(routes[1..], verb, url)
  }

  /** The chain is the first match over the branches in source order. */
  lemma RouteIsFirstMatch(verb: string, url: string)
    ensures RouteOf(verb, url) == FirstMatch(Branches, verb, url)
  {
    var t4: seq<Route> := [UploadedFile];
    var t3 := [Banner] + t4;
    var t2 := [StyleSheet] + t3;
    var t1 := [UploadHandler] + t2;
    assert Branches == [Index] + t1;
    assert FirstMatch(t4, verb, url) == if Guard(UploadedFile, verb, url) then UploadedFile else NotFound by {
      assert t4[1..] == [];
    }
    assert FirstMatch(t3, verb, url) == if Guard(Banner, verb, url) then Banner else FirstMatch(t4, verb, url) by {
      assert t3[0] == Banner && t3[1..] == t4;
    }
    assert FirstMatch(t2, verb, url) == if Guard(StyleSheet, verb, url) then StyleSheet else FirstMatch(t3, verb, url) by {
      assert t2[0] == StyleSheet && t2[1..] == t3;
    }
    assert FirstMatch(t1, verb, url) == if Guard(UploadHandler, verb, url) then UploadHandler else FirstMatch(t2, verb, url) by {
      assert t1[0] == UploadHandler && t1[1..] == t2;
    }
    assert FirstMatch(Branches, verb, url) == if Guard(Index, verb, url) then Index else FirstMatch(t1, verb, url) by {
      assert Branches[0] == Index && Branches[1..] == t1;
    }
  }

  /** No request satisfies two branch conditions, so the order of the chain
      never decides between two candidates. */
  lemma GuardsDisjoint(r: Route, q: Route, verb: string, url: string)
    requires r != q && Guard(r, verb, url)
    ensures !Guard(q, verb, url)
  {
    // The second character tells the path conditions apart.
    if StartsWith(url, "/?") {
      assert url[1] == '?';
    }
    if StartsWith(url, "/uploads/") {
      assert url[1] == 'u';
    }
  }

  /** A request reaches a branch exactly when it meets that branch's
      condition, and the final 404 exactly when it meets none. */
  lemma RouteIff(verb: string, url: string, r: Route)
    ensures r != NotFound ==> (RouteOf(verb, url) == r <==> Guard(r, verb, url))
    ensures RouteOf(verb, url) == NotFound <==> forall q :: !Guard(q, verb, url)
  {
    var got := RouteOf(verb, url);
    RouteIsFirstMatch(verb, url);
    // Every branch but the final `else` is in the list that is searched.
    assert forall q :: q != NotFound ==> q in Branches;
    if r != NotFound && Guard(r, verb, url) && got != r && got != NotFound {
      GuardsDisjoint(got, r, verb, url);
    }
  }

  /** Examples of the dispatch: the form page with a status query, the two
      assets, a stored file, a wrong verb and an unknown path. */
  lemma RouteExamples()
    ensures RouteOf("GET", "/?msg=x&type=error") == Index
    ensures RouteOf("POST", "/upload") == UploadHandler
    ensures RouteOf("GET", "/upload") == NotFound
    ensures RouteOf("GET", "/banner.png") == Banner
    ensures RouteOf("GET", "/uploads/photo.jpg") == UploadedFile
    ensures RouteOf("POST", "/uploads/photo.jpg") == NotFound
    ensures RouteOf("GET", "/index.html") == NotFound
  {
    assert StartsWith("/?msg=x&type=error", "/?");
    assert StartsWith("/uploads/photo.jpg", "/uploads/");
    assert "/upload"[1] == 'u';
    assert "/index.html"[1] == 'i';
    assert !StartsWith("/index.html", "/uploads/");
  }
}
