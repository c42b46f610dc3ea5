/**
  The routing configuration and the request handlers of render/server.js.

  The server registers three GET rules in one `get` call, in this order:
  a catch-all that serves static files, the posts list under `/api/posts/`
  and a single post under `/api/post/`. It registers no POST rule and keeps
  the router's default 404 handler. Because the router invokes the last
  matching rule, the two API rules take precedence over the catch-all.

  The handlers' file system and JSON work is not modelled: the directory of
  the script (`__dirname`) is the parameter `dir`, and `files` is the set of
  paths for which `fs.stat` succeeds.
 */
module Server {
  import opened Route
  import opened JsStrings

  /** The three callbacks registered by render/server.js. */
  datatype Page = StaticFiles | PostsList | SinglePost

  /** What a handler writes to the response. */
  datatype Reply =
    | Bare(status: int)                // writeHead(status); end() with no body
    | Text(status: int, body: string)  // writeHead(status); end(body)
    | FileStream(path: string)         // writeHead(200); the file piped to the response
    | PostsJson                        // writeHead(200); the posts of posts.json as JSON

  const PostsPrefix: string := "/api/posts/"
  const PostPrefix: string := "/api/post/"

  /** The GET rules, in the order of the single `app.get(...)` call. */
  function AppRules(): (rules: seq<Rule<Page>>)
    ensures |rules| == 3
    ensures [rules[0].cb, rules[1].cb, rules[2].cb] == [StaticFiles, PostsList, SinglePost]
    ensures forall url :: Matches(rules[0].path, url)
    ensures forall url :: Matches(rules[1].path, url) <==> PostsPrefix <= url
    ensures forall url :: Matches(rules[2].path, url) <==> PostPrefix <= url
  {
    [Rule(Anchored(""), StaticFiles),
     Rule(Anchored(PostsPrefix), PostsList),
     Rule(Anchored(PostPrefix), SinglePost)]
  }

  /** The router's state once render/server.js has configured it. */
  function AppTable(): RouteTable<Page>
  {
    RouteTable(AppRules(), [], NotFound404)
  }

  /** Loading the router module and registering the three GET rules. */
  method CreateApp() returns (app: Router<Page>)
    ensures fresh(app) && app.Table() == AppTable()
  {
    app := new Router<Page>();
    var self := app.Get(AppRules());
  }

  /** The file the static handler serves: `/` becomes `/index.html`, every
      other URL is appended to the directory verbatim. */
  function FilePath(dir: string, url: string): (path: string)
    ensures dir <= path
    ensures path[|dir|..] == if url == "/" then "/index.html" else url
  {
    dir + (if url == "/" then "/index.html" else url)
  }

  /** Two URLs name the same file exactly when they are equal or are `/`
      and `/index.html`. */
  lemma FilePathCollisions(dir: string, u1: string, u2: string)
    ensures FilePath(dir, u1) == FilePath(dir, u2) <==>
      u1 == u2 || (u1 == "/" && u2 == "/index.html") || (u1 == "/index.html" && u2 == "/")
  {
    var p1, p2 := FilePath(dir, u1), FilePath(dir, u2);
    if p1 == p2 {
      assert p1[|dir|..] == p2[|dir|..];
    }
  }

  /** The post name: `parts[2]` of `url.substr(1).split('/')`, or nothing
      when that element is missing or empty (both falsy in the source). */
  function PostName(url: string): (post: Option<string>)
    ensures post.Some? ==> post.value != "" && '/' !in post.value
  {
    var parts := Split(Substr1(url), '/');
    if |parts| > 2 && parts[2] != "" then Some(parts[2]) else None
  }

  /** The post name is the third `/`-separated segment, whatever the first
      two are, and ends at the next `/` or the end of the URL. */
  lemma PostNameIsThirdSegment(a: string, b: string, name: string, rest: string)
    requires '/' !in a && '/' !in b && '/' !in name
    requires rest == "" || rest[0] == '/'
    ensures PostName(['/'] + a + ['/'] + b + ['/'] + name + rest) == if name == "" then None else Some(name)
  {
    var url := ['/'] + a + ['/'] + b + ['/'] + name + rest;
    var tail := b + ['/'] + (name + rest);
    assert url == ['/'] + (a + ['/'] + tail);
    var parts := Split(Substr1(url), '/');
    var inner := Split(name + rest, '/');
    SplitAtFirst(a, tail, '/');
    SplitAtFirst(b, name + rest, '/');
    assert parts == [a] + ([b] + inner);
    FirstPiece(name, rest, '/');
    assert parts[2] == inner[0] == name;
  }

  /** `/api/post/foo` names the post `foo`. */
  lemma PostNameExample()
    ensures PostName("/api/post/foo") == Some("foo")
  {
    var url := "/api/post/foo";
    assert ['/'] + "api" + ['/'] + "post" + ['/'] + "foo" == url;
    assert url + "" == url;
    PostNameIsThirdSegment("api", "post", "foo", "");
  }

  /** `/api/post/foo/bar` names the post `foo` too: later segments are ignored. */
  lemma PostNameIgnoresLaterSegments()
    ensures PostName("/api/post/foo/bar") == Some("foo")
  {
    var url := "/api/post/foo/bar";
    assert ['/'] + "api" + ['/'] + "post" + ['/'] + "foo" == url[..13];
    assert url == url[..13] + "/bar";
    PostNameIsThirdSegment("api", "post", "foo", "/bar");
  }

  /** `/api/post/` names no post. */
  lemma PostNameEmptyExample()
    ensures PostName("/api/post/") == None
  {
    var url := "/api/post/";
    assert ['/'] + "api" + ['/'] + "post" + ['/'] == url;
    assert url + "" + "" == url;
    PostNameIsThirdSegment("api", "post", "", "");
  }

  /** The static handler: the file if `fs.stat` finds it, else a bare 404. */
  function StaticReply(dir: string, files: set<string>, url: string): (r: Reply)
    ensures r.FileStream? <==> FilePath(dir, url) in files
    ensures r.FileStream? ==> r.path == FilePath(dir, url)
    ensures !r.FileStream? ==> r == Bare(404)
  {
    var path := FilePath(dir, url);
    if path in files then FileStream(path) else Bare(404)
  }

  /** The single-post handler: `"fail"` without a post name, otherwise the
      file `posts/<name>` if `fs.stat` finds it, else a bare 404. */
  function SinglePostReply(dir: string, files: set<string>, url: string): (r: Reply)
    ensures r == Text(200, "fail") <==> PostName(url).None?
    ensures r.Bare? ==> r == Bare(404) && PostName(url).Some?
    ensures r.Text? || r.Bare? || r.FileStream?
    ensures r.FileStream? <==> PostName(url).Some? && dir + "/posts/" + PostName(url).value in files
    ensures r.FileStream? ==> r.path == dir + "/posts/" + PostName(url).value
    ensures PostName(url).Some? && !r.FileStream? ==> r == Bare(404)
  {
    match PostName(url)
    case None => Text(200, "fail")
    case Some(post) =>
      var path := dir + "/posts/" + post;
      if path in files then FileStream(path) else Bare(404)
  }

  /** What a handler writes, given the request URL. */
  function Respond(h: Handler<Page>, dir: string, files: set<string>, url: string): (r: Reply)
    ensures h == NotFound404 ==> r == Bare(404)
    ensures r == PostsJson <==> h == Callback(PostsList)
    ensures r.Text? ==> h == Callback(SinglePost)
  {
    match h
    case NotFound404 => Bare(404)
    case Callback(StaticFiles) => StaticReply(dir, files, url)
    case Callback(PostsList) => PostsJson
    case Callback(SinglePost) => SinglePostReply(dir, files, url)
  }

  /** The reply of the configured server to a request. */
  function Serve(verb: string, url: string, dir: string, files: set<string>): (r: Reply)
    ensures verb != "GET" ==> r == Bare(404)
    ensures r == PostsJson <==> verb == "GET" && PostsPrefix <= url
    ensures r.Text? ==> verb == "GET" && PostPrefix <= url
  {
    GetRouting(url);
    Respond(HandlerFor(AppTable(), verb, url), dir, files, url)
  }

  /** `http.createServer(app)` handing one request to the configured router. */
  method Handle(app: Router<Page>, verb: string, url: string, dir: string, files: set<string>)
    returns (reply: Reply)
    requires app.Table() == AppTable()
    ensures reply == Serve(verb, url, dir, files)
  {
    var h := app.Dispatch(verb, url);
    reply := Respond(h, dir, files, url);
  }

  /** No URL starts with both API prefixes. */
  lemma ApiPrefixesDisjoint(url: string)
    ensures !(PostsPrefix <= url && PostPrefix <= url)
  {
    assert PostsPrefix <= url ==> url[9] == 's';
    assert PostPrefix <= url ==> url[9] == '/';
  }

  /** Which handler each GET reaches: the posts list under `/api/posts/`,
      the single post under `/api/post/`, the static files everywhere else. */
  lemma {:induction false} GetRouting(url: string)
    ensures PostsPrefix <= url ==> HandlerFor(AppTable(), "GET", url) == Callback(PostsList)
    ensures PostPrefix <= url ==> HandlerFor(AppTable(), "GET", url) == Callback(SinglePost)
    ensures !(PostsPrefix <= url) && !(PostPrefix <= url) ==>
      HandlerFor(AppTable(), "GET", url) == Callback(StaticFiles)
  {
    var rules := AppRules();
    SelectIsLastMatch(rules, url, NotFound404);
    assert Matches(rules[0].path, url);
    var k := |rules| - 1;
    assert rules[..k] == [rules[0], rules[1]];
    assert rules[..k][..k - 1] == [rules[0]];
    ApiPrefixesDisjoint(url);
  }

  /** The catch-all matches every URL, so the 404 handler is never reached
      by a GET, whatever it is. */
  lemma GetNeverFallsBack(url: string, f1: Handler<Page>, f2: Handler<Page>)
    ensures HasMatch(AppRules(), url)
    ensures Select(AppRules(), url, f1) == Select(AppRules(), url, f2)
  {
    assert Matches(AppRules()[0].path, url);
    FallbackOnlyWhenUnmatched(AppRules(), url, f1, f2);
  }

  /** Every request that is not a GET, POST among them, gets a bare 404. */
  lemma NonGetIsNotFound(verb: string, url: string, dir: string, files: set<string>)
    requires verb != "GET"
    ensures HandlerFor(AppTable(), verb, url) == NotFound404
    ensures Serve(verb, url, dir, files) == Bare(404)
  {
  }

  /** The replies of the configured server to a GET. */
  lemma ServeGet(url: string, dir: string, files: set<string>)
    ensures PostsPrefix <= url ==> Serve("GET", url, dir, files) == PostsJson
    ensures PostPrefix <= url ==> Serve("GET", url, dir, files) == SinglePostReply(dir, files, url)
    ensures !(PostsPrefix <= url) && !(PostPrefix <= url) ==>
      Serve("GET", url, dir, files) == StaticReply(dir, files, url)
  {
    GetRouting(url);
  }

  /** A GET of `/` serves `index.html` from the server's directory. */
  lemma ServeRoot(dir: string, files: set<string>)
    ensures Serve("GET", "/", dir, files) ==
      if dir + "/index.html" in files then FileStream(dir + "/index.html") else Bare(404)
  {
    ServeGet("/", dir, files);
  }

  /** A post request without a post name writes `"fail"` and looks up no
      file: the reply does not depend on the file system. */
  lemma MissingPostNameFails(url: string, dir: string, files1: set<string>, files2: set<string>)
    requires PostName(url).None?
    ensures SinglePostReply(dir, files1, url) == SinglePostReply(dir, files2, url) == Text(200, "fail")
  {
  }

  /** The single-post handler streams only the path `dir + "/posts/" + name`
      for the URL's post name, and streams it whenever that file exists. */
  lemma SinglePostServesPostsFile(url: string, dir: string, files: set<string>)
    ensures SinglePostReply(dir, files, url).FileStream? ==>
      PostName(url).Some? && SinglePostReply(dir, files, url).path == dir + "/posts/" + PostName(url).value
    ensures PostName(url).Some? && dir + "/posts/" + PostName(url).value in files ==>
      SinglePostReply(dir, files, url) == FileStream(dir + "/posts/" + PostName(url).value)
  {
  }

  /** The registration order matters: with the catch-all registered last it
      would shadow both API rules, and every GET would reach the static files. */
  lemma CatchAllLastShadowsAll(url: string, fallback: Handler<Page>)
    ensures Select([AppRules()[1], AppRules()[2], AppRules()[0]], url, fallback) == Callback(StaticFiles)
  {
    var last := [AppRules()[0]];
    assert Matches(last[0].path, url);
    LaterMatchShadows([AppRules()[1], AppRules()[2]], last, url, fallback);
    assert [AppRules()[1], AppRules()[2]] + last == [AppRules()[1], AppRules()[2], AppRules()[0]];
  }
}
