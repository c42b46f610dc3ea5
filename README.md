# A verified model of the blog server's request router

This project models the request router of a small personal-blog server and
the routing configuration that uses it.

- `route.dfy`, module `Route`: the router of `render/route.js`. It keeps
  one ordered rule list for GET and one for POST, plus a replaceable
  not-found handler. The default not-found handler writes status 404 with no
  body. `get` and `post` append rules; `e404` replaces the not-found handler.
  Each of them returns the router, so calls can be chained. Dispatch keeps
  the matching rules of the request's method in registration order and
  invokes the callback of the **last** one. When no rule matches, or the
  method is neither GET nor POST, it invokes the not-found handler. The
  router is a class (`Route.Router`) whose fields the registrars update. The
  selection rule is a pure function (`Route.Select`: filter, then take the
  last match). `Route.SelectIsLastMatch` proves it equal to an independent
  "highest matching index" definition (`Route.LastMatch`).
  `Route.Router.Dispatch` has no `modifies` clause, so it cannot change the
  rule table. It returns the single handler the request is passed to, rather
  than calling it.
- `jsstrings.dfy`, module `JsStrings`: the JavaScript `substr(1)` and
  `split('/')` used by the single-post handler. It also has `join`, and
  round-trip lemmas in both directions between `split` and `join`.
- `server.dfy`, module `Server`: the configuration of `render/server.js`.
  One `get` call registers three GET rules, in this order: a catch-all
  static-file rule (`/^/`), the posts list (`/^\/api\/posts\//`) and a single
  post (`/^\/api\/post\//`). The module also models the handlers' pure logic:
  - the URL to file-path mapping, where `/` becomes `/index.html` and every
    other URL is appended verbatim, with no normalisation;
  - the post name, which is element 2 of `url.substr(1).split('/')`;
  - the `"fail"` reply when that element is missing or empty.

  The lemmas say which handler each class of URL reaches, and what reply it
  produces.

Patterns are modelled as anchored literals (`Anchored(prefix)`): a URL
matches when it begins with the prefix. Every pattern the server registers
has this form. Handlers are the type parameter `H` of `Rule<H>`. The server
instantiates it with `Page`, which has one value per callback. The
directory of the server script (`__dirname`) is the parameter `dir`. The
file system is the parameter `files`, the set of paths for which `fs.stat`
succeeds. The handlers are pure functions to a `Reply`. They record which
branch is taken: a bare status, a text body, the file streamed, or the
posts JSON.

Dispatch takes the last match (`m.pop()` on the filtered list), not the
first. `Server.CatchAllLastShadowsAll` shows that the registration order
therefore decides the routing.

## Model

| member | source | states |
|---|---|---|
| `Route.Matches` | render/route.js:6 | `rule.path.test(url)` for an anchored literal pattern holds exactly when the URL begins with the pattern's text. The empty pattern `/^/` matches every URL. |
| `Route.InitialTable` | render/route.js:2-3 | Before any registration, every request of every method reaches the default 404 handler. |
| `Route.RulesFor` | render/route.js:5 | The list for `req.method`, or an empty list when there is none: GET uses the GET list, POST the POST list, and every other method an empty list. |
| `Route.Filter` | render/route.js:5-7 | The filtered list holds only rules of the input that match the URL, and is empty exactly when no rule matches. |
| `Route.FilterKeepsEveryMatch` | render/route.js:5-7 | Every matching rule is kept by the filter. |
| `Route.FilterAppend` | render/route.js:5-7 | Filtering keeps registration order: filtering a concatenation gives the concatenation of the filtered parts. |
| `Route.LastMatch` | render/route.js:5-7 | Reference definition: the index found is that of a matching rule, and no later rule matches. There is no index exactly when no rule matches. |
| `Route.Select` | render/route.js:5-7 | Selection gives the fallback when no rule matches, and a callback when one does. Which callback it gives is stated by `Route.SelectIsLastMatch`. |
| `Route.SelectIsLastMatch` | render/route.js:5-7 | Last match wins: selection gives the callback of the highest-indexed matching rule, and the fallback when there is none. |
| `Route.LaterMatchShadows` | render/route.js:5-7 | If a rule registered later matches, every earlier rule is shadowed: selection over `a + b` equals selection over `b`. |
| `Route.UnmatchedSuffixIsTransparent` | render/route.js:5-7 | Later rules that do not match the URL do not change the selection. |
| `Route.FallbackOnlyWhenUnmatched` | render/route.js:7 | When some rule matches, the selection is a callback (which one is given by `Route.SelectIsLastMatch`) and does not depend on the fallback. |
| `Route.HandlerFor` | render/route.js:5 | A request whose method is neither GET nor POST reaches the current fallback. |
| `Route.Router.constructor` | render/route.js:2-3 | The router starts with empty GET and POST lists and the default 404 handler. |
| `Route.Router.Get` | render/route.js:10 | `get(r1..rn)` appends the rules to the GET list in argument order. It leaves the POST list and the fallback unchanged, and returns the router. |
| `Route.Router.Post` | render/route.js:11 | `post(r1..rn)` appends to the POST list only, in argument order, and returns the router. |
| `Route.Router.E404` | render/route.js:12 | `e404(cb)` makes `cb` the fallback, leaves both rule lists unchanged, and returns the router. |
| `Route.Router.Dispatch` | render/route.js:4-8 | Dispatch returns the one handler the request reaches: the last matching rule of its method, or the fallback. It modifies nothing. |
| `JsStrings.Substr1` | render/server.js:37 | `substr(1)` drops the first character, and gives "" for the empty string. |
| `JsStrings.Split` | render/server.js:37 | `split(sep)` gives at least one piece, and no piece contains the separator. The first piece is the text before the first separator. |
| `JsStrings.JoinSplit` | render/server.js:37 | Joining the pieces of a split with the separator gives back the string. |
| `JsStrings.SplitNoSeparator` | render/server.js:37 | A string without the separator splits into itself alone. |
| `JsStrings.SplitAtFirst` | render/server.js:37 | Splitting `a + sep + b`, where `a` has no separator, gives `a` followed by the pieces of `b`. |
| `JsStrings.SplitJoin` | render/server.js:37 | Splitting a join of separator-free pieces gives back the pieces. |
| `Server.AppRules` | render/server.js:12-54 | The single `get` call registers three rules: static files, posts list, single post, in that order. The first matches every URL, the second exactly the URLs that begin with `/api/posts/`, and the third those that begin with `/api/post/`. |
| `Server.CreateApp` | render/server.js:12-54 | After the router module loads and the single `get` call runs, the table is the three GET rules in source order, no POST rules, and the default 404 handler. |
| `Server.FilePath` | render/server.js:16 | The static path is the directory followed by `/index.html` for `/`, and by the URL verbatim otherwise. |
| `Server.FilePathCollisions` | render/server.js:16 | Two URLs map to the same file exactly when they are equal, or are `/` and `/index.html`. |
| `Server.PostName` | render/server.js:37-40 | A post name, when there is one, is non-empty and contains no `/`. |
| `Server.PostNameIsThirdSegment` | render/server.js:37-40 | The post name is the third `/`-separated segment of the URL, whatever the first two segments are. It ends at the next `/` or at the end of the URL, and there is none when that segment is empty. |
| `Server.PostNameExample` | render/server.js:37-38 | `/api/post/foo` names the post `foo`. |
| `Server.PostNameIgnoresLaterSegments` | render/server.js:37-38 | `/api/post/foo/bar` also names `foo`. |
| `Server.PostNameEmptyExample` | render/server.js:40 | `/api/post/` names no post. |
| `Server.StaticReply` | render/server.js:14-25 | The static handler streams the file at `FilePath(dir, url)` exactly when it exists, and otherwise replies with a bare 404. |
| `Server.SinglePostReply` | render/server.js:36-53 | The single-post handler writes `"fail"` exactly when the URL has no post name. With a post name it streams `dir + "/posts/" + name` exactly when that file exists, and replies with a bare 404 when it does not. |
| `Server.Respond` | render/server.js:12-54 | The three callbacks, and the default handler (render/route.js:3), which replies with a bare 404. The posts JSON comes from the posts-list callback and no other, and a text reply comes only from the single-post callback. |
| `Server.Serve` | render/server.js:12-56 | Every request that is not a GET gets a bare 404. The posts JSON is the reply exactly to GETs under `/api/posts/`, and a text reply is given only to GETs under `/api/post/`. |
| `Server.Handle` | render/server.js:56 | The server passes a request to the configured router, and the reply is that of the handler it reaches. |
| `Server.ApiPrefixesDisjoint` | render/server.js:27-35 | No URL starts with both `/api/posts/` and `/api/post/`. |
| `Server.GetRouting` | render/server.js:12-54 | `/api/posts/` URLs reach the posts list, even though the catch-all also matches. `/api/post/` URLs reach the single post. Every other GET reaches the static files. |
| `Server.GetNeverFallsBack` | render/server.js:13 | The catch-all matches every URL, so a GET never depends on the fallback. |
| `Server.NonGetIsNotFound` | render/server.js:12-54 | No POST rules are registered. POST, and every other method that is not GET, reaches the default handler and gets a bare 404. |
| `Server.ServeGet` | render/server.js:12-54 | A GET gets the posts JSON, the single-post reply or the static-file reply, according to its URL prefix. |
| `Server.ServeRoot` | render/server.js:16-19 | A GET of `/` streams `index.html` from the server directory if it exists, and otherwise gets a bare 404. |
| `Server.MissingPostNameFails` | render/server.js:50-51 | Without a post name the reply is `"fail"`, whatever the file system holds, so no file is looked up. |
| `Server.SinglePostServesPostsFile` | render/server.js:40-44 | The single-post handler streams only `dir + "/posts/" + name` for the URL's post name, and does so whenever that file exists. |
| `Server.CatchAllLastShadowsAll` | render/server.js:12-54 | The registration order matters. With the catch-all registered last it would shadow both API rules, and every GET would reach the static files. |

## Left out

- `Route.Router.E404`: models `e404` called with exactly one argument. Called with none, the source sets the fallback to `undefined`, and the next unmatched request then throws. Extra arguments are ignored in the source and cannot be passed here.
- Rules without a `path`, or with a `path` that has no callable `test` method, are not modelled: every rule here has a pattern. In the source such a rule throws at dispatch.
- The RegExp engine is not modelled. Patterns are anchored literal prefixes, the only form the server registers.
- Lookup of `rules[req.method]` on a plain object is modelled for GET, POST and every other name as "no list". Object-prototype keys such as `constructor` are not modelled.
- Exceptions thrown by handlers are not modelled. The router does not catch them.
- `Route.Router.Dispatch` returns the chosen handler instead of calling it with `(req, res)`. Calling it is what `Server.Handle` does, through `Server.Respond`.
- File system and streaming (`fs.readFile`, `fs.stat`, `createReadStream().pipe`) are not performed. `fs.stat` success is the parameter `files`, and a streamed file is recorded only by its path.
- The posts store (`posts.json`, `JSON.parse`, `JSON.stringify`) is not modelled. The posts-list reply is the constant `PostsJson`.
- Response headers and Content-Type strings are not modelled. The static and single-post handlers write a 200 header before `fs.stat`, and a second 404 header when it fails. The model records only the 404: which status the host actually sends after two `writeHead` calls is not modelled.
- Server startup, `http.createServer(app).listen(8080)`, is not modelled beyond `Server.Handle` passing one request through.
- The client-side data-binding script (`render/scripts/ko-model.js`) is not part of this model. It is browser code built on a reactive-binding library and asynchronous AJAX.
- Concurrency is not modelled. Dispatch only reads the table, and the table is fixed once configured.
