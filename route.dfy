/**
  The request router of render/route.js.

  The router keeps one ordered list of rules for GET and one for POST, and a
  replaceable not-found handler. Registration appends rules (or replaces the
  not-found handler) and hands back the router so that calls can be chained.
  Dispatch keeps, in registration order, the rules of the request's method
  whose pattern matches the URL and invokes the LAST of them; when there is
  none it invokes the not-found handler.
 */
module Route {

  datatype Option<+T> = None | Some(value: T)

  /** A rule's `path`. The source uses a RegExp; every pattern the program
      registers is anchored at the start of the URL and otherwise literal
      (`/^/`, `/^\/api\/posts\//`, `/^\/api\/post\//`), so a pattern is the
      literal text the URL must begin with. */
  datatype Pattern = Anchored(prefix: string)

  /** `rule.path.test(req.url)` for an anchored literal pattern. */
  predicate Matches(p: Pattern, url: string): (m: bool)
    ensures m <==> |p.prefix| <= |url| && url[..|p.prefix|] == p.prefix
    ensures p.prefix == "" ==> m
  {
    p.prefix <= url
  }

  /** A registered `{path, cb}` pair; `H` stands for the callbacks. */
  datatype Rule<H> = Rule(path: Pattern, cb: H)

  /** What dispatch invokes: a registered callback, or the router's own
      default not-found handler, which writes status 404 and ends the
      response with no body. */
  datatype Handler<H> = NotFound404 | Callback(cb: H)

  /** The router's whole state: the GET list, the POST list and the
      not-found handler. */
  datatype RouteTable<H> = RouteTable(get: seq<Rule<H>>, post: seq<Rule<H>>, fallback: Handler<H>)

  /** The state the router starts in: no rules, and the default 404 handler. */
  function InitialTable<H>(): (t: RouteTable<H>)
    ensures forall verb, url :: HandlerFor(t, verb, url) == NotFound404
  {
    RouteTable([], [], NotFound404)
  }

  /** `rules[req.method] || []`: only GET and POST have lists. */
  function RulesFor<H>(t: RouteTable<H>, verb: string): (rules: seq<Rule<H>>)
    ensures verb == "GET" ==> rules == t.get
    ensures verb == "POST" ==> rules == t.post
    ensures verb != "GET" && verb != "POST" ==> rules == []
  {
    if verb == "GET" then t.get
    else if verb == "POST" then t.post
    else []
  }

  /** Some rule of `rules` matches `url`. */
  predicate HasMatch<H>(rules: seq<Rule<H>>, url: string)
  {
    exists i :: 0 <= i < |rules| && Matches(rules[i].path, url)
  }

  /** `rules.filter(rule => rule.path.test(url))`: the matching rules, in
      the order they were registered. */
  function Filter<H>(rules: seq<Rule<H>>, url: string): (m: seq<Rule<H>>)
    ensures |m| <= |rules|
    ensures forall i :: 0 <= i < |m| ==> m[i] in rules && Matches(m[i].path, url)
    ensures m == [] <==> !HasMatch(rules, url)
  {
    if |rules| == 0 then []
    else (if Matches(rules[0].path, url) then [rules[0]] else []) + Filter(rules[1..], url)
  }

  /** Reference definition of the rule dispatch picks: the highest index
      whose rule matches, searched from the end of the list. */
  function LastMatch<H>(rules: seq<Rule<H>>, url: string): (k: Option<nat>)
    ensures k.Some? ==> k.value < |rules| && Matches(rules[k.value].path, url)
    ensures k.Some? ==> forall j :: k.value < j < |rules| ==> !Matches(rules[j].path, url)
    ensures k.None? <==> !HasMatch(rules, url)
  {
    if |rules| == 0 then None
    else if Matches(rules[|rules| - 1].path, url) then Some(|rules| - 1)
    else LastMatch(rules[..|rules| - 1], url)
  }

  /** The selection of render/route.js: filter, then `pop()` the last
      match's callback, or fall back. */
  function Select<H>(rules: seq<Rule<H>>, url: string, fallback: Handler<H>): (h: Handler<H>)
    ensures !HasMatch(rules, url) ==> h == fallback
    ensures HasMatch(rules, url) ==> h.Callback?
  {
    var m := Filter(rules, url);
    if |m| > 0 then Callback(m[|m| - 1].cb) else fallback
  }

  /** The handler a request with this method and URL reaches. */
  function HandlerFor<H>(t: RouteTable<H>, verb: string, url: string): (h: Handler<H>)
    ensures verb != "GET" && verb != "POST" ==> h == t.fallback
  {
    Select(RulesFor(t, verb), url, t.fallback)
  }

  /** Filtering keeps registration order: the matches of a concatenation are
      the matches of its parts, concatenated. */
  lemma {:induction false} FilterAppend<H>(a: seq<Rule<H>>, b: seq<Rule<H>>, url: string)
    ensures Filter(a + b, url) == Filter(a, url) + Filter(b, url)
  {
    if |a| == 0 {
      assert a + b == b;
    } else {
      var head := if Matches(a[0].path, url) then [a[0]] else [];
      assert (a + b)[0] == a[0];
      assert (a + b)[1..] == a[1..] + b;
      calc {
        Filter(a + b, url);
        head + Filter(a[1..] + b, url);
        { FilterAppend(a[1..], b, url); }
        head + (Filter(a[1..], url) + Filter(b, url));
        (head + Filter(a[1..], url)) + Filter(b, url);
        Filter(a, url) + Filter(b, url);
      }
    }
  }

  /** Filtering drops no matching rule. */
  lemma {:induction false} FilterKeepsEveryMatch<H>(rules: seq<Rule<H>>, url: string, i: nat)
    requires i < |rules| && Matches(rules[i].path, url)
    ensures rules[i] in Filter(rules, url)
  {
    if i > 0 {
      FilterKeepsEveryMatch(rules[1..], url, i - 1);
      assert rules[1..][i - 1] == rules[i];
    }
  }

  /** Last match wins: dispatch picks the callback of the highest-indexed
      matching rule, and the fallback exactly when no rule matches. */
  lemma {:induction false} SelectIsLastMatch<H>(rules: seq<Rule<H>>, url: string, fallback: Handler<H>)
    ensures Select(rules, url, fallback) ==
      match LastMatch(rules, url)
      case Some(k) => Callback(rules[k].cb)
      case None => fallback
  {
    if |rules| > 0 {
      var n := |rules| - 1;
      var init := rules[..n];
      assert rules == init + [rules[n]];
      FilterAppend(init, [rules[n]], url);
      assert [rules[n]][1..] == [];
      if !Matches(rules[n].path, url) {
        assert Filter(rules, url) == Filter(init, url);
        SelectIsLastMatch(init, url, fallback);
      }
    }
  }

  /** A rule registered later shadows every earlier one: if some rule of the
      later block `b` matches, nothing in the earlier block `a` is chosen. */
  lemma LaterMatchShadows<H>(a: seq<Rule<H>>, b: seq<Rule<H>>, url: string, fallback: Handler<H>)
    requires HasMatch(b, url)
    ensures Select(a + b, url, fallback) == Select(b, url, fallback)
  {
    FilterAppend(a, b, url);
    LastOfAppend(Filter(a, url), Filter(b, url));
  }

  /** The last element of `x + y` is the last element of `y`. */
  lemma LastOfAppend<T>(x: seq<T>, y: seq<T>)
    requires y != []
    ensures x + y != [] && (x + y)[|x + y| - 1] == y[|y| - 1]
  {
  }

  /** Rules registered later that do not match the URL change nothing. */
  lemma UnmatchedSuffixIsTransparent<H>(a: seq<Rule<H>>, b: seq<Rule<H>>, url: string, fallback: Handler<H>)
    requires !HasMatch(b, url)
    ensures Select(a + b, url, fallback) == Select(a, url, fallback)
  {
    FilterAppend(a, b, url);
    assert Filter(b, url) == [];
    SelectOfSameFilter(a + b, a, url, fallback);
  }

  /** Selection depends on the rules only through the matching ones. */
  lemma SelectOfSameFilter<H>(r1: seq<Rule<H>>, r2: seq<Rule<H>>, url: string, fallback: Handler<H>)
    requires Filter(r1, url) == Filter(r2, url)
    ensures Select(r1, url, fallback) == Select(r2, url, fallback)
  {
  }

  /** The fallback is consulted only when nothing matches: with a match, any
      two fallbacks give the same callback. */
  lemma FallbackOnlyWhenUnmatched<H>(rules: seq<Rule<H>>, url: string, f1: Handler<H>, f2: Handler<H>)
    requires HasMatch(rules, url)
    ensures Select(rules, url, f1) == Select(rules, url, f2)
    ensures Select(rules, url, f1).Callback?
  {
  }

  /** The exported router: its rule lists and the not-found handler are
      fields that registration updates in place. */
  class Router<H> {
    var getRules: seq<Rule<H>>
    var postRules: seq<Rule<H>>
    var fallback: Handler<H>

    /** The router's state as a value. */
    function Table(): RouteTable<H>
      reads this
    {
      RouteTable(getRules, postRules, fallback)
    }

    /** The module's initialisation: empty GET and POST lists, default 404. */
    constructor ()
      ensures Table() == InitialTable()
    {
      getRules := [];
      postRules := [];
      fallback := NotFound404;
    }

    /** `get(r1, ..., rn)`: appends the rules to the GET list, in argument
        order, and returns the router. */
    method Get(rs: seq<Rule<H>>) returns (self: Router<H>)
      modifies this
      ensures getRules == old(getRules) + rs
      ensures postRules == old(postRules) && fallback == old(fallback)
      ensures self == this
    {
      getRules := getRules + rs;
      self := this;
    }

    /** `post(r1, ..., rn)`: appends the rules to the POST list, in argument
        order, and returns the router. */
    method Post(rs: seq<Rule<H>>) returns (self: Router<H>)
      modifies this
      ensures postRules == old(postRules) + rs
      ensures getRules == old(getRules) && fallback == old(fallback)
      ensures self == this
    {
      postRules := postRules + rs;
      self := this;
    }

    /** `e404(cb)`: makes `cb` the handler for every later unmatched request,
        and returns the router. */
    method E404(cb: H) returns (self: Router<H>)
      modifies this
      ensures fallback == Callback(cb)
      ensures getRules == old(getRules) && postRules == old(postRules)
      ensures self == this
    {
      fallback := Callback(cb);
      self := this;
    }

    /** `Router(req, res)`: returns the one handler the request is passed to.
        Having no modifies clause, it leaves the table as it was. */
    method Dispatch(verb: string, url: string) returns (h: Handler<H>)
      ensures h == HandlerFor(Table(), verb, url)
      ensures match LastMatch(RulesFor(Table(), verb), url)
        case Some(k) => h == Callback(RulesFor(Table(), verb)[k].cb)
        case None => h == fallback
    {
      var rules := RulesFor(Table(), verb);
      var m := Filter(rules, url);
      if |m| > 0 {
        h := Callback(m[|m| - 1].cb);
      } else {
        h := fallback;
      }
      SelectIsLastMatch(rules, url, fallback);
    }
  }
}
