/**
 * `UrlParser` in server/parsutil.py: a prefix pattern to be matched and
 * skipped, then (pattern, callback) pairs tried in registration order on the
 * rest of the path; the first pattern that matches has its callback called
 * with the named groups of the prefix, updated by those of the pattern.
 *
 * `re.compile` is a parameter of the parser (the pattern engine is not part
 * of this model); a callback is a function of its keyword arguments.
 */
module UrlDispatch {
  import opened Wrappers
  import opened RegexParts

  /** A callback, called with named arguments only. */
  type Callback<R> = map<string, string> -> R

  /** An entry of `self.callbacks`: a compiled pattern and its callback. */
  datatype Route<R> = Route(regex: Matcher, callback: Callback<R>)

  /** `path[end:]`: a Python slice that starts past the end is empty. */
  function Rest(path: string, end: nat): (r: string)
    ensures end <= |path| ==> path == path[..end] + r
    ensures end > |path| ==> r == []
  {
    if end <= |path| then path[end..] else []
  }

  /**
   * `named_args = prefix_mo.groupdict(); named_args.update(mo.groupdict())`:
   * every group of either match is an argument, and a name bound by both
   * takes the pattern's value.
   */
  function NamedArgs(prefixGroups: map<string, string>, groups: map<string, string>): (args: map<string, string>)
    ensures args.Keys == prefixGroups.Keys + groups.Keys
    ensures forall k :: k in groups ==> args[k] == groups[k]
    ensures forall k :: k in prefixGroups && k !in groups ==> args[k] == prefixGroups[k]
  {
    prefixGroups + groups
  }

  /** The position of the first route whose pattern matches s, if any. */
  function FirstMatch<R>(routes: seq<Route<R>>, s: string): (k: Option<nat>)
    ensures k.Some? ==> k.value < |routes| && routes[k.value].regex(s).Some?
    ensures forall j :: 0 <= j < |routes| && (k.None? || j < k.value) ==> routes[j].regex(s).None?
    decreases |routes|
  {
    if routes == [] then None
    else if routes[0].regex(s).Some? then Some(0)
    else
      var k := FirstMatch(routes[1..], s);
      assert forall j :: 1 <= j < |routes| ==> routes[j] == routes[1..][j - 1];
      match k
      case None => None
      case Some(k') => Some(k' + 1)
  }

  /** A route that matches, with no earlier route matching, is the first match. */
  lemma FirstMatchIs<R>(routes: seq<Route<R>>, s: string, k: nat)
    requires k < |routes| && routes[k].regex(s).Some?
    requires forall j :: 0 <= j < k ==> routes[j].regex(s).None?
    ensures FirstMatch(routes, s) == Some(k)
  {
    var f := FirstMatch(routes, s);
  }

  /**
   * What `process(path)` returns for a given prefix matcher and routes: None
   * unless the prefix matches the start of the path and some pattern matches
   * the start of what follows; otherwise the first such pattern's callback
   * applied to the merged groups.
   */
  function Dispatch<R>(prefix: Matcher, routes: seq<Route<R>>, path: string): (r: Option<R>)
    ensures r.None? <==>
      prefix(path).None? ||
      forall j :: 0 <= j < |routes| ==> routes[j].regex(Rest(path, prefix(path).value.end)).None?
  {
    match prefix(path)
    case None => None
    case Some(pm) =>
      var rest := Rest(path, pm.end);
      match FirstMatch(routes, rest)
      case None => None
      case Some(k) => Some(routes[k].callback(NamedArgs(pm.groups, routes[k].regex(rest).value.groups)))
  }

  /**
   * The first matching pattern wins: when route k matches the rest of the
   * path and no earlier route does, its callback's result is returned, called
   * with the prefix's groups overridden by route k's.
   */
  lemma DispatchFirstWins<R>(prefix: Matcher, routes: seq<Route<R>>, path: string, k: nat)
    requires prefix(path).Some?
    requires k < |routes|
    requires routes[k].regex(Rest(path, prefix(path).value.end)).Some?
    requires forall j :: 0 <= j < k ==> routes[j].regex(Rest(path, prefix(path).value.end)).None?
    ensures var pm, rest := prefix(path).value, Rest(path, prefix(path).value.end);
      Dispatch(prefix, routes, path) == Some(routes[k].callback(NamedArgs(pm.groups, routes[k].regex(rest).value.groups)))
  {
    var rest := Rest(path, prefix(path).value.end);
    var f := FirstMatch(routes, rest);
  }

  /**
   * Dispatch without a prefix: the first matching route's callback, called
   * with that route's groups; None exactly when no route matches.
   */
  function Select<R>(routes: seq<Route<R>>, rest: string): (r: Option<R>)
    ensures r.None? <==> forall j :: 0 <= j < |routes| ==> routes[j].regex(rest).None?
  {
    match FirstMatch(routes, rest)
    case None => None
    case Some(k) => Some(routes[k].callback(routes[k].regex(rest).value.groups))
  }

  /** A literal prefix binds no group: the path must start with it, and the rest is dispatched on its own. */
  lemma LiteralPrefixDispatch<R>(p: string, routes: seq<Route<R>>, path: string)
    ensures Dispatch(Literal(p), routes, path) == if p <= path then Select(routes, path[|p|..]) else None
  {
    if p <= path {
      var k := FirstMatch(routes, path[|p|..]);
      if k.Some? {
        var g := routes[k.value].regex(path[|p|..]).value.groups;
        assert NamedArgs(map[], g) == g;
      }
    }
  }

  class UrlParser<R> {
    /** `re.compile`. */
    const compile: string -> Matcher
    /** `self.prefix.pattern`; the prefix matcher is `compile(prefixPattern)`. */
    var prefixPattern: string
    /** `self.callbacks`, in registration order. */
    var callbacks: seq<Route<R>>

    /** `UrlParser(prefix, *args)`: a missing or empty prefix becomes the empty pattern, and every pattern is compiled, in order. */
    constructor(compile: string -> Matcher, prefix: Option<string>, args: seq<(string, Callback<R>)>)
      ensures this.compile == compile
      ensures prefixPattern == if prefix.Some? then prefix.value else ""
      ensures |callbacks| == |args|
      ensures forall i :: 0 <= i < |args| ==> callbacks[i] == Route(compile(args[i].0), args[i].1)
    {
      this.compile := compile;
      prefixPattern := match prefix case None => "" case Some(p) => p;
      var routes: seq<Route<R>> := [];
      for i := 0 to |args|
        invariant |routes| == i
        invariant forall j :: 0 <= j < i ==> routes[j] == Route(compile(args[j].0), args[j].1)
      {
        var (pattern, callback) := args[i];
        routes := routes + [Route(compile(pattern), callback)];
      }
      callbacks := routes;
    }

    /**
     * `process(path, prefix)`: a given prefix that differs from the current
     * one replaces it for this and every later call; then the path is
     * dispatched as Dispatch describes.
     */
    method Process(path: string, prefix: Option<string>) returns (r: Option<R>)
      modifies this
      ensures prefixPattern == if prefix.Some? then prefix.value else old(prefixPattern)
      ensures callbacks == old(callbacks)
      ensures r == Dispatch(compile(prefixPattern), callbacks, path)
    {
      if prefix.Some? && prefix.value != prefixPattern {
        prefixPattern := prefix.value;
      }
      var prefixMo := compile(prefixPattern)(path);
      if prefixMo.None? {
        return None;
      }
      var pathrest := Rest(path, prefixMo.value.end);
      for i := 0 to |callbacks|
        invariant forall j :: 0 <= j < i ==> callbacks[j].regex(pathrest).None?
      {
        var mo := callbacks[i].regex(pathrest);
        if mo.Some? {
          DispatchFirstWins(compile(prefixPattern), callbacks, path, i);
          return Some(callbacks[i].callback(NamedArgs(prefixMo.value.groups, mo.value.groups)));
        }
      }
      return None;
    }
  }

  // ---------------------------------------------------------------------------
  // The class docstring's example
  // ---------------------------------------------------------------------------

  const FOO_PREFIX: string := "/(?P<foo>\\w+)/"
  const BAR_PATTERN: string := "(?P<bar>\\d+)"
  const FOO_PATTERN: string := "(?P<foo>[^/]*)"

  /** `/(?P<foo>\w+)/`. */
  function MatchFooPrefix(s: string): Option<MatchObject>
  {
    if |s| == 0 || s[0] != '/' then None
    else
      var w := Span(IsWordChar, s, 1);
      if w > 0 && 1 + w < |s| && s[1 + w] == '/' then Some(MatchObject(2 + w, map["foo" := s[1..1 + w]])) else None
  }

  /** `(?P<bar>\d+)`. */
  function MatchBar(s: string): Option<MatchObject>
  {
    var d := Span(JavaMath.IsDigit, s, 0);
    if d > 0 then Some(MatchObject(d, map["bar" := s[..d]])) else None
  }

  /** `(?P<foo>[^/]*)`: matches every string. */
  function MatchFoo(s: string): Option<MatchObject>
  {
    var n := Span(NotSlash, s, 0);
    Some(MatchObject(n, map["foo" := s[..n]]))
  }

  /** The engine for the example's patterns; any other pattern is taken literally. */
  function ExampleCompile(p: string): Matcher
  {
    if p == FOO_PREFIX then MatchFooPrefix
    else if p == BAR_PATTERN then MatchBar
    else if p == FOO_PATTERN then MatchFoo
    else Literal(p)
  }

  /**
   * `show` prints the sorted items of its arguments and returns None. The
   * model takes what it prints, the arguments themselves, as its result, so
   * each result below is the printed line and not `process`'s return value.
   */
  function Show(args: map<string, string>): map<string, string> { args }

  function ExampleRoutes(): seq<Route<map<string, string>>>
  {
    [Route(MatchBar, Show), Route(MatchFoo, Show)]
  }

  lemma FooPrefixOf(w: string, t: string)
    requires w != [] && AllWord(w)
    ensures MatchFooPrefix("/" + w + "/" + t) == Some(MatchObject(|w| + 2, map["foo" := w]))
  {
    var s := "/" + w + "/" + t;
    assert s == "/" + (w + "/" + t);
    SpanAfter(IsWordChar, "/", w + "/" + t, 0);
    SpanIs(IsWordChar, w + "/" + t, 0, |w|);
    assert s[1..1 + |w|] == w;
  }

  lemma BarOf(d: string, t: string)
    requires d != [] && JavaMath.AllDigits(d) && (t == [] || !JavaMath.IsDigit(t[0]))
    ensures MatchBar(d + t) == Some(MatchObject(|d|, map["bar" := d]))
  {
    SpanIs(JavaMath.IsDigit, d + t, 0, |d|);
    assert (d + t)[..|d|] == d;
  }

  lemma FooOf(w: string, t: string)
    requires forall i :: 0 <= i < |w| ==> NotSlash(w[i])
    requires t == [] || t[0] == '/'
    ensures MatchFoo(w + t) == Some(MatchObject(|w|, map["foo" := w]))
  {
    SpanIs(NotSlash, w + t, 0, |w|);
    assert (w + t)[..|w|] == w;
  }

  /** With the example prefix, digits after the first segment go to `bar`, and `foo` comes from the prefix. */
  lemma FooPrefixSelectsBar(w: string, d: string, t: string)
    requires w != [] && AllWord(w)
    requires d != [] && JavaMath.AllDigits(d) && (t == [] || !JavaMath.IsDigit(t[0]))
    ensures Dispatch(ExampleCompile(FOO_PREFIX), ExampleRoutes(), "/" + w + "/" + (d + t)) == Some(map["bar" := d, "foo" := w])
  {
    var path := "/" + w + "/" + (d + t);
    FooPrefixOf(w, d + t);
    assert Rest(path, |w| + 2) == d + t;
    BarOf(d, t);
    DispatchFirstWins(MatchFooPrefix, ExampleRoutes(), path, 0);
    assert NamedArgs(map["foo" := w], map["bar" := d]) == map["bar" := d, "foo" := w];
  }

  /** With the example prefix, a second segment that does not start with a digit is `foo`, overriding the prefix's. */
  lemma FooPrefixSelectsFoo(w: string, v: string, t: string)
    requires w != [] && AllWord(w)
    requires v != [] && !JavaMath.IsDigit(v[0]) && forall i :: 0 <= i < |v| ==> NotSlash(v[i])
    requires t == [] || t[0] == '/'
    ensures Dispatch(ExampleCompile(FOO_PREFIX), ExampleRoutes(), "/" + w + "/" + (v + t)) == Some(map["foo" := v])
  {
    var path := "/" + w + "/" + (v + t);
    FooPrefixOf(w, v + t);
    assert Rest(path, |w| + 2) == v + t;
    SpanIs(JavaMath.IsDigit, v + t, 0, 0);
    assert MatchBar(v + t) == None;
    FooOf(v, t);
    DispatchFirstWins(MatchFooPrefix, ExampleRoutes(), path, 1);
    assert NamedArgs(map["foo" := w], map["foo" := v]) == map["foo" := v];
  }

  /** `process('/zipzop/23/whatever')` with the example prefix: `bar` from the first pattern, `foo` from the prefix. */
  lemma ExampleBarWins()
    ensures Dispatch(ExampleCompile(FOO_PREFIX), ExampleRoutes(), "/zipzop/23/whatever") == Some(map["bar" := "23", "foo" := "zipzop"])
  {
    assert "/zipzop/23/whatever" == "/" + "zipzop" + "/" + ("23" + "/whatever");
    FooPrefixSelectsBar("zipzop", "23", "/whatever");
  }

  /** `process('/zipzop/whoo/whatever')` with the example prefix: the second pattern's `foo` overrides the prefix's. */
  lemma ExampleFooOverrides()
    ensures Dispatch(ExampleCompile(FOO_PREFIX), ExampleRoutes(), "/zipzop/whoo/whatever") == Some(map["foo" := "whoo"])
  {
    assert "/zipzop/whoo/whatever" == "/" + "zipzop" + "/" + ("whoo" + "/whatever");
    FooPrefixSelectsFoo("zipzop", "whoo", "/whatever");
  }

  /** With the prefix '/', a first segment that does not start with a digit is all of `foo`. */
  lemma SlashPrefixSelectsFoo(w: string, t: string)
    requires w != [] && !JavaMath.IsDigit(w[0]) && forall i :: 0 <= i < |w| ==> NotSlash(w[i])
    requires t == [] || t[0] == '/'
    ensures Dispatch(ExampleCompile("/"), ExampleRoutes(), "/" + w + t) == Some(map["foo" := w])
  {
    var s := "/" + w + t;
    assert ExampleCompile("/") == Literal("/");
    LiteralPrefixDispatch("/", ExampleRoutes(), s);
    assert s[1..] == w + t;
    assert MatchBar(w + t) == None;
    FooOf(w, t);
    assert FirstMatch(ExampleRoutes(), w + t) == Some(1);
  }

  /** The same path after `prefix='/'`: only the root slash is skipped, so `foo` is the first segment. */
  lemma ExampleSlashPrefix()
    ensures Dispatch(ExampleCompile("/"), ExampleRoutes(), "/zipzop/whoo/whatever") == Some(map["foo" := "zipzop"])
  {
    assert "/zipzop/whoo/whatever" == "/" + "zipzop" + "/whoo/whatever";
    SlashPrefixSelectsFoo("zipzop", "/whoo/whatever");
  }

  /**
   * The docstring's session, each result being the arguments `show`
   * prints: the prefix's `foo` is overridden by the pattern's; after `prefix='/'` the new prefix sticks, and the whole first
   * segment is `foo`.
   */
  method ExampleSession() returns (a: Option<map<string, string>>, b: Option<map<string, string>>,
                                   c: Option<map<string, string>>, d: Option<map<string, string>>, pattern: string)
    ensures a == Some(map["bar" := "23", "foo" := "zipzop"])
    ensures b == Some(map["foo" := "whoo"])
    ensures c == Some(map["foo" := "zipzop"])
    ensures d == Some(map["foo" := "zipzop"])
    ensures pattern == "/"
  {
    var h := new UrlParser(ExampleCompile, Some(FOO_PREFIX), [(BAR_PATTERN, Show), (FOO_PATTERN, Show)]);
    assert h.callbacks == ExampleRoutes();
    ExampleBarWins();
    ExampleFooOverrides();
    ExampleSlashPrefix();
    a := h.Process("/zipzop/23/whatever", None);
    b := h.Process("/zipzop/whoo/whatever", None);
    c := h.Process("/zipzop/whoo/whatever", Some("/"));
    d := h.Process("/zipzop/whoo/whatever", None);
    pattern := h.prefixPattern;
  }
}
