/**
 * `RestUrlParser` in server/parsutil.py: a UrlParser whose prefix is
 * normalised to `/x/` (or `/`) and whose six fixed patterns sort a REST
 * path into one of six shapes, each reported as a tuple of the matched
 * substrings.
 *
 * The six patterns are written here as matchers that consume exactly what
 * Python's backtracking engine does for them: `\w+` and `\d+` stop at the
 * first character outside their class (giving characters back can never
 * help, since the next pattern character is a '/'), and `/?/` takes two
 * slashes when there are two and one otherwise. A prefix is matched as a
 * literal string.
 */
module RestUrl {
  import opened Wrappers
  import opened RegexParts
  import opened UrlDispatch
  import JavaMath

  /** The tuples the `do_*` methods return. */
  datatype RestTarget =
    | Special(special: string)
    | Model(model: string)
    | SpecialMethod(special: string, methodName: string)
    | ModelMethod(model: string, methodName: string)
    | ModelStrid(model: string, strid: string)
    | ModelStridMethod(model: string, strid: string, methodName: string)

  // ---------------------------------------------------------------------------
  // _doprefix
  // ---------------------------------------------------------------------------

  function Slashes(n: nat): (s: string)
    ensures |s| == n && forall i :: 0 <= i < n ==> s[i] == '/'
  {
    seq(n, _ => '/')
  }

  /** `lstrip('/')`. */
  function StripLeft(s: string): (r: string)
    ensures r == [] || r[0] != '/'
    ensures |r| <= |s| && s == Slashes(|s| - |r|) + r
    decreases |s|
  {
    if s != [] && s[0] == '/' then
      var r := StripLeft(s[1..]);
      assert Slashes(|s| - |r|) == "/" + Slashes(|s| - 1 - |r|);
      r
    else s
  }

  /** `rstrip('/')`. */
  function StripRight(s: string): (r: string)
    ensures r == [] || r[|r| - 1] != '/'
    ensures |r| <= |s| && s == r + Slashes(|s| - |r|)
    decreases |s|
  {
    if s != [] && s[|s| - 1] == '/' then
      var r := StripRight(s[..|s| - 1]);
      assert Slashes(|s| - |r|) == Slashes(|s| - 1 - |r|) + "/";
      r
    else s
  }

  /** `strip('/')`: what is left once the slashes at both ends are gone. */
  function StripSlashes(s: string): (r: string)
    ensures r == [] || (r[0] != '/' && r[|r| - 1] != '/')
    ensures exists a: nat, b: nat :: s == Slashes(a) + r + Slashes(b)
  {
    var l := StripLeft(s);
    var r := StripRight(l);
    assert s == Slashes(|s| - |l|) + r + Slashes(|l| - |r|);
    r
  }

  lemma {:induction false} StripLeftSlashes(a: nat, x: string)
    ensures StripLeft(Slashes(a) + x) == StripLeft(x)
    decreases a
  {
    if a > 0 {
      var s := Slashes(a) + x;
      assert s[0] == '/';
      assert s[1..] == Slashes(a - 1) + x;
      StripLeftSlashes(a - 1, x);
    } else {
      assert Slashes(a) + x == x;
    }
  }

  lemma {:induction false} StripRightSlashes(x: string, b: nat)
    ensures StripRight(x + Slashes(b)) == StripRight(x)
    decreases b
  {
    if b > 0 {
      assert (x + Slashes(b))[|x| + b - 1] == '/';
      assert (x + Slashes(b))[..|x| + b - 1] == x + Slashes(b - 1);
      StripRightSlashes(x, b - 1);
    } else {
      assert x + Slashes(b) == x;
    }
  }

  /** Stripping is undone by nothing but slashes: whatever slashes surround a core without end slashes, the core is what is left. */
  lemma StripSlashesOf(a: nat, core: string, b: nat)
    requires core == [] || (core[0] != '/' && core[|core| - 1] != '/')
    ensures StripSlashes(Slashes(a) + core + Slashes(b)) == core
  {
    var s := Slashes(a) + core + Slashes(b);
    var t := core + Slashes(b);
    assert StripLeft(s) == StripLeft(t) by {
      assert s == Slashes(a) + t;
      StripLeftSlashes(a, t);
    }
    assert StripRight(StripLeft(t)) == core by {
      if core == [] {
        assert t == Slashes(b) + [];
        StripLeftSlashes(b, []);
      } else {
        StripLeftKeeps(t);
        StripRightSlashes(core, b);
        StripRightKeeps(core);
      }
    }
    StripSlashesSteps(s);
  }

  lemma StripSlashesSteps(s: string)
    ensures StripSlashes(s) == StripRight(StripLeft(s))
  {
  }

  lemma StripLeftKeeps(s: string)
    requires s == [] || s[0] != '/'
    ensures StripLeft(s) == s
  {
  }

  lemma StripRightKeeps(s: string)
    requires s == [] || s[|s| - 1] != '/'
    ensures StripRight(s) == s
  {
  }

  /**
   * `_doprefix(prefix)`: None stays None; otherwise the slashes at both
   * ends are dropped and the rest is put between two slashes, or a single
   * slash is left when nothing remains.
   */
  function DoPrefix(prefix: Option<string>): (r: Option<string>)
    ensures r.None? <==> prefix.None?
    ensures r.Some? ==> |r.value| >= 1 && r.value[0] == '/' && r.value[|r.value| - 1] == '/'
  {
    match prefix
    case None => None
    case Some(p) =>
      var core := StripSlashes(p);
      if core == [] then Some("/") else Some("/" + core + "/")
  }

  /** Any prefix, with any slashes around its core, normalises to `/core/`, or `/` for an empty core. */
  lemma DoPrefixOf(a: nat, core: string, b: nat)
    requires core == [] || (core[0] != '/' && core[|core| - 1] != '/')
    ensures DoPrefix(Some(Slashes(a) + core + Slashes(b))) == Some(if core == [] then "/" else "/" + core + "/")
  {
    StripSlashesOf(a, core, b);
  }

  /** Normalising a normalised prefix changes nothing: `_doprefix` is idempotent. */
  lemma DoPrefixIdempotent(prefix: Option<string>)
    ensures DoPrefix(DoPrefix(prefix)) == DoPrefix(prefix)
  {
    if prefix.Some? {
      var core := StripSlashes(prefix.value);
      var b := if core == [] then 0 else 1;
      var v := if core == [] then "/" else "/" + core + "/";
      assert DoPrefix(prefix) == Some(v);
      assert v == Slashes(1) + core + Slashes(b) by {
        assert Slashes(1) == "/" && Slashes(0) == [];
      }
      DoPrefixOf(1, core, b);
    }
  }

  // ---------------------------------------------------------------------------
  // The six patterns
  // ---------------------------------------------------------------------------

  const SR_METHOD: string := "/(?P<method>\\w+)"
  const SR_STRID: string := "/(?P<strid>\\d+)"
  const RE_SPECIAL: string := "(?P<special>\\$\\w+)/?"
  const RE_SPECIAL_METHOD: string := RE_SPECIAL + SR_METHOD
  const RE_MODEL: string := "(?P<model>\\w+)/?"
  const RE_MODEL_METHOD: string := RE_MODEL + SR_METHOD
  const RE_MODEL_STRID: string := RE_MODEL + SR_STRID
  const RE_MODEL_STRID_METHOD: string := RE_MODEL_STRID + SR_METHOD

  /** `\$\w+` at the start: the length of the special name, 0 when there is none. */
  function SpecialLength(s: string): (n: nat)
    ensures n <= |s|
    ensures n > 0 ==> n >= 2 && s[0] == '$' && forall k :: 1 <= k < n ==> IsWordChar(s[k])
    ensures n > 0 ==> n == |s| || !IsWordChar(s[n])
  {
    if |s| > 0 && s[0] == '$' && WordLength(s[1..]) > 0 then 1 + WordLength(s[1..]) else 0
  }

  /** `/?/` at the start: the slashes it consumes (two when there are two), 0 when it does not match. */
  function Gap(s: string): (g: nat)
    ensures g <= |s| && g <= 2
    ensures forall k :: 0 <= k < g ==> s[k] == '/'
    ensures g == 0 <==> s == [] || s[0] != '/'
    ensures g == 1 ==> |s| == 1 || s[1] != '/'
  {
    if |s| >= 2 && s[0] == '/' && s[1] == '/' then 2
    else if |s| >= 1 && s[0] == '/' then 1
    else 0
  }

  /**
   * `(?P<special>\$\w+)/?`: matches exactly when s starts with '$' and a
   * word character, and binds the special name it starts with.
   */
  function MatchSpecial(s: string): (r: Option<MatchObject>)
    ensures r.None? <==> |s| < 2 || s[0] != '$' || !IsWordChar(s[1])
    ensures r.Some? ==> r.value.end <= |s| && r.value.groups.Keys == {"special"} && r.value.groups["special"] <= s
  {
    var h := SpecialLength(s);
    if h == 0 then None
    else Some(MatchObject(h + OptSlash(s, h), map["special" := s[..h]]))
  }

  /** `(?P<special>\$\w+)/?/(?P<method>\w+)`: binds a special name the string starts with and a word. */
  function MatchSpecialMethod(s: string): (r: Option<MatchObject>)
    ensures r.Some? ==> r.value.end <= |s| && r.value.groups.Keys == {"special", "method"}
  {
    var h := SpecialLength(s);
    var y := s[h..];
    var g := Gap(y);
    var z := y[g..];
    var n := WordLength(z);
    if h == 0 || g == 0 || n == 0 then None
    else Some(MatchObject(h + g + n, map["special" := s[..h], "method" := z[..n]]))
  }

  /** `(?P<model>\w+)/?`: matches exactly when s starts with a word character, and binds the word it starts with. */
  function MatchModel(s: string): (r: Option<MatchObject>)
    ensures r.None? <==> s == [] || !IsWordChar(s[0])
    ensures r.Some? ==> r.value.end <= |s| && r.value.groups.Keys == {"model"} && r.value.groups["model"] <= s
  {
    var h := WordLength(s);
    if h == 0 then None
    else Some(MatchObject(h + OptSlash(s, h), map["model" := s[..h]]))
  }

  /** `(?P<model>\w+)/?/(?P<method>\w+)`: binds the word s starts with and a later word. */
  function MatchModelMethod(s: string): (r: Option<MatchObject>)
    ensures r.Some? ==> r.value.end <= |s| && r.value.groups.Keys == {"model", "method"}
  {
    var h := WordLength(s);
    var y := s[h..];
    var g := Gap(y);
    var z := y[g..];
    var n := WordLength(z);
    if h == 0 || g == 0 || n == 0 then None
    else Some(MatchObject(h + g + n, map["model" := s[..h], "method" := z[..n]]))
  }

  /** `(?P<model>\w+)/?/(?P<strid>\d+)`: binds the word s starts with and a run of digits. */
  function MatchModelStrid(s: string): (r: Option<MatchObject>)
    ensures r.Some? ==> r.value.end <= |s| && r.value.groups.Keys == {"model", "strid"}
  {
    var h := WordLength(s);
    var y := s[h..];
    var g := Gap(y);
    var z := y[g..];
    var d := DigitLength(z);
    if h == 0 || g == 0 || d == 0 then None
    else Some(MatchObject(h + g + d, map["model" := s[..h], "strid" := z[..d]]))
  }

  /** `(?P<model>\w+)/?/(?P<strid>\d+)/(?P<method>\w+)`: binds the word s starts with, a run of digits and a word. */
  function MatchModelStridMethod(s: string): (r: Option<MatchObject>)
    ensures r.Some? ==> r.value.end <= |s| && r.value.groups.Keys == {"model", "strid", "method"}
  {
    var h := WordLength(s);
    var y := s[h..];
    var g := Gap(y);
    var z := y[g..];
    var d := DigitLength(z);
    if h == 0 || g == 0 || d == 0 || d == |z| || z[d] != '/' then None
    else
      var w := z[d + 1..];
      var n := WordLength(w);
      if n == 0 then None
      else Some(MatchObject(h + g + d + 1 + n, map["model" := s[..h], "strid" := z[..d], "method" := w[..n]]))
  }

  /** The argument a callback is given under a name; every pattern binds the names its callback takes. */
  function Arg(args: map<string, string>, name: string): string
  {
    if name in args then args[name] else ""
  }

  // The `do_*` builders: each names its shape and passes on the arguments it takes.

  function DoSpecial(args: map<string, string>): (t: RestTarget)
    ensures t.Special? && ("special" in args ==> t.special == args["special"])
  {
    Special(Arg(args, "special"))
  }

  function DoModel(args: map<string, string>): (t: RestTarget)
    ensures t.Model? && ("model" in args ==> t.model == args["model"])
  {
    Model(Arg(args, "model"))
  }

  function DoSpecialMethod(args: map<string, string>): (t: RestTarget)
    ensures t.SpecialMethod?
    ensures "special" in args ==> t.special == args["special"]
    ensures "method" in args ==> t.methodName == args["method"]
  {
    SpecialMethod(Arg(args, "special"), Arg(args, "method"))
  }

  function DoModelMethod(args: map<string, string>): (t: RestTarget)
    ensures t.ModelMethod?
    ensures "model" in args ==> t.model == args["model"]
    ensures "method" in args ==> t.methodName == args["method"]
  {
    ModelMethod(Arg(args, "model"), Arg(args, "method"))
  }

  function DoModelStrid(args: map<string, string>): (t: RestTarget)
    ensures t.ModelStrid?
    ensures "model" in args ==> t.model == args["model"]
    ensures "strid" in args ==> t.strid == args["strid"]
  {
    ModelStrid(Arg(args, "model"), Arg(args, "strid"))
  }

  function DoModelStridMethod(args: map<string, string>): (t: RestTarget)
    ensures t.ModelStridMethod?
    ensures "model" in args ==> t.model == args["model"]
    ensures "strid" in args ==> t.strid == args["strid"]
    ensures "method" in args ==> t.methodName == args["method"]
  {
    ModelStridMethod(Arg(args, "model"), Arg(args, "strid"), Arg(args, "method"))
  }

  /**
   * The engine for RestUrlParser's patterns; any other pattern (a prefix) is
   * taken literally. A prefix produced by DoPrefix, or the empty prefix, is
   * never one of the six patterns.
   */
  function RestCompile(p: string): (m: Matcher)
    ensures p == [] || p[0] == '/' ==> m == Literal(p)
  {
    assert RE_SPECIAL_METHOD[0] == '(' && RE_SPECIAL[0] == '(' && RE_MODEL_STRID_METHOD[0] == '(';
    assert RE_MODEL_STRID[0] == '(' && RE_MODEL_METHOD[0] == '(' && RE_MODEL[0] == '(';
    if p == RE_SPECIAL_METHOD then MatchSpecialMethod
    else if p == RE_SPECIAL then MatchSpecial
    else if p == RE_MODEL_STRID_METHOD then MatchModelStridMethod
    else if p == RE_MODEL_STRID then MatchModelStrid
    else if p == RE_MODEL_METHOD then MatchModelMethod
    else if p == RE_MODEL then MatchModel
    else Literal(p)
  }

  /** The `addurl` calls, in order. */
  function RestPatterns(): seq<(string, Callback<RestTarget>)>
  {
    [(RE_SPECIAL_METHOD, DoSpecialMethod), (RE_SPECIAL, DoSpecial),
     (RE_MODEL_STRID_METHOD, DoModelStridMethod), (RE_MODEL_STRID, DoModelStrid),
     (RE_MODEL_METHOD, DoModelMethod), (RE_MODEL, DoModel)]
  }

  /** `self.callbacks` of every RestUrlParser. */
  function RestRoutes(): seq<Route<RestTarget>>
  {
    [Route(MatchSpecialMethod, DoSpecialMethod), Route(MatchSpecial, DoSpecial),
     Route(MatchModelStridMethod, DoModelStridMethod), Route(MatchModelStrid, DoModelStrid),
     Route(MatchModelMethod, DoModelMethod), Route(MatchModel, DoModel)]
  }

  /** Compiling the six patterns in order yields the six routes. */
  lemma RestPatternsCompile()
    ensures |RestPatterns()| == |RestRoutes()|
    ensures forall i :: 0 <= i < |RestPatterns()| ==> RestRoutes()[i] == Route(RestCompile(RestPatterns()[i].0), RestPatterns()[i].1)
  {
    assert RE_SPECIAL != RE_SPECIAL_METHOD;
    assert RE_MODEL_STRID_METHOD != RE_SPECIAL_METHOD && RE_MODEL_STRID_METHOD != RE_SPECIAL;
    assert RE_MODEL_STRID !in {RE_SPECIAL_METHOD, RE_SPECIAL, RE_MODEL_STRID_METHOD};
    assert RE_MODEL_METHOD !in {RE_SPECIAL_METHOD, RE_SPECIAL, RE_MODEL_STRID_METHOD, RE_MODEL_STRID};
    assert RE_MODEL !in {RE_SPECIAL_METHOD, RE_SPECIAL, RE_MODEL_STRID_METHOD, RE_MODEL_STRID, RE_MODEL_METHOD};
  }

  /**
   * What the six routes make of the path after the prefix: nothing exactly
   * when neither a special name nor a word starts it.
   */
  function Parse(rest: string): (r: Option<RestTarget>)
    ensures r.None? <==> MatchSpecial(rest).None? && MatchModel(rest).None?
  {
    SelectNone(rest);
    Select(RestRoutes(), rest)
  }

  /**
   * Each longer pattern matches only where a shorter one does, which is why
   * the longer ones are registered first.
   */
  lemma MatchOverlaps(s: string)
    ensures MatchSpecialMethod(s).Some? ==> MatchSpecial(s).Some?
    ensures MatchModelMethod(s).Some? ==> MatchModel(s).Some?
    ensures MatchModelStrid(s).Some? ==> MatchModel(s).Some?
    ensures MatchModelStridMethod(s).Some? ==> MatchModelStrid(s).Some?
  {
  }

  /** No route matches exactly when none of the six matchers does. */
  lemma SelectNone(rest: string)
    ensures Select(RestRoutes(), rest).None? <==> MatchSpecial(rest).None? && MatchModel(rest).None?
  {
    var routes := RestRoutes();
    assert routes[0].regex == MatchSpecialMethod && routes[1].regex == MatchSpecial;
    assert routes[2].regex == MatchModelStridMethod && routes[3].regex == MatchModelStrid;
    assert routes[4].regex == MatchModelMethod && routes[5].regex == MatchModel;
    if MatchSpecial(rest).Some? {
      assert routes[1].regex(rest).Some?;
    } else if MatchModel(rest).Some? {
      assert routes[5].regex(rest).Some?;
    } else {
      MatchOverlaps(rest);
      forall j | 0 <= j < |routes|
        ensures routes[j].regex(rest).None?
      {
      }
    }
  }


  /** The routes are tried in the order special_method, special, model_strid_method, model_strid, model_method, model. */
  lemma ParseCascade(rest: string)
    ensures Parse(rest) ==
      if MatchSpecialMethod(rest).Some? then Some(DoSpecialMethod(MatchSpecialMethod(rest).value.groups))
      else if MatchSpecial(rest).Some? then Some(DoSpecial(MatchSpecial(rest).value.groups))
      else if MatchModelStridMethod(rest).Some? then Some(DoModelStridMethod(MatchModelStridMethod(rest).value.groups))
      else if MatchModelStrid(rest).Some? then Some(DoModelStrid(MatchModelStrid(rest).value.groups))
      else if MatchModelMethod(rest).Some? then Some(DoModelMethod(MatchModelMethod(rest).value.groups))
      else if MatchModel(rest).Some? then Some(DoModel(MatchModel(rest).value.groups))
      else None
  {
    var routes := RestRoutes();
    var k := FirstMatch(routes, rest);
    assert routes[0].regex == MatchSpecialMethod && routes[1].regex == MatchSpecial;
    assert routes[2].regex == MatchModelStridMethod && routes[3].regex == MatchModelStrid;
    assert routes[4].regex == MatchModelMethod && routes[5].regex == MatchModel;
  }

  /**
   * `RestUrlParser.process(path)` with prefix pattern p: the path must start
   * with p, and the rest is parsed. This is UrlParser's dispatch with the
   * prefix matched literally and the six routes.
   */
  function RestDispatch(p: string, path: string): (r: Option<RestTarget>)
    ensures r == Dispatch(Literal(p), RestRoutes(), path)
  {
    LiteralPrefixDispatch(p, RestRoutes(), path);
    if p <= path then Parse(path[|p|..]) else None
  }

  // ---------------------------------------------------------------------------
  // The six shapes: rendering and parsing back
  // ---------------------------------------------------------------------------

  /**
   * The substrings each shape can hold: a special is '$' and a word, a
   * model and a method are words, a strid is digits; a method right after
   * the model must not start with a digit, or the path is read as a strid.
   */
  predicate WellFormedTarget(t: RestTarget)
  {
    match t
    case Special(s) => SpecialName(s)
    case Model(m) => Word(m)
    case SpecialMethod(s, me) => SpecialName(s) && Word(me)
    case ModelMethod(m, me) => Word(m) && Word(me) && !JavaMath.IsDigit(me[0])
    case ModelStrid(m, id) => Word(m) && id != [] && JavaMath.AllDigits(id)
    case ModelStridMethod(m, id, me) => Word(m) && id != [] && JavaMath.AllDigits(id) && Word(me)
  }

  predicate SpecialName(s: string) { |s| >= 2 && s[0] == '$' && AllWord(s[1..]) }

  /** The path, after the prefix, that each shape comes from; `gap` is the separator after the first name, '/' or '//'. */
  function Render(t: RestTarget, gap: string): string
  {
    match t
    case Special(s) => s
    case Model(m) => m
    case SpecialMethod(s, me) => s + gap + me
    case ModelMethod(m, me) => m + gap + me
    case ModelStrid(m, id) => m + gap + id
    case ModelStridMethod(m, id, me) => m + gap + id + "/" + me
  }

  predicate IsGap(gap: string) { gap == "/" || gap == "//" }

  /** What may follow a rendered shape without changing how it parses. */
  predicate IsTail(tail: string) { tail == "" || tail == "/" }

  /** A special name, then something that does not continue it. */
  lemma SpecialPrefix(sp: string, x: string)
    requires SpecialName(sp) && (x == [] || !IsWordChar(x[0]))
    ensures SpecialLength(sp + x) == |sp| && (sp + x)[..|sp|] == sp && (sp + x)[|sp|..] == x
  {
    assert (sp + x)[1..] == sp[1..] + x;
    WordPrefix(sp[1..], x);
  }

  /** Digits, a slash and the rest. */
  lemma StridSlash(id: string, w: string)
    requires JavaMath.AllDigits(id)
    ensures var z := id + ("/" + w);
      DigitLength(z) == |id| && z[..|id|] == id && z[|id|] == '/' && z[|id| + 1..] == w
  {
    DigitPrefix(id, "/" + w);
  }

  lemma Regroup(a: string, b: string, c: string, d: string, e: string, f: string)
    ensures a + b + c + d + e + f == a + (b + (c + (d + (e + f))))
  {
  }

  /** A gap, then something other than a slash. */
  lemma GapPrefix(gap: string, x: string)
    requires IsGap(gap) && x != [] && x[0] != '/'
    ensures Gap(gap + x) == |gap| && (gap + x)[|gap|..] == x
  {
    assert (gap + x)[|gap|] == x[0];
  }

  /** A path that starts with a word character holds no special name. */
  lemma NoSpecial(s: string)
    requires s != [] && IsWordChar(s[0])
    ensures SpecialLength(s) == 0
  {
  }

  /** The cascade when a special name is followed by a gap and a word. */
  lemma PicksSpecialMethod(r: string, h: nat, g: nat, n: nat)
    requires SpecialLength(r) == h > 0 && Gap(r[h..]) == g > 0 && WordLength(r[h..][g..]) == n > 0
    ensures Parse(r) == Some(SpecialMethod(r[..h], r[h..][g..][..n]))
  {
    ParseCascade(r);
  }

  /** The cascade when a special name is not followed by a gap and a word. */
  lemma PicksSpecial(r: string, h: nat)
    requires SpecialLength(r) == h > 0 && (Gap(r[h..]) == 0 || WordLength(r[h..][Gap(r[h..])..]) == 0)
    ensures Parse(r) == Some(Special(r[..h]))
  {
    ParseCascade(r);
  }

  /** The matcher-level facts that make the cascade pick model_strid_method with these groups. */
  predicate StridMethodShape(r: string, m: string, g: nat, id: string, me: string)
  {
    WordLength(r) == |m| > 0 && r[..|m|] == m && SpecialLength(r) == 0 && Gap(r[|m|..]) == g > 0
    && var z := r[|m|..][g..];
      DigitLength(z) == |id| > 0 && z[..|id|] == id && |id| < |z| && z[|id|] == '/'
      && WordLength(z[|id| + 1..]) == |me| > 0 && z[|id| + 1..][..|me|] == me
  }

  /** The cascade when the model is followed by a gap, digits, a slash and a word. */
  lemma PicksModelStridMethod(r: string, m: string, g: nat, id: string, me: string)
    requires StridMethodShape(r, m, g, id, me)
    ensures Parse(r) == Some(ModelStridMethod(m, id, me))
  {
    ParseCascade(r);
  }

  /** The cascade when the model is followed by a gap and digits that no slash and word follow. */
  lemma PicksModelStrid(r: string, m: string, g: nat, id: string)
    requires StridShape(r, m, g, id)
    ensures Parse(r) == Some(ModelStrid(m, id))
  {
    ParseCascade(r);
  }

  /** The matcher-level facts that make the cascade pick model_strid with these groups. */
  predicate StridShape(r: string, m: string, g: nat, id: string)
  {
    WordLength(r) == |m| > 0 && r[..|m|] == m && SpecialLength(r) == 0 && Gap(r[|m|..]) == g > 0
    && var z := r[|m|..][g..];
      DigitLength(z) == |id| > 0 && z[..|id|] == id
      && (|id| == |z| || z[|id|] != '/' || WordLength(z[|id| + 1..]) == 0)
  }

  /** The cascade when the model is followed by a gap and a word that does not start with a digit. */
  lemma PicksModelMethod(r: string, h: nat, g: nat, n: nat)
    requires WordLength(r) == h > 0 && SpecialLength(r) == 0 && Gap(r[h..]) == g > 0
    requires DigitLength(r[h..][g..]) == 0 && WordLength(r[h..][g..]) == n > 0
    ensures Parse(r) == Some(ModelMethod(r[..h], r[h..][g..][..n]))
  {
    ParseCascade(r);
  }

  /** The cascade when the model is not followed by a gap and a word. */
  lemma PicksModel(r: string, h: nat)
    requires WordLength(r) == h > 0 && SpecialLength(r) == 0
    requires Gap(r[h..]) == 0 || WordLength(r[h..][Gap(r[h..])..]) == 0
    ensures Parse(r) == Some(Model(r[..h]))
  {
    ParseCascade(r);
  }

  /** A special name, alone or followed by a slash, parses as special. */
  lemma ParseSpecial(sp: string, tail: string)
    requires SpecialName(sp) && IsTail(tail)
    ensures Parse(sp + tail) == Some(Special(sp))
  {
    SpecialPrefix(sp, tail);
    assert Gap(tail) == |tail|;
    PicksSpecial(sp + tail, |sp|);
  }

  /** How the matchers split a special name, a gap and a method word. */
  lemma SpecialMethodPieces(sp: string, gap: string, me: string, tail: string)
    requires SpecialName(sp) && Word(me) && IsGap(gap) && IsTail(tail)
    ensures var r := sp + gap + me + tail;
      var z := r[|sp|..][|gap|..];
      SpecialLength(r) == |sp| && r[..|sp|] == sp && Gap(r[|sp|..]) == |gap|
      && WordLength(z) == |me| && z[..|me|] == me
  {
    var z := me + tail;
    var y := gap + z;
    var r := sp + y;
    assert r == sp + gap + me + tail;
    assert SpecialLength(r) == |sp| && r[..|sp|] == sp && r[|sp|..] == y by {
      SpecialPrefix(sp, y);
    }
    assert Gap(y) == |gap| && y[|gap|..] == z by {
      GapPrefix(gap, z);
    }
    assert WordLength(z) == |me| && z[..|me|] == me by {
      WordPrefix(me, tail);
    }
  }

  /** A special name, a gap and a method word, optionally followed by a slash, parse as special_method. */
  lemma ParseSpecialMethod(sp: string, gap: string, me: string, tail: string)
    requires SpecialName(sp) && Word(me) && IsGap(gap) && IsTail(tail)
    ensures Parse(sp + gap + me + tail) == Some(SpecialMethod(sp, me))
  {
    SpecialMethodPieces(sp, gap, me, tail);
    PicksSpecialMethod(sp + gap + me + tail, |sp|, |gap|, |me|);
  }

  /** A model word, optionally followed by a slash, parses as model. */
  lemma ParseModel(m: string, tail: string)
    requires Word(m) && IsTail(tail)
    ensures Parse(m + tail) == Some(Model(m))
  {
    WordPrefix(m, tail);
    NoSpecial(m + tail);
    assert Gap(tail) == |tail|;
    PicksModel(m + tail, |m|);
  }

  /** How the matchers split a model, a gap and a method word. */
  lemma ModelMethodPieces(m: string, gap: string, me: string, tail: string)
    requires Word(m) && Word(me) && !JavaMath.IsDigit(me[0]) && IsGap(gap) && IsTail(tail)
    ensures var r := m + gap + me + tail;
      var z := r[|m|..][|gap|..];
      WordLength(r) == |m| && r[..|m|] == m && SpecialLength(r) == 0 && Gap(r[|m|..]) == |gap|
      && DigitLength(z) == 0 && WordLength(z) == |me| && z[..|me|] == me
  {
    var z := me + tail;
    var y := gap + z;
    var r := m + y;
    assert r == m + gap + me + tail;
    assert WordLength(r) == |m| && r[..|m|] == m && r[|m|..] == y by {
      WordPrefix(m, y);
    }
    assert SpecialLength(r) == 0 by {
      NoSpecial(r);
    }
    assert Gap(y) == |gap| && y[|gap|..] == z by {
      GapPrefix(gap, z);
    }
    assert WordLength(z) == |me| && z[..|me|] == me by {
      WordPrefix(me, tail);
    }
  }

  /** A model, a gap and a method word that does not start with a digit parse as model_method. */
  lemma ParseModelMethod(m: string, gap: string, me: string, tail: string)
    requires Word(m) && Word(me) && !JavaMath.IsDigit(me[0]) && IsGap(gap) && IsTail(tail)
    ensures Parse(m + gap + me + tail) == Some(ModelMethod(m, me))
  {
    ModelMethodPieces(m, gap, me, tail);
    PicksModelMethod(m + gap + me + tail, |m|, |gap|, |me|);
  }

  /** How the matchers split a model, a gap and digits. */
  lemma ModelStridPieces(m: string, gap: string, id: string, tail: string)
    requires Word(m) && id != [] && JavaMath.AllDigits(id) && IsGap(gap) && IsTail(tail)
    ensures StridShape(m + gap + id + tail, m, |gap|, id)
  {
    var z := id + tail;
    var y := gap + z;
    var r := m + y;
    assert m + gap + id + tail == r by {
      Regroup4(m, gap, id, tail);
    }
    WordPrefix(m, y);
    NoSpecial(r);
    GapPrefix(gap, z);
    StridTail(id, tail);
    StridShapeOf(r, y, z, m, |gap|, id);
  }

  lemma Regroup4(a: string, b: string, c: string, d: string)
    ensures a + b + c + d == a + (b + (c + d))
  {
  }

  /** The model_strid facts, gathered from the pieces the string is made of. */
  lemma StridShapeOf(r: string, y: string, z: string, m: string, g: nat, id: string)
    requires WordLength(r) == |m| > 0 && r[..|m|] == m && r[|m|..] == y && SpecialLength(r) == 0
    requires Gap(y) == g > 0 && |y| >= g && y[g..] == z
    requires DigitLength(z) == |id| > 0 && z[..|id|] == id
    requires |id| == |z| || z[|id|] != '/' || WordLength(z[|id| + 1..]) == 0
    ensures StridShape(r, m, g, id)
  {
  }

  /** Digits, then nothing or a lone slash: the strid group and what the cascade sees after it. */
  lemma StridTail(id: string, tail: string)
    requires id != [] && JavaMath.AllDigits(id) && IsTail(tail)
    ensures var z := id + tail;
      DigitLength(z) == |id| && z[..|id|] == id
      && (|id| == |z| || z[|id|] != '/' || WordLength(z[|id| + 1..]) == 0)
  {
    var z := id + tail;
    DigitPrefix(id, tail);
    if tail != [] {
      assert z[|id|] == '/' && z[|id| + 1..] == [];
    }
  }

  /** A model, a gap and digits, optionally followed by a slash, parse as model_strid. */
  lemma ParseModelStrid(m: string, gap: string, id: string, tail: string)
    requires Word(m) && id != [] && JavaMath.AllDigits(id) && IsGap(gap) && IsTail(tail)
    ensures Parse(m + gap + id + tail) == Some(ModelStrid(m, id))
  {
    ModelStridPieces(m, gap, id, tail);
    var r := m + gap + id + tail;
    PicksModelStrid(r, m, |gap|, id);
  }

  /** How the matchers split a model, a gap, digits, a slash and a method word. */
  lemma ModelStridMethodPieces(m: string, gap: string, id: string, me: string, tail: string)
    requires Word(m) && id != [] && JavaMath.AllDigits(id) && Word(me) && IsGap(gap) && IsTail(tail)
    ensures StridMethodShape(m + gap + id + "/" + me + tail, m, |gap|, id, me)
  {
    var w := me + tail;
    var z := id + ("/" + w);
    var y := gap + z;
    var r := m + y;
    assert r == m + gap + id + "/" + me + tail by {
      Regroup(m, gap, id, "/", me, tail);
    }
    assert WordLength(r) == |m| && r[..|m|] == m && r[|m|..] == y by {
      WordPrefix(m, y);
    }
    assert SpecialLength(r) == 0 by {
      NoSpecial(r);
    }
    assert Gap(y) == |gap| && y[|gap|..] == z by {
      GapPrefix(gap, z);
    }
    assert DigitLength(z) == |id| && z[..|id|] == id && z[|id|] == '/' && z[|id| + 1..] == w by {
      StridSlash(id, w);
    }
    assert WordLength(w) == |me| && w[..|me|] == me by {
      WordPrefix(me, tail);
    }
  }

  /** A model, a gap, digits, a slash and a method word parse as model_strid_method. */
  lemma ParseModelStridMethod(m: string, gap: string, id: string, me: string, tail: string)
    requires Word(m) && id != [] && JavaMath.AllDigits(id) && Word(me) && IsGap(gap) && IsTail(tail)
    ensures Parse(m + gap + id + "/" + me + tail) == Some(ModelStridMethod(m, id, me))
  {
    var r := m + gap + id + "/" + me + tail;
    ModelStridMethodPieces(m, gap, id, me, tail);
    PicksModelStridMethod(r, m, |gap|, id, me);
  }

  /**
   * Every well-formed shape, rendered with either gap and followed by
   * nothing or by a slash, parses back to itself: the trailing slash is left
   * unread.
   */
  lemma RenderParses(t: RestTarget, gap: string, tail: string)
    requires WellFormedTarget(t) && IsGap(gap) && IsTail(tail)
    ensures Parse(Render(t, gap) + tail) == Some(t)
  {
    match t
    case Special(s) => ParseSpecial(s, tail);
    case Model(m) => ParseModel(m, tail);
    case SpecialMethod(s, me) => ParseSpecialMethod(s, gap, me, tail);
    case ModelMethod(m, me) => ParseModelMethod(m, gap, me, tail);
    case ModelStrid(m, id) => ParseModelStrid(m, gap, id, tail);
    case ModelStridMethod(m, id, me) => ParseModelStridMethod(m, gap, id, me, tail);
  }

  /** Nothing that starts with a slash, or is empty, parses: every pattern starts with '$' or a word character. */
  lemma SlashNeverParses(rest: string)
    requires rest == [] || rest[0] == '/'
    ensures Parse(rest) == None
  {
    assert SpecialLength(rest) == 0 && WordLength(rest) == 0;
    ParseCascade(rest);
  }

  /** Parsing in the other direction: whatever a pattern matched is a well-formed shape rendered at the start of the path. */
  predicate RenderedAt(t: RestTarget, rest: string)
  {
    WellFormedTarget(t) && (Render(t, "/") <= rest || Render(t, "//") <= rest)
  }

  lemma PrefixThen(a: string, b: string, r: string)
    requires a <= r && b <= r[|a|..]
    ensures a + b <= r
  {
    assert (a + b) == r[..|a|] + r[|a|..][..|b|];
    assert r[..|a| + |b|] == r[..|a|] + r[|a|..][..|b|];
  }

  /** The word a matcher keeps is a word. */
  lemma WordTaken(s: string)
    requires WordLength(s) > 0
    ensures Word(s[..WordLength(s)])
  {
  }

  /** The special name a matcher keeps is a special name. */
  lemma SpecialTaken(s: string)
    requires SpecialLength(s) > 0
    ensures SpecialName(s[..SpecialLength(s)])
  {
    var sp := s[..SpecialLength(s)];
    assert forall k :: 0 <= k < |sp| - 1 ==> sp[1..][k] == s[k + 1];
  }

  /** The digits a matcher keeps are digits. */
  lemma DigitsTaken(s: string)
    requires DigitLength(s) > 0
    ensures var d := s[..DigitLength(s)]; d != [] && JavaMath.AllDigits(d)
  {
  }

  /** What the gap matcher consumes is a gap. */
  lemma GapTaken(s: string)
    requires Gap(s) > 0
    ensures IsGap(s[..Gap(s)])
  {
  }

  lemma SoundSpecial(r: string)
    requires MatchSpecial(r).Some?
    ensures RenderedAt(DoSpecial(MatchSpecial(r).value.groups), r)
  {
    var sp := r[..SpecialLength(r)];
    assert DoSpecial(MatchSpecial(r).value.groups) == Special(sp);
    SpecialTaken(r);
    assert IsGap("/") && Render(Special(sp), "/") <= r;
  }

  lemma SoundModel(r: string)
    requires MatchModel(r).Some?
    ensures RenderedAt(DoModel(MatchModel(r).value.groups), r)
  {
    var m := r[..WordLength(r)];
    assert DoModel(MatchModel(r).value.groups) == Model(m);
    WordTaken(r);
    assert IsGap("/") && Render(Model(m), "/") <= r;
  }

  lemma SoundSpecialMethod(r: string)
    requires MatchSpecialMethod(r).Some?
    ensures RenderedAt(DoSpecialMethod(MatchSpecialMethod(r).value.groups), r)
  {
    var h := SpecialLength(r);
    var y := r[h..];
    var g := Gap(y);
    var z := y[g..];
    var sp, gap, me := r[..h], y[..g], z[..WordLength(z)];
    assert DoSpecialMethod(MatchSpecialMethod(r).value.groups) == SpecialMethod(sp, me);
    SpecialTaken(r);
    GapTaken(y);
    WordTaken(z);
    PrefixThen(gap, me, y);
    PrefixThen(sp, gap + me, r);
    assert sp + gap + me == sp + (gap + me);
    assert Render(SpecialMethod(sp, me), gap) <= r;
  }

  /** A method word right after the model never starts with a digit: the strid pattern, tried first, would have taken it. */
  lemma SoundModelMethod(r: string)
    requires MatchModelStrid(r).None? && MatchModelMethod(r).Some?
    ensures RenderedAt(DoModelMethod(MatchModelMethod(r).value.groups), r)
  {
    var h := WordLength(r);
    var y := r[h..];
    var g := Gap(y);
    var z := y[g..];
    var m, gap, me := r[..h], y[..g], z[..WordLength(z)];
    assert DoModelMethod(MatchModelMethod(r).value.groups) == ModelMethod(m, me);
    assert DigitLength(z) == 0;
    WordTaken(r);
    GapTaken(y);
    WordTaken(z);
    PrefixThen(gap, me, y);
    PrefixThen(m, gap + me, r);
    assert m + gap + me == m + (gap + me);
    assert Render(ModelMethod(m, me), gap) <= r;
  }

  lemma SoundModelStrid(r: string)
    requires MatchModelStrid(r).Some?
    ensures RenderedAt(DoModelStrid(MatchModelStrid(r).value.groups), r)
  {
    var h := WordLength(r);
    var y := r[h..];
    var g := Gap(y);
    var z := y[g..];
    var m, gap, id := r[..h], y[..g], z[..DigitLength(z)];
    assert DoModelStrid(MatchModelStrid(r).value.groups) == ModelStrid(m, id);
    assert Word(m) && id != [] && JavaMath.AllDigits(id) by {
      WordTaken(r);
      DigitsTaken(z);
    }
    assert IsGap(gap) by {
      GapTaken(y);
    }
    assert m + gap + id <= r by {
      PrefixThen(gap, id, y);
      PrefixThen(m, gap + id, r);
      assert m + gap + id == m + (gap + id);
    }
    assert Render(ModelStrid(m, id), gap) == m + gap + id;
  }

  /** Five pieces found one after the other at the start of r make a prefix of r. */
  lemma StridMethodRendered(r: string, m: string, gap: string, id: string, me: string)
    requires m <= r && gap <= r[|m|..] && id <= r[|m|..][|gap|..]
    requires var z := r[|m|..][|gap|..]; |id| < |z| && z[|id|] == '/' && me <= z[|id| + 1..]
    ensures m + gap + id + "/" + me <= r
  {
    var y := r[|m|..];
    var z := y[|gap|..];
    assert "/" <= z[|id|..];
    assert z[|id| + 1..] == z[|id|..][1..];
    PrefixThen("/", me, z[|id|..]);
    PrefixThen(id, "/" + me, z);
    PrefixThen(gap, id + ("/" + me), y);
    PrefixThen(m, gap + (id + ("/" + me)), r);
    assert m + gap + id + "/" + me == m + (gap + (id + ("/" + me)));
  }

  lemma SoundModelStridMethod(r: string)
    requires MatchModelStridMethod(r).Some?
    ensures RenderedAt(DoModelStridMethod(MatchModelStridMethod(r).value.groups), r)
  {
    var h := WordLength(r);
    var y := r[h..];
    var g := Gap(y);
    var z := y[g..];
    var d := DigitLength(z);
    var w := z[d + 1..];
    var m, gap, id, me := r[..h], y[..g], z[..d], w[..WordLength(w)];
    assert DoModelStridMethod(MatchModelStridMethod(r).value.groups) == ModelStridMethod(m, id, me);
    StridMethodSound(r, y, z, w);
  }

  /** SoundModelStridMethod once the matcher's pieces are named: the name, the gap, the digits and the method word. */
  lemma StridMethodSound(r: string, y: string, z: string, w: string)
    requires WordLength(r) > 0 && y == r[WordLength(r)..] && Gap(y) > 0 && z == y[Gap(y)..] && DigitLength(z) > 0
    requires DigitLength(z) < |z| && z[DigitLength(z)] == '/' && w == z[DigitLength(z) + 1..] && WordLength(w) > 0
    ensures RenderedAt(ModelStridMethod(r[..WordLength(r)], z[..DigitLength(z)], w[..WordLength(w)]), r)
  {
    var m, gap, id, me := r[..WordLength(r)], y[..Gap(y)], z[..DigitLength(z)], w[..WordLength(w)];
    assert Word(m) && id != [] && JavaMath.AllDigits(id) && Word(me) by {
      WordTaken(r);
      DigitsTaken(z);
      WordTaken(w);
    }
    assert IsGap(gap) by {
      GapTaken(y);
    }
    assert m + gap + id + "/" + me <= r by {
      StridMethodRendered(r, m, gap, id, me);
    }
    assert Render(ModelStridMethod(m, id, me), gap) == m + gap + id + "/" + me;
  }

  /**
   * Whatever parses is a well-formed shape rendered at the start of the
   * path, with one of the two gaps; with RenderParses, the six shapes are
   * exactly what the parser recognises.
   */
  lemma ParseSound(rest: string)
    ensures Parse(rest).Some? ==> RenderedAt(Parse(rest).value, rest)
  {
    ParseCascade(rest);
    if MatchSpecialMethod(rest).Some? {
      SoundSpecialMethod(rest);
    } else if MatchSpecial(rest).Some? {
      SoundSpecial(rest);
    } else if MatchModelStridMethod(rest).Some? {
      SoundModelStridMethod(rest);
    } else if MatchModelStrid(rest).Some? {
      SoundModelStrid(rest);
    } else if MatchModelMethod(rest).Some? {
      SoundModelMethod(rest);
    } else if MatchModel(rest).Some? {
      SoundModel(rest);
    }
  }

  // ---------------------------------------------------------------------------
  // RestUrlParser.process with a literal prefix
  // ---------------------------------------------------------------------------

  /** With prefix p, the shapes followed by nothing or a slash are exactly what is recognised after p. */
  lemma DispatchRendered(p: string, t: RestTarget, gap: string, tail: string)
    requires WellFormedTarget(t) && IsGap(gap) && IsTail(tail)
    ensures RestDispatch(p, p + Render(t, gap) + tail) == Some(t)
  {
    var path := p + Render(t, gap) + tail;
    assert path[..|p|] == p;
    assert path[|p|..] == Render(t, gap) + tail;
    RenderParses(t, gap, tail);
  }

  /** Whatever is recognised comes after the prefix, as a well-formed shape rendered right after it. */
  lemma DispatchSound(p: string, path: string)
    ensures RestDispatch(p, path).Some? ==> p <= path && RenderedAt(RestDispatch(p, path).value, path[|p|..])
  {
    if p <= path {
      ParseSound(path[|p|..]);
    }
  }

  /**
   * Without a prefix the pattern is empty, so the rest of the path is the
   * whole path, which starts with '/': no path that starts with '/' is
   * recognised.
   */
  lemma EmptyPrefixRejectsPaths(path: string)
    requires path == [] || path[0] == '/'
    ensures RestDispatch("", path) == None
  {
    assert path[0..] == path;
    SlashNeverParses(path);
  }

  /** `RestUrlParser`: a UrlParser over the six patterns whose prefix is always normalised. */
  class RestUrlParser {
    const parser: UrlParser<RestTarget>

    /** The pattern engine, the six routes in order, and a prefix that is empty or starts with '/'. */
    ghost predicate Valid()
      reads this, parser
    {
      parser.compile == RestCompile && parser.callbacks == RestRoutes()
      && (parser.prefixPattern == [] || parser.prefixPattern[0] == '/')
    }

    /** `RestUrlParser(prefix)`: the prefix is normalised by `_doprefix`; no prefix leaves the empty pattern. */
    constructor(prefix: Option<string>)
      ensures Valid() && fresh(parser)
      ensures parser.prefixPattern == if prefix.Some? then DoPrefix(prefix).value else ""
    {
      var p := DoPrefix(prefix);
      parser := new UrlParser(RestCompile, p, RestPatterns());
      RestPatternsCompile();
    }

    /** `process(path, prefix)`: a given prefix is normalised and kept; the path is dispatched on the current prefix. */
    method Process(path: string, prefix: Option<string>) returns (r: Option<RestTarget>)
      requires Valid()
      modifies parser
      ensures Valid()
      ensures parser.prefixPattern == if prefix.Some? then DoPrefix(prefix).value else old(parser.prefixPattern)
      ensures r == RestDispatch(parser.prefixPattern, path)
    {
      r := parser.Process(path, DoPrefix(prefix));
      LiteralPrefixDispatch(parser.prefixPattern, RestRoutes(), path);
    }
  }

  // ---------------------------------------------------------------------------
  // The class docstring's example, with prefix ''
  // ---------------------------------------------------------------------------

  lemma ExampleSpecial()
    ensures RestDispatch("/", "/$foobar") == Some(Special("$foobar"))
  {
    assert "/$foobar" == "/" + Render(Special("$foobar"), "/") + "";
    assert SpecialName("$foobar");
    DispatchRendered("/", Special("$foobar"), "/", "");
  }

  lemma ExampleModel()
    ensures RestDispatch("/", "/foobar") == Some(Model("foobar"))
  {
    assert "/foobar" == "/" + Render(Model("foobar"), "/") + "";
    assert Word("foobar");
    DispatchRendered("/", Model("foobar"), "/", "");
  }

  lemma ExampleSpecialMethod()
    ensures RestDispatch("/", "/$foobar/zak/") == Some(SpecialMethod("$foobar", "zak"))
  {
    assert "/$foobar/zak/" == "/" + Render(SpecialMethod("$foobar", "zak"), "/") + "/";
    assert SpecialName("$foobar") && Word("zak");
    DispatchRendered("/", SpecialMethod("$foobar", "zak"), "/", "/");
  }

  lemma ExampleModelMethod()
    ensures RestDispatch("/", "/foobar/zak/") == Some(ModelMethod("foobar", "zak"))
  {
    assert "/foobar/zak/" == "/" + Render(ModelMethod("foobar", "zak"), "/") + "/";
    assert Word("foobar") && Word("zak");
    DispatchRendered("/", ModelMethod("foobar", "zak"), "/", "/");
  }

  lemma ExampleModelStrid()
    ensures RestDispatch("/", "/foobar/23/") == Some(ModelStrid("foobar", "23"))
  {
    assert "/foobar/23/" == "/" + Render(ModelStrid("foobar", "23"), "/") + "/";
    assert Word("foobar") && JavaMath.AllDigits("23");
    DispatchRendered("/", ModelStrid("foobar", "23"), "/", "/");
  }

  lemma ExampleModelStridMethod()
    ensures RestDispatch("/", "/foobar/23/blop") == Some(ModelStridMethod("foobar", "23", "blop"))
  {
    assert "/foobar/23/blop" == "/" + Render(ModelStridMethod("foobar", "23", "blop"), "/") + "";
    assert Word("foobar") && JavaMath.AllDigits("23") && Word("blop");
    DispatchRendered("/", ModelStridMethod("foobar", "23", "blop"), "/", "");
  }

  lemma ExampleNothing()
    ensures RestDispatch("/", "") == None
    ensures RestDispatch("/", "////////") == None
  {
    assert "////////"[1..] == "///////";
    SlashNeverParses("///////");
  }

  /** The docstring's session: `RestUrlParser('')` and eight paths. */
  method ExampleSession() returns (a: Option<RestTarget>, b: Option<RestTarget>, c: Option<RestTarget>, d: Option<RestTarget>,
                                   e: Option<RestTarget>, f: Option<RestTarget>, g: Option<RestTarget>, k: Option<RestTarget>)
    ensures a == Some(Special("$foobar")) && b == Some(Model("foobar"))
    ensures c == Some(SpecialMethod("$foobar", "zak")) && d == Some(ModelMethod("foobar", "zak"))
    ensures e == Some(ModelStrid("foobar", "23")) && f == Some(ModelStridMethod("foobar", "23", "blop"))
    ensures g == None && k == None
  {
    var h := new RestUrlParser(Some(""));
    assert StripSlashes("") == "";
    a := h.Process("/$foobar", None);
    ExampleSpecial();
    b := h.Process("/foobar", None);
    ExampleModel();
    c := h.Process("/$foobar/zak/", None);
    ExampleSpecialMethod();
    d := h.Process("/foobar/zak/", None);
    ExampleModelMethod();
    e := h.Process("/foobar/23/", None);
    ExampleModelStrid();
    f := h.Process("/foobar/23/blop", None);
    ExampleModelStridMethod();
    g := h.Process("", None);
    k := h.Process("////////", None);
    ExampleNothing();
  }
}
