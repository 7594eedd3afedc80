/**
 * `path_to_classname_and_id` in server/jsonutil.py: the request path of the
 * JSON handlers is matched, as a whole, against `^/?(\w+)/?(\d*)$`, giving
 * the model class name and the id string ('' when there is none), or
 * (None, '') when it does not match.
 *
 * Python's engine tries the greedy reading first, and here it is the only one
 * that can succeed: a shorter `\w+` leaves a word character that `/?` cannot
 * take, so `\d*` and `$` must then succeed at the same place the greedy
 * reading already reached. The function below therefore reads greedily.
 */
module ClassPath {
  import opened Wrappers
  import opened RegexParts
  import JavaMath

  /** `mo.groups()`, or (None, '') when there is no match. */
  function PathToClassnameAndId(path: string): (r: (Option<string>, string))
    ensures r.0.None? ==> r.1 == ""
    ensures r.0.Some? ==> Word(r.0.value) && JavaMath.AllDigits(r.1)
  {
    var lead := OptSlash(path, 0);
    var s := path[lead..];
    var w := WordLength(s);
    if w == 0 then (None, "")
    else
      var x := s[w..];
      if x != [] && x[0] == '/' then
        var y := x[1..];
        var d := DigitLength(y);
        if AtEnd(y, d) then (Some(s[..w]), y[..d]) else (None, "")
      else if AtEnd(x, 0) then (Some(s[..w]), "")
      else (None, "")
  }

  /** The paths the pattern describes: an optional '/', the name, an optional '/', the id, and `$`'s optional final newline. */
  function FormatPath(lead: bool, name: string, slash: bool, id: string, newline: bool): string
  {
    (if lead then "/" else "") + name + (if slash then "/" else "") + id + (if newline then "\n" else "")
  }

  /** The cascade when the name is followed by a slash, digits and the end. */
  lemma ReadsWithSlash(path: string, name: string, id: string)
    requires var s := path[OptSlash(path, 0)..];
      WordLength(s) == |name| > 0 && s[..|name|] == name
      && var x := s[|name|..];
      x != [] && x[0] == '/' && DigitLength(x[1..]) == |id| && AtEnd(x[1..], |id|) && x[1..][..|id|] == id
    ensures PathToClassnameAndId(path) == (Some(name), id)
  {
  }

  /** The cascade when the name is followed by the end. */
  lemma ReadsWithoutSlash(path: string, name: string)
    requires var s := path[OptSlash(path, 0)..];
      WordLength(s) == |name| > 0 && s[..|name|] == name && AtEnd(s[|name|..], 0)
    ensures PathToClassnameAndId(path) == (Some(name), "")
  {
  }

  /** An optional leading slash is consumed exactly when it is there. */
  lemma LeadPiece(lead: bool, s: string)
    requires s != [] && s[0] != '/'
    ensures var path := (if lead then "/" else "") + s; path[OptSlash(path, 0)..] == s
  {
    var path := (if lead then "/" else "") + s;
    if lead {
      assert path[0] == '/' && path[1..] == s;
    } else {
      assert path[0] == s[0];
    }
  }

  lemma Regroup(a: string, b: string, c: string, d: string, e: string)
    ensures a + b + c + d + e == a + (b + (c + (d + e)))
  {
  }

  /** How the matcher splits a name, a slash, digits and an optional newline. */
  lemma NameSlashPieces(name: string, id: string, nl: string)
    requires Word(name) && JavaMath.AllDigits(id) && (nl == "" || nl == "\n")
    ensures var s := name + ("/" + (id + nl));
      WordLength(s) == |name| && s[..|name|] == name
      && var x := s[|name|..];
      x != [] && x[0] == '/' && DigitLength(x[1..]) == |id| && AtEnd(x[1..], |id|) && x[1..][..|id|] == id
  {
    var y := id + nl;
    var x := "/" + y;
    var s := name + x;
    assert WordLength(s) == |name| && s[..|name|] == name && s[|name|..] == x by {
      WordPrefix(name, x);
    }
    assert x[1..] == y;
    assert DigitLength(y) == |id| && y[..|id|] == id by {
      DigitPrefix(id, nl);
    }
  }

  /** How the matcher splits a path with the slash. */
  lemma SlashPieces(lead: bool, name: string, id: string, newline: bool)
    requires Word(name) && JavaMath.AllDigits(id)
    ensures var path := FormatPath(lead, name, true, id, newline);
      var s := path[OptSlash(path, 0)..];
      WordLength(s) == |name| && s[..|name|] == name
      && var x := s[|name|..];
      x != [] && x[0] == '/' && DigitLength(x[1..]) == |id| && AtEnd(x[1..], |id|) && x[1..][..|id|] == id
  {
    var nl := if newline then "\n" else "";
    var l := if lead then "/" else "";
    var s := name + ("/" + (id + nl));
    assert FormatPath(lead, name, true, id, newline) == l + s by {
      Regroup(l, name, "/", id, nl);
    }
    LeadPiece(lead, s);
    NameSlashPieces(name, id, nl);
  }

  /** How the matcher splits a path without the slash: the digits join the name. */
  lemma PlainPieces(lead: bool, name: string, id: string, newline: bool)
    requires Word(name) && JavaMath.AllDigits(id)
    ensures var path := FormatPath(lead, name, false, id, newline);
      var s := path[OptSlash(path, 0)..];
      WordLength(s) == |name + id| && s[..|name + id|] == name + id && AtEnd(s[|name + id|..], 0)
  {
    var nl := if newline then "\n" else "";
    var l := if lead then "/" else "";
    var s := (name + id) + nl;
    assert FormatPath(lead, name, false, id, newline) == l + s;
    LeadPiece(lead, s);
    assert AllWord(name + id) by {
      assert forall k :: |name| <= k < |name + id| ==> (name + id)[k] == id[k - |name|];
    }
    WordPrefix(name + id, nl);
  }

  /**
   * Every path the pattern describes is read back: with the slash, as the
   * name and the id; without it, the digits cannot be told from the name,
   * and `\w+` takes them all.
   */
  lemma FormatPathReads(lead: bool, name: string, slash: bool, id: string, newline: bool)
    requires Word(name) && JavaMath.AllDigits(id)
    ensures PathToClassnameAndId(FormatPath(lead, name, slash, id, newline)) ==
      if slash then (Some(name), id) else (Some(name + id), "")
  {
    if slash {
      SlashPieces(lead, name, id, newline);
      ReadsWithSlash(FormatPath(lead, name, slash, id, newline), name, id);
    } else {
      PlainPieces(lead, name, id, newline);
      ReadsWithoutSlash(FormatPath(lead, name, slash, id, newline), name + id);
    }
  }

  /** The optional leading slash and what follows it. */
  lemma LeadSplit(path: string)
    ensures path == (if OptSlash(path, 0) == 1 then "/" else "") + path[OptSlash(path, 0)..]
  {
    if OptSlash(path, 0) == 1 {
      assert path == [path[0]] + path[1..];
    }
  }

  /** What a match means, step by step, when there is one. */
  lemma SomeMeans(path: string)
    requires PathToClassnameAndId(path).0.Some?
    ensures var s := path[OptSlash(path, 0)..];
      var w := WordLength(s);
      var x := s[w..];
      if x != [] && x[0] == '/' then
        var y := x[1..];
        var d := DigitLength(y);
        AtEnd(y, d) && PathToClassnameAndId(path) == (Some(s[..w]), y[..d])
      else
        AtEnd(x, 0) && PathToClassnameAndId(path) == (Some(s[..w]), "")
  {
  }

  /** What `$` leaves after a position it accepts: nothing, or the final newline. */
  lemma AtEndSplit(y: string, d: nat)
    requires d <= |y| && AtEnd(y, d)
    ensures y == y[..d] + (if d < |y| then "\n" else "")
  {
  }

  /** Pieces found one after the other, with the slash, make up a formatted path. */
  lemma RebuildWithSlash(path: string, l: string, name: string, y: string, d: nat)
    requires (l == "" || l == "/") && path == l + (name + ("/" + y))
    requires d <= |y| && y == y[..d] + (if d < |y| then "\n" else "")
    ensures path == FormatPath(l == "/", name, true, y[..d], d < |y|)
  {
    var nl := if d < |y| then "\n" else "";
    Regroup(l, name, "/", y[..d], nl);
  }

  /** Pieces found one after the other, without the slash, make up a formatted path. */
  lemma RebuildPlain(path: string, l: string, name: string, x: string)
    requires (l == "" || l == "/") && path == l + (name + x) && AtEnd(x, 0)
    ensures path == FormatPath(l == "/", name, false, "", x != [])
  {
    assert x == if x != [] then "\n" else "";
  }

  /** A path the matcher accepts, cut into the pieces it finds. */
  lemma Pieces(path: string)
    requires var s := path[OptSlash(path, 0)..];
      var x := s[WordLength(s)..];
      if x != [] && x[0] == '/' then AtEnd(x[1..], DigitLength(x[1..])) else AtEnd(x, 0)
    ensures var s := path[OptSlash(path, 0)..];
      var w := WordLength(s);
      var x := s[w..];
      if x != [] && x[0] == '/' then
        var y := x[1..];
        path == FormatPath(OptSlash(path, 0) == 1, s[..w], true, y[..DigitLength(y)], DigitLength(y) < |y|)
      else
        path == FormatPath(OptSlash(path, 0) == 1, s[..w], false, "", x != [])
  {
    var l := if OptSlash(path, 0) == 1 then "/" else "";
    var s := path[OptSlash(path, 0)..];
    var w := WordLength(s);
    var x := s[w..];
    assert path == l + (s[..w] + x) by {
      LeadSplit(path);
      assert s == s[..w] + x;
    }
    if x != [] && x[0] == '/' {
      var y := x[1..];
      assert x == "/" + y;
      AtEndSplit(y, DigitLength(y));
      RebuildWithSlash(path, l, s[..w], y, DigitLength(y));
    } else {
      RebuildPlain(path, l, s[..w], x);
    }
  }

  /** Whatever is read comes from a path the pattern describes, and an id is only read after a slash. */
  lemma ReadsOnlyFormatted(path: string)
    requires PathToClassnameAndId(path).0.Some?
    ensures var (name, id) := PathToClassnameAndId(path);
      exists lead: bool, slash: bool, newline: bool ::
        path == FormatPath(lead, name.value, slash, id, newline) && (slash || id == "")
  {
    SomeMeans(path);
    Pieces(path);
    var s := path[OptSlash(path, 0)..];
    var w := WordLength(s);
    var x := s[w..];
    if x != [] && x[0] == '/' {
      var y := x[1..];
      assert path == FormatPath(OptSlash(path, 0) == 1, s[..w], true, y[..DigitLength(y)], DigitLength(y) < |y|);
    } else {
      assert path == FormatPath(OptSlash(path, 0) == 1, s[..w], false, "", x != []);
    }
  }

  /** The pattern matches exactly the paths of that form. */
  lemma MatchesIff(path: string)
    ensures PathToClassnameAndId(path).0.Some? <==>
      exists lead: bool, name: string, slash: bool, id: string, newline: bool ::
        Word(name) && JavaMath.AllDigits(id) && path == FormatPath(lead, name, slash, id, newline)
  {
    var r := PathToClassnameAndId(path);
    if r.0.Some? {
      ReadsOnlyFormatted(path);
      var lead: bool, slash: bool, newline: bool :| path == FormatPath(lead, r.0.value, slash, r.1, newline);
      assert Word(r.0.value) && JavaMath.AllDigits(r.1);
    }
    if exists lead: bool, name: string, slash: bool, id: string, newline: bool ::
        Word(name) && JavaMath.AllDigits(id) && path == FormatPath(lead, name, slash, id, newline) {
      var lead: bool, name: string, slash: bool, id: string, newline: bool :|
        Word(name) && JavaMath.AllDigits(id) && path == FormatPath(lead, name, slash, id, newline);
      FormatPathReads(lead, name, slash, id, newline);
    }
  }

  /** Paths the JSON handlers are given. */
  lemma ExampleWithId()
    ensures PathToClassnameAndId("/Sample/1") == (Some("Sample"), "1")
  {
    assert Word("Sample") && JavaMath.AllDigits("1");
    assert "/Sample/1" == FormatPath(true, "Sample", true, "1", false);
    FormatPathReads(true, "Sample", true, "1", false);
  }

  lemma ExampleBare()
    ensures PathToClassnameAndId("Sample") == (Some("Sample"), "")
  {
    assert Word("Sample") && JavaMath.AllDigits("");
    assert "Sample" == FormatPath(false, "Sample", false, "", false) && "Sample" + "" == "Sample";
    FormatPathReads(false, "Sample", false, "", false);
  }

  lemma ExampleTrailingSlash()
    ensures PathToClassnameAndId("/Sample/") == (Some("Sample"), "")
  {
    assert Word("Sample") && JavaMath.AllDigits("");
    assert "/Sample/" == FormatPath(true, "Sample", true, "", false);
    FormatPathReads(true, "Sample", true, "", false);
  }

  /** Digits right after the name belong to the name. */
  lemma ExampleDigitsInName()
    ensures PathToClassnameAndId("/Sample1") == (Some("Sample1"), "")
  {
    assert Word("Sample") && JavaMath.AllDigits("1");
    assert "/Sample1" == FormatPath(true, "Sample", false, "1", false) && "Sample" + "1" == "Sample1";
    FormatPathReads(true, "Sample", false, "1", false);
  }

  /** A name, a slash and digits followed by something other than `$` do not match. */
  lemma NoMatchAfterId(path: string, name: string, id: string, rest: string)
    requires Word(name) && JavaMath.AllDigits(id) && rest != [] && !JavaMath.IsDigit(rest[0]) && rest != "\n"
    requires path == "/" + name + "/" + id + rest
    ensures PathToClassnameAndId(path) == (None, "")
  {
    var y := id + rest;
    var x := "/" + y;
    var s := name + x;
    assert path == "/" + s;
    assert OptSlash(path, 0) == 1 && path[1..] == s;
    assert WordLength(s) == |name| && s[..|name|] == name && s[|name|..] == x by {
      WordPrefix(name, x);
    }
    assert x[1..] == y;
    assert DigitLength(y) == |id| by {
      DigitPrefix(id, rest);
    }
    assert !AtEnd(y, |id|);
  }

  /** A second trailing slash does not match. */
  lemma ExampleSlashAfterId()
    ensures PathToClassnameAndId("/Sample/1/") == (None, "")
  {
    assert Word("Sample") && JavaMath.AllDigits("1");
    assert "/Sample/1/" == "/" + "Sample" + "/" + "1" + "/";
    NoMatchAfterId("/Sample/1/", "Sample", "1", "/");
  }

  /** An id that is not digits does not match. */
  lemma ExampleLetterId()
    ensures PathToClassnameAndId("/Sample/x") == (None, "")
  {
    assert Word("Sample") && JavaMath.AllDigits("");
    assert "/Sample/x" == "/" + "Sample" + "/" + "" + "x";
    NoMatchAfterId("/Sample/x", "Sample", "", "x");
  }

  /** Two slashes before the id do not match. */
  lemma ExampleDoubleSlash()
    ensures PathToClassnameAndId("/Sample//1") == (None, "")
  {
    assert Word("Sample") && JavaMath.AllDigits("");
    assert "/Sample//1" == "/" + "Sample" + "/" + "" + "/1";
    NoMatchAfterId("/Sample//1", "Sample", "", "/1");
  }

  /** The empty path has no class name. */
  lemma ExampleEmpty()
    ensures PathToClassnameAndId("") == (None, "")
  {
  }
}
