/**
 * The two name registries of server/restutil.py: `specials_registry`, whose
 * entries are namespaces (dicts) holding a '_n' tag and the methods
 * registered on them, and `model_class_registry`, which maps names to model
 * classes while `registerClassByName` records on each class the name it was
 * registered under. Every registration refuses a name already in use with a
 * KeyError and then changes nothing.
 */
module Registry {
  import opened Wrappers
  import opened StringOrder

  /** A model class object: its identity and its `__name__`. */
  datatype ModelClass = ModelClass(id: nat, className: string)

  /** A value in a special's dict: the '_n' tag naming the special, or a registered method. */
  datatype Entry<M> = NameTag(name: string) | MethodEntry(fn: M)

  /** The KeyErrors the registrations raise. */
  datatype RegistryError =
    | DuplicateSpecial(name: string)
    | NoSpecial(special: string)
    | DuplicateMethod(special: string, name: string)
    | DuplicateModelClass(name: string)

  /** The key under which a special's dict holds its own name. */
  const NAME_KEY: string := "_n"

  type Special<M> = map<string, Entry<M>>
  type Specials<M> = map<string, Special<M>>

  /** `model_class_registry` together with the `_n` attribute of every class. */
  datatype ClassTable = ClassTable(byName: map<string, ModelClass>, names: map<ModelClass, string>)

  /** `dict.get(key)`, and `getattr(obj, attr, None)` on the attributes a registration sets. */
  function Get<K, V>(m: map<K, V>, key: K): (r: Option<V>)
    ensures r.Some? <==> key in m
    ensures r.Some? ==> r.value == m[key]
  {
    if key in m then Some(m[key]) else None
  }

  // ---------------------------------------------------------------------------
  // specials_registry
  // ---------------------------------------------------------------------------

  /**
   * `registerSpecialByName(name)`: a new name gets a namespace holding only
   * its `_n` tag and every other name keeps its namespace; a name already
   * registered raises.
   */
  function AddSpecial<M>(specials: Specials<M>, name: string): (r: Result<Specials<M>, RegistryError>)
    ensures r.Err? <==> name in specials
    ensures r.Err? ==> r.error == DuplicateSpecial(name)
    ensures r.Ok? ==>
      r.value.Keys == specials.Keys + {name} && r.value[name] == map[NAME_KEY := NameTag(name)]
      && forall other :: other in specials ==> r.value[other] == specials[other]
  {
    if name in specials then Err(DuplicateSpecial(name))
    else Ok(specials[name := map[NAME_KEY := NameTag(name)]])
  }

  /**
   * `registerSpecialMethod(special, name, fn)` with the special given by
   * name: the method is added to a known special under a new name and is
   * found under it, and every other lookup is unchanged. An unknown special
   * or a name already present, '_n' included, raises.
   */
  function AddSpecialMethod<M>(specials: Specials<M>, special: string, name: string, fn: M): (r: Result<Specials<M>, RegistryError>)
    ensures r.Err? <==> special !in specials || name in specials[special]
    ensures special !in specials ==> r == Err(NoSpecial(special))
    ensures special in specials && name in specials[special] ==> r == Err(DuplicateMethod(special, name))
    ensures r.Ok? ==>
      MethodOf(r.value, special, name) == Some(MethodEntry(fn))
      && forall s, n :: (s, n) != (special, name) ==> MethodOf(r.value, s, n) == MethodOf(specials, s, n)
  {
    if special !in specials then Err(NoSpecial(special))
    else if name in specials[special] then Err(DuplicateMethod(special, name))
    else Ok(specials[special := specials[special][name := MethodEntry(fn)]])
  }

  /** `specialMethodFromName(special, name)` with the special given by name. */
  function MethodOf<M>(specials: Specials<M>, special: string, name: string): (r: Option<Entry<M>>)
    ensures r.Some? <==> special in specials && name in specials[special]
  {
    match Get(specials, special)
    case None => None
    case Some(d) => Get(d, name)
  }

  /** Every namespace is tagged with its own name, and everything else in it is a method. */
  predicate SpecialsValid<M>(specials: Specials<M>)
  {
    forall n :: n in specials ==>
      Get(specials[n], NAME_KEY) == Some(NameTag(n))
      && forall k :: k in specials[n] && k != NAME_KEY ==> specials[n][k].MethodEntry?
  }

  lemma AddSpecialValid<M>(specials: Specials<M>, name: string)
    requires SpecialsValid(specials) && AddSpecial(specials, name).Ok?
    ensures SpecialsValid(AddSpecial(specials, name).value)
  {
  }

  /** The '_n' tag can never be replaced by a method. */
  lemma NameTagKept<M>(specials: Specials<M>, special: string, fn: M)
    requires SpecialsValid(specials) && special in specials
    ensures AddSpecialMethod(specials, special, NAME_KEY, fn) == Err(DuplicateMethod(special, NAME_KEY))
    ensures MethodOf(specials, special, NAME_KEY) == Some(NameTag(special))
  {
  }

  lemma AddSpecialMethodValid<M>(specials: Specials<M>, special: string, name: string, fn: M)
    requires SpecialsValid(specials) && AddSpecialMethod(specials, special, name, fn).Ok?
    ensures SpecialsValid(AddSpecialMethod(specials, special, name, fn).value)
  {
    var d := specials[special][name := MethodEntry(fn)];
    assert Get(d, NAME_KEY) == Some(NameTag(special));
  }

  // ---------------------------------------------------------------------------
  // model_class_registry
  // ---------------------------------------------------------------------------

  /**
   * `registerClassByName(cls, name)`, the name defaulting to the class's
   * own: a new name leads to the class and the class then answers to it;
   * every other name keeps its class. A name in use raises.
   */
  function AddClass(t: ClassTable, cls: ModelClass, name: Option<string>): (r: Result<ClassTable, RegistryError>)
    ensures var n := if name.Some? then name.value else cls.className;
      (r.Err? <==> n in t.byName)
      && (r.Err? ==> r.error == DuplicateModelClass(n))
      && (r.Ok? ==>
            r.value.byName.Keys == t.byName.Keys + {n} && r.value.byName[n] == cls && Get(r.value.names, cls) == Some(n)
            && forall other :: other in t.byName ==> r.value.byName[other] == t.byName[other])
  {
    var n := if name.Some? then name.value else cls.className;
    if n in t.byName then Err(DuplicateModelClass(n))
    else Ok(ClassTable(t.byName[n := cls], t.names[cls := n]))
  }

  /** Every class's recorded name leads back to it, and every registered class has a recorded name. */
  predicate ClassesValid(t: ClassTable)
  {
    (forall c :: c in t.names ==> t.names[c] in t.byName && t.byName[t.names[c]] == c)
    && (forall n :: n in t.byName ==> t.byName[n] in t.names)
  }

  lemma AddClassValid(t: ClassTable, cls: ModelClass, name: Option<string>)
    requires ClassesValid(t) && AddClass(t, cls, name).Ok?
    ensures ClassesValid(AddClass(t, cls, name).value)
  {
    var n := if name.Some? then name.value else cls.className;
    var t' := AddClass(t, cls, name).value;
    forall c | c in t'.names
      ensures t'.names[c] in t'.byName && t'.byName[t'.names[c]] == c
    {
      if c != cls {
        assert t.names[c] in t.byName && t.names[c] != n;
      }
    }
  }

  /** `name[0] != '_'`: public members of a module. */
  predicate IsPublic(name: string)
    requires name != ""
  {
    name[0] != '_'
  }

  predicate NamesNonEmpty(members: seq<(string, ModelClass)>)
  {
    forall i :: 0 <= i < |members| ==> members[i].0 != ""
  }

  /**
   * The outcome of `registerAllModelClasses` and the table it leaves: it
   * stops at the first KeyError, keeping what it registered before. Every
   * name registered before keeps its class, and a failure names a model
   * class name that is registered.
   */
  function AddAll(t: ClassTable, members: seq<(string, ModelClass)>): (r: (ClassTable, Result<(), RegistryError>))
    requires NamesNonEmpty(members)
    ensures forall n :: n in t.byName ==> n in r.0.byName && r.0.byName[n] == t.byName[n]
    ensures r.1.Err? ==> r.1.error.DuplicateModelClass? && r.1.error.name in r.0.byName
    decreases |members|
  {
    if members == [] then (t, Ok(()))
    else
      var (name, cls) := members[0];
      if !IsPublic(name) then AddAll(t, members[1..])
      else match AddClass(t, cls, Some(name))
        case Err(e) => (t, Err(e))
        case Ok(t1) => AddAll(t1, members[1..])
  }

  /** The names `registerAllModelClasses` registers, in order. */
  function PublicNames(members: seq<(string, ModelClass)>): (r: seq<string>)
    requires NamesNonEmpty(members)
    ensures forall n :: n in r ==> n != "" && IsPublic(n)
    decreases |members|
  {
    if members == [] then []
    else (if IsPublic(members[0].0) then [members[0].0] else []) + PublicNames(members[1..])
  }

  predicate NoRepeats(s: seq<string>)
  {
    forall i, j :: 0 <= i < j < |s| ==> s[i] != s[j]
  }

  lemma ConsNoRepeats(n: string, s: seq<string>)
    ensures NoRepeats([n] + s) <==> n !in s && NoRepeats(s)
  {
    var r := [n] + s;
    assert forall i :: 0 <= i < |s| ==> r[i + 1] == s[i];
    if n !in s && NoRepeats(s) {
      forall i, j | 0 <= i < j < |r|
        ensures r[i] != r[j]
      {
        if i == 0 {
          assert r[j] == s[j - 1];
        }
      }
    }
    if NoRepeats(r) {
      forall j | 0 <= j < |s|
        ensures s[j] != n
      {
        assert r[0] != r[j + 1];
      }
    }
  }

  /**
   * The bulk registration succeeds exactly when the public names are
   * distinct and none of them is registered yet; members whose name starts
   * with '_' are skipped.
   */
  lemma {:induction false} AddAllSucceeds(t: ClassTable, members: seq<(string, ModelClass)>)
    requires NamesNonEmpty(members)
    ensures AddAll(t, members).1.Ok? <==>
      NoRepeats(PublicNames(members)) && forall n :: n in PublicNames(members) ==> n !in t.byName
    decreases |members|
  {
    if members != [] {
      var (name, cls) := members[0];
      var rest := members[1..];
      assert NamesNonEmpty(rest) by {
        assert forall i :: 0 <= i < |rest| ==> rest[i] == members[i + 1];
      }
      if !IsPublic(name) {
        AddAllSucceeds(t, rest);
        assert PublicNames(members) == PublicNames(rest);
      } else {
        assert PublicNames(members) == [name] + PublicNames(rest);
        ConsNoRepeats(name, PublicNames(rest));
        if name !in t.byName {
          var t1 := AddClass(t, cls, Some(name)).value;
          AddAllSucceeds(t1, rest);
        }
      }
    }
  }

  /**
   * After a successful bulk registration the registered names are the old
   * ones and the public members' names, each public member is found under
   * its name, and the old names keep their classes.
   */
  lemma {:induction false} AddAllRegisters(t: ClassTable, members: seq<(string, ModelClass)>)
    requires NamesNonEmpty(members) && AddAll(t, members).1.Ok?
    ensures var t' := AddAll(t, members).0;
      (forall n :: n in t'.byName <==> n in t.byName || n in PublicNames(members))
      && (forall n :: n in t.byName ==> t'.byName[n] == t.byName[n])
      && (forall i :: 0 <= i < |members| && IsPublic(members[i].0) ==> Get(t'.byName, members[i].0) == Some(members[i].1))
    decreases |members|
  {
    if members != [] {
      var (name, cls) := members[0];
      var rest := members[1..];
      assert NamesNonEmpty(rest) by {
        assert forall i :: 0 <= i < |rest| ==> rest[i] == members[i + 1];
      }
      AddAllSucceeds(t, members);
      if !IsPublic(name) {
        AddAllRegisters(t, rest);
        assert PublicNames(members) == PublicNames(rest);
        forall i | 0 <= i < |members| && IsPublic(members[i].0)
          ensures Get(AddAll(t, members).0.byName, members[i].0) == Some(members[i].1)
        {
          assert members[i] == rest[i - 1];
        }
      } else {
        assert PublicNames(members) == [name] + PublicNames(rest);
        ConsNoRepeats(name, PublicNames(rest));
        var t1 := AddClass(t, cls, Some(name)).value;
        AddAllRegisters(t1, rest);
        var t' := AddAll(t1, rest).0;
        forall i | 0 <= i < |members| && IsPublic(members[i].0)
          ensures Get(t'.byName, members[i].0) == Some(members[i].1)
        {
          if i > 0 {
            assert members[i] == rest[i - 1];
          } else {
            assert name !in PublicNames(rest);
          }
        }
      }
    }
  }

  lemma {:induction false} AddAllValid(t: ClassTable, members: seq<(string, ModelClass)>)
    requires NamesNonEmpty(members) && ClassesValid(t)
    ensures ClassesValid(AddAll(t, members).0)
    decreases |members|
  {
    if members != [] {
      var (name, cls) := members[0];
      var rest := members[1..];
      assert NamesNonEmpty(rest) by {
        assert forall i :: 0 <= i < |rest| ==> rest[i] == members[i + 1];
      }
      if !IsPublic(name) {
        AddAllValid(t, rest);
      } else if AddClass(t, cls, Some(name)).Ok? {
        AddClassValid(t, cls, Some(name));
        AddAllValid(AddClass(t, cls, Some(name)).value, rest);
      }
    }
  }

  // ---------------------------------------------------------------------------
  // The module's state
  // ---------------------------------------------------------------------------

  /** A method's outcome and new value of a table, as a step function describes them. */
  predicate Applied<T(==)>(r: Result<(), RegistryError>, now: T, before: T, step: Result<T, RegistryError>)
  {
    match step
    case Ok(t) => r == Ok(()) && now == t
    case Err(e) => r == Err(e) && now == before
  }

  /** The module-level registries of restutil.py; M is the type of the callables registered as methods. */
  class Registries<M> {
    /** `specials_registry`. */
    var specials: Specials<M>
    /** `model_class_registry`. */
    var modelClasses: map<string, ModelClass>
    /** The `_n` attribute `registerClassByName` sets on each class. */
    var classNames: map<ModelClass, string>

    ghost predicate Valid()
      reads this
    {
      SpecialsValid(specials) && ClassesValid(Classes())
    }

    function Classes(): ClassTable
      reads this
    {
      ClassTable(modelClasses, classNames)
    }

    /** Both registries start empty. */
    constructor()
      ensures Valid() && specials == map[] && modelClasses == map[] && classNames == map[]
    {
      specials := map[];
      modelClasses := map[];
      classNames := map[];
    }

    method RegisterSpecialByName(name: string) returns (r: Result<(), RegistryError>)
      requires Valid()
      modifies this
      ensures Valid()
      ensures Applied(r, specials, old(specials), AddSpecial(old(specials), name))
      ensures modelClasses == old(modelClasses) && classNames == old(classNames)
    {
      if name in specials {
        return Err(DuplicateSpecial(name));
      }
      specials := specials[name := map[NAME_KEY := NameTag(name)]];
      r := Ok(());
      AddSpecialValid(old(specials), name);
    }

    /** `specialFromName(name)`: the namespace, or None. */
    function SpecialFromName(name: string): (r: Option<Special<M>>)
      reads this
      ensures r.Some? <==> name in specials
      ensures r.Some? ==> r.value == specials[name]
    {
      Get(specials, name)
    }

    /** `allSpecialNames()`: every registered name once, in increasing order. */
    function AllSpecialNames(): (r: seq<string>)
      reads this
      ensures Increasing(r) && |r| == |specials.Keys|
      ensures forall n :: n in r <==> n in specials
    {
      Sorted(specials.Keys)
    }

    method RegisterSpecialMethod(special: string, name: string, fn: M) returns (r: Result<(), RegistryError>)
      requires Valid()
      modifies this
      ensures Valid()
      ensures Applied(r, specials, old(specials), AddSpecialMethod(old(specials), special, name, fn))
      ensures modelClasses == old(modelClasses) && classNames == old(classNames)
    {
      var spc := SpecialFromName(special);
      if spc.None? {
        return Err(NoSpecial(special));
      }
      var d := spc.value;
      if name in d {
        return Err(DuplicateMethod(special, name));
      }
      specials := specials[special := d[name := MethodEntry(fn)]];
      r := Ok(());
      AddSpecialMethodValid(old(specials), special, name, fn);
    }

    /** `specialMethodFromName(special, name)`: None for an unknown special or name. */
    function SpecialMethodFromName(special: string, name: string): (r: Option<Entry<M>>)
      reads this
      ensures r.Some? <==> special in specials && name in specials[special]
      ensures r.Some? ==> r.value == specials[special][name]
    {
      MethodOf(specials, special, name)
    }

    method RegisterClassByName(cls: ModelClass, name: Option<string>) returns (r: Result<(), RegistryError>)
      requires Valid()
      modifies this
      ensures Valid()
      ensures Applied(r, Classes(), old(Classes()), AddClass(old(Classes()), cls, name))
      ensures specials == old(specials)
    {
      var n := if name.None? then cls.className else name.value;
      if n in modelClasses {
        return Err(DuplicateModelClass(n));
      }
      modelClasses := modelClasses[n := cls];
      classNames := classNames[cls := n];
      r := Ok(());
      AddClassValid(old(Classes()), cls, name);
    }

    /** `registerAllModelClasses(module)`, given the module's model-class members as `inspect.getmembers` lists them. */
    method RegisterAllModelClasses(members: seq<(string, ModelClass)>) returns (r: Result<(), RegistryError>)
      requires Valid() && NamesNonEmpty(members)
      modifies this
      ensures Valid()
      ensures (Classes(), r) == AddAll(old(Classes()), members)
      ensures specials == old(specials)
    {
      for i := 0 to |members|
        invariant Valid() && specials == old(specials)
        invariant NamesNonEmpty(members[i..])
        invariant AddAll(old(Classes()), members) == AddAll(Classes(), members[i..])
      {
        var (name, cls) := members[i];
        assert members[i..][0] == members[i] && members[i..][1..] == members[i + 1..];
        if IsPublic(name) {
          r := RegisterClassByName(cls, Some(name));
          if r.Err? {
            return;
          }
        }
      }
      r := Ok(());
    }

    /** `modelClassFromName(classname)`: the class, or None. */
    function ModelClassFromName(classname: string): (r: Option<ModelClass>)
      reads this
      ensures r.Some? <==> classname in modelClasses
      ensures r.Some? ==> r.value == modelClasses[classname]
    {
      Get(modelClasses, classname)
    }

    /** `nameFromModelClass(cls)`: the last name the class was registered under, or None. */
    function NameFromModelClass(cls: ModelClass): (r: Option<string>)
      reads this
      ensures r.Some? <==> cls in classNames
      ensures r.Some? ==> r.value == classNames[cls]
    {
      Get(classNames, cls)
    }

    /** `allModelClassNames()`: every registered name once, in increasing order. */
    function AllModelClassNames(): (r: seq<string>)
      reads this
      ensures Increasing(r) && |r| == |modelClasses.Keys|
      ensures forall n :: n in r <==> n in modelClasses
    {
      Sorted(modelClasses.Keys)
    }

    /** A registered class answers to a name that leads back to it. */
    lemma NameLeadsBack(cls: ModelClass)
      requires Valid() && NameFromModelClass(cls).Some?
      ensures ModelClassFromName(NameFromModelClass(cls).value) == Some(cls)
    {
    }
  }
}
