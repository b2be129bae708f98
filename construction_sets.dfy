/** The construction-set library: the loaded sets (with the generic default set added
    when it is missing), the list of every known set name, the lookup by name that falls
    back to the standards data, and the collection of the constructions a standards
    entry references. The construction lookups of the construction library are maps that
    a name may be missing from. */
module ConstructionSets {
  import opened Common

  /** A construction of the construction library, known by its kind and name. */
  datatype Construction = OpaqueConstr(name: string) | WindowConstr(name: string) | ShadeConstr(name: string)

  /** The three lookups of the construction library: a name missing from a map is the
      `ValueError` of that lookup. */
  datatype ConstructionLibrary = ConstructionLibrary(
    opaques: map<string, Construction>, windows: map<string, Construction>,
    shades: map<string, Construction>)

  /** A value of a `ConstructionSetAbridged` dictionary: a nested dictionary of
      (sub-key, construction name) pairs in order, or a plain string. */
  datatype Entry = Nested(items: seq<(string, string)>) | Leaf(text: string)

  /** A `ConstructionSetAbridged` dictionary, its (key, value) pairs in order. */
  type SetDict = seq<(string, Entry)>

  /** A construction set: the generic default set, a set loaded from the library files,
      or a set built from a standards dictionary and the constructions it references. */
  datatype ConstructionSet =
    | Generic(identifier: string)
    | Loaded(identifier: string)
    | Abridged(dict: SetDict, constrs: map<string, Construction>)

  datatype LibError =
    | ConstructionNotFound(name: string) // a construction lookup raised `ValueError`
    | SetNotFound(name: string)          // the set is in neither library

  const GenericName: string := "Default Generic Construction Set"

  /* ---------------------------------------------------------------- references */

  /** How a referenced name is looked up: `opaque_construction_by_name` then
      `window_construction_by_name` (nested entries), `shade_construction_by_name` only
      (`shade_construction`), or `opaque_construction_by_name` only
      (`air_boundary_construction`). */
  datatype Role = OpaqueOrWindow | ShadeOnly | OpaqueOnly

  type Reference = (string, Role)

  /** The references of one nested dictionary: every value whose sub-key is not `type`. */
  function NestedRefs(items: seq<(string, string)>): (r: seq<Reference>)
    ensures forall k :: 0 <= k < |r| ==> r[k].1 == OpaqueOrWindow
  {
    if items == [] then []
    else
      var last := items[|items| - 1];
      NestedRefs(items[..|items| - 1]) + (if last.0 != "type" then [(last.1, OpaqueOrWindow)] else [])
  }

  /** The references of one dictionary entry, in the order of the source's branches. */
  function EntryRefs(key: string, entry: Entry): seq<Reference> {
    match entry
    case Nested(items) => NestedRefs(items)
    case Leaf(text) =>
      if key == "shade_construction" then [(text, ShadeOnly)]
      else if key == "air_boundary_construction" then [(text, OpaqueOnly)]
      else []
  }

  /** Every reference of a set dictionary, in iteration order. */
  function References(d: SetDict): seq<Reference> {
    if d == [] then []
    else References(d[..|d| - 1]) + EntryRefs(d[|d| - 1].0, d[|d| - 1].1)
  }

  /** What a reference resolves to: `opaque_construction_by_name` is tried first for
      nested and air boundary entries, and `window_construction_by_name` only when the
      first one fails. */
  function Resolve(lib: ConstructionLibrary, ref: Reference): (r: Option<Construction>)
    ensures ref.1 != ShadeOnly && ref.0 in lib.opaques ==> r == Some(lib.opaques[ref.0])
    ensures ref.1 == OpaqueOrWindow && ref.0 !in lib.opaques ==>
              r == (if ref.0 in lib.windows then Some(lib.windows[ref.0]) else None)
    ensures ref.1 == OpaqueOnly && ref.0 !in lib.opaques ==> r == None
    ensures ref.1 == ShadeOnly ==> r == (if ref.0 in lib.shades then Some(lib.shades[ref.0]) else None)
  {
    var (name, role) := ref;
    match role
    case ShadeOnly => if name in lib.shades then Some(lib.shades[name]) else None
    case OpaqueOnly => if name in lib.opaques then Some(lib.opaques[name]) else None
    case OpaqueOrWindow =>
      if name in lib.opaques then Some(lib.opaques[name])
      else if name in lib.windows then Some(lib.windows[name])
      else None
  }

  /** One assignment `constrs[name] = lookup(name)`. */
  function Assign(acc: Result<map<string, Construction>, LibError>, lib: ConstructionLibrary,
                  ref: Reference): Result<map<string, Construction>, LibError>
  {
    if acc.Err? then acc
    else
      match Resolve(lib, ref)
      case None => Err(ConstructionNotFound(ref.0))
      case Some(c) => Ok(acc.value[ref.0 := c])
  }

  /** The assignments of `refs`, in order, starting from `acc`. */
  function Extend(acc: Result<map<string, Construction>, LibError>, lib: ConstructionLibrary,
                  refs: seq<Reference>): Result<map<string, Construction>, LibError>
  {
    if refs == [] then acc else Assign(Extend(acc, lib, refs[..|refs| - 1]), lib, refs[|refs| - 1])
  }

  lemma {:induction false} ExtendAppend(acc: Result<map<string, Construction>, LibError>,
                                        lib: ConstructionLibrary, a: seq<Reference>, b: seq<Reference>)
    ensures Extend(acc, lib, a + b) == Extend(Extend(acc, lib, a), lib, b)
  {
    if b == [] {
      assert a + b == a;
    } else {
      assert (a + b)[..|a + b| - 1] == a + b[..|b| - 1];
      ExtendAppend(acc, lib, a, b[..|b| - 1]);
    }
  }

  lemma {:induction false} ExtendFailed(e: LibError, lib: ConstructionLibrary, refs: seq<Reference>)
    ensures Extend(Err(e), lib, refs) == Err(e)
  {
    if refs != [] {
      ExtendFailed(e, lib, refs[..|refs| - 1]);
    }
  }

  /** `_constrs_from_set_dict` as a value. */
  function Collect(d: SetDict, lib: ConstructionLibrary): Result<map<string, Construction>, LibError> {
    Extend(Ok(map[]), lib, References(d))
  }

  /** `_constrs_from_set_dict`: the loop over the dictionary's entries filling the
      `constrs` dictionary; the first failed lookup ends it. */
  method ConstrsFromSetDict(d: SetDict, lib: ConstructionLibrary)
    returns (r: Result<map<string, Construction>, LibError>)
    ensures r == Collect(d, lib)
  {
    var constrs: map<string, Construction> := map[];
    for i := 0 to |d|
      invariant Extend(Ok(map[]), lib, References(d[..i])) == Ok(constrs)
    {
      var next := AddEntry(constrs, lib, d[i].0, d[i].1);
      ExtendAppend(Ok(map[]), lib, References(d[..i]), EntryRefs(d[i].0, d[i].1));
      assert d[..i + 1][..i] == d[..i];
      assert References(d[..i + 1]) == References(d[..i]) + EntryRefs(d[i].0, d[i].1);
      if next.Err? {
        RestFails(d, lib, i, next.error);
        return next;
      }
      constrs := next.value;
    }
    assert d[..|d|] == d;
    return Ok(constrs);
  }

  /** One entry of the dictionary: a nested dictionary, or the shade or air boundary
      string; any other plain entry is skipped. */
  method AddEntry(constrs: map<string, Construction>, lib: ConstructionLibrary, key: string, entry: Entry)
    returns (r: Result<map<string, Construction>, LibError>)
    ensures r == Extend(Ok(constrs), lib, EntryRefs(key, entry))
  {
    match entry {
      case Nested(items) =>
        r := AddNested(constrs, lib, items);
      case Leaf(text) =>
        if key == "shade_construction" || key == "air_boundary_construction" {
          var role := if key == "shade_construction" then ShadeOnly else OpaqueOnly;
          var c := Resolve(lib, (text, role));
          if c.None? {
            r := Err(ConstructionNotFound(text));
          } else {
            r := Ok(constrs[text := c.value]);
          }
          assert [(text, role)][..0] == [];
        } else {
          r := Ok(constrs);
        }
    }
  }

  /** The inner loop over a nested dictionary, skipping its `type` key. */
  method AddNested(constrs: map<string, Construction>, lib: ConstructionLibrary,
                   items: seq<(string, string)>)
    returns (r: Result<map<string, Construction>, LibError>)
    ensures r == Extend(Ok(constrs), lib, NestedRefs(items))
  {
    var acc := constrs;
    for j := 0 to |items|
      invariant Extend(Ok(constrs), lib, NestedRefs(items[..j])) == Ok(acc)
    {
      assert items[..j + 1][..j] == items[..j];
      var (subKey, name) := items[j];
      if subKey != "type" {
        var ref := (name, OpaqueOrWindow);
        var refs := NestedRefs(items[..j + 1]);
        assert refs == NestedRefs(items[..j]) + [ref];
        assert refs[..|refs| - 1] == NestedRefs(items[..j]);
        var c := Resolve(lib, ref);
        if c.None? {
          r := Err(ConstructionNotFound(name));
          NestedFails(constrs, lib, items, j, r.error);
          return;
        }
        assert refs[|refs| - 1] == ref;
        acc := acc[name := c.value];
      } else {
        assert NestedRefs(items[..j + 1]) == NestedRefs(items[..j]);
      }
    }
    assert items[..|items|] == items;
    return Ok(acc);
  }

  /** A failure at item `j` of a nested dictionary is the failure of the whole. */
  lemma NestedFails(constrs: map<string, Construction>, lib: ConstructionLibrary,
                    items: seq<(string, string)>, j: nat, e: LibError)
    requires j < |items| && Extend(Ok(constrs), lib, NestedRefs(items[..j + 1])) == Err(e)
    ensures Extend(Ok(constrs), lib, NestedRefs(items)) == Err(e)
  {
    var pre, post := items[..j + 1], items[j + 1..];
    assert items == pre + post;
    NestedRefsAppend(pre, post);
    ExtendAppend(Ok(constrs), lib, NestedRefs(pre), NestedRefs(post));
    ExtendFailed(e, lib, NestedRefs(post));
  }

  /** A failure in entry `i` of the dictionary is the failure of the whole. */
  lemma RestFails(d: SetDict, lib: ConstructionLibrary, i: nat, e: LibError)
    requires i < |d| && Extend(Ok(map[]), lib, References(d[..i + 1])) == Err(e)
    ensures Collect(d, lib) == Err(e)
  {
    var pre, post := d[..i + 1], d[i + 1..];
    var empty: map<string, Construction> := map[];
    assert d == pre + post;
    ReferencesAppend(pre, post);
    ExtendAppend(Ok(empty), lib, References(pre), References(post));
    ExtendFailed(e, lib, References(post));
    assert Collect(d, lib) == Extend(Ok(empty), lib, References(pre) + References(post));
  }

  lemma {:induction false} NestedRefsAppend(a: seq<(string, string)>, b: seq<(string, string)>)
    ensures NestedRefs(a + b) == NestedRefs(a) + NestedRefs(b)
  {
    if b != [] {
      assert (a + b)[..|a + b| - 1] == a + b[..|b| - 1];
      NestedRefsAppend(a, b[..|b| - 1]);
    } else {
      assert a + b == a;
    }
  }

  lemma {:induction false} ReferencesAppend(a: SetDict, b: SetDict)
    ensures References(a + b) == References(a) + References(b)
  {
    if b != [] {
      assert (a + b)[..|a + b| - 1] == a + b[..|b| - 1];
      ReferencesAppend(a, b[..|b| - 1]);
    } else {
      assert a + b == a;
    }
  }

  /* ---------------------------------------------------------------- what is collected */

  /** The names a nested dictionary references: the values of its sub-keys other than
      `type`. */
  lemma {:induction false} NestedRefNames(items: seq<(string, string)>, name: string)
    ensures (exists k :: 0 <= k < |NestedRefs(items)| && NestedRefs(items)[k].0 == name)
            <==> exists j :: 0 <= j < |items| && items[j].0 != "type" && items[j].1 == name
  {
    if items != [] {
      var init := items[..|items| - 1];
      NestedRefNames(init, name);
      var refs, before := NestedRefs(items), NestedRefs(init);
      if exists j :: 0 <= j < |items| && items[j].0 != "type" && items[j].1 == name {
        var j :| 0 <= j < |items| && items[j].0 != "type" && items[j].1 == name;
        if j < |init| {
          assert init[j] == items[j];
          var k :| 0 <= k < |before| && before[k].0 == name;
          assert refs[k] == before[k];
        } else {
          assert refs[|refs| - 1].0 == name;
        }
      }
      if exists k :: 0 <= k < |refs| && refs[k].0 == name {
        var k :| 0 <= k < |refs| && refs[k].0 == name;
        if k < |before| {
          assert before[k].0 == name;
          var j :| 0 <= j < |init| && init[j].0 != "type" && init[j].1 == name;
          assert items[j] == init[j];
        } else {
          assert items[|items| - 1].0 != "type" && items[|items| - 1].1 == name;
        }
      }
    }
  }

  /** An entry references `name` when it is a nested dictionary with `name` under a sub-key
      other than `type`, or the `shade_construction` or `air_boundary_construction` string
      `name`. Other plain entries reference nothing. */
  predicate EntryNames(key: string, entry: Entry, name: string) {
    match entry
    case Nested(items) => exists j :: 0 <= j < |items| && items[j].0 != "type" && items[j].1 == name
    case Leaf(text) => (key == "shade_construction" || key == "air_boundary_construction") && text == name
  }

  predicate Refers(refs: seq<Reference>, name: string) {
    exists k :: 0 <= k < |refs| && refs[k].0 == name
  }

  lemma EntryRefNames(key: string, entry: Entry, name: string)
    ensures Refers(EntryRefs(key, entry), name) <==> EntryNames(key, entry, name)
  {
    match entry
    case Nested(items) => NestedRefNames(items, name);
    case Leaf(text) =>
      if EntryNames(key, entry, name) {
        assert EntryRefs(key, entry)[0].0 == name;
      }
  }

  lemma RefersAppend(a: seq<Reference>, b: seq<Reference>, name: string)
    ensures Refers(a + b, name) <==> Refers(a, name) || Refers(b, name)
  {
    if Refers(a + b, name) {
      var k :| 0 <= k < |a + b| && (a + b)[k].0 == name;
      if k < |a| {
        assert a[k].0 == name;
      } else {
        assert b[k - |a|].0 == name;
      }
    }
    if Refers(a, name) {
      var k :| 0 <= k < |a| && a[k].0 == name;
      assert (a + b)[k] == a[k];
    }
    if Refers(b, name) {
      var k :| 0 <= k < |b| && b[k].0 == name;
      assert (a + b)[|a| + k] == b[k];
    }
  }

  /** Some entry of `d` references `name`. */
  predicate SomeEntryNames(d: SetDict, name: string) {
    exists i :: 0 <= i < |d| && EntryNames(d[i].0, d[i].1, name)
  }

  lemma SomeEntryNamesLast(d: SetDict, name: string)
    requires d != []
    ensures SomeEntryNames(d, name)
            <==> SomeEntryNames(d[..|d| - 1], name) || EntryNames(d[|d| - 1].0, d[|d| - 1].1, name)
  {
    var init := d[..|d| - 1];
    if SomeEntryNames(d, name) {
      var i :| 0 <= i < |d| && EntryNames(d[i].0, d[i].1, name);
      if i < |init| {
        assert init[i] == d[i];
      }
    }
    if SomeEntryNames(init, name) {
      var i :| 0 <= i < |init| && EntryNames(init[i].0, init[i].1, name);
      assert d[i] == init[i];
    }
  }

  /** The names a set dictionary references are exactly those its entries reference. */
  lemma {:induction false} ReferenceNames(d: SetDict, name: string)
    ensures Refers(References(d), name) <==> SomeEntryNames(d, name)
  {
    if d != [] {
      var init, last := d[..|d| - 1], d[|d| - 1];
      ReferenceNames(init, name);
      EntryRefNames(last.0, last.1, name);
      RefersAppend(References(init), EntryRefs(last.0, last.1), name);
      SomeEntryNamesLast(d, name);
    }
  }

  /** Collecting succeeds exactly when every reference resolves. */
  lemma {:induction false} ExtendSucceeds(m: map<string, Construction>, lib: ConstructionLibrary,
                                          refs: seq<Reference>)
    ensures Extend(Ok(m), lib, refs).Ok?
            <==> forall k :: 0 <= k < |refs| ==> Resolve(lib, refs[k]).Some?
  {
    if refs != [] {
      var init, last := refs[..|refs| - 1], refs[|refs| - 1];
      ExtendSucceeds(m, lib, init);
      var prev := Extend(Ok(m), lib, init);
      assert Extend(Ok(m), lib, refs) == Assign(prev, lib, last);
      assert forall k :: 0 <= k < |init| ==> init[k] == refs[k];
      if prev.Err? {
        var k :| 0 <= k < |init| && Resolve(lib, init[k]).None?;
        assert Resolve(lib, refs[k]).None?;
      }
    }
  }

  /** The collected keys are the starting keys plus the referenced names. */
  lemma {:induction false} ExtendKeys(m: map<string, Construction>, lib: ConstructionLibrary,
                                      refs: seq<Reference>)
    requires Extend(Ok(m), lib, refs).Ok?
    ensures forall name :: name in Extend(Ok(m), lib, refs).value <==> name in m || Refers(refs, name)
  {
    if refs != [] {
      var init, last := refs[..|refs| - 1], refs[|refs| - 1];
      var prev := Extend(Ok(m), lib, init);
      assert Extend(Ok(m), lib, refs) == Assign(prev, lib, last);
      ExtendKeys(m, lib, init);
      assert refs == init + [last];
      forall name
        ensures name in Extend(Ok(m), lib, refs).value <==> name in m || Refers(refs, name)
      {
        RefersAppend(init, [last], name);
        assert Refers([last], name) <==> last.0 == name;
      }
    }
  }

  /** Each collected name holds what its last reference resolved to. */
  lemma {:induction false} ExtendValues(m: map<string, Construction>, lib: ConstructionLibrary,
                                        refs: seq<Reference>)
    requires Extend(Ok(m), lib, refs).Ok?
    ensures forall k :: 0 <= k < |refs| && (forall l :: k < l < |refs| ==> refs[l].0 != refs[k].0) ==>
              Resolve(lib, refs[k]).Some? && refs[k].0 in Extend(Ok(m), lib, refs).value
              && Extend(Ok(m), lib, refs).value[refs[k].0] == Resolve(lib, refs[k]).value
  {
    if refs != [] {
      var init, last := refs[..|refs| - 1], refs[|refs| - 1];
      var prev := Extend(Ok(m), lib, init);
      assert Extend(Ok(m), lib, refs) == Assign(prev, lib, last);
      ExtendValues(m, lib, init);
      ExtendSucceeds(m, lib, refs);
      var out := Extend(Ok(m), lib, refs).value;
      forall k | 0 <= k < |refs| && (forall l :: k < l < |refs| ==> refs[l].0 != refs[k].0)
        ensures refs[k].0 in out && out[refs[k].0] == Resolve(lib, refs[k]).value
      {
        if k < |init| {
          assert refs[k] == init[k];
          assert forall l :: k < l < |init| ==> init[l] == refs[l];
          assert refs[|refs| - 1].0 != refs[k].0;
        }
      }
    }
  }

  /** `_constrs_from_set_dict` fails exactly when a referenced name is missing from its
      lookup. Otherwise its keys are exactly the names the entries reference, and each
      holds what its last reference resolved to. */
  lemma CollectOutcome(d: SetDict, lib: ConstructionLibrary)
    ensures Collect(d, lib).Ok?
            <==> forall k :: 0 <= k < |References(d)| ==> Resolve(lib, References(d)[k]).Some?
    ensures Collect(d, lib).Ok? ==>
              forall name :: name in Collect(d, lib).value <==> SomeEntryNames(d, name)
    ensures Collect(d, lib).Ok? ==>
              var refs := References(d);
              forall k :: 0 <= k < |refs| && (forall l :: k < l < |refs| ==> refs[l].0 != refs[k].0) ==>
                refs[k].0 in Collect(d, lib).value
                && Collect(d, lib).value[refs[k].0] == Resolve(lib, refs[k]).value
  {
    var empty: map<string, Construction> := map[];
    assert Collect(d, lib) == Extend(Ok(empty), lib, References(d));
    ExtendSucceeds(empty, lib, References(d));
    if Collect(d, lib).Ok? {
      ExtendKeys(empty, lib, References(d));
      ExtendValues(empty, lib, References(d));
      forall name
        ensures name in Collect(d, lib).value <==> SomeEntryNames(d, name)
      {
        ReferenceNames(d, name);
      }
    }
  }

  /* ---------------------------------------------------------------- the library */

  /** `order` lists the keys of `m` once each, in insertion order. */
  ghost predicate OrderedKeys<V>(order: seq<string>, m: map<string, V>) {
    (forall i, j :: 0 <= i < j < |order| ==> order[i] != order[j])
    && forall name :: name in m <==> name in order
  }

  /** A list of distinct names is as long as the set of its names. */
  lemma {:induction false} DistinctCard(order: seq<string>)
    requires forall i, j :: 0 <= i < j < |order| ==> order[i] != order[j]
    ensures |set name | name in order| == |order|
  {
    if order != [] {
      var init := order[..|order| - 1];
      DistinctCard(init);
      var last := order[|order| - 1];
      assert (set name | name in order) == (set name | name in init) + {last};
      assert last !in (set name | name in init);
    }
  }

  /** The loaded construction sets and the standards data they fall back to. */
  class ConstructionSetLibrary {
    var loadedNames: seq<string>
    var loaded: map<string, ConstructionSet>
    const standardNames: seq<string>
    const standards: map<string, SetDict>
    const constructions: ConstructionLibrary

    ghost predicate Valid()
      reads this
    {
      OrderedKeys(loadedNames, loaded) && OrderedKeys(standardNames, standards)
    }

    /** Module initialisation: the loaded sets, with the generic default set added at the
        end when it is not among them; an existing entry is kept. */
    constructor (loadedNames: seq<string>, loaded: map<string, ConstructionSet>,
                 standardNames: seq<string>, standards: map<string, SetDict>,
                 constructions: ConstructionLibrary)
      requires OrderedKeys(loadedNames, loaded) && OrderedKeys(standardNames, standards)
      ensures Valid() && GenericName in this.loaded
      ensures GenericName in loaded ==> this.loaded == loaded && this.loadedNames == loadedNames
      ensures GenericName !in loaded ==>
                this.loaded == loaded[GenericName := Generic(GenericName)]
                && this.loadedNames == loadedNames + [GenericName]
      ensures this.standardNames == standardNames && this.standards == standards
      ensures this.constructions == constructions
    {
      this.standardNames := standardNames;
      this.standards := standards;
      this.constructions := constructions;
      if GenericName in loaded {
        this.loaded := loaded;
        this.loadedNames := loadedNames;
      } else {
        this.loaded := loaded[GenericName := Generic(GenericName)];
        this.loadedNames := loadedNames + [GenericName];
      }
    }

    /** `CONSTRUCTION_SETS`: the loaded names, then the standards names. */
    function ConstructionSetNames(): (r: seq<string>)
      reads this
      requires Valid()
      ensures r == loadedNames + standardNames
      ensures |r| == |loaded.Keys| + |standards.Keys|
      ensures forall name :: name in r <==> name in loaded || name in standards
    {
      DistinctCard(loadedNames);
      DistinctCard(standardNames);
      assert (set name | name in loadedNames) == loaded.Keys;
      assert (set name | name in standardNames) == standards.Keys;
      loadedNames + standardNames
    }

    /** `construction_set_by_name`: a loaded set; else a set built from the standards
        entry, which fails when one of its constructions is missing; else not found. */
    function ConstructionSetByName(name: string): (r: Result<ConstructionSet, LibError>)
      reads this
      ensures name in loaded ==> r == Ok(loaded[name])
      ensures name !in loaded && name in standards ==>
                (r.Ok? <==> forall k :: 0 <= k < |References(standards[name])| ==>
                              Resolve(constructions, References(standards[name])[k]).Some?)
                && (r.Ok? ==> Collect(standards[name], constructions).Ok?
                              && r == Ok(Abridged(standards[name], Collect(standards[name], constructions).value)))
                && (r.Err? ==> r.error.ConstructionNotFound?)
      ensures name !in loaded && name !in standards ==> r == Err(SetNotFound(name))
    {
      if name in loaded then Ok(loaded[name])
      else if name in standards then
        var d := standards[name];
        CollectOutcome(d, constructions);
        CollectError(d, constructions);
        match Collect(d, constructions)
        case Ok(constrs) => Ok(Abridged(d, constrs))
        case Err(e) => Err(e)
      else Err(SetNotFound(name))
    }

    /** Every name that `CONSTRUCTION_SETS` lists is found; only a standards entry with a
        missing construction can still fail, and not with "not found". The generic set is
        always found. */
    lemma ListedNamesAreFound(name: string)
      requires Valid() && GenericName in loaded
      requires name in ConstructionSetNames()
      ensures ConstructionSetByName(name) != Err(SetNotFound(name))
      ensures ConstructionSetByName(GenericName) == Ok(loaded[GenericName])
    {
    }
  }

  /** A failed collection always names the construction that was missing. */
  lemma CollectError(d: SetDict, lib: ConstructionLibrary)
    ensures Collect(d, lib).Err? ==> Collect(d, lib).error.ConstructionNotFound?
  {
    ExtendErrorKind(lib, References(d));
  }

  lemma {:induction false} ExtendErrorKind(lib: ConstructionLibrary, refs: seq<Reference>)
    ensures Extend(Ok(map[]), lib, refs).Err? ==> Extend(Ok(map[]), lib, refs).error.ConstructionNotFound?
  {
    if refs != [] {
      ExtendErrorKind(lib, refs[..|refs| - 1]);
    }
  }

  /** Module initialisation followed by a lookup of the generic set finds it, and a
      library that already held it keeps its own entry. */
  method InitAndLookUpGeneric(loadedNames: seq<string>, loaded: map<string, ConstructionSet>,
                              standardNames: seq<string>, standards: map<string, SetDict>,
                              constructions: ConstructionLibrary)
    returns (r: Result<ConstructionSet, LibError>)
    requires OrderedKeys(loadedNames, loaded) && OrderedKeys(standardNames, standards)
    ensures GenericName in loaded ==> r == Ok(loaded[GenericName])
    ensures GenericName !in loaded ==> r == Ok(Generic(GenericName))
  {
    var library := new ConstructionSetLibrary(loadedNames, loaded, standardNames, standards,
                                              constructions);
    r := library.ConstructionSetByName(GenericName);
  }
}
