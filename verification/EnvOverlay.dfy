/**
  Laying environment overrides over a configuration: setEnvPath and the loop of
  loadEnvOverrides (config/config.go).
 */
module EnvOverlay {
  import opened Util
  import opened Sorting
  import opened EnvKeys
  import opened EnvSchema
  import opened EnvWalks

  // ---------- nested maps ----------

  datatype Value = Str(s: string) | Dict(m: map<string, Value>)

  function Read(v: Value, path: Path): Option<string>
    decreases |path|
  {
    match v
    case Str(s) => if path == [] then Some(s) else None
    case Dict(m) => if path != [] && path[0] in m then Read(m[path[0]], path[1..]) else None
  }

  // The nested maps along path all exist.
  predicate DictAt(v: Value, path: Path)
    decreases |path|
  {
    v.Dict? && (path != [] ==> path[0] in v.m && DictAt(v.m[path[0]], path[1..]))
  }

  // m[seg] = x, for the nested map m that path without its last segment leads to.
  function Put(v: Value, path: Path, x: Value): Value
    requires path != [] && DictAt(v, path[..|path| - 1])
    decreases |path|
  {
    if |path| == 1 then Dict(v.m[path[0] := x])
    else
      assert path[..|path| - 1][1..] == path[1..][..|path| - 2];
      Dict(v.m[path[0] := Put(v.m[path[0]], path[1..], x)])
  }

  lemma {:induction false} PutReads(v: Value, path: Path, x: Value, q: Path)
    requires path != [] && DictAt(v, path[..|path| - 1])
    ensures Read(Put(v, path, x), q) == if path <= q then Read(x, q[|path|..]) else Read(v, q)
    decreases |path|
  {
    if |path| == 1 {
      if q != [] && q[0] == path[0] {
        assert path <= q;
      }
    } else {
      assert path[..|path| - 1][1..] == path[1..][..|path| - 2];
      if q != [] && q[0] == path[0] {
        PutReads(v.m[path[0]], path[1..], x, q[1..]);
        assert path == [path[0]] + path[1..] && q == [q[0]] + q[1..];
        if path <= q {
          assert path[1..] <= q[1..];
          assert q[|path|..] == q[1..][|path[1..]|..];
        } else {
          assert !(path[1..] <= q[1..]);
        }
      }
    }
  }

  lemma {:induction false} PutDicts(v: Value, path: Path)
    requires path != [] && DictAt(v, path[..|path| - 1])
    ensures DictAt(Put(v, path, Dict(map[])), path)
    decreases |path|
  {
    if |path| > 1 {
      assert path[..|path| - 1][1..] == path[1..][..|path| - 2];
      PutDicts(v.m[path[0]], path[1..]);
    }
  }

  lemma {:induction false} DictReadsNothing(v: Value, path: Path, k: nat)
    requires DictAt(v, path) && k <= |path|
    ensures DictAt(v, path[..k]) && Read(v, path[..k]).None?
    decreases |path|
  {
    if k > 0 {
      DictReadsNothing(v.m[path[0]], path[1..], k - 1);
      assert path[..k][1..] == path[1..][..k - 1];
    }
  }

  // Whether the map that path leads to, if all but its last map exist, is a nested map.
  predicate HasDict(v: Value, path: Path)
    requires path != [] && DictAt(v, path[..|path| - 1])
    decreases |path|
  {
    if |path| == 1 then path[0] in v.m && v.m[path[0]].Dict?
    else
      assert path[..|path| - 1][1..] == path[1..][..|path| - 2];
      HasDict(v.m[path[0]], path[1..])
  }

  lemma {:induction false} HasDictIs(v: Value, path: Path)
    requires path != [] && DictAt(v, path[..|path| - 1])
    ensures HasDict(v, path) <==> DictAt(v, path)
    ensures !HasDict(v, path) ==> forall q :: path < q ==> Read(v, q).None?
    decreases |path|
  {
    if |path| > 1 {
      assert path[..|path| - 1][1..] == path[1..][..|path| - 2];
      HasDictIs(v.m[path[0]], path[1..]);
      if !HasDict(v, path) {
        forall q | path < q ensures Read(v, q).None? {
          assert path[1..] < q[1..];
        }
      }
    }
  }

  // What reading q gives after path has been set in a structure that read old.
  function AfterSet(old_: Option<string>, q: Path, path: Path, value: string): Option<string> {
    if q == path then Some(value)
    else if q <= path || path <= q then None
    else old_
  }

  class Overlay {
    var root: Value

    constructor ()
      ensures root == Dict(map[])
    {
      root := Dict(map[]);
    }

    /** setEnvPath: the value is readable at path, prefixes and extensions of
        path are not, and every other path reads as before. */
    method SetEnvPath(path: Path, value: string)
      requires path != [] && root.Dict?
      modifies this
      ensures root.Dict?
      ensures forall q :: Read(root, q) == AfterSet(old(Read(root, q)), q, path, value)
    {
      ghost var start := root;
      for i := 0 to |path| - 1
        invariant DictAt(root, path[..i])
        invariant forall q :: Read(root, q) == if q <= path[..i] then None else Read(start, q)
      {
        var here := path[..i + 1];
        assert here[..|here| - 1] == path[..i];
        HasDictIs(root, here);
        ghost var before := root;
        if !HasDict(root, here) {
          root := Put(root, here, Dict(map[]));
          PutDicts(before, here);
        }
        forall q ensures Read(root, q) == if q <= here then None else Read(start, q) {
          StepReads(before, root, here, q);
          assert q <= here <==> q == here || q <= path[..i];
        }
      }
      ghost var before := root;
      root := Put(root, path, Str(value));
      forall q ensures Read(root, q) == AfterSet(Read(start, q), q, path, value) {
        PutReads(before, path, Str(value), q);
        assert q <= path <==> q == path || q <= path[..|path| - 1];
      }
    }
  }

  // One turn of the descent: a missing or scalar entry becomes an empty map.
  lemma StepReads(v: Value, v': Value, path: Path, q: Path)
    requires path != [] && DictAt(v, path[..|path| - 1])
    requires v' == if HasDict(v, path) then v else Put(v, path, Dict(map[]))
    ensures Read(v', q) == if q == path then None else Read(v, q)
  {
    HasDictIs(v, path);
    if HasDict(v, path) {
      DictReadsNothing(v, path, |path|);
      assert path[..|path|] == path;
    } else {
      PutReads(v, path, Dict(map[]), q);
    }
  }

  // ---------- loadEnvOverrides ----------

  // strings.IndexByte(entry, '=')
  function IndexEq(s: string): (i: int)
    ensures -1 <= i < |s|
    ensures i >= 0 ==> s[i] == '=' && '=' !in s[..i]
    ensures i < 0 ==> '=' !in s
  {
    if s == "" then -1
    else if s[0] == '=' then 0
    else
      var i := IndexEq(s[1..]);
      if i < 0 then -1 else i + 1
  }

  // The entries "NAME=value" whose name extends the prefix.
  predicate Relevant(entry: string, prefix: string) {
    var eq := IndexEq(entry);
    eq > 0 && prefix <= entry[..eq] && entry[..eq] != prefix
  }

  // The last entry of a name counts.
  function Values(environ: seq<string>, prefix: string): map<string, string> {
    if environ == [] then map[]
    else
      var before := Values(environ[..|environ| - 1], prefix);
      var entry := environ[|environ| - 1];
      if Relevant(entry, prefix) then before[entry[..IndexEq(entry)] := entry[IndexEq(entry) + 1..]] else before
  }

  lemma {:induction false} NamesExtendPrefix(environ: seq<string>, prefix: string, name: string)
    requires name in Values(environ, prefix)
    ensures prefix <= name && name != prefix
  {
    if name !in Values(environ[..|environ| - 1], prefix) {
      assert Relevant(environ[|environ| - 1], prefix);
    } else {
      NamesExtendPrefix(environ[..|environ| - 1], prefix, name);
    }
  }

  function TokensOf(name: string, prefix: string): seq<string> {
    NonEmpty(Split(Lower(if prefix <= name then name[|prefix|..] else name)))
  }

  // The name's search comes back with path, settable.
  predicate ResolvesTo(schema: EnvNode, prefix: string, name: string, path: Path)
    requires WellFormed(schema)
  {
    path != [] && First(Walks(schema, TokensOf(name, prefix), true)) == Some(path)
  }

  lemma ResolvedIsSettable(schema: EnvNode, prefix: string, name: string, path: Path)
    requires WellFormed(schema) && ResolvesTo(schema, prefix, name, path)
    ensures Settable(schema, path)
  {
    ReachesIffListed(schema, TokensOf(name, prefix), true);
    WalkIsValid(schema, TokensOf(name, prefix), path);
  }

  // The last of the names that resolves to path.
  function LastFor(schema: EnvNode, prefix: string, names: seq<string>, path: Path): Option<string>
    requires WellFormed(schema)
  {
    if names == [] then None
    else if ResolvesTo(schema, prefix, names[|names| - 1], path) then Some(names[|names| - 1])
    else LastFor(schema, prefix, names[..|names| - 1], path)
  }

  lemma {:induction false} LastIsGreatest(schema: EnvNode, prefix: string, names: seq<string>, path: Path)
    requires WellFormed(schema) && Sorted(names)
    ensures match LastFor(schema, prefix, names, path)
            case None => forall n :: n in names ==> !ResolvesTo(schema, prefix, n, path)
            case Some(w) => w in names && ResolvesTo(schema, prefix, w, path)
                            && forall n :: n in names && ResolvesTo(schema, prefix, n, path) ==> AtMost(n, w)
  {
    if names != [] {
      var last := names[|names| - 1];
      if ResolvesTo(schema, prefix, last, path) {
        forall n | n in names ensures AtMost(n, last) {
          AtMostTotal(n, n);
          var i :| 0 <= i < |names| && names[i] == n;
        }
      } else {
        LastIsGreatest(schema, prefix, names[..|names| - 1], path);
      }
    }
  }

  lemma {:induction false} LastForIn(schema: EnvNode, prefix: string, names: seq<string>, path: Path)
    requires WellFormed(schema)
    ensures LastFor(schema, prefix, names, path).Some? ==>
              var w := LastFor(schema, prefix, names, path).value;
              w in names && ResolvesTo(schema, prefix, w, path)
  {
    if names != [] {
      LastForIn(schema, prefix, names[..|names| - 1], path);
    }
  }

  // What an overlay reads after the given names have been laid over it in turn.
  ghost predicate Overlaid(root: Value, schema: EnvNode, prefix: string, names: seq<string>,
      values: map<string, string>)
    requires WellFormed(schema)
    requires forall n :: n in names ==> n in values
  {
    forall p :: Read(root, p) == match LastFor(schema, prefix, names, p)
                                 case None => None
                                 case Some(w) => (LastForIn(schema, prefix, names, p); Some(values[w]))
  }

  // Setting one more path destroys no other override, because the settable
  // paths of one schema are prefix-free.
  lemma OverlayStep(root: Value, root': Value, schema: EnvNode, prefix: string, names: seq<string>, name: string,
                    values: map<string, string>, path: Path)
    requires WellFormed(schema) && name in values && forall n :: n in names ==> n in values
    requires Overlaid(root, schema, prefix, names, values)
    requires ResolvesTo(schema, prefix, name, path)
    requires forall q :: Read(root', q) == AfterSet(Read(root, q), q, path, values[name])
    ensures Overlaid(root', schema, prefix, names + [name], values)
  {
    assert (names + [name])[..|names|] == names;
    forall p ensures Read(root', p) == match LastFor(schema, prefix, names + [name], p)
                                       case None => None
                                       case Some(w) => (LastForIn(schema, prefix, names + [name], p); Some(values[w])) {
      LastForIn(schema, prefix, names, p);
      if p != path && LastFor(schema, prefix, names, p).Some? {
        ResolvedIsSettable(schema, prefix, name, path);
        ResolvedIsSettable(schema, prefix, LastFor(schema, prefix, names, p).value, p);
        if p <= path {
          SettablePrefixFree(schema, p, path);
        }
        if path <= p {
          SettablePrefixFree(schema, path, p);
        }
      }
    }
  }

  lemma OverlaySkip(root: Value, schema: EnvNode, prefix: string, names: seq<string>, name: string,
      values: map<string, string>)
    requires WellFormed(schema) && name in values && forall n :: n in names ==> n in values
    requires Overlaid(root, schema, prefix, names, values)
    requires forall p :: !ResolvesTo(schema, prefix, name, p)
    ensures Overlaid(root, schema, prefix, names + [name], values)
  {
    assert (names + [name])[..|names|] == names;
  }

  // Collect the relevant variables of the environment.
  method Collect(environ: seq<string>, prefix: string) returns (names: seq<string>, values: map<string, string>)
    ensures values == Values(environ, prefix)
    ensures NoDup(names) && forall n :: n in names <==> n in values
  {
    names, values := [], map[];
    for i := 0 to |environ|
      invariant values == Values(environ[..i], prefix)
      invariant NoDup(names) && forall n :: n in names <==> n in values
    {
      assert environ[..i + 1][..i] == environ[..i];
      var entry := environ[i];
      var eq := IndexEq(entry);
      if eq <= 0 {
        continue;
      }
      var name := entry[..eq];
      if !(prefix <= name) || name == prefix {
        continue;
      }
      if name !in values {
        names := names + [name];
      }
      values := values[name := entry[eq + 1..]];
    }
    assert environ[..|environ|] == environ;
  }

  // A variable that names a section, with the section.
  datatype Warning = Warning(name: string, section: Path)

  predicate Warns(schema: EnvNode, prefix: string, name: string, section: Path)
    requires WellFormed(schema)
  {
    var tokens := TokensOf(name, prefix);
    section != [] && Walks(schema, tokens, true) == [] && First(Walks(schema, tokens, false)) == Some(section)
  }

  // One variable: it sets the path it resolves to, or names a section, or nothing.
  method Override(overlay: Overlay, schema: EnvNode, prefix: string, ghost names: seq<string>, name: string,
      values: map<string, string>) returns (section: Option<Path>)
    requires WellFormed(schema) && name in values && (forall n :: n in names ==> n in values)
    requires overlay.root.Dict? && prefix <= name && name != prefix
    requires Overlaid(overlay.root, schema, prefix, names, values)
    modifies overlay
    ensures overlay.root.Dict? && Overlaid(overlay.root, schema, prefix, names + [name], values)
    ensures forall p :: Warns(schema, prefix, name, p) <==> section == Some(p)
  {
    section := None;
    var tokens := EnvTokens(name[|prefix|..]);
    var path, settable := Resolve(schema, tokens);
    ghost var before := overlay.root;
    if path.None? || path.value == [] {
      OverlaySkip(before, schema, prefix, names, name, values);
      return;
    }
    if !settable {
      OverlaySkip(before, schema, prefix, names, name, values);
      return path;
    }
    overlay.SetEnvPath(path.value, values[name]);
    OverlayStep(before, overlay.root, schema, prefix, names, name, values, path.value);
  }

  /** loadEnvOverrides: reading any path back gives the value of the greatest
      variable name that resolves to it, a path no variable resolves to stays
      unset, and exactly the variables that name a section are warned about. */
  method LoadEnvOverrides(environ: seq<string>, prefix: string, schema: EnvNode)
    returns (overlay: Overlay, warnings: seq<Warning>)
    requires WellFormed(schema)
    ensures fresh(overlay)
    ensures forall p :: (forall n :: n in Values(environ, prefix) ==> !ResolvesTo(schema, prefix, n, p)) ==>
                          Read(overlay.root, p) == None
    ensures forall p, n :: n in Values(environ, prefix) && ResolvesTo(schema, prefix, n, p)
                           && (forall m :: m in Values(environ, prefix) && ResolvesTo(schema, prefix, m, p) ==>
                                AtMost(m, n)) ==>
                             Read(overlay.root, p) == Some(Values(environ, prefix)[n])
    ensures forall n, section :: Warning(n, section) in warnings <==>
                                 n in Values(environ, prefix) && Warns(schema, prefix, n, section)
  {
    var found, values := Collect(environ, prefix);
    var names := SortStrings(found);
    forall n ensures n in names <==> n in values {
      SameElements(names, found, n);
    }
    overlay := new Overlay();
    warnings := [];
    assert Overlaid(overlay.root, schema, prefix, names[..0], values);
    for i := 0 to |names|
      invariant fresh(overlay) && overlay.root.Dict?
      invariant Overlaid(overlay.root, schema, prefix, names[..i], values)
      invariant forall n, section :: Warning(n, section) in warnings <==>
                  n in names[..i] && Warns(schema, prefix, n, section)
    {
      assert names[..i + 1] == names[..i] + [names[i]];
      NamesExtendPrefix(environ, prefix, names[i]);
      var section := Override(overlay, schema, prefix, names[..i], names[i], values);
      if section.Some? {
        warnings := warnings + [Warning(names[i], section.value)];
      }
    }
    assert names[..|names|] == names;
    OverlayMeans(overlay.root, schema, prefix, names, values);
  }

  lemma OverlayMeans(root: Value, schema: EnvNode, prefix: string, names: seq<string>, values: map<string, string>)
    requires WellFormed(schema) && Sorted(names) && forall n :: n in names <==> n in values
    requires Overlaid(root, schema, prefix, names, values)
    ensures forall p :: (forall n :: n in values ==> !ResolvesTo(schema, prefix, n, p)) ==> Read(root, p) == None
    ensures forall p, n :: n in values && ResolvesTo(schema, prefix, n, p)
                           && (forall m :: m in values && ResolvesTo(schema, prefix, m, p) ==> AtMost(m, n)) ==>
                             Read(root, p) == Some(values[n])
  {
    forall p ensures (forall n :: n in values ==> !ResolvesTo(schema, prefix, n, p)) ==> Read(root, p) == None {
      LastIsGreatest(schema, prefix, names, p);
    }
    forall p, n | n in values && ResolvesTo(schema, prefix, n, p)
                  && (forall m :: m in values && ResolvesTo(schema, prefix, m, p) ==> AtMost(m, n))
      ensures Read(root, p) == Some(values[n])
    {
      LastIsGreatest(schema, prefix, names, p);
      AtMostTotal(n, LastFor(schema, prefix, names, p).value);
    }
  }
}
