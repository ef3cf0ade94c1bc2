/**
  What a user relies on: MYAPP_SERVER_PORT reaches server.port (config/config.go).
  Capitals are defined here on their own, from the characters.
 */
module EnvCase {
  import opened Util
  import opened Sorting
  import opened EnvKeys
  import opened EnvSchema
  import opened EnvWalks
  import opened EnvOverlay

  function UpperChar(c: char): char {
    if 'a' <= c <= 'z' then (c as int - 'a' as int + 'A' as int) as char else c
  }

  function Upper(s: string): (r: string)
    ensures |r| == |s| && forall i :: 0 <= i < |s| ==> r[i] == UpperChar(s[i])
    ensures forall i :: 0 <= i < |s| && 'a' <= s[i] <= 'z' ==> 'A' <= r[i] <= 'Z' && r[i] as int + 32 == s[i] as int
  {
    seq(|s|, i requires 0 <= i < |s| => UpperChar(s[i]))
  }

  predicate IsSmall(c: char) {
    'a' <= c <= 'z' || '0' <= c <= '9'
  }

  // A field name of small letters and digits.
  predicate IsPlain(name: string) {
    name != "" && forall i :: 0 <= i < |name| ==> IsSmall(name[i])
  }

  predicate ArePlain(names: seq<string>) {
    forall i :: 0 <= i < |names| ==> IsPlain(names[i])
  }

  lemma LowerUndoesUpper(s: string)
    requires forall i :: 0 <= i < |s| ==> IsSmall(s[i]) || s[i] == '_'
    ensures Lower(Upper(s)) == s
  {}

  lemma {:induction false} JoinedChars(names: seq<string>)
    requires ArePlain(names)
    ensures forall c :: c in Join(names, "_") ==> IsSmall(c) || c == '_'
  {
    if |names| > 1 {
      JoinedChars(names[1..]);
      assert IsPlain(names[0]) && Join(names, "_") == names[0] + "_" + Join(names[1..], "_");
    } else if |names| == 1 {
      assert IsPlain(names[0]);
    }
  }

  lemma {:induction false} PlainAreNonEmpty(names: seq<string>)
    requires ArePlain(names)
    ensures NonEmpty(names) == names
  {
    if names != [] {
      PlainAreNonEmpty(names[1..]);
    }
  }

  /** A name made of fields, in capitals and joined by underscores, is cut into
      exactly these fields. */
  lemma CapitalsAreCut(prefix: string, names: seq<string>)
    requires names != [] && ArePlain(names)
    ensures TokensOf(prefix + Upper(Join(names, "_")), prefix) == names
  {
    var s := Join(names, "_");
    assert (prefix + Upper(s))[|prefix|..] == Upper(s);
    JoinedChars(names);
    assert forall i :: 0 <= i < |s| ==> s[i] in s;
    LowerUndoesUpper(s);
    JoinSplits(names);
    PlainAreNonEmpty(names);
  }

  // No fields below it, and not a map.
  predicate IsPlainField(n: EnvNode) {
    n.Node? && n.children == map[] && !n.dynamic
  }

  // The fields are declared one below the other, and the last is a leaf.
  predicate IsField(n: EnvNode, names: seq<string>)
    decreases |names|
  {
    if names == [] then IsPlainField(n)
    else n.Node? && names[0] in n.children && IsField(n.children[names[0]], names[1..])
  }

  lemma {:induction false} FieldIsWalk(n: EnvNode, names: seq<string>)
    requires IsField(n, names)
    ensures IsWalk(n, names, names) && EndsAs(n, names, true)
    decreases |names|
  {
    if names != [] {
      FieldIsWalk(n.children[names[0]], names[1..]);
      assert names[..1] == [names[0]];
      assert Takes(n, names[0], names, 1) && IsWalk(Next(n, names[0]), names[1..], names[1..]);
    }
  }

  /** The variable of a declared leaf, at any depth, resolves to a settable path that
      spells the same name. */
  lemma CapitalsReachFields(schema: EnvNode, prefix: string, names: seq<string>) returns (path: Path)
    requires WellFormed(schema) && names != [] && ArePlain(names) && IsField(schema, names)
    ensures ResolvesTo(schema, prefix, prefix + Upper(Join(names, "_")), path) && Settable(schema, path)
    ensures Norm(Concat(path)) == Norm(Concat(names))
  {
    CapitalsAreCut(prefix, names);
    FieldIsWalk(schema, names);
    assert Reaches(schema, names, true);
    ReachesIffListed(schema, names, true);
    path := Walks(schema, names, true)[0];
    InWalks(schema, names, true, path);
    ResolvedIsSettable(schema, prefix, prefix + Upper(Join(names, "_")), path);
    WalkSpells(schema, names, path);
  }

  /** A leaf field of the schema itself is reached by its own name in capitals. */
  lemma CapitalsReachField(schema: EnvNode, prefix: string, name: string)
    requires WellFormed(schema) && IsPlain(name) && name in schema.children
    requires IsPlainField(schema.children[name])
    ensures ResolvesTo(schema, prefix, prefix + Upper(name), [name])
  {
    CapitalsAreCut(prefix, [name]);
    assert [name][..1] == [name] && [name][1..] == [];
    var here := NameWalks(schema, Match(schema, [name]), [], true);
    ExactComesFirst(schema, [name], name);
    assert Walks(schema.children[name], [], true) == [[]];
    assert Prefixed(name, [[]])[0] == [name] + [];
    assert here[0] == [name];
    ChildWalksUnfold(schema, [name], 1, true);
    WalksSplit(schema, [name]);
  }

  lemma OnlyValue(prefix: string, name: string, value: string)
    requires '=' !in prefix && IsPlain(name)
    ensures Values([prefix + Upper(name) + "=" + value], prefix) == map[prefix + Upper(name) := value]
  {
    var variable := prefix + Upper(name);
    var entry := variable + "=" + value;
    assert '=' !in variable;
    assert entry[|variable|] == '=';
    assert IndexEq(entry) == |variable|;
    assert entry[..|variable|] == variable && entry[|variable| + 1..] == value && prefix <= variable;
    var environ: seq<string> := [entry];
    assert environ[..0] == [];
  }

  /** PREFIX_NAME=value sets the field name to value. */
  method OneVariable(prefix: string, name: string, value: string, schema: EnvNode) returns (overlay: Overlay)
    requires WellFormed(schema) && IsPlain(name) && name in schema.children
    requires IsPlainField(schema.children[name])
    requires '=' !in prefix
    ensures Read(overlay.root, [name]) == Some(value)
  {
    var variable := prefix + Upper(name);
    CapitalsReachField(schema, prefix, name);
    OnlyValue(prefix, name, value);
    AtMostTotal(variable, variable);
    var warnings;
    overlay, warnings := LoadEnvOverrides([variable + "=" + value], prefix, schema);
  }

  lemma EntryOf(entry: string, prefix: string)
    requires Relevant(entry, prefix)
    ensures var eq := IndexEq(entry);
            && entry == entry[..eq] + "=" + entry[eq + 1..]
            && (forall name :: '=' !in name && name + "=" <= entry ==> name == entry[..eq])
  {
    var eq := IndexEq(entry);
    assert entry == entry[..eq] + [entry[eq]] + entry[eq + 1..];
    forall name | '=' !in name && name + "=" <= entry ensures name == entry[..eq] {
      NameIsBeforeEq(entry, name);
    }
  }

  lemma NameIsBeforeEq(entry: string, name: string)
    requires '=' !in name && name + "=" <= entry
    ensures IndexEq(entry) == |name| && entry[..|name|] == name
  {
    assert (name + "=")[|name|] == entry[|name|];
    assert entry[..|name|] == name;
    var eq := IndexEq(entry);
    assert forall k :: 0 <= k < |name| ==> entry[k] == name[k];
    assert forall k :: 0 <= k < eq ==> entry[k] == entry[..eq][k];
  }

  /** Which variables count, and with which value: that of the last entry of the
      name, for names that extend the prefix. */
  lemma {:induction false} ValuesAre(environ: seq<string>, prefix: string, name: string)
    ensures name in Values(environ, prefix) <==>
              && '=' !in name && prefix <= name && name != prefix && name != ""
              && exists i :: 0 <= i < |environ| && name + "=" <= environ[i]
    ensures name in Values(environ, prefix) ==>
              exists i :: 0 <= i < |environ| && environ[i] == name + "=" + Values(environ, prefix)[name]
                          && forall j :: i < j < |environ| ==> !(name + "=" <= environ[j])
  {
    if environ == [] {
      return;
    }
    var n := |environ| - 1;
    var front, entry := environ[..n], environ[n];
    ValuesAre(front, prefix, name);
    LastEntry(environ, prefix, name);
    if name in Values(environ, prefix) && !(name + "=" <= entry) {
      var i :| 0 <= i < n && front[i] == name + "=" + Values(front, prefix)[name]
               && forall j :: i < j < n ==> !(name + "=" <= front[j]);
      assert environ[i] == front[i];
      forall j | i < j < |environ| ensures !(name + "=" <= environ[j]) {
        assert j < n ==> environ[j] == front[j];
      }
    }
    assert forall i :: 0 <= i < n ==> environ[i] == front[i];
  }

  // The last entry decides for its own name and for no other.
  lemma LastEntry(environ: seq<string>, prefix: string, name: string)
    requires environ != []
    ensures var front, entry := environ[..|environ| - 1], environ[|environ| - 1];
            var counts := '=' !in name && prefix <= name && name != prefix && name != "";
            if name + "=" <= entry && counts then
              name in Values(environ, prefix) && entry == name + "=" + Values(environ, prefix)[name]
            else
              && (name in Values(environ, prefix) <==> name in Values(front, prefix))
              && (name in Values(front, prefix) ==> Values(environ, prefix)[name] == Values(front, prefix)[name])
  {
    var entry := environ[|environ| - 1];
    if Relevant(entry, prefix) {
      EntryOf(entry, prefix);
    }
    if name + "=" <= entry && '=' !in name {
      NameIsBeforeEq(entry, name);
      assert entry == entry[..|name|] + "=" + entry[|name| + 1..];
    }
  }
}
