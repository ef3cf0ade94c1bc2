/**
  The schema tree of config's environment overrides and the search that maps
  a variable's tokens to a key path (config/config.go).

  Walks lists every way to spell the tokens along the tree, longest prefix
  first; IsWalk says what a walk is without listing anything.  The search is
  proved to return the first walk to a leaf, or failing that the first walk to
  a section, and the list to hold exactly the walks.
 */
module EnvSchema {
  import opened Util
  import opened EnvKeys

  type Path = seq<string>

  datatype EnvNode =
    | Nil
    | Node(
        children: map<string, EnvNode>,
        normalized: map<string, string>,
        dynamic: bool,
        dynamicKey: seq<string>,
        dynamicVal: EnvNode)

  // What buildEnvNode makes: a node has children or is dynamic, not both, and
  // normalized leads from a key's spelling without separators to a child of
  // that spelling.
  ghost predicate WellFormed(n: EnvNode) {
    && n.Node?
    && (forall name :: name in n.children ==> WellFormed(n.children[name]))
    && (forall k :: k in n.normalized ==>
          k != "" && n.normalized[k] in n.children && Norm(n.normalized[k]) == k)
    && (n.dynamic ==> n.children == map[] && n.dynamicVal.Node? && WellFormed(n.dynamicVal))
  }

  predicate IsLeaf(n: EnvNode) {
    n.Nil? || (n.children == map[] && !n.dynamic)
  }

  // match
  function Match(n: EnvNode, tokens: seq<string>): (out: seq<string>)
    requires n.Node?
  {
    if n.children == map[] then []
    else
      var joined := Join(tokens, "_");
      var norm := Norm(Join(tokens, ""));
      var exact := if joined in n.children then [joined] else [];
      if norm in n.normalized && (exact == [] || exact[0] != n.normalized[norm])
      then exact + [n.normalized[norm]] else exact
  }

  // The keys of a dynamic node that spell the tokens.
  function KeyMatch(keys: seq<string>, want: string): seq<string> {
    if keys == [] then []
    else (if Norm(keys[0]) == want then [keys[0]] else []) + KeyMatch(keys[1..], want)
  }

  // ---------- the reference: all walks, in order ----------

  function Prefixed(name: string, walks: seq<Path>): (r: seq<Path>)
    ensures |r| == |walks| && forall i :: 0 <= i < |walks| ==> r[i] == [name] + walks[i]
  {
    seq(|walks|, i requires 0 <= i < |walks| => [name] + walks[i])
  }

  // All walks of tokens from n that end in a leaf, or in a section.
  function Walks(n: EnvNode, tokens: seq<string>, leaf: bool): seq<Path>
    requires WellFormed(n)
    decreases n, 3, 0
  {
    if tokens == [] then (if IsLeaf(n) == leaf then [[]] else [])
    else ChildWalks(n, tokens, |tokens|, leaf) + KeyWalks(n, tokens, |tokens|, leaf) + NewKeyWalks(n, tokens, leaf)
  }

  // Those whose first segment is a child and takes at most i tokens.
  function ChildWalks(n: EnvNode, tokens: seq<string>, i: nat, leaf: bool): seq<Path>
    requires WellFormed(n) && i <= |tokens|
    decreases n, 2, i
  {
    if i == 0 then []
    else NameWalks(n, Match(n, tokens[..i]), tokens[i..], leaf) + ChildWalks(n, tokens, i - 1, leaf)
  }

  function NameWalks(n: EnvNode, names: seq<string>, rest: seq<string>, leaf: bool): seq<Path>
    requires WellFormed(n)
    decreases n, 1, |names|
  {
    if names == [] then []
    else
      (if names[0] in n.children then Prefixed(names[0], Walks(n.children[names[0]], rest, leaf)) else [])
      + NameWalks(n, names[1..], rest, leaf)
  }

  // Those whose first segment is a known key of a dynamic node.
  function KeyWalks(n: EnvNode, tokens: seq<string>, i: nat, leaf: bool): seq<Path>
    requires WellFormed(n) && i <= |tokens|
    decreases n, 2, i
  {
    if i == 0 || !n.dynamic then []
    else
      DynWalks(n, KeyMatch(n.dynamicKey, Norm(Join(tokens[..i], ""))), tokens[i..], leaf)
      + KeyWalks(n, tokens, i - 1, leaf)
  }

  function DynWalks(n: EnvNode, keys: seq<string>, rest: seq<string>, leaf: bool): seq<Path>
    requires WellFormed(n) && n.dynamic
    decreases n, 1, |keys|
  {
    if keys == [] then []
    else Prefixed(keys[0], Walks(n.dynamicVal, rest, leaf)) + DynWalks(n, keys[1..], rest, leaf)
  }

  // A key the map does not have yet, spelled by all tokens.
  function NewKeyWalks(n: EnvNode, tokens: seq<string>, leaf: bool): seq<Path>
    requires n.Node?
  {
    if leaf && n.dynamic && IsLeaf(n.dynamicVal) then [[Join(tokens, ".")]] else []
  }

  function First(walks: seq<Path>): Option<Path> {
    if walks == [] then None else Some(walks[0])
  }

  function OrElse(a: Option<Path>, b: Option<Path>): Option<Path> {
    if a.Some? then a else b
  }

  function Under(name: string, path: Option<Path>): Option<Path> {
    if path.Some? then Some([name] + path.value) else None
  }

  lemma FirstAppend(a: seq<Path>, b: seq<Path>)
    ensures First(a + b) == OrElse(First(a), First(b))
  {}

  // ---------- the search ----------

  // What a search of walks has to return.
  ghost predicate Found(path: Option<Path>, settable: bool, leaves: seq<Path>, sections: seq<Path>) {
    && (settable <==> leaves != [])
    && path == if settable then First(leaves) else First(sections)
  }

  method Resolve(n: EnvNode, tokens: seq<string>) returns (path: Option<Path>, settable: bool)
    requires WellFormed(n)
    ensures Found(path, settable, Walks(n, tokens, true), Walks(n, tokens, false))
    decreases n, 1
  {
    if |tokens| == 0 {
      return Some([]), IsLeaf(n);
    }
    path, settable := ResolveChildren(n, tokens);
    WalksSplit(n, tokens);
    if settable || !n.dynamic {
      return;
    }
    NoChildWalks(n, tokens, |tokens|);
    path, settable := ResolveKeys(n, tokens);
    if settable || path.Some? {
      if path.Some? && !settable && IsLeaf(n.dynamicVal) {
        LeafValueHasNoSections(n, tokens, |tokens|);
      }
      return;
    }
    if IsLeaf(n.dynamicVal) {
      return Some([Join(tokens, ".")]), true;
    }
  }

  // The loop over declared children, longest prefix first.
  method ResolveChildren(n: EnvNode, tokens: seq<string>) returns (path: Option<Path>, settable: bool)
    requires WellFormed(n)
    ensures Found(path, settable, ChildWalks(n, tokens, |tokens|, true), ChildWalks(n, tokens, |tokens|, false))
    decreases n, 0, |tokens| + 3
  {
    var section: Option<Path> := None;
    var i := |tokens|;
    while i >= 1
      invariant 0 <= i <= |tokens|
      invariant First(ChildWalks(n, tokens, |tokens|, true)) == First(ChildWalks(n, tokens, i, true))
      invariant First(ChildWalks(n, tokens, |tokens|, false)) == OrElse(section, First(ChildWalks(n, tokens, i, false)))
    {
      var names := Match(n, tokens[..i]);
      MatchAreChildren(n, tokens[..i]);
      FirstAppend(NameWalks(n, names, tokens[i..], true), ChildWalks(n, tokens, i - 1, true));
      FirstAppend(NameWalks(n, names, tokens[i..], false), ChildWalks(n, tokens, i - 1, false));
      var sub, ok := ResolveNames(n, names, tokens[i..]);
      if ok {
        return sub, true;
      }
      if section.None? {
        section := sub;
      }
      i := i - 1;
    }
    return section, false;
  }

  method ResolveNames(n: EnvNode, names: seq<string>, rest: seq<string>) returns (path: Option<Path>, settable: bool)
    requires WellFormed(n) && forall k :: 0 <= k < |names| ==> names[k] in n.children
    ensures Found(path, settable, NameWalks(n, names, rest, true), NameWalks(n, names, rest, false))
    decreases n, 0, 0
  {
    var section: Option<Path> := None;
    assert names[0..] == names;
    for k := 0 to |names|
      invariant First(NameWalks(n, names, rest, true)) == First(NameWalks(n, names[k..], rest, true))
      invariant First(NameWalks(n, names, rest, false)) == OrElse(section, First(NameWalks(n, names[k..], rest, false)))
    {
      NameStep(n, names, k, rest, true);
      NameStep(n, names, k, rest, false);
      var sub, ok := Resolve(n.children[names[k]], rest);
      if sub.Some? {
        if ok {
          return Some([names[k]] + sub.value), true;
        }
        if section.None? {
          section := Some([names[k]] + sub.value);
        }
      }
    }
    return section, false;
  }

  // The loop over the keys a dynamic node already has, longest prefix first.
  method ResolveKeys(n: EnvNode, tokens: seq<string>) returns (path: Option<Path>, settable: bool)
    requires WellFormed(n) && n.dynamic
    ensures Found(path, settable, KeyWalks(n, tokens, |tokens|, true), KeyWalks(n, tokens, |tokens|, false))
    decreases n, 0, |tokens| + 3
  {
    var section: Option<Path> := None;
    var i := |tokens|;
    while i >= 1
      invariant 0 <= i <= |tokens|
      invariant First(KeyWalks(n, tokens, |tokens|, true)) == First(KeyWalks(n, tokens, i, true))
      invariant First(KeyWalks(n, tokens, |tokens|, false)) == OrElse(section, First(KeyWalks(n, tokens, i, false)))
    {
      var want := Norm(Join(tokens[..i], ""));
      FirstAppend(DynWalks(n, KeyMatch(n.dynamicKey, want), tokens[i..], true), KeyWalks(n, tokens, i - 1, true));
      FirstAppend(DynWalks(n, KeyMatch(n.dynamicKey, want), tokens[i..], false), KeyWalks(n, tokens, i - 1, false));
      var sub, ok := ResolveSpelled(n, want, tokens[i..]);
      if ok {
        return sub, true;
      }
      if section.None? {
        section := sub;
      }
      i := i - 1;
    }
    return section, false;
  }

  method ResolveSpelled(n: EnvNode, want: string, rest: seq<string>) returns (path: Option<Path>, settable: bool)
    requires WellFormed(n) && n.dynamic
    ensures Found(path, settable, DynWalks(n, KeyMatch(n.dynamicKey, want), rest, true),
                  DynWalks(n, KeyMatch(n.dynamicKey, want), rest, false))
    decreases n, 0, 0
  {
    var section: Option<Path> := None;
    ghost var keys := KeyMatch(n.dynamicKey, want);
    assert n.dynamicKey[0..] == n.dynamicKey;
    for k := 0 to |n.dynamicKey|
      invariant First(DynWalks(n, keys, rest, true)) ==
                  First(DynWalks(n, KeyMatch(n.dynamicKey[k..], want), rest, true))
      invariant First(DynWalks(n, keys, rest, false)) ==
                OrElse(section, First(DynWalks(n, KeyMatch(n.dynamicKey[k..], want), rest, false)))
    {
      var key := n.dynamicKey[k];
      KeyStep(n, k, want, rest, true);
      KeyStep(n, k, want, rest, false);
      if Norm(key) == want {
        var sub, ok := Resolve(n.dynamicVal, rest);
        if sub.Some? {
          if ok {
            return Some([key] + sub.value), true;
          }
          if section.None? {
            section := Some([key] + sub.value);
          }
        }
      }
    }
    return section, false;
  }

  lemma MatchAreChildren(n: EnvNode, tokens: seq<string>)
    requires WellFormed(n)
    ensures forall k :: 0 <= k < |Match(n, tokens)| ==> Match(n, tokens)[k] in n.children
  {}

  lemma NameStep(n: EnvNode, names: seq<string>, k: nat, rest: seq<string>, leaf: bool)
    requires WellFormed(n) && k < |names| && names[k] in n.children
    ensures First(NameWalks(n, names[k..], rest, leaf)) ==
            OrElse(Under(names[k], First(Walks(n.children[names[k]], rest, leaf))),
              First(NameWalks(n, names[k + 1..], rest, leaf)))
  {
    assert names[k..][1..] == names[k + 1..];
    FirstAppend(Prefixed(names[k], Walks(n.children[names[k]], rest, leaf)), NameWalks(n, names[k + 1..], rest, leaf));
  }

  lemma KeyStep(n: EnvNode, k: nat, want: string, rest: seq<string>, leaf: bool)
    requires WellFormed(n) && n.dynamic && k < |n.dynamicKey|
    ensures First(DynWalks(n, KeyMatch(n.dynamicKey[k..], want), rest, leaf)) ==
            OrElse(if Norm(n.dynamicKey[k]) == want then Under(n.dynamicKey[k], First(Walks(n.dynamicVal, rest, leaf)))
                   else None,
                   First(DynWalks(n, KeyMatch(n.dynamicKey[k + 1..], want), rest, leaf)))
  {
    var key := n.dynamicKey[k];
    var later := KeyMatch(n.dynamicKey[k + 1..], want);
    assert n.dynamicKey[k..][1..] == n.dynamicKey[k + 1..];
    if Norm(key) == want {
      assert ([key] + later)[1..] == later;
      FirstAppend(Prefixed(key, Walks(n.dynamicVal, rest, leaf)), DynWalks(n, later, rest, leaf));
    } else {
      assert [] + later == later;
    }
  }

  lemma WalksSplit(n: EnvNode, tokens: seq<string>)
    requires WellFormed(n) && tokens != []
    ensures forall leaf :: Walks(n, tokens, leaf) ==
                           ChildWalks(n, tokens, |tokens|, leaf) + KeyWalks(n, tokens, |tokens|, leaf) +
                             NewKeyWalks(n, tokens, leaf)
  {}

  lemma {:induction false} NoChildWalks(n: EnvNode, tokens: seq<string>, i: nat)
    requires WellFormed(n) && n.dynamic && i <= |tokens|
    ensures forall leaf :: ChildWalks(n, tokens, i, leaf) == []
  {
    if i > 0 {
      NoChildWalks(n, tokens, i - 1);
    }
  }

  lemma {:induction false} LeafValueHasNoSections(n: EnvNode, tokens: seq<string>, i: nat)
    requires WellFormed(n) && n.dynamic && i <= |tokens| && IsLeaf(n.dynamicVal)
    ensures KeyWalks(n, tokens, i, false) == []
  {
    if i > 0 {
      LeafValueHasNoSections(n, tokens, i - 1);
      LeafHasNoSections(n, KeyMatch(n.dynamicKey, Norm(Join(tokens[..i], ""))), tokens[i..]);
    }
  }

  lemma {:induction false} LeafHasNoSections(n: EnvNode, keys: seq<string>, rest: seq<string>)
    requires WellFormed(n) && n.dynamic && IsLeaf(n.dynamicVal)
    ensures DynWalks(n, keys, rest, false) == []
  {
    if keys != [] {
      LeafHasNoSections(n, keys[1..], rest);
      NoWalksBelowLeaf(n.dynamicVal, rest, |rest|);
    }
  }

  lemma {:induction false} NoWalksBelowLeaf(n: EnvNode, tokens: seq<string>, i: nat)
    requires WellFormed(n) && IsLeaf(n) && i <= |tokens|
    ensures ChildWalks(n, tokens, i, false) == []
    ensures i == |tokens| ==> Walks(n, tokens, false) == []
  {
    if i > 0 {
      NoWalksBelowLeaf(n, tokens, i - 1);
    }
  }
}
