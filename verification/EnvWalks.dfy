/**
  What a walk of tokens along a schema tree is, without any search order, and
  what that makes of the search in EnvSchema.
 */
module EnvWalks {
  import opened Util
  import opened EnvKeys
  import opened EnvSchema

  // A declared child that the tokens name exactly or spell up to separators.
  predicate NamesChild(n: EnvNode, seg: string, prefix: seq<string>)
    requires n.Node?
  {
    var norm := Norm(Join(prefix, ""));
    seg in n.children && (seg == Join(prefix, "_") || (norm in n.normalized && n.normalized[norm] == seg))
  }

  // A key the map already has.
  predicate NamesKey(n: EnvNode, seg: string, prefix: seq<string>)
    requires n.Node?
  {
    n.dynamic && seg in n.dynamicKey && Norm(seg) == Norm(Join(prefix, ""))
  }

  function Next(n: EnvNode, seg: string): EnvNode
    requires n.Node?
  {
    if seg in n.children then n.children[seg] else n.dynamicVal
  }

  // The first i tokens stand for the segment.
  predicate Takes(n: EnvNode, seg: string, tokens: seq<string>, i: nat)
    requires n.Node?
  {
    1 <= i <= |tokens| && (NamesChild(n, seg, tokens[..i]) || NamesKey(n, seg, tokens[..i]))
  }

  // A key the map does not have: all tokens, joined by dots.
  predicate NewKey(n: EnvNode, tokens: seq<string>, path: Path)
    requires n.Node?
  {
    n.dynamic && IsLeaf(n.dynamicVal) && tokens != [] && path == [Join(tokens, ".")]
  }

  ghost predicate IsWalk(n: EnvNode, tokens: seq<string>, path: Path)
    decreases |path|
  {
    && n.Node?
    && if path == [] then tokens == []
       else
         || NewKey(n, tokens, path)
         || exists i: nat :: Takes(n, path[0], tokens, i) && IsWalk(Next(n, path[0]), tokens[i..], path[1..])
  }

  // A walk whose first segment takes the first i tokens.
  ghost predicate CutWalk(n: EnvNode, tokens: seq<string>, i: nat, path: Path)
    requires n.Node?
  {
    path != [] && Takes(n, path[0], tokens, i) && IsWalk(Next(n, path[0]), tokens[i..], path[1..])
  }

  // Where a path leads.
  function NodeAt(n: EnvNode, path: Path): EnvNode
    decreases |path|
  {
    if path == [] || n.Nil? then n else NodeAt(Next(n, path[0]), path[1..])
  }

  predicate EndsAs(n: EnvNode, path: Path, leaf: bool) {
    IsLeaf(NodeAt(n, path)) == leaf
  }

  // ---------- the list holds exactly the walks ----------

  lemma InPrefixed(name: string, walks: seq<Path>, path: Path)
    ensures path in Prefixed(name, walks) <==> path != [] && path[0] == name && path[1..] in walks
  {
    var r := Prefixed(name, walks);
    if path in r {
      var i :| 0 <= i < |r| && r[i] == path;
      assert path[1..] == walks[i];
    }
    if path != [] && path[0] == name && path[1..] in walks {
      var i :| 0 <= i < |walks| && walks[i] == path[1..];
      assert r[i] == path;
    }
  }

  lemma InMatch(n: EnvNode, prefix: seq<string>, seg: string)
    requires WellFormed(n)
    ensures seg in Match(n, prefix) <==> NamesChild(n, seg, prefix)
  {}

  lemma {:induction false} InKeyMatch(keys: seq<string>, want: string, seg: string)
    ensures seg in KeyMatch(keys, want) <==> seg in keys && Norm(seg) == want
  {
    if keys != [] {
      InKeyMatch(keys[1..], want, seg);
    }
  }

  // Some cut of at most k tokens starts the walk, with a declared child or with a key.
  ghost predicate CutUpTo(n: EnvNode, tokens: seq<string>, k: nat, path: Path, child: bool)
    requires n.Node?
    decreases k
  {
    k > 0 && (CutUpTo(n, tokens, k - 1, path, child)
              || (CutWalk(n, tokens, k, path) && (path[0] in n.children) == child))
  }

  lemma {:induction false} CutUpToHas(n: EnvNode, tokens: seq<string>, k: nat, path: Path, child: bool)
    requires n.Node? && CutUpTo(n, tokens, k, path, child)
    ensures exists i: nat :: CutWalk(n, tokens, i, path)
  {
    if CutUpTo(n, tokens, k - 1, path, child) {
      CutUpToHas(n, tokens, k - 1, path, child);
    }
  }

  lemma {:induction false} CutIsUpTo(n: EnvNode, tokens: seq<string>, i: nat, k: nat, path: Path)
    requires n.Node? && CutWalk(n, tokens, i, path) && i <= k
    ensures CutUpTo(n, tokens, k, path, path[0] in n.children)
    decreases k
  {
    if i < k {
      CutIsUpTo(n, tokens, i, k - 1, path);
    }
  }

  lemma {:induction false} InWalks(n: EnvNode, tokens: seq<string>, leaf: bool, path: Path)
    requires WellFormed(n)
    ensures path in Walks(n, tokens, leaf) <==> IsWalk(n, tokens, path) && EndsAs(n, path, leaf)
    decreases n, 3, 0
  {
    if tokens != [] {
      InChildWalks(n, tokens, |tokens|, leaf, path);
      InKeyWalks(n, tokens, |tokens|, leaf, path);
      InNewKeyWalks(n, tokens, leaf, path);
      WalkCases(n, tokens, path);
      WalksSplit(n, tokens);
    }
  }

  lemma WalkCases(n: EnvNode, tokens: seq<string>, path: Path)
    requires n.Node? && tokens != []
    ensures IsWalk(n, tokens, path) <==>
            CutUpTo(n, tokens, |tokens|, path, true) || CutUpTo(n, tokens, |tokens|, path, false) ||
              NewKey(n, tokens, path)
  {
    if CutUpTo(n, tokens, |tokens|, path, true) {
      CutUpToHas(n, tokens, |tokens|, path, true);
    }
    if CutUpTo(n, tokens, |tokens|, path, false) {
      CutUpToHas(n, tokens, |tokens|, path, false);
    }
    if IsWalk(n, tokens, path) && !NewKey(n, tokens, path) {
      var i: nat :| Takes(n, path[0], tokens, i) && IsWalk(Next(n, path[0]), tokens[i..], path[1..]);
      CutIsUpTo(n, tokens, i, |tokens|, path);
    }
  }

  lemma InNewKeyWalks(n: EnvNode, tokens: seq<string>, leaf: bool, path: Path)
    requires WellFormed(n) && tokens != []
    ensures path in NewKeyWalks(n, tokens, leaf) <==> NewKey(n, tokens, path) && EndsAs(n, path, leaf)
  {
    if NewKey(n, tokens, path) {
      assert NodeAt(n, path) == NodeAt(Next(n, path[0]), []);
    }
  }

  lemma InCutAt(n: EnvNode, tokens: seq<string>, k: nat, leaf: bool, path: Path)
    requires WellFormed(n) && 0 < k <= |tokens|
    ensures path in NameWalks(n, Match(n, tokens[..k]), tokens[k..], leaf) <==>
            CutWalk(n, tokens, k, path) && path[0] in n.children && EndsAs(n, path, leaf)
    decreases n, 2, k
  {
    InNameWalks(n, Match(n, tokens[..k]), tokens[k..], leaf, path);
    if path != [] {
      InMatch(n, tokens[..k], path[0]);
    }
  }

  lemma ChildWalksUnfold(n: EnvNode, tokens: seq<string>, k: nat, leaf: bool)
    requires WellFormed(n) && 0 < k <= |tokens|
    ensures ChildWalks(n, tokens, k, leaf) ==
            NameWalks(n, Match(n, tokens[..k]), tokens[k..], leaf) + ChildWalks(n, tokens, k - 1, leaf)
  {}

  lemma OneMoreCut(n: EnvNode, tokens: seq<string>, k: nat, leaf: bool, path: Path, here: seq<Path>, later: seq<Path>)
    requires n.Node? && k > 0
    requires path in here <==> CutWalk(n, tokens, k, path) && path[0] in n.children && EndsAs(n, path, leaf)
    requires path in later <==> CutUpTo(n, tokens, k - 1, path, true) && EndsAs(n, path, leaf)
    ensures path in here + later <==> CutUpTo(n, tokens, k, path, true) && EndsAs(n, path, leaf)
  {}

  lemma {:induction false} InChildWalks(n: EnvNode, tokens: seq<string>, k: nat, leaf: bool, path: Path)
    requires WellFormed(n) && k <= |tokens|
    ensures path in ChildWalks(n, tokens, k, leaf) <==> CutUpTo(n, tokens, k, path, true) && EndsAs(n, path, leaf)
    decreases n, 2, k + 1
  {
    if k == 0 {
      return;
    }
    InChildWalks(n, tokens, k - 1, leaf, path);
    InCutAt(n, tokens, k, leaf, path);
    ChildWalksUnfold(n, tokens, k, leaf);
    OneMoreCut(n, tokens, k, leaf, path, NameWalks(n, Match(n, tokens[..k]), tokens[k..], leaf),
      ChildWalks(n, tokens, k - 1, leaf));
  }

  lemma {:induction false} InNameWalks(n: EnvNode, names: seq<string>, rest: seq<string>, leaf: bool, path: Path)
    requires WellFormed(n)
    ensures path in NameWalks(n, names, rest, leaf) <==>
            && path != [] && path[0] in names && path[0] in n.children
            && IsWalk(n.children[path[0]], rest, path[1..]) && EndsAs(n, path, leaf)
    decreases n, 1, |names|
  {
    if names != [] {
      InNameWalks(n, names[1..], rest, leaf, path);
      if names[0] in n.children {
        InPrefixed(names[0], Walks(n.children[names[0]], rest, leaf), path);
        if path != [] && path[0] == names[0] {
          InWalks(n.children[names[0]], rest, leaf, path[1..]);
        }
      }
    }
  }

  lemma {:induction false} InKeyWalks(n: EnvNode, tokens: seq<string>, k: nat, leaf: bool, path: Path)
    requires WellFormed(n) && k <= |tokens|
    ensures path in KeyWalks(n, tokens, k, leaf) <==> CutUpTo(n, tokens, k, path, false) && EndsAs(n, path, leaf)
    decreases n, 2, k
  {
    if k > 0 {
      InKeyWalks(n, tokens, k - 1, leaf, path);
      if n.dynamic {
        var want := Norm(Join(tokens[..k], ""));
        InDynWalks(n, KeyMatch(n.dynamicKey, want), tokens[k..], leaf, path);
        if path != [] {
          InKeyMatch(n.dynamicKey, want, path[0]);
        }
      }
    }
  }

  lemma {:induction false} InDynWalks(n: EnvNode, keys: seq<string>, rest: seq<string>, leaf: bool, path: Path)
    requires WellFormed(n) && n.dynamic
    ensures path in DynWalks(n, keys, rest, leaf) <==>
            path != [] && path[0] in keys && IsWalk(n.dynamicVal, rest, path[1..]) && EndsAs(n, path, leaf)
    decreases n, 1, |keys|
  {
    if keys != [] {
      InDynWalks(n, keys[1..], rest, leaf, path);
      InPrefixed(keys[0], Walks(n.dynamicVal, rest, leaf), path);
      if path != [] && path[0] == keys[0] {
        InWalks(n.dynamicVal, rest, leaf, path[1..]);
      }
    }
  }

  // ---------- soundness and completeness ----------

  // Some walk ends in a leaf, or in a section.
  ghost predicate Reaches(n: EnvNode, tokens: seq<string>, leaf: bool) {
    exists p :: IsWalk(n, tokens, p) && EndsAs(n, p, leaf)
  }

  lemma ReachesIffListed(n: EnvNode, tokens: seq<string>, leaf: bool)
    requires WellFormed(n)
    ensures Reaches(n, tokens, leaf) <==> Walks(n, tokens, leaf) != []
    ensures Walks(n, tokens, leaf) != [] ==>
              IsWalk(n, tokens, Walks(n, tokens, leaf)[0]) && EndsAs(n, Walks(n, tokens, leaf)[0], leaf)
  {
    if Walks(n, tokens, leaf) != [] {
      InWalks(n, tokens, leaf, Walks(n, tokens, leaf)[0]);
    }
    if Reaches(n, tokens, leaf) {
      var p :| IsWalk(n, tokens, p) && EndsAs(n, p, leaf);
      InWalks(n, tokens, leaf, p);
    }
  }

  /** The search says settable exactly when some walk ends in a leaf, and
      reports a section exactly when none does but some walk ends in an
      interior node; what it returns is such a walk. */
  lemma SearchIsExact(n: EnvNode, tokens: seq<string>, path: Option<Path>, settable: bool)
    requires WellFormed(n) && Found(path, settable, Walks(n, tokens, true), Walks(n, tokens, false))
    ensures settable <==> Reaches(n, tokens, true)
    ensures path.Some? && !settable <==> !Reaches(n, tokens, true) && Reaches(n, tokens, false)
    ensures path.Some? ==> IsWalk(n, tokens, path.value) && EndsAs(n, path.value, settable)
  {
    ReachesIffListed(n, tokens, true);
    ReachesIffListed(n, tokens, false);
  }

  // ---------- which walk wins ----------

  // Nothing of the wanted kind starts with a longer cut.
  ghost predicate NoLongerCut(n: EnvNode, tokens: seq<string>, i: nat, leaf: bool)
    requires n.Node?
  {
    forall j: nat, q :: i < j && CutWalk(n, tokens, j, q) ==> !EndsAs(n, q, leaf)
  }

  // The first walk of one cut.
  lemma FirstAtCut(n: EnvNode, tokens: seq<string>, k: nat, leaf: bool)
    requires WellFormed(n) && !n.dynamic && 0 < k <= |tokens|
    requires NameWalks(n, Match(n, tokens[..k]), tokens[k..], leaf) != []
    ensures WinsAt(n, tokens, k, leaf, NameWalks(n, Match(n, tokens[..k]), tokens[k..], leaf)[0])
  {
    var names, p := Match(n, tokens[..k]), NameWalks(n, Match(n, tokens[..k]), tokens[k..], leaf)[0];
    InCutAt(n, tokens, k, leaf, p);
    FirstName(n, names, tokens[k..], leaf);
    forall q | CutWalk(n, tokens, k, q) && EndsAs(n, q, leaf) && IsExact(n, q[0], tokens[..k]) ensures p[0] == q[0] {
      ExactComesFirst(n, tokens[..k], q[0]);
      InWalks(n.children[q[0]], tokens[k..], leaf, q[1..]);
    }
  }

  lemma ExactComesFirst(n: EnvNode, prefix: seq<string>, seg: string)
    requires n.Node? && IsExact(n, seg, prefix)
    ensures Match(n, prefix) != [] && Match(n, prefix)[0] == seg
  {}

  // Among the segments that take the same tokens: a child named exactly goes
  // before one that is spelled, and of several keys spelled alike the first.
  ghost predicate FirstNamed(n: EnvNode, tokens: seq<string>, i: nat, leaf: bool, seg: string)
    requires n.Node? && i <= |tokens|
  {
    && (forall q :: CutWalk(n, tokens, i, q) && EndsAs(n, q, leaf) && IsExact(n, q[0], tokens[..i]) ==> seg == q[0])
    && (n.dynamic ==> FirstSpelled(n.dynamicKey, seg))
  }

  predicate IsExact(n: EnvNode, seg: string, prefix: seq<string>)
    requires n.Node?
  {
    seg in n.children && seg == Join(prefix, "_")
  }

  ghost predicate FirstSpelled(keys: seq<string>, seg: string) {
    exists k :: 0 <= k < |keys| && keys[k] == seg && forall j :: 0 <= j < k ==> Norm(keys[j]) != Norm(seg)
  }

  lemma {:induction false} KeyMatchFirst(keys: seq<string>, want: string)
    requires KeyMatch(keys, want) != []
    ensures FirstSpelled(keys, KeyMatch(keys, want)[0])
  {
    if Norm(keys[0]) != want {
      KeyMatchFirst(keys[1..], want);
      var seg := KeyMatch(keys, want)[0];
      InKeyMatch(keys, want, seg);
      var k :| 0 <= k < |keys[1..]| && keys[1..][k] == seg && forall j :: 0 <= j < k ==>
        Norm(keys[1..][j]) != Norm(seg);
      assert keys[k + 1] == seg;
      forall j | 0 <= j < k + 1 ensures Norm(keys[j]) != Norm(seg) {
        assert j > 0 ==> keys[j] == keys[1..][j - 1];
      }
    } else {
      assert keys[0] == KeyMatch(keys, want)[0];
    }
  }

  // p takes i tokens and goes on with the first walk from there.
  ghost predicate WinsAt(n: EnvNode, tokens: seq<string>, i: nat, leaf: bool, p: Path)
    requires WellFormed(n)
  {
    && CutWalk(n, tokens, i, p)
    && FirstNamed(n, tokens, i, leaf, p[0])
    && WellFormed(Next(n, p[0]))
    && Some(p[1..]) == First(Walks(Next(n, p[0]), tokens[i..], leaf))
  }

  lemma {:induction false} FirstChildCut(n: EnvNode, tokens: seq<string>, k: nat, leaf: bool) returns (i: nat)
    requires WellFormed(n) && !n.dynamic && k <= |tokens|
    requires ChildWalks(n, tokens, k, leaf) != [] && NoLongerCut(n, tokens, k, leaf)
    ensures WinsAt(n, tokens, i, leaf, ChildWalks(n, tokens, k, leaf)[0]) && NoLongerCut(n, tokens, i, leaf)
    decreases k
  {
    ChildWalksUnfold(n, tokens, k, leaf);
    var here := NameWalks(n, Match(n, tokens[..k]), tokens[k..], leaf);
    if here != [] {
      i := k;
      FirstAtCut(n, tokens, k, leaf);
    } else {
      NoCutAt(n, tokens, k, leaf);
      assert here + ChildWalks(n, tokens, k - 1, leaf) == ChildWalks(n, tokens, k - 1, leaf);
      i := FirstChildCut(n, tokens, k - 1, leaf);
    }
  }

  lemma {:induction false} FirstName(n: EnvNode, names: seq<string>, rest: seq<string>, leaf: bool)
    requires WellFormed(n) && NameWalks(n, names, rest, leaf) != []
    ensures var p := NameWalks(n, names, rest, leaf)[0];
            && p != [] && p[0] in n.children && Some(p[1..]) == First(Walks(n.children[p[0]], rest, leaf))
            && (names[0] in n.children && Walks(n.children[names[0]], rest, leaf) != [] ==> p[0] == names[0])
  {
    var here := if names[0] in n.children then Walks(n.children[names[0]], rest, leaf) else [];
    if here != [] {
      assert NameWalks(n, names, rest, leaf)[0] == Prefixed(names[0], here)[0] == [names[0]] + here[0];
    } else {
      assert NameWalks(n, names, rest, leaf) == NameWalks(n, names[1..], rest, leaf);
      FirstName(n, names[1..], rest, leaf);
    }
  }

  lemma NoCutAt(n: EnvNode, tokens: seq<string>, k: nat, leaf: bool)
    requires WellFormed(n) && !n.dynamic && 0 < k <= |tokens| && NoLongerCut(n, tokens, k, leaf)
    requires NameWalks(n, Match(n, tokens[..k]), tokens[k..], leaf) == []
    ensures NoLongerCut(n, tokens, k - 1, leaf)
  {
    forall j: nat, q | k - 1 < j && CutWalk(n, tokens, j, q) ensures !EndsAs(n, q, leaf) {
      if j == k {
        InCutAt(n, tokens, k, leaf, q);
      }
    }
  }

  // The same below a dynamic node, whose keys all lead to the one value node.
  lemma InKeyCutAt(n: EnvNode, tokens: seq<string>, k: nat, leaf: bool, path: Path)
    requires WellFormed(n) && n.dynamic && 0 < k <= |tokens|
    ensures path in DynWalks(n, KeyMatch(n.dynamicKey, Norm(Join(tokens[..k], ""))), tokens[k..], leaf) <==>
            CutWalk(n, tokens, k, path) && EndsAs(n, path, leaf)
  {
    var want := Norm(Join(tokens[..k], ""));
    InDynWalks(n, KeyMatch(n.dynamicKey, want), tokens[k..], leaf, path);
    if path != [] {
      InKeyMatch(n.dynamicKey, want, path[0]);
    }
  }

  lemma FirstKey(n: EnvNode, keys: seq<string>, rest: seq<string>, leaf: bool)
    requires WellFormed(n) && n.dynamic && DynWalks(n, keys, rest, leaf) != []
    ensures var p := DynWalks(n, keys, rest, leaf)[0];
            p != [] && p[0] == keys[0] && Some(p[1..]) == First(Walks(n.dynamicVal, rest, leaf))
  {
    var below := Walks(n.dynamicVal, rest, leaf);
    if below == [] {
      NoKeyWalks(n, keys, rest, leaf);
    } else {
      assert DynWalks(n, keys, rest, leaf)[0] == Prefixed(keys[0], below)[0] == [keys[0]] + below[0];
    }
  }

  lemma {:induction false} NoKeyWalks(n: EnvNode, keys: seq<string>, rest: seq<string>, leaf: bool)
    requires WellFormed(n) && n.dynamic && Walks(n.dynamicVal, rest, leaf) == []
    ensures DynWalks(n, keys, rest, leaf) == []
  {
    if keys != [] {
      NoKeyWalks(n, keys[1..], rest, leaf);
    }
  }

  lemma NoKeyCutAt(n: EnvNode, tokens: seq<string>, k: nat, leaf: bool)
    requires WellFormed(n) && n.dynamic && 0 < k <= |tokens| && NoLongerCut(n, tokens, k, leaf)
    requires DynWalks(n, KeyMatch(n.dynamicKey, Norm(Join(tokens[..k], ""))), tokens[k..], leaf) == []
    ensures NoLongerCut(n, tokens, k - 1, leaf)
  {
    forall j: nat, q | k - 1 < j && CutWalk(n, tokens, j, q) ensures !EndsAs(n, q, leaf) {
      if j == k {
        InKeyCutAt(n, tokens, k, leaf, q);
      }
    }
  }

  lemma FirstAtKeyCut(n: EnvNode, tokens: seq<string>, k: nat, leaf: bool)
    requires WellFormed(n) && n.dynamic && 0 < k <= |tokens|
    requires DynWalks(n, KeyMatch(n.dynamicKey, Norm(Join(tokens[..k], ""))), tokens[k..], leaf) != []
    ensures WinsAt(n, tokens, k, leaf,
            DynWalks(n, KeyMatch(n.dynamicKey, Norm(Join(tokens[..k], ""))), tokens[k..], leaf)[0])
  {
    var keys := KeyMatch(n.dynamicKey, Norm(Join(tokens[..k], "")));
    InKeyCutAt(n, tokens, k, leaf, DynWalks(n, keys, tokens[k..], leaf)[0]);
    FirstKey(n, keys, tokens[k..], leaf);
    KeyMatchFirst(n.dynamicKey, Norm(Join(tokens[..k], "")));
  }

  lemma KeyWalksUnfold(n: EnvNode, tokens: seq<string>, k: nat, leaf: bool)
    requires WellFormed(n) && n.dynamic && 0 < k <= |tokens|
    ensures KeyWalks(n, tokens, k, leaf) ==
            DynWalks(n, KeyMatch(n.dynamicKey, Norm(Join(tokens[..k], ""))), tokens[k..], leaf)
            + KeyWalks(n, tokens, k - 1, leaf)
  {}

  // i is 0 when no key the map has leads anywhere.
  lemma {:induction false} FirstKeyCut(n: EnvNode, tokens: seq<string>, k: nat, leaf: bool) returns (i: nat)
    requires WellFormed(n) && n.dynamic && k <= |tokens| && NoLongerCut(n, tokens, k, leaf)
    ensures NoLongerCut(n, tokens, i, leaf)
    ensures if KeyWalks(n, tokens, k, leaf) == [] then i == 0
            else WinsAt(n, tokens, i, leaf, KeyWalks(n, tokens, k, leaf)[0])
    decreases k
  {
    if k == 0 {
      return 0;
    }
    KeyWalksUnfold(n, tokens, k, leaf);
    var here := DynWalks(n, KeyMatch(n.dynamicKey, Norm(Join(tokens[..k], ""))), tokens[k..], leaf);
    if here != [] {
      i := k;
      FirstAtKeyCut(n, tokens, k, leaf);
    } else {
      NoKeyCutAt(n, tokens, k, leaf);
      assert here + KeyWalks(n, tokens, k - 1, leaf) == KeyWalks(n, tokens, k - 1, leaf);
      i := FirstKeyCut(n, tokens, k - 1, leaf);
    }
  }

  /** The longest run of tokens that leads anywhere wins, among declared fields
      and among the keys a map has, an exact name before a spelled one and the
      first of keys spelled alike; and the same holds again below it.  A new key
      is made of all tokens, and only when none of the keys there leads anywhere. */
  lemma LongestCutWins(n: EnvNode, tokens: seq<string>, leaf: bool) returns (i: nat)
    requires WellFormed(n) && tokens != [] && Walks(n, tokens, leaf) != []
    ensures NoLongerCut(n, tokens, i, leaf)
    ensures var p := Walks(n, tokens, leaf)[0];
            if i > 0 then WinsAt(n, tokens, i, leaf, p) else NewKey(n, tokens, p)
  {
    WalksSplit(n, tokens);
    if n.dynamic {
      NoChildWalks(n, tokens, |tokens|);
      i := FirstKeyCut(n, tokens, |tokens|, leaf);
      assert Walks(n, tokens, leaf) == KeyWalks(n, tokens, |tokens|, leaf) + NewKeyWalks(n, tokens, leaf);
    } else {
      assert Walks(n, tokens, leaf) == ChildWalks(n, tokens, |tokens|, leaf);
      i := FirstChildCut(n, tokens, |tokens|, leaf);
    }
  }

  // ---------- spelling ----------

  lemma CutSpells(n: EnvNode, seg: string, prefix: seq<string>)
    requires WellFormed(n) && (NamesChild(n, seg, prefix) || NamesKey(n, seg, prefix))
    ensures Norm(seg) == Norm(Concat(prefix))
  {
    NormJoin(prefix, "_");
    NormJoin(prefix, "");
  }

  lemma SpellsOn(seg: string, rest: Path, a: seq<string>, b: seq<string>)
    requires Norm(seg) == Norm(Concat(a)) && Norm(Concat(rest)) == Norm(Concat(b))
    ensures Norm(Concat([seg] + rest)) == Norm(Concat(a + b))
  {
    assert ([seg] + rest)[1..] == rest;
    NormAppend(seg, Concat(rest));
    ConcatAppend(a, b);
    NormAppend(Concat(a), Concat(b));
  }

  /** Up to separators and case, a walk spells exactly the tokens. */
  lemma {:induction false} WalkSpells(n: EnvNode, tokens: seq<string>, path: Path)
    requires WellFormed(n) && IsWalk(n, tokens, path)
    ensures Norm(Concat(path)) == Norm(Concat(tokens))
    decreases |path|
  {
    if path == [] {
      return;
    }
    assert path == [path[0]] + path[1..];
    if NewKey(n, tokens, path) {
      NormJoin(tokens, ".");
      SpellsOn(path[0], path[1..], tokens, []);
      assert tokens + [] == tokens;
    } else {
      var i: nat :| Takes(n, path[0], tokens, i) && IsWalk(Next(n, path[0]), tokens[i..], path[1..]);
      WalkSpells(Next(n, path[0]), tokens[i..], path[1..]);
      CutSpells(n, path[0], tokens[..i]);
      SpellsOn(path[0], path[1..], tokens[..i], tokens[i..]);
      assert tokens == tokens[..i] + tokens[i..];
    }
  }

  // ---------- prefix-freedom ----------

  predicate ValidPath(n: EnvNode, path: Path)
    decreases |path|
  {
    n.Node? && (path == [] || ((path[0] in n.children || n.dynamic) && ValidPath(Next(n, path[0]), path[1..])))
  }

  // A path an override may be written to.
  predicate Settable(n: EnvNode, path: Path) {
    ValidPath(n, path) && IsLeaf(NodeAt(n, path))
  }

  lemma {:induction false} WalkIsValid(n: EnvNode, tokens: seq<string>, path: Path)
    requires WellFormed(n) && IsWalk(n, tokens, path)
    ensures ValidPath(n, path)
    decreases |path|
  {
    if path != [] {
      if NewKey(n, tokens, path) {
        assert path[1..] == [];
      } else {
        var i: nat :| Takes(n, path[0], tokens, i) && IsWalk(Next(n, path[0]), tokens[i..], path[1..]);
        WalkIsValid(Next(n, path[0]), tokens[i..], path[1..]);
      }
    }
  }

  /** No settable path of a schema is a proper prefix of another. */
  lemma {:induction false} SettablePrefixFree(n: EnvNode, p: Path, q: Path)
    requires Settable(n, p) && Settable(n, q) && p <= q
    ensures p == q
    decreases |p|
  {
    if p != [] {
      SettablePrefixFree(Next(n, p[0]), p[1..], q[1..]);
      assert p == [p[0]] + p[1..] && q == [q[0]] + q[1..];
    }
  }
}
