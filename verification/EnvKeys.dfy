/** How config spells key names: tokens of a variable name, and keys with their
    separators removed (config/config.go). */
module EnvKeys {
  // ASCII lower case.
  function LowerChar(c: char): char {
    if 'A' <= c <= 'Z' then (c as int - 'A' as int + 'a' as int) as char else c
  }

  function Lower(s: string): (r: string)
    ensures |r| == |s| && forall i :: 0 <= i < |s| ==> r[i] == LowerChar(s[i])
  {
    seq(|s|, i requires 0 <= i < |s| => LowerChar(s[i]))
  }

  predicate IsSeparator(c: char) {
    c == '_' || c == '-' || c == '.' || c == '+' || c == ' '
  }

  // normalizeEnvKey
  function Norm(s: string): string {
    if s == "" then ""
    else (if IsSeparator(LowerChar(s[0])) then "" else [LowerChar(s[0])]) + Norm(s[1..])
  }

  lemma {:induction false} NormAppend(a: string, b: string)
    ensures Norm(a + b) == Norm(a) + Norm(b)
  {
    if a == "" {
      assert a + b == b;
    } else {
      assert (a + b)[1..] == a[1..] + b;
      NormAppend(a[1..], b);
    }
  }

  lemma {:induction false} NormLower(s: string)
    ensures Norm(Lower(s)) == Norm(s)
  {
    if s != "" {
      assert Lower(s)[1..] == Lower(s[1..]);
      NormLower(s[1..]);
    }
  }

  // strings.Join
  function Join(parts: seq<string>, sep: string): string {
    if parts == [] then ""
    else if |parts| == 1 then parts[0]
    else parts[0] + sep + Join(parts[1..], sep)
  }

  function Concat(parts: seq<string>): string {
    if parts == [] then "" else parts[0] + Concat(parts[1..])
  }

  lemma {:induction false} NormJoin(parts: seq<string>, sep: string)
    requires Norm(sep) == ""
    ensures Norm(Join(parts, sep)) == Norm(Concat(parts))
  {
    if |parts| == 1 {
      assert Concat(parts) == parts[0] + Concat(parts[1..]);
      assert parts[0] + "" == parts[0];
    } else if |parts| > 1 {
      NormJoin(parts[1..], sep);
      NormAppend(parts[0], Concat(parts[1..]));
      NormAppend(parts[0] + sep, Join(parts[1..], sep));
      NormAppend(parts[0], sep);
    }
  }

  lemma {:induction false} ConcatAppend(a: seq<string>, b: seq<string>)
    ensures Concat(a + b) == Concat(a) + Concat(b)
  {
    if a == [] {
      assert a + b == b;
    } else {
      assert (a + b)[1..] == a[1..] + b;
      ConcatAppend(a[1..], b);
    }
  }

  // strings.Split at '_'
  function Split(s: string): (parts: seq<string>)
    ensures parts != []
  {
    if s == "" then [""]
    else
      var rest := Split(s[1..]);
      if s[0] == '_' then [""] + rest else [[s[0]] + rest[0]] + rest[1..]
  }

  lemma {:induction false} SplitHasNoBar(s: string)
    ensures forall i :: 0 <= i < |Split(s)| ==> '_' !in Split(s)[i]
  {
    if s != "" {
      SplitHasNoBar(s[1..]);
    }
  }

  // Cutting at '_' and joining with it again.
  lemma {:induction false} SplitJoins(s: string)
    ensures Join(Split(s), "_") == s
  {
    if s != "" {
      var rest := Split(s[1..]);
      SplitJoins(s[1..]);
      if s[0] == '_' {
        assert ([""] + rest)[1..] == rest;
      } else if |rest| > 1 {
        assert Split(s)[1..] == rest[1..];
        assert ([s[0]] + rest[0]) + "_" + Join(rest[1..], "_") == [s[0]] + (rest[0] + "_" + Join(rest[1..], "_"));
      }
    }
  }

  lemma {:induction false} JoinSplits(parts: seq<string>)
    requires parts != [] && forall i :: 0 <= i < |parts| ==> '_' !in parts[i]
    ensures Split(Join(parts, "_")) == parts
    decreases |parts|
  {
    if |parts| == 1 {
      NoBarIsWhole(parts[0]);
    } else {
      JoinSplits(parts[1..]);
      BarCuts(parts[0], Join(parts[1..], "_"));
      assert parts[0] + "_" + Join(parts[1..], "_") == parts[0] + ("_" + Join(parts[1..], "_"));
    }
  }

  lemma {:induction false} NoBarIsWhole(s: string)
    requires '_' !in s
    ensures Split(s) == [s]
  {
    if s != "" {
      NoBarIsWhole(s[1..]);
      assert Split(s[1..])[1..] == [] && [s[0]] + s[1..] == s;
    }
  }

  lemma {:induction false} BarCuts(a: string, s: string)
    requires '_' !in a
    ensures Split(a + ("_" + s)) == [a] + Split(s)
  {
    if a == "" {
      assert (a + ("_" + s))[1..] == s;
    } else {
      var t := a + ("_" + s);
      assert t[0] == a[0] && t[1..] == a[1..] + ("_" + s);
      BarCuts(a[1..], s);
      assert Split(t[1..])[0] == a[1..] && Split(t[1..])[1..] == Split(s);
      assert [a[0]] + a[1..] == a;
    }
  }

  lemma {:induction false} SplitChars(s: string, i: nat, c: char)
    requires i < |Split(s)| && c in Split(s)[i]
    ensures c in s
  {
    if s != "" {
      var rest := Split(s[1..]);
      if s[0] == '_' {
        if i > 0 {
          SplitChars(s[1..], i - 1, c);
        }
      } else if i > 0 {
        SplitChars(s[1..], i, c);
      } else if c != s[0] {
        SplitChars(s[1..], 0, c);
      }
    }
  }

  lemma NormOne(c: char)
    ensures Norm([c]) == if IsSeparator(LowerChar(c)) then "" else [LowerChar(c)]
  {
    assert [c][1..] == "";
  }

  /** The five separators vanish, capitals become small, other characters stay. */
  lemma NormIs(c: char)
    ensures Norm([c]) ==
              if c == '_' || c == '-' || c == '.' || c == '+' || c == ' ' then ""
              else if 'A' <= c <= 'Z' then [(c as int - 'A' as int + 'a' as int) as char]
              else [c]
  {
    NormOne(c);
  }

  lemma GrowFirst(c: char, rest: seq<string>)
    requires rest != []
    ensures Concat([[c] + rest[0]] + rest[1..]) == [c] + Concat(rest)
  {
    assert ([[c] + rest[0]] + rest[1..])[1..] == rest[1..];
    assert ([c] + rest[0]) + Concat(rest[1..]) == [c] + (rest[0] + Concat(rest[1..]));
  }

  lemma {:induction false} SplitNorm(s: string)
    ensures Norm(Concat(Split(s))) == Norm(s)
  {
    if s == "" {
      assert Concat([""]) == "" + Concat([""][1..]);
    } else {
      var rest := Split(s[1..]);
      SplitNorm(s[1..]);
      if s[0] == '_' {
        assert ([""] + rest)[1..] == rest;
        assert "" + Concat(rest) == Concat(rest);
      } else {
        GrowFirst(s[0], rest);
        assert ([s[0]] + Concat(rest))[1..] == Concat(rest);
      }
    }
  }

  function NonEmpty(parts: seq<string>): seq<string> {
    if parts == [] then []
    else (if parts[0] == "" then [] else [parts[0]]) + NonEmpty(parts[1..])
  }

  lemma {:induction false} NonEmptyConcat(parts: seq<string>)
    ensures Concat(NonEmpty(parts)) == Concat(parts)
  {
    if parts != [] {
      NonEmptyConcat(parts[1..]);
      if parts[0] != "" {
        assert ([parts[0]] + NonEmpty(parts[1..]))[1..] == NonEmpty(parts[1..]);
      } else {
        assert NonEmpty(parts) == NonEmpty(parts[1..]);
      }
    }
  }

  lemma {:induction false} NonEmptyAppend(parts: seq<string>, p: string)
    ensures NonEmpty(parts + [p]) == NonEmpty(parts) + (if p == "" then [] else [p])
  {
    if parts != [] {
      assert (parts + [p])[1..] == parts[1..] + [p];
      NonEmptyAppend(parts[1..], p);
    }
  }

  lemma TokensSpell(rest: string)
    ensures Norm(Concat(NonEmpty(Split(Lower(rest))))) == Norm(rest)
  {
    SplitNorm(Lower(rest));
    NonEmptyConcat(Split(Lower(rest)));
    NormLower(rest);
  }

  // envTokens
  method EnvTokens(rest: string) returns (out: seq<string>)
    ensures out == NonEmpty(Split(Lower(rest)))
    ensures Norm(Concat(out)) == Norm(rest)
    ensures forall i :: 0 <= i < |out| ==> out[i] != "" && '_' !in out[i]
    ensures forall i, c :: 0 <= i < |out| && c in out[i] ==> !('A' <= c <= 'Z')
  {
    out := [];
    var parts := Split(Lower(rest));
    SplitHasNoBar(Lower(rest));
    forall i, c | 0 <= i < |parts| && c in parts[i] ensures !('A' <= c <= 'Z') {
      SplitChars(Lower(rest), i, c);
    }
    for i := 0 to |parts|
      invariant out == NonEmpty(parts[..i])
      invariant forall k :: 0 <= k < |out| ==> out[k] != "" && '_' !in out[k]
      invariant forall k, c :: 0 <= k < |out| && c in out[k] ==> !('A' <= c <= 'Z')
    {
      assert parts[..i + 1] == parts[..i] + [parts[i]];
      NonEmptyAppend(parts[..i], parts[i]);
      if parts[i] != "" {
        out := out + [parts[i]];
      }
    }
    assert parts[..|parts|] == parts;
    TokensSpell(rest);
  }
}
