/** Relative path names: Go's string order, sorted name lists, and the name range
    that a directory's subtree occupies in the index's primary key. */
module Names {

  /** Go's `a < b` on strings: the order of sort.Strings and of the index key. */
  predicate Less(a: string, b: string)
  {
    if b == "" then false
    else if a == "" then true
    else if a[0] != b[0] then a[0] < b[0]
    else Less(a[1..], b[1..])
  }

  lemma {:induction false} LessIrreflexive(a: string)
    ensures !Less(a, a)
  {
    if a != "" {
      LessIrreflexive(a[1..]);
    }
  }

  lemma {:induction false} LessTotal(a: string, b: string)
    requires a != b
    ensures Less(a, b) != Less(b, a)
  {
    if a != "" && b != "" && a[0] == b[0] {
      assert a == [a[0]] + a[1..] && b == [b[0]] + b[1..];
      LessTotal(a[1..], b[1..]);
    }
  }

  lemma {:induction false} LessTransitive(a: string, b: string, c: string)
    requires Less(a, b) && Less(b, c)
    ensures Less(a, c)
  {
    if a != "" && a[0] == b[0] && b[0] == c[0] {
      LessTransitive(a[1..], b[1..], c[1..]);
    }
  }

  /** Strictly ascending, so also free of duplicates. */
  ghost predicate Ascending(s: seq<string>)
  {
    forall i, j :: 0 <= i < j < |s| ==> Less(s[i], s[j])
  }

  ghost predicate IsLeast(m: string, names: set<string>)
  {
    m in names && forall x :: x in names && x != m ==> Less(m, x)
  }

  lemma {:induction false} LeastExists(names: set<string>)
    requires names != {}
    ensures exists m :: IsLeast(m, names)
    decreases |names|
  {
    var x :| x in names;
    if names == {x} {
      assert IsLeast(x, names);
    } else {
      LeastExists(names - {x});
      var m :| IsLeast(m, names - {x});
      LessTotal(m, x);
      if Less(m, x) {
        assert IsLeast(m, names);
      } else {
        forall y | y in names && y != x ensures Less(x, y) {
          if y != m { LessTransitive(x, m, y); }
        }
        assert IsLeast(x, names);
      }
    }
  }

  lemma LeastUnique(m: string, n: string, names: set<string>)
    requires IsLeast(m, names) && IsLeast(n, names)
    ensures m == n
  {
    if m != n {
      LessTotal(m, n);
    }
  }

  /** The names of a set in sort.Strings order. */
  ghost function SortedList(names: set<string>): (r: seq<string>)
    ensures Ascending(r)
    ensures forall x :: x in r <==> x in names
    decreases |names|
  {
    if names == {} then []
    else
      LeastExists(names);
      var m :| IsLeast(m, names);
      var tail := SortedList(names - {m});
      assert forall i :: 0 <= i < |tail| ==> tail[i] in names - {m};
      [m] + tail
  }

  /** A strictly ascending list is determined by its elements. */
  lemma {:induction false} AscendingUnique(a: seq<string>, b: seq<string>)
    requires Ascending(a) && Ascending(b)
    requires forall x :: x in a <==> x in b
    ensures a == b
    decreases |a|
  {
    if a == [] {
      if b != [] { HasMember(b); assert false; }
    } else {
      assert a[0] in b && b != [];
      assert b[0] in a;
      if a[0] != b[0] {
        LessTotal(a[0], b[0]);
      }
      assert a == [a[0]] + a[1..] && b == [b[0]] + b[1..];
      forall x | x in a[1..] ensures x in b[1..] { NotFirst(a, x); assert x in a; }
      forall x | x in b[1..] ensures x in a[1..] { NotFirst(b, x); assert x in b; }
      AscendingUnique(a[1..], b[1..]);
    }
  }

  lemma HasMember(a: seq<string>)
    requires a != []
    ensures exists x :: x in a
  {
    assert a[0] in a;
  }

  lemma NotFirst(a: seq<string>, x: string)
    requires Ascending(a) && a != [] && x in a[1..]
    ensures x != a[0]
  {
    LessIrreflexive(x);
  }

  /** sort.Strings on a list of distinct names. */
  method SortNames(names: set<string>) returns (r: seq<string>)
    ensures r == SortedList(names)
  {
    r := [];
    var rest := names;
    while rest != {}
      invariant rest <= names
      invariant Ascending(r)
      invariant forall x :: x in r <==> x in names - rest
      invariant forall x, y :: x in r && y in rest ==> Less(x, y)
      decreases |rest|
    {
      LeastExists(rest);
      ghost var least :| IsLeast(least, rest);
      var m := PickLeast(rest);
      LeastUnique(m, least, rest);
      r := r + [m];
      rest := rest - {m};
    }
    AscendingUnique(r, SortedList(names));
  }

  method PickLeast(names: set<string>) returns (m: string)
    requires names != {}
    ensures IsLeast(m, names)
  {
    m :| m in names;
    var rest := names - {m};
    while rest != {}
      invariant m in names && m !in rest && rest <= names
      invariant forall x :: x in names && x !in rest && x != m ==> Less(m, x)
      decreases |rest|
    {
      var x :| x in rest;
      rest := rest - {x};
      LessTotal(m, x);
      if Less(x, m) {
        forall y | y in names && y !in rest && y != x ensures Less(x, y) {
          if y != m { LessTransitive(x, m, y); }
        }
        m := x;
      }
    }
  }

  /** `name` lies strictly under the directory `dir`. */
  predicate Under(name: string, dir: string)
  {
    |dir| < |name| && name[..|dir|] == dir && name[|dir|] == '/'
  }

  /** The range scan of ListPrefix: names from "dir/" up to, not including, "dir0"
      are exactly the names under dir. */
  lemma {:induction false} RangeIsSubtree(name: string, dir: string)
    ensures !Less(name, dir + "/") && Less(name, dir + "0") <==> Under(name, dir)
    decreases |dir|
  {
    var low, high := dir + "/", dir + "0";
    if dir == "" {
      if name != "" && name[0] == '/' {
        assert low[1..] == "" && !Less(name[1..], "");
      }
      if name != "" && name[0] == '0' {
        assert high[1..] == "" && !Less(name[1..], "");
      }
    } else if name != "" && name[0] == dir[0] {
      RangeIsSubtree(name[1..], dir[1..]);
      assert low[1..] == dir[1..] + "/" && high[1..] == dir[1..] + "0";
      if Under(name, dir) {
        assert name[1..][..|dir| - 1] == name[..|dir|][1..];
      }
      if Under(name[1..], dir[1..]) {
        assert name[..|dir|] == [name[0]] + name[1..][..|dir| - 1];
        assert dir == [dir[0]] + dir[1..];
      }
    }
  }

  /** A directory sorts before everything under it, so descending name order visits
      children before their parents. */
  lemma {:induction false} ParentSortsFirst(name: string, dir: string)
    requires Under(name, dir)
    ensures Less(dir, name)
    decreases |dir|
  {
    if dir != "" {
      assert name[0] == name[..|dir|][0];
      assert name[1..][..|dir| - 1] == name[..|dir|][1..];
      ParentSortsFirst(name[1..], dir[1..]);
    }
  }

  lemma UnderTransitive(a: string, b: string, c: string)
    requires Under(a, b) && Under(b, c)
    ensures Under(a, c)
  {
    assert a[..|c|] == a[..|b|][..|c|];
    assert a[|c|] == a[..|b|][|c|];
  }

  predicate AtOrUnder(name: string, dir: string)
  {
    name == dir || Under(name, dir)
  }

  lemma AtOrUnderTransitive(a: string, b: string, c: string)
    requires AtOrUnder(a, b) && AtOrUnder(b, c)
    ensures AtOrUnder(a, c)
  {
    if Under(a, b) && Under(b, c) {
      UnderTransitive(a, b, c);
    }
  }

  /** Two directories above one path lie on one line. */
  lemma AboveIsALine(name: string, a: string, b: string)
    requires AtOrUnder(name, a) && AtOrUnder(name, b)
    ensures AtOrUnder(a, b) || Under(b, a)
  {
    assert |a| <= |b| ==> b[..|a|] == name[..|a|];
    assert |b| <= |a| ==> a[..|b|] == name[..|b|];
  }

  /** The directories above an entry of p are p and those above p. */
  lemma UnderChild(p: string, s: string, a: string)
    requires '/' !in s
    ensures Under(p + "/" + s, a) <==> AtOrUnder(p, a)
  {
    var n := p + "/" + s;
    if |p| < |a| < |n| {
      assert n[|a|] in s;
    }
    if |a| <= |p| {
      assert n[..|a|] == p[..|a|];
    }
  }

  /** How deep a path lies. */
  function Depth(name: string): nat
  {
    if name == "" then 0 else (if name[0] == '/' then 1 else 0) + Depth(name[1..])
  }

  lemma {:induction false} DepthIsShort(s: string)
    ensures Depth(s) <= |s|
    decreases |s|
  {
    if s != "" { DepthIsShort(s[1..]); }
  }

  lemma {:induction false} DepthAppends(a: string, b: string)
    ensures Depth(a + b) == Depth(a) + Depth(b)
    decreases |a|
  {
    if a == "" {
      assert a + b == b;
    } else {
      assert (a + b)[1..] == a[1..] + b;
      DepthAppends(a[1..], b);
    }
  }

  lemma {:induction false} NoSlashIsFlat(s: string)
    requires '/' !in s
    ensures Depth(s) == 0
    decreases |s|
  {
    if s != "" {
      assert s[0] in s;
      NoSlashIsFlat(s[1..]);
    }
  }

  /** Whatever lies under a directory lies deeper. */
  lemma UnderIsDeeper(name: string, dir: string)
    requires Under(name, dir)
    ensures Depth(name) > Depth(dir)
  {
    assert name == dir + name[|dir|..];
    DepthAppends(dir, name[|dir|..]);
  }
}
