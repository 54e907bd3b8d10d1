/** Index entries and the comparisons the engine makes between them
    (internal/index/index.go FileInfo; internal/sync/engine.go, bottom). */
module Entries {
  import opened Versions
  import Names

  type Byte = x: int | 0 <= x < 256

  /** SHA-256 as a collision-free function: the digest is the free constructor over the bytes. */
  datatype Digest = Sha256(of: seq<Byte>)

  datatype Kind = File | Directory | Symlink

  datatype FileInfo = FileInfo(
    name: string, size: int, modS: int, modNs: int, mode: int, kind: Kind,
    deleted: bool, invalid: bool, version: Vector, sequence: int,
    blockSize: int, blocks: seq<Digest>)

  datatype Option<+T> = None | Some(value: T)

  predicate SameContent(a: FileInfo, b: FileInfo)
  {
    a.kind == b.kind && a.size == b.size && a.blocks == b.blocks
  }

  /** Provably the same bytes: an entry without a block list is no evidence, unless it is empty. */
  predicate IdenticalContent(a: FileInfo, b: FileInfo)
  {
    SameContent(a, b) && (a.size == 0 || |a.blocks| > 0)
  }

  /** Signed 64-bit wrap-around. */
  function Wrap64(x: int): int
  {
    (x + 0x8000_0000_0000_0000) % 0x1_0000_0000_0000_0000 - 0x8000_0000_0000_0000
  }

  lemma WrapIsIdentity(x: int)
    requires -0x8000_0000_0000_0000 <= x < 0x8000_0000_0000_0000
    ensures Wrap64(x) == x
  {
  }

  /** The modification time as one int64 of nanoseconds, as newerOrGreater computes it. */
  function Stamp(f: FileInfo): int
  {
    Wrap64(f.modS * 1_000_000_000 + f.modNs)
  }

  // ---- canonicalVersion: hexadecimal "device:counter|" in ascending device order ----

  function HexDigit(d: int): (c: char)
    requires 0 <= d < 16
    ensures c != ':' && c != '|'
  {
    if d < 10 then ('0' as int + d) as char else ('a' as int + d - 10) as char
  }

  function Hex(n: nat): (s: string)
    ensures ':' !in s && '|' !in s
    ensures |s| >= 1 && (n >= 16 ==> |s| >= 2)
  {
    if n < 16 then [HexDigit(n)] else Hex(n / 16) + [HexDigit(n % 16)]
  }

  lemma {:induction false} HexInjective(a: nat, b: nat)
    requires Hex(a) == Hex(b)
    ensures a == b
  {
    if a >= 16 && b >= 16 {
      var s := Hex(a);
      assert s[..|s| - 1] == Hex(a / 16) == Hex(b / 16);
      assert s[|s| - 1] == HexDigit(a % 16) == HexDigit(b % 16);
      HexInjective(a / 16, b / 16);
    } else {
      assert Hex(a)[|Hex(a)| - 1] == HexDigit(a % 16);
      assert Hex(b)[|Hex(b)| - 1] == HexDigit(b % 16);
    }
  }

  ghost function SortedKeys(s: set<U64>): (r: seq<U64>)
    ensures forall k :: k in r <==> k in s
    decreases |s|
  {
    if s == {} then [] else
      LeastKeyExists(s);
      var m :| IsLeastKey(m, s);
      [m] + SortedKeys(s - {m})
  }

  ghost predicate IsLeastKey(m: U64, s: set<U64>)
  {
    m in s && forall k :: k in s ==> m <= k
  }

  lemma {:induction false} LeastKeyExists(s: set<U64>)
    requires s != {}
    ensures exists m :: IsLeastKey(m, s)
    decreases |s|
  {
    var x :| x in s;
    if s == {x} {
      assert IsLeastKey(x, s);
    } else {
      LeastKeyExists(s - {x});
      var m :| IsLeastKey(m, s - {x});
      var least := if m <= x then m else x;
      forall k | k in s ensures least <= k {
        assert k == x || k in s - {x};
      }
      assert IsLeastKey(least, s);
    }
  }

  ghost function Render(keys: seq<U64>, v: Vector): string
    requires forall k :: k in keys ==> k in v
  {
    if keys == [] then ""
    else Hex(keys[0]) + ":" + (Hex(v[keys[0]]) + "|" + Render(keys[1..], v))
  }

  ghost function CanonicalVersion(v: Vector): string
  {
    Render(SortedKeys(v.Keys), v)
  }

  /** Text before the first separator is determined by the whole text. */
  lemma {:induction false} FirstCut(a: string, x: string, b: string, y: string, c: char)
    requires c !in a && c !in b
    requires a + [c] + x == b + [c] + y
    ensures a == b && x == y
  {
    var s := a + [c] + x;
    assert s[|a|] == c;
    assert s == b + [c] + y;
    assert s[|b|] == c;
    assert a == s[..|a|] && b == s[..|a|];
    assert x == s[|a| + 1..] && y == s[|a| + 1..];
  }

  lemma {:induction false} RenderInjective(ks: seq<U64>, v: Vector, ls: seq<U64>, o: Vector)
    requires forall k :: k in ks ==> k in v
    requires forall k :: k in ls ==> k in o
    requires Render(ks, v) == Render(ls, o)
    ensures ks == ls
    ensures forall k :: k in ks ==> v[k] == o[k]
  {
    if ks != [] && ls != [] {
      var k, l := ks[0], ls[0];
      var vs, os := Hex(v[k]) + "|" + Render(ks[1..], v), Hex(o[l]) + "|" + Render(ls[1..], o);
      FirstCut(Hex(k), vs, Hex(l), os, ':');
      HexInjective(k, l);
      FirstCut(Hex(v[k]), Render(ks[1..], v), Hex(o[l]), Render(ls[1..], o), '|');
      HexInjective(v[k], o[l]);
      RenderInjective(ks[1..], v, ls[1..], o);
      assert ks == [k] + ks[1..] && ls == [l] + ls[1..];
    }
  }

  /** The tie-breaker text identifies the vector. */
  lemma CanonicalVersionInjective(v: Vector, o: Vector)
    requires CanonicalVersion(v) == CanonicalVersion(o)
    ensures v == o
  {
    var ks, ls := SortedKeys(v.Keys), SortedKeys(o.Keys);
    RenderInjective(ks, v, ls, o);
    assert forall k :: k in v <==> k in ks;
    assert forall k :: k in o <==> k in ls;
    assert v.Keys == o.Keys;
  }

  ghost predicate TotalGreater(a: FileInfo, b: FileInfo)
  {
    Names.Less(CanonicalVersion(b.version), CanonicalVersion(a.version))
  }

  /** The conflict rule: newer modification time first, canonical version text on a tie. */
  ghost predicate NewerOrGreater(a: FileInfo, b: FileInfo)
  {
    if Stamp(a) != Stamp(b) then Stamp(a) > Stamp(b) else TotalGreater(a, b)
  }

  /** A clock reading whose nanoseconds since the epoch fit in an int64. */
  predicate Timely(f: FileInfo)
  {
    0 <= f.modNs < 1_000_000_000 && -9_223_372_036 <= f.modS < 9_223_372_036
  }

  /** Of two entries the one with the later time wins, down to the nanosecond; the vectors
      decide only between equal times. */
  lemma LaterTimeWins(a: FileInfo, b: FileInfo)
    requires Timely(a) && Timely(b)
    ensures a.modS > b.modS || (a.modS == b.modS && a.modNs > b.modNs) ==> NewerOrGreater(a, b) && !NewerOrGreater(b, a)
    ensures a.modS == b.modS && a.modNs == b.modNs ==>
              (NewerOrGreater(a, b) <==> Names.Less(CanonicalVersion(b.version), CanonicalVersion(a.version)))
  {
    WrapIsIdentity(a.modS * 1_000_000_000 + a.modNs);
    WrapIsIdentity(b.modS * 1_000_000_000 + b.modNs);
  }

  /** Of two entries with different vectors exactly one is the newer-or-greater one. */
  lemma ExactlyOneWins(a: FileInfo, b: FileInfo)
    requires a.version != b.version
    ensures NewerOrGreater(a, b) != NewerOrGreater(b, a)
  {
    if CanonicalVersion(a.version) == CanonicalVersion(b.version) {
      CanonicalVersionInjective(a.version, b.version);
    } else {
      Names.LessTotal(CanonicalVersion(a.version), CanonicalVersion(b.version));
    }
  }
}
