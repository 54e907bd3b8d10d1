/** Names of conflict copies (engine.go conflictName, ConflictOrigin). */
module ConflictNames {
  import opened Versions
  import opened Entries
  import Names

  const SUFFIX := ".sync-conflict"

  /** path.Ext scanning down from position i. */
  function ExtFrom(s: string, i: nat): (e: string)
    requires i <= |s|
    ensures |e| <= |s|
  {
    if i == 0 || s[i - 1] == '/' then ""
    else if s[i - 1] == '.' then s[i - 1..]
    else ExtFrom(s, i - 1)
  }

  /** path.Ext: from the last '.' of the last path element, or "". */
  function Ext(s: string): string
  {
    ExtFrom(s, |s|)
  }

  predicate StartsWith(s: string, p: string)
  {
    |p| <= |s| && s[..|p|] == p
  }

  /** strings.LastIndex, looking at positions below i. */
  function LastIndexBelow(s: string, p: string, i: nat): (r: int)
    requires i <= |s|
    ensures -1 <= r < i
    ensures r >= 0 ==> StartsWith(s[r..], p)
    ensures forall j :: r < j < i ==> !StartsWith(s[j..], p)
  {
    if i == 0 then -1
    else if StartsWith(s[i - 1..], p) then i - 1
    else LastIndexBelow(s, p, i - 1)
  }

  function Decimal(n: nat): (s: string)
    ensures |s| >= 1
    ensures forall c :: c in s ==> IsTagChar(c)
  {
    if n < 10 then [('0' as int + n) as char] else Decimal(n / 10) + [('0' as int + n % 10) as char]
  }

  lemma {:induction false} DecimalInjective(a: nat, b: nat)
    requires Decimal(a) == Decimal(b)
    ensures a == b
  {
    var s := Decimal(a);
    assert s[|s| - 1] == ('0' as int + a % 10) as char == ('0' as int + b % 10) as char;
    if a >= 10 && b >= 10 {
      assert s[..|s| - 1] == Decimal(a / 10) == Decimal(b / 10);
      DecimalInjective(a / 10, b / 10);
    }
  }

  /** The characters of a formatted timestamp or device number. */
  predicate IsTagChar(c: char)
  {
    c == '-' || '0' <= c <= '9'
  }

  /** The part between the suffix and the extension: "-<timestamp>-<device>". */
  function Tag(ts: string, device: U64): string
  {
    "-" + ts + "-" + Decimal(device)
  }

  function Base(name: string): string
  {
    name[..|name| - |Ext(name)|]
  }

  function ConflictName(name: string, ts: string, device: U64): string
  {
    Base(name) + SUFFIX + Tag(ts, device) + Ext(name)
  }

  function ConflictOrigin(copy: string): Option<string>
  {
    var idx := LastIndexBelow(copy, SUFFIX, |copy|);
    if idx <= 0 then None
    else Some(copy[..idx] + Ext(copy[idx + |SUFFIX|..]))
  }

  /** An extension: empty, or a dot followed by neither dots nor slashes. */
  ghost predicate IsExt(e: string)
  {
    e == "" || (e[0] == '.' && forall i :: 0 < i < |e| ==> e[i] != '.' && e[i] != '/')
  }

  lemma {:induction false} ExtFromIsExt(s: string, i: nat)
    requires i <= |s|
    requires forall j :: i <= j < |s| ==> s[j] != '.' && s[j] != '/'
    ensures IsExt(ExtFrom(s, i)) && s[|s| - |ExtFrom(s, i)|..] == ExtFrom(s, i)
    decreases i
  {
    if i > 0 && s[i - 1] != '/' && s[i - 1] != '.' {
      ExtFromIsExt(s, i - 1);
    }
  }

  /** Text without dots and slashes before an extension does not change the extension. */
  lemma {:induction false} ExtOfTagged(t: string, e: string, i: nat)
    requires IsExt(e) && i <= |t + e|
    requires forall c :: c in t ==> c != '.' && c != '/'
    requires e == "" || i > |t|
    ensures ExtFrom(t + e, i) == e
    decreases i
  {
    var s := t + e;
    if i > 0 {
      if e != "" && i - 1 == |t| {
        assert s[|t|..] == e;
      } else {
        assert s[i - 1] == if i - 1 < |t| then t[i - 1] else e[i - 1 - |t|];
        if i - 1 < |t| { assert t[i - 1] in t; }
        ExtOfTagged(t, e, i - 1);
      }
    }
  }

  ghost predicate OriginFound(name: string, ts: string, device: U64)
  {
    ConflictOrigin(ConflictName(name, ts, device)) == Some(name)
  }

  /** ConflictOrigin undoes conflictName exactly when the file is not an extension alone
      (a dot file in the folder root) and its extension is not itself a conflict marker,
      save for the one marker that the copy would get. */
  lemma OriginRoundTrip(name: string, ts: string, device: U64)
    requires forall c :: c in ts ==> IsTagChar(c)
    ensures OriginFound(name, ts, device) <==>
            (Base(name) != "" && !StartsWith(Ext(name), SUFFIX)) || Ext(name) == SUFFIX + Tag(ts, device)
  {
    var base, ext, tag := Base(name), Ext(name), Tag(ts, device);
    ExtFromIsExt(name, |name|);
    assert name == base + ext;
    OriginOfParts(base, tag, ext);
    if StartsWith(ext, SUFFIX) {
      if base + SUFFIX + tag == name {
        assert ext == name[|base|..] == (base + SUFFIX + tag)[|base|..] == SUFFIX + tag;
      }
      if ext == SUFFIX + tag {
        assert base + SUFFIX + tag == base + (SUFFIX + tag);
      }
    }
  }

  lemma OriginOfParts(base: string, tag: string, ext: string)
    requires IsExt(ext) && forall c :: c in tag ==> IsTagChar(c)
    ensures ConflictOrigin(base + SUFFIX + tag + ext) ==
            if StartsWith(ext, SUFFIX) then Some(base + SUFFIX + tag)
            else if base == "" then None
            else Some(base + ext)
  {
    var copy := base + SUFFIX + tag + ext;
    var last := |base| + |SUFFIX| + |tag|;
    LastMarker(base, tag, ext);
    if StartsWith(ext, SUFFIX) {
      var more := ext[|SUFFIX|..];
      assert copy[last + |SUFFIX|..] == more;
      ExtOfTagged(more, "", |more|);
      assert more + "" == more;
      assert copy[..last] == base + SUFFIX + tag && copy[..last] + "" == copy[..last];
    } else {
      assert copy[|base| + |SUFFIX|..] == tag + ext;
      ExtOfTagged(tag, ext, |tag + ext|);
      assert copy[..|base|] == base;
    }
  }

  /** Where the last marker of a copy's name starts. */
  lemma LastMarker(base: string, tag: string, ext: string)
    requires IsExt(ext) && forall c :: c in tag ==> IsTagChar(c)
    ensures var copy := base + SUFFIX + tag + ext;
            LastIndexBelow(copy, SUFFIX, |copy|) == |base| + if StartsWith(ext, SUFFIX) then |SUFFIX| + |tag| else 0
  {
    var copy := base + SUFFIX + tag + ext;
    assert copy[|base| + |SUFFIX| + |tag|..] == ext;
    NoMarkerBetween(base, tag, ext);
    MarkerAt(base, tag + ext);
    assert copy == base + SUFFIX + (tag + ext);
  }

  lemma MarkerAt(base: string, rest: string)
    ensures StartsWith((base + SUFFIX + rest)[|base|..], SUFFIX)
  {
    assert (base + SUFFIX + rest)[|base|..] == SUFFIX + rest;
  }

  /** The marker cannot start inside its own text, the tag or the extension's tail. */
  lemma NoMarkerBetween(base: string, tag: string, ext: string)
    requires IsExt(ext) && forall c :: c in tag ==> IsTagChar(c)
    ensures var copy := base + SUFFIX + tag + ext;
            forall j :: |base| < j < |copy| && j != |base| + |SUFFIX| + |tag| ==> !StartsWith(copy[j..], SUFFIX)
  {
    var copy := base + SUFFIX + tag + ext;
    var s, t := |base| + |SUFFIX|, |base| + |SUFFIX| + |tag|;
    forall j | |base| < j < |copy| && j != t
      ensures !StartsWith(copy[j..], SUFFIX)
    {
      assert copy[j] == if j < s then SUFFIX[j - |base|] else if j < t then tag[j - s] else ext[j - t];
      if s <= j < t { assert tag[j - s] in tag; }
      assert copy[j] != '.';
    }
  }

  /** A conflict copy never lands on the path it was copied from. */
  lemma CopyIsElsewhere(name: string, ts: string, device: U64)
    ensures ConflictName(name, ts, device) != name
  {
    ExtFromIsExt(name, |name|);
    assert |ConflictName(name, ts, device)| == |name| + |SUFFIX| + |Tag(ts, device)|;
  }

  lemma NameParts(name: string)
    ensures name == Base(name) + Ext(name) && IsExt(Ext(name)) && '/' !in Ext(name)
  {
    ExtFromIsExt(name, |name|);
  }

  /** A conflict copy is a sibling: the same directories lie above it, at the same depth, and
      neither path lies under the other. */
  lemma CopyIsSibling(name: string, ts: string, device: U64)
    requires forall c :: c in ts ==> IsTagChar(c)
    ensures var copy := ConflictName(name, ts, device);
            && (forall d :: Names.Under(copy, d) <==> Names.Under(name, d))
            && Names.Depth(copy) == Names.Depth(name)
            && !Names.AtOrUnder(copy, name) && !Names.AtOrUnder(name, copy)
  {
    var base, ext, copy := Base(name), Ext(name), ConflictName(name, ts, device);
    var mid := SUFFIX + Tag(ts, device);
    NameParts(name);
    assert '/' !in mid;
    assert copy == base + mid + ext;
    CopyIsElsewhere(name, ts, device);
    Names.DepthAppends(base, ext);
    Names.DepthAppends(base + mid, ext);
    Names.DepthAppends(base, mid);
    Names.NoSlashIsFlat(mid);
    forall d: string ensures Names.Under(copy, d) <==> Names.Under(name, d) {
      assert base + "" + ext == name;
    }
    assert !Names.Under(name, name) && !Names.Under(copy, copy);
  }

}
