/** One folder's index on the wire: how a listing is cut into frames and how a receiver
    rebuilds the sender's view from them (internal/node/session.go sendIndexes,
    recvFullIndexes, mergeIndex; internal/node/codec.go). */
module IndexFrames {
  import opened Entries
  import opened GlobalModel

  /** An entry as it arrives: the codec carries everything but the local sequence. */
  function Wire(f: FileInfo): FileInfo
  {
    f.(sequence := 0)
  }

  datatype Msg =
    | Frame(files: seq<FileInfo>, update: bool, final: bool)
    | Push(file: FileInfo)

  /** The frames of one send, at most k entries each, the last one marked final. */
  function Frames(files: seq<FileInfo>, update: bool, k: nat): (r: seq<Msg>)
    requires k > 0
    ensures |r| > 0
    decreases |files|
  {
    if |files| <= k then [Frame(files, update, true)]
    else [Frame(files[..k], update, false)] + Frames(files[k..], update, k)
  }

  /** sendIndexes' frame loop. */
  method CutFrames(files: seq<FileInfo>, update: bool, k: nat) returns (r: seq<Msg>)
    requires k > 0
    ensures r == Frames(files, update, k)
  {
    r := [];
    var start, total := 0, |files|;
    while true
      invariant 0 <= start <= total
      invariant r + Frames(files[start..], update, k) == Frames(files, update, k)
      decreases total - start
    {
      var end := start + k;
      if end > total { end := total; }
      assert |files[start..]| <= k || files[start..][k..] == files[end..];
      assert files[start..end] == if |files[start..]| <= k then files[start..] else files[start..][..k];
      r := r + [Frame(files[start..end], update, end == total)];
      if end == total { break; }
      start := end;
    }
  }

  ghost function Payload(msgs: seq<Msg>): seq<FileInfo>
  {
    if msgs == [] then []
    else (match msgs[0] case Frame(files, _, _) => files case Push(f) => [f]) + Payload(msgs[1..])
  }

  /** Cutting loses nothing, adds nothing and keeps the order; only the last frame is final. */
  lemma {:induction false} FramesAreTheListing(files: seq<FileInfo>, update: bool, k: nat)
    requires k > 0
    ensures Payload(Frames(files, update, k)) == files
    ensures var r := Frames(files, update, k);
            forall i :: 0 <= i < |r| ==>
              r[i].Frame? && r[i].update == update && (r[i].final <==> i == |r| - 1) && |r[i].files| <= k
    decreases |files|
  {
    if |files| <= k {
      assert Payload([]) == [];
    } else {
      FramesAreTheListing(files[k..], update, k);
      assert files == files[..k] + files[k..];
    }
  }

  /** Entries stored one after the other, without sweeping what is already there. */
  function Absorb(view: View, files: seq<FileInfo>): View
    decreases |files|
  {
    if files == [] then view else Absorb(view[files[0].name := Wire(files[0])], files[1..])
  }

  /** What an absorbed name ends up as. */
  lemma {:induction false} AbsorbAt(view: View, files: seq<FileInfo>, name: string)
    ensures name in Absorb(view, files) <==> name in view || exists f :: f in files && f.name == name
    ensures name in Absorb(view, files) ==>
              || (exists f :: f in files && f.name == name && Absorb(view, files)[name] == Wire(f))
              || (name in view && Absorb(view, files)[name] == view[name] && forall f :: f in files ==> f.name != name)
    decreases |files|
  {
    if files != [] {
      AbsorbAt(view[files[0].name := Wire(files[0])], files[1..], name);
    }
  }

  lemma {:induction false} AbsorbAppends(view: View, a: seq<FileInfo>, b: seq<FileInfo>)
    ensures Absorb(Absorb(view, a), b) == Absorb(view, a + b)
    decreases |a|
  {
    if a == [] {
      assert a + b == b;
    } else {
      assert (a + b)[1..] == a[1..] + b;
      AbsorbAppends(view[a[0].name := Wire(a[0])], a[1..], b);
    }
  }

  /** A receiver's state for one peer and folder: its view, whether the view is a prefix of
      an unfinished full send, and whether an exchange is mid-stream. */
  datatype Store = Store(view: Option<View>, partial: bool, streaming: bool)

  function ViewOr(s: Store): View
  {
    if s.view.Some? then s.view.value else map[]
  }

  /** mergeIndex during the index exchange, and for pushed updates afterwards. */
  function Merge(s: Store, m: Msg): Store
  {
    match m
    case Push(f) => s.(view := Some(Absorb(ViewOr(s), [f])))
    case Frame(files, update, final) =>
      if s.streaming || update then Store(Some(Absorb(ViewOr(s), files)), s.partial && !final, !final)
      else Store(Some(Absorb(map[], files)), !final, !final)
  }

  function MergeAll(s: Store, msgs: seq<Msg>): Store
    decreases |msgs|
  {
    if msgs == [] then s else MergeAll(Merge(s, msgs[0]), msgs[1..])
  }

  /** A message read from the connection during the index exchange. */
  datatype Incoming =
    | Index(folder: string, files: seq<FileInfo>, update: bool, final: bool)
    | Close
    | Other

  /** What the exchange takes from the messages for one folder: its index frames up to and
      including the first final one. */
  function FramesFor(msgs: seq<Incoming>, folder: string): seq<Msg>
    decreases |msgs|
  {
    if msgs == [] then []
    else if msgs[0].Index? && msgs[0].folder == folder then
      [Frame(msgs[0].files, msgs[0].update, msgs[0].final)] + if msgs[0].final then [] else FramesFor(msgs[1..], folder)
    else FramesFor(msgs[1..], folder)
  }

  ghost predicate Finished(msgs: seq<Incoming>, folder: string)
  {
    exists i :: 0 <= i < |msgs| && msgs[i].Index? && msgs[i].folder == folder && msgs[i].final
  }

  ghost predicate AllFinished(folders: set<string>, msgs: seq<Incoming>)
  {
    forall f :: f in folders ==> Finished(msgs, f)
  }

  /** The first n messages bring every folder's final frame and no close. */
  ghost predicate Arrives(folders: set<string>, msgs: seq<Incoming>, n: nat)
  {
    n <= |msgs| && AllFinished(folders, msgs[..n]) && forall i :: 0 <= i < n ==> !msgs[i].Close?
  }

  /** One more message adds its frame to the folder it names, unless that folder is finished. */
  lemma {:induction false} FramesForNext(msgs: seq<Incoming>, m: Incoming, folder: string)
    ensures FramesFor(msgs + [m], folder) == FramesFor(msgs, folder) +
            if m.Index? && m.folder == folder && !Finished(msgs, folder) then [Frame(m.files, m.update, m.final)] else []
    ensures Finished(msgs + [m], folder) <==> Finished(msgs, folder) || (m.Index? && m.folder == folder && m.final)
    decreases |msgs|
  {
    var all := msgs + [m];
    if msgs == [] {
      assert all == [m] && all[1..] == [];
    } else {
      assert all[0] == msgs[0] && all[1..] == msgs[1..] + [m];
      FramesForNext(msgs[1..], m, folder);
    }
    assert forall i :: 0 <= i < |msgs| ==> all[i] == msgs[i];
    assert all[|msgs|] == m;
  }

  /** After the messages in `seen`, folder f holds exactly what its own frames give. */
  ghost predicate TracksAt(start: map<string, Store>, stores: map<string, Store>, folders: set<string>, remaining: set<string>,
                           seen: seq<Incoming>, f: string)
  {
    && (f in start <==> f in stores)
    && (f in folders && f in stores ==>
          stores[f] == MergeAll(start[f], FramesFor(seen, f)) && (f in remaining <==> !Finished(seen, f)))
    && (f !in folders && f in stores ==> stores[f] == start[f])
  }

  ghost predicate Tracks(start: map<string, Store>, stores: map<string, Store>, folders: set<string>, remaining: set<string>,
                         seen: seq<Incoming>)
  {
    forall f :: TracksAt(start, stores, folders, remaining, seen, f)
  }

  lemma TracksNext(start: map<string, Store>, stores: map<string, Store>, folders: set<string>, remaining: set<string>,
                   seen: seq<Incoming>, m: Incoming, stores': map<string, Store>, remaining': set<string>)
    requires Tracks(start, stores, folders, remaining, seen) && remaining <= folders <= stores.Keys
    requires if m.Index? && m.folder in remaining
             then && stores' == stores[m.folder := Merge(stores[m.folder], Frame(m.files, m.update, m.final))]
                  && remaining' == if m.final then remaining - {m.folder} else remaining
             else stores' == stores && remaining' == remaining
    ensures Tracks(start, stores', folders, remaining', seen + [m])
  {
    forall f ensures TracksAt(start, stores', folders, remaining', seen + [m], f) {
      assert TracksAt(start, stores, folders, remaining, seen, f);
      FramesForNext(seen, m, f);
      if m.Index? && m.folder == f && f in remaining {
        MergeAllAppends(start[f], FramesFor(seen, f), Frame(m.files, m.update, m.final));
      } else if f in folders {
        assert FramesFor(seen, f) + [] == FramesFor(seen, f);
      }
    }
  }

  lemma NotAllFinished(start: map<string, Store>, stores: map<string, Store>, folders: set<string>, remaining: set<string>,
                       seen: seq<Incoming>)
    requires Tracks(start, stores, folders, remaining, seen) && remaining <= folders <= stores.Keys && remaining != {}
    ensures !AllFinished(folders, seen)
  {
    var f :| f in remaining;
    assert TracksAt(start, stores, folders, remaining, seen, f);
  }

  /** Some folder was unfinished before each message read, and only the last can be a close. */
  ghost predicate Reading(folders: set<string>, msgs: seq<Incoming>, remaining: set<string>, used: nat)
  {
    && used <= |msgs| && remaining <= folders && (forall i :: 0 <= i < used - 1 ==> !msgs[i].Close?)
    && (used > 0 && msgs[used - 1].Close? ==> remaining != {})
    && (forall n: nat :: n < used ==> !AllFinished(folders, msgs[..n]))
  }

  lemma Outcome(start: map<string, Store>, stores: map<string, Store>, folders: set<string>, remaining: set<string>,
                msgs: seq<Incoming>, used: nat)
    requires Reading(folders, msgs, remaining, used) && Tracks(start, stores, folders, remaining, msgs[..used])
    requires folders <= stores.Keys && (remaining == {} || used == |msgs| || (used > 0 && msgs[used - 1].Close?))
    ensures remaining == {} <==> exists n: nat :: Arrives(folders, msgs, n)
    ensures remaining == {} ==> Arrives(folders, msgs, used) && forall n: nat :: n < used ==> !Arrives(folders, msgs, n)
  {
    if remaining == {} {
      assert forall f :: f in folders ==> TracksAt(start, stores, folders, remaining, msgs[..used], f);
      assert Arrives(folders, msgs, used);
    } else {
      NotAllFinished(start, stores, folders, remaining, msgs[..used]);
    }
  }

  /** A new exchange starts with no folder mid-stream. */
  function Idle(stores: map<string, Store>): map<string, Store>
  {
    map f | f in stores :: stores[f].(streaming := false)
  }

  /** The receiving side: the peer's view of every shared folder, updated frame by frame. */
  class Receiver {
    var stores: map<string, Store>

    method MergeIndex(folder: string, files: seq<FileInfo>, update: bool, final: bool)
      requires folder in stores
      modifies this
      ensures stores == old(stores)[folder := Merge(old(stores)[folder], Frame(files, update, final))]
    {
      var s := stores[folder];
      var base := if s.streaming || update then ViewOr(s) else map[];
      var partial := if s.streaming || update then s.partial else true;
      var view := Append(base, files);
      stores := stores[folder := Store(Some(view), partial && !final, !final)];
    }

    static method Append(base: View, files: seq<FileInfo>) returns (view: View)
      ensures view == Absorb(base, files)
    {
      view := base;
      for i := 0 to |files|
        invariant Absorb(view, files[i..]) == Absorb(base, files)
      {
        assert files[i..][1..] == files[i + 1..];
        view := view[files[i].name := Wire(files[i])];
      }
    }

    /** recvFullIndexes: reads until every folder has had its final frame, and not a message
        further; false exactly when the peer closes or the connection breaks first. Each folder
        ends up with exactly its own frames, whatever is interleaved, repeated after the final
        frame or addressed elsewhere. */
    method RecvFull(folders: set<string>, msgs: seq<Incoming>) returns (complete: bool, used: nat)
      requires folders <= stores.Keys
      modifies this
      ensures used <= |msgs| && stores.Keys == old(stores).Keys
      ensures forall f :: f in folders ==> stores[f] == MergeAll(Idle(old(stores))[f], FramesFor(msgs[..used], f))
      ensures forall f :: f in stores && f !in folders ==> stores[f] == Idle(old(stores))[f]
      ensures complete <==> exists n: nat :: Arrives(folders, msgs, n)
      ensures complete ==> Arrives(folders, msgs, used) && forall n: nat :: n < used ==> !Arrives(folders, msgs, n)
      ensures !complete ==> used == |msgs| || (used > 0 && msgs[used - 1].Close?)
      ensures forall i :: 0 <= i < used - 1 ==> !msgs[i].Close?
    {
      stores := Idle(stores);
      ghost var start := stores;
      var remaining;
      remaining, used := ReadFrames(folders, msgs);
      complete := remaining == {};
      Outcome(start, stores, folders, remaining, msgs, used);
      assert forall f :: f in stores ==> TracksAt(start, stores, folders, remaining, msgs[..used], f);
    }

    /** The read loop. */
    method ReadFrames(folders: set<string>, msgs: seq<Incoming>) returns (remaining: set<string>, used: nat)
      requires folders <= stores.Keys
      modifies this
      ensures Reading(folders, msgs, remaining, used) && stores.Keys == old(stores).Keys
      ensures Tracks(old(stores), stores, folders, remaining, msgs[..used])
      ensures remaining == {} || used == |msgs| || (used > 0 && msgs[used - 1].Close?)
    {
      remaining, used := folders, 0;
      assert msgs[..0] == [];
      while remaining != {} && used < |msgs| && (used == 0 || !msgs[used - 1].Close?)
        invariant stores.Keys == old(stores).Keys && Reading(folders, msgs, remaining, used)
        invariant Tracks(old(stores), stores, folders, remaining, msgs[..used])
        decreases |msgs| - used
      {
        var m := msgs[used];
        NotAllFinished(old(stores), stores, folders, remaining, msgs[..used]);
        assert msgs[..used + 1] == msgs[..used] + [m];
        ghost var before, left := stores, remaining;
        if m.Index? && m.folder in remaining {
          MergeIndex(m.folder, m.files, m.update, m.final);
          if m.final {
            remaining := remaining - {m.folder};
          }
        }
        TracksNext(old(stores), before, folders, left, msgs[..used], m, stores, remaining);
        used := used + 1;
      }
    }
  }

  lemma {:induction false} MergeAllAppends(s: Store, msgs: seq<Msg>, m: Msg)
    ensures MergeAll(s, msgs + [m]) == Merge(MergeAll(s, msgs), m)
    decreases |msgs|
  {
    if msgs == [] {
      assert [m][1..] == [];
      assert MergeAll(Merge(s, m), []) == Merge(s, m);
      assert msgs + [m] == [m];
    } else {
      assert (msgs + [m])[1..] == msgs[1..] + [m];
      MergeAllAppends(Merge(s, msgs[0]), msgs[1..], m);
    }
  }

  /** The continuation frames of a full send. */
  lemma {:induction false} ContinuationRebuilds(s: Store, files: seq<FileInfo>, k: nat)
    requires k > 0 && s.streaming && s.partial && s.view.Some?
    ensures var msgs := Frames(files, false, k);
            && MergeAll(s, msgs) == Store(Some(Absorb(s.view.value, files)), false, false)
            && forall i :: 0 <= i < |msgs| ==> MergeAll(s, msgs[..i]).partial
    decreases |files|
  {
    var msgs := Frames(files, false, k);
    assert msgs[..0] == [] && MergeAll(s, []) == s;
    var next := Merge(s, msgs[0]);
    if |files| <= k {
      assert msgs[1..] == [] && MergeAll(next, []) == next;
    } else {
      ContinuationRebuilds(next, files[k..], k);
      assert msgs[1..] == Frames(files[k..], false, k);
      AbsorbAppends(s.view.value, files[..k], files[k..]);
      assert files == files[..k] + files[k..];
      forall i | 1 <= i < |msgs| ensures MergeAll(s, msgs[..i]).partial {
        assert msgs[..i][1..] == msgs[1..][..i - 1];
      }
    }
  }

  /** A full send in frames of any size rebuilds exactly the listed entries, whatever the
      receiver held before, and from the first frame until the final one the view is
      marked partial. */
  lemma FullSendRebuilds(s: Store, files: seq<FileInfo>, k: nat)
    requires k > 0 && !s.streaming
    ensures var msgs := Frames(files, false, k);
            && MergeAll(s, msgs) == Store(Some(Absorb(map[], files)), false, false)
            && forall i :: 0 < i < |msgs| ==> MergeAll(s, msgs[..i]).partial
  {
    var msgs := Frames(files, false, k);
    var next := Merge(s, msgs[0]);
    if |files| <= k {
      assert msgs[1..] == [] && MergeAll(next, []) == next;
    } else {
      assert msgs[1..] == Frames(files[k..], false, k);
      ContinuationRebuilds(next, files[k..], k);
      AbsorbAppends(map[], files[..k], files[k..]);
      assert files == files[..k] + files[k..];
      forall i | 0 < i < |msgs| ensures MergeAll(s, msgs[..i]).partial {
        assert msgs[..i][1..] == msgs[1..][..i - 1];
      }
    }
  }

  /** A listing of an index is rebuilt name for name. */
  lemma ListingIsTheView(rows: View, files: seq<FileInfo>)
    requires forall n :: n in rows ==> rows[n].name == n && rows[n] in files
    requires forall f :: f in files ==> f.name in rows && rows[f.name] == f
    ensures Absorb(map[], files) == map n | n in rows :: Wire(rows[n])
  {
    var v := Absorb(map[], files);
    forall n ensures n in v <==> n in rows {
      AbsorbAt(map[], files, n);
    }
    forall n | n in v ensures v[n] == Wire(rows[n]) {
      AbsorbAt(map[], files, n);
    }
  }
}
