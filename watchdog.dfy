/** One scan of the daemon's torrent list: every torrent whose name has not
    been seen before is recorded in the evaluation cache and classified, and
    the decision becomes a remove or set-priorities call. */
module Watchdog {
  import opened Matcher
  import opened Classifier

  /** The calls the scan makes on the daemon. */
  datatype Action =
    | RemoveTorrent(id: string, removeData: bool)
    | SetFilePriorities(id: string, priorities: seq<int>)

  /** The calls that carry out one torrent's decision. */
  function ActionsFor(id: string, d: Decision): (r: seq<Action>)
    ensures |r| <= 1
    ensures |r| == 0 <==> d.NoAction?
    ensures forall a :: a in r ==> a.id == id
    ensures forall a :: a in r && a.RemoveTorrent? ==> a.removeData && d.Remove?
  {
    match d
    case NoAction => []
    case Remove(_) => [RemoveTorrent(id, true)]
    case Adjust(p) => [SetFilePriorities(id, p)]
  }

  /** The evaluation cache and the calls issued so far. */
  datatype State = State(cache: seq<string>, actions: seq<Action>)

  /** Handling one torrent: skip a cached name; otherwise record the name first,
      then issue the calls for its decision. */
  function Step(s: State, t: Torrent, unwanted: seq<string>, forbidden: seq<string>): (r: State)
    ensures t.name in s.cache ==> r == s
    ensures t.name !in s.cache ==> r.cache == s.cache + [t.name]
    ensures s.actions <= r.actions && |r.actions| <= |s.actions| + 1
    ensures forall k :: |s.actions| <= k < |r.actions| ==> r.actions[k].id == t.id
  {
    if t.name in s.cache then s
    else State(s.cache + [t.name], s.actions + ActionsFor(t.id, Decide(t, unwanted, forbidden)))
  }

  /** Handling a whole batch, torrent by torrent in reply order. */
  function Run(s: State, batch: seq<Torrent>, unwanted: seq<string>, forbidden: seq<string>): (r: State)
    ensures |s.actions| <= |r.actions|
    ensures forall k :: |s.actions| <= k < |r.actions| ==>
              exists j :: 0 <= j < |batch| && batch[j].id == r.actions[k].id
    decreases |batch|
  {
    if |batch| == 0 then s
    else Step(Run(s, batch[..|batch| - 1], unwanted, forbidden), batch[|batch| - 1], unwanted, forbidden)
  }

  predicate NoDuplicates(names: seq<string>)
  {
    forall i, j :: 0 <= i < j < |names| ==> names[i] != names[j]
  }

  /** The names of a batch, in order. */
  function Names(batch: seq<Torrent>): (r: seq<string>)
    ensures |r| == |batch|
    ensures forall i :: 0 <= i < |batch| ==> r[i] == batch[i].name
  {
    if |batch| == 0 then [] else [batch[0].name] + Names(batch[1..])
  }

  /** The watchdog process: its evaluation cache lives as long as it does. */
  class Service {
    var cache: seq<string>

    ghost predicate Valid()
      reads this
    {
      NoDuplicates(cache)
    }

    constructor ()
      ensures Valid() && cache == []
    {
      cache := [];
    }

    /** Scans one status reply, returning the daemon calls in the order they are made. */
    method ProcessBatch(batch: seq<Torrent>, unwanted: seq<string>, forbidden: seq<string>)
      returns (actions: seq<Action>)
      requires Valid()
      modifies this
      ensures Valid()
      ensures State(cache, actions) == Run(State(old(cache), []), batch, unwanted, forbidden)
    {
      actions := [];
      ghost var start := State(cache, []);
      for i := 0 to |batch|
        invariant State(cache, actions) == Run(start, batch[..i], unwanted, forbidden)
        invariant NoDuplicates(cache)
      {
        assert batch[..i + 1][..i] == batch[..i];
        var t := batch[i];
        if t.name in cache {
          continue;
        }
        cache := cache + [t.name];
        var d := ClassifyTorrent(t, unwanted, forbidden);
        match d {
          case NoAction =>
          case Remove(_) =>
            actions := actions + [RemoveTorrent(t.id, true)];
          case Adjust(p) =>
            actions := actions + [SetFilePriorities(t.id, p)];
        }
      }
      assert batch[..|batch|] == batch;
    }
  }

  // ---------------------------------------------------------------------------
  // Lemmas about the cache

  /** Handling a concatenation is handling the parts one after the other. */
  lemma {:induction false} RunAppend(s: State, b1: seq<Torrent>, b2: seq<Torrent>, unwanted: seq<string>, forbidden: seq<string>)
    ensures Run(s, b1 + b2, unwanted, forbidden) == Run(Run(s, b1, unwanted, forbidden), b2, unwanted, forbidden)
    decreases |b2|
  {
    if |b2| == 0 {
      assert b1 + b2 == b1;
    } else {
      var b2' := b2[..|b2| - 1];
      assert (b1 + b2)[..|b1 + b2| - 1] == b1 + b2';
      RunAppend(s, b1, b2', unwanted, forbidden);
    }
  }

  /** The cache and the call list only grow: the old ones are prefixes of the new. */
  lemma {:induction false} RunExtends(s: State, batch: seq<Torrent>, unwanted: seq<string>, forbidden: seq<string>)
    ensures s.cache <= Run(s, batch, unwanted, forbidden).cache
    ensures s.actions <= Run(s, batch, unwanted, forbidden).actions
    decreases |batch|
  {
    if |batch| > 0 {
      RunExtends(s, batch[..|batch| - 1], unwanted, forbidden);
    }
  }

  /** After a batch the cache holds exactly the old names and the batch's names. */
  lemma {:induction false} RunCacheContents(s: State, batch: seq<Torrent>, unwanted: seq<string>, forbidden: seq<string>)
    ensures forall x :: x in Run(s, batch, unwanted, forbidden).cache
                        <==> x in s.cache || x in Names(batch)
    decreases |batch|
  {
    if |batch| > 0 {
      var front := batch[..|batch| - 1];
      RunCacheContents(s, front, unwanted, forbidden);
      assert Names(batch) == Names(front) + [batch[|batch| - 1].name];
    }
  }

  /** Names are appended once each: a cache without repeats stays without repeats. */
  lemma {:induction false} RunKeepsNoDuplicates(s: State, batch: seq<Torrent>, unwanted: seq<string>, forbidden: seq<string>)
    requires NoDuplicates(s.cache)
    ensures NoDuplicates(Run(s, batch, unwanted, forbidden).cache)
    decreases |batch|
  {
    if |batch| > 0 {
      RunKeepsNoDuplicates(s, batch[..|batch| - 1], unwanted, forbidden);
    }
  }

  /** Each call belongs to a newly cached name: a batch makes at most as many calls
      as it adds names to the cache. */
  lemma {:induction false} RunActionsBounded(s: State, batch: seq<Torrent>, unwanted: seq<string>, forbidden: seq<string>)
    ensures var r := Run(s, batch, unwanted, forbidden);
            |r.actions| - |s.actions| <= |r.cache| - |s.cache| <= |batch|
    decreases |batch|
  {
    if |batch| > 0 {
      RunActionsBounded(s, batch[..|batch| - 1], unwanted, forbidden);
    }
  }

  /** A torrent whose name is already cached, from an earlier batch or earlier in
      this one, changes nothing: the batch behaves as if it were not there. */
  lemma CachedTorrentSkipped(s: State, b1: seq<Torrent>, t: Torrent, b2: seq<Torrent>, unwanted: seq<string>, forbidden: seq<string>)
    requires t.name in s.cache || t.name in Names(b1)
    ensures Run(s, b1 + [t] + b2, unwanted, forbidden) == Run(s, b1 + b2, unwanted, forbidden)
  {
    var mid := Run(s, b1, unwanted, forbidden);
    RunCacheContents(s, b1, unwanted, forbidden);
    assert Run(mid, [t], unwanted, forbidden) == mid by {
      assert [t][..0] == [];
    }
    RunAppend(s, b1 + [t], b2, unwanted, forbidden);
    RunAppend(s, b1, [t], unwanted, forbidden);
    RunAppend(s, b1, b2, unwanted, forbidden);
  }

  /** A batch of cached names makes no calls and leaves the cache as it is; in
      particular scanning the same reply again at the next tick does nothing. */
  lemma {:induction false} CachedBatchIdle(s: State, batch: seq<Torrent>, unwanted: seq<string>, forbidden: seq<string>)
    requires forall i :: 0 <= i < |batch| ==> batch[i].name in s.cache
    ensures Run(s, batch, unwanted, forbidden) == s
    decreases |batch|
  {
    if |batch| > 0 {
      CachedBatchIdle(s, batch[..|batch| - 1], unwanted, forbidden);
    }
  }

  /** The next tick re-scanning the same reply makes no calls. */
  lemma RescanIdle(cache: seq<string>, batch: seq<Torrent>, unwanted: seq<string>, forbidden: seq<string>)
    ensures var after := Run(State(cache, []), batch, unwanted, forbidden).cache;
            Run(State(after, []), batch, unwanted, forbidden) == State(after, [])
  {
    var after := Run(State(cache, []), batch, unwanted, forbidden).cache;
    RunCacheContents(State(cache, []), batch, unwanted, forbidden);
    CachedBatchIdle(State(after, []), batch, unwanted, forbidden);
  }

  /** A new torrent without files makes no call, yet its name is cached. */
  lemma NoFilesCachedWithoutCall(s: State, t: Torrent, unwanted: seq<string>, forbidden: seq<string>)
    requires t.name !in s.cache && |t.files| == 0
    ensures Step(s, t, unwanted, forbidden) == State(s.cache + [t.name], s.actions)
  {
    NoFilesNoAction(t, unwanted, forbidden);
  }

  /** A torrent first seen while its file list is still empty is cached without a
      call, so when it shows up again with its files, even a forbidden one, it is
      skipped: nothing ever removes it. */
  lemma PendingMetadataNeverRechecked(s: State, pending: Torrent, ready: Torrent, unwanted: seq<string>, forbidden: seq<string>)
    requires pending.name !in s.cache && |pending.files| == 0
    requires ready.name == pending.name
    ensures Run(s, [pending, ready], unwanted, forbidden) == State(s.cache + [pending.name], s.actions)
    ensures forall a :: a in Run(s, [pending, ready], unwanted, forbidden).actions ==> a in s.actions
  {
    NoFilesCachedWithoutCall(s, pending, unwanted, forbidden);
    assert [pending, ready][..1] == [pending];
    assert [pending][..0] == [];
    assert Run(s, [pending], unwanted, forbidden) == State(s.cache + [pending.name], s.actions);
  }

  /** A new torrent gets exactly the call its decision calls for: removal with
      its data when a forbidden file is present, otherwise the rewritten priorities. */
  lemma NewTorrentCall(s: State, t: Torrent, unwanted: seq<string>, forbidden: seq<string>)
    requires t.name !in s.cache && |t.files| > 0
    ensures var calls := Step(s, t, unwanted, forbidden).actions[|s.actions|..];
            (exists i :: 0 <= i < PairCount(t) && Matches(t.files[i], forbidden))
              ==> calls == [RemoveTorrent(t.id, true)]
    ensures var calls := Step(s, t, unwanted, forbidden).actions[|s.actions|..];
            (forall i :: 0 <= i < PairCount(t) ==> !Matches(t.files[i], forbidden))
              ==> calls == [SetFilePriorities(t.id, Adjusted(t.files, t.priorities, unwanted))]
  {
    RemoveIffForbidden(t, unwanted, forbidden);
    var after := Step(s, t, unwanted, forbidden).actions;
    assert after[|s.actions|..] == ActionsFor(t.id, Decide(t, unwanted, forbidden));
  }

  /** A torrent whose first file ends with ".exe" is removed when ".exe" is forbidden. */
  lemma ExampleRemoval()
    ensures Decide(Torrent("a", "Bad", ["x.exe", "y.txt"], [1, 1]), [".nfo"], [".exe"]) == Remove("x.exe")
  {
    var bad := Torrent("a", "Bad", ["x.exe", "y.txt"], [1, 1]);
    assert Matches("x.exe", [".exe"]) by {
      assert "x.exe"[1..] == ".exe";
      assert EndsWith("x.exe", [".exe"][0]);
    }
    assert PairCount(bad) == 2;
    FirstMatchIsUnique(bad.files[..2], [".exe"], 0);
  }

  /** A selected ".nfo" file is deselected and a ".mkv" file keeps its priority. */
  lemma ExampleAdjust()
    ensures Decide(Torrent("b", "Good", ["s.nfo", "m.mkv"], [1, 4]), [".nfo"], [".exe"]) == Adjust([0, 4])
  {
    var good := Torrent("b", "Good", ["s.nfo", "m.mkv"], [1, 4]);
    var u, f := [".nfo"], [".exe"];
    assert Matches("s.nfo", u) by {
      assert "s.nfo"[1..] == ".nfo";
      assert EndsWith("s.nfo", u[0]);
    }
    assert !Matches("s.nfo", f) by { assert "s.nfo"[1..] != ".exe"; }
    assert !Matches("m.mkv", u) by { assert "m.mkv"[1..] != ".nfo"; }
    assert !Matches("m.mkv", f) by { assert "m.mkv"[1..] != ".exe"; }
    assert good.files[..PairCount(good)] == good.files;
    assert FirstMatch(good.files, f).None?;
    assert good.files[1..] == ["m.mkv"] && good.priorities[1..] == [4];
    assert Adjusted(["m.mkv"], [4], u) == [4];
    assert Adjusted(good.files, good.priorities, u) == [0, 4];
  }

  /** Two new torrents with distinct names make the calls for their decisions, in order. */
  lemma {:induction false} TwoNewTorrents(s: State, t1: Torrent, t2: Torrent, unwanted: seq<string>, forbidden: seq<string>)
    requires t1.name !in s.cache && t2.name !in s.cache && t1.name != t2.name
    ensures Run(s, [t1, t2], unwanted, forbidden)
            == State(s.cache + [t1.name, t2.name],
                     s.actions + ActionsFor(t1.id, Decide(t1, unwanted, forbidden))
                               + ActionsFor(t2.id, Decide(t2, unwanted, forbidden)))
  {
    var s1 := Step(s, t1, unwanted, forbidden);
    assert Run(s, [t1], unwanted, forbidden) == s1 by { assert [t1][..0] == []; }
    assert [t1, t2][..1] == [t1];
    assert s.cache + [t1.name] + [t2.name] == s.cache + [t1.name, t2.name];
  }

  /** Two new torrents, one with a forbidden file and one with only an unwanted
      selected file: the first is removed with its data, the second gets that
      file deselected and its other priorities kept. */
  lemma TwoTorrentExample()
    ensures Run(State([], []),
                [Torrent("a", "Bad", ["x.exe", "y.txt"], [1, 1]),
                 Torrent("b", "Good", ["s.nfo", "m.mkv"], [1, 4])],
                [".nfo"], [".exe"])
            == State(["Bad", "Good"],
                     [RemoveTorrent("a", true), SetFilePriorities("b", [0, 4])])
  {
    ExampleRemoval();
    ExampleAdjust();
    TwoNewTorrents(State([], []), Torrent("a", "Bad", ["x.exe", "y.txt"], [1, 1]),
                   Torrent("b", "Good", ["s.nfo", "m.mkv"], [1, 4]), [".nfo"], [".exe"]);
  }
}
