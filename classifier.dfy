/** The per-torrent policy decision: walk the files and their priorities
    together, deselect selected files with an unwanted suffix, and stop at
    the first file with a forbidden suffix. */
module Classifier {
  import opened Matcher

  datatype Option<T> = None | Some(value: T)

  /** One torrent of the daemon's status reply: its id, display name, file
      paths and the current per-file priorities (0 means not downloaded). */
  datatype Torrent = Torrent(id: string, name: string, files: seq<string>, priorities: seq<int>)

  /** What the scan decides for one torrent. */
  datatype Decision =
    | NoAction                          // the torrent lists no files
    | Remove(forbiddenFile: string)     // the first file with a forbidden suffix
    | Adjust(priorities: seq<int>)      // the rewritten priority list

  function Min(a: nat, b: nat): nat
  {
    if a <= b then a else b
  }

  /** Number of (file, priority) pairs the scan walks: the shorter of the two lists. */
  function PairCount(t: Torrent): nat
  {
    Min(|t.files|, |t.priorities|)
  }

  /** The priority kept for one file: a selected file with an unwanted suffix is
      deselected, every other priority is copied. */
  function NewPriority(priority: int, file: string, unwanted: seq<string>): (r: int)
    ensures r == 0 || r == priority
    ensures r <= priority
    ensures priority <= 0 || !Matches(file, unwanted) ==> r == priority
  {
    if priority > 0 && Matches(file, unwanted) then 0 else priority
  }

  /** The priority list built by walking files and priorities pairwise. */
  function Adjusted(files: seq<string>, priorities: seq<int>, unwanted: seq<string>): (r: seq<int>)
    ensures |r| == Min(|files|, |priorities|)
    decreases |files|
  {
    if |files| == 0 || |priorities| == 0 then []
    else [NewPriority(priorities[0], files[0], unwanted)]
         + Adjusted(files[1..], priorities[1..], unwanted)
  }

  /** The index of the first name in `names` that matches `rules`, if any. */
  function FirstMatch(names: seq<string>, rules: seq<string>): (r: Option<nat>)
    ensures r.Some? ==> r.value < |names| && Matches(names[r.value], rules)
    ensures r.Some? ==> forall j :: 0 <= j < r.value ==> !Matches(names[j], rules)
    ensures r.None? ==> forall j :: 0 <= j < |names| ==> !Matches(names[j], rules)
  {
    if |names| == 0 then None
    else if Matches(names[0], rules) then Some(0)
    else
      match FirstMatch(names[1..], rules)
      case None =>
        assert forall j :: 1 <= j < |names| ==> names[j] == names[1..][j - 1];
        None
      case Some(k) =>
        assert forall j :: 1 <= j < k + 1 ==> names[j] == names[1..][j - 1];
        Some(k + 1)
  }

  /** The decision for one torrent: nothing for an empty file list, removal for
      the first forbidden file among the walked pairs, otherwise the rewritten
      priorities. */
  function Decide(t: Torrent, unwanted: seq<string>, forbidden: seq<string>): (r: Decision)
    ensures r.NoAction? <==> |t.files| == 0
    ensures r.Remove? ==> exists i :: 0 <= i < PairCount(t) && t.files[i] == r.forbiddenFile
                                      && Matches(t.files[i], forbidden)
    ensures r.Adjust? ==> |r.priorities| == PairCount(t)
  {
    if |t.files| == 0 then NoAction
    else
      match FirstMatch(t.files[..PairCount(t)], forbidden)
      case Some(i) => Remove(t.files[i])
      case None => Adjust(Adjusted(t.files, t.priorities, unwanted))
  }

  // ---------------------------------------------------------------------------
  // The scan as the daemon script runs it

  /** Walks the file/priority pairs in order, building the new priority list and
      stopping at the first forbidden file. */
  method ClassifyTorrent(t: Torrent, unwanted: seq<string>, forbidden: seq<string>)
    returns (d: Decision)
    ensures d == Decide(t, unwanted, forbidden)
  {
    if |t.files| == 0 {
      return NoAction;
    }
    var priorities: seq<int> := [];
    var isForbidden := false;
    var forbiddenFile := "";
    var n := PairCount(t);
    var i := 0;
    while i < n
      invariant 0 <= i <= n == PairCount(t)
      invariant priorities == Adjusted(t.files[..i], t.priorities[..i], unwanted)
      invariant !isForbidden
      invariant forall j :: 0 <= j < i ==> !Matches(t.files[j], forbidden)
    {
      var file, priority := t.files[i], t.priorities[i];
      AdjustedSnoc(t.files, t.priorities, unwanted, i);
      if priority > 0 {
        if Matches(file, unwanted) {
          priorities := priorities + [0];
        } else {
          priorities := priorities + [priority];
        }
      } else {
        priorities := priorities + [priority];
      }
      if Matches(file, forbidden) {
        forbiddenFile := file;
        isForbidden := true;
        break;
      }
      i := i + 1;
    }
    ghost var walked := t.files[..n];
    if isForbidden {
      FirstMatchIsUnique(walked, forbidden, i);
      d := Remove(forbiddenFile);
    } else {
      assert forall j :: 0 <= j < n ==> walked[j] == t.files[j];
      AdjustedTruncate(t.files, t.priorities, unwanted);
      d := Adjust(priorities);
    }
  }

  // ---------------------------------------------------------------------------
  // Lemmas about the priority rewrite

  /** Extending the walked prefix by one pair appends that pair's new priority. */
  lemma {:induction false} AdjustedSnoc(files: seq<string>, priorities: seq<int>, unwanted: seq<string>, i: nat)
    requires i < |files| && i < |priorities|
    ensures Adjusted(files[..i + 1], priorities[..i + 1], unwanted)
            == Adjusted(files[..i], priorities[..i], unwanted) + [NewPriority(priorities[i], files[i], unwanted)]
  {
    if i > 0 {
      AdjustedSnoc(files[1..], priorities[1..], unwanted, i - 1);
      assert files[..i + 1][1..] == files[1..][..i];
      assert priorities[..i + 1][1..] == priorities[1..][..i];
      assert files[..i][1..] == files[1..][..i - 1];
      assert priorities[..i][1..] == priorities[1..][..i - 1];
    }
  }

  /** Only the walked pairs contribute to the rewritten list. */
  lemma {:induction false} AdjustedTruncate(files: seq<string>, priorities: seq<int>, unwanted: seq<string>)
    ensures var n := Min(|files|, |priorities|);
            Adjusted(files[..n], priorities[..n], unwanted) == Adjusted(files, priorities, unwanted)
  {
    var n := Min(|files|, |priorities|);
    if n > 0 {
      AdjustedTruncate(files[1..], priorities[1..], unwanted);
      assert files[..n][1..] == files[1..][..n - 1];
      assert priorities[..n][1..] == priorities[1..][..n - 1];
    }
  }

  /** The rewritten list has one entry per walked pair: a selected file with an
      unwanted suffix gets 0, every other entry keeps its priority. */
  lemma {:induction false} AdjustedAt(files: seq<string>, priorities: seq<int>, unwanted: seq<string>)
    ensures |Adjusted(files, priorities, unwanted)| == Min(|files|, |priorities|)
    ensures forall i :: 0 <= i < Min(|files|, |priorities|) ==>
              Adjusted(files, priorities, unwanted)[i]
              == (if priorities[i] > 0 && Matches(files[i], unwanted) then 0 else priorities[i])
    decreases |files|
  {
    if |files| > 0 && |priorities| > 0 {
      AdjustedAt(files[1..], priorities[1..], unwanted);
    }
  }

  /** The rewrite never raises a priority, copies every entry at or below 0, and
      sets each entry either to 0 or to its old value. */
  lemma AdjustedNeverIncreases(files: seq<string>, priorities: seq<int>, unwanted: seq<string>)
    ensures forall i :: 0 <= i < |Adjusted(files, priorities, unwanted)| ==>
              Adjusted(files, priorities, unwanted)[i] <= priorities[i]
    ensures forall i :: 0 <= i < |Adjusted(files, priorities, unwanted)| && priorities[i] <= 0 ==>
              Adjusted(files, priorities, unwanted)[i] == priorities[i]
    ensures forall i :: 0 <= i < |Adjusted(files, priorities, unwanted)| ==>
              Adjusted(files, priorities, unwanted)[i] in {0, priorities[i]}
  {
    AdjustedAt(files, priorities, unwanted);
  }

  /** Rewriting the rewritten list against the same files changes nothing. */
  lemma {:induction false} AdjustedIdempotent(files: seq<string>, priorities: seq<int>, unwanted: seq<string>)
    ensures Adjusted(files, Adjusted(files, priorities, unwanted), unwanted) == Adjusted(files, priorities, unwanted)
    decreases |files|
  {
    if |files| > 0 && |priorities| > 0 {
      AdjustedIdempotent(files[1..], priorities[1..], unwanted);
    }
  }

  // ---------------------------------------------------------------------------
  // Lemmas about the decision

  /** The first-match characterisation determines the index. */
  lemma FirstMatchIsUnique(names: seq<string>, rules: seq<string>, i: nat)
    requires i < |names| && Matches(names[i], rules)
    requires forall j :: 0 <= j < i ==> !Matches(names[j], rules)
    ensures FirstMatch(names, rules) == Some(i)
  {
    var r := FirstMatch(names, rules);
    if r.Some? {
      assert !(r.value < i) && !(i < r.value);
    }
  }

  /** A torrent without files is left alone, whatever its priorities and the rules. */
  lemma NoFilesNoAction(t: Torrent, unwanted: seq<string>, forbidden: seq<string>)
    requires |t.files| == 0
    ensures Decide(t, unwanted, forbidden) == NoAction
  {
  }

  /** A torrent is removed exactly when some walked file has a forbidden suffix,
      and the reported file is the first such file. */
  lemma RemoveIffForbidden(t: Torrent, unwanted: seq<string>, forbidden: seq<string>)
    ensures Decide(t, unwanted, forbidden).Remove?
            <==> exists i :: 0 <= i < PairCount(t) && Matches(t.files[i], forbidden)
    ensures forall i :: 0 <= i < PairCount(t) && Matches(t.files[i], forbidden)
                        && (forall j :: 0 <= j < i ==> !Matches(t.files[j], forbidden))
                ==> Decide(t, unwanted, forbidden) == Remove(t.files[i])
  {
    var n := PairCount(t);
    var walked := t.files[..n];
    assert forall j :: 0 <= j < n ==> walked[j] == t.files[j];
    forall i | 0 <= i < n && Matches(t.files[i], forbidden)
               && (forall j :: 0 <= j < i ==> !Matches(t.files[j], forbidden))
      ensures Decide(t, unwanted, forbidden) == Remove(t.files[i])
    {
      FirstMatchIsUnique(walked, forbidden, i);
    }
    if exists i :: 0 <= i < n && Matches(t.files[i], forbidden) {
      var r := FirstMatch(walked, forbidden);
      assert r.Some?;
    }
  }

  /** A file matching both lists causes removal: the forbidden list wins. */
  lemma ForbiddenBeatsUnwanted(t: Torrent, unwanted: seq<string>, forbidden: seq<string>, i: nat)
    requires i < PairCount(t)
    requires Matches(t.files[i], forbidden) && Matches(t.files[i], unwanted)
    ensures Decide(t, unwanted, forbidden).Remove?
    ensures !Decide(t, unwanted, forbidden).Adjust?
  {
    RemoveIffForbidden(t, unwanted, forbidden);
  }

  /** Once file i is forbidden, no later file or priority is looked at: any
      torrent that agrees on the first i + 1 files gets the same decision. */
  lemma LaterFilesIgnored(t: Torrent, t': Torrent, unwanted: seq<string>, forbidden: seq<string>, i: nat)
    requires i < PairCount(t) && i < PairCount(t')
    requires Matches(t.files[i], forbidden)
    requires t.files[..i + 1] == t'.files[..i + 1]
    ensures Decide(t', unwanted, forbidden) == Decide(t, unwanted, forbidden)
  {
    assert forall j :: 0 <= j <= i ==> t.files[j] == t.files[..i + 1][j] == t'.files[j];
    var walked := t.files[..PairCount(t)];
    assert walked[i] == t.files[i];
    var r := FirstMatch(walked, forbidden);
    assert r.Some?;
    var k := r.value;
    assert walked[k] == t.files[k];
    assert k <= i;
    assert forall j :: 0 <= j < k ==> walked[j] == t.files[j];
    RemoveIffForbidden(t, unwanted, forbidden);
    RemoveIffForbidden(t', unwanted, forbidden);
    assert Decide(t, unwanted, forbidden) == Remove(t.files[k]);
    assert Decide(t', unwanted, forbidden) == Remove(t'.files[k]);
  }

  /** Without a forbidden file the decision is the rewritten list, one entry per
      walked pair. */
  lemma AdjustWhenNoForbidden(t: Torrent, unwanted: seq<string>, forbidden: seq<string>)
    requires |t.files| > 0
    requires forall i :: 0 <= i < PairCount(t) ==> !Matches(t.files[i], forbidden)
    ensures Decide(t, unwanted, forbidden).Adjust?
    ensures var p := Decide(t, unwanted, forbidden).priorities;
            |p| == PairCount(t) &&
            forall i :: 0 <= i < |p| ==>
              p[i] == (if t.priorities[i] > 0 && Matches(t.files[i], unwanted) then 0 else t.priorities[i])
  {
    RemoveIffForbidden(t, unwanted, forbidden);
    AdjustedAt(t.files, t.priorities, unwanted);
  }
}
