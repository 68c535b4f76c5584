/** The high-score helpers of game.py:60-85 over an abstract file.

    The file is a sequence of integer scores, one per line, or absent. Appending
    creates it; reading returns the five best scores in descending order;
    updating and deleting act on that five-score view and rewrite the file with
    it, so they also discard every score outside the view. */
module ScoreStore {
  import opened GameConfig

  datatype ScoreFile = Absent | Present(lines: seq<int>)

  /** What a reader of the file sees: an absent file reads as no lines. */
  function Lines(f: ScoreFile): seq<int> {
    if f.Present? then f.lines else []
  }

  predicate SortedDesc(s: seq<int>) {
    forall i, j :: 0 <= i < j < |s| ==> s[i] >= s[j]
  }

  // ---------------------------------------------------------------- sorting

  lemma SortedTail(s: seq<int>)
    requires |s| > 0
    ensures SortedDesc(s) ==> SortedDesc(s[1..]) && (|s| == 1 || s[0] >= s[1])
  {
  }

  /** Putting an element no smaller than the head in front keeps a descending
      sequence descending. */
  lemma ConsSorted(a: int, r: seq<int>)
    ensures SortedDesc(r) && (|r| == 0 || a >= r[0]) ==> SortedDesc([a] + r)
  {
  }

  /** Insert x into a descending sequence, before the first element it is not
      smaller than. */
  function Insert(x: int, s: seq<int>): (r: seq<int>)
    ensures SortedDesc(s) ==> SortedDesc(r)
    ensures multiset(r) == multiset(s) + multiset{x}
    ensures |r| == |s| + 1
    ensures r[0] == if |s| == 0 then x else Max(x, s[0])
    decreases |s|
  {
    if |s| == 0 then [x]
    else if x >= s[0] then [x] + s
    else
      var rest := Insert(x, s[1..]);
      assert s == [s[0]] + s[1..];
      SortedTail(s);
      ConsSorted(s[0], rest);
      [s[0]] + rest
  }

  /** Descending insertion sort, taking the elements from the back. */
  function SortDesc(s: seq<int>): (r: seq<int>)
    ensures SortedDesc(r)
    ensures multiset(r) == multiset(s)
    decreases |s|
  {
    if |s| == 0 then []
    else
      assert s == s[..|s| - 1] + [s[|s| - 1]];
      Insert(s[|s| - 1], SortDesc(s[..|s| - 1]))
  }

  /** The first `k` elements, or all of them when there are fewer (Python's `[:k]`). */
  function Take(s: seq<int>, k: nat): (r: seq<int>)
    ensures |r| == Min(k, |s|)
    ensures r == s[..|r|]
  {
    if |s| <= k then s else s[..k]
  }

  // ---------------------------------------------------------------- sorted sequences

  /** The head of a descending sequence is its maximum. */
  lemma HeadIsMax(s: seq<int>, v: int)
    requires SortedDesc(s) && v in multiset(s)
    ensures |s| > 0 && v <= s[0]
  {
  }

  /** A descending order of a multiset is unique. */
  lemma {:induction false} SortedUnique(a: seq<int>, b: seq<int>)
    requires SortedDesc(a) && SortedDesc(b)
    requires multiset(a) == multiset(b)
    ensures a == b
    decreases |a|
  {
    if |a| == 0 {
      assert |b| == |multiset(b)| == 0;
    } else {
      assert a[0] in multiset(a);
      HeadIsMax(b, a[0]);
      assert b[0] in multiset(b);
      HeadIsMax(a, b[0]);
      assert a[0] == b[0];
      assert a == [a[0]] + a[1..];
      assert b == [b[0]] + b[1..];
      assert multiset(a[1..]) == multiset(a) - multiset{a[0]};
      assert multiset(b[1..]) == multiset(b) - multiset{b[0]};
      SortedUnique(a[1..], b[1..]);
    }
  }

  lemma SortDescOfSorted(s: seq<int>)
    requires SortedDesc(s)
    ensures SortDesc(s) == s
  {
    SortedUnique(SortDesc(s), s);
  }

  /** Whatever a prefix of a descending sequence leaves out is no larger than
      the prefix's last element. */
  lemma PrefixLeavesSmaller(s: seq<int>, k: nat)
    requires SortedDesc(s) && 0 < k <= |s|
    ensures forall v :: v in multiset(s) - multiset(s[..k]) ==> v <= s[k - 1]
  {
    assert s == s[..k] + s[k..];
    assert multiset(s) - multiset(s[..k]) == multiset(s[k..]);
    forall v | v in multiset(s) - multiset(s[..k])
      ensures v <= s[k - 1]
    {
      assert v in multiset(s[k..]);
      var j :| k <= j < |s| && s[j] == v;
    }
  }

  lemma PrefixSubMultiset(s: seq<int>, k: nat)
    requires k <= |s|
    ensures multiset(s[..k]) <= multiset(s)
  {
    assert s == s[..k] + s[k..];
  }

  // ---------------------------------------------------------------- the helpers

  /** create_score: open for append (creating the file if needed) and add one line. */
  function CreateScore(f: ScoreFile, score: int): (r: ScoreFile)
    ensures r.Present?
    ensures |r.lines| == |Lines(f)| + 1
    ensures r.lines[..|Lines(f)|] == Lines(f)
    ensures r.lines[|Lines(f)|] == score
  {
    Present(Lines(f) + [score])
  }

  /** read_scores: the five largest scores, largest first; no scores when the
      file is absent. */
  function ReadScores(f: ScoreFile): (r: seq<int>)
    ensures f.Absent? ==> r == []
    ensures |r| == Min(TopScores, |Lines(f)|)
    ensures SortedDesc(r)
    ensures multiset(r) <= multiset(Lines(f))
    ensures forall v :: v in multiset(Lines(f)) - multiset(r) ==>
              |r| == TopScores && v <= r[TopScores - 1]
  {
    var sorted := SortDesc(Lines(f));
    if |sorted| <= TopScores then sorted
    else
      PrefixLeavesSmaller(sorted, TopScores);
      PrefixSubMultiset(sorted, TopScores);
      sorted[..TopScores]
  }

  /** i is the position of the first occurrence of v in s. */
  predicate IsFirst(s: seq<int>, v: int, i: int) {
    0 <= i < |s| && s[i] == v && forall j :: 0 <= j < i ==> s[j] != v
  }

  /** Python's `list.index`. */
  function FirstIndex(s: seq<int>, v: int): (i: nat)
    requires v in s
    ensures IsFirst(s, v, i)
    decreases |s|
  {
    if s[0] == v then 0 else 1 + FirstIndex(s[1..], v)
  }

  /** update_score: replace the first occurrence of oldScore in the five-score
      view and rewrite the file with that view; no change if it is not there. */
  function UpdateScore(f: ScoreFile, oldScore: int, newScore: int): (r: ScoreFile)
    ensures oldScore !in ReadScores(f) ==> r == f
    ensures oldScore in ReadScores(f) ==>
              && r.Present?
              && |r.lines| == |ReadScores(f)|
              && exists i :: IsFirst(ReadScores(f), oldScore, i)
                             && r.lines[i] == newScore
                             && forall j :: 0 <= j < |r.lines| && j != i ==> r.lines[j] == ReadScores(f)[j]
  {
    var scores := ReadScores(f);
    if oldScore in scores then
      var i := FirstIndex(scores, oldScore);
      Present(scores[i := newScore])
    else f
  }

  /** delete_score: remove the first occurrence of the score from the
      five-score view and rewrite the file with that view; no change if it is
      not there. */
  function DeleteScore(f: ScoreFile, score: int): (r: ScoreFile)
    ensures score !in ReadScores(f) ==> r == f
    ensures score in ReadScores(f) ==>
              && r.Present?
              && |r.lines| == |ReadScores(f)| - 1
              && exists i :: IsFirst(ReadScores(f), score, i)
                             && r.lines == ReadScores(f)[..i] + ReadScores(f)[i + 1..]
  {
    var scores := ReadScores(f);
    if score in scores then
      var i := FirstIndex(scores, score);
      Present(scores[..i] + scores[i + 1..])
    else f
  }

  // ---------------------------------------------------------------- properties of the view

  /** The view depends only on which scores the file holds, not on their order
      in it. */
  lemma ReadScoresIgnoresOrder(f: ScoreFile, g: ScoreFile)
    requires multiset(Lines(f)) == multiset(Lines(g))
    ensures ReadScores(f) == ReadScores(g)
  {
    SortedUnique(SortDesc(Lines(f)), SortDesc(Lines(g)));
  }

  /** The view of a file that already holds at most five scores in descending
      order is the file itself. */
  lemma ReadScoresOfView(s: seq<int>)
    requires SortedDesc(s) && |s| <= TopScores
    ensures ReadScores(Present(s)) == s
  {
    SortDescOfSorted(s);
  }

  lemma TakeCons(a: int, s: seq<int>, k: nat)
    requires k > 0
    ensures Take([a] + s, k) == [a] + Take(s, k - 1)
  {
  }

  lemma InsertUnfold(x: int, s: seq<int>)
    requires |s| > 0
    ensures x >= s[0] ==> Insert(x, s) == [x] + s
    ensures x < s[0] ==> Insert(x, s) == [s[0]] + Insert(x, s[1..])
  {
  }

  /** Inserting and keeping k commutes with keeping k first: an element beyond
      position k never comes back into the first k. */
  lemma {:induction false} InsertTake(x: int, s: seq<int>, k: nat)
    ensures Take(Insert(x, s), k) == Take(Insert(x, Take(s, k)), k)
    decreases |s|
  {
    if |s| > k && k > 0 {
      var t := s[..k];
      assert Take(s, k) == t;
      InsertUnfold(x, s);
      InsertUnfold(x, t);
      if x >= s[0] {
        assert ([x] + s)[..k] == ([x] + t)[..k];
      } else {
        assert t[1..] == Take(s[1..], k - 1);
        InsertTake(x, s[1..], k - 1);
        TakeCons(s[0], Insert(x, s[1..]), k);
        TakeCons(s[0], Insert(x, t[1..]), k);
      }
    }
  }

  /** Appending a score changes the view as inserting it into the old view and
      keeping the best five. */
  lemma ReadAfterCreate(f: ScoreFile, score: int)
    ensures ReadScores(CreateScore(f, score)) == Take(Insert(score, ReadScores(f)), TopScores)
  {
    var l := Lines(f);
    assert Lines(CreateScore(f, score)) == l + [score];
    SortDescSnoc(l, score);
    ViewIsTake(f);
    ViewIsTake(CreateScore(f, score));
    InsertTake(score, SortDesc(l), TopScores);
  }

  lemma ViewIsTake(f: ScoreFile)
    ensures ReadScores(f) == Take(SortDesc(Lines(f)), TopScores)
  {
  }

  lemma SortDescSnoc(l: seq<int>, x: int)
    ensures SortDesc(l + [x]) == Insert(x, SortDesc(l))
  {
    assert (l + [x])[..|l|] == l;
  }

  /** If x is at least the element at position j, inserting puts x within the
      first j + 1 positions. */
  lemma {:induction false} InsertFront(x: int, s: seq<int>, j: nat)
    requires j < |s| && x >= s[j]
    ensures x in Insert(x, s)[..j + 1]
    decreases |s|
  {
    if x >= s[0] {
      assert Insert(x, s)[0] == x;
    } else {
      assert j > 0;
      InsertFront(x, s[1..], j - 1);
      assert Insert(x, s) == [s[0]] + Insert(x, s[1..]);
      assert Insert(x, s)[..j + 1] == [s[0]] + Insert(x, s[1..])[..j];
    }
  }

  /** A value smaller than everything goes to the end. */
  lemma {:induction false} InsertBelowAll(x: int, s: seq<int>)
    requires forall k :: 0 <= k < |s| ==> x < s[k]
    ensures Insert(x, s) == s + [x]
    decreases |s|
  {
    if |s| > 0 {
      InsertUnfold(x, s);
      InsertBelowAll(x, s[1..]);
      assert s + [x] == [s[0]] + (s[1..] + [x]);
    }
  }

  /** x survives keeping the best five of t with x inserted exactly when t has
      room or x is at least t's fifth element. */
  lemma InsertShows(x: int, t: seq<int>)
    requires SortedDesc(t) && |t| <= TopScores
    ensures x in Take(Insert(x, t), TopScores) <==> |t| < TopScores || x >= t[TopScores - 1]
  {
    if |t| < TopScores {
      assert x in multiset(Insert(x, t));
    } else if x >= t[TopScores - 1] {
      InsertFront(x, t, TopScores - 1);
    } else {
      InsertBelowTop(x, t);
    }
  }

  lemma InsertBelowTop(x: int, t: seq<int>)
    requires SortedDesc(t) && |t| == TopScores && x < t[TopScores - 1]
    ensures x !in Take(Insert(x, t), TopScores)
  {
    forall k | 0 <= k < |t|
      ensures x < t[k]
    {
      assert t[k] >= t[TopScores - 1];
    }
    InsertBelowAll(x, t);
    assert Take(t + [x], TopScores) == t;
  }

  /** A new score shows up in the high-score view exactly when fewer than five
      scores were recorded before or it is at least the fifth best. */
  lemma CreateShowsScore(f: ScoreFile, score: int)
    ensures score in ReadScores(CreateScore(f, score)) <==>
              |ReadScores(f)| < TopScores || score >= ReadScores(f)[TopScores - 1]
  {
    ReadAfterCreate(f, score);
    InsertShows(score, ReadScores(f));
  }

  /** After an update the view holds the old view's scores with one oldScore
      traded for newScore. */
  lemma ReadAfterUpdate(f: ScoreFile, oldScore: int, newScore: int)
    requires oldScore in ReadScores(f)
    ensures |ReadScores(UpdateScore(f, oldScore, newScore))| == |ReadScores(f)|
    ensures multiset(ReadScores(UpdateScore(f, oldScore, newScore)))
         == multiset(ReadScores(f)) - multiset{oldScore} + multiset{newScore}
  {
  }

  /** Updating a score of the view to itself rewrites the file with the view. */
  lemma UpdateToSameRewritesView(f: ScoreFile, score: int)
    requires score in ReadScores(f)
    ensures UpdateScore(f, score, score) == Present(ReadScores(f))
  {
  }

  /** Updating a score to itself leaves the view as it was (while the file
      loses every score outside the view). */
  lemma UpdateToSameKeepsView(f: ScoreFile, score: int)
    ensures ReadScores(UpdateScore(f, score, score)) == ReadScores(f)
  {
    var t := ReadScores(f);
    if score in t {
      var i := FirstIndex(t, score);
      assert t[i := score] == t;
      ReadScoresOfView(t);
    }
  }

  lemma RemoveMultiset(s: seq<int>, i: nat)
    requires i < |s|
    ensures multiset(s[..i] + s[i + 1..]) == multiset(s) - multiset{s[i]}
  {
    assert s == s[..i] + [s[i]] + s[i + 1..];
  }

  /** Removing one element keeps a descending sequence descending. */
  lemma RemoveKeepsSorted(s: seq<int>, i: nat)
    requires SortedDesc(s) && i < |s|
    ensures SortedDesc(s[..i] + s[i + 1..])
  {
  }

  /** After a delete the file is exactly the new view: the old view without the
      first occurrence of the score. */
  lemma ReadAfterDelete(f: ScoreFile, score: int)
    requires score in ReadScores(f)
    ensures ReadScores(DeleteScore(f, score)) == Lines(DeleteScore(f, score))
    ensures multiset(ReadScores(DeleteScore(f, score))) == multiset(ReadScores(f)) - multiset{score}
  {
    var t := ReadScores(f);
    var i := FirstIndex(t, score);
    var d := t[..i] + t[i + 1..];
    assert DeleteScore(f, score) == Present(d);
    RemoveKeepsSorted(t, i);
    ReadScoresOfView(d);
    RemoveMultiset(t, i);
  }

  /** The view of any file is the best five of any descending arrangement of
      its scores. */
  lemma ReadScoresOfArrangement(l: seq<int>, sorted: seq<int>)
    requires SortedDesc(sorted) && multiset(l) == multiset(sorted)
    ensures ReadScores(Present(l)) == Take(sorted, TopScores)
  {
    SortedUnique(SortDesc(l), sorted);
  }

  // The example lemmas below take the file's lines as a parameter pinned to a
  // literal by `requires`, which keeps the verifier from unfolding the sort on
  // the literal itself.

  lemma ExampleScores(l: seq<int>)
    requires l == [30, 10, 50, 20, 40, 5]
    ensures multiset(l) == multiset([50, 40, 30, 20, 10, 5])
  {
  }

  lemma ExampleHistory(l: seq<int>)
    requires l == [1, 2, 3, 4, 5, 6]
    ensures multiset(l) == multiset([6, 5, 4, 3, 2, 1])
  {
  }

  lemma HistoryView(l: seq<int>)
    requires l == [1, 2, 3, 4, 5, 6]
    ensures ReadScores(Present(l)) == [6, 5, 4, 3, 2]
  {
    var sorted := [6, 5, 4, 3, 2, 1];
    ExampleHistory(l);
    assert Take(sorted, TopScores) == [6, 5, 4, 3, 2];
    ReadScoresOfArrangement(l, sorted);
  }

  /** Six recorded scores read as the best five, largest first. */
  lemma ReadScoresExample(l: seq<int>)
    requires l == [30, 10, 50, 20, 40, 5]
    ensures ReadScores(Present(l)) == [50, 40, 30, 20, 10]
  {
    var sorted := [50, 40, 30, 20, 10, 5];
    ExampleScores(l);
    assert Take(sorted, TopScores) == [50, 40, 30, 20, 10];
    ReadScoresOfArrangement(l, sorted);
  }

  /** Updating and deleting rewrite the file with the view, so scores outside
      the best five are lost: updating 6 to itself drops the recorded 1. */
  lemma UpdateDropsHistory(l: seq<int>)
    requires l == [1, 2, 3, 4, 5, 6]
    ensures Lines(UpdateScore(Present(l), 6, 6)) == [6, 5, 4, 3, 2]
  {
    HistoryView(l);
    UpdateToSameRewritesView(Present(l), 6);
  }
}
