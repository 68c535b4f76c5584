/** Axis-aligned rectangle overlap, as used for player/enemy collisions
    (game.py:186-189).

    The overlap rule is an ASSUMPTION about pygame's `Rect.colliderect`, which
    is not part of this model: rectangles are half-open, covering
    [left, left + width) x [top, top + height), so rectangles that only touch
    along an edge do not collide. */
module Collision {
  import opened GameConfig

  datatype Rect = Rect(left: int, top: int, width: int, height: int)

  predicate Covers(r: Rect, x: int, y: int) {
    r.left <= x < r.left + r.width && r.top <= y < r.top + r.height
  }

  /** The assumed colliderect rule: the extents overlap strictly on both axes. */
  predicate Overlaps(a: Rect, b: Rect) {
    && a.left < b.left + b.width
    && b.left < a.left + a.width
    && a.top < b.top + b.height
    && b.top < a.top + a.height
  }

  /** For non-empty rectangles the rule means exactly "some pixel is covered by
      both", which makes it symmetric. */
  lemma OverlapsIffSharedPixel(a: Rect, b: Rect)
    requires a.width > 0 && a.height > 0 && b.width > 0 && b.height > 0
    ensures Overlaps(a, b) <==> exists x, y :: Covers(a, x, y) && Covers(b, x, y)
    ensures Overlaps(a, b) <==> Overlaps(b, a)
  {
    if Overlaps(a, b) {
      var x := Max(a.left, b.left);
      var y := Max(a.top, b.top);
      assert Covers(a, x, y) && Covers(b, x, y);
    }
  }

  /** How many of the rectangles the player's rectangle overlaps. */
  function Hits(player: Rect, rs: seq<Rect>): (n: nat)
    ensures n <= |rs|
    ensures n == 0 <==> forall i :: 0 <= i < |rs| ==> !Overlaps(player, rs[i])
    ensures n == |rs| <==> forall i :: 0 <= i < |rs| ==> Overlaps(player, rs[i])
    ensures n == |set i: nat | i < |rs| && Overlaps(player, rs[i])|
    decreases |rs|
  {
    if |rs| == 0 then 0
    else
      HitIndicesSplit(player, rs);
      ShiftCard(set i: nat | i < |rs[1..]| && Overlaps(player, rs[1..][i]));
      (if Overlaps(player, rs[0]) then 1 else 0) + Hits(player, rs[1..])
  }

  /** Every index moved up by one. */
  function Shift(s: set<nat>): set<nat> {
    set i | i in s :: i + 1
  }

  lemma {:induction false} ShiftCard(s: set<nat>)
    ensures |Shift(s)| == |s|
    decreases |s|
  {
    if s != {} {
      var x :| x in s;
      var rest := s - {x};
      ShiftCard(rest);
      forall y | y in Shift(s)
        ensures y in Shift(rest) + {x + 1}
      {
        var i :| i in s && y == i + 1;
        if i != x {
          assert i in rest;
        }
      }
      assert Shift(s) == Shift(rest) + {x + 1};
      assert x + 1 !in Shift(rest);
    }
  }

  /** The overlapping indices of a non-empty sequence: possibly 0, and those of
      its tail moved up by one. */
  lemma HitIndicesSplit(player: Rect, rs: seq<Rect>)
    requires |rs| > 0
    ensures (set i: nat | i < |rs| && Overlaps(player, rs[i]))
         == (if Overlaps(player, rs[0]) then {0} else {})
            + Shift(set i: nat | i < |rs[1..]| && Overlaps(player, rs[1..][i]))
  {
    var tail := set i: nat | i < |rs[1..]| && Overlaps(player, rs[1..][i]);
    forall i: nat | i < |rs| && Overlaps(player, rs[i]) && i > 0
      ensures i in Shift(tail)
    {
      assert i - 1 in tail;
    }
  }

  /** Two different rectangles that both overlap the player count twice. */
  lemma {:induction false} TwoOverlapsCountTwice(player: Rect, rs: seq<Rect>, i: nat, j: nat)
    requires i < j < |rs|
    requires Overlaps(player, rs[i]) && Overlaps(player, rs[j])
    ensures Hits(player, rs) >= 2
    decreases |rs|
  {
    if i == 0 {
      assert Overlaps(player, rs[1..][j - 1]);
    } else {
      TwoOverlapsCountTwice(player, rs[1..], i - 1, j - 1);
    }
  }

  /** Two 50 x 100 cars: a player at (100, 500) and an enemy at (110, 550)
      collide; an enemy at (200, 0) does not. */
  lemma CollisionExamples()
    ensures Overlaps(Rect(100, 500, 50, 100), Rect(110, 550, 50, 100))
    ensures !Overlaps(Rect(100, 500, 50, 100), Rect(200, 0, 50, 100))
  {
  }
}
