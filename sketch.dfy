/** The handlers' loops over the selection, the balls and the lasso: the hit test of
    mousePressed, insidePolygon, the selecting loops of mousePressed and mouseReleased, and
    the pre-drag record. Cursor position, canvas extent and the lists they walk are
    parameters. */
module Sketch {
  import opened Wrappers
  import opened Vectors
  import opened GraphSpec
  import opened Walls
  import opened Lasso
  import opened Node
  import opened Reader

  datatype Button = LeftButton | RightButton | CenterButton

  // ---------------------------------------------------------------------------------------
  // Which balls a loop acts on

  /** The indices below `n` that `keep` accepts, in increasing order: which balls a loop of the
      form `for (Ball b : balls) if (...)` acts on. */
  function Filter(n: nat, keep: nat -> bool): (r: seq<nat>)
    ensures Below(r, n)
  {
    if n == 0 then [] else Filter(n - 1, keep) + (if keep(n - 1) then [n - 1] else [])
  }

  /** The elements of `xs` at the indices `ix`. */
  function Pick<T>(xs: seq<T>, ix: seq<nat>): (r: seq<T>)
    requires Below(ix, |xs|)
    ensures |r| == |ix|
  {
    seq(|ix|, k requires 0 <= k < |ix| => xs[ix[k]])
  }

  /** An index `j` is kept exactly when it is below `n` and accepted. */
  lemma {:induction false} FilterMembers(n: nat, keep: nat -> bool, j: nat)
    ensures j in Filter(n, keep) <==> j < n && keep(j)
  {
    if n > 0 {
      FilterMembers(n - 1, keep, j);
    }
  }

  lemma FilterNext(n: nat, keep: nat -> bool)
    ensures Filter(n + 1, keep) == Filter(n, keep) + (if keep(n) then [n] else [])
  {
  }

  lemma PickAppend<T>(xs: seq<T>, ix: seq<nat>, j: nat)
    requires Below(ix, |xs|) && j < |xs|
    ensures Below(ix + [j], |xs|) && Pick(xs, ix + [j]) == Pick(xs, ix) + [xs[j]]
  {
    assert Below(ix + [j], |xs|);
    assert Pick(xs, ix + [j]) == Pick(xs, ix) + [xs[j]];
  }

  /** Picking one more index appends one more element after a fixed prefix. */
  lemma ExtendPicked<T>(base: seq<T>, xs: seq<T>, ix: seq<nat>, j: nat)
    requires Below(ix, |xs|) && j < |xs|
    ensures Below(ix + [j], |xs|) && base + Pick(xs, ix + [j]) == base + Pick(xs, ix) + [xs[j]]
  {
    PickAppend(xs, ix, j);
  }

  /** Every ball's position, in list order. */
  function Positions(bs: seq<Ball>): (ps: seq<Vec>)
    reads bs
    ensures |ps| == |bs| && forall i :: 0 <= i < |bs| ==> ps[i] == bs[i].position
  {
    seq(|bs|, i requires 0 <= i < |bs| reads bs => bs[i].position)
  }

  /** Every ball's radius, in list order. */
  function Sizes(bs: seq<Ball>): (rs: seq<real>)
    reads bs
    ensures |rs| == |bs| && forall i :: 0 <= i < |bs| ==> rs[i] == bs[i].ballSize
  {
    seq(|bs|, i requires 0 <= i < |bs| reads bs => bs[i].ballSize)
  }

  /** Does the cursor fall on ball `j`'s disc (centre `ps[j]`, radius `rs[j]`)? */
  function HitTest(ps: seq<Vec>, rs: seq<real>, mouse: Vec): nat -> bool {
    (j: nat) => j < |ps| && j < |rs| && WithinRadius(mouse, ps[j], rs[j])
  }

  /** The balls, by index, under the cursor. */
  function Hits(ps: seq<Vec>, rs: seq<real>, mouse: Vec): (r: seq<nat>)
    ensures Below(r, |ps|)
  {
    Filter(|ps|, HitTest(ps, rs, mouse))
  }

  /** Does insidePolygon put the centre of ball `j` inside the lasso? */
  function LassoTest(ps: seq<Vec>, lasso: seq<Vec>, w: real, h: real): nat -> bool {
    (j: nat) => j < |ps| && Inside(ps[j], lasso, lasso, w, h)
  }

  /** The balls, by index, whose centre is inside the lasso. */
  function Lassoed(ps: seq<Vec>, lasso: seq<Vec>, w: real, h: real): (r: seq<nat>)
    ensures Below(r, |ps|)
  {
    Filter(|ps|, LassoTest(ps, lasso, w, h))
  }

  /** A ball is hit exactly when the cursor is within its radius. */
  lemma HitsExactly(ps: seq<Vec>, rs: seq<real>, mouse: Vec, j: nat)
    requires |ps| == |rs|
    ensures j in Hits(ps, rs, mouse) <==> j < |ps| && WithinRadius(mouse, ps[j], rs[j])
  {
    FilterMembers(|ps|, HitTest(ps, rs, mouse), j);
  }

  /** A ball is lassoed exactly when its centre passes insidePolygon. */
  lemma LassoedExactly(ps: seq<Vec>, lasso: seq<Vec>, w: real, h: real, j: nat)
    ensures j in Lassoed(ps, lasso, w, h) <==> j < |ps| && Inside(ps[j], lasso, lasso, w, h)
  {
    FilterMembers(|ps|, LassoTest(ps, lasso, w, h), j);
  }

  // ---------------------------------------------------------------------------------------
  // insidePolygon

  /** The first loop of insidePolygon: the bounding box of the lasso, from the canvas extent
      down (minima) and from 0 up (maxima), with the `else if` updates. */
  method LassoBox(lasso: seq<Vec>, w: real, h: real) returns (minX: real, maxX: real, minY: real, maxY: real)
    ensures Box(minX, maxX, minY, maxY) == BoxOf(lasso, w, h)
  {
    minY, maxY, minX, maxX := h, 0.0, w, 0.0;
    var i := 0;
    while i < |lasso|
      invariant i <= |lasso|
      invariant Box(minX, maxX, minY, maxY) == BoxOf(lasso[..i], w, h)
    {
      var v := lasso[i];
      if v.x > maxX {
        maxX := v.x;
      } else if v.x < minX {
        minX := v.x;
      }
      if v.y > maxY {
        maxY := v.y;
      } else if v.y < minY {
        minY := v.y;
      }
      assert lasso[..i + 1][..i] == lasso[..i];
      i := i + 1;
    }
    assert lasso[..i] == lasso;
  }

  /** The second loop of insidePolygon: walk the closed loop of vertices, starting with the
      edge from the last vertex to the first, and flip the parity at every edge that crosses
      `here`'s row to its left. The division runs only for an edge that straddles the row, so
      its two ends have different heights. */
  method Crossings(here: Vec, polygon: seq<Vec>) returns (oddNodes: bool)
    requires polygon != []
    ensures oddNodes == Odd(polygon, here)
  {
    var k := |polygon| - 1;
    oddNodes := false;
    var endVertex := polygon[k];
    ghost var flips := Flips(polygon, here);
    var i := 0;
    while i < |polygon|
      invariant i <= |polygon|
      invariant oddNodes == Parity(flips[..i])
      invariant endVertex == if i == 0 then polygon[k] else polygon[i - 1]
    {
      var thisVertex := polygon[i];
      assert flips[..i + 1][..i] == flips[..i] && flips[i] == Toggles(thisVertex, endVertex, here);
      if Straddles(thisVertex, endVertex, here.y) {
        if CrossX(thisVertex, endVertex, here.y) < here.x {
          oddNodes := !oddNodes;
        }
      }
      endVertex := thisVertex;
      i := i + 1;
    }
    assert flips[..i] == flips;
  }

  /** insidePolygon(here, polygon), with the applet's `mousePositions`, `width` and `height`
      passed as `lasso`, `w` and `h`: the box of the lasso, then the crossing loop over
      `polygon`. The source reads `polygon`'s last vertex once the box test passes, so an empty
      polygon is only allowed when the box rejects the point. */
  method InsidePolygon(here: Vec, polygon: seq<Vec>, lasso: seq<Vec>, w: real, h: real) returns (inSelection: bool)
    requires polygon != [] || !InBox(here, BoxOf(lasso, w, h))
    ensures inSelection == Inside(here, polygon, lasso, w, h)
  {
    var minX, maxX, minY, maxY := LassoBox(lasso, w, h);
    if here.y > minY && here.y < maxY && here.x > minX && here.x < maxX {
      var oddNodes := Crossings(here, polygon);
      if oddNodes {
        inSelection := true;
      } else {
        inSelection := false;
      }
    } else {
      inSelection := false;
    }
  }

  // ---------------------------------------------------------------------------------------
  // The selection loops

  /** The selection is drawn from the balls, and a ball is flagged selected exactly when it is
      in the selection. */
  predicate Flagged(bs: seq<Ball>, sel: seq<Ball>)
    reads bs
  {
    && (forall o :: o in sel ==> o in bs)
    && (forall o :: o in bs ==> (o.isSelected <==> o in sel))
  }

  /** The loop of mousePressed over the selection: is the cursor on a selected ball? */
  method ClickingSelected(sel: seq<Ball>, mouse: Vec) returns (r: bool)
    ensures r <==> exists i :: 0 <= i < |sel| && WithinRadius(mouse, sel[i].position, sel[i].ballSize)
  {
    r := false;
    var i := 0;
    while i < |sel|
      invariant i <= |sel|
      invariant r <==> exists j :: 0 <= j < i && WithinRadius(mouse, sel[j].position, sel[j].ballSize)
    {
      var b := sel[i];
      if WithinRadius(mouse, b.position, b.ballSize) {
        r := true;
      }
      i := i + 1;
    }
  }

  /** `for (Ball b : selectedBalls) b.deSelect()`. */
  method Deselect(sel: seq<Ball>)
    modifies sel`isSelected
    ensures forall o :: o in sel ==> !o.isSelected
  {
    var i := 0;
    while i < |sel|
      invariant i <= |sel|
      invariant forall o :: o in sel[..i] ==> !o.isSelected
    {
      sel[i].DeSelect();
      assert sel[..i + 1] == sel[..i] + [sel[i]];
      i := i + 1;
    }
    assert sel[..i] == sel;
  }

  /** One pass of the selecting loops over ball `b` (at index `i`): when `hit`, the ball is
      appended to the selection, flagged, and a copy of its position appended to the pre-drag
      positions; `picked` lists the indices taken so far. */
  method Offer(bs: seq<Ball>, b: Ball, hit: bool, sel: seq<Ball>, pre: seq<Vec>, ghost i: nat,
               ghost keep: nat -> bool, ghost ps: seq<Vec>, ghost sel0: seq<Ball>, ghost pre0: seq<Vec>,
               ghost picked: seq<nat>)
    returns (sel': seq<Ball>, pre': seq<Vec>, ghost picked': seq<nat>)
    requires i < |bs| == |ps| && b == bs[i] && b.position == ps[i] && hit == keep(i)
    requires picked == Filter(i, keep) && Flagged(bs, sel)
    requires sel == sel0 + Pick(bs, picked) && pre == pre0 + Pick(ps, picked)
    modifies b`isSelected
    ensures picked' == Filter(i + 1, keep) && Flagged(bs, sel')
    ensures sel' == sel0 + Pick(bs, picked') && pre' == pre0 + Pick(ps, picked')
    ensures picked' == if hit then picked + [i] else picked
  {
    FilterNext(i, keep);
    sel', pre', picked' := sel, pre, picked;
    if hit {
      ExtendPicked(sel0, bs, picked, i);
      ExtendPicked(pre0, ps, picked, i);
      sel' := sel + [b];
      b.Select();
      pre' := pre + [b.position];
      picked' := picked + [i];
    }
  }

  /** One pass of the loop of mousePressed over ball `b` (at index `i`): a ball under the
      cursor sets `clicking` and is offered to the selection. */
  method Touch(bs: seq<Ball>, b: Ball, mouse: Vec, sel: seq<Ball>, pre: seq<Vec>, clicking: bool, ghost i: nat,
               ghost ps: seq<Vec>, ghost rs: seq<real>, ghost sel0: seq<Ball>, ghost pre0: seq<Vec>,
               ghost picked: seq<nat>)
    returns (sel': seq<Ball>, pre': seq<Vec>, clicking': bool, ghost picked': seq<nat>)
    requires i < |bs| == |ps| == |rs| && b == bs[i] && b.position == ps[i] && b.ballSize == rs[i]
    requires picked == Filter(i, HitTest(ps, rs, mouse)) && Flagged(bs, sel) && clicking == (|picked| > 0)
    requires sel == sel0 + Pick(bs, picked) && pre == pre0 + Pick(ps, picked)
    modifies b`isSelected
    ensures picked' == Filter(i + 1, HitTest(ps, rs, mouse)) && Flagged(bs, sel') && clicking' == (|picked'| > 0)
    ensures sel' == sel0 + Pick(bs, picked') && pre' == pre0 + Pick(ps, picked')
  {
    var hit := WithinRadius(mouse, b.position, b.ballSize);
    clicking' := clicking;
    if hit {
      clicking' := true;
    }
    sel', pre', picked' := Offer(bs, b, hit, sel, pre, i, HitTest(ps, rs, mouse), ps, sel0, pre0, picked);
  }

  /** The loop of mousePressed over all balls: every ball under the cursor is appended to the
      selection `sel0`, flagged, and a copy of its position appended to `pre0`. */
  method AddHits(bs: seq<Ball>, mouse: Vec, sel0: seq<Ball>, pre0: seq<Vec>)
    returns (sel: seq<Ball>, pre: seq<Vec>, clicking: bool)
    requires Flagged(bs, sel0)
    modifies bs`isSelected
    ensures var hits := Hits(old(Positions(bs)), old(Sizes(bs)), mouse);
      && sel == sel0 + Pick(bs, hits)
      && pre == pre0 + Pick(old(Positions(bs)), hits)
      && clicking == (|hits| > 0)
    ensures Flagged(bs, sel)
  {
    ghost var ps, rs := Positions(bs), Sizes(bs);
    ghost var picked: seq<nat> := [];
    sel, pre, clicking := sel0, pre0, false;
    var i := 0;
    while i < |bs|
      invariant i <= |bs| && picked == Filter(i, HitTest(ps, rs, mouse))
      invariant sel == sel0 + Pick(bs, picked)
      invariant pre == pre0 + Pick(ps, picked)
      invariant clicking == (|picked| > 0)
      invariant Flagged(bs, sel)
    {
      sel, pre, clicking, picked := Touch(bs, bs[i], mouse, sel, pre, clicking, i, ps, rs, sel0, pre0, picked);
      i := i + 1;
    }
  }

  /** The loop of mouseReleased over all balls: every ball whose centre insidePolygon puts in
      the lasso is appended to the selection `sel0`, flagged, and its position recorded. */
  method AddLassoed(bs: seq<Ball>, lasso: seq<Vec>, w: real, h: real, sel0: seq<Ball>, pre0: seq<Vec>)
    returns (sel: seq<Ball>, pre: seq<Vec>)
    requires Flagged(bs, sel0) && lasso != []
    modifies bs`isSelected
    ensures var chosen := Lassoed(old(Positions(bs)), lasso, w, h);
      && sel == sel0 + Pick(bs, chosen)
      && pre == pre0 + Pick(old(Positions(bs)), chosen)
    ensures Flagged(bs, sel)
  {
    ghost var ps := Positions(bs);
    ghost var keep := LassoTest(ps, lasso, w, h);
    ghost var picked: seq<nat> := [];
    sel, pre := sel0, pre0;
    var i := 0;
    while i < |bs|
      invariant i <= |bs| && picked == Filter(i, keep)
      invariant sel == sel0 + Pick(bs, picked)
      invariant pre == pre0 + Pick(ps, picked)
      invariant Flagged(bs, sel)
    {
      var b := bs[i];
      assert b in bs;
      var inside := InsidePolygon(b.position, lasso, lasso, w, h);
      sel, pre, picked := Offer(bs, b, inside, sel, pre, i, keep, ps, sel0, pre0, picked);
      i := i + 1;
    }
  }

  /** The else branch of mouseReleased: copies of the selection's current positions, in
      selection order. */
  method RecordPositions(sel: seq<Ball>) returns (pre: seq<Vec>)
    ensures |pre| == |sel| && forall i :: 0 <= i < |sel| ==> pre[i] == sel[i].position
  {
    pre := [];
    var i := 0;
    while i < |sel|
      invariant i <= |sel| && |pre| == i
      invariant forall j :: 0 <= j < i ==> pre[j] == sel[j].position
    {
      pre := pre + [sel[i].position];
      i := i + 1;
    }
  }
}
