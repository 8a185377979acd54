/** The applet's own loops over the balls that move them or change their equilibrium
    distance, and the applet object with its mouse and key handlers. */
module Applet {
  import opened Wrappers
  import opened Vectors
  import opened GraphSpec
  import opened Walls
  import opened Lasso
  import opened Node
  import opened Reader
  import opened Sketch

  // ---------------------------------------------------------------------------------------
  // explode

  /** The velocity explode adds for the offset `r` from the cursor to a ball: `r` normalised,
      times `w * 100 / |r|`, which is `r` scaled by `w * 100 / |r|^2`. */
  function Kick(r: Vec, w: real): Vec
    requires SqNorm(r) != 0.0
  {
    Scale(r, w * 100.0 / SqNorm(r))
  }

  /** The kick points away from the cursor and its length is `w * 100 / |r|`: its squared
      length times `|r|^2` is `(w * 100)^2`. */
  lemma KickMagnitude(r: Vec, w: real)
    requires SqNorm(r) != 0.0
    ensures var k := w * 100.0 / SqNorm(r);
      Kick(r, w) == Scale(r, k) && (w > 0.0 ==> k > 0.0)
    ensures SqNorm(Kick(r, w)) * SqNorm(r) == (w * 100.0) * (w * 100.0)
  {
    var s, c := SqNorm(r), w * 100.0;
    var k := c / s;
    assert SqNorm(Scale(r, k)) == k * k * s;
    assert k * s == c;
    calc {
      k * k * s * s;
      (k * s) * (k * s);
      c * c;
    }
  }

  /** The velocity of a ball that occurs `n` times in the list after explode: one kick per
      occurrence. */
  function Kicked(v: Vec, kick: Vec, n: nat): Vec {
    Add(v, Scale(kick, n as real))
  }

  /** One more occurrence, one more kick. */
  lemma KickedNext(v: Vec, kick: Vec, n: nat)
    ensures Kicked(v, kick, n + 1) == Add(Kicked(v, kick, n), kick)
  {
  }

  /** No ball in the list has its centre exactly at the cursor, so explode's division by
      the distance is defined. */
  predicate OffCentres(bs: seq<Ball>, mouse: Vec)
    reads bs
  {
    forall o :: o in bs ==> SqNorm(Sub(o.position, mouse)) != 0.0
  }

  /** explode(), with Processing's `mouseX`, `mouseY` as `mouse` and `width` as `w`: every
      ball in the list gets the kick away from the cursor, once per occurrence in the list. */
  method Explode(bs: seq<Ball>, mouse: Vec, w: real)
    requires OffCentres(bs, mouse)
    modifies bs`velocity
    ensures forall o :: o in bs ==> o.velocity == Kicked(old(o.velocity), Kick(Sub(o.position, mouse), w), multiset(bs)[o])
  {
    var i := 0;
    while i < |bs|
      invariant i <= |bs|
      invariant forall o :: o in bs ==> o.velocity == Kicked(old(o.velocity), Kick(Sub(o.position, mouse), w), multiset(bs[..i])[o])
    {
      var b := bs[i];
      assert b in bs;
      var radius := Sub(b.position, mouse);
      KickedNext(old(b.velocity), Kick(radius, w), multiset(bs[..i])[b]);
      b.velocity := Add(b.velocity, Kick(radius, w));
      assert bs[..i + 1] == bs[..i] + [b];
      i := i + 1;
    }
    assert bs[..i] == bs;
  }

  // ---------------------------------------------------------------------------------------
  // Keys q and a

  /** eqDistanceUpdate */
  const EqDistanceUpdate: real := 0.03

  /** `d` multiplied by `f`, `n` times over. */
  function Scaled(d: real, f: real, n: nat): real {
    if n == 0 then d else Scaled(d, f, n - 1) * f
  }

  /** The loop of key q or a: every ball's desired equilibrium distance is multiplied by
      `factor`, once per occurrence in the list. */
  method ScaleEquilibrium(bs: seq<Ball>, factor: real)
    modifies bs`desiredEquilibriumDistance
    ensures forall o :: o in bs ==> o.desiredEquilibriumDistance == Scaled(old(o.desiredEquilibriumDistance), factor, multiset(bs)[o])
  {
    var i := 0;
    while i < |bs|
      invariant i <= |bs|
      invariant forall o :: o in bs ==> o.desiredEquilibriumDistance == Scaled(old(o.desiredEquilibriumDistance), factor, multiset(bs[..i])[o])
    {
      var b := bs[i];
      assert b in bs;
      assert bs[..i + 1] == bs[..i] + [b];
      ScaleOne(bs, b, i, factor, old(b.desiredEquilibriumDistance));
      i := i + 1;
    }
    assert bs[..i] == bs;
  }

  /** One pass of that loop, over ball `b` at index `i`. */
  method ScaleOne(bs: seq<Ball>, b: Ball, i: nat, factor: real, ghost d0: real)
    requires i < |bs| && b == bs[i] && b.desiredEquilibriumDistance == Scaled(d0, factor, multiset(bs[..i])[b])
    modifies b`desiredEquilibriumDistance
    ensures b.desiredEquilibriumDistance == Scaled(d0, factor, multiset(bs[..i + 1])[b])
  {
    assert bs[..i + 1] == bs[..i] + [b];
    b.desiredEquilibriumDistance := b.desiredEquilibriumDistance * factor;
  }

  /** The factor of key q and the factor of key a. */
  const Grow: real := 1.0 + EqDistanceUpdate
  const Shrink: real := 1.0 - EqDistanceUpdate

  /** Repeating q keeps growing a positive distance, and never below where it started. */
  lemma {:induction false} GrowMonotone(d: real, n: nat)
    requires d > 0.0
    ensures Scaled(d, Grow, n + 1) > Scaled(d, Grow, n) >= d
  {
    if n > 0 {
      GrowMonotone(d, n - 1);
    }
  }

  /** Repeating a keeps shrinking a positive distance, which stays positive. */
  lemma {:induction false} ShrinkMonotone(d: real, n: nat)
    requires d > 0.0
    ensures 0.0 < Scaled(d, Shrink, n + 1) < Scaled(d, Shrink, n) <= d
  {
    if n > 0 {
      ShrinkMonotone(d, n - 1);
    }
  }

  /** Key a after key q does not give a positive distance back: 1.03 * 0.97 < 1. */
  lemma GrowThenShrink(d: real)
    requires d > 0.0
    ensures Scaled(Scaled(d, Grow, 1), Shrink, 1) < d
  {
  }

  // ---------------------------------------------------------------------------------------
  // displayBalls

  /** The balls in the list, by index, that are `o`: how often and when the loop of
      displayBalls reaches it. */
  function IsAt(bs: seq<Ball>, o: Ball): nat -> bool {
    (j: nat) => j < |bs| && bs[j] == o
  }

  function Occurrences(bs: seq<Ball>, o: Ball): (r: seq<nat>)
    ensures Below(r, |bs|)
  {
    Filter(|bs|, IsAt(bs, o))
  }

  /** update once computeForce returned `force`, then checkWalls, for a ball of mass 1. */
  function Tick(s: (Vec, Vec), force: Vec, dt: real, w: real, h: real): (Vec, Vec) {
    var (p, v) := Integrate(s.0, s.1, force, 1.0, dt);
    Collide(p, v, w, h)
  }

  /** Ticks in order, one per force. */
  function Evolve(s: (Vec, Vec), forces: seq<Vec>, dt: real, w: real, h: real): (Vec, Vec) {
    if forces == [] then s else Tick(Evolve(s, forces[..|forces| - 1], dt, w, h), forces[|forces| - 1], dt, w, h)
  }

  /** A ball that was ticked at least once, on a canvas at least `Eps` wide and high, ends on
      the canvas. */
  lemma EvolveInCanvas(s: (Vec, Vec), forces: seq<Vec>, dt: real, w: real, h: real)
    requires |forces| > 0 && w >= Eps && h >= Eps
    ensures InCanvas(Evolve(s, forces, dt, w, h).0, w, h)
  {
    var (p, v) := Integrate(Evolve(s, forces[..|forces| - 1], dt, w, h).0, Evolve(s, forces[..|forces| - 1], dt, w, h).1, forces[|forces| - 1], 1.0, dt);
    CollideLandsInside(p, v, w, h);
  }

  /** The time step of update at the applet's frame rate: playbackSpeed / framerate. */
  function TimeStep(framerate: real): real
    requires framerate != 0.0
  {
    5.0 * (1.0 / framerate)
  }

  /** Where the loop of displayBalls leaves ball `o`, which stood at `s`: advanced once per
      occurrence, with that occurrence's force, when it moves at all. */
  function Moved(s: (Vec, Vec), moves: bool, forces: seq<Vec>, dt: real, w: real, h: real): (Vec, Vec) {
    if moves then Evolve(s, forces, dt, w, h) else s
  }

  /** Ball `b`, at index `i` of the list, in one pass of the loop of displayBalls. */
  method AdvanceOne(bs: seq<Ball>, b: Ball, i: nat, force: Vec, moves: bool, framerate: real, w: real, h: real,
                    ghost s: (Vec, Vec), ghost forces: seq<Vec>)
    requires i < |bs| == |forces| && b == bs[i] && force == forces[i] && framerate != 0.0 && b.Constants()
    requires (b.position, b.velocity) == Moved(s, moves, Pick(forces, Filter(i, IsAt(bs, b))), TimeStep(framerate), w, h)
    modifies b`position, b`velocity
    ensures (b.position, b.velocity) == Moved(s, moves, Pick(forces, Filter(i + 1, IsAt(bs, b))), TimeStep(framerate), w, h)
  {
    ghost var dt := TimeStep(framerate);
    ghost var ix := Filter(i, IsAt(bs, b));
    FilterNext(i, IsAt(bs, b));
    PickAppend(forces, ix, i);
    assert Pick(forces, ix + [i])[..|ix|] == Pick(forces, ix);
    if moves {
      b.Update(framerate, force);
      b.CheckWalls(w, h);
    }
  }

  /** displayBalls, once computeForce has given `forces[i]` for the `i`-th pass: every ball
      that `moves` admits is advanced once per occurrence in the list, with that pass's force;
      the others stay where they are. */
  method Advance(bs: seq<Ball>, forces: seq<Vec>, moves: Ball -> bool, framerate: real, w: real, h: real)
    requires |forces| == |bs| && framerate != 0.0 && forall o :: o in bs ==> o.Constants()
    modifies bs`position, bs`velocity
    ensures forall o :: o in bs ==>
      (o.position, o.velocity) == Moved((old(o.position), old(o.velocity)), moves(o), Pick(forces, Occurrences(bs, o)), TimeStep(framerate), w, h)
  {
    var i := 0;
    while i < |bs|
      invariant i <= |bs|
      invariant forall o :: o in bs ==>
        (o.position, o.velocity) == Moved((old(o.position), old(o.velocity)), moves(o), Pick(forces, Filter(i, IsAt(bs, o))), TimeStep(framerate), w, h)
    {
      var b := bs[i];
      assert b in bs;
      forall o | o in bs && o != b
        ensures Filter(i + 1, IsAt(bs, o)) == Filter(i, IsAt(bs, o))
      {
        FilterNext(i, IsAt(bs, o));
      }
      AdvanceOne(bs, b, i, forces[i], moves(b), framerate, w, h, (old(b.position), old(b.velocity)), forces);
      i := i + 1;
    }
  }

  /** A ball that moved ends on the canvas. */
  lemma MovedInCanvas(bs: seq<Ball>, o: Ball, s: (Vec, Vec), forces: seq<Vec>, dt: real, w: real, h: real)
    requires o in bs && |forces| == |bs| && w >= Eps && h >= Eps
    ensures InCanvas(Moved(s, true, Pick(forces, Occurrences(bs, o)), dt, w, h).0, w, h)
  {
    var j :| 0 <= j < |bs| && bs[j] == o;
    FilterMembers(|bs|, IsAt(bs, o), j);
    EvolveInCanvas(s, Pick(forces, Occurrences(bs, o)), dt, w, h);
  }

  // ---------------------------------------------------------------------------------------
  // mouseDragged

  /** The last index at which `x` occurs in `s`. */
  function LastIndex<T(==)>(s: seq<T>, x: T): (i: nat)
    requires x in s
    ensures i < |s| && s[i] == x && forall j :: i < j < |s| ==> s[j] != x
  {
    if s[|s| - 1] == x then |s| - 1 else LastIndex(s[..|s| - 1], x)
  }

  /** In a list without repeats, the last index of an element is its index. */
  lemma LastIndexOfDistinct<T>(s: seq<T>, i: nat)
    requires i < |s| && forall j, k :: 0 <= j < k < |s| ==> s[j] != s[k]
    ensures LastIndex(s, s[i]) == i
  {
  }

  /** The drag loop of mouseDragged for more than one selected ball: each ball is placed at
      its pre-drag position moved by the cursor's displacement from the anchor. A ball that
      is selected twice ends where its last entry puts it. */
  method DragSelection(sel: seq<Ball>, pre: seq<Vec>, mouse: Vec, anchor: Vec)
    requires |sel| <= |pre|
    modifies sel`position
    ensures forall o :: o in sel ==> o.position == Add(Sub(mouse, anchor), pre[LastIndex(sel, o)])
  {
    var i := 0;
    while i < |sel|
      invariant i <= |sel|
      invariant forall o :: o in sel[..i] ==> o.position == Add(Sub(mouse, anchor), pre[LastIndex(sel[..i], o)])
    {
      var b := sel[i];
      var displacement := Sub(mouse, anchor);
      b.position := Add(displacement, pre[i]);
      assert sel[..i + 1][..i] == sel[..i];
      i := i + 1;
    }
    assert sel[..i] == sel;
  }

  /** With no ball selected twice, the drag is a rigid translation of the pre-drag snapshots:
      any two selected balls keep the offset their snapshots had. */
  lemma DragIsRigid(sel: seq<Ball>, pre: seq<Vec>, d: Vec, i: nat, j: nat)
    requires i < |sel| && j < |sel| && |sel| <= |pre|
    requires forall a, b :: 0 <= a < b < |sel| ==> sel[a] != sel[b]
    ensures Sub(Add(d, pre[LastIndex(sel, sel[i])]), Add(d, pre[LastIndex(sel, sel[j])])) == Sub(pre[i], pre[j])
  {
    LastIndexOfDistinct(sel, i);
    LastIndexOfDistinct(sel, j);
    TranslationKeepsOffset(d, pre[i], pre[j]);
  }

  // ---------------------------------------------------------------------------------------
  // The applet

  class Balls {
    var balls: seq<Ball>
    var mousePositions: seq<Vec>
    const framerate: real
    var optimizing: bool
    var drawing: bool
    var selectedBalls: seq<Ball>
    /** Null until the first press on the selection or inside the lasso. */
    var anchor: Option<Vec>
    var dragging: bool
    var preDragBallPositions: seq<Vec>
    var gr: GraphReader
    /** The canvas extent, Processing's `width` and `height`. */
    const width: nat
    const height: nat

    /** What every handler keeps: the selection is drawn from the balls, a ball is flagged
        selected exactly when it is in the selection, there is a pre-drag position for every
        selected ball, and the balls keep their constructor constants. */
    ghost predicate Valid()
      reads this, balls
    {
      && framerate == 60.0
      && Flagged(balls, selectedBalls)
      && |selectedBalls| <= |preDragBallPositions|
      && (forall o :: o in balls ==> o.Constants())
    }

    /** setup(), once a file was chosen: build the graph from its lines, take the balls from
        getGraph, and start with nothing selected and the simulation running. */
    constructor (lines: seq<string>, spawn: nat -> Vec, width: nat, height: nat)
      requires AllEdges(lines)
      ensures Valid()
      ensures fresh(gr) && Enumerates(gr.order, Parse(lines, spawn).hm)
      ensures Keyed(Parse(lines, spawn).hm, gr.arena, gr.hm)
      ensures Repelled(Parse(lines, spawn).nodes, Build(lines, spawn, gr.order), gr.arena)
      ensures |balls| == |gr.order| && forall i :: 0 <= i < |balls| ==> balls[i] == gr.hm[gr.order[i]]
      ensures this.width == width && this.height == height
      ensures selectedBalls == [] && mousePositions == [] && preDragBallPositions == []
      ensures optimizing && !dragging && !drawing && anchor == None
    {
      var r := new GraphReader();
      r.BuildGraph(lines, spawn);
      var bs := r.GetGraph();
      GraphPristine(Parse(lines, spawn), Build(lines, spawn, r.order), r.arena, r.hm, r.order, bs);
      this.width := width;
      this.height := height;
      framerate := 60.0;
      gr := r;
      balls := bs;
      selectedBalls := [];
      preDragBallPositions := [];
      mousePositions := [];
      anchor := None;
      optimizing := true;
      dragging := false;
      drawing := false;
    }

    /** `for (Ball b : selectedBalls) b.deSelect(); selectedBalls.clear();` */
    method ClearSelection()
      requires Flagged(balls, selectedBalls)
      modifies this`selectedBalls, balls`isSelected
      ensures selectedBalls == [] && Flagged(balls, [])
    {
      assert forall i :: 0 <= i < |selectedBalls| ==> selectedBalls[i] in balls;
      Deselect(selectedBalls);
      selectedBalls := [];
    }

    /** A press without Ctrl off the selection first drops the lasso, the selection and the
        pre-drag positions. */
    method DropAll()
      requires Flagged(balls, selectedBalls)
      modifies this`mousePositions, this`selectedBalls, this`preDragBallPositions, balls`isSelected
      ensures mousePositions == [] && selectedBalls == [] && preDragBallPositions == [] && Flagged(balls, [])
    {
      mousePositions := [];
      ClearSelection();
      preDragBallPositions := [];
    }

    /** The test of mousePressed for grabbing the selection: the cursor is on a selected
        ball, or there is a lasso and the cursor is inside it. */
    ghost predicate Grabbing(mouse: Vec)
      reads this, selectedBalls
    {
      || (exists i :: 0 <= i < |selectedBalls| && WithinRadius(mouse, selectedBalls[i].position, selectedBalls[i].ballSize))
      || (|mousePositions| > 0 && Inside(mouse, mousePositions, mousePositions, width as real, height as real))
    }

    /** What a left press does, given the state before it: `grab` is the grab test, `sel0`,
        `pre0`, `lasso0` and `anchor0` the selection, pre-drag positions, lasso and anchor,
        `ps0` and `rs0` the positions and sizes of the balls. Grabbing the selection starts a
        drag from the cursor and keeps the selection. Otherwise, without Ctrl the selection, the pre-drag positions and
        the lasso are dropped first; every ball under the cursor is then added with its
        position. If one was, a drag starts; if none was, the lasso is restarted and drawing
        begins. */
    ghost predicate PressedLeft(mouse: Vec, ctrl: bool, grab: bool, sel0: seq<Ball>, pre0: seq<Vec>, lasso0: seq<Vec>,
                                anchor0: Option<Vec>, ps0: seq<Vec>, rs0: seq<real>)
      reads this
    {
      if grab then
        && dragging && !drawing && anchor == Some(mouse)
        && selectedBalls == sel0 && preDragBallPositions == pre0 && mousePositions == lasso0
      else
        var hits := Hits(ps0, rs0, mouse);
        && |ps0| == |balls| && anchor == anchor0
        && selectedBalls == (if ctrl then sel0 else []) + Pick(balls, hits)
        && preDragBallPositions == (if ctrl then pre0 else []) + Pick(ps0, hits)
        && if |hits| > 0 then
             mousePositions == (if ctrl then lasso0 else []) && dragging && !drawing
           else
             mousePositions == [] && drawing && !dragging
    }

    /** The part of the left-button branch of mousePressed that runs when the selection is
        not grabbed: without Ctrl, drop the lasso, the selection and the pre-drag positions;
        add every ball under the cursor with its position; with a ball added a drag starts,
        with none the lasso is restarted and drawing begins. */
    method SelectUnderCursor(mouse: Vec, ctrl: bool)
      requires Valid() && !dragging && !drawing
      modifies this`selectedBalls, this`preDragBallPositions, this`mousePositions, this`dragging, this`drawing, balls`isSelected
      ensures Valid()
      ensures var hits := Hits(old(Positions(balls)), old(Sizes(balls)), mouse);
        && selectedBalls == (if ctrl then old(selectedBalls) else []) + Pick(balls, hits)
        && preDragBallPositions == (if ctrl then old(preDragBallPositions) else []) + Pick(old(Positions(balls)), hits)
        && if |hits| > 0 then
             mousePositions == (if ctrl then old(mousePositions) else []) && dragging && !drawing
           else
             mousePositions == [] && drawing && !dragging
    {
      var clearFlag := !ctrl;
      ghost var ps, rs := Positions(balls), Sizes(balls);
      if clearFlag {
        DropAll();
      }
      assert Positions(balls) == ps && Sizes(balls) == rs;
      var clicking;
      selectedBalls, preDragBallPositions, clicking := AddHits(balls, mouse, selectedBalls, preDragBallPositions);
      if clicking {
        dragging := true;
      } else {
        if clearFlag {
          ClearSelection();
        }
        mousePositions := [];
        drawing := true;
      }
    }

    /** The left-button branch of mousePressed, after both flags were cleared; `ctrl` is Ctrl
        held down. */
    method PressLeft(mouse: Vec, ctrl: bool)
      requires Valid() && !dragging && !drawing
      modifies this`selectedBalls, this`preDragBallPositions, this`mousePositions, this`dragging, this`drawing, this`anchor, balls`isSelected
      ensures Valid() && balls == old(balls)
      ensures PressedLeft(mouse, ctrl, old(Grabbing(mouse)), old(selectedBalls), old(preDragBallPositions), old(mousePositions),
                          old(anchor), old(Positions(balls)), old(Sizes(balls)))
    {
      var onSelected := ClickingSelected(selectedBalls, mouse);
      var inLasso := false;
      if |mousePositions| > 0 {
        inLasso := InsidePolygon(mouse, mousePositions, mousePositions, width as real, height as real);
      }
      if onSelected || inLasso {
        dragging := true;
        anchor := Some(mouse);
      } else {
        SelectUnderCursor(mouse, ctrl);
      }
    }

    /** mousePressed: every press ends a drag and a lasso stroke; the left button selects or
        grabs, the right button kicks every ball away from the cursor and resumes the
        simulation, the middle button does nothing more. */
    method MousePressed(mouse: Vec, button: Button, ctrl: bool)
      requires Valid()
      requires button == RightButton ==> OffCentres(balls, mouse)
      modifies this`selectedBalls, this`preDragBallPositions, this`mousePositions, this`dragging, this`drawing, this`anchor, this`optimizing
      modifies balls`isSelected, balls`velocity
      ensures Valid() && balls == old(balls)
      ensures button == LeftButton ==> optimizing == old(optimizing) && forall o :: o in balls ==> o.velocity == old(o.velocity)
      ensures button == LeftButton ==>
        PressedLeft(mouse, ctrl, old(Grabbing(mouse)), old(selectedBalls), old(preDragBallPositions), old(mousePositions),
                    old(anchor), old(Positions(balls)), old(Sizes(balls)))
      ensures button != LeftButton ==>
        && !dragging && !drawing && anchor == old(anchor) && mousePositions == old(mousePositions)
        && selectedBalls == old(selectedBalls) && preDragBallPositions == old(preDragBallPositions)
      ensures button == RightButton ==> optimizing && forall o :: o in balls ==>
        o.velocity == Kicked(old(o.velocity), Kick(Sub(o.position, mouse), width as real), multiset(balls)[o])
      ensures button == CenterButton ==> optimizing == old(optimizing) && forall o :: o in balls ==> o.velocity == old(o.velocity)
    {
      ghost var grab, ps, rs := Grabbing(mouse), Positions(balls), Sizes(balls);
      dragging := false;
      drawing := false;
      assert Grabbing(mouse) == grab && Positions(balls) == ps && Sizes(balls) == rs;
      if button == LeftButton {
        PressLeft(mouse, ctrl);
      } else if button == RightButton {
        Explode(balls, mouse, width as real);
        optimizing := true;
      }
    }

    /** What releasing the button does. After a drag or a lasso stroke with a lasso in place,
        the selection becomes (without Ctrl) or is extended by (with Ctrl) the balls whose
        centre is inside the lasso, with their positions. Otherwise the selection stays and the
        pre-drag positions are taken afresh from it. Either way the drag and the stroke end. */
    twostate predicate Released(ctrl: bool)
      reads this, balls, selectedBalls
    {
      && balls == old(balls) && mousePositions == old(mousePositions) && anchor == old(anchor)
      && optimizing == old(optimizing) && !drawing && !dragging
      && if old(dragging || drawing) && |mousePositions| > 0 then
           var chosen := Lassoed(old(Positions(balls)), mousePositions, width as real, height as real);
           && selectedBalls == (if ctrl then old(selectedBalls) else []) + Pick(balls, chosen)
           && preDragBallPositions == (if ctrl then old(preDragBallPositions) else []) + Pick(old(Positions(balls)), chosen)
         else
           && selectedBalls == old(selectedBalls)
           && |preDragBallPositions| == |selectedBalls|
           && forall i :: 0 <= i < |selectedBalls| ==> preDragBallPositions[i] == selectedBalls[i].position
    }

    /** The lasso branch of mouseReleased: without Ctrl the selection and the pre-drag
        positions are dropped; then every ball whose centre is inside the lasso is added with
        its position. */
    method SelectLassoed(ctrl: bool)
      requires Valid() && |mousePositions| > 0
      modifies this`selectedBalls, this`preDragBallPositions, balls`isSelected
      ensures Valid()
      ensures var chosen := Lassoed(old(Positions(balls)), mousePositions, width as real, height as real);
        && selectedBalls == (if ctrl then old(selectedBalls) else []) + Pick(balls, chosen)
        && preDragBallPositions == (if ctrl then old(preDragBallPositions) else []) + Pick(old(Positions(balls)), chosen)
    {
      ghost var ps := Positions(balls);
      if !ctrl {
        ClearSelection();
        preDragBallPositions := [];
      }
      assert Positions(balls) == ps;
      selectedBalls, preDragBallPositions := AddLassoed(balls, mousePositions, width as real, height as real, selectedBalls, preDragBallPositions);
    }

    /** mouseReleased; `ctrl` is Ctrl held down. */
    method MouseReleased(ctrl: bool)
      requires Valid()
      modifies this`selectedBalls, this`preDragBallPositions, this`dragging, this`drawing, balls`isSelected
      ensures Valid() && Released(ctrl)
    {
      var isThereALasso := |mousePositions| > 0;
      if (dragging || drawing) && isThereALasso {
        SelectLassoed(ctrl);
      } else {
        preDragBallPositions := RecordPositions(selectedBalls);
      }
      drawing := false;
      dragging := false;
    }

    /** mouseDragged. A lasso stroke gets the cursor as its next vertex. A drag drops the
        lasso and moves the selection: a single ball to the cursor, several balls by the
        cursor's displacement from the anchor. The source dereferences a null anchor when
        several balls are dragged before any grab, so that state is excluded. */
    method MouseDragged(mouse: Vec)
      requires Valid() && (drawing || !dragging || |selectedBalls| < 2 || anchor.Some?)
      modifies this`mousePositions, selectedBalls`position
      ensures Valid()
      ensures old(drawing) ==>
        mousePositions == old(mousePositions) + [mouse] && forall o :: o in selectedBalls ==> o.position == old(o.position)
      ensures !old(drawing) && old(dragging) ==>
        && mousePositions == []
        && (|selectedBalls| == 1 ==> selectedBalls[0].position == mouse)
        && (|selectedBalls| >= 2 ==> forall o :: o in selectedBalls ==>
              o.position == Add(Sub(mouse, anchor.value), preDragBallPositions[LastIndex(selectedBalls, o)]))
      ensures !old(drawing) && !old(dragging) ==>
        mousePositions == old(mousePositions) && forall o :: o in selectedBalls ==> o.position == old(o.position)
    {
      if drawing {
        mousePositions := mousePositions + [mouse];
      } else if dragging {
        mousePositions := [];
        if |selectedBalls| == 1 {
          selectedBalls[0].position := mouse;
        } else if |selectedBalls| >= 2 {
          DragSelection(selectedBalls, preDragBallPositions, mouse, anchor.value);
        }
      }
    }

    /** manageKeyboardInput while `keyPressed`, with the last key typed: d resumes and f
        pauses the simulation, c drops the selection and the lasso, q grows and a shrinks
        every desired equilibrium distance by 3 %. */
    method ManageKeyboardInput(keyPressed: bool, key: char)
      requires Valid()
      modifies this`optimizing, this`selectedBalls, this`mousePositions, balls`isSelected, balls`desiredEquilibriumDistance
      ensures Valid() && balls == old(balls)
      ensures optimizing == if keyPressed && key == 'd' then true else if keyPressed && key == 'f' then false else old(optimizing)
      ensures if keyPressed && key == 'c' then selectedBalls == [] && mousePositions == []
              else selectedBalls == old(selectedBalls) && mousePositions == old(mousePositions)
      ensures keyPressed && key == 'q' ==> forall o :: o in balls ==>
        o.desiredEquilibriumDistance == Scaled(old(o.desiredEquilibriumDistance), Grow, multiset(balls)[o])
      ensures keyPressed && key == 'a' ==> forall o :: o in balls ==>
        o.desiredEquilibriumDistance == Scaled(old(o.desiredEquilibriumDistance), Shrink, multiset(balls)[o])
      ensures !(keyPressed && (key == 'q' || key == 'a')) ==> forall o :: o in balls ==>
        o.desiredEquilibriumDistance == old(o.desiredEquilibriumDistance)
    {
      if keyPressed {
        if key == 'd' {
          optimizing := true;
        } else if key == 'f' {
          optimizing := false;
        }
        if key == 'c' {
          ClearSelection();
          mousePositions := [];
        }
        if key == 'q' {
          ScaleEquilibrium(balls, Grow);
        } else if key == 'a' {
          ScaleEquilibrium(balls, Shrink);
        }
      }
    }

    /** The physics of displayBalls, once computeForce has given `forces[i]` for the `i`-th
        pass: while the simulation runs, every ball outside the selection is updated and
        bounced off the walls once per occurrence in the list; a paused simulation or a
        selected ball stays put. */
    method DisplayBalls(forces: seq<Vec>)
      requires Valid() && |forces| == |balls|
      modifies balls`position, balls`velocity
      ensures Valid()
      ensures forall o :: o in balls ==>
        (o.position, o.velocity) == Moved((old(o.position), old(o.velocity)), optimizing && o !in selectedBalls,
                                          Pick(forces, Occurrences(balls, o)), TimeStep(framerate), width as real, height as real)
    {
      var running, sel := optimizing, selectedBalls;
      Advance(balls, forces, (o: Ball) => running && o !in sel, framerate, width as real, height as real);
    }
  }
}
