# Balls: a force-directed graph layout, modelled in Dafny

Balls is a Processing applet. It reads a directed graph from a text file of edge lines
`A->B` and shows every node as a ball on the canvas. Connected balls attract each other and
unconnected balls repel, and the simulation runs until the picture settles. With the mouse
the user selects balls by clicking or by drawing a lasso, drags the selection, and kicks
every ball away from the cursor with the right button. Keys pause and resume the
simulation, clear the selection, and grow or shrink the distance the springs aim for.

The model covers:

- how `GraphReader.buildGraph` and `getGraph` build the graph;
- the `Ball` object: its constructor, its selection flag, its neighbour lists, `update` and
  `checkWalls`;
- the even-odd lasso test `insidePolygon`;
- the applet's handlers `mousePressed`, `mouseReleased`, `mouseDragged`, the keys d, f, c,
  q and a of `manageKeyboardInput`, the physics loop of `displayBalls`, and `explode`.

Modules, in dependency order:

- `Wrappers`: `Option`.
- `Vectors`: `PVector` as an exact real 2D vector.
- `Text`: Processing's `split(line, "->")` and `trim`.
- `GraphSpec`: `buildGraph` as values. It keeps an arena of node records in creation order,
  the `HashMap` from raw token to node index, and the repulsive lists of the final pass. The
  lemmas about the built graph are here.
- `GraphCases`: concrete edge files, worked through line by line.
- `Walls`: `checkWalls` as a function, with its lemmas.
- `Lasso`: `insidePolygon` as a function, with its lemmas.
- `Node`: class `Ball`.
- `Reader`: class `GraphReader`. Its methods are proved to build balls that mirror the
  `GraphSpec` table node by node.
- `Sketch`: the handlers' loops over the selection, the balls and the lasso.
- `Applet`: `explode`, the q/a loop, the `displayBalls` loop, the drag loop, and class
  `Balls` (the applet object) with its handlers.

Notes on the modelling choices:

- Every state-changing entity of the source is a Dafny class whose methods update its
  fields: `Ball`, `GraphReader`, and the applet `Balls`. Lists of balls are sequences of
  references, as the `ArrayList`s are.
- A `PVector` is a value here. This is faithful because no two fields ever share one:
  - every position, velocity, anchor and pre-drag copy the modelled code stores is a fresh
    vector;
  - the in-place `add` calls of `update` and `explode` only touch the ball's own vectors.
- The cursor position, the mouse button, Ctrl, the pressed key, the canvas extent, the
  random start positions and the forces `computeForce` returns are all parameters.
- `hm` stores each ball under its raw token, but looks names up by the trimmed token. So two
  keys can map to one ball, and `hm.values()` — the applet's ball list — can hold a ball
  twice. The handlers' contracts count occurrences (`multiset`, `Occurrences`, `LastIndex`)
  so that they stay exact in that case.

## Model

Each loop whose pass needs a proof of its own has that pass split into a helper method
(`Applet.ScaleOne`, `Applet.AdvanceOne`, `Reader.GraphReader.ReadNext`, `Sketch.Offer`,
`Sketch.Touch`). This keeps each proof small. The loop's method calls the helper once per pass.

| member | source | states |
|---|---|---|
| Vectors.TranslationKeepsOffset | Balls/applet/Balls.java:312-313 | moving two points by the same displacement keeps the offset between them |
| Text.Find | Balls/applet/Balls.java:887 | the first occurrence of "->" at or after the offset, or none at all |
| Text.SplitJoin | Balls/applet/Balls.java:887 | gluing the pieces of `split` back together with "->" gives the line back |
| Text.Split | Balls/applet/Balls.java:887 | the pieces between the occurrences of "->", left to right; `Text.SplitJoin` and `Text.SplitHasTwoFields` are its properties |
| Text.SplitHasTwoFields | Balls/applet/Balls.java:887-898 | `split` yields the second field `nodes[1]` exactly when the line holds "->" |
| Text.Trim | Balls/applet/Balls.java:891 | the trimmed token is no longer than the raw one and has no blank at either end; a clean token is left as it is |
| Text.TrimSlice | Balls/applet/Balls.java:891 | the trimmed token is a slice of `Text.Unbreak` of the raw one with only blanks outside it; with `Text.Trim`'s contract, the longest blank prefix and suffix are dropped |
| Text.TrimPadded | Balls/applet/Balls.java:891-893 | one space before or after a clean token is dropped |
| Text.Unbreak | Balls/applet/Balls.java:891 | every non-breaking space becomes a space and every other character is kept, the first half of Processing's `trim` |
| GraphSpec.Endpoints | Balls/applet/Balls.java:889-903 | a known trimmed name resolves to its node; an unknown one gets a new node at the end, with that name, the next random position and empty lists; both lookups use the map from before the line |
| GraphSpec.AddEdgeAt | Balls/applet/Balls.java:905-908 | recording an edge appends the target to the source's attractive and children lists and the source to the target's attractive list; names and positions stay |
| GraphSpec.Step | Balls/applet/Balls.java:887-911 | one line keeps every index in the map and in the lists inside the arena |
| GraphSpec.Parse | Balls/applet/Balls.java:883-913 | after all lines, every index still names a node |
| GraphSpec.StepRecordsEdge | Balls/applet/Balls.java:905-911 | one line changes exactly the lists of its two endpoints, adds at most two nodes, and writes the map under the two raw tokens |
| GraphSpec.FreshSelfLoopMakesTwoNodes | Balls/applet/Balls.java:891-903 | `A->A` with A unseen creates two distinct nodes named A |
| GraphSpec.Resolve | Balls/applet/Balls.java:891-903 | the reference for one lookup by the trimmed token; `GraphSpec.Endpoints` states what the two lookups of a line give |
| GraphSpec.AddEdge | Balls/applet/Balls.java:905-908 | the reference for the edge writes; the arena keeps its size, and `GraphSpec.AddEdgeAt` states every node's lists after it |
| GraphSpec.StepOf | Balls/applet/Balls.java:887-911 | an unfolding of `GraphSpec.Step` for callers that already know both lookups: the edge between them plus the map writes under the raw tokens |
| GraphSpec.CountAfterStep | Balls/applet/Balls.java:905-908 | how often a node occurs in another's attractive list after one line |
| GraphSpec.StepKeepsSymmetry | Balls/applet/Balls.java:905-908 | a line keeps attraction symmetric, counted with multiplicity |
| GraphSpec.StepKeepsChildren | Balls/applet/Balls.java:905-906 | a line keeps every list of children contained in the attractive list, counted with multiplicity |
| GraphSpec.AttractionSymmetric | Balls/applet/Balls.java:883-913 | in the finished graph, m attracts n as often as n attracts m |
| GraphSpec.ChildrenAreAttractive | Balls/applet/Balls.java:883-913 | in the finished graph, every child is also attractive, at least as often |
| GraphSpec.CleanNamesAreKeys | Balls/applet/Balls.java:891-911 | with whitespace-free tokens, each key names its node and distinct keys map to distinct nodes |
| GraphSpec.StepKeys | Balls/applet/Balls.java:910-911 | a line adds its two raw tokens to the keys and removes none |
| GraphSpec.KeysAccumulate | Balls/applet/Balls.java:883-913 | both raw tokens of every line read are keys of the final map |
| GraphSpec.NameReuse | Balls/applet/Balls.java:891-896 | a clean source name seen on an earlier line resolves to the node already in the map, and no node is created for it |
| GraphSpec.NameReuseTarget | Balls/applet/Balls.java:898-903 | a clean target name seen on an earlier line resolves to the node already in the map, and at most one node is created for the line |
| GraphSpec.NamesReused | Balls/applet/Balls.java:891-908 | a line whose two clean names were both seen earlier creates no node and only adds the edge between the two nodes already in the map |
| GraphSpec.OthersMembers | Balls/applet/Balls.java:916-920 | the inner loop adds exactly the values that are neither the ball itself nor attractive to it |
| GraphSpec.Others | Balls/applet/Balls.java:916-920 | the reference for the inner loop: the values, in order, that are neither the node itself nor in its attractive list; `GraphSpec.OthersMembers` states its members |
| GraphSpec.Scan | Balls/applet/Balls.java:914-923 | the reference for the outer loop seen from one node: `GraphSpec.Others` of it once per time the outer loop reaches it; `GraphSpec.ScanMembers` states its members |
| GraphSpec.ScanMembers | Balls/applet/Balls.java:914-923 | a node's repulsive list holds x exactly when the outer loop reaches the node and the inner loop adds x |
| GraphSpec.Repulsion | Balls/applet/Balls.java:914-923 | the reference for the repulsive pass, one list per node; `GraphSpec.Partition` states what the lists hold |
| GraphSpec.Partition | Balls/applet/Balls.java:914-923 | two distinct nodes of the map repel exactly when they do not attract; no node repels itself; only nodes of the map are added; an unmapped node gets an empty repulsive list |
| GraphSpec.Build | Balls/applet/Balls.java:877-923 | the reference for buildGraph: the repulsive pass over the table of all lines, in the map's iteration order; `GraphSpec.Partition` and `Reader.BallsPartition` state what it holds, and `Reader.GraphReader.BuildGraph` is proved against it |
| GraphCases.SplitEdge | Balls/applet/Balls.java:887 | a line of two dash-free tokens splits into exactly those two tokens |
| GraphCases.TriangleParse | Balls/applet/Balls.java:877-913 | `A->B`, `B->C`, `A->C` give three nodes, each attracting the other two, with the expected children |
| GraphCases.TriangleNoRepulsion | Balls/applet/Balls.java:914-923 | in the triangle the repulsive pass adds nothing, whatever order the map iterates in |
| GraphCases.PaddedSourceAliases | Balls/applet/Balls.java:891-911 | after `A->B` and ` A->C` one node sits under the keys "A" and " A", and it gets both edges |
| GraphCases.PaddedSourceOrphans | Balls/applet/Balls.java:891-923 | after `A ->B` and `A ->C` there are two nodes named A, and no key maps to the first one |
| Walls.Bounce | Balls/applet/Balls.java:750-758 | the reference for one axis of checkWalls; its properties are the `Walls` lemmas below |
| Walls.Collide | Balls/applet/Balls.java:748-768 | the reference for checkWalls, x against the width and y against the height |
| Walls.InsideUntouched | Balls/applet/Balls.java:748-768 | a ball on the canvas, edges included, is left exactly as it is |
| Walls.OutsideReflects | Balls/applet/Balls.java:750-758 | a ball past a side wall is put one pixel inside it, and that velocity component turns around at 90% of its size |
| Walls.OutsideReflectsY | Balls/applet/Balls.java:759-767 | a ball past the top or bottom wall is put one pixel inside it, and that velocity component turns around at 90% of its size |
| Walls.CollideLandsInside | Balls/applet/Balls.java:748-768 | on a canvas at least one pixel wide and high, every ball ends on the canvas |
| Walls.CollideIdempotent | Balls/applet/Balls.java:748-768 | a second check changes nothing |
| Walls.CollideNeverSpeedsUp | Balls/applet/Balls.java:748-768 | a bounce never increases the speed |
| Walls.BounceTurnsInwards | Balls/applet/Balls.java:750-767 | a component carrying the ball out through a wall points back in after the bounce |
| Lasso.BoxOf | Balls/applet/Balls.java:497-516 | the reference for the source's box loop, `else if` included; `Lasso.BoxWithinHull` and `Lasso.ElseIfMissesInterior` relate it to the true box `Lasso.HullOf` |
| Lasso.UpdateBox | Balls/applet/Balls.java:502-516 | the reference for one pass of the box loop: a new maximum, or else a new minimum, per axis; `Lasso.BoxWithinHull` and `Lasso.ElseIfMissesInterior` state what the `else` costs |
| Lasso.Odd | Balls/applet/Balls.java:521-536 | the reference for the crossing loop: the parity of the edges that flip it |
| Lasso.Inside | Balls/applet/Balls.java:493-549 | the reference for insidePolygon: inside the box and an odd crossing parity |
| Lasso.HullSpans | Balls/applet/Balls.java:497-516 | the reference box, with both tests on every vertex, spans every vertex of the lasso |
| Lasso.BoxWithinHull | Balls/applet/Balls.java:502-516 | the source's `else if` box has the true maxima and minima no lower than the true ones |
| Lasso.BoxFilterSound | Balls/applet/Balls.java:518 | a point the source's box lets through is inside the true box |
| Lasso.EmptyLassoSelectsNothing | Balls/applet/Balls.java:497-518 | with no lasso vertex the box holds no point |
| Lasso.Lasso4Boxes | Balls/applet/Balls.java:502-516 | the box of a four-vertex lasso, with and without the `else if` |
| Lasso.ElseIfMissesInterior | Balls/applet/Balls.java:502-518 | a point inside the lasso and inside its true box is rejected, because the `else if` skips a minimum |
| Lasso.ToggleVertical | Balls/applet/Balls.java:528-533 | a vertical edge straddling the row flips the parity exactly for points to its right |
| Lasso.ToggleLevel | Balls/applet/Balls.java:528-529 | a horizontal edge never flips the parity |
| Lasso.Lasso4Closing | Balls/applet/Balls.java:524-533 | the closing edge, from the last vertex to the first, is tested too |
| Lasso.OddOf4 | Balls/applet/Balls.java:521-536 | the parity of a four-vertex polygon, edge by edge, starting from the closing edge |
| Lasso.CrossBetween | Balls/applet/Balls.java:531 | the crossing point of a straddling edge lies between the edge's ends |
| Lasso.RotationKeepsParity | Balls/applet/Balls.java:521-536 | starting the lasso at another vertex gives the same crossing parity; the box filter, by contrast, depends on the start vertex (`Lasso.RotationChangesBox`) |
| Lasso.RotatedBox | Balls/applet/Balls.java:502-516 | the `else if` box of the four-vertex lasso drawn from its second vertex is the true box |
| Lasso.RotatedOdd | Balls/applet/Balls.java:521-536 | the point (1.5, 2) has odd crossing parity in the four-vertex lasso drawn from its second vertex |
| Lasso.RotationChangesBox | Balls/applet/Balls.java:493-549 | the same lasso drawn from another vertex accepts a point it rejects when drawn from the first: insidePolygon's answer depends on the start vertex |
| Lasso.SquareBox | Balls/applet/Balls.java:502-516 | the box of a square lasso is the square |
| Lasso.SquareRow | Balls/applet/Balls.java:526-536 | on the middle row of a square, exactly the points with 0 < x <= 10 pass the crossing test |
| Lasso.SquareExample | Balls/applet/Balls.java:493-549 | the square's centre is inside it, and a point to its right fails the crossing test |
| Node.Ball.constructor | Balls/applet/Balls.java:606-624 | the given position and velocity, the default size, an equilibrium distance of four sizes, empty lists, all flags off, and the constants, with a repulsive constant of 0; the name starts empty (see "## Left out") |
| Node.Ball.SetName | Balls/applet/Balls.java:647-649 | the name becomes the argument |
| Node.Ball.Select | Balls/applet/Balls.java:626-628 | the ball is flagged selected and nothing else changes |
| Node.Ball.DeSelect | Balls/applet/Balls.java:629-631 | the ball is no longer flagged selected and nothing else changes |
| Node.Ball.AddChild | Balls/applet/Balls.java:770-772 | the children list gains the ball at its end |
| Node.Ball.AddAttractiveBall | Balls/applet/Balls.java:774-776 | the attractive list gains the ball at its end |
| Node.Ball.AddRepulsiveBall | Balls/applet/Balls.java:777-779 | the repulsive list gains the ball at its end |
| Node.Ball.CheckWalls | Balls/applet/Balls.java:748-768 | the new position and velocity are `Walls.Collide` of the old ones, so the ball ends on a canvas at least one pixel wide and high |
| Node.Ball.Update | Balls/applet/Balls.java:734-745 | one semi-implicit (symplectic) Euler step with time step playbackSpeed / framerate: the velocity first, then the position moved by the new velocity times the step, as `Node.Integrate` |
| Node.Integrate | Balls/applet/Balls.java:734-745 | the reference for update: the velocity gains force / mass times the step, then the position moves by the new velocity times the step |
| Reader.EnumerateKeys | Balls/applet/Balls.java:914 | HashMap iteration lists every key exactly once |
| Reader.BallsPartition | Balls/applet/Balls.java:914-923 | after buildGraph, two different balls of the map repel exactly when they do not attract, and no ball repels itself |
| Reader.GraphPristine | Balls/applet/Balls.java:931-938 | every ball getGraph lists is unselected and has the constructor's constants |
| Reader.GraphReader.constructor | Balls/applet/Balls.java:858-859 | an empty reader |
| Reader.GraphReader.Intern | Balls/applet/Balls.java:891-903 | the ball for one token is the map's ball for the trimmed token, or a fresh ball at the next random position, as `GraphSpec.Resolve` says |
| Reader.GraphReader.Link | Balls/applet/Balls.java:905-908 | the balls' lists now mirror `GraphSpec.AddEdge` |
| Reader.GraphReader.ResolveLine | Balls/applet/Balls.java:887-903 | both tokens resolve against the map from before the line, as `GraphSpec.Step` says |
| Reader.GraphReader.ReadLine | Balls/applet/Balls.java:887-911 | the balls and the map mirror the table after one more `GraphSpec.Step` |
| Reader.GraphReader.Consider | Balls/applet/Balls.java:917-920 | the other ball joins the repulsive list exactly when it is neither the ball itself nor attractive to it |
| Reader.GraphReader.RepelOne | Balls/applet/Balls.java:915-922 | the inner loop appends `GraphSpec.Others` of the node to its repulsive list |
| Reader.GraphReader.RepelAll | Balls/applet/Balls.java:914-923 | every ball's repulsive list is `GraphSpec.Repulsion` of the table |
| Reader.GraphReader.ReadAll | Balls/applet/Balls.java:883-913 | the balls and the map mirror `GraphSpec.Parse` of the lines |
| Reader.GraphReader.ReadNext | Balls/applet/Balls.java:887-911 | one pass of the line loop: the balls and the map mirror `GraphSpec.Parse` of one more line |
| Reader.GraphReader.BuildGraph | Balls/applet/Balls.java:877-929 | the map and the fresh balls mirror the table of all lines, with the repulsive lists of the final pass |
| Reader.GraphReader.GetGraph | Balls/applet/Balls.java:931-938 | the list holds one entry per key, in map order: the ball the key maps to |
| Sketch.HitsExactly | Balls/applet/Balls.java:224-225 | a ball is hit exactly when the cursor is within its radius |
| Sketch.LassoedExactly | Balls/applet/Balls.java:280-281 | a ball is lassoed exactly when insidePolygon puts its centre inside |
| Sketch.HitTest | Balls/applet/Balls.java:225 | the reference for the hit test of one ball: the cursor within the ball's radius of its centre; `Sketch.HitsExactly` states it of the list |
| Sketch.Hits | Balls/applet/Balls.java:224-232 | the reference for the balls the press loop takes, by index in list order; every index is below the list's length |
| Sketch.LassoTest | Balls/applet/Balls.java:281 | the reference for the lasso test of one ball: insidePolygon of its centre; `Sketch.LassoedExactly` states it of the list |
| Sketch.Lassoed | Balls/applet/Balls.java:280-288 | the reference for the balls the release loop takes, by index in list order; every index is below the list's length |
| Sketch.Offer | Balls/applet/Balls.java:225-231 | one pass of the selecting loops: a taken ball is appended to the selection, flagged, and its position snapshot appended; the selection stays the balls taken so far |
| Sketch.Touch | Balls/applet/Balls.java:224-231 | one pass of the press loop: a ball under the cursor sets the hit flag and is offered to the selection |
| Sketch.LassoBox | Balls/applet/Balls.java:497-516 | the box loop computes `Lasso.BoxOf` |
| Sketch.Crossings | Balls/applet/Balls.java:521-536 | the crossing loop computes `Lasso.Odd` |
| Sketch.InsidePolygon | Balls/applet/Balls.java:493-549 | the result is `Lasso.Inside`: the point is in the lasso's box and the crossing parity is odd |
| Sketch.ClickingSelected | Balls/applet/Balls.java:189-194 | true exactly when the cursor is on some selected ball |
| Sketch.Deselect | Balls/applet/Balls.java:215-217 | no ball of the selection is flagged selected any more |
| Sketch.AddHits | Balls/applet/Balls.java:222-232 | the balls under the cursor, in list order, are appended to the selection, and their positions to the pre-drag list; the result says whether any was hit; the flags still match the selection |
| Sketch.AddLassoed | Balls/applet/Balls.java:279-288 | the balls whose centre is inside the lasso, in list order, are appended to the selection, and their positions to the pre-drag list; the flags still match the selection |
| Sketch.RecordPositions | Balls/applet/Balls.java:290-293 | a copy of the position of each selected ball, in selection order |
| Applet.KickMagnitude | Balls/applet/Balls.java:574-577 | the kick points away from the cursor, and its length is width * 100 / distance |
| Applet.Kick | Balls/applet/Balls.java:574-577 | the reference for one kick of explode; `Applet.KickMagnitude` states its direction and length |
| Applet.Explode | Balls/applet/Balls.java:569-580 | every ball's velocity gains the kick away from the cursor, once per occurrence in the list |
| Applet.Kicked | Balls/applet/Balls.java:572-578 | the reference for a velocity after n kicks, one per occurrence of the ball in the list; `Applet.KickedNext` states that one more occurrence adds one more kick |
| Applet.ScaleEquilibrium | Balls/applet/Balls.java:401-410 | every ball's equilibrium distance is multiplied by the factor, once per occurrence in the list |
| Applet.ScaleOne | Balls/applet/Balls.java:402-403 | one pass of the q/a loop: the ball's distance is multiplied by the factor once more, and every other ball keeps its distance |
| Applet.Scaled | Balls/applet/Balls.java:401-410 | the reference for n multiplications by the factor; `Applet.GrowMonotone`, `Applet.ShrinkMonotone` and `Applet.GrowThenShrink` are its properties |
| Applet.Tick | Balls/applet/Balls.java:327-328 | the reference for one pass that moves a ball: `Node.Integrate` (update), then `Walls.Collide` (checkWalls); `Applet.EvolveInCanvas` states where it lands |
| Applet.GrowMonotone | Balls/applet/Balls.java:399-404 | repeating q keeps growing a positive distance |
| Applet.ShrinkMonotone | Balls/applet/Balls.java:405-409 | repeating a keeps shrinking a positive distance, which stays positive |
| Applet.GrowThenShrink | Balls/applet/Balls.java:399-410 | q then a leaves a distance smaller than it was |
| Applet.Evolve | Balls/applet/Balls.java:323-329 | the reference for a ball updated and checked once per force, in order |
| Applet.Moved | Balls/applet/Balls.java:320-332 | a ball the test admits evolves, any other ball stays put |
| Applet.EvolveInCanvas | Balls/applet/Balls.java:323-329 | a ball that was updated and checked at least once ends on the canvas |
| Applet.Advance | Balls/applet/Balls.java:320-332 | every ball the test admits is updated and checked once per occurrence, with that pass's force; every other ball stays put |
| Applet.AdvanceOne | Balls/applet/Balls.java:324-329 | one pass of the displayBalls loop over ball `b`: if the test admits it, it is updated and checked once more with that pass's force |
| Applet.MovedInCanvas | Balls/applet/Balls.java:320-332 | a ball the loop moved ends on the canvas |
| Applet.DragSelection | Balls/applet/Balls.java:310-314 | each selected ball is placed at its pre-drag position moved by the cursor's offset from the anchor |
| Applet.DragIsRigid | Balls/applet/Balls.java:310-314 | with no ball selected twice, the drag keeps the offsets between the selected balls' pre-drag snapshots; key c empties the selection but leaves the snapshots, which can then be stale |
| Applet.Balls.constructor | Balls/applet/Balls.java:85-122 | the balls are getGraph's list after buildGraph, nothing is selected, there is no lasso and no anchor, and the simulation runs |
| Applet.Balls.ClearSelection | Balls/applet/Balls.java:215-218 | the selection is empty and no ball is flagged any more |
| Applet.Balls.DropAll | Balls/applet/Balls.java:213-220 | lasso, selection and pre-drag positions are empty and no ball is flagged |
| Applet.Balls.SelectUnderCursor | Balls/applet/Balls.java:205-245 | without Ctrl the old selection is dropped; the balls under the cursor are added; with a hit a drag starts, otherwise the lasso restarts and drawing begins |
| Applet.Balls.PressLeft | Balls/applet/Balls.java:175-247 | a press on the selection or inside the lasso starts a drag from the cursor and changes nothing else; any other press behaves as `SelectUnderCursor` |
| Applet.Balls.MousePressed | Balls/applet/Balls.java:170-253 | every press ends drag and stroke; the left button behaves as `PressLeft`; the right button kicks every ball and resumes the simulation; the middle button changes nothing else |
| Applet.Balls.SelectLassoed | Balls/applet/Balls.java:261-288 | without Ctrl the old selection is dropped; the balls inside the lasso are added with their positions |
| Applet.Balls.MouseReleased | Balls/applet/Balls.java:255-299 | after a drag or stroke with a lasso, the selection becomes or is extended by the lassoed balls; otherwise the pre-drag positions are taken anew from the selection; either way drag and stroke end |
| Applet.Balls.MouseDragged | Balls/applet/Balls.java:301-318 | a stroke gains the cursor as its next vertex; a drag drops the lasso and moves one ball to the cursor, or several balls rigidly by the cursor's offset from the anchor; otherwise nothing changes |
| Applet.Balls.ManageKeyboardInput | Balls/applet/Balls.java:359-414 | d resumes and f pauses; c empties the selection and the lasso but keeps the pre-drag positions; q multiplies every equilibrium distance by 1.03 and a by 0.97, once per occurrence; nothing happens without a key pressed |
| Applet.Balls.DisplayBalls | Balls/applet/Balls.java:320-332 | while the simulation runs, every unselected ball is updated and checked once per occurrence, with that pass's force; a paused simulation and the selected balls stay put |

## Left out

- Rendering is not modelled. This covers `draw`, `display`, `displayName`,
  `displayBallNames`, `displaySelectedBalls`, `drawSelectionBoundaries` and the text
  overlays, plus the fonts, colours and `println` calls. One exception feeds back into the
  modelled state: `display` rewrites `ballSize` (lines 689-699), which the hit tests of
  `mousePressed` read (lines 191 and 225); see the bullet on hovering below.
- Key p, PDF recording and the `record` flag are left out: they only write a file.
- Choosing the file (`selectFile`, `processFile`) and reading it are left out. The
  constructor takes the file's lines. An `IOException` and the `exit()` on a missing file
  name are left out.
- Hovering is left out: `detectHover`, `hover`, `noHover` and their timers. Also left out is
  the growth and shrinkage of `ballSize` in `display`, which depends on the clock. In the
  model `ballSize` keeps the constructor's value.
- `evaluateSimulationTriggers` and `computeTotalVelocity` are left out. They depend on
  `millis()` and `frameCount`. The fields `lastRunTime`, `totalVel`,
  `preDragShapePositions`, `displayPDFMessage` and `PDF_Message_Countdown` go with them.
- `computeForce` is not modelled: `displayBalls` takes the force of each pass as a
  parameter. The source's forces are then covered as one particular choice of that
  sequence, even though they read positions that earlier passes of the loop already moved.
- Randomness is a parameter. The random start positions are the function `spawn`, where
  the k-th ball created gets `spawn(k)`. The random colours are not modelled.
- Arithmetic is exact over the reals; Java's `float` rounding is left out. Distances are
  compared through their squares, so no square root is taken.
- Ctrl is a boolean parameter. It stands for the source's test that a key is pressed with
  `key == CODED` and `keyCode == CONTROL`.
- `split` and `trim` belong to Processing's `PApplet`, which is not part of this model.
  `split` is modelled as cutting at every "->" and keeping empty pieces. `trim` is modelled
  as turning a non-breaking space into a space, then Java's `String.trim`.
- Text.Trim: its own contract gives only the length bound, the non-blank ends and the
  identity on clean tokens, because stating the slice inside it makes every proof that
  unfolds a lookup slower; the lemma `Text.TrimSlice` states the rest, that the result is a
  slice of `Text.Unbreak` of the token with only blanks outside it.
- Java leaves a new ball's `name` null until `setName` (lines 597 and 647). The model starts
  it as the empty string. Every ball buildGraph creates is named before anything reads it
  (lines 895 and 902), so nothing modelled sees the difference.
- HashMap's iteration order is left unspecified: any listing of the keys that names each
  key once.
- Reader.GraphReader.BuildGraph requires every line to hold "->". On a line without it,
  the source reads `nodes[1]` out of bounds and throws.
- Applet.Explode requires that no ball has its centre exactly at the cursor. There the
  source's `width*100/radius.mag()` divides by zero and gives +Infinity, and scaling the
  normalised zero vector by it gives 0 times infinity: the velocity becomes NaN.
- Applet.Balls.MousePressed inherits that requirement for the right button.
- Applet.Balls.MouseDragged requires an anchor when several balls are dragged. The anchor
  is still null if no press has grabbed the selection yet and one press hit several
  overlapping balls; the source then dereferences null. The model does reproduce the
  stale anchor: only a press that grabs the selection sets `anchor` (line 204), so after
  one grab a later press that hits several overlapping unselected balls starts a drag
  that moves them by the cursor's offset from the old anchor, and they jump.
- Sketch.InsidePolygon requires a non-empty polygon when the point passes the box test.
  The source reads the polygon's last vertex and would throw. The applet always passes the
  lasso itself, and an empty lasso's box holds no point.
