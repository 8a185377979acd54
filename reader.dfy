/** GraphReader: buildGraph reads the edge lines into a HashMap from token to Ball, then gives
    every node its repulsive list; getGraph lists the map's values. The ghost `arena` lists every
    Ball buildGraph created, in creation order, so that the objects can be compared with the
    value-level table of GraphSpec node by node. */
module Reader {
  import opened Vectors
  import opened Text
  import opened GraphSpec
  import opened Node

  /** The balls an index list names. */
  function Refs(ix: seq<nat>, arena: seq<Ball>): (r: seq<Ball>)
    requires Below(ix, |arena|)
    ensures |r| == |ix|
  {
    seq(|ix|, i requires 0 <= i < |ix| => arena[ix[i]])
  }

  predicate Distinct(arena: seq<Ball>) {
    forall i, j :: 0 <= i < |arena| && 0 <= j < |arena| && i != j ==> arena[i] != arena[j]
  }

  lemma RefsAppend(ix: seq<nat>, d: nat, arena: seq<Ball>)
    requires Below(ix, |arena|) && d < |arena|
    ensures Below(ix + [d], |arena|) && Refs(ix + [d], arena) == Refs(ix, arena) + [arena[d]]
  {
    assert Below(ix + [d], |arena|);
    assert Refs(ix + [d], arena) == Refs(ix, arena) + [arena[d]];
  }

  lemma RefsGrow(ix: seq<nat>, arena: seq<Ball>, more: seq<Ball>)
    requires Below(ix, |arena|)
    ensures Below(ix, |arena + more|) && Refs(ix, arena + more) == Refs(ix, arena)
  {
    assert Refs(ix, arena + more) == Refs(ix, arena);
  }

  /** With distinct balls, a ball is in the list exactly when its index is. */
  lemma RefsIn(ix: seq<nat>, arena: seq<Ball>, x: nat)
    requires Below(ix, |arena|) && Distinct(arena) && x < |arena|
    ensures arena[x] in Refs(ix, arena) <==> x in ix
  {
    if x in ix {
      var i :| 0 <= i < |ix| && ix[i] == x;
      assert Refs(ix, arena)[i] == arena[x];
    }
  }

  /** A ball as the constructor left it, apart from its name and lists. */
  predicate Pristine(b: Ball, position: Vec)
    reads b
  {
    && b.Constants() && b.position == position && b.velocity == Zero
    && b.ballSize == DefaultBallSize && b.desiredEquilibriumDistance == 4.0 * DefaultBallSize
    && !b.isHoveredOver && !b.isSelected && !b.applyUniformForce
  }

  /** Ball `b` holds node record `n`: name, start position, attractive list and children; its
      repulsive list is still empty. */
  predicate Holds(b: Ball, n: NodeRec, arena: seq<Ball>)
    reads b
  {
    && Below(n.attractive, |arena|) && Below(n.children, |arena|)
    && Pristine(b, n.position) && b.name == n.name
    && b.attractiveBalls == Refs(n.attractive, arena) && b.children == Refs(n.children, arena)
    && b.repulsiveBalls == []
  }

  /** One distinct ball per node, each holding its node. */
  predicate Built(nodes: seq<NodeRec>, arena: seq<Ball>)
    reads arena
  {
    && |arena| == |nodes| && Distinct(arena)
    && (forall i {:trigger Holds(arena[i], nodes[i], arena)} :: 0 <= i < |arena| ==> Holds(arena[i], nodes[i], arena))
  }

  /** The map sends each key to the ball of the node the table's map sends it to. */
  predicate Keyed(tm: map<string, nat>, arena: seq<Ball>, hm: map<string, Ball>) {
    && hm.Keys == tm.Keys
    && (forall k :: k in hm ==> tm[k] < |arena| && hm[k] == arena[tm[k]])
  }

  /** The objects mirror the table. */
  predicate Mirrors(t: Table, arena: seq<Ball>, hm: map<string, Ball>)
    reads arena
  {
    WellFormed(t) && Built(t.nodes, arena) && Keyed(t.hm, arena, hm)
  }

  /** A new ball, named but not yet linked, extends the arena by a node with empty lists. */
  lemma BuiltGrow(nodes: seq<NodeRec>, arena: seq<Ball>, b: Ball)
    requires Built(nodes, arena) && b !in arena && Pristine(b, b.position)
    requires b.attractiveBalls == [] && b.children == [] && b.repulsiveBalls == []
    ensures Built(nodes + [NodeRec(b.name, b.position, [], [])], arena + [b])
  {
    var nodes' := nodes + [NodeRec(b.name, b.position, [], [])];
    forall i | 0 <= i < |arena| + 1 ensures Holds((arena + [b])[i], nodes'[i], arena + [b]) {
      if i < |arena| {
        assert Holds(arena[i], nodes[i], arena);
        RefsGrow(nodes[i].attractive, arena, [b]);
        RefsGrow(nodes[i].children, arena, [b]);
      }
    }
  }

  lemma KeyedGrow(tm: map<string, nat>, arena: seq<Ball>, hm: map<string, Ball>, b: Ball)
    requires Keyed(tm, arena, hm)
    ensures Keyed(tm, arena + [b], hm)
  {
  }

  /** Writing a key in both maps, to a node and to its ball, keeps them in step. */
  lemma KeyedWrite(tm: map<string, nat>, arena: seq<Ball>, hm: map<string, Ball>, k1: string, v1: nat, b1: Ball, k2: string, v2: nat, b2: Ball)
    requires Keyed(tm, arena, hm) && v1 < |arena| && v2 < |arena| && b1 == arena[v1] && b2 == arena[v2]
    ensures Keyed(tm[k1 := v1][k2 := v2], arena, hm[k1 := b1][k2 := b2])
  {
  }

  lemma Concat(a: seq<Ball>, b: seq<Ball>, c: seq<Ball>)
    ensures a + b + c == a + (b + c)
  {
  }

  /** Ball `b` holds node record `n` and repulsive list `r`. */
  predicate Final(b: Ball, n: NodeRec, r: seq<nat>, arena: seq<Ball>)
    reads b
  {
    && Below(n.attractive, |arena|) && Below(n.children, |arena|) && Below(r, |arena|)
    && Pristine(b, n.position) && b.name == n.name
    && b.attractiveBalls == Refs(n.attractive, arena) && b.children == Refs(n.children, arena)
    && b.repulsiveBalls == Refs(r, arena)
  }

  /** The `j`-th value of the map is the index of the ball the map gives its key. */
  lemma ValueAt(tm: map<string, nat>, arena: seq<Ball>, hm: map<string, Ball>, order: seq<string>, j: nat)
    requires Keyed(tm, arena, hm) && Enumerates(order, tm) && j < |order|
    ensures order[j] in hm && Values(tm, order)[j] < |arena| && hm[order[j]] == arena[Values(tm, order)[j]]
  {
  }

  /** One distinct ball per node, each holding its node and its repulsive list. */
  predicate Repelled(nodes: seq<NodeRec>, rep: seq<seq<nat>>, arena: seq<Ball>)
    reads arena
  {
    && |arena| == |nodes| == |rep| && Distinct(arena)
    && (forall i {:trigger Final(arena[i], nodes[i], rep[i], arena)} :: 0 <= i < |arena| ==> Final(arena[i], nodes[i], rep[i], arena))
  }

  /** `n` empty lists. */
  function Empties(n: nat): (r: seq<seq<nat>>)
    ensures |r| == n && forall i :: 0 <= i < n ==> r[i] == []
  {
    seq(n, i => [])
  }

  /** Before the repulsive pass every repulsive list is empty. */
  lemma BuiltRepelled(nodes: seq<NodeRec>, arena: seq<Ball>)
    requires Built(nodes, arena)
    ensures Repelled(nodes, Empties(|nodes|), arena)
  {
    var rep := Empties(|nodes|);
    forall i | 0 <= i < |arena| ensures Final(arena[i], nodes[i], rep[i], arena) {
      assert Holds(arena[i], nodes[i], arena);
      assert Refs(rep[i], arena) == [];
    }
  }

  /** The repulsive lists once the outer loop has visited the first `i` values. */
  function Pass(t: Table, vals: seq<nat>, i: nat): (rep: seq<seq<nat>>)
    requires i <= |vals|
    ensures |rep| == |t.nodes|
  {
    seq(|t.nodes|, n requires 0 <= n < |t.nodes| => Scan(vals[..i], n, vals, t.nodes[n].attractive))
  }

  lemma PassStart(t: Table, vals: seq<nat>)
    ensures Pass(t, vals, 0) == Empties(|t.nodes|)
  {
    assert vals[..0] == [];
  }

  lemma PassEnd(t: Table, vals: seq<nat>)
    ensures Pass(t, vals, |vals|) == Repulsion(t, vals)
  {
    assert vals[..|vals|] == vals;
  }

  /** Visiting value `vals[i]` gives that node one inner loop's worth and leaves the rest. */
  lemma PassNext(t: Table, vals: seq<nat>, i: nat)
    requires i < |vals| && vals[i] < |t.nodes|
    ensures var p := Pass(t, vals, i);
      Pass(t, vals, i + 1) == p[vals[i] := p[vals[i]] + Others(vals, vals[i], t.nodes[vals[i]].attractive)]
  {
    var p, q := Pass(t, vals, i), Pass(t, vals, i + 1);
    var u := p[vals[i] := p[vals[i]] + Others(vals, vals[i], t.nodes[vals[i]].attractive)];
    forall n | 0 <= n < |t.nodes| ensures q[n] == u[n] {
      ScanNext(vals, i, n, t.nodes[n].attractive);
    }
    assert |q| == |u|;
  }

  /** The outer loop, one value further. */
  lemma ScanNext(vals: seq<nat>, i: nat, n: nat, att: seq<nat>)
    requires i < |vals|
    ensures Scan(vals[..i + 1], n, vals, att) == Scan(vals[..i], n, vals, att) + (if vals[i] == n then Others(vals, n, att) else [])
  {
    var outer := vals[..i + 1];
    assert outer[..|outer| - 1] == vals[..i];
  }

  /** The inner loop, one value further. */
  lemma OthersNext(vals: seq<nat>, j: nat, b: nat, att: seq<nat>)
    requires j < |vals|
    ensures Others(vals[..j + 1], b, att)
      == Others(vals[..j], b, att) + (if vals[j] != b && vals[j] !in att then [vals[j]] else [])
  {
    assert vals[..j + 1][..j] == vals[..j];
  }

  /** HashMap's iteration order, left unspecified: any listing of the keys, each once. */
  method EnumerateKeys(m: map<string, Ball>) returns (order: seq<string>)
    ensures Enumerates(order, m)
  {
    order := [];
    var rest := m.Keys;
    while rest != {}
      invariant rest <= m.Keys
      invariant forall k :: k in m ==> (k in rest <==> k !in order)
      invariant forall i :: 0 <= i < |order| ==> order[i] in m
      invariant forall i, j :: 0 <= i < j < |order| ==> order[i] != order[j]
      decreases |rest|
    {
      var k :| k in rest;
      order := order + [k];
      rest := rest - {k};
    }
  }

  /** After the pass, in object terms: two different balls of the map repel exactly when they
      do not attract, and no ball of the map repels itself. */
  lemma BallsPartition(t: Table, order: seq<string>, arena: seq<Ball>, hm: map<string, Ball>)
    requires WellFormed(t) && Enumerates(order, t.hm) && Keyed(t.hm, arena, hm)
    requires Repelled(t.nodes, Repulsion(t, Values(t.hm, order)), arena)
    ensures forall k1, k2 :: k1 in hm && k2 in hm && hm[k1] != hm[k2] ==>
      (hm[k2] in hm[k1].repulsiveBalls <==> hm[k2] !in hm[k1].attractiveBalls)
    ensures forall k :: k in hm ==> hm[k] !in hm[k].repulsiveBalls
  {
    var rep := Repulsion(t, Values(t.hm, order));
    Partition(t, order);
    forall k1, k2 | k1 in hm && k2 in hm
      ensures hm[k1] != hm[k2] ==> (hm[k2] in hm[k1].repulsiveBalls <==> hm[k2] !in hm[k1].attractiveBalls)
      ensures hm[k1] !in hm[k1].repulsiveBalls
    {
      var b, o := t.hm[k1], t.hm[k2];
      assert Final(arena[b], t.nodes[b], rep[b], arena);
      RefsIn(rep[b], arena, o);
      RefsIn(rep[b], arena, b);
      RefsIn(t.nodes[b].attractive, arena, o);
      assert b in t.hm.Values && o in t.hm.Values;
    }
  }

  /** Every ball getGraph lists is as the constructor left it: unselected, with its constants. */
  lemma GraphPristine(t: Table, rep: seq<seq<nat>>, arena: seq<Ball>, hm: map<string, Ball>, order: seq<string>, balls: seq<Ball>)
    requires Keyed(t.hm, arena, hm) && Repelled(t.nodes, rep, arena) && Enumerates(order, t.hm)
    requires |balls| == |order| && forall i :: 0 <= i < |order| ==> balls[i] == hm[order[i]]
    ensures forall o :: o in balls ==> !o.isSelected && o.Constants()
  {
    forall o | o in balls ensures !o.isSelected && o.Constants() {
      var i :| 0 <= i < |balls| && balls[i] == o;
      var k := order[i];
      assert Final(arena[t.hm[k]], t.nodes[t.hm[k]], rep[t.hm[k]], arena);
    }
  }

  class GraphReader {
    var hm: map<string, Ball>
    /** HashMap's iteration order over the keys of `hm`, fixed when the map is complete. */
    var order: seq<string>
    /** How many balls have been created: the next one is placed at `spawn(created)`, standing
        for the next pair of calls to random(width), random(height). */
    var created: nat
    ghost var arena: seq<Ball>

    constructor ()
      ensures hm == map[] && order == [] && created == 0 && arena == []
    {
      hm := map[];
      order := [];
      created := 0;
      arena := [];
    }

    /** Lines 891-903 for one token: the ball the trimmed token names, or a new ball at the next
        random position, named by the trimmed token. The map is not written here. */
    method Intern(raw: string, spawn: nat -> Vec, ghost t: Table) returns (b: Ball, ghost ix: nat, ghost nodes: seq<NodeRec>, ghost grown: seq<Ball>)
      requires WellFormed(t) && Built(t.nodes, arena) && Keyed(t.hm, arena, hm) && created == |arena|
      modifies this`arena, this`created
      ensures (ix, nodes) == Resolve(t.hm, t.nodes, raw, spawn)
      ensures WellFormed(Table(nodes, t.hm)) && Built(nodes, arena) && Keyed(t.hm, arena, hm) && created == |arena|
      ensures ix < |arena| && b == arena[ix]
      ensures arena == old(arena) + grown && (forall i :: 0 <= i < |grown| ==> fresh(grown[i]))
      ensures b in old(arena) || fresh(b)
    {
      var key := Trim(raw);
      if key in hm {
        b := hm[key];
        ix, nodes, grown := t.hm[key], t.nodes, [];
      } else {
        b := new Ball(spawn(created), Zero);
        b.SetName(key);
        BuiltGrow(t.nodes, arena, b);
        KeyedGrow(t.hm, arena, hm, b);
        ix, nodes, grown := |arena|, t.nodes + [NodeRec(key, spawn(created), [], [])], [b];
        created := created + 1;
        arena := arena + [b];
      }
    }

    /** Lines 905-908: the target joins the source's attractive and children lists, then the
        source joins the target's attractive list. */
    method Link(b1: Ball, b2: Ball, ghost s: nat, ghost d: nat, ghost t: Table)
      requires WellFormed(t) && Built(t.nodes, arena) && s < |arena| && d < |arena| && b1 == arena[s] && b2 == arena[d]
      modifies b1`attractiveBalls, b1`children, b2`attractiveBalls
      ensures Built(AddEdge(t.nodes, s, d), arena)
    {
      ghost var nodes := t.nodes;
      b1.AddAttractiveBall(b2);
      b1.AddChild(b2);
      b2.AddAttractiveBall(b1);
      ghost var nn := AddEdge(nodes, s, d);
      forall i | 0 <= i < |arena| ensures Holds(arena[i], nn[i], arena) {
        assert old(Holds(arena[i], nodes[i], arena));
        AddEdgeAt(nodes, s, d, i);
        if i == s || i == d {
          RefsAppend(nodes[i].attractive, d, arena);
          RefsAppend(nodes[i].children, d, arena);
          RefsAppend(nodes[i].attractive + [d], s, arena);
          RefsAppend(nodes[i].attractive, s, arena);
        } else {
          assert arena[i] != b1 && arena[i] != b2;
        }
      }
    }

    /** Lines 888-903: split the line and resolve both tokens against the map as it was before
        the line, creating the balls that are missing. */
    method ResolveLine(line: string, spawn: nat -> Vec, ghost t: Table)
        returns (k1: string, b1: Ball, k2: string, b2: Ball, ghost s: nat, ghost d: nat, ghost nodes: seq<NodeRec>, ghost added: seq<Ball>)
      requires HasDelimiter(line) && WellFormed(t) && Built(t.nodes, arena) && Keyed(t.hm, arena, hm) && created == |arena|
      modifies this`arena, this`created
      ensures s < |nodes| && d < |nodes| && Step(t, line, spawn) == Table(AddEdge(nodes, s, d), t.hm[k1 := s][k2 := d])
      ensures WellFormed(Table(nodes, t.hm)) && Built(nodes, arena) && Keyed(t.hm, arena, hm) && created == |arena|
      ensures s < |arena| && d < |arena| && b1 == arena[s] && b2 == arena[d]
      ensures (b1 in old(arena) || fresh(b1)) && (b2 in old(arena) || fresh(b2))
      ensures arena == old(arena) + added && forall i :: 0 <= i < |added| ==> fresh(added[i])
    {
      var tokens := Split(line);
      k1, k2 := tokens[0], tokens[1];
      ghost var a0 := arena;
      ghost var n1, g1, g2;
      b1, s, n1, g1 := Intern(k1, spawn, t);
      b2, d, nodes, g2 := Intern(k2, spawn, Table(n1, t.hm));
      added := g1 + g2;
      Concat(a0, g1, g2);
      StepOf(t, line, spawn, s, d, nodes);
    }

    /** The body of the line loop (lines 888-912): resolve both tokens, creating missing balls,
        record the edge, then write the map under the raw tokens. */
    method ReadLine(line: string, spawn: nat -> Vec, ghost t: Table) returns (ghost added: seq<Ball>)
      requires HasDelimiter(line) && Mirrors(t, arena, hm) && created == |arena|
      modifies this`hm, this`arena, this`created, arena
      ensures Mirrors(Step(t, line, spawn), arena, hm) && created == |arena|
      ensures arena == old(arena) + added && forall i :: 0 <= i < |added| ==> fresh(added[i])
    {
      var k1, b1, k2, b2;
      ghost var s, d, nodes;
      k1, b1, k2, b2, s, d, nodes, added := ResolveLine(line, spawn, t);
      Link(b1, b2, s, d, Table(nodes, t.hm));
      KeyedWrite(t.hm, arena, hm, k1, s, b1, k2, d, b2);
      hm := hm[k1 := b1][k2 := b2];
    }
    /** The innermost test of lines 917-920: `other` joins `b`'s repulsive list unless it is `b`
        itself or already attracts it. */
    method Consider(b: Ball, other: Ball, ghost n0: nat, ghost o: nat, ghost nodes: seq<NodeRec>, ghost base: seq<seq<nat>>, ghost acc: seq<nat>)
      requires n0 < |base| && Repelled(nodes, base[n0 := base[n0] + acc], arena)
      requires n0 < |arena| && o < |arena| && b == arena[n0] && other == arena[o]
      modifies b`repulsiveBalls
      ensures Repelled(nodes, base[n0 := base[n0] + (acc + if o != n0 && o !in nodes[n0].attractive then [o] else [])], arena)
    {
      ghost var rep := base[n0 := base[n0] + acc];
      ghost var x := if o != n0 && o !in nodes[n0].attractive then [o] else [];
      ghost var rep' := base[n0 := base[n0] + (acc + x)];
      assert rep'[n0] == rep[n0] + x;
      assert Final(arena[n0], nodes[n0], rep[n0], arena);
      RefsIn(nodes[n0].attractive, arena, o);
      if b != other && other !in b.attractiveBalls {
        b.AddRepulsiveBall(other);
        forall k | 0 <= k < |arena| ensures Final(arena[k], nodes[k], rep'[k], arena) {
          assert old(Final(arena[k], nodes[k], rep[k], arena));
          if k == n0 {
            RefsAppend(rep[n0], o, arena);
          } else {
            assert arena[k] != b;
          }
        }
      } else {
        assert rep[n0] + [] == rep[n0];
        assert rep' == rep;
      }
    }

    /** Lines 915-922 for the ball of node `n0`: the inner loop over all values extends that
        node's repulsive list by the values it neither is nor attracts, in order. */
    method RepelOne(b: Ball, ghost n0: nat, ghost t: Table, ghost vals: seq<nat>, ghost base: seq<seq<nat>>)
      requires Keyed(t.hm, arena, hm) && Enumerates(order, t.hm) && vals == Values(t.hm, order)
      requires n0 < |arena| && b == arena[n0] && Repelled(t.nodes, base, arena)
      modifies b`repulsiveBalls
      ensures Repelled(t.nodes, base[n0 := base[n0] + Others(vals, n0, t.nodes[n0].attractive)], arena)
    {
      ghost var att := t.nodes[n0].attractive;
      ghost var acc: seq<nat> := [];
      var j := 0;
      assert base[n0 := base[n0] + acc] == base by {
        assert base[n0] + [] == base[n0];
      }
      assert vals[..0] == [];
      while j < |order|
        invariant j <= |order| && acc == Others(vals[..j], n0, att)
        invariant Repelled(t.nodes, base[n0 := base[n0] + acc], arena)
      {
        var other := hm[order[j]];
        ValueAt(t.hm, arena, hm, order, j);
        Consider(b, other, n0, vals[j], t.nodes, base, acc);
        OthersNext(vals, j, n0, att);
        acc := Others(vals[..j + 1], n0, att);
        j := j + 1;
      }
      assert vals[..j] == vals;
    }

    /** Lines 914-923: every value meets every value. */
    method RepelAll(ghost t: Table, ghost vals: seq<nat>)
      requires WellFormed(t) && Built(t.nodes, arena) && Keyed(t.hm, arena, hm) && Enumerates(order, t.hm)
      requires vals == Values(t.hm, order)
      modifies arena
      ensures Repelled(t.nodes, Repulsion(t, vals), arena)
    {
      BuiltRepelled(t.nodes, arena);
      PassStart(t, vals);
      var i := 0;
      while i < |order|
        invariant i <= |order|
        invariant Repelled(t.nodes, Pass(t, vals, i), arena)
      {
        ValueAt(t.hm, arena, hm, order, i);
        RepelOne(hm[order[i]], vals[i], t, vals, Pass(t, vals, i));
        PassNext(t, vals, i);
        i := i + 1;
      }
      PassEnd(t, vals);
    }

    /** Line `k` read after the lines before it. */
    method ReadNext(lines: seq<string>, k: nat, spawn: nat -> Vec) returns (ghost added: seq<Ball>)
      requires AllEdges(lines) && k < |lines|
      requires Mirrors(Parse(lines[..k], spawn), arena, hm) && created == |arena|
      modifies this`hm, this`arena, this`created, arena
      ensures Mirrors(Parse(lines[..k + 1], spawn), arena, hm) && created == |arena|
      ensures arena == old(arena) + added && forall i :: 0 <= i < |added| ==> fresh(added[i])
    {
      added := ReadLine(lines[k], spawn, Parse(lines[..k], spawn));
      assert lines[..k + 1][..k] == lines[..k];
    }

    /** Lines 883-913: one step per line, from the empty map. */
    method ReadAll(lines: seq<string>, spawn: nat -> Vec)
      requires AllEdges(lines) && hm == map[] && created == 0 && arena == []
      modifies this`hm, this`arena, this`created
      ensures Mirrors(Parse(lines, spawn), arena, hm) && created == |arena|
      ensures forall i :: 0 <= i < |arena| ==> fresh(arena[i])
    {
      var k := 0;
      while k < |lines|
        invariant k <= |lines|
        invariant Mirrors(Parse(lines[..k], spawn), arena, hm) && created == |arena|
        invariant forall i :: 0 <= i < |arena| ==> fresh(arena[i])
      {
        ghost var added := ReadNext(lines, k, spawn);
        k := k + 1;
      }
      assert lines[..k] == lines;
    }

    /** Lines 877-923: a fresh map, one step per line, then the repulsive pass in the map's
        iteration order. Every ball holds the node the table gives it, with the repulsive list
        Build computes, and the map sends each key to the ball of its node. */
    method BuildGraph(lines: seq<string>, spawn: nat -> Vec)
      requires AllEdges(lines)
      modifies this
      ensures Enumerates(order, Parse(lines, spawn).hm)
      ensures Keyed(Parse(lines, spawn).hm, arena, hm) && Repelled(Parse(lines, spawn).nodes, Build(lines, spawn, order), arena)
      ensures created == |arena| && forall i :: 0 <= i < |arena| ==> fresh(arena[i])
    {
      hm, order, created, arena := map[], [], 0, [];
      ReadAll(lines, spawn);
      order := EnumerateKeys(hm);
      ghost var t := Parse(lines, spawn);
      RepelAll(t, Values(t.hm, order));
    }

    /** Lines 931-938: the map's values in iteration order, one per key. */
    method GetGraph() returns (balls: seq<Ball>)
      requires forall i :: 0 <= i < |order| ==> order[i] in hm
      ensures |balls| == |order| && forall i :: 0 <= i < |order| ==> balls[i] == hm[order[i]]
    {
      balls := [];
      var i := 0;
      while i < |order|
        invariant i <= |order| && |balls| == i
        invariant forall j :: 0 <= j < i ==> balls[j] == hm[order[j]]
      {
        balls := balls + [hm[order[i]]];
        i := i + 1;
      }
    }
  }
}
