/** What GraphReader.buildGraph computes, as values: the arena of nodes it creates (in creation
    order), the name map, and the repulsive lists the final pass adds. Nodes are addressed by
    their index in the arena; adjacency lists are sequences of such indices. */
module GraphSpec {
  import opened Vectors
  import opened Text

  /** A node as the edge lines leave it: its name, its random start position, its attractive
      list and its children (out-edges), both as arena indices. */
  datatype NodeRec = NodeRec(name: string, position: Vec, attractive: seq<nat>, children: seq<nat>)

  /** The reader's state: every node created so far, and the map `hm` from raw token to node. */
  datatype Table = Table(nodes: seq<NodeRec>, hm: map<string, nat>)

  predicate Below(s: seq<nat>, n: nat) {
    forall i :: 0 <= i < |s| ==> s[i] < n
  }

  /** Every index in the map and in the lists names a node of the arena. */
  predicate WellFormed(t: Table) {
    && (forall k :: k in t.hm ==> t.hm[k] < |t.nodes|)
    && (forall n :: 0 <= n < |t.nodes| ==>
          Below(t.nodes[n].attractive, |t.nodes|) && Below(t.nodes[n].children, |t.nodes|))
  }

  /** Every line holds the delimiter, so `nodes[1]` exists. */
  predicate AllEdges(lines: seq<string>) {
    forall i :: 0 <= i < |lines| ==> HasDelimiter(lines[i])
  }

  /** `nodes[0]` of the split line, untrimmed. */
  function Source(line: string): string
    requires HasDelimiter(line)
  {
    Split(line)[0]
  }

  /** `nodes[1]` of the split line, untrimmed. */
  function Target(line: string): string
    requires HasDelimiter(line)
  {
    Split(line)[1]
  }

  /** Looks the trimmed token up in `hm`; an absent name gets a new node at the end of the
      arena, placed at the next random position. */
  function Resolve(hm: map<string, nat>, nodes: seq<NodeRec>, raw: string, spawn: nat -> Vec): (nat, seq<NodeRec>)
  {
    var key := Trim(raw);
    if key in hm then (hm[key], nodes)
    else (|nodes|, nodes + [NodeRec(key, spawn(|nodes|), [], [])])
  }

  /** The two nodes one line resolves to, and the arena after the nodes it creates. Both lookups
      use the map as it was before the line: the map is only written after both. */
  function Endpoints(t: Table, line: string, spawn: nat -> Vec): (r: (nat, nat, seq<NodeRec>))
    requires WellFormed(t) && HasDelimiter(line)
    ensures var (s, d, nodes) := r;
      && |t.nodes| <= |nodes| && nodes[..|t.nodes|] == t.nodes && s < |nodes| && d < |nodes|
      && (Trim(Source(line)) in t.hm ==> s == t.hm[Trim(Source(line))])
      && (Trim(Source(line)) !in t.hm ==>
            s == |t.nodes| && nodes[s] == NodeRec(Trim(Source(line)), spawn(s), [], []))
      && (Trim(Target(line)) in t.hm ==> d == t.hm[Trim(Target(line))])
      && (Trim(Target(line)) !in t.hm ==>
            d == |nodes| - 1 && d >= |t.nodes| && nodes[d] == NodeRec(Trim(Target(line)), spawn(d), [], []))
      && |nodes| == |t.nodes| + (if Trim(Source(line)) in t.hm then 0 else 1)
                              + (if Trim(Target(line)) in t.hm then 0 else 1)
  {
    var (s, n1) := Resolve(t.hm, t.nodes, Source(line), spawn);
    var (d, n2) := Resolve(t.hm, n1, Target(line), spawn);
    (s, d, n2)
  }

  /** Lines 905-908: the target joins the source's attractive and children lists, then the
      source joins the target's attractive list. */
  function AddEdge(nodes: seq<NodeRec>, s: nat, d: nat): (r: seq<NodeRec>)
    requires s < |nodes| && d < |nodes|
    ensures |r| == |nodes|
  {
    var n3 := nodes[s := nodes[s].(attractive := nodes[s].attractive + [d], children := nodes[s].children + [d])];
    n3[d := n3[d].(attractive := n3[d].attractive + [s])]
  }

  /** What the edge does to node `n`: its name and position stay, the target is appended to the
      source's lists, the source to the target's attractive list (a self-loop gets both). */
  lemma AddEdgeAt(nodes: seq<NodeRec>, s: nat, d: nat, n: nat)
    requires s < |nodes| && d < |nodes| && n < |nodes|
    ensures var r := AddEdge(nodes, s, d);
      && r[n].name == nodes[n].name && r[n].position == nodes[n].position
      && r[n].attractive == nodes[n].attractive + (if n == s then [d] else []) + (if n == d then [s] else [])
      && r[n].children == nodes[n].children + (if n == s then [d] else [])
  {
  }

  /** The attractive list node `n` had before a step: nodes the step creates start empty. */
  function AttractiveBefore(t: Table, n: nat): seq<nat> {
    if n < |t.nodes| then t.nodes[n].attractive else []
  }

  /** Likewise its children. */
  function ChildrenBefore(t: Table, n: nat): seq<nat> {
    if n < |t.nodes| then t.nodes[n].children else []
  }

  /** A line leaves the nodes it finds as they were, and the nodes it creates start with empty
      lists. */
  lemma EndpointsKeep(t: Table, line: string, spawn: nat -> Vec)
    requires WellFormed(t) && HasDelimiter(line)
    ensures var (_, _, nodes) := Endpoints(t, line, spawn);
      forall n :: 0 <= n < |nodes| ==>
        nodes[n].attractive == AttractiveBefore(t, n) && nodes[n].children == ChildrenBefore(t, n)
  {
    var (s, d, nodes) := Endpoints(t, line, spawn);
    forall n | 0 <= n < |nodes|
      ensures nodes[n].attractive == AttractiveBefore(t, n) && nodes[n].children == ChildrenBefore(t, n)
    {
      if n < |t.nodes| {
        assert nodes[n] == t.nodes[n];
      }
    }
  }

  /** So every list of those nodes still points into the arena. */
  lemma EndpointsBelow(t: Table, line: string, spawn: nat -> Vec)
    requires WellFormed(t) && HasDelimiter(line)
    ensures var (_, _, nodes) := Endpoints(t, line, spawn);
      forall n :: 0 <= n < |nodes| ==> Below(nodes[n].attractive, |nodes|) && Below(nodes[n].children, |nodes|)
  {
    EndpointsKeep(t, line, spawn);
  }

  /** Recording an edge between two nodes of the arena keeps every list inside it. */
  lemma AddEdgeBelow(nodes: seq<NodeRec>, s: nat, d: nat)
    requires s < |nodes| && d < |nodes|
    requires forall n :: 0 <= n < |nodes| ==> Below(nodes[n].attractive, |nodes|) && Below(nodes[n].children, |nodes|)
    ensures var r := AddEdge(nodes, s, d);
      forall n :: 0 <= n < |r| ==> Below(r[n].attractive, |r|) && Below(r[n].children, |r|)
  {
    var r := AddEdge(nodes, s, d);
    forall n | 0 <= n < |r|
      ensures Below(r[n].attractive, |r|) && Below(r[n].children, |r|)
    {
      AddEdgeAt(nodes, s, d, n);
    }
  }

  /** One edge line: resolve both names, record the edge, then write the map under the raw tokens. */
  function Step(t: Table, line: string, spawn: nat -> Vec): (r: Table)
    requires WellFormed(t) && HasDelimiter(line)
    ensures WellFormed(r)
  {
    var (s, d, nodes) := Endpoints(t, line, spawn);
    EndpointsBelow(t, line, spawn);
    AddEdgeBelow(nodes, s, d);
    Table(AddEdge(nodes, s, d), t.hm[Source(line) := s][Target(line) := d])
  }

  /** Once both lookups of a line are known, the step is the edge plus the two map writes. */
  lemma StepOf(t: Table, line: string, spawn: nat -> Vec, s: nat, d: nat, nodes: seq<NodeRec>)
    requires WellFormed(t) && HasDelimiter(line) && Endpoints(t, line, spawn) == (s, d, nodes)
    ensures s < |nodes| && d < |nodes|
    ensures Step(t, line, spawn) == Table(AddEdge(nodes, s, d), t.hm[Source(line) := s][Target(line) := d])
  {
  }

  /** The table after all lines, read in order. */
  function Parse(lines: seq<string>, spawn: nat -> Vec): (t: Table)
    requires AllEdges(lines)
    ensures WellFormed(t)
  {
    if lines == [] then Table([], map[])
    else Step(Parse(lines[..|lines| - 1], spawn), lines[|lines| - 1], spawn)
  }

  /** `order` lists every key of `hm` exactly once: HashMap's iteration order, which the model
      leaves unspecified. */
  predicate Enumerates<V>(order: seq<string>, hm: map<string, V>) {
    && (forall i, j :: 0 <= i < j < |order| ==> order[i] != order[j])
    && (forall k :: k in hm ==> k in order)
    && (forall i :: 0 <= i < |order| ==> order[i] in hm)
  }

  /** `hm.values()` in that order: one entry per key. */
  function Values(hm: map<string, nat>, order: seq<string>): seq<nat>
    requires forall i :: 0 <= i < |order| ==> order[i] in hm
  {
    seq(|order|, i requires 0 <= i < |order| => hm[order[i]])
  }

  /** One inner loop of the repulsive pass for node `b`: every value that is not `b` itself and
      not in `b`'s attractive list `att`, in iteration order. */
  function Others(vals: seq<nat>, b: nat, att: seq<nat>): seq<nat> {
    if vals == [] then []
    else
      var o := vals[|vals| - 1];
      Others(vals[..|vals| - 1], b, att) + (if o != b && o !in att then [o] else [])
  }

  /** Node `n`'s repulsive list after the outer loop has visited `outer`: one inner loop's worth
      for every time the outer loop meets `n`. */
  function Scan(outer: seq<nat>, n: nat, vals: seq<nat>, att: seq<nat>): seq<nat> {
    if outer == [] then []
    else Scan(outer[..|outer| - 1], n, vals, att) + (if outer[|outer| - 1] == n then Others(vals, n, att) else [])
  }

  /** Lines 914-923: every node's repulsive list after the pass over the values `vals`. */
  function Repulsion(t: Table, vals: seq<nat>): (rep: seq<seq<nat>>)
    ensures |rep| == |t.nodes|
  {
    seq(|t.nodes|, n requires 0 <= n < |t.nodes| => Scan(vals, n, vals, t.nodes[n].attractive))
  }

  // ---------------------------------------------------------------------------------------
  // Partition

  lemma {:induction false} OthersMembers(vals: seq<nat>, b: nat, att: seq<nat>, x: nat)
    ensures x in Others(vals, b, att) <==> x in vals && x != b && x !in att
  {
    if vals != [] {
      var init := vals[..|vals| - 1];
      OthersMembers(init, b, att, x);
      assert vals == init + [vals[|vals| - 1]];
    }
  }

  lemma {:induction false} ScanMembers(outer: seq<nat>, n: nat, vals: seq<nat>, att: seq<nat>, x: nat)
    ensures x in Scan(outer, n, vals, att) <==> n in outer && x in Others(vals, n, att)
  {
    if outer != [] {
      var init := outer[..|outer| - 1];
      ScanMembers(init, n, vals, att, x);
      assert outer == init + [outer[|outer| - 1]];
    }
  }

  /** After the pass, two distinct nodes of the map repel exactly when they do not attract; no
      node repels itself; only nodes of the map are ever added; a node no key maps to gets no
      repulsive list at all. */
  lemma Partition(t: Table, order: seq<string>)
    requires WellFormed(t) && Enumerates(order, t.hm)
    ensures var rep := Repulsion(t, Values(t.hm, order));
      && (forall b, o :: 0 <= b < |t.nodes| && b in t.hm.Values && o in t.hm.Values && b != o ==>
            (o in rep[b] <==> o !in t.nodes[b].attractive))
      && (forall b :: 0 <= b < |t.nodes| ==> b !in rep[b])
      && (forall b, o :: 0 <= b < |t.nodes| && o in rep[b] ==> o in t.hm.Values)
      && (forall b :: 0 <= b < |t.nodes| && b !in t.hm.Values ==> rep[b] == [])
  {
    var vals := Values(t.hm, order);
    var rep := Repulsion(t, vals);
    assert forall v :: v in vals <==> v in t.hm.Values by {
      forall v ensures v in vals <==> v in t.hm.Values {
        if v in t.hm.Values {
          var k :| k in t.hm && t.hm[k] == v;
          var i :| 0 <= i < |order| && order[i] == k;
          assert vals[i] == v;
        }
      }
    }
    forall b, o | 0 <= b < |t.nodes|
      ensures o in rep[b] <==> b in vals && o in vals && o != b && o !in t.nodes[b].attractive
    {
      ScanMembers(vals, b, vals, t.nodes[b].attractive, o);
      OthersMembers(vals, b, t.nodes[b].attractive, o);
    }
    forall b | 0 <= b < |t.nodes| && b !in t.hm.Values ensures rep[b] == [] {
      if rep[b] != [] {
        ScanMembers(vals, b, vals, t.nodes[b].attractive, rep[b][0]);
      }
    }
  }

  // ---------------------------------------------------------------------------------------
  // Edge recording

  /** One line appends the target to the source's attractive and children lists and the source
      to the target's attractive list; every other list, name and position stays as it was, and
      the map gains the two raw tokens. */
  lemma StepRecordsEdge(t: Table, line: string, spawn: nat -> Vec)
    requires WellFormed(t) && HasDelimiter(line)
    ensures var (s, d, _) := Endpoints(t, line, spawn);
      var r := Step(t, line, spawn);
      && s < |r.nodes| && d < |r.nodes| && |t.nodes| <= |r.nodes| <= |t.nodes| + 2
      && r.hm == t.hm[Source(line) := s][Target(line) := d]
      && (forall n :: 0 <= n < |r.nodes| ==>
            && r.nodes[n].attractive == AttractiveBefore(t, n) + (if n == s then [d] else []) + (if n == d then [s] else [])
            && r.nodes[n].children == ChildrenBefore(t, n) + (if n == s then [d] else []))
      && (forall n :: 0 <= n < |t.nodes| ==>
            r.nodes[n].name == t.nodes[n].name && r.nodes[n].position == t.nodes[n].position)
  {
    var (s, d, nodes) := Endpoints(t, line, spawn);
    EndpointsKeep(t, line, spawn);
    forall n | 0 <= n < |nodes|
      ensures var r := AddEdge(nodes, s, d);
        && r[n].name == nodes[n].name && r[n].position == nodes[n].position
        && r[n].attractive == nodes[n].attractive + (if n == s then [d] else []) + (if n == d then [s] else [])
        && r[n].children == nodes[n].children + (if n == s then [d] else [])
    {
      AddEdgeAt(nodes, s, d, n);
    }
  }

  /** A fresh name on both sides of one line ("A->A" with A unseen) makes two nodes of that
      name: the second lookup still uses the map from before the line. */
  lemma FreshSelfLoopMakesTwoNodes(t: Table, line: string, spawn: nat -> Vec)
    requires WellFormed(t) && HasDelimiter(line)
    requires Trim(Source(line)) == Trim(Target(line)) && Trim(Source(line)) !in t.hm
    ensures var (s, d, nodes) := Endpoints(t, line, spawn);
      s != d && nodes[s].name == nodes[d].name == Trim(Source(line))
  {
  }

  predicate SymmetricAttraction(t: Table) {
    forall n, m :: 0 <= n < |t.nodes| && 0 <= m < |t.nodes| ==>
      multiset(t.nodes[n].attractive)[m] == multiset(t.nodes[m].attractive)[n]
  }

  predicate ChildrenAttract(t: Table) {
    forall n :: 0 <= n < |t.nodes| ==> multiset(t.nodes[n].children) <= multiset(t.nodes[n].attractive)
  }

  lemma BelowNotIn(s: seq<nat>, n: nat, m: nat)
    requires Below(s, n) && n <= m
    ensures multiset(s)[m] == 0
  {
    assert m !in s;
  }

  /** How often `m` occurs in node `n`'s attractive list after one line. */
  lemma CountAfterStep(t: Table, line: string, spawn: nat -> Vec, n: nat, m: nat)
    requires WellFormed(t) && HasDelimiter(line) && n < |Step(t, line, spawn).nodes|
    ensures var (s, d, _) := Endpoints(t, line, spawn);
      multiset(Step(t, line, spawn).nodes[n].attractive)[m]
        == multiset(AttractiveBefore(t, n))[m] + (if n == s && m == d then 1 else 0) + (if n == d && m == s then 1 else 0)
  {
    var (s, d, _) := Endpoints(t, line, spawn);
    StepRecordsEdge(t, line, spawn);
    var before: seq<nat> := AttractiveBefore(t, n);
    assert Step(t, line, spawn).nodes[n].attractive == before + (if n == s then [d] else []) + (if n == d then [s] else []);
  }

  lemma BeforeSymmetric(t: Table, n: nat, m: nat)
    requires WellFormed(t) && SymmetricAttraction(t)
    ensures multiset(AttractiveBefore(t, n))[m] == multiset(AttractiveBefore(t, m))[n]
  {
    if n < |t.nodes| && m >= |t.nodes| {
      BelowNotIn(t.nodes[n].attractive, |t.nodes|, m);
    } else if m < |t.nodes| && n >= |t.nodes| {
      BelowNotIn(t.nodes[m].attractive, |t.nodes|, n);
    }
  }

  lemma StepKeepsSymmetry(t: Table, line: string, spawn: nat -> Vec)
    requires WellFormed(t) && HasDelimiter(line) && SymmetricAttraction(t)
    ensures SymmetricAttraction(Step(t, line, spawn))
  {
    var nodes := Step(t, line, spawn).nodes;
    forall n, m | 0 <= n < |nodes| && 0 <= m < |nodes|
      ensures multiset(nodes[n].attractive)[m] == multiset(nodes[m].attractive)[n]
    {
      CountAfterStep(t, line, spawn, n, m);
      CountAfterStep(t, line, spawn, m, n);
      BeforeSymmetric(t, n, m);
    }
  }

  lemma StepKeepsChildren(t: Table, line: string, spawn: nat -> Vec)
    requires WellFormed(t) && HasDelimiter(line) && ChildrenAttract(t)
    ensures ChildrenAttract(Step(t, line, spawn))
  {
    var (s, d, _) := Endpoints(t, line, spawn);
    var r := Step(t, line, spawn);
    StepRecordsEdge(t, line, spawn);
    forall n | 0 <= n < |r.nodes|
      ensures multiset(r.nodes[n].children) <= multiset(r.nodes[n].attractive)
    {
      assert multiset(ChildrenBefore(t, n)) <= multiset(AttractiveBefore(t, n));
    }
  }

  /** Attraction is symmetric, counted with multiplicity: node m occurs in n's attractive list as
      often as n occurs in m's. */
  lemma {:induction false} AttractionSymmetric(lines: seq<string>, spawn: nat -> Vec)
    requires AllEdges(lines)
    ensures SymmetricAttraction(Parse(lines, spawn))
  {
    if lines != [] {
      var init, line := lines[..|lines| - 1], lines[|lines| - 1];
      AttractionSymmetric(init, spawn);
      StepKeepsSymmetry(Parse(init, spawn), line, spawn);
      assert Parse(lines, spawn) == Step(Parse(init, spawn), line, spawn);
    }
  }

  /** `children` keeps only the source-to-target direction: every child of a node is also in its
      attractive list, at least as often. */
  lemma {:induction false} ChildrenAreAttractive(lines: seq<string>, spawn: nat -> Vec)
    requires AllEdges(lines)
    ensures ChildrenAttract(Parse(lines, spawn))
  {
    if lines != [] {
      var init, line := lines[..|lines| - 1], lines[|lines| - 1];
      ChildrenAreAttractive(init, spawn);
      StepKeepsChildren(Parse(init, spawn), line, spawn);
      assert Parse(lines, spawn) == Step(Parse(init, spawn), line, spawn);
    }
  }

  // ---------------------------------------------------------------------------------------
  // Names

  /** Each key names the node it maps to. */
  predicate KeysNameNodes(t: Table)
    requires WellFormed(t)
  {
    forall k :: k in t.hm ==> t.nodes[t.hm[k]].name == k
  }

  /** With whitespace-free tokens, every key of the map is the name of the node it maps to; so
      distinct keys map to distinct nodes and `hm.values()` holds no node twice. */
  lemma {:induction false} CleanNamesAreKeys(lines: seq<string>, spawn: nat -> Vec)
    requires AllEdges(lines)
    requires forall i :: 0 <= i < |lines| ==> Clean(Source(lines[i])) && Clean(Target(lines[i]))
    ensures var t := Parse(lines, spawn);
      && KeysNameNodes(t)
      && forall k1, k2 :: k1 in t.hm && k2 in t.hm && t.hm[k1] == t.hm[k2] ==> k1 == k2
  {
    if lines != [] {
      var init := lines[..|lines| - 1];
      var line := lines[|lines| - 1];
      var t := Parse(init, spawn);
      CleanNamesAreKeys(init, spawn);
      var (s, d, nodes) := Endpoints(t, line, spawn);
      var r := Step(t, line, spawn);
      StepRecordsEdge(t, line, spawn);
      forall k | k in r.hm ensures r.nodes[r.hm[k]].name == k {
        if k == Target(line) {
          if d < |t.nodes| {
            assert r.nodes[d].name == t.nodes[d].name;
          } else {
            assert nodes[d].name == k;
          }
        } else if k == Source(line) {
          if s < |t.nodes| {
            assert r.nodes[s].name == t.nodes[s].name;
          } else {
            assert nodes[s].name == k;
          }
        } else {
          assert r.hm[k] == t.hm[k];
        }
      }
    }
  }

  /** A line adds its two raw tokens to the keys of the map and removes none. */
  lemma StepKeys(t: Table, line: string, spawn: nat -> Vec)
    requires WellFormed(t) && HasDelimiter(line)
    ensures Step(t, line, spawn).hm.Keys == t.hm.Keys + {Source(line), Target(line)}
  {
  }

  /** Keys only accumulate: both tokens of every line read so far are keys of the map. */
  lemma {:induction false} KeysAccumulate(lines: seq<string>, spawn: nat -> Vec)
    requires AllEdges(lines)
    ensures forall i :: 0 <= i < |lines| ==>
      Source(lines[i]) in Parse(lines, spawn).hm && Target(lines[i]) in Parse(lines, spawn).hm
  {
    if lines != [] {
      var init := lines[..|lines| - 1];
      var t := Parse(init, spawn);
      var r := Parse(lines, spawn);
      KeysAccumulate(init, spawn);
      var last := lines[|lines| - 1];
      assert r == Step(t, last, spawn);
      StepKeys(t, last, spawn);
      forall i | 0 <= i < |lines| ensures Source(lines[i]) in r.hm && Target(lines[i]) in r.hm {
        if i < |init| {
          assert lines[i] == init[i];
          assert Source(init[i]) in t.hm && Target(init[i]) in t.hm;
        } else {
          assert lines[i] == last;
        }
      }
    }
  }

  /** With whitespace-free tokens, a source name that appeared on an earlier line resolves to the
      node the map already holds for it, and no node is created for it. */
  lemma NameReuse(lines: seq<string>, k: nat, j: nat, spawn: nat -> Vec)
    requires AllEdges(lines) && j < k < |lines|
    requires Clean(Source(lines[k]))
    requires Source(lines[k]) == Source(lines[j]) || Source(lines[k]) == Target(lines[j])
    ensures var t := Parse(lines[..k], spawn);
      var (s, _, nodes) := Endpoints(t, lines[k], spawn);
      && Source(lines[k]) in t.hm && s == t.hm[Source(lines[k])]
      && |nodes| <= |t.nodes| + 1
  {
    var prefix := lines[..k];
    KeysAccumulate(prefix, spawn);
    assert prefix[j] == lines[j];
  }

  /** The same for the target: a clean target name seen on an earlier line resolves to the node
      the map already holds for it. */
  lemma NameReuseTarget(lines: seq<string>, k: nat, j: nat, spawn: nat -> Vec)
    requires AllEdges(lines) && j < k < |lines|
    requires Clean(Target(lines[k]))
    requires Target(lines[k]) == Source(lines[j]) || Target(lines[k]) == Target(lines[j])
    ensures var t := Parse(lines[..k], spawn);
      var (_, d, nodes) := Endpoints(t, lines[k], spawn);
      && Target(lines[k]) in t.hm && d == t.hm[Target(lines[k])]
      && |nodes| <= |t.nodes| + 1
  {
    var prefix := lines[..k];
    KeysAccumulate(prefix, spawn);
    assert prefix[j] == lines[j];
  }

  /** A line whose two clean names both appeared earlier creates no node: the step only adds
      the edge between the two nodes already there. */
  lemma NamesReused(lines: seq<string>, k: nat, i: nat, j: nat, spawn: nat -> Vec)
    requires AllEdges(lines) && i < k && j < k < |lines|
    requires Clean(Source(lines[k])) && Clean(Target(lines[k]))
    requires Source(lines[k]) == Source(lines[i]) || Source(lines[k]) == Target(lines[i])
    requires Target(lines[k]) == Source(lines[j]) || Target(lines[k]) == Target(lines[j])
    ensures var t := Parse(lines[..k], spawn);
      var (s, d, nodes) := Endpoints(t, lines[k], spawn);
      && nodes == t.nodes
      && s == t.hm[Source(lines[k])] && d == t.hm[Target(lines[k])]
      && Step(t, lines[k], spawn).nodes == AddEdge(t.nodes, s, d)
  {
    NameReuse(lines, k, i, spawn);
    NameReuseTarget(lines, k, j, spawn);
    var t := Parse(lines[..k], spawn);
    var (s, d, nodes) := Endpoints(t, lines[k], spawn);
    assert Trim(Source(lines[k])) in t.hm && Trim(Target(lines[k])) in t.hm;
    assert |nodes| == |t.nodes|;
    assert nodes == nodes[..|t.nodes|];
    StepOf(t, lines[k], spawn, s, d, nodes);
  }

  // ---------------------------------------------------------------------------------------
  // Whole graphs

  /** Lines 877-923: the table of all lines with each node's repulsive list. */
  function Build(lines: seq<string>, spawn: nat -> Vec, order: seq<string>): (rep: seq<seq<nat>>)
    requires AllEdges(lines) && Enumerates(order, Parse(lines, spawn).hm)
  {
    var t := Parse(lines, spawn);
    Repulsion(t, Values(t.hm, order))
  }
}
