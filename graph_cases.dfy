/** Concrete edge lists: the fully connected triangle, and the two ways padded tokens make the
    name map disagree with the node names (lookup by the trimmed token, store by the raw one). */
module GraphCases {
  import opened Wrappers
  import opened Vectors
  import opened Text
  import opened GraphSpec

  predicate NoDash(s: string) {
    forall i :: 0 <= i < |s| ==> s[i] != '-'
  }

  /** A line made of two dash-free tokens splits into exactly those tokens. */
  lemma SplitEdge(a: string, b: string)
    requires NoDash(a) && NoDash(b)
    ensures HasDelimiter(a + Delimiter + b)
    ensures Split(a + Delimiter + b) == [a, b]
  {
    var s := a + Delimiter + b;
    assert DelimiterAt(s, |a|);
    assert forall j :: 0 <= j < |a| ==> !DelimiterAt(s, j) by {
      forall j | 0 <= j < |a| ensures !DelimiterAt(s, j) {
        assert s[j] == a[j];
      }
    }
    assert Find(s, 0) == Some(|a|);
    assert forall j :: |a| + 2 <= j ==> !DelimiterAt(s, j) by {
      forall j | |a| + 2 <= j ensures !DelimiterAt(s, j) {
        if j < |s| {
          assert s[j] == b[j - |a| - 2];
        }
      }
    }
    assert Find(s, |a| + 2) == None;
    assert SplitFrom(s, |a| + 2) == [b] by {
      assert s[|a| + 2..] == b;
    }
    assert SplitFrom(s, 0) == [a, b] by {
      assert s[0..|a|] == a;
    }
  }

  const T1Hm: map<string, nat> := map["A" := 0, "B" := 1]
  const T2Hm: map<string, nat> := map["A" := 0, "B" := 1, "C" := 2]

  function T1(spawn: nat -> Vec): Table {
    Table([NodeRec("A", spawn(0), [1], [1]), NodeRec("B", spawn(1), [0], [])], T1Hm)
  }

  function T2(spawn: nat -> Vec): Table {
    Table([NodeRec("A", spawn(0), [1], [1]), NodeRec("B", spawn(1), [0, 2], [2]),
           NodeRec("C", spawn(2), [1], [])], T2Hm)
  }

  function T3(spawn: nat -> Vec): Table {
    Table([NodeRec("A", spawn(0), [1, 2], [1, 2]), NodeRec("B", spawn(1), [0, 2], [2]),
           NodeRec("C", spawn(2), [1, 0], [])], T2Hm)
  }

  /** A line `a->b` of dash-free tokens has source `a` and target `b`. */
  lemma Tokens(line: string, a: string, b: string)
    requires NoDash(a) && NoDash(b) && line == a + Delimiter + b
    ensures HasDelimiter(line) && Source(line) == a && Target(line) == b
  {
    SplitEdge(a, b);
  }

  function Fresh(name: string, spawn: nat -> Vec, n: nat): NodeRec {
    NodeRec(name, spawn(n), [], [])
  }

  /** Both names are new: two fresh nodes, source first. */
  lemma EndsFresh(t: Table, line: string, spawn: nat -> Vec, ka: string, kb: string)
    requires WellFormed(t) && HasDelimiter(line) && Trim(Source(line)) == ka && Trim(Target(line)) == kb
    requires ka !in t.hm && kb !in t.hm
    ensures Endpoints(t, line, spawn)
      == (|t.nodes|, |t.nodes| + 1, t.nodes + [Fresh(ka, spawn, |t.nodes|), Fresh(kb, spawn, |t.nodes| + 1)])
  {
    var n1 := t.nodes + [Fresh(ka, spawn, |t.nodes|)];
    assert n1 + [Fresh(kb, spawn, |n1|)] == t.nodes + [Fresh(ka, spawn, |t.nodes|), Fresh(kb, spawn, |t.nodes| + 1)];
  }

  /** The source is known, the target new. */
  lemma EndsKnownFresh(t: Table, line: string, spawn: nat -> Vec, ka: string, kb: string)
    requires WellFormed(t) && HasDelimiter(line) && Trim(Source(line)) == ka && Trim(Target(line)) == kb
    requires ka in t.hm && kb !in t.hm
    ensures Endpoints(t, line, spawn) == (t.hm[ka], |t.nodes|, t.nodes + [Fresh(kb, spawn, |t.nodes|)])
  {
  }

  /** Both names are known: nothing is created. */
  lemma EndsKnown(t: Table, line: string, spawn: nat -> Vec, ka: string, kb: string)
    requires WellFormed(t) && HasDelimiter(line) && Trim(Source(line)) == ka && Trim(Target(line)) == kb
    requires ka in t.hm && kb in t.hm
    ensures Endpoints(t, line, spawn) == (t.hm[ka], t.hm[kb], t.nodes)
  {
  }

  lemma T1Line()
    ensures HasDelimiter("A->B") && Source("A->B") == "A" && Target("A->B") == "B"
    ensures Trim(Source("A->B")) == "A" && Trim(Target("A->B")) == "B"
  {
    Tokens("A->B", "A", "B");
    assert Clean("A") && Clean("B");
  }

  lemma T1Ends(spawn: nat -> Vec)
    ensures HasDelimiter("A->B") && Source("A->B") == "A" && Target("A->B") == "B"
    ensures Endpoints(Table([], map[]), "A->B", spawn) == (0, 1, [Fresh("A", spawn, 0), Fresh("B", spawn, 1)])
  {
    T1Line();
    EndsFresh(Table([], map[]), "A->B", spawn, "A", "B");
  }

  lemma T1Edge(spawn: nat -> Vec)
    ensures AddEdge([Fresh("A", spawn, 0), Fresh("B", spawn, 1)], 0, 1) == T1(spawn).nodes
  {
    var nodes := [Fresh("A", spawn, 0), Fresh("B", spawn, 1)];
    var r := AddEdge(nodes, 0, 1);
    AddEdgeAt(nodes, 0, 1, 0);
    AddEdgeAt(nodes, 0, 1, 1);
    assert r[0] == T1(spawn).nodes[0];
    assert r[1] == T1(spawn).nodes[1];
  }

  lemma TriangleStep1(spawn: nat -> Vec)
    ensures HasDelimiter("A->B") && Step(Table([], map[]), "A->B", spawn) == T1(spawn)
    ensures AllEdges(["A->B"]) && Parse(["A->B"], spawn) == T1(spawn)
  {
    T1Ends(spawn);
    StepOf(Table([], map[]), "A->B", spawn, 0, 1, [Fresh("A", spawn, 0), Fresh("B", spawn, 1)]);
    T1Edge(spawn);
    assert map[]["A" := 0]["B" := 1] == T1Hm;
    ParseOne("A->B", spawn);
  }

  lemma T2Line()
    ensures HasDelimiter("B->C") && Source("B->C") == "B" && Target("B->C") == "C"
    ensures Trim(Source("B->C")) == "B" && Trim(Target("B->C")) == "C"
  {
    Tokens("B->C", "B", "C");
    assert Clean("B") && Clean("C");
  }

  lemma T2Ends(spawn: nat -> Vec)
    ensures HasDelimiter("B->C") && Source("B->C") == "B" && Target("B->C") == "C"
    ensures Endpoints(T1(spawn), "B->C", spawn) == (1, 2, T1(spawn).nodes + [Fresh("C", spawn, 2)])
  {
    T2Line();
    assert "B" in T1Hm && "C" !in T1Hm;
    EndsKnownFresh(T1(spawn), "B->C", spawn, "B", "C");
  }

  lemma T2Edge(spawn: nat -> Vec)
    ensures AddEdge(T1(spawn).nodes + [Fresh("C", spawn, 2)], 1, 2) == T2(spawn).nodes
  {
    var nodes := T1(spawn).nodes + [Fresh("C", spawn, 2)];
    var r := AddEdge(nodes, 1, 2);
    AddEdgeAt(nodes, 1, 2, 0);
    AddEdgeAt(nodes, 1, 2, 1);
    AddEdgeAt(nodes, 1, 2, 2);
    assert r[0] == T2(spawn).nodes[0];
    assert r[1] == T2(spawn).nodes[1];
    assert r[2] == T2(spawn).nodes[2];
  }

  lemma TriangleStep2(spawn: nat -> Vec)
    ensures HasDelimiter("B->C") && Step(T1(spawn), "B->C", spawn) == T2(spawn)
  {
    T2Ends(spawn);
    StepOf(T1(spawn), "B->C", spawn, 1, 2, T1(spawn).nodes + [Fresh("C", spawn, 2)]);
    T2Edge(spawn);
    assert T1Hm["B" := 1]["C" := 2] == T2Hm;
  }

  lemma T3Line()
    ensures HasDelimiter("A->C") && Source("A->C") == "A" && Target("A->C") == "C"
    ensures Trim(Source("A->C")) == "A" && Trim(Target("A->C")) == "C"
  {
    Tokens("A->C", "A", "C");
    assert Clean("A") && Clean("C");
  }

  lemma T3Ends(spawn: nat -> Vec)
    ensures HasDelimiter("A->C") && Source("A->C") == "A" && Target("A->C") == "C"
    ensures Endpoints(T2(spawn), "A->C", spawn) == (0, 2, T2(spawn).nodes)
  {
    T3Line();
    assert "A" in T2Hm && "C" in T2Hm;
    EndsKnown(T2(spawn), "A->C", spawn, "A", "C");
  }

  lemma T3Edge(spawn: nat -> Vec)
    ensures AddEdge(T2(spawn).nodes, 0, 2) == T3(spawn).nodes
  {
    var nodes := T2(spawn).nodes;
    var r := AddEdge(nodes, 0, 2);
    AddEdgeAt(nodes, 0, 2, 0);
    AddEdgeAt(nodes, 0, 2, 1);
    AddEdgeAt(nodes, 0, 2, 2);
    assert r[0] == T3(spawn).nodes[0];
    assert r[1] == T3(spawn).nodes[1];
    assert r[2] == T3(spawn).nodes[2];
  }

  lemma TriangleStep3(spawn: nat -> Vec)
    ensures HasDelimiter("A->C") && Step(T2(spawn), "A->C", spawn) == T3(spawn)
  {
    T3Ends(spawn);
    StepOf(T2(spawn), "A->C", spawn, 0, 2, T2(spawn).nodes);
    T3Edge(spawn);
    assert T2Hm["A" := 0]["C" := 2] == T2Hm;
  }

  /** "A->B", "B->C", "A->C": three nodes, each attracting the other two. */
  lemma TriangleParse(spawn: nat -> Vec)
    ensures AllEdges(["A->B", "B->C", "A->C"])
    ensures Parse(["A->B", "B->C", "A->C"], spawn) == T3(spawn)
  {
    TriangleStep1(spawn);
    TriangleStep2(spawn);
    TriangleStep3(spawn);
    ParseThree("A->B", "B->C", "A->C", spawn);
  }

  /** In the triangle every node already attracts every other one, so whatever order the map
      iterates in, the repulsive pass adds nothing. */
  lemma TriangleNoRepulsion(spawn: nat -> Vec, order: seq<string>)
    requires Enumerates(order, T2Hm)
    ensures Repulsion(T3(spawn), Values(T2Hm, order)) == [[], [], []]
  {
    var t := T3(spawn);
    var vals := Values(t.hm, order);
    var rep := Repulsion(t, vals);
    forall n | 0 <= n < 3 ensures rep[n] == [] {
      if rep[n] != [] {
        var x := rep[n][0];
        ScanMembers(vals, n, vals, t.nodes[n].attractive, x);
        OthersMembers(vals, n, t.nodes[n].attractive, x);
      }
    }
  }

  lemma Prefixes<T>(a: T, b: T, c: T)
    ensures [a, b, c][..2] == [a, b] && [a, b][..1] == [a] && [a][..0] == []
    ensures [a, b, c][2] == c && [a, b][1] == b && [a][0] == a
  {
  }

  /** A single line is one step from the empty table. */
  lemma ParseOne(l1: string, spawn: nat -> Vec)
    requires HasDelimiter(l1)
    ensures AllEdges([l1]) && Parse([l1], spawn) == Step(Table([], map[]), l1, spawn)
  {
    assert [l1][..0] == [];
  }

  /** Two lines are read one after the other. */
  lemma ParseTwo(l1: string, l2: string, spawn: nat -> Vec)
    requires HasDelimiter(l1) && HasDelimiter(l2)
    ensures AllEdges([l1, l2])
    ensures Parse([l1, l2], spawn) == Step(Step(Table([], map[]), l1, spawn), l2, spawn)
  {
    Prefixes(l1, l2, l2);
    ParseOne(l1, spawn);
  }

  /** Three lines are read one after the other. */
  lemma ParseThree(l1: string, l2: string, l3: string, spawn: nat -> Vec)
    requires HasDelimiter(l1) && HasDelimiter(l2) && HasDelimiter(l3)
    ensures AllEdges([l1, l2, l3])
    ensures Parse([l1, l2, l3], spawn) == Step(Step(Step(Table([], map[]), l1, spawn), l2, spawn), l3, spawn)
  {
    Prefixes(l1, l2, l3);
    ParseTwo(l1, l2, spawn);
  }

  const AliasHm: map<string, nat> := map["A" := 0, "B" := 1, " A" := 0, "C" := 2]

  function Alias(spawn: nat -> Vec): Table {
    Table([NodeRec("A", spawn(0), [1, 2], [1, 2]), NodeRec("B", spawn(1), [0], []),
           NodeRec("C", spawn(2), [0], [])], AliasHm)
  }

  lemma AliasLine()
    ensures HasDelimiter(" A->C") && Source(" A->C") == " A" && Target(" A->C") == "C"
    ensures Trim(Source(" A->C")) == "A" && Trim(Target(" A->C")) == "C"
  {
    Tokens(" A->C", " A", "C");
    assert Source(" A->C") == " " + "A";
    TrimPadded("A");
    assert Clean("C");
  }

  lemma AliasEnds(spawn: nat -> Vec)
    ensures HasDelimiter(" A->C") && Source(" A->C") == " A" && Target(" A->C") == "C"
    ensures Endpoints(T1(spawn), " A->C", spawn) == (0, 2, T1(spawn).nodes + [Fresh("C", spawn, 2)])
  {
    AliasLine();
    assert "A" in T1Hm && "C" !in T1Hm;
    EndsKnownFresh(T1(spawn), " A->C", spawn, "A", "C");
  }

  lemma AliasEdge(spawn: nat -> Vec)
    ensures AddEdge(T1(spawn).nodes + [Fresh("C", spawn, 2)], 0, 2) == Alias(spawn).nodes
  {
    var nodes := T1(spawn).nodes + [Fresh("C", spawn, 2)];
    var r := AddEdge(nodes, 0, 2);
    AddEdgeAt(nodes, 0, 2, 0);
    AddEdgeAt(nodes, 0, 2, 1);
    AddEdgeAt(nodes, 0, 2, 2);
    assert r[0] == Alias(spawn).nodes[0];
    assert r[1] == Alias(spawn).nodes[1];
    assert r[2] == Alias(spawn).nodes[2];
  }

  lemma AliasStep(spawn: nat -> Vec)
    ensures HasDelimiter(" A->C") && Step(T1(spawn), " A->C", spawn) == Alias(spawn)
  {
    AliasEnds(spawn);
    StepOf(T1(spawn), " A->C", spawn, 0, 2, T1(spawn).nodes + [Fresh("C", spawn, 2)]);
    AliasEdge(spawn);
    assert T1Hm[" A" := 0]["C" := 2] == AliasHm;
  }

  /** Line 898 looks up the trimmed token but line 910 stores the raw one: after "A->B" and
      " A->C" the same node sits under two keys, and the second edge joins the first node. */
  lemma PaddedSourceAliases(spawn: nat -> Vec)
    ensures AllEdges(["A->B", " A->C"])
    ensures var t := Parse(["A->B", " A->C"], spawn);
      && |t.nodes| == 3 && " A" in t.hm && "A" in t.hm && t.hm[" A"] == t.hm["A"] == 0
      && t.nodes[0].attractive == [1, 2] && t.nodes[0].children == [1, 2]
  {
    TriangleStep1(spawn);
    AliasStep(spawn);
    ParseTwo("A->B", " A->C", spawn);
  }

  const O1Hm: map<string, nat> := map["A " := 0, "B" := 1]
  const O2Hm: map<string, nat> := map["A " := 2, "B" := 1, "C" := 3]

  function O1(spawn: nat -> Vec): Table {
    Table([NodeRec("A", spawn(0), [1], [1]), NodeRec("B", spawn(1), [0], [])], O1Hm)
  }

  function O2(spawn: nat -> Vec): Table {
    Table([NodeRec("A", spawn(0), [1], [1]), NodeRec("B", spawn(1), [0], []),
           NodeRec("A", spawn(2), [3], [3]), NodeRec("C", spawn(3), [2], [])], O2Hm)
  }

  lemma O1Line()
    ensures HasDelimiter("A ->B") && Source("A ->B") == "A " && Target("A ->B") == "B"
    ensures Trim(Source("A ->B")) == "A" && Trim(Target("A ->B")) == "B"
  {
    Tokens("A ->B", "A ", "B");
    TrimPadded("A");
    assert Clean("B");
  }

  lemma O1Ends(spawn: nat -> Vec)
    ensures HasDelimiter("A ->B") && Source("A ->B") == "A " && Target("A ->B") == "B"
    ensures Endpoints(Table([], map[]), "A ->B", spawn) == (0, 1, [Fresh("A", spawn, 0), Fresh("B", spawn, 1)])
  {
    O1Line();
    EndsFresh(Table([], map[]), "A ->B", spawn, "A", "B");
  }

  lemma OrphanStep1(spawn: nat -> Vec)
    ensures HasDelimiter("A ->B") && Step(Table([], map[]), "A ->B", spawn) == O1(spawn)
  {
    O1Ends(spawn);
    StepOf(Table([], map[]), "A ->B", spawn, 0, 1, [Fresh("A", spawn, 0), Fresh("B", spawn, 1)]);
    T1Edge(spawn);
    assert map[]["A " := 0]["B" := 1] == O1Hm;
  }

  lemma O2Line()
    ensures HasDelimiter("A ->C") && Source("A ->C") == "A " && Target("A ->C") == "C"
    ensures Trim(Source("A ->C")) == "A" && Trim(Target("A ->C")) == "C"
  {
    Tokens("A ->C", "A ", "C");
    TrimPadded("A");
    assert Clean("C");
  }

  lemma O2Ends(spawn: nat -> Vec)
    ensures HasDelimiter("A ->C") && Source("A ->C") == "A " && Target("A ->C") == "C"
    ensures Endpoints(O1(spawn), "A ->C", spawn) == (2, 3, O1(spawn).nodes + [Fresh("A", spawn, 2), Fresh("C", spawn, 3)])
  {
    O2Line();
    assert "A" !in O1Hm && "C" !in O1Hm;
    EndsFresh(O1(spawn), "A ->C", spawn, "A", "C");
  }

  lemma O2Edge(spawn: nat -> Vec)
    ensures AddEdge(O1(spawn).nodes + [Fresh("A", spawn, 2), Fresh("C", spawn, 3)], 2, 3) == O2(spawn).nodes
  {
    var nodes := O1(spawn).nodes + [Fresh("A", spawn, 2), Fresh("C", spawn, 3)];
    var r := AddEdge(nodes, 2, 3);
    AddEdgeAt(nodes, 2, 3, 0);
    AddEdgeAt(nodes, 2, 3, 1);
    AddEdgeAt(nodes, 2, 3, 2);
    AddEdgeAt(nodes, 2, 3, 3);
    assert r[0] == O2(spawn).nodes[0];
    assert r[1] == O2(spawn).nodes[1];
    assert r[2] == O2(spawn).nodes[2];
    assert r[3] == O2(spawn).nodes[3];
  }

  lemma OrphanStep2(spawn: nat -> Vec)
    ensures HasDelimiter("A ->C") && Step(O1(spawn), "A ->C", spawn) == O2(spawn)
  {
    O2Ends(spawn);
    StepOf(O1(spawn), "A ->C", spawn, 2, 3, O1(spawn).nodes + [Fresh("A", spawn, 2), Fresh("C", spawn, 3)]);
    O2Edge(spawn);
    assert O1Hm["A " := 2]["C" := 3] == O2Hm;
  }

  lemma OrphanUnmapped()
    ensures 0 !in O2Hm.Values
  {
    assert O2Hm.Keys == {"A ", "B", "C"};
    forall k | k in O2Hm ensures O2Hm[k] != 0 {
      assert k == "A " || k == "B" || k == "C";
    }
  }

  /** With the padding on the first line too, the trimmed name never matches the stored raw
      key: "A ->B", "A ->C" create two nodes named A, and the first is left out of the map, so
      the repulsive pass never reaches it. */
  lemma PaddedSourceOrphans(spawn: nat -> Vec)
    ensures AllEdges(["A ->B", "A ->C"])
    ensures var t := Parse(["A ->B", "A ->C"], spawn);
      && |t.nodes| == 4 && t.nodes[0].name == t.nodes[2].name == "A"
      && 0 !in t.hm.Values
  {
    OrphanStep1(spawn);
    OrphanStep2(spawn);
    ParseTwo("A ->B", "A ->C", spawn);
    OrphanUnmapped();
  }
}
