/** The two Processing string helpers the graph reader uses: `split(line, "->")` and `trim`. */
module Text {
  import opened Wrappers

  /** GraphReader.dlm */
  const Delimiter: string := "->"

  const Nbsp: char := ' '

  /** Java's String.trim drops every character up to U+0020 at either end. */
  predicate IsBlank(c: char) {
    c <= ' '
  }

  /** A token trim leaves alone everywhere: no blank and no non-breaking space in it. */
  predicate Clean(s: string) {
    forall i :: 0 <= i < |s| ==> !IsBlank(s[i]) && s[i] != Nbsp
  }

  predicate DelimiterAt(s: string, j: int) {
    0 <= j && j + 2 <= |s| && s[j] == '-' && s[j + 1] == '>'
  }

  /** `s.indexOf("->", from)`: the first occurrence of the delimiter at or after `from`. */
  function Find(s: string, from: nat): (r: Option<nat>)
    requires from <= |s|
    decreases |s| - from
    ensures r.Some? ==> from <= r.value && DelimiterAt(s, r.value)
    ensures forall j :: from <= j && (r.None? || j < r.value) ==> !DelimiterAt(s, j)
  {
    if from + 2 > |s| then None
    else if DelimiterAt(s, from) then Some(from)
    else Find(s, from + 1)
  }

  /** The pieces of `split(s, "->")` from offset `from` on: every occurrence cuts,
      and empty pieces are kept. */
  function SplitFrom(s: string, from: nat): (r: seq<string>)
    requires from <= |s|
    decreases |s| - from
    ensures |r| >= 1
  {
    match Find(s, from)
    case None => [s[from..]]
    case Some(i) => [s[from..i]] + SplitFrom(s, i + 2)
  }

  function Split(s: string): seq<string> {
    SplitFrom(s, 0)
  }

  /** The inverse of split: the pieces glued back together with the delimiter. */
  function Join(pieces: seq<string>): string
    requires |pieces| >= 1
  {
    if |pieces| == 1 then pieces[0] else pieces[0] + Delimiter + Join(pieces[1..])
  }

  /** A line `split` cuts into at least the two fields buildGraph reads. */
  predicate HasDelimiter(s: string) {
    Find(s, 0).Some?
  }

  lemma {:induction false} JoinSplitFrom(s: string, from: nat)
    requires from <= |s|
    decreases |s| - from
    ensures Join(SplitFrom(s, from)) == s[from..]
  {
    match Find(s, from)
    case None =>
    case Some(i) =>
      JoinSplitFrom(s, i + 2);
      assert s[from..] == s[from..i] + Delimiter + s[i + 2..];
  }

  /** Splitting loses nothing: joining the pieces with "->" gives the line back. */
  lemma SplitJoin(s: string)
    ensures Join(Split(s)) == s
  {
    JoinSplitFrom(s, 0);
  }

  /** `split` yields a second field exactly when the line holds the delimiter. */
  lemma SplitHasTwoFields(s: string)
    ensures |Split(s)| >= 2 <==> HasDelimiter(s)
  {
  }

  /** Characters kept from the front: the first index at or after `i` that trim keeps. */
  function TrimStart(s: string, i: nat): (k: nat)
    requires i <= |s|
    decreases |s| - i
    ensures i <= k <= |s|
    ensures forall j :: i <= j < k ==> IsBlank(s[j])
    ensures k < |s| ==> !IsBlank(s[k])
  {
    if i < |s| && IsBlank(s[i]) then TrimStart(s, i + 1) else i
  }

  /** The end of the kept part: blanks are dropped from `e` backwards, but not past `k`. */
  function TrimEnd(s: string, k: nat, e: nat): (r: nat)
    requires k <= e <= |s|
    decreases e
    ensures k <= r <= e
    ensures forall j :: r <= j < e ==> IsBlank(s[j])
    ensures r > k ==> !IsBlank(s[r - 1])
  {
    if e > k && IsBlank(s[e - 1]) then TrimEnd(s, k, e - 1) else e
  }

  /** Every non-breaking space replaced by a space, everything else kept. */
  function Unbreak(s: string): (u: string)
    ensures |u| == |s|
    ensures forall i :: 0 <= i < |s| ==> u[i] == (if s[i] == Nbsp then ' ' else s[i])
  {
    seq(|s|, i requires 0 <= i < |s| => if s[i] == Nbsp then ' ' else s[i])
  }

  predicate AllBlank(s: string) {
    forall i :: 0 <= i < |s| ==> IsBlank(s[i])
  }

  /** Processing's trim: non-breaking spaces become spaces, then Java's String.trim. */
  function Trim(s: string): (r: string)
    ensures |r| <= |s|
    ensures r == [] || (!IsBlank(r[0]) && !IsBlank(r[|r| - 1]))
    ensures Clean(s) ==> r == s
  {
    var t := Unbreak(s);
    var k := TrimStart(t, 0);
    t[k..TrimEnd(t, k, |t|)]
  }

  /** The trimmed token is a slice of the unbroken one with only blanks outside it; with no
      blank at either end of it (the contract of `Trim`), the longest blank prefix and suffix
      are gone. */
  lemma TrimSlice(s: string)
    ensures exists k ::
              && 0 <= k <= |s| - |Trim(s)| && Trim(s) == Unbreak(s)[k..k + |Trim(s)|]
              && AllBlank(Unbreak(s)[..k]) && AllBlank(Unbreak(s)[k + |Trim(s)|..])
  {
    var t := Unbreak(s);
    var k := TrimStart(t, 0);
    var e := TrimEnd(t, k, |t|);
    assert Trim(s) == t[k..e];
    assert AllBlank(t[..k]) && AllBlank(t[e..]);
  }

  /** A space on either side of a clean token is dropped by the trim. */
  lemma TrimPadded(a: string)
    requires Clean(a) && a != []
    ensures Trim(" " + a) == a && Trim(a + " ") == a
  {
    var s := " " + a;
    var t := Unbreak(s);
    assert t == s;
    assert TrimStart(t, 1) == 1;
    assert TrimStart(t, 0) == 1;
    assert TrimEnd(t, 1, |t|) == |t|;
    assert t[1..|t|] == a;
    var u := a + " ";
    var v := Unbreak(u);
    assert v == u;
    assert TrimStart(v, 0) == 0;
    assert TrimEnd(v, 0, |a|) == |a|;
    assert TrimEnd(v, 0, |v|) == |a|;
    assert v[0..|a|] == a;
  }
}
