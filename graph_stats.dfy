/**
 * Summary statistics of a reply graph: in- and out-degrees, the most quoted
 * posts, and per-user totals ranked with `Counter.most_common`.
 */
module GraphStats {
  import opened Text
  import opened Graph

  /** A key with a count: a post id with its degree, or a username with its total. */
  type Count = (string, int)

  datatype Stats = Stats(
    numNodes: nat,
    numEdges: nat,
    topQuotedPosts: seq<(string, string, int)>,
    topQuotedUsers: seq<Count>,
    topRepliers: seq<Count>)

  // ---------------------------------------------------------------------
  // Degrees
  // ---------------------------------------------------------------------

  function InDegree(edges: set<(string, string)>, x: string): nat {
    |set e | e in edges && e.1 == x|
  }

  function OutDegree(edges: set<(string, string)>, x: string): nat {
    |set e | e in edges && e.0 == x|
  }

  /** `dict(G.in_degree())` (or `out_degree`): every node, in node order, with its degree. */
  function Degrees(nodes: seq<string>, edges: set<(string, string)>, incoming: bool): (r: seq<Count>)
    ensures |r| == |nodes|
    ensures forall i :: 0 <= i < |r| ==> r[i].0 == nodes[i] && r[i].1 >= 0
  {
    seq(|nodes|, i requires 0 <= i < |nodes| =>
      (nodes[i], if incoming then InDegree(edges, nodes[i]) else OutDegree(edges, nodes[i])))
  }

  function SumCounts(s: seq<Count>): int
    decreases |s|
  {
    if s == [] then 0 else SumCounts(s[..|s| - 1]) + s[|s| - 1].1
  }

  /** The edges whose chosen end (target when `incoming`) is among `nodes`. */
  function EdgesAt(nodes: seq<string>, edges: set<(string, string)>, incoming: bool): set<(string, string)> {
    set e | e in edges && (if incoming then e.1 else e.0) in nodes
  }

  /** The edges whose chosen end is `x`. */
  function EndsAt(edges: set<(string, string)>, x: string, incoming: bool): set<(string, string)> {
    set e | e in edges && (if incoming then e.1 else e.0) == x
  }

  lemma EndsAtDegree(edges: set<(string, string)>, x: string, incoming: bool)
    ensures |EndsAt(edges, x, incoming)| == if incoming then InDegree(edges, x) else OutDegree(edges, x)
  {
    if incoming {
      assert EndsAt(edges, x, incoming) == set e | e in edges && e.1 == x;
    } else {
      assert EndsAt(edges, x, incoming) == set e | e in edges && e.0 == x;
    }
  }

  /** Adding a node not yet counted adds exactly the edges that end at it. */
  lemma EdgesAtStep(init: seq<string>, x: string, edges: set<(string, string)>, incoming: bool)
    requires x !in init
    ensures EdgesAt(init + [x], edges, incoming) == EdgesAt(init, edges, incoming) + EndsAt(edges, x, incoming)
    ensures EdgesAt(init, edges, incoming) * EndsAt(edges, x, incoming) == {}
  {
  }

  lemma LastNew(nodes: seq<string>)
    requires nodes != []
    requires Distinct(nodes)
    ensures nodes[|nodes| - 1] !in nodes[..|nodes| - 1]
    ensures nodes == nodes[..|nodes| - 1] + [nodes[|nodes| - 1]]
  {
    var init := nodes[..|nodes| - 1];
    forall k | 0 <= k < |init| ensures init[k] != nodes[|nodes| - 1] {
      assert init[k] == nodes[k];
    }
  }

  lemma {:induction false} DegreeSum(nodes: seq<string>, edges: set<(string, string)>, incoming: bool)
    requires Distinct(nodes)
    ensures SumCounts(Degrees(nodes, edges, incoming)) == |EdgesAt(nodes, edges, incoming)|
    decreases |nodes|
  {
    if nodes != [] {
      var init := nodes[..|nodes| - 1];
      var x := nodes[|nodes| - 1];
      DegreeSum(init, edges, incoming);
      assert Degrees(nodes, edges, incoming)[..|nodes| - 1] == Degrees(init, edges, incoming);
      LastNew(nodes);
      EdgesAtStep(init, x, edges, incoming);
      EndsAtDegree(edges, x, incoming);
    }
  }

  /** In a graph whose edges join its nodes, the in-degrees and the out-degrees each sum to the edge count. */
  lemma DegreesSumToEdges(g: ReplyGraph)
    requires g.Valid()
    ensures SumCounts(Degrees(g.nodes, g.edges, true)) == |g.edges|
    ensures SumCounts(Degrees(g.nodes, g.edges, false)) == |g.edges|
  {
    DegreeSum(g.nodes, g.edges, true);
    DegreeSum(g.nodes, g.edges, false);
    assert EdgesAt(g.nodes, g.edges, true) == g.edges;
    assert EdgesAt(g.nodes, g.edges, false) == g.edges;
  }

  // ---------------------------------------------------------------------
  // Stable sort by count, descending (`sorted(..., key=count, reverse=True)`)
  // ---------------------------------------------------------------------

  predicate NonIncreasing(s: seq<Count>) {
    forall i, j :: 0 <= i < j < |s| ==> s[i].1 >= s[j].1
  }

  /** The entries of `s` whose count is `c`, in their order in `s`. */
  function WithCount(s: seq<Count>, c: int): seq<Count>
    decreases |s|
  {
    if s == [] then [] else (if s[0].1 == c then [s[0]] else []) + WithCount(s[1..], c)
  }

  /** `x` placed after every entry whose count is at least its own. */
  function Insert(x: Count, s: seq<Count>): seq<Count>
    decreases |s|
  {
    if s == [] then [x]
    else if s[0].1 < x.1 then [x] + s
    else [s[0]] + Insert(x, s[1..])
  }

  function SortDesc(s: seq<Count>): seq<Count>
    decreases |s|
  {
    if s == [] then [] else Insert(s[|s| - 1], SortDesc(s[..|s| - 1]))
  }

  lemma {:induction false} WithCountAppend(a: seq<Count>, b: seq<Count>, c: int)
    ensures WithCount(a + b, c) == WithCount(a, c) + WithCount(b, c)
    decreases |a|
  {
    if a == [] {
      assert a + b == b;
    } else {
      var h := if a[0].1 == c then [a[0]] else [];
      WithCountAppend(a[1..], b, c);
      assert a + b == [a[0]] + (a[1..] + b);
      WithCountCons(a[0], a[1..] + b, c);
      WithCountCons(a[0], a[1..], c);
      assert [a[0]] + a[1..] == a;
      ConcatAssoc(h, WithCount(a[1..], c), WithCount(b, c));
    }
  }

  lemma {:induction false} WithCountBelow(s: seq<Count>, c: int)
    requires forall k :: 0 <= k < |s| ==> s[k].1 < c
    ensures WithCount(s, c) == []
    decreases |s|
  {
    if s != [] {
      WithCountBelow(s[1..], c);
    }
  }

  lemma {:induction false} InsertPermutes(x: Count, s: seq<Count>)
    ensures multiset(Insert(x, s)) == multiset(s) + multiset{x}
    decreases |s|
  {
    if s != [] && s[0].1 >= x.1 {
      InsertPermutes(x, s[1..]);
      assert s == [s[0]] + s[1..];
    }
  }

  /** Past an entry counting at least as much as `x`, insertion continues in the tail. */
  lemma InsertPasses(x: Count, s: seq<Count>)
    requires s != [] && s[0].1 >= x.1
    ensures Insert(x, s) == [s[0]] + Insert(x, s[1..])
  {
  }

  lemma WithCountCons(h: Count, t: seq<Count>, c: int)
    ensures WithCount([h] + t, c) == (if h.1 == c then [h] else []) + WithCount(t, c)
  {
    assert ([h] + t)[1..] == t;
  }

  lemma WithCountOne(x: Count, c: int)
    ensures WithCount([x], c) == if x.1 == c then [x] else []
  {
    assert [x][1..] == [];
  }

  lemma TailNonIncreasing(s: seq<Count>)
    requires s != [] && NonIncreasing(s)
    ensures NonIncreasing(s[1..])
    ensures forall k :: 0 <= k < |s[1..]| ==> s[1..][k].1 <= s[0].1
  {
  }

  /** Inserting an entry no larger than a bound into entries no larger than it keeps the bound. */
  lemma {:induction false} InsertBounded(x: Count, t: seq<Count>, b: int)
    requires x.1 <= b && forall k :: 0 <= k < |t| ==> t[k].1 <= b
    ensures forall k :: 0 <= k < |Insert(x, t)| ==> Insert(x, t)[k].1 <= b
    decreases |t|
  {
    if t != [] && t[0].1 >= x.1 {
      InsertPasses(x, t);
      InsertBounded(x, t[1..], b);
    }
  }

  lemma ConsNonIncreasing(h: Count, t: seq<Count>)
    requires NonIncreasing(t) && forall k :: 0 <= k < |t| ==> t[k].1 <= h.1
    ensures NonIncreasing([h] + t)
  {
    var r := [h] + t;
    forall i, j | 0 <= i < j < |r|
      ensures r[i].1 >= r[j].1
    {
      assert r[j] == t[j - 1];
      if i > 0 {
        assert r[i] == t[i - 1];
      }
    }
  }

  lemma {:induction false} InsertSorted(x: Count, s: seq<Count>)
    requires NonIncreasing(s)
    ensures NonIncreasing(Insert(x, s))
    decreases |s|
  {
    if s != [] && s[0].1 >= x.1 {
      InsertPasses(x, s);
      TailNonIncreasing(s);
      InsertSorted(x, s[1..]);
      InsertBounded(x, s[1..], s[0].1);
      ConsNonIncreasing(s[0], Insert(x, s[1..]));
    } else if s != [] {
      ConsNonIncreasing(x, s);
    }
  }

  lemma {:induction false} InsertStable(x: Count, s: seq<Count>, c: int)
    requires NonIncreasing(s)
    ensures WithCount(Insert(x, s), c) == WithCount(s, c) + (if x.1 == c then [x] else [])
    decreases |s|
  {
    if s == [] {
      WithCountOne(x, c);
    } else if s[0].1 < x.1 {
      InsertFirst(x, s, c);
    } else {
      TailNonIncreasing(s);
      InsertStable(x, s[1..], c);
      InsertStablePass(x, s, c);
    }
  }

  /** The step of `InsertStable` past an entry that counts at least as much as `x`. */
  lemma InsertStablePass(x: Count, s: seq<Count>, c: int)
    requires s != [] && s[0].1 >= x.1
    requires WithCount(Insert(x, s[1..]), c) == WithCount(s[1..], c) + (if x.1 == c then [x] else [])
    ensures WithCount(Insert(x, s), c) == WithCount(s, c) + (if x.1 == c then [x] else [])
  {
    var h := if s[0].1 == c then [s[0]] else [];
    var tail := s[1..];
    InsertPasses(x, s);
    WithCountCons(s[0], Insert(x, tail), c);
    WithCountCons(s[0], tail, c);
    assert [s[0]] + tail == s;
    ConcatAssoc(h, WithCount(tail, c), if x.1 == c then [x] else []);
  }

  lemma InsertFirst(x: Count, s: seq<Count>, c: int)
    requires NonIncreasing(s) && s != [] && s[0].1 < x.1
    ensures WithCount(Insert(x, s), c) == WithCount(s, c) + (if x.1 == c then [x] else [])
  {
    WithCountCons(x, s, c);
    if x.1 == c {
      WithCountBelow(s, c);
    }
  }

  /**
   * The stable descending sort is a permutation, is non-increasing, and keeps
   * entries of equal count in their original order.
   */
  lemma SortDescSpec(s: seq<Count>)
    ensures multiset(SortDesc(s)) == multiset(s)
    ensures NonIncreasing(SortDesc(s))
    ensures forall c :: WithCount(SortDesc(s), c) == WithCount(s, c)
  {
    SortDescSorted(s);
    forall c
      ensures WithCount(SortDesc(s), c) == WithCount(s, c)
    {
      SortDescStable(s, c);
    }
  }

  lemma {:induction false} SortDescSorted(s: seq<Count>)
    ensures multiset(SortDesc(s)) == multiset(s)
    ensures NonIncreasing(SortDesc(s))
    decreases |s|
  {
    if s != [] {
      var init := s[..|s| - 1];
      var x := s[|s| - 1];
      SortDescSorted(init);
      InsertPermutes(x, SortDesc(init));
      InsertSorted(x, SortDesc(init));
      assert s == init + [x];
    }
  }

  lemma {:induction false} SortDescStable(s: seq<Count>, c: int)
    ensures WithCount(SortDesc(s), c) == WithCount(s, c)
    decreases |s|
  {
    if s != [] {
      var init := s[..|s| - 1];
      var x := s[|s| - 1];
      assert s == init + [x];
      SortDescSorted(init);
      SortDescStable(init, c);
      SortDescStableStep(init, x, c);
    }
  }

  lemma SortDescStableStep(init: seq<Count>, x: Count, c: int)
    requires NonIncreasing(SortDesc(init))
    requires WithCount(SortDesc(init), c) == WithCount(init, c)
    ensures WithCount(SortDesc(init + [x]), c) == WithCount(init + [x], c)
  {
    assert (init + [x])[..|init|] == init;
    InsertStable(x, SortDesc(init), c);
    WithCountAppend(init, [x], c);
    WithCountOne(x, c);
  }

  // ---------------------------------------------------------------------
  // Slices and rankings
  // ---------------------------------------------------------------------

  /** Python's `s[:n]`: a negative `n` drops that many entries from the end. */
  function Take<T>(s: seq<T>, n: int): (r: seq<T>)
    ensures |r| == if n >= 0 then (if n < |s| then n else |s|) else (if |s| + n > 0 then |s| + n else 0)
    ensures r == s[..|r|]
  {
    if n >= 0 then (if n < |s| then s[..n] else s)
    else (if |s| + n > 0 then s[..|s| + n] else [])
  }

  /** The entries with a positive count, in order. */
  function Positive(s: seq<Count>): seq<Count>
    decreases |s|
  {
    if s == [] then []
    else Positive(s[..|s| - 1]) + (if s[|s| - 1].1 > 0 then [s[|s| - 1]] else [])
  }

  function UsernameOf(attrs: map<string, NodeAttrs>, id: string): string {
    if id in attrs then attrs[id].username else "?"
  }

  /** Each post with the username attribute of its node, `"?"` when the node has none. */
  function Labelled(attrs: map<string, NodeAttrs>, s: seq<Count>): (r: seq<(string, string, int)>)
    ensures |r| == |s|
  {
    seq(|s|, i requires 0 <= i < |s| => (s[i].0, UsernameOf(attrs, s[i].0), s[i].1))
  }

  /** The (post id, count) list behind `top_quoted_posts`. */
  function TopQuoted(nodes: seq<string>, edges: set<(string, string)>, topN: int): seq<Count> {
    Positive(Take(SortDesc(Degrees(nodes, edges, true)), topN))
  }

  /** `Counter.__iadd__` of one key: an existing key keeps its place, a new key (even with 0) goes last. */
  function Add(counter: seq<Count>, key: string, n: int): seq<Count>
    decreases |counter|
  {
    if counter == [] then [(key, n)]
    else if counter[0].0 == key then [(key, counter[0].1 + n)] + counter[1..]
    else [counter[0]] + Add(counter[1..], key, n)
  }

  /** The counter the loop `counter[username(pid)] += cnt` builds over the degrees. */
  function UserTotals(attrs: map<string, NodeAttrs>, degrees: seq<Count>): seq<Count>
    decreases |degrees|
  {
    if degrees == [] then []
    else
      var d := degrees[|degrees| - 1];
      Add(UserTotals(attrs, degrees[..|degrees| - 1]), UsernameOf(attrs, d.0), d.1)
  }

  /** `Counter.most_common(n)`: nothing for `n <= 0`, else the `n` largest counts, ties in insertion order. */
  function MostCommon(counter: seq<Count>, n: int): seq<Count> {
    if n <= 0 then [] else Take(SortDesc(counter), n)
  }

  /** `compute_graph_stats(G, top_n=topN)`. */
  function StatsOf(nodes: seq<string>, attrs: map<string, NodeAttrs>, edges: set<(string, string)>, topN: int): Stats {
    Stats(
      |nodes|,
      |edges|,
      Labelled(attrs, TopQuoted(nodes, edges, topN)),
      MostCommon(UserTotals(attrs, Degrees(nodes, edges, true)), topN),
      MostCommon(UserTotals(attrs, Degrees(nodes, edges, false)), topN))
  }

  /** The keys of a counter. */
  function Keys(s: seq<Count>): set<string>
    decreases |s|
  {
    if s == [] then {} else {s[0].0} + Keys(s[1..])
  }

  predicate DistinctKeys(s: seq<Count>)
    decreases |s|
  {
    s == [] || (s[0].0 !in Keys(s[1..]) && DistinctKeys(s[1..]))
  }

  /** The count a counter holds for `key` (0 when absent, as `Counter` answers). */
  function CountOf(s: seq<Count>, key: string): int
    decreases |s|
  {
    if s == [] then 0 else (if s[0].0 == key then s[0].1 else 0) + CountOf(s[1..], key)
  }

  /** The sum of the degrees of the nodes whose username is `u`. */
  function UserSum(attrs: map<string, NodeAttrs>, degrees: seq<Count>, u: string): int
    decreases |degrees|
  {
    if degrees == [] then 0
    else
      var d := degrees[|degrees| - 1];
      UserSum(attrs, degrees[..|degrees| - 1], u) + (if UsernameOf(attrs, d.0) == u then d.1 else 0)
  }

  lemma {:induction false} SumFront(s: seq<Count>)
    requires s != []
    ensures SumCounts(s) == s[0].1 + SumCounts(s[1..])
    decreases |s|
  {
    if |s| > 1 {
      var init := s[..|s| - 1];
      SumFront(init);
      assert init[1..] == s[1..][..|s[1..]| - 1];
    }
  }

  /** Adding `n` at `key` adds `key` to the keys, `n` to its count and to the total, and keeps keys distinct. */
  lemma {:induction false} AddSpec(counter: seq<Count>, key: string, n: int)
    requires DistinctKeys(counter)
    ensures DistinctKeys(Add(counter, key, n))
    ensures Keys(Add(counter, key, n)) == Keys(counter) + {key}
    ensures forall k :: CountOf(Add(counter, key, n), k) == CountOf(counter, k) + (if k == key then n else 0)
    ensures SumCounts(Add(counter, key, n)) == SumCounts(counter) + n
    decreases |counter|
  {
    if counter != [] {
      var t := counter[1..];
      var r := Add(counter, key, n);
      SumFront(counter);
      SumFront(r);
      if counter[0].0 == key {
        assert r[1..] == t;
      } else {
        AddSpec(t, key, n);
        assert r[1..] == Add(t, key, n);
      }
    }
  }

  /** Some node of the degree list belongs to user `u`. */
  predicate HasUser(attrs: map<string, NodeAttrs>, degrees: seq<Count>, u: string) {
    exists k :: 0 <= k < |degrees| && UsernameOf(attrs, degrees[k].0) == u
  }

  lemma HasUserLast(attrs: map<string, NodeAttrs>, degrees: seq<Count>, u: string)
    requires degrees != []
    ensures HasUser(attrs, degrees, u) <==>
      (HasUser(attrs, degrees[..|degrees| - 1], u) || UsernameOf(attrs, degrees[|degrees| - 1].0) == u)
  {
    var init := degrees[..|degrees| - 1];
    if HasUser(attrs, init, u) {
      var k :| 0 <= k < |init| && UsernameOf(attrs, init[k].0) == u;
      assert degrees[k] == init[k];
    }
    if HasUser(attrs, degrees, u) {
      var k :| 0 <= k < |degrees| && UsernameOf(attrs, degrees[k].0) == u;
      if k < |init| {
        assert init[k] == degrees[k];
      }
    }
  }

  /**
   * The user counter: one entry per distinct username of the degree list (a
   * zero count still makes an entry), each holding the sum of that user's
   * degrees, and all of them adding up to the sum of the degrees.
   */
  lemma UserTotalsSpec(attrs: map<string, NodeAttrs>, degrees: seq<Count>)
    ensures DistinctKeys(UserTotals(attrs, degrees))
    ensures SumCounts(UserTotals(attrs, degrees)) == SumCounts(degrees)
    ensures forall u :: CountOf(UserTotals(attrs, degrees), u) == UserSum(attrs, degrees, u)
    ensures forall u ::
      u in Keys(UserTotals(attrs, degrees)) <==> exists k :: 0 <= k < |degrees| && UsernameOf(attrs, degrees[k].0) == u
  {
    UserTotalsCounts(attrs, degrees);
    UserTotalsKeys(attrs, degrees);
  }

  lemma {:induction false} UserTotalsCounts(attrs: map<string, NodeAttrs>, degrees: seq<Count>)
    ensures DistinctKeys(UserTotals(attrs, degrees))
    ensures SumCounts(UserTotals(attrs, degrees)) == SumCounts(degrees)
    ensures forall u :: CountOf(UserTotals(attrs, degrees), u) == UserSum(attrs, degrees, u)
    decreases |degrees|
  {
    if degrees != [] {
      var init := degrees[..|degrees| - 1];
      var d := degrees[|degrees| - 1];
      UserTotalsCounts(attrs, init);
      AddSpec(UserTotals(attrs, init), UsernameOf(attrs, d.0), d.1);
    }
  }

  lemma {:induction false} UserTotalsKeys(attrs: map<string, NodeAttrs>, degrees: seq<Count>)
    ensures forall u :: u in Keys(UserTotals(attrs, degrees)) <==> HasUser(attrs, degrees, u)
    decreases |degrees|
  {
    if degrees != [] {
      var init := degrees[..|degrees| - 1];
      var d := degrees[|degrees| - 1];
      UserTotalsKeys(attrs, init);
      UserTotalsCounts(attrs, init);
      AddSpec(UserTotals(attrs, init), UsernameOf(attrs, d.0), d.1);
      forall u
        ensures u in Keys(UserTotals(attrs, degrees)) <==> HasUser(attrs, degrees, u)
      {
        HasUserLast(attrs, degrees, u);
      }
    }
  }

  /** `user_quoted` and `user_replies` each add up to the number of edges. */
  lemma UserCountersSumToEdges(g: ReplyGraph)
    requires g.Valid()
    ensures SumCounts(UserTotals(g.attrs, Degrees(g.nodes, g.edges, true))) == |g.edges|
    ensures SumCounts(UserTotals(g.attrs, Degrees(g.nodes, g.edges, false))) == |g.edges|
  {
    DegreesSumToEdges(g);
    UserTotalsSpec(g.attrs, Degrees(g.nodes, g.edges, true));
    UserTotalsSpec(g.attrs, Degrees(g.nodes, g.edges, false));
  }

  predicate IsPrefix(a: seq<Count>, b: seq<Count>) {
    |a| <= |b| && b[..|a|] == a
  }

  /** In a non-increasing list, every entry of a prefix counts at least as much as every entry after it. */
  lemma PrefixDominates(s: seq<Count>, k: nat)
    requires NonIncreasing(s) && k <= |s|
    ensures forall x, y :: x in s[..k] && y in s[k..] ==> x.1 >= y.1
  {
    forall x, y | x in s[..k] && y in s[k..]
      ensures x.1 >= y.1
    {
      var i :| 0 <= i < k && s[..k][i] == x;
      var j :| 0 <= j < |s| - k && s[k..][j] == y;
      assert s[i] == x && s[k + j] == y;
    }
  }

  /** Entries of equal count in a prefix are a prefix of those in the whole list. */
  lemma PrefixTies(s: seq<Count>, k: nat, c: int)
    requires k <= |s|
    ensures IsPrefix(WithCount(s[..k], c), WithCount(s, c))
  {
    assert s == s[..k] + s[k..];
    WithCountAppend(s[..k], s[k..], c);
  }

  /** `most_common(n)`: `min(n, len)` entries for `n > 0` (zero counts included), none otherwise; non-increasing; drawn from the counter. */
  lemma MostCommonShape(counter: seq<Count>, n: int)
    ensures |MostCommon(counter, n)| == if n <= 0 then 0 else if n < |counter| then n else |counter|
    ensures NonIncreasing(MostCommon(counter, n))
    ensures multiset(MostCommon(counter, n)) <= multiset(counter)
  {
    if n > 0 {
      var s := SortDesc(counter);
      SortDescSpec(counter);
      PrefixShape(s, |Take(s, n)|);
    }
  }

  /** A prefix of a non-increasing list is non-increasing and a sub-multiset of it. */
  lemma PrefixShape(s: seq<Count>, k: nat)
    requires k <= |s|
    ensures NonIncreasing(s) ==> NonIncreasing(s[..k])
    ensures multiset(s[..k]) <= multiset(s)
  {
    assert s == s[..k] + s[k..];
    assert multiset(s) == multiset(s[..k]) + multiset(s[k..]);
  }

  /** `most_common(n)` keeps the largest counts: whatever it leaves out counts no more than what it keeps. */
  lemma MostCommonLargest(counter: seq<Count>, n: int)
    ensures forall x, y :: x in MostCommon(counter, n) && y in counter && y !in MostCommon(counter, n) ==> x.1 >= y.1
  {
    if n > 0 {
      var s := SortDesc(counter);
      var r := MostCommon(counter, n);
      SortDescSpec(counter);
      PrefixDominates(s, |r|);
      assert s[..|r|] == r;
      forall y | y in counter && y !in r
        ensures y in s[|r|..]
      {
        assert y in multiset(counter);
        var j :| 0 <= j < |s| && s[j] == y;
        assert s[|r|..][j - |r|] == y;
      }
    }
  }

  /** Entries of `most_common(n)` with equal counts come in the counter's insertion order. */
  lemma MostCommonTies(counter: seq<Count>, n: int)
    ensures forall c :: IsPrefix(WithCount(MostCommon(counter, n), c), WithCount(counter, c))
  {
    var s := SortDesc(counter);
    var r := MostCommon(counter, n);
    SortDescSpec(counter);
    forall c
      ensures IsPrefix(WithCount(r, c), WithCount(counter, c))
    {
      if n > 0 {
        PrefixTies(s, |r|, c);
        assert s[..|r|] == r;
      }
    }
  }

  lemma {:induction false} PositiveMembers(s: seq<Count>)
    ensures forall x :: x in Positive(s) <==> x in s && x.1 > 0
    ensures |Positive(s)| <= |s|
    decreases |s|
  {
    if s != [] {
      PositiveMembers(s[..|s| - 1]);
      assert s == s[..|s| - 1] + [s[|s| - 1]];
    }
  }

  lemma PositiveSorted(s: seq<Count>)
    requires NonIncreasing(s)
    ensures NonIncreasing(Positive(s))
  {
    PositiveMembers(s);
    var r := Positive(s);
    forall i, j | 0 <= i < j < |r|
      ensures r[i].1 >= r[j].1
    {
      PositiveOrder(s, i, j);
    }
  }

  /** An earlier entry of `Positive(s)` sits earlier in `s`. */
  lemma {:induction false} PositiveOrder(s: seq<Count>, i: nat, j: nat)
    requires NonIncreasing(s) && i < j < |Positive(s)|
    ensures Positive(s)[i].1 >= Positive(s)[j].1
    decreases |s|
  {
    var init := s[..|s| - 1];
    var x := s[|s| - 1];
    var p := Positive(init);
    assert NonIncreasing(init);
    if j < |p| {
      assert Positive(s)[..|p|] == p;
      PositiveOrder(init, i, j);
    } else {
      PositiveMembers(init);
      assert Positive(s)[i] == p[i] && p[i] in p;
      var k :| 0 <= k < |init| && init[k] == p[i];
      assert s[k] == p[i];
    }
  }

  lemma {:induction false} PositiveTies(s: seq<Count>, c: int)
    requires c > 0
    ensures WithCount(Positive(s), c) == WithCount(s, c)
    decreases |s|
  {
    if s != [] {
      var init := s[..|s| - 1];
      var x := s[|s| - 1];
      PositiveTies(init, c);
      assert s == init + [x];
      WithCountAppend(init, [x], c);
      assert WithCount([x], c) == (if x.1 == c then [x] else []) + WithCount([], c);
      if x.1 > 0 {
        assert Positive(s) == Positive(init) + [x];
        WithCountAppend(Positive(init), [x], c);
      } else {
        assert Positive(s) == Positive(init);
      }
    }
  }

  /**
   * `top_quoted_posts` (before the usernames are attached): at most `top_n`
   * entries when `top_n >= 0`, each a node with its in-degree, every count
   * positive, and non-increasing.
   */
  lemma TopQuotedBounds(nodes: seq<string>, edges: set<(string, string)>, topN: int)
    ensures topN >= 0 ==> |TopQuoted(nodes, edges, topN)| <= topN
    ensures forall x :: x in TopQuoted(nodes, edges, topN) ==> x.1 > 0 && x in Degrees(nodes, edges, true)
    ensures NonIncreasing(TopQuoted(nodes, edges, topN))
  {
    var d := Degrees(nodes, edges, true);
    var s := SortDesc(d);
    var t := Take(s, topN);
    SortDescSpec(d);
    PositiveMembers(t);
    PositiveSorted(t);
    forall x | x in TopQuoted(nodes, edges, topN)
      ensures x in d
    {
      assert x in t && x in s;
      assert x in multiset(s);
    }
  }

  /**
   * How many posts the top list holds: as many as the slice keeps, unless
   * fewer posts are quoted at all.
   */
  lemma TopQuotedLength(nodes: seq<string>, edges: set<(string, string)>, topN: int)
    ensures var quoted := |Positive(Degrees(nodes, edges, true))|;
      topN >= 0 ==> |TopQuoted(nodes, edges, topN)| == if topN < quoted then topN else quoted
    ensures var quoted := |Positive(Degrees(nodes, edges, true))|;
      var kept := if |nodes| + topN > 0 then |nodes| + topN else 0;
      topN < 0 ==> |TopQuoted(nodes, edges, topN)| == if kept < quoted then kept else quoted
  {
    var d := Degrees(nodes, edges, true);
    var s := SortDesc(d);
    var t := Take(s, topN);
    SortDescSpec(d);
    assert |s| == |multiset(s)| == |multiset(d)| == |d|;
    PositivePermutation(s, d);
    PositiveMembers(s);
    PositivePrefixLength(s, |t|);
  }

  /** In a non-increasing list, a prefix of length `m` keeps `m` positive entries, or all of them if there are fewer. */
  lemma PositivePrefixLength(s: seq<Count>, m: nat)
    requires NonIncreasing(s) && m <= |s|
    ensures |Positive(s[..m])| == if m < |Positive(s)| then m else |Positive(s)|
  {
    assert s == s[..m] + s[m..];
    PositiveConcat(s[..m], s[m..]);
    PositiveMembers(s[..m]);
    if AllPositive(s[..m]) {
      PositiveAllKept(s[..m]);
    } else {
      TailNonPositive(s, m);
      PositiveNoneKept(s[m..]);
    }
  }

  predicate AllPositive(s: seq<Count>) {
    forall i :: 0 <= i < |s| ==> s[i].1 > 0
  }

  predicate NonePositive(s: seq<Count>) {
    forall i :: 0 <= i < |s| ==> s[i].1 <= 0
  }

  /** In a non-increasing list, once a prefix holds a non-positive count, nothing after it is positive. */
  lemma TailNonPositive(s: seq<Count>, m: nat)
    requires NonIncreasing(s) && m <= |s| && !AllPositive(s[..m])
    ensures NonePositive(s[m..])
  {
    var j :| 0 <= j < m && s[..m][j].1 <= 0;
    assert s[j].1 <= 0;
    forall i | 0 <= i < |s[m..]|
      ensures s[m..][i].1 <= 0
    {
      assert s[m..][i] == s[m + i];
    }
  }

  /** Dropping the non-positive counts commutes with concatenation. */
  lemma {:induction false} PositiveConcat(a: seq<Count>, b: seq<Count>)
    ensures Positive(a + b) == Positive(a) + Positive(b)
    decreases |b|
  {
    if b == [] {
      assert a + b == a;
    } else {
      var b0 := b[..|b| - 1];
      assert (a + b)[..|a + b| - 1] == a + b0;
      assert (a + b)[|a + b| - 1] == b[|b| - 1];
      PositiveConcat(a, b0);
    }
  }

  lemma {:induction false} PositiveAllKept(s: seq<Count>)
    requires AllPositive(s)
    ensures Positive(s) == s
    decreases |s|
  {
    if s != [] {
      PositiveAllKept(s[..|s| - 1]);
      assert s == s[..|s| - 1] + [s[|s| - 1]];
    }
  }

  lemma {:induction false} PositiveNoneKept(s: seq<Count>)
    requires NonePositive(s)
    ensures Positive(s) == []
    decreases |s|
  {
    if s != [] {
      PositiveNoneKept(s[..|s| - 1]);
    }
  }

  /** A permutation has as many positive counts as the original. */
  lemma {:induction false} PositivePermutation(s: seq<Count>, t: seq<Count>)
    requires multiset(s) == multiset(t)
    ensures |Positive(s)| == |Positive(t)|
    decreases |s|
  {
    if s == [] {
      assert |t| == |multiset(t)| == 0;
    } else {
      var x := s[|s| - 1];
      var s0 := s[..|s| - 1];
      assert s == s0 + [x];
      assert x in multiset(t);
      var k :| 0 <= k < |t| && t[k] == x;
      var t0 := t[..k] + t[k + 1..];
      MultisetRemoveAt(t, k);
      assert multiset(s0) == multiset(s) - multiset{x};
      assert multiset(t0) == multiset(t) - multiset{x};
      PositivePermutation(s0, t0);
      PositiveRemoveOne(t, k);
    }
  }

  lemma MultisetRemoveAt<T>(t: seq<T>, k: nat)
    requires k < |t|
    ensures multiset(t) == multiset(t[..k] + t[k + 1..]) + multiset{t[k]}
  {
    assert t == t[..k] + [t[k]] + t[k + 1..];
  }

  /** Taking one entry out of a list takes one positive count out when the entry is positive. */
  lemma PositiveRemoveOne(t: seq<Count>, k: nat)
    requires k < |t|
    ensures |Positive(t)| == |Positive(t[..k] + t[k + 1..])| + if t[k].1 > 0 then 1 else 0
  {
    var a := t[..k];
    var b := t[k + 1..];
    assert t == (a + [t[k]]) + b;
    PositiveConcat(a + [t[k]], b);
    PositiveConcat(a, [t[k]]);
    PositiveConcat(a, b);
    assert [t[k]][..0] == [];
  }

  /**
   * The most quoted posts are the largest: a node left out with a positive
   * in-degree is quoted no more often than any listed post, and posts of
   * equal count appear in node order.
   */
  lemma TopQuotedLargest(nodes: seq<string>, edges: set<(string, string)>, topN: int)
    ensures forall x, y ::
      (x in TopQuoted(nodes, edges, topN) && y in Degrees(nodes, edges, true)
        && y.1 > 0 && y !in TopQuoted(nodes, edges, topN)) ==> x.1 >= y.1
    ensures forall c :: c > 0 ==> IsPrefix(WithCount(TopQuoted(nodes, edges, topN), c), WithCount(Degrees(nodes, edges, true), c))
  {
    TopQuotedDominates(nodes, edges, topN);
    TopQuotedTies(nodes, edges, topN);
  }

  /** Every quoted post left out of the top list is quoted no more often than any post in it. */
  lemma TopQuotedDominates(nodes: seq<string>, edges: set<(string, string)>, topN: int)
    ensures forall x, y ::
      (x in TopQuoted(nodes, edges, topN) && y in Degrees(nodes, edges, true)
        && y.1 > 0 && y !in TopQuoted(nodes, edges, topN)) ==> x.1 >= y.1
  {
    var d := Degrees(nodes, edges, true);
    var s := SortDesc(d);
    var t := Take(s, topN);
    var r := TopQuoted(nodes, edges, topN);
    SortDescSorted(d);
    PositiveMembers(t);
    PrefixDominates(s, |t|);
    forall x, y | x in r && y in d && y.1 > 0 && y !in r
      ensures x.1 >= y.1
    {
      assert y in multiset(s);
      OutsidePrefix(s, |t|, y);
    }
  }

  /** An element of `s` missing from its first `k` entries sits in the rest. */
  lemma OutsidePrefix<T>(s: seq<T>, k: nat, y: T)
    requires k <= |s| && y in s && y !in s[..k]
    ensures y in s[k..]
  {
    var j :| 0 <= j < |s| && s[j] == y;
    assert s[k..][j - k] == y;
  }

  /** Among posts quoted equally often, the top list keeps the first ones in node order. */
  lemma TopQuotedTies(nodes: seq<string>, edges: set<(string, string)>, topN: int)
    ensures forall c :: c > 0 ==> IsPrefix(WithCount(TopQuoted(nodes, edges, topN), c), WithCount(Degrees(nodes, edges, true), c))
  {
    var d := Degrees(nodes, edges, true);
    var s := SortDesc(d);
    var t := Take(s, topN);
    var r := TopQuoted(nodes, edges, topN);
    SortDescSpec(d);
    PositiveMembers(t);
    forall c | c > 0
      ensures IsPrefix(WithCount(r, c), WithCount(d, c))
    {
      PrefixTies(s, |t|, c);
      PositiveTies(t, c);
    }
  }

  /**
   * What `compute_graph_stats` returns for a graph whose edges join its
   * nodes: the node count, the number of distinct (from, to) pairs, top
   * posts each with its own in-degree and username, positive and
   * non-increasing, user rankings non-increasing and at most `top_n` long,
   * and user counters that each add up to the edge count.
   */
  lemma StatsSummary(g: ReplyGraph, topN: int)
    requires g.Valid()
    ensures var st := StatsOf(g.nodes, g.attrs, g.edges, topN);
      st.numNodes == |g.nodes| && st.numEdges == |g.edges|
      && (topN >= 0 ==> |st.topQuotedPosts| <= topN)
      && (forall i :: 0 <= i < |st.topQuotedPosts| ==>
            st.topQuotedPosts[i].2 > 0
            && st.topQuotedPosts[i].0 in g.nodes
            && st.topQuotedPosts[i].2 == InDegree(g.edges, st.topQuotedPosts[i].0)
            && st.topQuotedPosts[i].1 == UsernameOf(g.attrs, st.topQuotedPosts[i].0))
      && (forall i, j :: 0 <= i < j < |st.topQuotedPosts| ==> st.topQuotedPosts[i].2 >= st.topQuotedPosts[j].2)
      && |st.topQuotedUsers| <= (if topN > 0 then topN else 0) && NonIncreasing(st.topQuotedUsers)
      && |st.topRepliers| <= (if topN > 0 then topN else 0) && NonIncreasing(st.topRepliers)
      && SumCounts(UserTotals(g.attrs, Degrees(g.nodes, g.edges, true))) == st.numEdges
      && SumCounts(UserTotals(g.attrs, Degrees(g.nodes, g.edges, false))) == st.numEdges
  {
    TopPostsLabelled(g.nodes, g.attrs, g.edges, topN);
    MostCommonShape(UserTotals(g.attrs, Degrees(g.nodes, g.edges, true)), topN);
    MostCommonShape(UserTotals(g.attrs, Degrees(g.nodes, g.edges, false)), topN);
    UserCountersSumToEdges(g);
  }

  /** The labelled top posts: bounded, each a node with its own in-degree and username, positive and non-increasing. */
  lemma TopPostsLabelled(nodes: seq<string>, attrs: map<string, NodeAttrs>, edges: set<(string, string)>, topN: int)
    ensures var p := Labelled(attrs, TopQuoted(nodes, edges, topN));
      (topN >= 0 ==> |p| <= topN)
      && (forall i :: 0 <= i < |p| ==>
            p[i].2 > 0 && p[i].0 in nodes && p[i].2 == InDegree(edges, p[i].0) && p[i].1 == UsernameOf(attrs, p[i].0))
      && (forall i, j :: 0 <= i < j < |p| ==> p[i].2 >= p[j].2)
  {
    var top := TopQuoted(nodes, edges, topN);
    TopQuotedBounds(nodes, edges, topN);
    TopQuotedAreDegrees(nodes, edges, topN);
    var p := Labelled(attrs, top);
    forall i | 0 <= i < |p|
      ensures p[i].0 == top[i].0 && p[i].2 == top[i].1 && p[i].1 == UsernameOf(attrs, top[i].0)
    {
    }
  }

  /** Each top post is a node, listed with its own in-degree. */
  lemma TopQuotedAreDegrees(nodes: seq<string>, edges: set<(string, string)>, topN: int)
    ensures forall i :: 0 <= i < |TopQuoted(nodes, edges, topN)| ==>
      TopQuoted(nodes, edges, topN)[i].0 in nodes
      && TopQuoted(nodes, edges, topN)[i].1 == InDegree(edges, TopQuoted(nodes, edges, topN)[i].0)
  {
    var top := TopQuoted(nodes, edges, topN);
    var d := Degrees(nodes, edges, true);
    TopQuotedBounds(nodes, edges, topN);
    forall i | 0 <= i < |top|
      ensures top[i].0 in nodes && top[i].1 == InDegree(edges, top[i].0)
    {
      assert top[i] in d;
      var k :| 0 <= k < |d| && d[k] == top[i];
      assert d[k].0 == nodes[k];
    }
  }

  /** `compute_graph_stats`. */
  method ComputeGraphStats(g: ReplyGraph, topN: int) returns (st: Stats)
    requires g.Valid()
    ensures st == StatsOf(g.nodes, g.attrs, g.edges, topN)
  {
    var inDeg := DegreesOf(g, true);
    var outDeg := DegreesOf(g, false);
    var sortedPosts := SortDesc(inDeg);
    var top := TopQuotedPosts(g.attrs, Take(sortedPosts, topN));
    var userQuoted := Tally(g.attrs, inDeg);
    var userReplies := Tally(g.attrs, outDeg);
    st := Stats(|g.nodes|, |g.edges|, top, MostCommon(userQuoted, topN), MostCommon(userReplies, topN));
  }

  /** `dict(G.in_degree())` / `dict(G.out_degree())`. */
  method DegreesOf(g: ReplyGraph, incoming: bool) returns (deg: seq<Count>)
    ensures deg == Degrees(g.nodes, g.edges, incoming)
  {
    deg := [];
    for i := 0 to |g.nodes|
      invariant deg == Degrees(g.nodes[..i], g.edges, incoming)
    {
      var x := g.nodes[i];
      var n := if incoming then InDegree(g.edges, x) else OutDegree(g.edges, x);
      deg := deg + [(x, n)];
    }
    assert g.nodes[..|g.nodes|] == g.nodes;
  }

  /** The comprehension of `top_quoted_posts` over the sliced, sorted degrees. */
  method TopQuotedPosts(attrs: map<string, NodeAttrs>, taken: seq<Count>) returns (posts: seq<(string, string, int)>)
    ensures posts == Labelled(attrs, Positive(taken))
  {
    posts := [];
    for k := 0 to |taken|
      invariant posts == Labelled(attrs, Positive(taken[..k]))
    {
      var (pid, cnt) := taken[k];
      assert taken[..k + 1][..k] == taken[..k];
      if cnt > 0 {
        posts := posts + [(pid, UsernameOf(attrs, pid), cnt)];
      }
    }
    assert taken[..|taken|] == taken;
  }

  /** The counter loop: `counter[G.nodes[pid].get("username", "?")] += cnt` over the degrees. */
  method Tally(attrs: map<string, NodeAttrs>, degrees: seq<Count>) returns (counter: seq<Count>)
    ensures counter == UserTotals(attrs, degrees)
  {
    counter := [];
    for k := 0 to |degrees|
      invariant counter == UserTotals(attrs, degrees[..k])
    {
      assert degrees[..k + 1][..k] == degrees[..k];
      counter := Add(counter, UsernameOf(attrs, degrees[k].0), degrees[k].1);
    }
    assert degrees[..|degrees|] == degrees;
  }
}
