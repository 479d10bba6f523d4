/** The tree that a list of spans describes by parent ids, as `Tree` of fastrace/src/util/tree.rs builds it: when the
    recursion from the default id ends, which spans it reaches, and how often and where it places each of them. */
module TreeShape {
  import opened Records
  import opened TreeOrder

  /** What the builder reads of a span. */
  datatype Item = Item(id: SpanId, parentId: SpanId, name: string, properties: Properties, events: seq<Event>)

  // What a list of spans describes

  function IdsOf(items: seq<Item>): set<SpanId> {
    {NO_ID} + set s <- items :: s.id
  }

  /** The ids recorded below `id`, in order. */
  function KidsOf(items: seq<Item>, id: SpanId): seq<SpanId> {
    if items == [] then []
    else KidsOf(Init(items), id) + if Last(items).parentId == id then [Last(items).id] else []
  }

  ghost predicate ParentsPresent(items: seq<Item>) {
    forall i :: 0 <= i < |items| ==> items[i].parentId in IdsOf(items)
  }

  // Chains of parent ids

  ghost predicate Link(items: seq<Item>, parentId: SpanId, id: SpanId) {
    exists k :: 0 <= k < |items| && items[k].parentId == parentId && items[k].id == id
  }

  /** A descent of the recursion, from the default id to recorded child after recorded child. */
  ghost predicate Chained(items: seq<Item>, chain: seq<SpanId>) {
    && chain != [] && chain[0] == NO_ID
    && forall i :: 0 < i < |chain| ==> Link(items, chain[i - 1], chain[i])
  }

  ghost predicate EndsAt(items: seq<Item>, chain: seq<SpanId>, id: SpanId) {
    Chained(items, chain) && Last(chain) == id
  }

  /** The ancestor chain of the span ends at the default id. */
  ghost predicate Rooted(items: seq<Item>, id: SpanId) {
    exists chain :: EndsAt(items, chain, id)
  }

  ghost predicate AllRooted(items: seq<Item>) {
    forall i :: 0 <= i < |items| ==> Rooted(items, items[i].id)
  }

  ghost predicate DepthBounded(items: seq<Item>, bound: nat) {
    forall chain :: Chained(items, chain) ==> |chain| <= bound
  }

  /** The recursion of the builder ends: its descents are not arbitrarily deep. */
  ghost predicate Terminates(items: seq<Item>) {
    exists bound: nat :: DepthBounded(items, bound)
  }

  lemma {:induction false} ChainGrows(items: seq<Item>, chain: seq<SpanId>, parentId: SpanId, id: SpanId)
    requires EndsAt(items, chain, parentId) && Link(items, parentId, id)
    ensures EndsAt(items, chain + [id], id)
  {
    hide Link;
    var longer := chain + [id];
    forall i | 0 < i < |longer| ensures Link(items, longer[i - 1], longer[i]) {
      if i < |chain| {
        assert Link(items, chain[i - 1], chain[i]);
      }
    }
  }

  lemma {:induction false} ChainShrinks(items: seq<Item>, chain: seq<SpanId>, id: SpanId)
    requires EndsAt(items, chain, id) && |chain| > 1
    ensures EndsAt(items, Init(chain), chain[|chain| - 2]) && Link(items, chain[|chain| - 2], id)
  {
    hide Link;
  }

  lemma {:induction false} RootRooted(items: seq<Item>)
    ensures EndsAt(items, [NO_ID], NO_ID) && Rooted(items, NO_ID)
  {
    assert EndsAt(items, [NO_ID], NO_ID);
  }

  // Ranks

  type Ranks = map<SpanId, nat>

  /** Ranked ids have ranked children, and each child ranks above its parent. */
  ghost predicate Ranked(items: seq<Item>, ranks: Ranks, bound: nat) {
    && NO_ID in ranks
    && (forall id <- ranks :: ranks[id] <= bound)
    && (forall i :: 0 <= i < |items| && items[i].parentId in ranks ==>
          items[i].id in ranks && ranks[items[i].parentId] < ranks[items[i].id])
  }

  lemma {:induction false} KidsRanked(items: seq<Item>, ranks: Ranks, bound: nat, id: SpanId)
    requires Ranked(items, ranks, bound) && id in ranks
    ensures forall kid <- KidsOf(items, id) :: kid in ranks && ranks[id] < ranks[kid] <= bound && kid in IdsOf(items)
  {
    if items != [] {
      KidsRanked(Init(items), ranks, bound, id);
      assert Last(items) == items[|items| - 1];
    }
  }

  lemma {:induction false} RankBound(items: seq<Item>, ranks: Ranks, bound: nat)
    requires Ranked(items, ranks, bound)
    ensures NO_ID in ranks && forall id <- ranks :: ranks[id] <= bound
  {
  }

  /** The length of the longest descent to `id` of at most `n` steps. */
  ghost function Depth(items: seq<Item>, id: SpanId, n: nat): nat {
    if n == 0 then 0
    else if exists chain :: EndsAt(items, chain, id) && |chain| == n then n
    else Depth(items, id, n - 1)
  }

  lemma {:induction false} DepthAtLeast(items: seq<Item>, id: SpanId, n: nat, chain: seq<SpanId>)
    requires EndsAt(items, chain, id) && |chain| <= n
    ensures |chain| <= Depth(items, id, n) <= n
  {
    hide EndsAt;
    DepthAtMost(items, id, n);
    if n > 0 && |chain| < n {
      DepthAtLeast(items, id, n - 1, chain);
    }
  }

  lemma {:induction false} DepthAtMost(items: seq<Item>, id: SpanId, n: nat)
    ensures Depth(items, id, n) <= n
  {
    if n > 0 {
      DepthAtMost(items, id, n - 1);
    }
  }

  lemma {:induction false} DepthAttained(items: seq<Item>, id: SpanId, n: nat) returns (chain: seq<SpanId>)
    requires Depth(items, id, n) > 0
    ensures EndsAt(items, chain, id) && |chain| == Depth(items, id, n)
  {
    hide EndsAt;
    if c :| EndsAt(items, c, id) && |c| == n {
      chain := c;
    } else {
      chain := DepthAttained(items, id, n - 1);
    }
  }

  ghost function BoundOf(items: seq<Item>): nat
    requires Terminates(items)
  {
    var bound: nat :| DepthBounded(items, bound);
    bound
  }

  ghost function RanksOf(items: seq<Item>): Ranks
    requires Terminates(items)
  {
    map id | id in IdsOf(items) && Rooted(items, id) :: Depth(items, id, BoundOf(items))
  }

  lemma {:induction false} BoundBounds(items: seq<Item>)
    requires Terminates(items)
    ensures DepthBounded(items, BoundOf(items))
  {
    hide DepthBounded;
  }

  lemma {:induction false} ChildDeeper(items: seq<Item>, parentId: SpanId, id: SpanId, bound: nat)
    requires DepthBounded(items, bound) && Rooted(items, parentId) && Link(items, parentId, id)
    ensures Rooted(items, id) && Depth(items, parentId, bound) < Depth(items, id, bound) <= bound
  {
    hide Link, Depth;
    var some :| EndsAt(items, some, parentId);
    DepthAtLeast(items, parentId, bound, some);
    var deepest := DepthAttained(items, parentId, bound);
    ChainGrows(items, deepest, parentId, id);
    DepthAtLeast(items, id, bound, deepest + [id]);
  }

  lemma {:induction false} ItemLink(items: seq<Item>, i: nat)
    requires i < |items|
    ensures Link(items, items[i].parentId, items[i].id) && items[i].id in IdsOf(items)
  {
  }

  lemma {:induction false} RanksRanked(items: seq<Item>)
    requires Terminates(items)
    ensures Ranked(items, RanksOf(items), BoundOf(items))
  {
    hide Depth, Link, Rooted, DepthBounded, BoundOf;
    var ranks, bound := RanksOf(items), BoundOf(items);
    BoundBounds(items);
    RootRooted(items);
    forall id <- ranks ensures ranks[id] <= bound {
      DepthAtMost(items, id, bound);
    }
    forall i | 0 <= i < |items| && items[i].parentId in ranks
      ensures items[i].id in ranks && ranks[items[i].parentId] < ranks[items[i].id]
    {
      ItemLink(items, i);
      ChildDeeper(items, items[i].parentId, items[i].id, bound);
    }
  }

  lemma {:induction false} ChainRises(items: seq<Item>, ranks: Ranks, bound: nat, chain: seq<SpanId>, i: nat)
    requires Ranked(items, ranks, bound) && Chained(items, chain) && i < |chain|
    ensures chain[i] in ranks && i <= ranks[chain[i]] <= bound
  {
    if i > 0 {
      ChainRises(items, ranks, bound, chain, i - 1);
      assert Link(items, chain[i - 1], chain[i]);
    }
  }

  /** The recursion ends if and only if the ids it can reach can be ranked. */
  lemma {:induction false} TerminatesExactly(items: seq<Item>)
    ensures Terminates(items) <==> exists ranks: Ranks, bound: nat :: Ranked(items, ranks, bound)
  {
    hide Ranked, Chained;
    if Terminates(items) {
      RanksRanked(items);
    }
    if ranks: Ranks, bound: nat :| Ranked(items, ranks, bound) {
      forall chain | Chained(items, chain) ensures |chain| <= bound + 1 {
        ChainNotEmpty(items, chain);
        ChainRises(items, ranks, bound, chain, |chain| - 1);
      }
      assert DepthBounded(items, bound + 1);
    }
  }

  lemma {:induction false} ChainNotEmpty(items: seq<Item>, chain: seq<SpanId>)
    requires Chained(items, chain)
    ensures chain != []
  {
  }

  // The shape of the result, with ids

  datatype Node = Node(id: SpanId, children: seq<Node>)

  ghost function Shape(items: seq<Item>, ranks: Ranks, bound: nat, id: SpanId): Node
    requires Ranked(items, ranks, bound) && id in ranks
    decreases bound - ranks[id]
  {
    var kids := KidsOf(items, id);
    KidsRanked(items, ranks, bound, id);
    Node(id, seq(|kids|, i requires 0 <= i < |kids| => assert kids[i] in kids; Shape(items, ranks, bound, kids[i])))
  }

  // Counting nodes

  function Count(t: Node, c: SpanId): nat {
    (if t.id == c then 1 else 0) + CountAll(t.children, c)
  }

  function CountAll(ts: seq<Node>, c: SpanId): nat {
    if ts == [] then 0 else CountAll(Init(ts), c) + Count(Last(ts), c)
  }

  /** Over all spans recorded with id `c`: the nodes of their parents. */
  function Into(items: seq<Item>, ts: seq<Node>, c: SpanId): nat {
    if items == [] then 0
    else Into(Init(items), ts, c) + if Last(items).id == c then CountAll(ts, Last(items).parentId) else 0
  }

  function Occurrences(ids: seq<SpanId>, c: SpanId): nat {
    if ids == [] then 0 else Occurrences(Init(ids), c) + if Last(ids) == c then 1 else 0
  }

  lemma {:induction false} IntoAppend(items: seq<Item>, ts: seq<Node>, t: Node, c: SpanId)
    ensures Into(items, ts + [t], c) == Into(items, ts, c) + Into(items, [t], c)
  {
    hide Count;
    if items != [] {
      IntoAppend(Init(items), ts, t, c);
      CountAppend(ts, t, Last(items).parentId);
    }
  }

  lemma {:induction false} CountAppend(ts: seq<Node>, t: Node, c: SpanId)
    ensures CountAll(ts + [t], c) == CountAll(ts, c) + CountAll([t], c) && CountAll([t], c) == Count(t, c)
  {
    hide Count;
    assert Init(ts + [t]) == ts && Last(ts + [t]) == t;
    assert Init([t]) == [] && CountAll([], c) == 0;
  }

  lemma {:induction false} IntoNothing(items: seq<Item>, c: SpanId)
    ensures Into(items, [], c) == 0
  {
    if items != [] {
      IntoNothing(Init(items), c);
    }
  }

  lemma {:induction false} OccurrencesAppend(ids: seq<SpanId>, id: SpanId, c: SpanId)
    ensures Occurrences(ids + [id], c) == Occurrences(ids, c) + if id == c then 1 else 0
  {
    assert Init(ids + [id]) == ids && Last(ids + [id]) == id;
  }

  /** Splitting off the node itself: its kids with id `c` are the spans with that id and this parent. */
  lemma {:induction false} IntoNode(items: seq<Item>, t: Node, c: SpanId)
    ensures Into(items, [t], c) == Occurrences(KidsOf(items, t.id), c) + Into(items, t.children, c)
  {
    if items != [] {
      var s := Last(items);
      IntoNode(Init(items), t, c);
      CountAppend([], t, s.parentId);
      assert [] + [t] == [t];
      OccurrencesAppend(KidsOf(Init(items), t.id), s.id, c);
      assert KidsOf(items, t.id) == if s.parentId == t.id then KidsOf(Init(items), t.id) + [s.id]
             else KidsOf(Init(items), t.id);
    }
  }

  function Itself(id: SpanId, c: SpanId): nat {
    if id == c then 1 else 0
  }

  /** A node stands in the tree once as the root of it, and once for each recorded span below each node of
      its parent. */
  lemma {:induction false} Flow(items: seq<Item>, ranks: Ranks, bound: nat, id: SpanId, c: SpanId)
    requires Ranked(items, ranks, bound) && id in ranks
    ensures var t := Shape(items, ranks, bound, id); Count(t, c) == Itself(id, c) + Into(items, [t], c)
    decreases bound - ranks[id], 1, 0
  {
    hide KidsOf, Ranked, Into;
    var t, kids := Shape(items, ranks, bound, id), KidsOf(items, id);
    RankBound(items, ranks, bound);
    KidsRanked(items, ranks, bound, id);
    FlowAll(items, ranks, bound, id, |kids|, c);
    assert t.children[..|kids|] == t.children && kids[..|kids|] == kids;
    IntoNode(items, t, c);
  }

  lemma {:induction false} FlowAll(items: seq<Item>, ranks: Ranks, bound: nat, id: SpanId, n: nat, c: SpanId)
    requires Ranked(items, ranks, bound) && id in ranks && ranks[id] <= bound
    requires n <= |KidsOf(items, id)|
    ensures var ts := Shape(items, ranks, bound, id).children;
            CountAll(ts[..n], c) == Occurrences(KidsOf(items, id)[..n], c) + Into(items, ts[..n], c)
    decreases bound - ranks[id], 0, n
  {
    hide KidsOf, Ranked, Into, Count;
    var ts, kids := Shape(items, ranks, bound, id).children, KidsOf(items, id);
    if n == 0 {
      IntoNothing(items, c);
    } else {
      KidsRanked(items, ranks, bound, id);
      assert kids[n - 1] in kids;
      RankBound(items, ranks, bound);
      FlowAll(items, ranks, bound, id, n - 1, c);
      Flow(items, ranks, bound, kids[n - 1], c);
      assert ts[..n] == ts[..n - 1] + [ts[n - 1]] && kids[..n] == kids[..n - 1] + [kids[n - 1]];
      IntoAppend(items, ts[..n - 1], ts[n - 1], c);
      CountAppend(ts[..n - 1], ts[n - 1], c);
      OccurrencesAppend(kids[..n - 1], kids[n - 1], c);
    }
  }

  ghost predicate Distinct(items: seq<Item>) {
    && (forall i :: 0 <= i < |items| ==> items[i].id != NO_ID)
    && (forall i, j :: 0 <= i < j < |items| ==> items[i].id != items[j].id)
  }

  lemma {:induction false} IntoAbsent(items: seq<Item>, ts: seq<Node>, c: SpanId)
    requires forall i :: 0 <= i < |items| ==> items[i].id != c
    ensures Into(items, ts, c) == 0
  {
    if items != [] {
      assert Last(items) == items[|items| - 1];
      IntoAbsent(Init(items), ts, c);
    }
  }

  lemma {:induction false} IntoUnique(items: seq<Item>, ts: seq<Node>, k: nat)
    requires Distinct(items) && k < |items|
    ensures Into(items, ts, items[k].id) == CountAll(ts, items[k].parentId)
  {
    if k == |items| - 1 {
      IntoAbsent(Init(items), ts, items[k].id);
    } else {
      IntoUnique(Init(items), ts, k);
    }
  }

  // Distinct ids: building always ends

  lemma {:induction false} OneParent(items: seq<Item>, p: SpanId, q: SpanId, id: SpanId)
    requires Distinct(items) && Link(items, p, id) && Link(items, q, id)
    ensures p == q && id != NO_ID
  {
    var j :| 0 <= j < |items| && items[j].parentId == p && items[j].id == id;
    var k :| 0 <= k < |items| && items[k].parentId == q && items[k].id == id;
    assert j == k;
  }

  /** A descent never meets the same id twice. */
  lemma {:induction false} ChainDistinct(items: seq<Item>, chain: seq<SpanId>, i: nat, j: nat)
    requires Distinct(items) && Chained(items, chain) && i < j < |chain|
    ensures chain[i] != chain[j]
    decreases i
  {
    hide Distinct, Link;
    assert Link(items, chain[j - 1], chain[j]);
    if chain[i] == chain[j] {
      if i == 0 {
        OneParent(items, chain[j - 1], chain[j - 1], chain[j]);
      } else {
        assert Link(items, chain[i - 1], chain[i]);
        OneParent(items, chain[i - 1], chain[j - 1], chain[i]);
        ChainDistinct(items, chain, i - 1, j - 1);
      }
    }
  }

  lemma {:induction false} ChainInIds(items: seq<Item>, chain: seq<SpanId>)
    requires Chained(items, chain)
    ensures forall i :: 0 <= i < |chain| ==> chain[i] in IdsOf(items)
  {
    forall i | 0 <= i < |chain| ensures chain[i] in IdsOf(items) {
      if i > 0 {
        assert Link(items, chain[i - 1], chain[i]);
      }
    }
  }

  lemma {:induction false} NoMoreThan(s: seq<SpanId>, ids: set<SpanId>)
    requires forall i :: 0 <= i < |s| ==> s[i] in ids
    requires forall i, j :: 0 <= i < j < |s| ==> s[i] != s[j]
    ensures |s| <= |ids|
  {
    if s != [] {
      NoMoreThan(Init(s), ids - {Last(s)});
    }
  }

  /** With distinct non-zero ids the recursion always ends: a cycle of parent ids is out of its reach. */
  lemma {:induction false} DistinctTerminates(items: seq<Item>)
    requires Distinct(items)
    ensures Terminates(items)
  {
    hide Distinct, Chained, IdsOf;
    forall chain | Chained(items, chain) ensures |chain| <= |IdsOf(items)| {
      ChainInIds(items, chain);
      forall i, j | 0 <= i < j < |chain| ensures chain[i] != chain[j] {
        ChainDistinct(items, chain, i, j);
      }
      NoMoreThan(chain, IdsOf(items));
    }
    assert DepthBounded(items, |IdsOf(items)|);
  }

  /** The whole tree, below the default id. */
  ghost function Whole(items: seq<Item>): Node
    requires Terminates(items)
  {
    RanksRanked(items);
    Shape(items, RanksOf(items), BoundOf(items), NO_ID)
  }

  lemma {:induction false} KidsLinked(items: seq<Item>, id: SpanId)
    ensures forall kid <- KidsOf(items, id) :: Link(items, id, kid)
  {
    if items != [] {
      KidsLinked(Init(items), id);
      forall kid <- KidsOf(items, id) ensures Link(items, id, kid) {
        if kid in KidsOf(Init(items), id) {
          var k :| 0 <= k < |Init(items)| && Init(items)[k].parentId == id && Init(items)[k].id == kid;
          assert items[k].parentId == id && items[k].id == kid;
        } else {
          assert items[|items| - 1].parentId == id && items[|items| - 1].id == kid;
        }
      }
    }
  }

  /** Every node of the tree is rooted. */
  lemma {:induction false} NodesRooted(items: seq<Item>, ranks: Ranks, bound: nat, id: SpanId, c: SpanId)
    requires Ranked(items, ranks, bound) && id in ranks && Rooted(items, id) && !Rooted(items, c)
    ensures Count(Shape(items, ranks, bound, id), c) == 0
    decreases bound - ranks[id], 1, 0
  {
    hide KidsOf, Ranked, Rooted, CountAll;
    RankBound(items, ranks, bound);
    KidsRanked(items, ranks, bound, id);
    var t, kids := Shape(items, ranks, bound, id), KidsOf(items, id);
    NodesBelowRooted(items, ranks, bound, id, |kids|, c);
    assert t.children[..|kids|] == t.children;
  }

  lemma {:induction false} NodesBelowRooted(items: seq<Item>, ranks: Ranks, bound: nat, id: SpanId, n: nat, c: SpanId)
    requires Ranked(items, ranks, bound) && id in ranks && ranks[id] <= bound
    requires Rooted(items, id) && !Rooted(items, c) && n <= |KidsOf(items, id)|
    ensures CountAll(Shape(items, ranks, bound, id).children[..n], c) == 0
    decreases bound - ranks[id], 0, n
  {
    hide KidsOf, Ranked, Rooted, Count, Link;
    var ts, kids := Shape(items, ranks, bound, id).children, KidsOf(items, id);
    if n > 0 {
      KidsRanked(items, ranks, bound, id);
      RankBound(items, ranks, bound);
      KidsLinked(items, id);
      assert kids[n - 1] in kids;
      ChildRooted(items, id, kids[n - 1]);
      NodesBelowRooted(items, ranks, bound, id, n - 1, c);
      NodesRooted(items, ranks, bound, kids[n - 1], c);
      InitOfPrefix(ts, n);
    }
  }

  lemma {:induction false} ChildRooted(items: seq<Item>, parentId: SpanId, id: SpanId)
    requires Rooted(items, parentId) && Link(items, parentId, id)
    ensures Rooted(items, id)
  {
    hide Link;
    var chain :| EndsAt(items, chain, parentId);
    ChainGrows(items, chain, parentId, id);
  }

  /** Every rooted span is placed exactly once, and nothing else is. */
  lemma {:induction false} ExactlyOnce(items: seq<Item>, c: SpanId)
    requires Distinct(items) && Terminates(items)
    ensures Count(Whole(items), c) == if Rooted(items, c) then 1 else 0
  {
    hide Distinct, Shape, Count, Ranked, Rooted, EndsAt;
    RanksRanked(items);
    RankBound(items, RanksOf(items), BoundOf(items));
    RootRooted(items);
    if Rooted(items, c) {
      var chain := AncestorsOf(items, c);
      PlacedByChain(items, chain, c);
    } else {
      NodesRooted(items, RanksOf(items), BoundOf(items), NO_ID, c);
    }
  }

  lemma {:induction false} AncestorsOf(items: seq<Item>, c: SpanId) returns (chain: seq<SpanId>)
    requires Rooted(items, c)
    ensures EndsAt(items, chain, c)
  {
    hide EndsAt;
    chain :| EndsAt(items, chain, c);
  }

  lemma {:induction false} PlacedByChain(items: seq<Item>, chain: seq<SpanId>, c: SpanId)
    requires Distinct(items) && Terminates(items) && EndsAt(items, chain, c)
    ensures Count(Whole(items), c) == 1
    decreases |chain|
  {
    hide Shape, Count, CountAll, Into, Ranked, Link;
    RanksRanked(items);
    RankBound(items, RanksOf(items), BoundOf(items));
    var t := Whole(items);
    Flow(items, RanksOf(items), BoundOf(items), NO_ID, c);
    if |chain| == 1 {
      IntoAbsent(items, [t], c);
    } else {
      var parentId := chain[|chain| - 2];
      ChainShrinks(items, chain, c);
      PlacedByChain(items, Init(chain), parentId);
      IntoLinked(items, t, parentId, c);
    }
  }

  lemma {:induction false} IntoLinked(items: seq<Item>, t: Node, parentId: SpanId, c: SpanId)
    requires Distinct(items) && Link(items, parentId, c)
    ensures Into(items, [t], c) == Count(t, parentId) && c != NO_ID
  {
    hide Count, Into;
    var k :| 0 <= k < |items| && items[k].parentId == parentId && items[k].id == c;
    IntoUnique(items, [t], k);
    CountAppend([], t, parentId);
    assert [] + [t] == [t] && CountAll([], parentId) == 0;
  }

  // Counting links

  function Links(t: Node): seq<(SpanId, SpanId)>
    decreases t
  {
    LinksBelow(t.id, t.children)
  }

  function LinksBelow(id: SpanId, ts: seq<Node>): seq<(SpanId, SpanId)>
    decreases ts
  {
    if ts == [] then [] else LinksBelow(id, Init(ts)) + [(id, Last(ts).id)] + Links(Last(ts))
  }

  function LinkCount(links: seq<(SpanId, SpanId)>, link: (SpanId, SpanId)): nat {
    multiset(links)[link]
  }

  function Recorded(items: seq<Item>): seq<(SpanId, SpanId)> {
    seq(|items|, i requires 0 <= i < |items| => (items[i].parentId, items[i].id))
  }

  /** Each node of `p` has a link to each of its recorded kids. */
  lemma {:induction false} LinksPerNode(items: seq<Item>, ranks: Ranks, bound: nat, id: SpanId, link: (SpanId, SpanId))
    requires Ranked(items, ranks, bound) && id in ranks
    ensures var t := Shape(items, ranks, bound, id);
            LinkCount(Links(t), link) == Count(t, link.0) * Occurrences(KidsOf(items, link.0), link.1)
    decreases bound - ranks[id], 1, 0
  {
    hide KidsOf, Ranked, LinkCount, LinksBelow, CountAll, Occurrences;
    var t, kids := Shape(items, ranks, bound, id), KidsOf(items, id);
    RankBound(items, ranks, bound);
    LinksPerKid(items, ranks, bound, id, |kids|, link);
    assert t.children[..|kids|] == t.children && kids[..|kids|] == kids;
    var below, times := CountAll(t.children, link.0), Occurrences(KidsOf(items, link.0), link.1);
    assert (Itself(id, link.0) + below) * times == Itself(id, link.0) * times + below * times;
  }

  lemma {:induction false} LinksPerKid(items: seq<Item>, ranks: Ranks, bound: nat, id: SpanId, n: nat,
                                       link: (SpanId, SpanId))
    requires Ranked(items, ranks, bound) && id in ranks && ranks[id] <= bound
    requires n <= |KidsOf(items, id)|
    ensures var ts := Shape(items, ranks, bound, id).children;
            LinkCount(LinksBelow(id, ts[..n]), link) ==
            Itself(id, link.0) * Occurrences(KidsOf(items, id)[..n], link.1) +
            CountAll(ts[..n], link.0) * Occurrences(KidsOf(items, link.0), link.1)
    decreases bound - ranks[id], 0, n
  {
    hide KidsOf, Ranked, Count, Links, CountAll, LinksBelow, LinkCount, Occurrences;
    var ts, kids := Shape(items, ranks, bound, id).children, KidsOf(items, id);
    var times := Occurrences(KidsOf(items, link.0), link.1);
    if n == 0 {
      NoLinks(id, link);
      assert ts[..0] == [] && kids[..0] == [];
      assert Itself(id, link.0) * 0 == 0 && 0 * times == 0;
    } else {
      KidsRanked(items, ranks, bound, id);
      assert kids[n - 1] in kids;
      RankBound(items, ranks, bound);
      LinksPerKid(items, ranks, bound, id, n - 1, link);
      LinksPerNode(items, ranks, bound, kids[n - 1], link);
      assert ts[..n] == ts[..n - 1] + [ts[n - 1]] && kids[..n] == kids[..n - 1] + [kids[n - 1]];
      OccurrencesAppend(kids[..n - 1], kids[n - 1], link.1);
      CountAppend(ts[..n - 1], ts[n - 1], link.0);
      LinksAppend(id, ts[..n - 1], ts[n - 1], link);
      ShapeId(items, ranks, bound, kids[n - 1]);
      Distribute(Itself(id, link.0), Occurrences(kids[..n - 1], link.1), Itself(kids[n - 1], link.1));
      Distribute(times, CountAll(ts[..n - 1], link.0), Count(ts[n - 1], link.0));
    }
  }

  lemma {:induction false} ShapeId(items: seq<Item>, ranks: Ranks, bound: nat, id: SpanId)
    requires Ranked(items, ranks, bound) && id in ranks
    ensures Shape(items, ranks, bound, id).id == id
  {
  }

  lemma {:induction false} NoLinks(id: SpanId, link: (SpanId, SpanId))
    ensures LinkCount(LinksBelow(id, []), link) == 0 && Occurrences([], link.1) == 0 && CountAll([], link.0) == 0
  {
  }

  lemma {:induction false} LinksAppend(id: SpanId, ts: seq<Node>, t: Node, link: (SpanId, SpanId))
    ensures LinkCount(LinksBelow(id, ts + [t]), link) ==
            LinkCount(LinksBelow(id, ts), link) + Itself(id, link.0) * Itself(t.id, link.1) + LinkCount(Links(t), link)
  {
    hide Links;
    assert Init(ts + [t]) == ts && Last(ts + [t]) == t;
  }

  lemma {:induction false} Distribute(k: nat, a: nat, b: nat)
    ensures k * (a + b) == k * a + k * b
  {
  }

  lemma {:induction false} RecordedLinks(items: seq<Item>, link: (SpanId, SpanId))
    ensures LinkCount(Recorded(items), link) == Occurrences(KidsOf(items, link.0), link.1)
  {
    if items != [] {
      RecordedLinks(Init(items), link);
      var s := Last(items);
      assert Recorded(items) == Recorded(Init(items)) + [(s.parentId, s.id)];
      OccurrencesAppend(KidsOf(Init(items), link.0), s.id, link.1);
      assert KidsOf(items, link.0) ==
             if s.parentId == link.0 then KidsOf(Init(items), link.0) + [s.id] else KidsOf(Init(items), link.0);
    }
  }

  /** Rooted spans stand exactly below their recorded parents. */
  lemma {:induction false} LinksExactly(items: seq<Item>, link: (SpanId, SpanId))
    requires Distinct(items) && Terminates(items)
    ensures LinkCount(Links(Whole(items)), link) == if Rooted(items, link.0) then LinkCount(Recorded(items), link)
            else 0
  {
    hide Shape, Links, Recorded, KidsOf, Occurrences, Count, Ranked, Rooted, Distinct, LinkCount;
    RanksRanked(items);
    RankBound(items, RanksOf(items), BoundOf(items));
    LinksPerNode(items, RanksOf(items), BoundOf(items), NO_ID, link);
    ExactlyOnce(items, link.0);
    RecordedLinks(items, link);
    var times := Occurrences(KidsOf(items, link.0), link.1);
    assert 1 * times == times && 0 * times == 0;
  }

  lemma {:induction false} UnrootedParent(items: seq<Item>, i: nat)
    requires Distinct(items) && i < |items|
    ensures Rooted(items, items[i].parentId) ==> Rooted(items, items[i].id)
    ensures LinkCount(Recorded(items), (items[i].parentId, items[i].id)) > 0
  {
    hide Rooted, Link;
    ItemLink(items, i);
    if Rooted(items, items[i].parentId) {
      ChildRooted(items, items[i].parentId, items[i].id);
    }
    assert Recorded(items)[i] in multiset(Recorded(items));
  }

  lemma {:induction false} RootedParent(items: seq<Item>, i: nat)
    requires Distinct(items) && i < |items| && Rooted(items, items[i].id)
    ensures Rooted(items, items[i].parentId)
  {
    hide Link;
    var chain :| EndsAt(items, chain, items[i].id);
    assert items[i].id != NO_ID;
    ChainShrinks(items, chain, items[i].id);
    ItemLink(items, i);
    OneParent(items, chain[|chain| - 2], items[i].parentId, items[i].id);
  }

  lemma {:induction false} RecordedParents(items: seq<Item>, link: (SpanId, SpanId)) returns (i: nat)
    requires LinkCount(Recorded(items), link) > 0
    ensures i < |items| && link == (items[i].parentId, items[i].id)
  {
    assert link in multiset(Recorded(items));
    var k :| 0 <= k < |Recorded(items)| && Recorded(items)[k] == link;
    i := k;
  }

  /** The links of the tree are exactly the recorded ones, each once, if and only if every span is rooted. */
  lemma {:induction false} LinksAreRecorded(items: seq<Item>)
    requires Distinct(items) && Terminates(items)
    ensures multiset(Links(Whole(items))) == multiset(Recorded(items)) <==> AllRooted(items)
  {
    hide Whole, Links, Recorded, Rooted, Distinct, Terminates;
    var tree, recorded := Links(Whole(items)), Recorded(items);
    if AllRooted(items) {
      forall link: (SpanId, SpanId) ensures multiset(tree)[link] == multiset(recorded)[link] {
        LinksExactly(items, link);
        if LinkCount(recorded, link) > 0 {
          var i := RecordedParents(items, link);
          RootedParent(items, i);
        }
      }
    }
    if multiset(tree) == multiset(recorded) {
      forall i | 0 <= i < |items| ensures Rooted(items, items[i].id) {
        LinksExactly(items, (items[i].parentId, items[i].id));
        UnrootedParent(items, i);
      }
    }
  }

  /** Ranks that rise from parent to child all over the list. */
  ghost predicate Rises(items: seq<Item>, ranks: Ranks) {
    forall i :: 0 <= i < |items| ==>
      && items[i].id in ranks && items[i].parentId in ranks
      && ranks[items[i].parentId] < ranks[items[i].id]
  }

  /** The tree holds all spans if and only if the whole list can be ranked: no cycle anywhere. */
  lemma {:induction false} AllRootedExactly(items: seq<Item>)
    requires Distinct(items) && ParentsPresent(items)
    ensures AllRooted(items) <==> exists ranks: Ranks :: Rises(items, ranks)
  {
    hide Rooted, Rises, Distinct, ParentsPresent;
    if AllRooted(items) {
      AllRootedRises(items);
    }
    if ranks: Ranks :| Rises(items, ranks) {
      forall i | 0 <= i < |items| ensures Rooted(items, items[i].id) {
        RisesRooted(items, ranks, i);
      }
    }
  }

  lemma {:induction false} AllRootedRises(items: seq<Item>)
    requires Distinct(items) && AllRooted(items)
    ensures exists ranks: Ranks :: Rises(items, ranks)
  {
    hide Rooted, Depth, BoundOf, Terminates;
    DistinctTerminates(items);
    RanksRanked(items);
    var ranks := RanksOf(items);
    forall i | 0 <= i < |items| ensures items[i].id in ranks && items[i].parentId in ranks {
      ItemLink(items, i);
      RootedParent(items, i);
      RootedKnown(items, items[i].parentId);
    }
    assert Rises(items, ranks);
  }

  lemma {:induction false} RootedKnown(items: seq<Item>, id: SpanId)
    requires Rooted(items, id)
    ensures id in IdsOf(items)
  {
    hide IdsOf;
    var chain :| EndsAt(items, chain, id);
    ChainInIds(items, chain);
    assert chain[|chain| - 1] == id;
  }

  lemma {:induction false} RisesRooted(items: seq<Item>, ranks: Ranks, i: nat)
    requires Rises(items, ranks) && ParentsPresent(items) && i < |items|
    ensures Rooted(items, items[i].id)
    decreases ranks[items[i].id]
  {
    hide Rooted, Link;
    var parentId := items[i].parentId;
    if parentId == NO_ID {
      RootRooted(items);
    } else {
      assert parentId in IdsOf(items);
      var k :| 0 <= k < |items| && items[k].id == parentId;
      RisesRooted(items, ranks, k);
    }
    ItemLink(items, i);
    ChildRooted(items, parentId, items[i].id);
  }
}
