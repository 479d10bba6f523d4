/** `Tree` of fastrace/src/util/tree.rs: the tree of a list of spans, filled into a table and built by recursion.
    Building it from any reachable queue finds every parent and places every span exactly once, below its recorded
    parent. */
module TraceTree {
  import opened Records
  import opened SpanQueues
  import opened TreeOrder
  import opened TreeShape

  datatype Entry = Entry(name: string, kids: seq<SpanId>, properties: Properties, events: seq<Event>)

  type Table = map<SpanId, Entry>

  const ROOT_ENTRY := Entry("", [], [], [])

  /** The last span with that id counts. */
  function PayloadOf(items: seq<Item>, id: SpanId): Entry {
    if items == [] then ROOT_ENTRY
    else if Last(items).id == id then Entry(Last(items).name, [], Last(items).properties, Last(items).events)
    else PayloadOf(Init(items), id)
  }

  /** All spans entered, the first `n` of them linked to their parents. */
  function TableOf(items: seq<Item>, n: nat): Table
    requires n <= |items|
  {
    map id <- IdsOf(items) :: PayloadOf(items, id).(kids := KidsOf(items[..n], id))
  }

  lemma {:induction false} EnterOne(items: seq<Item>, i: nat)
    requires i < |items|
    ensures TableOf(items[..i + 1], 0) ==
            TableOf(items[..i], 0)[items[i].id := Entry(items[i].name, [], items[i].properties, items[i].events)]
  {
    var s := items[i];
    assert Init(items[..i + 1]) == items[..i] && Last(items[..i + 1]) == s;
    assert items[..i + 1] == items[..i] + [s];
    assert IdsOf(items[..i + 1]) == IdsOf(items[..i]) + {s.id};
  }

  lemma {:induction false} LinkOne(items: seq<Item>, i: nat)
    requires i < |items| && items[i].parentId in IdsOf(items)
    ensures var p, t := items[i].parentId, TableOf(items, i);
            p in t && TableOf(items, i + 1) == t[p := t[p].(kids := t[p].kids + [items[i].id])]
  {
    hide PayloadOf, IdsOf;
    assert Init(items[..i + 1]) == items[..i] && Last(items[..i + 1]) == items[i];
    forall id | id != items[i].parentId ensures KidsOf(items[..i + 1], id) == KidsOf(items[..i], id) {
    }
    assert TableOf(items, i).Keys == TableOf(items, i + 1).Keys == IdsOf(items);
  }

  /** The two loops of the builder. `None` stands for the panic on a missing parent. */
  method Fill(items: seq<Item>) returns (table: Option<Table>)
    ensures table == if ParentsPresent(items) then Some(TableOf(items, |items|)) else None
  {
    hide PayloadOf, KidsOf, IdsOf;
    var t: Table := map[NO_ID := ROOT_ENTRY];
    NothingEntered();
    for i := 0 to |items|
      invariant t == TableOf(items[..i], 0)
    {
      var s := items[i];
      EnterOne(items, i);
      t := t[s.id := Entry(s.name, [], s.properties, s.events)];
    }
    assert items[..|items|] == items;
    for i := 0 to |items|
      invariant t == TableOf(items, i)
      invariant forall k :: 0 <= k < i ==> items[k].parentId in IdsOf(items)
    {
      var s := items[i];
      assert t.Keys == IdsOf(items);
      if s.parentId !in t {
        return None;
      }
      LinkOne(items, i);
      t := t[s.parentId := t[s.parentId].(kids := t[s.parentId].kids + [s.id])];
    }
    return Some(t);
  }

  lemma {:induction false} NothingEntered()
    ensures TableOf([], 0) == map[NO_ID := ROOT_ENTRY]
  {
  }

  // Building

  ghost predicate Grounded(table: Table, ranks: Ranks, bound: nat) {
    && (forall id <- ranks :: ranks[id] <= bound)
    && (forall id <- table.Keys * ranks.Keys :: forall kid <- table[id].kids ::
          kid in table && kid in ranks && ranks[id] < ranks[kid])
  }

  function BuildTree(id: SpanId, table: Table, ghost ranks: Ranks, ghost bound: nat): Tree
    requires Grounded(table, ranks, bound) && id in table && id in ranks
    decreases bound - ranks[id]
  {
    var entry := table[id];
    Tree(entry.name,
         seq(|entry.kids|, i requires 0 <= i < |entry.kids| =>
           assert entry.kids[i] in table[id].kids; BuildTree(entry.kids[i], table, ranks, bound)),
         entry.properties, entry.events)
  }

  /** The tree of that shape in which each node shows its own span. */
  ghost function Decorate(node: Node, items: seq<Item>): Tree {
    var own := PayloadOf(items, node.id);
    Tree(own.name,
         seq(|node.children|, i requires 0 <= i < |node.children| => Decorate(node.children[i], items)),
         own.properties, own.events)
  }

  /** Span `i` is the last one with that id. */
  ghost predicate LastWith(items: seq<Item>, i: nat, id: SpanId) {
    i < |items| && items[i].id == id && forall j :: i < j < |items| ==> items[j].id != id
  }

  /** A tree with the shape of the node in which every node shows name, properties and events of the last span with its
      id, and a node that is no span shows nothing. */
  ghost predicate Shows(t: Tree, node: Node, items: seq<Item>) {
    && (forall i: nat :: LastWith(items, i, node.id) ==>
          t.name == items[i].name && t.properties == items[i].properties && t.events == items[i].events)
    && ((forall i :: 0 <= i < |items| ==> items[i].id != node.id) ==>
          t.name == "" && t.properties == [] && t.events == [])
    && |t.children| == |node.children|
    && forall i :: 0 <= i < |t.children| ==> Shows(t.children[i], node.children[i], items)
  }

  lemma {:induction false} PayloadShown(items: seq<Item>, id: SpanId)
    ensures forall i: nat :: LastWith(items, i, id) ==>
              PayloadOf(items, id) == Entry(items[i].name, [], items[i].properties, items[i].events)
    ensures (forall i :: 0 <= i < |items| ==> items[i].id != id) ==> PayloadOf(items, id) == Entry("", [], [], [])
  {
    if items != [] {
      PayloadShown(Init(items), id);
      forall i: nat | LastWith(items, i, id)
        ensures PayloadOf(items, id) == Entry(items[i].name, [], items[i].properties, items[i].events)
      {
        if i < |items| - 1 {
          assert LastWith(Init(items), i, id);
          assert items[|items| - 1].id != id;
        }
      }
    }
  }

  /** Every node of the tree shows its own span. */
  lemma {:induction false} DecorateShows(node: Node, items: seq<Item>)
    ensures Shows(Decorate(node, items), node, items)
  {
    hide PayloadOf;
    PayloadShown(items, node.id);
    forall i | 0 <= i < |node.children| ensures Shows(Decorate(node.children[i], items), node.children[i], items) {
      DecorateShows(node.children[i], items);
    }
  }

  lemma {:induction false} TableGrounded(items: seq<Item>, ranks: Ranks, bound: nat)
    requires Ranked(items, ranks, bound)
    ensures Grounded(TableOf(items, |items|), ranks, bound)
  {
    hide KidsOf, PayloadOf;
    var table := TableOf(items, |items|);
    assert items[..|items|] == items;
    forall id <- table.Keys * ranks.Keys
      ensures forall kid <- table[id].kids :: kid in table && kid in ranks && ranks[id] < ranks[kid]
    {
      KidsRanked(items, ranks, bound, id);
    }
  }

  /** The recursion over the table gives the tree that the parent ids describe. */
  lemma {:induction false} BuildIsShape(items: seq<Item>, ranks: Ranks, bound: nat, id: SpanId)
    requires Ranked(items, ranks, bound) && id in IdsOf(items) && id in ranks
    requires Grounded(TableOf(items, |items|), ranks, bound)
    ensures BuildTree(id, TableOf(items, |items|), ranks, bound) == Decorate(Shape(items, ranks, bound, id), items)
    decreases bound - ranks[id]
  {
    hide PayloadOf, KidsOf, Ranked, Grounded;
    var table, kids := TableOf(items, |items|), KidsOf(items, id);
    assert items[..|items|] == items;
    RankBound(items, ranks, bound);
    KidsRanked(items, ranks, bound, id);
    forall i | 0 <= i < |kids|
      ensures BuildTree(kids[i], table, ranks, bound) == Decorate(Shape(items, ranks, bound, kids[i]), items)
    {
      assert kids[i] in kids;
      BuildIsShape(items, ranks, bound, kids[i]);
    }
  }

  /** The whole tree: `None` when a parent is missing. The recursion is asked to end only when it is entered. */
  method FromItems(items: seq<Item>) returns (tree: Option<Tree>)
    requires ParentsPresent(items) ==> Terminates(items)
    ensures tree == if ParentsPresent(items) then Some(Sorted(Decorate(Whole(items), items))) else None
  {
    hide ParentsPresent, TableOf, Shape, Decorate, Sorted, Ranked, Grounded, BuildTree, Terminates, RanksOf, BoundOf;
    var filled := Fill(items);
    if filled.None? {
      return None;
    }
    ghost var ranks, bound := RanksOf(items), BoundOf(items);
    RanksRanked(items);
    RankBound(items, ranks, bound);
    TableGrounded(items, ranks, bound);
    RootInTable(items);
    BuildIsShape(items, ranks, bound, NO_ID);
    var built := BuildTree(NO_ID, filled.value, ranks, bound);
    var sorted := Sort(built);
    return Some(sorted);
  }

  lemma {:induction false} RootInTable(items: seq<Item>)
    ensures NO_ID in TableOf(items, |items|)
  {
  }

  // The queue's spans

  function RawItems(spans: seq<RawSpan>): seq<Item> {
    seq(|spans|, i requires 0 <= i < |spans| =>
      Item(spans[i].id, spans[i].parentId, spans[i].name, spans[i].OwnProperties(), []))
  }

  /** In a queue that encodes a stack of open spans ids are distinct, no parent is missing, and every ancestor chain
      ends at the default id. */
  lemma {:induction false} QueuePlaced(q: QueueState, open: seq<nat>)
    requires Encodes(q, open)
    ensures Distinct(RawItems(q.spans)) && ParentsPresent(RawItems(q.spans)) && AllRooted(RawItems(q.spans))
  {
    hide Encodes, ParentEarlier, IdsOf, Rooted;
    QueueFacts(q, open);
    var items := RawItems(q.spans);
    forall i | 0 <= i < |items| ensures items[i].parentId in IdsOf(items) && Rooted(items, items[i].id) {
      QueueRooted(q.spans, i);
      RootedKnown(items, items[i].parentId);
    }
  }

  lemma {:induction false} QueueFacts(q: QueueState, open: seq<nat>)
    requires Encodes(q, open)
    ensures DistinctIds(q.spans) && forall i :: 0 <= i < |q.spans| ==> ParentEarlier(q.spans, i)
  {
  }

  lemma {:induction false} QueueRooted(spans: seq<RawSpan>, i: nat)
    requires i < |spans| && forall j :: 0 <= j < |spans| ==> ParentEarlier(spans, j)
    ensures Rooted(RawItems(spans), spans[i].parentId) && Rooted(RawItems(spans), spans[i].id)
  {
    hide Rooted, Link;
    var items := RawItems(spans);
    assert ParentEarlier(spans, i);
    if spans[i].parentId == NO_ID {
      RootRooted(items);
    } else {
      var k :| 0 <= k < i && spans[k].id == spans[i].parentId && spans[k].kind.SpanKind?;
      QueueRooted(spans, k);
    }
    ItemLink(items, i);
    ChildRooted(items, items[i].parentId, items[i].id);
  }

  /** `from_raw_spans` on a queue: it always succeeds. */
  method FromRawSpans(q: QueueState, ghost open: seq<nat>) returns (trees: seq<Tree>)
    requires Encodes(q, open)
    ensures Terminates(RawItems(q.spans))
    ensures trees == Sorted(Decorate(Whole(RawItems(q.spans)), RawItems(q.spans))).children
    ensures forall i :: 0 <= i < |q.spans| ==>
              var span, item := q.spans[i], RawItems(q.spans)[i];
              && (item.id, item.parentId, item.name) == (span.id, span.parentId, span.name) && item.events == []
              && item.properties == if span.properties.Some? then span.properties.value else []
  {
    hide Encodes, Sorted, Whole, Decorate, ParentsPresent, Terminates, Distinct, AllRooted;
    QueuePlaced(q, open);
    DistinctTerminates(RawItems(q.spans));
    var tree := FromItems(RawItems(q.spans));
    return tree.value.children;
  }

  /** After any run of well-nested calls on a queue, the tree of its spans holds every one of them exactly once, with
      exactly the recorded links. Sorting only rearranges siblings. */
  lemma {:induction false} QueueTree(capacity: nat, ops: seq<Op>, q: QueueState, open: seq<nat>)
    requires Reaches(capacity, ops, q, open)
    ensures Terminates(RawItems(q.spans))
    ensures var items := RawItems(q.spans);
            && (forall i :: 0 <= i < |q.spans| ==> Count(Whole(items), q.spans[i].id) == 1)
            && multiset(Links(Whole(items))) == multiset(Recorded(items))
            && Rearranged(Decorate(Whole(items), items), Sorted(Decorate(Whole(items), items)))
  {
    hide Encodes, Sorted, Whole, Decorate, ParentsPresent, Rearranged, Reaches, Links, Recorded, Count, Chain, Distinct,
         Terminates, Rooted;
    ReachableChain(capacity, ops, q, open);
    QueuePlaced(q, open);
    var items := RawItems(q.spans);
    DistinctTerminates(items);
    forall i | 0 <= i < |q.spans| ensures Count(Whole(items), q.spans[i].id) == 1 {
      ExactlyOnce(items, q.spans[i].id);
      assert items[i].id == q.spans[i].id;
    }
    LinksAreRecorded(items);
    SortedRearranges(Decorate(Whole(items), items));
  }

  // Reported records

  function RecordItems(records: seq<SpanRecord>): seq<Item> {
    seq(|records|, i requires 0 <= i < |records| =>
      Item(records[i].spanId, records[i].parentId, records[i].name, records[i].properties,
        EventItems(records[i].events)))
  }

  function EventItems(events: seq<EventRecord>): seq<Event> {
    seq(|events|, i requires 0 <= i < |events| => (events[i].name, events[i].properties))
  }

  /** `from_span_records`: `None` stands for the panic on a missing parent or on a number of roots other than one. */
  method FromSpanRecords(records: seq<SpanRecord>) returns (tree: Option<Tree>)
    requires ParentsPresent(RecordItems(records)) ==> Terminates(RecordItems(records))
    ensures tree.Some? <==> ParentsPresent(RecordItems(records)) && |KidsOf(RecordItems(records), NO_ID)| == 1
    ensures tree.Some? ==> |Whole(RecordItems(records)).children| == 1
    ensures tree.Some? ==>
              tree.value == Sorted(Decorate(Whole(RecordItems(records)).children[0], RecordItems(records)))
    ensures forall i :: 0 <= i < |records| ==>
              var r, item := records[i], RecordItems(records)[i];
              && (item.id, item.parentId, item.name) == (r.spanId, r.parentId, r.name)
              && item.properties == r.properties && |item.events| == |r.events|
              && forall k :: 0 <= k < |r.events| ==> item.events[k] == (r.events[k].name, r.events[k].properties)
  {
    hide ParentsPresent, PayloadOf, Terminates, Whole;
    var items := RecordItems(records);
    var whole := FromItems(items);
    if whole.None? {
      return None;
    }
    WholeChildren(items);
    SortedChildren(Decorate(Whole(items), items));
    if |whole.value.children| != 1 {
      return None;
    }
    return Some(whole.value.children[0]);
  }

  lemma {:induction false} WholeChildren(items: seq<Item>)
    requires Terminates(items)
    ensures |Whole(items).children| == |KidsOf(items, NO_ID)|
  {
  }
}
