/** Turning routed span sets into records: `amend_span`, `amend_local_span`, `mount_danglings` and
    `postprocess_span_collection` of fastrace/src/collector/global_collector.rs.

    The meaning of a span collection is a stream of entries, one for each raw span: either a span
    record, or an event or property list that waits for the record of its target span. The loops
    are proved against that stream; the lemmas about it carry the conservation arguments. */
module Postprocess {
  import opened Records

  datatype DanglingItem = EventItem(event: EventRecord) | PropertiesItem(properties: Properties)

  type Danglings = map<SpanId, seq<DanglingItem>>

  datatype Entry = RecordEntry(record: SpanRecord) | ItemEntry(target: SpanId, item: DanglingItem)

  // The entry stream of a span collection

  function SpanEntry(span: RawSpan, traceId: TraceId, parentId: SpanId, end: Instant, anchor: Anchor): Entry {
    match span.kind
    case SpanKind =>
      RecordEntry(SpanRecord(traceId, span.id, parentId, anchor(span.begin),
                             SaturatingSub(anchor(end), anchor(span.begin)),
                             span.name, span.OwnProperties(), []))
    case EventKind => ItemEntry(parentId, EventItem(EventRecord(span.name, anchor(span.begin), span.OwnProperties())))
    case PropertiesKind => ItemEntry(parentId, PropertiesItem(span.OwnProperties()))
  }

  /** A span without a local parent hangs below the token's parent; an unfinished span ends with its set. */
  function LocalEntry(span: RawSpan, endTime: Instant, traceId: TraceId, parentId: SpanId, anchor: Anchor): Entry {
    SpanEntry(span, traceId,
              if span.parentId == NO_ID then parentId else span.parentId,
              if span.end == ZERO then endTime else span.end, anchor)
  }

  function LocalEntries(local: LocalSpans, traceId: TraceId, parentId: SpanId, anchor: Anchor): seq<Entry> {
    seq(|local.spans|, i requires 0 <= i < |local.spans| =>
      LocalEntry(local.spans[i], local.endTime, traceId, parentId, anchor))
  }

  function Expand(c: SpanCollection, anchor: Anchor): seq<Entry> {
    match c.spans
    case Single(span) => [SpanEntry(span, c.traceId, c.parentId, span.end, anchor)]
    case Local(local) => LocalEntries(local, c.traceId, c.parentId, anchor)
    case SharedLocal(local) => LocalEntries(local, c.traceId, c.parentId, anchor)
  }

  function ExpandAll(cs: seq<SpanCollection>, anchor: Anchor): seq<Entry> {
    if cs == [] then [] else ExpandAll(Init(cs), anchor) + Expand(Last(cs), anchor)
  }

  // What a stream contributes

  function RecordsOf(entries: seq<Entry>): seq<SpanRecord> {
    if entries == [] then []
    else RecordsOf(Init(entries)) + (if Last(entries).RecordEntry? then [Last(entries).record] else [])
  }

  function ItemsFor(id: SpanId, entries: seq<Entry>): seq<DanglingItem> {
    if entries == [] then []
    else
      var last := Last(entries);
      ItemsFor(id, Init(entries)) + (if last.ItemEntry? && last.target == id then [last.item] else [])
  }

  function Waiting(danglings: Danglings, id: SpanId): seq<DanglingItem> {
    if id in danglings then danglings[id] else []
  }

  /** `danglings.entry(id).or_default().push(item)`. */
  function Push(danglings: Danglings, id: SpanId, item: DanglingItem): Danglings {
    danglings[id := Waiting(danglings, id) + [item]]
  }

  function Absorb(danglings: Danglings, entries: seq<Entry>): Danglings {
    if entries == [] then danglings
    else
      var before := Absorb(danglings, Init(entries));
      match Last(entries)
      case RecordEntry(_) => before
      case ItemEntry(target, item) => Push(before, target, item)
  }

  lemma {:induction false} RecordsOfConcat(a: seq<Entry>, b: seq<Entry>)
    ensures RecordsOf(a + b) == RecordsOf(a) + RecordsOf(b)
  {
    if b == [] {
      assert a + b == a;
    } else {
      InitOfConcat(a, b);
      RecordsOfConcat(a, Init(b));
    }
  }

  lemma {:induction false} ItemsForConcat(id: SpanId, a: seq<Entry>, b: seq<Entry>)
    ensures ItemsFor(id, a + b) == ItemsFor(id, a) + ItemsFor(id, b)
  {
    if b == [] {
      assert a + b == a;
    } else {
      InitOfConcat(a, b);
      ItemsForConcat(id, a, Init(b));
    }
  }

  lemma {:induction false} AbsorbConcat(danglings: Danglings, a: seq<Entry>, b: seq<Entry>)
    ensures Absorb(danglings, a + b) == Absorb(Absorb(danglings, a), b)
  {
    if b == [] {
      assert a + b == a;
    } else {
      InitOfConcat(a, b);
      AbsorbConcat(danglings, a, Init(b));
    }
  }

  lemma {:induction false} ExpandAllConcat(a: seq<SpanCollection>, b: seq<SpanCollection>, anchor: Anchor)
    ensures ExpandAll(a + b, anchor) == ExpandAll(a, anchor) + ExpandAll(b, anchor)
  {
    hide Expand;
    if b == [] {
      assert a + b == a;
    } else {
      InitOfConcat(a, b);
      ExpandAllConcat(a, Init(b), anchor);
    }
  }

  /** Absorbing a stream appends, for every span id, exactly the items aimed at it, in arrival order. */
  lemma {:induction false} WaitingAfterAbsorb(danglings: Danglings, entries: seq<Entry>, id: SpanId)
    ensures Waiting(Absorb(danglings, entries), id) == Waiting(danglings, id) + ItemsFor(id, entries)
  {
    if entries != [] {
      WaitingAfterAbsorb(danglings, Init(entries), id);
    }
  }

  // Mounting

  function EventsIn(items: seq<DanglingItem>): seq<EventRecord> {
    if items == [] then []
    else EventsIn(Init(items)) + (if Last(items).EventItem? then [Last(items).event] else [])
  }

  function PropertiesIn(items: seq<DanglingItem>): Properties {
    if items == [] then []
    else PropertiesIn(Init(items)) + (if Last(items).PropertiesItem? then Last(items).properties else [])
  }

  lemma {:induction false} EventsInConcat(a: seq<DanglingItem>, b: seq<DanglingItem>)
    ensures EventsIn(a + b) == EventsIn(a) + EventsIn(b)
  {
    if b == [] {
      assert a + b == a;
    } else {
      InitOfConcat(a, b);
      EventsInConcat(a, Init(b));
    }
  }

  lemma {:induction false} PropertiesInConcat(a: seq<DanglingItem>, b: seq<DanglingItem>)
    ensures PropertiesIn(a + b) == PropertiesIn(a) + PropertiesIn(b)
  {
    if b == [] {
      assert a + b == a;
    } else {
      InitOfConcat(a, b);
      PropertiesInConcat(a, Init(b));
    }
  }

  function Attach(record: SpanRecord, items: seq<DanglingItem>): SpanRecord {
    record.(events := record.events + EventsIn(items), properties := record.properties + PropertiesIn(items))
  }

  function IdsOf(records: seq<SpanRecord>): set<SpanId> {
    set r <- records :: r.spanId
  }

  /** The items that record `i` receives: all that wait for its id if it is the first record with that id. */
  function MountedOn(records: seq<SpanRecord>, danglings: Danglings, i: nat): seq<DanglingItem>
    requires i < |records|
  {
    if records[i].spanId in IdsOf(records[..i]) then [] else Waiting(danglings, records[i].spanId)
  }

  function Mount(records: seq<SpanRecord>, danglings: Danglings): seq<SpanRecord> {
    seq(|records|, i requires 0 <= i < |records| => Attach(records[i], MountedOn(records, danglings, i)))
  }

  /** What still waits after the records have been mounted. */
  function Unmounted(records: seq<SpanRecord>, danglings: Danglings): Danglings {
    danglings - IdsOf(records)
  }

  // The loops

  method AmendSpan(span: RawSpan, traceId: TraceId, parentId: SpanId, spans: seq<SpanRecord>,
                   dangling: Danglings, anchor: Anchor)
    returns (spans': seq<SpanRecord>, dangling': Danglings)
    ensures var entry := SpanEntry(span, traceId, parentId, span.end, anchor);
            spans' == spans + RecordsOf([entry]) && dangling' == Absorb(dangling, [entry])
  {
    spans', dangling' := spans, dangling;
    ghost var entry := SpanEntry(span, traceId, parentId, span.end, anchor);
    assert Init([entry]) == [] && Last([entry]) == entry;
    assert RecordsOf([entry]) == if entry.RecordEntry? then [entry.record] else [];
    match span.kind {
      case SpanKind =>
        var beginTime, endTime := anchor(span.begin), anchor(span.end);
        spans' := spans' + [SpanRecord(traceId, span.id, parentId, beginTime, SaturatingSub(endTime, beginTime),
                                       span.name, span.OwnProperties(), [])];
      case EventKind =>
        var event := EventRecord(span.name, anchor(span.begin), span.OwnProperties());
        dangling' := Push(dangling', parentId, EventItem(event));
      case PropertiesKind =>
        dangling' := Push(dangling', parentId, PropertiesItem(span.OwnProperties()));
    }
  }

  method AmendLocalSpan(localSpans: LocalSpans, traceId: TraceId, parentId: SpanId, spans: seq<SpanRecord>,
                        dangling: Danglings, anchor: Anchor)
    returns (spans': seq<SpanRecord>, dangling': Danglings)
    ensures var entries := LocalEntries(localSpans, traceId, parentId, anchor);
            spans' == spans + RecordsOf(entries) && dangling' == Absorb(dangling, entries)
  {
    spans', dangling' := spans, dangling;
    ghost var entries := LocalEntries(localSpans, traceId, parentId, anchor);
    for i := 0 to |localSpans.spans|
      invariant spans' == spans + RecordsOf(entries[..i])
      invariant dangling' == Absorb(dangling, entries[..i])
    {
      var span := localSpans.spans[i];
      assert Init(entries[..i + 1]) == entries[..i];
      assert Last(entries[..i + 1]) == LocalEntry(span, localSpans.endTime, traceId, parentId, anchor);
      var parentId := if span.parentId == NO_ID then parentId else span.parentId;
      match span.kind {
        case SpanKind =>
          var beginTime := anchor(span.begin);
          var endTime := if span.end == ZERO then anchor(localSpans.endTime) else anchor(span.end);
          spans' := spans' + [SpanRecord(traceId, span.id, parentId, beginTime, SaturatingSub(endTime, beginTime),
                                         span.name, span.OwnProperties(), [])];
        case EventKind =>
          var event := EventRecord(span.name, anchor(span.begin), span.OwnProperties());
          dangling' := Push(dangling', parentId, EventItem(event));
        case PropertiesKind =>
          dangling' := Push(dangling', parentId, PropertiesItem(span.OwnProperties()));
      }
    }
    assert entries[..|localSpans.spans|] == entries;
  }

  method AttachAll(record: SpanRecord, danglings: seq<DanglingItem>) returns (record': SpanRecord)
    ensures record' == Attach(record, danglings)
  {
    record' := record;
    for i := 0 to |danglings|
      invariant record' == Attach(record, danglings[..i])
    {
      assert Init(danglings[..i + 1]) == danglings[..i] && Last(danglings[..i + 1]) == danglings[i];
      match danglings[i] {
        case EventItem(event) => record' := record'.(events := record'.events + [event]);
        case PropertiesItem(properties) => record' := record'.(properties := record'.properties + properties);
      }
    }
    assert danglings[..|danglings|] == danglings;
  }

  /** The early return once nothing waits leaves the remaining records as they are, which is what mounting
      an empty item list would do. */
  method MountDanglings(records: seq<SpanRecord>, danglings: Danglings)
    returns (records': seq<SpanRecord>, danglings': Danglings)
    ensures records' == Mount(records, danglings)
    ensures danglings' == Unmounted(records, danglings)
  {
    records', danglings' := records, danglings;
    for i := 0 to |records|
      invariant |records'| == |records|
      invariant forall j :: 0 <= j < i ==> records'[j] == Attach(records[j], MountedOn(records, danglings, j))
      invariant forall j :: i <= j < |records| ==> records'[j] == records[j]
      invariant danglings' == Unmounted(records[..i], danglings)
    {
      if danglings' == map[] {
        NothingToMount(records, danglings, i);
        return;
      }
      var id := records[i].spanId;
      assert IdsOf(records[..i + 1]) == IdsOf(records[..i]) + {id};
      if id in danglings' {
        var items := danglings'[id];
        danglings' := danglings' - {id};
        var mounted := AttachAll(records'[i], items);
        records' := records'[i := mounted];
      } else {
        assert MountedOn(records, danglings, i) == [];
        assert Attach(records[i], []) == records[i];
      }
    }
    assert records[..|records|] == records;
  }

  lemma {:induction false} NothingToMount(records: seq<SpanRecord>, danglings: Danglings, i: nat)
    requires i <= |records| && Unmounted(records[..i], danglings) == map[]
    ensures Unmounted(records, danglings) == map[]
    ensures forall j :: i <= j < |records| ==> Attach(records[j], MountedOn(records, danglings, j)) == records[j]
  {
    var left := Unmounted(records[..i], danglings);
    assert forall id :: id in danglings && id !in IdsOf(records[..i]) ==> id in left;
    assert danglings.Keys <= IdsOf(records[..i]);
    assert IdsOf(records[..i]) <= IdsOf(records);
    forall j | i <= j < |records| ensures Attach(records[j], MountedOn(records, danglings, j)) == records[j] {
      assert IdsOf(records[..i]) <= IdsOf(records[..j]);
      assert MountedOn(records, danglings, j) == [];
    }
  }

  lemma {:induction false} NothingExpanded(danglings: Danglings)
    ensures RecordsOf([]) == [] && Absorb(danglings, []) == danglings
  {
  }

  method PostprocessSpanCollection(collections: seq<SpanCollection>, anchor: Anchor,
                                   committed: seq<SpanRecord>, danglings: Danglings)
    returns (committed': seq<SpanRecord>, danglings': Danglings)
    ensures committed' == committed + Postprocessed(collections, danglings, anchor)
    ensures danglings' == Leftover(collections, danglings, anchor)
  {
    hide LocalEntries, SpanEntry, Absorb, RecordsOf, Mount, Unmounted;
    NothingExpanded(danglings);
    var records: seq<SpanRecord> := committed;
    var waiting := danglings;
    for i := 0 to |collections|
      invariant records == committed + RecordsOf(ExpandAll(collections[..i], anchor))
      invariant waiting == Absorb(danglings, ExpandAll(collections[..i], anchor))
    {
      var c := collections[i];
      assert Init(collections[..i + 1]) == collections[..i] && Last(collections[..i + 1]) == c;
      RecordsOfConcat(ExpandAll(collections[..i], anchor), Expand(c, anchor));
      AbsorbConcat(danglings, ExpandAll(collections[..i], anchor), Expand(c, anchor));
      match c.spans {
        case Single(span) =>
          records, waiting := AmendSpan(span, c.traceId, c.parentId, records, waiting, anchor);
        case Local(local) =>
          records, waiting := AmendLocalSpan(local, c.traceId, c.parentId, records, waiting, anchor);
        case SharedLocal(local) =>
          records, waiting := AmendLocalSpan(local, c.traceId, c.parentId, records, waiting, anchor);
      }
    }
    assert collections[..|collections|] == collections;
    assert records[|committed|..] == RecordsOf(ExpandAll(collections, anchor));
    var mounted;
    mounted, danglings' := MountDanglings(records[|committed|..], waiting);
    committed' := records[..|committed|] + mounted;
  }

  /** The records that one call of the post-processing appends. */
  function Postprocessed(cs: seq<SpanCollection>, danglings: Danglings, anchor: Anchor): seq<SpanRecord> {
    var entries := ExpandAll(cs, anchor);
    Mount(RecordsOf(entries), Absorb(danglings, entries))
  }

  /** The items that keep waiting after it. */
  function Leftover(cs: seq<SpanCollection>, danglings: Danglings, anchor: Anchor): Danglings {
    var entries := ExpandAll(cs, anchor);
    Unmounted(RecordsOf(entries), Absorb(danglings, entries))
  }
}
