/** The streamer end to end: what a run over encoded messages delivers, against a reference that
    speaks of abstract messages only. */
module PgDelivery {
  import opened Wrappers
  import opened Bits
  import opened PgMessages
  import opened PgDecoder
  import opened PgStreamer
  import opened ChangeEvents
  import opened PgValues
  import PgFieldRoundTrip

  /** What a copy-out chunk holds: a message, a keepalive, a keepalive too short to carry a
      position, something of a type the decoder does not know, or nothing. Any bytes may stand behind
      a message or a position. */
  datatype Item =
    | Packet(w: WireMessage, tail: bytes)
    | Keepalive(lsn: i64, tail: bytes)
    | ShortKeepalive(body: bytes)
    | UnknownType(kind: byte, body: bytes)
    | Empty

  ghost predicate Valid(item: Item) {
    && (item.Packet? ==> WellFormed(item.w))
    && (item.ShortKeepalive? ==> |item.body| < 8)
    && (item.UnknownType? ==> item.kind !in {66, 67, 68, 73, 82, 84, 85, 107})
  }

  ghost function Chunk(item: Item): bytes
    requires Valid(item)
  {
    match item
    case Packet(w, tail) => Encode(w) + tail
    case Keepalive(lsn, tail) => [107] + (EncodeI64(lsn) + tail) // 'k'
    case ShortKeepalive(body) => [107] + body
    case UnknownType(kind, body) => [kind] + body
    case Empty => []
  }

  ghost function Chunks(items: seq<Item>): seq<bytes>
    requires forall i :: 0 <= i < |items| ==> Valid(items[i])
  {
    if items == [] then [] else [Chunk(items[0])] + Chunks(items[1..])
  }

  //////////////////////////////////////////////////////////////////////////////
  // The reference
  //////////////////////////////////////////////////////////////////////////////

  /** What a row message does to a row of the relation with that oid. */
  datatype RowChange =
    RowChange(oid: u32, op: Operation, before: Option<seq<TupleColumn>>, after: Option<seq<TupleColumn>>)

  function ChangeOf(item: Item): Option<RowChange> {
    match item
    case Packet(WireMessage(Insert(oid, t), _), _) => Some(RowChange(oid, Operation.Create, None, Some(t)))
    case Packet(WireMessage(Update(oid, was, t), _), _) => Some(RowChange(oid, Operation.Update, was, Some(t)))
    case Packet(WireMessage(Delete(oid, t), _), _) => Some(RowChange(oid, Operation.Delete, Some(t), None))
    case _ => None
  }

  /** The last of the first n columns of that name. */
  function LastNamed(columns: seq<RelationColumn>, n: nat, name: bytes): (i: int)
    requires n <= |columns|
    ensures -1 <= i < n && (i >= 0 ==> columns[i].name == name)
    ensures forall j :: i < j < n ==> columns[j].name != name
  {
    if n == 0 then -1 else if columns[n - 1].name == name then n - 1 else LastNamed(columns, n - 1, name)
  }

  /** A tuple as an object: the names of the columns it has values for, each with its last column's
      value, which is null if that column is null or unchanged. */
  function TupleObject(columns: seq<RelationColumn>, tuple: seq<TupleColumn>): Json {
    var n := if |columns| <= |tuple| then |columns| else |tuple|;
    Object(map name | name in set i | 0 <= i < n :: columns[i].name ::
      var i := LastNamed(columns, n, name);
      if tuple[i].value.Some? && !tuple[i].isNull && !tuple[i].isUnchangedToast
      then PgValue(tuple[i].value.value, columns[i].typeOid)
      else Null)
  }

  function ImageOf(columns: seq<RelationColumn>, tuple: Option<seq<TupleColumn>>): Option<Json> {
    if tuple.Some? then Some(TupleObject(columns, tuple.value)) else None
  }

  /** The event of a row change under the definition of its relation. */
  function EventFor(db: bytes, rel: RelationMessage, c: RowChange): ChangeEvent {
    ChangeEvent(
      op := c.op,
      source := SourceInfo(connector := Postgres, db := db, schema := Some(rel.schema), table := rel.name),
      before := ImageOf(rel.columns, c.before),
      after := ImageOf(rel.columns, c.after))
  }

  function ItemRelations(item: Item): seq<RelationMessage> {
    if item.Packet? && item.w.msg.Relation? then [item.w.msg.relation] else []
  }

  /** The position an item carries: that of a begin, the end of a commit, or a keepalive's. */
  function ItemLsn(item: Item): Option<i64> {
    match item
    case Packet(WireMessage(Begin(lsn, _, _), _), _) => Some(lsn)
    case Packet(WireMessage(Commit(_, _, endLsn, _), _), _) => Some(endLsn)
    case Keepalive(lsn, _) => Some(lsn)
    case _ => None
  }

  function ItemEvents(db: bytes, relations: seq<RelationMessage>, item: Item): seq<ChangeEvent> {
    match ChangeOf(item)
    case None => []
    case Some(c) =>
      match FirstRelation(relations, c.oid)
      case Some(rel) => [EventFor(db, rel, c)]
      case None => []
  }

  /** The state after a history: announcements in order, the last position carried, and for each
      row message whose relation was announced before it, its event. */
  function After(db: bytes, history: seq<Item>): StreamState
    decreases |history|
  {
    if history == [] then StreamState([], None, [])
    else
      var item, before := history[|history| - 1], After(db, history[..|history| - 1]);
      StreamState(before.relations + ItemRelations(item), Or(ItemLsn(item), before.walLsn),
                  before.sent + ItemEvents(db, before.relations, item))
  }

  //////////////////////////////////////////////////////////////////////////////
  // The run delivers the reference
  //////////////////////////////////////////////////////////////////////////////

  /** The object the streamer builds from a tuple is the one the tuple stands for. */
  lemma RowIsTupleObject(columns: seq<RelationColumn>, tuple: seq<TupleColumn>)
    ensures Row(columns, tuple) == TupleObject(columns, tuple)
  {
    var n := MinLength(columns, tuple);
    var row, expected := RowPrefix(columns, tuple, n), TupleObject(columns, tuple).fields;
    forall name
      ensures name in row <==> name in expected
      ensures name in row ==> row[name] == expected[name]
    {
      RowKeys(columns, tuple, n, name);
      var i := LastNamed(columns, n, name);
      if i >= 0 {
        RowLastWins(columns, tuple, n, i);
      }
    }
  }

  lemma ImageIsRow(columns: seq<RelationColumn>, tuple: Option<seq<TupleColumn>>)
    ensures ImageOf(columns, tuple) == if tuple.Some? then Some(Row(columns, tuple.value)) else None
  {
    hide Row, TupleObject;
    if tuple.Some? {
      RowIsTupleObject(columns, tuple.value);
    }
  }

  lemma InsertEventIs(db: bytes, rel: RelationMessage, oid: u32, t: seq<TupleColumn>)
    ensures RowEvent(db, rel, Insert(oid, t)) == EventFor(db, rel, RowChange(oid, Operation.Create, None, Some(t)))
  {
    ImageIsRow(rel.columns, Some(t));
    hide Row, TupleObject;
  }

  lemma UpdateEventIs(db: bytes, rel: RelationMessage, oid: u32, was: Option<seq<TupleColumn>>, t: seq<TupleColumn>)
    ensures RowEvent(db, rel, PgOutputMessage.Update(oid, was, t))
         == EventFor(db, rel, RowChange(oid, Operation.Update, was, Some(t)))
  {
    ImageIsRow(rel.columns, was);
    ImageIsRow(rel.columns, Some(t));
    hide Row, ImageOf;
  }

  lemma DeleteEventIs(db: bytes, rel: RelationMessage, oid: u32, t: seq<TupleColumn>)
    ensures RowEvent(db, rel, PgOutputMessage.Delete(oid, t))
         == EventFor(db, rel, RowChange(oid, Operation.Delete, Some(t), None))
  {
    ImageIsRow(rel.columns, Some(t));
    hide Row, TupleObject;
  }

  lemma RowEventIsEventFor(db: bytes, rel: RelationMessage, item: Item)
    requires ChangeOf(item).Some?
    ensures RowOid(item.w.msg) == Some(ChangeOf(item).value.oid)
    ensures RowEvent(db, rel, item.w.msg) == EventFor(db, rel, ChangeOf(item).value)
  {
    hide RowEvent, EventFor;
    match item.w.msg
    case Insert(oid, t) => InsertEventIs(db, rel, oid, t);
    case Update(oid, was, t) => UpdateEventIs(db, rel, oid, was, t);
    case Delete(oid, t) => DeleteEventIs(db, rel, oid, t);
  }

  /** The streamer sends the events the reference prescribes, and remembers its position. */
  lemma MessageDelivers(db: bytes, relations: seq<RelationMessage>, item: Item)
    requires item.Packet?
    ensures Events(db, relations, item.w.msg) == ItemEvents(db, relations, item)
    ensures MessageLsn(item.w.msg) == ItemLsn(item)
  {
    hide RowEvent, EventFor, FirstRelation;
    if ChangeOf(item).Some? {
      var found := FirstRelation(relations, ChangeOf(item).value.oid);
      if found.Some? {
        RowEventIsEventFor(db, found.value, item);
      } else {
        assert RowOid(item.w.msg) == Some(ChangeOf(item).value.oid);
      }
    }
  }

  /** One encoded item takes the reference state of a history to that of the longer history. */
  lemma StepDelivers(db: bytes, history: seq<Item>, item: Item)
    requires Valid(item)
    ensures Step(db, After(db, history), Chunk(item)) == (After(db, history + [item]), Running)
  {
    assert (history + [item])[..|history|] == history;
    var s := After(db, history);
    assert s.relations + [] == s.relations && s.sent + [] == s.sent;
    match item
    case Packet(w, tail) =>
      AtPrefix(Encode(w), tail);
      DecodingOfEncoding(Chunk(item), w);
      MessageDelivers(db, s.relations, item);
      assert Chunk(item)[0] == Encode(w)[0] == TypeByte(w.msg);
    case Keepalive(lsn, tail) =>
      AtPrefix(Chunk(item), []);
      assert Chunk(item) + [] == Chunk(item);
      AtConcat(Chunk(item), 0, [107], EncodeI64(lsn) + tail);
      AtConcat(Chunk(item), 1, EncodeI64(lsn), tail);
      PgFieldRoundTrip.I64Complete(Chunk(item), 1, lsn);
    case _ =>
  }

  /** A run over items goes on behind them in the reference state of the longer history. */
  lemma {:induction false} RunThrough(db: bytes, history: seq<Item>, items: seq<Item>, tail: seq<bytes>)
    requires forall i :: 0 <= i < |items| ==> Valid(items[i])
    ensures Run(db, After(db, history), Chunks(items) + tail) == Run(db, After(db, history + items), tail)
    decreases |items|
  {
    hide Step, Chunk, After, Valid;
    if items == [] {
      assert history + items == history && Chunks(items) + tail == tail;
    } else {
      StepDelivers(db, history, items[0]);
      RunThrough(db, history + [items[0]], items[1..], tail);
      assert history + [items[0]] + items[1..] == history + items;
      var chunks, rest := Chunks(items) + tail, Chunks(items[1..]) + tail;
      assert chunks == [Chunk(items[0])] + rest;
      hide Chunks;
      assert chunks[0] == Chunk(items[0]) && chunks[1..] == rest;
    }
  }

  lemma RunFromStart(db: bytes, items: seq<Item>, tail: seq<bytes>)
    requires forall i :: 0 <= i < |items| ==> Valid(items[i])
    ensures Run(db, StreamState([], None, []), Chunks(items) + tail) == Run(db, After(db, items), tail)
  {
    assert After(db, []) == StreamState([], None, []);
    hide *;
    RunThrough(db, [], items, tail);
    assert [] + items == items;
  }

  /** Every sequence of well-formed messages, in any order, is streamed without error into the
      state the reference prescribes. */
  lemma StreamDelivers(db: bytes, items: seq<Item>)
    requires forall i :: 0 <= i < |items| ==> Valid(items[i])
    ensures Run(db, StreamState([], None, []), Chunks(items)) == (After(db, items), Running)
  {
    RunFromStart(db, items, []);
    assert Chunks(items) + [] == Chunks(items);
    hide After, Chunks, Step, Valid;
  }

  /** A chunk that cannot be decoded ends the run, with its error or a panic, once the chunks before
      it are delivered, whatever stands behind it. */
  lemma FaultEndsRun(db: bytes, items: seq<Item>, chunk: bytes, rest: seq<bytes>)
    requires forall i :: 0 <= i < |items| ==> Valid(items[i])
    requires chunk != [] && chunk[0] != 107 && (Decoding(chunk).Failed? || Decoding(chunk).Panicked?)
    ensures Run(db, StreamState([], None, []), Chunks(items) + ([chunk] + rest))
         == (After(db, items), if Decoding(chunk).Failed? then DecodeFailed(Decoding(chunk).error) else Crashed)
  {
    RunFromStart(db, items, [chunk] + rest);
    hide After, Chunks, Valid, Decoding, Events;
    assert ([chunk] + rest)[0] == chunk;
  }

  //////////////////////////////////////////////////////////////////////////////
  // First against latest announcement
  //////////////////////////////////////////////////////////////////////////////

  /** The definition section 55.5.3 of the PostgreSQL 16 documentation calls for: the latest. */
  function LatestRelation(rs: seq<RelationMessage>, oid: u32): Option<RelationMessage>
    decreases |rs|
  {
    if rs == [] then None
    else if rs[|rs| - 1].oid == oid then Some(rs[|rs| - 1])
    else LatestRelation(rs[..|rs| - 1], oid)
  }

  ghost predicate NeverRedefined(rs: seq<RelationMessage>) {
    forall i, j :: 0 <= i < j < |rs| && rs[i].oid == rs[j].oid ==> rs[i] == rs[j]
  }

  /** The cache returns the announcement with the least index. */
  lemma {:induction false} FirstIsFirst(rs: seq<RelationMessage>, oid: u32) returns (k: nat)
    ensures k <= |rs| && forall i :: 0 <= i < k ==> rs[i].oid != oid
    ensures FirstRelation(rs, oid) == if k < |rs| then Some(rs[k]) else None
    ensures k < |rs| ==> rs[k].oid == oid
    decreases |rs|
  {
    if rs == [] || rs[0].oid == oid {
      k := 0;
    } else {
      k := FirstIsFirst(rs[1..], oid);
      k := k + 1;
      assert forall i :: 0 < i < k ==> rs[i] == rs[1..][i - 1];
    }
  }

  lemma {:induction false} LatestIsLast(rs: seq<RelationMessage>, oid: u32) returns (k: int)
    ensures -1 <= k < |rs| && forall i :: k < i < |rs| ==> rs[i].oid != oid
    ensures LatestRelation(rs, oid) == if k >= 0 then Some(rs[k]) else None
    ensures k >= 0 ==> rs[k].oid == oid
    decreases |rs|
  {
    if rs == [] {
      k := -1;
    } else if rs[|rs| - 1].oid == oid {
      k := |rs| - 1;
    } else {
      k := LatestIsLast(rs[..|rs| - 1], oid);
      assert forall i :: 0 <= i < |rs| - 1 ==> rs[i] == rs[..|rs| - 1][i];
    }
  }

  lemma LookupsAgree(rs: seq<RelationMessage>, n: nat, oid: u32)
    requires n <= |rs| && NeverRedefined(rs)
    ensures FirstRelation(rs[..n], oid) == LatestRelation(rs[..n], oid)
  {
    var k := FirstIsFirst(rs[..n], oid);
    var l := LatestIsLast(rs[..n], oid);
    if k < n {
      assert k <= l && rs[..n][k] == rs[k] && rs[..n][l] == rs[l];
    }
  }

  ghost predicate LookupsAlwaysAgree(rs: seq<RelationMessage>) {
    forall n: nat, oid: u32 :: n <= |rs| ==> FirstRelation(rs[..n], oid) == LatestRelation(rs[..n], oid)
  }

  /** The cache answers with the latest definition at every point of a history exactly when no
      announcement differs from an earlier one of the same oid. */
  lemma CacheIsLatestIffNeverRedefined(rs: seq<RelationMessage>)
    ensures LookupsAlwaysAgree(rs) <==> NeverRedefined(rs)
  {
    if NeverRedefined(rs) {
      forall n: nat, oid: u32 | n <= |rs|
        ensures FirstRelation(rs[..n], oid) == LatestRelation(rs[..n], oid)
      {
        LookupsAgree(rs, n, oid);
      }
    }
    if LookupsAlwaysAgree(rs) {
      NotRedefinedIfLookupsAgree(rs);
    }
  }

  lemma NotRedefinedIfLookupsAgree(rs: seq<RelationMessage>)
    requires LookupsAlwaysAgree(rs)
    ensures NeverRedefined(rs)
  {
    forall i, j | 0 <= i < j < |rs| && rs[i].oid == rs[j].oid
      ensures rs[i] == rs[j]
    {
      SameAsFirst(rs, i);
      SameAsFirst(rs, j);
      assert FirstRelation(rs[..i + 1], rs[i].oid) == Some(rs[i]);
      assert FirstRelation(rs[..j + 1], rs[j].oid) == Some(rs[j]);
      var k := FirstIsFirst(rs[..i + 1], rs[i].oid);
      var l := FirstIsFirst(rs[..j + 1], rs[i].oid);
      assert rs[..i + 1][i] == rs[i] && rs[..j + 1][i] == rs[i];
      assert rs[..i + 1][k] == rs[k] && rs[..j + 1][l] == rs[l];
      assert k == l;
    }
  }

  /** Just behind an announcement, the latest definition of its oid is that announcement. */
  lemma SameAsFirst(rs: seq<RelationMessage>, i: nat)
    requires i < |rs|
    ensures LatestRelation(rs[..i + 1], rs[i].oid) == Some(rs[i])
  {
    assert rs[..i + 1][i] == rs[i];
  }

  //////////////////////////////////////////////////////////////////////////////
  // One event per row message
  //////////////////////////////////////////////////////////////////////////////

  function Relations(items: seq<Item>): seq<RelationMessage>
    decreases |items|
  {
    if items == [] then []
    else Relations(items[..|items| - 1]) + ItemRelations(items[|items| - 1])
  }

  predicate IsRow(item: Item) { ChangeOf(item).Some? }

  ghost predicate IsAnnounced(rs: seq<RelationMessage>, oid: u32) {
    exists r :: r in rs && r.oid == oid
  }

  /** Each row message finds its relation among the announcements before it. */
  ghost predicate AnnouncedFirst(items: seq<Item>) {
    forall i :: 0 <= i < |items| && IsRow(items[i]) ==> IsAnnounced(Relations(items[..i]), ChangeOf(items[i]).value.oid)
  }

  /** The row messages in order, each with the latest definition of its relation. */
  function RowEvents(db: bytes, items: seq<Item>): seq<ChangeEvent>
    decreases |items|
  {
    if items == [] then []
    else
      var n := |items| - 1;
      var before := RowEvents(db, items[..n]);
      match ChangeOf(items[n])
      case None => before
      case Some(c) =>
        match LatestRelation(Relations(items[..n]), c.oid)
        case Some(rel) => before + [EventFor(db, rel, c)]
        case None => before
  }

  function RowCount(items: seq<Item>): nat
    decreases |items|
  {
    if items == [] then 0
    else RowCount(items[..|items| - 1]) + if IsRow(items[|items| - 1]) then 1 else 0
  }

  lemma {:induction false} AfterRelations(db: bytes, items: seq<Item>)
    ensures After(db, items).relations == Relations(items)
    decreases |items|
  {
    if items != [] {
      AfterRelations(db, items[..|items| - 1]);
    }
  }

  lemma {:induction false} RelationsOfPrefix(items: seq<Item>, n: nat)
    requires n <= |items|
    ensures Relations(items[..n]) <= Relations(items)
    decreases |items|
  {
    if n < |items| {
      RelationsOfPrefix(items[..|items| - 1], n);
      assert items[..|items| - 1][..n] == items[..n];
    } else {
      assert items[..n] == items;
    }
  }

  lemma PrefixKeepsOrder(items: seq<Item>, n: nat)
    requires n <= |items| && AnnouncedFirst(items) && NeverRedefined(Relations(items))
    ensures AnnouncedFirst(items[..n]) && NeverRedefined(Relations(items[..n]))
  {
    RelationsOfPrefix(items, n);
    PrefixNeverRedefined(Relations(items), |Relations(items[..n])|);
    hide Relations, NeverRedefined, IsAnnounced, ChangeOf;
    assert forall i :: 0 <= i < n ==> items[..n][..i] == items[..i] && items[..n][i] == items[i];
  }

  lemma PrefixNeverRedefined(rs: seq<RelationMessage>, n: nat)
    requires n <= |rs| && NeverRedefined(rs)
    ensures NeverRedefined(rs[..n])
  {
  }

  lemma AnnouncedIsFound(rs: seq<RelationMessage>, oid: u32)
    requires NeverRedefined(rs) && IsAnnounced(rs, oid)
    ensures FirstRelation(rs, oid) == LatestRelation(rs, oid) && LatestRelation(rs, oid).Some?
  {
    LookupsAgree(rs, |rs|, oid);
    assert rs[..|rs|] == rs;
    var k := FirstIsFirst(rs, oid);
  }

  lemma {:induction false} EventsPerRow(db: bytes, items: seq<Item>)
    requires AnnouncedFirst(items) && NeverRedefined(Relations(items))
    ensures After(db, items).sent == RowEvents(db, items)
    ensures |RowEvents(db, items)| == RowCount(items)
    decreases |items|
  {
    if items != [] {
      var n := |items| - 1;
      var init, rs := items[..n], Relations(items[..n]);
      PrefixKeepsOrder(items, n);
      EventsPerRow(db, init);
      AfterRelations(db, init);
      if IsRow(items[n]) {
        AnnouncedIsFound(rs, ChangeOf(items[n]).value.oid);
      }
      hide AnnouncedFirst, NeverRedefined, Relations, LatestRelation, FirstRelation;
    }
  }

  /** When every relation is announced before its rows and never redefined, the streamer emits
      exactly one event per insert, update or delete, in order, each under the latest definition
      of its relation, and nothing else; it ends at the last position carried. */
  lemma OneEventPerRow(db: bytes, items: seq<Item>)
    requires forall i :: 0 <= i < |items| ==> Valid(items[i])
    requires AnnouncedFirst(items) && NeverRedefined(Relations(items))
    ensures var (s, status) := Run(db, StreamState([], None, []), Chunks(items));
            && status.Running?
            && s.sent == RowEvents(db, items)
            && |s.sent| == RowCount(items)
            && s.walLsn == After(db, items).walLsn
  {
    StreamDelivers(db, items);
    EventsPerRow(db, items);
  }

  ghost function Announcing(r: RelationMessage): Item {
    Packet(WireMessage(Relation(r), ReplicaIdentity(100)), [])
  }

  /** A redefined relation is served stale: over the bytes of two announcements of one oid and a
      row, the event sent is that of the first announcement, and not that of the second when, say,
      the one column was renamed. */
  lemma RedefinitionIsStale(db: bytes, before: RelationMessage, after: RelationMessage, t: seq<TupleColumn>)
    requires WellFormedRelation(before) && WellFormedRelation(after) && before.oid == after.oid && WellFormedTuple(t)
    ensures var row := RowChange(before.oid, Operation.Create, None, Some(t));
            var items := [Announcing(before), Announcing(after), Inserting(before.oid, t)];
            && (forall i :: 0 <= i < |items| ==> Valid(items[i]))
            && Run(db, StreamState([], None, []), Chunks(items)).0.sent == [EventFor(db, before, row)]
            && (|before.columns| == |after.columns| == |t| == 1 && before.columns[0].name != after.columns[0].name
                ==> EventFor(db, before, row) != EventFor(db, after, row))
  {
    if |before.columns| == |after.columns| == |t| == 1 && before.columns[0].name != after.columns[0].name {
      ObjectsDiffer(before.columns, after.columns, t);
    }
    var a, b, c := Announcing(before), Announcing(after), Inserting(before.oid, t);
    var items := [a, b, c];
    assert Valid(a) && Valid(b) && Valid(c);
    assert forall i :: 0 <= i < |items| ==> items[i] in {a, b, c};
    hide Run, Chunks, Valid, WellFormedTuple, WellFormedRelation, TupleObject, After;
    StreamDelivers(db, items);
    AfterTwoAnnouncements(db, before, after, c);
  }

  ghost function Inserting(oid: u32, t: seq<TupleColumn>): Item {
    Packet(WireMessage(Insert(oid, t), Nothing), [])
  }

  lemma AfterTwoAnnouncements(db: bytes, before: RelationMessage, after: RelationMessage, c: Item)
    ensures After(db, [Announcing(before), Announcing(after), c]).sent == ItemEvents(db, [before, after], c)
  {
    var a, b := Announcing(before), Announcing(after);
    hide After;
    AfterNext(db, [], a);
    AfterNext(db, [a], b);
    AfterNext(db, [a, b], c);
    assert [] + [a] == [a] && [a] + [b] == [a, b] && [a, b] + [c] == [a, b, c];
    assert After(db, []) == StreamState([], None, []) by { AfterNothing(db); }
    assert [] + [before] + [after] == [before, after];
  }

  lemma AfterNothing(db: bytes)
    ensures After(db, []) == StreamState([], None, [])
  {
  }

  lemma AfterNext(db: bytes, history: seq<Item>, item: Item)
    ensures var before, after := After(db, history), After(db, history + [item]);
            && after.relations == before.relations + ItemRelations(item)
            && after.sent == before.sent + ItemEvents(db, before.relations, item)
  {
    assert (history + [item])[..|history|] == history;
  }

  lemma ObjectsDiffer(a: seq<RelationColumn>, b: seq<RelationColumn>, tuple: seq<TupleColumn>)
    requires |a| == |b| == |tuple| == 1 && a[0].name != b[0].name
    ensures TupleObject(a, tuple) != TupleObject(b, tuple)
  {
    assert a[0].name in TupleObject(a, tuple).fields;
    assert a[0].name !in TupleObject(b, tuple).fields;
  }

  /** The position after a history is the one carried by its last begin, commit or full
      keepalive. */
  lemma {:induction false} LastPositionWins(db: bytes, items: seq<Item>, k: nat)
    requires k < |items| && ItemLsn(items[k]).Some?
    requires forall i :: k < i < |items| ==> ItemLsn(items[i]).None?
    ensures After(db, items).walLsn == ItemLsn(items[k])
    decreases |items|
  {
    if k < |items| - 1 {
      LastPositionWins(db, items[..|items| - 1], k);
    }
  }
}
