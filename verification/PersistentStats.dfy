/** Persistent stats (psiphon/dataStore.go): records wait unreported, are taken out in batches for a
    request, and are put back if the request fails or cleared if it succeeds. */
module PersistentStats {
  import opened Bytes
  import opened Lists
  import opened StatBatches

  datatype State = Unreported | Reporting

  type Stats = map<Stat, State>

  predicate Valid(json: bytes -> bool, s: Stat) {
    json(s.data)
  }

  predicate Waiting(json: bytes -> bool, stats: Stats, s: Stat) {
    s in stats && stats[s].Unreported? && json(s.data)
  }

  // ---------------------------------------------------------------- operations on the records

  function CountOf(stats: Stats, kind: nat): nat {
    |set s | s in stats && s.kind == kind|
  }

  /** StorePersistentStat: discarded when the stat type has its maximum of records. */
  function Stored(stats: Stats, s: Stat, maxRecords: int): Stats {
    if CountOf(stats, s.kind) >= maxRecords then stats else stats[s := Unreported]
  }

  /** TakeOutUnreportedPersistentStats, for the batch it takes and the invalid records it drops. */
  function TakenOut(stats: Stats, batch: seq<Stat>, dropped: set<Stat>): Stats {
    map s | s in stats && s !in dropped :: if s in batch then Reporting else stats[s]
  }

  ghost predicate CanTake(json: bytes -> bool, stats: Stats, batch: seq<Stat>, dropped: set<Stat>) {
    && NoDuplicates(batch) && (forall s :: s in batch ==> Waiting(json, stats, s))
    && (forall s :: s in dropped ==> !Valid(json, s))
  }

  /** PutBackUnreportedPersistentStats */
  function PutBack(stats: Stats, batch: seq<Stat>): Stats {
    map s | s in stats.Keys + (set b | b in batch) :: if s in batch then Unreported else stats[s]
  }

  /** ClearReportedPersistentStats */
  function Cleared(stats: Stats, batch: seq<Stat>): Stats {
    map s | s in stats && s !in batch :: stats[s]
  }

  /** resetAllPersistentStatsToUnreported */
  function AllUnreported(stats: Stats): Stats {
    map s | s in stats :: Unreported
  }

  /** Take-out followed by put-back restores the records, but for invalid ones it dropped. */
  lemma TakeOutPutBack(json: bytes -> bool, stats: Stats, batch: seq<Stat>, dropped: set<Stat>)
    requires CanTake(json, stats, batch, dropped)
    ensures PutBack(TakenOut(stats, batch, dropped), batch) == stats - dropped
    ensures forall s :: Valid(json, s) ==>
      (s in stats <==> s in PutBack(TakenOut(stats, batch, dropped), batch))
  {
  }

  // ---------------------------------------------------------------- what a take-out takes

  /** The cursor of the records of one stat type. */
  ghost predicate IsCursorOf(cursor: seq<Stat>, stats: Stats, kind: nat) {
    NoDuplicates(cursor) && forall s :: s in cursor <==> s in stats && s.kind == kind
  }

  /** The waiting ones of the first n records. */
  function WaitingUpTo(json: bytes -> bool, stats: Stats, s: seq<Stat>, n: nat): (r: seq<Stat>)
    requires n <= |s|
    ensures forall x :: x in r ==> x in s && Waiting(json, stats, x)
    ensures forall i :: 0 <= i < n && Waiting(json, stats, s[i]) ==> s[i] in r
  {
    if n == 0 then [] else
    WaitingUpTo(json, stats, s, n - 1) + if Waiting(json, stats, s[n - 1]) then [s[n - 1]] else []
  }

  function WaitingOf(json: bytes -> bool, stats: Stats, s: seq<Stat>): seq<Stat> {
    WaitingUpTo(json, stats, s, |s|)
  }

  lemma {:induction false} WaitingNoDuplicates(json: bytes -> bool, stats: Stats, s: seq<Stat>, n: nat)
    requires n <= |s| && NoDuplicates(s)
    ensures NoDuplicates(WaitingUpTo(json, stats, s, n))
    ensures forall i :: n <= i < |s| ==> s[i] !in WaitingUpTo(json, stats, s, n)
  {
    if n > 0 {
      WaitingNoDuplicates(json, stats, s, n - 1);
    }
  }

  lemma {:induction false} WaitingPrefix(json: bytes -> bool, stats: Stats, s: seq<Stat>, m: nat, n: nat)
    requires m <= n <= |s|
    ensures WaitingUpTo(json, stats, s, m) <= WaitingUpTo(json, stats, s, n)
  {
    if m < n {
      WaitingPrefix(json, stats, s, m, n - 1);
    }
  }

  lemma {:induction false} WaitingSame(json: bytes -> bool, stats: Stats, stats': Stats, s: seq<Stat>, n: nat)
    requires n <= |s|
    requires forall i :: 0 <= i < |s| ==> (Waiting(json, stats, s[i]) <==> Waiting(json, stats', s[i]))
    ensures WaitingUpTo(json, stats, s, n) == WaitingUpTo(json, stats', s, n)
  {
    if n > 0 {
      WaitingSame(json, stats, stats', s, n - 1);
    }
  }

  /** The invalid ones of the first n records. */
  function InvalidUpTo(json: bytes -> bool, s: seq<Stat>, n: nat): (r: set<Stat>)
    requires n <= |s|
    ensures forall x :: x in r ==> x in s && !Valid(json, x)
    ensures forall i :: 0 <= i < n && !Valid(json, s[i]) ==> s[i] in r
  {
    if n == 0 then {} else
    InvalidUpTo(json, s, n - 1) + if Valid(json, s[n - 1]) then {} else {s[n - 1]}
  }

  /** The waiting records of every stat type. */
  function WaitingRecords(json: bytes -> bool, stats: Stats, cursors: seq<seq<Stat>>): seq<seq<Stat>> {
    seq(|cursors|, t requires 0 <= t < |cursors| => WaitingOf(json, stats, cursors[t]))
  }

  /** The place in a cursor after which the room is used up, or its end. */
  ghost predicate Stops(json: bytes -> bool, stats: Stats, cursor: seq<Stat>, n: nat, room: int) {
    n <= |cursor| &&
    var taken := WaitingUpTo(json, stats, cursor, n);
    if taken == [] || Total(taken) < room then n == |cursor|
    else n > 0 && Waiting(json, stats, cursor[n - 1]) &&
         var front := WaitingUpTo(json, stats, cursor, n - 1);
         front == [] || Total(front) < room
  }

  /** Stopping after the record that uses up the room. */
  lemma StopsAtRecord(all: seq<Stat>, taken: seq<Stat>, room: int)
    requires taken != [] && taken <= all && Total(taken) >= room
    requires |taken| == 1 || Total(taken[..|taken| - 1]) < room
    ensures Cut(all, room) == taken
  {
    SameRecords(all, taken, |taken|);
    SameRecords(all, taken[..|taken| - 1], |taken| - 1);
    TakenUnique(all, |taken|, room);
  }

  /** Stopping at the end. */
  lemma StopsAtEnd(all: seq<Stat>, room: int)
    requires all == [] || Total(all) < room
    ensures Cut(all, room) == all
  {
    if all != [] {
      SumGrows(all, |all| - 1, |all|);
    }
    TakenUnique(all, |all|, room);
  }

  lemma StopsCut(json: bytes -> bool, stats: Stats, cursor: seq<Stat>, n: nat, room: int)
    requires Stops(json, stats, cursor, n, room)
    ensures Cut(WaitingOf(json, stats, cursor), room) == WaitingUpTo(json, stats, cursor, n)
  {
    var taken := WaitingUpTo(json, stats, cursor, n);
    if taken == [] || Total(taken) < room {
      StopsAtEnd(taken, room);
    } else {
      WaitingPrefix(json, stats, cursor, n, |cursor|);
      assert taken[..|taken| - 1] == WaitingUpTo(json, stats, cursor, n - 1);
      StopsAtRecord(WaitingOf(json, stats, cursor), taken, room);
    }
  }

  /** Takes records of one stat type until the byte limit is reached, and at least one if there is
      any: the waiting ones of the first n. */
  method TakeFrom(json: bytes -> bool, stats: Stats, kind: nat, cursor: seq<Stat>, sendBytes: nat, maxSendBytes: int)
    returns (taken: seq<Stat>, dropped: set<Stat>, total: nat, ghost n: nat)
    requires IsCursorOf(cursor, stats, kind)
    ensures Stops(json, stats, cursor, n, maxSendBytes - sendBytes)
    ensures taken == WaitingUpTo(json, stats, cursor, n) && total == sendBytes + Total(taken)
    ensures dropped == InvalidUpTo(json, cursor, n)
  {
    taken, dropped, total, n := [], {}, sendBytes, 0;
    for i := 0 to |cursor|
      invariant n == i && taken == WaitingUpTo(json, stats, cursor, i)
      invariant total == sendBytes + Total(taken) && (taken == [] || total < maxSendBytes)
      invariant dropped == InvalidUpTo(json, cursor, i)
    {
      var s := cursor[i];
      assert s in cursor;
      n := i + 1;
      if !json(s.data) {
        dropped := dropped + {s};
        continue;
      }
      if stats[s].Unreported? {
        OneMore(taken, s);
        taken := taken + [s];
        total := total + Size(s);
        if total >= maxSendBytes {
          return;
        }
      }
    }
  }

  /** What is taken of one stat type: waiting records, at least one if there is any, and all unless
      they use up the room. */
  ghost predicate TakenOfKind(json: bytes -> bool, stats: Stats, cursor: seq<Stat>, taken: seq<Stat>, room: int) {
    && NoDuplicates(taken)
    && (forall s :: s in taken ==> s in cursor && Waiting(json, stats, s))
    && (taken == [] ==> forall s :: s in cursor ==> !Waiting(json, stats, s))
    && (Total(taken) < room ==> forall s :: s in cursor && Waiting(json, stats, s) ==> s in taken)
  }

  lemma TakenFacts(json: bytes -> bool, stats: Stats, cursor: seq<Stat>, room: int)
    requires NoDuplicates(cursor)
    ensures TakenOfKind(json, stats, cursor, Cut(WaitingOf(json, stats, cursor), room), room)
  {
    CutFacts(WaitingOf(json, stats, cursor), room);
    WaitingNoDuplicates(json, stats, cursor, |cursor|);
  }

  predicate AnyWaiting(json: bytes -> bool, stats: Stats, cursor: seq<Stat>) {
    exists s :: s in cursor && Waiting(json, stats, s)
  }

  predicate AnyOfKind(batch: seq<Stat>, kind: nat) {
    exists s :: s in batch && s.kind == kind
  }

  lemma KindsJoined(a: seq<Stat>, b: seq<Stat>)
    ensures forall kind :: AnyOfKind(a + b, kind) <==> AnyOfKind(a, kind) || AnyOfKind(b, kind)
  {
    assert forall s :: s in a + b <==> s in a || s in b;
  }

  /** Two take-outs in a row are one. */
  lemma TakenOutTwice(stats: Stats, batch: seq<Stat>, dropped: set<Stat>, batch': seq<Stat>, dropped': set<Stat>)
    ensures TakenOut(TakenOut(stats, batch, dropped), batch', dropped')
         == TakenOut(stats, batch + batch', dropped + dropped')
  {
  }

  /** A take-out of other stat types leaves the cursor and the waiting records of this one. */
  lemma OtherKinds(json: bytes -> bool, stats: Stats, batch: seq<Stat>, dropped: set<Stat>,
                   cursor: seq<Stat>, kind: nat)
    requires IsCursorOf(cursor, stats, kind) && forall s :: s in batch || s in dropped ==> s.kind < kind
    ensures IsCursorOf(cursor, TakenOut(stats, batch, dropped), kind)
    ensures forall s: Stat :: s.kind >= kind ==>
      (Waiting(json, TakenOut(stats, batch, dropped), s) <==> Waiting(json, stats, s))
  {
  }

  /** The bound on the bytes taken, with one more stat type. */
  lemma BoundMore(total: nat, limit: int, kind: nat, longest: nat, total': nat, longest': nat, more: nat)
    requires total <= Max(limit - 1, 0) + kind * longest
    requires total' <= Max(total, limit - 1) + more && longest <= longest' && more <= longest'
    ensures total' <= Max(limit - 1, 0) + (kind + 1) * longest'
  {
    assert kind * longest <= kind * longest';
    assert (kind + 1) * longest' == kind * longest' + longest';
    assert kind * longest' >= 0;
  }

  /** What a take-out has done after the first t stat types. */
  ghost predicate Taking(json: bytes -> bool, before: Stats, cursors: seq<seq<Stat>>, t: nat,
                         batch: seq<Stat>, dropped: set<Stat>, limit: int)
    requires t <= |cursors|
  {
    && CanTake(json, before, batch, dropped)
    && (forall s :: s in batch || s in dropped ==> s.kind < t)
    && (forall u :: 0 <= u < t && AnyWaiting(json, before, cursors[u]) ==> AnyOfKind(batch, u))
    && (Total(batch) < limit ==> forall s: Stat :: s.kind < t && Waiting(json, before, s) ==> s in batch)
    && (Total(batch) < limit ==> forall s :: s in before && s.kind < t && !Valid(json, s) ==> s in dropped)
  }

  lemma CanTakeMore(json: bytes -> bool, stats: Stats, batch: seq<Stat>, dropped: set<Stat>,
                    taken: seq<Stat>, gone: set<Stat>, kind: nat)
    requires CanTake(json, stats, batch, dropped) && CanTake(json, stats, taken, gone)
    requires (forall s :: s in batch || s in dropped ==> s.kind < kind) && (forall s :: s in taken ==> s.kind == kind)
    ensures CanTake(json, stats, batch + taken, dropped + gone)
  {
    JoinNoDuplicates(batch, taken);
  }

  lemma TakingNext(json: bytes -> bool, before: Stats, cursors: seq<seq<Stat>>, t: nat, batch: seq<Stat>,
                   dropped: set<Stat>, taken: seq<Stat>, gone: set<Stat>, limit: int)
    requires t < |cursors| && IsCursorOf(cursors[t], before, t)
    requires Taking(json, before, cursors, t, batch, dropped, limit)
    requires TakenOfKind(json, before, cursors[t], taken, limit - Total(batch))
    requires Total(batch + taken) == Total(batch) + Total(taken)
    requires forall s :: s in gone ==> s in cursors[t] && !Valid(json, s)
    requires Total(taken) < limit - Total(batch) ==> forall s :: s in cursors[t] && !Valid(json, s) ==> s in gone
    ensures Taking(json, before, cursors, t + 1, batch + taken, dropped + gone, limit)
  {
    CanTakeMore(json, before, batch, dropped, taken, gone, t);
    KindsJoined(batch, taken);
    if taken != [] {
      assert taken[0] in taken;
    }
  }

  /** The bytes counted after the first t stat types. */
  lemma CountedNext(batch: seq<Stat>, waiting: seq<Stat>, t: nat, limit: int)
    requires Total(batch) <= Max(limit - 1, 0) + t * Longest(batch)
    ensures var taken := Cut(waiting, limit - Total(batch));
      && Total(batch + taken) == Total(batch) + Total(taken)
      && Total(batch + taken) <= Max(limit - 1, 0) + (t + 1) * Longest(batch + taken)
  {
    var taken := Cut(waiting, limit - Total(batch));
    Joined(batch, taken);
    CutFacts(waiting, limit - Total(batch));
    BoundMore(Total(batch), limit, t, Longest(batch), Total(batch + taken), Longest(batch + taken), Longest(taken));
  }

  /** No JSON value is empty, so that no waiting record is. */
  lemma WaitingNonEmpty(json: bytes -> bool, stats: Stats, s: seq<Stat>)
    requires !json([])
    ensures NonEmpty(WaitingOf(json, stats, s))
  {
    var waiting := WaitingOf(json, stats, s);
    assert forall i :: 0 <= i < |waiting| ==> waiting[i] in waiting;
  }

  ghost predicate Progress(json: bytes -> bool, before: Stats, cursors: seq<seq<Stat>>, t: nat,
                           batch: seq<Stat>, dropped: set<Stat>, limit: int)
    requires t <= |cursors|
  {
    && Taking(json, before, cursors, t, batch, dropped, limit)
    && batch == Batch(WaitingRecords(json, before, cursors), t, limit)
    && Total(batch) <= Max(limit - 1, 0) + t * Longest(batch)
  }

  /** What is taken of a stat type does not depend on those before it, but for the room they leave. */
  lemma TurnTakes(json: bytes -> bool, before: Stats, batch: seq<Stat>, dropped: set<Stat>,
                  cursor: seq<Stat>, t: nat, n: nat, room: int)
    requires IsCursorOf(cursor, before, t) && forall s :: s in batch || s in dropped ==> s.kind < t
    requires Stops(json, TakenOut(before, batch, dropped), cursor, n, room)
    ensures WaitingUpTo(json, TakenOut(before, batch, dropped), cursor, n) == Cut(WaitingOf(json, before, cursor), room)
  {
    var stats := TakenOut(before, batch, dropped);
    OtherKinds(json, before, batch, dropped, cursor, t);
    StopsCut(json, stats, cursor, n, room);
    WaitingSame(json, before, stats, cursor, |cursor|);
  }

  /** One more stat type: what a turn of the take-out's loop keeps. */
  lemma TakeTurn(json: bytes -> bool, before: Stats, cursors: seq<seq<Stat>>, t: nat,
                 batch: seq<Stat>, dropped: set<Stat>, n: nat, gone: set<Stat>, limit: int)
    requires t < |cursors| && IsCursorOf(cursors[t], before, t)
    requires Progress(json, before, cursors, t, batch, dropped, limit)
    requires Stops(json, TakenOut(before, batch, dropped), cursors[t], n, limit - Total(batch))
    requires gone == InvalidUpTo(json, cursors[t], n)
    ensures var taken := WaitingUpTo(json, TakenOut(before, batch, dropped), cursors[t], n);
      && Progress(json, before, cursors, t + 1, batch + taken, dropped + gone, limit)
      && Total(batch + taken) == Total(batch) + Total(taken)
      && TakenOut(TakenOut(before, batch, dropped), taken, gone) == TakenOut(before, batch + taken, dropped + gone)
  {
    var taken := WaitingUpTo(json, TakenOut(before, batch, dropped), cursors[t], n);
    TurnTakes(json, before, batch, dropped, cursors[t], t, n, limit - Total(batch));
    TakenFacts(json, before, cursors[t], limit - Total(batch));
    CountedNext(batch, WaitingOf(json, before, cursors[t]), t, limit);
    TakingNext(json, before, cursors, t, batch, dropped, taken, gone, limit);
    TakenOutTwice(before, batch, dropped, taken, gone);
  }

  /** The transaction of a take-out: one stat type after the other, on the records of the transaction. */
  method TakeAll(json: bytes -> bool, before: Stats, cursors: seq<seq<Stat>>, maxSendBytes: int)
    returns (stats: Stats, batch: seq<Stat>, dropped: set<Stat>, sendBytes: nat)
    requires forall t :: 0 <= t < |cursors| ==> IsCursorOf(cursors[t], before, t)
    ensures Progress(json, before, cursors, |cursors|, batch, dropped, maxSendBytes)
    ensures stats == TakenOut(before, batch, dropped) && sendBytes == Total(batch)
  {
    stats, batch, dropped, sendBytes := before, [], {}, 0;
    for t := 0 to |cursors|
      invariant Progress(json, before, cursors, t, batch, dropped, maxSendBytes)
      invariant stats == TakenOut(before, batch, dropped) && sendBytes == Total(batch)
    {
      OtherKinds(json, before, batch, dropped, cursors[t], t);
      var taken, gone, total, n := TakeFrom(json, stats, t, cursors[t], sendBytes, maxSendBytes);
      TakeTurn(json, before, cursors, t, batch, dropped, n, gone, maxSendBytes);
      stats := TakenOut(stats, taken, gone);
      batch, dropped, sendBytes := batch + taken, dropped + gone, total;
    }
  }

  /** The byte limit is exceeded or not as the records waiting before the take-out say. */
  lemma WithinLimit(json: bytes -> bool, before: Stats, cursors: seq<seq<Stat>>, limit: int)
    requires !json([])
    ensures Total(Batch(WaitingRecords(json, before, cursors), |cursors|, limit)) <= limit <==>
            FitsLimit(WaitingRecords(json, before, cursors), limit)
  {
    var waiting := WaitingRecords(json, before, cursors);
    forall t | 0 <= t < |cursors| ensures NonEmpty(waiting[t]) {
      WaitingNonEmpty(json, before, cursors[t]);
    }
    SentIsTotal(waiting, |cursors|, limit);
    BatchWithinLimit(waiting, |cursors|, limit);
  }

  /** One record longer than the limit is taken all the same. */
  lemma LongRecordExceeds(json: bytes -> bool, data: bytes, limit: int)
    requires json(data) && |data| > limit
    ensures var s := Stat(0, data);
      && IsCursorOf([s], map[s := Unreported], 0)
      && Batch(WaitingRecords(json, map[s := Unreported], [[s]]), 1, limit) == [s] && Total([s]) > limit
  {
    var s := Stat(0, data);
    var waiting := WaitingRecords(json, map[s := Unreported], [[s]]);
    assert WaitingUpTo(json, map[s := Unreported], [s], 0) == [];
    assert waiting[0] == [s];
    assert Batch(waiting, 0, limit) == [] && Cut([s], limit) == [s];
    assert Batch(waiting, 1, limit) == [] + [s] == [s];
    assert Sum([s], 0) == 0 && Sum([s], 1) == |data|;
  }

  class StatStore {
    var stats: Stats

    constructor ()
      ensures stats == map[]
    {
      stats := map[];
    }

    /** Takes a batch: valid unreported records, at least one of every stat type that has one, and
        all of them if they stay below the byte limit. The limit is exceeded by less than one record
        for each stat type, and not at all exactly if the records waiting before fit it. */
    method TakeOutUnreported(json: bytes -> bool, cursors: seq<seq<Stat>>, maxBytes: int, adjustMaxSendBytes: int)
      returns (batch: seq<Stat>, dropped: set<Stat>, sendBytes: nat)
      requires forall t :: 0 <= t < |cursors| ==> IsCursorOf(cursors[t], stats, t)
      modifies this
      ensures CanTake(json, old(stats), batch, dropped) && stats == TakenOut(old(stats), batch, dropped)
      ensures batch == Batch(WaitingRecords(json, old(stats), cursors), |cursors|, maxBytes - adjustMaxSendBytes)
      ensures sendBytes == Total(batch)
      ensures !json([]) ==>
                (sendBytes <= maxBytes - adjustMaxSendBytes <==>
                 FitsLimit(WaitingRecords(json, old(stats), cursors), maxBytes - adjustMaxSendBytes))
      ensures sendBytes < Max(maxBytes - adjustMaxSendBytes, 1) + |cursors| * Longest(batch)
      ensures forall t :: 0 <= t < |cursors| && AnyWaiting(json, old(stats), cursors[t]) ==> AnyOfKind(batch, t)
      ensures sendBytes < maxBytes - adjustMaxSendBytes ==>
                forall s: Stat :: s.kind < |cursors| && Waiting(json, old(stats), s) ==> s in batch
      ensures sendBytes < maxBytes - adjustMaxSendBytes ==>
                forall s :: s in old(stats) && s.kind < |cursors| && !Valid(json, s) ==> s in dropped
    {
      var maxSendBytes := maxBytes - adjustMaxSendBytes;
      ghost var before := stats;
      stats, batch, dropped, sendBytes := TakeAll(json, stats, cursors, maxSendBytes);
      if !json([]) {
        WithinLimit(json, before, cursors, maxSendBytes);
      }
    }

    /** Refuses a stat type that is not one of the persistent ones. */
    method Store(s: Stat, cursors: seq<seq<Stat>>, maxStoreRecords: int) returns (ok: bool)
      requires forall t :: 0 <= t < |cursors| ==> IsCursorOf(cursors[t], stats, t)
      modifies this
      ensures ok <==> s.kind < |cursors|
      ensures stats == if ok then Stored(old(stats), s, maxStoreRecords) else old(stats)
    {
      if s.kind >= |cursors| {
        return false;
      }
      var cursor := cursors[s.kind];
      var count := 0;
      for i := 0 to |cursor|
        invariant count == i
      {
        count := count + 1;
      }
      ElementsCount(cursor);
      assert Elements(cursor) == set x | x in stats && x.kind == s.kind;
      if count < maxStoreRecords {
        stats := stats[s := Unreported];
      }
      ok := true;
    }

    method PutBackUnreported(batch: seq<Stat>)
      modifies this
      ensures stats == PutBack(old(stats), batch)
    {
      for i := 0 to |batch|
        invariant stats == PutBack(old(stats), batch[..i])
      {
        assert batch[..i + 1] == batch[..i] + [batch[i]];
        stats := stats[batch[i] := Unreported];
      }
      assert batch[..|batch|] == batch;
    }

    method ClearReported(batch: seq<Stat>)
      modifies this
      ensures stats == Cleared(old(stats), batch)
    {
      for i := 0 to |batch|
        invariant stats == Cleared(old(stats), batch[..i])
      {
        assert batch[..i + 1] == batch[..i] + [batch[i]];
        stats := stats - {batch[i]};
      }
      assert batch[..|batch|] == batch;
    }

    method ResetAllToUnreported(cursors: seq<seq<Stat>>)
      requires forall t :: 0 <= t < |cursors| ==> IsCursorOf(cursors[t], stats, t)
      requires forall s :: s in stats ==> s.kind < |cursors|
      modifies this
      ensures stats == AllUnreported(old(stats))
    {
      ghost var before := stats;
      for t := 0 to |cursors|
        invariant stats.Keys == before.Keys
        invariant forall s :: s in stats ==> stats[s] == if s.kind < t then Unreported else before[s]
      {
        ghost var atType := stats;
        for i := 0 to |cursors[t]|
          invariant stats.Keys == before.Keys
          invariant forall s :: s in stats ==> stats[s] == if s in cursors[t][..i] then Unreported else atType[s]
        {
          assert cursors[t][i] in cursors[t] && cursors[t][..i + 1] == cursors[t][..i] + [cursors[t][i]];
          stats := stats[cursors[t][i] := Unreported];
        }
        assert cursors[t][..|cursors[t]|] == cursors[t];
      }
    }
  }

  // ---------------------------------------------------------------- runs

  /** The records and the batches taken out in this session that are neither put back nor cleared. */
  datatype World = World(stats: Stats, outstanding: map<nat, seq<Stat>>)

  datatype Step =
    | StoreStep(s: Stat)
    | TakeStep(id: nat, batch: seq<Stat>, dropped: set<Stat>)
    | PutBackStep(id: nat)
    | ClearStep(id: nat)
    | ReopenStep                              // a new session: batches of the old one are forgotten

  ghost predicate Enabled(json: bytes -> bool, w: World, step: Step) {
    match step
    case StoreStep(_) => true
    case TakeStep(id, batch, dropped) => id !in w.outstanding && CanTake(json, w.stats, batch, dropped)
    case PutBackStep(id) => id in w.outstanding
    case ClearStep(id) => id in w.outstanding
    case ReopenStep => true
  }

  ghost function Apply(json: bytes -> bool, maxRecords: int, w: World, step: Step): World
    requires Enabled(json, w, step)
  {
    match step
    case StoreStep(s) => w.(stats := Stored(w.stats, s, maxRecords))
    case TakeStep(id, batch, dropped) =>
      World(TakenOut(w.stats, batch, dropped), w.outstanding[id := batch])
    case PutBackStep(id) => World(PutBack(w.stats, w.outstanding[id]), w.outstanding - {id})
    case ClearStep(id) => World(Cleared(w.stats, w.outstanding[id]), w.outstanding - {id})
    case ReopenStep => World(AllUnreported(w.stats), map[])
  }

  ghost predicate ValidRun(json: bytes -> bool, maxRecords: int, w: World, run: seq<Step>)
    decreases |run|
  {
    run == [] || (Enabled(json, w, run[0]) && ValidRun(json, maxRecords, Apply(json, maxRecords, w, run[0]), run[1..]))
  }

  ghost function Exec(json: bytes -> bool, maxRecords: int, w: World, run: seq<Step>): World
    requires ValidRun(json, maxRecords, w, run)
    decreases |run|
  {
    if run == [] then w else Exec(json, maxRecords, Apply(json, maxRecords, w, run[0]), run[1..])
  }

  /** Some step of the run clears a batch that has taken out s. */
  ghost predicate ClearedIn(json: bytes -> bool, maxRecords: int, w: World, run: seq<Step>, s: Stat)
    requires ValidRun(json, maxRecords, w, run)
    decreases |run|
  {
    && run != []
    && (|| (run[0].ClearStep? && s in w.outstanding[run[0].id])
        || ClearedIn(json, maxRecords, Apply(json, maxRecords, w, run[0]), run[1..], s))
  }

  /** A stored stat with valid JSON disappears only by a clear of a batch that took it out. */
  lemma {:induction false} NeverLost(json: bytes -> bool, maxRecords: int, w: World, run: seq<Step>, s: Stat)
    requires ValidRun(json, maxRecords, w, run) && s in w.stats && Valid(json, s)
    ensures s in Exec(json, maxRecords, w, run).stats || ClearedIn(json, maxRecords, w, run, s)
    decreases |run|
  {
    if run != [] && !(run[0].ClearStep? && s in w.outstanding[run[0].id]) {
      NeverLost(json, maxRecords, Apply(json, maxRecords, w, run[0]), run[1..], s);
    }
  }

  ghost predicate TakenBy(w: World, id: nat, s: Stat) {
    id in w.outstanding && s in w.outstanding[id]
  }

  /** Outstanding batches are disjoint, and their records are in the reporting state. */
  ghost predicate Disjoint(json: bytes -> bool, w: World) {
    && (forall id, s :: TakenBy(w, id, s) ==> s in w.stats && w.stats[s].Reporting? && Valid(json, s))
    && (forall id, id', s :: TakenBy(w, id, s) && TakenBy(w, id', s) ==> id == id')
  }

  /** A stat is stored again while a batch with it is outstanding. */
  ghost predicate RestoredWhileReporting(maxRecords: int, w: World, step: Step) {
    step.StoreStep? && CountOf(w.stats, step.s.kind) < maxRecords && exists id :: TakenBy(w, id, step.s)
  }

  /** Every step keeps the batches disjoint and reporting, except exactly for storing a stat again
      while it is reported. */
  lemma DisjointKept(json: bytes -> bool, maxRecords: int, w: World, step: Step)
    requires Disjoint(json, w) && Enabled(json, w, step)
    ensures Disjoint(json, Apply(json, maxRecords, w, step)) <==> !RestoredWhileReporting(maxRecords, w, step)
  {
    var w' := Apply(json, maxRecords, w, step);
    match step
    case StoreStep(s) =>
      assert forall id, x :: TakenBy(w', id, x) <==> TakenBy(w, id, x);
    case TakeStep(id, batch, dropped) =>
      assert forall i, x :: TakenBy(w', i, x) <==> TakenBy(w, i, x) || (i == id && x in batch);
      assert forall i, x :: TakenBy(w, i, x) ==> x !in batch;
    case PutBackStep(id) =>
      assert forall i, x :: TakenBy(w', i, x) <==> TakenBy(w, i, x) && i != id;
      assert forall x :: x in w.outstanding[id] ==> TakenBy(w, id, x);
    case ClearStep(id) =>
      assert forall i, x :: TakenBy(w', i, x) <==> TakenBy(w, i, x) && i != id;
      assert forall x :: x in w.outstanding[id] ==> TakenBy(w, id, x);
    case ReopenStep =>
  }

  ghost predicate NeverRestored(json: bytes -> bool, maxRecords: int, w: World, run: seq<Step>)
    requires ValidRun(json, maxRecords, w, run)
    decreases |run|
  {
    run == [] ||
    (!RestoredWhileReporting(maxRecords, w, run[0]) &&
     NeverRestored(json, maxRecords, Apply(json, maxRecords, w, run[0]), run[1..]))
  }

  lemma {:induction false} RunKeepsDisjoint(json: bytes -> bool, maxRecords: int, w: World, run: seq<Step>)
    requires Disjoint(json, w) && ValidRun(json, maxRecords, w, run) && NeverRestored(json, maxRecords, w, run)
    ensures Disjoint(json, Exec(json, maxRecords, w, run))
    decreases |run|
  {
    if run != [] {
      DisjointKept(json, maxRecords, w, run[0]);
      RunKeepsDisjoint(json, maxRecords, Apply(json, maxRecords, w, run[0]), run[1..]);
    }
  }

  /** In every run in which no stat is stored again while it is reported, no record is in two
      outstanding batches, and every outstanding record is still there to be cleared or put back. */
  lemma BatchesDisjoint(json: bytes -> bool, maxRecords: int, run: seq<Step>)
    requires ValidRun(json, maxRecords, World(map[], map[]), run)
    requires NeverRestored(json, maxRecords, World(map[], map[]), run)
    ensures Disjoint(json, Exec(json, maxRecords, World(map[], map[]), run))
  {
    RunKeepsDisjoint(json, maxRecords, World(map[], map[]), run);
  }

  lemma FirstStep(json: bytes -> bool, maxRecords: int, w: World, step: Step, rest: seq<Step>)
    requires Enabled(json, w, step) && ValidRun(json, maxRecords, Apply(json, maxRecords, w, step), rest)
    ensures ValidRun(json, maxRecords, w, [step] + rest)
    ensures Exec(json, maxRecords, w, [step] + rest) == Exec(json, maxRecords, Apply(json, maxRecords, w, step), rest)
  {
    assert ([step] + rest)[1..] == rest;
  }

  /** Storing a stat again while it is reported puts it in two outstanding batches. */
  lemma RestoreOverlaps(json: bytes -> bool, data: bytes)
    requires json(data)
    ensures var s := Stat(0, data);
      var run := [StoreStep(s), TakeStep(0, [s], {}), StoreStep(s), TakeStep(1, [s], {})];
      && ValidRun(json, 10, World(map[], map[]), run)
      && var w := Exec(json, 10, World(map[], map[]), run);
         TakenBy(w, 0, s) && TakenBy(w, 1, s)
  {
    var s := Stat(0, data);
    var run := [StoreStep(s), TakeStep(0, [s], {}), StoreStep(s), TakeStep(1, [s], {})];
    var w0 := World(map[], map[]);
    assert (set x | x in w0.stats && x.kind == 0) == {};
    var w1 := Apply(json, 10, w0, run[0]);
    assert w1.stats == map[s := Unreported];
    var w2 := Apply(json, 10, w1, run[1]);
    assert w2.stats == map[s := Reporting];
    assert (set x | x in w2.stats && x.kind == 0) == {s};
    var w3 := Apply(json, 10, w2, run[2]);
    assert w3.stats == map[s := Unreported];
    var w4 := Apply(json, 10, w3, run[3]);
    FirstStep(json, 10, w3, run[3], []);
    FirstStep(json, 10, w2, run[2], [run[3]]);
    FirstStep(json, 10, w1, run[1], [run[2], run[3]]);
    FirstStep(json, 10, w0, run[0], [run[1], run[2], run[3]]);
    assert [run[2]] + [run[3]] == [run[2], run[3]] && [run[3]] + [] == [run[3]];
    assert [run[1]] + [run[2], run[3]] == [run[1], run[2], run[3]];
    assert [run[0]] + [run[1], run[2], run[3]] == run;
    assert Exec(json, 10, w0, run) == w4;
  }

  /** Every record in the reporting state belongs to an outstanding batch. */
  ghost predicate NoneStuck(w: World) {
    forall s :: s in w.stats && w.stats[s].Reporting? ==> exists id :: TakenBy(w, id, s)
  }

  lemma NoneStuckKept(json: bytes -> bool, maxRecords: int, w: World, step: Step)
    requires NoneStuck(w) && Enabled(json, w, step)
    ensures NoneStuck(Apply(json, maxRecords, w, step))
  {
    var w' := Apply(json, maxRecords, w, step);
    forall s | s in w'.stats && w'.stats[s].Reporting?
      ensures exists id :: TakenBy(w', id, s)
    {
      if step.TakeStep? && s in step.batch {
        assert TakenBy(w', step.id, s);
      } else {
        var id :| TakenBy(w, id, s);
        assert TakenBy(w', id, s);
      }
    }
  }

  /** No record is ever stuck: in every run, whatever is stored again, put back, cleared or reopened,
      a record is available for a take-out or belongs to an outstanding batch. */
  lemma {:induction false} RunLeavesNoneStuck(json: bytes -> bool, maxRecords: int, w: World, run: seq<Step>)
    requires NoneStuck(w) && ValidRun(json, maxRecords, w, run)
    ensures NoneStuck(Exec(json, maxRecords, w, run))
    decreases |run|
  {
    if run != [] {
      NoneStuckKept(json, maxRecords, w, run[0]);
      RunLeavesNoneStuck(json, maxRecords, Apply(json, maxRecords, w, run[0]), run[1..]);
    }
  }
}
