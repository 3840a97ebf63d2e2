/** The order in which ServerEntryIterator.reset (psiphon/dataStore.go) lists the server entries:
    the affinity server, then potential replay candidates, then the rest, the last two shuffled. */
module EntryIterator {
  import opened Bytes
  import opened Buckets
  import opened Lists
  import opened ServerEntries

  lemma CursorNoDuplicates(cursor: seq<bytes>)
    requires Sorted(cursor)
    ensures NoDuplicates(cursor)
  {
    forall i, j | 0 <= i < j < |cursor|
      ensures cursor[i] != cursor[j]
    {
      LessTotal(cursor[i], cursor[j]);
    }
  }

  // ---------------------------------------------------------------- the parts of the list

  /** A server with dial parameters for this network: a potential replay candidate. */
  predicate IsCandidate(dialKeys: set<bytes>, entries: set<bytes>, network: bytes, affinity: Option<bytes>, id: bytes) {
    id != [] && DialKey(id, network) in dialKeys && id in entries && affinity != Some(id)
  }

  predicate HasSuffix(key: bytes, suffix: bytes) {
    |suffix| <= |key| && key[|key| - |suffix|..] == suffix
  }

  /** The ID that a key with this network's suffix belongs to. */
  lemma KeyOwner(key: bytes, network: bytes)
    ensures forall id :: DialKey(id, network) == key <==> HasSuffix(key, network) && id == key[..|key| - |network|]
  {
  }

  /** The candidates, by a scan over the dial parameters; None if the context was cancelled. */
  method Candidates(dialCursor: seq<bytes>, dialKeys: set<bytes>, entries: set<bytes>, network: bytes,
                    affinity: Option<bytes>) returns (ids: Option<seq<bytes>>)
    requires IsCursor(dialCursor, dialKeys)
    ensures ids.Some? ==> NoDuplicates(ids.value)
    ensures ids.Some? ==> forall id :: id in ids.value <==> IsCandidate(dialKeys, entries, network, affinity, id)
  {
    CursorNoDuplicates(dialCursor);
    var found: seq<bytes> := [];
    for i := 0 to |dialCursor|
      invariant NoDuplicates(found)
      invariant forall id :: id in found ==> DialKey(id, network) in dialCursor[..i]
      invariant forall id :: id in found ==> IsCandidate(dialKeys, entries, network, affinity, id)
      invariant forall id :: IsCandidate(dialKeys, entries, network, affinity, id) ==>
                  DialKey(id, network) in dialCursor[..i] ==> id in found
    {
      var cancelled: bool := *;
      if cancelled {
        return None;
      }
      var key := dialCursor[i];
      assert key in dialCursor && dialCursor[..i + 1] == dialCursor[..i] + [key];
      assert key !in dialCursor[..i];
      KeyOwner(key, network);
      if HasSuffix(key, network) {
        var id := key[..|key| - |network|];
        assert DialKey(id, network) == key && id !in found;
        if |id| != 0 && id in entries && affinity != Some(id) {
          found := found + [id];
        }
      }
    }
    assert dialCursor[..|dialCursor|] == dialCursor;
    return Some(found);
  }

  // ---------------------------------------------------------------- reset

  /** The list: the affinity server if there is one, then moved replay candidates, then the rest; all
      entries, each once. */
  ghost predicate InOrder(ids: seq<bytes>, moved: nat, entries: set<bytes>, dialKeys: set<bytes>, network: bytes,
                          affinity: Option<bytes>) {
    var head := |Head(affinity)|;
    && NoDuplicates(ids) && (forall k :: k in ids <==> k in entries)
    && head + moved <= |ids| && ids[..head] == Head(affinity)
    && (forall i :: head <= i < head + moved ==> IsCandidate(dialKeys, entries, network, affinity, ids[i]))
  }

  /** All candidates are among the first n. */
  ghost predicate CandidatesWithin(ids: seq<bytes>, n: nat, entries: set<bytes>, dialKeys: set<bytes>, network: bytes,
                                   affinity: Option<bytes>)
    requires n <= |ids|
  {
    forall id :: IsCandidate(dialKeys, entries, network, affinity, id) ==> id in ids[..n]
  }

  /** The candidates in random order, cut to the maximum. None if the context was cancelled. */
  method MoveToFront(dialCursor: seq<bytes>, dialKeys: set<bytes>, entries: set<bytes>, network: bytes,
                     affinity: Option<bytes>, maxMoveToFront: int) returns (ids: Option<seq<bytes>>)
    requires IsCursor(dialCursor, dialKeys)
    ensures ids.Some? ==>
      && NoDuplicates(ids.value)
      && (forall id :: id in ids.value ==> IsCandidate(dialKeys, entries, network, affinity, id))
      && (maxMoveToFront >= 0 ==> |ids.value| <= maxMoveToFront)
      && (maxMoveToFront < 0 || |ids.value| < maxMoveToFront ==>
            forall id :: IsCandidate(dialKeys, entries, network, affinity, id) ==> id in ids.value)
  {
    var candidates := Candidates(dialCursor, dialKeys, entries, network, affinity);
    if candidates.None? {
      return None;
    }
    var shuffled := Shuffle(candidates.value, 0);
    PermutationNoDuplicates(candidates.value, shuffled);
    if maxMoveToFront >= 0 && |shuffled| > maxMoveToFront {
      return Some(shuffled[..maxMoveToFront]);
    }
    return Some(shuffled);
  }

  /** A permutation of the front of the list and the rest has every entry once. */
  lemma ListComplete(ids: seq<bytes>, front: seq<bytes>, entryCursor: seq<bytes>, entries: set<bytes>)
    requires IsCursor(entryCursor, entries) && NoDuplicates(front) && forall id :: id in front ==> id in entries
    requires multiset(ids) == multiset(front + Rest(entryCursor, front))
    ensures NoDuplicates(ids) && forall k :: k in ids <==> k in entries
  {
    CursorNoDuplicates(entryCursor);
    RestCompletes(entryCursor, front);
    PermutationNoDuplicates(entryCursor, ids);
  }

  /** The affinity server comes first, and candidates after it. */
  lemma FrontFirst(ids: seq<bytes>, moved: seq<bytes>, entries: set<bytes>, dialKeys: set<bytes>, network: bytes,
                   affinity: Option<bytes>)
    requires forall id :: id in moved ==> IsCandidate(dialKeys, entries, network, affinity, id)
    requires var front := Head(affinity) + moved; |ids| >= |front| && ids[..|front|] == front
    ensures var head := |Head(affinity)|;
      && ids[..head] == Head(affinity)
      && forall i :: head <= i < head + |moved| ==> IsCandidate(dialKeys, entries, network, affinity, ids[i])
  {
    FrontParts(ids, Head(affinity), moved);
  }

  /** Any shuffle of the rest behind the front of the list keeps the list in order. */
  lemma FrontInOrder(ids: seq<bytes>, moved: seq<bytes>, entryCursor: seq<bytes>, entries: set<bytes>,
                     dialKeys: set<bytes>, network: bytes, affinity: Option<bytes>)
    requires IsCursor(entryCursor, entries) && (affinity.Some? ==> affinity.value in entries) && NoDuplicates(moved)
    requires forall id :: id in moved ==> IsCandidate(dialKeys, entries, network, affinity, id)
    requires var front := Head(affinity) + moved;
      |ids| >= |front| && ids[..|front|] == front && multiset(ids) == multiset(front + Rest(entryCursor, front))
    ensures InOrder(ids, |moved|, entries, dialKeys, network, affinity)
  {
    JoinNoDuplicates(Head(affinity), moved);
    ListComplete(ids, Head(affinity) + moved, entryCursor, entries);
    FrontFirst(ids, moved, entries, dialKeys, network, affinity);
  }

  /** The list and how many entries were moved to its front. None if the context was cancelled. */
  method BuildList(entryCursor: seq<bytes>, entries: set<bytes>, dialCursor: seq<bytes>, dialKeys: set<bytes>,
                   affinity: Option<bytes>, network: bytes, moveToFront: bool, maxMoveToFront: int)
    returns (list: Option<seq<bytes>>, moved: seq<bytes>)
    requires IsCursor(entryCursor, entries) && IsCursor(dialCursor, dialKeys)
    requires affinity.Some? ==> affinity.value in entries
    ensures !moveToFront ==> moved == []
    ensures maxMoveToFront >= 0 ==> |moved| <= maxMoveToFront
    ensures list.Some? ==> InOrder(list.value, |moved|, entries, dialKeys, network, affinity)
    ensures list.Some? ==> list.value[..|Head(affinity)| + |moved|] == Head(affinity) + moved
    ensures list.Some? && moveToFront && (maxMoveToFront < 0 || |moved| < maxMoveToFront) ==>
              forall id :: IsCandidate(dialKeys, entries, network, affinity, id) ==> id in moved
  {
    list, moved := None, [];
    if moveToFront {
      var candidates := MoveToFront(dialCursor, dialKeys, entries, network, affinity, maxMoveToFront);
      if candidates.None? {
        return;
      }
      moved := candidates.value;
    }
    CursorNoDuplicates(entryCursor);
    var rest := ScanRest(entryCursor, affinity, moved);
    if rest.None? {
      return;
    }
    var front := Head(affinity) + moved;
    var ids := Shuffle(front + rest.value, |front|);
    assert ids[..|front|] == front;
    FrontInOrder(ids, moved, entryCursor, entries, dialKeys, network, affinity);
    list := Some(ids);
  }

  class ServerEntryIterator {
    const isPrune: bool
    const applyServerAffinity: bool
    var serverEntryIDs: seq<bytes>
    var serverEntryIndex: nat

    constructor (isPrune: bool, applyServerAffinity: bool)
      ensures this.isPrune == isPrune && this.applyServerAffinity == applyServerAffinity
    {
      this.isPrune, this.applyServerAffinity := isPrune, applyServerAffinity;
      serverEntryIDs, serverEntryIndex := [], 0;
    }

    /** The affinity key is used in the first round only. */
    function AffinityFor(affinity: Option<bytes>, isInitialRound: bool): Option<bytes> {
      if !isPrune && isInitialRound && applyServerAffinity then affinity else None
    }

    /** Builds the list from one consistent view of the datastore, in which, as always, the affinity
        key names a stored entry. On cancellation the iterator is left empty. */
    method Reset(s: Store, entryCursor: seq<bytes>, dialCursor: seq<bytes>, network: bytes, isInitialRound: bool,
                 replayCandidateCount: int, maxMoveToFront: int)
      returns (ok: bool, movedToFront: nat)
      requires AffinityOk(s) && IsCursor(entryCursor, s.entries.Keys) && IsCursor(dialCursor, s.dialParameters.Keys)
      modifies this
      ensures serverEntryIndex == 0 && (!ok ==> serverEntryIDs == [])
      ensures var affinity := AffinityFor(s.affinity, isInitialRound);
        && (ok ==> InOrder(serverEntryIDs, movedToFront, s.entries.Keys, s.dialParameters.Keys, network, affinity))
        && (maxMoveToFront >= 0 ==> movedToFront <= maxMoveToFront)
        && (isPrune || replayCandidateCount == 0 ==> movedToFront == 0)
        && (ok && isInitialRound && !isPrune && replayCandidateCount != 0 ==>
              (maxMoveToFront < 0 || movedToFront < maxMoveToFront ==>
                 CandidatesWithin(serverEntryIDs, |Head(affinity)| + movedToFront,
                                  s.entries.Keys, s.dialParameters.Keys, network, affinity)))
    {
      serverEntryIDs, serverEntryIndex, ok, movedToFront := [], 0, false, 0;
      var coin: bool := *;
      var moveToFront := !isPrune && (isInitialRound || coin) && replayCandidateCount != 0 && maxMoveToFront != 0;
      var list, moved := BuildList(entryCursor, s.entries.Keys, dialCursor, s.dialParameters.Keys,
                                   AffinityFor(s.affinity, isInitialRound), network, moveToFront, maxMoveToFront);
      movedToFront := |moved|;
      if list.Some? {
        serverEntryIDs, ok := list.value, true;
      }
    }
  }
}
