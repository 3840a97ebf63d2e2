/** Server entries in the datastore (psiphon/dataStore.go): the entries by server ID, the index from
    tags to server IDs and versions, tombstones, the affinity key, and the dial parameters that go
    when a server entry goes. */
module ServerEntries {
  import opened Bytes
  import opened Buckets

  // ---------------------------------------------------------------- tag records

  const MAX_INT32 := 0x7fff_ffff

  /** A server ID and a configuration version. */
  datatype TagRecord = TagRecord(id: bytes, version: nat)

  function LittleEndian(v: nat): (b: bytes)
    requires v < 0x1_0000_0000
    ensures |b| == 4
  {
    [(v % 256) as byte, (v / 256 % 256) as byte, (v / 65536 % 256) as byte, (v / 16777216) as byte]
  }

  function FromLittleEndian(b: bytes): nat
    requires |b| == 4
  {
    b[0] as nat + 256 * b[1] as nat + 65536 * b[2] as nat + 16777216 * b[3] as nat
  }

  /** setServerEntryTagRecord: the ID, a zero byte, and the version in four bytes. */
  function Encode(id: bytes, version: int): Option<bytes> {
    if 0 in id || version < 0 || version >= MAX_INT32 then None
    else Some(id + [0] + LittleEndian(version))
  }

  /** The position of the first zero byte, or the length. */
  function FirstZero(record: bytes): (i: nat)
    ensures i <= |record| && 0 !in record[..i] && (i < |record| ==> record[i] == 0)
  {
    if record == [] || record[0] == 0 then 0 else 1 + FirstZero(record[1..])
  }

  /** getServerEntryTagRecord: a record without a zero byte is an ID of version 0. */
  function Decode(record: bytes): Option<TagRecord> {
    var i := FirstZero(record);
    if i == |record| then Some(TagRecord(record, 0))
    else if |record| - (i + 1) != 4 then None
    else Some(TagRecord(record[..i], FromLittleEndian(record[i + 1..])))
  }

  lemma LittleEndianRoundTrip(v: nat, b: bytes)
    requires v < 0x1_0000_0000 && |b| == 4
    ensures FromLittleEndian(LittleEndian(v)) == v
    ensures LittleEndian(FromLittleEndian(b)) == b
  {
    assert v / 65536 == v / 256 / 256 && v / 16777216 == v / 65536 / 256;
    var n := FromLittleEndian(b);
    assert n / 256 == b[1] as nat + 256 * b[2] as nat + 65536 * b[3] as nat;
    assert n / 65536 == b[2] as nat + 256 * b[3] as nat;
  }

  lemma {:induction false} FirstZeroAt(record: bytes, i: nat)
    requires i < |record| && 0 !in record[..i] && record[i] == 0
    ensures FirstZero(record) == i
    decreases i
  {
    if i > 0 {
      assert record[0] == record[..i][0] && record[0] in record[..i];
      assert record[1..][..i - 1] == record[..i][1..];
      FirstZeroAt(record[1..], i - 1);
    }
  }

  /** A record is made exactly for IDs without a zero byte and versions in range, and reads back as
      what it was made from. */
  lemma TagRecordRoundTrip(id: bytes, version: int)
    ensures Encode(id, version).Some? <==> 0 !in id && 0 <= version < MAX_INT32
    ensures Encode(id, version).Some? ==> Decode(Encode(id, version).value) == Some(TagRecord(id, version))
  {
    if Encode(id, version).Some? {
      var record := Encode(id, version).value;
      assert record[..|id|] == id && record[|id| + 1..] == LittleEndian(version);
      FirstZeroAt(record, |id|);
      LittleEndianRoundTrip(version, LittleEndian(version));
    }
  }

  /** What reads back with a version in range, other than an old record, was made from it. */
  lemma TagRecordReadsBack(record: bytes)
    requires 0 in record && Decode(record).Some? && Decode(record).value.version < MAX_INT32
    ensures Encode(Decode(record).value.id, Decode(record).value.version) == Some(record)
  {
    var i := FirstZero(record);
    assert record[..|record|] == record;
    assert record == record[..i] + [0] + record[i + 1..];
    LittleEndianRoundTrip(0, record[i + 1..]);
  }

  // ---------------------------------------------------------------- the store

  /** A server entry as stored: its tag, configuration version and whether it came embedded. */
  datatype Entry = Entry(tag: bytes, version: int, embedded: bool)

  datatype Stored = Readable(entry: Entry) | Corrupt

  datatype Store = Store(
    entries: map<bytes, Stored>, tags: map<bytes, bytes>, tombstones: set<bytes>,
    affinity: Option<bytes>, dialParameters: map<bytes, bytes>)

  const EMPTY := Store(map[], map[], {}, None, map[])

  function ExistingVersion(s: Store, id: bytes): int {
    if id in s.entries && s.entries[id].Readable? then s.entries[id].entry.version else -1
  }

  /** storeServerEntry, for an entry with its tag set or derived. The result is false if the
      transaction fails, which leaves the store unchanged. */
  function StoreEntry(s: Store, id: bytes, e: Entry, replaceIfExists: bool): (Store, bool) {
    var existing := ExistingVersion(s, id);
    if existing > -1 && !replaceIfExists && existing >= e.version then (s, true)
    else if e.embedded && e.tag in s.tombstones then (s, true)
    else
      var record := Encode(id, e.version);
      if record.None? then (s, false)
      else (s.(entries := s.entries[id := Readable(e)], tags := s.tags[e.tag := record.value]), true)
  }

  /** PromoteServerEntry */
  function Promote(s: Store, id: bytes): Store {
    if id in s.entries then s.(affinity := Some(id)) else s
  }

  /** DeleteServerEntryAffinity */
  function DeleteAffinity(s: Store, id: bytes): Store {
    if s.affinity == Some(id) then s.(affinity := None) else s
  }

  /** deleteServerEntryHelper: the entry, its affinity, and all dial parameters whose key starts with
      the server ID. */
  function DeleteHelper(s: Store, id: bytes): Store {
    DeleteAffinity(s, id).(entries := s.entries - {id},
                           dialParameters := map k | k in s.dialParameters && !(id <= k) :: s.dialParameters[k])
  }

  /** deleteServerEntry: also the tags whose record is the bare server ID. */
  function Delete(s: Store, id: bytes): Store {
    DeleteHelper(s, id).(tags := map t | t in s.tags && s.tags[t] != id :: s.tags[t])
  }

  /** pruneServerEntry. timestamp: None if the entry's timestamp cannot be read, else whether it is
      old enough. The results are whether it was pruned and whether the transaction succeeded. */
  function Prune(s: Store, tag: bytes, timestamp: Option<bool>): (Store, bool, bool) {
    if tag !in s.tags then (s, false, false)
    else
      var record := Decode(s.tags[tag]);
      if record.None? || record.value.id !in s.entries || s.entries[record.value.id].Corrupt? || timestamp.None? then
        (s, false, false)
      else if !timestamp.value then (s, false, true)
      else
        var id, entry := record.value.id, s.entries[record.value.id].entry;
        var s1 := s.(tags := s.tags - {tag});
        var s2 := if entry.tag == tag then DeleteHelper(s1, id) else s1;
        (if entry.embedded then s2.(tombstones := s2.tombstones + {tag}) else s2, true, true)
  }

  /** dslLookupServerEntry */
  function Lookup(s: Store, tag: bytes, version: int): Option<bytes> {
    if tag !in s.tags then None
    else
      var record := Decode(s.tags[tag]);
      if record.Some? && record.value.version == version then Some(record.value.id) else None
  }

  // ---------------------------------------------------------------- affinity and tag index

  /** The affinity key names a stored entry. */
  ghost predicate AffinityOk(s: Store) {
    s.affinity.Some? ==> s.affinity.value in s.entries
  }

  /** The tag index has an entry's ID and version under its tag. */
  predicate Indexed(s: Store, id: bytes, e: Entry) {
    e.tag in s.tags && e.version >= 0 && Decode(s.tags[e.tag]) == Some(TagRecord(id, e.version))
  }

  /** Every stored entry is in the tag index. */
  ghost predicate Complete(s: Store) {
    forall id :: id in s.entries && s.entries[id].Readable? ==> Indexed(s, id, s.entries[id].entry)
  }

  /** The lookup finds an entry in the index under its tag and version, and under no other version. */
  lemma LookupFinds(s: Store, id: bytes, version: int)
    requires Complete(s) && id in s.entries && s.entries[id].Readable?
    ensures var e := s.entries[id].entry; Lookup(s, e.tag, version) == if version == e.version then Some(id) else None
  {
    assert Indexed(s, id, s.entries[id].entry);
  }

  datatype Step =
    | StoreStep(id: bytes, e: Entry, replaceIfExists: bool)
    | PromoteStep(id: bytes)
    | DeleteAffinityStep(id: bytes)
    | PruneStep(tag: bytes, timestamp: Option<bool>)
    | DeleteStep(id: bytes)
    | CorruptStep(id: bytes)                  // an entry's data becomes unreadable
    | DialStep(key: bytes, record: bytes)     // dial parameters are stored

  function Apply(s: Store, step: Step): Store {
    match step
    case StoreStep(id, e, replace) => StoreEntry(s, id, e, replace).0
    case PromoteStep(id) => Promote(s, id)
    case DeleteAffinityStep(id) => DeleteAffinity(s, id)
    case PruneStep(tag, timestamp) => Prune(s, tag, timestamp).0
    case DeleteStep(id) => Delete(s, id)
    case CorruptStep(id) => if id in s.entries then s.(entries := s.entries[id := Corrupt]) else s
    case DialStep(key, record) => s.(dialParameters := s.dialParameters[key := record])
  }

  function Exec(s: Store, run: seq<Step>): Store {
    if run == [] then s else Apply(Exec(s, run[..|run| - 1]), run[|run| - 1])
  }

  lemma AffinityKept(s: Store, step: Step)
    requires AffinityOk(s)
    ensures AffinityOk(Apply(s, step))
  {
  }

  lemma {:induction false} AffinityNamesStoredEntry(run: seq<Step>)
    ensures AffinityOk(Exec(EMPTY, run))
  {
    if run != [] {
      AffinityNamesStoredEntry(run[..|run| - 1]);
      AffinityKept(Exec(EMPTY, run[..|run| - 1]), run[|run| - 1]);
    }
  }

  /** A step that can lose an entry or take it back: a delete, a prune, damage, or a forced store. */
  predicate MayGoBack(step: Step) {
    step.DeleteStep? || step.PruneStep? || step.CorruptStep? || (step.StoreStep? && step.replaceIfExists)
  }

  /** A store of this server's entry that can be indexed and has no tombstone. */
  predicate Offers(tombstones: set<bytes>, step: Step, id: bytes) {
    && step.StoreStep? && step.id == id && 0 !in id && 0 <= step.e.version < MAX_INT32
    && !(step.e.embedded && step.e.tag in tombstones)
  }

  /** Over a run in which no entry is lost or replaced by force, the stored version is the greatest of
      the one before and all those offered. */
  lemma {:induction false} VersionsOnlyGrow(s: Store, run: seq<Step>, id: bytes)
    requires forall i :: 0 <= i < |run| ==> !MayGoBack(run[i])
    ensures Exec(s, run).tombstones == s.tombstones
    ensures var v := ExistingVersion(Exec(s, run), id);
      && v >= ExistingVersion(s, id)
      && (forall i :: 0 <= i < |run| && Offers(s.tombstones, run[i], id) ==> v >= run[i].e.version)
      && (v == ExistingVersion(s, id) ||
          exists i :: 0 <= i < |run| && Offers(s.tombstones, run[i], id) && v == run[i].e.version)
  {
    if run != [] {
      var front, last := run[..|run| - 1], run[|run| - 1];
      VersionsOnlyGrow(s, front, id);
      assert forall i :: 0 <= i < |front| ==> front[i] == run[i];
    }
  }

  /** A pruned embedded entry stays out: its tag is never taken off the tombstones, and storing an
      embedded entry with it changes nothing, while other sources can restore it. */
  lemma {:induction false} TombstonesHold(s: Store, run: seq<Step>, tag: bytes, id: bytes, e: Entry, replace: bool)
    requires tag in s.tombstones && e.tag == tag
    ensures tag in Exec(s, run).tombstones
    ensures e.embedded ==> StoreEntry(Exec(s, run), id, e, replace) == (Exec(s, run), true)
    ensures !e.embedded && replace && 0 !in id && 0 <= e.version < MAX_INT32 ==>
              StoreEntry(Exec(s, run), id, e, replace).0.entries == Exec(s, run).entries[id := Readable(e)]
  {
    if run != [] {
      TombstonesHold(s, run[..|run| - 1], tag, id, e, replace);
    }
  }

  /** The store writes: there is no entry, a replacement is forced or newer, the tag of an embedded
      entry has no tombstone, and the tag record can be made. */
  predicate Writes(s: Store, id: bytes, e: Entry, replace: bool) {
    && (ExistingVersion(s, id) <= -1 || replace || ExistingVersion(s, id) < e.version)
    && !(e.embedded && e.tag in s.tombstones)
    && 0 !in id && 0 <= e.version < MAX_INT32
  }

  /** An entry is stored under a tag that another stored entry has. */
  ghost predicate TagClash(s: Store, step: Step) {
    && step.StoreStep? && Writes(s, step.id, step.e, step.replaceIfExists)
    && exists id :: id in s.entries && id != step.id && s.entries[id].Readable? && s.entries[id].entry.tag == step.e.tag
  }

  /** Storing an entry keeps every entry found exactly if its tag is no other stored entry's. */
  lemma StoreKeepsIndex(s: Store, id: bytes, e: Entry, replace: bool)
    requires Complete(s)
    ensures Complete(StoreEntry(s, id, e, replace).0) <==> !TagClash(s, StoreStep(id, e, replace))
  {
    TagRecordRoundTrip(id, e.version);
    var s' := StoreEntry(s, id, e, replace).0;
    if Writes(s, id, e, replace) {
      forall id' | id' in s.entries && id' != id && s.entries[id'].Readable?
        ensures Indexed(s', id', s'.entries[id'].entry) <==> s'.entries[id'].entry.tag != e.tag
      {
        assert Indexed(s, id', s.entries[id'].entry);
      }
    }
  }

  /** A change that leaves the tags of the remaining entries alone keeps them found. */
  lemma OthersStayFound(s: Store, s': Store)
    requires Complete(s)
    requires forall id :: id in s'.entries && s'.entries[id].Readable? ==>
      && id in s.entries && s'.entries[id] == s.entries[id]
      && s'.entries[id].entry.tag in s'.tags && s'.entries[id].entry.tag in s.tags
      && s'.tags[s'.entries[id].entry.tag] == s.tags[s'.entries[id].entry.tag]
    ensures Complete(s')
  {
    forall id | id in s'.entries && s'.entries[id].Readable?
      ensures Indexed(s', id, s'.entries[id].entry)
    {
      assert Indexed(s, id, s.entries[id].entry);
    }
  }

  /** A tag record that is a bare server ID leads to that ID. */
  lemma {:induction false} BareRecord(id: bytes)
    requires 0 !in id
    ensures FirstZero(id) == |id| && Decode(id) == Some(TagRecord(id, 0))
  {
    if id != [] {
      assert id[0] in id;
      BareRecord(id[1..]);
    }
  }

  /** Deleting a server takes no tag that a remaining entry is found under. */
  lemma DeleteKeepsIndex(s: Store, id: bytes)
    requires Complete(s) && 0 !in id
    ensures Complete(Delete(s, id))
  {
    var s' := Delete(s, id);
    BareRecord(id);
    forall id' | id' in s'.entries && s'.entries[id'].Readable?
      ensures var tag := s'.entries[id'].entry.tag; tag in s'.tags && tag in s.tags && s'.tags[tag] == s.tags[tag]
    {
      assert Indexed(s, id', s.entries[id'].entry);
    }
    OthersStayFound(s, s');
  }

  /** A prune removes the tag, and the entry it leads to if that entry still has this tag; the tag of an
      embedded entry gets a tombstone. */
  lemma PruneEffect(s: Store, tag: bytes, timestamp: Option<bool>)
    requires Prune(s, tag, timestamp).1
    ensures tag in s.tags && Decode(s.tags[tag]).Some?
    ensures var (s', id) := (Prune(s, tag, timestamp).0, Decode(s.tags[tag]).value.id);
      && id in s.entries && s.entries[id].Readable? && s'.tags == s.tags - {tag}
      && s'.entries == (if s.entries[id].entry.tag == tag then s.entries - {id} else s.entries)
      && s'.tombstones == s.tombstones + if s.entries[id].entry.embedded then {tag} else {}
  {
  }

  /** Pruning a tag takes no tag that a remaining entry is found under, also when the address of its
      server was recycled under another tag. */
  lemma PruneKeepsIndex(s: Store, tag: bytes, timestamp: Option<bool>)
    requires Complete(s)
    ensures Complete(Prune(s, tag, timestamp).0)
  {
    if Prune(s, tag, timestamp).1 {
      PruneEffect(s, tag, timestamp);
      var s' := Prune(s, tag, timestamp).0;
      forall id | id in s'.entries && s'.entries[id].Readable?
        ensures var t := s'.entries[id].entry.tag; t in s'.tags && t in s.tags && s'.tags[t] == s.tags[t]
      {
        assert Indexed(s, id, s.entries[id].entry);
      }
      OthersStayFound(s, s');
    }
  }

  /** Server IDs, as IP addresses, have no zero byte. */
  predicate ValidIDs(step: Step) {
    step.DeleteStep? ==> 0 !in step.id
  }

  /** Every step keeps every stored entry found exactly if it is no tag clash. */
  lemma IndexKept(s: Store, step: Step)
    requires Complete(s) && ValidIDs(step)
    ensures Complete(Apply(s, step)) <==> !TagClash(s, step)
  {
    match step
    case StoreStep(id, e, replace) => StoreKeepsIndex(s, id, e, replace);
    case DeleteStep(id) => DeleteKeepsIndex(s, id);
    case PruneStep(tag, timestamp) => PruneKeepsIndex(s, tag, timestamp);
    case _ =>
  }

  /** The run has no tag clash. */
  ghost predicate NoTagClash(s: Store, run: seq<Step>) {
    forall i :: 0 <= i < |run| ==> ValidIDs(run[i]) && !TagClash(Exec(s, run[..i]), run[i])
  }

  /** Tag index completeness: after any run of stores, prunes, deletes and the rest from the empty
      store without a tag clash, every stored entry is found under its tag and version. */
  lemma {:induction false} TagIndexComplete(run: seq<Step>)
    requires NoTagClash(EMPTY, run)
    ensures Complete(Exec(EMPTY, run))
    ensures var s := Exec(EMPTY, run);
      forall id :: id in s.entries && s.entries[id].Readable? ==>
        Lookup(s, s.entries[id].entry.tag, s.entries[id].entry.version) == Some(id)
  {
    if run != [] {
      var front := run[..|run| - 1];
      assert NoTagClash(EMPTY, front) by {
        forall i | 0 <= i < |front|
          ensures ValidIDs(front[i]) && !TagClash(Exec(EMPTY, front[..i]), front[i])
        {
          assert front[..i] == run[..i] && front[i] == run[i];
        }
      }
      TagIndexComplete(front);
      IndexKept(Exec(EMPTY, front), run[|run| - 1]);
    }
  }

  /** Every stored entry has a tag of its own server. */
  ghost predicate TagsOwned(s: Store, owner: bytes -> bytes) {
    forall id :: id in s.entries && s.entries[id].Readable? ==> owner(s.entries[id].entry.tag) == id
  }

  /** When a tag determines its server ID there is no tag clash, so the index is complete. */
  lemma {:induction false} OwnedTagsComplete(run: seq<Step>, owner: bytes -> bytes)
    requires forall i :: 0 <= i < |run| ==> ValidIDs(run[i]) && (run[i].StoreStep? ==> owner(run[i].e.tag) == run[i].id)
    ensures TagsOwned(Exec(EMPTY, run), owner) && Complete(Exec(EMPTY, run))
  {
    if run != [] {
      OwnedTagsComplete(run[..|run| - 1], owner);
      IndexKept(Exec(EMPTY, run[..|run| - 1]), run[|run| - 1]);
    }
  }

  lemma ExecTwo(s: Store, x: Step, y: Step)
    ensures Exec(s, [x, y]) == Apply(Apply(s, x), y)
  {
    assert [x, y][..1] == [x] && [x][..0] == [];
    assert Exec(s, [x]) == Apply(Exec(s, []), x);
  }

  /** Two servers under one tag: both are stored, and one is not found. */
  lemma SharedTagHidesEntry(a: bytes, b: bytes, e: Entry)
    requires a != b && 0 !in a && 0 !in b && 0 <= e.version < MAX_INT32
    ensures var s := Exec(EMPTY, [StoreStep(a, e, false), StoreStep(b, e, false)]);
      a in s.entries && b in s.entries && !Complete(s)
  {
    var run := [StoreStep(a, e, false), StoreStep(b, e, false)];
    var s1 := Apply(EMPTY, run[0]);
    ExecTwo(EMPTY, run[0], run[1]);
    IndexKept(EMPTY, run[0]);
    IndexKept(s1, run[1]);
    assert a in s1.entries && s1.entries[a] == Readable(e);
  }

  // ---------------------------------------------------------------- dial parameters of a deleted server

  /** makeDialParametersKey */
  function DialKey(ip: bytes, network: bytes): bytes {
    ip + network
  }

  /** Deleting a server deletes its entry and its affinity, and no other's; all of its dial
      parameters, and those of another server exactly if the deleted server's ID is a prefix of that
      key. */
  lemma DeleteTakesDialParameters(s: Store, id: bytes, ip: bytes, network: bytes)
    ensures Delete(s, id).entries == s.entries - {id}
    ensures Delete(s, id).affinity == if s.affinity == Some(id) then None else s.affinity
    ensures DialKey(id, network) !in Delete(s, id).dialParameters
    ensures DialKey(ip, network) in s.dialParameters ==>
              (DialKey(ip, network) !in Delete(s, id).dialParameters <==> id <= DialKey(ip, network))
    ensures forall k :: k in Delete(s, id).dialParameters ==> Delete(s, id).dialParameters[k] == s.dialParameters[k]
  {
  }

  /** The dial parameters of 1.2.3.45 go with the server 1.2.3.4. */
  lemma DeleteTakesLongerIDs()
    ensures var short: bytes, long: bytes := [49, 46, 50, 46, 51, 46, 52], [49, 46, 50, 46, 51, 46, 52, 53];
      var s := EMPTY.(dialParameters := map[DialKey(long, [87]) := []]);
      DialKey(long, [87]) !in Delete(s, short).dialParameters
  {
    var short: bytes, long: bytes := [49, 46, 50, 46, 51, 46, 52], [49, 46, 50, 46, 51, 46, 52, 53];
    assert DialKey(long, [87])[..7] == short;
  }

  // ---------------------------------------------------------------- the store in place

  /** The keys of the records equal to a value, by a full scan. */
  method ScanValue(bucket: map<bytes, bytes>, cursor: seq<bytes>, value: bytes) returns (keys: seq<bytes>)
    requires IsCursor(cursor, bucket.Keys)
    ensures forall k :: k in keys <==> k in bucket && bucket[k] == value
  {
    keys := [];
    for i := 0 to |cursor|
      invariant forall k :: k in keys <==> k in cursor[..i] && k in bucket && bucket[k] == value
    {
      assert cursor[i] in cursor && cursor[..i + 1] == cursor[..i] + [cursor[i]];
      if bucket[cursor[i]] == value {
        keys := keys + [cursor[i]];
      }
    }
    assert cursor[..|cursor|] == cursor;
  }

  /** The deletion loop after a scan. */
  method DeleteKeys(bucket: map<bytes, bytes>, keys: seq<bytes>) returns (r: map<bytes, bytes>)
    ensures r == map k | k in bucket && k !in keys :: bucket[k]
  {
    r := bucket;
    for i := 0 to |keys|
      invariant r == map k | k in bucket && k !in keys[..i] :: bucket[k]
    {
      assert keys[..i + 1] == keys[..i] + [keys[i]];
      r := r - {keys[i]};
    }
    assert keys[..|keys|] == keys;
  }

  class ServerEntryStore {
    var serverEntries: map<bytes, Stored>
    var serverEntryTags: map<bytes, bytes>
    var tombstoneTags: set<bytes>
    var affinityServerEntryID: Option<bytes>
    var dialParameters: map<bytes, bytes>

    ghost function State(): Store
      reads this
    {
      Store(serverEntries, serverEntryTags, tombstoneTags, affinityServerEntryID, dialParameters)
    }

    constructor ()
      ensures State() == EMPTY
    {
      serverEntries, serverEntryTags, tombstoneTags := map[], map[], {};
      affinityServerEntryID, dialParameters := None, map[];
    }

    method StoreServerEntry(id: bytes, e: Entry, replaceIfExists: bool) returns (ok: bool)
      modifies this
      ensures (State(), ok) == StoreEntry(old(State()), id, e, replaceIfExists)
    {
      var existingVersion := -1;
      if id in serverEntries && serverEntries[id].Readable? {
        existingVersion := serverEntries[id].entry.version;
      }
      var exists' := existingVersion > -1;
      var newer := exists' && existingVersion < e.version;
      if !(!exists' || replaceIfExists || newer) {
        return true;
      }
      if e.embedded && e.tag in tombstoneTags {
        return true;
      }
      var record := Encode(id, e.version);
      if record.None? {
        return false;
      }
      serverEntries := serverEntries[id := Readable(e)];
      serverEntryTags := serverEntryTags[e.tag := record.value];
      return true;
    }

    method PromoteServerEntry(id: bytes)
      modifies this`affinityServerEntryID
      ensures State() == Promote(old(State()), id)
      ensures AffinityOk(old(State())) ==> AffinityOk(State())
      ensures affinityServerEntryID == Some(id) <==> id in serverEntries || old(affinityServerEntryID) == Some(id)
    {
      if id in serverEntries {
        affinityServerEntryID := Some(id);
      }
    }

    method DeleteServerEntryAffinity(id: bytes)
      modifies this`affinityServerEntryID
      ensures State() == DeleteAffinity(old(State()), id)
      ensures AffinityOk(old(State())) ==> AffinityOk(State())
      ensures affinityServerEntryID != Some(id)
      ensures old(affinityServerEntryID) != Some(id) ==> State() == old(State())
    {
      if affinityServerEntryID == Some(id) {
        affinityServerEntryID := None;
      }
    }

    /** The entry, its affinity, and its dial parameters by a scan that stops early. */
    method DeleteServerEntryHelper(id: bytes, dialCursor: seq<bytes>)
      requires IsCursor(dialCursor, dialParameters.Keys)
      modifies this`serverEntries, this`affinityServerEntryID, this`dialParameters
      ensures State() == DeleteHelper(old(State()), id)
    {
      serverEntries := serverEntries - {id};
      if affinityServerEntryID == Some(id) {
        affinityServerEntryID := None;
      }
      var deleteKeys := ScanPrefix(dialCursor, id);
      dialParameters := DeleteKeys(dialParameters, deleteKeys);
      ghost var before := old(dialParameters);
      assert forall k :: k in before ==> k in dialCursor;
      assert dialParameters == map k | k in before && !(id <= k) :: before[k];
    }

    method DeleteServerEntry(id: bytes, dialCursor: seq<bytes>, tagCursor: seq<bytes>)
      requires IsCursor(dialCursor, dialParameters.Keys) && IsCursor(tagCursor, serverEntryTags.Keys)
      modifies this
      ensures State() == Delete(old(State()), id)
    {
      DeleteServerEntryHelper(id, dialCursor);
      var deleteKeys := ScanValue(serverEntryTags, tagCursor, id);
      serverEntryTags := DeleteKeys(serverEntryTags, deleteKeys);
      ghost var before := old(serverEntryTags);
      assert serverEntryTags == map t | t in before && before[t] != id :: before[t];
    }

    method PruneServerEntry(tag: bytes, timestamp: Option<bool>, dialCursor: seq<bytes>)
      returns (pruned: bool, ok: bool)
      requires IsCursor(dialCursor, dialParameters.Keys)
      modifies this
      ensures (State(), pruned, ok) == Prune(old(State()), tag, timestamp)
    {
      if tag !in serverEntryTags {
        return false, false;
      }
      var record := Decode(serverEntryTags[tag]);
      if record.None? || record.value.id !in serverEntries
         || serverEntries[record.value.id].Corrupt? || timestamp.None? {
        return false, false;
      }
      if !timestamp.value {
        return false, true;
      }
      var entry := serverEntries[record.value.id].entry;
      serverEntryTags := serverEntryTags - {tag};
      if entry.tag == tag {
        DeleteServerEntryHelper(record.value.id, dialCursor);
      }
      if entry.embedded {
        tombstoneTags := tombstoneTags + {tag};
      }
      return true, true;
    }
  }
}
