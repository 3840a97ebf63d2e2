/** What fits in one batch of persistent stats (psiphon/dataStore.go): the records waiting in each
    stat type are taken in order until the byte limit is reached, and at least one of each type. */
module StatBatches {
  import opened Bytes

  /** A record: its stat type and its JSON data, which is the key. */
  datatype Stat = Stat(kind: nat, data: bytes)

  function Size(s: Stat): nat {
    |s.data|
  }

  /** The bytes of the first n records. */
  function Sum(s: seq<Stat>, n: nat): nat
    requires n <= |s|
  {
    if n == 0 then 0 else Sum(s, n - 1) + Size(s[n - 1])
  }

  function Total(s: seq<Stat>): nat {
    Sum(s, |s|)
  }

  function Max(a: int, b: int): int {
    if a > b then a else b
  }

  /** The size of the longest of the first n records. */
  function LongestOf(s: seq<Stat>, n: nat): nat
    requires n <= |s|
  {
    if n == 0 then 0 else Max(LongestOf(s, n - 1), Size(s[n - 1]))
  }

  function Longest(s: seq<Stat>): nat {
    LongestOf(s, |s|)
  }

  lemma {:induction false} SameRecords(s: seq<Stat>, s': seq<Stat>, n: nat)
    requires n <= |s| && n <= |s'| && forall i :: 0 <= i < n ==> s[i] == s'[i]
    ensures Sum(s, n) == Sum(s', n) && LongestOf(s, n) == LongestOf(s', n)
  {
    if n > 0 {
      SameRecords(s, s', n - 1);
    }
  }

  lemma OneMore(s: seq<Stat>, x: Stat)
    ensures Total(s + [x]) == Total(s) + Size(x)
  {
    SameRecords(s + [x], s, |s|);
  }

  lemma {:induction false} JoinedUpTo(a: seq<Stat>, b: seq<Stat>, n: nat)
    requires n <= |b|
    ensures Sum(a + b, |a| + n) == Total(a) + Sum(b, n)
    ensures LongestOf(a + b, |a| + n) == Max(Longest(a), LongestOf(b, n))
  {
    if n == 0 {
      SameRecords(a + b, a, |a|);
    } else {
      JoinedUpTo(a, b, n - 1);
    }
  }

  lemma Joined(a: seq<Stat>, b: seq<Stat>)
    ensures Total(a + b) == Total(a) + Total(b)
    ensures Longest(a + b) == Max(Longest(a), Longest(b))
  {
    JoinedUpTo(a, b, |b|);
  }

  /** A record has data: an empty key is not JSON. */
  predicate NonEmpty(s: seq<Stat>) {
    forall i :: 0 <= i < |s| ==> Size(s[i]) > 0
  }

  lemma {:induction false} SumGrows(s: seq<Stat>, m: nat, n: nat)
    requires m <= n <= |s|
    ensures Sum(s, m) <= Sum(s, n)
    ensures NonEmpty(s) && m < n ==> Sum(s, m) < Sum(s, n)
  {
    if m < n {
      SumGrows(s, m, n - 1);
    }
  }

  // ---------------------------------------------------------------- one stat type

  /** How many of the first n records are taken, with room for so many bytes: the loop goes on until
      the record that uses up the room. */
  function Taken(s: seq<Stat>, n: nat, room: int): (k: nat)
    requires n <= |s|
    ensures k <= n && (n > 0 ==> k > 0)
  {
    if n == 0 then 0 else
    var k := Taken(s, n - 1, room);
    if k == n - 1 && (k == 0 || Sum(s, k) < room) then n else k
  }

  /** The records taken of one stat type. */
  function Cut(s: seq<Stat>, room: int): seq<Stat> {
    s[..Taken(s, |s|, room)]
  }

  /** All records are taken unless the last one taken uses up the room, which those before do not. */
  lemma {:induction false} TakenStops(s: seq<Stat>, n: nat, room: int)
    requires n <= |s|
    ensures var k := Taken(s, n, room);
      (k == n || Sum(s, k) >= room) && (k > 1 ==> Sum(s, k - 1) < room)
  {
    if n > 0 {
      TakenStops(s, n - 1, room);
    }
  }

  /** No other number of records is such. */
  lemma TakenUnique(s: seq<Stat>, k: nat, room: int)
    requires k <= |s| && (s != [] ==> k > 0)
    requires (k == |s| || Sum(s, k) >= room) && (k > 1 ==> Sum(s, k - 1) < room)
    ensures Taken(s, |s|, room) == k
  {
    var t := Taken(s, |s|, room);
    TakenStops(s, |s|, room);
    if t < k {
      SumGrows(s, t, k - 1);
    } else if k < t {
      SumGrows(s, k, t - 1);
    }
  }

  lemma CutTotal(s: seq<Stat>, room: int)
    ensures var k := Taken(s, |s|, room);
      Total(Cut(s, room)) == Sum(s, k) && Longest(Cut(s, room)) == LongestOf(s, k)
  {
    SameRecords(Cut(s, room), s, Taken(s, |s|, room));
  }

  /** The records taken are the first ones, at least one if there is any, and all of them unless they
      use up the room, which is exceeded by less than one record. */
  lemma CutFacts(s: seq<Stat>, room: int)
    ensures Total(Cut(s, room)) <= Total(s) && (s != [] ==> Cut(s, room) != [])
    ensures Cut(s, room) == s || Total(Cut(s, room)) >= room
    ensures Total(Cut(s, room)) <= Max(room - 1, 0) + Longest(Cut(s, room))
  {
    CutTotal(s, room);
    TakenStops(s, |s|, room);
    SumGrows(s, Taken(s, |s|, room), |s|);
  }

  /** The records use up the room exactly at some record. */
  ghost predicate Hits(s: seq<Stat>, room: int) {
    exists n :: 0 < n <= |s| && Sum(s, n) == room
  }

  /** ... exactly if the records taken do. */
  lemma CutHits(s: seq<Stat>, room: int)
    requires NonEmpty(s)
    ensures Hits(s, room) <==> s != [] && Total(Cut(s, room)) == room
  {
    var k := Taken(s, |s|, room);
    CutTotal(s, room);
    TakenStops(s, |s|, room);
    if n :| 0 < n <= |s| && Sum(s, n) == room && n != k {
      SumGrows(s, Max(n, k) - 1, Max(n, k));
      if n < k {
        SumGrows(s, n, k - 1);
      } else {
        SumGrows(s, k, n);
      }
    }
  }

  // ---------------------------------------------------------------- all stat types

  /** The bytes of all the records of the first t stat types. */
  function SumOf(waiting: seq<seq<Stat>>, t: nat): nat
    requires t <= |waiting|
  {
    if t == 0 then 0 else SumOf(waiting, t - 1) + Total(waiting[t - 1])
  }

  /** The batch taken of the first t stat types: the limit counts over all of them, but is looked at
      only after a record. */
  function Batch(waiting: seq<seq<Stat>>, t: nat, limit: int): seq<Stat>
    requires t <= |waiting|
  {
    if t == 0 then [] else
    var batch := Batch(waiting, t - 1, limit);
    batch + Cut(waiting[t - 1], limit - Total(batch))
  }

  /** The bytes counted. */
  function Sent(waiting: seq<seq<Stat>>, t: nat, limit: int): nat
    requires t <= |waiting|
  {
    if t == 0 then 0 else
    var sent := Sent(waiting, t - 1, limit);
    sent + Total(Cut(waiting[t - 1], limit - sent))
  }

  lemma {:induction false} SentIsTotal(waiting: seq<seq<Stat>>, t: nat, limit: int)
    requires t <= |waiting|
    ensures Sent(waiting, t, limit) == Total(Batch(waiting, t, limit))
  {
    if t > 0 {
      SentIsTotal(waiting, t - 1, limit);
      var batch := Batch(waiting, t - 1, limit);
      Joined(batch, Cut(waiting[t - 1], limit - Total(batch)));
    }
  }

  /** A batch below the limit holds all the bytes there are. */
  lemma {:induction false} BelowLimit(waiting: seq<seq<Stat>>, t: nat, limit: int)
    requires t <= |waiting|
    ensures Sent(waiting, t, limit) <= SumOf(waiting, t)
    ensures Sent(waiting, t, limit) < limit ==> Sent(waiting, t, limit) == SumOf(waiting, t)
  {
    if t > 0 {
      BelowLimit(waiting, t - 1, limit);
      CutFacts(waiting[t - 1], limit - Sent(waiting, t - 1, limit));
    }
  }

  /** In the order of stat types and cursors, the limit is reached exactly at some record of the last
      stat type that has any waiting. */
  ghost predicate ReachesExactly(waiting: seq<seq<Stat>>, t: nat, limit: int)
    requires t <= |waiting|
  {
    t > 0 &&
    if waiting[t - 1] == [] then ReachesExactly(waiting, t - 1, limit)
    else Hits(waiting[t - 1], limit - SumOf(waiting, t - 1))
  }

  /** What is known before the call: all records fit, or they reach the limit exactly. */
  ghost predicate FitsLimit(waiting: seq<seq<Stat>>, limit: int) {
    SumOf(waiting, |waiting|) <= limit || ReachesExactly(waiting, |waiting|, limit)
  }

  lemma LastFits(last: seq<Stat>, before: nat, sent: nat, limit: int)
    requires NonEmpty(last) && last != []
    requires sent <= before && (sent < limit ==> sent == before)
    ensures sent + Total(Cut(last, limit - sent)) <= limit <==>
            before + Total(last) <= limit || Hits(last, limit - before)
  {
    CutFacts(last, limit - sent);
    CutTotal(last, limit - sent);
    SumGrows(last, 0, Taken(last, |last|, limit - sent));
    CutTotal(last, limit - before);
    SumGrows(last, 0, Taken(last, |last|, limit - before));
    SumGrows(last, 0, |last|);
    CutHits(last, limit - before);
  }

  /** A batch stays within the byte limit exactly if all records together do, or they reach it
      exactly at some record and no later stat type has one waiting. */
  lemma {:induction false} BatchWithinLimit(waiting: seq<seq<Stat>>, t: nat, limit: int)
    requires t <= |waiting| && forall u :: 0 <= u < t ==> NonEmpty(waiting[u])
    ensures Sent(waiting, t, limit) <= limit <==>
            SumOf(waiting, t) <= limit || ReachesExactly(waiting, t, limit)
  {
    if t > 0 {
      BelowLimit(waiting, t - 1, limit);
      if waiting[t - 1] == [] {
        BatchWithinLimit(waiting, t - 1, limit);
      } else {
        LastFits(waiting[t - 1], SumOf(waiting, t - 1), Sent(waiting, t - 1, limit), limit);
      }
    }
  }
}
