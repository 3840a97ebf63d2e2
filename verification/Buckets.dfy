/** Datastore buckets: finite maps whose cursors run over the keys in byte order. */
module Buckets {
  import opened Bytes

  /** Byte-wise lexicographic order. */
  predicate Less(a: bytes, b: bytes) {
    b != [] && (a == [] || a[0] < b[0] || (a[0] == b[0] && Less(a[1..], b[1..])))
  }

  lemma {:induction false} LessTransitive(a: bytes, b: bytes, c: bytes)
    requires Less(a, b) && Less(b, c)
    ensures Less(a, c)
  {
    if a != [] && a[0] == b[0] == c[0] {
      LessTransitive(a[1..], b[1..], c[1..]);
    }
  }

  lemma {:induction false} LessTotal(a: bytes, b: bytes)
    ensures Less(a, b) || a == b || Less(b, a)
    ensures !(Less(a, b) && Less(b, a)) && !Less(a, a)
  {
    if a != [] {
      LessTotal(a[1..], a[1..]);
    }
    if a != [] && b != [] && a[0] == b[0] {
      LessTotal(a[1..], b[1..]);
      assert a == [a[0]] + a[1..] && b == [b[0]] + b[1..];
    }
  }

  /** Keys with a common prefix are next to each other. */
  lemma {:induction false} PrefixConvex(p: bytes, a: bytes, b: bytes, c: bytes)
    requires Less(a, b) && Less(b, c) && p <= a && p <= c
    ensures p <= b
  {
    if p != [] {
      assert a[0] == p[0] == c[0] == b[0];
      PrefixConvex(p[1..], a[1..], b[1..], c[1..]);
      assert p == [p[0]] + p[1..] && b == [b[0]] + b[1..];
    }
  }

  ghost predicate Sorted(keys: seq<bytes>) {
    forall i, j :: 0 <= i < j < |keys| ==> Less(keys[i], keys[j])
  }

  /** The cursor of a bucket with these keys. */
  ghost predicate IsCursor(cursor: seq<bytes>, keys: set<bytes>) {
    Sorted(cursor) && forall k :: k in cursor <==> k in keys
  }

  lemma {:induction false} Insert(cursor: seq<bytes>, keys: set<bytes>, k: bytes) returns (r: seq<bytes>)
    requires IsCursor(cursor, keys) && k !in keys
    ensures IsCursor(r, keys + {k})
    decreases |cursor|
  {
    if cursor == [] {
      r := [k];
    } else {
      var last := cursor[|cursor| - 1];
      LessTotal(last, k);
      assert last in cursor;
      if Less(last, k) {
        r := cursor + [k];
        forall i | 0 <= i < |cursor|
          ensures Less(cursor[i], k)
        {
          if i < |cursor| - 1 {
            LessTransitive(cursor[i], last, k);
          }
        }
      } else {
        var front := cursor[..|cursor| - 1];
        assert forall x :: x in front ==> x in cursor;
        assert cursor == front + [last];
        assert last !in front by {
          LessTotal(last, last);
        }
        var r' := Insert(front, keys - {last}, k);
        r := r' + [last];
        forall i | 0 <= i < |r'|
          ensures Less(r'[i], last)
        {
          assert r'[i] in r';
        }
      }
    }
  }

  /** Every bucket has a cursor. */
  lemma {:induction false} CursorExists(keys: set<bytes>) returns (cursor: seq<bytes>)
    ensures IsCursor(cursor, keys)
    decreases keys
  {
    if keys == {} {
      cursor := [];
    } else {
      var k :| k in keys;
      var c := CursorExists(keys - {k});
      cursor := Insert(c, keys - {k}, k);
      assert keys - {k} + {k} == keys;
    }
  }

  /** The keys with prefix p, by a look at every key. */
  function WithPrefix(keys: seq<bytes>, p: bytes): (r: seq<bytes>)
    ensures forall k :: k in r <==> k in keys && p <= k
  {
    if keys == [] then [] else
    var front, last := keys[..|keys| - 1], keys[|keys| - 1];
    assert keys == front + [last];
    WithPrefix(front, p) + if p <= last then [last] else []
  }

  /** After the end of a group of keys with prefix p there are no more of them. */
  lemma {:induction false} NoMore(keys: seq<bytes>, p: bytes, i: nat, n: nat)
    requires Sorted(keys) && i < n <= |keys| && !(p <= keys[i]) && exists j :: 0 <= j < i && p <= keys[j]
    ensures WithPrefix(keys[..n], p) == WithPrefix(keys[..i], p)
    decreases n
  {
    if n == i + 1 {
      assert keys[..n][..|keys[..n]| - 1] == keys[..i];
    } else {
      NoMore(keys, p, i, n - 1);
      var j :| 0 <= j < i && p <= keys[j];
      if p <= keys[n - 1] {
        PrefixConvex(p, keys[j], keys[i], keys[n - 1]);
        assert false;
      }
      assert keys[..n][..|keys[..n]| - 1] == keys[..n - 1];
    }
  }

  /** The scan for keys with a prefix that stops at the end of the first group finds all of them. */
  method ScanPrefix(cursor: seq<bytes>, p: bytes) returns (found: seq<bytes>)
    requires Sorted(cursor)
    ensures found == WithPrefix(cursor, p)
  {
    found := [];
    var foundFirstMatch := false;
    for i := 0 to |cursor|
      invariant found == WithPrefix(cursor[..i], p)
      invariant foundFirstMatch <==> exists j :: 0 <= j < i && p <= cursor[j]
    {
      assert cursor[..i + 1][..i] == cursor[..i];
      if p <= cursor[i] {
        foundFirstMatch := true;
        found := found + [cursor[i]];
      } else if foundFirstMatch {
        NoMore(cursor, p, i, |cursor|);
        assert cursor[..|cursor|] == cursor;
        return;
      }
    }
    assert cursor[..|cursor|] == cursor;
  }
}
