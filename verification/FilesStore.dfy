/** The files datastore backend (psiphon/dataStore_files.go): one file for each key, replaced through a
    ".put" file that is renamed to ".commit" and then to its final name. A crash may come between any
    two file operations, and in the middle of writing the ".put" file. */
module FilesStore {
  import opened Bytes

  /** The files of a bucket directory. */
  type Files = map<string, bytes>

  const HEX := "0123456789abcdef"

  /** hex.EncodeToString */
  function Hex(key: bytes): string {
    if key == [] then "" else [HEX[key[0] as int / 16], HEX[key[0] as int % 16]] + Hex(key[1..])
  }

  function Main(key: bytes): string {
    Hex(key)
  }

  function PutFile(key: bytes): string {
    Hex(key) + ".put"
  }

  function CommitFile(key: bytes): string {
    Hex(key) + ".commit"
  }

  function Lookup(files: Files, name: string): Option<bytes> {
    if name in files then Some(files[name]) else None
  }

  /** What a read of the key returns: a pending commit counts as done. */
  function Value(files: Files, key: bytes): Option<bytes> {
    if CommitFile(key) in files then Some(files[CommitFile(key)]) else Lookup(files, Main(key))
  }

  // ---------------------------------------------------------------- file names

  lemma {:induction false} HexDigits(key: bytes, i: nat)
    requires i < |Hex(key)|
    ensures Hex(key)[i] in HEX && |Hex(key)| == 2 * |key|
  {
    if key != [] {
      var head := [HEX[key[0] as int / 16], HEX[key[0] as int % 16]];
      assert Hex(key) == head + Hex(key[1..]);
      if i >= 2 {
        HexDigits(key[1..], i - 2);
      } else if key[1..] != [] {
        assert Hex(key[1..]) != "";
        HexDigits(key[1..], 0);
      }
    }
  }

  lemma DigitInjective(a: nat, b: nat)
    requires a < 16 && b < 16 && HEX[a] == HEX[b]
    ensures a == b
  {
  }

  lemma {:induction false} HexInjective(a: bytes, b: bytes)
    requires Hex(a) == Hex(b)
    ensures a == b
  {
    if a != [] {
      assert Hex(a)[0] == HEX[a[0] as int / 16] && Hex(a)[1] == HEX[a[0] as int % 16];
      assert Hex(b)[0] == HEX[b[0] as int / 16] && Hex(b)[1] == HEX[b[0] as int % 16];
      DigitInjective(a[0] as int / 16, b[0] as int / 16);
      DigitInjective(a[0] as int % 16, b[0] as int % 16);
      assert Hex(a)[2..] == Hex(a[1..]) && Hex(b)[2..] == Hex(b[1..]);
      HexInjective(a[1..], b[1..]);
      assert a == [a[0]] + a[1..] && b == [b[0]] + b[1..];
    }
  }

  /** A name ends where its dot is: names of different keys, or with different endings, differ. */
  lemma NamesDiffer(a: bytes, b: bytes, x: string, y: string)
    requires (x == "" || x[0] == '.') && (y == "" || y[0] == '.') && Hex(a) + x == Hex(b) + y
    ensures a == b && x == y
  {
    var s, h, g := Hex(a) + x, |Hex(a)|, |Hex(b)|;
    assert s == Hex(b) + y;
    if h < g {
      assert s[h] == Hex(b)[h] && s[h] == x[0];
      HexDigits(b, h);
      assert false;
    } else if g < h {
      assert s[g] == Hex(a)[g] && s[g] == y[0];
      HexDigits(a, g);
      assert false;
    }
    assert s[..h] == Hex(a) && s[..h] == Hex(b) && s[h..] == x && s[h..] == y;
    HexInjective(a, b);
  }

  /** The three files of a key are its own. */
  lemma OwnFiles(a: bytes, b: bytes)
    ensures Main(a) != PutFile(b) && Main(a) != CommitFile(b) && PutFile(a) != CommitFile(b)
    ensures a != b ==> Main(a) != Main(b) && PutFile(a) != PutFile(b) && CommitFile(a) != CommitFile(b)
  {
    assert Hex(a) + "" == Hex(a) && Hex(b) + "" == Hex(b) && ".put" != ".commit";
    if Main(a) == PutFile(b) { NamesDiffer(a, b, "", ".put"); }
    if Main(a) == CommitFile(b) { NamesDiffer(a, b, "", ".commit"); }
    if PutFile(a) == CommitFile(b) { NamesDiffer(a, b, ".put", ".commit"); }
    if a != b {
      if Main(a) == Main(b) { NamesDiffer(a, b, "", ""); }
      if PutFile(a) == PutFile(b) { NamesDiffer(a, b, ".put", ".put"); }
      if CommitFile(a) == CommitFile(b) { NamesDiffer(a, b, ".commit", ".commit"); }
    }
  }

  // ---------------------------------------------------------------- put and delete, step by step

  function Renamed(files: Files, source: string, target: string): Files
    requires source in files
  {
    (files - {source})[target := files[source]]
  }

  /** datastoreApplyCommit */
  function Applied(files: Files, key: bytes): Files {
    if CommitFile(key) in files then Renamed(files, CommitFile(key), Main(key)) else files
  }

  /** The files after the first n of put's four file operations. written is how much of the ".put" file
      a crash during its writing leaves. */
  function AfterPut(files: Files, key: bytes, value: bytes, n: nat, written: nat): Files {
    var applied := Applied(files, key);
    if n == 0 then files
    else if n == 1 then applied
    else if n == 2 then applied[PutFile(key) := if written < |value| then value[..written] else value]
    else
      var committed := Renamed(applied[PutFile(key) := value], PutFile(key), CommitFile(key));
      if n == 3 then committed else Applied(committed, key)
  }

  /** The files after the first n of delete's three removals. */
  function AfterDelete(files: Files, key: bytes, n: nat): Files {
    if n == 0 then files
    else if n == 1 then files - {PutFile(key)}
    else if n == 2 then files - {PutFile(key), CommitFile(key)}
    else files - {PutFile(key), CommitFile(key), Main(key)}
  }

  /** Reads complete a pending commit, and change no value. */
  lemma ReadsChangeNothing(files: Files, key: bytes, other: bytes)
    ensures Value(Applied(files, key), other) == Value(files, other)
    ensures Lookup(Applied(files, key), Main(key)) == Value(files, key)
  {
    OwnFiles(key, other);
    OwnFiles(other, key);
    OwnFiles(key, key);
  }

  /** Crash-safe put: wherever it stops, a read gives the value before or the new one, never a partial
      one; once it has finished, the new one; and other keys keep their values. */
  lemma InterruptedPut(files: Files, key: bytes, value: bytes, n: nat, written: nat, other: bytes)
    ensures Value(AfterPut(files, key, value, n, written), key) == if n >= 3 then Some(value) else Value(files, key)
    ensures other != key ==> Value(AfterPut(files, key, value, n, written), other) == Value(files, other)
  {
    OwnFiles(key, other);
    OwnFiles(other, key);
    OwnFiles(key, key);
    ReadsChangeNothing(files, key, key);
    ReadsChangeNothing(files, key, other);
  }

  /** An interrupted delete leaves the value or nothing, exactly if it does not stop between removing
      a pending commit and the older value under it; a finished one leaves nothing. */
  lemma InterruptedDelete(files: Files, key: bytes, n: nat, other: bytes)
    ensures n >= 3 ==> Value(AfterDelete(files, key, n), key) == None
    ensures var after := Value(AfterDelete(files, key, n), key);
      (after == Value(files, key) || after == None) <==>
        !(n == 2 && CommitFile(key) in files && Main(key) in files && files[Main(key)] != files[CommitFile(key)])
    ensures other != key ==> Value(AfterDelete(files, key, n), other) == Value(files, other)
  {
    OwnFiles(key, other);
    OwnFiles(other, key);
    OwnFiles(key, key);
  }

  /** A delete interrupted there brings back the value before the last put, whose commit a crash left
      pending. */
  lemma DeleteRevives(key: bytes, older: bytes, newer: bytes)
    ensures var files := map[Main(key) := older];
      var pending := AfterPut(files, key, newer, 3, 0);
      Value(pending, key) == Some(newer) && Value(AfterDelete(pending, key, 2), key) == Some(older)
  {
    OwnFiles(key, key);
  }

  // ---------------------------------------------------------------- runs

  /** An operation and how far it gets: n of its file operations. */
  datatype Op =
    | PutOp(key: bytes, value: bytes, n: nat, written: nat)
    | DeleteOp(key: bytes, n: nat)
    | GetOp(key: bytes)

  function After(files: Files, op: Op): Files {
    match op
    case PutOp(key, value, n, written) => AfterPut(files, key, value, n, written)
    case DeleteOp(key, n) => AfterDelete(files, key, n)
    case GetOp(key) => Applied(files, key)
  }

  function Exec(files: Files, run: seq<Op>): Files {
    if run == [] then files else After(Exec(files, run[..|run| - 1]), run[|run| - 1])
  }

  /** The operation was not interrupted. */
  predicate Done(op: Op) {
    match op
    case PutOp(_, _, n, _) => n >= 4
    case DeleteOp(_, n) => n >= 3
    case GetOp(_) => true
  }

  /** The value that the operation gives its key, or reads. */
  function Meant(files: Files, op: Op): Option<bytes> {
    match op
    case PutOp(_, value, _, _) => Some(value)
    case DeleteOp(_, _) => None
    case GetOp(key) => Value(files, key)
  }

  /** The value and the older one under a pending commit, after one more operation. */
  lemma OpEffect(files: Files, op: Op, key: bytes)
    ensures var (after, v, older) := (After(files, op), Value(files, key), Lookup(files, Main(key)));
      var (v', older') := (Value(after, key), Lookup(after, Main(key)));
      if op.key != key then v' == v && older' == older
      else if Done(op) then v' == Meant(files, op) && older' == Meant(files, op)
      else v' in {v, older, Meant(files, op)} && older' in {v, older}
  {
    OwnFiles(key, op.key);
    OwnFiles(op.key, key);
    OwnFiles(key, key);
    match op
    case PutOp(_, value, n, written) => InterruptedPut(files, op.key, value, n, written, key);
    case DeleteOp(_, n) => InterruptedDelete(files, op.key, n, key);
    case GetOp(_) => ReadsChangeNothing(files, op.key, key);
  }

  /** v is the key's value at the start (i == 0), or the one under a commit pending there, or that of the
      i-th operation, and no operation on the key has been completed since. */
  ghost predicate Durable(files: Files, run: seq<Op>, key: bytes, v: Option<bytes>, i: nat) {
    && i <= |run|
    && (if i == 0 then v == Value(files, key) || (CommitFile(key) in files && v == Lookup(files, Main(key)))
        else run[i - 1].key == key && v == Meant(Exec(files, run[..i - 1]), run[i - 1]))
    && forall j :: i <= j < |run| && run[j].key == key ==> !Done(run[j])
  }

  lemma DurableNext(files: Files, run: seq<Op>, key: bytes, v: Option<bytes>, i: nat)
    requires run != [] && Durable(files, run[..|run| - 1], key, v, i)
    requires run[|run| - 1].key != key || !Done(run[|run| - 1])
    ensures Durable(files, run, key, v, i)
  {
    var front := run[..|run| - 1];
    if i > 0 {
      assert front[..i - 1] == run[..i - 1];
    }
    assert forall j :: 0 <= j < |front| ==> front[j] == run[j];
  }

  lemma {:induction false} ValuesLast(files: Files, run: seq<Op>, key: bytes) returns (i: nat, m: nat)
    ensures Durable(files, run, key, Value(Exec(files, run), key), i)
    ensures Durable(files, run, key, Lookup(Exec(files, run), Main(key)), m)
  {
    if run == [] {
      i, m := 0, 0;
    } else {
      var front, op := run[..|run| - 1], run[|run| - 1];
      var before, after := Exec(files, front), Exec(files, run);
      i, m := ValuesLast(files, front, key);
      OpEffect(before, op, key);
      if op.key == key && Done(op) {
        i, m := |run|, |run|;
      } else {
        DurableNext(files, run, key, Value(before, key), i);
        DurableNext(files, run, key, Lookup(before, Main(key)), m);
        var i', m' := i, m;
        if Value(after, key) == Value(before, key) {
        } else if Value(after, key) == Lookup(before, Main(key)) {
          i := m';
        } else {
          i := |run|;
        }
        if Lookup(after, Main(key)) != Lookup(before, Main(key)) {
          m := i';
        }
      }
    }
  }

  /** Durability: after any run of puts, deletes and reads, each interrupted anywhere, a key has the
      value that its last completed operation left or read, or that an interrupted one after it was to
      give it. */
  lemma DurableValues(files: Files, run: seq<Op>, key: bytes)
    ensures exists i :: Durable(files, run, key, Value(Exec(files, run), key), i)
  {
    var i, m := ValuesLast(files, run, key);
  }

  // ---------------------------------------------------------------- the bucket in place

  class FilesBucket {
    var files: Files

    constructor ()
      ensures files == map[]
    {
      files := map[];
    }

    method ApplyCommit(key: bytes)
      modifies this
      ensures files == Applied(old(files), key) && CommitFile(key) !in files
      ensures Lookup(files, Main(key)) == Value(old(files), key)
      ensures forall k :: Value(files, k) == Value(old(files), k)
    {
      ghost var before := files;
      forall k
        ensures Value(Applied(before, key), k) == Value(before, k)
      {
        ReadsChangeNothing(before, key, k);
      }
      ReadsChangeNothing(before, key, key);
      OwnFiles(key, key);
      if CommitFile(key) in files {
        files := Renamed(files, CommitFile(key), Main(key));
      }
    }

    method Get(key: bytes) returns (value: Option<bytes>)
      modifies this
      ensures files == After(old(files), GetOp(key)) && value == Meant(old(files), GetOp(key))
      ensures forall k :: Value(files, k) == Value(old(files), k)
    {
      ApplyCommit(key);
      value := Lookup(files, Main(key));
    }

    /** Any file operation may be the last before a crash or an error. */
    method Put(key: bytes, value: bytes) returns (done: bool)
      modifies this
      ensures exists n, written :: files == After(old(files), PutOp(key, value, n, written)) && (done <==> n >= 4)
      ensures if done then Value(files, key) == Some(value)
              else Value(files, key) == Value(old(files), key) || Value(files, key) == Some(value)
      ensures forall k :: k != key ==> Value(files, k) == Value(old(files), k)
    {
      ghost var before := files;
      ghost var n, written := 0, 0;
      var crash: bool := *;
      if !crash {
        ApplyCommit(key);
        n := 1;
        crash := *;
      }
      if !crash {
        var size :| 0 <= size <= |value|;
        files := files[PutFile(key) := value[..size]];
        assert size == |value| ==> value[..size] == value;
        n, written := 2, size;
        crash := *;
        if size < |value| {
          crash := true;
        }
      }
      if !crash {
        files := Renamed(files, PutFile(key), CommitFile(key));
        n := 3;
        crash := *;
      }
      if !crash {
        ApplyCommit(key);
        n := 4;
      }
      assert files == After(before, PutOp(key, value, n, written));
      forall k
        ensures k != key ==> Value(files, k) == Value(before, k)
      {
        InterruptedPut(before, key, value, n, written, k);
      }
      InterruptedPut(before, key, value, n, written, key);
      done := !crash;
    }

    method Delete(key: bytes) returns (done: bool)
      modifies this
      ensures exists n :: files == After(old(files), DeleteOp(key, n)) && (done <==> n >= 3)
      ensures if done then Value(files, key) == None
              else Value(files, key) in {Value(old(files), key), None} ||
                   (CommitFile(key) in old(files) && Value(files, key) == Lookup(old(files), Main(key)))
      ensures forall k :: k != key ==> Value(files, k) == Value(old(files), k)
    {
      ghost var before := files;
      var names := [PutFile(key), CommitFile(key), Main(key)];
      var i := 0;
      done := true;
      while i < 3 && done
        invariant i <= 3 && files == AfterDelete(before, key, i)
        invariant done || i < 3
        decreases 3 - i, done
      {
        var crash: bool := *;
        if crash {
          done := false;
        } else {
          files := files - {names[i]};
          i := i + 1;
        }
      }
      assert files == After(before, DeleteOp(key, i));
      forall k
        ensures k != key ==> Value(files, k) == Value(before, k)
      {
        InterruptedDelete(before, key, i, k);
      }
      InterruptedDelete(before, key, i, key);
    }
  }
}
