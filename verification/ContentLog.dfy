/** The content log's serialising sink: one queue in submission order, drained into per-path files
    whose size ceiling stops writing and never rotates. Lines are taken as their UTF-8 bytes. */
module ContentLog {

  type Byte = b: int | 0 <= b < 256
  type Path = string

  const NEWLINE: Byte := 10

  import opened Wrappers

  /** A serialised record with its destination and the ceiling in force when it was submitted. */
  datatype Record = Record(path: Path, maxBytes: int, line: seq<Byte>)

  function Blob(r: Record): seq<Byte> {
    r.line + [NEWLINE]
  }

  function Blobs(records: seq<Record>): seq<Byte> {
    if |records| == 0 then [] else Blob(records[0]) + Blobs(records[1..])
  }

  /** The records queued for one file, in submission order. */
  function QueuedFor(pending: seq<Record>, path: Path): seq<Record> {
    if |pending| == 0 then []
    else (if pending[0].path == path then [pending[0]] else []) + QueuedFor(pending[1..], path)
  }

  predicate Full(r: Record, size: nat) {
    r.maxBytes > 0 && size >= r.maxBytes
  }

  /** How many of the records queued for a file of the given size are written. */
  function Admitted(records: seq<Record>, size: nat): (k: nat)
    ensures k <= |records|
  {
    if |records| == 0 || Full(records[0], size) then 0
    else 1 + Admitted(records[1..], size + |Blob(records[0])|)
  }

  function Written(records: seq<Record>, size: nat): seq<Byte> {
    Blobs(records[..Admitted(records, size)])
  }

  /** Dropping everything queued for a path, keeping the rest in order. */
  function Without(pending: seq<Record>, path: Path): seq<Record> {
    if |pending| == 0 then []
    else (if pending[0].path != path then [pending[0]] else []) + Without(pending[1..], path)
  }

  lemma {:induction false} WithoutQueued(pending: seq<Record>, path: Path, p: Path)
    ensures QueuedFor(Without(pending, path), p) == if p == path then [] else QueuedFor(pending, p)
    ensures |Without(pending, path)| <= |pending|
  {
    if |pending| > 0 {
      WithoutQueued(pending[1..], path, p);
      if pending[0].path != path {
        assert ([pending[0]] + Without(pending[1..], path))[1..] == Without(pending[1..], path);
      } else {
        assert [] + Without(pending[1..], path) == Without(pending[1..], path);
        if p != path { assert [] + QueuedFor(pending[1..], p) == QueuedFor(pending[1..], p); }
      }
    }
  }

  lemma WrittenFirst(records: seq<Record>, size: nat)
    requires |records| > 0 && !Full(records[0], size)
    ensures Written(records, size) == Blob(records[0]) + Written(records[1..], size + |Blob(records[0])|)
  {
    var k := Admitted(records[1..], size + |Blob(records[0])|);
    assert records[..k + 1][1..] == records[1..][..k];
  }

  /** A record is dropped only once its file has reached the record's ceiling. */
  lemma {:induction false} DropsOnlyWhenFull(records: seq<Record>, size: nat)
    ensures var k := Admitted(records, size);
      k < |records| ==> Full(records[k], size + |Blobs(records[..k])|)
  {
    if |records| > 0 && !Full(records[0], size) {
      DropsOnlyWhenFull(records[1..], size + |Blob(records[0])|);
      var k := Admitted(records[1..], size + |Blob(records[0])|);
      assert records[..k + 1][1..] == records[1..][..k];
      assert Blobs(records[..k + 1]) == Blob(records[0]) + Blobs(records[1..][..k]);
    }
  }

  /** The bytes of these records on disk: each line, and a newline after it. */
  function OnDisk(records: seq<Record>): seq<Byte> {
    if records == [] then [] else OnDisk(records[..|records| - 1]) + records[|records| - 1].line + [10]
  }

  lemma {:induction false} BlobsOnDisk(records: seq<Record>)
    ensures Blobs(records) == OnDisk(records)
  {
    if records != [] {
      var n := |records| - 1;
      BlobsOnDisk(records[..n]);
      BlobsAppend(records[..n], records[n]);
      assert records[..n] + [records[n]] == records;
    }
  }

  lemma {:induction false} BlobsAppend(records: seq<Record>, r: Record)
    ensures Blobs(records + [r]) == Blobs(records) + r.line + [10]
  {
    if records == [] {
      assert records + [r] == [r] && [r][1..] == [];
    } else {
      assert (records + [r])[1..] == records[1..] + [r];
      BlobsAppend(records[1..], r);
    }
  }

  /** Which of a file's records are written: they are written line by line up to the first that finds a
      positive ceiling of its own reached, and from there on none is. */
  lemma {:induction false} AdmittedExactly(records: seq<Record>, size: nat)
    ensures var k := Admitted(records, size);
      && Written(records, size) == OnDisk(records[..k])
      && (k < |records| ==> records[k].maxBytes > 0 && size + |OnDisk(records[..k])| >= records[k].maxBytes)
      && forall i :: 0 <= i < k ==> records[i].maxBytes <= 0 || size + |OnDisk(records[..i])| < records[i].maxBytes
  {
    var k := Admitted(records, size);
    BlobsOnDisk(records[..k]);
    DropsOnlyWhenFull(records, size);
    forall i | 0 <= i < k ensures records[i].maxBytes <= 0 || size + |OnDisk(records[..i])| < records[i].maxBytes {
      AdmittedNotFull(records, size, i);
      BlobsOnDisk(records[..i]);
    }
  }

  lemma {:induction false} AdmittedNotFull(records: seq<Record>, size: nat, i: nat)
    requires i < Admitted(records, size)
    ensures !Full(records[i], size + |Blobs(records[..i])|)
  {
    if i > 0 {
      AdmittedNotFull(records[1..], size + |Blob(records[0])|, i - 1);
      assert records[..i][1..] == records[1..][..i - 1];
    }
  }

  /** The records queued for a file are all those with its path, in the order they were submitted. */
  lemma {:induction false} QueuedInOrder(pending: seq<Record>, r: Record, path: Path)
    ensures QueuedFor([], path) == []
    ensures QueuedFor(pending + [r], path) == QueuedFor(pending, path) + if r.path == path then [r] else []
  {
    if pending == [] {
      assert pending + [r] == [r] && [r][1..] == [];
    } else {
      assert (pending + [r])[1..] == pending[1..] + [r];
      QueuedInOrder(pending[1..], r, path);
    }
  }

  /** The ceiling bounds the file: it is passed by less than one record, and never by a full file. */
  lemma {:induction false} CeilingBoundsFile(records: seq<Record>, size: nat, ceiling: int, longest: nat)
    requires ceiling > 0
    requires forall i :: 0 <= i < |records| ==> records[i].maxBytes == ceiling && |Blob(records[i])| <= longest
    ensures size + |Written(records, size)| <= if size > ceiling - 1 + longest then size else ceiling - 1 + longest
  {
    if |records| > 0 && !Full(records[0], size) {
      WrittenFirst(records, size);
      CeilingBoundsFile(records[1..], size + |Blob(records[0])|, ceiling, longest);
    }
  }

  class Sink {
    var pending: seq<Record>
    var files: map<Path, seq<Byte>>

    function Content(p: Path): seq<Byte>
      reads this`files
    {
      if p in files then files[p] else []
    }

    constructor (files: map<Path, seq<Byte>>)
      ensures this.files == files && pending == []
    {
      this.files, pending := files, [];
    }

    /** Fixes a record's place in its file. */
    method Enqueue(path: Path, maxBytes: int, line: seq<Byte>)
      modifies this`pending
      ensures pending == old(pending) + [Record(path, maxBytes, line)]
    {
      pending := pending + [Record(path, maxBytes, line)];
    }

    /** Writes the whole queue: every file grows by exactly the admitted prefix of its own records. */
    method Drain()
      modifies this
      ensures pending == []
      ensures forall p :: Content(p) == old(Content(p)) + Written(QueuedFor(old(pending), p), |old(Content(p))|)
      ensures forall p :: p in files <==> p in old(files) || Admitted(QueuedFor(old(pending), p), |old(Content(p))|) > 0
    {
      hide Written, QueuedFor, Admitted;
      var open: Option<Path> := None;
      var size := 0;
      while |pending| > 0
        invariant open.Some? ==> open.value in files && size == |files[open.value]|
        invariant forall p :: Due(p) == old(Due(p))
        invariant forall p :: Expected(p) <==> old(Expected(p))
        decreases |pending|
      {
        var r := pending[0];
        TakeFirst(pending, r);
        if open.Some? && r.path != open.value { open := None; }
        if open == None { size := |Content(r.path)|; }
        if r.maxBytes > 0 && size >= r.maxBytes {
          DiscardFor(r, size);
          continue;
        }
        Write(r, size);
        open := Some(r.path);
        size := size + |Blob(r)|;
      }
      forall p ensures Content(p) == Due(p) && (p in files <==> Expected(p)) { WrittenNothing(p, |Content(p)|); }
    }

    /** What a file will hold once the queue is drained. */
    ghost function Due(p: Path): seq<Byte>
      reads this
    {
      Content(p) + Written(QueuedFor(pending, p), |Content(p)|)
    }

    ghost predicate Expected(p: Path)
      reads this
    {
      p in files || Admitted(QueuedFor(pending, p), |Content(p)|) > 0
    }

    /** The file is full: the record and everything else queued for it are dropped. */
    method DiscardFor(r: Record, size: nat)
      requires |pending| > 0 && pending[0] == r && size == |Content(r.path)| && r.maxBytes > 0 && size >= r.maxBytes
      modifies this`pending
      ensures |pending| < |old(pending)|
      ensures forall p :: Due(p) == old(Due(p)) && (Expected(p) <==> old(Expected(p)))
    {
      hide Blobs;
      ghost var before := pending;
      pending := Without(pending[1..], r.path);
      forall p ensures Due(p) == old(Due(p)) && (Expected(p) <==> old(Expected(p))) {
        WithoutQueued(before[1..], r.path, p);
        TakeFirst(before, r);
        if p == r.path { FullDropsAll(QueuedFor(before, p), size); }
      }
      WithoutQueued(before[1..], r.path, r.path);
    }

    /** Appends one record, creating the file if it is not there. */
    method Write(r: Record, size: nat)
      requires |pending| > 0 && pending[0] == r && size == |Content(r.path)| && !Full(r, size)
      modifies this
      ensures pending == old(pending)[1..]
      ensures r.path in files && |files[r.path]| == size + |Blob(r)|
      ensures forall p :: Due(p) == old(Due(p)) && (Expected(p) <==> old(Expected(p)))
    {
      hide Written, Blob, QueuedFor;
      ghost var before := pending;
      ghost var was := Content(r.path);
      pending := pending[1..];
      files := files[r.path := Content(r.path) + Blob(r)];
      forall p ensures Due(p) == old(Due(p)) && (Expected(p) <==> old(Expected(p))) {
        TakeFirst(before, r);
        if p == r.path {
          WrittenFirst(QueuedFor(before, p), size);
        }
      }
    }
  }

  lemma TakeFirst(pending: seq<Record>, r: Record)
    requires |pending| > 0 && pending[0] == r
    ensures QueuedFor(pending, r.path) == [r] + QueuedFor(pending[1..], r.path)
    ensures forall p :: p != r.path ==> QueuedFor(pending, p) == QueuedFor(pending[1..], p)
  {
    forall p | p != r.path ensures QueuedFor(pending, p) == QueuedFor(pending[1..], p) {
      assert [] + QueuedFor(pending[1..], p) == QueuedFor(pending[1..], p);
    }
  }

  lemma FullDropsAll(records: seq<Record>, size: nat)
    requires |records| > 0 && Full(records[0], size)
    ensures Admitted(records, size) == 0 && Written(records, size) == [] == Written([], size)
    ensures Admitted([], size) == 0
  {
  }

  lemma WrittenNothing(p: Path, n: nat)
    ensures QueuedFor([], p) == [] && Written([], n) == [] && Admitted([], n) == 0
  {
  }
}
