/** The durable evidence writer of the capture pipeline.

    An evidence file is its contents, its cursor, and a script of how the coming
    system calls turn out: each call takes the head of the script, and calls past
    its end succeed. A write that fails may still have written part of its bytes.
    The hasher is the byte string it has absorbed. */
module Writer {
  import opened Base

  datatype Fault = Succeeds | Fails(written: nat)

  datatype EvidenceFile = EvidenceFile(data: Bytes, pos: nat, faults: seq<Fault>) {
    function Next(): Fault {
      if faults == [] then Succeeds else faults[0]
    }

    function Called(): EvidenceFile {
      this.(faults := if faults == [] then [] else faults[1..])
    }

    /** `write_all` at the cursor; a cursor past the end leaves a zero-filled hole. */
    function Write(raw: Bytes): (EvidenceFile, bool) {
      match Next()
      case Succeeds => (Called().(data := Overwrite(raw), pos := pos + |raw|), true)
      case Fails(written) =>
        var part := raw[..if written < |raw| then written else |raw|];
        (Called().(data := Overwrite(part), pos := pos + |part|), false)
    }

    function Overwrite(raw: Bytes): Bytes {
      var before := if pos <= |data| then data[..pos] else data + seq(pos - |data|, i => 0);
      before + raw + (if pos + |raw| < |data| then data[pos + |raw|..] else [])
    }

    function Flush(): (EvidenceFile, bool) {
      (Called(), Next().Succeeds?)
    }

    /** `set_len(0)`; the cursor stays where it was. */
    function Truncate(): (EvidenceFile, bool) {
      if Next().Succeeds? then (Called().(data := []), true) else (Called(), false)
    }

    function Rewind(): (EvidenceFile, bool) {
      if Next().Succeeds? then (Called().(pos := 0), true) else (Called(), false)
    }
  }

  datatype DurableWriter =
    | AlreadyPersisted(hashed: Bytes, bytes: nat)
    | Append(file: EvidenceFile, hashed: Bytes, bytes: nat)
  {
    function Commit(raw: Bytes): (DurableWriter, bool) {
      match this
      case AlreadyPersisted(_, _) =>
        (this.(hashed := hashed + raw, bytes := SatAdd(bytes, |raw|)), true)
      case Append(_, _, _) =>
        var (written, ok) := file.Write(raw);
        if ok then (Append(written, hashed + raw, SatAdd(bytes, |raw|)), true)
        else (this.(file := written), false)
    }

    function BeginRetry(): (DurableWriter, bool) {
      match this
      case AlreadyPersisted(_, _) => (this, true)
      case Append(_, _, _) =>
        var (flushed, ok1) := file.Flush();
        if !ok1 then (this.(file := flushed), false) else
        var (emptied, ok2) := flushed.Truncate();
        if !ok2 then (this.(file := emptied), false) else
        var (rewound, ok3) := emptied.Rewind();
        if !ok3 then (this.(file := rewound), false) else
        (Append(rewound, [], 0), true)
    }

    function Flush(): (DurableWriter, bool) {
      match this
      case AlreadyPersisted(_, _) => (this, true)
      case Append(_, _, _) =>
        var (flushed, ok) := file.Flush();
        (this.(file := flushed), ok)
    }

    /** The cursor is at the end of the file, and hash and count describe
        exactly what the file holds. */
    predicate Consistent() {
      && bytes == SatAdd(0, |hashed|)
      && (Append? ==> file.pos == |file.data| && hashed == file.data)
    }
  }

  /** A commit that succeeds keeps the writer consistent and adds exactly `raw`;
      one that fails leaves hash and count alone and may leave a partial write. */
  lemma CommitAppends(w: DurableWriter, raw: Bytes)
    requires w.Consistent()
    ensures
      var after, ok := w.Commit(raw).0, w.Commit(raw).1;
      && after.Append? == w.Append?
      && (w.AlreadyPersisted? ==> ok)
      && (ok ==> after.Consistent() && after.hashed == w.hashed + raw)
      && (!ok ==> after.hashed == w.hashed && after.file.data <= w.file.data + raw && w.file.data <= after.file.data)
  {
    if w.Append? {
      var f := w.file;
      assert f.data[..f.pos] == f.data;
      assert f.Overwrite(raw) == f.data + raw;
      var (after, ok) := w.Commit(raw);
      if !ok {
        var written := f.Next().written;
        var part := raw[..if written < |raw| then written else |raw|];
        assert f.Overwrite(part) == f.data + part;
        assert raw == part + raw[|part|..];
        assert f.data + part + raw[|part|..] == f.data + raw;
      }
    }
  }

  /** A retry that begins empties an appended file and forgets what was hashed. One that
      fails leaves hash, count and cursor alone; the file is emptied just when it was
      the final rewind that failed. */
  lemma RetryEmpties(w: DurableWriter)
    requires w.Consistent()
    ensures
      var after, ok := w.BeginRetry().0, w.BeginRetry().1;
      && after.Append? == w.Append?
      && (w.AlreadyPersisted? ==> ok && after == w)
      && (w.Append? && ok ==> after.Consistent() && after.hashed == [])
      && (!ok ==>
            && after.hashed == w.hashed && after.bytes == w.bytes && after.file.pos == w.file.pos
            && after.file.data ==
               (if w.file.Next().Succeeds? && w.file.Called().Next().Succeeds? then [] else w.file.data))
  {
  }
}
