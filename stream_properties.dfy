/** What the `Stream` wrapper promises, proved about its semantics: the
    defaults and the exception a detached or closed stream gives, the
    permissions the reported mode grants, the order in which `write`, `read`
    and `getContents` check for trouble, reading and writing at the
    position, seeking, the lifecycle of `close` and `detach`, and the
    error-swallowing string conversion. */
module StreamProperties {
  import opened Wrappers
  import opened Handles
  import opened StreamSemantics

  // ---- Availability and what an unavailable stream answers ----

  /** Availability is read off the handle on every call: a handle closed by
      anyone (the wrapper or the code that opened it) makes the stream
      unavailable. */
  lemma AvailabilityFollowsTheHandle(h: HandleState)
    ensures Available(Attached(h)) <==> h.open && h.isStream
    ensures !Available(Attached(h.Fclose()))
    ensures !Available(Detached)
  {
  }

  /** A stream whose resource is closed or detached answers its queries
      with fixed defaults instead of throwing. */
  lemma UnavailableDefaults(v: View, key: Option<string>)
    requires !Available(v)
    ensures GetSize(v) == None
    ensures GetMetadata(v, key) == Null
    ensures Eof(v)
    ensures !IsSeekable(v) && !IsReadable(v) && !IsWritable(v)
  {
  }

  /** On a stream whose resource is closed or detached, every operation that
      needs the resource throws "The stream resource is not available." and
      changes nothing. */
  lemma UnavailableOperationsFail(v: View, offset: int, whence: Whence, s: Bytes, length: int)
    requires v.Valid() && !Available(v)
    ensures Tell(v) == Err(NotAvailable)
    ensures Seek(v, offset, whence) == Step(Err(NotAvailable), v)
    ensures Write(v, s) == Step(Err(NotAvailable), v)
    ensures Read(v, length) == Step(Err(NotAvailable), v)
    ensures GetContents(v) == Step(Err(NotAvailable), v)
  {
  }

  // ---- Permissions from the reported mode ----

  /** A mode allows writing exactly when it contains `w`, `a`, `x`, `c` or `+`. */
  lemma WritingModes(mode: string)
    ensures AllowsWriting(mode) <==>
      exists i :: 0 <= i < |mode| &&
        (mode[i] == 'w' || mode[i] == 'a' || mode[i] == 'x' || mode[i] == 'c' || mode[i] == '+')
  {
  }

  /** A mode allows reading exactly when it contains `r` or `+`. */
  lemma ReadingModes(mode: string)
    ensures AllowsReading(mode) <==> exists i :: 0 <= i < |mode| && (mode[i] == 'r' || mode[i] == '+')
  {
  }

  /** The modes PHP reports for the streams the library is used with: a
      memory stream (opened with 'w', reported as "w+b") can be read and
      written, standard output ("wb") only written, standard input ("rb")
      only read. */
  lemma ReportedModes()
    ensures AllowsReading("w+b") && AllowsWriting("w+b")
    ensures !AllowsReading("wb") && AllowsWriting("wb")
    ensures AllowsReading("rb") && !AllowsWriting("rb")
  {
    assert "wb"[1..] == "b" && "b"[1..] == "";
    assert "rb"[1..] == "b";
  }

  // ---- The order of the checks ----

  /** `write` checks availability first, then permission, then whether the
      OS call failed; the first two failures leave everything as it was. */
  lemma WriteGuardOrder(v: View, s: Bytes)
    requires v.Valid()
    ensures Write(v, s).result == Err(NotAvailable) <==> !Available(v)
    ensures Write(v, s).result == Err(NotWritable) <==> Available(v) && !AllowsWriting(v.h.mode)
    ensures Write(v, s).result == Err(WriteFailed) <==>
      Available(v) && AllowsWriting(v.h.mode) && v.h.ioError
    ensures Write(v, s).result.Err? ==> Write(v, s).result.error in {NotAvailable, NotWritable, WriteFailed}
    ensures Write(v, s).result.Err? ==> Write(v, s).next == v
  {
  }

  /** `read` checks availability first, then permission, then whether the
      OS call failed (a length below 1 among them); the first two failures
      leave everything as it was. */
  lemma ReadGuardOrder(v: View, length: int)
    requires v.Valid()
    ensures Read(v, length).result == Err(NotAvailable) <==> !Available(v)
    ensures Read(v, length).result == Err(NotReadable) <==> Available(v) && !AllowsReading(v.h.mode)
    ensures Read(v, length).result == Err(ReadFailed) <==>
      Available(v) && AllowsReading(v.h.mode) && (length <= 0 || v.h.ioError)
    ensures Read(v, length).result.Err? ==> Read(v, length).result.error in {NotAvailable, NotReadable, ReadFailed}
    ensures Read(v, length).result.Err? ==> Read(v, length).next == v
  {
  }

  /** `getContents` checks in the same order as `read`. */
  lemma GetContentsGuardOrder(v: View)
    requires v.Valid()
    ensures GetContents(v).result == Err(NotAvailable) <==> !Available(v)
    ensures GetContents(v).result == Err(NotReadable) <==> Available(v) && !AllowsReading(v.h.mode)
    ensures GetContents(v).result == Err(ReadFailed) <==>
      Available(v) && AllowsReading(v.h.mode) && v.h.ioError
    ensures GetContents(v).result.Err? ==> GetContents(v).next == v
  {
  }

  // ---- Reading, writing and seeking at the position ----

  /** `read(n)` returns the next bytes from the position, as many as asked
      for or as remain, whichever is fewer, advances the position by that
      many and leaves the data alone; the end flag is set when fewer remained
      than were asked for. A length below 1 throws "Failed to read from the
      stream resource.". */
  lemma ReadAtPosition(v: View, length: int)
    requires v.Valid() && Available(v) && AllowsReading(v.h.mode) && !v.h.ioError
    ensures length <= 0 <==> Read(v, length).result.Err?
    ensures length <= 0 ==> Read(v, length) == Step(Err(ReadFailed), v)
    ensures 0 < length ==>
      var count := if length < |v.h.data| - v.h.pos then length else |v.h.data| - v.h.pos;
      && Read(v, length).result == Ok(v.h.data[v.h.pos..v.h.pos + count])
      && Read(v, length).next == Attached(v.h.(pos := v.h.pos + count, eof := count < length))
      && Tell(Read(v, length).next) == Ok(v.h.pos + count)
      && (Eof(Read(v, length).next) <==> |v.h.data| - v.h.pos < length)
  {
  }

  /** `write(s)` returns the number of bytes in `s`, puts them at the
      position (overwriting what was there, extending the data where it
      runs past the end), moves the position past them, and `getSize` then
      reports the new length. Nothing else about the handle changes. */
  lemma WriteAtPosition(v: View, s: Bytes)
    requires v.Valid() && Available(v) && AllowsWriting(v.h.mode) && !v.h.ioError
    ensures Write(v, s).result == Ok(|s|)
    ensures Write(v, s).next == Attached(v.h.(
      data := v.h.data[..v.h.pos] + s + (if v.h.pos + |s| < |v.h.data| then v.h.data[v.h.pos + |s|..] else []),
      pos := v.h.pos + |s|))
    ensures
      && Tell(Write(v, s).next) == Ok(v.h.pos + |s|)
      && GetSize(Write(v, s).next) == Some(if v.h.pos + |s| < |v.h.data| then |v.h.data| else v.h.pos + |s|)
  {
  }

  /** `seek(offset, whence)` succeeds exactly when the handle is seekable and
      the target lies within the data; it then moves the position there and
      clears the end flag, leaving the data and everything else as it was,
      and otherwise throws "Failed to seek to the
      specified position." with nothing changed. */
  lemma SeekOutcome(v: View, offset: int, whence: Whence)
    requires Available(v) && !v.h.ioError
    ensures Seek(v, offset, whence).result.Ok? <==>
      v.h.seekable && 0 <= v.h.SeekTarget(offset, whence) <= |v.h.data|
    ensures Seek(v, offset, whence).result.Ok? ==>
      && Seek(v, offset, whence).next == Attached(v.h.(pos := v.h.SeekTarget(offset, whence), eof := false))
      && Tell(Seek(v, offset, whence).next) == Ok(v.h.SeekTarget(offset, whence))
      && !Eof(Seek(v, offset, whence).next)
    ensures Seek(v, offset, whence).result.Err? ==>
      Seek(v, offset, whence) == Step(Err(SeekFailed), v)
  {
  }

  /** No seek reaches a position before the start: `seek(-1)` always throws. */
  lemma SeekBeforeStartFails(v: View)
    requires Available(v)
    ensures Seek(v, -1, SeekSet) == Step(Err(SeekFailed), v)
    ensures Tell(v) == Ok(0) ==> Seek(v, -1, SeekCur) == Step(Err(SeekFailed), v)
  {
  }

  /** `rewind()`, that is `seek(0)`, on a seekable stream goes back to the
      start, wherever the position was. */
  lemma RewindGoesToStart(v: View)
    requires Available(v) && v.h.seekable && !v.h.ioError
    ensures Seek(v, 0, SeekSet).result == Ok(())
    ensures Seek(v, 0, SeekSet).next == Attached(v.h.(pos := 0, eof := false))
  {
  }

  /** `getContents()` returns everything from the position to the end and
      leaves the stream at its end. */
  lemma GetContentsReadsTheRest(v: View)
    requires v.Valid() && Available(v) && AllowsReading(v.h.mode) && !v.h.ioError
    ensures GetContents(v).result == Ok(v.h.data[v.h.pos..])
    ensures Tell(GetContents(v).next) == Ok(|v.h.data|)
    ensures Eof(GetContents(v).next)
  {
  }

  // ---- Metadata ----

  /** `getMetadata` gives the reported mode and seekability under their
      keys, null for any other key, and both in the full array;
      `isSeekable` is the 'seekable' entry. */
  lemma MetadataEntries(v: View, key: string)
    requires Available(v)
    ensures GetMetadata(v, Some("mode")) == Entry(MetaString(v.h.mode))
    ensures GetMetadata(v, Some("seekable")) == Entry(MetaBool(v.h.seekable))
    ensures key != "mode" && key != "seekable" ==> GetMetadata(v, Some(key)) == Null
    ensures GetMetadata(v, None).Table? && GetMetadata(v, None).entries.Keys == {"mode", "seekable"}
    ensures IsSeekable(v) <==> v.h.seekable
  {
  }

  // ---- Lifecycle ----

  /** `close()` releases an available handle and leaves the stream
      unavailable (the field still holds the closed handle); on an
      unavailable stream it does nothing, so closing twice is closing once. */
  lemma CloseLifecycle(v: View)
    ensures !Available(Close(v))
    ensures Available(v) ==> Close(v).Attached? && !Close(v).h.open && Close(v).h.data == v.h.data
    ensures !Available(v) ==> Close(v) == v
    ensures Close(Close(v)) == Close(v)
  {
  }

  /** `detach()` hands back the handle of an available stream, untouched,
      and leaves the stream unavailable; on an unavailable stream it returns
      null and changes nothing, so a second `detach()` returns null. */
  lemma DetachLifecycle(v: View)
    ensures Available(v) ==> Detach(v) == (Some(v.h), Detached)
    ensures !Available(v) ==> Detach(v) == (None, v)
    ensures !Available(Detach(v).1)
    ensures Detach(Detach(v).1).0 == None
  {
  }

  // ---- The string conversion ----

  /** `__toString()` never throws. On a readable stream whose reads succeed
      it returns the whole data when the stream is seekable, wherever the
      position was, and the rest from the position otherwise; in every other
      case (not available, not readable, a failing device) it returns the
      empty string. A successful conversion leaves the stream at its end; an
      unavailable or failing stream is left as it was, and an unreadable one
      only rewound when it is seekable. */
  lemma ToStringContent(v: View)
    requires v.Valid()
    ensures ToString(v).0 ==
      if !IsReadable(v) || v.h.ioError then []
      else if v.h.seekable then v.h.data
      else v.h.data[v.h.pos..]
    ensures IsReadable(v) && !v.h.ioError ==>
      ToString(v).1 == Attached(v.h.(pos := |v.h.data|, eof := true))
    ensures !Available(v) || v.h.ioError ==> ToString(v).1 == v
    ensures Available(v) && !v.h.ioError && !IsReadable(v) ==>
      ToString(v).1 == (if v.h.seekable then Attached(v.h.(pos := 0, eof := false)) else v)
  {
  }

  /** Bytes written to a read-write, seekable stream come back from the
      string conversion, with whatever the write did not overwrite around
      them; written to an empty stream they come back exactly. */
  lemma {:induction false} WriteThenToString(v: View, s: Bytes)
    requires v.Valid() && Available(v) && !v.h.ioError && v.h.seekable
    requires AllowsWriting(v.h.mode) && AllowsReading(v.h.mode)
    ensures Write(v, s).result == Ok(|s|)
    ensures ToString(Write(v, s).next).0 ==
      v.h.data[..v.h.pos] + s + (if v.h.pos + |s| < |v.h.data| then v.h.data[v.h.pos + |s|..] else [])
    ensures v.h.data == [] ==> ToString(Write(v, s).next).0 == s
  {
    WriteAtPosition(v, s);
    var w := Write(v, s).next;
    assert w.Valid() && Available(w) && AllowsReading(w.h.mode) && !w.h.ioError && w.h.seekable;
    ToStringContent(w);
  }

  /** Bytes written to a read-write, seekable stream are read back by
      rewinding and reading as many. */
  lemma {:induction false} WriteRewindRead(v: View, s: Bytes)
    requires v.Valid() && Available(v) && !v.h.ioError && v.h.seekable && v.h.pos == 0
    requires AllowsWriting(v.h.mode) && AllowsReading(v.h.mode)
    requires 0 < |s|
    ensures
      var written := Write(v, s).next;
      var rewound := Seek(written, 0, SeekSet).next;
      Read(rewound, |s|).result == Ok(s)
  {
    WriteAtPosition(v, s);
    var written := Write(v, s).next;
    RewindGoesToStart(written);
    var rewound := Seek(written, 0, SeekSet).next;
    ReadAtPosition(rewound, |s|);
  }
}
