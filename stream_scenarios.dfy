/** The situations tests/StreamTest.php sets up, played through the `Stream`
    class: each method opens its own handle, wraps it, and reports what the
    wrapper answered. The handle is shared with the code that opened it, so
    closing or reading it directly is seen by the wrapper. */
module StreamScenarios {
  import opened Wrappers
  import opened Handles
  import S = StreamSemantics
  import P = StreamProperties
  import opened Streams

  /** `fopen('php://memory', 'w')`: empty, seekable, and reported as "w+b". */
  function MemoryHandle(): (h: HandleState)
    ensures h.Valid() && S.Available(S.Attached(h))
  {
    HandleState([], 0, "w+b", true, false, true, true, false)
  }

  /** `fopen('php://stdout', 'w')`: not seekable, reported as "wb". */
  function StdoutHandle(): (h: HandleState)
    ensures h.Valid() && S.Available(S.Attached(h))
  {
    HandleState([], 0, "wb", false, false, true, true, false)
  }

  /** `fopen('php://stdin', 'r')`: not seekable, reported as "rb". */
  function StdinHandle(): (h: HandleState)
    ensures h.Valid() && S.Available(S.Attached(h))
  {
    HandleState([], 0, "rb", false, false, true, true, false)
  }

  /** Opens a handle in the given state and wraps it. */
  method Open(initial: HandleState) returns (h: Handle, stream: Stream)
    requires initial.Valid() && S.Available(S.Attached(initial))
    ensures fresh(h) && fresh(stream)
    ensures stream.resource == h && h.state == initial && stream.Valid()
  {
    h := new Handle(initial);
    var created := Stream.Create(ResourceArgument(h));
    stream := created.value;
  }

  /** Anything but an open stream resource is refused at construction. */
  method ConstructionRefusesOtherValues() returns (plain: Result<Stream, S.Failure>, closed: Result<Stream, S.Failure>)
    ensures plain == Err(S.NotAvailable)
    ensures closed == Err(S.NotAvailable)
  {
    plain := Stream.Create(OtherArgument);
    var h := new Handle(MemoryHandle());
    h.Fclose();
    closed := Stream.Create(ResourceArgument(h));
  }

  /** Bytes written to a memory stream: `write` reports their number,
      `getSize` the new length, `tell` the position after them, and the
      string conversion gives them back. */
  method WrittenBytesComeBack(s: Bytes) returns (written: Result<nat, S.Failure>, size: Option<nat>, position: Result<nat, S.Failure>, text: Bytes)
    ensures written == Ok(|s|)
    ensures size == Some(|s|)
    ensures position == Ok(|s|)
    ensures text == s
  {
    var h, stream := Open(MemoryHandle());
    P.ReportedModes();
    written := stream.Write(s);
    size := stream.GetSize();
    position := stream.Tell();
    P.WriteThenToString(S.Attached(MemoryHandle()), s);
    text := stream.ToString();
  }

  /** The string conversion rewinds first, wherever the position is. */
  method ToStringRewinds(s: Bytes, offset: nat) returns (text: Bytes)
    requires offset <= |s|
    ensures text == s
  {
    var h, stream := Open(MemoryHandle());
    P.ReportedModes();
    var _ := stream.Write(s);
    var moved := stream.Seek(offset);
    assert moved == Pass;
    P.ToStringContent(stream.State());
    text := stream.ToString();
  }

  /** Closing the handle behind the wrapper's back makes every query give
      its default and every operation throw "not available"; `detach`
      returns null. */
  method ClosedFromOutside() returns (
    size: Option<nat>, atEnd: bool, seekable: bool, readable: bool, writable: bool,
    metadata: S.Metadata, position: Result<nat, S.Failure>, seek: Outcome<S.Failure>,
    rewind: Outcome<S.Failure>, detached: Handle?)
    ensures size == None && atEnd && !seekable && !readable && !writable && metadata == S.Null
    ensures position == Err(S.NotAvailable)
    ensures seek == Fail(S.NotAvailable) && rewind == Fail(S.NotAvailable)
    ensures detached == null
  {
    var h, stream := Open(MemoryHandle());
    h.Fclose();
    size := stream.GetSize();
    atEnd := stream.Eof();
    seekable := stream.IsSeekable();
    readable := stream.IsReadable();
    writable := stream.IsWritable();
    metadata := stream.GetMetadata();
    position := stream.Tell();
    seek := stream.Seek(0);
    rewind := stream.Rewind();
    detached := stream.Detach();
  }

  /** `close()` releases the handle the caller opened. */
  method CloseReleasesTheHandle() returns (stillOpen: bool, size: Option<nat>)
    ensures !stillOpen && size == None
  {
    var h, stream := Open(MemoryHandle());
    stream.Close();
    stillOpen := h.state.open;
    size := stream.GetSize();
  }

  /** `detach()` hands back the very handle, still open; a second call
      returns null. */
  method DetachReturnsTheHandle() returns (same: bool, stillOpen: bool, again: Handle?)
    ensures same && stillOpen && again == null
  {
    var h, stream := Open(MemoryHandle());
    var first := stream.Detach();
    same := first == h;
    stillOpen := h.state.open;
    again := stream.Detach();
  }

  /** `eof()` is false on a fresh empty stream, and true once a read has run
      into the end. */
  method EofAfterAReadAtTheEnd() returns (before: bool, after: bool)
    ensures !before && after
  {
    var h, stream := Open(MemoryHandle());
    before := stream.Eof();
    h.state := h.state.Fread(1).1;
    after := stream.Eof();
  }

  /** A negative seek and a negative read both fail with the OS-failure
      exception. */
  method NegativeSeekAndRead() returns (seek: Outcome<S.Failure>, read: Result<Bytes, S.Failure>)
    ensures seek == Fail(S.SeekFailed)
    ensures read == Err(S.ReadFailed)
  {
    var h, stream := Open(MemoryHandle());
    P.ReportedModes();
    seek := stream.Seek(-1);
    read := stream.Read(-1);
  }

  /** Standard output is writable, not readable and not seekable: reading
      throws "not readable", and the string conversion returns the empty
      string instead of throwing. */
  method WriteOnlyStream() returns (readable: bool, writable: bool, seekable: bool, read: Result<Bytes, S.Failure>, text: Bytes)
    ensures !readable && writable && !seekable
    ensures read == Err(S.NotReadable)
    ensures text == []
  {
    var h, stream := Open(StdoutHandle());
    P.ReportedModes();
    readable := stream.IsReadable();
    writable := stream.IsWritable();
    seekable := stream.IsSeekable();
    read := stream.Read(1);
    text := stream.ToString();
  }

  /** Standard input is readable and not writable: writing throws "not
      writable" and leaves the handle as it was. */
  method ReadOnlyStream(s: Bytes) returns (readable: bool, writable: bool, write: Result<nat, S.Failure>, unchangedHandle: bool)
    ensures readable && !writable
    ensures write == Err(S.NotWritable)
    ensures unchangedHandle
  {
    var h, stream := Open(StdinHandle());
    P.ReportedModes();
    readable := stream.IsReadable();
    writable := stream.IsWritable();
    write := stream.Write(s);
    unchangedHandle := h.state == StdinHandle();
  }
}
