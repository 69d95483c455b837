/** What every method of the `Stream` wrapper (src/Stream.php) answers and
    leaves behind, as functions of what the wrapper can see: its `$resource`
    field, either unset (`Detached`) or holding a handle in some state. The
    class `Streams.Stream` is proved to behave exactly as these functions
    say; the properties the wrapper promises are proved here about them. */
module StreamSemantics {
  import opened Wrappers
  import opened Handles
  import Php

  /** The wrapper's `$resource` field: unset, or a handle in a given state. */
  datatype View = Detached | Attached(h: HandleState) {
    predicate Valid() {
      Attached? ==> h.Valid()
    }
  }

  /** The `RuntimeException`s the wrapper throws. */
  datatype Failure =
    | NotAvailable
    | NotWritable
    | NotReadable
    | TellFailed
    | SeekFailed
    | WriteFailed
    | ReadFailed

  /** Each exception's message. */
  function Message(f: Failure): string {
    match f
    case NotAvailable => "The stream resource is not available."
    case NotWritable => "The stream resource is not writable."
    case NotReadable => "The stream resource is not readable."
    case TellFailed => "Failed to get the current position of the stream resource pointer."
    case SeekFailed => "Failed to seek to the specified position."
    case WriteFailed => "Failed to write to the stream resource."
    case ReadFailed => "Failed to read from the stream resource."
  }

  /** What `getMetadata($key)` returns: null, one entry, or the whole array. */
  datatype Metadata = Null | Entry(value: MetaValue) | Table(entries: map<string, MetaValue>)

  /** What a method that may throw returns, and the field it leaves behind. */
  datatype Step<+T> = Step(result: Result<T, Failure>, next: View)

  /** The characters of a mode string that allow writing, and reading. */
  const WritingModeChars := "waxc+"
  const ReadingModeChars := "r+"

  /** `isResourceAvailable()`: the field holds a resource that is still open
      and is of type 'stream'. Checked afresh on every call, so closing the
      handle from outside makes the wrapper unavailable too. */
  predicate Available(v: View) {
    v.Attached? && v.h.open && v.h.isStream
  }

  /** `throwIfResourceIsNotAvailable()`. */
  function RequireAvailable(v: View): (o: Outcome<Failure>)
    ensures o.Pass? <==> Available(v)
    ensures o.Fail? ==> o.error == NotAvailable
  {
    if Available(v) then Pass else Fail(NotAvailable)
  }

  /** PHP's conversion of a `getMetadata` result to bool, as `&&` applies it. */
  predicate IsTrue(m: Metadata) {
    match m
    case Null => false
    case Entry(MetaBool(b)) => b
    case Entry(MetaString(s)) => s != "" && s != "0"
    case Table(entries) => entries != map[]
  }

  /** `getSize()`. */
  function GetSize(v: View): Option<nat> {
    if !Available(v) then None else v.h.Fstat()
  }

  /** `tell()`; the state does not change. */
  function Tell(v: View): Result<nat, Failure> {
    if !Available(v) then Err(NotAvailable)
    else match v.h.Ftell()
      case None => Err(TellFailed)
      case Some(p) => Ok(p)
  }

  /** `eof()`. */
  predicate Eof(v: View) {
    !Available(v) || v.h.Feof()
  }

  /** `getMetadata($key)`, with `None` for the default null key. */
  function GetMetadata(v: View, key: Option<string>): Metadata {
    if !Available(v) then Null
    else
      var m := v.h.StreamGetMetaData();
      match key
      case None => Table(m)
      case Some(k) => if k in m then Entry(m[k]) else Null
  }

  /** `isSeekable()`. */
  predicate IsSeekable(v: View) {
    Available(v) && IsTrue(GetMetadata(v, Some("seekable")))
  }

  /** `strpbrk($mode, 'waxc+') !== false`. */
  predicate AllowsWriting(mode: string) {
    Php.Strpbrk(mode, WritingModeChars).Some?
  }

  /** `strpbrk($mode, 'r+') !== false`. */
  predicate AllowsReading(mode: string) {
    Php.Strpbrk(mode, ReadingModeChars).Some?
  }

  /** `isWritable()`: decided by the mode the metadata reports. */
  predicate IsWritable(v: View) {
    Available(v) && AllowsWriting(v.h.mode)
  }

  /** `isReadable()`: decided by the mode the metadata reports. */
  predicate IsReadable(v: View) {
    Available(v) && AllowsReading(v.h.mode)
  }

  /** `seek($offset, $whence)`; `rewind()` is `seek(0)`. */
  function Seek(v: View, offset: int, whence: Whence): Step<()> {
    if !Available(v) then Step(Err(NotAvailable), v)
    else
      var (code, h) := v.h.Fseek(offset, whence);
      if code != 0 then Step(Err(SeekFailed), Attached(h)) else Step(Ok(()), Attached(h))
  }

  /** `write($string)`. */
  function Write(v: View, s: Bytes): Step<nat>
    requires v.Valid()
  {
    if !Available(v) then Step(Err(NotAvailable), v)
    else if !IsWritable(v) then Step(Err(NotWritable), v)
    else
      var (written, h) := v.h.Fwrite(s);
      match written
      case None => Step(Err(WriteFailed), Attached(h))
      case Some(n) => Step(Ok(n), Attached(h))
  }

  /** `read($length)`. */
  function Read(v: View, length: int): Step<Bytes>
    requires v.Valid()
  {
    if !Available(v) then Step(Err(NotAvailable), v)
    else if !IsReadable(v) then Step(Err(NotReadable), v)
    else
      var (data, h) := v.h.Fread(length);
      match data
      case None => Step(Err(ReadFailed), Attached(h))
      case Some(d) => Step(Ok(d), Attached(h))
  }

  /** `getContents()`. */
  function GetContents(v: View): Step<Bytes>
    requires v.Valid()
  {
    if !Available(v) then Step(Err(NotAvailable), v)
    else if !IsReadable(v) then Step(Err(NotReadable), v)
    else
      var (contents, h) := v.h.StreamGetContents();
      match contents
      case None => Step(Err(ReadFailed), Attached(h))
      case Some(c) => Step(Ok(c), Attached(h))
  }

  /** `__toString()`: rewind when seekable, then read everything; any
      failure on the way yields the empty string instead of an exception. */
  function ToString(v: View): (Bytes, View)
    requires v.Valid()
  {
    var rewound := if IsSeekable(v) then Seek(v, 0, SeekSet) else Step(Ok(()), v);
    if rewound.result.Err? then ([], rewound.next)
    else
      var contents := GetContents(rewound.next);
      if contents.result.Err? then ([], contents.next) else (contents.result.value, contents.next)
  }

  /** `close()`: `fclose` the handle, then `detach()`. By then the handle is
      closed, so `detach()` finds it unavailable and leaves the field set to
      the closed handle. */
  function Close(v: View): View {
    if Available(v) then Attached(v.h.Fclose()) else v
  }

  /** `detach()`: the handle (given here by its state) and the field left
      unset, or null and nothing changed. */
  function Detach(v: View): (Option<HandleState>, View) {
    if !Available(v) then (None, v) else (Some(v.h), Detached)
  }
}
