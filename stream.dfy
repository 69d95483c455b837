/** The `Stream` class of src/Stream.php: a wrapper around one PHP stream
    resource. Each method is proved to do exactly what its counterpart in
    `StreamSemantics` describes, reading the handle and updating it in place
    the way the PHP code does. */
module Streams {
  import opened Wrappers
  import opened Handles
  import S = StreamSemantics

  /** What `new Stream($resource)` may be given: a PHP resource, or any other
      value (such as a string). */
  datatype Argument = ResourceArgument(handle: Handle) | OtherArgument

  class Stream {
    /** `$this->resource`; null once `detach()` has unset it. */
    var resource: Handle?

    /** The handle, if any, keeps its position within its data. */
    ghost predicate Valid()
      reads this, resource
    {
      resource != null ==> resource.state.Valid()
    }

    /** What the wrapper sees: its field and the state of the handle in it. */
    function State(): (v: S.View)
      reads this, resource
      ensures v.Detached? <==> resource == null
      ensures v.Attached? ==> v.h == resource.state
    {
      if resource == null then S.Detached else S.Attached(resource.state)
    }

    /** Stores the value; `Create` then checks it. */
    constructor Wrap(handle: Handle)
      ensures resource == handle
    {
      resource := handle;
    }

    /** `new Stream($resource)`: keeps the value, then throws "The stream
        resource is not available." unless it is an open stream resource. */
    static method Create(value: Argument) returns (r: Result<Stream, S.Failure>)
      ensures r.Ok? <==> value.ResourceArgument? && S.Available(S.Attached(value.handle.state))
      ensures r.Err? ==> r.error == S.NotAvailable
      ensures r.Ok? ==> fresh(r.value) && r.value.resource == value.handle
    {
      if value.OtherArgument? {
        return Err(S.NotAvailable);
      }
      var stream := new Stream.Wrap(value.handle);
      var check := stream.ThrowIfResourceIsNotAvailable();
      if check.Fail? {
        return Err(check.error);
      }
      r := Ok(stream);
    }

    /** `isResourceAvailable()`. */
    method IsResourceAvailable() returns (available: bool)
      ensures available == S.Available(State())
    {
      available := resource != null && resource.state.open && resource.state.isStream;
    }

    /** `throwIfResourceIsNotAvailable()`. */
    method ThrowIfResourceIsNotAvailable() returns (o: Outcome<S.Failure>)
      ensures o == S.RequireAvailable(State())
    {
      var available := IsResourceAvailable();
      o := if available then Pass else Fail(S.NotAvailable);
    }

    /** `__toString()`. */
    method ToString() returns (s: Bytes)
      requires Valid()
      modifies resource
      ensures Valid()
      ensures (s, State()) == S.ToString(old(State()))
    {
      var seekable := IsSeekable();
      if seekable {
        var rewound := Rewind();
        if rewound.Fail? {
          return [];
        }
      }
      var contents := GetContents();
      s := if contents.Ok? then contents.value else [];
    }

    /** `close()`: `fclose`, then `detach()`, which by then finds the handle
        closed and leaves the field as it is. */
    method Close()
      requires Valid()
      modifies this, resource
      ensures resource == old(resource) && Valid()
      ensures State() == S.Close(old(State()))
    {
      var available := IsResourceAvailable();
      if available {
        resource.Fclose();
        var _ := Detach();
      }
    }

    /** `detach()`. */
    method Detach() returns (handle: Handle?)
      modifies this
      ensures handle == (if S.Available(old(State())) then old(resource) else null)
      ensures resource == (if S.Available(old(State())) then null else old(resource))
      ensures (if handle == null then None else Some(handle.state), State()) == S.Detach(old(State()))
    {
      var available := IsResourceAvailable();
      if !available {
        return null;
      }
      handle := resource;
      resource := null;
    }

    /** `getSize()`. */
    method GetSize() returns (size: Option<nat>)
      ensures size == S.GetSize(State())
    {
      var available := IsResourceAvailable();
      if !available {
        return None;
      }
      size := resource.state.Fstat();
    }

    /** `tell()`. */
    method Tell() returns (r: Result<nat, S.Failure>)
      ensures r == S.Tell(State())
    {
      var check := ThrowIfResourceIsNotAvailable();
      if check.Fail? {
        return Err(check.error);
      }
      var position := resource.state.Ftell();
      if position.None? {
        return Err(S.TellFailed);
      }
      r := Ok(position.value);
    }

    /** `eof()`. */
    method Eof() returns (atEnd: bool)
      ensures atEnd == S.Eof(State())
    {
      var available := IsResourceAvailable();
      atEnd := !available || resource.state.Feof();
    }

    /** `isSeekable()`. */
    method IsSeekable() returns (seekable: bool)
      ensures seekable == S.IsSeekable(State())
    {
      var available := IsResourceAvailable();
      if !available {
        return false;
      }
      var entry := GetMetadata(Some("seekable"));
      seekable := S.IsTrue(entry);
    }

    /** `seek($offset, $whence)`. */
    method Seek(offset: int, whence: Whence := SeekSet) returns (o: Outcome<S.Failure>)
      requires Valid()
      modifies resource
      ensures Valid()
      ensures S.Step(if o.Pass? then Ok(()) else Err(o.error), State()) == S.Seek(old(State()), offset, whence)
    {
      var check := ThrowIfResourceIsNotAvailable();
      if check.Fail? {
        return check;
      }
      var (code, next) := resource.state.Fseek(offset, whence);
      resource.state := next;
      if code != 0 {
        return Fail(S.SeekFailed);
      }
      o := Pass;
    }

    /** `rewind()`: `seek(0)`. */
    method Rewind() returns (o: Outcome<S.Failure>)
      requires Valid()
      modifies resource
      ensures Valid()
      ensures S.Step(if o.Pass? then Ok(()) else Err(o.error), State()) == S.Seek(old(State()), 0, SeekSet)
    {
      o := Seek(0);
    }

    /** `isWritable()`: looks for a writing character in the mode the
        metadata reports. */
    method IsWritable() returns (writable: bool)
      ensures writable == S.IsWritable(State())
    {
      var available := IsResourceAvailable();
      if !available {
        return false;
      }
      var metadata := GetMetadata();
      writable := S.AllowsWriting(metadata.entries["mode"].text);
    }

    /** `write($string)`. */
    method Write(s: Bytes) returns (r: Result<nat, S.Failure>)
      requires Valid()
      modifies resource
      ensures Valid()
      ensures S.Step(r, State()) == S.Write(old(State()), s)
    {
      var check := ThrowIfResourceIsNotAvailable();
      if check.Fail? {
        return Err(check.error);
      }
      var writable := IsWritable();
      if !writable {
        return Err(S.NotWritable);
      }
      var (written, next) := resource.state.Fwrite(s);
      resource.state := next;
      if written.None? {
        return Err(S.WriteFailed);
      }
      r := Ok(written.value);
    }

    /** `isReadable()`: looks for a reading character in the mode the
        metadata reports. */
    method IsReadable() returns (readable: bool)
      ensures readable == S.IsReadable(State())
    {
      var available := IsResourceAvailable();
      if !available {
        return false;
      }
      var metadata := GetMetadata();
      readable := S.AllowsReading(metadata.entries["mode"].text);
    }

    /** `read($length)`. */
    method Read(length: int) returns (r: Result<Bytes, S.Failure>)
      requires Valid()
      modifies resource
      ensures Valid()
      ensures S.Step(r, State()) == S.Read(old(State()), length)
    {
      var check := ThrowIfResourceIsNotAvailable();
      if check.Fail? {
        return Err(check.error);
      }
      var readable := IsReadable();
      if !readable {
        return Err(S.NotReadable);
      }
      var (data, next) := resource.state.Fread(length);
      resource.state := next;
      if data.None? {
        return Err(S.ReadFailed);
      }
      r := Ok(data.value);
    }

    /** `getContents()`. */
    method GetContents() returns (r: Result<Bytes, S.Failure>)
      requires Valid()
      modifies resource
      ensures Valid()
      ensures S.Step(r, State()) == S.GetContents(old(State()))
    {
      var check := ThrowIfResourceIsNotAvailable();
      if check.Fail? {
        return Err(check.error);
      }
      var readable := IsReadable();
      if !readable {
        return Err(S.NotReadable);
      }
      var (contents, next) := resource.state.StreamGetContents();
      resource.state := next;
      if contents.None? {
        return Err(S.ReadFailed);
      }
      r := Ok(contents.value);
    }

    /** `getMetadata($key)`, the key defaulting to null. */
    method GetMetadata(key: Option<string> := None) returns (m: S.Metadata)
      ensures m == S.GetMetadata(State(), key)
    {
      var available := IsResourceAvailable();
      if !available {
        return S.Null;
      }
      var metadata := resource.state.StreamGetMetaData();
      if key.Some? {
        return if key.value in metadata then S.Entry(metadata[key.value]) else S.Null;
      }
      m := S.Table(metadata);
    }
  }
}
