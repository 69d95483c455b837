/** The `UploadedFile` class of src/UploadedFile.php: a holder for an
    uploaded payload's stream and the metadata that came with it. The
    constructor fills in a missing size from the stream; every other method
    reads a field back, and `moveTo` has an empty body. */
module UploadedFiles {
  import opened Wrappers
  import S = StreamSemantics
  import opened Streams

  /** PHP's `UPLOAD_ERR_OK`, the constructor's default error code. */
  const UploadErrOk: int := 0

  /** The size the constructor records: the one given, kept verbatim, or
      else what the stream reports (which may itself be null). */
  function RecordedSize(given: Option<int>, streamSize: Option<nat>): Option<int> {
    if given.Some? then given
    else if streamSize.Some? then Some(streamSize.value as int)
    else None
  }

  class UploadedFile {
    var stream: Stream
    var size: Option<int>
    var error: int
    var clientFilename: Option<string>
    var clientMediaType: Option<string>

    /** `new UploadedFile($stream, $size, $error, $clientFilename,
        $clientMediaType)` with PHP's defaults. The stream's `getSize()` is
        asked only when no size is given. */
    constructor (stream: Stream, size: Option<int> := None, error: int := UploadErrOk,
                 clientFilename: Option<string> := None, clientMediaType: Option<string> := None)
      ensures this.stream == stream
      ensures this.size == RecordedSize(size, S.GetSize(stream.State()))
      ensures this.error == error
      ensures this.clientFilename == clientFilename
      ensures this.clientMediaType == clientMediaType
    {
      this.stream := stream;
      if size.Some? {
        this.size := size;
      } else {
        var streamSize := stream.GetSize();
        this.size := RecordedSize(None, streamSize);
      }
      this.error := error;
      this.clientFilename := clientFilename;
      this.clientMediaType := clientMediaType;
    }

    /** `moveTo($targetPath)`: its body is empty, so it neither moves nor
        checks anything, and no state changes. */
    method MoveTo(targetPath: Option<string>)
      ensures unchanged(this, stream)
      ensures stream.resource != null ==> unchanged(stream.resource)
    {
    }

    /** `getStream()`: the stream given to the constructor, with no check of
        any kind. */
    method GetStream() returns (s: Stream)
      ensures s == stream
    {
      s := stream;
    }

    /** `getSize()`. */
    method GetSize() returns (s: Option<int>)
      ensures s == size
    {
      s := size;
    }

    /** `getError()`. */
    method GetError() returns (e: int)
      ensures e == error
    {
      e := error;
    }

    /** `getClientFilename()`. */
    method GetClientFilename() returns (name: Option<string>)
      ensures name == clientFilename
    {
      name := clientFilename;
    }

    /** `getClientMediaType()`. */
    method GetClientMediaType() returns (mediaType: Option<string>)
      ensures mediaType == clientMediaType
    {
      mediaType := clientMediaType;
    }

    /** `throwIfStreamIsNotAvailable()`: never called; it throws (with an
        empty message) only when the field holds no stream, which the
        constructor rules out, so it always passes. */
    method ThrowIfStreamIsNotAvailable() returns (o: Outcome<string>)
      ensures o == Pass
    {
      o := Pass;
    }
  }

  /** What the accessors of a new upload report: the stream and the
      metadata exactly as given, with the size taken from the stream when
      none is given. */
  method AccessorsReportConstructorArguments(
    stream: Stream, size: Option<int>, error: int,
    clientFilename: Option<string>, clientMediaType: Option<string>)
    returns (gotStream: Stream, gotSize: Option<int>, gotError: int,
             gotFilename: Option<string>, gotMediaType: Option<string>)
    ensures gotStream == stream
    ensures size.Some? ==> gotSize == size
    ensures size.None? ==> gotSize == RecordedSize(None, S.GetSize(stream.State()))
    ensures gotError == error
    ensures gotFilename == clientFilename && gotMediaType == clientMediaType
  {
    var file := new UploadedFile(stream, size, error, clientFilename, clientMediaType);
    gotStream := file.GetStream();
    gotSize := file.GetSize();
    gotError := file.GetError();
    gotFilename := file.GetClientFilename();
    gotMediaType := file.GetClientMediaType();
  }

  /** What the accessors of an upload built from a stream alone report: the
      stream's size, no upload error, and null client metadata. */
  method DefaultsOfANewUpload(stream: Stream)
    returns (gotSize: Option<int>, gotError: int, gotFilename: Option<string>, gotMediaType: Option<string>)
    ensures gotSize == RecordedSize(None, S.GetSize(stream.State()))
    ensures gotError == UploadErrOk
    ensures gotFilename == None && gotMediaType == None
  {
    var file := new UploadedFile(stream);
    gotSize := file.GetSize();
    gotError := file.GetError();
    gotFilename := file.GetClientFilename();
    gotMediaType := file.GetClientMediaType();
  }

  /** `moveTo` as written leaves every accessor's answer as it was. */
  method MoveToChangesNothing(file: UploadedFile, targetPath: Option<string>)
    returns (before: (Stream, Option<int>, int, Option<string>, Option<string>),
             after: (Stream, Option<int>, int, Option<string>, Option<string>))
    ensures before == after
    ensures before == (file.stream, file.size, file.error, file.clientFilename, file.clientMediaType)
  {
    var s0 := file.GetStream();
    var z0 := file.GetSize();
    var e0 := file.GetError();
    var n0 := file.GetClientFilename();
    var m0 := file.GetClientMediaType();
    before := (s0, z0, e0, n0, m0);
    file.MoveTo(targetPath);
    var s1 := file.GetStream();
    var z1 := file.GetSize();
    var e1 := file.GetError();
    var n1 := file.GetClientFilename();
    var m1 := file.GetClientMediaType();
    after := (s1, z1, e1, n1, m1);
  }
}
