/** The operating-system side of a PHP stream resource, seen abstractly: the
    bytes it holds, its position, the metadata PHP reports for it, and the
    calls (`fstat`, `ftell`, `feof`, `fseek`, `fread`, `fwrite`,
    `stream_get_contents`, `stream_get_meta_data`, `fclose`) the wrapper
    makes on it. */
module Handles {
  import opened Wrappers

  newtype byte = b: int | 0 <= b < 256

  /** A PHP string: a sequence of bytes. */
  type Bytes = seq<byte>

  /** The `$whence` argument of `fseek`: `SEEK_SET`, `SEEK_CUR` or `SEEK_END`. */
  datatype Whence = SeekSet | SeekCur | SeekEnd

  /** A value in the array `stream_get_meta_data` returns. */
  datatype MetaValue = MetaString(text: string) | MetaBool(flag: bool)

  /** The state of one OS handle. `mode` is the mode PHP REPORTS in the
      metadata, which may differ from the one passed to `fopen` (a
      `php://memory` stream opened with 'w' reports "w+b"). `ioError` stands
      for a device on which every data transfer call fails. */
  datatype HandleState = HandleState(
    data: Bytes,
    pos: nat,
    mode: string,
    seekable: bool,
    eof: bool,
    open: bool,
    isStream: bool,
    ioError: bool)
  {
    /** The position never lies beyond the end of the data. */
    predicate Valid() {
      pos <= |data|
    }

    /** `fstat($h)['size']`, or `None` for `fstat` returning false. */
    function Fstat(): (size: Option<nat>)
      ensures size.Some? <==> !ioError
      ensures size.Some? ==> size.value == |data|
    {
      if ioError then None else Some(|data|)
    }

    /** `ftell($h)`, or `None` for false. */
    function Ftell(): (position: Option<nat>)
      ensures position.Some? <==> !ioError
      ensures position.Some? ==> position.value == pos
    {
      if ioError then None else Some(pos)
    }

    /** `feof($h)`: the flag a read at the end has set. */
    function Feof(): bool {
      eof
    }

    /** The absolute position `fseek($h, $offset, $whence)` aims at. */
    function SeekTarget(offset: int, whence: Whence): int {
      match whence
      case SeekSet => offset
      case SeekCur => pos + offset
      case SeekEnd => |data| + offset
    }

    /** `fseek($h, $offset, $whence)`: 0 and the moved handle, or -1 and the
        handle unchanged. It fails on a handle that is not seekable and for a
        target before the start or past the end of the data. */
    function Fseek(offset: int, whence: Whence): (r: (int, HandleState))
      ensures r.0 == 0 || r.0 == -1
      ensures r.0 == 0 <==>
        !ioError && seekable && 0 <= SeekTarget(offset, whence) <= |data|
      ensures r.0 == 0 ==> r.1 == this.(pos := SeekTarget(offset, whence), eof := false)
      ensures r.0 != 0 ==> r.1 == this
      ensures Valid() ==> r.1.Valid()
    {
      var target := SeekTarget(offset, whence);
      if ioError || !seekable || target < 0 || |data| < target then (-1, this)
      else (0, this.(pos := target, eof := false))
    }

    /** `fread($h, $length)`: up to `length` bytes from the position, or
        `None` for false. A length below 1 is refused, as PHP 7 does. The end
        flag is set when fewer bytes remain than were asked for. */
    function Fread(length: int): (r: (Option<Bytes>, HandleState))
      requires Valid()
      ensures r.0.Some? <==> 0 < length && !ioError
      ensures r.0.None? ==> r.1 == this
      ensures r.0.Some? ==>
        && |r.0.value| <= length
        && pos + |r.0.value| <= |data|
        && r.0.value == data[pos..pos + |r.0.value|]
        && (|r.0.value| < length <==> |data| - pos < length)
        && r.1 == this.(pos := pos + |r.0.value|, eof := |r.0.value| < length)
      ensures r.1.Valid()
    {
      if length <= 0 || ioError then (None, this)
      else
        var count := if length < |data| - pos then length else |data| - pos;
        (Some(data[pos..pos + count]), this.(pos := pos + count, eof := count < length))
    }

    /** `fwrite($h, $s)`: the bytes of `s` written over the data from the
        position on (extending it where needed) and the number written, or
        `None` for false. */
    function Fwrite(s: Bytes): (r: (Option<nat>, HandleState))
      requires Valid()
      ensures r.0.Some? <==> !ioError
      ensures r.0.None? ==> r.1 == this
      ensures r.0.Some? ==>
        && r.0.value == |s|
        && r.1.pos == pos + |s|
        && |r.1.data| == (if pos + |s| < |data| then |data| else pos + |s|)
        && r.1.data[..pos] == data[..pos]
        && r.1.data[pos..pos + |s|] == s
        && r.1.data[pos + |s|..] == (if pos + |s| < |data| then data[pos + |s|..] else [])
        && r.1 == this.(data := r.1.data, pos := r.1.pos)
      ensures r.1.Valid()
    {
      if ioError then (None, this)
      else
        var rest := if pos + |s| < |data| then data[pos + |s|..] else [];
        var written := data[..pos] + s + rest;
        assert written[..pos] == data[..pos];
        assert written[pos..pos + |s|] == s;
        assert written[pos + |s|..] == rest;
        (Some(|s|), this.(data := written, pos := pos + |s|))
    }

    /** `stream_get_contents($h)`: everything from the position to the end,
        leaving the position at the end and the end flag set; `None` for
        false. */
    function StreamGetContents(): (r: (Option<Bytes>, HandleState))
      requires Valid()
      ensures r.0.Some? <==> !ioError
      ensures r.0.None? ==> r.1 == this
      ensures r.0.Some? ==> r.0.value == data[pos..] && r.1 == this.(pos := |data|, eof := true)
      ensures r.1.Valid()
    {
      if ioError then (None, this)
      else (Some(data[pos..]), this.(pos := |data|, eof := true))
    }

    /** `stream_get_meta_data($h)`, reduced to the two entries the wrapper
        consults. */
    function StreamGetMetaData(): (m: map<string, MetaValue>)
      ensures m.Keys == {"mode", "seekable"}
      ensures m["mode"] == MetaString(mode) && m["seekable"] == MetaBool(seekable)
    {
      map["mode" := MetaString(mode), "seekable" := MetaBool(seekable)]
    }

    /** `fclose($h)`: the resource is released; nothing else about it changes. */
    function Fclose(): (h: HandleState)
      ensures !h.open
      ensures h == this.(open := false)
    {
      this.(open := false)
    }
  }

  /** One PHP resource. It is an object because the same handle is shared:
      the code that opened it keeps a reference and may `fclose` it while a
      `Stream` still wraps it. */
  class Handle {
    var state: HandleState

    constructor (initial: HandleState)
      ensures state == initial
    {
      state := initial;
    }

    /** `fclose($h)` by whoever holds the handle. */
    method Fclose()
      modifies this
      ensures state == old(state).Fclose()
    {
      state := state.Fclose();
    }
  }
}
