/** The io.Reader both content-defined chunkers read from, as a script of everything it may do. */
module InputSource {
  import opened Common

  /** One step of a reader's behaviour: bytes it will deliver, then nothing more to say, EOF, or an error. A request
      smaller than the bytes on offer takes a prefix, so scripts cover every fragmentation, empty reads included. */
  datatype Event = Data(bytes: Bytes) | DataEof(bytes: Bytes) | Fail(bytes: Bytes)

  datatype ReadStatus = Fine | Ended | Broke

  /** The bytes a script delivers before it ends or breaks. */
  function Content(script: seq<Event>): Bytes {
    if script == [] then []
    else if script[0].Data? then script[0].bytes + Content(script[1..])
    else script[0].bytes
  }

  predicate Breaks(script: seq<Event>) {
    script != [] && (script[0].Fail? || (script[0].Data? && Breaks(script[1..])))
  }

  /** Work left in a script. */
  function Weight(script: seq<Event>): nat {
    if script == [] then 0 else |script[0].bytes| + 1 + Weight(script[1..])
  }

  class Source {
    var script: seq<Event>

    constructor (script: seq<Event>)
      ensures this.script == script
    {
      this.script := script;
    }

    /** Read with a buffer of `cap` bytes. EOF and errors stay once reached. */
    method Read(cap: nat) returns (bytes: Bytes, status: ReadStatus)
      requires cap > 0
      modifies this
      ensures |bytes| <= cap
      ensures old(Content(script)) == bytes + Content(script) && Breaks(script) == old(Breaks(script))
      ensures status.Fine? || bytes != [] ==> Weight(script) < old(Weight(script))
      ensures status.Ended? ==> Content(script) == [] && !Breaks(script)
      ensures status.Broke? ==> Content(script) == [] && Breaks(script)
    {
      if script == [] {
        return [], Ended;
      }
      var e := script[0];
      if |e.bytes| > cap {
        bytes, status := e.bytes[..cap], Fine;
        var tail := match e case Data(b) => Data(b[cap..]) case DataEof(b) => DataEof(b[cap..]) case Fail(b) => Fail(b[cap..]);
        assert e.bytes == e.bytes[..cap] + e.bytes[cap..];
        ghost var rest := script[1..];
        script := [tail] + script[1..];
        assert script[1..] == rest;
        return;
      }
      bytes := e.bytes;
      match e {
        case Data(_) =>
          status, script := Fine, script[1..];
        case DataEof(_) =>
          status, script := Ended, [];
        case Fail(_) =>
          status, script := Broke, [Fail([])];
      }
    }
  }
}
