/**
 * The persistent zlib inflate stream of one connection (`Zlib::Inflate`).
 * Decompression itself is foreign: what it yields for a chunk is the
 * `engine` applied to the chunks fed since the stream was created and to
 * the new chunk. Only the order of feeding and resetting is modelled.
 */
module Inflate {
  import opened Values

  type Engine = (seq<Bytes>, Bytes) -> Bytes

  class Inflater {
    const engine: Engine
    /** The chunks fed to this stream since it was created, in order. */
    var fed: seq<Bytes>

    /** `Zlib::Inflate.new` */
    constructor (engine: Engine)
      ensures this.engine == engine && fed == []
    {
      this.engine := engine;
      fed := [];
    }

    /** `inflate(chunk)`: decompresses the next chunk of the stream. */
    method Inflate(chunk: Bytes) returns (out: Bytes)
      modifies this
      ensures fed == old(fed) + [chunk]
      ensures out == engine(old(fed), chunk)
    {
      out := engine(fed, chunk);
      fed := fed + [chunk];
    }
  }
}
