/**
 * The file system as `tag_file` sees it: a map from (normalised) paths to
 * file contents, and the calls `std::fs::File` makes on it. Whether the
 * operating system lets each call succeed is not something the program
 * decides, so every call takes its outcome as a parameter.
 */
module Fs {
  import opened Wrappers
  import opened Paths

  newtype byte = x: int | 0 <= x < 256

  type Bytes = seq<byte>

  /**
   * What one `Write::write` call does: accept the whole buffer, accept only
   * its first `count` bytes (a short write), or fail.
   */
  datatype WriteResult = WroteAll | WroteOnly(count: nat) | WriteFailed

  /**
   * The operating system's answers to the calls one `tag_file` makes on its
   * sidecar: whether `File::open` succeeds, whether `read_to_end` fails after
   * reading some bytes, whether `File::create` succeeds, and what `write` does.
   */
  datatype IoOutcomes = IoOutcomes(openOk: bool, readFailsAfter: Option<nat>, createOk: bool, write: WriteResult)

  /** What `File::open` followed by `read_to_end` leaves the caller with. */
  datatype ReadResult = OpenFailed | ReadFailed(partial: Bytes) | ReadAll(data: Bytes)

  /** The first `n` bytes of `b`, or all of them when there are fewer. */
  function Prefix(b: Bytes, n: nat): (r: Bytes)
    ensures r <= b
    ensures |r| == if n < |b| then n else |b|
  {
    if n < |b| then b[..n] else b
  }

  /** The part of `buf` a successful `write` with this outcome accepts. */
  function Accepted(buf: Bytes, outcome: WriteResult): (r: Bytes)
    requires !outcome.WriteFailed?
    ensures r <= buf
    ensures outcome.WroteAll? ==> r == buf
    ensures outcome.WroteOnly? && outcome.count < |buf| ==> |r| == outcome.count
  {
    if outcome.WroteAll? then buf else Prefix(buf, outcome.count)
  }

  class FileSystem {
    var files: map<Path, Bytes>

    constructor (initial: map<Path, Bytes>)
      ensures files == initial
    {
      files := initial;
    }

    /** `Path::exists` for a file. */
    predicate Exists(p: Path)
      reads this
    {
      p in files
    }

    /**
     * `File::open` then `read_to_end` into an empty buffer: the whole content,
     * or, when reading fails, the bytes read before the failure.
     */
    method ReadToEnd(p: Path, io: IoOutcomes) returns (r: ReadResult)
      requires p in files
      ensures !io.openOk ==> r == OpenFailed
      ensures io.openOk && io.readFailsAfter.None? ==> r == ReadAll(files[p])
      ensures io.openOk && io.readFailsAfter.Some? ==> r == ReadFailed(Prefix(files[p], io.readFailsAfter.value))
    {
      if !io.openOk {
        return OpenFailed;
      }
      match io.readFailsAfter
      case None => r := ReadAll(files[p]);
      case Some(n) => r := ReadFailed(Prefix(files[p], n));
    }

    /** `File::create`: on success the file exists and is empty; on failure nothing changes. */
    method Create(p: Path, ok: bool) returns (created: bool)
      modifies this
      ensures created == ok
      ensures files == if ok then old(files)[p := []] else old(files)
    {
      created := ok;
      if ok {
        files := files[p := []];
      }
    }

    /**
     * One `write` call on a file opened for writing at its end: it appends
     * what the operating system accepts of `buf` and reports how many bytes
     * that was, or fails and appends nothing.
     */
    method Write(p: Path, buf: Bytes, outcome: WriteResult) returns (ok: bool, written: nat)
      requires p in files
      modifies this
      ensures ok <==> !outcome.WriteFailed?
      ensures ok ==> written <= |buf| && written == |Accepted(buf, outcome)|
      ensures files == if ok then old(files)[p := old(files)[p] + Accepted(buf, outcome)] else old(files)
    {
      if outcome.WriteFailed? {
        return false, 0;
      }
      var accepted := Accepted(buf, outcome);
      files := files[p := files[p] + accepted];
      ok, written := true, |accepted|;
    }
  }
}
