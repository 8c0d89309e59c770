// Forwarding the entries of a journal, and saving how far that has come.
module Driver {
  import opened Common

  /** An entry is known by its number in the journal. */
  type Index = nat

  const CHUNK: nat := 750

  function Min(a: nat, b: nat): nat {
    if a < b then a else b
  }

  /** What one request carries of the entries that are left. */
  function FirstChunk(entries: seq<Index>): seq<Index> {
    entries[..Min(CHUNK, |entries|)]
  }

  function AfterChunk(entries: seq<Index>): seq<Index> {
    entries[Min(CHUNK, |entries|)..]
  }

  function Concat(chunks: seq<seq<Index>>): seq<Index> {
    if chunks == [] then [] else Concat(chunks[..|chunks| - 1]) + chunks[|chunks| - 1]
  }

  /** What can become of writing the cursor. */
  datatype Io = Fine | CreateFails | WriteFails(written: string) | RenameFails

  /** Creates the temporary file, writes and renames it. */
  class CursorFiles {
    var pos: Option<string>
    var tmp: Option<string>

    constructor (pos: Option<string>, tmp: Option<string>)
      ensures this.pos == pos && this.tmp == tmp
    {
      this.pos, this.tmp := pos, tmp;
    }

    /** `persist_cursor`: whatever happens, the file holds its old contents or all of the
        cursor. */
    method PersistCursor(cursor: string, io: Io) returns (ok: bool)
      modifies this
      ensures cursor == "" ==> ok && pos == old(pos) && tmp == old(tmp)
      ensures cursor != "" ==> (ok <==> io.Fine?)
      ensures pos == if cursor != "" && ok then Some(cursor) else old(pos)
      ensures cursor != "" ==> tmp == (match io
        case Fine => None
        case CreateFails => old(tmp)
        case WriteFails(written) => Some(written)
        case RenameFails => Some(cursor))
    {
      if cursor == "" {
        return true;
      }
      if io.CreateFails? {
        return false;
      }
      tmp := Some("");
      if io.WriteFails? {
        tmp := Some(io.written);
        return false;
      }
      tmp := Some(cursor);
      if io.RenameFails? {
        return false;
      }
      pos, tmp := tmp, None;
      return true;
    }

    /** `flush`: every entry is in one request, in order, and none is too large; a request
        that fails is not made again, and the cursor is saved all the same. */
    method Flush(entries: seq<Index>, cursor: string, token: bool, io: Io)
      returns (ok: bool, requests: seq<seq<Index>>)
      modifies this
      ensures !token ==> !ok && requests == [] && pos == old(pos)
      ensures token ==> Concat(requests) == entries
      ensures forall r :: r in requests ==> 0 < |r| <= 750
      ensures |requests| == (if token then (|entries| + 749) / 750 else 0)
      ensures ok <==> token && (cursor == "" || io.Fine?)
      ensures pos == if ok && cursor != "" then Some(cursor) else old(pos)
    {
      requests := [];
      if !token {
        return false, requests;
      }
      var rest := entries;
      while rest != []
        invariant Concat(requests) + rest == entries && pos == old(pos) && tmp == old(tmp)
        invariant forall r :: r in requests ==> 0 < |r| <= CHUNK
        invariant rest != [] ==> |rest| + |requests| * CHUNK == |entries|
        invariant rest == [] ==> |requests| == (|entries| + CHUNK - 1) / CHUNK
      {
        Chunked(requests, rest);
        requests := requests + [FirstChunk(rest)];
        rest := AfterChunk(rest);
      }
      ok := PersistCursor(cursor, io);
    }
  }

  lemma Chunked(chunks: seq<seq<Index>>, rest: seq<Index>)
    ensures Concat(chunks + [FirstChunk(rest)]) + AfterChunk(rest) == Concat(chunks) + rest
  {
    assert (chunks + [FirstChunk(rest)])[..|chunks|] == chunks;
    assert FirstChunk(rest) + AfterChunk(rest) == rest;
  }
}
