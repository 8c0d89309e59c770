// Reading one value from standard input, chunk by chunk.
module Reader {
  import opened Bytes
  import opened Nom
  import opened Netencode
  import opened Parse
  import Streaming
  import RoundTrip

  /** What the operating system has in store for the reader of a stream: data in
      arbitrary portions and read errors, then the end. */
  datatype Event = Data(bytes: Bytes) | Fault

  datatype ReadResult = Count(n: nat) | IoError

  /** The bytes that can be read before an error or the end. */
  ghost function Available(events: seq<Event>): Bytes {
    if events == [] || events[0].Fault? then [] else events[0].bytes + Available(events[1..])
  }

  /** The stream breaks before it ends. */
  ghost predicate Breaks(events: seq<Event>) {
    events != [] && (events[0].Fault? || Breaks(events[1..]))
  }

  ghost predicate NoEmptyData(events: seq<Event>) {
    forall k :: 0 <= k < |events| && events[k].Data? ==> events[k].bytes != []
  }

  class Stream {
    var events: seq<Event>

    constructor (events: seq<Event>)
      ensures this.events == events
    {
      this.events := events;
    }

    /** `Read::read`: fills a prefix of `buf`; a count of 0 means the end of the stream. */
    method Read(buf: array<byte>) returns (r: ReadResult)
      requires NoEmptyData(events) && 0 < buf.Length
      modifies this`events, buf
      ensures NoEmptyData(events)
      ensures r.IoError? <==> old(events) != [] && old(events)[0].Fault?
      ensures r == Count(0) <==> old(events) == []
      ensures r == Count(0) ==> events == []
      ensures r.Count? ==> r.n <= buf.Length && old(Available(events)) == buf[..r.n] + Available(events)
      ensures r.Count? ==> old(Breaks(events)) == Breaks(events)
      ensures old(events) != [] ==> |Available(events)| < old(|Available(events)|) || |events| < old(|events|)
      ensures |events| <= old(|events|)
    {
      if events == [] {
        return Count(0);
      }
      var head := events[0];
      if head.Fault? {
        events := events[1..];
        return IoError;
      }
      var n := if |head.bytes| <= buf.Length then |head.bytes| else buf.Length;
      forall k | 0 <= k < n {
        buf[k] := head.bytes[k];
      }
      var rest := head.bytes[n..];
      assert head.bytes == buf[..n] + rest;
      events := if rest == [] then events[1..] else [Data(rest)] + events[1..];
      return Count(n);
    }
  }

  datatype Chunk = End | Broken | Chunk(bytes: Bytes)

  /** The iterator over chunks of bounded size. */
  class Chunkyboi {
    const inner: Stream
    const buf: array<byte>

    constructor (inner: Stream, chunksize: nat)
      requires 0 < chunksize
      ensures this.inner == inner && fresh(buf) && buf.Length == chunksize
    {
      this.inner := inner;
      this.buf := new byte[chunksize];
    }

    method Next() returns (c: Chunk)
      requires NoEmptyData(inner.events) && 0 < buf.Length
      modifies inner`events, buf
      ensures NoEmptyData(inner.events)
      ensures c.Broken? <==> old(inner.events) != [] && old(inner.events)[0].Fault?
      ensures c.End? <==> old(inner.events) == []
      ensures c.End? ==> inner.events == []
      ensures c.Chunk? ==> c.bytes != [] && old(Available(inner.events)) == c.bytes + Available(inner.events)
      ensures c.Chunk? ==> old(Breaks(inner.events)) == Breaks(inner.events)
      ensures old(inner.events) != [] ==>
        |Available(inner.events)| < old(|Available(inner.events)|) || |inner.events| < old(|inner.events|)
      ensures |inner.events| <= old(|inner.events|)
    {
      var r := inner.Read(buf);
      match r
      case IoError => c := Broken;
      case Count(n) => c := if n == 0 then End else Chunk(buf[..n]);
    }
  }

  /** How reading a value ends. The three `Die` cases leave the process. */
  datatype Outcome =
    | Nothing
    | Got(rest: Bytes, value: Value)
    | DieReadError
    | DieIncomplete
    | DieUnparsable

  /** The outcome, from the input as a whole: `all` is everything that is readable behind
      the initial bytes, and `unread` is what is still in the stream afterwards. */
  ghost predicate Reads(o: Outcome, all: Bytes, unread: Bytes, breaks: bool) {
    match ValueP(all)
    case Ok(rest, v) => o.Got? && o.value == v && o.rest + unread == rest
    case Incomplete =>
      o == if breaks then DieReadError else if all == [] then Nothing else DieIncomplete
    case _ => o == DieUnparsable
  }

  lemma EmptyIsIncomplete()
    ensures ValueP([]).Incomplete?
  {}

  /** Every strict prefix of an encoding is `Incomplete`. */
  lemma StrictPrefixIncomplete(u: View, p: Bytes)
    requires Typed(u) && Iterated(u) && Encodable(u) && |Encoded(u)| <= USIZE_MAX
    requires p < Encoded(u)
    ensures ValueP(p).Incomplete?
  {
    hide ValueP;
    var missing := Encoded(u)[|p|..];
    assert p + missing == Encoded(u) + [];
    RoundTrip.RoundTrip(u, []);
    Streaming.ValueStable(p, missing);
  }

  /** A written value comes out of the stream in one piece, with exactly the bytes behind
      it split between the returned rest and the unread part of the stream. */
  lemma WrittenIsRead(u: View, tail: Bytes, o: Outcome, unread: Bytes, breaks: bool)
    requires Typed(u) && Iterated(u) && Encodable(u) && |Encoded(u)| <= USIZE_MAX
    requires Reads(o, Encoded(u) + tail, unread, breaks)
    ensures o.Got? && o.value == ToValue(u) && o.rest + unread == tail
  {
    hide ValueP;
    RoundTrip.RoundTrip(u, tail);
  }

  /** `t_from_stdin_or_die_user_error_with_rest`: whatever the portions in which the
      stream delivers its bytes, the outcome is that of parsing all of them at once. */
  method ValueFromStream(stdin: Stream, initial: Bytes) returns (o: Outcome)
    requires NoEmptyData(stdin.events)
    modifies stdin
    ensures old(stdin.events) != [] && old(stdin.events)[0].Fault? ==> o == DieReadError
    ensures !(old(stdin.events) != [] && old(stdin.events)[0].Fault?) ==>
      Reads(o, initial + old(Available(stdin.events)), Available(stdin.events), old(Breaks(stdin.events)))
    ensures NoEmptyData(stdin.events)
    ensures o.Got? || o.Nothing? ==> Breaks(stdin.events) == old(Breaks(stdin.events))
  {
    hide ValueP;
    var chonker := new Chunkyboi(stdin, 4096);
    var parser_vec := initial;
    var was_empty := false;
    ghost var all := initial + Available(stdin.events);
    ghost var first := true;
    while true
      invariant fresh(chonker.buf) && chonker.inner == stdin && NoEmptyData(stdin.events) && chonker.buf.Length == 4096
      invariant parser_vec + Available(stdin.events) == all
      invariant first ==> stdin.events == old(stdin.events)
      invariant Breaks(stdin.events) == old(Breaks(stdin.events))
      invariant !first ==> ValueP(parser_vec).Incomplete? && (old(stdin.events) == [] || old(stdin.events)[0].Data?)
      invariant !was_empty
      decreases |stdin.events| + |Available(stdin.events)|
    {
      assert parser_vec + [] == parser_vec;
      var chunk := chonker.Next();
      match chunk {
        case End =>
          if parser_vec == [] {
            EmptyIsIncomplete();
            return Nothing;
          }
          was_empty := true;
        case Broken =>
          return DieReadError;
        case Chunk(bytes) =>
          assert parser_vec + (bytes + Available(stdin.events)) == (parser_vec + bytes) + Available(stdin.events);
          parser_vec := parser_vec + bytes;
      }
      Streaming.ValueStable(parser_vec, Available(stdin.events));
      match ValueP(parser_vec) {
        case Ok(rest, v) =>
          return Got(rest, v);
        case Incomplete =>
          if was_empty {
            return DieIncomplete;
          }
        case _ =>
          return DieUnparsable;
      }
      first := false;
    }
  }

  // ---- One value after the other

  /** The outcomes of calls, each with the rest of the one before as its initial bytes, until one
      does not give a value. `all` is what there is for the first call, over a stream that does
      not break. */
  ghost predicate Calls(all: Bytes, os: seq<Outcome>)
    decreases |os|
  {
    os != [] ==>
      exists unread :: Reads(os[0], all, unread, false) &&
        if os[0].Got? then Calls(os[0].rest + unread, os[1..]) else |os| == 1
  }

  lemma OneCall(all: Bytes, o: Outcome, unread: Bytes, later: seq<Outcome>)
    requires Reads(o, all, unread, false)
    requires if o.Got? then Calls(o.rest + unread, later) else later == []
    ensures Calls(all, [o] + later)
  {
    hide ValueP, Reads;
    assert ([o] + later)[0] == o && ([o] + later)[1..] == later;
  }

  lemma Consumes(all: Bytes, o: Outcome, unread: Bytes)
    requires Reads(o, all, unread, false) && o.Got?
    ensures |o.rest + unread| < |all|
  {
    hide ValueP;
  }

  /** The calls that the description of the rest has in mind: values are read, each with the rest
      of the one before, until something else comes. */
  method ReadAll(stdin: Stream, initial: Bytes) returns (os: seq<Outcome>)
    requires NoEmptyData(stdin.events) && !Breaks(stdin.events)
    modifies stdin
    ensures os != [] && !os[|os| - 1].Got? && Calls(initial + old(Available(stdin.events)), os)
    decreases |initial| + |Available(stdin.events)|
  {
    hide ValueP, Reads, Calls;
    ghost var all := initial + Available(stdin.events);
    assert stdin.events != [] ==> !stdin.events[0].Fault?;
    var o := ValueFromStream(stdin, initial);
    ghost var unread := Available(stdin.events);
    if o.Got? {
      Consumes(all, o, unread);
      var later := ReadAll(stdin, o.rest);
      OneCall(all, o, unread, later);
      os := [o] + later;
    } else {
      OneCall(all, o, unread, []);
      os := [o];
      assert [o] + [] == [o];
    }
  }

  ghost predicate AllWritten(us: seq<View>) {
    forall u :: u in us ==> Typed(u) && Iterated(u) && Encodable(u) && |Encoded(u)| <= USIZE_MAX
  }

  /** Main result: of a list of encodings, in whatever chunks, such calls read exactly the values,
      in order, and leave exactly the bytes behind them. */
  lemma {:induction false} WrittenListIsRead(us: seq<View>, tail: Bytes, os: seq<Outcome>)
    requires AllWritten(us) && Calls(EncodedAll(us) + tail, os)
    ensures forall k :: 0 <= k < |os| && k < |us| ==> os[k].Got? && os[k].value == ToValue(us[k])
    ensures |os| >= |us| ==> Calls(tail, os[|us|..])
    decreases |us|
  {
    hide ValueP;
    if us == [] {
      assert EncodedAll(us) + tail == tail && os[0..] == os;
    } else if os != [] {
      var behind := EncodedAll(us[1..]) + tail;
      assert EncodedAll(us) + tail == Encoded(us[0]) + behind;
      var unread :| Reads(os[0], EncodedAll(us) + tail, unread, false)
        && if os[0].Got? then Calls(os[0].rest + unread, os[1..]) else |os| == 1;
      WrittenIsRead(us[0], behind, os[0], unread, false);
      WrittenListIsRead(us[1..], tail, os[1..]);
      hide Encoded, Reads;
      assert forall k :: 0 < k < |os| ==> os[k] == os[1..][k - 1];
      assert forall k :: 0 < k < |us| ==> us[k] == us[1..][k - 1];
      if |os| >= |us| {
        assert os[1..][|us[1..]|..] == os[|us|..];
      }
    }
  }

  lemma NothingLeft(os: seq<Outcome>)
    requires Calls([], os) && os != []
    ensures os == [Nothing]
  {
    hide ValueP;
    EmptyIsIncomplete();
  }

  /** And when there is nothing behind them, one more call says so. */
  lemma ThenNothing(us: seq<View>, os: seq<Outcome>)
    requires AllWritten(us) && Calls(EncodedAll(us), os) && |os| > |us|
    ensures |os| == |us| + 1 && os[|us|] == Nothing
    ensures forall k :: 0 <= k < |us| ==> os[k].Got? && os[k].value == ToValue(us[k])
  {
    hide Calls, AllWritten, EncodedAll;
    assert EncodedAll(us) + [] == EncodedAll(us);
    WrittenListIsRead(us, [], os);
    NothingLeft(os[|us|..]);
    assert os[|us|..][0] == os[|us|] && |os[|us|..]| == 1;
  }

  /** Main result: a stream that holds nothing but a list of encodings, in whatever chunks, is read
      as exactly their values, and then there is nothing. */
  method ReadWritten(stdin: Stream, ghost us: seq<View>) returns (os: seq<Outcome>)
    requires NoEmptyData(stdin.events) && !Breaks(stdin.events)
    requires AllWritten(us) && Available(stdin.events) == EncodedAll(us)
    modifies stdin
    ensures |os| == |us| + 1 && os[|us|] == Nothing
    ensures forall k :: 0 <= k < |us| ==> os[k].Got? && os[k].value == ToValue(us[k])
  {
    hide ValueP, Reads, Calls, AllWritten, EncodedAll;
    assert [] + Available(stdin.events) == EncodedAll(us);
    os := ReadAll(stdin, []);
    LongEnough(us, os);
    ThenNothing(us, os);
  }

  /** Reading does not stop at a value. */
  lemma LongEnough(us: seq<View>, os: seq<Outcome>)
    requires AllWritten(us) && Calls(EncodedAll(us), os) && os != [] && !os[|os| - 1].Got?
    ensures |os| > |us|
  {
    hide Calls, AllWritten, EncodedAll;
    assert EncodedAll(us) + [] == EncodedAll(us);
    WrittenListIsRead(us, [], os);
  }
}
