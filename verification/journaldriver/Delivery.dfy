// The forwarder over its whole life: it may die after any step and is started again.
module Delivery {
  import opened Common
  import opened Driver

  /** A file with a cursor in it, or one that was not written to its end. */
  datatype Content = Torn | Cursor(last: Index)

  datatype Phase =
    | Down
    | Reading
    /** Writing requests; the cursor is empty when the library gives none. */
    | Flushing(rest: seq<Index>, cursor: Option<Index>)
    | Creating(last: Index)
    | WritingTmp(last: Index)
    | Renaming(last: Index)

  /** `next` is the number of the entry to be read next. The last five are history: the first
      entry that any process started from; where the last process started that found no cursor
      file; how far the requests have come; how far the journal has been read; and whether
      every process that found no cursor file, but the first, started where the requests of
      the one before had ended. */
  datatype State = State(
    phase: Phase,
    next: Index,
    buf: seq<Index>,
    pos: Option<Content>,
    tmp: Option<Content>,
    attempted: set<Index>,
    first: Option<Index>,
    origin: Index,
    done: Index,
    high: Index,
    gapless: bool)

  function Fresh(): State {
    State(Down, 0, [], None, None, {}, None, 0, 0, 0, true)
  }

  datatype Event =
    /** Without a cursor file, from the tail. */
    | StartAtTail(tail: Index)
    /** At the entry of the cursor, or after it. */
    | StartAtCursor(again: bool)
    | Read
    | Flush(empty: bool)
    | Write
    | EndWrites
    | CreateTmp
    | WriteTmp
    | Rename
    | Die

  predicate Enabled(s: State, e: Event) {
    match e
    case StartAtTail(tail) => s.phase.Down? && s.pos.None? && tail >= s.high
    case StartAtCursor(_) => s.phase.Down? && s.pos.Some? && s.pos.value.Cursor?
    case Read => s.phase.Reading?
    case Flush(_) => s.phase.Reading? && s.buf != []
    case Write => s.phase.Flushing? && s.phase.rest != []
    case EndWrites => s.phase.Flushing? && s.phase.rest == []
    case CreateTmp => s.phase.Creating?
    case WriteTmp => s.phase.WritingTmp?
    case Rename => s.phase.Renaming?
    case Die => !s.phase.Down?
  }

  function Max(a: nat, b: nat): nat {
    if a < b then b else a
  }

  function Apply(s: State, e: Event): State
    requires Enabled(s, e)
  {
    match e
    case StartAtTail(tail) =>
      s.(phase := Reading, next := tail, buf := [], first := if s.first.None? then Some(tail) else s.first,
         origin := tail, done := tail, high := tail,
         gapless := s.gapless && (s.first.None? || tail == s.done))
    case StartAtCursor(again) =>
      var from := if again then s.pos.value.last else s.pos.value.last + 1;
      s.(phase := Reading, next := from, buf := [], done := from)
    case Read => s.(next := s.next + 1, buf := s.buf + [s.next], high := Max(s.high, s.next + 1))
    case Flush(empty) => s.(phase := Flushing(s.buf, if empty then None else Some(s.buf[|s.buf| - 1])), buf := [])
    case Write =>
      var chunk := FirstChunk(s.phase.rest);
      s.(phase := Flushing(AfterChunk(s.phase.rest), s.phase.cursor),
         attempted := s.attempted + (set i | i in chunk), done := s.done + |chunk|)
    case EndWrites => s.(phase := if s.phase.cursor.None? then Reading else Creating(s.phase.cursor.value))
    case CreateTmp => s.(phase := WritingTmp(s.phase.last), tmp := Some(Torn))
    case WriteTmp => s.(phase := Renaming(s.phase.last), tmp := Some(Cursor(s.phase.last)))
    case Rename => s.(phase := Reading, pos := s.tmp, tmp := None)
    case Die => s.(phase := Down, buf := [])
  }

  ghost predicate IsRun(s: State, events: seq<Event>)
    decreases |events|
  {
    events == [] || (Enabled(s, events[0]) && IsRun(Apply(s, events[0]), events[1..]))
  }

  ghost function After(s: State, events: seq<Event>): State
    requires IsRun(s, events)
    decreases |events|
  {
    if events == [] then s else After(Apply(s, events[0]), events[1..])
  }

  /** The entries from `lo` up to `hi`, in order. */
  predicate IsRange(entries: seq<Index>, lo: Index, hi: Index) {
    lo + |entries| == hi && forall k :: 0 <= k < |entries| ==> entries[k] == lo + k
  }

  /** Writing was attempted for everything from `lo` up to `hi`. */
  ghost predicate Covered(s: State, lo: Index, hi: Index) {
    forall i :: lo <= i < hi ==> i in s.attempted
  }

  ghost predicate PhaseHolds(s: State) {
    match s.phase
    case Down => true
    case Reading => IsRange(s.buf, s.done, s.next)
    case Flushing(rest, cursor) =>
      && s.buf == [] && IsRange(rest, s.done, s.next) && s.origin < s.next
      && (cursor.Some? ==> cursor.value == s.next - 1)
    case Creating(last) => s.buf == [] && s.done == s.next == last + 1 && s.origin <= last
    case WritingTmp(last) => s.buf == [] && s.done == s.next == last + 1 && s.origin <= last && s.tmp == Some(Torn)
    case Renaming(last) => s.buf == [] && s.done == s.next == last + 1 && s.origin <= last && s.tmp == Some(Cursor(last))
  }

  /** The file is absent or has a complete cursor in it, up to which everything was attempted. */
  ghost predicate CursorHolds(s: State) {
    s.pos.Some? ==>
      && s.pos.value.Cursor?
      && s.origin <= s.pos.value.last
      && s.pos.value.last < s.high
      && Covered(s, s.origin, s.pos.value.last + 1)
      && (!s.phase.Down? ==> s.pos.value.last <= s.done)
      && (s.phase.Flushing? ==> s.pos.value.last < s.next)
      && (s.phase.Creating? || s.phase.WritingTmp? || s.phase.Renaming? ==> s.pos.value.last <= s.phase.last)
  }

  ghost predicate HistoryHolds(s: State) {
    if s.first.None? then s == Fresh()
    else
      && s.first.value <= s.origin <= s.done <= s.high
      && (s.phase.Down? || s.next <= s.high)
      && Covered(s, s.origin, s.done)
      && (forall i :: i in s.attempted ==> i < s.high)
      && (s.pos.None? ==> forall i :: i in s.attempted ==> i < s.done)
      && (s.gapless <==> Covered(s, s.first.value, s.origin))
  }

  ghost predicate Inv(s: State) {
    PhaseHolds(s) && CursorHolds(s) && HistoryHolds(s)
  }

  lemma StepKeepsPhase(s: State, e: Event)
    requires Inv(s) && Enabled(s, e)
    ensures PhaseHolds(Apply(s, e))
  {}

  lemma StepKeepsCursor(s: State, e: Event)
    requires Inv(s) && Enabled(s, e)
    ensures CursorHolds(Apply(s, e))
    ensures s.pos.Some? ==> Apply(s, e).pos.Some? && s.pos.value.last <= Apply(s, e).pos.value.last
  {}

  lemma StepKeepsHistory(s: State, e: Event)
    requires Inv(s) && Enabled(s, e)
    ensures HistoryHolds(Apply(s, e))
  {
    var s' := Apply(s, e);
    if e.Write? {
      forall i | s.done <= i < s'.done ensures i in s'.attempted {
        assert FirstChunk(s.phase.rest)[i - s.done] == i;
      }
      assert forall i :: i in s'.attempted && i !in s.attempted ==> s.done <= i;
      assert Covered(s', s.first.value, s.origin) <==> Covered(s, s.first.value, s.origin);
    } else if e.StartAtTail? && s.first.Some? {
      assert e.tail > s.done ==> s.done !in s'.attempted;
      assert Covered(s', s.first.value, e.tail) <==> Covered(s, s.first.value, s.origin) && e.tail == s.done;
    }
  }

  lemma {:induction false} RunKeepsInv(s: State, events: seq<Event>)
    requires Inv(s) && IsRun(s, events)
    ensures Inv(After(s, events))
    ensures s.pos.Some? ==> After(s, events).pos.Some? && s.pos.value.last <= After(s, events).pos.value.last
    decreases |events|
  {
    if events != [] {
      StepKeepsPhase(s, events[0]);
      StepKeepsCursor(s, events[0]);
      StepKeepsHistory(s, events[0]);
      hide Apply, Enabled, PhaseHolds, HistoryHolds;
      RunKeepsInv(Apply(s, events[0]), events[1..]);
    }
  }

  /** Main result: in every run with deaths at any step, the cursor file is absent or complete,
      and writing was attempted for everything between where the last process started that
      found no file and the cursor. For everything since the very first start it was attempted
      exactly if no process without a file started later than the requests had come. */
  lemma AttemptedUpToCursor(events: seq<Event>)
    requires IsRun(Fresh(), events)
    ensures var s := After(Fresh(), events);
      s.pos.Some? ==>
        && s.pos.value.Cursor? && s.first.Some? && s.origin <= s.pos.value.last
        && Covered(s, s.origin, s.pos.value.last + 1)
        && (Covered(s, s.first.value, s.pos.value.last + 1) <==> s.gapless)
  {
    hide Apply, Enabled;
    assert Inv(Fresh());
    RunKeepsInv(Fresh(), events);
    var s := After(Fresh(), events);
    if s.pos.Some? {
      assert Covered(s, s.first.value, s.pos.value.last + 1)
        <==> Covered(s, s.first.value, s.origin) && Covered(s, s.origin, s.pos.value.last + 1);
    }
  }

  /** The saved cursor never goes back. */
  lemma CursorOnlyAdvances(before: seq<Event>, later: seq<Event>)
    requires IsRun(Fresh(), before) && IsRun(After(Fresh(), before), later)
    requires After(Fresh(), before).pos.Some?
    ensures var (s, s') := (After(Fresh(), before), After(After(Fresh(), before), later));
      && s.pos.value.Cursor? && s'.pos.Some? && s'.pos.value.Cursor?
      && s.pos.value.last <= s'.pos.value.last
  {
    hide Apply, Enabled;
    assert Inv(Fresh());
    RunKeepsInv(Fresh(), before);
    RunKeepsInv(After(Fresh(), before), later);
  }

  // ---- An entry that is lost

  lemma Then(s: State, e: Event, later: seq<Event>)
    requires Enabled(s, e) && IsRun(Apply(s, e), later)
    ensures IsRun(s, [e] + later) && After(s, [e] + later) == After(Apply(s, e), later)
  {
    assert ([e] + later)[0] == e && ([e] + later)[1..] == later;
    hide Apply, Enabled;
  }

  /** From where a process has just started: one entry is read, written and saved. */
  lemma OneEntry(s: State) returns (events: seq<Event>)
    requires s.phase.Reading? && s.buf == []
    ensures IsRun(s, events)
    ensures After(s, events).pos == Some(Cursor(s.next)) && After(s, events).attempted == s.attempted + {s.next}
    ensures After(s, events).first == s.first
  {
    var s1 := Apply(s, Read);
    var s2 := Apply(s1, Flush(false));
    var s3 := Apply(s2, Write);
    assert s2.phase == Flushing([s.next], Some(s.next));
    assert s3.attempted == s.attempted + {s.next} && s3.phase == Flushing([], Some(s.next));
    events := [EndWrites, CreateTmp, WriteTmp, Rename];
    hide FirstChunk, AfterChunk;
    FourSteps(s3, s.next);
    Then(s2, Write, events);
    Then(s1, Flush(false), [Write] + events);
    Then(s, Read, [Flush(false)] + ([Write] + events));
    events := [Read] + ([Flush(false)] + ([Write] + events));
  }

  lemma FourSteps(s: State, last: Index)
    requires s.phase == Flushing([], Some(last))
    ensures var events := [EndWrites, CreateTmp, WriteTmp, Rename];
      IsRun(s, events) && After(s, events).pos == Some(Cursor(last)) && After(s, events).attempted == s.attempted
      && After(s, events).first == s.first
  {
    var s1 := Apply(s, EndWrites);
    var s2 := Apply(s1, CreateTmp);
    var s3 := Apply(s2, WriteTmp);
    Then(s3, Rename, []);
    Then(s2, WriteTmp, [Rename]);
    Then(s1, CreateTmp, [WriteTmp] + [Rename]);
    Then(s, EndWrites, [CreateTmp] + ([WriteTmp] + [Rename]));
    assert [EndWrites] + ([CreateTmp] + ([WriteTmp] + [Rename])) == [EndWrites, CreateTmp, WriteTmp, Rename];
  }

  /** A process dies before it has ever saved a cursor; the next one starts at the tail, past
      the entry that had been read. The cursor moves on, and nobody ever tries to write it. */
  lemma LostEntry() returns (events: seq<Event>)
    ensures IsRun(Fresh(), events)
    ensures var s := After(Fresh(), events);
      s.first == Some(0) && s.pos == Some(Cursor(1)) && 0 !in s.attempted
  {
    var s1 := Apply(Fresh(), StartAtTail(0));
    var s2 := Apply(s1, Read);
    var s3 := Apply(s2, Die);
    var s4 := Apply(s3, StartAtTail(1));
    events := OneEntry(s4);
    assert s4.next == 1 && s4.attempted == {} && s4.first == Some(0);
    Then(s3, StartAtTail(1), events);
    events := [StartAtTail(1)] + events;
    Then(s2, Die, events);
    events := [Die] + events;
    Then(s1, Read, events);
    events := [Read] + events;
    Then(Fresh(), StartAtTail(0), events);
    events := [StartAtTail(0)] + events;
  }

  // ---- Going on

  lemma ReachedHere(s: State)
    ensures IsRun(s, []) && After(s, []) == s
  {}

  lemma Also(s: State, e: Event, later: seq<Event>) returns (events: seq<Event>)
    requires Enabled(s, e) && IsRun(Apply(s, e), later)
    ensures IsRun(s, events) && After(s, events) == After(Apply(s, e), later)
  {
    hide Apply, Enabled;
    Then(s, e, later);
    events := [e] + later;
  }

  /** What has become of the state when a flush has ended. */
  ghost predicate Flushed(s: State, s': State, rest: seq<Index>, cursor: Option<Index>) {
    && s'.phase.Reading? && s'.next == s.next && s'.buf == s.buf
    && s'.attempted == s.attempted + (set i | i in rest)
    && s'.pos == if cursor.Some? then Some(Cursor(cursor.value)) else s.pos
  }

  lemma WritesEnd(s: State) returns (events: seq<Event>)
    requires s.phase.Flushing? && s.phase.rest == []
    ensures IsRun(s, events) && Flushed(s, After(s, events), [], s.phase.cursor)
  {
    var s1 := Apply(s, EndWrites);
    if s.phase.cursor.None? {
      ReachedHere(s1);
      events := Also(s, EndWrites, []);
    } else {
      var s2 := Apply(s1, CreateTmp);
      var s3 := Apply(s2, WriteTmp);
      var s4 := Apply(s3, Rename);
      assert Flushed(s, s4, [], s.phase.cursor);
      hide Apply, Flushed;
      ReachedHere(s4);
      events := Also(s3, Rename, []);
      events := Also(s2, WriteTmp, events);
      events := Also(s1, CreateTmp, events);
      events := Also(s, EndWrites, events);
    }
  }

  lemma ChunkIs(s: State)
    requires s.phase.Flushing? && s.phase.rest != []
    ensures Enabled(s, Write)
    ensures var s' := Apply(s, Write);
      && s'.phase.Flushing? && |s'.phase.rest| < |s.phase.rest| && s'.phase.cursor == s.phase.cursor
      && s'.next == s.next && s'.buf == s.buf && s'.pos == s.pos
      && s'.attempted + (set i | i in s'.phase.rest) == s.attempted + (set i | i in s.phase.rest)
  {
    var (rest, s') := (s.phase.rest, Apply(s, Write));
    assert rest == FirstChunk(rest) + AfterChunk(rest);
    assert forall i :: i in rest <==> i in FirstChunk(rest) || i in AfterChunk(rest);
    hide FirstChunk, AfterChunk;
    assert (set i | i in FirstChunk(rest)) + (set i | i in AfterChunk(rest)) == set i | i in rest;
  }

  /** Main result: a flush, of any size, can always be carried through: then everything in it has
      been attempted, the cursor is saved if the library gave one, and reading goes on. */
  lemma {:induction false} FlushGoesThrough(s: State) returns (events: seq<Event>)
    requires s.phase.Flushing?
    ensures IsRun(s, events) && Flushed(s, After(s, events), s.phase.rest, s.phase.cursor)
    decreases |s.phase.rest|
  {
    if s.phase.rest == [] {
      events := WritesEnd(s);
    } else {
      ChunkIs(s);
      var s' := Apply(s, Write);
      hide Apply, Enabled;
      events := FlushGoesThrough(s');
      events := Also(s, Write, events);
    }
  }

  /** Main result: a process that is started again reads from the cursor on, with the entry of the
      cursor or after it; without a cursor file it reads from the tail of the journal. */
  lemma Restarts(s: State, again: bool, tail: Index)
    requires s.phase.Down?
    ensures s.pos.Some? && s.pos.value.Cursor? ==>
      && Enabled(s, StartAtCursor(again))
      && var s' := Apply(s, StartAtCursor(again));
         s'.phase.Reading? && s'.next == (if again then s.pos.value.last else s.pos.value.last + 1) && s'.buf == [] && s'.pos == s.pos
    ensures s.pos == None && tail >= s.high ==>
      && Enabled(s, StartAtTail(tail))
      && var s' := Apply(s, StartAtTail(tail));
         s'.phase.Reading? && s'.next == tail && s'.buf == [] && s'.pos == None
  {}

  /** Main result: from every state that can be reached, after any deaths, the entry that comes
      next after a restart can be read, written and saved. */
  lemma NeverStuck(before: seq<Event>) returns (later: seq<Event>)
    requires IsRun(Fresh(), before)
    ensures var s := After(Fresh(), before);
      && IsRun(s, later)
      && var next := if s.pos.Some? && s.pos.value.Cursor? then s.pos.value.last + 1 else s.high;
         After(s, later).pos == Some(Cursor(next)) && next in After(s, later).attempted
  {
    var s := After(Fresh(), before);
    assert Inv(Fresh());
    RunKeepsInv(Fresh(), before);
    var s1 := if s.phase.Down? then s else Apply(s, Die);
    assert s1.phase.Down? && s1.pos == s.pos && s1.high == s.high && (s.phase.Down? || Enabled(s, Die));
    var start := if s.pos.Some? then StartAtCursor(false) else StartAtTail(s.high);
    assert s.pos.Some? ==> s.pos.value.Cursor?;
    Restarts(s1, false, s.high);
    var s2 := Apply(s1, start);
    hide Apply, Enabled, Inv, After, IsRun, Fresh;
    later := OneEntry(s2);
    later := Also(s1, start, later);
    if !s.phase.Down? {
      later := Also(s, Die, later);
    }
  }
}
