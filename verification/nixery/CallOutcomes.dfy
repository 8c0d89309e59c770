// What becomes of a call: an independent account of its own events says how it ends and what
// it returns, in every interleaving with other calls.
module CallOutcomes {
  import opened Upload

  datatype Seen = Nothing | Hit(entry: Entry)

  /** An event of the thread, with the entry that it has found in a cache, if any. */
  datatype Note = Note(e: Event, seen: Seen)

  /** The events of one call, from its `Call` on. */
  type Account = seq<Note>

  /** Looking in the local cache, and reading the build in the bucket, may find an entry. */
  ghost function Finding(s: State, e: Event, key: Key): Seen {
    match e
    case CheckLocal(_) => if key in s.lcache then Hit(s.lcache[key]) else Nothing
    case FetchHit(_) => if Build(key) in s.store && s.store[Build(key)].Json? then Hit(s.store[Build(key)].entry) else Nothing
    case _ => Nothing
  }

  /** A call begins the account, and unlocking or a crash ends it. */
  ghost function Noted(s: State, e: Event, t: Thread, a: Account): Account {
    if e.Crash? then []
    else if !By(e, t) then a
    else if e.Call? then [Note(e, Nothing)]
    else if e.Unlock? then []
    else if a == [] || !a[0].e.Call? then a
    else a + [Note(e, Finding(s, e, a[0].e.key))]
  }

  ghost function AccountAfter(sha: Sha, s: State, events: seq<Event>, t: Thread, a: Account): Account
    requires IsRun(sha, s, events)
    decreases |events|
  {
    if events == [] then a
    else AccountAfter(sha, Apply(sha, s, events[0]), events[1..], t, Noted(s, events[0], t, a))
  }

  /** All that has been written. */
  ghost function Written(a: Account): Bytes {
    if a == [] then []
    else
      var e := a[|a| - 1].e;
      if e.Write? then Written(a[..|a| - 1]) + e.chunk else Written(a[..|a| - 1])
  }

  ghost predicate Broke(a: Account) {
    exists i :: 0 <= i < |a| && (a[i].e.WriteFails? || a[i].e.MoveFails?)
  }

  ghost predicate Found(a: Account, entry: Entry) {
    exists i :: 0 <= i < |a| && a[i].seen == Hit(entry)
  }

  ghost predicate FoundSome(a: Account) {
    exists i :: 0 <= i < |a| && a[i].seen.Hit?
  }

  ghost predicate Ended(a: Account) {
    exists i :: 0 <= i < |a| && a[i].e.StoreEnds?
  }

  ghost predicate Hashed(a: Account, tarHash: string) {
    exists i :: 0 <= i < |a| && a[i].e.Persisted? && a[i].e.tarHash == tarHash
  }

  /** The entry of what has been written, with the hash of the archive and the rating of the call. */
  ghost predicate Describes(sha: Sha, a: Account, rating: nat, entry: Entry) {
    && entry.size == |Written(a)| && entry.digest == "sha256:" + sha(Written(a))
    && Hashed(a, entry.tarHash) && entry.mergeRating == rating
  }

  /** How far the call is, by its account. */
  ghost predicate Agrees(sha: Sha, p: Phase, a: Account) {
    if a == [] then p.Idle?
    else
      && a[0].e.Call? && !p.Idle? && p.key == a[0].e.key
      && (p.Failed? <==> Broke(a))
      && (p.Cached? <==> FoundSome(a))
      && (p.Uploaded? <==> Ended(a))
      && match p
         case Waiting(_, rating) => rating == a[0].e.rating && Written(a) == []
         case Checking(_, rating) => rating == a[0].e.rating && Written(a) == []
         case Fetching(_, rating) => rating == a[0].e.rating && Written(a) == []
         case Writing(_, rating, data) => rating == a[0].e.rating && data == Written(a)
         case Moving(_, rating, sum, size, tarHash) =>
           rating == a[0].e.rating && sum == sha(Written(a)) && size == |Written(a)| && Hashed(a, tarHash)
         case Caching(_, entry) => Describes(sha, a, a[0].e.rating, entry)
         case Storing(_, entry) => Describes(sha, a, a[0].e.rating, entry)
         case Cached(_, entry) => Found(a, entry)
         case Uploaded(_, entry) => Describes(sha, a, a[0].e.rating, entry)
         case _ => true
  }

  lemma MoreWritten(a: Account, n: Note)
    ensures Written(a + [n]) == if n.e.Write? then Written(a) + n.e.chunk else Written(a)
  {
    assert (a + [n])[..|a|] == a;
  }

  lemma MoreBroke(a: Account, n: Note)
    ensures Broke(a + [n]) <==> Broke(a) || n.e.WriteFails? || n.e.MoveFails?
    ensures Ended(a + [n]) <==> Ended(a) || n.e.StoreEnds?
  {
    var b := a + [n];
    assert b[|a|] == n && forall i :: 0 <= i < |a| ==> b[i] == a[i];
  }

  lemma MoreFound(a: Account, n: Note, entry: Entry)
    ensures FoundSome(a + [n]) <==> FoundSome(a) || n.seen.Hit?
    ensures Found(a + [n], entry) <==> Found(a, entry) || n.seen == Hit(entry)
  {
    var b := a + [n];
    assert b[|a|] == n && forall i :: 0 <= i < |a| ==> b[i] == a[i];
  }

  lemma MoreHashed(a: Account, n: Note, tarHash: string)
    ensures Hashed(a + [n], tarHash) <==> Hashed(a, tarHash) || (n.e.Persisted? && n.e.tarHash == tarHash)
  {
    var b := a + [n];
    assert b[|a|] == n && forall i :: 0 <= i < |a| ==> b[i] == a[i];
  }

  lemma MoreNoted(a: Account, n: Note)
    ensures Written(a + [n]) == if n.e.Write? then Written(a) + n.e.chunk else Written(a)
    ensures Broke(a + [n]) <==> Broke(a) || n.e.WriteFails? || n.e.MoveFails?
    ensures FoundSome(a + [n]) <==> FoundSome(a) || n.seen.Hit?
    ensures Ended(a + [n]) <==> Ended(a) || n.e.StoreEnds?
    ensures forall entry :: Found(a + [n], entry) <==> Found(a, entry) || n.seen == Hit(entry)
    ensures forall h :: Hashed(a + [n], h) <==> Hashed(a, h) || (n.e.Persisted? && n.e.tarHash == h)
  {
    hide *;
    MoreWritten(a, n);
    MoreBroke(a, n);
    MoreFound(a, n, Entry(0, "", "", 0));
    forall entry ensures Found(a + [n], entry) <==> Found(a, entry) || n.seen == Hit(entry) {
      MoreFound(a, n, entry);
    }
    forall h ensures Hashed(a + [n], h) <==> Hashed(a, h) || (n.e.Persisted? && n.e.tarHash == h) {
      MoreHashed(a, n, h);
    }
  }

  lemma OneNote(n: Note)
    ensures Written([n]) == if n.e.Write? then n.e.chunk else []
    ensures Broke([n]) <==> n.e.WriteFails? || n.e.MoveFails?
    ensures FoundSome([n]) <==> n.seen.Hit?
    ensures Ended([n]) <==> n.e.StoreEnds?
  {
    assert [n][..0] == [];
  }

  lemma LookAgrees(sha: Sha, s: State, e: Event, t: Thread, a: Account)
    requires Enabled(s, e) && Agrees(sha, s.At(t), a) && By(e, t)
    requires e.CheckLocal? || e.FetchHit?
    ensures Agrees(sha, Apply(sha, s, e).At(t), Noted(s, e, t, a))
  {
    MoreNoted(a, Note(e, Finding(s, e, a[0].e.key)));
    hide Written, Broke, Found, FoundSome, Ended, Hashed, Describes;
  }

  lemma PassAgrees(sha: Sha, s: State, e: Event, t: Thread, a: Account)
    requires Enabled(s, e) && Agrees(sha, s.At(t), a) && By(e, t)
    requires e.Lock? || e.FetchMiss?
    ensures Agrees(sha, Apply(sha, s, e).At(t), Noted(s, e, t, a))
  {
    MoreNoted(a, Note(e, Nothing));
    hide Written, Broke, Found, FoundSome, Ended, Hashed, Describes;
  }

  lemma WriteAgrees(sha: Sha, s: State, e: Event, t: Thread, a: Account)
    requires Enabled(s, e) && Agrees(sha, s.At(t), a) && By(e, t)
    requires e.Write? || e.WriteFails? || e.Persisted?
    ensures Agrees(sha, Apply(sha, s, e).At(t), Noted(s, e, t, a))
  {
    MoreNoted(a, Note(e, Nothing));
    hide Written, Broke, Found, FoundSome, Ended, Hashed, Describes;
  }

  lemma MoveAgrees(sha: Sha, s: State, e: Event, t: Thread, a: Account)
    requires Enabled(s, e) && Agrees(sha, s.At(t), a) && By(e, t)
    requires e.MoveSucceeds? || e.MoveFails?
    ensures Agrees(sha, Apply(sha, s, e).At(t), Noted(s, e, t, a))
  {
    MoreNoted(a, Note(e, Nothing));
    hide Written, Broke, Found, FoundSome, Ended, Hashed, Moved;
  }

  lemma CacheAgrees(sha: Sha, s: State, e: Event, t: Thread, a: Account)
    requires Enabled(s, e) && Agrees(sha, s.At(t), a) && By(e, t)
    requires e.CacheLocally? || e.StoreTears? || e.StoreEnds?
    ensures Agrees(sha, Apply(sha, s, e).At(t), Noted(s, e, t, a))
  {
    MoreNoted(a, Note(e, Nothing));
    hide Written, Broke, Found, FoundSome, Ended, Hashed;
  }

  /** One event keeps phase and account together. */
  lemma NotedAgrees(sha: Sha, s: State, e: Event, t: Thread, a: Account)
    requires Enabled(s, e) && Agrees(sha, s.At(t), a)
    ensures Agrees(sha, Apply(sha, s, e).At(t), Noted(s, e, t, a))
  {
    if !By(e, t) {
      OthersWait(sha, s, e, t);
      hide Apply, Enabled;
    } else if e.Call? {
      OneNote(Note(e, Nothing));
      hide Written, Broke, FoundSome, Ended;
    } else if e.Unlock? {
      hide Written, Broke, FoundSome, Ended;
    } else {
      hide Apply, Agrees, Noted, Enabled;
      if e.CheckLocal? || e.FetchHit? {
        LookAgrees(sha, s, e, t, a);
      } else if e.Lock? || e.FetchMiss? {
        PassAgrees(sha, s, e, t, a);
      } else if e.Write? || e.WriteFails? || e.Persisted? {
        WriteAgrees(sha, s, e, t, a);
      } else if e.MoveSucceeds? || e.MoveFails? {
        MoveAgrees(sha, s, e, t, a);
      } else {
        CacheAgrees(sha, s, e, t, a);
      }
    }
  }

  /** Main result: over every run, a thread is where the account of its own call says. It has
      failed exactly if one of its own writes or moves has; it returns an entry from a cache exactly
      if it has found one there, and that one; and what it uploads is described by what it has
      written, the hash that its writer has given and the rating that it was called with. */
  lemma {:induction false} CallsEndAsTold(sha: Sha, s: State, events: seq<Event>, t: Thread, a: Account)
    requires IsRun(sha, s, events) && Agrees(sha, s.At(t), a)
    ensures Agrees(sha, After(sha, s, events).At(t), AccountAfter(sha, s, events, t, a))
    decreases |events|
  {
    if events != [] {
      hide Agrees, Noted, Apply;
      NotedAgrees(sha, s, events[0], t, a);
      CallsEndAsTold(sha, Apply(sha, s, events[0]), events[1..], t, Noted(s, events[0], t, a));
    }
  }

  /** The same from the start of a process. */
  lemma CallsFromStart(sha: Sha, store: Store, events: seq<Event>, t: Thread)
    requires IsRun(sha, Start(store), events)
    ensures Agrees(sha, After(sha, Start(store), events).At(t), AccountAfter(sha, Start(store), events, t, []))
  {
    CallsEndAsTold(sha, Start(store), events, t, []);
  }

  ghost predicate NeverEnds(events: seq<Event>, t: Thread) {
    forall i :: 0 <= i < |events| ==> !events[i].Crash? && !(By(events[i], t) && events[i].Unlock?)
  }

  /** A call that has its answer keeps it until it unlocks or the process dies. */
  lemma {:induction false} AnswerStays(sha: Sha, s: State, events: seq<Event>, t: Thread)
    requires IsRun(sha, s, events) && NeverEnds(events, t)
    requires s.At(t).Cached? || s.At(t).Uploaded? || s.At(t).Failed?
    ensures After(sha, s, events).At(t) == s.At(t)
    decreases |events|
  {
    if events != [] {
      var e := events[0];
      assert !By(e, t);
      OthersWait(sha, s, e, t);
      hide Apply;
      assert forall i :: 0 <= i < |events| - 1 ==> events[1..][i] == events[i + 1];
      AnswerStays(sha, Apply(sha, s, e), events[1..], t);
    }
  }

  /** So a key that is in the local cache, or has a readable build, gives exactly that entry. */
  lemma CachedIsReturned(sha: Sha, s: State, e: Event, later: seq<Event>, t: Thread, entry: Entry)
    requires Enabled(s, e) && By(e, t) && IsRun(sha, Apply(sha, s, e), later) && NeverEnds(later, t)
    requires (e.CheckLocal? && s.At(t).key in s.lcache && s.lcache[s.At(t).key] == entry)
      || (e.FetchHit? && s.store[Build(s.At(t).key)] == Json(entry))
    ensures After(sha, Apply(sha, s, e), later).At(t) == Cached(s.At(t).key, entry)
  {
    var s' := Apply(sha, s, e);
    assert s'.At(t) == Cached(s.At(t).key, entry);
    hide Apply;
    AnswerStays(sha, s', later, t);
  }

  /** What an upload leaves behind: its entry in the local cache, and without its rating under
      `builds/`, if that can be stored. */
  lemma UploadLeaves(sha: Sha, s: State, t: Thread, key: Key, entry: Entry)
    ensures s.At(t) == Caching(key, entry) ==>
      && Enabled(s, CacheLocally(t))
      && Apply(sha, s, CacheLocally(t)).lcache == s.lcache[key := entry]
    ensures s.At(t) == Storing(key, entry) ==>
      && Enabled(s, StoreEnds(t, true)) && Enabled(s, StoreEnds(t, false))
      && Apply(sha, s, StoreEnds(t, false)).store == s.store
      && Apply(sha, s, StoreEnds(t, true)).store
         == s.store[Build(key) := Json(Entry(entry.size, entry.digest, entry.tarHash, 0))]
  {}

  /** What the storage shows of an upload. While the layer is written, its file under `staging/` is in
      some state or absent; when all is written it holds all; a move puts it under its hash, and
      keeps the staged object or not; and nothing else changes in the bucket. */
  lemma StoreShows(sha: Sha, s: State, t: Thread, key: Key, chunk: Bytes, shown: Object, tarHash: string, kept: bool)
    ensures s.At(t).Writing? && s.At(t).key == key ==>
      && Enabled(s, Write(t, chunk, shown, true)) && Apply(sha, s, Write(t, chunk, shown, true)).store == s.store - {Staging(key)}
      && Enabled(s, Write(t, chunk, shown, false)) && Apply(sha, s, Write(t, chunk, shown, false)).store == s.store[Staging(key) := shown]
      && Enabled(s, WriteFails(t)) && Apply(sha, s, WriteFails(t)).store == s.store
      && Enabled(s, Persisted(t, tarHash))
      && Apply(sha, s, Persisted(t, tarHash)).store == s.store[Staging(key) := Blob(s.At(t).data)]
    ensures s.At(t).Moving? && s.At(t).key == key && Staging(key) in s.store ==>
      var layer := LayerAt(s.At(t).sum);
      && Enabled(s, MoveSucceeds(t, kept)) && Enabled(s, MoveFails(t, true, kept)) && Enabled(s, MoveFails(t, false, kept))
      && Apply(sha, s, MoveSucceeds(t, kept)).store
         == (if kept then s.store[layer := s.store[Staging(key)]] else s.store[layer := s.store[Staging(key)]] - {Staging(key)})
      && Apply(sha, s, MoveFails(t, true, kept)).store == Apply(sha, s, MoveSucceeds(t, kept)).store
      && Apply(sha, s, MoveFails(t, false, kept)).store == s.store
  {}

  // ---- Filling the local cache, and starting again

  ghost function Hits(events: seq<Event>): nat {
    if events == [] then 0 else (if events[0].FetchHit? then 1 else 0) + Hits(events[1..])
  }

  ghost function Fills(events: seq<Event>): nat {
    if events == [] then 0 else (if events[0].Fill? then 1 else 0) + Fills(events[1..])
  }

  lemma FillsStep(sha: Sha, s: State, e: Event)
    requires Enabled(s, e) && !e.Crash?
    ensures |Apply(sha, s, e).fills| + (if e.Fill? then 1 else 0) == |s.fills| + if e.FetchHit? then 1 else 0
  {
    hide Moved;
  }

  /** Every build that is read from the bucket fills the local cache at most once. */
  lemma {:induction false} OneFillEach(sha: Sha, s: State, events: seq<Event>)
    requires IsRun(sha, s, events) && forall i :: 0 <= i < |events| ==> !events[i].Crash?
    ensures |After(sha, s, events).fills| + Fills(events) == |s.fills| + Hits(events)
    decreases |events|
  {
    if events != [] {
      FillsStep(sha, s, events[0]);
      hide Apply;
      assert forall i :: 0 <= i < |events| - 1 ==> events[1..][i] == events[i + 1];
      OneFillEach(sha, Apply(sha, s, events[0]), events[1..]);
    }
  }

  /** Main result: whenever the process dies, a build that is in the bucket is what a call of the
      next one returns, if it can read it. */
  lemma SurvivesCrash(sha: Sha, s: State, t: Thread, key: Key, rating: nat, entry: Entry) returns (events: seq<Event>)
    requires Build(key) in s.store && s.store[Build(key)] == Json(entry)
    ensures IsRun(sha, s, events) && events != [] && events[0] == Crash
    ensures After(sha, s, events).At(t) == Cached(key, entry) && After(sha, s, events).store == s.store
  {
    var s1 := Apply(sha, s, Crash);
    CallEnabled(sha, s, t, key, rating);
    var s2 := Apply(sha, s1, Call(t, key, rating));
    var s3 := Apply(sha, s2, Lock(t));
    FetchEnabled(sha, s3, t, key, rating, entry);
    var s4 := Apply(sha, s3, CheckLocal(t));
    hide *;
    events := [];
    NoMore(sha, Apply(sha, s4, FetchHit(t)));
    events := OneMore(sha, s4, FetchHit(t), events);
    events := OneMore(sha, s3, CheckLocal(t), events);
    events := OneMore(sha, s2, Lock(t), events);
    events := OneMore(sha, s1, Call(t, key, rating), events);
    events := OneMore(sha, s, Crash, events);
  }

  lemma CallEnabled(sha: Sha, s: State, t: Thread, key: Key, rating: nat)
    ensures Enabled(s, Crash)
    ensures var s1 := Apply(sha, s, Crash);
      && Enabled(s1, Call(t, key, rating))
      && var s2 := Apply(sha, s1, Call(t, key, rating));
         && Enabled(s2, Lock(t))
         && Apply(sha, s2, Lock(t)).At(t) == Checking(key, rating)
         && Apply(sha, s2, Lock(t)).store == s.store && Apply(sha, s2, Lock(t)).lcache == map[]
  {}

  lemma FetchEnabled(sha: Sha, s: State, t: Thread, key: Key, rating: nat, entry: Entry)
    requires s.At(t) == Checking(key, rating) && s.lcache == map[]
    requires Build(key) in s.store && s.store[Build(key)] == Json(entry)
    ensures Enabled(s, CheckLocal(t))
    ensures var s1 := Apply(sha, s, CheckLocal(t));
      && Enabled(s1, FetchHit(t))
      && Apply(sha, s1, FetchHit(t)).At(t) == Cached(key, entry)
      && Apply(sha, s1, FetchHit(t)).store == s.store
  {}

  lemma NoMore(sha: Sha, s: State)
    ensures IsRun(sha, s, []) && After(sha, s, []) == s
  {}

  lemma OneMore(sha: Sha, s: State, e: Event, later: seq<Event>) returns (events: seq<Event>)
    requires Enabled(s, e) && IsRun(sha, Apply(sha, s, e), later)
    ensures IsRun(sha, s, events) && After(sha, s, events) == After(sha, Apply(sha, s, e), later)
    ensures events != [] && events[0] == e
  {
    hide Apply, Enabled;
    events := [e] + later;
    assert events[1..] == later;
  }
}
