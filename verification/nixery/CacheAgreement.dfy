// Whether the local cache says the same as the bucket.
module CacheAgreement {
  import opened Upload

  predicate Readable(s: State, k: Key) {
    Build(k) in s.store && s.store[Build(k)].Json?
  }

  /** The two entries of a key are the same, but for the rating, which is never written. */
  ghost predicate Agrees(s: State, k: Key) {
    k in s.lcache && Readable(s, k) ==> s.lcache[k].Serialised() == s.store[Build(k)].entry.Serialised()
  }

  /** The step takes the build of the key to be missing although it can be read. */
  ghost predicate FalseMiss(s: State, e: Event, k: Key) {
    e.FetchMiss? && s.At(e.t).Fetching? && s.At(e.t).key == k && Readable(s, k)
  }

  ghost predicate IsReliable(sha: Sha, s: State, events: seq<Event>, k: Key)
    requires IsRun(sha, s, events)
    decreases |events|
  {
    events == [] || (!FalseMiss(s, events[0], k) && IsReliable(sha, Apply(sha, s, events[0]), events[1..], k))
  }

  ghost predicate PhaseAgrees(s: State, p: Phase, k: Key) {
    && ((p.Writing? || p.Moving? || p.Caching? || p.Storing?) && p.key == k ==> !Readable(s, k))
    && (p.Storing? && p.key == k ==> k in s.lcache && s.lcache[k] == p.entry)
  }

  ghost predicate FillAgrees(s: State, f: (Key, Entry)) {
    Readable(s, f.0) && s.store[Build(f.0)].entry.Serialised() == f.1.Serialised()
  }

  /** The key's local entry, the fills on their way to it and its build are in agreement. */
  ghost predicate Agreement(s: State, k: Key) {
    && Exclusive(s)
    && Agrees(s, k)
    && (forall f :: f in s.fills && f.0 == k ==> FillAgrees(s, f))
    && (forall t :: PhaseAgrees(s, s.At(t), k))
  }

  /** The build of a key changes only while its holder writes it. */
  lemma BuildChange(sha: Sha, s: State, e: Event, k: Key)
    requires Enabled(s, e)
    ensures var s' := Apply(sha, s, e);
      if e.StoreTears? && s.At(e.t).key == k then !Readable(s', k)
      else if e.StoreEnds? && e.complete && s.At(e.t).key == k then Readable(s', k) && s'.store[Build(k)].entry == s.At(e.t).entry.Serialised()
      else (Readable(s', k) <==> Readable(s, k)) && (Readable(s, k) ==> s'.store[Build(k)] == s.store[Build(k)])
  {}

  lemma StepAgrees(sha: Sha, s: State, e: Event, k: Key)
    requires Agreement(s, k) && Enabled(s, e)
    ensures Agrees(Apply(sha, s, e), k)
  {
    BuildChange(sha, s, e, k);
    CachesChange(sha, s, e);
    if !e.Fill? && !e.Crash? {
      assert PhaseAgrees(s, s.At(e.t), k);
    }
    hide Exclusive;
  }

  lemma StepFillAgrees(sha: Sha, s: State, e: Event, f: (Key, Entry))
    requires Agreement(s, f.0) && Enabled(s, e) && f in Apply(sha, s, e).fills
    ensures FillAgrees(Apply(sha, s, e), f)
  {
    BuildChange(sha, s, e, f.0);
    CachesChange(sha, s, e);
    hide Exclusive, Apply, Agrees;
    if f in s.fills {
      assert FillAgrees(s, f);
      if e.StoreTears? || e.StoreEnds? {
        assert PhaseAgrees(s, s.At(e.t), f.0);
      }
    }
  }

  /** What the local cache says about a key changes only by its holder and by fills. */
  lemma LocalChange(sha: Sha, s: State, e: Event, k: Key)
    requires Enabled(s, e) && !e.Crash? && k in s.lcache
    requires e.CacheLocally? ==> s.At(e.t).key != k
    requires e.Fill? ==> e.key != k
    ensures k in Apply(sha, s, e).lcache && Apply(sha, s, e).lcache[k] == s.lcache[k]
  {}

  /** Another thread than the holder does not touch what is cached under the key. */
  lemma HolderOnly(s: State, e: Event, u: Thread, k: Key)
    requires Exclusive(s) && Enabled(s, e) && s.At(u).Holds(k) && !By(e, u)
    ensures e.StoreTears? || e.StoreEnds? || e.CacheLocally? ==> s.At(e.t).key != k
  {
    assert s.locks[k] == u;
  }

  lemma OtherPhaseAgrees(sha: Sha, s: State, e: Event, u: Thread, k: Key)
    requires Agreement(s, k) && Enabled(s, e) && !By(e, u) && !e.Crash?
    ensures PhaseAgrees(Apply(sha, s, e), s.At(u), k)
  {
    var p := s.At(u);
    assert PhaseAgrees(s, p, k);
    if (p.Writing? || p.Moving? || p.Caching? || p.Storing?) && p.key == k {
      HolderOnly(s, e, u, k);
      assert forall f :: f in s.fills && f.0 == k ==> FillAgrees(s, f);
      BuildChange(sha, s, e, k);
      if p.Storing? {
        LocalChange(sha, s, e, k);
      }
    }
    hide Exclusive, Agreement, Apply;
  }

  /** How a thread comes to where it uploads. */
  lemma ActorCameFrom(sha: Sha, s: State, e: Event)
    requires Enabled(s, e) && !e.Fill? && !e.Crash?
    ensures var (p, p', s') := (s.At(e.t), Apply(sha, s, e).At(e.t), Apply(sha, s, e));
      && (p'.Writing? || p'.Moving? || p'.Caching? ==>
            p.key == p'.key && (e.FetchMiss? || p.Writing? || p.Moving?) && !e.StoreEnds? && !e.StoreTears?)
      && (p'.Storing? ==> p.key == p'.key && (e.CacheLocally? || e.StoreTears?))
      && (e.CacheLocally? ==> p'.entry == p.entry && s'.lcache == s.lcache[p.key := p.entry])
      && (e.StoreTears? ==> p' == p && s'.lcache == s.lcache)
  {}

  lemma ActorAgrees(sha: Sha, s: State, e: Event, k: Key)
    requires Agreement(s, k) && Enabled(s, e) && !FalseMiss(s, e, k) && !e.Fill? && !e.Crash?
    ensures PhaseAgrees(Apply(sha, s, e), Apply(sha, s, e).At(e.t), k)
  {
    assert PhaseAgrees(s, s.At(e.t), k);
    hide Exclusive, Agreement, Apply;
    ActorCameFrom(sha, s, e);
    BuildChange(sha, s, e, k);
  }

  lemma StepKeepsAgreement(sha: Sha, s: State, e: Event, k: Key)
    requires Agreement(s, k) && Enabled(s, e) && !FalseMiss(s, e, k)
    ensures Agreement(Apply(sha, s, e), k)
  {
    var s' := Apply(sha, s, e);
    StepExclusive(sha, s, e);
    StepAgrees(sha, s, e, k);
    hide Apply, Enabled, FalseMiss, Agrees, PhaseAgrees, FillAgrees, Exclusive;
    forall f | f in s'.fills && f.0 == k ensures FillAgrees(s', f) {
      StepFillAgrees(sha, s, e, f);
    }
    forall u ensures PhaseAgrees(s', s'.At(u), k) {
      if By(e, u) {
        ActorAgrees(sha, s, e, k);
      } else {
        OthersWait(sha, s, e, u);
        if e.Crash? {
          IdleAgrees(s', k);
        } else {
          OtherPhaseAgrees(sha, s, e, u, k);
        }
      }
    }
  }

  lemma IdleAgrees(s: State, k: Key)
    ensures PhaseAgrees(s, Idle, k)
  {}

  lemma {:induction false} RunKeepsAgreement(sha: Sha, s: State, events: seq<Event>, k: Key)
    requires Agreement(s, k) && IsRun(sha, s, events) && IsReliable(sha, s, events, k)
    ensures Agreement(After(sha, s, events), k)
    decreases |events|
  {
    if events != [] {
      hide Agreement, Apply, Enabled, FalseMiss;
      StepKeepsAgreement(sha, s, events[0], k);
      RunKeepsAgreement(sha, Apply(sha, s, events[0]), events[1..], k);
    }
  }

  /** As long as no readable build of a key is taken to be missing, the local cache and the
      bucket say the same about it, whatever happens to other keys. */
  lemma ReliableRunsAgree(sha: Sha, store: Store, events: seq<Event>, k: Key)
    requires IsRun(sha, Start(store), events) && IsReliable(sha, Start(store), events, k)
    ensures Agreement(After(sha, Start(store), events), k)
  {
    hide Apply, Enabled;
    assert Agreement(Start(store), k);
    RunKeepsAgreement(sha, Start(store), events, k);
  }

  // ---- Exactly when

  ghost predicate Leads(sha: Sha, from: State, events: seq<Event>, to: State) {
    IsRun(sha, from, events) && After(sha, from, events) == to
  }

  lemma {:induction false} Go(sha: Sha, from: State, events: seq<Event>, s: State, e: Event)
    requires Leads(sha, from, events, s) && Enabled(s, e)
    ensures Leads(sha, from, events + [e], Apply(sha, s, e))
    decreases |events|
  {
    if events == [] {
      var one := events + [e];
      hide Apply, Enabled;
      assert one[0] == e && one[1..] == [];
      assert from == s;
      assert After(sha, from, one) == After(sha, Apply(sha, s, e), one[1..]);
    } else {
      assert (events + [e])[1..] == events[1..] + [e] && (events + [e])[0] == events[0];
      hide Apply, Enabled;
      Go(sha, Apply(sha, from, events[0]), events[1..], s, e);
    }
  }

  lemma Next(sha: Sha, from: State, events: seq<Event>, s: State, e: Event) returns (events': seq<Event>, s': State)
    requires Leads(sha, from, events, s) && Enabled(s, e)
    ensures Leads(sha, from, events', s') && s' == Apply(sha, s, e) && events' == events + [e]
  {
    Go(sha, from, events, s, e);
    events', s' := events + [e], Apply(sha, s, e);
  }

  ghost function Nothing(sha: Sha, s: State): (events: seq<Event>)
    ensures Leads(sha, s, events, s) && events == []
  {
    []
  }

  lemma LeadsTo(sha: Sha, from: State, events: seq<Event>, to: State)
    requires Leads(sha, from, events, to)
    ensures IsRun(sha, from, events) && After(sha, from, events) == to
  {}

  lemma {:induction false} NoMisses(sha: Sha, s: State, events: seq<Event>, k: Key)
    requires IsRun(sha, s, events) && forall e :: e in events ==> !e.FetchMiss?
    ensures IsReliable(sha, s, events, k)
    decreases |events|
  {
    if events != [] {
      hide Apply, Enabled;
      NoMisses(sha, Apply(sha, s, events[0]), events[1..], k);
    }
  }

  /** A size that an entry does not have. */
  function OtherSize(x: Entry): Bytes {
    if x.size == 0 then [0] else []
  }

  /** After a readable build was taken to be missing, the upload may go on with a layer of
      another size, until it has been moved. */
  lemma UploadOther(sha: Sha, s: State, t: Thread, k: Key) returns (events: seq<Event>, s': State)
    requires s.At(t).Writing? && s.At(t).data == [] && s.At(t).key == k && Readable(s, k)
    ensures Leads(sha, s, events, s') && forall e :: e in events ==> !e.FetchMiss? && !e.Fill? && !e.Crash?
    ensures s'.At(t).Caching? && s'.At(t).key == k && s'.At(t).entry.size != s.store[Build(k)].entry.size
    ensures Readable(s', k) && s'.store[Build(k)] == s.store[Build(k)]
  {
    hide Leads;
    var chunk := OtherSize(s.store[Build(k)].entry);
    assert [] + chunk == chunk;
    events, s' := Next(sha, s, Nothing(sha, s), s, Write(t, chunk, Torn, false));
    events, s' := Next(sha, s, events, s', Persisted(t, ""));
    events, s' := Next(sha, s, events, s', MoveSucceeds(t, false));
  }

  /** Then it is cached, and its entry cannot be stored under `builds/`: the call returns it,
      and cache and bucket disagree without any fill or crash. */
  lemma FalseMissDisagrees(sha: Sha, s: State, t: Thread, k: Key) returns (events: seq<Event>)
    requires s.At(t).Writing? && s.At(t).data == [] && s.At(t).key == k && Readable(s, k)
    ensures IsRun(sha, s, events) && forall e :: e in events ==> !e.FetchMiss? && !e.Fill? && !e.Crash?
    ensures After(sha, s, events).At(t).Uploaded? && !Agrees(After(sha, s, events), k)
  {
    hide Leads, IsRun, After;
    var s';
    events, s' := UploadOther(sha, s, t, k);
    events, s' := Next(sha, s, events, s', CacheLocally(t));
    events, s' := Next(sha, s, events, s', StoreEnds(t, false));
    LeadsTo(sha, s, events, s');
  }

  /** Agreement from here on, whatever happens, as long as there is no other false miss. */
  ghost predicate StaysAgreed(sha: Sha, s: State, k: Key) {
    forall later :: IsRun(sha, s, later) && IsReliable(sha, s, later, k) ==> Agrees(After(sha, s, later), k)
  }

  lemma AgreementStays(sha: Sha, s: State, k: Key)
    requires Agreement(s, k)
    ensures StaysAgreed(sha, s, k)
  {
    forall later | IsRun(sha, s, later) && IsReliable(sha, s, later, k) ensures Agrees(After(sha, s, later), k) {
      RunKeepsAgreement(sha, s, later, k);
      hide After, IsRun, IsReliable;
    }
  }

  /** Main result: exactly the steps that take a readable build to be missing put an end to
      agreement about its key. */
  lemma StepAgreesExactly(sha: Sha, s: State, e: Event, k: Key)
    requires Agreement(s, k) && Enabled(s, e)
    ensures StaysAgreed(sha, Apply(sha, s, e), k) <==> !FalseMiss(s, e, k)
  {
    if FalseMiss(s, e, k) {
      var s' := Apply(sha, s, e);
      assert Readable(s', k) && s'.At(e.t) == Writing(k, s.At(e.t).rating, []);
      hide Agreement, Agrees, IsRun, IsReliable, After, Apply;
      var later := FalseMissDisagrees(sha, s', e.t, k);
      NoMisses(sha, s', later, k);
    } else {
      hide Agreement, StaysAgreed, Apply, Enabled, FalseMiss;
      StepKeepsAgreement(sha, s, e, k);
      AgreementStays(sha, Apply(sha, s, e), k);
    }
  }

  /** Agreement is kept from every state that the run goes through. */
  ghost predicate AlwaysAgreed(sha: Sha, s: State, events: seq<Event>, k: Key)
    requires IsRun(sha, s, events)
    decreases |events|
  {
    StaysAgreed(sha, s, k) && (events == [] || AlwaysAgreed(sha, Apply(sha, s, events[0]), events[1..], k))
  }

  /** Main result: a run keeps local cache and bucket in agreement about a key, at every point
      and however it goes on from there, if and only if it takes no readable build of that
      key to be missing. */
  lemma {:induction false} RunAgreesExactly(sha: Sha, s: State, events: seq<Event>, k: Key)
    requires Agreement(s, k) && IsRun(sha, s, events)
    ensures AlwaysAgreed(sha, s, events, k) <==> IsReliable(sha, s, events, k)
    decreases |events|
  {
    hide Agreement, StaysAgreed, Apply, Enabled, FalseMiss;
    AgreementStays(sha, s, k);
    if events != [] {
      StepAgreesExactly(sha, s, events[0], k);
      if !FalseMiss(s, events[0], k) {
        StepKeepsAgreement(sha, s, events[0], k);
        RunAgreesExactly(sha, Apply(sha, s, events[0]), events[1..], k);
      } else {
        AlwaysAgreedNow(sha, Apply(sha, s, events[0]), events[1..], k);
      }
    }
  }

  lemma AlwaysAgreedNow(sha: Sha, s: State, events: seq<Event>, k: Key)
    requires IsRun(sha, s, events)
    ensures AlwaysAgreed(sha, s, events, k) ==> StaysAgreed(sha, s, k)
  {
    hide StaysAgreed;
  }

  /** From the start of the process over any bucket. */
  lemma AgreesExactly(sha: Sha, store: Store, events: seq<Event>, k: Key)
    requires IsRun(sha, Start(store), events)
    ensures AlwaysAgreed(sha, Start(store), events, k) <==> IsReliable(sha, Start(store), events, k)
  {
    hide AlwaysAgreed, IsReliable, IsRun;
    assert Agreement(Start(store), k);
    RunAgreesExactly(sha, Start(store), events, k);
  }

  // ---- A fill that comes too late

  /** The layer that is in the bucket when the process starts, and the build that names it. */
  function Old(sha: Sha): Entry {
    Entry(0, "sha256:" + sha([]), "t", 0)
  }

  function Before(sha: Sha, k: Key): Store {
    map[LayerAt(sha([])) := Blob([]), Build(k) := Json(Old(sha))]
  }

  /** Up to where a call looks for the build in the bucket. */
  lemma Looking(sha: Sha, k: Key) returns (events: seq<Event>, s: State)
    ensures Leads(sha, Start(Before(sha, k)), events, s)
    ensures s == State(Before(sha, k), map[], map[k := 0], map[0 := Fetching(k, 0)], multiset{})
  {
    var s0 := Start(Before(sha, k));
    hide Leads, Old, Before;
    events, s := Next(sha, s0, Nothing(sha, s0), s0, Call(0, k, 0));
    events, s := Next(sha, s0, events, s, Lock(0));
    events, s := Next(sha, s0, events, s, CheckLocal(0));
    assert s.threads == map[0 := Fetching(k, 0)];
  }

  /** A call that finds the build: its entry is on the way to the local cache. */
  lemma Hit(sha: Sha, k: Key) returns (events: seq<Event>, s: State)
    ensures Leads(sha, Start(Before(sha, k)), events, s)
    ensures s == State(Before(sha, k), map[], map[], map[0 := Idle], multiset{(k, Old(sha))})
  {
    var s0 := Start(Before(sha, k));
    hide Leads, Old;
    events, s := Looking(sha, k);
    events, s := Next(sha, s0, events, s, FetchHit(0));
    events, s := Next(sha, s0, events, s, Unlock(0));
    assert s.locks == map[] && s.threads == map[0 := Idle];
  }

  /** A call that fails to read the build and uploads a layer of its own. */
  lemma Miss(sha: Sha, k: Key) returns (events: seq<Event>, s: State)
    ensures Leads(sha, Start(Before(sha, k)), events, s)
    ensures s.At(1) == Writing(k, 0, []) && s.lcache == map[] && s.fills == multiset{(k, Old(sha))}
  {
    var s0 := Start(Before(sha, k));
    hide Leads, Old, Before;
    events, s := Hit(sha, k);
    events, s := Next(sha, s0, events, s, Call(1, k, 0));
    events, s := Next(sha, s0, events, s, Lock(1));
    events, s := Next(sha, s0, events, s, CheckLocal(1));
    events, s := Next(sha, s0, events, s, FetchMiss(1));
  }

  lemma Staged(sha: Sha, k: Key) returns (events: seq<Event>, s: State)
    ensures Leads(sha, Start(Before(sha, k)), events, s)
    ensures s.At(1) == Moving(k, 0, sha([1]), 1, "t") && s.fills == multiset{(k, Old(sha))}
    ensures Staging(k) in s.store
  {
    var s0 := Start(Before(sha, k));
    hide Leads, Old, Before;
    events, s := Miss(sha, k);
    assert [] + [1] == [1 as bv8];
    events, s := Next(sha, s0, events, s, Write(1, [1], Torn, false));
    events, s := Next(sha, s0, events, s, Persisted(1, "t"));
  }

  lemma Put(sha: Sha, k: Key) returns (events: seq<Event>, s: State)
    ensures Leads(sha, Start(Before(sha, k)), events, s)
    ensures s.At(1) == Storing(k, Entry(1, "sha256:" + sha([1]), "t", 0)) && s.fills == multiset{(k, Old(sha))}
    ensures k in s.lcache && s.lcache[k] == s.At(1).entry
  {
    var s0 := Start(Before(sha, k));
    hide Leads, Old, Before;
    events, s := Staged(sha, k);
    events, s := Next(sha, s0, events, s, MoveSucceeds(1, false));
    events, s := Next(sha, s0, events, s, CacheLocally(1));
  }

  /** The second way: the upload after the false miss is stored, so that cache and bucket
      agree again, and then a fill that was started before puts the old entry over the new
      one in the cache. */
  lemma LateFill(sha: Sha, k: Key) returns (events: seq<Event>)
    ensures var last := Fill(k, Old(sha));
      && IsRun(sha, Start(Before(sha, k)), events) && IsRun(sha, Start(Before(sha, k)), events + [last])
      && Agrees(After(sha, Start(Before(sha, k)), events), k)
      && !Agrees(After(sha, Start(Before(sha, k)), events + [last]), k)
  {
    var s0 := Start(Before(sha, k));
    hide Leads, Before, IsRun, After;
    var s, all, s';
    events, s := Put(sha, k);
    events, s := Next(sha, s0, events, s, StoreEnds(1, true));
    all, s' := Next(sha, s0, events, s, Fill(k, Old(sha)));
    assert Agrees(s, k) && !Agrees(s', k);
    LeadsTo(sha, s0, events, s);
    LeadsTo(sha, s0, all, s');
  }
}
