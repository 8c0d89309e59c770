// Uploading a layer: many calls at once, guarded by a mutex for every key, over a storage
// backend that may fail at any step and a process that may die at any step.
module Upload {

  type Bytes = seq<bv8>
  type Key = string
  type Thread = nat
  type Sha = Bytes -> string

  /** Collisions of the hash are left out of account. */
  ghost predicate Injective(sha: Sha) {
    forall a, b :: sha(a) == sha(b) ==> a == b
  }

  // ---- State

  datatype Path = Staging(key: Key) | LayerAt(sum: string) | Build(key: Key)

  datatype Entry = Entry(size: nat, digest: string, tarHash: string, mergeRating: nat) {
    /** What is left after writing the entry as JSON and reading it back. */
    function Serialised(): Entry {
      this.(mergeRating := 0)
    }
  }

  /** A tarball, a written entry, or a file that was not written to its end. */
  datatype Object = Blob(content: Bytes) | Json(entry: Entry) | Torn

  type Store = map<Path, Object>

  /** Where in `uploadHashLayer` a thread is. */
  datatype Phase =
    | Idle
    | Waiting(key: Key, rating: nat)
    | Checking(key: Key, rating: nat)
    | Fetching(key: Key, rating: nat)
    | Writing(key: Key, rating: nat, data: Bytes)
    | Moving(key: Key, rating: nat, sum: string, size: nat, tarHash: string)
    | Caching(key: Key, entry: Entry)
    | Storing(key: Key, entry: Entry)
    | Cached(key: Key, entry: Entry)
    | Uploaded(key: Key, entry: Entry)
    | Failed(key: Key)
  {
    /** Between `Lock` and `Unlock`. */
    predicate Holds(k: Key) {
      !Idle? && !Waiting? && key == k
    }

    /** After the local cache was found without the key, before it is filled. */
    predicate Uploads(k: Key) {
      (Fetching? || Writing? || Moving? || Caching?) && key == k
    }
  }

  datatype State = State(
    store: Store,
    lcache: map<Key, Entry>,
    locks: map<Key, Thread>,
    threads: map<Thread, Phase>,
    fills: multiset<(Key, Entry)>)
  {
    function At(t: Thread): Phase {
      if t in threads then threads[t] else Idle
    }

    function To(t: Thread, p: Phase): State {
      this.(threads := threads[t := p])
    }
  }

  // ---- Steps

  /** One step, with everything that chance decides. */
  datatype Event =
    | Call(t: Thread, key: Key, rating: nat)
    | Lock(t: Thread)
    | CheckLocal(t: Thread)
    | FetchHit(t: Thread)
    | FetchMiss(t: Thread)
    /** The layer writer produces bytes; the backend shows some state of the file or none. */
    | Write(t: Thread, chunk: Bytes, shown: Object, absent: bool)
    | WriteFails(t: Thread)
    | Persisted(t: Thread, tarHash: string)
    /** With `kept`, the object stays under its old name too. */
    | MoveSucceeds(t: Thread, kept: bool)
    | MoveFails(t: Thread, moved: bool, kept: bool)
    | CacheLocally(t: Thread)
    | StoreTears(t: Thread)
    | StoreEnds(t: Thread, complete: bool)
    | Unlock(t: Thread)
    | Fill(key: Key, entry: Entry)
    | Crash

  predicate Enabled(s: State, e: Event) {
    match e
    case Call(t, _, _) => s.At(t).Idle?
    case Lock(t) => s.At(t).Waiting? && s.At(t).key !in s.locks
    case CheckLocal(t) => s.At(t).Checking?
    case FetchHit(t) => s.At(t).Fetching? && Build(s.At(t).key) in s.store && s.store[Build(s.At(t).key)].Json?
    case FetchMiss(t) => s.At(t).Fetching?
    case Write(t, _, _, _) => s.At(t).Writing?
    case WriteFails(t) => s.At(t).Writing?
    case Persisted(t, _) => s.At(t).Writing?
    case MoveSucceeds(t, _) => s.At(t).Moving? && Staging(s.At(t).key) in s.store
    case MoveFails(t, _, _) => s.At(t).Moving? && Staging(s.At(t).key) in s.store
    case CacheLocally(t) => s.At(t).Caching?
    case StoreTears(t) => s.At(t).Storing?
    case StoreEnds(t, _) => s.At(t).Storing?
    case Unlock(t) => s.At(t).Cached? || s.At(t).Uploaded? || s.At(t).Failed?
    case Fill(key, entry) => (key, entry) in s.fills
    case Crash => true
  }

  function Moved(store: Store, from: Path, to: Path, kept: bool): Store
    requires from in store
  {
    var copied := store[to := store[from]];
    if kept then copied else copied - {from}
  }

  function Apply(sha: Sha, s: State, e: Event): State
    requires Enabled(s, e)
  {
    match e
    case Call(t, key, rating) => s.To(t, Waiting(key, rating))
    case Lock(t) =>
      var p := s.At(t);
      s.(locks := s.locks[p.key := t]).To(t, Checking(p.key, p.rating))
    case CheckLocal(t) =>
      var p := s.At(t);
      if p.key in s.lcache then s.To(t, Cached(p.key, s.lcache[p.key]))
      else s.To(t, Fetching(p.key, p.rating))
    case FetchHit(t) =>
      var p := s.At(t);
      var entry := s.store[Build(p.key)].entry;
      s.(fills := s.fills + multiset{(p.key, entry)}).To(t, Cached(p.key, entry))
    case FetchMiss(t) =>
      var p := s.At(t);
      s.To(t, Writing(p.key, p.rating, []))
    case Write(t, chunk, shown, absent) =>
      var p := s.At(t);
      var file := Staging(p.key);
      s.(store := if absent then s.store - {file} else s.store[file := shown])
       .To(t, p.(data := p.data + chunk))
    case WriteFails(t) => s.To(t, Failed(s.At(t).key))
    case Persisted(t, tarHash) =>
      var p := s.At(t);
      s.(store := s.store[Staging(p.key) := Blob(p.data)])
       .To(t, Moving(p.key, p.rating, sha(p.data), |p.data|, tarHash))
    case MoveSucceeds(t, kept) =>
      var p := s.At(t);
      var entry := Entry(p.size, "sha256:" + p.sum, p.tarHash, p.rating);
      s.(store := Moved(s.store, Staging(p.key), LayerAt(p.sum), kept)).To(t, Caching(p.key, entry))
    case MoveFails(t, moved, kept) =>
      var p := s.At(t);
      s.(store := if moved then Moved(s.store, Staging(p.key), LayerAt(p.sum), kept) else s.store)
       .To(t, Failed(p.key))
    case CacheLocally(t) =>
      var p := s.At(t);
      s.(lcache := s.lcache[p.key := p.entry]).To(t, Storing(p.key, p.entry))
    case StoreTears(t) => s.(store := s.store[Build(s.At(t).key) := Torn])
    case StoreEnds(t, complete) =>
      var p := s.At(t);
      s.(store := if complete then s.store[Build(p.key) := Json(p.entry.Serialised())] else s.store)
       .To(t, Uploaded(p.key, p.entry))
    case Unlock(t) => s.(locks := s.locks - {s.At(t).key}).To(t, Idle)
    case Fill(key, entry) => s.(lcache := s.lcache[key := entry], fills := s.fills - multiset{(key, entry)})
    case Crash => State(s.store, map[], map[], map[], multiset{})
  }

  ghost predicate IsRun(sha: Sha, s: State, events: seq<Event>)
    decreases |events|
  {
    events == [] || (Enabled(s, events[0]) && IsRun(sha, Apply(sha, s, events[0]), events[1..]))
  }

  ghost function After(sha: Sha, s: State, events: seq<Event>): State
    requires IsRun(sha, s, events)
    decreases |events|
  {
    if events == [] then s else After(sha, Apply(sha, s, events[0]), events[1..])
  }

  /** A process that has just been started over an existing bucket. */
  function Start(store: Store): State {
    State(store, map[], map[], map[], multiset{})
  }

  // ---- What always holds

  /** The object that the entry names is under `layers/`, with that hash and size. */
  ghost predicate Stored(sha: Sha, store: Store, e: Entry) {
    exists content :: LayerIs(sha, store, content) && e.digest == "sha256:" + sha(content) && e.size == |content|
  }

  ghost predicate LayerIs(sha: Sha, store: Store, content: Bytes) {
    LayerAt(sha(content)) in store && store[LayerAt(sha(content))] == Blob(content)
  }

  /** Objects under `layers/` are stored under their own hash; entries under `builds/` name
      such objects. */
  ghost predicate Sound(sha: Sha, store: Store) {
    && (forall sum :: LayerAt(sum) in store ==> store[LayerAt(sum)].Blob? && sha(store[LayerAt(sum)].content) == sum)
    && (forall key :: Build(key) in store && store[Build(key)].Json? ==> Stored(sha, store, store[Build(key)].entry))
  }

  /** What a thread in the phase can rely on. */
  ghost predicate PhaseHolds(sha: Sha, store: Store, p: Phase) {
    match p
    case Moving(key, _, sum, size, _) =>
      && Staging(key) in store && store[Staging(key)].Blob?
      && sha(store[Staging(key)].content) == sum && |store[Staging(key)].content| == size
    case Caching(_, e) => Stored(sha, store, e)
    case Storing(_, e) => Stored(sha, store, e)
    case Cached(_, e) => Stored(sha, store, e)
    case Uploaded(_, e) => Stored(sha, store, e)
    case _ => true
  }

  /** A key is locked exactly while a thread is inside for it, and only that thread is. */
  ghost predicate Exclusive(s: State) {
    && (forall t, k :: s.At(t).Holds(k) ==> k in s.locks && s.locks[k] == t)
    && (forall k :: k in s.locks ==> s.At(s.locks[k]).Holds(k))
  }

  ghost predicate CachesSound(sha: Sha, s: State) {
    && (forall k :: k in s.lcache ==> Stored(sha, s.store, s.lcache[k]))
    && (forall f :: f in s.fills ==> Stored(sha, s.store, f.1))
  }

  ghost predicate PhasesHold(sha: Sha, s: State) {
    forall t :: PhaseHolds(sha, s.store, s.At(t))
  }

  ghost predicate Inv(sha: Sha, s: State) {
    Exclusive(s) && Sound(sha, s.store) && CachesSound(sha, s) && PhasesHold(sha, s)
  }

  lemma Starts(sha: Sha, store: Store)
    requires Sound(sha, store)
    ensures Inv(sha, Start(store))
  {}

  /** `store'` has the layers of `store`, and maybe more. */
  ghost predicate Extends(store: Store, store': Store) {
    forall sum :: LayerAt(sum) in store ==> LayerAt(sum) in store' && store'[LayerAt(sum)] == store[LayerAt(sum)]
  }

  lemma StaysStored(sha: Sha, store: Store, store': Store, e: Entry)
    requires Stored(sha, store, e) && Extends(store, store')
    ensures Stored(sha, store', e)
  {
    var content :| LayerIs(sha, store, content) && e.digest == "sha256:" + sha(content) && e.size == |content|;
    assert LayerIs(sha, store', content);
  }

  lemma MoveExtends(sha: Sha, store: Store, key: Key, sum: string, kept: bool)
    requires Injective(sha) && Sound(sha, store)
    requires Staging(key) in store && store[Staging(key)].Blob? && sha(store[Staging(key)].content) == sum
    ensures var store' := Moved(store, Staging(key), LayerAt(sum), kept);
      && Extends(store, store') && LayerIs(sha, store', store[Staging(key)].content)
      && (forall k :: Build(k) in store' <==> Build(k) in store)
      && (forall k :: Build(k) in store' ==> store'[Build(k)] == store[Build(k)])
      && (forall k :: k != key ==> (Staging(k) in store' <==> Staging(k) in store))
      && (forall k :: k != key && Staging(k) in store' ==> store'[Staging(k)] == store[Staging(k)])
  {}

  lemma OtherFile(store: Store, file: Path, o: Object)
    requires !file.LayerAt?
    ensures Extends(store, store[file := o]) && Extends(store, store - {file}) && Extends(store, store)
  {}

  /** No step takes an object away from `layers/` or changes it. */
  lemma StepExtends(sha: Sha, s: State, e: Event)
    requires Injective(sha) && Inv(sha, s) && Enabled(s, e)
    ensures Extends(s.store, Apply(sha, s, e).store)
  {
    hide Exclusive, CachesSound, Stored, LayerIs;
    if e.MoveSucceeds? || e.MoveFails? {
      assert PhaseHolds(sha, s.store, s.At(e.t));
      MoveExtends(sha, s.store, s.At(e.t).key, s.At(e.t).sum, e.kept);
      OtherFile(s.store, Staging(s.At(e.t).key), Torn);
    } else {
      hide Inv, Injective, Extends;
      OtherFile(s.store, Staging(""), Torn);
      if e.Write? {
        OtherFile(s.store, Staging(s.At(e.t).key), e.shown);
      } else if e.Persisted? {
        OtherFile(s.store, Staging(s.At(e.t).key), Blob(s.At(e.t).data));
      } else if e.StoreTears? {
        OtherFile(s.store, Build(s.At(e.t).key), Torn);
      } else if e.StoreEnds? {
        OtherFile(s.store, Build(s.At(e.t).key), Json(s.At(e.t).entry.Serialised()));
      }
    }
  }

  /** The thread that acts. */
  predicate By(e: Event, t: Thread) {
    !e.Fill? && !e.Crash? && e.t == t
  }

  lemma OthersWait(sha: Sha, s: State, e: Event, u: Thread)
    requires Enabled(s, e) && !By(e, u)
    ensures Apply(sha, s, e).At(u) == if e.Crash? then Idle else s.At(u)
  {}

  /** Only `Lock` and `Unlock` change what a thread holds. */
  lemma HoldsSame(sha: Sha, s: State, e: Event, k: Key)
    requires Enabled(s, e) && !e.Lock? && !e.Unlock? && !e.Crash? && !e.Fill?
    ensures Apply(sha, s, e).At(e.t).Holds(k) <==> s.At(e.t).Holds(k)
  {
    hide Moved;
  }

  lemma LocksSame(sha: Sha, s: State, e: Event)
    requires Enabled(s, e) && !e.Lock? && !e.Unlock? && !e.Crash?
    ensures Apply(sha, s, e).locks == s.locks
  {
    hide Moved;
  }

  lemma LocksChange(sha: Sha, s: State, e: Event)
    requires Enabled(s, e)
    ensures var s' := Apply(sha, s, e);
      if e.Lock? then s.At(e.t).key !in s.locks && s'.locks == s.locks[s.At(e.t).key := e.t] && s'.At(e.t).Holds(s.At(e.t).key)
      else if e.Unlock? then s.At(e.t).Holds(s.At(e.t).key) && s'.locks == s.locks - {s.At(e.t).key} && s'.At(e.t).Idle?
      else if e.Crash? then s'.locks == map[]
      else s'.locks == s.locks && (!e.Fill? ==> forall k :: s'.At(e.t).Holds(k) <==> s.At(e.t).Holds(k))
  {
    if !e.Lock? && !e.Unlock? && !e.Crash? {
      LocksSame(sha, s, e);
      if !e.Fill? {
        forall k ensures Apply(sha, s, e).At(e.t).Holds(k) <==> s.At(e.t).Holds(k) {
          HoldsSame(sha, s, e, k);
        }
      }
      hide Apply, Enabled;
    }
  }

  lemma StepExclusive(sha: Sha, s: State, e: Event)
    requires Exclusive(s) && Enabled(s, e)
    ensures Exclusive(Apply(sha, s, e))
  {
    var s' := Apply(sha, s, e);
    LocksChange(sha, s, e);
    hide Apply, Enabled, State.At, Phase.Holds;
    forall t, k | s'.At(t).Holds(k) ensures k in s'.locks && s'.locks[k] == t {
      StillLocked(sha, s, e, t, k);
    }
    forall k | k in s'.locks ensures s'.At(s'.locks[k]).Holds(k) {
      StillInside(sha, s, e, k);
    }
  }

  lemma StillLocked(sha: Sha, s: State, e: Event, t: Thread, k: Key)
    requires Exclusive(s) && Enabled(s, e) && Apply(sha, s, e).At(t).Holds(k)
    ensures k in Apply(sha, s, e).locks && Apply(sha, s, e).locks[k] == t
  {
    if !By(e, t) {
      OthersWait(sha, s, e, t);
    }
    LocksChange(sha, s, e);
    hide Apply;
    assert e.Lock? ==> s.At(e.t).Waiting?;
    assert s.At(t).Holds(k) ==> k in s.locks && s.locks[k] == t;
  }

  lemma StillInside(sha: Sha, s: State, e: Event, k: Key)
    requires Exclusive(s) && Enabled(s, e) && k in Apply(sha, s, e).locks
    ensures Apply(sha, s, e).At(Apply(sha, s, e).locks[k]).Holds(k)
  {
    LocksChange(sha, s, e);
    var t := Apply(sha, s, e).locks[k];
    if !By(e, t) {
      OthersWait(sha, s, e, t);
    }
    hide Apply, Enabled;
  }

  /** The new store is sound when layers and builds are the old ones. */
  lemma StaysSound(sha: Sha, store: Store, store': Store)
    requires Sound(sha, store) && Extends(store, store')
    requires forall sum :: LayerAt(sum) in store' ==> LayerAt(sum) in store || (store'[LayerAt(sum)].Blob? && sha(store'[LayerAt(sum)].content) == sum)
    requires forall k :: Build(k) in store' && store'[Build(k)].Json? ==>
      (Build(k) in store && store'[Build(k)] == store[Build(k)]) || Stored(sha, store, store'[Build(k)].entry)
    ensures Sound(sha, store')
  {
    hide Stored;
    forall k | Build(k) in store' && store'[Build(k)].Json? ensures Stored(sha, store', store'[Build(k)].entry) {
      StaysStored(sha, store, store', store'[Build(k)].entry);
    }
  }

  lemma SerialisedStored(sha: Sha, store: Store, e: Entry)
    requires Stored(sha, store, e)
    ensures Stored(sha, store, e.Serialised())
  {}

  lemma MoveIsSound(sha: Sha, store: Store, key: Key, sum: string, kept: bool)
    requires Injective(sha) && Sound(sha, store)
    requires Staging(key) in store && store[Staging(key)].Blob? && sha(store[Staging(key)].content) == sum
    ensures Sound(sha, Moved(store, Staging(key), LayerAt(sum), kept))
  {
    MoveExtends(sha, store, key, sum, kept);
    hide Stored;
    StaysSound(sha, store, Moved(store, Staging(key), LayerAt(sum), kept));
  }

  /** Layers come from moves, builds from `cacheLayer`. */
  lemma StoreChange(sha: Sha, s: State, e: Event)
    requires Enabled(s, e) && !e.MoveSucceeds? && !e.MoveFails?
    ensures var store' := Apply(sha, s, e).store;
      && (forall sum :: LayerAt(sum) in store' ==> LayerAt(sum) in s.store)
      && (forall k :: Build(k) in store' && store'[Build(k)].Json? ==>
            || (Build(k) in s.store && store'[Build(k)] == s.store[Build(k)])
            || (e.StoreEnds? && store'[Build(k)].entry == s.At(e.t).entry.Serialised()))
  {}

  lemma StepSound(sha: Sha, s: State, e: Event)
    requires Injective(sha) && Inv(sha, s) && Enabled(s, e)
    ensures Sound(sha, Apply(sha, s, e).store)
  {
    var s' := Apply(sha, s, e);
    hide Exclusive, CachesSound;
    if e.MoveSucceeds? || e.MoveFails? {
      assert PhaseHolds(sha, s.store, s.At(e.t));
      MoveIsSound(sha, s.store, s.At(e.t).key, s.At(e.t).sum, e.kept);
    } else {
      StepExtends(sha, s, e);
      StoreChange(sha, s, e);
      if e.StoreEnds? {
        assert PhaseHolds(sha, s.store, s.At(e.t));
        SerialisedStored(sha, s.store, s.At(e.t).entry);
      }
      hide PhasesHold, Stored, Injective, Apply;
      StaysSound(sha, s.store, s'.store);
    }
  }

  lemma CachesChange(sha: Sha, s: State, e: Event)
    requires Enabled(s, e)
    ensures var s' := Apply(sha, s, e);
      && (forall k :: k in s'.lcache ==>
            || (k in s.lcache && s'.lcache[k] == s.lcache[k])
            || (e.CacheLocally? && k == s.At(e.t).key && s'.lcache[k] == s.At(e.t).entry)
            || (e.Fill? && k == e.key && s'.lcache[k] == e.entry && (k, e.entry) in s.fills))
      && (forall f :: f in s'.fills ==>
            || f in s.fills
            || (e.FetchHit? && f == (s.At(e.t).key, s.store[Build(s.At(e.t).key)].entry)))
  {}

  /** What a step can bring into the local cache or on its way there. */
  ghost predicate Known(s: State, x: Entry) {
    || (exists k :: k in s.lcache && s.lcache[k] == x)
    || (exists f :: f in s.fills && f.1 == x)
    || (exists k :: Build(k) in s.store && s.store[Build(k)] == Json(x))
    || (exists t :: s.At(t).Caching? && s.At(t).entry == x)
  }

  lemma KnownStored(sha: Sha, s: State, x: Entry)
    requires Inv(sha, s) && Known(s, x)
    ensures Stored(sha, s.store, x)
  {
    hide Stored;
    if t :| s.At(t).Caching? && s.At(t).entry == x {
      assert PhaseHolds(sha, s.store, s.At(t));
    }
  }

  lemma CachesKnown(sha: Sha, s: State, e: Event)
    requires Enabled(s, e)
    ensures var s' := Apply(sha, s, e);
      && (forall k :: k in s'.lcache ==> Known(s, s'.lcache[k]))
      && (forall f :: f in s'.fills ==> Known(s, f.1))
  {
    CachesChange(sha, s, e);
    hide Apply;
  }

  lemma StepCaches(sha: Sha, s: State, e: Event)
    requires Injective(sha) && Inv(sha, s) && Enabled(s, e)
    ensures CachesSound(sha, Apply(sha, s, e))
  {
    hide Inv, Apply, Enabled, Known, Stored, Extends, Injective;
    var s' := Apply(sha, s, e);
    StepExtends(sha, s, e);
    CachesKnown(sha, s, e);
    forall x | Known(s, x) ensures Stored(sha, s'.store, x) {
      KnownStored(sha, s, x);
      StaysStored(sha, s.store, s'.store, x);
    }
  }

  predicate SameStaging(store: Store, store': Store, k: Key) {
    && (Staging(k) in store' <==> Staging(k) in store)
    && (Staging(k) in store ==> store'[Staging(k)] == store[Staging(k)])
  }

  lemma MoveStaging(store: Store, key: Key, sum: string, kept: bool, k: Key)
    requires Staging(key) in store && k != key
    ensures SameStaging(store, Moved(store, Staging(key), LayerAt(sum), kept), k)
  {}

  lemma StagingChange(sha: Sha, s: State, e: Event, k: Key)
    requires Enabled(s, e) && !e.MoveSucceeds? && !e.MoveFails?
    ensures SameStaging(s.store, Apply(sha, s, e).store, k) || ((e.Write? || e.Persisted?) && s.At(e.t).key == k)
  {
    if !(e.Write? || e.Persisted? || e.StoreTears? || e.StoreEnds?) {
      hide SameStaging;
      assert Apply(sha, s, e).store == s.store;
      SameStore(s.store, k);
    } else if e.StoreTears? || e.StoreEnds? {
      SameStore(s.store, k);
      OtherBuild(s.store, s.At(e.t).key, Torn, k);
      if e.StoreEnds? {
        OtherBuild(s.store, s.At(e.t).key, Json(s.At(e.t).entry.Serialised()), k);
      }
      hide SameStaging;
    }
  }

  lemma OtherBuild(store: Store, key: Key, o: Object, k: Key)
    ensures SameStaging(store, store[Build(key) := o], k)
  {}

  lemma SameStore(store: Store, k: Key)
    ensures SameStaging(store, store, k)
  {}

  /** Only a thread that holds the key changes what is staged under it. */
  lemma SingleWriter(sha: Sha, s: State, e: Event, k: Key)
    requires Enabled(s, e)
    ensures SameStaging(s.store, Apply(sha, s, e).store, k) || exists t :: By(e, t) && s.At(t).Holds(k)
  {
    if e.MoveSucceeds? || e.MoveFails? {
      assert By(e, e.t) && (s.At(e.t).key == k ==> s.At(e.t).Holds(k));
      if s.At(e.t).key != k {
        MoveStaging(s.store, s.At(e.t).key, s.At(e.t).sum, e.kept, k);
      }
    } else {
      StagingChange(sha, s, e, k);
      hide Apply, SameStaging;
      if (e.Write? || e.Persisted?) && s.At(e.t).key == k {
        assert By(e, e.t) && s.At(e.t).Holds(k);
      }
    }
  }

  lemma StepPhases(sha: Sha, s: State, e: Event)
    requires Injective(sha) && Inv(sha, s) && Enabled(s, e)
    ensures PhasesHold(sha, Apply(sha, s, e))
  {
    var s' := Apply(sha, s, e);
    StepExtends(sha, s, e);
    forall u ensures PhaseHolds(sha, s'.store, s'.At(u)) {
      assert PhaseHolds(sha, s.store, s.At(u));
      if By(e, u) {
        ActorHolds(sha, s, e);
      } else {
        OthersWait(sha, s, e, u);
        PhaseStays(sha, s, e, u);
      }
    }
  }

  lemma PhaseStays(sha: Sha, s: State, e: Event, u: Thread)
    requires Injective(sha) && Inv(sha, s) && Enabled(s, e) && !By(e, u) && Extends(s.store, Apply(sha, s, e).store)
    ensures PhaseHolds(sha, Apply(sha, s, e).store, s.At(u))
  {
    var s' := Apply(sha, s, e);
    var p := s.At(u);
    assert PhaseHolds(sha, s.store, p);
    hide Apply, Sound, CachesSound, Stored, Injective, PhasesHold;
    if p.Moving? {
      assert s.locks[p.key] == u;
      assert forall t :: By(e, t) && s.At(t).Holds(p.key) ==> s.locks[p.key] == t;
      SingleWriter(sha, s, e, p.key);
    }
    hide Exclusive;
    if p.Caching? || p.Storing? || p.Cached? || p.Uploaded? {
      StaysStored(sha, s.store, s'.store, p.entry);
    }
  }

  /** Where the acting thread has its entry from. */
  lemma ActorPhase(sha: Sha, s: State, e: Event)
    requires Enabled(s, e) && !e.Fill? && !e.Crash?
    ensures var (p, p', store') := (s.At(e.t), Apply(sha, s, e).At(e.t), Apply(sha, s, e).store);
      && (p'.Moving? ==> e.Persisted? && Staging(p'.key) in store' && store'[Staging(p'.key)] == Blob(p.data)
                         && p'.sum == sha(p.data) && p'.size == |p.data|)
      && (p'.Caching? ==> e.MoveSucceeds? && p'.entry == Entry(p.size, "sha256:" + p.sum, p.tarHash, p.rating)
                          && store' == Moved(s.store, Staging(p.key), LayerAt(p.sum), e.kept))
      && (p'.Cached? ==> || (p.key in s.lcache && p'.entry == s.lcache[p.key])
                         || (Build(p.key) in s.store && s.store[Build(p.key)] == Json(p'.entry)))
      && (p'.Storing? || p'.Uploaded? ==> (p.Caching? || p.Storing?) && p'.entry == p.entry)
  {}

  lemma ActorHolds(sha: Sha, s: State, e: Event)
    requires Injective(sha) && Inv(sha, s) && Enabled(s, e) && !e.Fill? && !e.Crash?
    requires Extends(s.store, Apply(sha, s, e).store)
    ensures PhaseHolds(sha, Apply(sha, s, e).store, Apply(sha, s, e).At(e.t))
  {
    var s' := Apply(sha, s, e);
    var (p, p') := (s.At(e.t), s'.At(e.t));
    assert PhaseHolds(sha, s.store, p);
    ActorPhase(sha, s, e);
    hide Exclusive, PhasesHold, Extends, Apply;
    if p'.Caching? {
      MoveExtends(sha, s.store, p.key, p.sum, e.kept);
    } else if p'.Storing? || p'.Cached? || p'.Uploaded? {
      hide Stored;
      StaysStored(sha, s.store, s'.store, p'.entry);
    }
  }

  lemma StepKeepsInv(sha: Sha, s: State, e: Event)
    requires Injective(sha) && Inv(sha, s) && Enabled(s, e)
    ensures Inv(sha, Apply(sha, s, e)) && Extends(s.store, Apply(sha, s, e).store)
  {
    StepExclusive(sha, s, e);
    StepSound(sha, s, e);
    StepCaches(sha, s, e);
    StepPhases(sha, s, e);
    StepExtends(sha, s, e);
  }

  lemma {:induction false} RunKeepsInv(sha: Sha, s: State, events: seq<Event>)
    requires Injective(sha) && Inv(sha, s) && IsRun(sha, s, events)
    ensures Inv(sha, After(sha, s, events)) && Extends(s.store, After(sha, s, events).store)
    decreases |events|
  {
    if events != [] {
      hide Inv, Apply, Enabled;
      StepKeepsInv(sha, s, events[0]);
      RunKeepsInv(sha, Apply(sha, s, events[0]), events[1..]);
    }
  }

  // ---- Main results

  /** In every interleaving of calls, failures, fills and restarts: whatever is found in the
      local cache or under `builds/`, and whatever a call returns, names an object that is
      under `layers/` with that hash and size; and no layer is ever lost or changed. */
  lemma EntriesNameLayers(sha: Sha, store: Store, events: seq<Event>, k: Key, t: Thread)
    requires Injective(sha) && Sound(sha, store) && IsRun(sha, Start(store), events)
    ensures var s := After(sha, Start(store), events);
      && Extends(store, s.store)
      && (k in s.lcache ==> Stored(sha, s.store, s.lcache[k]))
      && (Build(k) in s.store && s.store[Build(k)].Json? ==> Stored(sha, s.store, s.store[Build(k)].entry))
      && (s.At(t).Cached? || s.At(t).Uploaded? ==> Stored(sha, s.store, s.At(t).entry))
  {
    hide Stored, Apply, Enabled;
    Starts(sha, store);
    RunKeepsInv(sha, Start(store), events);
    assert PhaseHolds(sha, After(sha, Start(store), events).store, After(sha, Start(store), events).At(t));
  }

  lemma OneHolder(s: State, k: Key, t: Thread, u: Thread)
    requires Exclusive(s) && s.At(t).Holds(k) && s.At(u).Holds(k)
    ensures t == u
  {
    assert s.locks[k] == t;
  }

  /** At most one thread at a time is between the lock and the unlock of a key. */
  lemma OneAtATime(sha: Sha, store: Store, events: seq<Event>, k: Key, t: Thread, u: Thread)
    requires Injective(sha) && Sound(sha, store) && IsRun(sha, Start(store), events)
    requires var s := After(sha, Start(store), events); s.At(t).Holds(k) && s.At(u).Holds(k)
    ensures t == u
  {
    Starts(sha, store);
    RunKeepsInv(sha, Start(store), events);
    OneHolder(After(sha, Start(store), events), k, t, u);
  }

  /** The key is in the local cache, and nobody is uploading it. */
  ghost predicate Settled(s: State, k: Key) {
    k in s.lcache && forall t :: !s.At(t).Uploads(k)
  }

  lemma StaysSettled(sha: Sha, s: State, e: Event, k: Key)
    requires Enabled(s, e) && !e.Crash? && Settled(s, k)
    ensures Settled(Apply(sha, s, e), k)
  {
    forall t ensures !Apply(sha, s, e).At(t).Uploads(k) {
      assert !s.At(t).Uploads(k);
      if !By(e, t) {
        OthersWait(sha, s, e, t);
      }
    }
  }

  lemma {:induction false} RunStaysSettled(sha: Sha, s: State, events: seq<Event>, k: Key)
    requires IsRun(sha, s, events) && Crash !in events && Settled(s, k)
    ensures Settled(After(sha, s, events), k)
    decreases |events|
  {
    if events != [] {
      hide Settled, Apply, Enabled;
      StaysSettled(sha, s, events[0], k);
      RunStaysSettled(sha, Apply(sha, s, events[0]), events[1..], k);
    }
  }

  lemma CachingSettles(sha: Sha, s: State, t: Thread)
    requires Inv(sha, s) && Enabled(s, CacheLocally(t))
    ensures Settled(Apply(sha, s, CacheLocally(t)), s.At(t).key)
  {
    var k := s.At(t).key;
    forall v ensures !Apply(sha, s, CacheLocally(t)).At(v).Uploads(k) {
      if v != t {
        OthersWait(sha, s, CacheLocally(t), v);
        if s.At(v).Uploads(k) {
          OneHolder(s, k, t, v);
        }
      }
    }
  }

  /** Once a key has been uploaded, no thread of that process runs its layer writer again. */
  lemma UploadedOnce(sha: Sha, store: Store, before: seq<Event>, t: Thread, later: seq<Event>, u: Thread)
    requires Injective(sha) && Sound(sha, store) && IsRun(sha, Start(store), before)
    requires var s := After(sha, Start(store), before);
      Enabled(s, CacheLocally(t)) && IsRun(sha, Apply(sha, s, CacheLocally(t)), later) && Crash !in later
    ensures var s := After(sha, Start(store), before);
      !After(sha, Apply(sha, s, CacheLocally(t)), later).At(u).Uploads(s.At(t).key)
  {
    hide After, IsRun, Apply;
    var s := After(sha, Start(store), before);
    var k := s.At(t).key;
    hide Enabled;
    Starts(sha, store);
    RunKeepsInv(sha, Start(store), before);
    CachingSettles(sha, s, t);
    RunStaysSettled(sha, Apply(sha, s, CacheLocally(t)), later, k);
  }

  /** A step of a thread that has been called, other than a crash. */
  ghost predicate Works(s: State, e: Event) {
    Enabled(s, e) && !e.Call? && !e.Fill? && !e.Crash?
  }

  lemma InsideWorks(sha: Sha, s: State, t: Thread, k: Key)
    requires s.At(t).Holds(k) && PhaseHolds(sha, s.store, s.At(t))
    ensures exists e :: Works(s, e)
  {
    match s.At(t) {
      case Checking(_, _) => assert Works(s, CheckLocal(t));
      case Fetching(_, _) => assert Works(s, FetchMiss(t));
      case Writing(_, _, _) => assert Works(s, WriteFails(t));
      case Moving(_, _, _, _, _) => assert Works(s, MoveSucceeds(t, false));
      case Caching(_, _) => assert Works(s, CacheLocally(t));
      case Storing(_, _) => assert Works(s, StoreEnds(t, true));
      case Cached(_, _) => assert Works(s, Unlock(t));
      case Uploaded(_, _) => assert Works(s, Unlock(t));
      case Failed(_) => assert Works(s, Unlock(t));
    }
  }

  /** While a call is under way, some thread can go on. */
  lemma NoDeadlock(sha: Sha, store: Store, events: seq<Event>, t: Thread)
    requires Injective(sha) && Sound(sha, store) && IsRun(sha, Start(store), events)
    requires !After(sha, Start(store), events).At(t).Idle?
    ensures exists e :: Works(After(sha, Start(store), events), e)
  {
    Starts(sha, store);
    RunKeepsInv(sha, Start(store), events);
    var s := After(sha, Start(store), events);
    hide After, IsRun, Sound, CachesSound;
    var k := s.At(t).key;
    assert PhaseHolds(sha, s.store, s.At(t));
    if s.At(t).Waiting? {
      if k in s.locks {
        assert PhaseHolds(sha, s.store, s.At(s.locks[k]));
        InsideWorks(sha, s, s.locks[k], k);
      } else {
        assert Works(s, Lock(t));
      }
    } else {
      InsideWorks(sha, s, t, k);
    }
  }
}
