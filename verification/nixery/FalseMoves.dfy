// A backend that may report a move that has not taken place.
module FalseMoves {
  import opened Upload

  /** A step of the protocol, or a move that is reported to have succeeded and has not put the
      object under its new name. Without `kept`, the staged object is deleted all the same. */
  datatype Act = Honest(e: Event) | FalseMove(t: Thread, kept: bool)

  predicate May(s: State, a: Act) {
    match a
    case Honest(e) => Enabled(s, e)
    case FalseMove(t, _) => s.At(t).Moving?
  }

  function Do(sha: Sha, s: State, a: Act): State
    requires May(s, a)
  {
    match a
    case Honest(e) => Apply(sha, s, e)
    case FalseMove(t, kept) =>
      var p := s.At(t);
      s.(store := if kept then s.store else s.store - {Staging(p.key)}).To(t, Caching(p.key, Entry(p.size, "sha256:" + p.sum, p.tarHash, p.rating)))
  }

  /** All that a false move does in the bucket is that it may lose what was staged. */
  lemma FalseMoveLeaves(sha: Sha, s: State, t: Thread, key: Key)
    requires s.At(t).Moving? && s.At(t).key == key
    ensures May(s, FalseMove(t, true)) && Do(sha, s, FalseMove(t, true)).store == s.store
    ensures May(s, FalseMove(t, false)) && Do(sha, s, FalseMove(t, false)).store == s.store - {Staging(key)}
  {}

  ghost predicate IsCourse(sha: Sha, s: State, acts: seq<Act>)
    decreases |acts|
  {
    acts == [] || (May(s, acts[0]) && IsCourse(sha, Do(sha, s, acts[0]), acts[1..]))
  }

  ghost function End(sha: Sha, s: State, acts: seq<Act>): State
    requires IsCourse(sha, s, acts)
    decreases |acts|
  {
    if acts == [] then s else End(sha, Do(sha, s, acts[0]), acts[1..])
  }

  /** Whatever is in the local cache, under `builds/` or returned by a call names a layer. */
  ghost predicate NamesLayers(sha: Sha, s: State) {
    && (forall k :: k in s.lcache ==> Stored(sha, s.store, s.lcache[k]))
    && (forall k :: Build(k) in s.store && s.store[Build(k)].Json? ==> Stored(sha, s.store, s.store[Build(k)].entry))
    && (forall t :: s.At(t).Cached? || s.At(t).Uploaded? ==> Stored(sha, s.store, s.At(t).entry))
  }

  lemma InvNames(sha: Sha, s: State)
    requires Inv(sha, s)
    ensures NamesLayers(sha, s)
  {
    hide Stored;
    forall t ensures PhaseHolds(sha, s.store, s.At(t)) {}
  }

  /** A false move of a layer that is not in the bucket yet. */
  ghost predicate Harmful(s: State, a: Act) {
    a.FalseMove? && s.At(a.t).Moving? && LayerAt(s.At(a.t).sum) !in s.store
  }

  /** Where the layer is in the bucket already, the entry is right although nothing was moved. */
  lemma NamesAnyway(sha: Sha, s: State, t: Thread)
    requires Injective(sha) && Inv(sha, s) && s.At(t).Moving? && LayerAt(s.At(t).sum) in s.store
    ensures var p := s.At(t); Stored(sha, s.store, Entry(p.size, "sha256:" + p.sum, p.tarHash, p.rating))
  {
    var p := s.At(t);
    assert PhaseHolds(sha, s.store, p);
    assert LayerIs(sha, s.store, s.store[LayerAt(p.sum)].content);
    assert s.store[LayerAt(p.sum)].content == s.store[Staging(p.key)].content;
  }

  lemma FalseMoveThreads(sha: Sha, s: State, t: Thread, kept: bool)
    requires s.At(t).Moving?
    ensures var s' := Do(sha, s, FalseMove(t, kept));
      && s'.(threads := s.threads, store := s.store) == s
      && (forall u :: u != t ==> s'.At(u) == s.At(u))
      && (forall u, k :: s'.At(u).Holds(k) <==> s.At(u).Holds(k))
  {}

  lemma SameHolders(s: State, s': State)
    requires Exclusive(s) && s'.locks == s.locks && forall u, k :: s'.At(u).Holds(k) <==> s.At(u).Holds(k)
    ensures Exclusive(s')
  {
    hide State.At, Phase.Holds;
  }

  /** Without the staged object, all else is as before. */
  lemma Dropped(sha: Sha, store: Store, key: Key)
    requires Sound(sha, store)
    ensures var store' := store - {Staging(key)};
      && Sound(sha, store') && Extends(store, store')
      && forall k :: k != key ==> SameStaging(store, store', k)
  {
    var store' := store - {Staging(key)};
    hide Stored;
    StaysSound(sha, store, store');
  }

  /** A phase that does not wait for that object holds as before. */
  lemma PhaseWithout(sha: Sha, store: Store, store': Store, p: Phase)
    requires PhaseHolds(sha, store, p) && Extends(store, store')
    requires p.Moving? ==> SameStaging(store, store', p.key)
    ensures PhaseHolds(sha, store', p)
  {
    hide Stored, Extends;
    if p.Caching? || p.Storing? || p.Cached? || p.Uploaded? {
      StaysStored(sha, store, store', p.entry);
    }
  }

  lemma CachesWithout(sha: Sha, s: State, s': State)
    requires CachesSound(sha, s) && s'.lcache == s.lcache && s'.fills == s.fills && Extends(s.store, s'.store)
    ensures CachesSound(sha, s')
  {
    hide Stored, Extends;
    forall x | Stored(sha, s.store, x) ensures Stored(sha, s'.store, x) {
      StaysStored(sha, s.store, s'.store, x);
    }
  }

  lemma FalseMoveStore(sha: Sha, s: State, t: Thread, kept: bool)
    requires Inv(sha, s) && s.At(t).Moving?
    ensures var store' := Do(sha, s, FalseMove(t, kept)).store;
      && Sound(sha, store') && Extends(s.store, store')
      && forall k :: k != s.At(t).key ==> SameStaging(s.store, store', k)
  {
    Dropped(sha, s.store, s.At(t).key);
    hide Sound, Exclusive, CachesSound, PhasesHold;
  }

  lemma FalseMoveKeeps(sha: Sha, s: State, t: Thread, kept: bool)
    requires Injective(sha) && Inv(sha, s) && s.At(t).Moving? && LayerAt(s.At(t).sum) in s.store
    ensures Inv(sha, Do(sha, s, FalseMove(t, kept)))
  {
    var s' := Do(sha, s, FalseMove(t, kept));
    var p := s'.At(t);
    NamesAnyway(sha, s, t);
    assert p.Caching? && PhaseHolds(sha, s.store, p) by { hide Stored, Inv; }
    FalseMoveThreads(sha, s, t, kept);
    FalseMoveStore(sha, s, t, kept);
    var key := s.At(t).key;
    assert s.At(t).Holds(key);
    assert forall u :: s.At(u).Moving? ==> s.At(u).Holds(s.At(u).key);
    hide Do, State.At, Phase.Holds, Sound, Extends, SameStaging, PhaseHolds;
    SameHolders(s, s');
    CachesWithout(sha, s, s');
    hide CachesSound;
    forall u ensures PhaseHolds(sha, s'.store, s'.At(u)) {
      assert PhaseHolds(sha, s.store, s.At(u));
      if u == t {
        PhaseWithout(sha, s.store, s'.store, p);
      } else {
        if s.At(u).Moving? && s.At(u).key == key {
          OneHolder(s, key, t, u);
        }
        PhaseWithout(sha, s.store, s'.store, s.At(u));
      }
    }
  }

  lemma HarmlessKeeps(sha: Sha, s: State, a: Act)
    requires Injective(sha) && Inv(sha, s) && May(s, a) && !Harmful(s, a)
    ensures Inv(sha, Do(sha, s, a))
  {
    hide Inv, Apply, Injective;
    match a
    case Honest(e) => StepKeepsInv(sha, s, e);
    case FalseMove(t, kept) => FalseMoveKeeps(sha, s, t, kept);
  }

  ghost predicate Harmless(sha: Sha, s: State, acts: seq<Act>)
    requires IsCourse(sha, s, acts)
    decreases |acts|
  {
    acts == [] || (!Harmful(s, acts[0]) && Harmless(sha, Do(sha, s, acts[0]), acts[1..]))
  }

  lemma {:induction false} HarmlessCourse(sha: Sha, s: State, acts: seq<Act>)
    requires Injective(sha) && Inv(sha, s) && IsCourse(sha, s, acts) && Harmless(sha, s, acts)
    ensures Inv(sha, End(sha, s, acts))
    decreases |acts|
  {
    if acts != [] {
      hide Inv, Do, May, Harmful, Injective;
      HarmlessKeeps(sha, s, acts[0]);
      HarmlessCourse(sha, Do(sha, s, acts[0]), acts[1..]);
    }
  }

  /** After a harmful one, the next step of the thread caches an entry that names nothing. */
  lemma HarmfulBreaks(sha: Sha, s: State, t: Thread, kept: bool)
    requires Harmful(s, FalseMove(t, kept))
    ensures var (s', next) := (Do(sha, s, FalseMove(t, kept)), [Honest(CacheLocally(t))]);
      IsCourse(sha, s', next) && Harmless(sha, s', next) && !NamesLayers(sha, End(sha, s', next))
  {
    var s' := Do(sha, s, FalseMove(t, kept));
    var next := [Honest(CacheLocally(t))];
    assert next[1..] == [];
    var s2 := Do(sha, s', next[0]);
    var (k, sum) := (s.At(t).key, s.At(t).sum);
    assert LayerAt(sum) !in s2.store && k in s2.lcache && s2.lcache[k].digest == "sha256:" + sum;
    NamesNothing(sha, s2.store, s2.lcache[k], sum);
    assert IsCourse(sha, s2, []);
    hide Stored, Apply, Enabled;
    assert End(sha, s', next) == s2;
  }

  lemma NamesNothing(sha: Sha, store: Store, e: Entry, sum: string)
    requires e.digest == "sha256:" + sum && LayerAt(sum) !in store
    ensures !Stored(sha, store, e)
  {
    forall content | e.digest == "sha256:" + sha(content) ensures !LayerIs(sha, store, content) {
      assert ("sha256:" + sum)[7..] == sum && ("sha256:" + sha(content))[7..] == sha(content);
    }
  }

  /** Entries name layers from here on, however it goes on without another harmful move. */
  ghost predicate StaysNamed(sha: Sha, s: State) {
    forall later :: IsCourse(sha, s, later) && Harmless(sha, s, later) ==> NamesLayers(sha, End(sha, s, later))
  }

  lemma InvStaysNamed(sha: Sha, s: State)
    requires Injective(sha) && Inv(sha, s)
    ensures StaysNamed(sha, s)
  {
    hide Inv, NamesLayers, Injective;
    forall later | IsCourse(sha, s, later) && Harmless(sha, s, later) ensures NamesLayers(sha, End(sha, s, later)) {
      HarmlessCourse(sha, s, later);
      InvNames(sha, End(sha, s, later));
    }
  }

  lemma ActNamesExactly(sha: Sha, s: State, a: Act)
    requires Injective(sha) && Inv(sha, s) && May(s, a)
    ensures StaysNamed(sha, Do(sha, s, a)) <==> !Harmful(s, a)
  {
    if Harmful(s, a) {
      HarmfulBreaks(sha, s, a.t, a.kept);
      hide Inv, Do, NamesLayers, IsCourse, Harmless, End;
    } else {
      hide Inv, Do, May, Harmful, StaysNamed;
      HarmlessKeeps(sha, s, a);
      InvStaysNamed(sha, Do(sha, s, a));
    }
  }

  ghost predicate AlwaysNamed(sha: Sha, s: State, acts: seq<Act>)
    requires IsCourse(sha, s, acts)
    decreases |acts|
  {
    StaysNamed(sha, s) && (acts == [] || AlwaysNamed(sha, Do(sha, s, acts[0]), acts[1..]))
  }

  lemma AlwaysNamedNow(sha: Sha, s: State, acts: seq<Act>)
    requires IsCourse(sha, s, acts)
    ensures AlwaysNamed(sha, s, acts) ==> StaysNamed(sha, s)
  {
    hide StaysNamed;
  }

  lemma {:induction false} CourseNamesExactly(sha: Sha, s: State, acts: seq<Act>)
    requires Injective(sha) && Inv(sha, s) && IsCourse(sha, s, acts)
    ensures AlwaysNamed(sha, s, acts) <==> Harmless(sha, s, acts)
    decreases |acts|
  {
    hide Inv, StaysNamed, Do, May, Harmful, Injective;
    InvStaysNamed(sha, s);
    if acts != [] {
      ActNamesExactly(sha, s, acts[0]);
      if !Harmful(s, acts[0]) {
        HarmlessKeeps(sha, s, acts[0]);
        CourseNamesExactly(sha, Do(sha, s, acts[0]), acts[1..]);
      } else {
        AlwaysNamedNow(sha, Do(sha, s, acts[0]), acts[1..]);
      }
    }
  }

  /** Main result: with a backend that may report false moves, entries name stored layers at every
      point of a course, however it goes on, if and only if every false move was of a layer
      that was in the bucket already. */
  lemma NamesExactly(sha: Sha, store: Store, acts: seq<Act>)
    requires Injective(sha) && Sound(sha, store) && IsCourse(sha, Start(store), acts)
    ensures AlwaysNamed(sha, Start(store), acts) <==> Harmless(sha, Start(store), acts)
  {
    hide Inv, AlwaysNamed, Harmless, IsCourse, Sound, Injective;
    Starts(sha, store);
    CourseNamesExactly(sha, Start(store), acts);
  }
}
