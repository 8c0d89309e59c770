// The popularity counter: downloaders, a finaliser and a collector around three channels.
module Popcount {

  type Item = string
  type Refs = string -> seq<string>

  // ---- Counting references

  type Counts = map<string, nat>

  function Get(counts: Counts, ref: string): nat {
    if ref in counts then counts[ref] else 0
  }

  /** One more for every reference in the list that is not empty. */
  function Counted(counts: Counts, refs: seq<string>): Counts {
    if refs == [] then counts
    else
      var before := Counted(counts, refs[..|refs| - 1]);
      var ref := refs[|refs| - 1];
      if ref == "" then before else before[ref := Get(before, ref) + 1]
  }

  /** The loop over the references of one narinfo. */
  method Count(counts: Counts, refs: seq<string>) returns (r: Counts)
    ensures r == Counted(counts, refs)
  {
    r := counts;
    for k := 0 to |refs|
      invariant r == Counted(counts, refs[..k])
    {
      assert refs[..k + 1][..k] == refs[..k];
      if refs[k] != "" {
        r := r[refs[k] := Get(r, refs[k]) + 1];
      }
    }
    assert refs[..|refs|] == refs;
  }

  lemma {:induction false} CountedAdds(counts: Counts, refs: seq<string>, ref: string)
    ensures Get(Counted(counts, refs), ref) == Get(counts, ref) + if ref == "" then 0 else multiset(refs)[ref]
    ensures "" !in counts ==> "" !in Counted(counts, refs)
    ensures ref in Counted(counts, refs) <==> ref in counts || (ref != "" && ref in refs)
  {
    if refs != [] {
      var front := refs[..|refs| - 1];
      CountedAdds(counts, front, ref);
      assert refs == front + [refs[|refs| - 1]];
    }
  }

  /** How often the texts refer to `ref`, all together. */
  ghost function Mentions(refs: Refs, texts: seq<string>, ref: string): nat {
    if texts == [] then 0
    else Mentions(refs, texts[..|texts| - 1], ref) + multiset(refs(texts[|texts| - 1]))[ref]
  }

  lemma MentionsSnoc(refs: Refs, texts: seq<string>, text: string, ref: string)
    ensures Mentions(refs, texts + [text], ref) == Mentions(refs, texts, ref) + multiset(refs(text))[ref]
  {
    assert (texts + [text])[..|texts|] == texts;
  }

  lemma {:induction false} MentionsAppend(refs: Refs, a: seq<string>, b: seq<string>, ref: string)
    ensures Mentions(refs, a + b, ref) == Mentions(refs, a, ref) + Mentions(refs, b, ref)
  {
    if b == [] {
      assert a + b == a;
    } else {
      var n := |b| - 1;
      MentionsAppend(refs, a, b[..n], ref);
      assert (a + b[..n]) + [b[n]] == a + b && b[..n] + [b[n]] == b;
      MentionsSnoc(refs, a + b[..n], b[n], ref);
      MentionsSnoc(refs, b[..n], b[n], ref);
    }
  }

  function Without(texts: seq<string>, j: nat): seq<string>
    requires j < |texts|
  {
    texts[..j] + texts[j + 1..]
  }

  lemma MentionsWithout(refs: Refs, a: seq<string>, j: nat, ref: string)
    requires j < |a|
    ensures |Without(a, j)| == |a| - 1
    ensures multiset(a) == multiset(Without(a, j)) + multiset{a[j]}
    ensures Mentions(refs, a, ref) == Mentions(refs, Without(a, j), ref) + multiset(refs(a[j]))[ref]
  {
    hide Mentions;
    assert a == (a[..j] + [a[j]]) + a[j + 1..];
    MentionsAppend(refs, a[..j] + [a[j]], a[j + 1..], ref);
    MentionsSnoc(refs, a[..j], a[j], ref);
    MentionsAppend(refs, a[..j], a[j + 1..], ref);
  }

  /** The order does not matter. */
  lemma {:induction false} MentionsUnordered(refs: Refs, a: seq<string>, b: seq<string>, ref: string)
    requires multiset(a) == multiset(b)
    ensures Mentions(refs, a, ref) == Mentions(refs, b, ref)
    decreases |a|
  {
    hide Mentions, Without;
    if a == [] {
      assert |multiset(b)| == 0 && b == [];
    } else {
      assert a[0] in multiset(b);
      var j :| 0 <= j < |b| && b[j] == a[0];
      MentionsWithout(refs, a, 0, ref);
      MentionsWithout(refs, b, j, ref);
      assert multiset(Without(a, 0)) == multiset(a) - multiset{a[0]};
      assert multiset(Without(b, j)) == multiset(b) - multiset{a[0]};
      MentionsUnordered(refs, Without(a, 0), Without(b, j), ref);
    }
  }

  /** The last loop of `main`: what is referenced once is dropped. */
  method DropOnes(counts: Counts) returns (r: Counts)
    ensures r == map ref | ref in counts && counts[ref] != 1 :: counts[ref]
  {
    r := counts;
    var todo := counts.Keys;
    while todo != {}
      invariant todo <= counts.Keys
      invariant r == map ref | ref in counts && (ref in todo || counts[ref] != 1) :: counts[ref]
      decreases |todo|
    {
      var k :| k in todo;
      if counts[k] == 1 {
        r := r - {k};
      }
      todo := todo - {k};
    }
  }

  // ---- The pipeline

  const CAPACITY: nat := 50

  datatype Worker =
    | Ready
    | Busy(item: Item)
    | Holding(text: string)
    | Leaving
    | Gone

  datatype Finaliser = Receiving | ClosingDownloaders | ClosingNarinfos | Finished

  /** `fetched`, `failed` and `collected` are history. */
  datatype State = State(
    queue: seq<Item>,
    workers: seq<Worker>,
    narinfos: seq<string>,
    narinfosClosed: nat,
    tokens: nat,
    downloadersClosed: nat,
    remaining: int,
    finaliser: Finaliser,
    counts: Counts,
    collectorDone: bool,
    fetched: seq<(Item, string)>,
    failed: seq<Item>,
    collected: seq<string>)

  datatype Event =
    | Take(w: nat)
    | FetchSucceeds(w: nat, text: string)
    | FetchFails(w: nat)
    | Send(w: nat)
    | Stop(w: nat)
    | Leave(w: nat)
    | Receive
    | SeesClosed
    | CloseDownloaders
    | CloseNarinfos
    | Collect
    | CollectorEnds

  function Start(items: seq<Item>, n: nat): State {
    State(items, seq(n, _ => Ready), [], 0, 0, 0, n, Receiving, map[], false, [], [], [])
  }

  /** What can go on: a send waits while the channel is full, unless it is closed. */
  predicate Enabled(s: State, e: Event) {
    match e
    case Take(w) => w < |s.workers| && s.workers[w].Ready? && s.queue != []
    case FetchSucceeds(w, _) => w < |s.workers| && s.workers[w].Busy?
    case FetchFails(w) => w < |s.workers| && s.workers[w].Busy?
    case Send(w) => w < |s.workers| && s.workers[w].Holding? && (|s.narinfos| < CAPACITY || s.narinfosClosed > 0)
    case Stop(w) => w < |s.workers| && s.workers[w].Ready? && s.queue == []
    case Leave(w) => w < |s.workers| && s.workers[w].Leaving? && (s.tokens < |s.workers| || s.downloadersClosed > 0)
    case Receive => s.finaliser.Receiving? && s.tokens > 0
    case SeesClosed => s.finaliser.Receiving? && s.tokens == 0 && s.downloadersClosed > 0
    case CloseDownloaders => s.finaliser.ClosingDownloaders?
    case CloseNarinfos => s.finaliser.ClosingNarinfos?
    case Collect => !s.collectorDone && s.narinfos != []
    case CollectorEnds => !s.collectorDone && s.narinfos == [] && s.narinfosClosed > 0
  }

  /** Sending on a closed channel and closing a channel twice stop the program. */
  predicate Panics(s: State, e: Event) {
    || (e.Send? && s.narinfosClosed > 0)
    || (e.Leave? && s.downloadersClosed > 0)
    || (e.CloseDownloaders? && s.downloadersClosed > 0)
    || (e.CloseNarinfos? && s.narinfosClosed > 0)
  }

  function Apply(refs: Refs, s: State, e: Event): State
    requires Enabled(s, e)
  {
    match e
    case Take(w) => s.(queue := s.queue[1..], workers := s.workers[w := Busy(s.queue[0])])
    case FetchSucceeds(w, text) =>
      s.(workers := s.workers[w := Holding(text)], fetched := s.fetched + [(s.workers[w].item, text)])
    case FetchFails(w) => s.(workers := s.workers[w := Ready], failed := s.failed + [s.workers[w].item])
    case Send(w) => s.(workers := s.workers[w := Ready], narinfos := s.narinfos + [s.workers[w].text])
    case Stop(w) => s.(workers := s.workers[w := Leaving])
    case Leave(w) => s.(workers := s.workers[w := Gone], tokens := s.tokens + 1)
    case Receive =>
      s.(tokens := s.tokens - 1, remaining := s.remaining - 1,
         finaliser := if s.remaining - 1 == 0 then ClosingDownloaders else Receiving)
    case SeesClosed => s.(finaliser := Finished)
    case CloseDownloaders => s.(downloadersClosed := s.downloadersClosed + 1, finaliser := ClosingNarinfos)
    case CloseNarinfos => s.(narinfosClosed := s.narinfosClosed + 1, finaliser := Finished)
    case Collect =>
      s.(narinfos := s.narinfos[1..], collected := s.collected + [s.narinfos[0]],
         counts := Counted(s.counts, refs(s.narinfos[0])))
    case CollectorEnds => s.(collectorDone := true)
  }

  ghost predicate IsRun(refs: Refs, s: State, events: seq<Event>)
    decreases |events|
  {
    events == [] || (Enabled(s, events[0]) && IsRun(refs, Apply(refs, s, events[0]), events[1..]))
  }

  ghost function After(refs: Refs, s: State, events: seq<Event>): State
    requires IsRun(refs, s, events)
    decreases |events|
  {
    if events == [] then s else After(refs, Apply(refs, s, events[0]), events[1..])
  }

  // ---- Sums over the workers

  type Measure = Worker -> nat

  ghost function Sum(ws: seq<Worker>, f: Measure): nat {
    if ws == [] then 0 else f(ws[0]) + Sum(ws[1..], f)
  }

  function IsGone(w: Worker): nat {
    if w.Gone? then 1 else 0
  }

  /** The steps that a worker can still make with what it has. */
  function Steps(w: Worker): nat {
    match w
    case Ready => 3
    case Busy(_) => 6
    case Holding(_) => 5
    case Leaving => 2
    case Gone => 0
  }

  function Fetches(item: Item): Measure {
    w => if w == Busy(item) then 1 else 0
  }

  function Holds(text: string): Measure {
    w => if w == Holding(text) then 1 else 0
  }

  lemma {:induction false} OneWorker(ws: seq<Worker>, k: nat, w: Worker, f: Measure)
    requires k < |ws|
    ensures Sum(ws[k := w], f) + f(ws[k]) == Sum(ws, f) + f(w)
  {
    if k == 0 {
      assert ws[k := w][1..] == ws[1..];
    } else {
      OneWorker(ws[1..], k - 1, w, f);
      assert ws[k := w][1..] == ws[1..][k - 1 := w];
    }
  }

  lemma {:induction false} AllAlike(ws: seq<Worker>, f: Measure, c: nat)
    requires forall k :: 0 <= k < |ws| ==> f(ws[k]) == c
    ensures Sum(ws, f) == c * |ws|
  {
    if ws != [] {
      AllAlike(ws[1..], f, c);
    }
  }

  /** Workers that are not gone are missing from the sum. */
  lemma {:induction false} GoneAtMost(ws: seq<Worker>)
    ensures Sum(ws, IsGone) <= |ws|
    ensures Sum(ws, IsGone) == |ws| <==> forall k :: 0 <= k < |ws| ==> ws[k].Gone?
  {
    if ws != [] {
      GoneAtMost(ws[1..]);
      assert (forall k :: 0 <= k < |ws| ==> ws[k].Gone?) <==> ws[0].Gone? && forall k :: 0 <= k < |ws[1..]| ==> ws[1..][k].Gone? by {
        forall k | 0 < k < |ws| ensures ws[k] == ws[1..][k - 1] {}
      }
    }
  }

  // ---- What always holds

  function ItemsOf(fetched: seq<(Item, string)>): seq<Item> {
    seq(|fetched|, k requires 0 <= k < |fetched| => fetched[k].0)
  }

  function TextsOf(fetched: seq<(Item, string)>): seq<string> {
    seq(|fetched|, k requires 0 <= k < |fetched| => fetched[k].1)
  }

  /** Who has left, who has been told so, and what has been closed. */
  ghost predicate Orderly(n: nat, s: State) {
    && |s.workers| == n && 0 <= s.remaining <= n && |s.narinfos| <= CAPACITY
    && Sum(s.workers, IsGone) == s.tokens + n - s.remaining
    && (s.finaliser.Receiving? <==> s.remaining > 0)
    && s.downloadersClosed == (if s.finaliser.ClosingNarinfos? || s.finaliser.Finished? then 1 else 0)
    && s.narinfosClosed == (if s.finaliser.Finished? then 1 else 0)
    && (s.collectorDone ==> s.finaliser.Finished? && s.narinfos == [])
    && (s.queue != [] ==> forall w :: 0 <= w < n ==> !s.workers[w].Leaving? && !s.workers[w].Gone?)
  }

  /** Every item is in one place. */
  ghost predicate ItemKept(items: seq<Item>, s: State, item: Item) {
    multiset(items)[item] == multiset(s.queue)[item] + Sum(s.workers, Fetches(item))
                           + multiset(ItemsOf(s.fetched))[item] + multiset(s.failed)[item]
  }

  /** Every text that has been fetched is in one place. */
  ghost predicate TextKept(s: State, text: string) {
    multiset(TextsOf(s.fetched))[text]
      == multiset(s.collected)[text] + multiset(s.narinfos)[text] + Sum(s.workers, Holds(text))
  }

  ghost predicate CountKept(refs: Refs, s: State, ref: string) {
    && Get(s.counts, ref) == (if ref == "" then 0 else Mentions(refs, s.collected, ref))
    && (ref in s.counts ==> s.counts[ref] > 0)
  }

  ghost predicate Inv(refs: Refs, items: seq<Item>, n: nat, s: State) {
    && Orderly(n, s)
    && (forall item: Item :: ItemKept(items, s, item))
    && (forall text: string :: TextKept(s, text))
    && (forall ref: string :: CountKept(refs, s, ref))
  }

  /** The number of steps that can still be made. */
  ghost function StepsLeft(s: State): nat {
    4 * |s.queue| + Sum(s.workers, Steps) + |s.narinfos| + s.tokens
    + (match s.finaliser case Receiving => 3 case ClosingDownloaders => 2 case ClosingNarinfos => 1 case Finished => 0)
    + (if s.collectorDone then 0 else 1)
  }

  lemma Starts(refs: Refs, items: seq<Item>, n: nat)
    requires n >= 1
    ensures Inv(refs, items, n, Start(items, n))
    ensures StepsLeft(Start(items, n)) == 4 * |items| + 3 * n + 4
  {
    var s := Start(items, n);
    AllAlike(s.workers, IsGone, 0);
    AllAlike(s.workers, Steps, 3);
    forall item ensures ItemKept(items, s, item) {
      AllAlike(s.workers, Fetches(item), 0);
    }
    forall text ensures TextKept(s, text) {
      AllAlike(s.workers, Holds(text), 0);
    }
  }

  /** The worker that acts, and what becomes of it. */
  lemma WorkerChange(refs: Refs, s: State, e: Event, f: Measure)
    requires Enabled(s, e)
    ensures var s' := Apply(refs, s, e);
      if e.Take? || e.FetchSucceeds? || e.FetchFails? || e.Send? || e.Stop? || e.Leave?
      then |s'.workers| == |s.workers| && Sum(s'.workers, f) + f(s.workers[e.w]) == Sum(s.workers, f) + f(s'.workers[e.w])
      else s'.workers == s.workers
  {
    if e.Take? || e.FetchSucceeds? || e.FetchFails? || e.Send? || e.Stop? || e.Leave? {
      OneWorker(s.workers, e.w, Apply(refs, s, e).workers[e.w], f);
    }
  }

  lemma StepOrderly(refs: Refs, n: nat, s: State, e: Event)
    requires Orderly(n, s) && Enabled(s, e)
    ensures Orderly(n, Apply(refs, s, e))
  {
    WorkerChange(refs, s, e, IsGone);
    GoneAtMost(s.workers);
    hide Sum, Counted;
  }

  lemma StepProgress(refs: Refs, n: nat, s: State, e: Event)
    requires Orderly(n, s) && Enabled(s, e)
    ensures !Panics(s, e)
    ensures StepsLeft(Apply(refs, s, e)) < StepsLeft(s)
  {
    WorkerChange(refs, s, e, Steps);
    GoneAtMost(s.workers);
    hide Sum, Counted;
  }

  lemma Head(q: seq<string>, x: string)
    requires q != []
    ensures multiset(q)[x] == multiset(q[1..])[x] + if q[0] == x then 1 else 0
  {
    assert q == [q[0]] + q[1..];
  }

  lemma Last(q: seq<string>, y: string, x: string)
    ensures multiset(q + [y])[x] == multiset(q)[x] + if y == x then 1 else 0
  {}

  lemma FetchedLast(fetched: seq<(Item, string)>, item: Item, text: string)
    ensures ItemsOf(fetched + [(item, text)]) == ItemsOf(fetched) + [item]
    ensures TextsOf(fetched + [(item, text)]) == TextsOf(fetched) + [text]
  {}

  /** Where items and texts go. */
  lemma Goes(refs: Refs, s: State, e: Event)
    requires Enabled(s, e)
    ensures var s' := Apply(refs, s, e);
      && s'.queue == (if e.Take? then s.queue[1..] else s.queue)
      && s'.failed == (if e.FetchFails? then s.failed + [s.workers[e.w].item] else s.failed)
      && s'.fetched == (if e.FetchSucceeds? then s.fetched + [(s.workers[e.w].item, e.text)] else s.fetched)
      && s'.collected == (if e.Collect? then s.collected + [s.narinfos[0]] else s.collected)
      && s'.narinfos == (if e.Collect? then s.narinfos[1..]
                         else if e.Send? then s.narinfos + [s.workers[e.w].text] else s.narinfos)
      && (e.Take? ==> s.workers[e.w] == Ready && s'.workers[e.w] == Busy(s.queue[0]))
      && (e.FetchSucceeds? ==> s.workers[e.w].Busy? && s'.workers[e.w] == Holding(e.text))
      && (e.FetchFails? ==> s.workers[e.w].Busy? && s'.workers[e.w] == Ready)
      && (e.Send? ==> s.workers[e.w].Holding? && s'.workers[e.w] == Ready)
      && (e.Stop? ==> s.workers[e.w] == Ready && s'.workers[e.w] == Leaving)
      && (e.Leave? ==> s.workers[e.w] == Leaving && s'.workers[e.w] == Gone)
  {}

  lemma StepItem(refs: Refs, items: seq<Item>, s: State, e: Event, item: Item)
    requires Enabled(s, e) && ItemKept(items, s, item)
    ensures ItemKept(items, Apply(refs, s, e), item)
  {
    hide Apply, Sum, ItemsOf;
    Goes(refs, s, e);
    WorkerChange(refs, s, e, Fetches(item));
    if e.Take? {
      Head(s.queue, item);
    } else if e.FetchSucceeds? {
      FetchedLast(s.fetched, s.workers[e.w].item, e.text);
      Last(ItemsOf(s.fetched), s.workers[e.w].item, item);
    } else if e.FetchFails? {
      Last(s.failed, s.workers[e.w].item, item);
    }
  }

  lemma StepText(refs: Refs, s: State, e: Event, text: string)
    requires Enabled(s, e) && TextKept(s, text)
    ensures TextKept(Apply(refs, s, e), text)
  {
    hide Apply, Sum, TextsOf;
    Goes(refs, s, e);
    WorkerChange(refs, s, e, Holds(text));
    if e.Collect? {
      Head(s.narinfos, text);
      Last(s.collected, s.narinfos[0], text);
    } else if e.FetchSucceeds? {
      FetchedLast(s.fetched, s.workers[e.w].item, e.text);
      Last(TextsOf(s.fetched), e.text, text);
    } else if e.Send? {
      Last(s.narinfos, s.workers[e.w].text, text);
    }
  }

  lemma StepCount(refs: Refs, s: State, e: Event, ref: string)
    requires Enabled(s, e) && CountKept(refs, s, ref)
    ensures CountKept(refs, Apply(refs, s, e), ref)
  {
    hide Mentions, Counted;
    if e.Collect? {
      CountedAdds(s.counts, refs(s.narinfos[0]), ref);
      MentionsSnoc(refs, s.collected, s.narinfos[0], ref);
    }
  }

  lemma StepKeepsInv(refs: Refs, items: seq<Item>, n: nat, s: State, e: Event)
    requires Inv(refs, items, n, s) && Enabled(s, e)
    ensures Inv(refs, items, n, Apply(refs, s, e))
    ensures !Panics(s, e) && StepsLeft(Apply(refs, s, e)) < StepsLeft(s)
  {
    StepOrderly(refs, n, s, e);
    StepProgress(refs, n, s, e);
    hide Orderly, Panics, StepsLeft, Apply, ItemKept, TextKept, CountKept;
    forall item: Item ensures ItemKept(items, Apply(refs, s, e), item) {
      StepItem(refs, items, s, e, item);
    }
    forall text: string ensures TextKept(Apply(refs, s, e), text) {
      StepText(refs, s, e, text);
    }
    forall ref: string ensures CountKept(refs, Apply(refs, s, e), ref) {
      StepCount(refs, s, e, ref);
    }
  }

  lemma {:induction false} RunKeepsInv(refs: Refs, items: seq<Item>, n: nat, s: State, events: seq<Event>)
    requires Inv(refs, items, n, s) && IsRun(refs, s, events)
    ensures Inv(refs, items, n, After(refs, s, events))
    ensures StepsLeft(After(refs, s, events)) + |events| <= StepsLeft(s)
    decreases |events|
  {
    if events != [] {
      hide Inv, Apply, Enabled, StepsLeft;
      StepKeepsInv(refs, items, n, s, events[0]);
      RunKeepsInv(refs, items, n, Apply(refs, s, events[0]), events[1..]);
    }
  }

  // ---- Main results

  /** Main result: when the collector has ended, every item has been fetched or has failed,
      once, and the counts are those of everything that was fetched. */
  lemma CountsAllFetched(refs: Refs, items: seq<Item>, n: nat, events: seq<Event>, item: Item, ref: string)
    requires n >= 1 && IsRun(refs, Start(items, n), events)
    requires After(refs, Start(items, n), events).collectorDone
    ensures var s := After(refs, Start(items, n), events);
      && multiset(items)[item] == multiset(ItemsOf(s.fetched))[item] + multiset(s.failed)[item]
      && Get(s.counts, ref) == if ref == "" then 0 else Mentions(refs, TextsOf(s.fetched), ref)
  {
    Starts(refs, items, n);
    RunKeepsInv(refs, items, n, Start(items, n), events);
    var s := After(refs, Start(items, n), events);
    hide After, IsRun;
    NothingUnderWay(n, s);
    assert ItemKept(items, s, item);
    AllAlike(s.workers, Fetches(item), 0);
    forall text ensures multiset(TextsOf(s.fetched))[text] == multiset(s.collected)[text] {
      assert TextKept(s, text);
      AllAlike(s.workers, Holds(text), 0);
    }
    assert multiset(TextsOf(s.fetched)) == multiset(s.collected);
    MentionsUnordered(refs, TextsOf(s.fetched), s.collected, ref);
    assert CountKept(refs, s, ref);
  }

  lemma NothingUnderWay(n: nat, s: State)
    requires Orderly(n, s) && s.collectorDone && n >= 1
    ensures s.queue == [] && s.narinfos == [] && forall w :: 0 <= w < n ==> s.workers[w].Gone?
  {
    GoneAtMost(s.workers);
    assert s.workers[0].Gone?;
  }

  /** Main result: nobody sends on a closed channel or closes one twice. */
  lemma NeverPanics(refs: Refs, items: seq<Item>, n: nat, events: seq<Event>, e: Event)
    requires n >= 1 && IsRun(refs, Start(items, n), events)
    requires Enabled(After(refs, Start(items, n), events), e)
    ensures !Panics(After(refs, Start(items, n), events), e)
    ensures var s := After(refs, Start(items, n), events);
      && (e.Send? || e.CloseNarinfos? ==> s.narinfosClosed == 0)
      && (e.Leave? || e.CloseDownloaders? ==> s.downloadersClosed == 0)
      && !e.SeesClosed?
  {
    Starts(refs, items, n);
    RunKeepsInv(refs, items, n, Start(items, n), events);
    var s := After(refs, Start(items, n), events);
    StepKeepsInv(refs, items, n, s, e);
    assert Orderly(n, s);
    hide After, IsRun, Apply;
  }

  lemma {:induction false} FewWait(refs: Refs, items: seq<Item>, n: nat, s: State, events: seq<Event>)
    requires Inv(refs, items, n, s) && IsRun(refs, s, events) && |s.narinfos| <= 50
    ensures |After(refs, s, events).narinfos| <= 50
    decreases |events|
  {
    if events != [] {
      StepKeepsInv(refs, items, n, s, events[0]);
      assert |Apply(refs, s, events[0]).narinfos| <= 50;
      hide Inv, Apply, Enabled;
      FewWait(refs, items, n, Apply(refs, s, events[0]), events[1..]);
    }
  }

  /** Never more than 50 texts wait, and a worker that holds one goes on exactly if fewer do. */
  lemma AtMostFiftyWait(refs: Refs, items: seq<Item>, n: nat, events: seq<Event>, w: nat)
    requires n >= 1 && IsRun(refs, Start(items, n), events)
    ensures var s := After(refs, Start(items, n), events);
      && |s.narinfos| <= 50
      && (w < |s.workers| && s.workers[w].Holding? ==> (Enabled(s, Send(w)) <==> |s.narinfos| < 50))
  {
    Starts(refs, items, n);
    FewWait(refs, items, n, Start(items, n), events);
    var s := After(refs, Start(items, n), events);
    if w < |s.workers| && s.workers[w].Holding? && Enabled(s, Send(w)) {
      NeverPanics(refs, items, n, events, Send(w));
    }
    hide After, IsRun;
  }

  /** Main result: every run ends. */
  lemma EveryRunEnds(refs: Refs, items: seq<Item>, n: nat, events: seq<Event>)
    requires n >= 1 && IsRun(refs, Start(items, n), events)
    ensures |events| <= 4 * |items| + 3 * n + 4
  {
    Starts(refs, items, n);
    RunKeepsInv(refs, items, n, Start(items, n), events);
  }

  lemma WorkerGoesOn(n: nat, s: State, w: nat)
    requires Orderly(n, s) && w < n && !s.workers[w].Gone? && s.narinfos == []
    ensures exists e :: Enabled(s, e)
  {
    GoneAtMost(s.workers);
    assert s.tokens < n;
    hide Sum;
    match s.workers[w] {
      case Ready => assert Enabled(s, if s.queue == [] then Stop(w) else Take(w));
      case Busy(_) => assert Enabled(s, FetchFails(w));
      case Holding(_) => assert Enabled(s, Send(w));
      case Leaving => assert Enabled(s, Leave(w));
    }
  }

  /** Main result: until the collector has ended, something can go on — if there is a worker
      at all. */
  lemma GoesOn(refs: Refs, items: seq<Item>, n: nat, events: seq<Event>)
    requires IsRun(refs, Start(items, n), events)
    requires !After(refs, Start(items, n), events).collectorDone
    ensures (exists e :: Enabled(After(refs, Start(items, n), events), e)) <==> n >= 1
  {
    if n == 0 {
      StuckWithoutWorkers(refs, items, events);
    } else {
      Starts(refs, items, n);
      RunKeepsInv(refs, items, n, Start(items, n), events);
      var s := After(refs, Start(items, n), events);
      hide After, IsRun;
      if s.narinfos != [] {
        assert Enabled(s, Collect);
      } else if w: nat :| w < n && !s.workers[w].Gone? {
        WorkerGoesOn(n, s, w);
      } else {
        GoneAtMost(s.workers);
        assert Enabled(s, match s.finaliser case Receiving => Receive case ClosingDownloaders => CloseDownloaders
                          case ClosingNarinfos => CloseNarinfos case Finished => CollectorEnds);
      }
    }
  }

  lemma StuckWithoutWorkers(refs: Refs, items: seq<Item>, events: seq<Event>)
    requires IsRun(refs, Start(items, 0), events)
    ensures events == [] && forall e :: !Enabled(Start(items, 0), e)
  {}
}
