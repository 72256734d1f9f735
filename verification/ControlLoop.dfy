// Informer, work queue and workers in every interleaving: one worker per key, no
// lost wake-up, and quiescence that means reconciled.
module ControlLoop {
  import opened Options
  import opened Json
  import opened WorkQueue

  /**
   * Where a worker is. `InHand` is between the two halves of `next`; a reconcile
   * reads the cache once, which takes `Working` to `Observed`; `Closing` has
   * acted on the outcome and is about to call `done`.
   */
  datatype Phase =
    | Idle
    | InHand(key: string)
    | Working(key: string)
    | Observed(key: string)
    | Closing(key: string)

  /** How `reconcile_key` ended. A conflict is retried like any other failure. */
  datatype Outcome = Success | NotFoundOrExists | Conflicted | Failure

  /**
   * `pending` are the handler calls the informer still owes for the cache change
   * it made last; `timers` are the delayed adds; `lastRead` is what the latest
   * reconcile of a key found in the cache.
   */
  datatype System = System(
    cache: map<string, Value>,
    pending: seq<string>,
    queue: Queue,
    workers: seq<Phase>,
    timers: multiset<string>,
    lastRead: map<string, Option<Value>>)

  datatype Action =
    | CacheEvent(key: string, value: Option<Value>)
    | Relist(items: map<string, Value>, order: seq<string>)
    | Handle
    | OtherAdd(key: string)
    | Receive(w: nat)
    | Take(w: nat)
    | Observe(w: nat)
    | Resync(w: nat)
    | Conclude(w: nat, outcome: Outcome)
    | Finish(w: nat)
    | Fire(key: string)
    | Abort(w: nat)

  /** The cache key `reconcile_key` looks a queue key up by. */
  function LookupKey(key: string): string {
    if '/' in key then key else "default/" + key
  }

  /** Set or remove one entry, as `apply_event` does. */
  function Changed(cache: map<string, Value>, key: string, value: Option<Value>): map<string, Value> {
    if value.Some? then cache[key := value.value] else cache - {key}
  }

  predicate At(s: System, w: nat) {
    w < |s.workers|
  }

  predicate Runs(p: Phase, key: string) {
    (p.Working? || p.Observed? || p.Closing?) && p.key == key
  }

  ghost predicate Step(s: System, a: Action, s': System) {
    match a
    case CacheEvent(key, value) =>
      s.pending == [] && s' == s.(cache := Changed(s.cache, key, value), pending := [key])
    case Relist(items, order) =>
      // replace_all first, then one call per listed and per removed key
      && s.pending == [] && (forall k :: k in order <==> k in items || k in s.cache)
      && s' == s.(cache := items, pending := order)
    case Handle =>
      s.pending != [] && s' == s.(queue := s.queue.Add(s.pending[0]), pending := s.pending[1..])
    case OtherAdd(key) => s' == s.(queue := s.queue.Add(key))
    case Receive(w) =>
      && At(s, w) && s.workers[w].Idle? && s.queue.channel != []
      && s' == s.(queue := s.queue.Receive(), workers := s.workers[w := InHand(s.queue.channel[0])])
    case Take(w) =>
      && At(s, w) && s.workers[w].InHand?
      && s' == s.(queue := s.queue.Take(s.workers[w].key), workers := s.workers[w := Working(s.workers[w].key)])
    case Observe(w) =>
      && At(s, w) && s.workers[w].Working?
      && var k := s.workers[w].key;
         s' == s.(workers := s.workers[w := Observed(k)], lastRead := s.lastRead[k := Lookup(s.cache, LookupKey(k))])
    case Resync(w) =>
      // a reconcile asks to be run again later
      && At(s, w) && s.workers[w].Observed? && s' == s.(timers := s.timers + multiset{s.workers[w].key})
    case Conclude(w, outcome) =>
      && At(s, w) && s.workers[w].Observed?
      && var k := s.workers[w].key;
         var closing := s.(workers := s.workers[w := Closing(k)]);
         (match outcome
          case Success => s' == closing.(queue := s.queue.Forget(k))
          case NotFoundOrExists => s' == closing
          case Conflicted => s' == closing.(queue := s.queue.NoteFailure(k), timers := s.timers + multiset{k})
          case Failure => s' == closing.(queue := s.queue.NoteFailure(k), timers := s.timers + multiset{k}))
    case Finish(w) =>
      && At(s, w) && s.workers[w].Closing?
      && s' == s.(workers := s.workers[w := Idle], queue := s.queue.Done(s.workers[w].key))
    case Fire(key) =>
      key in s.timers && s' == s.(timers := s.timers - multiset{key}, queue := s.queue.Add(key))
    case Abort(w) =>
      // the worker is replaced; the queue, which outlives it, still has the key as processing
      && At(s, w) && (s.workers[w].Working? || s.workers[w].Observed? || s.workers[w].Closing?)
      && s' == s.(workers := s.workers[w := Idle])
  }

  ghost predicate Init(s: System) {
    && s.cache == map[] && s.pending == [] && s.queue == EMPTY_QUEUE && s.timers == multiset{} && s.lastRead == map[]
    && forall w :: 0 <= w < |s.workers| ==> s.workers[w].Idle?
  }

  /** The first `n` steps of `run` are steps of the system. */
  ghost predicate RunTo(run: nat -> System, acts: nat -> Action, n: nat) {
    Init(run(0)) && forall i: nat :: i < n ==> Step(run(i), acts(i), run(i + 1))
  }

  // --- What every step keeps -------------------------------------------------------------

  ghost predicate InHandBy(s: System, w: nat, key: string) {
    At(s, w) && s.workers[w] == InHand(key)
  }

  ghost predicate RunBy(s: System, w: nat, key: string) {
    At(s, w) && Runs(s.workers[w], key)
  }

  ghost predicate Sent(s: System, key: string) {
    key in s.queue.channel || exists w :: InHandBy(s, w, key)
  }

  ghost predicate UnreadBy(s: System, w: nat, key: string) {
    At(s, w) && s.workers[w] == Working(key)
  }

  /** A key that is processing with no worker on it: its worker was aborted. */
  ghost predicate Leaked(s: System, key: string) {
    key in s.queue.processing && forall w :: !RunBy(s, w, key)
  }

  predicate NoRepeats(keys: seq<string>) {
    forall i, j :: 0 <= i < j < |keys| ==> keys[i] != keys[j]
  }

  /** Each key is sent exactly once when it is dirty and not processing, and not at all otherwise. */
  ghost predicate QueueInv(s: System) {
    && NoRepeats(s.queue.channel)
    && (forall k :: Sent(s, k) <==> k in s.queue.dirty && k !in s.queue.processing)
    && (forall w, k :: InHandBy(s, w, k) ==> k !in s.queue.channel)
    && (forall v, w, k :: InHandBy(s, v, k) && InHandBy(s, w, k) ==> v == w)
    && (forall w, k :: RunBy(s, w, k) ==> k in s.queue.processing)
    && (forall v, w, k :: RunBy(s, v, k) && RunBy(s, w, k) ==> v == w)
  }

  /** The last reconcile of `key` read what the cache holds now; never reconciled means not cached. */
  predicate Matches(s: System, key: string) {
    (if key in s.lastRead then s.lastRead[key] else None) == Lookup(s.cache, key)
  }

  /** A key whose last read is stale has something left to happen to it. */
  ghost predicate Covered(s: System, key: string) {
    || key in s.pending || key in s.queue.dirty || Leaked(s, key) || Matches(s, key)
    || exists w :: UnreadBy(s, w, key)
  }

  ghost predicate Inv(s: System) {
    QueueInv(s) && forall k :: '/' in k ==> Covered(s, k)
  }

  /** Steps that leave the queue's keys alone and no worker's hand or run different. */
  lemma QuietKeeps(s: System, s': System)
    requires QueueInv(s)
    requires s'.queue.channel == s.queue.channel && s'.queue.dirty == s.queue.dirty
    requires s'.queue.processing == s.queue.processing
    requires forall w: nat, k :: InHandBy(s', w, k) <==> InHandBy(s, w, k)
    requires forall w: nat, k :: RunBy(s', w, k) ==> RunBy(s, w, k)
    ensures QueueInv(s')
  {
  }

  lemma AddKeeps(s: System, s': System, key: string)
    requires QueueInv(s) && s'.workers == s.workers && s'.queue == s.queue.Add(key)
    ensures QueueInv(s')
  {
    SameWorkers(s, s');
    var added := s.queue.channel + [key];
    assert key in s.queue.channel ==> Sent(s, key);
    forall k ensures Sent(s', k) <==> k in s'.queue.dirty && k !in s'.queue.processing {
      assert Sent(s, k) <==> k in s.queue.dirty && k !in s.queue.processing;
      if s'.queue.channel == added {
        assert k in added <==> k in s.queue.channel || k == key;
      }
    }
    forall w: nat, k | InHandBy(s', w, k) ensures k !in s'.queue.channel {
      assert InHandBy(s, w, k) && Sent(s, k);
    }
  }

  lemma SameWorkers(s: System, s': System)
    requires s'.workers == s.workers
    ensures forall w: nat, k :: InHandBy(s', w, k) <==> InHandBy(s, w, k)
    ensures forall w: nat, k :: RunBy(s', w, k) <==> RunBy(s, w, k)
    ensures forall w: nat, k :: UnreadBy(s', w, k) <==> UnreadBy(s, w, k)
  {
  }

  lemma OneWorker(s: System, s': System, w: nat)
    requires At(s, w) && |s'.workers| == |s.workers| && s'.workers == s.workers[w := s'.workers[w]]
    ensures forall v: nat, k :: v != w ==> (InHandBy(s', v, k) <==> InHandBy(s, v, k))
    ensures forall v: nat, k :: v != w ==> (RunBy(s', v, k) <==> RunBy(s, v, k))
    ensures forall v: nat, k :: v != w ==> (UnreadBy(s', v, k) <==> UnreadBy(s, v, k))
  {
  }

  lemma ReceiveKeeps(s: System, w: nat, s': System)
    requires QueueInv(s) && Step(s, Receive(w), s')
    ensures QueueInv(s')
  {
    OneWorker(s, s', w);
    var key := s.queue.channel[0];
    assert s.queue.channel == [key] + s'.queue.channel;
    assert InHandBy(s', w, key);
    forall k ensures Sent(s', k) <==> Sent(s, k) {
      if v: nat :| InHandBy(s, v, k) { assert InHandBy(s', v, k); }
      if v: nat :| InHandBy(s', v, k) { assert v != w ==> InHandBy(s, v, k); }
    }
    forall v: nat, k | InHandBy(s', v, k) ensures k !in s'.queue.channel {
      if v != w { assert InHandBy(s, v, k); }
    }
  }

  lemma TakeKeeps(s: System, w: nat, s': System)
    requires QueueInv(s) && Step(s, Take(w), s')
    ensures QueueInv(s') && s.workers[w].key !in s.queue.processing
  {
    OneWorker(s, s', w);
    var key := s.workers[w].key;
    assert InHandBy(s, w, key) && Sent(s, key);
    forall k ensures Sent(s', k) <==> Sent(s, k) && k != key {
      if v: nat :| InHandBy(s, v, k) { assert v != w ==> InHandBy(s', v, k); }
      if v: nat :| InHandBy(s', v, k) { assert InHandBy(s, v, k); }
    }
  }

  lemma FinishKeeps(s: System, w: nat, s': System)
    requires QueueInv(s) && Step(s, Finish(w), s')
    ensures QueueInv(s')
  {
    OneWorker(s, s', w);
    var key := s.workers[w].key;
    assert RunBy(s, w, key);
    assert !Sent(s, key);
    assert forall v: nat, k :: InHandBy(s', v, k) <==> InHandBy(s, v, k);
    forall k ensures Sent(s', k) <==> Sent(s, k) || (k == key && key in s.queue.dirty) {
      if v: nat :| InHandBy(s, v, k) { assert InHandBy(s', v, k); }
    }
    forall v: nat, k | InHandBy(s', v, k) ensures k !in s'.queue.channel {
      assert InHandBy(s, v, k) && Sent(s, k);
    }
  }

  lemma QueueInvStep(s: System, a: Action, s': System)
    requires QueueInv(s) && Step(s, a, s')
    ensures QueueInv(s')
  {
    hide QueueInv;
    match a {
      case CacheEvent(_, _) => SameWorkers(s, s'); QuietKeeps(s, s');
      case Relist(_, _) => SameWorkers(s, s'); QuietKeeps(s, s');
      case Resync(_) => SameWorkers(s, s'); QuietKeeps(s, s');
      case Handle => AddKeeps(s, s', s.pending[0]);
      case OtherAdd(key) => AddKeeps(s, s', key);
      case Fire(key) => AddKeeps(s, s', key);
      case Receive(w) => ReceiveKeeps(s, w, s');
      case Take(w) => TakeKeeps(s, w, s');
      case Finish(w) => FinishKeeps(s, w, s');
      case Observe(w) => OneWorker(s, s', w); QuietKeeps(s, s');
      case Conclude(w, _) => OneWorker(s, s', w); QuietKeeps(s, s');
      case Abort(w) => OneWorker(s, s', w); QuietKeeps(s, s');
    }
  }

  lemma CoveredStep(s: System, a: Action, s': System, key: string)
    requires QueueInv(s) && Step(s, a, s') && '/' in key && Covered(s, key)
    ensures Covered(s', key)
  {
    match a {
      case CacheEvent(k, _) => SameWorkers(s, s');
      case Relist(_, _) => SameWorkers(s, s');
      case Handle =>
        SameWorkers(s, s');
        assert s.pending == [s.pending[0]] + s.pending[1..];
      case OtherAdd(_) => SameWorkers(s, s');
      case Fire(_) => SameWorkers(s, s');
      case Resync(_) => SameWorkers(s, s');
      case _ => CoveredByWorker(s, a, s', key);
    }
  }

  /** The worker's own steps: only `Take` clears a dirty mark, and it leaves an unread key behind. */
  lemma CoveredByWorker(s: System, a: Action, s': System, key: string)
    requires QueueInv(s) && Step(s, a, s') && '/' in key && Covered(s, key)
    requires a.Receive? || a.Take? || a.Observe? || a.Conclude? || a.Finish? || a.Abort?
    ensures Covered(s', key)
  {
    OneWorker(s, s', a.w);
    if a.Take? && s.workers[a.w].key == key {
      assert UnreadBy(s', a.w, key);
    } else if Leaked(s, key) {
      LeakedStays(s, a, s', key);
    } else if v: nat :| UnreadBy(s, v, key) {
      if v != a.w {
        assert UnreadBy(s', v, key);
      } else if a.Abort? {
        assert RunBy(s, v, key);
        forall u: nat ensures !RunBy(s', u, key) { assert RunBy(s', u, key) ==> RunBy(s, u, key); }
      }
    }
  }

  /** A leaked key is never sent, so it stays leaked. */
  lemma LeakedStays(s: System, a: Action, s': System, key: string)
    requires QueueInv(s) && Step(s, a, s') && Leaked(s, key)
    ensures Leaked(s', key)
  {
    assert !Sent(s, key);
    forall v: nat ensures !RunBy(s', v, key) {
      assert !RunBy(s, v, key) && !InHandBy(s, v, key);
    }
    if a.Finish? {
      assert RunBy(s, a.w, s.workers[a.w].key);
    }
  }

  lemma {:induction false} RunInv(run: nat -> System, acts: nat -> Action, n: nat)
    requires RunTo(run, acts, n)
    ensures Inv(run(n))
  {
    if n > 0 {
      RunInv(run, acts, n - 1);
      assert Step(run(n - 1), acts(n - 1), run(n));
      QueueInvStep(run(n - 1), acts(n - 1), run(n));
      forall k | '/' in k ensures Covered(run(n), k) {
        CoveredStep(run(n - 1), acts(n - 1), run(n), k);
      }
    }
  }

  // --- One worker per key ------------------------------------------------------------------

  /** How many times `key` is on its way to a worker: in the channel or in a hand. */
  ghost function Deliveries(s: System, key: string): nat {
    |set i: nat | i < |s.queue.channel| && s.queue.channel[i] == key|
    + |set w: nat | w < |s.workers| && InHandBy(s, w, key)|
  }

  lemma AtMostOne(xs: set<nat>)
    requires forall x, y :: x in xs && y in xs ==> x == y
    ensures |xs| == if xs == {} then 0 else 1
  {
    if x :| x in xs {
      assert xs == {x};
    }
  }

  /**
   * In every reachable state a key is on its way to a worker exactly once when
   * it is dirty and not processing and not at all otherwise, and no two workers
   * run it; so `next` never hands out a key that is being processed.
   */
  lemma AtMostOneWorker(run: nat -> System, acts: nat -> Action, n: nat, key: string, v: nat, w: nat)
    requires RunTo(run, acts, n)
    ensures
      var q := run(n).queue;
      Deliveries(run(n), key) == if key in q.dirty && key !in q.processing then 1 else 0
    ensures RunBy(run(n), v, key) && RunBy(run(n), w, key) ==> v == w
    ensures InHandBy(run(n), v, key) ==> key !in run(n).queue.processing && !RunBy(run(n), w, key)
  {
    RunInv(run, acts, n);
    var s := run(n);
    var queued := set i: nat | i < |s.queue.channel| && s.queue.channel[i] == key;
    var held := set u: nat | u < |s.workers| && InHandBy(s, u, key);
    AtMostOne(queued);
    AtMostOne(held);
    assert queued != {} <==> key in s.queue.channel by {
      if i :| 0 <= i < |s.queue.channel| && s.queue.channel[i] == key { assert i in queued; }
    }
    assert held != {} <==> exists u: nat :: InHandBy(s, u, key) by {
      if u: nat :| InHandBy(s, u, key) { assert u in held; }
    }
    assert Sent(s, key) <==> queued != {} || held != {};
    assert InHandBy(s, v, key) ==> Sent(s, key);
  }

  // --- Quiescence means reconciled -----------------------------------------------------------

  /** Nothing is left to happen to `key`: no owed handler call, not dirty, not processing. */
  predicate Quiescent(s: System, key: string) {
    key !in s.pending && key !in s.queue.dirty && key !in s.queue.processing
  }

  /**
   * In every interleaving, a quiescent key's last reconcile read exactly the
   * value the cache holds now, and a key never reconciled is not in the cache.
   */
  lemma QuiescentIsReconciled(run: nat -> System, acts: nat -> Action, n: nat, key: string)
    requires RunTo(run, acts, n) && '/' in key && Quiescent(run(n), key)
    ensures Matches(run(n), key)
  {
    RunInv(run, acts, n);
    var s := run(n);
    assert Covered(s, key);
    assert forall w: nat :: UnreadBy(s, w, key) ==> RunBy(s, w, key);
  }

  /**
   * A key without a namespace is looked up as `default/key`, so its reconcile
   * sees its cache entry exactly when the two entries agree.
   */
  lemma BareKeyReadsDefault(s: System, w: nat, s': System)
    requires Step(s, Observe(w), s') && '/' !in s.workers[w].key
    ensures
      var k := s.workers[w].key;
      Matches(s', k) <==> Lookup(s.cache, "default/" + k) == Lookup(s.cache, k)
  {
  }

  // --- No lost wake-up --------------------------------------------------------------------------

  /** Nothing but handing a key out clears its dirty mark. */
  lemma {:induction false} DirtyUntilTaken(run: nat -> System, acts: nat -> Action, m: nat, n: nat, key: string)
    requires RunTo(run, acts, n) && m <= n && key in run(m).queue.dirty
    requires forall i: nat :: m <= i < n ==> !Takes(run(i), acts(i), key)
    ensures key in run(n).queue.dirty
    decreases n
  {
    hide Step, Takes;
    if m < n {
      DirtyUntilTaken(run, acts, m, n - 1, key);
      assert Step(run(n - 1), acts(n - 1), run(n));
      DirtyStep(run(n - 1), acts(n - 1), run(n), key);
    }
  }

  lemma DirtyStep(s: System, a: Action, s': System, key: string)
    requires Step(s, a, s') && key in s.queue.dirty && !Takes(s, a, key)
    ensures key in s'.queue.dirty
  {
  }

  /** The step in which a worker starts processing `key`. */
  ghost predicate Takes(s: System, a: Action, key: string) {
    a.Take? && InHandBy(s, a.w, key)
  }

  ghost predicate Receives(s: System, a: Action, key: string) {
    a.Receive? && s.queue.channel != [] && s.queue.channel[0] == key
  }

  /** The number of `recv`s among the steps from `m` up to `n`. */
  ghost function Receipts(acts: nat -> Action, m: nat, n: nat): nat
    decreases n
  {
    if n <= m then 0 else Receipts(acts, m, n - 1) + if acts(n - 1).Receive? then 1 else 0
  }

  /**
   * The channel is first in, first out: until it is received itself, a key
   * moves up by exactly one place per receipt, whatever else is added.
   */
  lemma {:induction false} PositionCountsDown(run: nat -> System, acts: nat -> Action, m: nat, n: nat, key: string,
          p: nat)
    requires RunTo(run, acts, n) && m <= n
    requires p < |run(m).queue.channel| && run(m).queue.channel[p] == key
    requires forall i: nat :: m <= i < n ==> !Receives(run(i), acts(i), key)
    ensures
      var at := p - Receipts(acts, m, n);
      0 <= at < |run(n).queue.channel| && run(n).queue.channel[at] == key
    decreases n
  {
    hide Step;
    if m < n {
      PositionCountsDown(run, acts, m, n - 1, key, p);
      assert Step(run(n - 1), acts(n - 1), run(n));
      PositionStep(run(n - 1), acts(n - 1), run(n), key, p - Receipts(acts, m, n - 1));
    }
  }

  lemma PositionStep(s: System, a: Action, s': System, key: string, at: nat)
    requires Step(s, a, s') && at < |s.queue.channel| && s.queue.channel[at] == key && !Receives(s, a, key)
    ensures
      var at' := if a.Receive? then at - 1 else at;
      0 <= at' < |s'.queue.channel| && s'.queue.channel[at'] == key
  {
  }

  /** Every worker is scheduled again and again, unless it is idle with nothing to receive. */
  ghost predicate Fair(run: nat -> System, acts: nat -> Action) {
    forall w: nat, n: nat :: At(run(n), w) ==> exists m: nat :: n <= m && Scheduled(run(m), acts(m), w)
  }

  ghost predicate Scheduled(s: System, a: Action, w: nat) {
    Moves(a, w) || (At(s, w) && s.workers[w].Idle? && s.queue.channel == [])
  }

  predicate Moves(a: Action, w: nat) {
    (a.Receive? || a.Take? || a.Observe? || a.Conclude? || a.Finish? || a.Abort?) && a.w == w
  }

  ghost predicate Forever(run: nat -> System, acts: nat -> Action) {
    Init(run(0)) && forall n: nat :: Step(run(n), acts(n), run(n + 1))
  }

  lemma ForeverStep(run: nat -> System, acts: nat -> Action, n: nat)
    requires Forever(run, acts)
    ensures Step(run(n), acts(n), run(n + 1))
  {
  }

  lemma {:induction false} ForeverInv(run: nat -> System, acts: nat -> Action, n: nat)
    requires Forever(run, acts)
    ensures Inv(run(n)) && |run(n).workers| == |run(0).workers|
  {
    RunInv(run, acts, n);
    if n > 0 {
      ForeverInv(run, acts, n - 1);
      assert Step(run(n - 1), acts(n - 1), run(n));
    }
  }

  /** What a worker does before it receives again. */
  function Distance(p: Phase): nat {
    match p
    case Idle => 0
    case Closing(_) => 1
    case Observed(_) => 2
    case Working(_) => 3
    case InHand(_) => 4
  }

  lemma WorkerStays(s: System, a: Action, s': System, w: nat)
    requires Step(s, a, s') && At(s, w)
    ensures At(s', w)
    ensures !Moves(a, w) ==> s'.workers[w] == s.workers[w]
    ensures Moves(a, w) && !s.workers[w].Idle? ==> Distance(s'.workers[w]) < Distance(s.workers[w])
    ensures Moves(a, w) && s.workers[w].Idle? ==> a.Receive?
  {
  }

  /** The next move of a worker that has one coming. */
  lemma NextMove(run: nat -> System, acts: nat -> Action, n: nat, w: nat) returns (m: nat)
    requires Forever(run, acts) && Fair(run, acts) && At(run(n), w)
    ensures n <= m && Scheduled(run(m), acts(m), w) && At(run(m), w)
    ensures run(m).workers[w] == run(n).workers[w]
    ensures forall i: nat :: n <= i < m ==> !Moves(acts(i), w)
  {
    hide Scheduled, Forever, Moves;
    var far: nat :| n <= far && Scheduled(run(far), acts(far), w);
    m := NextMoveBy(run, acts, n, far, w);
  }

  lemma {:induction false} NextMoveBy(run: nat -> System, acts: nat -> Action, n: nat, far: nat, w: nat)
    returns (m: nat)
    requires Forever(run, acts) && At(run(n), w) && n <= far && Scheduled(run(far), acts(far), w)
    ensures n <= m && Scheduled(run(m), acts(m), w) && At(run(m), w)
    ensures run(m).workers[w] == run(n).workers[w]
    ensures forall i: nat :: n <= i < m ==> !Moves(acts(i), w)
    decreases far - n
  {
    hide Step, Forever, Moves;
    if n == far {
      m := n;
    } else if Moves(acts(n), w) {
      m := n;
    } else {
      ForeverStep(run, acts, n);
      WorkerStays(run(n), acts(n), run(n + 1), w);
      m := NextMoveBy(run, acts, n + 1, far, w);
    }
  }

  lemma ForeverTo(run: nat -> System, acts: nat -> Action, n: nat)
    requires Forever(run, acts)
    ensures RunTo(run, acts, n)
  {
  }

  /** A key in the channel is received: worker 0 keeps coming back for one more. */
  lemma {:induction false} EventuallyReceived(run: nat -> System, acts: nat -> Action, n: nat, key: string, p: nat)
    returns (m: nat)
    requires Forever(run, acts) && Fair(run, acts) && At(run(n), 0)
    requires p < |run(n).queue.channel| && run(n).queue.channel[p] == key
    ensures n <= m && Receives(run(m), acts(m), key)
    decreases p, Distance(run(n).workers[0])
  {
    hide Step, Fair;
    var next := NextMove(run, acts, n, 0);
    if i: nat :| n <= i < next && Receives(run(i), acts(i), key) {
      return i;
    }
    ForeverTo(run, acts, next);
    PositionCountsDown(run, acts, n, next, key, p);
    var at := p - Receipts(acts, n, next);
    assert Step(run(next), acts(next), run(next + 1));
    WorkerStays(run(next), acts(next), run(next + 1), 0);
    if Receives(run(next), acts(next), key) {
      return next;
    }
    PositionStep(run(next), acts(next), run(next + 1), key, at);
    m := EventuallyReceived(run, acts, next + 1, key, if acts(next).Receive? then at - 1 else at);
  }

  lemma HandIsTaken(run: nat -> System, acts: nat -> Action, n: nat, key: string, w: nat) returns (m: nat)
    requires Forever(run, acts) && Fair(run, acts) && InHandBy(run(n), w, key)
    ensures n <= m && Takes(run(m), acts(m), key)
  {
    m := NextMove(run, acts, n, w);
    assert Step(run(m), acts(m), run(m + 1));
  }

  /** A worker that is never aborted on `key` finishes it, and sends it if it is still dirty. */
  lemma {:induction false} EventuallyFinished(run: nat -> System, acts: nat -> Action, n: nat, key: string, w: nat)
    returns (m: nat)
    requires Forever(run, acts) && Fair(run, acts) && RunBy(run(n), w, key) && key in run(n).queue.dirty
    requires forall i: nat :: n <= i ==> !Leaked(run(i), key) && !Takes(run(i), acts(i), key)
    ensures n <= m && key in run(m).queue.channel
    decreases Distance(run(n).workers[w])
  {
    hide Fair, Forever, Takes;
    var next := NextMove(run, acts, n, w);
    ForeverTo(run, acts, next + 1);
    DirtyUntilTaken(run, acts, n, next, key);
    DirtyUntilTaken(run, acts, n, next + 1, key);
    ForeverStep(run, acts, next);
    RunInv(run, acts, next);
    if acts(next).Finish? {
      m := next + 1;
    } else if acts(next).Abort? {
      AbortLeaks(run(next), w, run(next + 1), key);
      assert false;
    } else {
      m := EventuallyFinished(run, acts, next + 1, key, w);
    }
  }

  /** Aborting a worker mid-reconcile leaks its key. */
  lemma AbortLeaks(s: System, w: nat, s': System, key: string)
    requires QueueInv(s) && Step(s, Abort(w), s') && RunBy(s, w, key)
    ensures Leaked(s', key)
  {
    OneWorker(s, s', w);
    forall v: nat ensures !RunBy(s', v, key) { assert v != w ==> (RunBy(s', v, key) <==> RunBy(s, v, key)); }
  }

  /** Nothing else leaks a key. */
  lemma OnlyAbortLeaks(s: System, a: Action, s': System, key: string)
    requires QueueInv(s) && Step(s, a, s') && !Leaked(s, key) && Leaked(s', key)
    ensures a.Abort? && RunBy(s, a.w, key)
  {
    if key in s.queue.processing {
      var v: nat :| RunBy(s, v, key);
      assert !RunBy(s', v, key);
    } else {
      assert a.Take?;
      assert RunBy(s', a.w, key);
    }
  }

  /** A leaked key is never handed out again: the queue outlives the aborted worker. */
  lemma {:induction false} LeakedForever(run: nat -> System, acts: nat -> Action, m: nat, n: nat, key: string)
    requires Forever(run, acts) && m <= n && Leaked(run(m), key)
    ensures Leaked(run(n), key) && !Takes(run(n), acts(n), key)
    decreases n
  {
    hide Step, Forever, Leaked, Takes, QueueInv;
    ForeverTo(run, acts, n);
    RunInv(run, acts, n);
    if m < n {
      LeakedForever(run, acts, m, n - 1, key);
      ForeverStep(run, acts, n - 1);
      RunInv(run, acts, n - 1);
      LeakedStays(run(n - 1), acts(n - 1), run(n), key);
    }
    LeakedIsNotTaken(run(n), acts(n), key);
  }

  lemma LeakedIsNotTaken(s: System, a: Action, key: string)
    requires QueueInv(s) && Leaked(s, key)
    ensures !Takes(s, a, key)
  {
  }

  /** A key that is on its way to a worker is taken. */
  lemma SentIsTaken(run: nat -> System, acts: nat -> Action, n: nat, key: string) returns (m: nat)
    requires Forever(run, acts) && Fair(run, acts) && At(run(n), 0) && Sent(run(n), key)
    ensures n <= m && Takes(run(m), acts(m), key)
  {
    hide Forever, Fair, Takes;
    if key in run(n).queue.channel {
      var p: nat :| p < |run(n).queue.channel| && run(n).queue.channel[p] == key;
      var got := EventuallyReceived(run, acts, n, key, p);
      ForeverStep(run, acts, got);
      m := HandIsTaken(run, acts, got + 1, key, acts(got).w);
    } else {
      var w: nat :| InHandBy(run(n), w, key);
      m := HandIsTaken(run, acts, n, key, w);
    }
  }

  function LeakActions(key: string): nat -> Action {
    n => if n == 0 then OtherAdd(key) else if n == 1 then Receive(0) else if n == 2 then Take(0) else Abort(0)
  }

  /** Such a state is four steps away from the start: add, receive, take, abort. */
  lemma LeakIsReachable(key: string) returns (run: nat -> System)
    ensures RunTo(run, LeakActions(key), 4) && Leaked(run(4), key)
  {
    var s0 := System(map[], [], EMPTY_QUEUE, [Idle], multiset{}, map[]);
    var s1 := s0.(queue := s0.queue.Add(key));
    var s2 := s1.(queue := s1.queue.Receive(), workers := [InHand(key)]);
    var s3 := s2.(queue := s2.queue.Take(key), workers := [Working(key)]);
    var s4 := s3.(workers := [Idle]);
    run := n => if n == 0 then s0 else if n == 1 then s1 else if n == 2 then s2 else if n == 3 then s3 else s4;
    assert s1.workers[0 := InHand(key)] == [InHand(key)] && s2.workers[0 := Working(key)] == [Working(key)];
    assert s3.workers[0 := Idle] == [Idle];
  }

  lemma NeverLeakedIsTaken(run: nat -> System, acts: nat -> Action, n: nat, key: string) returns (m: nat)
    requires Forever(run, acts) && Fair(run, acts) && At(run(n), 0) && key in run(n).queue.dirty
    requires forall i: nat :: n <= i ==> !Leaked(run(i), key)
    ensures n <= m && Takes(run(m), acts(m), key)
  {
    hide Forever, Fair, Takes;
    ForeverInv(run, acts, n);
    if key !in run(n).queue.processing {
      m := SentIsTaken(run, acts, n, key);
    } else if i: nat :| n <= i && Takes(run(i), acts(i), key) {
      m := i;
    } else {
      assert !Leaked(run(n), key);
      var w: nat :| RunBy(run(n), w, key);
      var at := EventuallyFinished(run, acts, n, key, w);
      ForeverInv(run, acts, at);
      m := SentIsTaken(run, acts, at, key);
    }
  }

  /**
   * No lost wake-up, and exactly when one is lost: under fair scheduling a
   * dirty key is eventually handed to a worker, unless before that a worker is
   * aborted on it.
   */
  lemma NoLostWakeup(run: nat -> System, acts: nat -> Action, n: nat, key: string)
    requires Forever(run, acts) && Fair(run, acts) && At(run(n), 0) && key in run(n).queue.dirty
    ensures (exists m: nat :: n <= m && Takes(run(m), acts(m), key))
       <==> forall l: nat :: n <= l && Leaked(run(l), key) ==>
         exists i: nat :: n <= i < l && Takes(run(i), acts(i), key)
  {
    if forall i: nat :: n <= i ==> !Takes(run(i), acts(i), key) {
      if forall l: nat :: n <= l ==> !Leaked(run(l), key) {
        var m := NeverLeakedIsTaken(run, acts, n, key);
      }
    } else {
      forall l: nat | n <= l && Leaked(run(l), key)
        ensures exists i: nat :: n <= i < l && Takes(run(i), acts(i), key)
      {
        var m: nat :| n <= m && Takes(run(m), acts(m), key);
        if l <= m {
          LeakedForever(run, acts, l, m, key);
        }
      }
    }
  }

  // --- Retries ------------------------------------------------------------------------------------------

  /** Every timer goes off. */
  ghost predicate FairTimers(run: nat -> System, acts: nat -> Action) {
    forall n: nat, key :: key in run(n).timers ==> exists m: nat :: n <= m && acts(m) == Fire(key)
  }

  /**
   * Under fair scheduling a key whose round ended in a conflict or a failure is
   * handed to a worker again, unless before that a worker is aborted on it.
   */
  lemma FailedIsRetried(run: nat -> System, acts: nat -> Action, n: nat, w: nat, outcome: Outcome, key: string)
    requires Forever(run, acts) && Fair(run, acts) && FairTimers(run, acts) && At(run(n), 0)
    requires acts(n) == Conclude(w, outcome) && RunBy(run(n), w, key) && outcome in {Conflicted, Failure}
    ensures (exists m: nat :: n < m && Takes(run(m), acts(m), key))
       <==> forall l: nat :: n < l && Leaked(run(l), key) ==>
         exists i: nat :: n < i < l && Takes(run(i), acts(i), key)
  {
    hide Fair, Takes, Leaked;
    ForeverStep(run, acts, n);
    assert key in run(n + 1).timers;
    if forall i: nat :: n < i ==> !Takes(run(i), acts(i), key) {
      if forall l: nat :: n < l ==> !Leaked(run(l), key) {
        var m := RetryIsTaken(run, acts, n + 1, key);
      }
    } else {
      forall l: nat | n < l && Leaked(run(l), key)
        ensures exists i: nat :: n < i < l && Takes(run(i), acts(i), key)
      {
        var m: nat :| n < m && Takes(run(m), acts(m), key);
        if l <= m {
          LeakedForever(run, acts, l, m, key);
        }
      }
    }
  }

  /** A timer goes off, its key is dirty then, and is taken. */
  lemma RetryIsTaken(run: nat -> System, acts: nat -> Action, n: nat, key: string) returns (m: nat)
    requires Forever(run, acts) && Fair(run, acts) && FairTimers(run, acts) && At(run(n), 0)
    requires key in run(n).timers && forall l: nat :: n <= l ==> !Leaked(run(l), key)
    ensures n <= m && Takes(run(m), acts(m), key)
  {
    hide Fair, Takes, Leaked;
    var fired: nat :| n <= fired && acts(fired) == Fire(key);
    ForeverStep(run, acts, fired);
    ForeverInv(run, acts, n);
    ForeverInv(run, acts, fired + 1);
    assert key in run(fired + 1).queue.dirty;
    m := NeverLeakedIsTaken(run, acts, fired + 1, key);
  }

  /** What a step does to a count of failures: one more for a conflict or a failure, none after a success. */
  function CountAfter(s: System, a: Action, key: string, count: nat): nat {
    if !a.Conclude? || !At(s, a.w) || !Runs(s.workers[a.w], key) then count else
      match a.outcome
      case Success => 0
      case NotFoundOrExists => count
      case Conflicted => count + 1
      case Failure => count + 1
  }

  ghost function FailuresSince(run: nat -> System, acts: nat -> Action, n: nat, key: string): nat {
    if n == 0 then 0 else CountAfter(run(n - 1), acts(n - 1), key, FailuresSince(run, acts, n - 1, key))
  }

  /** In every run the queue counts exactly the failures of a key since its last success. */
  lemma {:induction false} CountsFailures(run: nat -> System, acts: nat -> Action, n: nat, key: string)
    requires RunTo(run, acts, n)
    ensures run(n).queue.FailureCount(key) == FailuresSince(run, acts, n, key)
  {
    if n > 0 {
      hide Step, CountAfter;
      CountsFailures(run, acts, n - 1, key);
      assert Step(run(n - 1), acts(n - 1), run(n));
      CountStep(run(n - 1), acts(n - 1), run(n), key);
    }
  }

  lemma CountStep(s: System, a: Action, s': System, key: string)
    requires Step(s, a, s')
    ensures s'.queue.FailureCount(key) == CountAfter(s, a, key, s.queue.FailureCount(key))
  {
  }
}
