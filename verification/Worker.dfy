// One round of a worker: take a key, reconcile it, classify the outcome, give
// the key back. With nobody in between it is a run of control-loop steps.
module Worker {
  import opened Options
  import opened Json
  import opened WorkQueue
  import opened ControlLoop

  /** What one round does to a queue that has something to receive. */
  function Served(q: Queue, o: Outcome): Queue
    requires q.channel != []
  {
    var key := q.channel[0];
    var taken := q.Receive().Take(key);
    match o
    case Success => taken.Forget(key).Done(key)
    case NotFoundOrExists => taken.Done(key)
    case Conflicted => taken.NoteFailure(key).Done(key)
    case Failure => taken.NoteFailure(key).Done(key)
  }

  /**
   * The body of the worker's loop; `delay` is when the key is to be added
   * again, which is after a conflict or a failure and then only: the wait of
   * `Backoff` for one failure more than before.
   */
  method ServeOne(queue: SharedQueue, o: Outcome) returns (key: Option<string>, delay: Option<nat>)
    modifies queue
    ensures old(queue.channel) == [] ==> key == None && delay == None && queue.State() == old(queue.State())
    ensures old(queue.channel) != [] ==>
      && key == Some(old(queue.channel)[0]) && queue.State() == Served(old(queue.State()), o)
    ensures old(queue.channel) != [] && o in {Conflicted, Failure} ==>
      delay == Some(Backoff(old(queue.State()).FailureCount(old(queue.channel)[0]) + 1))
    ensures o in {Success, NotFoundOrExists} ==> delay == None
  {
    delay := None;
    key := queue.Next();
    if key.None? { return; }
    match o {
      case Success =>
        queue.Forget(key.value);
      case NotFoundOrExists =>
      case Conflicted =>
        var d := queue.AddRateLimited(key.value);
        delay := Some(d);
      case Failure =>
        var d := queue.AddRateLimited(key.value);
        delay := Some(d);
    }
    queue.Done(key.value);
  }

  /**
   * What a round leaves of the queue, member by member: the oldest key is gone
   * from the channel, neither dirty nor processing; its count of failures goes
   * up by one, is cleared, or stays; and nothing changes for any other key.
   */
  lemma ServedIs(q: Queue, o: Outcome)
    requires q.channel != []
    ensures
      var key, q' := q.channel[0], Served(q, o);
      && q'.channel == q.channel[1..] && q'.dirty == q.dirty - {key} && q'.processing == q.processing - {key}
      && q'.FailureCount(key) ==
         (match o
          case Success => 0
          case NotFoundOrExists => q.FailureCount(key)
          case Conflicted => q.FailureCount(key) + 1
          case Failure => q.FailureCount(key) + 1)
      && forall k :: k != key ==> q'.FailureCount(k) == q.FailureCount(k)
  {
  }

  /** The steps of one round of worker `w`. */
  function RoundOf(w: nat, o: Outcome): seq<Action> {
    [Receive(w), Take(w), Observe(w), Conclude(w, o), Finish(w)]
  }

  ghost predicate Steps(states: seq<System>, acts: seq<Action>) {
    |states| == |acts| + 1 && forall i :: 0 <= i < |acts| ==> Step(states[i], acts[i], states[i + 1])
  }

  /**
   * An undisturbed round is what its steps add up to: the queue is as `Served`
   * says, the worker is idle again, the reconcile read the cache as it is, and
   * the key is on a timer exactly if the outcome is a conflict or a failure.
   */
  lemma RoundIsServed(states: seq<System>, w: nat, o: Outcome)
    requires Steps(states, RoundOf(w, o))
    ensures states[0].queue.channel != []
    ensures
      var s, s' := states[0], states[5];
      var key := s.queue.channel[0];
      && s'.queue == Served(s.queue, o)
      && s'.workers == s.workers && s'.cache == s.cache && s'.pending == s.pending
      && s'.lastRead == s.lastRead[key := Lookup(s.cache, LookupKey(key))]
      && s'.timers == s.timers + if o in {Conflicted, Failure} then multiset{key} else multiset{}
  {
    var acts := RoundOf(w, o);
    assert acts[0] == Receive(w) && acts[1] == Take(w) && acts[2] == Observe(w);
    assert Step(states[0], acts[0], states[1]) && Step(states[1], acts[1], states[2]) &&
      Step(states[2], acts[2], states[3]);
    Observing(states[0], states[1], states[2], states[3], w);
    assert acts[3] == Conclude(w, o) && acts[4] == Finish(w);
    assert Step(states[3], acts[3], states[4]) && Step(states[4], acts[4], states[5]);
    Concluding(states[3], states[4], states[5], w, o);
  }

  lemma Observing(s0: System, s1: System, s2: System, s3: System, w: nat)
    requires Step(s0, Receive(w), s1) && Step(s1, Take(w), s2) && Step(s2, Observe(w), s3)
    ensures s0.queue.channel != [] && At(s0, w) && s0.workers[w].Idle?
    ensures
      var key := s0.queue.channel[0];
      s3 == s0.(queue := s0.queue.Receive().Take(key), workers := s0.workers[w := Observed(key)],
                lastRead := s0.lastRead[key := Lookup(s0.cache, LookupKey(key))])
  {
  }

  lemma Concluding(s3: System, s4: System, s5: System, w: nat, o: Outcome)
    requires Step(s3, Conclude(w, o), s4) && Step(s4, Finish(w), s5)
    ensures At(s3, w) && s3.workers[w].Observed?
    ensures
      var key, q := s3.workers[w].key, s3.queue;
      && s5 == s3.(workers := s3.workers[w := Idle], timers := s5.timers, queue := s5.queue)
      && s5.timers == s3.timers + (if o in {Conflicted, Failure} then multiset{key} else multiset{})
      && s5.queue ==
         (match o
          case Success => q.Forget(key).Done(key)
          case NotFoundOrExists => q.Done(key)
          case Conflicted => q.NoteFailure(key).Done(key)
          case Failure => q.NoteFailure(key).Done(key))
  {
  }

  /** Delays start at 5 ms and double with every failure, up to the seventh; from the eighth on they are a second. */
  lemma BackoffGrows(failures: nat)
    ensures Backoff(0) == 5 && (failures < 7 ==> Backoff(failures + 1) == 2 * Backoff(failures))
    ensures Backoff(failures) <= Backoff(failures + 1) <= 1000 && (Backoff(failures) == 1000 <==> failures >= 8)
  {
  }
}
