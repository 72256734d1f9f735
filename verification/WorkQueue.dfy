// The deduplicating work queue: what each operation does, and the shared object
// whose methods do it in place.
module WorkQueue {
  import opened Options

  datatype Queue = Queue(
    channel: seq<string>,
    dirty: set<string>,
    processing: set<string>,
    failures: map<string, nat>)
  {
    /** Enqueue unless already dirty; a key in processing is only marked, `Done` sends it. */
    function Add(key: string): Queue {
      if key in dirty then this else
      if key in processing then this.(dirty := dirty + {key})
      else this.(dirty := dirty + {key}, channel := channel + [key])
    }

    /** The first half of `next`: take the oldest key off the channel. */
    function Receive(): Queue
      requires channel != []
    {
      this.(channel := channel[1..])
    }

    /** The second half of `next`: the received key moves from dirty to processing. */
    function Take(key: string): Queue {
      this.(dirty := dirty - {key}, processing := processing + {key})
    }

    /** Finish a key; it is sent again if it was added meanwhile. */
    function Done(key: string): Queue {
      this.(channel := if key in dirty then channel + [key] else channel, processing := processing - {key})
    }

    function FailureCount(key: string): nat {
      if key in failures then failures[key] else 0
    }

    function NoteFailure(key: string): Queue {
      this.(failures := failures[key := FailureCount(key) + 1])
    }

    function Forget(key: string): Queue {
      this.(failures := failures - {key})
    }
  }

  /** `backoff_for`: 5 ms doubled per failure, at most eight times and at most 1000 ms. */
  function Backoff(failures: nat): nat {
    var doubled := 5 * Pow2(if failures < 8 then failures else 8);
    if doubled < 1000 then doubled else 1000
  }

  function Pow2(n: nat): nat {
    if n == 0 then 1 else 2 * Pow2(n - 1)
  }

  const EMPTY_QUEUE := Queue([], {}, {}, map[])

  class SharedQueue {
    var channel: seq<string>
    var dirty: set<string>
    var processing: set<string>
    var failures: map<string, nat>

    function State(): Queue
      reads this
    {
      Queue(channel, dirty, processing, failures)
    }

    constructor ()
      ensures State() == EMPTY_QUEUE
    {
      channel, dirty, processing, failures := [], {}, {}, map[];
    }

    method Add(key: string)
      modifies this`channel, this`dirty
      ensures State() == old(State()).Add(key)
    {
      if key in dirty { return; }
      if key in processing {
        dirty := dirty + {key};
        return;
      }
      dirty := dirty + {key};
      channel := channel + [key];
    }

    /** Both halves of `next`, with nobody in between; `None` stands for an empty channel. */
    method Next() returns (key: Option<string>)
      modifies this`channel, this`dirty, this`processing
      ensures old(channel) == [] ==> key == None && State() == old(State())
      ensures old(channel) != [] ==>
        key == Some(old(channel)[0]) && State() == old(State()).Receive().Take(old(channel)[0])
    {
      if channel == [] { return None; }
      var k := channel[0];
      channel := channel[1..];
      dirty := dirty - {k};
      processing := processing + {k};
      key := Some(k);
    }

    method Done(key: string)
      modifies this`channel, this`processing
      ensures State() == old(State()).Done(key)
    {
      if key in dirty {
        channel := channel + [key];
      }
      processing := processing - {key};
    }

    method NoteFailure(key: string) returns (n: nat)
      modifies this`failures
      ensures State() == old(State()).NoteFailure(key)
      ensures n == old(State()).FailureCount(key) + 1
    {
      if key !in failures {
        failures := failures[key := 0];
      }
      failures := failures[key := failures[key] + 1];
      n := failures[key];
    }

    /** Count a failure; the key is to be added again after the delay returned. */
    method AddRateLimited(key: string) returns (delay: nat)
      modifies this`failures
      ensures State() == old(State()).NoteFailure(key)
      ensures delay == Backoff(old(State()).FailureCount(key) + 1)
    {
      var n := NoteFailure(key);
      delay := Backoff(n);
    }

    method Forget(key: string)
      modifies this`failures
      ensures State() == old(State()).Forget(key)
    {
      failures := failures - {key};
    }
  }
}
