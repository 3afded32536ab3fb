/** How the RDMA transport splits the granted I/O queues into default, read and poll queues, and
    maps them for the block layer (rdma.c). */
module QueueSplit {
  datatype Options = Options(ioQueues: nat, writeQueues: nat, pollQueues: nat)

  /** io_queues[]: the counts kept in the controller across reconnects. */
  datatype Counts = Counts(default_: nat, read: nat, poll: nat)

  datatype Range = Range(offset: nat, count: nat)

  datatype Maps = Maps(default_: Range, read: Range, poll: Range)

  function Min(a: nat, b: nat): nat {
    if a <= b then a else b
  }

  function ReadQueues(o: Options, vectors: nat, cpus: nat): nat {
    Min(vectors, Min(o.ioQueues, cpus))
  }

  function DefaultQueues(o: Options, vectors: nat, cpus: nat): nat {
    Min(vectors, Min(o.writeQueues, cpus))
  }

  function PollQueues(o: Options, cpus: nat): nat {
    Min(o.pollQueues, cpus)
  }

  function Requested(o: Options, vectors: nat, cpus: nat): nat {
    ReadQueues(o, vectors, cpus) + DefaultQueues(o, vectors, cpus) + PollQueues(o, cpus)
  }

  /** Dedicated read queues are handed out. */
  predicate Separate(o: Options, vectors: nat, cpus: nat, granted: nat) {
    o.writeQueues > 0 && ReadQueues(o, vectors, cpus) < granted
  }

  /** Queues left over once the default and read queues are handed out. */
  function Spare(o: Options, vectors: nat, cpus: nat, granted: nat): nat {
    var wanted := ReadQueues(o, vectors, cpus) + if Separate(o, vectors, cpus, granted) then DefaultQueues(o, vectors, cpus) else 0;
    if granted > wanted then granted - wanted else 0
  }

  class IoQueues {
    var counts: Counts
    var queueCount: nat
    /** The queues set up, by number; queue 0 is the admin queue. */
    var ready: set<nat>
    /** The tag set's maps. */
    var maps: Maps

    constructor ()
      ensures counts == Counts(0, 0, 0) && queueCount == 0 && ready == {} && maps == NO_MAPS
    {
      counts, queueCount, ready, maps := Counts(0, 0, 0), 0, {}, NO_MAPS;
    }

    /** Granted is what the controller accepted: 0 if it refused the command.  Failing are the queues
        that cannot be set up.  The counts stay changed when a queue fails. */
    method AllocIoQueues(o: Options, vectors: nat, cpus: nat, granted: nat, failing: set<nat>) returns (ok: bool)
      requires granted <= Requested(o, vectors, cpus)
      modifies this`counts, this`queueCount, this`ready
      ensures granted == 0 ==> !ok && unchanged(this)
      ensures granted > 0 ==> queueCount == granted + 1 && counts == Split(old(counts), o, vectors, cpus, granted)
      ensures granted > 0 ==> (ok <==> failing !! Numbers(granted + 1))
      ensures ok ==> ready == old(ready) + Numbers(granted + 1)
      ensures granted > 0 && !ok ==> exists k: nat :: FirstFailing(failing, k) && k <= granted && ready == old(ready) - Numbers(k)
    {
      var read := Min(vectors, Min(o.ioQueues, cpus));
      var default_ := Min(vectors, Min(o.writeQueues, cpus));
      var poll := Min(o.pollQueues, cpus);
      var left := granted;
      if left == 0 {
        return false;
      }
      queueCount := left + 1;
      if o.writeQueues > 0 && read < left {
        counts := counts.(read := read);
        left := left - counts.read;
        counts := counts.(default_ := Min(default_, left));
        left := left - counts.default_;
      } else {
        counts := counts.(default_ := Min(read, left));
        left := left - counts.default_;
      }
      if o.pollQueues > 0 && left > 0 {
        counts := counts.(poll := Min(poll, left));
      }
      ok := SetUpQueues(failing);
    }

    /** Set queues 1.. up in order; at the first that fails, take down those before it. */
    method SetUpQueues(failing: set<nat>) returns (ok: bool)
      requires queueCount > 0
      modifies this`ready
      ensures ok <==> failing !! Numbers(queueCount)
      ensures ok ==> ready == old(ready) + Numbers(queueCount)
      ensures !ok ==> exists k: nat :: FirstFailing(failing, k) && k < queueCount && ready == old(ready) - Numbers(k)
    {
      var i := 1;
      while i < queueCount
        invariant 1 <= i <= queueCount && failing !! Numbers(i) && ready == old(ready) + Numbers(i)
      {
        if i in failing {
          var down := i - 1;
          while down >= 1
            invariant 0 <= down < i
            invariant ready == old(ready) + Numbers(i) - (Numbers(i) - Numbers(down + 1))
            decreases down
          {
            ready := ready - {down};
            down := down - 1;
          }
          assert FirstFailing(failing, i);
          return false;
        }
        assert Numbers(i + 1) == Numbers(i) + {i};
        ready := ready + {i};
        i := i + 1;
      }
      return true;
    }

    /** A poll map that gets no queues is left as it was. */
    method MapQueues(o: Options)
      modifies this`maps
      ensures maps == Mapped(old(maps), counts, o)
    {
      maps := maps.(default_ := Range(0, counts.default_), read := Range(0, counts.default_));
      if o.writeQueues > 0 && counts.read > 0 {
        maps := maps.(read := Range(counts.default_, counts.read));
      }
      if o.pollQueues > 0 && counts.poll > 0 {
        maps := maps.(poll := Range(counts.default_ + counts.read, counts.poll));
      }
    }

    /** When every queue has one purpose, the polled queues are the last ones. */
    method IsPollQueue(idx: nat) returns (b: bool)
      ensures b <==> idx > counts.default_ + counts.read
      ensures queueCount == Total(counts) + 1 ==> (b <==> idx >= queueCount - counts.poll)
    {
      b := idx > counts.default_ + counts.read;
    }
  }

  const NO_MAPS: Maps := Maps(Range(0, 0), Range(0, 0), Range(0, 0))

  /** The I/O queues below n. */
  function Numbers(n: nat): (s: set<nat>)
    ensures forall q: nat :: q in s <==> 1 <= q < n
  {
    if n <= 1 then {} else Numbers(n - 1) + {n - 1}
  }

  /** The first queue that fails. */
  ghost predicate FirstFailing(failing: set<nat>, k: nat) {
    k >= 1 && k in failing && failing !! Numbers(k)
  }

  /** The new counts.  A count the call does not assign keeps its old value. */
  function Split(was: Counts, o: Options, vectors: nat, cpus: nat, granted: nat): Counts {
    var read, spare := ReadQueues(o, vectors, cpus), Spare(o, vectors, cpus, granted);
    var poll := if o.pollQueues > 0 && spare > 0 then Min(PollQueues(o, cpus), spare) else was.poll;
    if Separate(o, vectors, cpus, granted) then
      Counts(Min(DefaultQueues(o, vectors, cpus), granted - read), read, poll)
    else
      Counts(Min(read, granted), was.read, poll)
  }

  function Mapped(was: Maps, c: Counts, o: Options): Maps {
    Maps(Range(0, c.default_),
         if o.writeQueues > 0 && c.read > 0 then Range(c.default_, c.read) else Range(0, c.default_),
         if o.pollQueues > 0 && c.poll > 0 then Range(c.default_ + c.read, c.poll) else was.poll)
  }

  function Total(c: Counts): nat {
    c.default_ + c.read + c.poll
  }

  /** Every granted queue has exactly one purpose if and only if the counts the call leaves alone
      were zero: the read count when read and write share queues, the poll count when no queue is
      left for polling. */
  lemma SplitCoversIff(was: Counts, o: Options, vectors: nat, cpus: nat, granted: nat)
    requires 0 < granted <= Requested(o, vectors, cpus)
    ensures Total(Split(was, o, vectors, cpus, granted)) == granted <==>
            && (!Separate(o, vectors, cpus, granted) ==> was.read == 0)
            && (Spare(o, vectors, cpus, granted) == 0 ==> was.poll == 0)
  {
    PollTakesSpare(o, vectors, cpus, granted);
  }

  /** Which queues serve what.  When write queues are asked for and more is granted than the read
      queues need, the read queues come in full, writes get the next ones up to their number, and
      polling the rest; otherwise reads and writes share, and polling gets what they leave. */
  lemma SplitRoles(was: Counts, o: Options, vectors: nat, cpus: nat, granted: nat)
    requires 0 < granted <= Requested(o, vectors, cpus)
    ensures var c := Split(was, o, vectors, cpus, granted);
            var readers, writers := Min(vectors, Min(o.ioQueues, cpus)), Min(vectors, Min(o.writeQueues, cpus));
            if o.writeQueues > 0 && granted > readers then
              && c.read == readers && c.default_ == Min(writers, granted - readers)
              && (granted > readers + writers ==> c.poll == granted - readers - writers)
              && (granted <= readers + writers ==> c.poll == was.poll)
            else
              && c.read == was.read && c.default_ == Min(readers, granted)
              && (granted > readers ==> c.poll == granted - readers) && (granted <= readers ==> c.poll == was.poll)
  {
    PollTakesSpare(o, vectors, cpus, granted);
  }

  lemma PollTakesSpare(o: Options, vectors: nat, cpus: nat, granted: nat)
    requires granted <= Requested(o, vectors, cpus)
    ensures Spare(o, vectors, cpus, granted) <= PollQueues(o, cpus)
    ensures Spare(o, vectors, cpus, granted) > 0 ==> o.pollQueues > 0
  {
  }

  /** A controller that had poll queues and comes back with only as many queues as it reads with
      keeps the old poll count and claims more queues than it has. */
  lemma StalePollCount()
    ensures var o := Options(2, 0, 2);
            var first := Split(Counts(0, 0, 0), o, 8, 8, 4);
            var again := Split(first, o, 8, 8, 2);
            Total(first) == 4 && Total(again) == 4 != 2
  {
  }

  ghost predicate In(i: nat, r: Range) {
    r.offset <= i < r.offset + r.count
  }

  /** On a fresh controller the mapped ranges tile the granted queues: default comes first, read
      coincides with it or follows, poll is disjoint from both, each has its own count, and nothing
      is left out. */
  lemma FreshMapTiles(o: Options, vectors: nat, cpus: nat, granted: nat)
    requires 0 < granted <= Requested(o, vectors, cpus)
    ensures var c := Split(Counts(0, 0, 0), o, vectors, cpus, granted);
            var m := Mapped(NO_MAPS, c, o);
            && Total(c) == granted
            && (forall i: nat :: In(i, m.default_) || In(i, m.read) || In(i, m.poll) <==> i < granted)
            && (forall i: nat :: In(i, m.poll) ==> !In(i, m.default_) && !In(i, m.read))
            && (m.read == m.default_ || forall i: nat :: In(i, m.read) ==> !In(i, m.default_))
            && m.default_.offset == 0 && m.default_.count == c.default_ && m.poll.count == c.poll
            && (c.read > 0 ==> m.read.count == c.read)
  {
    SplitCoversIff(Counts(0, 0, 0), o, vectors, cpus, granted);
    PollTakesSpare(o, vectors, cpus, granted);
  }

  /** Of the queues 1..granted, exactly the last ones, as many as the poll count, are polled, and
      they are the ones mapped for polling. */
  lemma PollQueuesAreLast(o: Options, vectors: nat, cpus: nat, granted: nat, idx: nat)
    requires 0 < granted <= Requested(o, vectors, cpus) && 1 <= idx <= granted
    ensures var c := Split(Counts(0, 0, 0), o, vectors, cpus, granted);
            && (idx > c.default_ + c.read <==> idx > granted - c.poll)
            && (idx > c.default_ + c.read <==> In(idx - 1, Mapped(NO_MAPS, c, o).poll))
  {
    SplitCoversIff(Counts(0, 0, 0), o, vectors, cpus, granted);
    PollTakesSpare(o, vectors, cpus, granted);
  }
}
