/**
 What compaction and sweeps mean for the descriptors in the poll set, for one sweep and for every
 run of sweeps of cpt_app/server/src/cpt_chat_server.c.
 */
module PollLaws {
  import opened PollSet

  // ---- Compaction ----

  /** Compaction keeps every live descriptor, in order: the one in slot k moves to the slot whose
      number is the count of live descriptors before k. */
  lemma {:induction false} LiveInOrder(fds: seq<int>, k: nat)
    requires k < |fds| && fds[k] != TOMBSTONE
    ensures |Live(fds[..k])| < |Live(fds)| && Live(fds)[|Live(fds[..k])|] == fds[k]
  {
    var n := |fds| - 1;
    if k < n {
      LiveInOrder(fds[..n], k);
      assert fds[..n][..k] == fds[..k];
    }
  }

  lemma {:induction false} LiveCounts(fds: seq<int>)
    ensures multiset(Live(fds)) == multiset(fds)[TOMBSTONE := 0]
  {
    if fds != [] {
      LiveCounts(fds[..|fds| - 1]);
      assert fds == fds[..|fds| - 1] + [fds[|fds| - 1]];
    }
  }

  // ---- One sweep ----

  /** The slot of d is passed with an event, and its connection ends. */
  ghost predicate ClosedIn(fds: seq<int>, input: SweepInput, d: int)
    requires |fds| == |input.ready| == |input.closes|
  {
    exists k: nat :: k < StopAt(input.ready, 0) && Closing(input, k) && fds[k] == d
  }

  /** A slot is passed exactly when every word up to its own is empty or contains the bit 0x0001,
      whatever other bits it contains. */
  lemma {:induction false} StopsFirst(ready: seq<EventWord>, i: nat, k: nat)
    requires i <= k < |ready|
    ensures k < StopAt(ready, i) <==> forall j :: i <= j <= k ==> ready[j] == 0 || ready[j] & 0x0001 == 0x0001
    decreases |ready| - i
  {
    InputBit(ready[i]);
    if (ready[i] == 0 || PollIn(ready[i])) && i < k {
      StopsFirst(ready, i + 1, k);
    }
  }

  lemma InputBit(word: EventWord)
    ensures PollIn(word) <==> word & 0x0001 == 0x0001
  {
  }

  /** Input passes, alone or with a hang-up; a hang-up alone does not, nor does any word without the
      input bit. */
  lemma WordsThatPass(word: EventWord)
    ensures PollIn(0x0001) && PollIn(0x0011) && PollIn(word | 0x0001)
    ensures !PollIn(0x0010) && !PollIn(word & 0xFFFE)
    ensures POLLIN == 0x0001 && POLLIN | POLLHUP == 0x0011
  {
  }

  /** Words that are empty or contain input: the whole poll set is swept. Every ready connection is
      served, the descriptors that stay are the ones not closed, and the accepted ones come last. */
  lemma {:induction false} PlainSweep(fds: seq<int>, input: SweepInput, listenFd: int)
    requires Packed(fds, listenFd) && Acceptable(fds, input)
    requires forall k :: 0 <= k < |fds| ==> input.ready[k] == 0 || input.ready[k] & 0x0001 == 0x0001
    ensures StopAt(input.ready, 0) == |fds|
    ensures forall d :: d in Served(fds, input, |fds|) <==> exists k :: 0 < k < |fds| && input.ready[k] != 0 && fds[k] == d
    ensures forall d :: d in Swept(fds, input) <==>
                        || (exists k :: 0 <= k < |fds| && fds[k] == d && (k == 0 || input.ready[k] == 0 || !input.closes[k]))
                        || (input.ready[0] != 0 && d in input.accepts)
    ensures input.ready[0] != 0 ==> input.accepts == Suffix(Swept(fds, input), |input.accepts|)
  {
    StopsFirst(input.ready, 0, |fds| - 1);
    ServedOnce(fds, input, |fds|);
    var stop := StopAt(input.ready, 0);
    forall d
      ensures d in Swept(fds, input) <==>
              || (exists k :: 0 <= k < |fds| && fds[k] == d && (k == 0 || input.ready[k] == 0 || !input.closes[k]))
              || (input.ready[0] != 0 && d in input.accepts)
    {
      SweptMembers(fds, input, listenFd, d);
      if k :| 0 <= k < |fds| && fds[k] == d {
        assert forall j :: 0 <= j < |fds| && fds[j] == d ==> j == k;
        assert ClosedIn(fds, input, d) <==> Closing(input, k);
      }
    }
  }

  /** A connection arrives, another one sends a request and hangs up. */
  const SAMPLE := SweepInput([0x0001, 0x0011], [9], [false, true])

  lemma SampleStop()
    ensures StopAt(SAMPLE.ready, 0) == 2
  {
    StopsFirst(SAMPLE.ready, 0, 1);
  }

  lemma SampleServed()
    ensures Served([3, 7], SAMPLE, 2) == [7]
  {
    assert Served([3, 7], SAMPLE, 1) == [];
  }

  lemma SampleLive()
    ensures Live([3, TOMBSTONE]) == [3]
  {
    LiveOfLive([3]);
    LiveSnoc([3], TOMBSTONE);
    assert [3] + [TOMBSTONE] == [3, TOMBSTONE];
  }

  lemma SampleSweep()
    ensures Packed([3, 7], 3) && Acceptable([3, 7], SAMPLE)
    ensures Served([3, 7], SAMPLE, StopAt(SAMPLE.ready, 0)) == [7] && Swept([3, 7], SAMPLE) == [3, 9]
  {
    SampleStop();
    SampleServed();
    SampleLive();
    assert Marked([3, 7], SAMPLE, 2) == [3, TOMBSTONE];
  }

  function Suffix(s: seq<int>, n: nat): seq<int> {
    if n <= |s| then s[|s| - n..] else s
  }

  /** The first word that is not empty and lacks input ends the sweep: no slot from there on is
      served or closed. */
  lemma {:induction false} BrokenSweep(fds: seq<int>, input: SweepInput, listenFd: int, b: nat)
    requires Packed(fds, listenFd) && Acceptable(fds, input) && b < |fds|
    requires input.ready[b] != 0 && input.ready[b] & 0x0001 == 0
    requires forall k :: 0 <= k < b ==> input.ready[k] == 0 || input.ready[k] & 0x0001 == 0x0001
    ensures StopAt(input.ready, 0) == b < |input.ready|
    ensures forall k :: b <= k < |fds| ==> fds[k] in Swept(fds, input) && fds[k] !in Served(fds, input, b)
  {
    if b > 0 {
      StopsFirst(input.ready, 0, b - 1);
    }
    StopsFirst(input.ready, 0, b);
    ServedOnce(fds, input, b);
    forall k | b <= k < |fds|
      ensures fds[k] in Swept(fds, input)
    {
      SweptMembers(fds, input, listenFd, fds[k]);
    }
  }

  /** What stays: the descriptors the sweep does not close. What is new: the ones it accepts. */
  lemma SweptMembers(fds: seq<int>, input: SweepInput, listenFd: int, d: int)
    requires Packed(fds, listenFd) && Acceptable(fds, input)
    ensures d in Swept(fds, input) <==>
            (d in fds && !ClosedIn(fds, input, d)) || d in Accepted(input, StopAt(input.ready, 0))
  {
    var stop := StopAt(input.ready, 0);
    var marked := Marked(fds, input, stop);
    LiveIs(marked);
    if d in fds {
      var k :| 0 <= k < |fds| && fds[k] == d;
      assert marked[k] == d || marked[k] == TOMBSTONE;
    }
  }

  /** Exactly the ready descriptors before the stopping slot are served; each of them once, and
      none that this sweep accepts. */
  lemma {:induction false} ServedOnce(fds: seq<int>, input: SweepInput, i: nat)
    requires |fds| == |input.ready| && i <= |fds| && DistinctFds(fds)
    requires forall k :: 0 <= k < |fds| ==> fds[k] != TOMBSTONE
    ensures forall d :: d in Served(fds, input, i) <==>
                        exists k :: 0 < k < i && input.ready[k] != 0 && fds[k] == d
    ensures DistinctFds(Served(fds, input, i))
    ensures (forall d :: d in input.accepts ==> d !in fds)
            ==> forall d :: d in input.accepts ==> d !in Served(fds, input, i)
  {
    if i > 1 {
      ServedOnce(fds, input, i - 1);
      var before := Served(fds, input, i - 1);
      assert fds[i - 1] !in before;
      assert forall k :: 0 <= k < |before| ==> before[k] in before;
    }
  }

  /** The number of connections a sweep ends. */
  function Closed(input: SweepInput, i: nat): nat
    requires i <= |input.ready| == |input.closes|
  {
    if i == 0 then 0 else Closed(input, i - 1) + if Closing(input, i - 1) then 1 else 0
  }

  lemma {:induction false} MarkedCount(fds: seq<int>, input: SweepInput, i: nat, n: nat)
    requires |fds| == |input.ready| == |input.closes| && i <= |fds| && n <= |fds|
    requires forall k :: 0 <= k < |fds| ==> fds[k] != TOMBSTONE
    ensures |Live(Marked(fds, input, i)[..n])| == n - Closed(input, if i < n then i else n)
  {
    if n > 0 {
      MarkedCount(fds, input, i, n - 1);
      var part := Marked(fds, input, i)[..n];
      assert part[..n - 1] == Marked(fds, input, i)[..n - 1];
    }
  }

  /** Every slot is accounted for: the new count is the old one less the closed, plus the new. */
  lemma SweptCount(fds: seq<int>, input: SweepInput, listenFd: int)
    requires Packed(fds, listenFd) && Acceptable(fds, input)
    ensures var stop := StopAt(input.ready, 0);
            |Swept(fds, input)| == |fds| - Closed(input, stop) + |Accepted(input, stop)|
  {
    var stop := StopAt(input.ready, 0);
    MarkedCount(fds, input, stop, |fds|);
    var marked := Marked(fds, input, stop);
    assert marked[..|fds|] == marked;
  }

  // ---- Runs of sweeps ----

  function After(listenFd: int, run: seq<SweepInput>): (fds: seq<int>)
    requires Legal(listenFd, run)
    ensures Packed(fds, listenFd)
    decreases run, 1
  {
    if run == [] then [listenFd]
    else
      var fds := After(listenFd, run[..|run| - 1]);
      SweptPacked(fds, run[|run| - 1], listenFd);
      Swept(fds, run[|run| - 1])
  }

  /** The kernel keeps its promises in every sweep, and capacity is never exceeded. */
  ghost predicate Legal(listenFd: int, run: seq<SweepInput>)
    decreases run, 0
  {
    listenFd != TOMBSTONE
    && (run == [] || (Legal(listenFd, run[..|run| - 1])
                      && Acceptable(After(listenFd, run[..|run| - 1]), run[|run| - 1])))
  }

  lemma {:induction false} LegalPrefix(listenFd: int, run: seq<SweepInput>, t: nat)
    requires Legal(listenFd, run) && t <= |run|
    ensures Legal(listenFd, run[..t])
  {
    if t < |run| {
      LegalPrefix(listenFd, run[..|run| - 1], t);
      assert run[..|run| - 1][..t] == run[..t];
    } else {
      assert run[..t] == run;
    }
  }

  ghost predicate AcceptedAt(run: seq<SweepInput>, t: nat, d: int)
    requires t < |run|
  {
    d in Accepted(run[t], StopAt(run[t].ready, 0))
  }

  ghost predicate ClosedAt(listenFd: int, run: seq<SweepInput>, t: nat, d: int)
    requires Legal(listenFd, run) && t < |run|
  {
    LegalPrefix(listenFd, run, t);
    LegalPrefix(listenFd, run, t + 1);
    assert run[..t + 1][..t] == run[..t];
    ClosedIn(After(listenFd, run[..t]), run[t], d)
  }

  /** d was accepted in sweep t and no later sweep closed it. */
  ghost predicate OpenSince(listenFd: int, run: seq<SweepInput>, t: nat, d: int)
    requires Legal(listenFd, run)
  {
    && t < |run| && AcceptedAt(run, t, d)
    && forall u: nat :: t < u < |run| ==> !ClosedAt(listenFd, run, u, d)
  }

  lemma ClosedAtPrefix(listenFd: int, run: seq<SweepInput>, u: nat, d: int)
    requires u + 1 < |run| && Legal(listenFd, run) && Legal(listenFd, run[..|run| - 1])
    ensures ClosedAt(listenFd, run[..|run| - 1], u, d) == ClosedAt(listenFd, run, u, d)
  {
    assert run[..|run| - 1][..u] == run[..u];
  }

  lemma {:induction false} OpenSinceStep(listenFd: int, run: seq<SweepInput>, t: nat, d: int)
    requires Legal(listenFd, run) && t + 1 < |run|
    ensures OpenSince(listenFd, run, t, d) <==>
            OpenSince(listenFd, run[..|run| - 1], t, d) && !ClosedAt(listenFd, run, |run| - 1, d)
  {
    var front := run[..|run| - 1];
    forall u: nat | u < |front|
      ensures ClosedAt(listenFd, front, u, d) == ClosedAt(listenFd, run, u, d)
    {
      ClosedAtPrefix(listenFd, run, u, d);
    }
  }

  /** Some sweep accepted d and none has closed it since. */
  ghost predicate Open(listenFd: int, run: seq<SweepInput>, d: int)
    requires Legal(listenFd, run)
  {
    exists t: nat :: OpenSince(listenFd, run, t, d)
  }

  lemma {:induction false} OpenAtEnd(listenFd: int, run: seq<SweepInput>, d: int)
    requires Legal(listenFd, run) && run != []
    ensures Open(listenFd, run, d) <==>
            || AcceptedAt(run, |run| - 1, d)
            || (!ClosedAt(listenFd, run, |run| - 1, d) && Open(listenFd, run[..|run| - 1], d))
  {
    var last := |run| - 1;
    assert AcceptedAt(run, last, d) <==> OpenSince(listenFd, run, last, d);
    forall t: nat | t < last
      ensures OpenSince(listenFd, run, t, d) <==>
              OpenSince(listenFd, run[..last], t, d) && !ClosedAt(listenFd, run, last, d)
    {
      OpenSinceStep(listenFd, run, t, d);
    }
  }

  /** Over every run, a descriptor other than the listening one is polled exactly when some sweep
      accepted it and none has closed it since. */
  lemma {:induction false} PolledIff(listenFd: int, run: seq<SweepInput>, d: int)
    requires Legal(listenFd, run) && d != listenFd
    ensures d in After(listenFd, run) <==> Open(listenFd, run, d)
  {
    if run != [] {
      var last := |run| - 1;
      PolledIff(listenFd, run[..last], d);
      SweptMembers(After(listenFd, run[..last]), run[last], listenFd, d);
      OpenAtEnd(listenFd, run, d);
    }
  }

  /** A request is received only on a connection that an earlier sweep accepted and that has not
      been closed since; in particular not in the sweep that accepts it. */
  lemma ServedWasAccepted(listenFd: int, run: seq<SweepInput>, input: SweepInput, d: int)
    requires Legal(listenFd, run) && Acceptable(After(listenFd, run), input)
    requires d in Served(After(listenFd, run), input, StopAt(input.ready, 0))
    ensures exists t: nat :: OpenSince(listenFd, run, t, d)
    ensures d !in input.accepts
  {
    var fds := After(listenFd, run);
    ServedOnce(fds, input, StopAt(input.ready, 0));
    PolledIff(listenFd, run, d);
  }

  function TotalClosed(run: seq<SweepInput>): int
    requires forall t :: 0 <= t < |run| ==> |run[t].ready| == |run[t].closes|
  {
    if run == [] then 0
    else TotalClosed(run[..|run| - 1]) + Closed(run[|run| - 1], StopAt(run[|run| - 1].ready, 0))
  }

  function TotalAccepted(run: seq<SweepInput>): int {
    if run == [] then 0
    else TotalAccepted(run[..|run| - 1]) + |Accepted(run[|run| - 1], StopAt(run[|run| - 1].ready, 0))|
  }

  /** Connections are conserved over every run: accepted, less closed, are the ones polled. */
  lemma {:induction false} RunCount(listenFd: int, run: seq<SweepInput>)
    requires Legal(listenFd, run)
    ensures forall t :: 0 <= t < |run| ==> |run[t].ready| == |run[t].closes|
    ensures |After(listenFd, run)| == 1 + TotalAccepted(run) - TotalClosed(run)
  {
    if run != [] {
      var front := run[..|run| - 1];
      RunCount(listenFd, front);
      assert forall t :: 0 <= t < |front| ==> front[t] == run[t];
      SweptCount(After(listenFd, front), run[|run| - 1], listenFd);
    }
  }
}
