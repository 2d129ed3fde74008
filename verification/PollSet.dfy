/**
 The poll set of cpt_app/server/src/cpt_chat_server.c: an array of pollfd records of which the
 first nfds are in use. Accepting appends, closing leaves a tombstone (-1), and compress_fds
 closes the gaps by moving descriptors - but not event masks - to the left.
 */
module PollSet {

  const MAX_SERVER_FDS := 2048
  /** The event bits of poll.h, and a word of such bits. */
  type EventWord = bv16
  const POLLIN: EventWord := 0x0001
  const POLLHUP: EventWord := 0x0010
  const TOMBSTONE := -1

  datatype PollFd = PollFd(fd: int, events: EventWord)

  // ---- Meaning of the array operations ----

  /** The descriptors other than tombstones, in order. */
  function Live(fds: seq<int>): (r: seq<int>)
    ensures |r| <= |fds|
  {
    if fds == [] then []
    else Live(fds[..|fds| - 1]) + if fds[|fds| - 1] == TOMBSTONE then [] else [fds[|fds| - 1]]
  }

  function FdsOf(slots: seq<PollFd>): (fds: seq<int>)
    ensures |fds| == |slots|
    ensures forall k :: 0 <= k < |slots| ==> fds[k] == slots[k].fd
  {
    seq(|slots|, k requires 0 <= k < |slots| => slots[k].fd)
  }

  lemma LiveSnoc(fds: seq<int>, fd: int)
    ensures Live(fds + [fd]) == Live(fds) + if fd == TOMBSTONE then [] else [fd]
  {
    assert (fds + [fd])[..|fds|] == fds;
  }

  lemma {:induction false} LiveAppend(a: seq<int>, b: seq<int>)
    ensures Live(a + b) == Live(a) + Live(b)
  {
    if b == [] {
      assert a + b == a;
    } else {
      var b' := b[..|b| - 1];
      assert a + b == (a + b') + [b[|b| - 1]] && b == b' + [b[|b| - 1]];
      LiveSnoc(a + b', b[|b| - 1]);
      LiveSnoc(b', b[|b| - 1]);
      LiveAppend(a, b');
    }
  }

  lemma {:induction false} LiveOfLive(fds: seq<int>)
    requires forall k :: 0 <= k < |fds| ==> fds[k] != TOMBSTONE
    ensures Live(fds) == fds
  {
    if fds != [] {
      LiveOfLive(fds[..|fds| - 1]);
    }
  }

  lemma {:induction false} LiveIs(fds: seq<int>)
    ensures forall x :: x in Live(fds) <==> x in fds && x != TOMBSTONE
  {
    if fds != [] {
      var front, last := fds[..|fds| - 1], fds[|fds| - 1];
      LiveIs(front);
      assert fds == front + [last];
    }
  }

  ghost predicate DistinctFds(fds: seq<int>) {
    forall i, j :: 0 <= i < j < |fds| && fds[i] != TOMBSTONE ==> fds[i] != fds[j]
  }

  lemma {:induction false} LiveDistinct(fds: seq<int>)
    requires DistinctFds(fds)
    ensures DistinctFds(Live(fds))
  {
    if fds != [] {
      var front, last := fds[..|fds| - 1], fds[|fds| - 1];
      LiveDistinct(front);
      LiveIs(front);
      var r := Live(front);
      if last != TOMBSTONE {
        assert last !in front && last !in r;
        assert forall k :: 0 <= k < |r| ==> r[k] in r;
      }
    }
  }

  lemma FdsDropped(before: seq<PollFd>, after: seq<PollFd>, i: nat, n: nat)
    requires i < n <= |before| == |after|
    requires forall k :: i <= k < n - 1 ==> after[k].fd == before[k + 1].fd
    requires forall k :: 0 <= k < i ==> after[k].fd == before[k].fd
    ensures FdsOf(after[..i]) == FdsOf(before[..i]) && FdsOf(after[i..n - 1]) == FdsOf(before[i + 1..n])
  {
  }

  /** One step of the compaction: the first descriptor of the rest is kept or dropped. */
  lemma LiveMoved(kept: seq<int>, rest: seq<int>)
    requires rest != []
    ensures kept + Live(rest) == Kept(kept, rest[0]) + Live(rest[1..])
  {
    assert rest == [rest[0]] + rest[1..];
    LiveAppend([rest[0]], rest[1..]);
    assert [rest[0]][..0] == [];
  }

  function Kept(kept: seq<int>, fd: int): seq<int> {
    if fd == TOMBSTONE then kept else kept + [fd]
  }

  // ---- One sweep over the poll set ----

  /** What one sweep is given: the events poll reported for each slot, the descriptors the accept
      loop obtains, and, for each slot, whether serving its request ends its connection. */
  datatype SweepInput = SweepInput(ready: seq<EventWord>, accepts: seq<int>, closes: seq<bool>)

  predicate PollIn(revents: EventWord) {
    revents & POLLIN != 0
  }

  /** The slot at which a sweep ends: the first one with an event that is not POLLIN. */
  function StopAt(ready: seq<EventWord>, i: nat): (stop: nat)
    requires i <= |ready|
    ensures i <= stop <= |ready|
    decreases |ready| - i
  {
    if i == |ready| || (ready[i] != 0 && !PollIn(ready[i])) then i else StopAt(ready, i + 1)
  }

  /** The accept loop runs when slot 0, the listening descriptor, is passed with an event. */
  function Accepted(input: SweepInput, i: nat): seq<int>
    requires i <= |input.ready|
  {
    if 0 < i && input.ready[0] != 0 then input.accepts else []
  }

  predicate Closing(input: SweepInput, k: nat)
    requires k < |input.ready| == |input.closes|
  {
    0 < k && input.ready[k] != 0 && input.closes[k]
  }

  ghost predicate NoneClosing(input: SweepInput, i: nat)
    requires i <= |input.ready| == |input.closes|
  {
    forall k: nat :: k < i ==> !Closing(input, k)
  }

  /** The old descriptors once slots below i are passed. */
  function Marked(fds: seq<int>, input: SweepInput, i: nat): (r: seq<int>)
    requires i <= |fds| == |input.ready| == |input.closes|
  {
    seq(|fds|, k requires 0 <= k < |fds| => if k < i && Closing(input, k) then TOMBSTONE else fds[k])
  }

  /** The descriptors whose request is received while slots below i are passed. */
  function Served(fds: seq<int>, input: SweepInput, i: nat): seq<int>
    requires i <= |fds| == |input.ready|
  {
    if i <= 1 then []
    else Served(fds, input, i - 1) + if input.ready[i - 1] != 0 then [fds[i - 1]] else []
  }

  function Swept(fds: seq<int>, input: SweepInput): seq<int>
    requires |fds| == |input.ready| == |input.closes|
  {
    var stop := StopAt(input.ready, 0);
    Live(Marked(fds, input, stop)) + Accepted(input, stop)
  }

  /** The poll set between sweeps: the listening descriptor first, no descriptor twice, no gaps. */
  ghost predicate Packed(fds: seq<int>, listenFd: int) {
    && 0 < |fds| < MAX_SERVER_FDS && fds[0] == listenFd && DistinctFds(fds)
    && forall k :: 0 <= k < |fds| ==> fds[k] != TOMBSTONE
  }

  /** What the kernel promises of new descriptors, and the capacity the program relies on. */
  ghost predicate Acceptable(fds: seq<int>, input: SweepInput) {
    && |fds| == |input.ready| == |input.closes|
    && |fds| + |input.accepts| < MAX_SERVER_FDS
    && DistinctFds(input.accepts)
    && forall k :: 0 <= k < |input.accepts| ==> input.accepts[k] != TOMBSTONE && input.accepts[k] !in fds
  }

  lemma MarkedStep(fds: seq<int>, input: SweepInput, i: nat)
    requires i < |fds| == |input.ready| == |input.closes|
    ensures var before := Marked(fds, input, i) + Accepted(input, i);
            Marked(fds, input, i + 1) + Accepted(input, i + 1)
            == if input.ready[i] == 0 then before
               else if i == 0 then before + input.accepts
               else if input.closes[i] then before[i := TOMBSTONE] else before
  {
  }

  lemma SweptFirst(fds: seq<int>, input: SweepInput, stop: nat)
    requires |fds| == |input.ready| == |input.closes| && stop == StopAt(input.ready, 0)
    requires forall k :: 0 <= k < |fds| ==> fds[k] != TOMBSTONE
    requires forall k :: 0 <= k < |input.accepts| ==> input.accepts[k] != TOMBSTONE
    ensures Live(Marked(fds, input, stop) + Accepted(input, stop)) == Swept(fds, input)
    ensures NoneClosing(input, stop) ==> Marked(fds, input, stop) + Accepted(input, stop) == Swept(fds, input)
  {
    var marked := Marked(fds, input, stop);
    LiveAppend(marked, Accepted(input, stop));
    LiveOfLive(Accepted(input, stop));
    if NoneClosing(input, stop) {
      LiveOfLive(marked);
    }
  }

  lemma LiveHead(fds: seq<int>)
    requires fds != [] && fds[0] != TOMBSTONE
    ensures Live(fds) != [] && Live(fds)[0] == fds[0]
  {
    LiveMoved([], fds);
  }

  /** A sweep keeps the poll set orderly. */
  lemma SweptPacked(fds: seq<int>, input: SweepInput, listenFd: int)
    requires Packed(fds, listenFd) && Acceptable(fds, input)
    ensures Packed(Swept(fds, input), listenFd)
  {
    var stop := StopAt(input.ready, 0);
    var marked := Marked(fds, input, stop);
    var live := Live(marked);
    LiveHead(marked);
    LiveDistinct(marked);
    LiveIs(marked);
    assert forall x :: x in marked && x != TOMBSTONE ==> x in fds;
    assert forall x :: x in live ==> x in fds && x != TOMBSTONE;
    assert forall k :: 0 <= k < |live| ==> live[k] in live;
  }

  class Poller {
    const slots: array<PollFd>
    const listenFd: int
    var nfds: int
    var compressArray: bool
    var isFatal: bool
    var served: seq<int>

    ghost predicate Valid()
      reads this
    {
      slots.Length == MAX_SERVER_FDS && 0 <= nfds < MAX_SERVER_FDS
    }

    ghost function Fds(): seq<int>
      requires Valid()
      reads this, slots
    {
      FdsOf(slots[..nfds])
    }

    /** The listening slot waits for input only, the others also for a hang-up. */
    ghost predicate Masked()
      requires Valid()
      reads this, slots
    {
      forall k :: 0 <= k < nfds ==> slots[k].events == if k == 0 then POLLIN else POLLIN | POLLHUP
    }

    /** poll_fds zeroed, the listening descriptor in slot 0. */
    constructor (listenFd: int)
      requires listenFd != TOMBSTONE
      ensures Valid() && Masked() && fresh(slots) && !compressArray && !isFatal && served == []
      ensures slots.Length == 2048 && slots[0] == PollFd(listenFd, 0x0001)
      ensures this.listenFd == listenFd && Fds() == [listenFd] && Packed(Fds(), listenFd)
    {
      this.listenFd := listenFd;
      slots := new PollFd[MAX_SERVER_FDS](_ => PollFd(0, 0));
      nfds := 1;
      compressArray, isFatal, served := false, false, [];
      new;
      slots[0] := PollFd(listenFd, POLLIN);
    }

    /** The inner loop of compress_fds: it reads one slot past the ones in use. */
    method ShiftLeft(i: int)
      requires Valid() && 0 <= i < nfds
      modifies slots
      ensures FdsOf(slots[..i]) == old(FdsOf(slots[..i]))
      ensures FdsOf(slots[i..nfds - 1]) == old(FdsOf(slots[i + 1..nfds]))
      ensures forall k :: 0 <= k < MAX_SERVER_FDS ==> slots[k].events == old(slots[k].events)
    {
      var j := i;
      while j < nfds
        invariant i <= j <= nfds
        invariant forall k :: i <= k < j ==> slots[k].fd == old(slots[k + 1].fd)
        invariant forall k :: 0 <= k < MAX_SERVER_FDS && !(i <= k < j) ==> slots[k].fd == old(slots[k].fd)
        invariant forall k :: 0 <= k < MAX_SERVER_FDS ==> slots[k].events == old(slots[k].events)
      {
        slots[j] := slots[j].(fd := slots[j + 1].fd);
        j := j + 1;
      }
      FdsDropped(old(slots[..]), slots[..], i, nfds);
      assert slots[..i] == slots[..][..i] && slots[i..nfds - 1] == slots[..][i..nfds - 1];
      assert old(slots[..i]) == old(slots[..])[..i] && old(slots[i + 1..nfds]) == old(slots[..])[i + 1..nfds];
    }

    /** Moving the border between two parts of the array past slot i. */
    lemma BorderAt(i: int)
      requires Valid() && 0 <= i < nfds
      ensures FdsOf(slots[..i + 1]) == FdsOf(slots[..i]) + [slots[i].fd]
      ensures FdsOf(slots[i..nfds]) == [slots[i].fd] + FdsOf(slots[i + 1..nfds])
    {
    }

    /** One turn of the loop of compress_fds: both i and nfds step back after a shift, so that the
        slot just filled is looked at again. */
    method CompressAt(i: int) returns (next: int)
      requires Valid() && 0 <= i < nfds
      modifies this`nfds, slots
      ensures Valid() && i <= next <= nfds <= old(nfds) && nfds - next < old(nfds) - i
      ensures FdsOf(slots[..next]) == Kept(old(FdsOf(slots[..i])), old(slots[i].fd))
      ensures FdsOf(slots[next..nfds]) == old(FdsOf(slots[i + 1..nfds]))
      ensures forall k :: 0 <= k < MAX_SERVER_FDS ==> slots[k].events == old(slots[k].events)
    {
      BorderAt(i);
      next := i;
      if slots[i].fd == TOMBSTONE {
        ShiftLeft(i);
        next := next - 1;
        nfds := nfds - 1;
      }
      next := next + 1;
    }

    method CompressFds()
      requires Valid()
      modifies this`nfds, this`compressArray, slots
      ensures Valid() && !compressArray
      ensures nfds <= old(nfds) && Fds() == Live(old(Fds()))
      ensures forall k :: 0 <= k < MAX_SERVER_FDS ==> slots[k].events == old(slots[k].events)
    {
      compressArray := false;
      ghost var goal, kept, rest := Live(Fds()), [], Fds();
      var i := 0;
      while i < nfds
        invariant 0 <= i <= nfds < MAX_SERVER_FDS && nfds <= old(nfds) && !compressArray
        invariant FdsOf(slots[..i]) == kept && FdsOf(slots[i..nfds]) == rest
        invariant goal == kept + Live(rest)
        invariant forall k :: 0 <= k < MAX_SERVER_FDS ==> slots[k].events == old(slots[k].events)
        decreases nfds - i
      {
        BorderAt(i);
        LiveMoved(kept, rest);
        kept, rest := Kept(kept, slots[i].fd), FdsOf(slots[i + 1..nfds]);
        i := CompressAt(i);
      }
      assert slots[..i] == slots[..nfds] && rest == [];
    }

    method Append(fd: int)
      requires Valid() && nfds + 1 < MAX_SERVER_FDS && 0 < nfds
      modifies this`nfds, slots
      ensures Valid() && nfds == old(nfds) + 1
      ensures Fds() == old(Fds()) + [fd]
      ensures old(Masked()) ==> Masked()
    {
      slots[nfds] := PollFd(fd, POLLIN | POLLHUP);
      nfds := nfds + 1;
    }

    /** The accept loop, which ends at the first accept that finds no connection. */
    method AcceptAll(accepts: seq<int>)
      requires Valid() && Masked() && 0 < nfds && nfds + |accepts| < MAX_SERVER_FDS
      modifies this`nfds, slots
      ensures Valid() && Masked() && Fds() == old(Fds()) + accepts
    {
      ghost var start := Fds();
      var a := 0;
      while a < |accepts|
        invariant 0 <= a <= |accepts| && Valid() && Masked()
        invariant nfds == |start| + a && Fds() == start + accepts[..a]
      {
        Append(accepts[a]);
        a := a + 1;
        assert accepts[..a] == accepts[..a - 1] + [accepts[a - 1]];
      }
    }

    method CloseConnection(i: nat)
      requires Valid() && i < nfds
      modifies this`compressArray, slots
      ensures Valid() && compressArray
      ensures Fds() == old(Fds())[i := TOMBSTONE]
      ensures old(Masked()) ==> Masked()
    {
      slots[i] := slots[i].(fd := TOMBSTONE);
      compressArray := true;
    }

    /** Serving a ready slot: the listening one accepts, another one answers a request. */
    method Serve(i: nat, accepts: seq<int>, close: bool)
      requires Valid() && Masked() && i < nfds
      requires i == 0 ==> nfds + |accepts| < MAX_SERVER_FDS
      requires slots[i].fd == listenFd <==> i == 0
      modifies this`nfds, this`compressArray, this`served, slots
      ensures Valid() && Masked() && compressArray == (old(compressArray) || (0 < i && close))
      ensures Fds() == if i == 0 then old(Fds()) + accepts
                       else if close then old(Fds())[i := TOMBSTONE] else old(Fds())
      ensures served == old(served) + if i == 0 then [] else [old(Fds())[i]]
    {
      if slots[i].fd == listenFd {
        AcceptAll(accepts);
      } else {
        served := served + [slots[i].fd];
        if close {
          CloseConnection(i);
        }
      }
    }

    /** The loop over the slots that were in use when poll returned. */
    method ServeReady(input: SweepInput) returns (i: nat)
      requires Valid() && Masked() && !isFatal && !compressArray && served == []
      requires Packed(Fds(), listenFd) && Acceptable(Fds(), input)
      modifies this`nfds, this`compressArray, this`isFatal, this`served, slots
      ensures Valid() && Masked() && i == StopAt(input.ready, 0)
      ensures isFatal == (i < |input.ready|)
      ensures Fds() == Marked(old(Fds()), input, i) + Accepted(input, i)
      ensures served == Served(old(Fds()), input, i)
      ensures !compressArray ==> NoneClosing(input, i)
    {
      ghost var fds := Fds();
      var active := nfds;
      i := 0;
      while i < active
        invariant 0 <= i <= active == |fds| <= nfds && Valid() && Masked() && !isFatal
        invariant StopAt(input.ready, 0) == StopAt(input.ready, i)
        invariant i == 0 ==> nfds == active
        invariant Fds() == Marked(fds, input, i) + Accepted(input, i)
        invariant served == Served(fds, input, i)
        invariant !compressArray ==> NoneClosing(input, i)
      {
        if input.ready[i] != 0 && !PollIn(input.ready[i]) {
          isFatal := true;
          break;
        }
        Pass(input, i, fds);
        i := i + 1;
      }
    }

    /** One turn of that loop; `fds` are the descriptors in use when poll returned. */
    method Pass(input: SweepInput, i: nat, ghost fds: seq<int>)
      requires Valid() && Masked() && i < |fds| <= nfds && (i == 0 ==> nfds == |fds|)
      requires Packed(fds, listenFd) && Acceptable(fds, input)
      requires Fds() == Marked(fds, input, i) + Accepted(input, i)
      modifies this`nfds, this`compressArray, this`served, slots
      ensures Valid() && Masked() && |fds| <= nfds
      ensures Fds() == Marked(fds, input, i + 1) + Accepted(input, i + 1)
      ensures served == old(served) + if 0 < i && input.ready[i] != 0 then [fds[i]] else []
      ensures compressArray == (old(compressArray) || Closing(input, i))
    {
      assert Fds()[i] == fds[i] == slots[i].fd;
      MarkedStep(fds, input, i);
      if input.ready[i] != 0 {
        Serve(i, input.accepts, input.closes[i]);
      }
    }

    /** One pass of the event loop after poll has returned. */
    method Sweep(input: SweepInput)
      requires Valid() && Masked() && !isFatal && !compressArray
      requires Packed(Fds(), listenFd) && Acceptable(Fds(), input)
      modifies this, slots
      ensures Valid() && Masked() && !compressArray
      ensures Fds() == Swept(old(Fds()), input) && Packed(Fds(), listenFd)
      ensures served == Served(old(Fds()), input, StopAt(input.ready, 0))
      ensures isFatal == (StopAt(input.ready, 0) < |input.ready|)
    {
      ghost var fds := Fds();
      SweptPacked(fds, input, listenFd);
      served := [];
      ServeAll(input);
      Tidy();
    }

    /** The slot loop, up to the tombstones it leaves. */
    method ServeAll(input: SweepInput)
      requires Valid() && Masked() && !isFatal && !compressArray && served == []
      requires Packed(Fds(), listenFd) && Acceptable(Fds(), input)
      modifies this`nfds, this`compressArray, this`isFatal, this`served, slots
      ensures Valid() && Masked()
      ensures Live(Fds()) == Swept(old(Fds()), input) && (!compressArray ==> Live(Fds()) == Fds())
      ensures served == Served(old(Fds()), input, StopAt(input.ready, 0))
      ensures isFatal == (StopAt(input.ready, 0) < |input.ready|)
    {
      ghost var fds := Fds();
      var i := ServeReady(input);
      SweptFirst(fds, input, i);
    }

    /** Compaction, when a connection was closed. */
    method Tidy()
      requires Valid() && Masked() && (!compressArray ==> Live(Fds()) == Fds())
      modifies this`nfds, this`compressArray, slots
      ensures Valid() && Masked() && !compressArray
      ensures Fds() == Live(old(Fds()))
    {
      if compressArray {
        CompressFds();
      }
    }
  }
}
