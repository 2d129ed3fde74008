/** What the multi-pass filter returns, without its consumed query. */
module FilterLaws {
  import opened Seqs
  import opened Users

  ghost predicate DistinctIds(us: seq<User>) {
    && (forall i, j :: 0 <= i < j < |us| ==> us[i].id != us[j].id)
    && (forall i :: 0 <= i < |us| ==> us[i].id != MAX_ID_NUM)
  }

  function Occurrences(q: seq<U16>, id: U16): nat {
    multiset(q)[id]
  }

  function Hit(us: seq<User>, q: seq<U16>, pass: nat, i: nat): seq<User>
    requires i < |us|
  {
    if Occurrences(q, us[i].id) > pass then [us[i]] else []
  }

  /** The matches from node i of the given pass on, read off the original query alone. */
  function Due(us: seq<User>, q: seq<U16>, pass: nat, i: nat): seq<User>
    decreases |q| - pass, |us| - i
  {
    if pass >= |q| || i >= |us| then
      []
    else
      Hit(us, q, pass, i) +
      (if i + 1 == |us| then Due(us, q, pass + 1, 1) else Due(us, q, pass, i + 1))
  }

  /** How often the loop has visited node k when it stands at node i of the given pass. */
  function Visits(pass: nat, i: nat, k: nat): nat {
    if k == 0 then (if pass == 0 && i == 0 then 0 else 1)
    else pass + (if k < i then 1 else 0)
  }

  lemma ConsumeCounts(q: seq<U16>, id: U16, x: U16)
    requires id != MAX_ID_NUM
    ensures Occurrences(Consume(q, id), x) ==
            Occurrences(q, x)
            - (if id in q && x == id then 1 else 0)
            + (if id in q && x == MAX_ID_NUM then 1 else 0)
  {
    var k := FirstIndex(q, IsId(id));
    if k < |q| {
      assert q[k] == id;
      assert multiset(q[k := MAX_ID_NUM]) == multiset(q) - multiset{id} + multiset{MAX_ID_NUM};
    } else {
      assert forall j :: 0 <= j < |q| ==> !IsId(id)(q[j]);
    }
  }

  lemma {:induction false} OccurrencesBound(q: seq<U16>, x: U16, y: U16)
    requires x != y
    ensures Occurrences(q, x) + Occurrences(q, y) <= |q|
  {
    if q != [] {
      assert q == [q[0]] + q[1..];
      OccurrencesBound(q[1..], x, y);
    }
  }

  /** Nothing is due once every node has been visited as often as its id occurs. */
  lemma {:induction false} NothingDue(us: seq<User>, q: seq<U16>, pass: nat, i: nat)
    requires pass > 0 ==> i > 0
    requires forall k :: 0 <= k < |us| ==> Occurrences(q, us[k].id) <= Visits(pass, i, k)
    ensures Due(us, q, pass, i) == []
    decreases |q| - pass, |us| - i
  {
    if pass < |q| && i < |us| {
      assert Visits(pass, i, i) == pass;
      assert Hit(us, q, pass, i) == [];
      var pass', i' := if i + 1 == |us| then pass + 1 else pass, if i + 1 == |us| then 1 else i + 1;
      forall k | 0 <= k < |us|
        ensures Occurrences(q, us[k].id) <= Visits(pass', i', k)
      {
        assert Visits(pass, i, k) <= Visits(pass', i', k);
      }
      NothingDue(us, q, pass', i');
    }
  }

  /** The slots still standing in the query at a cursor, and the slots already overwritten. */
  ghost predicate Accounted(us: seq<User>, q0: seq<U16>, c: Cursor) {
    && |c.q| == |q0|
    && (c.pass > 0 ==> c.i > 0)
    && (forall k :: 0 <= k < |us| ==>
          Occurrences(c.q, us[k].id) ==
          if Occurrences(q0, us[k].id) >= Visits(c.pass, c.i, k)
          then Occurrences(q0, us[k].id) - Visits(c.pass, c.i, k) else 0)
    && c.found == Occurrences(c.q, MAX_ID_NUM) - Occurrences(q0, MAX_ID_NUM)
  }

  /** Once every slot is overwritten, nothing is due: the loop's early exit loses no match. */
  lemma NothingDueWhenAllFound(us: seq<User>, q0: seq<U16>, c: Cursor)
    requires DistinctIds(us) && Accounted(us, q0, c) && c.found == |c.q|
    ensures Due(us, q0, c.pass, c.i) == []
  {
    forall k | 0 <= k < |us|
      ensures Occurrences(q0, us[k].id) <= Visits(c.pass, c.i, k)
    {
      OccurrencesBound(c.q, us[k].id, MAX_ID_NUM);
    }
    NothingDue(us, q0, c.pass, c.i);
  }

  lemma AdvanceAccounted(us: seq<User>, q0: seq<U16>, c: Cursor)
    requires DistinctIds(us) && 2 <= |us| && c.i < |us| && Accounted(us, q0, c)
    ensures Accounted(us, q0, Advance(us, c))
    ensures Advance(us, c).acc == Hit(us, q0, c.pass, c.i) + c.acc
  {
    var d := Advance(us, c);
    var id := us[c.i].id;
    ConsumeCounts(c.q, id, MAX_ID_NUM);
    forall k | 0 <= k < |us|
      ensures Occurrences(d.q, us[k].id) ==
              if Occurrences(q0, us[k].id) >= Visits(d.pass, d.i, k)
              then Occurrences(q0, us[k].id) - Visits(d.pass, d.i, k) else 0
    {
      ConsumeCounts(c.q, id, us[k].id);
      assert k == c.i <==> us[k].id == id;
    }
    assert Visits(c.pass, c.i, c.i) == c.pass;
    assert id in c.q <==> Occurrences(q0, id) > c.pass;
  }

  lemma ReverseHit(u: seq<User>, later: seq<User>, acc: seq<User>)
    requires |u| <= 1
    ensures Reverse(u + later) + acc == Reverse(later) + (u + acc)
  {
    if u == [] {
      assert u + later == later && u + acc == acc;
    } else {
      assert (u + later)[0] == u[0] && (u + later)[1..] == later;
      assert u == [u[0]];
    }
  }

  /** The consuming loop makes exactly the matches that are due, newest first. */
  lemma {:induction false} FilterIsDue(us: seq<User>, q0: seq<U16>, c: Cursor)
    requires DistinctIds(us) && 2 <= |us| && Accounted(us, q0, c)
    ensures FilterFrom(us, c) == Reverse(Due(us, q0, c.pass, c.i)) + c.acc
    decreases |c.q| - c.pass, |us| - c.i
  {
    if c.pass >= |c.q| || c.i >= |us| || c.found == |c.q| {
      FilterEnd(us, c);
      if c.found == |c.q| {
        NothingDueWhenAllFound(us, q0, c);
      }
      assert Due(us, q0, c.pass, c.i) == [] && [] + c.acc == c.acc;
    } else {
      var d := Advance(us, c);
      FilterStep(us, c);
      AdvanceAccounted(us, q0, c);
      FilterIsDue(us, q0, d);
      DueStep(us, q0, c.pass, c.i);
      ReverseHit(Hit(us, q0, c.pass, c.i), Due(us, q0, d.pass, d.i), c.acc);
    }
  }

  lemma {:induction false} DueStep(us: seq<User>, q: seq<U16>, pass: nat, i: nat)
    requires pass < |q| && i < |us|
    ensures Due(us, q, pass, i)
            == Hit(us, q, pass, i) + if i + 1 == |us| then Due(us, q, pass + 1, 1) else Due(us, q, pass, i + 1)
  {
  }

  lemma FilteredIsDue(us: seq<User>, q: seq<U16>)
    requires DistinctIds(us) && 2 <= |us|
    ensures Filtered(us, q) == Reverse(Due(us, q, 0, 0))
  {
    FilterIsDue(us, q, Cursor(q, 0, 0, 0, []));
  }

  lemma HitCount(us: seq<User>, q: seq<U16>, pass: nat, i: nat, k: nat)
    requires DistinctIds(us) && i < |us| && k < |us|
    ensures multiset(Hit(us, q, pass, i))[us[k]] == if i == k && Occurrences(q, us[k].id) > pass then 1 else 0
  {
    assert us[i] == us[k] <==> i == k;
  }

  /** How many matches of node k are due. */
  function Owed(us: seq<User>, q: seq<U16>, pass: nat, i: nat, k: nat): nat
    requires k < |us|
  {
    var seen, occ := Visits(pass, i, k), Occurrences(q, us[k].id);
    if k == 0 then (if occ > 0 && seen == 0 then 1 else 0) else if occ <= seen then 0 else occ - seen
  }

  lemma OwedStep(us: seq<User>, q: seq<U16>, pass: nat, i: nat, k: nat)
    requires 2 <= |us| && i < |us| && k < |us| && (pass > 0 ==> i > 0)
    ensures Owed(us, q, pass, i, k) ==
            (if i == k && Occurrences(q, us[k].id) > pass then 1 else 0) +
            if i + 1 == |us| then Owed(us, q, pass + 1, 1, k) else Owed(us, q, pass, i + 1, k)
  {
  }

  lemma {:induction false} DueCount(us: seq<User>, q: seq<U16>, pass: nat, i: nat, k: nat)
    requires DistinctIds(us) && 2 <= |us| && k < |us|
    requires pass > 0 ==> i > 0
    requires pass < |q| ==> i < |us|
    ensures multiset(Due(us, q, pass, i))[us[k]] == Owed(us, q, pass, i, k)
    decreases |q| - pass, |us| - i
  {
    if pass < |q| {
      var pass', i' := if i + 1 == |us| then pass + 1 else pass, if i + 1 == |us| then 1 else i + 1;
      DueCount(us, q, pass', i', k);
      HitCount(us, q, pass, i, k);
      OwedStep(us, q, pass, i, k);
      var hit, later := Hit(us, q, pass, i), Due(us, q, pass', i');
      assert Due(us, q, pass, i) == hit + later;
      assert multiset(hit + later) == multiset(hit) + multiset(later);
    } else {
      OccurrencesBound(q, us[k].id, MAX_ID_NUM);
      assert Due(us, q, pass, i) == [];
    }
  }

  /** Each user other than the head is returned once per occurrence of its id, the head at most once. */
  lemma FilterCounts(us: seq<User>, q: seq<U16>, k: nat)
    requires DistinctIds(us) && 2 <= |us| && k < |us|
    ensures multiset(Filtered(us, q))[us[k]] ==
            var occ := Occurrences(q, us[k].id);
            if k == 0 && occ > 1 then 1 else occ
  {
    FilteredIsDue(us, q);
    ReverseMultiset(Due(us, q, 0, 0));
    if q != [] {
      DueCount(us, q, 0, 0, k);
    }
  }

  /** Only listed users whose id is asked for are returned. */
  lemma {:induction false} DueMembers(us: seq<User>, q: seq<U16>, pass: nat, i: nat)
    ensures forall u :: u in Due(us, q, pass, i) ==> u in us && u.id in q
    decreases |q| - pass, |us| - i
  {
    if pass < |q| && i < |us| {
      if i + 1 == |us| {
        DueMembers(us, q, pass + 1, 1);
      } else {
        DueMembers(us, q, pass, i + 1);
      }
    }
  }

  lemma {:induction false} FilterMembers(us: seq<User>, q: seq<U16>)
    requires DistinctIds(us) && 2 <= |us|
    ensures forall u :: u in Filtered(us, q) ==> u in us && u.id in q
  {
    FilteredIsDue(us, q);
    DueMembers(us, q, 0, 0);
    ReverseMultiset(Due(us, q, 0, 0));
    forall u | u in Filtered(us, q)
      ensures u in us && u.id in q
    {
      assert u in multiset(Filtered(us, q));
      assert u in multiset(Due(us, q, 0, 0));
    }
  }

  lemma {:induction false} DueFirstPass(us: seq<User>, q: seq<U16>, i: nat)
    requires i < |us| && q != []
    requires forall x: U16 :: Occurrences(q, x) <= 1
    requires 2 <= |us|
    ensures Due(us, q, 0, i) == Select(us[i..], IdIn(q))
    decreases |us| - i
  {
    assert us[i..][0] == us[i] && us[i..][1..] == us[i + 1..];
    assert Occurrences(q, us[i].id) > 0 <==> us[i].id in q;
    if i + 1 == |us| {
      NothingDue(us, q, 1, 1);
      assert Select(us[i + 1..], IdIn(q)) == [];
    } else {
      DueFirstPass(us, q, i + 1);
    }
  }

  /** For a query without repeated ids the result is the intersection, in reverse list order. */
  lemma FilterDistinctQuery(us: seq<User>, q: seq<U16>)
    requires DistinctIds(us) && 2 <= |us|
    requires forall x: U16 :: Occurrences(q, x) <= 1
    ensures Filtered(us, q) == Reverse(Select(us, IdIn(q)))
  {
    FilteredIsDue(us, q);
    if q != [] {
      DueFirstPass(us, q, 0);
      assert us[0..] == us;
    } else {
      assert Select(us, IdIn(q)) == [];
    }
  }

  /** The result is null exactly when no listed user is asked for. */
  lemma FilterNullIff(us: seq<User>, q: seq<U16>)
    requires DistinctIds(us) && 2 <= |us|
    ensures Filtered(us, q) == [] <==> forall u :: u in us ==> u.id !in q
  {
    FilterMembers(us, q);
    forall k | 0 <= k < |us| && us[k].id in q
      ensures Filtered(us, q) != []
    {
      FilterCounts(us, q, k);
      assert us[k] in multiset(Filtered(us, q));
    }
    if Filtered(us, q) != [] {
      assert Filtered(us, q)[0] in us;
    }
  }

  /** The result repeats no user exactly when no user other than the head is asked for twice. */
  lemma FilterDistinctIff(us: seq<User>, q: seq<U16>)
    requires DistinctIds(us) && 2 <= |us|
    ensures (forall u :: multiset(Filtered(us, q))[u] <= 1) <==>
            forall k :: 1 <= k < |us| ==> Occurrences(q, us[k].id) <= 1
  {
    FilterMembers(us, q);
    forall k | 0 <= k < |us|
      ensures multiset(Filtered(us, q))[us[k]] ==
              if k == 0 && Occurrences(q, us[k].id) > 1 then 1 else Occurrences(q, us[k].id)
    {
      FilterCounts(us, q, k);
    }
    assert forall u :: u in multiset(Filtered(us, q)) ==> u in us;
  }
}
