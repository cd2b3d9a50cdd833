/**
  The two selection patterns every optimizer loop is built from:
  - "keep the candidate with the strictly lowest key", written in the source as
    `if (!best || key(c) < key(best)) best = c`, so the first minimum is kept;
  - "push each job's best to `assignments`, or its id to `unassigned`".
  Candidates are `Option`s: a skipped vehicle contributes `None`.
 */
module Greedy {
  import opened Options

  /** One step of the source's `best` update. */
  function Keep<T>(best: Option<T>, cand: Option<T>, key: T -> int): Option<T> {
    match cand
    case None => best
    case Some(c) => if best.None? || key(c) < key(best.value) then cand else best
  }

  /** The value of `best` after the loop has seen every candidate of `cs`, in order. */
  function FirstMin<T>(cs: seq<Option<T>>, key: T -> int): (r: Option<T>)
    ensures r.None? <==> forall i :: 0 <= i < |cs| ==> cs[i].None?
    ensures r.Some? ==> r in cs
    decreases |cs|
  {
    if cs == [] then None else Keep(FirstMin(cs[..|cs| - 1], key), cs[|cs| - 1], key)
  }

  /** Candidate `k` has the lowest key, and every earlier candidate's is strictly higher. */
  ghost predicate FirstMinimumAt<T>(cs: seq<Option<T>>, key: T -> int, k: int) {
    && 0 <= k < |cs|
    && cs[k].Some?
    && (forall j :: 0 <= j < |cs| && cs[j].Some? ==> key(cs[k].value) <= key(cs[j].value))
    && (forall j :: 0 <= j < k && cs[j].Some? ==> key(cs[k].value) < key(cs[j].value))
  }

  /** The loop's result is the first of the candidates with the lowest key. */
  lemma {:induction false} FirstMinIsFirstMinimum<T>(cs: seq<Option<T>>, key: T -> int) returns (k: int)
    requires FirstMin(cs, key).Some?
    ensures FirstMinimumAt(cs, key, k)
    ensures cs[k] == FirstMin(cs, key)
    decreases |cs|
  {
    var init := cs[..|cs| - 1];
    var last := cs[|cs| - 1];
    var prev := FirstMin(init, key);
    if prev.None? {
      k := |cs| - 1;
      assert forall j :: 0 <= j < |init| ==> init[j].None?;
    } else {
      var k0 := FirstMinIsFirstMinimum(init, key);
      if last.Some? && key(last.value) < key(prev.value) {
        k := |cs| - 1;
      } else {
        k := k0;
      }
    }
  }

  /** Whatever a candidate list's minimum, no candidate beats it. */
  lemma FirstMinIsLowest<T>(cs: seq<Option<T>>, key: T -> int, j: int)
    requires 0 <= j < |cs| && cs[j].Some?
    ensures FirstMin(cs, key).Some?
    ensures key(FirstMin(cs, key).value) <= key(cs[j].value)
  {
    var k := FirstMinIsFirstMinimum(cs, key);
  }

  /** `if (!best) best = c`: the first candidate there is; later ones never replace it. */
  function FirstSome<T>(cs: seq<Option<T>>): (r: Option<T>)
    decreases |cs|
  {
    if cs == [] then None
    else var prev := FirstSome(cs[..|cs| - 1]); if prev.None? then cs[|cs| - 1] else prev
  }

  lemma {:induction false} FirstSomeIsFirst<T>(cs: seq<Option<T>>)
    ensures FirstSome(cs).None? <==> forall i :: 0 <= i < |cs| ==> cs[i].None?
    ensures FirstSome(cs).Some? ==>
      exists k :: 0 <= k < |cs| && cs[k] == FirstSome(cs) && forall j :: 0 <= j < k ==> cs[j].None?
    decreases |cs|
  {
    if cs != [] {
      var init := cs[..|cs| - 1];
      FirstSomeIsFirst(init);
      if FirstSome(init).Some? {
        var k :| 0 <= k < |init| && init[k] == FirstSome(init) && forall j :: 0 <= j < k ==> init[j].None?;
        assert cs[k] == FirstSome(cs);
      } else {
        assert forall j :: 0 <= j < |cs| - 1 ==> cs[j] == init[j];
      }
    }
  }

  /** The jobs' results pushed to `assignments`, in job order. */
  function Assigned<A>(outs: seq<Option<A>>): seq<A>
    decreases |outs|
  {
    if outs == [] then []
    else
      var last := outs[|outs| - 1];
      Assigned(outs[..|outs| - 1]) + (if last.Some? then [last.value] else [])
  }

  /** The ids of the jobs without a result, pushed to `unassigned`, in job order. */
  function Unassigned<A>(outs: seq<Option<A>>, ids: seq<string>): seq<string>
    requires |outs| == |ids|
    decreases |outs|
  {
    if outs == [] then []
    else
      Unassigned(outs[..|outs| - 1], ids[..|ids| - 1])
        + (if outs[|outs| - 1].None? then [ids[|ids| - 1]] else [])
  }

  /** One more job's outcome extends exactly one of the two lists, at its end. */
  lemma PartitionStep<A>(outs: seq<Option<A>>, ids: seq<string>, i: int)
    requires |outs| == |ids| && 0 <= i < |outs|
    ensures Assigned(outs[..i + 1]) == Assigned(outs[..i]) + (if outs[i].Some? then [outs[i].value] else [])
    ensures Unassigned(outs[..i + 1], ids[..i + 1]) == Unassigned(outs[..i], ids[..i]) + (if outs[i].None? then [ids[i]] else [])
  {
    assert outs[..i + 1][..i] == outs[..i];
    assert ids[..i + 1][..i] == ids[..i];
  }

  /** Together the two output lists hold one entry per job. */
  lemma {:induction false} PartitionSize<A>(outs: seq<Option<A>>, ids: seq<string>)
    requires |outs| == |ids|
    ensures |Assigned(outs)| + |Unassigned(outs, ids)| == |outs|
    decreases |outs|
  {
    if outs != [] {
      PartitionSize(outs[..|outs| - 1], ids[..|ids| - 1]);
    }
  }

  /** An assigned job's result is in `assignments`, and `assignments` holds nothing else. */
  lemma {:induction false} AssignedMembers<A>(outs: seq<Option<A>>)
    ensures forall i :: 0 <= i < |outs| && outs[i].Some? ==> outs[i].value in Assigned(outs)
    ensures forall a :: a in Assigned(outs) ==> Some(a) in outs
    decreases |outs|
  {
    if outs != [] {
      var n := |outs| - 1;
      AssignedMembers(outs[..n]);
      assert forall i :: 0 <= i < n ==> outs[..n][i] == outs[i];
      forall a | a in Assigned(outs) ensures Some(a) in outs {
        if a in Assigned(outs[..n]) {
          var j :| 0 <= j < n && outs[..n][j] == Some(a);
          assert outs[j] == Some(a);
        }
      }
    }
  }

  /** An unassigned job's id is in `unassigned`, and `unassigned` holds nothing else. */
  lemma {:induction false} UnassignedMembers<A>(outs: seq<Option<A>>, ids: seq<string>)
    requires |outs| == |ids|
    ensures forall i :: 0 <= i < |outs| && outs[i].None? ==> ids[i] in Unassigned(outs, ids)
    ensures forall u :: u in Unassigned(outs, ids) ==>
      exists i :: 0 <= i < |outs| && outs[i].None? && ids[i] == u
    decreases |outs|
  {
    if outs != [] {
      var n := |outs| - 1;
      UnassignedMembers(outs[..n], ids[..n]);
      assert forall i :: 0 <= i < n ==> outs[..n][i] == outs[i] && ids[..n][i] == ids[i];
    }
  }

  /**
    Completeness of the two output lists: together they hold one entry per job, an
    assigned job's result is in `assignments`, an unassigned job's id is in
    `unassigned`, and neither list holds anything else.
   */
  lemma PartitionComplete<A>(outs: seq<Option<A>>, ids: seq<string>)
    requires |outs| == |ids|
    ensures |Assigned(outs)| + |Unassigned(outs, ids)| == |outs|
    ensures forall i :: 0 <= i < |outs| && outs[i].Some? ==> outs[i].value in Assigned(outs)
    ensures forall i :: 0 <= i < |outs| && outs[i].None? ==> ids[i] in Unassigned(outs, ids)
    ensures forall a :: a in Assigned(outs) ==> Some(a) in outs
    ensures forall u :: u in Unassigned(outs, ids) ==>
      exists i :: 0 <= i < |outs| && outs[i].None? && ids[i] == u
  {
    PartitionSize(outs, ids);
    AssignedMembers(outs);
    UnassignedMembers(outs, ids);
  }

  /**
    With distinct job ids, and each result carrying its job's id, a job's id is in
    `unassigned` exactly when it has no result, and some assignment carries it exactly
    when it has one: every job lands in exactly one of the two lists.
   */
  lemma ExactlyOneList<A>(outs: seq<Option<A>>, ids: seq<string>, idOf: A -> string, i: int)
    requires |outs| == |ids| && 0 <= i < |outs|
    requires forall j, k :: 0 <= j < k < |ids| ==> ids[j] != ids[k]
    requires forall j :: 0 <= j < |outs| && outs[j].Some? ==> idOf(outs[j].value) == ids[j]
    ensures ids[i] in Unassigned(outs, ids) <==> outs[i].None?
    ensures (exists a :: a in Assigned(outs) && idOf(a) == ids[i]) <==> outs[i].Some?
  {
    PartitionComplete(outs, ids);
    if ids[i] in Unassigned(outs, ids) {
      var j :| 0 <= j < |outs| && outs[j].None? && ids[j] == ids[i];
      assert j == i;
    }
    if outs[i].Some? {
      assert outs[i].value in Assigned(outs);
    }
    if exists a :: a in Assigned(outs) && idOf(a) == ids[i] {
      var a :| a in Assigned(outs) && idOf(a) == ids[i];
      var j :| 0 <= j < |outs| && outs[j] == Some(a);
      assert j == i;
    }
  }

  /** When no job has a result, `assignments` is empty and `unassigned` is every id in order. */
  lemma {:induction false} NothingAssigned<A>(outs: seq<Option<A>>, ids: seq<string>)
    requires |outs| == |ids|
    requires forall i :: 0 <= i < |outs| ==> outs[i].None?
    ensures Assigned(outs) == []
    ensures Unassigned(outs, ids) == ids
    decreases |outs|
  {
    if outs != [] {
      var n := |outs| - 1;
      NothingAssigned(outs[..n], ids[..n]);
      assert ids == ids[..n] + [ids[n]];
    }
  }
}
