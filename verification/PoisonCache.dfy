/** The per-epoch cache of poison verdicts: at most four epochs, the lowest evicted first. */
module PoisonCache {
  import opened Basics

  datatype Report = Report(dealer: nat, point: nat)

  const CACHE_MAX := 4

  class Cache {
    var reports: map<nat, seq<Report>>

    constructor ()
      ensures reports == map[]
    {
      reports := map[];
    }

    /** Every cached verdict is the one a fresh detection would give: the inputs of a finalized epoch are frozen. Epoch 0,
        the legacy setup, is never cached. */
    ghost predicate Valid(detect: nat -> seq<Report>)
      reads this
    {
      |reports| <= CACHE_MAX && 0 !in reports && forall e :: e in reports ==> reports[e] == detect(e)
    }

    /** Ranges over the epochs in any order, as the runtime does, and keeps the lowest epoch seen, except that epoch 0
        counts as nothing seen. */
    method Oldest() returns (oldest: nat, ghost order: seq<nat>)
      requires |reports| > 0
      ensures Ranges(order, reports.Keys) && order != [] && oldest == RunningMin(order, |order|)
    {
      oldest, order := 0, [];
      var todo := reports.Keys;
      while todo != {}
        invariant todo <= reports.Keys && Ranges(order, reports.Keys - todo)
        invariant oldest == RunningMin(order, |order|) && (todo != reports.Keys ==> order != [])
        decreases todo
      {
        var e :| e in todo;
        SnocElements(order, e);
        assert Elements(order + [e]) == reports.Keys - (todo - {e});
        RunningMinSnoc(order, e);
        if oldest == 0 || e < oldest {
          oldest := e;
        }
        order := order + [e];
        todo := todo - {e};
      }
    }

    /** Makes room: drops nothing unless the cache is full, and then exactly the lowest epoch. */
    method Evict()
      requires |reports| <= CACHE_MAX && 0 !in reports
      modifies this
      ensures |reports| < CACHE_MAX
      ensures |old(reports)| < CACHE_MAX ==> reports == old(reports)
      ensures |old(reports)| == CACHE_MAX ==> exists oldest :: LowestDropped(old(reports), oldest, reports)
    {
      while |reports| >= CACHE_MAX
        invariant reports == old(reports) ||
                  (|reports| == CACHE_MAX - 1 && exists oldest :: LowestDropped(old(reports), oldest, reports))
        decreases |reports|
      {
        var oldest;
        ghost var order;
        oldest, order := Oldest();
        LowestDroppedIff(reports, order);
        DropSize(reports, oldest);
        reports := reports - {oldest};
        assert LowestDropped(old(reports), oldest, reports);
      }
    }

    /** The verdict for an epoch is always the fresh one; a new one is cached, at the cost of the oldest if need be. */
    method Get(epoch: nat, detect: nat -> seq<Report>) returns (r: seq<Report>)
      requires Valid(detect) && epoch > 0
      modifies this
      ensures Valid(detect) && r == detect(epoch)
      ensures epoch in old(reports) ==> reports == old(reports)
      ensures epoch !in old(reports) && |old(reports)| < CACHE_MAX ==> reports == old(reports)[epoch := r]
      ensures epoch !in old(reports) && |old(reports)| == CACHE_MAX ==>
                exists oldest, kept :: LowestDropped(old(reports), oldest, kept) && reports == kept[epoch := r]
    {
      if epoch in reports {
        return reports[epoch];
      }
      r := detect(epoch);
      Evict();
      PutSize(reports, epoch, r);
      reports := reports[epoch := r];
    }
  }

  /** The order lists every key once. */
  ghost predicate Ranges(order: seq<nat>, keys: set<nat>) { Distinct(order) && Elements(order) == keys }

  /** `after` is `before` without `oldest`, its lowest epoch. */
  ghost predicate LowestDropped(before: map<nat, seq<Report>>, oldest: nat, after: map<nat, seq<Report>>)
  {
    oldest in before && after == before - {oldest} && forall e :: e in before ==> oldest <= e
  }

  /** Ranging ends at the lowest epoch exactly when epoch 0 is not there, or is visited last. */
  lemma LowestDroppedIff(before: map<nat, seq<Report>>, order: seq<nat>)
    requires Ranges(order, before.Keys) && order != []
    ensures RunningMin(order, |order|) in before
    ensures (forall e :: e in before ==> RunningMin(order, |order|) <= e) <==> 0 !in before || order[|order| - 1] == 0
  {
    var n, oldest := |order|, RunningMin(order, |order|);
    DroppedIsCached(before, order);
    RunningMinIff(order, n);
    RunningMinOccurs(order, n);
    assert forall i :: 0 <= i < n ==> order[i] in Elements(order);
    assert forall e :: e in before ==> e in Elements(order);
    assert IsMin(order, n, oldest) <==> forall e :: e in before ==> oldest <= e;
  }

  lemma DroppedIsCached(before: map<nat, seq<Report>>, order: seq<nat>)
    requires Ranges(order, before.Keys) && order != []
    ensures RunningMin(order, |order|) in before
  {
    RunningMinOccurs(order, |order|);
    assert order[..|order|] == order;
    var i :| 0 <= i < |order| && order[i] == RunningMin(order, |order|);
    assert order[i] in Elements(order);
  }

  lemma RunningMinSnoc(order: seq<nat>, e: nat)
    ensures var r := RunningMin(order, |order|);
            RunningMin(order + [e], |order| + 1) == if r == 0 || e < r then e else r
  {
    RunningMinPrefix(order, e, |order|);
  }

  lemma {:induction false} RunningMinPrefix(order: seq<nat>, e: nat, n: nat)
    requires n <= |order|
    ensures RunningMin(order + [e], n) == RunningMin(order, n)
  {
    if n > 0 { RunningMinPrefix(order, e, n - 1); }
  }

  lemma DropSize(m: map<nat, seq<Report>>, k: nat)
    requires k in m
    ensures |m - {k}| == |m| - 1
  {
    assert (m - {k}).Keys == m.Keys - {k};
    assert |(m - {k}).Keys| == |m - {k}| && |m.Keys| == |m|;
  }

  lemma PutSize(m: map<nat, seq<Report>>, k: nat, v: seq<Report>)
    requires k !in m
    ensures |m[k := v]| == |m| + 1
  {
    assert m[k := v].Keys == m.Keys + {k};
    assert |m[k := v].Keys| == |m[k := v]| && |m.Keys| == |m|;
  }
}
