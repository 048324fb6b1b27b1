/** What one garbage collection pass over the blob store amounts to, and what
    repeated passes come to. */
module BlobCollection {
  import opened Words
  import opened Counting
  import opened BlobTables
  import opened BlobMachine

  function ExpiredRefs(t: Tables, now: int): set<Ref> {
    set r | r in t.refs && Expired(t.refs[r], now)
  }

  function Unreferenced(t: Tables): set<Digest> {
    set d | d in t.rows && RefsOf(t.refs, d) == {}
  }

  predicate Distinct(q: seq<Digest>) {
    forall i, j | 0 <= i < j < |q| :: q[i] != q[j]
  }

  function Members(q: seq<Digest>): set<Digest> {
    set d | d in q
  }

  function LastUsed(t: Tables, d: Digest): int {
    if d in t.rows then t.rows[d].lastUsed else 0
  }

  /** `q` lists blobs in order of last use, all before those in `rest`. */
  ghost predicate ColdFirst(t: Tables, q: seq<Digest>, rest: set<Digest>) {
    && Distinct(q)
    && (forall i, j | 0 <= i < j < |q| :: LastUsed(t, q[i]) <= LastUsed(t, q[j]))
    && (forall d, e | d in q && e in rest :: LastUsed(t, d) <= LastUsed(t, e))
  }

  /** The first unreferenced blobs in order of last use, at most `limit`. */
  ghost predicate Coldest(t: Tables, limit: nat, q: seq<Digest>) {
    && Members(q) <= Unreferenced(t)
    && |q| == Min(limit, |Unreferenced(t)|)
    && ColdFirst(t, q, Unreferenced(t) - Members(q))
  }

  /** From `k` to `l` the references `gone` and the blobs `taken` have been removed,
      and nothing else. */
  ghost predicate Pass(k: Disk, l: Disk, now: int, limit: nat, gone: set<Ref>, taken: seq<Digest>) {
    && gone <= ExpiredRefs(k.tables, now) && |gone| <= limit
    && Distinct(taken) && |taken| <= limit && Members(taken) <= k.tables.rows.Keys
    && l.tables.refs == k.tables.refs - gone
    && l.tables.rows.Keys == k.tables.rows.Keys - Members(taken)
    && (forall d | d in l.tables.rows ::
          l.tables.rows[d].size == k.tables.rows[d].size && l.tables.rows[d].lastUsed == k.tables.rows[d].lastUsed)
    && l.files == k.files - Members(taken)
    && l.parts == k.parts && l.shards == k.shards
    // taken blobs had no reference left, and none left behind was used less recently
    && (forall r | r in l.tables.refs :: r.digest !in taken)
    && (forall d, e | d in taken && e in Unreferenced(l.tables) ::
          LastUsed(k.tables, d) <= LastUsed(k.tables, e))
  }

  /** The pass removed as much as its limit allows. */
  ghost predicate Complete(k: Disk, now: int, limit: nat, gone: set<Ref>, taken: seq<Digest>) {
    && |gone| == Min(limit, |ExpiredRefs(k.tables, now)|)
    && |taken| == Min(limit, |Unreferenced(DropRefs(k.tables, gone))|)
  }

  // ----- one pass -----

  lemma ColdFirstGrows(t: Tables, q: seq<Digest>, rest: set<Digest>, d: Digest)
    requires ColdFirst(t, q, rest) && d in rest && d !in q
    requires forall e | e in rest :: LastUsed(t, d) <= LastUsed(t, e)
    ensures ColdFirst(t, q + [d], rest - {d}) && Members(q + [d]) == Members(q) + {d}
  {
  }

  lemma {:induction false} DistinctCounts(q: seq<Digest>)
    requires Distinct(q)
    ensures |Members(q)| == |q|
  {
    if |q| > 0 {
      var front, last := q[..|q| - 1], q[|q| - 1];
      DistinctCounts(front);
      assert q == front + [last];
      assert Members(q) == Members(front) + {last};
      assert last !in front;
    }
  }

  /** At most `limit` references and `limit` blobs go. */
  lemma PassIsBounded(k: Disk, l: Disk, now: int, limit: nat, gone: set<Ref>, taken: seq<Digest>)
    requires Pass(k, l, now, limit, gone, taken)
    ensures |k.tables.refs| == |l.tables.refs| + |gone| && |gone| <= limit
    ensures |k.tables.rows| == |l.tables.rows| + |taken| && |taken| <= limit
  {
    RemoveCounts(k.tables.refs, gone);
    DistinctCounts(taken);
    RemoveCounts(k.tables.rows, Members(taken));
    assert (k.tables.rows - Members(taken)).Keys == l.tables.rows.Keys;
    assert |l.tables.rows| == |l.tables.rows.Keys|;
  }

  /** A pass takes row and file together: the files without a row stay the same, so a
      store whose two layers agree still agrees, whether or not the pass succeeded. */
  lemma PassKeepsAgreement(k: Disk, l: Disk, now: int, limit: nat, gone: set<Ref>, taken: seq<Digest>)
    requires Pass(k, l, now, limit, gone, taken)
    ensures l.files.Keys - l.tables.rows.Keys == k.files.Keys - k.tables.rows.Keys
    ensures k.tables.rows.Keys == k.files.Keys ==> l.tables.rows.Keys == l.files.Keys
  {
    assert l.files.Keys == k.files.Keys - Members(taken);
  }

  /** Dropping references only adds unreferenced blobs, so the preview, taken before,
      never announces more candidates than the pass finds. */
  lemma DryRunNeverOvercounts(t: Tables, gone: set<Ref>, limit: nat, preview: seq<Digest>, queue: seq<Digest>)
    requires Coldest(t, limit, preview) && Coldest(DropRefs(t, gone), limit, queue)
    ensures |preview| <= |queue|
  {
    UnreferencedGrows(t, gone);
    SubsetCounts(Unreferenced(t), Unreferenced(DropRefs(t, gone)));
  }

  // ----- repeated passes -----

  ghost predicate FullPass(k: Disk, l: Disk, now: int, limit: nat) {
    exists gone, taken :: Pass(k, l, now, limit, gone, taken) && Complete(k, now, limit, gone, taken)
  }

  /** Nothing is left to collect. */
  ghost predicate Clean(k: Disk, now: int) {
    ExpiredRefs(k.tables, now) == {} && Unreferenced(k.tables) == {}
  }

  ghost function Burden(k: Disk): nat {
    |k.tables.refs| + |k.tables.rows|
  }

  lemma UnreferencedGrows(t: Tables, gone: set<Ref>)
    ensures Unreferenced(t) <= Unreferenced(DropRefs(t, gone))
  {
    forall d | d in Unreferenced(t)
      ensures d in Unreferenced(DropRefs(t, gone))
    {
      assert RefsOf(t.refs - gone, d) <= RefsOf(t.refs, d);
    }
  }

  lemma CompletePassRemoves(k: Disk, now: int, limit: nat, gone: set<Ref>, taken: seq<Digest>)
    requires Complete(k, now, limit, gone, taken) && limit >= 1 && !Clean(k, now)
    ensures |gone| + |taken| > 0
  {
    UnreferencedGrows(k.tables, gone);
    SubsetCounts(Unreferenced(k.tables), Unreferenced(DropRefs(k.tables, gone)));
  }

  /** A pass over a store that is not clean removes something. */
  lemma PassProgresses(k: Disk, l: Disk, now: int, limit: nat)
    requires FullPass(k, l, now, limit) && limit >= 1
    ensures Burden(l) <= Burden(k)
    ensures !Clean(k, now) ==> Burden(l) < Burden(k)
  {
    var gone, taken :| Pass(k, l, now, limit, gone, taken) && Complete(k, now, limit, gone, taken);
    PassIsBounded(k, l, now, limit, gone, taken);
    if !Clean(k, now) {
      CompletePassRemoves(k, now, limit, gone, taken);
    }
  }

  /** A pass over a clean store changes nothing that matters: it is clean again. */
  lemma CleanStaysClean(k: Disk, l: Disk, now: int, limit: nat)
    requires FullPass(k, l, now, limit) && Clean(k, now)
    ensures Clean(l, now)
  {
    var gone, taken :| Pass(k, l, now, limit, gone, taken) && Complete(k, now, limit, gone, taken);
    assert gone == {};
    assert l.tables.refs == k.tables.refs;
    forall d | d in l.tables.rows
      ensures RefsOf(l.tables.refs, d) != {}
    {
      assert d !in Unreferenced(k.tables);
    }
  }

  /** Enough passes that meet no unlink error leave no expired reference and no
      unreferenced blob. */
  lemma {:induction false} RepeatedPassesDrain(history: seq<Disk>, now: int, limit: nat)
    requires limit >= 1 && |history| >= 1
    requires forall i | 0 <= i < |history| - 1 :: FullPass(history[i], history[i + 1], now, limit)
    ensures Clean(history[|history| - 1], now) || Burden(history[|history| - 1]) + |history| - 1 <= Burden(history[0])
    ensures |history| > Burden(history[0]) + 1 ==> Clean(history[|history| - 1], now)
  {
    if |history| > 1 {
      var n := |history| - 1;
      assert FullPass(history[n - 1], history[n], now, limit);
      RepeatedPassesDrain(history[..n], now, limit);
      PassProgresses(history[n - 1], history[n], now, limit);
      if Clean(history[n - 1], now) {
        CleanStaysClean(history[n - 1], history[n], now, limit);
      }
    }
  }
}
