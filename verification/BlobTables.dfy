/** The blob store's metadata: one row per stored blob, one row per reference to a
    blob, and the statements and triggers that change them. */
module BlobTables {
  import opened Words

  /** A SHA-256 digest, its hexadecimal digits read as a number. */
  type Digest = nat

  datatype Kind = Reader | Workspace | Manifest | Artifact

  /** The primary key of a reference. */
  datatype Ref = Ref(kind: Kind, owner: nat, digest: Digest)

  datatype Expiry = Never | At(ms: int)

  datatype Row = Row(size: nat, count: nat, lastUsed: int)

  datatype Tables = Tables(rows: map<Digest, Row>, refs: map<Ref, Expiry>)

  predicate Expired(e: Expiry, now: int) {
    e.At? && e.ms <= now
  }

  function RefsOf(refs: map<Ref, Expiry>, d: Digest): set<Ref> {
    set r | r in refs && r.digest == d
  }

  // ----- statements -----

  /** Insert or re-expire a reference; the insert trigger counts a new one. */
  function Upsert(t: Tables, r: Ref, e: Expiry): Tables
    requires r.digest in t.rows
  {
    var row := t.rows[r.digest];
    Tables(if r in t.refs then t.rows else t.rows[r.digest := row.(count := row.count + 1)], t.refs[r := e])
  }

  /** Delete references; the delete trigger takes one off the count, not below zero,
      for each. */
  function DropRefs(t: Tables, gone: set<Ref>): Tables {
    Tables(map d | d in t.rows :: t.rows[d].(count := SatSub(t.rows[d].count, |RefsOf(t.refs, d) * gone|)),
           t.refs - gone)
  }

  /** Delete a row, its references with it. */
  function DropRow(t: Tables, d: Digest): Tables {
    Tables(t.rows - {d}, t.refs - RefsOf(t.refs, d))
  }

  function Touch(t: Tables, d: Digest, at: int): Tables {
    if d in t.rows then t.(rows := t.rows[d := t.rows[d].(lastUsed := at)]) else t
  }

  function OwnedBy(refs: map<Ref, Expiry>, kind: Kind, owner: nat): set<Ref> {
    set r | r in refs && r.kind == kind && r.owner == owner
  }

  function SetExpiry(t: Tables, kind: Kind, owner: nat, e: Expiry): Tables {
    t.(refs := map r | r in t.refs :: if r.kind == kind && r.owner == owner then e else t.refs[r])
  }

  /** All the upserts of one transaction. */
  function Retained(t: Tables, rs: seq<Ref>, e: Expiry): (u: Tables)
    requires forall r | r in rs :: r.digest in t.rows
    ensures u.rows.Keys == t.rows.Keys
  {
    if |rs| == 0 then t else Upsert(Retained(t, rs[..|rs| - 1], e), rs[|rs| - 1], e)
  }

  // ----- what the statements keep -----

  /** The foreign key: a reference has its row. */
  ghost predicate Linked(t: Tables) {
    forall r | r in t.refs :: r.digest in t.rows
  }

  /** The count of a row is the number of its references. */
  ghost predicate Counted(t: Tables) {
    forall d | d in t.rows :: t.rows[d].count == |RefsOf(t.refs, d)|
  }

  ghost predicate Sound(t: Tables) {
    Linked(t) && Counted(t)
  }

  function Sizes(t: Tables): map<Digest, nat> {
    map d | d in t.rows :: t.rows[d].size
  }

  lemma UpsertCounts(t: Tables, r: Ref, e: Expiry, d: Digest)
    requires Sound(t) && r.digest in t.rows && d in t.rows
    ensures Upsert(t, r, e).rows[d].count == |RefsOf(Upsert(t, r, e).refs, d)|
  {
    var refs := t.refs[r := e];
    assert r in RefsOf(t.refs, d) <==> r in t.refs && r.digest == d;
    if r.digest == d {
      assert RefsOf(refs, d) == RefsOf(t.refs, d) + {r};
    } else {
      assert RefsOf(refs, d) == RefsOf(t.refs, d);
    }
  }

  lemma UpsertKeeps(t: Tables, r: Ref, e: Expiry)
    requires Sound(t) && r.digest in t.rows
    ensures Sound(Upsert(t, r, e)) && Sizes(Upsert(t, r, e)) == Sizes(t)
  {
    forall d | d in t.rows
      ensures Upsert(t, r, e).rows[d].count == |RefsOf(Upsert(t, r, e).refs, d)|
    {
      UpsertCounts(t, r, e, d);
    }
  }

  /** A transaction of upserts sets the expiry of the named references and of no
      other. */
  lemma {:induction false} RetainedRefs(t: Tables, rs: seq<Ref>, e: Expiry, r: Ref)
    requires forall q | q in rs :: q.digest in t.rows
    ensures r in Retained(t, rs, e).refs <==> r in t.refs || r in rs
    ensures r in rs ==> Retained(t, rs, e).refs[r] == e
    ensures r in t.refs && r !in rs ==> Retained(t, rs, e).refs[r] == t.refs[r]
  {
    if |rs| > 0 {
      assert rs == rs[..|rs| - 1] + [rs[|rs| - 1]];
      RetainedRefs(t, rs[..|rs| - 1], e, r);
    }
  }

  lemma {:induction false} RetainedKeeps(t: Tables, rs: seq<Ref>, e: Expiry)
    requires Sound(t) && forall r | r in rs :: r.digest in t.rows
    ensures Sound(Retained(t, rs, e)) && Sizes(Retained(t, rs, e)) == Sizes(t)
  {
    if |rs| > 0 {
      RetainedKeeps(t, rs[..|rs| - 1], e);
      UpsertKeeps(Retained(t, rs[..|rs| - 1], e), rs[|rs| - 1], e);
    }
  }

  lemma DropRefsCounts(t: Tables, gone: set<Ref>, d: Digest)
    requires Sound(t) && d in t.rows
    ensures |RefsOf(t.refs, d) * gone| <= t.rows[d].count
    ensures |RefsOf(t.refs - gone, d)| == t.rows[d].count - |RefsOf(t.refs, d) * gone|
  {
    var all, out := RefsOf(t.refs, d), RefsOf(t.refs, d) * gone;
    assert RefsOf(t.refs - gone, d) == all - out;
    assert all == (all - out) + out;
  }

  /** Deleting references keeps the counts exact: there is always something to take
      one off, so the clamp at zero never acts. */
  lemma DropRefsKeeps(t: Tables, gone: set<Ref>)
    requires Sound(t)
    ensures Sound(DropRefs(t, gone)) && Sizes(DropRefs(t, gone)) == Sizes(t)
    ensures forall d | d in t.rows :: |RefsOf(t.refs, d) * gone| <= t.rows[d].count
  {
    forall d | d in t.rows
      ensures |RefsOf(t.refs, d) * gone| <= t.rows[d].count
      ensures |RefsOf(t.refs - gone, d)| == t.rows[d].count - |RefsOf(t.refs, d) * gone|
    {
      DropRefsCounts(t, gone, d);
    }
  }

  lemma DropRowKeeps(t: Tables, d: Digest)
    requires Sound(t)
    ensures Sound(DropRow(t, d)) && Sizes(DropRow(t, d)) == Sizes(t) - {d}
  {
    var u := DropRow(t, d);
    forall k | k in u.rows
      ensures RefsOf(u.refs, k) == RefsOf(t.refs, k)
    {
    }
  }

  lemma TouchKeeps(t: Tables, d: Digest, at: int)
    requires Sound(t)
    ensures Sound(Touch(t, d, at)) && Sizes(Touch(t, d, at)) == Sizes(t)
  {
  }

  lemma SetExpiryKeeps(t: Tables, kind: Kind, owner: nat, e: Expiry)
    requires Sound(t)
    ensures Sound(SetExpiry(t, kind, owner, e)) && Sizes(SetExpiry(t, kind, owner, e)) == Sizes(t)
  {
    var u := SetExpiry(t, kind, owner, e);
    forall d | d in u.rows
      ensures RefsOf(u.refs, d) == RefsOf(t.refs, d)
    {
    }
  }

  /** A new row, not yet referenced. */
  lemma InsertKeeps(t: Tables, d: Digest, size: nat, at: int)
    requires Sound(t) && d !in t.rows
    ensures var u := t.(rows := t.rows[d := Row(size, 0, at)]);
            Sound(u) && Sizes(u) == Sizes(t)[d := size]
  {
    assert RefsOf(t.refs, d) == {};
  }

  // ----- the space the blobs take -----

  ghost function SumOver(sizes: map<Digest, nat>, ks: set<Digest>): nat
    requires ks <= sizes.Keys
  {
    if ks == {} then 0
    else
      var d :| d in ks;
      sizes[d] + SumOver(sizes, ks - {d})
  }

  ghost function Total(t: Tables): nat {
    SumOver(Sizes(t), Sizes(t).Keys)
  }

  /** Any entry may be taken out first. */
  lemma {:induction false} SumTakes(sizes: map<Digest, nat>, ks: set<Digest>, d: Digest)
    requires ks <= sizes.Keys && d in ks
    ensures SumOver(sizes, ks) == sizes[d] + SumOver(sizes, ks - {d})
  {
    var first :| first in ks && SumOver(sizes, ks) == sizes[first] + SumOver(sizes, ks - {first});
    if first != d {
      SumTakes(sizes, ks - {first}, d);
      SumTakes(sizes, ks - {d}, first);
      assert ks - {first} - {d} == ks - {d} - {first};
    }
  }

  /** A part of some sizes sums to no more than all of them. */
  lemma {:induction false} SumMonotone(a: map<Digest, nat>, ks: set<Digest>, b: map<Digest, nat>, ls: set<Digest>)
    requires ks <= a.Keys && ls <= b.Keys && ks <= ls && forall k | k in ks :: a[k] == b[k]
    ensures SumOver(a, ks) <= SumOver(b, ls)
    ensures ks == ls ==> SumOver(a, ks) == SumOver(b, ls)
  {
    if ks != {} {
      var d :| d in ks;
      SumTakes(a, ks, d);
      SumTakes(b, ls, d);
      SumMonotone(a, ks - {d}, b, ls - {d});
    }
  }

  lemma TotalAdds(t: Tables, d: Digest, row: Row)
    requires d !in t.rows
    ensures Total(t.(rows := t.rows[d := row])) == Total(t) + row.size
  {
    var a, b := Sizes(t), Sizes(t.(rows := t.rows[d := row]));
    SumTakes(b, b.Keys, d);
    assert b.Keys - {d} == a.Keys;
    SumMonotone(a, a.Keys, b, a.Keys);
  }

  lemma TotalDrops(t: Tables, d: Digest)
    requires d in t.rows
    ensures Total(DropRow(t, d)) + t.rows[d].size == Total(t)
  {
    var a, b := Sizes(DropRow(t, d)), Sizes(t);
    SumTakes(b, b.Keys, d);
    assert b.Keys - {d} == a.Keys;
    SumMonotone(a, a.Keys, b, a.Keys);
  }
}
