/** Artifact records beside the blobs they name. A capture first retains its blobs
    under the ids of its artifacts, in one transaction of the blob store, and then
    inserts its records, in one transaction of the artifact store; both stores are
    collected independently and the process may die at any point. */
module Artifacts {
  import opened BlobTables
  import opened BlobMachine
  import opened BlobSafety

  /** What a capture publishes: each artifact is named by its reference, which holds
      its id and its digest. */
  datatype Batch = Batch(refs: seq<Ref>, expires: int)

  /** A record of the artifact table. */
  datatype Art = Art(capture: nat, expires: int)

  /** `pending` are the captures that have retained their blobs and not yet inserted
      their records, `committed` those that have, and `named` says of every artifact
      ever captured which capture it is of. */
  datatype Catalog = Catalog(
    rows: map<Ref, Art>, pending: map<nat, Batch>, committed: map<nat, Batch>, named: map<Ref, nat>)

  datatype World = World(blobs: State, catalog: Catalog)

  datatype Event =
    | Blobs(step: Step)
    | RetainBatch(capture: nat, batch: Batch)
    | InsertBatch(capture: nat, ok: bool)
    | DropExpired(now: int, gone: set<Ref>)

  // ----- events -----

  /** Nothing but a capture names references of the artifact kind. */
  predicate Foreign(step: Step) {
    match step
    case Retain(refs, _) => forall r | r in refs :: r.kind != Artifact
    case Expire(kind, _, _) => kind != Artifact
    case Release(kind, _) => kind != Artifact
    case _ => true
  }

  ghost function OnBlobs(c: Config, w: World, step: Step): World {
    if !Foreign(step) then w
    else World(Next(c, w.blobs, step),
               if step.Crash? || step.PowerLoss? then w.catalog.(pending := map[]) else w.catalog)
  }

  /** A new capture with new artifact ids. */
  predicate Novel(k: Catalog, n: nat, b: Batch) {
    && n !in k.pending && n !in k.committed
    && (forall r | r in b.refs :: r.kind == Artifact && r !in k.named)
  }

  function Retaining(b: Batch): Step {
    Retain(b.refs, At(b.expires))
  }

  /** The references are established, all of them, if the blobs are there. */
  ghost function OnRetainBatch(c: Config, w: World, n: nat, b: Batch): World {
    if !Novel(w.catalog, n, b) || !Serving(w.blobs.work) || !AllPresent(w.blobs.disk.tables, b.refs) then w
    else World(Next(c, w.blobs, Retaining(b)),
               w.catalog.(pending := w.catalog.pending[n := b],
                          named := w.catalog.named + map r | r in b.refs :: n))
  }

  function Inserted(k: Catalog, n: nat): Catalog
    requires n in k.pending
  {
    var b := k.pending[n];
    k.(rows := k.rows + map r | r in b.refs :: Art(n, b.expires),
       pending := k.pending - {n}, committed := k.committed[n := b])
  }

  /** The records become visible, all of them or none. */
  function OnInsertBatch(w: World, n: nat, ok: bool): World {
    if n !in w.catalog.pending then w
    else w.(catalog := if ok then Inserted(w.catalog, n) else w.catalog.(pending := w.catalog.pending - {n}))
  }

  ghost function OnDropExpired(w: World, now: int, gone: set<Ref>): World {
    if now <= w.blobs.clock && forall r | r in gone :: r in w.catalog.rows && w.catalog.rows[r].expires <= now
    then w.(catalog := w.catalog.(rows := w.catalog.rows - gone))
    else w
  }

  ghost function After(c: Config, w: World, e: Event): World {
    match e
    case Blobs(step) => OnBlobs(c, w, step)
    case RetainBatch(n, b) => OnRetainBatch(c, w, n, b)
    case InsertBatch(n, ok) => OnInsertBatch(w, n, ok)
    case DropExpired(now, gone) => OnDropExpired(w, now, gone)
  }

  ghost function Then(c: Config, w: World, events: seq<Event>): World {
    if |events| == 0 then w else After(c, Then(c, w, events[..|events| - 1]), events[|events| - 1])
  }

  /** Everything that happens to two stores that were empty at first. */
  ghost function History(c: Config, clock: int, events: seq<Event>): World {
    Then(c, World(Fresh(clock), Catalog(map[], map[], map[], map[])), events)
  }

  // ----- invariants -----

  /** The reference is in place, unless its time is over or its file went with its
      directory. */
  ghost predicate Held(s: State, r: Ref, expires: int) {
    expires > s.clock && r !in s.loose.lost ==>
      r in s.disk.tables.refs && s.disk.tables.refs[r] == At(expires)
  }

  ghost predicate RowsInv(s: State, k: Catalog) {
    forall r | r in k.rows ::
      && Held(s, r, k.rows[r].expires)
      && k.rows[r].capture in k.committed
      && r in k.committed[k.rows[r].capture].refs
      && k.rows[r].expires == k.committed[k.rows[r].capture].expires
  }

  /** The artifacts of a batch bear the number of its capture. */
  ghost predicate Labelled(named: map<Ref, nat>, n: nat, b: Batch) {
    forall r | r in b.refs :: r in named && named[r] == n
  }

  ghost predicate BatchHeld(s: State, b: Batch) {
    forall r | r in b.refs :: Held(s, r, b.expires)
  }

  ghost predicate PendingInv(s: State, k: Catalog) {
    forall n | n in k.pending :: Labelled(k.named, n, k.pending[n]) && BatchHeld(s, k.pending[n])
  }

  /** A committed batch is in the table, all of it, unless its time is over. */
  ghost predicate Published(s: State, rows: map<Ref, Art>, n: nat, b: Batch) {
    b.expires > s.clock ==> forall r | r in b.refs :: r in rows && rows[r].capture == n
  }

  ghost predicate CommittedInv(s: State, k: Catalog) {
    && k.pending.Keys !! k.committed.Keys
    && (forall r | r in k.rows :: r in k.named && k.named[r] == k.rows[r].capture)
    && (forall r | r in k.named :: r.kind == Artifact)
    && (forall n | n in k.committed :: Labelled(k.named, n, k.committed[n]) && Published(s, k.rows, n, k.committed[n]))
  }

  ghost predicate CatalogInv(s: State, k: Catalog) {
    RowsInv(s, k) && PendingInv(s, k) && CommittedInv(s, k)
  }

  ghost predicate Consistent(c: Config, w: World) {
    Inv(c, w.blobs) && CatalogInv(w.blobs, w.catalog)
  }

  // ----- every event keeps them -----

  lemma HeldStays(c: Config, s: State, step: Step, r: Ref, expires: int)
    requires Inv(c, s) && Held(s, r, expires) && !Names(step, r)
    ensures Held(Next(c, s, step), r, expires)
  {
    ClockGrows(c, s, step);
    if expires > s.clock && r !in s.loose.lost {
      UnexpiredStays(c, s, step, r);
    }
  }

  lemma BatchHeldStays(c: Config, s: State, step: Step, b: Batch)
    requires Inv(c, s) && BatchHeld(s, b) && forall r | r in b.refs :: !Names(step, r)
    ensures BatchHeld(Next(c, s, step), b)
  {
    forall r | r in b.refs
      ensures Held(Next(c, s, step), r, b.expires)
    {
      HeldStays(c, s, step, r, b.expires);
    }
  }

  lemma RowsStay(c: Config, s: State, step: Step, k: Catalog)
    requires Inv(c, s) && RowsInv(s, k) && forall r | r in k.rows :: !Names(step, r)
    ensures RowsInv(Next(c, s, step), k)
  {
    forall r | r in k.rows
      ensures Held(Next(c, s, step), r, k.rows[r].expires)
    {
      HeldStays(c, s, step, r, k.rows[r].expires);
    }
  }

  lemma PendingStays(c: Config, s: State, step: Step, k: Catalog)
    requires Inv(c, s) && PendingInv(s, k) && forall r | r in k.named :: !Names(step, r)
    ensures PendingInv(Next(c, s, step), k)
  {
    forall n | n in k.pending
      ensures BatchHeld(Next(c, s, step), k.pending[n])
    {
      BatchHeldStays(c, s, step, k.pending[n]);
    }
  }

  lemma CommittedStays(s: State, t: State, k: Catalog)
    requires CommittedInv(s, k) && s.clock <= t.clock
    ensures CommittedInv(t, k)
  {
  }

  /** A step of the blob store that names no artifact. */
  lemma StepKeeps(c: Config, s: State, step: Step, k: Catalog)
    requires Inv(c, s) && CatalogInv(s, k)
    requires forall r | r in k.named :: !Names(step, r)
    ensures CatalogInv(Next(c, s, step), k)
  {
    ClockGrows(c, s, step);
    RowsStay(c, s, step, k);
    PendingStays(c, s, step, k);
    CommittedStays(s, Next(c, s, step), k);
  }

  lemma ForgetPending(s: State, k: Catalog)
    requires CatalogInv(s, k)
    ensures CatalogInv(s, k.(pending := map[]))
  {
  }

  lemma BlobsKeep(c: Config, w: World, step: Step)
    requires Consistent(c, w)
    ensures Consistent(c, OnBlobs(c, w, step))
  {
    if Foreign(step) {
      NextKeeps(c, w.blobs, step);
      StepKeeps(c, w.blobs, step, w.catalog);
      ForgetPending(Next(c, w.blobs, step), w.catalog);
    }
  }

  lemma RetainBatchHolds(c: Config, s: State, b: Batch, r: Ref)
    requires Serving(s.work) && AllPresent(s.disk.tables, b.refs) && r in b.refs
    ensures Held(Next(c, s, Retaining(b)), r, b.expires)
  {
    RetainedRefs(s.disk.tables, b.refs, At(b.expires), r);
  }

  lemma AddPending(s: State, k: Catalog, n: nat, b: Batch)
    requires CatalogInv(s, k) && Novel(k, n, b) && BatchHeld(s, b)
    ensures CatalogInv(s, k.(pending := k.pending[n := b], named := k.named + map r | r in b.refs :: n))
  {
  }

  lemma RetainBatchKeeps(c: Config, w: World, n: nat, b: Batch)
    requires Consistent(c, w)
    ensures Consistent(c, OnRetainBatch(c, w, n, b))
  {
    if Novel(w.catalog, n, b) && Serving(w.blobs.work) && AllPresent(w.blobs.disk.tables, b.refs) {
      var t := Next(c, w.blobs, Retaining(b));
      NextKeeps(c, w.blobs, Retaining(b));
      StepKeeps(c, w.blobs, Retaining(b), w.catalog);
      forall r | r in b.refs
        ensures Held(t, r, b.expires)
      {
        RetainBatchHolds(c, w.blobs, b, r);
      }
      AddPending(t, w.catalog, n, b);
    }
  }

  lemma InsertKeepsRows(s: State, k: Catalog, n: nat)
    requires RowsInv(s, k) && PendingInv(s, k) && CommittedInv(s, k) && n in k.pending
    ensures RowsInv(s, Inserted(k, n))
  {
    var l := Inserted(k, n);
    forall r | r in l.rows
      ensures Held(s, r, l.rows[r].expires)
      ensures l.rows[r].capture in l.committed && r in l.committed[l.rows[r].capture].refs
      ensures l.rows[r].expires == l.committed[l.rows[r].capture].expires
    {
      if r !in k.pending[n].refs {
        assert r in k.rows && k.rows[r].capture != n;
      }
    }
  }

  lemma InsertKeepsCommitted(s: State, k: Catalog, n: nat)
    requires PendingInv(s, k) && CommittedInv(s, k) && n in k.pending
    ensures CommittedInv(s, Inserted(k, n))
  {
    var l := Inserted(k, n);
    forall m | m in l.committed
      ensures Labelled(l.named, m, l.committed[m]) && Published(s, l.rows, m, l.committed[m])
    {
      if m != n {
        assert Labelled(k.named, m, k.committed[m]) && Labelled(k.named, n, k.pending[n]);
      }
    }
  }

  lemma InsertBatchKeeps(c: Config, w: World, n: nat, ok: bool)
    requires Consistent(c, w)
    ensures Consistent(c, OnInsertBatch(w, n, ok))
  {
    if n in w.catalog.pending && ok {
      InsertKeepsRows(w.blobs, w.catalog, n);
      InsertKeepsCommitted(w.blobs, w.catalog, n);
    }
  }

  lemma DropKeepsCommitted(s: State, k: Catalog, now: int, gone: set<Ref>)
    requires RowsInv(s, k) && CommittedInv(s, k) && now <= s.clock
    requires forall r | r in gone :: r in k.rows && k.rows[r].expires <= now
    ensures CommittedInv(s, k.(rows := k.rows - gone))
  {
  }

  lemma DropExpiredKeeps(c: Config, w: World, now: int, gone: set<Ref>)
    requires Consistent(c, w)
    ensures Consistent(c, OnDropExpired(w, now, gone))
  {
    if now <= w.blobs.clock && forall r | r in gone :: r in w.catalog.rows && w.catalog.rows[r].expires <= now {
      DropKeepsCommitted(w.blobs, w.catalog, now, gone);
    }
  }

  lemma {:induction false} ConsistentThen(c: Config, w: World, events: seq<Event>)
    requires Consistent(c, w)
    ensures Consistent(c, Then(c, w, events))
  {
    if |events| > 0 {
      var v := Then(c, w, events[..|events| - 1]);
      ConsistentThen(c, w, events[..|events| - 1]);
      match events[|events| - 1] {
        case Blobs(step) => BlobsKeep(c, v, step);
        case RetainBatch(n, b) => RetainBatchKeeps(c, v, n, b);
        case InsertBatch(n, ok) => InsertBatchKeeps(c, v, n, ok);
        case DropExpired(now, gone) => DropExpiredKeeps(c, v, now, gone);
      }
    }
  }

  lemma ConsistentAlways(c: Config, clock: int, events: seq<Event>)
    ensures Consistent(c, History(c, clock, events))
  {
    var w := World(Fresh(clock), Catalog(map[], map[], map[], map[]));
    InvAlways(c, clock, []);
    assert CatalogInv(w.blobs, w.catalog);
    ConsistentThen(c, w, events);
  }

  // ----- runs of the blob store as events -----

  lemma OneEventMore(c: Config, w: World, events: seq<Event>, e: Event)
    ensures Then(c, w, events + [e]) == After(c, Then(c, w, events), e)
  {
    assert (events + [e])[..|events|] == events;
  }

  function AsEvents(steps: seq<Step>): (events: seq<Event>)
    ensures |events| == |steps|
  {
    if |steps| == 0 then [] else AsEvents(steps[..|steps| - 1]) + [Blobs(steps[|steps| - 1])]
  }

  /** Steps that name no artifact and no crash leave the catalog alone. */
  lemma {:induction false} EventsOfSteps(c: Config, w: World, steps: seq<Step>)
    requires forall i | 0 <= i < |steps| ::
               Foreign(steps[i]) && !steps[i].Crash? && !steps[i].PowerLoss?
    ensures Then(c, w, AsEvents(steps)) == World(Run(c, w.blobs, steps), w.catalog)
  {
    if |steps| > 0 {
      var front, last := steps[..|steps| - 1], steps[|steps| - 1];
      EventsOfSteps(c, w, front);
      OneEventMore(c, w, AsEvents(front), Blobs(last));
    }
  }

  // ----- what every history guarantees -----

  /** The artifacts of a capture that a listing shows: those not expired. */
  function Listed(w: World, n: nat): set<Ref> {
    set r | r in w.catalog.rows && w.catalog.rows[r].capture == n && w.catalog.rows[r].expires > w.blobs.clock
  }

  /** An artifact that can be listed still has its reference and its file if and only if
      that did not go with its directory, and then the content it names. */
  lemma ListedArtifactHasBlob(c: Config, clock: int, events: seq<Event>, n: nat, r: Ref)
    requires r in Listed(History(c, clock, events), n)
    ensures var s := History(c, clock, events).blobs;
            var k := s.disk;
            && (r in k.tables.refs && r.digest in k.files <==> r !in s.loose.lost)
            && (r !in s.loose.lost ==> r.digest in k.tables.rows && c.hash(k.files[r.digest]) == r.digest)
  {
    ConsistentAlways(c, clock, events);
    AlwaysSafe(c, History(c, clock, events).blobs);
  }

  /** A listing shows all the artifacts of a capture, once it has been committed and
      until it expires, and none before or after. */
  lemma AllOrNone(c: Config, clock: int, events: seq<Event>, n: nat)
    ensures var w := History(c, clock, events);
            Listed(w, n) == if n in w.catalog.committed && w.catalog.committed[n].expires > w.blobs.clock
                            then set r | r in w.catalog.committed[n].refs else {}
  {
    ConsistentAlways(c, clock, events);
  }
}
