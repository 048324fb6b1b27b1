/** Opening the blob store: the two durable layers are brought to agree, whatever a
    crash left behind, and a start-up that fails half-way leaves the rest to the next. */
module BlobStartup {
  import opened BlobTables
  import opened BlobMachine
  import opened BlobSafety

  /** The rows of some digests, with their references. */
  function Kept(t: Tables, keep: set<Digest>): Tables {
    Tables(map d | d in t.rows && d in keep :: t.rows[d],
           map r | r in t.refs && r.digest in keep :: t.refs[r])
  }

  function Those(files: map<Digest, Content>, keep: set<Digest>): map<Digest, Content> {
    map d | d in files && d in keep :: files[d]
  }

  /** What start-up makes of the disk it finds. */
  function Reconciled(k: Disk): Disk {
    Disk(Kept(k.tables, k.files.Keys), Those(k.files, k.tables.rows.Keys), map[], k.shards)
  }

  /** What start-up cannot remove. */
  datatype Stuck = Stuck(parts: set<nat>, rows: set<Digest>, files: set<Digest>)

  /** Nothing that has to go is stuck. */
  ghost predicate Openable(k: Disk, stuck: Stuck) {
    && k.parts.Keys !! stuck.parts
    && (k.tables.rows.Keys - k.files.Keys) !! stuck.rows
    && (k.files.Keys - k.tables.rows.Keys) !! stuck.files
  }

  lemma KeptDrops(t: Tables, keep: set<Digest>, d: Digest)
    ensures DropRow(Kept(t, keep), d) == Kept(t, keep - {d})
  {
    var a, b := DropRow(Kept(t, keep), d), Kept(t, keep - {d});
    assert a.rows == b.rows;
    assert a.refs == b.refs;
  }

  lemma KeptChecks(t: Tables, files: set<Digest>, pending: set<Digest>, d: Digest)
    ensures var u := Kept(t, files + pending);
            Kept(t, files + (pending - {d})) == if d in files then u else DropRow(u, d)
  {
    if d in files {
      assert files + pending == files + (pending - {d});
    } else {
      KeptDrops(t, files + pending, d);
      assert files + pending - {d} == files + (pending - {d});
    }
  }

  lemma KeptAll(t: Tables, files: set<Digest>)
    requires Sound(t)
    ensures Kept(t, files + t.rows.Keys) == t && Kept(t, files + {}) == Kept(t, files)
  {
    assert files + {} == files;
    assert Kept(t, files + t.rows.Keys).rows == t.rows;
    assert Kept(t, files + t.rows.Keys).refs == t.refs;
  }

  lemma FailedStart(c: Config, s: State, trace: seq<Step>)
    ensures Run(c, s, trace + [Crash]) == Run(c, s, trace).(work := Down)
  {
    RunGrows(c, s, trace, Crash);
  }

  lemma PhaseEnds(c: Config, s: State, trace: seq<Step>)
    ensures Run(c, s, trace + [NextPhase]) == OnNextPhase(Run(c, s, trace))
  {
    RunGrows(c, s, trace, NextPhase);
  }

  lemma SweepPartStep(c: Config, s: State, trace: seq<Step>, left: map<nat, Content>, p: nat)
    requires s.work.SweepingParts? && Run(c, s, trace) == s.(disk := s.disk.(parts := left))
    ensures Run(c, s, trace + [SweepPart(p)]) == s.(disk := s.disk.(parts := left - {p}))
  {
    RunGrows(c, s, trace, SweepPart(p));
  }

  method SweepParts(c: Config, parts: map<nat, Content>, stuck: set<nat>, ghost s: State)
    returns (ok: bool, left: map<nat, Content>, ghost trace: seq<Step>)
    requires s.work.SweepingParts? && s.disk.parts == parts
    ensures ok <==> parts.Keys !! stuck
    ensures ok ==> left == map[]
    ensures var rows := s.disk.tables.rows.Keys;
            Run(c, s, trace)
            == s.(disk := s.disk.(parts := left), work := if ok then CheckingRows(rows, rows) else Down)
  {
    left, trace := parts, [];
    while left != map[]
      invariant left.Keys <= parts.Keys && (parts.Keys - left.Keys) !! stuck
      invariant Run(c, s, trace) == s.(disk := s.disk.(parts := left))
      decreases left.Keys
    {
      var p :| p in left;
      if p in stuck {
        FailedStart(c, s, trace);
        return false, left, trace + [Crash];
      }
      SweepPartStep(c, s, trace, left, p);
      trace := trace + [SweepPart(p)];
      left := left - {p};
    }
    PhaseEnds(c, s, trace);
    ok, trace := true, trace + [NextPhase];
  }

  lemma CheckRowStep(c: Config, s: State, trace: seq<Step>, t: Tables, known: set<Digest>, pending: set<Digest>,
                     d: Digest)
    requires d in pending
    requires Run(c, s, trace) == s.(disk := s.disk.(tables := t), work := CheckingRows(known, pending))
    ensures Run(c, s, trace + [CheckRow(d)])
         == s.(disk := s.disk.(tables := if d in s.disk.files then t else DropRow(t, d)),
               work := CheckingRows(known, pending - {d}))
  {
    RunGrows(c, s, trace, CheckRow(d));
  }

  method CheckRows(c: Config, k: Disk, stuck: set<Digest>, ghost s: State)
    returns (ok: bool, t: Tables, pending: set<Digest>, ghost trace: seq<Step>)
    requires Sound(k.tables) && s.disk == k && s.work == CheckingRows(k.tables.rows.Keys, k.tables.rows.Keys)
    ensures ok <==> (k.tables.rows.Keys - k.files.Keys) !! stuck
    ensures ok ==> pending == {}
    ensures t == Kept(k.tables, k.files.Keys + pending)
    ensures Run(c, s, trace)
         == s.(disk := k.(tables := t), work := if ok then SweepingFiles(k.tables.rows.Keys, k.files.Keys) else Down)
  {
    ghost var known := k.tables.rows.Keys;
    t, trace := k.tables, [];
    pending := k.tables.rows.Keys;
    KeptAll(k.tables, k.files.Keys);
    while pending != {}
      invariant pending <= known && (known - pending - k.files.Keys) !! stuck
      invariant t == Kept(k.tables, k.files.Keys + pending)
      invariant Run(c, s, trace) == s.(disk := k.(tables := t), work := CheckingRows(known, pending))
      decreases pending
    {
      var d :| d in pending;
      if d !in k.files && d in stuck {
        FailedStart(c, s, trace);
        return false, t, pending, trace + [Crash];
      }
      CheckRowStep(c, s, trace, t, known, pending, d);
      KeptChecks(k.tables, k.files.Keys, pending, d);
      trace := trace + [CheckRow(d)];
      if d !in k.files {
        t := DropRow(t, d);
      }
      pending := pending - {d};
    }
    PhaseEnds(c, s, trace);
    ok, trace := true, trace + [NextPhase];
  }

  /** A state that differs in its files, and in what is not synchronised. */
  ghost predicate Swept(s: State, t: State, files: map<Digest, Content>, known: set<Digest>, pending: set<Digest>) {
    t == State(s.disk.(files := files), t.loose, s.clock, SweepingFiles(known, pending))
  }

  lemma SweepFileStep(c: Config, s: State, trace: seq<Step>, files: map<Digest, Content>, known: set<Digest>,
                      pending: set<Digest>, d: Digest)
    requires d in pending && Swept(s, Run(c, s, trace), files, known, pending)
    ensures Swept(s, Run(c, s, trace + [SweepFile(d)]), if d in known then files else files - {d}, known, pending - {d})
  {
    RunGrows(c, s, trace, SweepFile(d));
    assert d !in files ==> files - {d} == files;
  }

  method SweepFiles(c: Config, k: Disk, known: set<Digest>, stuck: set<Digest>, ghost s: State)
    returns (ok: bool, files: map<Digest, Content>, ghost pending: set<Digest>, ghost trace: seq<Step>)
    requires s.disk == k && s.work == SweepingFiles(known, k.files.Keys)
    ensures ok <==> (k.files.Keys - known) !! stuck
    ensures ok ==> pending == {}
    ensures files == Those(k.files, known + pending)
    ensures var t := Run(c, s, trace);
            t == State(k.(files := files), t.loose, s.clock, if ok then Idle else Down)
  {
    files, trace := k.files, [];
    var open := k.files.Keys;
    assert files == Those(k.files, known + open);
    while open != {}
      invariant open <= k.files.Keys && (k.files.Keys - open - known) !! stuck
      invariant files == Those(k.files, known + open)
      invariant Swept(s, Run(c, s, trace), files, known, open)
      decreases open
    {
      var d :| d in open;
      if d !in known && d in stuck {
        FailedStart(c, s, trace);
        return false, files, open, trace + [Crash];
      }
      SweepFileStep(c, s, trace, files, known, open, d);
      trace := trace + [SweepFile(d)];
      if d !in known {
        files := files - {d};
      }
      open := open - {d};
    }
    PhaseEnds(c, s, trace);
    ok, pending, trace := true, {}, trace + [NextPhase];
  }

  /** A repair that stopped half-way leaves the same for the next one to find. */
  lemma HalfReconciled(k: Disk, parts: map<nat, Content>, keep: set<Digest>, files: map<Digest, Content>)
    requires Linked(k.tables) && k.files.Keys <= keep
    requires files.Keys <= k.files.Keys && k.tables.rows.Keys * k.files.Keys <= files.Keys
    requires forall d | d in files :: files[d] == k.files[d]
    ensures Reconciled(Disk(Kept(k.tables, keep), files, parts, k.shards)) == Reconciled(k)
  {
    var l := Disk(Kept(k.tables, keep), files, parts, k.shards);
    assert Reconciled(l).tables.rows == Reconciled(k).tables.rows;
    assert Reconciled(l).tables.refs == Reconciled(k).tables.refs;
    assert Reconciled(l).files == Reconciled(k).files;
  }

  /** Removes stale parts, rows without a file and files without a row, unless one of
      them is stuck; then the store does not open. */
  method Reconcile(c: Config, k: Disk, stuck: Stuck, ghost s: State)
    returns (ok: bool, l: Disk, ghost trace: seq<Step>)
    requires Sound(k.tables) && s.disk == k && s.work.Down?
    ensures ok <==> Openable(k, stuck)
    ensures ok ==> l == Reconciled(k)
    ensures Reconciled(l) == Reconciled(k)
    ensures var t := Run(c, s, trace);
            t.disk == l && t.clock == s.clock && t.work == if ok then Idle else Down
  {
    var parts, tables, pending;
    ghost var more;
    RunGrows(c, s, [], Boot);
    trace := [] + [Boot];
    ok, parts, more := SweepParts(c, k.parts, stuck.parts, s.(work := SweepingParts));
    RunJoins(c, s, trace, more);
    trace := trace + more;
    KeptAll(k.tables, k.files.Keys);
    if !ok {
      HalfReconciled(k, parts, k.files.Keys + k.tables.rows.Keys, k.files);
      return false, k.(parts := parts), trace;
    }
    l := k.(parts := map[]);
    ok, tables, pending, more := CheckRows(c, l, stuck.rows, Run(c, s, trace));
    RunJoins(c, s, trace, more);
    trace := trace + more;
    if !ok {
      HalfReconciled(k, map[], k.files.Keys + pending, k.files);
      return false, l.(tables := tables), trace;
    }
    ok, l, more := ReconcileFiles(c, k, l.(tables := tables), stuck.files, Run(c, s, trace));
    RunJoins(c, s, trace, more);
    trace := trace + more;
  }

  /** The last phase, after the first two have gone well. */
  method ReconcileFiles(c: Config, k: Disk, half: Disk, stuck: set<Digest>, ghost s: State)
    returns (ok: bool, l: Disk, ghost trace: seq<Step>)
    requires Linked(k.tables) && half == Disk(Kept(k.tables, k.files.Keys), k.files, map[], k.shards)
    requires s.disk == half && s.work == SweepingFiles(k.tables.rows.Keys, k.files.Keys)
    ensures ok <==> (k.files.Keys - k.tables.rows.Keys) !! stuck
    ensures ok ==> l == Reconciled(k)
    ensures Reconciled(l) == Reconciled(k)
    ensures var t := Run(c, s, trace);
            t.disk == l && t.clock == s.clock && t.work == if ok then Idle else Down
  {
    var files;
    ghost var left;
    ok, files, left, trace := SweepFiles(c, half, k.tables.rows.Keys, stuck, s);
    l := half.(files := files);
    HalfReconciled(k, map[], k.files.Keys, files);
    if ok {
      assert k.tables.rows.Keys + left == k.tables.rows.Keys;
    }
  }

  /** Start-up has nothing to do on what start-up left. */
  lemma ReconciledTwice(k: Disk)
    requires Linked(k.tables)
    ensures Reconciled(Reconciled(k)) == Reconciled(k)
  {
    HalfReconciled(k, map[], k.files.Keys, Those(k.files, k.tables.rows.Keys));
  }

  /** Start-up makes the layers agree and loses no blob that an unexpired reference
      names, but for those whose file went with its directory. */
  lemma ReconciledAgrees(s: State)
    requires Linked(s.disk.tables) && Safe(s) && LostIsGone(s)
    ensures var k, l := s.disk, Reconciled(s.disk);
            && l.tables.rows.Keys == l.files.Keys == k.tables.rows.Keys * k.files.Keys
            && forall r | r in k.tables.refs && !Expired(k.tables.refs[r], s.clock) ::
                 && (r in l.tables.refs <==> r !in s.loose.lost)
                 && (r in l.tables.refs ==>
                       && l.tables.refs[r] == k.tables.refs[r]
                       && r.digest in l.files && l.files[r.digest] == k.files[r.digest])
  {
  }

  /** Wherever a run is cut short, the next start-up leaves the layers in agreement and
      an unexpired reference in place, with the content it names, if and only if its file
      did not go with its directory. */
  lemma CrashLosesNothingLive(c: Config, clock: int, steps: seq<Step>, r: Ref)
    requires var s := Run(c, Fresh(clock), steps);
             r in s.disk.tables.refs && !Expired(s.disk.tables.refs[r], s.clock)
    ensures var s := Run(c, Fresh(clock), steps);
            var k, l := s.disk, Reconciled(s.disk);
            && l.tables.rows.Keys == l.files.Keys
            && (r in l.tables.refs <==> r !in s.loose.lost)
            && (r in l.tables.refs ==>
                  && l.tables.refs[r] == k.tables.refs[r]
                  && r.digest in k.files && r.digest in l.files && l.files[r.digest] == k.files[r.digest])
  {
    InvAlways(c, clock, steps);
    AlwaysSafe(c, Run(c, Fresh(clock), steps));
    ReconciledAgrees(Run(c, Fresh(clock), steps));
  }
}
