/** Canonical request identity: the normal form of an execution specification
    that is hashed to tell a retried request from a different one. */
module Canonical {
  import opened Words
  import opened Wrappers
  import opened Ordering

  datatype EnvironmentEntry = EnvironmentEntry(name: string, value: string)
  datatype DeclaredOutput = DeclaredOutput(path: string, required: bool)
  datatype StdinPolicy = Null | Bytes(bytes: seq<Byte>)
  datatype OverflowPolicy = Truncate | Terminate
  datatype OutputPolicy = OutputPolicy(captureLimitBytes: nat, eventChunkBytes: nat, overflow: OverflowPolicy)
  datatype Requirement = NotRequested | BestEffort(value: nat) | Required(value: nat)
  datatype Resources = Resources(memoryBytes: Requirement, cpuMillis: Requirement, pids: Requirement)
  datatype Isolation = NoIsolation | BestEffortIsolation | RequiredIsolation
  datatype Network = Unrestricted | Disabled | AllowListed(hosts: seq<string>)

  datatype CommandSpec = CommandSpec(
    argv: seq<string>, cwd: Option<string>, environment: seq<EnvironmentEntry>,
    stdin: StdinPolicy, timeoutMillis: nat, output: OutputPolicy,
    declaredOutputs: seq<DeclaredOutput>, resources: Resources, isolation: Isolation,
    network: Network)

  datatype ExecutionSpec = ExecutionSpec(
    schemaVersion: nat, command: CommandSpec, metadata: seq<(string, string)>)

  // ----- the three comparators -----

  predicate EnvLeq(a: EnvironmentEntry, b: EnvironmentEntry) {
    StrLeq(a.name, b.name)
  }

  predicate MetaLeq(a: (string, string), b: (string, string)) {
    StrLeq(a.0, b.0) && (a.0 == b.0 ==> StrLeq(a.1, b.1))
  }

  predicate OutputLeq(a: DeclaredOutput, b: DeclaredOutput) {
    StrLeq(a.path, b.path) && (a.path == b.path ==> (a.required ==> b.required))
  }

  lemma ComparatorsAreOrders()
    ensures TotalPreorder(EnvLeq) && TotalPreorder(MetaLeq) && TotalPreorder(OutputLeq)
  {
    forall a: string, b: string ensures StrLeq(a, b) || StrLeq(b, a) { StrTotal(a, b); }
    forall a: string, b: string, c: string | StrLeq(a, b) && StrLeq(b, c) ensures StrLeq(a, c) {
      StrTransitive(a, b, c);
    }
    forall a: string, b: string | StrLeq(a, b) && StrLeq(b, a) ensures a == b {
      StrAntisymmetric(a, b);
    }
  }

  lemma PairsHaveNoTies(metadata: seq<(string, string)>, outputs: seq<DeclaredOutput>)
    ensures NoTies(metadata, MetaLeq) && NoTies(outputs, OutputLeq)
  {
    forall a: string, b: string | StrLeq(a, b) && StrLeq(b, a) ensures a == b {
      StrAntisymmetric(a, b);
    }
  }

  // ----- normalisation -----

  function Normalize(spec: ExecutionSpec): ExecutionSpec {
    spec.(metadata := Sort(spec.metadata, MetaLeq),
          command := spec.command.(
            environment := Sort(spec.command.environment, EnvLeq),
            declaredOutputs := Sort(spec.command.declaredOutputs, OutputLeq)))
  }

  /** Everything except the order of the three unordered lists is the same. */
  ghost predicate SameUpToOrder(a: ExecutionSpec, b: ExecutionSpec) {
    && a.(metadata := [], command := Ordered(a.command)) == b.(metadata := [], command := Ordered(b.command))
    && Permuted(a.metadata, b.metadata)
    && Permuted(a.command.environment, b.command.environment)
    && Permuted(a.command.declaredOutputs, b.command.declaredOutputs)
  }

  /** The fields whose order or value always matters. */
  function Ordered(command: CommandSpec): CommandSpec {
    command.(environment := [], declaredOutputs := [])
  }

  ghost predicate DistinctNames(environment: seq<EnvironmentEntry>) {
    forall i, j | 0 <= i < j < |environment| :: environment[i].name != environment[j].name
  }

  /** The duplicate check of `CommandSpec::validate`: the set of names seen refuses
      the second insertion of a name. */
  method NamesAreDistinct(environment: seq<EnvironmentEntry>) returns (distinct: bool)
    ensures distinct <==> DistinctNames(environment)
  {
    var names: set<string> := {};
    for i := 0 to |environment|
      invariant names == set j | 0 <= j < i :: environment[j].name
      invariant DistinctNames(environment[..i])
    {
      if environment[i].name in names {
        return false;
      }
      names := names + {environment[i].name};
    }
    assert environment[..|environment|] == environment;
    return true;
  }

  lemma DistinctNamesHaveNoTies(environment: seq<EnvironmentEntry>)
    requires DistinctNames(environment)
    ensures NoTies(environment, EnvLeq)
  {
    forall x, y | x in environment && y in environment && Same(x, y, EnvLeq) ensures x == y {
      StrAntisymmetric(x.name, y.name);
    }
  }

  lemma NormalFormKeepsContent(a: ExecutionSpec)
    ensures SameUpToOrder(a, Normalize(a))
  {
    ComparatorsAreOrders();
    SortSorts(a.metadata, MetaLeq);
    SortSorts(a.command.environment, EnvLeq);
    SortSorts(a.command.declaredOutputs, OutputLeq);
  }

  lemma NormalizeIsIdempotent(a: ExecutionSpec)
    ensures Normalize(Normalize(a)) == Normalize(a)
  {
    ComparatorsAreOrders();
    SortSorts(a.metadata, MetaLeq);
    SortSorts(a.command.environment, EnvLeq);
    SortSorts(a.command.declaredOutputs, OutputLeq);
    SortedStays(Sort(a.metadata, MetaLeq), MetaLeq);
    SortedStays(Sort(a.command.environment, EnvLeq), EnvLeq);
    SortedStays(Sort(a.command.declaredOutputs, OutputLeq), OutputLeq);
  }

  lemma SameNormalForm(a: ExecutionSpec, b: ExecutionSpec)
    requires NoTies(a.command.environment, EnvLeq) && SameUpToOrder(a, b)
    ensures Normalize(a) == Normalize(b)
  {
    ComparatorsAreOrders();
    PairsHaveNoTies(a.metadata, a.command.declaredOutputs);
    SortsAlike(a.metadata, b.metadata, MetaLeq);
    SortsAlike(a.command.environment, b.command.environment, EnvLeq);
    SortsAlike(a.command.declaredOutputs, b.command.declaredOutputs, OutputLeq);
    assert Ordered(a.command) == Ordered(b.command);
  }

  /** For specifications that pass the duplicate check, the normal form is the
      request up to order and nothing else. */
  lemma EqualNormalForms(a: ExecutionSpec, b: ExecutionSpec)
    requires DistinctNames(a.command.environment)
    ensures Normalize(a) == Normalize(b) <==> SameUpToOrder(a, b)
  {
    NormalFormKeepsContent(a);
    NormalFormKeepsContent(b);
    if SameUpToOrder(a, b) {
      DistinctNamesHaveNoTies(a.command.environment);
      SameNormalForm(a, b);
    }
  }

  /** Without that check: the normal form of a specification is independent of
      list order exactly when no two different entries share a name. */
  lemma CanonicalExactlyWithoutTies(a: ExecutionSpec)
    ensures NoTies(a.command.environment, EnvLeq)
       <==> forall b | SameUpToOrder(a, b) :: Normalize(b) == Normalize(a)
  {
    var env := a.command.environment;
    ComparatorsAreOrders();
    if NoTies(env, EnvLeq) {
      forall b | SameUpToOrder(a, b) ensures Normalize(b) == Normalize(a) {
        SameNormalForm(a, b);
      }
    } else {
      SortForgetsOrder(env, EnvLeq);
      var other :| Permuted(env, other) && Sort(other, EnvLeq) != Sort(env, EnvLeq);
      var b := a.(command := a.command.(environment := other));
      assert SameUpToOrder(a, b);
      assert Normalize(b).command.environment != Normalize(a).command.environment;
    }
  }
}
