/** Job runs and the execution names that identify them. */
module JobRuns {
  import opened Numerals

  /** A document id in its canonical text form. */
  type DocumentId = s: string | |s| == 36 witness seq(36, _ => '0')

  datatype JobType = DocumentIndexing | EntityExtraction | EdgeExtraction | RegionClassification | Canonicalization
    | MalwareScan

  function TypeName(t: JobType): string {
    match t
    case DocumentIndexing => "document_indexing"
    case EntityExtraction => "entity_extraction"
    case EdgeExtraction => "edge_extraction"
    case RegionClassification => "region_classification"
    case Canonicalization => "canonicalization"
    case MalwareScan => "malware_scan"
  }

  datatype JobRun = JobRun(jobType: JobType, document: DocumentId, user: nat, attempt: nat)

  function ExecutionName(run: JobRun): string {
    TypeName(run.jobType) + ['-'] + run.document + ['-'] + Decimal(run.attempt)
  }

  ghost function DashIndex(s: string): nat {
    if s == [] || s[0] == '-' then 0 else 1 + DashIndex(s[1..])
  }

  lemma {:induction false} DashAfter(a: string, x: string)
    requires '-' !in a
    ensures DashIndex(a + ['-'] + x) == |a|
  {
    var s := a + ['-'] + x;
    if a != [] {
      assert a[0] in a;
      assert s[1..] == a[1..] + ['-'] + x;
      DashAfter(a[1..], x);
    }
  }

  /** Text up to the first dash is determined by the whole. */
  lemma DashSplit(a: string, x: string, b: string, y: string)
    requires '-' !in a && '-' !in b && a + ['-'] + x == b + ['-'] + y
    ensures a == b && x == y
  {
    var s, t := a + ['-'] + x, b + ['-'] + y;
    DashAfter(a, x);
    DashAfter(b, y);
    assert a == s[..|a|] && b == t[..|b|];
    assert x == s[|a| + 1..] && y == t[|b| + 1..];
  }

  lemma TypeNames(t: JobType, u: JobType)
    ensures '-' !in TypeName(t)
    ensures TypeName(t) == TypeName(u) ==> t == u
    ensures |TypeName(t)| <= 21
  {
    match t
    case DocumentIndexing => assert TypeName(t)[0] == 'd';
    case EntityExtraction => assert TypeName(t)[1] == 'n';
    case EdgeExtraction => assert TypeName(t)[1] == 'd';
    case RegionClassification => assert TypeName(t)[0] == 'r';
    case Canonicalization => assert TypeName(t)[0] == 'c';
    case MalwareScan => assert TypeName(t)[0] == 'm';
  }

  /** Two runs share an execution name only if they are the same attempt of the same job. */
  lemma ExecutionNameInjective(r: JobRun, q: JobRun)
    requires ExecutionName(r) == ExecutionName(q)
    ensures r.jobType == q.jobType && r.document == q.document && r.attempt == q.attempt
  {
    TypeNames(r.jobType, q.jobType);
    TypeNames(q.jobType, r.jobType);
    var x, y := r.document + ['-'] + Decimal(r.attempt), q.document + ['-'] + Decimal(q.attempt);
    assert ExecutionName(r) == TypeName(r.jobType) + ['-'] + x;
    assert ExecutionName(q) == TypeName(q.jobType) + ['-'] + y;
    DashSplit(TypeName(r.jobType), x, TypeName(q.jobType), y);
    assert r.document == x[..36] && q.document == y[..36];
    assert Decimal(r.attempt) == x[37..] && Decimal(q.attempt) == y[37..];
    DecimalInjective(r.attempt, q.attempt);
  }

  /** Names stay within Step Functions' 80 characters for every attempt of up to four digits, and well beyond. */
  lemma {:induction false} ExecutionNameFits(run: JobRun)
    requires run.attempt < 10000
    ensures |ExecutionName(run)| <= 63
  {
    TypeNames(run.jobType, run.jobType);
    var n := run.attempt;
    assert n >= 10 ==> |Decimal(n)| == |Decimal(n / 10)| + 1;
    assert n >= 100 ==> |Decimal(n / 10)| == |Decimal(n / 10 / 10)| + 1;
    assert n >= 1000 ==> |Decimal(n / 10 / 10)| == |Decimal(n / 10 / 10 / 10)| + 1;
  }
}
