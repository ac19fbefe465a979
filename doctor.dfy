/** Model of the index validator (cli/sift_search/doctor.py). What the doctor reads
    from the file system and the database is a snapshot; the L2-norm test on the
    sampled vector is a boolean of the snapshot, since it is floating-point work. The
    run yields the ordered check lines (label and PASS/FAIL) and the exit status. */
module Doctor {
  import opened Wrappers
  import opened PyText

  /** The row count of the FTS table, or the error its query raised. */
  datatype FtsProbe = FtsCount(n: nat) | FtsError

  /** What the doctor observes of the index file. `sample` is the first embedding row's
      blob, if there is one; `normOk` says whether that vector's norm is within 0.01
      of 1. */
  datatype Snapshot = Snapshot(
    fileExists: bool,
    openable: bool,
    tables: set<string>,
    chunkCount: nat,
    embeddingCount: nat,
    sample: Option<seq<bv8>>,
    normOk: bool,
    metadata: map<string, string>,
    fts: FtsProbe,
    sizeBytes: nat)

  /** One printed line: its name and whether it says PASS. */
  datatype Check = Check(name: string, pass: bool)

  datatype Verdict = Verdict(checks: seq<Check>, exitCode: nat)

  /** The tables reported, in order. */
  const ReportedTables: seq<string> := ["chunks", "chunks_fts", "embeddings", "sift_metadata"]
  /** The tables without which the run stops. */
  const CoreTables: set<string> := {"chunks", "embeddings", "sift_metadata"}
  const ExpectedDim: nat := 384
  /** "Index file size" passes above 10 KB. */
  const MinSizeBytes: nat := 10240

  function TableLabel(t: string): string {
    "Table '" + t + "' exists"
  }

  /** Every line so far said PASS: the value `all_pass` accumulates. */
  predicate AllPass(cs: seq<Check>) {
    cs == [] || (AllPass(cs[..|cs| - 1]) && cs[|cs| - 1].pass)
  }

  lemma AllPassSnoc(cs: seq<Check>, c: Check)
    ensures AllPass(cs + [c]) == (AllPass(cs) && c.pass)
  {
    assert (cs + [c])[..|cs|] == cs;
  }

  lemma {:induction false} AllPassMeans(cs: seq<Check>)
    ensures AllPass(cs) <==> forall i | 0 <= i < |cs| :: cs[i].pass
    decreases |cs|
  {
    if cs != [] {
      var init := cs[..|cs| - 1];
      AllPassMeans(init);
      assert forall i | 0 <= i < |init| :: cs[i] == init[i];
    }
  }

  /** `dict.get(key, default)`. */
  function Get(m: map<string, string>, key: string, default: string): string {
    if key in m then m[key] else default
  }

  // ---------------------------------------------------------------------------
  // The run, stage by stage

  function OpeningChecks(s: Snapshot): seq<Check> {
    [Check("Index file exists", s.fileExists)]
      + (if s.fileExists then [Check("Valid SQLite database", s.openable)] else [])
  }

  function TableChecks(tables: set<string>): seq<Check> {
    seq(|ReportedTables|, i requires 0 <= i < |ReportedTables| =>
      Check(TableLabel(ReportedTables[i]), ReportedTables[i] in tables))
  }

  function CountChecks(s: Snapshot): seq<Check> {
    [Check("Chunks indexed", s.chunkCount > 0),
     Check("Embedding count matches chunks", s.embeddingCount == s.chunkCount)]
  }

  /** `struct.unpack(f"{dim}f", blob)` needs exactly `4 * dim` bytes; otherwise it raises
      and the run ends with the exception. */
  predicate SampleUnpacks(s: Snapshot) {
    s.sample.None? || |s.sample.value| % 4 == 0
  }

  function SampleChecks(s: Snapshot): seq<Check> {
    match s.sample
    case Some(blob) =>
      [Check("Embedding dimensions", |blob| / 4 == ExpectedDim)]
        + (if |blob| % 4 == 0 then [Check("Vectors L2-normalized", s.normOk)] else [])
    case None => [Check("Embedding data", false)]
  }

  function MetadataChecks(s: Snapshot): seq<Check> {
    [Check("Model metadata", "model" in s.metadata),
     Check("Model is MiniLM", Contains(Get(s.metadata, "model", ""), "MiniLM"))]
  }

  function FtsChecks(s: Snapshot): seq<Check> {
    match s.fts
    case FtsCount(n) => [Check("FTS5 index populated", n == s.chunkCount)]
    case FtsError => [Check("FTS5 index", false)]
  }

  function SizeChecks(s: Snapshot): seq<Check> {
    [Check("Index file size", s.sizeBytes > MinSizeBytes)]
  }

  /** The lines through the table gate. */
  function GateChecks(s: Snapshot): seq<Check> {
    OpeningChecks(s) + if s.fileExists && s.openable then TableChecks(s.tables) else []
  }

  /** The lines of a run that passes both gates. */
  function BodyChecks(s: Snapshot): seq<Check> {
    if SampleUnpacks(s) then
      CountChecks(s) + SampleChecks(s) + MetadataChecks(s) + FtsChecks(s) + SizeChecks(s)
    else CountChecks(s) + SampleChecks(s)
  }

  /** `run_doctor`: a missing file or an unopenable database stops after its line; a
      missing core table stops after all four table lines; a sample that does not
      unpack stops after the dimension line; otherwise every check is reported and
      the run succeeds exactly when all of them passed. */
  function DoctorReport(s: Snapshot): Verdict {
    if !s.fileExists || !s.openable || !(CoreTables <= s.tables) then Verdict(GateChecks(s), 1)
    else
      var all := GateChecks(s) + BodyChecks(s);
      Verdict(all, if SampleUnpacks(s) && AllPass(all) then 0 else 1)
  }

  // ---------------------------------------------------------------------------
  // The imperative run

  /** `all_pass &= check(name, condition)`: the line is printed and folded into the
      running conjunction, which stays equal to "every line so far passed". */
  method Report(checks: seq<Check>, allPass: bool, name: string, condition: bool)
    returns (checks': seq<Check>, allPass': bool)
    ensures checks' == checks + [Check(name, condition)]
    ensures allPass' == (allPass && condition)
    ensures allPass == AllPass(checks) ==> allPass' == AllPass(checks')
  {
    checks' := checks + [Check(name, condition)];
    allPass' := allPass && condition;
    AllPassSnoc(checks, Check(name, condition));
  }

  /** The loop over the four reported tables. */
  method ReportTables(checks: seq<Check>, allPass: bool, tables: set<string>)
    returns (checks': seq<Check>, allPass': bool)
    requires allPass == AllPass(checks)
    ensures checks' == checks + TableChecks(tables)
    ensures allPass' == AllPass(checks')
  {
    ghost var lines := TableChecks(tables);
    checks', allPass' := checks, allPass;
    for i := 0 to |ReportedTables|
      invariant checks' == checks + lines[..i]
      invariant allPass' == AllPass(checks')
    {
      var t := ReportedTables[i];
      ghost var before := checks';
      checks', allPass' := Report(checks', allPass', TableLabel(t), t in tables);
      TableLineStep(checks, tables, i, before);
    }
    assert lines[..|ReportedTables|] == lines;
  }

  /** One pass of the table loop extends the reported lines by the next table's line. */
  lemma TableLineStep(checks: seq<Check>, tables: set<string>, i: nat, before: seq<Check>)
    requires i < |ReportedTables| && before == checks + TableChecks(tables)[..i]
    ensures before + [Check(TableLabel(ReportedTables[i]), ReportedTables[i] in tables)]
      == checks + TableChecks(tables)[..i + 1]
  {
    var lines := TableChecks(tables);
    assert lines[..i + 1] == lines[..i] + [lines[i]];
  }

  /** Steps 4 to 7: the counts and the sampled vector. `unpacked` is false when
      `struct.unpack` raised on the sample. */
  method ReportSample(s: Snapshot, checks: seq<Check>, allPass: bool)
    returns (checks': seq<Check>, allPass': bool, unpacked: bool)
    requires allPass == AllPass(checks)
    ensures checks' == checks + CountChecks(s) + SampleChecks(s)
    ensures unpacked == SampleUnpacks(s)
    ensures allPass' == AllPass(checks')
  {
    checks', allPass' := Report(checks, allPass, "Chunks indexed", s.chunkCount > 0);
    checks', allPass' := Report(checks', allPass', "Embedding count matches chunks", s.embeddingCount == s.chunkCount);
    checks', allPass', unpacked := ReportVector(s, checks', allPass');
  }

  /** Steps 6 and 7: the dimension and the norm of the sampled vector, or the missing
      embedding data. */
  method ReportVector(s: Snapshot, checks: seq<Check>, allPass: bool)
    returns (checks': seq<Check>, allPass': bool, unpacked: bool)
    requires allPass == AllPass(checks)
    ensures checks' == checks + SampleChecks(s)
    ensures unpacked == SampleUnpacks(s)
    ensures allPass' == AllPass(checks')
  {
    checks', allPass' := checks, allPass;
    unpacked := true;
    match s.sample {
      case Some(blob) =>
        var dim := |blob| / 4;
        checks', allPass' := Report(checks', allPass', "Embedding dimensions", dim == ExpectedDim);
        if |blob| % 4 != 0 {
          unpacked := false;
        } else {
          checks', allPass' := Report(checks', allPass', "Vectors L2-normalized", s.normOk);
        }
      case None =>
        checks', allPass' := Report(checks', allPass', "Embedding data", false);
    }
  }

  /** Step 8: the model metadata. */
  method ReportMetadata(s: Snapshot, checks: seq<Check>, allPass: bool)
    returns (checks': seq<Check>, allPass': bool)
    requires allPass == AllPass(checks)
    ensures checks' == checks + MetadataChecks(s)
    ensures allPass' == AllPass(checks')
  {
    var model := Get(s.metadata, "model", "");
    checks', allPass' := Report(checks, allPass, "Model metadata", "model" in s.metadata);
    checks', allPass' := Report(checks', allPass', "Model is MiniLM", Contains(model, "MiniLM"));
  }

  /** Steps 9 and 10: the FTS table and the file size. */
  method ReportFtsAndSize(s: Snapshot, checks: seq<Check>, allPass: bool)
    returns (checks': seq<Check>, allPass': bool)
    requires allPass == AllPass(checks)
    ensures checks' == checks + FtsChecks(s) + SizeChecks(s)
    ensures allPass' == AllPass(checks')
  {
    match s.fts {
      case FtsCount(n) =>
        checks', allPass' := Report(checks, allPass, "FTS5 index populated", n == s.chunkCount);
      case FtsError =>
        checks', allPass' := Report(checks, allPass, "FTS5 index", false);
    }
    checks', allPass' := Report(checks', allPass', "Index file size", s.sizeBytes > MinSizeBytes);
  }

  /** `run_doctor` on a snapshot: the printed lines and the exit status. */
  method RunDoctor(s: Snapshot) returns (checks: seq<Check>, exitCode: nat)
    ensures Verdict(checks, exitCode) == DoctorReport(s)
  {
    var allPass;
    checks, allPass := Report([], true, "Index file exists", s.fileExists);
    if !s.fileExists {
      return checks, 1;
    }
    checks, allPass := Report(checks, allPass, "Valid SQLite database", s.openable);
    if !s.openable {
      return checks, 1;
    }
    checks, allPass := ReportTables(checks, allPass, s.tables);
    if !(CoreTables <= s.tables) {
      return checks, 1;
    }
    ghost var gate := checks;
    var unpacked;
    checks, allPass, unpacked := ReportSample(s, checks, allPass);
    if !unpacked {
      assert checks == gate + BodyChecks(s);
      return checks, 1;
    }
    checks, allPass := ReportMetadata(s, checks, allPass);
    checks, allPass := ReportFtsAndSize(s, checks, allPass);
    assert checks == gate + BodyChecks(s);
    exitCode := if allPass then 0 else 1;
  }

  // ---------------------------------------------------------------------------
  // What the run promises

  /** A missing file gives one FAIL line and exit status 1; nothing else is checked. */
  lemma MissingFile(s: Snapshot)
    requires !s.fileExists
    ensures DoctorReport(s) == Verdict([Check("Index file exists", false)], 1)
  {
  }

  /** A file that does not open as a database gives a FAIL for "Valid SQLite database"
      right after the file line, and exit status 1. */
  lemma Unopenable(s: Snapshot)
    requires s.fileExists && !s.openable
    ensures DoctorReport(s) == Verdict([Check("Index file exists", true), Check("Valid SQLite database", false)], 1)
  {
  }

  /** Past the two file checks all four table lines are always reported, each passing
      exactly when its table exists; the run stops right after them when one of the
      three core tables is missing, and a missing FTS table alone does not stop it. */
  lemma TableGate(s: Snapshot)
    requires s.fileExists && s.openable
    ensures var v := DoctorReport(s);
      && |v.checks| >= 6
      && v.checks[..2] == [Check("Index file exists", true), Check("Valid SQLite database", true)]
      && (forall i | 0 <= i < 4 :: v.checks[2 + i] == Check(TableLabel(ReportedTables[i]), ReportedTables[i] in s.tables))
      && (!(CoreTables <= s.tables) <==> |v.checks| == 6 && v.exitCode == 1)
  {
    var v := DoctorReport(s);
    assert v.checks[..6] == GateChecks(s);
    if CoreTables <= s.tables {
      assert |BodyChecks(s)| >= 3;
    }
  }

  /** The checks after the gate, in order, and what each one tests. */
  lemma BodyLines(s: Snapshot)
    requires s.fileExists && s.openable && CoreTables <= s.tables
    ensures var c := DoctorReport(s).checks;
      && |c| >= 9
      && c[6] == Check("Chunks indexed", s.chunkCount > 0)
      && c[7] == Check("Embedding count matches chunks", s.embeddingCount == s.chunkCount)
      && (s.sample.Some? ==> c[8] == Check("Embedding dimensions", |s.sample.value| / 4 == ExpectedDim))
      && (s.sample.None? ==> c[8] == Check("Embedding data", false) && |c| == 13)
      && (s.sample.Some? && !SampleUnpacks(s) ==> |c| == 9)
      && (s.sample.Some? && SampleUnpacks(s) ==> |c| == 14 && c[9] == Check("Vectors L2-normalized", s.normOk))
  {
    var g := GateChecks(s);
    assert |g| == 6;
    assert DoctorReport(s).checks == g + BodyChecks(s);
  }

  /** The last four lines of a complete run: model metadata, the MiniLM name, the FTS
      count (or a FAIL when its query raised) and the file size. */
  lemma TailLines(s: Snapshot)
    requires s.fileExists && s.openable && CoreTables <= s.tables && SampleUnpacks(s)
    ensures var c := DoctorReport(s).checks;
      && |c| >= 4
      && c[|c| - 4] == Check("Model metadata", "model" in s.metadata)
      && c[|c| - 3] == Check("Model is MiniLM", "model" in s.metadata && Contains(s.metadata["model"], "MiniLM"))
      && c[|c| - 2] == (match s.fts
                        case FtsCount(n) => Check("FTS5 index populated", n == s.chunkCount)
                        case FtsError => Check("FTS5 index", false))
      && c[|c| - 1] == Check("Index file size", s.sizeBytes > MinSizeBytes)
  {
    var c := DoctorReport(s).checks;
    assert c == GateChecks(s) + CountChecks(s) + SampleChecks(s) + MetadataChecks(s) + FtsChecks(s) + SizeChecks(s);
    if "model" !in s.metadata {
      assert !Contains("", "MiniLM");
    }
  }

  /** The exit status is 0 exactly when every reported check passed and the run was
      not cut short by a sample that fails to unpack; it is 1 otherwise. */
  lemma ExitStatus(s: Snapshot)
    ensures var v := DoctorReport(s);
      && (v.exitCode == 0 || v.exitCode == 1)
      && (v.exitCode == 0 <==> SampleUnpacks(s) && forall i | 0 <= i < |v.checks| :: v.checks[i].pass)
  {
    var v := DoctorReport(s);
    AllPassMeans(v.checks);
    if !s.fileExists {
      assert !v.checks[0].pass;
    } else if !s.openable {
      assert !v.checks[1].pass;
    } else if !(CoreTables <= s.tables) {
      assert v.checks == OpeningChecks(s) + TableChecks(s.tables);
      if "chunks" !in s.tables {
        assert !v.checks[2].pass;
      } else if "embeddings" !in s.tables {
        assert !v.checks[4].pass;
      } else {
        assert !v.checks[5].pass;
      }
    }
  }

  /** The fourteen lines of a run on an index with every table, matching row counts,
      a 384-value sample and a MiniLM model name; only the norm and the file size
      are left open. */
  function HealthyChecks(normOk: bool, sizeOk: bool): seq<Check> {
    [Check("Index file exists", true), Check("Valid SQLite database", true)]
      + TableChecks(CoreTables + {"chunks_fts"})
      + [Check("Chunks indexed", true), Check("Embedding count matches chunks", true),
         Check("Embedding dimensions", true), Check("Vectors L2-normalized", normOk),
         Check("Model metadata", true), Check("Model is MiniLM", true),
         Check("FTS5 index populated", true), Check("Index file size", sizeOk)]
  }

  /** Every line of the healthy report passes except possibly the norm (line 9) and
      the file size (line 13), and all pass exactly when those two do. */
  lemma HealthyChecksPass(normOk: bool, sizeOk: bool)
    ensures |HealthyChecks(normOk, sizeOk)| == 14
    ensures forall i | 0 <= i < 14 && i != 9 && i != 13 :: HealthyChecks(normOk, sizeOk)[i].pass
    ensures HealthyChecks(normOk, sizeOk)[9].pass == normOk && HealthyChecks(normOk, sizeOk)[13].pass == sizeOk
    ensures AllPass(HealthyChecks(normOk, sizeOk)) <==> normOk && sizeOk
  {
    var c := HealthyChecks(normOk, sizeOk);
    var t := TableChecks(CoreTables + {"chunks_fts"});
    assert forall i | 0 <= i < 4 :: t[i].pass;
    assert forall i | 2 <= i < 6 :: c[i] == t[i - 2];
    AllPassMeans(c);
  }

  /** A snapshot of a healthy index passes both gates and reports the healthy lines. */
  lemma HealthyLines(s: Snapshot)
    requires s.fileExists && s.openable && s.tables == CoreTables + {"chunks_fts"}
    requires s.chunkCount > 0 && s.embeddingCount == s.chunkCount
    requires s.sample.Some? && |s.sample.value| == 4 * ExpectedDim
    requires "model" in s.metadata && Contains(s.metadata["model"], "MiniLM")
    requires s.fts == FtsCount(s.chunkCount)
    ensures DoctorReport(s).checks == HealthyChecks(s.normOk, s.sizeBytes > MinSizeBytes)
    ensures DoctorReport(s).exitCode == if AllPass(DoctorReport(s).checks) then 0 else 1
  {
    assert CoreTables <= s.tables;
    assert SampleUnpacks(s);
    assert GateChecks(s) == [Check("Index file exists", true), Check("Valid SQLite database", true)]
      + TableChecks(CoreTables + {"chunks_fts"});
    assert SampleChecks(s) == [Check("Embedding dimensions", true), Check("Vectors L2-normalized", s.normOk)];
    assert MetadataChecks(s) == [Check("Model metadata", true), Check("Model is MiniLM", true)];
    assert FtsChecks(s) == [Check("FTS5 index populated", true)];
  }

  /** On a healthy index every check except the norm and the file size passes, and the
      run succeeds exactly when those two pass. */
  lemma HealthyReport(s: Snapshot)
    requires s.fileExists && s.openable && s.tables == CoreTables + {"chunks_fts"}
    requires s.chunkCount > 0 && s.embeddingCount == s.chunkCount
    requires s.sample.Some? && |s.sample.value| == 4 * ExpectedDim
    requires "model" in s.metadata && Contains(s.metadata["model"], "MiniLM")
    requires s.fts == FtsCount(s.chunkCount)
    ensures DoctorReport(s).checks == HealthyChecks(s.normOk, s.sizeBytes > MinSizeBytes)
    ensures |DoctorReport(s).checks| == 14
    ensures forall i | 0 <= i < 14 && i != 9 && i != 13 :: DoctorReport(s).checks[i].pass
    ensures DoctorReport(s).exitCode == 0 <==> s.normOk && s.sizeBytes > MinSizeBytes
  {
    HealthyLines(s);
    HealthyChecksPass(s.normOk, s.sizeBytes > MinSizeBytes);
  }
}
