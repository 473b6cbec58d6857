/** The offline proof that recorded migration checksums belong to the source files at hand, up
    to line endings. Hashing is an abstract function. */
module MigrationSources {
  import opened Wrappers

  type Byte = b: int | 0 <= b < 256
  type Bytes = seq<Byte>

  const CR: Byte := 13
  const LF: Byte := 10

  // ---------- Line endings ----------

  /** Every CRLF pair replaced by LF, from the left. */
  function ToLf(s: Bytes): Bytes {
    if |s| >= 2 && s[0] == CR && s[1] == LF then [LF] + ToLf(s[2..])
    else if s == [] then []
    else [s[0]] + ToLf(s[1..])
  }

  /** Every LF replaced by a CRLF pair. */
  function ToCrlf(s: Bytes): Bytes {
    if s == [] then []
    else (if s[0] == LF then [CR, LF] else [s[0]]) + ToCrlf(s[1..])
  }

  ghost predicate NoCrlf(s: Bytes) {
    forall i :: 0 <= i < |s| - 1 ==> !(s[i] == CR && s[i + 1] == LF)
  }

  lemma CrlfNeverStartsWithLf(s: Bytes)
    ensures ToCrlf(s) != [] ==> ToCrlf(s)[0] != LF
  {
  }

  /** Converting to CRLF and back is the identity on every byte string, mixed endings included. */
  lemma {:induction false} CrlfRoundTrip(s: Bytes)
    ensures ToLf(ToCrlf(s)) == s
  {
    if s != [] {
      var rest, text := ToCrlf(s[1..]), ToCrlf(s);
      CrlfRoundTrip(s[1..]);
      CrlfNeverStartsWithLf(s[1..]);
      if s[0] == LF {
        assert text[2..] == rest;
      } else {
        assert text[1..] == rest;
        assert |rest| > 0 ==> text[1] == rest[0];
      }
      assert s == [s[0]] + s[1..];
    }
  }

  /** Converting to LF changes a text exactly when it contains a CRLF pair. */
  lemma {:induction false} LfFixesExactly(s: Bytes)
    ensures |ToLf(s)| <= |s|
    ensures ToLf(s) == s <==> NoCrlf(s)
    decreases |s|
  {
    if |s| >= 2 && s[0] == CR && s[1] == LF {
      LfFixesExactly(s[2..]);
      assert |ToLf(s)| < |s|;
      assert !NoCrlf(s);
    } else if s != [] {
      var rest := s[1..];
      LfFixesExactly(rest);
      assert ToLf(s) == [s[0]] + ToLf(rest) && s == [s[0]] + rest;
      assert ToLf(s)[1..] == ToLf(rest);
      if NoCrlf(rest) {
        forall i | 0 <= i < |s| - 1 ensures !(s[i] == CR && s[i + 1] == LF) {
          assert i > 0 ==> rest[i - 1] == s[i] && rest[i] == s[i + 1];
        }
      } else {
        var i :| 0 <= i < |rest| - 1 && rest[i] == CR && rest[i + 1] == LF;
        assert s[i + 1] == CR && s[i + 2] == LF;
      }
    }
  }

  lemma {:induction false} CrlfGrows(s: Bytes)
    ensures |ToCrlf(s)| >= |s|
    ensures |ToCrlf(s)| == |s| ==> LF !in s
  {
    if s != [] {
      CrlfGrows(s[1..]);
      assert s == [s[0]] + s[1..];
    }
  }

  /** Line feed is byte 10 and carriage return byte 13: a mixed text of two lines, both ways. */
  lemma LineEndingExample()
    ensures ToLf([97, 13, 10, 98, 10]) == [97, 10, 98, 10]
    ensures ToCrlf([97, 10, 98, 10]) == [97, 13, 10, 98, 13, 10]
  {
    var mixed: Bytes, plain: Bytes := [97, 13, 10, 98, 10], [97, 10, 98, 10];
    assert mixed[1..] == [13, 10, 98, 10] && mixed[1..][2..] == [98, 10] && [98, 10][1..] == [10];
    assert plain[1..] == [10, 98, 10] && plain[1..][1..] == [98, 10];
  }

  // ---------- Candidates ----------

  datatype Label = OriginalBytes | LfBytes | CrlfBytes

  type Hash = Bytes -> string

  function Candidate(how: Label, original: Bytes): Bytes {
    match how
    case OriginalBytes => original
    case LfBytes => ToLf(original)
    case CrlfBytes => ToCrlf(ToLf(original))
  }

  /** The order in which candidates are preferred. */
  function Preference(how: Label): nat {
    match how
    case OriginalBytes => 0
    case LfBytes => 1
    case CrlfBytes => 2
  }

  /** The preferred candidate among those whose hash is the recorded one. */
  function Reconstruct(sha: Hash, original: Bytes, recorded: string): (r: Option<Label>)
    ensures r.Some? ==> sha(Candidate(r.value, original)) == recorded
    ensures r.Some? ==> forall how: Label :: sha(Candidate(how, original)) == recorded ==>
                          Preference(r.value) <= Preference(how)
    ensures r.None? ==> forall how: Label :: sha(Candidate(how, original)) != recorded
  {
    if sha(original) == recorded then Some(OriginalBytes)
    else if sha(ToLf(original)) == recorded then Some(LfBytes)
    else if sha(ToCrlf(ToLf(original))) == recorded then Some(CrlfBytes)
    else None
  }

  /** A text without CRLF pairs, held in either form, matches a checksum recorded for either. */
  lemma EitherFormMatchesEither(sha: Hash, text: Bytes, source: Bytes, applied: Bytes)
    requires NoCrlf(text)
    requires source == text || source == ToCrlf(text)
    requires applied == text || applied == ToCrlf(text)
    ensures Reconstruct(sha, source, sha(applied)).Some?
  {
    LfFixesExactly(text);
    CrlfRoundTrip(text);
    assert Candidate(LfBytes, source) == text;
    assert Candidate(CrlfBytes, source) == ToCrlf(text);
  }

  ghost predicate CollisionFree(sha: Hash) {
    forall a, b :: sha(a) == sha(b) ==> a == b
  }

  /** With a collision-free hash, a source matches the checksum of its own CRLF conversion exactly
      when it holds no CRLF pair already; the other direction, from the converted file back to the
      recorded original, always works. */
  lemma ConversionMatchesExactly(sha: Hash, text: Bytes)
    requires CollisionFree(sha)
    ensures Reconstruct(sha, text, sha(ToCrlf(text))).Some? <==> NoCrlf(text)
    ensures Reconstruct(sha, ToCrlf(text), sha(text)).Some?
  {
    LfFixesExactly(text);
    CrlfRoundTrip(text);
    CrlfGrows(text);
    if NoCrlf(text) {
      EitherFormMatchesEither(sha, text, text, ToCrlf(text));
    }
    var r := Reconstruct(sha, text, sha(ToCrlf(text)));
    if r.Some? {
      assert Candidate(r.value, text) == ToCrlf(text);
      CrlfRoundTrip(ToLf(text));
      assert r.value == CrlfBytes ==> ToLf(text) == text;
    }
    assert Candidate(LfBytes, ToCrlf(text)) == text;
  }

  // ---------- The verification loop ----------

  /** One entry of the recorded history; a missing or mistyped field is None. */
  datatype Record = Record(filename: Option<string>, checksum: Option<string>) | NotARecord

  /** What the script reads from outside: the files inside the directory, UTF-8 decoding, the two
      filename and checksum patterns, and the hash. */
  datatype Sources = Sources(
    directoryExists: bool, files: map<string, Bytes>, isText: Bytes -> bool,
    validName: string -> bool, validChecksum: string -> bool, sha: Hash)

  datatype Row = Row(filename: string, recorded: string, sourceHash: string, reconstruction: Label)

  datatype Problem =
    | MissingHistory | InvalidRecord | InvalidFilename | InvalidChecksum | MissingSource | NotText | NoMatch

  datatype Report = Report(
    appliedCount: nat, originalMatches: nat, reconstructions: nat, unapplied: set<string>, rows: seq<Row>)

  /** The SQL files of the directory. */
  function SqlFiles(src: Sources): set<string> {
    set name | name in src.files && |name| >= 4 && name[|name| - 4..] == ".sql"
  }

  /** In the script's own terms: the record names a file and a checksum that fit their patterns, the
      file is there and decodes, and its bytes have that checksum as they are, with every CRLF pair
      made LF, or with every line end of that made CRLF. */
  ghost predicate RecordFine(src: Sources, r: Record) {
    exists name, checksum ::
      && r == Record(Some(name), Some(checksum)) && src.validName(name) && src.validChecksum(checksum)
      && name in src.files && src.isText(src.files[name])
      && checksum in {src.sha(src.files[name]), src.sha(ToLf(src.files[name])), src.sha(ToCrlf(ToLf(src.files[name])))}
  }

  lemma RecordMeaning(src: Sources, r: Record)
    ensures RecordFine(src, r) <==> Verifiable(src, r)
  {
    if Verifiable(src, r) {
      assert r == Record(Some(r.filename.value), Some(r.checksum.value));
    }
    if RecordFine(src, r) {
      var original, recorded := src.files[r.filename.value], r.checksum.value;
      assert Candidate(OriginalBytes, original) == original;
      assert Candidate(LfBytes, original) == ToLf(original);
      assert Candidate(CrlfBytes, original) == ToCrlf(ToLf(original));
    }
  }

  /** What is said of an accepted record. */
  ghost predicate RowSays(src: Sources, r: Record, row: Row) {
    && r == Record(Some(row.filename), Some(row.recorded)) && row.filename in src.files
    && row.sourceHash == src.sha(src.files[row.filename])
    && (row.reconstruction == OriginalBytes <==> row.recorded == row.sourceHash)
    && (row.reconstruction == LfBytes ==> row.recorded == src.sha(ToLf(src.files[row.filename])))
    && (row.reconstruction == CrlfBytes ==>
          && row.recorded == src.sha(ToCrlf(ToLf(src.files[row.filename])))
          && row.recorded != src.sha(ToLf(src.files[row.filename])))
  }

  lemma RowMeaning(src: Sources, r: Record)
    requires Verifiable(src, r)
    ensures RowSays(src, r, RowFor(src, r))
  {
    var original := src.files[r.filename.value];
    assert Candidate(LfBytes, original) == ToLf(original);
    assert Candidate(CrlfBytes, original) == ToCrlf(ToLf(original));
  }

  /** A record on its own is well formed and its file can be reconstructed. */
  predicate Verifiable(src: Sources, r: Record) {
    && r.Record? && r.filename.Some? && r.checksum.Some?
    && src.validName(r.filename.value) && src.validChecksum(r.checksum.value)
    && r.filename.value in src.files && src.isText(src.files[r.filename.value])
    && Reconstruct(src.sha, src.files[r.filename.value], r.checksum.value).Some?
  }

  function RowFor(src: Sources, r: Record): Row
    requires Verifiable(src, r)
  {
    var original := src.files[r.filename.value];
    Row(r.filename.value, r.checksum.value, src.sha(original),
        Reconstruct(src.sha, original, r.checksum.value).value)
  }

  ghost predicate NamesDiffer(history: seq<Record>) {
    forall i, j :: 0 <= i < j < |history| && history[i].Record? && history[j].Record? ==>
      history[i].filename != history[j].filename
  }

  function CountOriginal(rows: seq<Row>): nat {
    if rows == [] then 0
    else CountOriginal(rows[..|rows| - 1]) + if rows[|rows| - 1].reconstruction == OriginalBytes then 1 else 0
  }

  /** The count is the number of positions whose row is labelled so. */
  lemma {:induction false} CountOriginalExactly(rows: seq<Row>)
    ensures CountOriginal(rows) == |set i | 0 <= i < |rows| && rows[i].reconstruction == OriginalBytes|
  {
    if rows != [] {
      var last := |rows| - 1;
      CountOriginalExactly(rows[..last]);
      var before := set i | 0 <= i < last && rows[..last][i].reconstruction == OriginalBytes;
      var all := set i | 0 <= i < |rows| && rows[i].reconstruction == OriginalBytes;
      assert all == before + if rows[last].reconstruction == OriginalBytes then {last} else {};
    }
  }

  lemma {:induction false} CountOriginalBound(rows: seq<Row>)
    ensures CountOriginal(rows) <= |rows|
    ensures CountOriginal(rows) == |rows| <==>
            forall i :: 0 <= i < |rows| ==> rows[i].reconstruction == OriginalBytes
  {
    if rows != [] {
      CountOriginalBound(rows[..|rows| - 1]);
    }
  }

  method CheckRecord(src: Sources, record: Record, seen: set<string>) returns (row: Result<Row, Problem>)
    ensures row.Ok? <==> Verifiable(src, record) && record.filename.value !in seen
    ensures row.Ok? ==> row.value == RowFor(src, record)
  {
    if !record.Record? { return Err(InvalidRecord); }
    if record.filename.None? || !src.validName(record.filename.value) || record.filename.value in seen {
      return Err(InvalidFilename);
    }
    if record.checksum.None? || !src.validChecksum(record.checksum.value) { return Err(InvalidChecksum); }
    var name, recorded := record.filename.value, record.checksum.value;
    if name !in src.files { return Err(MissingSource); }
    var original := src.files[name];
    if !src.isText(original) { return Err(NotText); }
    match Reconstruct(src.sha, original, recorded)
    case None => return Err(NoMatch);
    case Some(how) => return Ok(Row(name, recorded, src.sha(original), how));
  }

  /** A history of records that are fine, no two of one file. */
  ghost predicate HistoryFine(src: Sources, history: seq<Record>) {
    && history != [] && src.directoryExists
    && (forall i :: 0 <= i < |history| ==> RecordFine(src, history[i]))
    && (forall i, j :: 0 <= i < j < |history| && history[i].Record? && history[j].Record? ==>
          history[i].filename != history[j].filename)
  }

  lemma HistoryMeaning(src: Sources, history: seq<Record>)
    ensures HistoryFine(src, history) <==>
              && history != [] && src.directoryExists
              && (forall i :: 0 <= i < |history| ==> Verifiable(src, history[i]))
              && NamesDiffer(history)
  {
    forall i | 0 <= i < |history| ensures RecordFine(src, history[i]) <==> Verifiable(src, history[i]) {
      RecordMeaning(src, history[i]);
    }
  }

  /** One row per record, the rows whose file needed no conversion counted, and the SQL files of the
      directory that no record names. */
  ghost predicate ReportSays(src: Sources, history: seq<Record>, report: Report) {
    && |report.rows| == |history|
    && (forall i :: 0 <= i < |history| ==> RowSays(src, history[i], report.rows[i]))
    && report.originalMatches == |set i | 0 <= i < |history| && report.rows[i].recorded == report.rows[i].sourceHash|
    && (forall name :: name in report.unapplied <==>
          && name in src.files && (exists stem :: name == stem + ".sql")
          && forall i :: 0 <= i < |history| ==> report.rows[i].filename != name)
  }

  lemma SqlFileMeaning(src: Sources, name: string)
    ensures name in SqlFiles(src) <==> name in src.files && exists stem :: name == stem + ".sql"
  {
    if stem :| name == stem + ".sql" {
      assert name[|name| - 4..] == ".sql";
    }
    if name in SqlFiles(src) {
      assert name == name[..|name| - 4] + ".sql";
    }
  }

  lemma ReportMeaning(src: Sources, history: seq<Record>, report: Report)
    requires |report.rows| == |history| && report.originalMatches == CountOriginal(report.rows)
    requires forall i :: 0 <= i < |history| ==>
               Verifiable(src, history[i]) && report.rows[i] == RowFor(src, history[i])
    requires report.unapplied == SqlFiles(src) - set i | 0 <= i < |history| :: report.rows[i].filename
    ensures ReportSays(src, history, report)
  {
    hide Verifiable, RowFor, SqlFiles;
    forall i | 0 <= i < |history| ensures RowSays(src, history[i], report.rows[i]) {
      RowMeaning(src, history[i]);
    }
    CountOriginalExactly(report.rows);
    assert (set i | 0 <= i < |report.rows| && report.rows[i].reconstruction == OriginalBytes)
        == set i | 0 <= i < |history| && report.rows[i].recorded == report.rows[i].sourceHash;
    forall name ensures name in SqlFiles(src) <==> name in src.files && exists stem :: name == stem + ".sql" {
      SqlFileMeaning(src, name);
    }
  }

  /** The loop over the history: one row per record, or the problem of the first that has one. */
  method VerifyRecords(src: Sources, history: seq<Record>) returns (rows: Result<seq<Row>, Problem>)
    ensures rows.Ok? <==>
              (forall i :: 0 <= i < |history| ==> Verifiable(src, history[i])) && NamesDiffer(history)
    ensures rows.Ok? ==>
              && |rows.value| == |history|
              && (forall i :: 0 <= i < |history| ==> rows.value[i] == RowFor(src, history[i]))
  {
    hide Reconstruct;
    var seen: set<string> := {};
    var done: seq<Row> := [];
    for k := 0 to |history|
      invariant |done| == k
      invariant forall i :: 0 <= i < k ==> Verifiable(src, history[i]) && done[i] == RowFor(src, history[i])
      invariant seen == set i | 0 <= i < k :: done[i].filename
      invariant NamesDiffer(history[..k])
    {
      var row := CheckRecord(src, history[k], seen);
      match row
      case Err(p) =>
        if Verifiable(src, history[k]) {
          var i :| 0 <= i < k && done[i].filename == history[k].filename.value;
          assert history[i].filename == history[k].filename;
        }
        return Err(p);
      case Ok(r) =>
        forall i | 0 <= i < k ensures history[i].filename != history[k].filename {
          assert done[i].filename in seen;
        }
        done := done + [r];
        seen := seen + {r.filename};
    }
    assert history[..|history|] == history;
    rows := Ok(done);
  }

  /** Accepts exactly the non-empty histories whose records are all verifiable under distinct
      names, and then reports one row for each, in history order. */
  method VerifySources(src: Sources, history: seq<Record>) returns (report: Result<Report, Problem>)
    ensures report.Ok? <==> HistoryFine(src, history)
    ensures report.Ok? ==> ReportSays(src, history, report.value)
    ensures report.Ok? ==>
              && |report.value.rows| == |history| == report.value.appliedCount
              && (forall i :: 0 <= i < |history| ==>
                    Verifiable(src, history[i]) && report.value.rows[i] == RowFor(src, history[i]))
              && report.value.originalMatches + report.value.reconstructions == |history|
  {
    hide Verifiable, RowFor, HistoryFine, ReportSays, NamesDiffer;
    HistoryMeaning(src, history);
    if history == [] || !src.directoryExists { return Err(MissingHistory); }
    var rows := VerifyRecords(src, history);
    if rows.Err? { return Err(rows.error); }
    CountOriginalBound(rows.value);
    var originals, seen := CountOriginal(rows.value), set i | 0 <= i < |history| :: rows.value[i].filename;
    report := Ok(Report(|rows.value|, originals, |rows.value| - originals, SqlFiles(src) - seen, rows.value));
    ReportMeaning(src, history, report.value);
  }

  /** What an accepted row certifies: the labelled reconstruction of its file has the recorded
      hash, and it is labelled original exactly when the file's own bytes already do. */
  lemma AcceptedRowIsGenuine(src: Sources, r: Record)
    requires Verifiable(src, r)
    ensures src.sha(Candidate(RowFor(src, r).reconstruction, src.files[r.filename.value])) == RowFor(src, r).recorded
    ensures RowFor(src, r).reconstruction == OriginalBytes <==> RowFor(src, r).sourceHash == RowFor(src, r).recorded
  {
  }
}
