/**
 * The submissions directory and the four endpoints that touch it (server.js:26-173): submit
 * writes one JSON file and appends one row to the CSV summary (or fails after the write when
 * the row cannot be rendered), the listing reads every `.json` file, get reads the file
 * `id + '.json'` and delete unlinks it. The id is joined onto the directory unvalidated, so a
 * `../` in it reaches files outside the directory; those files are part of the state as
 * `beyond`.
 */
module Store {
  import opened Wrappers
  import opened Text
  import opened JsValues
  import opened Paths
  import opened FileNames
  import opened Records
  import opened CsvSummary
  import opened Listing

  /** The `fileName` of the 200 response, or the error that made it a 500. */
  datatype SubmitOutcome = Saved(fileName: string) | SubmitFailed(error: JsError)

  /** 200 with the merged submission, 404, or 500 with the parse error. */
  datatype GetOutcome = Found(submission: Record) | NotFound | ReadFailed(error: JsError)

  datatype DeleteOutcome = Deleted | DeleteNotFound

  /**
   * What the endpoints can see of the filesystem: the files directly inside the submissions
   * directory by name, the text of the CSV summary kept beside them (`None` while it does not
   * exist), and files elsewhere by absolute path. The summary is not among `files`: its name
   * does not end in `.json`, so no id reaches it (`IdNeverReachesSummary`) and the listing
   * filters it out.
   */
  datatype Disk = Disk(files: map<string, FileContent>, summary: Option<string>,
                       beyond: map<seq<string>, FileContent>)

  /** `p` is neither the directory, nor one of its ancestors, nor below it. */
  predicate Outside(dir: seq<string>, p: seq<string>)
  {
    !(dir <= p) && !(p <= dir)
  }

  predicate WellFormed(dir: seq<string>, d: Disk)
  {
    && IsNormal(dir)
    && (forall n :: n in d.files ==> IsSegment(n))
    && SummaryFileName !in d.files
    && (forall p :: p in d.beyond ==> Outside(dir, p))
  }

  /** `readdir` names every entry of the directory, the summary included when it exists. */
  ghost predicate Enumerates(readdir: seq<string>, d: Disk)
  {
    forall n :: n in readdir <==> n in d.files || (d.summary.Some? && n == SummaryFileName)
  }

  /** What `existsSync` and `readFileSync` find at a joined path. */
  function ContentAt(d: Disk, t: Target): Option<FileContent>
  {
    match t
    case InDirectory(n) => if n in d.files then Some(d.files[n]) else None
    case Elsewhere(p) => if p in d.beyond then Some(d.beyond[p]) else None
  }

  /** A `.json` name is never the summary's. */
  lemma JsonIsNotSummary(name: string)
    requires EndsWith(name, JsonSuffix)
    ensures name != SummaryFileName
  {
    assert name[|name| - 1] == 'n' by {
      assert name[|name| - 5..][4] == name[|name| - 1];
    }
    assert SummaryFileName[|SummaryFileName| - 1] == 'v';
  }

  /** Whatever the id, `id + '.json'` never joins to the summary. */
  lemma IdNeverReachesSummary(dir: seq<string>, id: string)
    requires IsNormal(dir)
    ensures Locate(dir, FileNameOf(id)).InDirectory? ==>
              Locate(dir, FileNameOf(id)).name != SummaryFileName
  {
    LastSegmentKeepsSuffix(dir, id, JsonSuffix);
    var p := Resolve(dir, FileNameOf(id));
    if Locate(dir, FileNameOf(id)).InDirectory? {
      assert Locate(dir, FileNameOf(id)).name == p[|p| - 1];
      JsonIsNotSummary(p[|p| - 1]);
    }
  }

  /** The `.json` names a listing of the directory reads are exactly its `.json` files. */
  lemma EnumeratedJsonFiles(readdir: seq<string>, d: Disk)
    requires Enumerates(readdir, d)
    ensures forall n :: n in readdir && EndsWith(n, JsonSuffix) <==>
                        n in d.files && EndsWith(n, JsonSuffix)
  {
    forall n | n in readdir && EndsWith(n, JsonSuffix)
      ensures n in d.files
    {
      JsonIsNotSummary(n);
    }
  }

  /** A generated name ends in `.json`, so it is never the summary's name. */
  lemma GeneratedIsNotSummary(isoStamp: string, form: Record)
    requires FileNameFor(isoStamp, form).Ok?
    ensures FileNameFor(isoStamp, form).value != SummaryFileName
  {
    var name := FileNameFor(isoStamp, form).value;
    FileNameParts(isoStamp, form);
    assert name[|name| - 5..] == JsonSuffix;
    JsonIsNotSummary(name);
  }

  /**
   * The directory once the JSON file `name` holds `record` (server.js:46) and the summary
   * exists, created holding `header` when it was absent (server.js:54-56). Nothing else
   * changes.
   */
  function Started(d: Disk, header: string, name: string, record: Record): (after: Disk)
    ensures after.beyond == d.beyond
    ensures after.files.Keys == d.files.Keys + {name}
    ensures after.files[name] == JsonObject(record)
    ensures forall n :: n in d.files && n != name ==> after.files[n] == d.files[n]
    ensures d.summary.Some? ==> after.summary == d.summary
    ensures d.summary.None? ==> after.summary == Some(header)
  {
    Disk(d.files[name := JsonObject(record)],
         Some(if d.summary.None? then header else d.summary.value), d.beyond)
  }

  /** The directory once, after that, `row` is appended to the summary (server.js:60). */
  function Stored(d: Disk, header: string, name: string, record: Record, row: string)
    : (after: Disk)
    ensures after.files == Started(d, header, name, record).files
    ensures after.beyond == d.beyond
    ensures after.summary == Some(SummaryAfter(header, d.summary, row))
    ensures after.summary.value == Started(d, header, name, record).summary.value + row
  {
    Disk(d.files[name := JsonObject(record)], Some(SummaryAfter(header, d.summary, row)),
         d.beyond)
  }

  /** The submit handler reaches its 200 answer: the name and the CSV row can both be built. */
  predicate Accepted(form: Record, clock: Clock)
  {
    && FileNameFor(clock.nameStamp, form).Ok?
    && RowCells(BuildRecord(form, clock.isoStamp, clock.localeStamp), form).Ok?
  }

  /**
   * `POST /api/submit-application`: the JSON file under the generated name, the header when
   * the summary is absent, then the summary row. A business name that is a truthy non-string
   * throws before anything is written; a row value that cannot be turned into text throws
   * after the file and the header are written, and only the row is missing.
   */
  function Submission(d: Disk, header: string, form: Record, clock: Clock)
    : (r: (SubmitOutcome, Disk))
    ensures r.0.Saved? <==> Accepted(form, clock)
    ensures r.0.Saved? ==> r.0.fileName == FileNameFor(clock.nameStamp, form).value
    ensures r.0.SubmitFailed? ==> r.0.error.TypeError?
    ensures FileNameFor(clock.nameStamp, form).Err? ==> r.1 == d
    ensures FileNameFor(clock.nameStamp, form).Ok? ==>
              r.1.files == d.files[FileNameFor(clock.nameStamp, form).value
                                   := JsonObject(BuildRecord(form, clock.isoStamp, clock.localeStamp))]
    ensures r.1.beyond == d.beyond
  {
    match FileNameFor(clock.nameStamp, form)
    case Err(e) => (SubmitFailed(e), d)
    case Ok(name) =>
      var record := BuildRecord(form, clock.isoStamp, clock.localeStamp);
      match RowCells(record, form)
      case Err(e) => (SubmitFailed(e), Started(d, header, name, record))
      case Ok(cells) => (Saved(name), Stored(d, header, name, record, Row(cells)))
  }

  /**
   * A `fullName` that cannot be turned into text answers 500 with the record and the header
   * already written and no row appended.
   */
  lemma SubmitFailsAfterWrite(d: Disk, header: string, form: Record, clock: Clock)
    requires FileNameFor(clock.nameStamp, form).Ok?
    requires "fullName" in form && Unconvertible(form["fullName"])
    ensures Submission(d, header, form, clock)
              == (SubmitFailed(TypeError(ConversionMessage)),
                  Started(d, header, FileNameFor(clock.nameStamp, form).value,
                          BuildRecord(form, clock.isoStamp, clock.localeStamp)))
  {
    UnconvertibleNameFailsRow(BuildRecord(form, clock.isoStamp, clock.localeStamp), form);
  }

  /**
   * The summary only grows: its old text (the header, when the file was absent) stays a
   * prefix, and an accepted submission adds exactly one line break more than its row's values
   * hold.
   */
  lemma SubmitAppendsToSummary(d: Disk, header: string, form: Record, clock: Clock)
    ensures var after := Submission(d, header, form, clock).1.summary;
            var before := if d.summary.None? then header else d.summary.value;
            && (d.summary.Some? ==> after.Some? && d.summary.value <= after.value)
            && (FileNameFor(clock.nameStamp, form).Ok? ==> after.Some? && before <= after.value)
            && (Accepted(form, clock) ==>
                  var cells := RowCells(BuildRecord(form, clock.isoStamp, clock.localeStamp), form).value;
                  && before < after.value
                  && Occurrences(after.value, '\n')
                       == Occurrences(before, '\n') + 1 + TotalOccurrences(cells, '\n'))
  {
    var before := if d.summary.None? then header else d.summary.value;
    if FileNameFor(clock.nameStamp, form).Ok? {
      var name := FileNameFor(clock.nameStamp, form).value;
      var record := BuildRecord(form, clock.isoStamp, clock.localeStamp);
      if RowCells(record, form).Ok? {
        var cells := RowCells(record, form).value;
        var row := Row(cells);
        RowBody(cells);
        RowLineBreaks(cells);
        assert Submission(d, header, form, clock).1 == Stored(d, header, name, record, row);
        assert before < before + row;
        OccurrencesAppend(before, row, '\n');
      } else {
        assert Submission(d, header, form, clock).1 == Started(d, header, name, record);
      }
    }
  }

  /** One submission request: the form and the clock readings it is stamped with. */
  datatype Request = Request(form: Record, clock: Clock)

  /** The directory after the requests, one after another. */
  function SubmitAll(d: Disk, header: string, requests: seq<Request>): Disk
    decreases |requests|
  {
    if requests == [] then d
    else SubmitAll(Submission(d, header, requests[0].form, requests[0].clock).1, header,
                   requests[1..])
  }

  /** The CSV rows of accepted requests. */
  function RowsOf(requests: seq<Request>): seq<string>
    requires forall i :: 0 <= i < |requests| ==> Accepted(requests[i].form, requests[i].clock)
    decreases |requests|
  {
    if requests == [] then []
    else
      var q := requests[0];
      assert Accepted(requests[0].form, requests[0].clock);
      [Row(RowCells(BuildRecord(q.form, q.clock.isoStamp, q.clock.localeStamp), q.form).value)]
        + RowsOf(requests[1..])
  }

  /** An accepted submission appends its row to the summary. */
  lemma AcceptedAppendsRow(d: Disk, header: string, form: Record, clock: Clock)
    requires Accepted(form, clock)
    ensures Submission(d, header, form, clock).1.summary
              == Some(SummaryAfter(header, d.summary,
                        Row(RowCells(BuildRecord(form, clock.isoStamp, clock.localeStamp), form).value)))
  {
  }

  /** Accepted submissions, one after another, append their rows to the summary in order. */
  lemma {:induction false} SubmitAllSummary(d: Disk, header: string, requests: seq<Request>)
    requires forall i :: 0 <= i < |requests| ==> Accepted(requests[i].form, requests[i].clock)
    ensures SubmitAll(d, header, requests).summary
              == SummaryAfterAll(header, d.summary, RowsOf(requests))
    decreases |requests|
  {
    if requests != [] {
      var rest := requests[1..];
      var next := Submission(d, header, requests[0].form, requests[0].clock).1;
      AcceptedAppendsRow(d, header, requests[0].form, requests[0].clock);
      assert forall i :: 0 <= i < |rest| ==> rest[i] == requests[i + 1];
      SubmitAllSummary(next, header, rest);
    }
  }

  /** Submitting keeps every file name a plain entry, apart from the summary's. */
  lemma SubmitKeepsWellFormed(dir: seq<string>, d: Disk, header: string, form: Record,
                              clock: Clock)
    requires WellFormed(dir, d)
    requires IsIsoTimestamp(clock.nameStamp)
    ensures WellFormed(dir, Submission(d, header, form, clock).1)
  {
    if FileNameFor(clock.nameStamp, form).Ok? {
      GeneratedNameIsSegment(clock.nameStamp, form);
      GeneratedIsNotSummary(clock.nameStamp, form);
    }
  }

  /** `GET /api/submissions/:id`: the file `id + '.json'` joined onto the directory. */
  function Fetch(dir: seq<string>, d: Disk, id: string): (r: GetOutcome)
    requires IsNormal(dir)
    ensures r.NotFound? <==> ContentAt(d, Locate(dir, FileNameOf(id))).None?
    ensures r.ReadFailed? ==> r.error == SyntaxError(FileNameOf(id))
    ensures r.Found? <==> ContentAt(d, Locate(dir, FileNameOf(id))).Some?
                          && ContentAt(d, Locate(dir, FileNameOf(id))).value.JsonObject?
    ensures r.Found? ==>
              r.submission == WithIdentity(id, FileNameOf(id),
                                           ContentAt(d, Locate(dir, FileNameOf(id))).value.data)
  {
    match ContentAt(d, Locate(dir, FileNameOf(id)))
    case None => NotFound
    case Some(PlainText(_)) => ReadFailed(SyntaxError(FileNameOf(id)))
    case Some(JsonObject(data)) => Found(WithIdentity(id, FileNameOf(id), data))
  }

  /**
   * The record written by a submission is found again under the id the listing gives it,
   * with that id and its file name merged in; this holds even when the row then failed.
   */
  lemma SubmitThenFetch(dir: seq<string>, d: Disk, header: string, form: Record, clock: Clock)
    requires IsNormal(dir)
    requires IsIsoTimestamp(clock.nameStamp)
    requires FileNameFor(clock.nameStamp, form).Ok?
    ensures var name := FileNameFor(clock.nameStamp, form).value;
            Fetch(dir, Submission(d, header, form, clock).1, IdOf(name))
              == Found(EntryOf(name, BuildRecord(form, clock.isoStamp, clock.localeStamp)))
  {
    var name := FileNameFor(clock.nameStamp, form).value;
    GeneratedNameIsEntry(clock.nameStamp, form);
    ChildStaysInside(dir, name);
  }

  /**
   * The listing right after a submission, read from a `readdir` that names the directory's
   * entries, summary included, holds the written record's entry whenever it succeeds.
   */
  lemma SubmitThenList(d: Disk, header: string, form: Record, clock: Clock, readdir: seq<string>,
                       parse: string -> Option<int>)
    requires IsIsoTimestamp(clock.nameStamp)
    requires FileNameFor(clock.nameStamp, form).Ok?
    requires Enumerates(readdir, Submission(d, header, form, clock).1)
    ensures forall n :: n in readdir && EndsWith(n, JsonSuffix) ==>
              n in Submission(d, header, form, clock).1.files
    ensures var name := FileNameFor(clock.nameStamp, form).value;
            var listing := ListSubmissions(readdir, Submission(d, header, form, clock).1.files, parse);
            listing.Ok? ==>
              EntryOf(name, BuildRecord(form, clock.isoStamp, clock.localeStamp))
                in listing.value.submissions
  {
    var name := FileNameFor(clock.nameStamp, form).value;
    var after := Submission(d, header, form, clock).1;
    EnumeratedJsonFiles(readdir, after);
    if ListSubmissions(readdir, after.files, parse).Ok? {
      GeneratedNameIsEntry(clock.nameStamp, form);
      ListingEntries(readdir, after.files, parse);
      assert name in readdir && EndsWith(name, JsonSuffix) && after.files[name].JsonObject?;
    }
  }

  /** `DELETE /api/submissions/:id`: unlinks whatever `id + '.json'` joins to. */
  function Deletion(dir: seq<string>, d: Disk, id: string): (r: (DeleteOutcome, Disk))
    requires IsNormal(dir)
    ensures r.0.Deleted? <==> ContentAt(d, Locate(dir, FileNameOf(id))).Some?
    ensures r.0.DeleteNotFound? ==> r.1 == d
  {
    match Locate(dir, FileNameOf(id))
    case InDirectory(n) =>
      if n in d.files then (Deleted, d.(files := d.files - {n})) else (DeleteNotFound, d)
    case Elsewhere(p) =>
      if p in d.beyond then (Deleted, d.(beyond := d.beyond - {p})) else (DeleteNotFound, d)
  }

  /**
   * A delete removes at most one file, and only when one is at `id + '.json'`; the summary and
   * every other file, in the directory or elsewhere, keep their content.
   */
  lemma DeleteRemovesOne(dir: seq<string>, d: Disk, id: string)
    requires IsNormal(dir)
    ensures var after := Deletion(dir, d, id).1;
            && after.summary == d.summary
            && after.files.Keys <= d.files.Keys && after.beyond.Keys <= d.beyond.Keys
            && |d.files.Keys - after.files.Keys| + |d.beyond.Keys - after.beyond.Keys|
                 == (if Deletion(dir, d, id).0.Deleted? then 1 else 0)
            && (forall n :: n in after.files ==> after.files[n] == d.files[n])
            && (forall p :: p in after.beyond ==> after.beyond[p] == d.beyond[p])
  {
    var after := Deletion(dir, d, id).1;
    match Locate(dir, FileNameOf(id))
    case InDirectory(n) =>
      if n in d.files {
        assert d.files.Keys - after.files.Keys == {n};
      }
    case Elsewhere(p) =>
      if p in d.beyond {
        assert d.beyond.Keys - after.beyond.Keys == {p};
      }
  }

  /** After a delete, get of the same id answers 404. */
  lemma DeleteThenFetch(dir: seq<string>, d: Disk, id: string)
    requires IsNormal(dir)
    ensures Fetch(dir, Deletion(dir, d, id).1, id) == NotFound
  {
  }

  /**
   * The id is not validated: `../name` (a plain name, sent as `..%2Fname`) unlinks the file
   * `name.json` in the directory's parent, and nothing inside the directory.
   */
  lemma DeleteEscapes(dir: seq<string>, d: Disk, name: string)
    requires IsNormal(dir) && |dir| >= 1
    requires IsSegment(name + JsonSuffix)
    requires dir[..|dir| - 1] + [name + JsonSuffix] in d.beyond
    ensures Deletion(dir, d, "../" + name)
              == (Deleted, d.(beyond := d.beyond - {dir[..|dir| - 1] + [name + JsonSuffix]}))
  {
    assert FileNameOf("../" + name) == "../" + (name + JsonSuffix);
    DotDotEscapes(dir, name + JsonSuffix);
  }

  /** `readdirSync` lists every entry once: the count is the number of `.json` files. */
  lemma ListingCount(d: Disk, readdir: seq<string>, parse: string -> Option<int>)
    requires Distinct(readdir)
    requires Enumerates(readdir, d)
    requires ListSubmissions(readdir, d.files, parse).Ok?
    ensures ListSubmissions(readdir, d.files, parse).value.count
              == |set n | n in d.files && EndsWith(n, JsonSuffix)|
  {
    var names := JsonFiles(readdir);
    EnumeratedJsonFiles(readdir, d);
    ListingEntries(readdir, d.files, parse);
    DistinctCount(names);
    assert (set n | n in names) == (set n | n in d.files && EndsWith(n, JsonSuffix));
  }

  lemma {:induction false} DistinctCount(names: seq<string>)
    requires Distinct(names)
    ensures |set n | n in names| == |names|
  {
    if names != [] {
      var rest := names[1..];
      assert Distinct(rest) by {
        forall i, j | 0 <= i < j < |rest|
          ensures rest[i] != rest[j]
        {
          assert rest[i] == names[i + 1] && rest[j] == names[j + 1];
        }
      }
      DistinctCount(rest);
      assert names[0] !in rest by {
        forall k | 0 <= k < |rest|
          ensures rest[k] != names[0]
        {
          assert rest[k] == names[k + 1];
        }
      }
      assert (set n | n in names) == (set n | n in rest) + {names[0]};
    }
  }

  /** The submissions directory, whose files the endpoints change in place. */
  class SubmissionStore {
    const dir: seq<string>
    /** `csvHeaders`: the summary's first line. */
    const header: string
    var files: map<string, FileContent>
    var summary: Option<string>
    var beyond: map<seq<string>, FileContent>

    function Snapshot(): Disk
      reads this
    {
      Disk(files, summary, beyond)
    }

    ghost predicate Valid()
      reads this
    {
      WellFormed(dir, Snapshot())
    }

    constructor(dir: seq<string>, files: map<string, FileContent>, summary: Option<string>,
                beyond: map<seq<string>, FileContent>)
      requires WellFormed(dir, Disk(files, summary, beyond))
      ensures Valid()
      ensures this.dir == dir && header == Header && Snapshot() == Disk(files, summary, beyond)
    {
      this.dir := dir;
      header := Header;
      this.files := files;
      this.summary := summary;
      this.beyond := beyond;
    }

    /** `fs.writeFileSync` of a file directly inside the directory. */
    method WriteFile(name: string, content: FileContent)
      requires Valid()
      requires IsSegment(name) && name != SummaryFileName
      modifies this
      ensures Valid()
      ensures files == old(files)[name := content]
      ensures summary == old(summary) && beyond == old(beyond)
    {
      files := files[name := content];
    }

    /** `existsSync`, then `writeFileSync` of the header when the summary is absent. */
    method EnsureHeader()
      requires Valid()
      modifies this
      ensures Valid()
      ensures old(summary).Some? ==> summary == old(summary)
      ensures old(summary).None? ==> summary == Some(header)
      ensures files == old(files) && beyond == old(beyond)
    {
      if summary.None? {
        summary := Some(header);
      }
    }

    /** `appendFileSync` of one row to the existing summary. */
    method AppendRow(row: string)
      requires Valid()
      requires summary.Some?
      modifies this
      ensures Valid()
      ensures summary == Some(old(summary).value + row)
      ensures files == old(files) && beyond == old(beyond)
    {
      summary := Some(summary.value + row);
    }

    method Submit(form: Record, clock: Clock) returns (r: SubmitOutcome)
      requires Valid()
      requires IsIsoTimestamp(clock.nameStamp)
      modifies this
      ensures Valid()
      ensures (r, Snapshot()) == Submission(old(Snapshot()), header, form, clock)
    {
      var name := FileNameFor(clock.nameStamp, form);
      if name.Err? {
        return SubmitFailed(name.error);
      }
      var fileName := name.value;
      GeneratedNameIsSegment(clock.nameStamp, form);
      GeneratedIsNotSummary(clock.nameStamp, form);
      var submission := BuildRecord(form, clock.isoStamp, clock.localeStamp);
      WriteFile(fileName, JsonObject(submission));
      EnsureHeader();
      var cells := RowCells(submission, form);
      if cells.Err? {
        return SubmitFailed(cells.error);
      }
      AppendRow(Row(cells.value));
      r := Saved(fileName);
    }

    method Get(id: string) returns (r: GetOutcome)
      requires Valid()
      ensures r == Fetch(dir, Snapshot(), id)
    {
      var fileName := FileNameOf(id);
      var target := Locate(dir, fileName);
      var found := ContentAt(Snapshot(), target);
      if found.None? {
        return NotFound;
      }
      match found.value
      case PlainText(_) =>
        r := ReadFailed(SyntaxError(fileName));
      case JsonObject(data) =>
        r := Found(WithIdentity(id, fileName, data));
    }

    method Delete(id: string) returns (r: DeleteOutcome)
      requires Valid()
      modifies this
      ensures Valid()
      ensures (r, Snapshot()) == Deletion(dir, old(Snapshot()), id)
    {
      var target := Locate(dir, FileNameOf(id));
      match target
      case InDirectory(n) =>
        if n !in files {
          return DeleteNotFound;
        }
        files := files - {n};
        r := Deleted;
      case Elsewhere(p) =>
        if p !in beyond {
          return DeleteNotFound;
        }
        beyond := beyond - {p};
        r := Deleted;
    }

    method List(readdir: seq<string>, parse: string -> Option<int>)
      returns (r: Result<ListingPage, JsError>)
      requires Valid()
      requires Distinct(readdir)
      requires Enumerates(readdir, Snapshot())
      ensures r == ListSubmissions(readdir, files, parse)
      ensures r.Ok? ==> r.value.count == |set n | n in files && EndsWith(n, JsonSuffix)|
    {
      EnumeratedJsonFiles(readdir, Snapshot());
      r := ListSubmissions(readdir, files, parse);
      if r.Ok? {
        ListingCount(Snapshot(), readdir, parse);
      }
    }
  }
}
