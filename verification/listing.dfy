/**
 * The dashboard listing (server.js:82-99): keep the directory's `.json` names, read and merge
 * each file with its derived id and name, sort newest first, report the count. One file that
 * is not a JSON object makes the whole listing fail, and so does, among two or more entries,
 * one whose `submittedAt` cannot be turned into a primitive.
 */
module Listing {
  import opened Wrappers
  import opened Text
  import opened JsValues
  import opened FileNames
  import opened Records

  /** The response body's `count` and `submissions`. */
  datatype ListingPage = ListingPage(count: nat, submissions: seq<Record>)

  predicate Distinct(names: seq<string>)
  {
    forall i, j :: 0 <= i < j < |names| ==> names[i] != names[j]
  }

  /** `.filter(file => file.endsWith('.json'))`: the `.json` names, in the directory's order. */
  function JsonFiles(names: seq<string>): (r: seq<string>)
    ensures forall n :: n in r <==> n in names && EndsWith(n, JsonSuffix)
    ensures |r| <= |names|
    ensures Distinct(names) ==> Distinct(r)
  {
    if names == [] then []
    else
      var rest := JsonFiles(names[1..]);
      if EndsWith(names[0], JsonSuffix) then
        assert Distinct(names) ==> Distinct([names[0]] + rest) by {
          if Distinct(names) {
            assert Distinct(names[1..]) by {
              forall i, j | 0 <= i < j < |names[1..]|
                ensures names[1..][i] != names[1..][j]
              {
                assert names[1..][i] == names[i + 1] && names[1..][j] == names[j + 1];
              }
            }
            assert names[0] !in names[1..] by {
              forall k | 0 <= k < |names[1..]|
                ensures names[1..][k] != names[0]
              {
                assert names[1..][k] == names[k + 1];
              }
            }
            forall i, j | 0 <= i < j < |[names[0]] + rest|
              ensures ([names[0]] + rest)[i] != ([names[0]] + rest)[j]
            {
              assert ([names[0]] + rest)[j] == rest[j - 1];
              if i > 0 {
                assert ([names[0]] + rest)[i] == rest[i - 1];
              }
            }
          }
        }
        [names[0]] + rest
      else
        assert Distinct(names) ==> Distinct(names[1..]) by {
          if Distinct(names) {
            forall i, j | 0 <= i < j < |names[1..]|
              ensures names[1..][i] != names[1..][j]
            {
              assert names[1..][i] == names[i + 1] && names[1..][j] == names[j + 1];
            }
          }
        }
        rest
  }

  /** Where each kept name sits in the directory listing. */
  function JsonPositions(names: seq<string>): seq<nat>
  {
    if names == [] then []
    else
      var rest := JsonPositions(names[1..]);
      var shifted := seq(|rest|, k requires 0 <= k < |rest| => rest[k] + 1);
      if EndsWith(names[0], JsonSuffix) then [0] + shifted else shifted
  }

  /** The kept names come in the directory's order: at strictly increasing positions. */
  lemma {:induction false} JsonFilesInOrder(names: seq<string>)
    ensures |JsonPositions(names)| == |JsonFiles(names)|
    ensures forall k :: 0 <= k < |JsonPositions(names)| ==>
              JsonPositions(names)[k] < |names| && names[JsonPositions(names)[k]] == JsonFiles(names)[k]
    ensures forall k, l :: 0 <= k < l < |JsonPositions(names)| ==>
              JsonPositions(names)[k] < JsonPositions(names)[l]
  {
    if names != [] {
      JsonFilesInOrder(names[1..]);
      var rest := JsonPositions(names[1..]);
      var shifted := seq(|rest|, k requires 0 <= k < |rest| => rest[k] + 1);
      var p := JsonPositions(names);
      var r := JsonFiles(names);
      if EndsWith(names[0], JsonSuffix) {
        assert p == [0] + shifted;
        assert r == [names[0]] + JsonFiles(names[1..]);
        forall k | 0 <= k < |p|
          ensures p[k] < |names| && names[p[k]] == r[k]
        {
          if k > 0 {
            assert p[k] == rest[k - 1] + 1;
            assert names[p[k]] == names[1..][rest[k - 1]];
          }
        }
      } else {
        assert p == shifted;
        assert r == JsonFiles(names[1..]);
        forall k | 0 <= k < |p|
          ensures p[k] < |names| && names[p[k]] == r[k]
        {
          assert names[p[k]] == names[1..][rest[k]];
        }
      }
    }
  }

  /** One listing entry: `{ id: file.replace('.json', ''), fileName: file, ...data }`. */
  function EntryOf(name: string, data: Record): (r: Record)
    ensures r.Keys == data.Keys + {"id", "fileName"}
    ensures forall k :: k in data ==> r[k] == data[k]
    ensures "id" !in data ==> r["id"] == Str(IdOf(name))
    ensures "fileName" !in data ==> r["fileName"] == Str(name)
  {
    WithIdentity(IdOf(name), name, data)
  }

  /** `names[i]` is the first named file that holds no JSON object. */
  predicate FirstUnparsed(names: seq<string>, files: map<string, FileContent>, i: int)
    requires forall k :: 0 <= k < |names| ==> names[k] in files
  {
    && 0 <= i < |names|
    && files[names[i]].PlainText?
    && forall j :: 0 <= j < i ==> files[names[j]].JsonObject?
  }

  /** Behind a file that parses, the first failure moves one place along. */
  lemma FirstUnparsedShift(names: seq<string>, files: map<string, FileContent>, i: int)
    requires forall k :: 0 <= k < |names| ==> names[k] in files
    requires |names| > 0 && files[names[0]].JsonObject?
    requires FirstUnparsed(names[1..], files, i)
    ensures FirstUnparsed(names, files, i + 1) && names[i + 1] == names[1..][i]
  {
    forall j | 0 <= j < i + 1
      ensures files[names[j]].JsonObject?
    {
      if j > 0 {
        assert names[j] == names[1..][j - 1];
      }
    }
  }

  /**
   * The `.map` step: read and parse every named file. `JSON.parse` throws on the first file
   * that holds no JSON object, and the error names that file.
   */
  function LoadEntries(names: seq<string>, files: map<string, FileContent>)
    : (r: Result<seq<Record>, JsError>)
    requires forall i :: 0 <= i < |names| ==> names[i] in files
    ensures r.Ok? <==> forall i :: 0 <= i < |names| ==> files[names[i]].JsonObject?
    ensures r.Ok? ==> |r.value| == |names|
    ensures r.Ok? ==>
              forall i :: 0 <= i < |names| ==> r.value[i] == EntryOf(names[i], files[names[i]].data)
    ensures r.Err? ==>
              exists i :: FirstUnparsed(names, files, i) && r.error == SyntaxError(names[i])
  {
    if names == [] then Ok([])
    else
      match files[names[0]]
      case PlainText(_) =>
        assert FirstUnparsed(names, files, 0);
        Err(SyntaxError(names[0]))
      case JsonObject(data) =>
        match LoadEntries(names[1..], files)
        case Err(e) =>
          assert exists i :: FirstUnparsed(names, files, i) && e == SyntaxError(names[i]) by {
            var i :| FirstUnparsed(names[1..], files, i) && e == SyntaxError(names[1..][i]);
            FirstUnparsedShift(names, files, i);
          }
          Err(e)
        case Ok(rest) => Ok([EntryOf(names[0], data)] + rest)
  }

  /**
   * `new Date(entry.submittedAt)`: a time value (`None` is NaN), or the `TypeError` thrown
   * when the stamp cannot be turned into a primitive.
   */
  function SortKey(entry: Record, parse: string -> Option<int>): (r: Result<Option<int>, JsError>)
    ensures r.Err? <==> SubmittedAt in entry && Unconvertible(entry[SubmittedAt])
    ensures r.Err? ==> r.error == TypeError(ConversionMessage)
    ensures SubmittedAt !in entry ==> r == Ok(None)
  {
    DateOf(Get(entry, SubmittedAt), parse)
  }

  /** The entry's time value when its `Date` can be built; `None` stands for NaN. */
  function Time(entry: Record, parse: string -> Option<int>): Option<int>
  {
    match SortKey(entry, parse)
    case Ok(t) => t
    case Err(_) => None
  }

  /**
   * The comparator `(a, b) => new Date(b.submittedAt) - new Date(a.submittedAt)` as
   * `Array.prototype.sort` reads it, for entries whose dates can be built: a NaN result
   * counts as 0.
   */
  function Compare(a: Record, b: Record, parse: string -> Option<int>): (r: int)
    ensures r < 0 <==> Time(a, parse).Some? && Time(b, parse).Some?
                       && Time(b, parse).value < Time(a, parse).value
    ensures r > 0 <==> Time(a, parse).Some? && Time(b, parse).Some?
                       && Time(a, parse).value < Time(b, parse).value
  {
    var ka, kb := Time(a, parse), Time(b, parse);
    if ka.Some? && kb.Some? then kb.value - ka.value else 0
  }

  /** Places `e` before the first entry it need not follow. */
  function Insert(e: Record, sorted: seq<Record>, parse: string -> Option<int>): (r: seq<Record>)
    ensures |r| == |sorted| + 1
    ensures multiset(r) == multiset(sorted) + multiset{e}
  {
    if sorted == [] then [e]
    else if Compare(e, sorted[0], parse) <= 0 then [e] + sorted
    else
      assert sorted == [sorted[0]] + sorted[1..];
      [sorted[0]] + Insert(e, sorted[1..], parse)
  }

  /**
   * `.sort(...)` with the comparator above, as a stable sort: an entry never moves behind a
   * later one it compares equal to.
   */
  function SortNewestFirst(entries: seq<Record>, parse: string -> Option<int>): (r: seq<Record>)
    ensures |r| == |entries|
    ensures multiset(r) == multiset(entries)
  {
    if entries == [] then []
    else
      assert entries == [entries[0]] + entries[1..];
      Insert(entries[0], SortNewestFirst(entries[1..], parse), parse)
  }

  /** Every entry's `submittedAt` makes a valid date. */
  predicate AllDated(entries: seq<Record>, parse: string -> Option<int>)
  {
    forall i :: 0 <= i < |entries| ==> Time(entries[i], parse).Some?
  }

  /** Newest first: dates never increase along the sequence. */
  predicate NewestFirst(entries: seq<Record>, parse: string -> Option<int>)
  {
    && AllDated(entries, parse)
    && forall i, j :: 0 <= i < j < |entries| ==>
         Time(entries[j], parse).value <= Time(entries[i], parse).value
  }

  /** No entry of `entries` is newer than `top`. */
  predicate NoneNewerThan(entries: seq<Record>, top: Record, parse: string -> Option<int>)
  {
    && Time(top, parse).Some?
    && forall i :: 0 <= i < |entries| ==>
         Time(entries[i], parse).Some?
         && Time(entries[i], parse).value <= Time(top, parse).value
  }

  lemma TailNewestFirst(entries: seq<Record>, parse: string -> Option<int>)
    requires NewestFirst(entries, parse) && |entries| > 0
    ensures NewestFirst(entries[1..], parse)
    ensures NoneNewerThan(entries[1..], entries[0], parse)
  {
    var rest := entries[1..];
    forall i, j | 0 <= i < j < |rest|
      ensures Time(rest[j], parse).value <= Time(rest[i], parse).value
    {
      assert rest[i] == entries[i + 1] && rest[j] == entries[j + 1];
    }
    forall i | 0 <= i < |rest|
      ensures Time(rest[i], parse).value <= Time(entries[0], parse).value
    {
      assert rest[i] == entries[i + 1];
    }
  }

  lemma ConsNewestFirst(top: Record, entries: seq<Record>, parse: string -> Option<int>)
    requires NewestFirst(entries, parse)
    requires NoneNewerThan(entries, top, parse)
    ensures NewestFirst([top] + entries, parse)
  {
    var r := [top] + entries;
    forall i, j | 0 <= i < j < |r|
      ensures Time(r[i], parse).Some? && Time(r[j], parse).Some?
      ensures Time(r[j], parse).value <= Time(r[i], parse).value
    {
      assert r[j] == entries[j - 1];
      if i > 0 {
        assert r[i] == entries[i - 1];
      }
    }
  }

  /** Anything bounded by `top` before insertion stays bounded after it. */
  lemma InsertBounded(e: Record, entries: seq<Record>, top: Record, parse: string -> Option<int>)
    requires NoneNewerThan(entries, top, parse)
    requires NoneNewerThan([e], top, parse)
    ensures NoneNewerThan(Insert(e, entries, parse), top, parse)
  {
    var t := Insert(e, entries, parse);
    forall i | 0 <= i < |t|
      ensures Time(t[i], parse).Some?
      ensures Time(t[i], parse).value <= Time(top, parse).value
    {
      assert t[i] in multiset(t);
      if t[i] != e {
        assert t[i] in multiset(entries);
        var k :| 0 <= k < |entries| && entries[k] == t[i];
      } else {
        assert [e][0] == e;
      }
    }
  }

  lemma {:induction false} InsertKeepsOrder(e: Record, sorted: seq<Record>, parse: string -> Option<int>)
    requires NewestFirst(sorted, parse)
    requires Time(e, parse).Some?
    ensures NewestFirst(Insert(e, sorted, parse), parse)
  {
    if sorted == [] {
      assert Insert(e, sorted, parse) == [e];
    } else {
      TailNewestFirst(sorted, parse);
      if Compare(e, sorted[0], parse) <= 0 {
        forall i | 0 <= i < |sorted|
          ensures Time(sorted[i], parse).value <= Time(e, parse).value
        {
          if i > 0 {
            assert sorted[1..][i - 1] == sorted[i];
          }
        }
        ConsNewestFirst(e, sorted, parse);
      } else {
        InsertKeepsOrder(e, sorted[1..], parse);
        InsertBounded(e, sorted[1..], sorted[0], parse);
        ConsNewestFirst(sorted[0], Insert(e, sorted[1..], parse), parse);
      }
    }
  }

  /** When every date is valid, the sorted listing is newest first. */
  lemma {:induction false} SortOrders(entries: seq<Record>, parse: string -> Option<int>)
    requires AllDated(entries, parse)
    ensures NewestFirst(SortNewestFirst(entries, parse), parse)
  {
    if entries != [] {
      assert AllDated(entries[1..], parse) by {
        forall i | 0 <= i < |entries[1..]|
          ensures Time(entries[1..][i], parse).Some?
        {
          assert entries[1..][i] == entries[i + 1];
        }
      }
      SortOrders(entries[1..], parse);
      InsertKeepsOrder(entries[0], SortNewestFirst(entries[1..], parse), parse);
    }
  }

  /** `data` is a JSON object whose `submittedAt` cannot be turned into a primitive. */
  predicate StampThrows(c: FileContent)
  {
    c.JsonObject? && SubmittedAt in c.data && Unconvertible(c.data[SubmittedAt])
  }

  /** The merged entry keeps the file's own `submittedAt`, so its key throws with the file's. */
  lemma EntryKeyThrows(name: string, data: Record, parse: string -> Option<int>)
    ensures SortKey(EntryOf(name, data), parse).Err? <==> StampThrows(JsonObject(data))
  {
    assert SubmittedAt != "id" && SubmittedAt != "fileName";
  }

  /** Some entry's `new Date(...)` throws. */
  predicate KeyThrows(entries: seq<Record>, parse: string -> Option<int>)
  {
    exists i :: 0 <= i < |entries| && SortKey(entries[i], parse).Err?
  }

  /**
   * The whole pipeline, given the directory's names in `readdirSync` order. With two or more
   * entries the sort compares every one of them, so a single key that throws fails the
   * listing; a lone entry is never compared.
   */
  function ListSubmissions(readdir: seq<string>, files: map<string, FileContent>,
                           parse: string -> Option<int>): (r: Result<ListingPage, JsError>)
    requires forall n :: n in readdir && EndsWith(n, JsonSuffix) ==> n in files
    ensures r.Ok? ==> r.value.count == |r.value.submissions|
    ensures r.Err? ==> r.error.SyntaxError? || r.error == TypeError(ConversionMessage)
  {
    var names := JsonFiles(readdir);
    match LoadEntries(names, files)
    case Err(e) => Err(e)
    case Ok(entries) =>
      if |entries| >= 2 && KeyThrows(entries, parse) then Err(TypeError(ConversionMessage))
      else
        var sorted := SortNewestFirst(entries, parse);
        Ok(ListingPage(|sorted|, sorted))
  }

  /** Every `.json` file of the directory holds a JSON object. */
  predicate AllParse(readdir: seq<string>, files: map<string, FileContent>)
    requires forall n :: n in readdir && EndsWith(n, JsonSuffix) ==> n in files
  {
    forall n :: n in readdir && EndsWith(n, JsonSuffix) ==> files[n].JsonObject?
  }

  /** Some `.json` file of the directory holds an unconvertible `submittedAt`. */
  predicate SomeStampThrows(readdir: seq<string>, files: map<string, FileContent>)
    requires forall n :: n in readdir && EndsWith(n, JsonSuffix) ==> n in files
  {
    exists n :: n in readdir && EndsWith(n, JsonSuffix) && StampThrows(files[n])
  }

  /** A loaded entry whose key throws comes from a file whose stamp throws. */
  lemma KeyThrowsHasStamp(readdir: seq<string>, files: map<string, FileContent>,
                          parse: string -> Option<int>)
    requires forall n :: n in readdir && EndsWith(n, JsonSuffix) ==> n in files
    requires LoadEntries(JsonFiles(readdir), files).Ok?
    requires KeyThrows(LoadEntries(JsonFiles(readdir), files).value, parse)
    ensures SomeStampThrows(readdir, files)
  {
    var names := JsonFiles(readdir);
    var entries := LoadEntries(names, files).value;
    var i :| 0 <= i < |entries| && SortKey(entries[i], parse).Err?;
    StampOfEntry(names, files, entries, i, parse);
    assert names[i] in names;
  }

  /** A file whose stamp throws makes its loaded entry's key throw. */
  lemma StampMakesKeyThrow(readdir: seq<string>, files: map<string, FileContent>,
                           parse: string -> Option<int>)
    requires forall n :: n in readdir && EndsWith(n, JsonSuffix) ==> n in files
    requires LoadEntries(JsonFiles(readdir), files).Ok?
    requires SomeStampThrows(readdir, files)
    ensures KeyThrows(LoadEntries(JsonFiles(readdir), files).value, parse)
  {
    var names := JsonFiles(readdir);
    var entries := LoadEntries(names, files).value;
    var n :| n in readdir && EndsWith(n, JsonSuffix) && StampThrows(files[n]);
    var i := PositionIn(names, n);
    StampOfEntry(names, files, entries, i, parse);
  }

  /** A position at which `n` occurs in `names`. */
  lemma PositionIn(names: seq<string>, n: string) returns (i: nat)
    requires n in names
    ensures i < |names| && names[i] == n
  {
    i :| 0 <= i < |names| && names[i] == n;
  }

  /** The `i`-th loaded entry's key throws exactly when the `i`-th file's stamp does. */
  lemma StampOfEntry(names: seq<string>, files: map<string, FileContent>, entries: seq<Record>,
                     i: nat, parse: string -> Option<int>)
    requires forall k :: 0 <= k < |names| ==> names[k] in files
    requires LoadEntries(names, files) == Ok(entries)
    requires i < |names|
    ensures SortKey(entries[i], parse).Err? <==> StampThrows(files[names[i]])
  {
    assert entries[i] == EntryOf(names[i], files[names[i]].data);
    EntryKeyThrows(names[i], files[names[i]].data, parse);
  }

  /**
   * The listing succeeds exactly when every `.json` file holds a JSON object and, when there
   * are two or more of them, none has an unconvertible `submittedAt`; a file that does not
   * parse answers a `SyntaxError`, an unconvertible stamp a `TypeError`.
   */
  lemma ListingOutcome(readdir: seq<string>, files: map<string, FileContent>,
                       parse: string -> Option<int>)
    requires forall n :: n in readdir && EndsWith(n, JsonSuffix) ==> n in files
    ensures ListSubmissions(readdir, files, parse).Ok? <==>
              AllParse(readdir, files)
              && !(|JsonFiles(readdir)| >= 2 && SomeStampThrows(readdir, files))
    ensures !AllParse(readdir, files) ==>
              ListSubmissions(readdir, files, parse).Err?
              && ListSubmissions(readdir, files, parse).error.SyntaxError?
    ensures AllParse(readdir, files) && |JsonFiles(readdir)| >= 2
            && SomeStampThrows(readdir, files) ==>
              ListSubmissions(readdir, files, parse) == Err(TypeError(ConversionMessage))
  {
    var names := JsonFiles(readdir);
    if LoadEntries(names, files).Err? {
      var i :| FirstUnparsed(names, files, i);
      assert names[i] in readdir;
    } else {
      forall n | n in readdir && EndsWith(n, JsonSuffix)
        ensures files[n].JsonObject?
      {
        var i :| 0 <= i < |names| && names[i] == n;
      }
      if KeyThrows(LoadEntries(names, files).value, parse) {
        KeyThrowsHasStamp(readdir, files, parse);
      }
      if SomeStampThrows(readdir, files) {
        StampMakesKeyThrow(readdir, files, parse);
      }
    }
  }

  /** `e` is the merged entry of some `.json` file of the directory. */
  predicate IsEntryOfSome(e: Record, readdir: seq<string>, files: map<string, FileContent>)
    requires forall n :: n in readdir && EndsWith(n, JsonSuffix) ==> n in files
  {
    exists n :: n in readdir && EndsWith(n, JsonSuffix)
                && files[n].JsonObject? && e == EntryOf(n, files[n].data)
  }

  /** The `k`-th loaded entry is the merged entry of a `.json` file of the directory. */
  lemma LoadedIsEntryOfSome(readdir: seq<string>, files: map<string, FileContent>, k: nat)
    requires forall n :: n in readdir && EndsWith(n, JsonSuffix) ==> n in files
    requires LoadEntries(JsonFiles(readdir), files).Ok?
    requires k < |JsonFiles(readdir)|
    ensures IsEntryOfSome(LoadEntries(JsonFiles(readdir), files).value[k], readdir, files)
  {
    var names := JsonFiles(readdir);
    var n := names[k];
    assert n in names;
  }

  /** The merged entry of every `.json` file of the directory is loaded. */
  lemma FileEntryIsLoaded(readdir: seq<string>, files: map<string, FileContent>, n: string)
    requires forall m :: m in readdir && EndsWith(m, JsonSuffix) ==> m in files
    requires LoadEntries(JsonFiles(readdir), files).Ok?
    requires n in readdir && EndsWith(n, JsonSuffix) && files[n].JsonObject?
    ensures EntryOf(n, files[n].data) in LoadEntries(JsonFiles(readdir), files).value
  {
    var names := JsonFiles(readdir);
    var entries := LoadEntries(names, files).value;
    assert n in names;
    var i :| 0 <= i < |names| && names[i] == n;
    assert entries[i] == EntryOf(n, files[n].data);
  }

  /**
   * A successful listing holds one merged entry per `.json` file and nothing else, `count`
   * of them.
   */
  lemma ListingEntries(readdir: seq<string>, files: map<string, FileContent>,
                       parse: string -> Option<int>)
    requires forall n :: n in readdir && EndsWith(n, JsonSuffix) ==> n in files
    requires ListSubmissions(readdir, files, parse).Ok?
    ensures ListSubmissions(readdir, files, parse).value.count == |JsonFiles(readdir)|
    ensures forall e :: e in ListSubmissions(readdir, files, parse).value.submissions <==>
              IsEntryOfSome(e, readdir, files)
  {
    var entries := LoadEntries(JsonFiles(readdir), files).value;
    var sorted := ListSubmissions(readdir, files, parse).value.submissions;
    assert multiset(sorted) == multiset(entries);
    forall e | e in sorted
      ensures IsEntryOfSome(e, readdir, files)
    {
      assert e in multiset(entries);
      var k :| 0 <= k < |entries| && entries[k] == e;
      LoadedIsEntryOfSome(readdir, files, k);
    }
    forall e | IsEntryOfSome(e, readdir, files)
      ensures e in sorted
    {
      var n :| n in readdir && EndsWith(n, JsonSuffix)
               && files[n].JsonObject? && e == EntryOf(n, files[n].data);
      FileEntryIsLoaded(readdir, files, n);
      assert e in multiset(sorted);
    }
  }

  /** A successful listing whose dates are all valid is newest first. */
  lemma ListingNewestFirst(readdir: seq<string>, files: map<string, FileContent>,
                           parse: string -> Option<int>)
    requires forall n :: n in readdir && EndsWith(n, JsonSuffix) ==> n in files
    requires ListSubmissions(readdir, files, parse).Ok?
    requires AllDated(ListSubmissions(readdir, files, parse).value.submissions, parse)
    ensures NewestFirst(ListSubmissions(readdir, files, parse).value.submissions, parse)
  {
    var entries := LoadEntries(JsonFiles(readdir), files).value;
    var sorted := ListSubmissions(readdir, files, parse).value.submissions;
    assert sorted == SortNewestFirst(entries, parse);
    forall i | 0 <= i < |entries|
      ensures Time(entries[i], parse).Some?
    {
      assert entries[i] in multiset(sorted);
      var k :| 0 <= k < |sorted| && sorted[k] == entries[i];
    }
    SortOrders(entries, parse);
  }
}
