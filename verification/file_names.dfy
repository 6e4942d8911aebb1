/**
 * How a submission's file name is derived (server.js:32-35) and how the listing turns a file
 * name back into an id (server.js:89) and get/delete turn an id into a file name
 * (server.js:114, 148).
 */
module FileNames {
  import opened Wrappers
  import opened Text
  import opened JsValues
  import Paths

  const JsonSuffix := ".json"
  const DefaultBusinessName := "Unknown"

  /** The characters `Date.prototype.toISOString` produces. */
  predicate IsIsoChar(c: char)
  {
    '0' <= c <= '9' || c == '-' || c == '+' || c == ':' || c == '.' || c == 'T' || c == 'Z'
  }

  predicate IsIsoTimestamp(s: string)
  {
    forall i :: 0 <= i < |s| ==> IsIsoChar(s[i])
  }

  /** `iso.replace(/[:.]/g, '-')`. */
  function DashStamp(iso: string): (r: string)
    ensures |r| == |iso|
    ensures forall i :: 0 <= i < |iso| ==>
              r[i] == (if iso[i] == ':' || iso[i] == '.' then '-' else iso[i])
    ensures ':' !in r && '.' !in r
  {
    if iso == [] then []
    else [if iso[0] == ':' || iso[0] == '.' then '-' else iso[0]] + DashStamp(iso[1..])
  }

  /** The characters `/[a-z0-9]/i` matches. */
  predicate IsAsciiAlnum(c: char)
  {
    'a' <= c <= 'z' || 'A' <= c <= 'Z' || '0' <= c <= '9'
  }

  /** What a sanitized business name is made of: `[a-z0-9_]`. */
  predicate IsNameChar(c: char)
  {
    'a' <= c <= 'z' || '0' <= c <= '9' || c == '_'
  }

  /** `toLowerCase` on an ASCII letter or digit. */
  function LowerAscii(c: char): (r: char)
    requires IsAsciiAlnum(c)
    ensures IsNameChar(r)
  {
    if 'A' <= c <= 'Z' then (c as int - 'A' as int + 'a' as int) as char else c
  }

  /**
   * `name.replace(/[^a-z0-9]/gi, '_').toLowerCase()`: one output character per input
   * character, ASCII letters and digits lowered, everything else an underscore.
   */
  function SanitizeName(name: string): (r: string)
    ensures |r| == |name|
    ensures forall i :: 0 <= i < |r| ==> IsNameChar(r[i])
    ensures forall i :: 0 <= i < |name| ==>
              r[i] == (if IsAsciiAlnum(name[i]) then LowerAscii(name[i]) else '_')
  {
    if name == [] then []
    else [if IsAsciiAlnum(name[0]) then LowerAscii(name[0]) else '_'] + SanitizeName(name[1..])
  }

  /** Sanitizing twice changes nothing: a sanitized name is its own sanitized form. */
  lemma {:induction false} SanitizeIdempotent(name: string)
    ensures SanitizeName(SanitizeName(name)) == SanitizeName(name)
  {
    if name != [] {
      var once := SanitizeName(name);
      assert once[1..] == SanitizeName(name[1..]);
      SanitizeIdempotent(name[1..]);
    }
  }

  /**
   * `formData.businessName || 'Unknown'`, then the `.replace` call, which throws a
   * TypeError on a truthy value that is not a string.
   */
  function BusinessLabel(v: Option<Value>): (r: Result<string, JsError>)
    ensures r.Err? <==> v.Some? && Truthy(v.value) && !v.value.Str?
    ensures r.Err? ==> r.error == TypeError("businessName.replace is not a function")
    ensures r.Ok? && (v.None? || !Truthy(v.value)) ==> r.value == DefaultBusinessName
    ensures r.Ok? && v.Some? && Truthy(v.value) ==> r.value == v.value.s && r.value != ""
  {
    if v.None? || !Truthy(v.value) then Ok(DefaultBusinessName)
    else if v.value.Str? then Ok(v.value.s)
    else Err(TypeError("businessName.replace is not a function"))
  }

  /** `${timestamp}_${sanitizedBusinessName}.json`. */
  function FileNameFor(isoStamp: string, form: Record): (r: Result<string, JsError>)
    ensures r.Err? <==> BusinessLabel(Get(form, "businessName")).Err?
    ensures r.Err? ==> r.error == BusinessLabel(Get(form, "businessName")).error
    ensures r.Ok? ==> |r.value| == |isoStamp| + |BusinessLabel(Get(form, "businessName")).value| + 6
  {
    match BusinessLabel(Get(form, "businessName"))
    case Err(e) => Err(e)
    case Ok(business) => Ok(DashStamp(isoStamp) + "_" + SanitizeName(business) + JsonSuffix)
  }

  /** The listing's id: `file.replace('.json', '')`, which removes the FIRST `.json`. */
  function IdOf(fileName: string): (r: string)
    ensures EndsWith(fileName, JsonSuffix) ==> |r| + |JsonSuffix| == |fileName|
    ensures (forall j: nat :: !OccursAt(fileName, JsonSuffix, j)) ==> r == fileName
  {
    assert EndsWith(fileName, JsonSuffix) ==> OccursAt(fileName, JsonSuffix, |fileName| - 5) by {
      if EndsWith(fileName, JsonSuffix) {
        assert fileName[|fileName| - 5..|fileName| - 5 + |JsonSuffix|] == fileName[|fileName| - 5..];
      }
    }
    RemoveFirst(fileName, JsonSuffix)
  }

  /** Get and delete address the file `id + '.json'`. */
  function FileNameOf(id: string): (r: string)
    ensures EndsWith(r, JsonSuffix)
    ensures |r| == |id| + |JsonSuffix| && r[..|id|] == id
  {
    var r := id + JsonSuffix;
    assert r[|r| - 5..] == JsonSuffix;
    r
  }

  /**
   * A generated file name: the dashed timestamp, `_`, the sanitized business name (or of
   * `Unknown`), `.json`. It fails exactly when the business name is a truthy non-string.
   */
  lemma FileNameParts(isoStamp: string, form: Record)
    ensures var business := BusinessLabel(Get(form, "businessName"));
            && (FileNameFor(isoStamp, form).Err? <==> business.Err?)
            && (business.Ok? ==>
                  FileNameFor(isoStamp, form).value
                    == DashStamp(isoStamp) + "_" + SanitizeName(business.value) + JsonSuffix)
            && (business.Ok? ==> |FileNameFor(isoStamp, form).value| == |isoStamp| + |business.value| + 6)
  {
  }

  /** A dashed `toISOString` stamp holds neither `.` nor `/`. */
  lemma StampPlain(isoStamp: string)
    requires IsIsoTimestamp(isoStamp)
    ensures '.' !in DashStamp(isoStamp) && '/' !in DashStamp(isoStamp)
  {
    var stamp := DashStamp(isoStamp);
    forall i | 0 <= i < |stamp|
      ensures stamp[i] != '/'
    {
      assert IsIsoChar(isoStamp[i]);
    }
  }

  /** A sanitized name holds neither `.` nor `/`. */
  lemma CleanPlain(business: string)
    ensures '.' !in SanitizeName(business) && '/' !in SanitizeName(business)
  {
    var clean := SanitizeName(business);
    forall i | 0 <= i < |clean|
      ensures clean[i] != '.' && clean[i] != '/'
    {
      assert IsNameChar(clean[i]);
    }
  }

  /**
   * Before its `.json` suffix a generated name holds neither `.` nor `/`: the dashed stamp
   * lost its dots, and the sanitized name is made of `[a-z0-9_]`.
   */
  lemma GeneratedNamePlain(isoStamp: string, business: string)
    requires IsIsoTimestamp(isoStamp)
    ensures var prefix := DashStamp(isoStamp) + "_" + SanitizeName(business);
            '.' !in prefix && '/' !in prefix
  {
    StampPlain(isoStamp);
    CleanPlain(business);
  }

  /** In a name whose only `.` starts a final `.json`, the first `.json` is that suffix. */
  lemma FirstJsonIsSuffix(name: string)
    requires EndsWith(name, JsonSuffix)
    requires '.' !in name[..|name| - 5]
    ensures IndexOf(name, JsonSuffix) == Some(|name| - 5)
    ensures IdOf(name) == name[..|name| - 5]
    ensures FileNameOf(IdOf(name)) == name
  {
    var k := |name| - 5;
    assert OccursAt(name, JsonSuffix, k);
    forall j: nat | j < k
      ensures !OccursAt(name, JsonSuffix, j)
    {
      assert name[j] == name[..k][j];
      assert name[j..j + 5][0] == name[j];
    }
    assert name[..k] + name[k + 5..] == name[..k];
    assert name[..k] + JsonSuffix == name;
  }

  /**
   * A generated file name is one plain directory entry ending in `.json`: it holds no `/`,
   * so the write stays inside the submissions directory.
   */
  lemma GeneratedNameIsSegment(isoStamp: string, form: Record)
    requires IsIsoTimestamp(isoStamp)
    requires FileNameFor(isoStamp, form).Ok?
    ensures var name := FileNameFor(isoStamp, form).value;
            && Paths.IsSegment(name)
            && EndsWith(name, JsonSuffix)
            && '.' !in name[..|name| - 5]
  {
    var business := BusinessLabel(Get(form, "businessName")).value;
    var prefix := DashStamp(isoStamp) + "_" + SanitizeName(business);
    assert FileNameFor(isoStamp, form).value == prefix + JsonSuffix;
    GeneratedNamePlain(isoStamp, business);
    PlainJsonName(prefix);
  }

  /** A prefix free of `.` and `/`, followed by `.json`, is a plain entry name. */
  lemma PlainJsonName(prefix: string)
    requires '.' !in prefix && '/' !in prefix
    ensures var name := prefix + JsonSuffix;
            && Paths.IsSegment(name)
            && EndsWith(name, JsonSuffix)
            && name[..|name| - 5] == prefix
  {
    var name := prefix + JsonSuffix;
    assert name[|name| - 5..] == JsonSuffix;
    assert name[..|name| - 5] == prefix;
    assert '/' !in JsonSuffix;
  }

  /**
   * The id the listing derives from a generated name addresses the same file through get and
   * delete.
   */
  lemma GeneratedNameIsEntry(isoStamp: string, form: Record)
    requires IsIsoTimestamp(isoStamp)
    requires FileNameFor(isoStamp, form).Ok?
    ensures var name := FileNameFor(isoStamp, form).value;
            && Paths.IsSegment(name)
            && IdOf(name) == name[..|name| - 5]
            && FileNameOf(IdOf(name)) == name
  {
    GeneratedNameIsSegment(isoStamp, form);
    FirstJsonIsSuffix(FileNameFor(isoStamp, form).value);
  }

  /**
   * For a file the store did not create, the listing's id need not lead back to it: the
   * first `.json` is removed, wherever it is.
   */
  lemma ForeignNameIdMisses()
    ensures IdOf("a.jsonb.json") == "ab.json"
    ensures FileNameOf(IdOf("a.jsonb.json")) != "a.jsonb.json"
  {
    assert OccursAt("a.jsonb.json", JsonSuffix, 1);
    assert "a.jsonb.json"[0..5][0] == 'a';
    assert !OccursAt("a.jsonb.json", JsonSuffix, 0);
    assert IndexOf("a.jsonb.json", JsonSuffix) == Some(1);
    assert "a.jsonb.json"[..1] + "a.jsonb.json"[6..] == "ab.json";
    assert FileNameOf("ab.json")[1] == 'b' && "a.jsonb.json"[1] == '.';
  }
}
