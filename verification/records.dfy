/**
 * The stored submission (server.js:39-43), the merged view returned by the listing and by
 * get (server.js:88-92, 129-133), and what a file in the store holds.
 */
module Records {
  import opened JsValues

  /**
   * The three readings of the clock one submission takes: server.js:32, 40 and 41 each
   * construct their own `new Date()`, so the readings may differ.
   */
  datatype Clock = Clock(nameStamp: string, isoStamp: string, localeStamp: string)

  /**
   * What `JSON.parse` makes of a file: an object, or text that is no JSON object (the CSV
   * summary, a damaged record).
   */
  datatype FileContent = JsonObject(data: Record) | PlainText(text: string)

  const SubmittedAt := "submittedAt"
  const SubmittedDate := "submittedDate"

  /**
   * `{ submittedAt, submittedDate, ...formData }`: the two metadata fields, except where the
   * client sent a field of the same name; every client field is kept as sent.
   */
  function BuildRecord(form: Record, isoStamp: string, localeStamp: string): (r: Record)
    ensures r.Keys == form.Keys + {SubmittedAt, SubmittedDate}
    ensures forall k :: k in form ==> r[k] == form[k]
    ensures SubmittedAt !in form ==> r[SubmittedAt] == Str(isoStamp)
    ensures SubmittedDate !in form ==> r[SubmittedDate] == Str(localeStamp)
  {
    map[SubmittedAt := Str(isoStamp), SubmittedDate := Str(localeStamp)] + form
  }

  /**
   * `{ id, fileName, ...data }`: the stored fields win over the two the server adds, so a
   * stored `id` hides the derived one.
   */
  function WithIdentity(id: string, fileName: string, data: Record): (r: Record)
    ensures r.Keys == data.Keys + {"id", "fileName"}
    ensures forall k :: k in data ==> r[k] == data[k]
    ensures "id" !in data ==> r["id"] == Str(id)
    ensures "fileName" !in data ==> r["fileName"] == Str(fileName)
  {
    map["id" := Str(id), "fileName" := Str(fileName)] + data
  }
}
