/** The per-address PDF store of `persist` in script.js: one map from a
    seeker's address to the data URL of the uploaded CV. */
module PdfMap {
  import opened Seqs

  type PdfStore = map<string, string>

  /** `saveUserPdf`: the address now holds the new document, every other
      address keeps its own. */
  function Save(m: PdfStore, email: string, data: string): (r: PdfStore)
    ensures r.Keys == m.Keys + {email}
    ensures r[email] == data
    ensures forall e | e in m && e != email :: r[e] == m[e]
  {
    m[email := data]
  }

  /** `loadUserPdf`: the stored document, or nothing when the address has
      none or the stored value is the empty string (`map[email] || null`). */
  function Load(m: PdfStore, email: string): (r: Option<string>)
    ensures r.Some? <==> email in m && m[email] != []
    ensures r.Some? ==> r.value == m[email]
  {
    if email in m && m[email] != [] then Some(m[email]) else None
  }

  /** `removeUserPdf`: the address is forgotten, the others are kept. */
  function Remove(m: PdfStore, email: string): (r: PdfStore)
    ensures r.Keys == m.Keys - {email}
    ensures forall e | e in r :: r[e] == m[e]
  {
    m - {email}
  }

  /** A saved non-empty document is what the next load returns. */
  lemma LoadAfterSave(m: PdfStore, email: string, data: string, other: string)
    ensures Load(Save(m, email, data), email) == if data == [] then None else Some(data)
    ensures other != email ==> Load(Save(m, email, data), other) == Load(m, other)
  {
  }

  /** After a remove the address has no document, and the others keep
      theirs; removing twice is removing once. */
  lemma LoadAfterRemove(m: PdfStore, email: string, other: string)
    ensures Load(Remove(m, email), email) == None
    ensures other != email ==> Load(Remove(m, email), other) == Load(m, other)
    ensures Remove(Remove(m, email), email) == Remove(m, email)
  {
  }

  /** Removing after a save forgets the save entirely. */
  lemma RemoveAfterSave(m: PdfStore, email: string, data: string)
    ensures Remove(Save(m, email, data), email) == Remove(m, email)
  {
  }
}
