/** The document collection `stars` of the backend service, standing in for
    the external database: documents keyed by the identifier the store
    assigns on insert, and a counter that supplies fresh identifiers. */
module StarStore {
  import opened Wrappers
  import opened JsonValues

  type Id = nat

  /** A stored document without its `_id`, which is the key it is stored under. */
  type Doc = map<string, Json>

  datatype Store = Store(docs: map<Id, Doc>, next: Id)

  /** Every identifier in use was handed out before `next`. */
  predicate Valid(st: Store) {
    forall id :: id in st.docs ==> id < st.next
  }

  /** Inserts `doc` under a fresh identifier and returns that identifier. */
  function Insert(st: Store, doc: Doc): (r: (Id, Store))
    ensures Valid(st) ==> r.0 !in st.docs
    ensures Valid(st) ==> Valid(r.1)
    ensures r.1.docs == st.docs[r.0 := doc]
  {
    (st.next, Store(st.docs[st.next := doc], st.next + 1))
  }

  /** Looks a document up by identifier; absent when none is stored under it. */
  function FindOne(st: Store, id: Id): (r: Option<Doc>)
    ensures r.Some? <==> id in st.docs
    ensures r.Some? ==> r.value == st.docs[id]
  {
    if id in st.docs then Some(st.docs[id]) else None
  }

  /** Read-after-write: the inserted document is found under the returned
      identifier, every other lookup answers as before, and the collection
      grows by exactly one document. */
  lemma InsertThenFind(st: Store, doc: Doc, other: Id)
    requires Valid(st)
    ensures FindOne(Insert(st, doc).1, Insert(st, doc).0) == Some(doc)
    ensures other != Insert(st, doc).0 ==> FindOne(Insert(st, doc).1, other) == FindOne(st, other)
    ensures |Insert(st, doc).1.docs| == |st.docs| + 1
  {
  }
}
