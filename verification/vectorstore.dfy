/** The vector store: a factory that picks a backend by name, the chromadb
    backend that attaches to or creates a named collection and turns each
    call into a one-element request, and the Postgres and SQLite-vec
    backends, which so far only remember their database name.

    The process-wide chromadb client is passed in and handed back
    explicitly as a `Client` value. */
module VectorStore {
  import opened Wrappers
  import opened Chroma
  import Seqs

  /** A store handle, one constructor per backend class. The chromadb
      handle names the collection it is attached to. */
  datatype Store =
    | ChromadbStore(collection: string)
    | PostgresStore(dbName: Option<string>)
    | SQLiteVecStore(dbName: Option<string>)

  /** The errors a store call raises. */
  datatype StoreError =
    | UnknownStoreType(storeType: Option<string>)  // ValueError from the factory
    | ClientFailed(cause: ClientError)             // raised by the chromadb client
    | IndexError                                   // element 0 of an empty reply

  /** A store together with the client state after opening it. */
  datatype Opened = Opened(client: Client, store: Store)

  const DefaultStoreType: string := "chromadb"
  const DefaultDbName: string := "test_collection"

  /** The metadata every new collection is created with: cosine distance. */
  const CosineSpace: map<string, string> := map["hnsw:space" := "cosine"]

  /** The selector that builds a store of this kind. */
  function Selector(s: Store): string {
    match s
    case ChromadbStore(_) => "chromadb"
    case PostgresStore(_) => "postgres"
    case SQLiteVecStore(_) => "sqlite-vec"
  }

  /** The database name the store was built with. */
  function NameOf(s: Store): Option<string> {
    match s
    case ChromadbStore(n) => Some(n)
    case PostgresStore(n) => n
    case SQLiteVecStore(n) => n
  }

  /** `ChromadbStore(db_name)`: try to create the collection; when the name
      is taken, attach to the existing collection instead. */
  function OpenChromadb(client: Client, dbName: Option<string>): (r: Result<Opened, StoreError>)
    ensures dbName.None? ==> r == Err(ClientFailed(InvalidName))
    ensures dbName.Some? && dbName.value in client ==>
      r == Ok(Opened(client, ChromadbStore(dbName.value)))
    ensures dbName.Some? && dbName.value !in client ==>
      r == Ok(Opened(client[dbName.value := Collection(CosineSpace, [])], ChromadbStore(dbName.value)))
  {
    match CreateCollection(client, dbName, CosineSpace)
    case Ok(created) => Ok(Opened(created, ChromadbStore(dbName.value)))
    case Err(UniqueConstraint(name)) =>
      (match GetCollection(client, name)
       case Ok(_) => Ok(Opened(client, ChromadbStore(name)))
       case Err(e) => Err(ClientFailed(e)))
    case Err(e) => Err(ClientFailed(e))
  }

  /** `vector_store(store_type, db_name)`: dispatch on the selector.
      Exactly the three known selectors are accepted; the store built is of
      the selected kind and carries `db_name` unchanged; any other selector,
      `None` included, is refused with the selector it was given. */
  function Open(client: Client, storeType: Option<string>, dbName: Option<string>): (r: Result<Opened, StoreError>)
    ensures r.Ok? ==> storeType == Some(Selector(r.value.store)) && NameOf(r.value.store) == dbName
    ensures r.Err? && r.error.UnknownStoreType? <==>
      storeType !in {Some("chromadb"), Some("postgres"), Some("sqlite-vec")}
    ensures r.Err? && r.error.UnknownStoreType? ==> r.error.storeType == storeType
    ensures storeType in {Some("postgres"), Some("sqlite-vec")} ==> r.Ok? && r.value.client == client
    ensures storeType == Some("chromadb") ==> (r.Ok? <==> dbName.Some?)
  {
    if storeType == Some("chromadb") then OpenChromadb(client, dbName)
    else if storeType == Some("postgres") then Ok(Opened(client, PostgresStore(dbName)))
    else if storeType == Some("sqlite-vec") then Ok(Opened(client, SQLiteVecStore(dbName)))
    else Err(UnknownStoreType(storeType))
  }

  /** Called with no arguments, the factory opens the chromadb collection
      "test_collection": it always succeeds and leaves an existing
      collection of that name untouched. */
  function OpenDefault(client: Client): (r: Result<Opened, StoreError>)
    ensures r.Ok? && r.value.store == ChromadbStore("test_collection") && "test_collection" in r.value.client
    ensures r.Ok? && "test_collection" in client ==> r.value.client == client
  {
    Open(client, Some(DefaultStoreType), Some(DefaultDbName))
  }

  /** Opening keeps every collection already there exactly as it was, adds
      at most the one requested, which is new, empty and uses cosine
      distance, and keeps the client valid. */
  lemma OpenAttachOrCreate(client: Client, storeType: Option<string>, dbName: Option<string>)
    requires ClientValid(client)
    ensures var r := Open(client, storeType, dbName);
      r.Ok? ==>
        && ClientValid(r.value.client)
        && (forall n :: n in client ==> n in r.value.client && r.value.client[n] == client[n])
        && (forall n :: n in r.value.client && n !in client ==>
              Some(n) == dbName && r.value.client[n] == Collection(CosineSpace, []))
        && (r.value.store.ChromadbStore? ==> r.value.store.collection in r.value.client)
  {
  }

  /** Opening a second time with the same arguments changes nothing more:
      the same handle, the same client state. */
  lemma {:induction false} OpenIdempotent(client: Client, storeType: Option<string>, dbName: Option<string>)
    requires Open(client, storeType, dbName).Ok?
    ensures var first := Open(client, storeType, dbName).value;
      Open(first.client, storeType, dbName) == Ok(first)
  {
    var first := Open(client, storeType, dbName).value;
    if storeType == Some("chromadb") {
      assert dbName.value in first.client;
    }
  }

  /** A handle can be used with this client. */
  predicate Attached(client: Client, store: Store) {
    store.ChromadbStore? ==> store.collection in client
  }

  /** `store.add(url, embeddings)`: the chromadb backend sends a request
      holding one record whose id and document are both the url; the other
      backends do nothing. */
  function Add(client: Client, store: Store, url: string, embeddings: Embedding): (r: Result<Client, StoreError>)
    requires Attached(client, store)
    ensures r.Ok? ==> r.value.Keys == client.Keys
    ensures r.Ok? ==> forall n :: n in client && Some(n) != NameOf(store) ==> r.value[n] == client[n]
    ensures !store.ChromadbStore? ==> r == Ok(client)
  {
    match store
    case ChromadbStore(name) =>
      (match CollectionAdd(client[name], [url], [url], [embeddings])
       case Ok(c) => Ok(client[name := c])
       case Err(e) => Err(ClientFailed(e)))
    case _ => Ok(client)
  }

  /** On chromadb, add appends the one record `(url, url, embeddings)` when
      the url is new and its length matches the collection's, leaves the
      collection as it was when the url is already stored, and fails with a
      dimension error otherwise. */
  lemma AddOneRecord(client: Client, name: string, url: string, embeddings: Embedding)
    requires name in client
    ensures var c := client[name];
      var r := Add(client, ChromadbStore(name), url, embeddings);
      var fits := |c.records| == 0 || |embeddings| == |c.records[0].embedding|;
      && (r.Ok? <==> fits)
      && (fits && url !in Ids(c.records) ==>
            r.value[name] == c.(records := c.records + [Record(url, url, embeddings)]))
      && (fits && url in Ids(c.records) ==> r.value == client)
  {
    var c := client[name];
    var d := if |c.records| == 0 then |embeddings| else |c.records[0].embedding|;
    assert Seqs.Distinct([url]);
    if d == |embeddings| {
      assert !(exists k :: 0 <= k < |[embeddings]| && |[embeddings][k]| != d);
      var next := if url in Ids(c.records) then c.records else c.records + [Record(url, url, embeddings)];
      assert Insert(c.records, [url], [url], [embeddings]) == Insert(next, [], [], []);
      if url in Ids(c.records) {
        assert c.(records := c.records) == c;
        assert client[name := c] == client;
      }
    } else {
      assert |[embeddings][0]| != d;
    }
  }

  /** Add keeps the client valid. */
  lemma AddKeepsClientValid(client: Client, store: Store, url: string, embeddings: Embedding)
    requires ClientValid(client) && Attached(client, store)
    ensures var r := Add(client, store, url, embeddings);
      r.Ok? ==> ClientValid(r.value) && Attached(r.value, store)
  {
    if store.ChromadbStore? && Add(client, store, url, embeddings).Ok? {
      AddKeepsValid(client[store.collection], [url], [url], [embeddings]);
    }
  }

  /** A record with id `url` and embedding `e` is stored in `records`. */
  predicate Stored(records: seq<Record>, url: string, e: Embedding) {
    exists k :: 0 <= k < |records| && records[k].id == url && records[k].embedding == e
  }

  /** Looking up one id finds a record exactly when the id is stored, and
      what it finds first is a stored record with that id. */
  lemma FindById(records: seq<Record>, url: string)
    ensures var found := Seqs.Filter(records, IdIn([url]));
      && (|found| > 0 <==> url in Ids(records))
      && (|found| > 0 ==> found[0] in records && found[0].id == url)
  {
    var found := Seqs.Filter(records, IdIn([url]));
    if |found| > 0 {
      Seqs.FilterMembers(records, IdIn([url]), found[0]);
      assert found[0].id in [url];
      var k :| 0 <= k < |records| && records[k] == found[0];
      assert Ids(records)[k] == url;
    }
    if url in Ids(records) {
      var k :| 0 <= k < |records| && Ids(records)[k] == url;
      Seqs.FilterMembers(records, IdIn([url]), records[k]);
    }
  }

  /** `store.get(url)`: the chromadb backend looks up the one id and returns
      element 0 of the reply's embeddings, which fails when the url is not
      stored; the other backends return `None`. */
  function Get(client: Client, store: Store, url: string): (r: Result<Option<Embedding>, StoreError>)
    requires Attached(client, store)
    ensures !store.ChromadbStore? ==> r == Ok(None)
    ensures store.ChromadbStore? ==> (r.Ok? <==> url in Ids(client[store.collection].records))
    ensures store.ChromadbStore? && r.Ok? ==>
      r.value.Some? && Stored(client[store.collection].records, url, r.value.value)
    ensures r.Err? ==> r == Err(IndexError)
  {
    match store
    case ChromadbStore(name) =>
      var reply := CollectionGet(client[name], [url]);
      FindById(client[name].records, url);
      if |reply.embeddings| == 0 then Err(IndexError)
      else Ok(Some(reply.embeddings[0]))
    case _ => Ok(None)
  }

  /** What is added can be read back: after a successful add of a new url,
      get returns exactly the embeddings that were added. */
  lemma AddThenGet(client: Client, name: string, url: string, embeddings: Embedding)
    requires name in client
    requires url !in Ids(client[name].records)
    requires Add(client, ChromadbStore(name), url, embeddings).Ok?
    ensures var after := Add(client, ChromadbStore(name), url, embeddings).value;
      Get(after, ChromadbStore(name), url) == Ok(Some(embeddings))
  {
    var c := client[name];
    AddOneRecord(client, name, url, embeddings);
    var after := Add(client, ChromadbStore(name), url, embeddings).value;
    var records := after[name].records;
    assert records[..|records| - 1] == c.records;
    FindById(c.records, url);
    assert Seqs.Filter(records, IdIn([url])) == [Record(url, url, embeddings)];
  }

  /** Reopening a collection keeps what was added before: after add, a
      second open of the same name still reads the same embeddings back. */
  lemma ReopenKeepsRecords(client: Client, name: string, url: string, embeddings: Embedding)
    requires name in client
    requires url !in Ids(client[name].records)
    requires Add(client, ChromadbStore(name), url, embeddings).Ok?
    ensures var after := Add(client, ChromadbStore(name), url, embeddings).value;
      var reopened := Open(after, Some("chromadb"), Some(name));
      reopened == Ok(Opened(after, ChromadbStore(name))) &&
      Get(reopened.value.client, reopened.value.store, url) == Ok(Some(embeddings))
  {
    AddThenGet(client, name, url, embeddings);
  }

  /** `store.closest(embeddings, n_results)`: the chromadb backend sends a
      query with the one embedding and returns row 0 of the reply's ids,
      at most `n_results` distinct ids of stored records; the other
      backends return `None`. */
  function Closest(client: Client, store: Store, rank: Ranking, embeddings: Embedding, nResults: int): (r: Result<Option<seq<string>>, StoreError>)
    requires Attached(client, store) && RankingValid(rank)
    ensures !store.ChromadbStore? ==> r == Ok(None)
    ensures store.ChromadbStore? ==>
      var records := client[store.collection].records;
      && (nResults <= 0 ==> r == Err(ClientFailed(InvalidResultCount(nResults))))
      && (nResults > 0 && |records| > 0 && |embeddings| != |records[0].embedding| ==>
            r == Err(ClientFailed(DimensionMismatch(|records[0].embedding|))))
      && (r.Ok? <==> nResults > 0 && (|records| == 0 || |embeddings| == |records[0].embedding|))
      && (r.Ok? ==> r.value.Some? && r.value.value == rank(records, embeddings, nResults)
                    && Ranked(r.value.value, records, nResults))
  {
    match store
    case ChromadbStore(name) =>
      var records := client[name].records;
      assert |records| > 0 ==> (AnyOtherDimension([embeddings], |records[0].embedding|) <==> |embeddings| != |records[0].embedding|) by {
        if |records| > 0 && |embeddings| != |records[0].embedding| {
          assert |[embeddings][0]| != |records[0].embedding|;
        }
      }
      (match CollectionQuery(client[name], rank, [embeddings], nResults)
       case Ok(reply) => if |reply.ids| == 0 then Err(IndexError) else Ok(Some(reply.ids[0]))
       case Err(e) => Err(ClientFailed(e)))
    case _ => Ok(None)
  }

  /** The default `n_results` of `closest`. */
  const DefaultResults: nat := 25

  /** `store.closest(embeddings)` with the default count: at most 25 ids. */
  function ClosestDefault(client: Client, store: Store, rank: Ranking, embeddings: Embedding): (r: Result<Option<seq<string>>, StoreError>)
    requires Attached(client, store) && RankingValid(rank)
    ensures r.Ok? && r.value.Some? ==> |r.value.value| <= 25
    ensures store.ChromadbStore? && r.Err? ==>
      var records := client[store.collection].records;
      |records| > 0 && r == Err(ClientFailed(DimensionMismatch(|records[0].embedding|)))
  {
    Closest(client, store, rank, embeddings, DefaultResults)
  }
}
