/** The persistent chromadb client the vector store talks to, kept abstract:
    a map from collection name to collection, each collection a list of
    records in insertion order. Only the behaviour the store depends on is
    modelled (creation and lookup by name, add, get by id, query); the
    nearest-neighbour ranking is a parameter. */
module Chroma {
  import opened Wrappers
  import Seqs

  /** An embedding vector (Python `List[float]`). */
  type Embedding = seq<real>

  /** One stored entry: its id, its document text and its embedding. */
  datatype Record = Record(id: string, document: string, embedding: Embedding)

  /** A named collection: the metadata it was created with and its records. */
  datatype Collection = Collection(metadata: map<string, string>, records: seq<Record>)

  /** The client's state: every collection, by name. */
  type Client = map<string, Collection>

  /** The ranking the service computes for one query embedding: the ids of
      the records nearest to it, nearest first. How it measures distance
      belongs to the service and is not modelled; `RankingValid` states what
      the store relies on. */
  type Ranking = (seq<Record>, Embedding, nat) -> seq<string>

  /** `ids` could be the answer for at most `n` neighbours among `records`:
      no more than `n` ids, none twice, each the id of one of the records. */
  predicate Ranked(ids: seq<string>, records: seq<Record>, n: int) {
    |ids| <= n && Seqs.Distinct(ids) && forall k :: 0 <= k < |ids| ==> ids[k] in Ids(records)
  }

  /** A ranking that only ever answers with at most `n` distinct ids of the
      records it was given. */
  ghost predicate RankingValid(rank: Ranking) {
    forall records: seq<Record>, query: Embedding, n: nat :: Ranked(rank(records, query, n), records, n)
  }

  /** The errors the client raises. */
  datatype ClientError =
    | UniqueConstraint(name: string)    // create_collection on a name in use
    | CollectionMissing(name: string)   // get_collection on an unknown name
    | InvalidName                       // a collection name that is `None`
    | MismatchedLengths                 // add with lists of unequal length
    | DuplicateIds                      // add with an id twice in one request
    | DimensionMismatch(expected: nat)  // add with an embedding of another length
    | InvalidResultCount(n: int)        // query asking for no result at all

  /** The reply to `get(ids, include=["embeddings"])`. */
  datatype GetResult = GetResult(ids: seq<string>, embeddings: seq<Embedding>)

  /** The reply to `query(query_embeddings, n_results)`: one row of ids per
      query embedding. */
  datatype QueryResult = QueryResult(ids: seq<seq<string>>)

  /** The records' ids, in order. */
  function Ids(records: seq<Record>): (r: seq<string>)
    ensures |r| == |records|
    ensures forall k :: 0 <= k < |r| ==> r[k] == records[k].id
  {
    seq(|records|, k requires 0 <= k < |records| => records[k].id)
  }

  /** Every record's embedding has length `d`. */
  predicate AllOfDimension(records: seq<Record>, d: nat) {
    forall k :: 0 <= k < |records| ==> |records[k].embedding| == d
  }

  /** What the service keeps true of every collection: ids are unique and
      all embeddings share one dimensionality. */
  predicate Valid(c: Collection) {
    Seqs.Distinct(Ids(c.records)) && (|c.records| == 0 || AllOfDimension(c.records, |c.records[0].embedding|))
  }

  /** Every collection of the client is valid. */
  predicate ClientValid(client: Client) {
    forall name :: name in client ==> Valid(client[name])
  }

  /** `client.create_collection(name, metadata)`: a fresh, empty collection,
      refused when the name is already taken. */
  function CreateCollection(client: Client, name: Option<string>, metadata: map<string, string>): (r: Result<Client, ClientError>)
    ensures r.Ok? <==> name.Some? && name.value !in client
    ensures r.Ok? ==> r.value.Keys == client.Keys + {name.value}
    ensures r.Ok? ==> r.value[name.value] == Collection(metadata, [])
    ensures r.Ok? ==> forall n :: n in client ==> r.value[n] == client[n]
    ensures name.Some? && name.value in client ==> r == Err(UniqueConstraint(name.value))
  {
    match name
    case None => Err(InvalidName)
    case Some(n) => if n in client then Err(UniqueConstraint(n)) else Ok(client[n := Collection(metadata, [])])
  }

  /** `client.get_collection(name)` */
  function GetCollection(client: Client, name: string): (r: Result<Collection, ClientError>)
    ensures r.Ok? <==> name in client
    ensures r.Ok? ==> r.value == client[name]
  {
    if name in client then Ok(client[name]) else Err(CollectionMissing(name))
  }

  /** Appends, in request order, a record for each requested id that the
      collection does not hold yet; an id already present is skipped. */
  function Insert(records: seq<Record>, ids: seq<string>, documents: seq<string>, embeddings: seq<Embedding>): seq<Record>
    requires |ids| == |documents| == |embeddings|
    decreases |ids|
  {
    if |ids| == 0 then records
    else
      var next := if ids[0] in Ids(records) then records else records + [Record(ids[0], documents[0], embeddings[0])];
      Insert(next, ids[1..], documents[1..], embeddings[1..])
  }

  /** Insertion keeps ids unique and, when every embedding involved has
      length `d`, keeps every record at dimensionality `d`. */
  lemma {:induction false} InsertKeepsInvariant(records: seq<Record>, ids: seq<string>, documents: seq<string>, embeddings: seq<Embedding>, d: nat)
    requires |ids| == |documents| == |embeddings|
    requires Seqs.Distinct(Ids(records)) && AllOfDimension(records, d)
    requires forall k :: 0 <= k < |embeddings| ==> |embeddings[k]| == d
    ensures var r := Insert(records, ids, documents, embeddings);
      Seqs.Distinct(Ids(r)) && AllOfDimension(r, d) && records <= r
    decreases |ids|
  {
    if |ids| > 0 {
      var next := if ids[0] in Ids(records) then records else records + [Record(ids[0], documents[0], embeddings[0])];
      if ids[0] !in Ids(records) {
        assert Ids(next) == Ids(records) + [ids[0]];
      }
      InsertKeepsInvariant(next, ids[1..], documents[1..], embeddings[1..], d);
    }
  }

  /** `collection.add(ids, documents, embeddings)` */
  function CollectionAdd(c: Collection, ids: seq<string>, documents: seq<string>, embeddings: seq<Embedding>): Result<Collection, ClientError>
  {
    if !(|ids| == |documents| == |embeddings|) then Err(MismatchedLengths)
    else if !Seqs.Distinct(ids) then Err(DuplicateIds)
    else if |embeddings| == 0 then Ok(c)
    else
      var d := if |c.records| == 0 then |embeddings[0]| else |c.records[0].embedding|;
      if exists k :: 0 <= k < |embeddings| && |embeddings[k]| != d then Err(DimensionMismatch(d))
      else Ok(c.(records := Insert(c.records, ids, documents, embeddings)))
  }

  /** A successful add keeps the collection valid, keeps its metadata and
      only ever appends records. */
  lemma AddKeepsValid(c: Collection, ids: seq<string>, documents: seq<string>, embeddings: seq<Embedding>)
    requires Valid(c)
    requires CollectionAdd(c, ids, documents, embeddings).Ok?
    ensures var c' := CollectionAdd(c, ids, documents, embeddings).value;
      Valid(c') && c'.metadata == c.metadata && c.records <= c'.records
  {
    if |embeddings| > 0 {
      var d := if |c.records| == 0 then |embeddings[0]| else |c.records[0].embedding|;
      InsertKeepsInvariant(c.records, ids, documents, embeddings, d);
      var r := Insert(c.records, ids, documents, embeddings);
      if |r| > 0 {
        assert |r[0].embedding| == d;
      }
    }
  }

  /** Selects the records whose id is one of `ids`. */
  function IdIn(ids: seq<string>): Record -> bool {
    (rec: Record) => rec.id in ids
  }

  /** `collection.get(ids, include=["embeddings"])`: the matching records,
      in collection order. */
  function CollectionGet(c: Collection, ids: seq<string>): GetResult {
    var found := Seqs.Filter(c.records, IdIn(ids));
    GetResult(Ids(found), seq(|found|, k requires 0 <= k < |found| => found[k].embedding))
  }

  /** Some query embedding has a length other than `d`. */
  predicate AnyOtherDimension(queries: seq<Embedding>, d: nat) {
    exists k :: 0 <= k < |queries| && |queries[k]| != d
  }

  /** `collection.query(query_embeddings, n_results)`: one ranked row per
      query embedding. A non-positive count is refused, and so is a query
      embedding whose length differs from that of the stored embeddings. */
  function CollectionQuery(c: Collection, rank: Ranking, queries: seq<Embedding>, n: int): (r: Result<QueryResult, ClientError>)
    requires RankingValid(rank)
    ensures n <= 0 ==> r == Err(InvalidResultCount(n))
    ensures n > 0 && |c.records| > 0 && AnyOtherDimension(queries, |c.records[0].embedding|) ==>
      r == Err(DimensionMismatch(|c.records[0].embedding|))
    ensures r.Ok? <==> n > 0 && (|c.records| == 0 || !AnyOtherDimension(queries, |c.records[0].embedding|))
    ensures r.Ok? ==>
      && |r.value.ids| == |queries|
      && forall k :: 0 <= k < |queries| ==> Ranked(r.value.ids[k], c.records, n)
  {
    if n <= 0 then Err(InvalidResultCount(n))
    else if |c.records| > 0 && AnyOtherDimension(queries, |c.records[0].embedding|) then
      Err(DimensionMismatch(|c.records[0].embedding|))
    else Ok(QueryResult(seq(|queries|, k requires 0 <= k < |queries| => rank(c.records, queries[k], n))))
  }
}
