# plankton_ml core, modelled in Dafny

This project models the data-handling core of the plankton image tooling:

- the **vector store** that keeps one image embedding per image URL. It covers the
  `vector_store` factory and the chromadb-backed store, which attaches to an existing
  collection or creates a new cosine-space one, then adds, gets and finds the closest
  embeddings. It also covers the Postgres and SQLite-vec stubs.
- the **Label Studio backend** helpers. `convert_url` turns an `s3://` URL into an
  `https` URL under the configured endpoint. `bucket_from_url` picks the classifier
  bucket out of a task's image URL.
- the **S3 helpers**: how `bucket_keys` normalises its listing arguments, and how
  `image_index` filters keys by suffix and formats them as URLs.
- the **image index script**: `bucket_listing` keeps the `tif` entries of a bucket
  listing and reduces each to its base name. The script then writes the names
  joined by newlines.
- the **k-means page**: `image_labels` groups image ids by cluster label, and the
  "more"/"less" buttons move the display depth by `DEPTH = 8`.

The chromadb client is modelled as a value, not as a service:

- It is a map from collection name to collection, and every operation returns the new
  client state. The nearest-neighbour ranking is a function parameter.
- Python `None` arguments are `Option` values and raised exceptions are `Result` errors.
- Environment lookups (`AWS_URL_ENDPOINT`) and bucket listings are parameters.

Files:

- `wrappers.dfy`: Option and Result.
- `strings.dfy`: Python's `in`, `startswith`, `endswith`, `replace`, `split`,
  `"sep".join` and `lstrip`, each paired with lemmas that say what the result means.
- `seqs.dfy`: `filter` and the positions it keeps.
- `chroma.dfy`: the client.
- `vectorstore.dfy`, `label_model.dfy`, `s3.dfy`, `image_index.dfy` and `kmeans.dfy`:
  the five pieces of the core above.

## Model

| member | source | states |
|---|---|---|
| VectorStore.Open | src/cyto_ml/data/vectorstore.py:98-106 | Exactly the three store types "chromadb", "postgres" and "sqlite-vec" are accepted; any other type, `None` included, is an unknown-store-type error carrying that type. A successful open yields the store of the selected kind carrying the given name. The stubs leave the client alone. A chromadb open succeeds exactly when a name is given. |
| VectorStore.OpenDefault | src/cyto_ml/data/vectorstore.py:98 | With the defaults, the result is a chromadb store on "test_collection", that collection exists afterwards, and a client already holding it is unchanged. |
| VectorStore.OpenChromadb | src/cyto_ml/data/vectorstore.py:34-44 | A missing name is a client error. An existing collection is attached without changing the client. A new name gets a fresh, empty collection with cosine-space metadata. |
| VectorStore.OpenAttachOrCreate | src/cyto_ml/data/vectorstore.py:34-44 | Opening leaves every existing collection untouched, adds at most the named empty cosine collection, and keeps the client valid (unique ids, one dimensionality). |
| VectorStore.OpenIdempotent | src/cyto_ml/data/vectorstore.py:35-41 | After a successful open, opening again with the same arguments on the resulting client gives the same store and the same client: the unique-constraint error leads to attaching. |
| VectorStore.Add | src/cyto_ml/data/vectorstore.py:46-53 | Adding never creates or removes collections and never changes a collection other than the store's own. The stubs leave the client as it was. |
| VectorStore.AddOneRecord | src/cyto_ml/data/vectorstore.py:49-53 | Adding a URL succeeds exactly when its embedding has the collection's dimensionality (or the collection is empty). A new URL appends one record whose id and document are both the URL. A URL already stored leaves the client unchanged. |
| VectorStore.AddKeepsClientValid | src/cyto_ml/data/vectorstore.py:49-53 | A successful add keeps every collection's ids unique and its embeddings of one length. |
| VectorStore.Get | src/cyto_ml/data/vectorstore.py:55-58 | The stubs return nothing. The chromadb store succeeds exactly when the URL is stored, and then returns that URL's embedding. Otherwise it raises the index error of reading row 0 of an empty reply. |
| VectorStore.FindById | src/cyto_ml/data/vectorstore.py:57-58 | Looking up one id finds something exactly when the id is stored, and the first record found is a stored record with that id. |
| VectorStore.AddThenGet | src/cyto_ml/data/vectorstore.py:46-58 | After adding a new URL, getting it returns the embedding just added. |
| VectorStore.ReopenKeepsRecords | src/cyto_ml/data/vectorstore.py:34-58 | An added embedding stays retrievable through a store opened again on the same collection name. |
| VectorStore.Closest | src/cyto_ml/data/vectorstore.py:60-63 | The chromadb store returns row 0 of the reply, the ranking of the collection's records for the one query embedding: at most `n_results` ids, none twice, each the id of a stored record. A non-positive count, or a query embedding whose length differs from the stored ones, is a client error, and success happens exactly when neither applies. The stubs return nothing. |
| VectorStore.ClosestDefault | src/cyto_ml/data/vectorstore.py:60 | With the default count, at most 25 ids come back, and the only possible failure is a query embedding of the wrong length. |
| Chroma.CreateCollection | src/cyto_ml/data/vectorstore.py:36-39 | Creation succeeds exactly for a name not in use. It adds that one empty collection with the given metadata and changes nothing else. A taken name raises the unique-constraint error. |
| Chroma.GetCollection | src/cyto_ml/data/vectorstore.py:41 | Lookup succeeds exactly for a name in use and returns that collection. |
| Chroma.CollectionQuery | src/cyto_ml/data/vectorstore.py:62 | A query succeeds exactly when the count is positive and every query embedding has the stored dimensionality (or the collection is empty). It answers one row per query embedding, each at most `n` distinct ids of the collection's records. |
| Chroma.InsertKeepsInvariant | src/cyto_ml/data/vectorstore.py:49-53 | Inserting records keeps ids unique and every embedding at the common length, and only appends. |
| Chroma.AddKeepsValid | src/cyto_ml/data/vectorstore.py:49-53 | A successful collection add keeps the collection valid and its metadata, and the old records are a prefix of the new ones. |
| LabelModel.ConvertUrl | src/label_studio_cyto_ml/model.py:73-81 | An unset endpoint is an error. An endpoint without "https", or a URL not starting with "s3://", leaves the URL unchanged. Otherwise the leading scheme becomes the endpoint and a slash, and any later "s3://" is replaced the same way. |
| LabelModel.ConvertUrlSwapsScheme | src/label_studio_cyto_ml/model.py:79-80 | For an https endpoint and a URL with one "s3://" at the front, the result is the endpoint, a slash and the rest of the URL. |
| LabelModel.BucketFromUrl | src/label_studio_cyto_ml/model.py:83-96 | The call never fails: the `ImageNotFoundError` branch is modelled but unreachable, because a URL starting with "s3://" always splits into at least three fields. A non-s3 URL gives the default classifier. An s3 URL gives its third slash-separated field with every "-ls" removed, and the result never contains a slash. |
| LabelModel.BucketOfS3Url | src/label_studio_cyto_ml/model.py:87-96 | For s3://bucket/key with a slash-free bucket, the result is the bucket with "-ls" removed. |
| LabelModel.ReplaceAbsentOrEmpty | src/label_studio_cyto_ml/model.py:93-94 | Skipping the replacement when the bucket is empty or lacks "-ls" gives the same bucket as applying it, so the guard does not change the result. |
| LabelModel.SampleTaskBucket | src/label_studio_cyto_ml/test_predict.py:8 | The sample task's URL on the "untagged-images-lana-ls" bucket resolves to the default classifier "untagged-images-lana". |
| LabelModel.SampleBucketName | src/label_studio_cyto_ml/model.py:94 | Removing "-ls" from "untagged-images-lana-ls" leaves "untagged-images-lana". |
| S3.NormaliseListing | src/cyto_ml/data/s3.py:27-35 | The prefix loses exactly its leading delimiter characters. When the stripped prefix ends with the delimiter, the start key defaults to the prefix if empty; otherwise the start key is kept. |
| S3.DefaultListing | src/cyto_ml/data/s3.py:27-33 | With the default prefix "/", delimiter "/" and empty start key, the listing is asked for with an empty prefix and an empty start key: the whole bucket from its first key. |
| S3.KeptIffMentioned | src/cyto_ml/data/s3.py:45 | The filter keeps some key exactly when some key has the suffix somewhere in it, not necessarily at its end. |
| S3.ImageIndex | src/cyto_ml/data/s3.py:41-49 | An unset endpoint is an error exactly when some key passes the filter. Otherwise there is one row per kept key, in key order, each the endpoint, the bucket and the key joined by slashes. |
| S3.ImageIndexMembers | src/cyto_ml/data/s3.py:45-47 | A row for a key appears exactly when the key is listed and mentions the suffix. |
| S3.TifIndex | src/cyto_ml/data/s3.py:41-47 | With the default suffix ".tif", a missing endpoint is an error exactly when some key mentions ".tif", and a success has one row per such key. |
| ImageIndexScript.BucketListing | scripts/image_index.py:13-21 | There is one entry per listed path ending in "tif", in listing order. Each entry is that path's last slash-separated field: slash-free and still ending in "tif". |
| ImageIndexScript.TifBaseName | scripts/image_index.py:21 | For a path ending in "tif", `split("/")[-1]` is the text after the last slash, and it still ends in "tif". |
| ImageIndexScript.BucketListingEntries | scripts/image_index.py:21 | A slash-free listed path ending in "tif" is reported as it is, and a path not ending in "tif" is never kept. |
| ImageIndexScript.IndexTextRoundTrip | scripts/image_index.py:32 | Splitting the written index at newlines gives back the image names, when there is at least one name and no name holds a newline. |
| ImageIndexScript.EmptyIndexText | scripts/image_index.py:32 | An empty listing writes the empty text, which splits back into one empty name rather than none. |
| ImageIndexScript.IndexFileLines | scripts/image_index.py:29-32 | When at least one path is kept and no path holds a newline, splitting the written file at newlines gives back the listing: one line per kept "tif" path. |
| KMeansPage.Clusters | src/cyto_ml/visualisation/pages/02_kmeans.py:37 | The reference grouping has a key for exactly the distinct labels, as the dictionary built from `set(km.labels_)` does. |
| KMeansPage.ImageLabels | src/cyto_ml/visualisation/pages/02_kmeans.py:32-42 | The loop fails with the index error exactly when there are more ids than labels. Otherwise its result equals the reference grouping `Clusters`: one cluster per distinct label, each holding the ids whose position carries that label, in id order. |
| KMeansPage.MembersByPosition | src/cyto_ml/visualisation/pages/02_kmeans.py:39-41 | A cluster is the id list read at exactly the positions with that label, in increasing order. |
| KMeansPage.PositionInOneCluster | src/cyto_ml/visualisation/pages/02_kmeans.py:39-41 | A position goes into a label's cluster exactly when it carries that label, so each id lands in exactly one cluster. |
| KMeansPage.ClusterSizesSum | src/cyto_ml/visualisation/pages/02_kmeans.py:37-41 | Summed over the distinct labels, the cluster sizes equal the number of ids: no id is lost or duplicated. |
| KMeansPage.AddMore | src/cyto_ml/visualisation/pages/02_kmeans.py:45-46 | "More" strictly increases the depth, and "less" undoes it. |
| KMeansPage.DoLess | src/cyto_ml/visualisation/pages/02_kmeans.py:49-50 | "Less" strictly decreases the depth. |
| KMeansPage.LessThenMore | src/cyto_ml/visualisation/pages/02_kmeans.py:45-50 | Pressing both buttons once each, in either order, restores the depth. |
| Seqs.FilterIsPositions | src/cyto_ml/data/s3.py:45 | `filter` keeps the elements at exactly the satisfying positions, in order. |
| Seqs.FilterMembers | src/cyto_ml/data/s3.py:45 | An element survives `filter` exactly when it is in the input and satisfies the predicate. |
| Strings.ContainsIff | src/label_studio_cyto_ml/model.py:77 | Python's substring test holds exactly when the pattern occurs at some index. |
| Strings.ReplaceAbsent | src/label_studio_cyto_ml/model.py:93-94 | Replacing a pattern that does not occur leaves the string unchanged. |
| Strings.FirstOfSplit | src/label_studio_cyto_ml/model.py:90 | The first field of a split is the longest separator-free prefix. |
| Strings.LastOfSplit | scripts/image_index.py:21 | The last field of a split is the longest separator-free suffix. |
| Strings.SplitJoin | scripts/image_index.py:32 | Splitting a join of at least one separator-free part gives the parts back. |
| Strings.JoinSplit | scripts/image_index.py:32 | Joining a split with the same separator gives the string back. |

## Left out

- The chromadb service itself is not modelled: its persistence under the store path, telemetry settings, name validation rules, include options and the cosine ranking. The ranking is a parameter, and only the behaviour the store depends on is modelled.
- The client's add: chromadb's handling of an id that is already stored is modelled as a skip. Its checks for unequal list lengths, duplicate ids in one request and mismatched dimensionality are modelled as errors, and so is its check that query embeddings have the stored dimensionality. These are service behaviours the repository relies on but does not define.
- VectorStore.Closest: the ranking is abstract. The contract states that the reply holds at most `n_results` distinct ids of stored records, given that the service's ranking does (`Chroma.RankingValid`). It does not state that the ids are ordered by cosine distance, or that as many ids as are available are returned.
- Embeddings are modelled as sequences of reals, not floating point.
- The `VectorStore` abstract base class declares only `add` and `get` as abstract methods; `closest` is defined separately on each of the three stores. The base class itself is not modelled, and the stubs' `pass` bodies are modelled as returning `None`.
- The tests open `vector_store("sqlite")` and use `ids()` and `embeddings()`, which the modelled code does not define. The model follows the code, so "sqlite" is an unknown store type.
- Logging of the unique-constraint error, and the logging set-up, are left out.
- `bucket_keys` pagination over the S3 API is not modelled. The keys it yields are a parameter, and only the argument normalisation is modelled.
- The anonymous `s3fs` listing in `bucket_listing` is not modelled: the listed paths are a parameter.
- The pandas DataFrame in `image_index` is modelled as its list of rows.
- Reading `params.yaml` and writing the CSV file are out of scope. The written text is modelled as `IndexText`.
- `predict`, `predict_task`, `fit`, the embedding model and image loading in the Label Studio backend are out of scope. They need a neural network and HTTP.
- The k-means page cannot build a grouping as the code stands. `image_labels` calls `image_ids()` without the collection argument that `image_ids(coll)` in the app module declares, which is a TypeError before the loop runs. The app also opens its store with type "sqlite" and extra options, which `vector_store` rejects, and no store defines the `ids()` it calls. KMeansPage.ImageLabels therefore models the grouping loop over given labels and ids, not the page's data sources.
- The Streamlit widgets, caching and session handling of the k-means page are out of scope: `kmeans_cluster`, `image_ids`, `show_cluster`, `find_closest` and `main`. The labels and ids are parameters, and the depth is an integer.
