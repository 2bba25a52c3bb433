/** The object-store helpers: the argument normalisation `bucket_keys`
    applies before listing a bucket, and the index `image_index` builds from
    a listing. The listing itself (boto3's paginated `list_objects_v2`) is a
    parameter: the sequence of keys it yields, in order. */
module S3 {
  import opened Wrappers
  import opened Strings
  import Seqs

  /** The defaults of `bucket_keys` and `image_index`. */
  const DefaultPrefix: string := "/"
  const DefaultDelimiter: string := "/"
  const DefaultStartAfter: string := ""
  const DefaultSuffix: string := ".tif"

  /** The `Prefix` and `StartAfter` sent with the listing request. */
  datatype ListingArgs = ListingArgs(prefix: string, startAfter: string)

  /** `bucket_keys`: `prefix.lstrip(delimiter)`, which removes leading
      characters that occur anywhere in `delimiter`; then, only when the
      stripped prefix ends with the whole delimiter, an empty `start_after`
      is replaced by the prefix. */
  function NormaliseListing(prefix: string, delimiter: string, startAfter: string): (r: ListingArgs)
    ensures |r.prefix| <= |prefix| && r.prefix == prefix[|prefix| - |r.prefix|..]
    ensures forall i :: 0 <= i < |prefix| - |r.prefix| ==> prefix[i] in delimiter
    ensures |r.prefix| == 0 || r.prefix[0] !in delimiter
    ensures EndsWith(r.prefix, delimiter) && startAfter == "" ==> r.startAfter == r.prefix
    ensures EndsWith(r.prefix, delimiter) && startAfter != "" ==> r.startAfter == startAfter
    ensures !EndsWith(r.prefix, delimiter) ==> r.startAfter == startAfter
  {
    var p := LStrip(prefix, delimiter);
    ListingArgs(p, if EndsWith(p, delimiter) then (if startAfter != "" then startAfter else p) else startAfter)
  }

  /** With the defaults the whole bucket is listed from the start. */
  lemma DefaultListing()
    ensures NormaliseListing(DefaultPrefix, DefaultDelimiter, DefaultStartAfter) == ListingArgs("", "")
  {
    var r := NormaliseListing(DefaultPrefix, DefaultDelimiter, DefaultStartAfter);
    assert DefaultPrefix[0] in DefaultDelimiter && DefaultPrefix[1..] == "";
    assert LStrip(DefaultPrefix, DefaultDelimiter) == LStrip("", DefaultDelimiter) == "";
    assert r.prefix == "";
    assert !EndsWith(r.prefix, DefaultDelimiter);
  }

  /** The error `image_index` raises: `os.environ['AWS_URL_ENDPOINT']` when
      the variable is unset. */
  datatype IndexError = EndpointUnset

  /** `suffix in key`: a substring test, not an "ends with" test. */
  function Mentions(suffix: string): string -> bool {
    (key: string) => Contains(key, suffix)
  }

  /** One index row: the object's https URL. */
  function Row(endpoint: string, location: string, key: string): string {
    endpoint + "/" + location + "/" + key
  }

  /** Some key is kept exactly when some key mentions the suffix. */
  lemma KeptIffMentioned(keys: seq<string>, suffix: string)
    ensures |Seqs.Filter(keys, Mentions(suffix))| > 0 <==> exists i :: 0 <= i < |keys| && Contains(keys[i], suffix)
  {
    Seqs.FilterIsPositions(keys, Mentions(suffix));
    var q := Seqs.Positions(keys, Mentions(suffix));
    if |q| > 0 {
      assert Mentions(suffix)(keys[q[0]]);
    }
    if exists i :: 0 <= i < |keys| && Contains(keys[i], suffix) {
      var i :| 0 <= i < |keys| && Contains(keys[i], suffix);
      assert Mentions(suffix)(keys[i]);
      assert i in q;
    }
  }

  /** `image_index(location, suffix)` over the keys the listing yielded.
      The environment lookup sits inside the comprehension, so it only
      fails when at least one key is kept. */
  function ImageIndex(endpoint: Option<string>, location: string, keys: seq<string>, suffix: string): (r: Result<seq<string>, IndexError>)
    ensures r.Err? <==> endpoint.None? && exists i :: 0 <= i < |keys| && Contains(keys[i], suffix)
    ensures r.Ok? ==> |r.value| == |Seqs.Positions(keys, Mentions(suffix))| && forall j :: 0 <= j < |r.value| ==>
      endpoint.Some? && r.value[j] == Row(endpoint.value, location, keys[Seqs.Positions(keys, Mentions(suffix))[j]])
  {
    var kept := Seqs.Filter(keys, Mentions(suffix));
    Seqs.FilterIsPositions(keys, Mentions(suffix));
    KeptIffMentioned(keys, suffix);
    if |kept| == 0 then Ok([])
    else
      match endpoint
      case None => Err(EndpointUnset)
      case Some(e) => Ok(seq(|kept|, j requires 0 <= j < |kept| => Row(e, location, kept[j])))
  }

  /** Every key that contains the suffix anywhere gets a row, and every row
      is the URL of such a key. */
  lemma ImageIndexMembers(endpoint: string, location: string, keys: seq<string>, suffix: string, key: string)
    ensures var r := ImageIndex(Some(endpoint), location, keys, suffix);
      r.Ok? && (Row(endpoint, location, key) in r.value <==> key in keys && Contains(key, suffix))
  {
    var r := ImageIndex(Some(endpoint), location, keys, suffix).value;
    var q := Seqs.Positions(keys, Mentions(suffix));
    if Row(endpoint, location, key) in r {
      var j :| 0 <= j < |r| && r[j] == Row(endpoint, location, key);
      var lead := endpoint + "/" + location + "/";
      assert (lead + keys[q[j]])[|lead|..] == keys[q[j]];
      assert (lead + key)[|lead|..] == key;
      assert keys[q[j]] == key;
      assert Mentions(suffix)(keys[q[j]]);
    }
    if key in keys && Contains(key, suffix) {
      var i :| 0 <= i < |keys| && keys[i] == key;
      assert Mentions(suffix)(keys[i]);
      var j :| 0 <= j < |q| && q[j] == i;
      assert r[j] == Row(endpoint, location, key);
    }
  }

  /** `image_index(location)` with the default suffix ".tif": a row for
      every key that mentions ".tif" anywhere, and a missing endpoint is
      only an error when there is such a key. */
  function TifIndex(endpoint: Option<string>, location: string, keys: seq<string>): (r: Result<seq<string>, IndexError>)
    ensures r.Err? <==> endpoint.None? && exists i :: 0 <= i < |keys| && Contains(keys[i], ".tif")
    ensures r.Ok? ==> |r.value| == |Seqs.Positions(keys, Mentions(".tif"))|
  {
    ImageIndex(endpoint, location, keys, DefaultSuffix)
  }
}
