/** The URL handling of the Label Studio backend: rewriting `s3://` image
    URLs onto the configured https endpoint, and picking the classifier
    model from the URL's bucket. The `AWS_URL_ENDPOINT` environment value
    is a parameter (`None` when the variable is unset). */
module LabelModel {
  import opened Wrappers
  import opened Strings

  /** The model used for any URL that is not an `s3://` URL. */
  const DefaultClassifier: string := "untagged-images-lana"

  const S3Scheme: string := "s3://"

  /** The errors the two methods raise. */
  datatype ModelError =
    | EndpointUnset          // TypeError: `"https" in None`
    | ImageNotFound(url: string)

  /** `NewModel.convert_url(url)` */
  function ConvertUrl(endpoint: Option<string>, url: string): (r: Result<string, ModelError>)
    ensures r.Err? <==> endpoint.None?
    ensures endpoint.Some? && !Contains(endpoint.value, "https") ==> r == Ok(url)
    ensures endpoint.Some? && !StartsWith(url, S3Scheme) ==> r == Ok(url)
    ensures endpoint.Some? && Contains(endpoint.value, "https") && StartsWith(url, S3Scheme) ==>
      r == Ok(endpoint.value + "/" + Replace(url[|S3Scheme|..], S3Scheme, endpoint.value + "/"))
  {
    match endpoint
    case None => Err(EndpointUnset)
    case Some(e) =>
      if !Contains(e, "https") then Ok(url)
      else if StartsWith(url, S3Scheme) then Ok(Replace(url, S3Scheme, e + "/"))
      else Ok(url)
  }

  /** With an https endpoint, an `s3://` URL holding no other `s3://` has its
      scheme swapped for the endpoint: `s3://bucket/key` becomes
      `<endpoint>/bucket/key`. */
  lemma ConvertUrlSwapsScheme(endpoint: string, rest: string)
    requires Contains(endpoint, "https")
    requires !Contains(rest, S3Scheme)
    ensures ConvertUrl(Some(endpoint), S3Scheme + rest) == Ok(endpoint + "/" + rest)
  {
    var url := S3Scheme + rest;
    assert StartsWith(url, S3Scheme) by {
      assert url[..|S3Scheme|] == S3Scheme;
    }
    assert url[|S3Scheme|..] == rest;
    ReplaceAbsent(rest, S3Scheme, endpoint + "/");
  }

  /** Splitting an `s3://` URL on "/" gives "s3:", an empty field, and then
      the fields of what follows the scheme. */
  lemma SplitS3(t: string)
    ensures Split(S3Scheme + t, '/') == ["s3:", ""] + Split(t, '/')
  {
    var y := "/" + t;
    var x := "/" + y;
    assert y[0] == '/' && y[1..] == t;
    assert Split(y, '/') == [""] + Split(t, '/');
    assert x[0] == '/' && x[1..] == y;
    assert Split(x, '/') == [""] + Split(y, '/');
    assert S3Scheme + t == "s3:" + x;
    SplitPrefix("s3:", x, '/');
    assert "s3:" + Split(x, '/')[0] == "s3:";
    assert Split(x, '/')[1..] == [""] + Split(t, '/');
  }

  /** `NewModel.bucket_from_url(url)` */
  function BucketFromUrl(url: string): (r: Result<string, ModelError>)
    ensures r.Ok? && '/' !in r.value
    ensures r.Ok? && !StartsWith(url, S3Scheme) ==> r.value == DefaultClassifier
    ensures r.Ok? && StartsWith(url, S3Scheme) ==>
      r.value == Replace(FirstField(url[|S3Scheme|..], '/'), "-ls", "")
  {
    if !StartsWith(url, S3Scheme) then Ok(DefaultClassifier)
    else
      var fields := Split(url, '/');
      assert url == S3Scheme + url[|S3Scheme|..];
      SplitS3(url[|S3Scheme|..]);
      FirstOfSplit(url[|S3Scheme|..], '/');
      if |fields| < 3 then Err(ImageNotFound(url))
      else
        var bucket := fields[2];
        ReplaceKeepsOut(bucket, "-ls", "", '/');
        if |bucket| > 0 && Contains(bucket, "-ls") then Ok(Replace(bucket, "-ls", ""))
        else
          ReplaceAbsentOrEmpty(bucket);
          Ok(bucket)
  }

  /** The guard in front of the replacement changes nothing: an empty bucket
      or one without "-ls" is what the replacement would return anyway. */
  lemma ReplaceAbsentOrEmpty(bucket: string)
    requires !(|bucket| > 0 && Contains(bucket, "-ls"))
    ensures Replace(bucket, "-ls", "") == bucket
  {
    if |bucket| > 0 {
      ReplaceAbsent(bucket, "-ls", "");
    }
  }

  /** For `s3://<bucket>/<key>` the model is the bucket with its "-ls"
      occurrences removed. */
  lemma {:induction false} BucketOfS3Url(bucket: string, key: string)
    requires '/' !in bucket
    ensures BucketFromUrl(S3Scheme + bucket + "/" + key) == Ok(Replace(bucket, "-ls", ""))
  {
    var url := S3Scheme + bucket + "/" + key;
    assert StartsWith(url, S3Scheme) by {
      assert url[..|S3Scheme|] == S3Scheme;
    }
    var t := url[|S3Scheme|..];
    assert t == bucket + ("/" + key);
    assert FirstField(t, '/') == bucket by {
      FirstOfSplit(t, '/');
      SplitPrefix(bucket, "/" + key, '/');
      assert ("/" + key)[1..] == key;
      assert Split("/" + key, '/')[0] == "";
      assert bucket + "" == bucket;
    }
  }

  // The sample-bucket lemmas below take their literals through `requires`
  // equalities rather than writing them in the ensures: a `Replace` applied
  // to a literal string is unfolded character by character by the prover,
  // which exhausts its resources; through a parameter it is unfolded only
  // where `ReplaceSkipsChunk` is applied.

  /** No "-ls" starts inside the leading "untagged". */
  lemma SkipUntagged(bucket: string, pat: string)
    requires bucket == "untagged-images-lana-ls" && pat == "-ls"
    ensures Replace(bucket, pat, "") == "untagged" + Replace("-images" + ("-lana" + pat), pat, "")
  {
    assert bucket == "untagged" + ("-images" + ("-lana" + pat));
    ReplaceSkipsChunk("untagged", "-images" + ("-lana" + pat), pat, "");
  }

  /** No "-ls" starts inside "-images". */
  lemma SkipImages(pat: string)
    requires pat == "-ls"
    ensures Replace("-images" + ("-lana" + pat), pat, "") == "-images" + Replace("-lana" + pat, pat, "")
  {
    assert "-images"[1] != pat[1];
    ReplaceSkipsChunk("-images", "-lana" + pat, pat, "");
  }

  /** No "-ls" starts inside "-lana", and the final "-ls" is removed. */
  lemma DropFinalSuffix(pat: string)
    requires pat == "-ls"
    ensures Replace("-lana" + pat, pat, "") == "-lana"
  {
    assert "-lana"[..3][2] != pat[2];
    ReplaceSkipsChunk("-lana", pat, pat, "");
    assert StartsWith(pat, pat);
    assert Replace(pat, pat, "") == "" + Replace("", pat, "");
  }

  /** Removing "-ls" from "untagged-images-lana-ls" leaves
      "untagged-images-lana". */
  lemma SampleBucketName(bucket: string, pat: string)
    requires bucket == "untagged-images-lana-ls" && pat == "-ls"
    ensures Replace(bucket, pat, "") == "untagged" + ("-images" + "-lana")
  {
    SkipUntagged(bucket, pat);
    SkipImages(pat);
    DropFinalSuffix(pat);
  }

  /** The Label Studio bucket of the sample task,
      `s3://untagged-images-lana-ls/…`, selects the default model. */
  lemma SampleTaskBucket(bucket: string, key: string)
    requires bucket == "untagged-images-lana-ls"
    ensures BucketFromUrl(S3Scheme + bucket + "/" + key) == Ok(DefaultClassifier)
  {
    assert '/' !in bucket;
    BucketOfS3Url(bucket, key);
    SampleBucketName(bucket, "-ls");
    DefaultClassifierParts();
  }

  /** The three pieces left after removing "-ls" spell the default model. */
  lemma DefaultClassifierParts()
    ensures "untagged" + ("-images" + "-lana") == DefaultClassifier
  {
  }
}
