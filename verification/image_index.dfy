/** The script that writes a flat index of a bucket's images: keep the
    listed paths ending in "tif", keep the file name after the last "/",
    and write the names one per line. The listing (`s3fs.ls`) is a
    parameter. */
module ImageIndexScript {
  import opened Strings
  import Seqs

  const TifSuffix: string := "tif"

  /** `x.endswith("tif")` */
  function IsTif(): string -> bool {
    (x: string) => EndsWith(x, TifSuffix)
  }

  /** `i.split("/")[-1]`: the last "/"-separated field of a path. */
  function BaseName(path: string): string {
    var f := Split(path, '/');
    f[|f| - 1]
  }

  /** The base name of a "tif" path is the text after its last "/", and it
      still ends in "tif". */
  lemma TifBaseName(path: string)
    requires EndsWith(path, TifSuffix)
    ensures BaseName(path) == LastField(path, '/') && EndsWith(BaseName(path), TifSuffix)
  {
    assert BaseName(path) == LastField(path, '/') by {
      LastOfSplit(path, '/');
    }
    assert EndsWith(LastField(path, '/'), TifSuffix) by {
      assert '/' !in TifSuffix;
      LastFieldEndsWith(path, TifSuffix, '/');
    }
  }

  /** `bucket_listing`: `[i.split("/")[-1] for i in filter(is_tif, contents)]`. */
  function BucketListing(contents: seq<string>): (r: seq<string>)
    ensures |r| <= |contents|
    ensures |r| == |Seqs.Positions(contents, IsTif())| &&
      forall j :: 0 <= j < |r| ==> r[j] == LastField(contents[Seqs.Positions(contents, IsTif())[j]], '/')
    ensures forall j :: 0 <= j < |r| ==> '/' !in r[j] && EndsWith(r[j], TifSuffix)
  {
    var kept := Seqs.Filter(contents, IsTif());
    Seqs.FilterIsPositions(contents, IsTif());
    var names := seq(|kept|, j requires 0 <= j < |kept| => BaseName(kept[j]));
    forall j | 0 <= j < |kept|
      ensures names[j] == LastField(kept[j], '/') && EndsWith(names[j], TifSuffix)
    {
      assert IsTif()(kept[j]);
      TifBaseName(kept[j]);
    }
    names
  }

  /** A listed path with no "/" that ends in "tif" is reported as is, and a
      path that does not end in "tif" is never reported. */
  lemma BucketListingEntries(contents: seq<string>, i: int)
    requires 0 <= i < |contents|
    ensures '/' !in contents[i] && EndsWith(contents[i], TifSuffix) ==> contents[i] in BucketListing(contents)
    ensures !EndsWith(contents[i], TifSuffix) ==> i !in Seqs.Positions(contents, IsTif())
  {
    var q := Seqs.Positions(contents, IsTif());
    if '/' !in contents[i] && EndsWith(contents[i], TifSuffix) {
      assert IsTif()(contents[i]);
      var j :| 0 <= j < |q| && q[j] == i;
      LastFieldNoSep(contents[i], '/');
      assert BucketListing(contents)[j] == contents[i];
    }
  }

  /** The index file's text: the names joined with newlines. */
  function IndexText(images: seq<string>): string {
    Join(images, "\n")
  }

  /** Reading the file back by splitting on newlines gives the names again,
      as long as there is at least one name and none holds a newline. */
  lemma IndexTextRoundTrip(images: seq<string>)
    requires |images| >= 1
    requires forall k :: 0 <= k < |images| ==> '\n' !in images[k]
    ensures Split(IndexText(images), '\n') == images
  {
    SplitJoin(images, '\n');
  }

  /** An empty listing writes an empty file, which reads back as one empty
      name rather than none. */
  lemma EmptyIndexText()
    ensures IndexText([]) == "" && Split(IndexText([]), '\n') == [""]
  {
  }

  /** What `__main__` writes for a listing. */
  function IndexFile(contents: seq<string>): string {
    IndexText(BucketListing(contents))
  }

  /** The written file lists one line per "tif" path, provided the listing
      held one and no name holds a newline. */
  lemma IndexFileLines(contents: seq<string>)
    requires |BucketListing(contents)| >= 1
    requires forall k :: 0 <= k < |contents| ==> '\n' !in contents[k]
    ensures Split(IndexFile(contents), '\n') == BucketListing(contents)
  {
    var r := BucketListing(contents);
    var q := Seqs.Positions(contents, IsTif());
    forall j | 0 <= j < |r|
      ensures '\n' !in r[j]
    {
      var s := contents[q[j]];
      assert r[j] == s[|s| - |r[j]|..];
    }
    IndexTextRoundTrip(r);
  }
}
