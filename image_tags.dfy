/**
 * Cloudinary fill URLs and srcset strings (products/templatetags/elysium_images.py).
 *
 * An image is given by its URL string; the empty string stands for a falsy
 * image. A Cloudinary delivery URL has the form
 * `<prefix>/upload/<public id>`; the fill transformation is inserted right
 * after "/upload/". The srcset is a list of image candidate strings, each a
 * URL followed by a space and a width descriptor `<n>w`, separated by ", "
 * (section 4.8.4.2.1 of the WHATWG HTML Living Standard).
 */
module ImageTags {
  import opened Wrappers
  import opened Text

  const Upload: string := "/upload/"

  /** The transformation segment: fill, automatic gravity, the size, automatic quality and format. */
  function Transformation(width: int, height: int): string {
    "c_fill,g_auto,w_" + IntToString(width) + ",h_" + IntToString(height) + ",q_auto,f_auto"
  }

  /**
   * build_cloudinary_fill_url: "" for a falsy image; a URL without
   * "/upload/" unchanged; otherwise parts[0] + "/upload/" + transformation
   * + "/" + parts[1] of url.split("/upload/"), parts[1] being the text
   * between the first occurrence and the next one (or the end).
   */
  function FillUrl(url: string, width: int, height: int): string {
    if url == "" then ""
    else match FindFrom(url, Upload, 0)
      case None => url
      case Some(i) =>
        var after := i + |Upload|;
        var tail := match FindFrom(url, Upload, after)
          case None => url[after..]
          case Some(j) => url[after..j];
        url[..i] + Upload + Transformation(width, height) + "/" + tail
  }

  /** The text up to and including an occurrence of "/upload/" at i. */
  lemma UploadPrefix(url: string, i: nat)
    requires OccursAt(url, Upload, i)
    ensures url[..i] + Upload == url[..i + |Upload|]
  {
    assert url[i..i + |Upload|] == Upload;
  }

  /** A falsy image gives "", a URL without "/upload/" is returned as it is. */
  lemma FillUrlUnchanged(url: string, width: int, height: int)
    ensures url == "" ==> FillUrl(url, width, height) == ""
    ensures FindFrom(url, Upload, 0).None? ==> FillUrl(url, width, height) == url
  {
  }

  /**
   * With exactly one "/upload/", ending at `at`, the result is the URL with
   * the transformation and a "/" inserted there.
   */
  lemma FillUrlInserts(url: string, width: int, height: int, i: nat)
    requires FindFrom(url, Upload, 0) == Some(i)
    requires FindFrom(url, Upload, i + |Upload|).None?
    ensures FillUrl(url, width, height) == url[..i + |Upload|] + Transformation(width, height) + "/" + url[i + |Upload|..]
  {
    UploadPrefix(url, i);
  }

  /** Inserting a segment at a position and cutting it out again restores the text. */
  lemma CutInserted(a: string, seg: string, b: string)
    ensures var r := a + seg + b; r[..|a|] + r[|a| + |seg|..] == a + b
  {
    var r := a + seg + b;
    assert r[..|a|] == a;
    assert r[|a| + |seg|..] == b;
  }

  /**
   * With exactly one "/upload/", cutting the inserted transformation segment
   * out of the result gives back the URL.
   */
  lemma FillUrlRoundTrip(url: string, width: int, height: int, i: nat)
    requires FindFrom(url, Upload, 0) == Some(i)
    requires FindFrom(url, Upload, i + |Upload|).None?
    ensures var at := i + |Upload|;
      var seg := Transformation(width, height) + "/";
      var r := FillUrl(url, width, height);
      r[..at] + r[at + |seg|..] == url
  {
    var at := i + |Upload|;
    var t := Transformation(width, height);
    var a, b := url[..at], url[at..];
    FillUrlInserts(url, width, height, i);
    Regroup(a, t, "/", b);
    CutInserted(a, t + "/", b);
    assert a + b == url;
  }

  /** Concatenation regrouped so that the inserted segment is one piece. */
  lemma Regroup(a: string, t: string, slash: string, b: string)
    ensures a + t + slash + b == a + (t + slash) + b
  {
  }

  /**
   * With a second "/upload/" at j, the text from it onwards is dropped: the
   * result keeps only what lies between the first two occurrences.
   */
  lemma FillUrlDropsAfterSecond(url: string, width: int, height: int, i: nat, j: nat)
    requires FindFrom(url, Upload, 0) == Some(i)
    requires FindFrom(url, Upload, i + |Upload|) == Some(j)
    ensures FillUrl(url, width, height) == url[..i + |Upload|] + Transformation(width, height) + "/" + url[i + |Upload|..j]
  {
    var t := Transformation(width, height);
    var tail := url[i + |Upload|..j];
    assert FillUrl(url, width, height) == url[..i] + Upload + t + "/" + tail;
    UploadPrefix(url, i);
  }

  // ---------------------------------------------------------------------
  // cloudinary_fill_srcset
  // ---------------------------------------------------------------------

  /** One image candidate string: the URL, a space, the width descriptor. */
  function Candidate(url: string, width: int, height: int): string {
    FillUrl(url, width, height) + " " + IntToString(width) + "w"
  }

  /** f applied to the first k (width, height) pairs of the flat list, in order. */
  function MapPairs(f: (int, int) -> string, dims: seq<int>, k: nat): seq<string>
    requires 2 * k <= |dims|
  {
    if k == 0 then []
    else MapPairs(f, dims, k - 1) + [f(dims[2 * k - 2], dims[2 * k - 1])]
  }

  /** One entry per pair, the j-th computed from the j-th pair. */
  lemma {:induction false} MapPairsSpec(f: (int, int) -> string, dims: seq<int>, k: nat)
    requires 2 * k <= |dims|
    ensures |MapPairs(f, dims, k)| == k
    ensures forall j :: 0 <= j < k ==> MapPairs(f, dims, k)[j] == f(dims[2 * j], dims[2 * j + 1])
  {
    if k > 0 {
      MapPairsSpec(f, dims, k - 1);
    }
  }

  /** The candidates for the first k (width, height) pairs, in order. */
  function Candidates(url: string, dims: seq<int>, k: nat): seq<string>
    requires 2 * k <= |dims|
  {
    MapPairs((width, height) => Candidate(url, width, height), dims, k)
  }

  /** One candidate per pair, the j-th built from the j-th pair. */
  lemma CandidatesSpec(url: string, dims: seq<int>, k: nat)
    requires 2 * k <= |dims|
    ensures |Candidates(url, dims, k)| == k
    ensures forall j :: 0 <= j < k ==> Candidates(url, dims, k)[j] == Candidate(url, dims[2 * j], dims[2 * j + 1])
  {
    MapPairsSpec((width, height) => Candidate(url, width, height), dims, k);
  }

  /** Every candidate ends with the width descriptor of its pair, after a space. */
  lemma CandidateDescriptor(url: string, width: int, height: int)
    requires width >= 0
    ensures var c := Candidate(url, width, height);
      var d := IntToString(width) + "w";
      && |c| > |d| && c[|c| - |d| - 1] == ' ' && c[|c| - |d|..] == d
      && AllDigits(IntToString(width)) && ParseInt(IntToString(width)) == Some(width)
  {
    ParseIntOfIntToString(width);
    var c := Candidate(url, width, height);
    var d := IntToString(width) + "w";
    assert c == FillUrl(url, width, height) + " " + d;
  }

  /** The loop body: the fill URL for the pair, then the candidate string built from it. */
  method CandidateString(url: string, width: int, height: int) returns (c: string)
    ensures c == Candidate(url, width, height)
  {
    var u := FillUrl(url, width, height);
    c := u + " " + IntToString(width) + "w";
  }

  /** The candidates for k + 1 pairs are those for k followed by the one for pair k. */
  lemma CandidatesSnoc(url: string, dims: seq<int>, k: nat)
    requires 2 * k + 2 <= |dims|
    ensures Candidates(url, dims, k + 1) == Candidates(url, dims, k) + [Candidate(url, dims[2 * k], dims[2 * k + 1])]
  {
    var f := (width, height) => Candidate(url, width, height);
    MapPairsSnoc(f, dims, k);
    assert f(dims[2 * k], dims[2 * k + 1]) == Candidate(url, dims[2 * k], dims[2 * k + 1]);
  }

  /** One more pair appends the image of that pair. */
  lemma MapPairsSnoc(f: (int, int) -> string, dims: seq<int>, k: nat)
    requires 2 * k + 2 <= |dims|
    ensures MapPairs(f, dims, k + 1) == MapPairs(f, dims, k) + [f(dims[2 * k], dims[2 * k + 1])]
  {
  }

  /** The loop of cloudinary_fill_srcset over the first `pairs` pairs of the list. */
  method FillCandidates(url: string, dims: seq<int>, pairs: nat) returns (parts: seq<string>)
    requires 2 * pairs <= |dims|
    ensures parts == Candidates(url, dims, pairs)
  {
    parts := [];
    var k := 0;
    while k < pairs
      invariant 0 <= k <= pairs
      invariant parts == Candidates(url, dims, k)
    {
      var c := CandidateString(url, dims[2 * k], dims[2 * k + 1]);
      CandidatesSnoc(url, dims, k);
      parts := parts + [c];
      k := k + 1;
    }
  }

  /**
   * cloudinary_fill_srcset: "" for a falsy image or an odd number of
   * dimensions; otherwise one candidate per pair, joined by ", ".
   */
  method FillSrcset(url: string, dims: seq<int>) returns (srcset: string)
    ensures url == "" || |dims| % 2 != 0 ==> srcset == ""
    ensures url != "" && |dims| % 2 == 0 ==> srcset == Join(Candidates(url, dims, |dims| / 2), ", ")
  {
    if url == "" {
      return "";
    }
    if |dims| % 2 != 0 {
      return "";
    }
    var parts := FillCandidates(url, dims, |dims| / 2);
    srcset := Join(parts, ", ");
  }
}
