/**
 * downloadProfileImage.ts: fetch the full-size profile image and save it as
 * `<baseFileName>.<extension>`. The HTTP exchange is a parameter, and the
 * file written is returned instead of written.
 */
module DownloadProfileImage {
  newtype byte = x: int | 0 <= x < 256

  /** The `content-type` header: one value, several values, or none. */
  datatype HeaderValue = Single(value: string) | Multiple(values: seq<string>) | Absent

  const Jpeg := "image/jpeg"
  const Png := "image/png"

  /** Lines 5-14: the file extension for a content type, `""` when unsupported. */
  function GetExtension(contentType: HeaderValue): (extension: string)
    ensures extension == "jpg" <==> contentType == Single(Jpeg)
    ensures extension == "png" <==> contentType == Single(Png)
    ensures extension == "" <==> contentType != Single(Jpeg) && contentType != Single(Png)
  {
    match contentType
    case Single(value) =>
      if value == Jpeg then "jpg"
      else if value == Png then "png"
      else ""
    case _ => ""
  }

  /** The size suffix of a thumbnail URL. */
  const NormalSuffix := "_normal"

  /** `pattern` occurs in `s` at index `i`. */
  predicate OccursAt(s: string, pattern: string, i: nat)
  {
    i + |pattern| <= |s| && s[i..i + |pattern|] == pattern
  }

  /** The first index at which `pattern` occurs in `s`, from index `from` on; -1 when it does not. */
  function IndexOf(s: string, pattern: string, from: nat): (i: int)
    requires from <= |s|
    ensures i == -1 || from <= i <= |s|
    ensures i >= 0 ==> OccursAt(s, pattern, i)
    ensures forall k :: from <= k <= |s| && (i == -1 || k < i) ==> !OccursAt(s, pattern, k)
    decreases |s| - from
  {
    if OccursAt(s, pattern, from) then from
    else if from == |s| then -1
    else IndexOf(s, pattern, from + 1)
  }

  /** Line 17: a string `replace` with a string pattern removes the first `_normal` only, if there is one. */
  function GetOriginalImageUrl(profileImageUrl: string): (url: string)
    ensures IndexOf(profileImageUrl, NormalSuffix, 0) == -1 ==> url == profileImageUrl
    ensures IndexOf(profileImageUrl, NormalSuffix, 0) >= 0 ==> |url| == |profileImageUrl| - |NormalSuffix|
  {
    var i := IndexOf(profileImageUrl, NormalSuffix, 0);
    if i == -1 then profileImageUrl
    else profileImageUrl[..i] + profileImageUrl[i + |NormalSuffix|..]
  }

  /**
   * Only the first `_normal` goes: putting it back where it was gives the
   * thumbnail URL again, and nothing before that point is a `_normal`.
   */
  lemma OriginalImageUrlRoundTrip(profileImageUrl: string)
    requires IndexOf(profileImageUrl, NormalSuffix, 0) >= 0
    ensures var i := IndexOf(profileImageUrl, NormalSuffix, 0);
      && GetOriginalImageUrl(profileImageUrl)[..i] + NormalSuffix + GetOriginalImageUrl(profileImageUrl)[i..] == profileImageUrl
      && forall k :: 0 <= k < i ==> !OccursAt(profileImageUrl, NormalSuffix, k)
  {
    var i := IndexOf(profileImageUrl, NormalSuffix, 0);
    var url := GetOriginalImageUrl(profileImageUrl);
    assert url[..i] == profileImageUrl[..i];
    assert url[i..] == profileImageUrl[i + |NormalSuffix|..];
    assert profileImageUrl[i..i + |NormalSuffix|] == NormalSuffix;
    assert profileImageUrl == profileImageUrl[..i] + profileImageUrl[i..i + |NormalSuffix|] + profileImageUrl[i + |NormalSuffix|..];
  }

  /** The response `http.get` delivers: status code, content type, and the body as its `data` chunks. */
  datatype Response = Response(statusCode: nat, contentType: HeaderValue, chunks: seq<seq<byte>>)

  /** Why a download is rejected. */
  datatype Failure = BadStatus(url: string, statusCode: nat) | UnsupportedContentType(contentType: HeaderValue)

  /** The outcome: the file `filename` with `data` saved in `imageDir`, or a rejection. */
  datatype Download = Saved(imageDir: string, filename: string, data: seq<byte>) | Rejected(failure: Failure)

  /** All chunks one after the other: `Buffer.concat`. */
  function Concat(chunks: seq<seq<byte>>): (data: seq<byte>)
  {
    if chunks == [] then [] else Concat(chunks[..|chunks| - 1]) + chunks[|chunks| - 1]
  }

  /** The total length of the chunks. */
  function TotalLength(chunks: seq<seq<byte>>): nat
  {
    if chunks == [] then 0 else |chunks[0]| + TotalLength(chunks[1..])
  }

  /** Concatenating two runs of chunks concatenates their data. */
  lemma {:induction false} ConcatAppend(a: seq<seq<byte>>, b: seq<seq<byte>>)
    ensures Concat(a + b) == Concat(a) + Concat(b)
    decreases |b|
  {
    if b == [] {
      assert a + b == a;
    } else {
      var c := b[..|b| - 1];
      assert (a + b)[..|a + b| - 1] == a + c;
      ConcatAppend(a, c);
      assert Concat(b) == Concat(c) + b[|b| - 1];
    }
  }

  /** No byte of the body is lost or added: the saved data is as long as all chunks together. */
  lemma {:induction false} ConcatLength(chunks: seq<seq<byte>>)
    ensures |Concat(chunks)| == TotalLength(chunks)
    decreases |chunks|
  {
    if chunks != [] {
      ConcatLength(chunks[1..]);
      assert chunks == [chunks[0]] + chunks[1..];
      ConcatAppend([chunks[0]], chunks[1..]);
      assert [chunks[0]][..0] == [];
    }
  }

  /**
   * Lines 20-50: request the full-size URL; reject a status other than 200,
   * then an unsupported content type; otherwise gather the chunks in order
   * and save them as `<baseFileName>.<extension>`.
   */
  method DownloadProfileImage(get: string -> Response, profileImageUrl: string, imageDir: string, baseFileName: string)
    returns (outcome: Download)
    ensures var response := get(GetOriginalImageUrl(profileImageUrl));
      && (outcome == Rejected(BadStatus(profileImageUrl, response.statusCode)) <==> response.statusCode != 200)
      && (outcome == Rejected(UnsupportedContentType(response.contentType)) <==>
            response.statusCode == 200 && GetExtension(response.contentType) == "")
      && (outcome.Saved? <==> response.statusCode == 200 && GetExtension(response.contentType) != "")
      && (outcome.Saved? ==> outcome == Saved(imageDir, baseFileName + "." + GetExtension(response.contentType), Concat(response.chunks)))
  {
    var originalImageUrl := GetOriginalImageUrl(profileImageUrl);
    var response := get(originalImageUrl);
    if response.statusCode != 200 {
      return Rejected(BadStatus(profileImageUrl, response.statusCode));
    }
    var extension := GetExtension(response.contentType);
    if extension == "" {
      return Rejected(UnsupportedContentType(response.contentType));
    }
    var imageData: seq<byte> := [];
    for n := 0 to |response.chunks|
      invariant imageData == Concat(response.chunks[..n])
    {
      assert response.chunks[..n + 1][..n] == response.chunks[..n];
      imageData := imageData + response.chunks[n];
    }
    assert response.chunks[..|response.chunks|] == response.chunks;
    var filename := baseFileName + "." + extension;
    outcome := Saved(imageDir, filename, imageData);
  }
}
