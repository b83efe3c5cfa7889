/** `convert_drive_url`: rewriting a Google Drive share link into its
    direct-download form before the document is fetched. */
module DriveUrl {
  import opened Outcomes
  import opened PyStr

  const DriveHost: string := "drive.google.com"
  const ViewMarker: string := "view"
  const IdMarker: string := "/d/"
  const DirectDownloadPrefix: string := "https://drive.google.com/uc?export=download&id="
  /** `str(e)` of the `IndexError` raised by `url.split("/d/")[1]` when there is no piece 1. */
  const IndexErrorMessage: string := "list index out of range"

  /** The URL is treated as a share link: it mentions the Drive host and "view", anywhere. */
  predicate IsShareLink(url: string)
  {
    Contains(url, DriveHost) && Contains(url, ViewMarker)
  }

  /** The file identifier of `url` runs from just after the "/d/" at `i` up to `j`:
      it holds no "/" and is followed by a "/" or by the end of the URL. */
  predicate IdEnd(url: string, i: int, j: int)
  {
    0 <= i && i + |IdMarker| <= j <= |url| &&
    '/' !in url[i + |IdMarker|..j] && (j == |url| || url[j] == '/')
  }

  /** `convert_drive_url(url)`: the direct-download URL of a share link, the URL
      itself otherwise, or the `IndexError` raised for a share link without "/d/". */
  function ConvertDriveUrl(url: string): (r: Result<string>)
    ensures !IsShareLink(url) ==> r == Ok(url)
    ensures r.Err? <==> IsShareLink(url) && !Contains(url, IdMarker)
    ensures r.Err? ==> r.message == IndexErrorMessage
  {
    if IsShareLink(url) then
      var pieces := Split(url, IdMarker);
      if |pieces| < 2 then Err(IndexErrorMessage)
      else Ok(DirectDownloadPrefix + Split(pieces[1], "/")[0])
    else Ok(url)
  }

  /** `x.split("/")[0]` is the text of `x` before its first "/". */
  lemma FirstSlashPiece(x: string, k: int)
    requires 0 <= k <= |x| && '/' !in x[..k] && (k == |x| || x[k] == '/')
    ensures Split(x, "/")[0] == x[..k]
  {
    if k == |x| {
      assert x[..k] == x;
      ContainsChar(x, '/');
    } else {
      assert x[k..k + 1] == "/";
      forall j | 0 <= j < k
        ensures !OccursAt(x, "/", j)
      {
        assert x[j] == x[..k][j];
        assert x[j..j + 1][0] == x[j];
      }
      SplitHead(x, "/", k);
    }
  }

  /** A "/d/" cannot start inside a stretch that holds no "/". */
  lemma MarkerAfterSlashFree(rest: string, k: int, p: int)
    requires 0 <= k <= |rest| && '/' !in rest[..k] && OccursAt(rest, IdMarker, p)
    ensures k <= p
  {
    assert rest[p] == rest[p..p + 3][0];
    if p < k {
      assert false;
    }
  }

  /** Cutting `rest` at its first "/d/" and then at its first "/" leaves the text
      before its first "/". */
  lemma IdPiece(rest: string, k: int)
    requires 0 <= k <= |rest| && '/' !in rest[..k] && (k == |rest| || rest[k] == '/')
    ensures Split(Split(rest, IdMarker)[0], "/")[0] == rest[..k]
  {
    var f := Find(rest, IdMarker);
    if f.None? {
      FirstSlashPiece(rest, k);
    } else {
      var p := f.value;
      SplitHead(rest, IdMarker, p);
      MarkerAfterSlashFree(rest, k, p);
      var piece := rest[..p];
      assert piece[..k] == rest[..k];
      FirstSlashPiece(piece, k);
    }
  }

  /** For a share link, the identifier put into the direct-download URL is the
      text after the first "/d/" up to the next "/" (possibly empty). */
  lemma ConvertExtractsId(url: string, i: int, j: int)
    requires IsShareLink(url) && FirstOccursAt(url, IdMarker, i) && IdEnd(url, i, j)
    ensures ConvertDriveUrl(url) == Ok(DirectDownloadPrefix + url[i + |IdMarker|..j])
    ensures '/' !in url[i + |IdMarker|..j]
  {
    var rest := url[i + |IdMarker|..];
    var k := j - i - |IdMarker|;
    assert rest[..k] == url[i + |IdMarker|..j];
    SplitHead(url, IdMarker, i);
    IdPiece(rest, k);
  }

  /** A share link of the usual shape `<pre>/d/<ID>/<post>` converts to the
      direct-download URL of exactly `<ID>`, provided "/d/" does not already
      occur earlier. */
  lemma ShareLinkConverts(pre: string, id: string, post: string)
    requires IsShareLink(pre + IdMarker + id + "/" + post)
    requires '/' !in id
    requires !Contains(pre + "/d", IdMarker)
    ensures ConvertDriveUrl(pre + IdMarker + id + "/" + post) == Ok(DirectDownloadPrefix + id)
  {
    var url := pre + IdMarker + id + "/" + post;
    var i := |pre|;
    assert url[i..i + |IdMarker|] == IdMarker;
    forall j | 0 <= j < i
      ensures !OccursAt(url, IdMarker, j)
    {
      if OccursAt(url, IdMarker, j) {
        assert url[j..j + |IdMarker|] == (pre + "/d")[j..j + |IdMarker|];
        ContainsIff(pre + "/d", IdMarker, j);
        assert false;
      }
    }
    var j := i + |IdMarker| + |id|;
    assert url[i + |IdMarker|..j] == id;
    assert url[j] == '/';
    ConvertExtractsId(url, i, j);
  }
}
