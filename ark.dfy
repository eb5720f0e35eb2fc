/**
 * Target resolution: `extract_ark_id` pulls the ARK name of a Gallica
 * document (the path segment after the `12148` name-assigning-authority
 * segment) out of a URL such as `https://gallica.bnf.fr/ark:/12148/bpt6k1234`.
 */
module ArkId {
  import opened Wrappers
  import opened Text

  /** The scheme text the URL must contain at all. */
  const Scheme := "ark:"
  /** The path segment after which the identifier stands (the BnF's NAAN). */
  const Authority := "12148"

  predicate IsSlash(c: char) { c == '/' }

  /** `url.rstrip('/').split('/')`. */
  function Segments(url: string): seq<string> {
    Split(DropEnd(url, IsSlash), '/')
  }

  /** `i` is where `x` first occurs in `parts`. */
  predicate FirstAt(parts: seq<string>, x: string, i: int) {
    0 <= i < |parts| && parts[i] == x && forall j :: 0 <= j < i ==> parts[j] != x
  }

  /** Python's `parts.index(x)`, with `None` standing for the `ValueError` it raises. */
  function IndexOf(parts: seq<string>, x: string): (r: Option<nat>)
    ensures r.Some? ==> FirstAt(parts, x, r.value)
    ensures r.None? <==> x !in parts
  {
    if parts == [] then None
    else if parts[0] == x then Some(0)
    else match IndexOf(parts[1..], x)
      case None => None
      case Some(i) => Some(i + 1)
  }

  /**
   * `extract_ark_id`: absent unless the URL contains `ark:` and has a segment
   * `12148` that is not the last one; otherwise the segment right after the
   * first `12148`, which never contains a `/`.
   */
  function ExtractArkId(url: string): (r: Option<string>)
    ensures r.Some? <==> Contains(url, Scheme) && exists i :: FirstAt(Segments(url), Authority, i) && i + 1 < |Segments(url)|
    ensures forall i :: Contains(url, Scheme) && FirstAt(Segments(url), Authority, i) && i + 1 < |Segments(url)| ==>
              r == Some(Segments(url)[i + 1])
    ensures r.Some? ==> '/' !in r.value
  {
    var parts := Segments(url);
    if Contains(url, Scheme) then
      match IndexOf(parts, Authority)
      case None => None
      case Some(idx) => if idx + 1 < |parts| then Some(parts[idx + 1]) else None
    else
      None
  }

  /** `k` slashes. */
  function Slashes(k: nat): (r: string)
    ensures |r| == k && forall i :: 0 <= i < k ==> r[i] == '/'
  {
    if k == 0 then [] else Slashes(k - 1) + ['/']
  }

  /** One trailing slash more changes neither the scheme test nor the segments. */
  lemma OneTrailingSlashIgnored(url: string)
    ensures ExtractArkId(url + ['/']) == ExtractArkId(url)
  {
    DropEndIgnoresDropped(url, '/', IsSlash);
    ContainsIgnoresAppended(url, '/', Scheme);
  }

  /** Any number of trailing slashes leaves the extracted identifier unchanged. */
  lemma {:induction false} TrailingSlashesIgnored(url: string, k: nat)
    ensures ExtractArkId(url + Slashes(k)) == ExtractArkId(url)
  {
    if k == 0 {
      assert url + Slashes(0) == url;
    } else {
      TrailingSlashesIgnored(url, k - 1);
      assert url + Slashes(k) == (url + Slashes(k - 1)) + ['/'];
      OneTrailingSlashIgnored(url + Slashes(k - 1));
    }
  }
}
