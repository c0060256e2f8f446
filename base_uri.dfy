/** `_getBaseUri`: the directory part of a uri, against which buffers, images and shaders resolve. */
module BaseUri {

  /** `String.prototype.lastIndexOf` for one character: -1 when it does not occur. */
  function LastIndexOf(s: string, c: char): (i: int)
    ensures -1 <= i < |s|
    ensures 0 <= i ==> s[i] == c
    ensures forall j :: i < j < |s| ==> s[j] != c
    decreases |s|
  {
    if s == [] then -1
    else if s[|s| - 1] == c then |s| - 1
    else LastIndexOf(s[..|s| - 1], c)
  }

  /** Everything up to and including the last '/', or "" when there is none. */
  function GetBaseUri(uri: string): (base: string)
    ensures base <= uri
    ensures base == [] || base[|base| - 1] == '/'
    ensures '/' !in uri[|base|..]
  {
    var i := LastIndexOf(uri, '/');
    if i != -1 then uri[..i + 1] else ""
  }

  /** The base is the longest prefix of the uri that ends in '/'. */
  lemma GetBaseUriLongest(uri: string, p: string)
    requires p <= uri && p != [] && p[|p| - 1] == '/'
    ensures |p| <= |GetBaseUri(uri)|
  {
  }

  /** A base uri is its own base. */
  lemma GetBaseUriIdempotent(uri: string)
    ensures GetBaseUri(GetBaseUri(uri)) == GetBaseUri(uri)
  {
    var base := GetBaseUri(uri);
    if base != [] {
      GetBaseUriLongest(base, base);
    }
  }
}
