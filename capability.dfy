/** `supports`: whether the transformer can serve a resource at all. */
module Capability {
  import opened Common
  import opened Resources

  const LCP_SCHEME := "http://readium.org/2014/01/lcp"
  const BASIC_PROFILE := "http://readium.org/lcp/basic-profile"
  const PROFILE_1_0 := "http://readium.org/lcp/profile-1.0"
  const AES256_CBC := "http://www.w3.org/2001/04/xmlenc#aes256-cbc"

  /**
   * No license, or a license that is not ready, is refused; otherwise the resource must declare
   * the LCP scheme, one of the two LCP profiles and AES-256-CBC. The link's href plays no part.
   */
  function Supports(lcp: Option<License>, linkHref: string, enc: Encrypted): (ok: bool)
    ensures ok <==> (lcp.Some? && lcp.value.ready
                     && enc.scheme == LCP_SCHEME
                     && (enc.profile == BASIC_PROFILE || enc.profile == PROFILE_1_0)
                     && enc.algorithm == AES256_CBC)
  {
    if lcp.None? then false
    else if !lcp.value.ready then false
    else
      enc.scheme == LCP_SCHEME
      && (enc.profile == BASIC_PROFILE || enc.profile == PROFILE_1_0)
      && enc.algorithm == AES256_CBC
  }

}
