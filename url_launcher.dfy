/** The scheme prefixing `openUrl` performs before handing the url to the operating system. */
module UrlLauncher {
  import opened Text

  /** The url already starts with `http://` or `https://`, compared case-sensitively. */
  predicate HasWebScheme(url: string) {
    IsPrefix("http://", url) || IsPrefix("https://", url)
  }

  /** Adds `https://` unless the url already carries a web scheme. */
  function NormalizeUrl(url: string): (r: string)
    ensures HasWebScheme(url) ==> r == url
    ensures !HasWebScheme(url) ==> r == "https://" + url
  {
    if !IsPrefix("http://", url) && !IsPrefix("https://", url) then "https://" + url else url
  }

  /** After normalisation the url always carries a web scheme and still ends with the original text. */
  lemma NormalizedHasScheme(url: string)
    ensures HasWebScheme(NormalizeUrl(url))
    ensures |url| <= |NormalizeUrl(url)| && NormalizeUrl(url)[|NormalizeUrl(url)| - |url|..] == url
  {
    if !HasWebScheme(url) {
      assert ("https://" + url)[..8] == "https://";
    }
  }

  /** Normalising twice gives the same result as once. */
  lemma NormalizeIdempotent(url: string)
    ensures NormalizeUrl(NormalizeUrl(url)) == NormalizeUrl(url)
  {
    NormalizedHasScheme(url);
  }

  /** The test is case-sensitive: an upper-case scheme still gets `https://` in front. */
  lemma UpperCaseSchemeIsPrefixed()
    ensures NormalizeUrl("HTTP://x") == "https://HTTP://x"
  {
    assert !IsPrefix("http://", "HTTP://x") by { assert "HTTP://x"[0] != 'h'; }
    assert !IsPrefix("https://", "HTTP://x") by { assert "HTTP://x"[0] != 'h'; }
  }
}
