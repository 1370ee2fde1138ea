/**
 * The image loader of the static export (src/lib/imageLoader.ts): absolute `http...`
 * sources are used as they are, every other source is prefixed with the configured base
 * path, which is empty when `NEXT_PUBLIC_BASE_PATH` is not set.
 */
module ImageLoader {
  import opened Wrappers
  import opened Text

  /** `imageLoader({ src })`, with the environment variable passed in. */
  function Load(src: string, basePathEnv: Option<string>): (url: string)
    ensures |url| >= |src| && url[|url| - |src|..] == src
    ensures StartsWith(src, "http") ==> url == src
    ensures !StartsWith(src, "http") ==> url == basePathEnv.GetOr("") + src
  {
    var basePath := basePathEnv.GetOr("");
    if StartsWith(src, "http") then src else basePath + src
  }

  /** Without a base path every source comes back unchanged. */
  lemma NoBasePathIdentity(src: string)
    ensures Load(src, None) == src
  {
    assert "" + src == src;
  }

  /** What is put in front of a source is the base path or nothing, so the source can be
      recovered by cutting that prefix off. */
  lemma PrefixIsBasePath(src: string, basePathEnv: Option<string>)
    ensures var url := Load(src, basePathEnv);
            url[..|url| - |src|] == (if StartsWith(src, "http") then "" else basePathEnv.GetOr(""))
  {
  }
}
