/**
 * The react-query cache keys of the GitHub services: `["github", <segment>, ...args]`,
 * built the same way by each hook and by the key builder next to it.
 */
module QueryKeys {

  function GitHubKey(segment: string, args: seq<string>): (k: seq<string>)
    ensures |k| == 2 + |args| && k[0] == "github" && k[1] == segment && k[2..] == args
  {
    ["github", segment] + args
  }

  /** A key determines its segment and its arguments: two queries share a cache entry
      only when both are the same. */
  lemma GitHubKeyInjective(s1: string, a1: seq<string>, s2: string, a2: seq<string>)
    ensures GitHubKey(s1, a1) == GitHubKey(s2, a2) <==> s1 == s2 && a1 == a2
  {
    if GitHubKey(s1, a1) == GitHubKey(s2, a2) {
      assert GitHubKey(s1, a1)[1] == s1 && GitHubKey(s2, a2)[1] == s2;
      assert GitHubKey(s1, a1)[2..] == a1 && GitHubKey(s2, a2)[2..] == a2;
    }
  }
}
