/** The key of a stack in the state store and in the server's `applying` set. */
module Keys {
  function Key(repo: string, stack: string): string {
    repo + "/" + stack
  }

  /** A slash-free pair shares its key with no other pair, slash-free or not. */
  lemma KeyInjective(repo: string, stack: string, repo': string, stack': string)
    requires '/' !in repo && '/' !in stack
    ensures Key(repo', stack') == Key(repo, stack) <==> repo' == repo && stack' == stack
  {
    var k := Key(repo, stack);
    if Key(repo', stack') == k {
      assert k[|repo'|] == '/';
      assert |repo'| == |repo|;
      assert repo == k[..|repo|] && repo' == k[..|repo|];
      assert stack == k[|repo| + 1..] && stack' == k[|repo| + 1..];
    }
  }
}
