/** The name of the lock and mark files of a network and agent. */
module LockKeys {

  function LockKey(network: string, agent: string): string {
    network + ":" + agent
  }

  function SanitizeKey(key: string): (name: string)
    ensures |name| == |key|
    ensures forall i :: 0 <= i < |key| ==> name[i] == if key[i] in ":/\\" then '_' else key[i]
  {
    seq(|key|, i requires 0 <= i < |key| => if key[i] in ":/\\" then '_' else key[i])
  }

  /** Free of the characters that stand for, or become, a separator; so are network names and hexadecimal addresses. */
  predicate IsPlain(s: string) {
    forall i :: 0 <= i < |s| ==> s[i] !in ":/\\_"
  }

  lemma PlainName(network: string, agent: string)
    requires IsPlain(network) && IsPlain(agent)
    ensures SanitizeKey(LockKey(network, agent)) == network + "_" + agent
  {
  }

  lemma SplitAtSeparator(m: string, a: string, n: string, b: string)
    requires IsPlain(m) && IsPlain(n) && m + "_" + a == n + "_" + b
    ensures m == n && a == b
  {
    var whole := m + "_" + a;
    assert whole[|m|] == '_' && whole[|n|] == '_';
    assert forall i :: 0 <= i < |m| ==> whole[i] == m[i] && whole[i] != '_';
    assert forall i :: 0 <= i < |n| ==> whole[i] == n[i] && whole[i] != '_';
    assert m == whole[..|m|] && n == whole[..|n|];
    assert a == whole[|m| + 1..] && b == whole[|n| + 1..];
  }

  /** Two live processes share a lock file and a mark exactly when they share network and agent. */
  lemma LockFilesAreDistinct(network: string, agent: string, otherNetwork: string, otherAgent: string)
    requires IsPlain(network) && IsPlain(agent) && IsPlain(otherNetwork) && IsPlain(otherAgent)
    ensures SanitizeKey(LockKey(network, agent)) == SanitizeKey(LockKey(otherNetwork, otherAgent)) <==>
      network == otherNetwork && agent == otherAgent
  {
    PlainName(network, agent);
    PlainName(otherNetwork, otherAgent);
    if SanitizeKey(LockKey(network, agent)) == SanitizeKey(LockKey(otherNetwork, otherAgent)) {
      SplitAtSeparator(network, agent, otherNetwork, otherAgent);
    }
  }
}
