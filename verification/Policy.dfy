/** `check_shell`: the deny list consulted before every spawn. */
module Policy {
  import opened Common
  import opened Text

  /** The first pattern of the deny list that occurs in the shell line. */
  function CheckShell(deny: seq<string>, shell: string): Option<string> {
    if deny == [] then None
    else if Contains(shell, deny[0]) then Some(deny[0])
    else CheckShell(deny[1..], shell)
  }

  ghost predicate OccursAt(shell: string, pat: string, i: nat) {
    i + |pat| <= |shell| && shell[i..i + |pat|] == pat
  }

  ghost predicate Occurs(shell: string, pat: string) {
    exists i: nat :: OccursAt(shell, pat, i)
  }

  /** A shell line passes exactly when no pattern occurs anywhere in it; when it
      is denied, the reported pattern is the first of the list that occurs. */
  lemma {:induction false} CheckShellIff(deny: seq<string>, shell: string)
    ensures CheckShell(deny, shell).None? <==> forall pat <- deny :: !Occurs(shell, pat)
    ensures CheckShell(deny, shell).Some? ==>
      exists k :: 0 <= k < |deny| && CheckShell(deny, shell).value == deny[k] && Occurs(shell, deny[k])
        && forall pat <- deny[..k] :: !Occurs(shell, pat)
  {
    if deny != [] {
      ContainsOccurs(shell, deny[0]);
      assert deny == [deny[0]] + deny[1..];
      if Contains(shell, deny[0]) {
        assert deny[0] in deny && deny[..0] == [];
      } else {
        CheckShellIff(deny[1..], shell);
        if CheckShell(deny[1..], shell).Some? {
          var k :| 0 <= k < |deny[1..]| && CheckShell(deny[1..], shell).value == deny[1..][k]
            && Occurs(shell, deny[1..][k]) && forall pat <- deny[1..][..k] :: !Occurs(shell, pat);
          assert deny[..k + 1] == [deny[0]] + deny[1..][..k];
          assert deny[k + 1] == deny[1..][k];
        }
      }
    }
  }

  lemma ContainsOccurs(s: string, pat: string)
    ensures Contains(s, pat) <==> Occurs(s, pat)
  {
    ContainsIff(s, pat);
    if Contains(s, pat) {
      var i: nat :| i <= |s| && StartsWith(s[i..], pat);
      assert s[i..][..|pat|] == s[i..i + |pat|];
      assert OccursAt(s, pat, i);
    }
    if i: nat :| OccursAt(s, pat, i) {
      assert s[i..][..|pat|] == s[i..i + |pat|];
      assert StartsWith(s[i..], pat);
    }
  }
}
