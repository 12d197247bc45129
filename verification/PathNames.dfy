/** The name of a computed path, "<policy>-to-<peer>", and exactly which policy names make it ambiguous. */
module PathNames {
  import opened Strings

  const SEPARATOR := "-to-"
  const STUB := "-to"

  function PathName(policy: string, peer: string): string {
    policy + SEPARATOR + peer
  }

  // The names the API accepts for objects: subdomain names of RFC 1123.

  const MAX_NAME := 253

  predicate Alnum(c: char) {
    'a' <= c <= 'z' || '0' <= c <= '9'
  }

  /** Lower-case letters, digits, '-' and '.', with a letter or digit at both ends and on both sides of each '.'. */
  predicate ValidName(s: string) {
    && 0 < |s| <= MAX_NAME && Alnum(s[0]) && Alnum(s[|s| - 1])
    && forall i | 0 <= i < |s| :: Alnum(s[i]) || s[i] == '-' || InnerDot(s, i)
  }

  predicate InnerDot(s: string, i: int) {
    0 < i < |s| - 1 && s[i] == '.' && Alnum(s[i - 1]) && Alnum(s[i + 1])
  }

  /** Two policies can only produce one path name when the longer policy name swallows the separator. */
  lemma ClashForcesSeparator(shorter: string, peer: string, longer: string, peer': string)
    requires |shorter| < |longer|
    requires PathName(shorter, peer) == PathName(longer, peer')
    ensures Contains(longer, SEPARATOR) || EndsIn(longer, STUB)
  {
    var n := PathName(shorter, peer);
    assert n[..|longer|] == longer && n[..|shorter|] == shorter;
    assert n[|shorter|..|shorter| + 4] == SEPARATOR && n[|longer|..|longer| + 4] == SEPARATOR;
    if |longer| >= |shorter| + 4 {
      Inside(n, longer, shorter);
    } else {
      Overlap(n, longer, shorter);
    }
  }

  lemma Inside(n: string, longer: string, shorter: string)
    requires |shorter| + 4 <= |longer| <= |n|
    requires n[..|longer|] == longer && n[|shorter|..|shorter| + 4] == SEPARATOR
    ensures OccursAt(longer, SEPARATOR, |shorter|)
  {
    var i := |shorter|;
    forall j | 0 <= j < 4
      ensures longer[i + j] == SEPARATOR[j]
    {
      assert n[i..i + 4][j] == n[..|longer|][i + j];
    }
    assert longer[i..i + 4] == SEPARATOR;
  }

  /** Only three shared characters are possible: one or two would put '-' where the separator has 't' or 'o'. */
  lemma Overlap(n: string, longer: string, shorter: string)
    requires |shorter| < |longer| < |shorter| + 4 && |longer| + 4 <= |n|
    requires n[..|longer|] == longer
    requires n[|shorter|..|shorter| + 4] == SEPARATOR && n[|longer|..|longer| + 4] == SEPARATOR
    ensures |longer| == |shorter| + 3 && EndsIn(longer, STUB)
  {
    var i, d := |shorter|, |longer| - |shorter|;
    assert n[i..i + 4][d] == n[|longer|..|longer| + 4][0];
    assert SEPARATOR[d] == SEPARATOR[0] && d == 3;
    assert SEPARATOR[0] == STUB[0] && SEPARATOR[1] == STUB[1] && SEPARATOR[2] == STUB[2];
    forall j | 0 <= j < 3
      ensures longer[i + j] == STUB[j]
    {
      assert j == 0 || j == 1 || j == 2;
      assert n[i..i + 4][j] == n[..|longer|][i + j];
    }
    assert longer[i..i + 3] == STUB;
  }

  /** Names are valid as they are joined from valid parts with dots; what else the rule allows and forbids. */
  lemma ValidNames(a: string, b: string)
    requires |a| + 1 + |b| <= 253
    ensures ValidName(a) && ValidName(b) ==> ValidName(a + "." + b)
    ensures ValidName("a-0.z9") && !ValidName("") && !ValidName("-a") && !ValidName("a-") && !ValidName("a_b")
    ensures !ValidName("Ab") && !ValidName("a..b") && !ValidName("a.-b")
  {
    var n := a + "." + b;
    if ValidName(a) && ValidName(b) {
      forall i | 0 <= i < |n|
        ensures Alnum(n[i]) || n[i] == '-' || InnerDot(n, i)
      {
        if i < |a| {
          assert InnerDot(a, i) ==> InnerDot(n, i);
        } else if i > |a| {
          assert InnerDot(b, i - |a| - 1) ==> InnerDot(n, i);
        } else {
          assert n[i - 1] == a[|a| - 1] && n[i + 1] == b[0];
        }
      }
    }
    NotNames();
  }

  lemma NotNames()
    ensures ValidName("a-0.z9") && !ValidName("") && !ValidName("-a") && !ValidName("a-") && !ValidName("a_b")
    ensures !ValidName("Ab") && !ValidName("a..b") && !ValidName("a.-b")
  {
    assert "-a"[0] == '-' && "a-"[1] == '-' && "a_b"[1] == '_' && "Ab"[0] == 'A';
    assert "a..b"[1] == '.' && "a..b"[2] == '.' && "a.-b"[1] == '.' && "a.-b"[2] == '-';
  }

  /** A policy with a shorter name can produce a path name that this policy produces too, all names being valid. */
  ghost predicate Clashes(policy: string) {
    exists shorter, peer, peer' ::
      && |shorter| < |policy| && ValidName(shorter) && ValidName(peer) && ValidName(peer')
      && PathName(shorter, peer) == PathName(policy, peer') && ValidName(PathName(policy, peer'))
  }

  /** An inner "-to-" that splits the name into a policy's name and the start of a peer's. */
  predicate SplitsAt(policy: string, i: int) {
    OccursAt(policy, SEPARATOR, i) && 0 < i && i + 4 < |policy| && Alnum(policy[i - 1]) && Alnum(policy[i + 4])
  }

  /** A final "-to" behind a policy's name. */
  predicate EndsInStub(policy: string) {
    EndsIn(policy, STUB) && |policy| > 3 && Alnum(policy[|policy| - 4])
  }

  /**
   * A policy can clash with one of a shorter name exactly when its name has such a split or such an end, and
   * leaves room for a path name at all.
   */
  lemma ClashesIff(policy: string)
    requires ValidName(policy)
    ensures Clashes(policy) <==>
              ((exists i :: SplitsAt(policy, i)) || EndsInStub(policy)) && |policy| + 4 < 253
  {
    if Clashes(policy) {
      var shorter, peer, peer' :| && |shorter| < |policy| && ValidName(shorter) && ValidName(peer) && ValidName(peer')
                                  && PathName(shorter, peer) == PathName(policy, peer')
                                  && ValidName(PathName(policy, peer'));
      ClashSplits(shorter, peer, policy, peer');
    }
    if (exists i :: SplitsAt(policy, i)) && |policy| + |SEPARATOR| < MAX_NAME {
      var i :| SplitsAt(policy, i);
      SplitClashes(policy, i);
    }
    if EndsInStub(policy) && |policy| + |SEPARATOR| < MAX_NAME {
      StubClashes(policy);
    }
  }

  lemma ClashSplits(shorter: string, peer: string, policy: string, peer': string)
    requires |shorter| < |policy| && ValidName(policy) && ValidName(shorter) && ValidName(peer) && ValidName(peer')
    requires PathName(shorter, peer) == PathName(policy, peer')
    ensures SplitsAt(policy, |shorter|) || EndsInStub(policy)
  {
    var n := PathName(shorter, peer);
    assert n[..|policy|] == policy && n[..|shorter|] == shorter;
    assert n[|shorter|..|shorter| + 4] == SEPARATOR && n[|policy|..|policy| + 4] == SEPARATOR;
    assert policy[|shorter| - 1] == n[|shorter| - 1] == shorter[|shorter| - 1];
    if |policy| >= |shorter| + 4 {
      Inside(n, policy, shorter);
      NotAtTheEnd(policy, |shorter|);
      assert policy[|shorter| + 4] == n[|shorter| + 4] == peer[0];
    } else {
      Overlap(n, policy, shorter);
    }
  }

  lemma NotAtTheEnd(policy: string, i: int)
    requires ValidName(policy) && OccursAt(policy, SEPARATOR, i)
    ensures i + 4 < |policy|
  {
    assert policy[i + 3] == policy[i..i + 4][3] == '-';
  }

  lemma SplitClashes(policy: string, i: int)
    requires ValidName(policy) && SplitsAt(policy, i) && |policy| + |SEPARATOR| < MAX_NAME
    ensures Clashes(policy)
  {
    var shorter, rest := policy[..i], policy[i + 4..];
    assert policy == shorter + SEPARATOR + rest;
    ValidPart(policy, 0, i);
    ValidPart(policy, i + 4, |policy|);
    ValidPathName(rest, "x");
    ValidPathName(policy, "x");
    assert PathName(shorter, PathName(rest, "x")) == PathName(policy, "x");
  }

  lemma StubClashes(policy: string)
    requires ValidName(policy) && EndsInStub(policy) && |policy| + |SEPARATOR| < MAX_NAME
    ensures Clashes(policy)
  {
    var shorter := policy[..|policy| - 3];
    assert policy == shorter + STUB;
    ValidPart(policy, 0, |policy| - 3);
    assert ValidName("to-x");
    ValidPathName(policy, "x");
    assert PathName(shorter, "to-x") == PathName(policy, "x");
  }

  /** A part of a valid name is valid if it starts and ends in a letter or digit. */
  lemma ValidPart(s: string, lo: nat, hi: nat)
    requires ValidName(s) && lo < hi <= |s| && Alnum(s[lo]) && Alnum(s[hi - 1])
    ensures ValidName(s[lo..hi])
  {
    var part := s[lo..hi];
    forall j | 0 <= j < |part|
      ensures Alnum(part[j]) || part[j] == '-' || InnerDot(part, j)
    {
      assert part[j] == s[lo + j];
      assert InnerDot(s, lo + j) && 0 < j < |part| - 1 ==> InnerDot(part, j);
    }
  }

  lemma ValidPathName(policy: string, peer: string)
    requires ValidName(policy) && ValidName(peer) && |policy| + |SEPARATOR| + |peer| <= MAX_NAME
    ensures ValidName(PathName(policy, peer))
  {
    var n := PathName(policy, peer);
    forall i | 0 <= i < |n|
      ensures Alnum(n[i]) || n[i] == '-' || InnerDot(n, i)
    {
      if i < |policy| {
        assert InnerDot(policy, i) ==> InnerDot(n, i);
      } else if i >= |policy| + 4 {
        assert InnerDot(peer, i - |policy| - 4) ==> InnerDot(n, i);
      } else {
        assert n[i] == SEPARATOR[i - |policy|];
      }
    }
  }

  /** Between policy names without the separator or its stub, the path name determines both the policy and the peer. */
  lemma PathNameInjective(policy: string, peer: string, policy': string, peer': string)
    requires !Contains(policy, SEPARATOR) && !EndsIn(policy, STUB)
    requires !Contains(policy', SEPARATOR) && !EndsIn(policy', STUB)
    requires PathName(policy, peer) == PathName(policy', peer')
    ensures policy == policy' && peer == peer'
  {
    if |policy| < |policy'| {
      ClashForcesSeparator(policy, peer, policy', peer');
    } else if |policy'| < |policy| {
      ClashForcesSeparator(policy', peer', policy, peer);
    } else {
      var n := PathName(policy, peer);
      assert policy == n[..|policy|] == policy';
      assert peer == n[|policy| + 4..] == peer';
    }
  }

  /** One policy never gives two peers the same path. */
  lemma PeerNameInjective(policy: string, peer: string, peer': string)
    ensures PathName(policy, peer) == PathName(policy, peer') <==> peer == peer'
  {
    assert PathName(policy, peer)[|policy| + 4..] == peer;
    assert PathName(policy, peer')[|policy| + 4..] == peer';
  }

  /** Two policies and two peers that share a path name, though no name contains the separator. */
  lemma ClashExample()
    ensures ValidName("a") && ValidName("a-to") && ValidName("to-x") && ValidName("x")
    ensures PathName("a", "to-x") == PathName("a-to", "x")
    ensures !Contains("a", SEPARATOR) && !Contains("a-to", SEPARATOR)
  {
    assert |"a-to"| == 4 && "a-to"[0] == 'a';
  }
}
