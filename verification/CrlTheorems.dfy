/** What the verdicts of the path search mean in terms of paths and walks. */
module CrlTheorems {
  import opened Options
  import opened CrlSearch

  /** The outcome of trying candidates, candidate by candidate. */
  lemma {:induction false} ExploreMeans(pki: Pki, check: Check, chain: seq<Cert>, visited: set<string>, c: Cert,
                                        candidates: seq<Cert>)
    requires c.issuer !in visited
    requires forall x :: x in candidates ==> x in chain && x.subject == c.issuer
    ensures match Explore(pki, check, chain, visited, c, candidates)
            case Found(a) =>
              && a in candidates && pki.signed(c, a)
              && Search(pki, check, chain, visited + {c.issuer}, a) == Some(Unrevoked)
            case Rest(results) =>
              && (forall v, d :: (v, d) in results <==>
                    && d in candidates && pki.signed(c, d)
                    && Search(pki, check, chain, visited + {c.issuer}, d) == Some(v))
              && (forall d :: d in candidates && pki.signed(c, d) ==>
                    Search(pki, check, chain, visited + {c.issuer}, d) != Some(Unrevoked))
    decreases |candidates|
  {
    if candidates != [] {
      var d, rest := candidates[0], candidates[1..];
      assert candidates == [d] + rest;
      ExploreMeans(pki, check, chain, visited, c, rest);
      if pki.signed(c, d) {
        var r := Search(pki, check, chain, visited + {c.issuer}, d);
        if r.Some? && !r.value.Unrevoked? {
          var more := Explore(pki, check, chain, visited, c, rest);
          if more.Rest? {
            assert Explore(pki, check, chain, visited, c, candidates) == Rest([(r.value, d)] + more.results);
          }
        }
      }
    }
  }

  /** The search ignores exactly the certificates that lead back to a name being visited; the
      top-level call, which visits nothing yet, always has a verdict. */
  lemma IgnoredIffCyclic(pki: Pki, check: Check, chain: seq<Cert>, visited: set<string>, c: Cert)
    ensures Search(pki, check, chain, visited, c).None? <==> Cyclic(pki, visited, c)
    ensures visited == {} ==> Search(pki, check, chain, visited, c).Some?
  {
  }

  // ---------------------------------------------------------------------------
  // What a verdict promises, whatever the certificate checks depend on

  /** An UNREVOKED verdict has a clean walk to an anchor behind it. */
  lemma {:induction false} UnrevokedHasCleanWalk(pki: Pki, check: Check, chain: seq<Cert>, visited: set<string>, c: Cert)
    returns (walk: seq<Cert>)
    requires Search(pki, check, chain, visited, c) == Some(Unrevoked)
    ensures Walk(pki, chain, visited, walk) && walk[0] == c
    ensures Terminal(pki, walk[|walk| - 1]) && Clean(pki, check, walk)
    decreases |Names(chain) - visited|
  {
    if Terminal(pki, c) {
      walk := [c];
    } else {
      ExploreMeans(pki, check, chain, visited, c, Issuers(chain, c.issuer));
      var a := Explore(pki, check, chain, visited, c, Issuers(chain, c.issuer)).issuer;
      FewerNames(chain, visited, c.issuer, a);
      var rest := UnrevokedHasCleanWalk(pki, check, chain, visited + {c.issuer}, a);
      assert Step(pki, chain, visited, c, a);
      walk := [c] + rest;
      ConsWalk(pki, check, chain, visited, c, rest);
    }
  }

  lemma ConsWalk(pki: Pki, check: Check, chain: seq<Cert>, visited: set<string>, c: Cert, rest: seq<Cert>)
    requires !Terminal(pki, c) && c.issuer !in visited && Walk(pki, chain, visited + {c.issuer}, rest)
    requires Step(pki, chain, visited, c, rest[0])
    ensures Walk(pki, chain, visited, [c] + rest)
    ensures Judged(pki, check, c, Unrevoked) && Clean(pki, check, rest) ==> Clean(pki, check, [c] + rest)
  {
    assert ([c] + rest)[1..] == rest;
  }

  /** A dead end is an ERROR: any other verdict has a step behind it. */
  lemma StepBehindVerdict(pki: Pki, check: Check, chain: seq<Cert>, visited: set<string>, c: Cert) returns (d: Cert)
    requires !Terminal(pki, c) && Search(pki, check, chain, visited, c).Some?
    requires Search(pki, check, chain, visited, c) != Some(Error)
    ensures Step(pki, chain, visited, c, d)
  {
    ExploreMeans(pki, check, chain, visited, c, Issuers(chain, c.issuer));
    match Explore(pki, check, chain, visited, c, Issuers(chain, c.issuer))
    case Found(a) => d := a;
    case Rest(results) =>
      var (v, a) := results[0];
      assert (v, a) in results;
      d := a;
  }

  /** A REVOKED verdict leaves no walk unblocked. */
  lemma {:induction false} RevokedBlocksWalk(pki: Pki, check: Check, chain: seq<Cert>, visited: set<string>,
                                             walk: seq<Cert>)
    requires Walk(pki, chain, visited, walk)
    requires Search(pki, check, chain, visited, walk[0]) == Some(Revoked)
    ensures Blocked(pki, check, walk)
    decreases |walk|
  {
    var c := walk[0];
    if !Terminal(pki, c) {
      var _ := StepBehindVerdict(pki, check, chain, visited, c);
      ExploreMeans(pki, check, chain, visited, c, Issuers(chain, c.issuer));
      var outcome := Explore(pki, check, chain, visited, c, Issuers(chain, c.issuer));
      if outcome.Rest? && FirstError(outcome.results).None? {
        var r := Search(pki, check, chain, visited + {c.issuer}, walk[1]);
        assert (r.value, walk[1]) in outcome.results;
        RevokedBlocksWalk(pki, check, chain, visited + {c.issuer}, walk[1..]);
        BlockedTail(pki, check, walk);
      }
    }
  }

  lemma BlockedTail(pki: Pki, check: Check, walk: seq<Cert>)
    requires walk != [] && Blocked(pki, check, walk[1..])
    ensures Blocked(pki, check, walk)
  {
    var i :| 0 <= i < |walk[1..]| && !Trusted(pki, walk[1..][i]) && Judged(pki, check, walk[1..][i], Revoked)
             && (i < |walk[1..]| - 1 || Anchored(pki, walk[1..][i]));
    assert walk[i + 1] == walk[1..][i];
  }

  // ---------------------------------------------------------------------------
  // The converses, for verdicts that are the same with every verified issuer

  lemma {:induction false} CleanPathUnrevoked(pki: Pki, check: Check, chain: seq<Cert>, visited: set<string>,
                                              path: seq<Cert>)
    requires SimplePath(pki, chain, visited, path) && SurelyClean(pki, check, path)
    ensures Search(pki, check, chain, visited, path[0]) == Some(Unrevoked)
    decreases |path|
  {
    var c := path[0];
    if !Terminal(pki, c) {
      var rest := path[1..];
      assert SimplePath(pki, chain, visited + {c.issuer}, rest) && SurelyClean(pki, check, rest) by {
        assert forall i :: 0 <= i < |rest| ==> rest[i] == path[i + 1];
      }
      CleanPathUnrevoked(pki, check, chain, visited + {c.issuer}, rest);
      ExploreMeans(pki, check, chain, visited, c, Issuers(chain, c.issuer));
    }
  }

  lemma {:induction false} AllBlockedRevoked(pki: Pki, check: Check, chain: seq<Cert>, visited: set<string>, c: Cert)
    requires !Cyclic(pki, visited, c)
    requires forall walk :: Walk(pki, chain, visited, walk) && walk[0] == c ==> SurelyBlocked(pki, check, walk)
    ensures Search(pki, check, chain, visited, c) == Some(Revoked)
    decreases |Names(chain) - visited|
  {
    if Terminal(pki, c) || DeadEnd(pki, chain, visited, c) {
      assert Walk(pki, chain, visited, [c]);
      assert SurelyBlocked(pki, check, [c]);
    } else if Sure(pki, check, c, Revoked) {
      SureRevoked(pki, check, chain, visited, c);
    } else {
      forall e | Step(pki, chain, visited, c, e)
        ensures Search(pki, check, chain, visited + {c.issuer}, e) == Some(Revoked)
      {
        StepBlocked(pki, check, chain, visited, c, e);
        FewerNames(chain, visited, c.issuer, e);
        AllBlockedRevoked(pki, check, chain, visited + {c.issuer}, e);
      }
      StepsRevoked(pki, check, chain, visited, c);
    }
  }

  lemma SureRevoked(pki: Pki, check: Check, chain: seq<Cert>, visited: set<string>, c: Cert)
    requires Sure(pki, check, c, Revoked)
    requires !Terminal(pki, c) && !Cyclic(pki, visited, c) && !DeadEnd(pki, chain, visited, c)
    ensures Search(pki, check, chain, visited, c) == Some(Revoked)
  {
    ExploreMeans(pki, check, chain, visited, c, Issuers(chain, c.issuer));
    var outcome := Explore(pki, check, chain, visited, c, Issuers(chain, c.issuer));
    if outcome.Rest? {
      var d :| Step(pki, chain, visited, c, d);
      var r := Search(pki, check, chain, visited + {c.issuer}, d);
      assert (r.value, d) in outcome.results;
    }
  }

  lemma StepsRevoked(pki: Pki, check: Check, chain: seq<Cert>, visited: set<string>, c: Cert)
    requires !Terminal(pki, c) && !Cyclic(pki, visited, c) && !DeadEnd(pki, chain, visited, c)
    requires forall e :: Step(pki, chain, visited, c, e) ==>
               Search(pki, check, chain, visited + {c.issuer}, e) == Some(Revoked)
    ensures Search(pki, check, chain, visited, c) == Some(Revoked)
  {
    ExploreMeans(pki, check, chain, visited, c, Issuers(chain, c.issuer));
    var outcome := Explore(pki, check, chain, visited, c, Issuers(chain, c.issuer));
    var d :| Step(pki, chain, visited, c, d);
    assert outcome.Rest?;
    assert (Revoked, d) in outcome.results;
    var bad := FirstError(outcome.results);
    if bad.Some? {
      assert Step(pki, chain, visited, c, bad.value);
    }
  }

  /** If `c` itself is not surely revoked, its being blocked on every walk passes to each issuer it steps to. */
  lemma StepBlocked(pki: Pki, check: Check, chain: seq<Cert>, visited: set<string>, c: Cert, d: Cert)
    requires !Terminal(pki, c) && !Cyclic(pki, visited, c) && Step(pki, chain, visited, c, d)
    requires !Sure(pki, check, c, Revoked)
    requires forall walk :: Walk(pki, chain, visited, walk) && walk[0] == c ==> SurelyBlocked(pki, check, walk)
    ensures forall walk :: Walk(pki, chain, visited + {c.issuer}, walk) && walk[0] == d ==> SurelyBlocked(pki, check, walk)
  {
    forall rest | Walk(pki, chain, visited + {c.issuer}, rest) && rest[0] == d
      ensures SurelyBlocked(pki, check, rest)
    {
      var walk := [c] + rest;
      assert walk[1..] == rest;
      assert Walk(pki, chain, visited, walk);
      var i :| 0 <= i < |walk| && !Trusted(pki, walk[i]) && Sure(pki, check, walk[i], Revoked)
               && (i < |walk| - 1 || Anchored(pki, walk[i]));
      assert rest[i - 1] == walk[i];
    }
  }

  // ---------------------------------------------------------------------------
  // Walks and simple paths

  /** A walk that ends at an anchor is a simple path. */
  lemma {:induction false} WalkIsSimplePath(pki: Pki, chain: seq<Cert>, visited: set<string>, walk: seq<Cert>)
    requires Walk(pki, chain, visited, walk) && Terminal(pki, walk[|walk| - 1])
    ensures SimplePath(pki, chain, visited, walk)
    decreases |walk|
  {
    if |walk| > 1 {
      var rest := walk[1..];
      WalkIsSimplePath(pki, chain, visited + {walk[0].issuer}, rest);
      assert forall i :: 1 <= i < |walk| ==> walk[i] == rest[i - 1];
    }
  }

  /** Cutting a simple path at its first anchor gives a walk. */
  lemma {:induction false} SimplePathHasWalk(pki: Pki, chain: seq<Cert>, visited: set<string>, path: seq<Cert>)
    returns (n: nat)
    requires SimplePath(pki, chain, visited, path)
    ensures 1 <= n <= |path| && Walk(pki, chain, visited, path[..n])
    ensures Terminal(pki, path[n - 1])
    decreases |path|
  {
    var c := path[0];
    if Terminal(pki, c) {
      n := 1;
    } else {
      var rest := path[1..];
      assert SimplePath(pki, chain, visited + {c.issuer}, rest) by {
        assert forall i :: 0 <= i < |rest| ==> rest[i] == path[i + 1];
      }
      var m := SimplePathHasWalk(pki, chain, visited + {c.issuer}, rest);
      n := m + 1;
      assert Step(pki, chain, visited, c, path[1]) by {
        assert rest[..m][0] == path[1];
      }
      assert path[..n][1..] == rest[..m];
    }
  }

  // ---------------------------------------------------------------------------
  // The main results, for the top-level call

  lemma JudgedIsSure(pki: Pki, check: Check)
    requires IssuerIndependent(pki, check)
    ensures forall c, v :: Judged(pki, check, c, v) ==> Sure(pki, check, c, v)
  {
  }

  lemma BlockedIsSure(pki: Pki, check: Check, walk: seq<Cert>)
    requires IssuerIndependent(pki, check) && Blocked(pki, check, walk)
    ensures SurelyBlocked(pki, check, walk)
  {
    var i :| 0 <= i < |walk| && !Trusted(pki, walk[i]) && Judged(pki, check, walk[i], Revoked)
             && (i < |walk| - 1 || Anchored(pki, walk[i]));
    assert Sure(pki, check, walk[i], Revoked);
  }

  /** UNREVOKED, if and only if a subject-simple verified path reaches an anchor over unrevoked certificates. */
  lemma UnrevokedIffCleanPath(pki: Pki, check: Check, chain: seq<Cert>, c: Cert)
    requires IssuerIndependent(pki, check)
    ensures Search(pki, check, chain, {}, c) == Some(Unrevoked)
            <==> exists path :: SimplePath(pki, chain, {}, path) && path[0] == c && Clean(pki, check, path)
  {
    if Search(pki, check, chain, {}, c) == Some(Unrevoked) {
      var walk := UnrevokedHasCleanWalk(pki, check, chain, {}, c);
      WalkIsSimplePath(pki, chain, {}, walk);
    }
    forall path | SimplePath(pki, chain, {}, path) && path[0] == c && Clean(pki, check, path)
      ensures Search(pki, check, chain, {}, c) == Some(Unrevoked)
    {
      JudgedIsSure(pki, check);
      CleanPathUnrevoked(pki, check, chain, {}, path);
    }
  }

  /** REVOKED, if and only if every walk, dead ends included, is blocked by a revoked certificate. */
  lemma RevokedIffEveryWalkBlocked(pki: Pki, check: Check, chain: seq<Cert>, c: Cert)
    requires IssuerIndependent(pki, check)
    ensures Search(pki, check, chain, {}, c) == Some(Revoked)
            <==> forall walk :: Walk(pki, chain, {}, walk) && walk[0] == c ==> Blocked(pki, check, walk)
  {
    if Search(pki, check, chain, {}, c) == Some(Revoked) {
      forall walk | Walk(pki, chain, {}, walk) && walk[0] == c ensures Blocked(pki, check, walk) {
        RevokedBlocksWalk(pki, check, chain, {}, walk);
      }
    } else if forall walk :: Walk(pki, chain, {}, walk) && walk[0] == c ==> Blocked(pki, check, walk) {
      forall walk | Walk(pki, chain, {}, walk) && walk[0] == c ensures SurelyBlocked(pki, check, walk) {
        BlockedIsSure(pki, check, walk);
      }
      AllBlockedRevoked(pki, check, chain, {}, c);
    }
  }

  /** Whatever the checks depend on, REVOKED means that every path to an anchor has a revoked certificate. */
  lemma RevokedMeansEveryPathRevoked(pki: Pki, check: Check, chain: seq<Cert>, path: seq<Cert>)
    requires SimplePath(pki, chain, {}, path)
    requires Search(pki, check, chain, {}, path[0]) == Some(Revoked)
    ensures exists i :: 0 <= i < |path| && !Trusted(pki, path[i]) && Judged(pki, check, path[i], Revoked)
  {
    var n := SimplePathHasWalk(pki, chain, {}, path);
    var walk := path[..n];
    RevokedBlocksWalk(pki, check, chain, {}, walk);
    var i :| 0 <= i < |walk| && !Trusted(pki, walk[i]) && Judged(pki, check, walk[i], Revoked)
             && (i < |walk| - 1 || Anchored(pki, walk[i]));
    assert path[i] == walk[i];
  }

  // ---------------------------------------------------------------------------
  // A leaf with two issuers of the same name: a revoked one below the root, and a dead end

  const ROOT := Cert(0, "root", "root", true, true)
  const LEFT := Cert(1, "ca", "root", true, true)
  const RIGHT := Cert(2, "ca", "gone", true, true)
  const LEAF := Cert(3, "leaf", "ca", false, true)

  function ByName(c: Cert, a: Cert): bool { c.issuer == a.subject }

  function LeftRevoked(c: Cert, a: Cert): Verdict { if c == LEFT then Revoked else Unrevoked }

  lemma SiblingIssuers()
    ensures Issuers([LEFT, RIGHT], "ca") == [LEFT, RIGHT] && Issuers([LEFT, RIGHT], "gone") == []
    ensures var pki := Pki([ROOT], ByName); !Terminal(pki, LEAF) && !Terminal(pki, RIGHT)
    ensures var pki := Pki([ROOT], ByName); TrustedIssuer(pki, LEFT, [ROOT]) == Some(ROOT) && !Trusted(pki, LEFT)
  {
    assert |"ca"| == 2 && |"gone"| == 4 && |"root"| == 4 && "gone"[0] != "root"[0];
    assert [LEFT, RIGHT][1..] == [RIGHT];
    assert Issuers([RIGHT], "ca") == [RIGHT] + Issuers([], "ca");
    assert [RIGHT][1..] == [] && Issuers([], "gone") == [];
    assert Issuers([RIGHT], "gone") == Issuers([], "gone");
  }

  lemma NeverRight(path: seq<Cert>, i: nat)
    requires SimplePath(Pki([ROOT], ByName), [LEFT, RIGHT], {}, path) && i < |path|
    ensures path[i] != RIGHT
  {
    SiblingIssuers();
    if i < |path| - 1 {
      assert path[i + 1] in Issuers([LEFT, RIGHT], path[i].issuer);
    }
  }

  /** A dead-end sibling issuer turns the verdict into ERROR although the only path to an anchor
      runs over a revoked certificate. */
  lemma DeadEndSiblingIsError()
    ensures var pki := Pki([ROOT], ByName);
            && IssuerIndependent(pki, LeftRevoked)
            && Search(pki, LeftRevoked, [LEFT, RIGHT], {}, LEAF) == Some(Error)
            && SimplePath(pki, [LEFT, RIGHT], {}, [LEAF, LEFT])
            && forall path :: SimplePath(pki, [LEFT, RIGHT], {}, path) && path[0] == LEAF ==> LEFT in path
  {
    var pki, chain := Pki([ROOT], ByName), [LEFT, RIGHT];
    SiblingIssuers();
    ExploreMeans(pki, LeftRevoked, chain, {}, LEAF, chain);
    var outcome := Explore(pki, LeftRevoked, chain, {}, LEAF, chain);
    assert "gone" !in {} + {"ca"} by {
      assert |"ca"| == 2 && |"gone"| == 4;
    }
    assert Search(pki, LeftRevoked, chain, {} + {"ca"}, RIGHT) == Some(Error);
    assert (Error, RIGHT) in outcome.results;
    forall path: seq<Cert> | SimplePath(pki, chain, {}, path) && path[0] == LEAF ensures LEFT in path {
      assert path[1] in Issuers(chain, path[0].issuer);
      NeverRight(path, 1);
    }
  }
}
