/** `CRLValidator`: the path search as it runs, with the visited set and the verdict memo
    updated in place, refines the memo-free search. */
module CrlValidator {
  import opened Options
  import opened CrlSearch
  import opened CrlTheorems

  datatype Mode = Disabled | Enabled | Advisory

  /** What the revocation check of one certificate depends on: all fixed during one life of
      the validator. `urlResult` is the outcome of checking against one CRL distribution point. */
  datatype Policy = Policy(
    allowWithoutUrl: bool,
    shortLived: Cert -> bool,
    urls: Cert -> seq<string>,
    urlResult: (Cert, Cert, string) -> Verdict)

  /** One revoking CRL is enough to revoke; one readable CRL is enough not to err. */
  ghost function CertVerdict(p: Policy, c: Cert, a: Cert): Verdict {
    if p.shortLived(c) then Unrevoked
    else if p.urls(c) == [] then if p.allowWithoutUrl then Unrevoked else Error
    else if exists u :: u in p.urls(c) && p.urlResult(c, a, u) == Revoked then Revoked
    else if forall u :: u in p.urls(c) ==> p.urlResult(c, a, u) == Error then Error
    else Unrevoked
  }

  ghost function Oracle(p: Policy): Check {
    (c, a) => CertVerdict(p, c, a)
  }

  /** The verdicts a search sees once `memo` is filled. */
  ghost function Memoised(memo: map<Cert, Verdict>, check: Check): Check {
    (c, a) => if c in memo then memo[c] else check(c, a)
  }

  ghost predicate Extends(memo: map<Cert, Verdict>, memo': map<Cert, Verdict>) {
    forall c :: c in memo ==> c in memo' && memo'[c] == memo[c]
  }

  /** Every memoised verdict was computed against an issuer whose signature verified. */
  ghost predicate Recorded(pki: Pki, check: Check, memo: map<Cert, Verdict>) {
    forall c :: c in memo ==> Judged(pki, check, c, memo[c])
  }

  /** The memo-free verdict of a whole validation. */
  ghost function ChainVerdict(pki: Pki, check: Check, start: Cert, chain: seq<Cert>): Verdict {
    if !start.current then Error
    else
      IgnoredIffCyclic(pki, check, chain, {}, start);
      Search(pki, check, chain, {}, start).value
  }

  // ---------------------------------------------------------------------------
  // Facts about the memo

  /** The search asks about verified issuers only. */
  lemma {:induction false} SearchCongruence(pki: Pki, check: Check, check': Check, chain: seq<Cert>,
                                            visited: set<string>, c: Cert)
    requires forall c, a :: pki.signed(c, a) ==> check(c, a) == check'(c, a)
    ensures Search(pki, check, chain, visited, c) == Search(pki, check', chain, visited, c)
    decreases |Names(chain) - visited|, 1, 0
  {
    if !Terminal(pki, c) && c.issuer !in visited {
      var candidates := Issuers(chain, c.issuer);
      ExploreCongruence(pki, check, check', chain, visited, c, candidates);
      ExploreMeans(pki, check, chain, visited, c, candidates);
    }
  }

  lemma {:induction false} ExploreCongruence(pki: Pki, check: Check, check': Check, chain: seq<Cert>,
                                             visited: set<string>, c: Cert, candidates: seq<Cert>)
    requires forall c, a :: pki.signed(c, a) ==> check(c, a) == check'(c, a)
    requires c.issuer !in visited
    requires forall x :: x in candidates ==> x in chain && x.subject == c.issuer
    ensures Explore(pki, check, chain, visited, c, candidates) == Explore(pki, check', chain, visited, c, candidates)
    decreases |Names(chain) - visited|, 0, |candidates|
  {
    if candidates != [] {
      ExploreCongruence(pki, check, check', chain, visited, c, candidates[1..]);
      FewerNames(chain, visited, c.issuer, candidates[0]);
      SearchCongruence(pki, check, check', chain, visited + {c.issuer}, candidates[0]);
    }
  }

  /** With issuer-independent checks a recorded memo changes nothing. */
  lemma MemoIsTransparent(pki: Pki, check: Check, memo: map<Cert, Verdict>, chain: seq<Cert>, c: Cert)
    requires IssuerIndependent(pki, check) && Recorded(pki, check, memo)
    ensures Search(pki, Memoised(memo, check), chain, {}, c) == Search(pki, check, chain, {}, c)
  {
    SearchCongruence(pki, Memoised(memo, check), check, chain, {}, c);
  }

  /** The memo filled up with one verdict for all the other certificates in sight. */
  ghost function Filled(memo: map<Cert, Verdict>, certs: seq<Cert>, v: Verdict): map<Cert, Verdict> {
    map c | c in memo.Keys + (set x | x in certs) :: if c in memo then memo[c] else v
  }

  lemma MemoJudges(pki: Pki, check: Check, memo: map<Cert, Verdict>, c: Cert, v: Verdict)
    requires c in memo && Judged(pki, Memoised(memo, check), c, v)
    ensures memo[c] == v
  {
  }

  lemma {:induction false} PathInChain(pki: Pki, chain: seq<Cert>, path: seq<Cert>, i: nat)
    requires SimplePath(pki, chain, {}, path) && i < |path|
    ensures path[i] in [path[0]] + chain
  {
    if i > 0 {
      assert path[(i - 1) + 1] in Issuers(chain, path[i - 1].issuer);
    }
  }

  /** All later memos agree that the search from `c` gives `r`. */
  ghost predicate Finds(pki: Pki, check: Check, chain: seq<Cert>, visited: set<string>, c: Cert,
                        r: Option<Verdict>, memo: map<Cert, Verdict>)
  {
    forall memo' :: Extends(memo, memo') ==> r == Search(pki, Memoised(memo', check), chain, visited, c)
  }

  ghost predicate RecordedClean(pki: Pki, memo: map<Cert, Verdict>, path: seq<Cert>) {
    forall i :: 0 <= i < |path| ==> Trusted(pki, path[i]) || (path[i] in memo && memo[path[i]] == Unrevoked)
  }

  ghost predicate RecordedRevoked(memo: map<Cert, Verdict>, path: seq<Cert>) {
    exists i :: 0 <= i < |path| && path[i] in memo && memo[path[i]] == Revoked
  }

  /** A certificate recorded as revoked that the search gets to judge on this walk. */
  ghost predicate RecordedBlocked(pki: Pki, memo: map<Cert, Verdict>, walk: seq<Cert>) {
    exists i :: 0 <= i < |walk| && !Trusted(pki, walk[i]) && walk[i] in memo && memo[walk[i]] == Revoked
                && (i < |walk| - 1 || Anchored(pki, walk[i]))
  }

  ghost predicate HasCleanPath(pki: Pki, memo: map<Cert, Verdict>, start: Cert, chain: seq<Cert>) {
    exists path :: SimplePath(pki, chain, {}, path) && path[0] == start && RecordedClean(pki, memo, path)
  }

  ghost predicate EveryWalkBlocked(pki: Pki, memo: map<Cert, Verdict>, start: Cert, chain: seq<Cert>) {
    forall walk :: Walk(pki, chain, {}, walk) && walk[0] == start ==> RecordedBlocked(pki, memo, walk)
  }

  ghost predicate EveryPathRevoked(pki: Pki, memo: map<Cert, Verdict>, start: Cert, chain: seq<Cert>) {
    forall path :: SimplePath(pki, chain, {}, path) && path[0] == start ==> RecordedRevoked(memo, path)
  }

  /** What a verdict on a chain rests on: recorded verdicts alone decide it. */
  ghost predicate Grounded(pki: Pki, memo: map<Cert, Verdict>, start: Cert, chain: seq<Cert>, v: Verdict) {
    if !start.current then v == Error
    else
      && (v == Unrevoked <==> HasCleanPath(pki, memo, start, chain))
      && (v == Revoked <==> EveryWalkBlocked(pki, memo, start, chain))
      && (v == Revoked ==> EveryPathRevoked(pki, memo, start, chain))
  }

  /** The search came to this verdict, and will with every later memo. */
  ghost predicate Decided(pki: Pki, check: Check, memo: map<Cert, Verdict>, start: Cert, chain: seq<Cert>, v: Verdict) {
    if !start.current then v == Error else Finds(pki, check, chain, {}, start, Some(v), memo)
  }

  lemma DecidedLater(pki: Pki, check: Check, memo: map<Cert, Verdict>, memo': map<Cert, Verdict>, start: Cert,
                     chain: seq<Cert>, v: Verdict)
    requires Decided(pki, check, memo, start, chain, v) && Extends(memo, memo')
    ensures Decided(pki, check, memo', start, chain, v)
  {
  }

  ghost predicate AllDecided(pki: Pki, check: Check, memo: map<Cert, Verdict>, requests: seq<(Cert, seq<Cert>)>,
                             verdicts: seq<Verdict>)
  {
    |verdicts| <= |requests| &&
    forall k :: 0 <= k < |verdicts| ==> Decided(pki, check, memo, requests[k].0, requests[k].1, verdicts[k])
  }

  ghost predicate AllGrounded(pki: Pki, memo: map<Cert, Verdict>, requests: seq<(Cert, seq<Cert>)>, verdicts: seq<Verdict>)
  {
    |verdicts| <= |requests| &&
    forall k :: 0 <= k < |verdicts| ==> Grounded(pki, memo, requests[k].0, requests[k].1, verdicts[k])
  }

  lemma AllDecidedNext(pki: Pki, check: Check, memo: map<Cert, Verdict>, memo': map<Cert, Verdict>,
                       requests: seq<(Cert, seq<Cert>)>, verdicts: seq<Verdict>, v: Verdict)
    requires AllDecided(pki, check, memo, requests, verdicts) && Extends(memo, memo') && |verdicts| < |requests|
    requires Decided(pki, check, memo', requests[|verdicts|].0, requests[|verdicts|].1, v)
    ensures AllDecided(pki, check, memo', requests, verdicts + [v])
  {
    forall k | 0 <= k < |verdicts| ensures Decided(pki, check, memo', requests[k].0, requests[k].1, verdicts[k]) {
      DecidedLater(pki, check, memo, memo', requests[k].0, requests[k].1, verdicts[k]);
    }
  }

  lemma AllDecidedGrounded(pki: Pki, check: Check, memo: map<Cert, Verdict>, requests: seq<(Cert, seq<Cert>)>,
                           verdicts: seq<Verdict>)
    requires AllDecided(pki, check, memo, requests, verdicts)
    ensures AllGrounded(pki, memo, requests, verdicts)
  {
    forall k | 0 <= k < |verdicts| ensures Grounded(pki, memo, requests[k].0, requests[k].1, verdicts[k]) {
      VerdictsAreRecorded(pki, check, memo, requests[k].1, requests[k].0, verdicts[k]);
    }
  }

  /** The memo-free verdicts. */
  ghost predicate MemoFree(pki: Pki, check: Check, requests: seq<(Cert, seq<Cert>)>, verdicts: seq<Verdict>) {
    |verdicts| <= |requests| &&
    forall k :: 0 <= k < |verdicts| ==> verdicts[k] == ChainVerdict(pki, check, requests[k].0, requests[k].1)
  }

  lemma {:induction false} WalkInChain(pki: Pki, chain: seq<Cert>, visited: set<string>, walk: seq<Cert>, i: nat)
    requires Walk(pki, chain, visited, walk) && i < |walk|
    ensures walk[i] in [walk[0]] + chain
    decreases |walk|
  {
    if i > 0 {
      WalkInChain(pki, chain, visited + {walk[0].issuer}, walk[1..], i - 1);
      assert walk[1] in Issuers(chain, walk[0].issuer);
      assert walk[i] == walk[1..][i - 1];
    }
  }

  lemma UnrevokedIsRecorded(pki: Pki, check: Check, memo: map<Cert, Verdict>, chain: seq<Cert>, c: Cert)
    requires Finds(pki, check, chain, {}, c, Some(Unrevoked), memo)
    ensures HasCleanPath(pki, memo, c, chain)
  {
    var certs := [c] + chain;
    var full := Filled(memo, certs, Error);
    assert Extends(memo, full);
    var path := UnrevokedHasCleanWalk(pki, Memoised(full, check), chain, {}, c);
    WalkIsSimplePath(pki, chain, {}, path);
    forall i | 0 <= i < |path| ensures path[i] in certs {
      PathInChain(pki, chain, path, i);
    }
    assert RecordedClean(pki, memo, path);
  }

  lemma RecordedIsUnrevoked(pki: Pki, check: Check, memo: map<Cert, Verdict>, chain: seq<Cert>, path: seq<Cert>)
    requires SimplePath(pki, chain, {}, path) && RecordedClean(pki, memo, path)
    ensures Search(pki, Memoised(memo, check), chain, {}, path[0]) == Some(Unrevoked)
  {
    CleanPathUnrevoked(pki, Memoised(memo, check), chain, {}, path);
  }

  lemma WalkIsRecorded(pki: Pki, check: Check, memo: map<Cert, Verdict>, chain: seq<Cert>, walk: seq<Cert>)
    requires Walk(pki, chain, {}, walk) && Finds(pki, check, chain, {}, walk[0], Some(Revoked), memo)
    ensures RecordedBlocked(pki, memo, walk)
  {
    var full := Filled(memo, [walk[0]] + chain, Error);
    assert Extends(memo, full);
    RevokedBlocksWalk(pki, Memoised(full, check), chain, {}, walk);
    var i :| 0 <= i < |walk| && !Trusted(pki, walk[i]) && Judged(pki, Memoised(full, check), walk[i], Revoked)
             && (i < |walk| - 1 || Anchored(pki, walk[i]));
    WalkInChain(pki, chain, {}, walk, i);
    MemoJudges(pki, check, full, walk[i], Revoked);
  }

  lemma RecordedIsRevoked(pki: Pki, check: Check, memo: map<Cert, Verdict>, chain: seq<Cert>, c: Cert)
    requires EveryWalkBlocked(pki, memo, c, chain)
    ensures Search(pki, Memoised(memo, check), chain, {}, c) == Some(Revoked)
  {
    var seen := Memoised(memo, check);
    forall walk | Walk(pki, chain, {}, walk) && walk[0] == c ensures SurelyBlocked(pki, seen, walk) {
      var i :| 0 <= i < |walk| && !Trusted(pki, walk[i]) && walk[i] in memo && memo[walk[i]] == Revoked
               && (i < |walk| - 1 || Anchored(pki, walk[i]));
      assert Sure(pki, seen, walk[i], Revoked);
    }
    AllBlockedRevoked(pki, seen, chain, {}, c);
  }

  lemma BlockedPathRevoked(pki: Pki, memo: map<Cert, Verdict>, chain: seq<Cert>, path: seq<Cert>)
    requires SimplePath(pki, chain, {}, path) && EveryWalkBlocked(pki, memo, path[0], chain)
    ensures RecordedRevoked(memo, path)
  {
    var n := SimplePathHasWalk(pki, chain, {}, path);
    assert RecordedBlocked(pki, memo, path[..n]);
    var i :| 0 <= i < |path[..n]| && path[..n][i] in memo && memo[path[..n][i]] == Revoked;
    assert path[i] == path[..n][i];
  }

  /** Whatever the certificate checks depend on, the verdicts recorded in the memo decide the
      answer: UNREVOKED, if and only if a path to an anchor is recorded as unrevoked throughout, and
      REVOKED, if and only if every walk meets a certificate recorded as revoked. */
  lemma VerdictsAreRecorded(pki: Pki, check: Check, memo: map<Cert, Verdict>, chain: seq<Cert>, c: Cert, v: Verdict)
    requires Decided(pki, check, memo, c, chain, v)
    ensures Grounded(pki, memo, c, chain, v)
  {
    if c.current {
      assert Extends(memo, memo);
      if v == Unrevoked {
        UnrevokedIsRecorded(pki, check, memo, chain, c);
      } else if HasCleanPath(pki, memo, c, chain) {
        var path :| SimplePath(pki, chain, {}, path) && path[0] == c && RecordedClean(pki, memo, path);
        RecordedIsUnrevoked(pki, check, memo, chain, path);
      }
      if v == Revoked {
        forall walk | Walk(pki, chain, {}, walk) && walk[0] == c ensures RecordedBlocked(pki, memo, walk) {
          WalkIsRecorded(pki, check, memo, chain, walk);
        }
        forall path | SimplePath(pki, chain, {}, path) && path[0] == c ensures RecordedRevoked(memo, path) {
          BlockedPathRevoked(pki, memo, chain, path);
        }
      } else if EveryWalkBlocked(pki, memo, c, chain) {
        RecordedIsRevoked(pki, check, memo, chain, c);
      }
    }
  }

  // ---------------------------------------------------------------------------
  // One pass over the candidate issuers

  /** With `n` candidates tried and `results` gathered, the rest decides. */
  ghost predicate Tried(pki: Pki, check: Check, chain: seq<Cert>, visited: set<string>, c: Cert,
                        n: nat, results: seq<(Verdict, Cert)>, memo: map<Cert, Verdict>)
    requires c.issuer !in visited && n <= |Issuers(chain, c.issuer)|
  {
    && (forall x :: x in results ==> pki.signed(c, x.1))
    && forall memo' :: Extends(memo, memo') ==>
         Explore(pki, Memoised(memo', check), chain, visited, c, Issuers(chain, c.issuer))
         == Prepend(results, Explore(pki, Memoised(memo', check), chain, visited, c, Issuers(chain, c.issuer)[n..]))
  }

  /** One candidate that is not a way to an anchor, for one set of verdicts. */
  lemma ExploreNext(pki: Pki, check: Check, chain: seq<Cert>, visited: set<string>, c: Cert,
                    n: nat, results: seq<(Verdict, Cert)>)
    requires c.issuer !in visited && n < |Issuers(chain, c.issuer)|
    ensures var candidates := Issuers(chain, c.issuer);
            var r := Search(pki, check, chain, visited + {c.issuer}, candidates[n]);
            (pki.signed(c, candidates[n]) && r == Some(Unrevoked)) ||
            Prepend(results, Explore(pki, check, chain, visited, c, candidates[n..]))
            == Prepend(if pki.signed(c, candidates[n]) && r.Some? then results + [(r.value, candidates[n])] else results,
                       Explore(pki, check, chain, visited, c, candidates[n + 1..]))
  {
    var candidates := Issuers(chain, c.issuer);
    assert candidates[n..][1..] == candidates[n + 1..];
    var r := Search(pki, check, chain, visited + {c.issuer}, candidates[n]);
    var rest := Explore(pki, check, chain, visited, c, candidates[n + 1..]);
    if r.Some? && rest.Rest? {
      assert results + ([(r.value, candidates[n])] + rest.results)
          == (results + [(r.value, candidates[n])]) + rest.results;
    }
  }

  lemma TriedNext(pki: Pki, check: Check, chain: seq<Cert>, visited: set<string>, c: Cert,
                  n: nat, results: seq<(Verdict, Cert)>, r: Option<Verdict>, results': seq<(Verdict, Cert)>,
                  memo: map<Cert, Verdict>, later: map<Cert, Verdict>)
    requires c.issuer !in visited && n < |Issuers(chain, c.issuer)| && Extends(memo, later)
    requires Tried(pki, check, chain, visited, c, n, results, memo)
    requires var ca := Issuers(chain, c.issuer)[n];
             && results' == (if pki.signed(c, ca) && r.Some? then results + [(r.value, ca)] else results)
             && (pki.signed(c, ca) ==> Finds(pki, check, chain, visited + {c.issuer}, ca, r, later))
    requires r != Some(Unrevoked)
    ensures Tried(pki, check, chain, visited, c, n + 1, results', later)
  {
    var candidates := Issuers(chain, c.issuer);
    forall memo' | Extends(later, memo')
      ensures Explore(pki, Memoised(memo', check), chain, visited, c, candidates)
              == Prepend(results', Explore(pki, Memoised(memo', check), chain, visited, c, candidates[n + 1..]))
    {
      assert Extends(memo, memo');
      ExploreNext(pki, Memoised(memo', check), chain, visited, c, n, results);
    }
  }

  lemma TriedFound(pki: Pki, check: Check, chain: seq<Cert>, visited: set<string>, c: Cert,
                   n: nat, results: seq<(Verdict, Cert)>, memo: map<Cert, Verdict>, later: map<Cert, Verdict>)
    requires c.issuer !in visited && n < |Issuers(chain, c.issuer)| && Extends(memo, later)
    requires Tried(pki, check, chain, visited, c, n, results, memo) && !Terminal(pki, c)
    requires var ca := Issuers(chain, c.issuer)[n];
             pki.signed(c, ca) && Finds(pki, check, chain, visited + {c.issuer}, ca, Some(Unrevoked), later)
    requires c in later
    ensures Finds(pki, check, chain, visited, c, Some(later[c]), later)
  {
  }

  lemma TriedAll(pki: Pki, check: Check, chain: seq<Cert>, visited: set<string>, c: Cert,
                 results: seq<(Verdict, Cert)>, memo: map<Cert, Verdict>, later: map<Cert, Verdict>, r: Verdict)
    requires c.issuer !in visited && Extends(memo, later) && !Terminal(pki, c)
    requires Tried(pki, check, chain, visited, c, |Issuers(chain, c.issuer)|, results, memo)
    requires r == Conclude(Memoised(later, check), c, Rest(results))
    requires results != [] && FirstError(results).Some? ==> c in later
    ensures Finds(pki, check, chain, visited, c, Some(r), later)
  {
    var candidates := Issuers(chain, c.issuer);
    assert candidates[|candidates|..] == [];
    assert results + [] == results;
  }

  // ---------------------------------------------------------------------------
  // The validator

  lemma {:induction false} IssuersSnoc(chain: seq<Cert>, x: Cert, name: string)
    ensures Issuers(chain + [x], name)
            == if x.ca && x.current && x.subject == name then Issuers(chain, name) + [x] else Issuers(chain, name)
  {
    if chain == [] {
      assert chain + [x] == [x] && [x][1..] == [];
    } else {
      assert (chain + [x])[1..] == chain[1..] + [x];
      IssuersSnoc(chain[1..], x, name);
    }
  }

  function Lookup(index: map<string, seq<Cert>>, name: string): seq<Cert> {
    if name in index then index[name] else []
  }

  /** The usable CA certificates of the chain, by subject. */
  method BuildIndex(chain: seq<Cert>) returns (index: map<string, seq<Cert>>)
    ensures forall name :: Lookup(index, name) == Issuers(chain, name)
  {
    index := map[];
    for n := 0 to |chain|
      invariant forall name :: Lookup(index, name) == Issuers(chain[..n], name)
    {
      var x := chain[n];
      assert chain[..n + 1] == chain[..n] + [x];
      ghost var before := index;
      if x.ca && x.current {
        index := index[x.subject := Lookup(index, x.subject) + [x]];
      }
      forall name ensures Lookup(index, name) == Issuers(chain[..n + 1], name) {
        IssuersSnoc(chain[..n], x, name);
        assert Lookup(before, name) == Issuers(chain[..n], name);
      }
    }
    assert chain[..|chain|] == chain;
  }

  class Validator {
    const pki: Pki
    const policy: Policy
    const mode: Mode
    var memo: map<Cert, Verdict>

    constructor (pki: Pki, policy: Policy, mode: Mode)
      ensures this.pki == pki && this.policy == policy && this.mode == mode
      ensures memo == map[] && Valid()
    {
      this.pki, this.policy, this.mode, this.memo := pki, policy, mode, map[];
    }

    ghost predicate Valid()
      reads this
    {
      Recorded(pki, Oracle(policy), memo)
    }

    /** `_validate_certificate_is_not_revoked`. */
    method CheckCertificate(c: Cert, a: Cert) returns (v: Verdict)
      ensures v == CertVerdict(policy, c, a)
      ensures policy.shortLived(c) ==> v == Unrevoked
      ensures !policy.shortLived(c) && |policy.urls(c)| == 0 ==> v == if policy.allowWithoutUrl then Unrevoked else Error
      ensures !policy.shortLived(c) && |policy.urls(c)| > 0 ==>
                && (v == Revoked <==>
                      exists k :: 0 <= k < |policy.urls(c)| && policy.urlResult(c, a, policy.urls(c)[k]) == Revoked)
                && (v == Error <==>
                      forall k :: 0 <= k < |policy.urls(c)| ==> policy.urlResult(c, a, policy.urls(c)[k]) == Error)
    {
      if policy.shortLived(c) {
        return Unrevoked;
      }
      var urls := policy.urls(c);
      if urls == [] {
        return if policy.allowWithoutUrl then Unrevoked else Error;
      }
      var allErrors := true;
      for n := 0 to |urls|
        invariant forall k :: 0 <= k < n ==> policy.urlResult(c, a, urls[k]) != Revoked
        invariant allErrors <==> forall k :: 0 <= k < n ==> policy.urlResult(c, a, urls[k]) == Error
      {
        var result := policy.urlResult(c, a, urls[n]);
        if result.Revoked? {
          return Revoked;
        }
        allErrors := allErrors && result.Error?;
      }
      return if allErrors then Error else Unrevoked;
    }

    /** The memo is keyed by the certificate alone: the first issuer asked about decides. */
    method CheckWithMemo(c: Cert, a: Cert) returns (v: Verdict)
      requires Valid() && pki.signed(c, a)
      modifies this
      ensures Valid() && Extends(old(memo), memo)
      ensures c in memo && v == memo[c]
      ensures c !in old(memo) ==> v == CertVerdict(policy, c, a)
    {
      if c !in memo {
        v := CheckCertificate(c, a);
        memo := memo[c := v];
        assert Oracle(policy)(c, a) == v;
      }
      v := memo[c];
    }

    /** `_validate_chain`: for any contents the memo has gathered, the recorded verdicts decide the
        answer, and it is the memo-free one when checks do not depend on the issuer. */
    method ValidateChain(start: Cert, chain: seq<Cert>) returns (v: Verdict)
      requires Valid()
      modifies this
      ensures Valid() && Extends(old(memo), memo)
      ensures Decided(pki, Oracle(policy), memo, start, chain, v)
      ensures Grounded(pki, memo, start, chain, v)
      ensures IssuerIndependent(pki, Oracle(policy)) ==> v == ChainVerdict(pki, Oracle(policy), start, chain)
    {
      if !start.current {
        return Error;
      }
      var index := BuildIndex(chain);
      var search := new ChainSearch(this, chain, index);
      var r := search.Traverse(start);
      IgnoredIffCyclic(pki, Memoised(memo, Oracle(policy)), chain, {}, start);
      assert Extends(memo, memo);
      v := r.value;
      VerdictsAreRecorded(pki, Oracle(policy), memo, chain, start, v);
      if IssuerIndependent(pki, Oracle(policy)) {
        MemoIsTransparent(pki, Oracle(policy), memo, chain, start);
      }
    }

    /** `validate_certificate_chain`: no chain counts as an empty one. */
    method ValidateCertificateChain(peer: Cert, chain: Option<seq<Cert>>) returns (ok: bool)
      requires Valid()
      modifies this
      ensures Valid() && Extends(old(memo), memo)
      ensures var certs := if chain.Some? then chain.value else [];
              && (mode.Disabled? ==> ok && memo == old(memo))
              && (mode.Enabled? ==> (ok <==> peer.current && HasCleanPath(pki, memo, peer, certs)))
              && (mode.Advisory? ==> (!ok <==> peer.current && EveryWalkBlocked(pki, memo, peer, certs)))
              && (mode.Advisory? && !ok ==> EveryPathRevoked(pki, memo, peer, certs))
              && (IssuerIndependent(pki, Oracle(policy)) ==>
                    ok == (mode.Disabled?
                           || ChainVerdict(pki, Oracle(policy), peer, certs) == Unrevoked
                           || (mode.Advisory? && ChainVerdict(pki, Oracle(policy), peer, certs) == Error)))
    {
      if mode.Disabled? {
        return true;
      }
      var certs := if chain.Some? then chain.value else [];
      var v := ValidateChain(peer, certs);
      match v
      case Unrevoked => return true;
      case Revoked => return false;
      case Error => return mode.Advisory?;
    }

    /** A whole life: any sequence of validations, the memo carried from one to the next. */
    method ValidateAll(requests: seq<(Cert, seq<Cert>)>) returns (verdicts: seq<Verdict>)
      requires Valid()
      modifies this
      ensures Valid() && Extends(old(memo), memo) && |verdicts| == |requests|
      ensures AllGrounded(pki, memo, requests, verdicts)
      ensures IssuerIndependent(pki, Oracle(policy)) ==> MemoFree(pki, Oracle(policy), requests, verdicts)
    {
      verdicts := [];
      for n := 0 to |requests|
        invariant Valid() && Extends(old(memo), memo) && |verdicts| == n
        invariant AllDecided(pki, Oracle(policy), memo, requests, verdicts)
        invariant IssuerIndependent(pki, Oracle(policy)) ==> MemoFree(pki, Oracle(policy), requests, verdicts)
      {
        ghost var before := memo;
        var v := ValidateChain(requests[n].0, requests[n].1);
        AllDecidedNext(pki, Oracle(policy), before, memo, requests, verdicts, v);
        verdicts := verdicts + [v];
      }
      AllDecidedGrounded(pki, Oracle(policy), memo, requests, verdicts);
    }
  }

  /** One run of `traverse_chain`, with the set of subjects being visited. */
  class ChainSearch {
    const validator: Validator
    ghost const chain: seq<Cert>
    const index: map<string, seq<Cert>>
    var visited: set<string>

    constructor (validator: Validator, ghost chain: seq<Cert>, index: map<string, seq<Cert>>)
      ensures this.validator == validator && this.chain == chain && this.index == index && visited == {}
    {
      this.validator, this.chain, this.index, this.visited := validator, chain, index, {};
    }

    ghost predicate Valid()
      reads this, validator
    {
      validator.Valid() && forall name :: Lookup(index, name) == Issuers(chain, name)
    }

    /** Whatever the memo holds by the end, or later, the result is what the memo-free search
        finds with those verdicts; the visited set is as it was. */
    method Traverse(c: Cert) returns (r: Option<Verdict>)
      requires Valid()
      modifies this, validator
      ensures Valid() && visited == old(visited)
      ensures Extends(old(validator.memo), validator.memo)
      ensures Finds(validator.pki, Oracle(validator.policy), chain, visited, c, r, validator.memo)
      decreases |Names(chain) - visited|, 1
    {
      if c in validator.pki.trusted {
        return Some(Unrevoked);
      }
      var anchor := TrustedIssuer(validator.pki, c, validator.pki.trusted);
      if anchor.Some? {
        var v := validator.CheckWithMemo(c, anchor.value);
        return Some(v);
      }
      if c.issuer in visited {
        return None;
      }
      var v := TryIssuers(c);
      return Some(v);
    }

    /** The recursive call, with the issuer's name among the visited ones while it lasts. */
    method TraverseIssuer(c: Cert, ca: Cert) returns (r: Option<Verdict>)
      requires Valid() && c.issuer !in visited && ca in Issuers(chain, c.issuer)
      modifies this, validator
      ensures Valid() && visited == old(visited)
      ensures Extends(old(validator.memo), validator.memo)
      ensures Finds(validator.pki, Oracle(validator.policy), chain, visited + {c.issuer}, ca, r, validator.memo)
      decreases |Names(chain) - visited|, 0, 0
    {
      FewerNames(chain, visited, c.issuer, ca);
      visited := visited + {c.issuer};
      r := Traverse(ca);
      visited := visited - {c.issuer};
      assert visited == old(visited);
    }

    /** The second half of `traverse_chain`: the candidates one by one, then the judgement. */
    method TryIssuers(c: Cert) returns (v: Verdict)
      requires Valid() && !Terminal(validator.pki, c) && c.issuer !in visited
      modifies this, validator
      ensures Valid() && visited == old(visited)
      ensures Extends(old(validator.memo), validator.memo)
      ensures Finds(validator.pki, Oracle(validator.policy), chain, visited, c, Some(v), validator.memo)
      decreases |Names(chain) - visited|, 0, 1
    {
      ghost var pki, check := validator.pki, Oracle(validator.policy);
      var candidates := Lookup(index, c.issuer);
      var results: seq<(Verdict, Cert)> := [];
      for n := 0 to |candidates|
        invariant Valid() && visited == old(visited)
        invariant Extends(old(validator.memo), validator.memo)
        invariant Tried(pki, check, chain, visited, c, n, results, validator.memo)
      {
        var ca := candidates[n];
        ghost var before, results0 := validator.memo, results;
        var caResult: Option<Verdict> := None;
        if validator.pki.signed(c, ca) {
          caResult := TraverseIssuer(c, ca);
          if caResult == Some(Unrevoked) {
            v := validator.CheckWithMemo(c, ca);
            TriedFound(pki, check, chain, visited, c, n, results, before, validator.memo);
            return;
          }
          if caResult.Some? {
            results := results + [(caResult.value, ca)];
          }
        }
        TriedNext(pki, check, chain, visited, c, n, results0, caResult, results, before, validator.memo);
      }
      v := Judge(c, results);
    }

    /** No issuer led to an anchor along unrevoked certificates. */
    method Judge(c: Cert, results: seq<(Verdict, Cert)>) returns (v: Verdict)
      requires Valid() && !Terminal(validator.pki, c) && c.issuer !in visited
      requires Tried(validator.pki, Oracle(validator.policy), chain, visited, c, |Issuers(chain, c.issuer)|, results,
                     validator.memo)
      modifies validator
      ensures Valid() && Extends(old(validator.memo), validator.memo)
      ensures Finds(validator.pki, Oracle(validator.policy), chain, visited, c, Some(v), validator.memo)
    {
      if results == [] {
        v := Error;
      } else {
        v := Revoked;
        var bad := FirstError(results);
        if bad.Some? {
          var own := validator.CheckWithMemo(c, bad.value);
          v := if own.Revoked? then Revoked else Error;
        }
      }
      TriedAll(validator.pki, Oracle(validator.policy), chain, visited, c, results,
               old(validator.memo), validator.memo, v);
    }
  }
}
