/** What the certificate path search of `CRLValidator._validate_chain` computes, without the
    verdict memo, and the walks through the certificate graph it is measured against. */
module CrlSearch {
  import opened Options

  datatype Verdict = Revoked | Unrevoked | Error

  /** A certificate; equal values are equal encodings. `ca` is the basic constraint and
      `current` says that now lies within the validity dates. */
  datatype Cert = Cert(der: nat, subject: string, issuer: string, ca: bool, current: bool)

  /** The trusted certificates in store order, and whether a signature verifies. */
  datatype Pki = Pki(trusted: seq<Cert>, signed: (Cert, Cert) -> bool)

  /** The verdict on a certificate against the issuer it is checked with. */
  type Check = (Cert, Cert) -> Verdict

  // ---------------------------------------------------------------------------
  // The search

  /** The CA certificates of the peer's chain that may stand for issuer `name`, in chain order. */
  function Issuers(chain: seq<Cert>, name: string): (r: seq<Cert>)
    ensures forall x :: x in r <==> x in chain && x.ca && x.current && x.subject == name
  {
    if chain == [] then []
    else if chain[0].ca && chain[0].current && chain[0].subject == name
    then [chain[0]] + Issuers(chain[1..], name)
    else Issuers(chain[1..], name)
  }

  /** The first certificate of the trusted store that issued `c`. */
  function TrustedIssuer(pki: Pki, c: Cert, trusted: seq<Cert>): (r: Option<Cert>)
    ensures r.Some? ==> r.value in trusted && r.value.subject == c.issuer && pki.signed(c, r.value)
    ensures r.None? ==> forall t :: t in trusted && t.subject == c.issuer ==> !pki.signed(c, t)
  {
    if trusted == [] then None
    else if trusted[0].subject == c.issuer && pki.signed(c, trusted[0]) then Some(trusted[0])
    else TrustedIssuer(pki, c, trusted[1..])
  }

  predicate Trusted(pki: Pki, c: Cert) { c in pki.trusted }
  predicate Anchored(pki: Pki, c: Cert) { TrustedIssuer(pki, c, pki.trusted).Some? }
  predicate Terminal(pki: Pki, c: Cert) { Trusted(pki, c) || Anchored(pki, c) }

  ghost function Names(chain: seq<Cert>): set<string> {
    set x | x in chain :: x.subject
  }

  /** What trying the candidate issuers came to: one leads to an anchor along unrevoked
      certificates, or the other verdicts in order. */
  datatype Outcome = Found(issuer: Cert) | Rest(results: seq<(Verdict, Cert)>)

  ghost function Search(pki: Pki, check: Check, chain: seq<Cert>, visited: set<string>, c: Cert): Option<Verdict>
    decreases |Names(chain) - visited|, 1, 0
  {
    if Trusted(pki, c) then Some(Unrevoked)
    else if Anchored(pki, c) then Some(check(c, TrustedIssuer(pki, c, pki.trusted).value))
    else if c.issuer in visited then None
    else Some(Conclude(check, c, Explore(pki, check, chain, visited, c, Issuers(chain, c.issuer))))
  }

  ghost function Explore(pki: Pki, check: Check, chain: seq<Cert>, visited: set<string>, c: Cert,
                         candidates: seq<Cert>): Outcome
    requires c.issuer !in visited
    requires forall x :: x in candidates ==> x in chain && x.subject == c.issuer
    decreases |Names(chain) - visited|, 0, |candidates|
  {
    if candidates == [] then Rest([])
    else if !pki.signed(c, candidates[0]) then Explore(pki, check, chain, visited, c, candidates[1..])
    else
      FewerNames(chain, visited, c.issuer, candidates[0]);
      match Search(pki, check, chain, visited + {c.issuer}, candidates[0])
      case None => Explore(pki, check, chain, visited, c, candidates[1..])
      case Some(v) =>
        if v.Unrevoked? then Found(candidates[0])
        else Prepend([(v, candidates[0])], Explore(pki, check, chain, visited, c, candidates[1..]))
  }

  function Prepend(results: seq<(Verdict, Cert)>, rest: Outcome): Outcome {
    match rest
    case Found(_) => rest
    case Rest(more) => Rest(results + more)
  }

  /** The first candidate whose own search ended in `Error`. */
  function FirstError(results: seq<(Verdict, Cert)>): (r: Option<Cert>)
    ensures r.Some? ==> (Error, r.value) in results
    ensures r.None? ==> forall x :: x in results ==> x.0 != Error
  {
    if results == [] then None
    else if results[0].0.Error? then Some(results[0].1)
    else FirstError(results[1..])
  }

  function Conclude(check: Check, c: Cert, outcome: Outcome): Verdict {
    match outcome
    case Found(issuer) => check(c, issuer)
    case Rest(results) =>
      if results == [] then Error
      else match FirstError(results)
           case Some(issuer) => if check(c, issuer).Revoked? then Revoked else Error
           case None => Revoked
  }

  /** Termination: a visited name that has a certificate in the chain leaves fewer to visit. */
  lemma FewerNames(chain: seq<Cert>, visited: set<string>, name: string, x: Cert)
    requires name !in visited && x in chain && x.subject == name
    ensures |Names(chain) - (visited + {name})| < |Names(chain) - visited|
  {
    assert Names(chain) - (visited + {name}) == (Names(chain) - visited) - {name};
    assert name in Names(chain) - visited;
  }

  // ---------------------------------------------------------------------------
  // Paths and walks

  /** A signature-verified path to a trusted anchor that steps through no issuer name twice. */
  ghost predicate SimplePath(pki: Pki, chain: seq<Cert>, visited: set<string>, path: seq<Cert>) {
    && path != [] && Terminal(pki, path[|path| - 1])
    && (forall i :: 0 <= i < |path| - 1 ==>
          path[i + 1] in Issuers(chain, path[i].issuer) && pki.signed(path[i], path[i + 1]))
    && (forall i :: 0 <= i < |path| - 1 ==> path[i].issuer !in visited)
    && (forall i, j :: 0 <= i < j < |path| - 1 ==> path[i].issuer != path[j].issuer)
  }

  /** The search cuts here: `c` leads only to a name already being visited. */
  predicate Cyclic(pki: Pki, visited: set<string>, c: Cert) {
    !Terminal(pki, c) && c.issuer in visited
  }

  predicate Step(pki: Pki, chain: seq<Cert>, visited: set<string>, c: Cert, d: Cert) {
    d in Issuers(chain, c.issuer) && pki.signed(c, d) && !Cyclic(pki, visited + {c.issuer}, d)
  }

  ghost predicate DeadEnd(pki: Pki, chain: seq<Cert>, visited: set<string>, c: Cert) {
    !Terminal(pki, c) && forall d :: !Step(pki, chain, visited, c, d)
  }

  /** A walk that goes on until it meets an anchor or a dead end. */
  ghost predicate Walk(pki: Pki, chain: seq<Cert>, visited: set<string>, walk: seq<Cert>)
    decreases |walk|
  {
    && walk != [] && !Cyclic(pki, visited, walk[0])
    && if Terminal(pki, walk[0]) || DeadEnd(pki, chain, visited, walk[0]) then |walk| == 1
       else |walk| > 1 && Step(pki, chain, visited, walk[0], walk[1])
            && Walk(pki, chain, visited + {walk[0].issuer}, walk[1..])
  }

  /** Some verified issuer of `c` gives it this verdict. */
  ghost predicate Judged(pki: Pki, check: Check, c: Cert, v: Verdict) {
    exists a :: pki.signed(c, a) && check(c, a) == v
  }

  /** Every verified issuer of `c` gives it this verdict. */
  ghost predicate Sure(pki: Pki, check: Check, c: Cert, v: Verdict) {
    forall a :: pki.signed(c, a) ==> check(c, a) == v
  }

  /** The verdict on a certificate does not depend on which of its verified issuers is used. */
  ghost predicate IssuerIndependent(pki: Pki, check: Check) {
    forall c, a, b :: pki.signed(c, a) && pki.signed(c, b) ==> check(c, a) == check(c, b)
  }

  ghost predicate Clean(pki: Pki, check: Check, path: seq<Cert>) {
    forall i :: 0 <= i < |path| ==> Trusted(pki, path[i]) || Judged(pki, check, path[i], Unrevoked)
  }

  ghost predicate SurelyClean(pki: Pki, check: Check, path: seq<Cert>) {
    forall i :: 0 <= i < |path| ==> Trusted(pki, path[i]) || Sure(pki, check, path[i], Unrevoked)
  }

  /** A revoked certificate on the walk that the search gets to judge: any but a final dead
      end, and not a trusted one. */
  ghost predicate Blocked(pki: Pki, check: Check, walk: seq<Cert>) {
    exists i :: 0 <= i < |walk| && !Trusted(pki, walk[i]) && Judged(pki, check, walk[i], Revoked)
                && (i < |walk| - 1 || Anchored(pki, walk[i]))
  }

  ghost predicate SurelyBlocked(pki: Pki, check: Check, walk: seq<Cert>) {
    exists i :: 0 <= i < |walk| && !Trusted(pki, walk[i]) && Sure(pki, check, walk[i], Revoked)
                && (i < |walk| - 1 || Anchored(pki, walk[i]))
  }
}
