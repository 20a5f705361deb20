/**
 What the generated policies permit, for every request and whatever other identity policies say.
 */
module AwsGuarantees {
  import opened Wrappers
  import opened AwsPolicies

  /** One deployment: the inputs every policy is built from. */
  datatype Deployment = Deployment(partition: string, bucket: string, privatePrefix: string, roles: Roles, trustAnchorArn: string)
  {
    function Bucket(): string { BucketArn(partition, bucket) }

    function Objects(): string { ObjectPrefix(partition, bucket, privatePrefix) }

    function Final(profileArn: Option<string>): Templates {
      ArtifactTemplates(partition, bucket, privatePrefix, roles, trustAnchorArn, profileArn)
    }

    /** Canonical partitions, buckets and prefixes hold no wildcard. */
    predicate Canonical() { Literal(Bucket()) && Literal(Objects()) }
  }

  predicate Insecure(r: Request) { SecureTransport in r.context && r.context[SecureTransport] == "false" }

  predicate ByRuntime(d: Deployment, r: Request) {
    PrincipalArn in r.context && r.context[PrincipalArn] == d.roles.runtime.arn
  }

  predicate OnObject(d: Deployment, r: Request) { StartsWith(r.resource, d.Objects()) }

  /** A request the bucket policy refuses. */
  predicate Barred(d: Deployment, r: Request) {
    r.action.service == "s3" &&
    (|| (Insecure(r) && (r.resource == d.Bucket() || OnObject(d, r)))
     || (OnObject(d, r) && !ByRuntime(d, r))
     || (OnObject(d, r) && r.action == PUT && IfNoneMatch !in r.context))
  }

  lemma DenyApplies(s: Statement, r: Request)
    requires |s.actions| == 1 && |s.conditions| == 1
    ensures Applies(s, r) <==>
            && Covers(s.actions[0], r.action)
            && (exists pattern :: pattern in s.resources && Glob(pattern, r.resource))
            && Holds(s.conditions[0], r.context)
  {
    assert s.actions[0] in s.actions && s.conditions[0] in s.conditions;
  }

  lemma ObjectPattern(d: Deployment, r: Request)
    requires d.Canonical()
    ensures Glob(d.Objects() + "*", r.resource) <==> OnObject(d, r)
    ensures Glob(d.Bucket(), r.resource) <==> r.resource == d.Bucket()
  {
    PrefixGlob(d.Objects(), r.resource);
    LiteralGlob(d.Bucket(), r.resource);
  }

  lemma BucketStatements(d: Deployment, r: Request)
    requires d.Canonical()
    ensures var policy := BucketPolicy(d.Bucket(), d.Objects() + "*", d.roles.runtime.arn);
            && (Applies(policy[0], r) <==> r.action.service == "s3" && Insecure(r) && (r.resource == d.Bucket() || OnObject(d, r)))
            && (Applies(policy[1], r) <==> r.action.service == "s3" && OnObject(d, r) && !ByRuntime(d, r))
            && (Applies(policy[2], r) <==> r.action == PUT && OnObject(d, r) && IfNoneMatch !in r.context)
  {
    var policy := BucketPolicy(d.Bucket(), d.Objects() + "*", d.roles.runtime.arn);
    ObjectPattern(d, r);
    DenyApplies(policy[0], r);
    DenyApplies(policy[1], r);
    DenyApplies(policy[2], r);
    assert policy[0].resources[0] == d.Bucket() && policy[0].resources[1] == d.Objects() + "*";
    assert policy[1].resources[0] == d.Objects() + "*" && policy[2].resources[0] == d.Objects() + "*";
  }

  lemma BucketDenies(d: Deployment, r: Request)
    requires d.Canonical()
    ensures (exists s :: s in d.Final(None).bucket && Applies(s, r)) <==> Barred(d, r)
    ensures forall s :: s in d.Final(None).bucket ==> s.effect == Deny
  {
    BucketStatements(d, r);
    var policy := BucketPolicy(d.Bucket(), d.Objects() + "*", d.roles.runtime.arn);
    assert d.Final(None).bucket == policy;
    assert policy[0] in policy && policy[1] in policy && policy[2] in policy;
  }

  /** The bucket policy is exactly a guard: whatever identity policies a principal holds, a barred
      request is denied outright, and any other request is decided by those policies alone. */
  lemma BucketPolicyIsGuard(d: Deployment, profileArn: Option<string>, identity: seq<Statement>, r: Request)
    requires d.Canonical()
    ensures Evaluate(identity, d.Final(profileArn).bucket, r) ==
            if Barred(d, r) then ExplicitDeny else Evaluate(identity, [], r)
  {
    BucketDenies(d, r);
    assert d.Final(profileArn).bucket == d.Final(None).bucket;
  }

  /** Only the runtime role touches artifact objects, only over secure transport, and only writes
      with a precondition, whatever identity policies other principals hold. */
  lemma ObjectsOnlyByRuntime(d: Deployment, profileArn: Option<string>, identity: seq<Statement>, r: Request)
    requires d.Canonical() && r.action.service == "s3" && OnObject(d, r)
    requires Evaluate(identity, d.Final(profileArn).bucket, r) != ExplicitDeny
    ensures ByRuntime(d, r) && !Insecure(r) && (r.action == PUT ==> IfNoneMatch in r.context)
  {
    BucketPolicyIsGuard(d, profileArn, identity, r);
  }

  lemma AllowApplies(action: Action, resource: string, r: Request)
    ensures Applies(AllowOne(action, resource), r) <==> r.action == action && Glob(resource, r.resource)
  {
    var s := AllowOne(action, resource);
    assert s.actions[0] in s.actions && s.resources[0] in s.resources;
  }

  /** With its generated identity policy the runtime role may do exactly this: read and write
      objects under the prefix and list the bucket, unless the bucket policy bars the request. */
  lemma RuntimeMayExactly(d: Deployment, profileArn: Option<string>, r: Request)
    requires d.Canonical()
    ensures Evaluate(d.Final(profileArn).runtime, d.Final(profileArn).bucket, r) == Allowed <==>
            && ((r.action in {PUT, GET} && OnObject(d, r)) || (r.action == LIST && r.resource == d.Bucket()))
            && !Barred(d, r)
  {
    var policy := d.Final(profileArn).runtime;
    BucketPolicyIsGuard(d, profileArn, policy, r);
    ObjectPattern(d, r);
    AllowApplies(PUT, d.Objects() + "*", r);
    AllowApplies(GET, d.Objects() + "*", r);
    AllowApplies(LIST, d.Bucket(), r);
    ThreeAllows(AllowOne(PUT, d.Objects() + "*"), AllowOne(GET, d.Objects() + "*"), AllowOne(LIST, d.Bucket()), r);
    assert policy == [AllowOne(PUT, d.Objects() + "*"), AllowOne(GET, d.Objects() + "*"), AllowOne(LIST, d.Bucket())];
  }

  lemma ThreeAllows(a: Statement, b: Statement, c: Statement, r: Request)
    requires a.effect == Allow && b.effect == Allow && c.effect == Allow
    ensures Evaluate([a, b, c], [], r) == Allowed <==> Applies(a, r) || Applies(b, r) || Applies(c, r)
  {
    var policy := [a, b, c];
    assert policy[0] in policy && policy[1] in policy && policy[2] in policy;
  }

  // ----- certificates -----

  lemma ThreeDistinct(a: string, b: string, c: string)
    ensures |set x | x in [a, b, c]| == 3 <==> a != b && a != c && b != c
  {
    var s := set x | x in [a, b, c];
    assert s == {a, b, c};
    if a == b { assert s == {a, c}; } else if a == c { assert s == {a, b}; } else if b == c { assert s == {a, b}; }
  }

  /** Role rows are accepted exactly when both the ARNs and the certificate names differ pairwise. */
  lemma RoleArnsDistinct(roles: Roles)
    ensures var a, b, c := roles.runtime.arn, roles.readiness.arn, roles.negative.arn;
            RoleArns(roles).Some? <==>
            && a != b && a != c && b != c
            && Basename(a) != Basename(b) && Basename(a) != Basename(c) && Basename(b) != Basename(c)
  {
    ThreeDistinct(roles.runtime.arn, roles.readiness.arn, roles.negative.arn);
    ThreeDistinct(Basename(roles.runtime.arn), Basename(roles.readiness.arn), Basename(roles.negative.arn));
  }

  function TrustOf(d: Deployment, role: RoleRow): Statement {
    TrustPolicy(d.trustAnchorArn, role.account, ISSUER, Basename(role.arn))
  }

  predicate OneOf(roles: Roles, role: RoleRow) { role in {roles.runtime, roles.readiness, roles.negative} }

  /** The two requests are made with certificates of the same subject. */
  predicate SameSubject(r: Request, q: Request) {
    SubjectCommonName in r.context && SubjectCommonName in q.context && r.context[SubjectCommonName] == q.context[SubjectCommonName]
  }

  /** No certificate opens two roles, whatever else the requests made with it say. */
  lemma CertificateOpensOneRole(d: Deployment, a: RoleRow, b: RoleRow, r: Request, q: Request)
    requires RoleArns(d.roles).Some? && OneOf(d.roles, a) && OneOf(d.roles, b) && SameSubject(r, q)
    requires Applies(TrustOf(d, a), r) && Applies(TrustOf(d, b), q)
    ensures a == b
  {
    RoleArnsDistinct(d.roles);
    assert StringEquals(SubjectCommonName, Basename(a.arn)) == TrustOf(d, a).conditions[2];
    assert StringEquals(SubjectCommonName, Basename(b.arn)) == TrustOf(d, b).conditions[2];
    assert TrustOf(d, a).conditions[2] in TrustOf(d, a).conditions;
    assert TrustOf(d, b).conditions[2] in TrustOf(d, b).conditions;
  }

  // ----- bootstrap and final templates -----

  /** The final templates leave the runtime and bucket policies as they were and extend what the
      readiness role may do by reading the one profile, for every request. */
  lemma FinalExtendsBootstrap(d: Deployment, profileArn: string, resource: seq<Statement>, r: Request)
    ensures d.Final(Some(profileArn)).runtime == d.Final(None).runtime
    ensures d.Final(Some(profileArn)).bucket == d.Final(None).bucket
    ensures d.Final(Some(profileArn)).readiness == d.Final(None).readiness + [AllowOne(GET_PROFILE, profileArn)]
    ensures Evaluate(d.Final(Some(profileArn)).readiness, resource, r) ==
            if Evaluate(d.Final(None).readiness, resource, r) == ImplicitDeny
               && r.action == GET_PROFILE && Glob(profileArn, r.resource)
            then Allowed else Evaluate(d.Final(None).readiness, resource, r)
  {
    var pairs := ReadinessPairs(d.roles, d.Bucket(), d.trustAnchorArn);
    var extra := [(GET_PROFILE, profileArn)];
    EachConcat(pairs, extra);
    EachConcat(pairs, []);
    assert AllowEach(extra) == [AllowOne(GET_PROFILE, profileArn)];
    OneMoreAllow(d.Final(None).readiness, AllowOne(GET_PROFILE, profileArn), resource, r);
    AllowApplies(GET_PROFILE, profileArn, r);
  }

  lemma EachConcat(a: seq<(Action, string)>, b: seq<(Action, string)>)
    ensures AllowEach(a + b) == AllowEach(a) + AllowEach(b)
  {
  }

  lemma OneMoreAllow(identity: seq<Statement>, s: Statement, resource: seq<Statement>, r: Request)
    requires s.effect == Allow
    ensures Evaluate(identity + [s], resource, r) ==
            if Evaluate(identity, resource, r) == ImplicitDeny && Applies(s, r) then Allowed else Evaluate(identity, resource, r)
  {
    assert forall x :: x in identity + [s] <==> x in identity || x == s;
  }
}
