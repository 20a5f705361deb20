/**
 The policy documents generated for hosted artifact storage, and what they mean to IAM: an
 explicit deny wins, then any allow, otherwise an implicit deny.
 */
module AwsPolicies {
  import opened Wrappers

  // ----- policy documents -----

  datatype Action = Action(service: string, name: string)

  /** `service:*` or one action. */
  datatype ActionPattern = AllOf(service: string) | Only(action: Action)

  datatype Key =
    | SecureTransport | PrincipalArn | IfNoneMatch | SourceAccount | SourceArn | IssuerCommonName | SubjectCommonName

  datatype Condition =
    | Bool(key: Key, value: string)
    | ArnNotEquals(key: Key, value: string)
    | ArnEquals(key: Key, value: string)
    | StringEquals(key: Key, value: string)
    | Null(key: Key)  // holds when the key is absent

  datatype Effect = Allow | Deny

  datatype Statement = Statement(effect: Effect, actions: seq<ActionPattern>, resources: seq<string>, conditions: seq<Condition>)

  // ----- what they mean -----

  datatype Request = Request(action: Action, resource: string, context: map<Key, string>)

  /** Resource patterns: `*` stands for any text and `?` for any one character. */
  ghost predicate Glob(pattern: string, text: string)
    decreases |pattern|
  {
    if pattern == "" then text == ""
    else if pattern[0] == '*' then exists k :: 0 <= k <= |text| && Glob(pattern[1..], text[k..])
    else text != "" && (pattern[0] == '?' || pattern[0] == text[0]) && Glob(pattern[1..], text[1..])
  }

  predicate Covers(p: ActionPattern, a: Action) {
    match p
    case AllOf(service) => a.service == service
    case Only(action) => a == action
  }

  /** A negated operator holds when its key is missing; the others need it. */
  predicate Holds(c: Condition, context: map<Key, string>) {
    match c
    case Bool(key, value) => key in context && context[key] == value
    case ArnNotEquals(key, value) => key !in context || context[key] != value
    case ArnEquals(key, value) => key in context && context[key] == value
    case StringEquals(key, value) => key in context && context[key] == value
    case Null(key) => key !in context
  }

  ghost predicate Applies(s: Statement, r: Request) {
    && (exists p :: p in s.actions && Covers(p, r.action))
    && (exists pattern :: pattern in s.resources && Glob(pattern, r.resource))
    && (forall c :: c in s.conditions ==> Holds(c, r.context))
  }

  datatype Decision = Allowed | ExplicitDeny | ImplicitDeny

  ghost function Evaluate(identity: seq<Statement>, resource: seq<Statement>, r: Request): Decision {
    if exists s :: (s in identity || s in resource) && s.effect == Deny && Applies(s, r) then ExplicitDeny
    else if exists s :: (s in identity || s in resource) && s.effect == Allow && Applies(s, r) then Allowed
    else ImplicitDeny
  }

  // ----- the generator -----

  const PUT := Action("s3", "PutObject")
  const GET := Action("s3", "GetObject")
  const LIST := Action("s3", "ListBucket")
  const GET_PROFILE := Action("rolesanywhere", "GetProfile")

  datatype RoleRow = RoleRow(arn: string, policyArn: string, partition: string, account: string)

  datatype Roles = Roles(runtime: RoleRow, readiness: RoleRow, negative: RoleRow)

  /** The text after the last slash. */
  function Basename(arn: string): string
    decreases |arn|
  {
    if arn == "" || arn[|arn| - 1] == '/' then "" else Basename(arn[..|arn| - 1]) + [arn[|arn| - 1]]
  }

  /** Three roles, only when their ARNs and their certificate names are all different. */
  function RoleArns(roles: Roles): Option<seq<string>> {
    var arns := [roles.runtime.arn, roles.readiness.arn, roles.negative.arn];
    if |set a | a in arns| != 3 then None else
    var basenames := [Basename(arns[0]), Basename(arns[1]), Basename(arns[2])];
    if |set b | b in basenames| != 3 then None else Some(arns)
  }

  function BucketArn(partition: string, bucket: string): string { "arn:" + partition + ":s3:::" + bucket }

  function ObjectPrefix(partition: string, bucket: string, privatePrefix: string): string {
    BucketArn(partition, bucket) + "/" + privatePrefix + "/sha256/"
  }

  function ObjectArn(partition: string, bucket: string, privatePrefix: string): string {
    ObjectPrefix(partition, bucket, privatePrefix) + "*"
  }

  function AllowOne(action: Action, resource: string): Statement {
    Statement(Allow, [Only(action)], [resource], [])
  }

  function RuntimePolicy(bucketArn: string, objectArn: string): seq<Statement> {
    [AllowOne(PUT, objectArn), AllowOne(GET, objectArn), AllowOne(LIST, bucketArn)]
  }

  function AllowEach(pairs: seq<(Action, string)>): seq<Statement> {
    seq(|pairs|, i requires 0 <= i < |pairs| => AllowOne(pairs[i].0, pairs[i].1))
  }

  function Cross(actions: seq<Action>, resources: seq<string>): seq<(Action, string)> {
    if actions == [] then []
    else seq(|resources|, i requires 0 <= i < |resources| => (actions[0], resources[i])) + Cross(actions[1..], resources)
  }

  function ReadinessPairs(roles: Roles, bucketArn: string, trustAnchorArn: string): seq<(Action, string)> {
    Cross([Action("s3", "GetBucketPolicy"), Action("s3", "GetBucketPolicyStatus"), Action("s3", "GetBucketAcl"),
           Action("s3", "GetBucketPublicAccessBlock"), Action("s3", "GetBucketOwnershipControls"),
           Action("s3", "GetBucketVersioning"), Action("s3", "GetLifecycleConfiguration"),
           Action("s3", "GetEncryptionConfiguration")], [bucketArn])
    + Cross([Action("iam", "GetRole"), Action("iam", "ListRolePolicies"), Action("iam", "ListAttachedRolePolicies")],
            [roles.runtime.arn, roles.readiness.arn, roles.negative.arn])
    + Cross([Action("iam", "GetPolicy"), Action("iam", "GetPolicyVersion")],
            [roles.runtime.policyArn, roles.readiness.policyArn])
    + Cross([Action("access-analyzer", "ValidatePolicy"), Action("access-analyzer", "CheckAccessNotGranted"),
             Action("access-analyzer", "CheckNoPublicAccess")], ["*"])
    + [(Action("rolesanywhere", "GetTrustAnchor"), trustAnchorArn)]
  }

  function BucketPolicy(bucketArn: string, objectArn: string, runtimeArn: string): seq<Statement> {
    [Statement(Deny, [AllOf("s3")], [bucketArn, objectArn], [Bool(SecureTransport, "false")]),
     Statement(Deny, [AllOf("s3")], [objectArn], [ArnNotEquals(PrincipalArn, runtimeArn)]),
     Statement(Deny, [Only(PUT)], [objectArn], [Null(IfNoneMatch)])]
  }

  datatype Templates = Templates(runtime: seq<Statement>, readiness: seq<Statement>, bucket: seq<Statement>)

  /** The three artifact policies; the profile statement is added once the profile exists. */
  function ArtifactTemplates(partition: string, bucket: string, privatePrefix: string, roles: Roles,
                             trustAnchorArn: string, profileArn: Option<string>): Templates
  {
    var bucketArn := BucketArn(partition, bucket);
    var objectArn := ObjectArn(partition, bucket, privatePrefix);
    var pairs := ReadinessPairs(roles, bucketArn, trustAnchorArn)
                 + (if profileArn.Some? then [(GET_PROFILE, profileArn.value)] else []);
    Templates(RuntimePolicy(bucketArn, objectArn), AllowEach(pairs),
              BucketPolicy(bucketArn, objectArn, roles.runtime.arn))
  }

  const ISSUER: string := "Workstream Artifact Root CA"

  /** The one statement under which Roles Anywhere may assume a role. */
  function TrustPolicy(trustAnchorArn: string, account: string, issuer: string, subject: string): Statement {
    Statement(Allow,
              [Only(Action("sts", "AssumeRole")), Only(Action("sts", "SetSourceIdentity")), Only(Action("sts", "TagSession"))],
              ["*"],
              [StringEquals(SourceAccount, account), StringEquals(IssuerCommonName, issuer),
               StringEquals(SubjectCommonName, subject), ArnEquals(SourceArn, trustAnchorArn)])
  }

  // ----- patterns -----

  /** No wildcard, as every canonical bucket, prefix and role name. */
  predicate Literal(s: string) { forall i :: 0 <= i < |s| ==> s[i] != '*' && s[i] != '?' }

  predicate StartsWith(s: string, prefix: string) { |prefix| <= |s| && s[..|prefix|] == prefix }

  lemma {:induction false} LiteralGlob(pattern: string, text: string)
    requires Literal(pattern)
    ensures Glob(pattern, text) <==> text == pattern
    decreases |pattern|
  {
    if pattern != "" {
      if text != "" {
        LiteralGlob(pattern[1..], text[1..]);
        assert text == [text[0]] + text[1..] && pattern == [pattern[0]] + pattern[1..];
      }
    }
  }

  lemma StarMatchesAll(text: string)
    ensures Glob("*", text)
  {
    assert "*"[1..] == "" && text[|text|..] == "";
    assert Glob("*"[1..], text[|text|..]);
  }

  lemma {:induction false} PrefixGlob(prefix: string, text: string)
    requires Literal(prefix)
    ensures Glob(prefix + "*", text) <==> StartsWith(text, prefix)
    decreases |prefix|
  {
    var pattern := prefix + "*";
    if prefix == "" {
      assert pattern == "*";
      StarMatchesAll(text);
    } else {
      assert pattern[1..] == prefix[1..] + "*";
      if text != "" {
        PrefixGlob(prefix[1..], text[1..]);
        if StartsWith(text, prefix) { assert text[1..][..|prefix| - 1] == prefix[1..]; }
        if StartsWith(text[1..], prefix[1..]) && text[0] == prefix[0] {
          assert text[..|prefix|] == [text[0]] + text[1..][..|prefix| - 1];
        }
      }
    }
  }
}
