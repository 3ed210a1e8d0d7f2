/** Which capture the members of a selection belong to, or why they cannot form a set. */
module IdentityResolution {
  import opened Wrappers
  import opened SyncModels

  datatype Resolution =
    | Resolved(identity: CaptureIdentity)
    | ScopeConflict(reason: string)

  /** The part of the scope that all members must share. */
  datatype GroupKey = GroupKey(
    tenantId: Option<string>,
    siteId: Option<string>,
    captureSessionId: Option<string>,
    processingJobId: Option<string>,
    profileDigest: Option<string>)

  function GroupOf(scope: Scope): GroupKey
  {
    GroupKey(scope.tenantId, scope.siteId, scope.captureSessionId, scope.processingJobId, scope.profileDigest)
  }

  predicate AnyScope(scope: Scope)
  {
    || Truthy(scope.tenantId) || Truthy(scope.siteId) || Truthy(scope.captureSessionId)
    || Truthy(scope.processingJobId) || Truthy(scope.profileDigest)
    || Truthy(scope.authorizedSubject) || Truthy(scope.sessionTokenJti) || Truthy(scope.authorizedCameraId)
  }

  predicate FullScope(scope: Scope)
  {
    && Truthy(scope.tenantId) && Truthy(scope.siteId) && Truthy(scope.captureSessionId)
    && Truthy(scope.processingJobId) && Truthy(scope.profileDigest)
    && Truthy(scope.authorizedSubject) && Truthy(scope.sessionTokenJti) && Truthy(scope.authorizedCameraId)
  }

  predicate Scoped(members: seq<SyncFrame>)
  {
    exists i | 0 <= i < |members| :: AnyScope(members[i].scope)
  }

  /** All members are fully scoped and their group keys agree. */
  predicate OneGroup(members: seq<SyncFrame>)
  {
    forall i | 0 <= i < |members| ::
      FullScope(members[i].scope) && GroupOf(members[i].scope) == GroupOf(members[0].scope)
  }

  predicate CamerasDiffer(members: seq<SyncFrame>)
  {
    forall i, j | 0 <= i < j < |members| :: members[i].scope.authorizedCameraId != members[j].scope.authorizedCameraId
  }

  predicate AnyClaim(members: seq<SyncFrame>)
  {
    exists i | 0 <= i < |members| :: Truthy(members[i].scope.cameraClaimId)
  }

  predicate AllClaim(members: seq<SyncFrame>)
  {
    forall i | 0 <= i < |members| :: Truthy(members[i].scope.cameraClaimId)
  }

  function Participant(scope: Scope): (Option<string>, Option<string>)
  {
    (scope.authorizedSubject, scope.sessionTokenJti)
  }

  predicate OneParticipant(members: seq<SyncFrame>)
  {
    forall i | 0 <= i < |members| :: Participant(members[i].scope) == Participant(members[0].scope)
  }

  /** The sorted (camera stream, configuration) pairs of the members, as a multiset. */
  function ConfigKey(members: seq<SyncFrame>): multiset<(string, string)>
  {
    multiset(seq(|members|, i requires 0 <= i < |members| =>
      (OrEmpty(members[i].source.cameraStreamId), OrEmpty(members[i].captureConfigDigest))))
  }

  /** The sorted (camera stream, source session) pairs of the members, as a multiset. */
  function SourceSessions(members: seq<SyncFrame>): multiset<(string, string)>
  {
    multiset(seq(|members|, i requires 0 <= i < |members| =>
      (OrEmpty(members[i].source.cameraStreamId), OrEmpty(members[i].source.sessionId))))
  }

  function AuthorizationOf(members: seq<SyncFrame>): AuthorizationKey
    requires members != []
  {
    var scope := members[0].scope;
    var (subject, jti) := if OneParticipant(members) && !AnyClaim(members) then Participant(scope) else (None, None);
    AuthorizationKey(
      scope.tenantId, scope.siteId, scope.captureSessionId, scope.processingJobId, scope.profileDigest, subject, jti)
  }

  const LEGACY_IDENTITY := CaptureIdentity(LEGACY, None, None, None)

  function Resolve(members: seq<SyncFrame>): Resolution
    requires members != []
  {
    if !(forall i | 0 <= i < |members| :: members[i].IdentityComplete()) then
      Resolved(LEGACY_IDENTITY)
    else if !Scoped(members) then
      Resolved(CaptureIdentity(V2, Some(Derived(SourceSessions(members))), Some(ConfigKey(members)), None))
    else if !OneGroup(members) then
      ScopeConflict("authorization scope conflict across frame set")
    else if !CamerasDiffer(members) then
      ScopeConflict("authorized camera was reused across frame set")
    else if AnyClaim(members) && !AllClaim(members) then
      ScopeConflict("camera credential scope conflict across frame set")
    else
      var authorization := AuthorizationOf(members);
      Resolved(CaptureIdentity(
        V2, Some(Declared(OrEmpty(authorization.captureSessionId))), Some(ConfigKey(members)), Some(authorization)))
  }

  /** `b` is `a` after some members renewed their credentials. */
  predicate Renewed(a: seq<SyncFrame>, b: seq<SyncFrame>)
  {
    && |a| == |b|
    && forall i | 0 <= i < |a| ::
      && Truthy(b[i].scope.authorizedSubject) && Truthy(b[i].scope.sessionTokenJti)
      && Truthy(a[i].scope.authorizedSubject) && Truthy(a[i].scope.sessionTokenJti)
      && b[i] == a[i].(scope := a[i].scope.(
           authorizedSubject := b[i].scope.authorizedSubject,
           sessionTokenJti := b[i].scope.sessionTokenJti))
  }

  lemma RenewalKeepsScope(a: seq<SyncFrame>, b: seq<SyncFrame>)
    requires a != [] && Renewed(a, b) && AllClaim(a)
    ensures OneGroup(a) == OneGroup(b) && CamerasDiffer(a) == CamerasDiffer(b)
    ensures Scoped(a) && Scoped(b) && AnyClaim(a) && AnyClaim(b) && AllClaim(b)
  {
    forall i | 0 <= i < |a|
      ensures GroupOf(a[i].scope) == GroupOf(b[i].scope) && FullScope(a[i].scope) == FullScope(b[i].scope)
    {
    }
    assert Truthy(a[0].scope.cameraClaimId) && Truthy(b[0].scope.cameraClaimId);
    assert AnyScope(a[0].scope) && AnyScope(b[0].scope);
  }

  lemma RenewalKeepsKeys(a: seq<SyncFrame>, b: seq<SyncFrame>)
    requires Renewed(a, b)
    ensures ConfigKey(a) == ConfigKey(b)
    ensures (forall i | 0 <= i < |a| :: a[i].IdentityComplete()) == (forall i | 0 <= i < |b| :: b[i].IdentityComplete())
  {
    assert seq(|a|, i requires 0 <= i < |a| =>
      (OrEmpty(a[i].source.cameraStreamId), OrEmpty(a[i].captureConfigDigest)))
        == seq(|b|, i requires 0 <= i < |b| =>
      (OrEmpty(b[i].source.cameraStreamId), OrEmpty(b[i].captureConfigDigest)));
    forall i | 0 <= i < |a| ensures a[i].IdentityComplete() == b[i].IdentityComplete() {
    }
  }

  /** Members with camera claims keep their capture identity, and so their run, when
      their short-lived tokens are renewed. */
  lemma {:induction false} RenewalKeepsIdentity(a: seq<SyncFrame>, b: seq<SyncFrame>)
    requires a != [] && Renewed(a, b) && AllClaim(a)
    ensures Resolve(a) == Resolve(b)
  {
    RenewalKeepsScope(a, b);
    RenewalKeepsKeys(a, b);
    hide OneGroup, CamerasDiffer, Scoped, AnyClaim, AllClaim, ConfigKey;
    assert AuthorizationOf(a) == AuthorizationOf(b);
  }
}
