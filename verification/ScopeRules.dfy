/** Which capture the members of a set belong to, and which members cannot form one, said of
    their fields alone. */
module ScopeRules {
  import opened Wrappers
  import opened SyncModels
  import opened IdentityResolution

  /** A V2 member with session, stream, sequence, uid and digest. */
  predicate Whole(f: SyncFrame)
  {
    && f.mode == V2 && Given(f.source.sessionId) && Given(f.source.cameraStreamId) && f.sequence.Some?
    && Given(f.sourceFrameUid) && Given(f.contentDigest)
  }

  predicate Unscoped(s: Scope)
  {
    && !Given(s.tenantId) && !Given(s.siteId) && !Given(s.captureSessionId) && !Given(s.processingJobId)
    && !Given(s.profileDigest) && !Given(s.authorizedSubject) && !Given(s.sessionTokenJti)
    && !Given(s.authorizedCameraId)
  }

  predicate FullyScoped(s: Scope)
  {
    && Given(s.tenantId) && Given(s.siteId) && Given(s.captureSessionId) && Given(s.processingJobId)
    && Given(s.profileDigest) && Given(s.authorizedSubject) && Given(s.sessionTokenJti)
    && Given(s.authorizedCameraId)
  }

  predicate SameGroup(a: Scope, b: Scope)
  {
    && a.tenantId == b.tenantId && a.siteId == b.siteId && a.captureSessionId == b.captureSessionId
    && a.processingJobId == b.processingJobId && a.profileDigest == b.profileDigest
  }

  predicate AllWhole(members: seq<SyncFrame>)
  {
    forall i | 0 <= i < |members| :: Whole(members[i])
  }

  predicate NoneScoped(members: seq<SyncFrame>)
  {
    forall i | 0 <= i < |members| :: Unscoped(members[i].scope)
  }

  /** Every member is fully scoped, and any two are of one group. */
  predicate Grouped(members: seq<SyncFrame>)
  {
    && (forall i | 0 <= i < |members| :: FullyScoped(members[i].scope))
    && (forall i, j | 0 <= i < |members| && 0 <= j < |members| :: SameGroup(members[i].scope, members[j].scope))
  }

  predicate CamerasReused(members: seq<SyncFrame>)
  {
    exists i, j | 0 <= i < j < |members| :: members[i].scope.authorizedCameraId == members[j].scope.authorizedCameraId
  }

  /** Some members come with a claim on their camera and others without. */
  predicate ClaimsMixed(members: seq<SyncFrame>)
  {
    && (exists i | 0 <= i < |members| :: Given(members[i].scope.cameraClaimId))
    && (exists i | 0 <= i < |members| :: !Given(members[i].scope.cameraClaimId))
  }

  /** The pairs are those of the members, in any order. */
  ghost predicate StreamConfigs(members: seq<SyncFrame>, pairs: multiset<(string, string)>)
  {
    exists listed: seq<(string, string)> ::
      && multiset(listed) == pairs && |listed| == |members|
      && forall i | 0 <= i < |members| ::
           && Some(listed[i].0) == members[i].source.cameraStreamId
           && listed[i].1 == match members[i].captureConfigDigest case None => "" case Some(digest) => digest
  }

  ghost predicate StreamSessions(members: seq<SyncFrame>, pairs: multiset<(string, string)>)
  {
    exists listed: seq<(string, string)> ::
      && multiset(listed) == pairs && |listed| == |members|
      && forall i | 0 <= i < |members| ::
           && Some(listed[i].0) == members[i].source.cameraStreamId
           && Some(listed[i].1) == members[i].source.sessionId
  }

  lemma WholeIsComplete(members: seq<SyncFrame>)
    ensures AllWhole(members) <==> forall i | 0 <= i < |members| :: members[i].IdentityComplete()
  {
    forall i | 0 <= i < |members| ensures Whole(members[i]) <==> members[i].IdentityComplete() {
    }
    hide Whole, SyncFrame.IdentityComplete;
  }

  lemma ScopesAre(members: seq<SyncFrame>)
    requires members != []
    ensures NoneScoped(members) <==> !Scoped(members)
    ensures Grouped(members) <==> OneGroup(members)
    ensures CamerasReused(members) <==> !CamerasDiffer(members)
    ensures ClaimsMixed(members) <==> AnyClaim(members) && !AllClaim(members)
  {
    forall i | 0 <= i < |members|
      ensures Unscoped(members[i].scope) <==> !AnyScope(members[i].scope)
      ensures FullyScoped(members[i].scope) <==> FullScope(members[i].scope)
      ensures SameGroup(members[i].scope, members[0].scope) <==> GroupOf(members[i].scope) == GroupOf(members[0].scope)
    {
    }
    hide Unscoped, FullyScoped, FullScope, AnyScope, GroupOf;
  }

  /** The members that cannot form a set, and why. */
  lemma {:induction false} ConflictExactly(members: seq<SyncFrame>)
    requires members != []
    ensures var resolution, scoped := Resolve(members), AllWhole(members) && !NoneScoped(members);
            && (resolution.ScopeConflict?
                <==> scoped && (!Grouped(members) || CamerasReused(members) || ClaimsMixed(members)))
            && (resolution.ScopeConflict? ==>
                  resolution.reason
                  == if !Grouped(members) then "authorization scope conflict across frame set"
                     else if CamerasReused(members) then "authorized camera was reused across frame set"
                     else "camera credential scope conflict across frame set")
  {
    WholeIsComplete(members);
    ScopesAre(members);
    hide AllWhole, NoneScoped, Scoped, Grouped, OneGroup, CamerasReused, CamerasDiffer, ClaimsMixed, AnyClaim, AllClaim,
      SyncFrame.IdentityComplete, ConfigKey, SourceSessions, AuthorizationOf;
  }

  /** One incomplete member makes a legacy set without session. */
  lemma {:induction false} LegacyExactly(members: seq<SyncFrame>)
    requires members != [] && Resolve(members).Resolved?
    ensures var identity := Resolve(members).identity;
            && (identity.mode == LEGACY <==> exists i :: 0 <= i < |members| && !Whole(members[i]))
            && (identity.mode == LEGACY ==> identity == CaptureIdentity(LEGACY, None, None, None))
  {
    WholeIsComplete(members);
    hide Whole, SyncFrame.IdentityComplete, ConfigKey, SourceSessions, AuthorizationOf, Scoped, OneGroup, CamerasDiffer,
      AnyClaim, AllClaim;
  }

  lemma ConfigsAre(members: seq<SyncFrame>)
    requires AllWhole(members)
    ensures StreamConfigs(members, ConfigKey(members))
  {
    var listed := seq(|members|, i requires 0 <= i < |members| =>
      (OrEmpty(members[i].source.cameraStreamId), OrEmpty(members[i].captureConfigDigest)));
    assert multiset(listed) == ConfigKey(members);
    forall i | 0 <= i < |members|
      ensures Some(listed[i].0) == members[i].source.cameraStreamId
      ensures listed[i].1 == match members[i].captureConfigDigest case None => "" case Some(digest) => digest
    {
      assert Whole(members[i]);
      assert listed[i] == (OrEmpty(members[i].source.cameraStreamId), OrEmpty(members[i].captureConfigDigest));
    }
    assert |listed| == |members|;
  }

  lemma SessionsAre(members: seq<SyncFrame>)
    requires AllWhole(members)
    ensures StreamSessions(members, SourceSessions(members))
  {
    var listed := seq(|members|, i requires 0 <= i < |members| =>
      (OrEmpty(members[i].source.cameraStreamId), OrEmpty(members[i].source.sessionId)));
    assert multiset(listed) == SourceSessions(members);
    forall i | 0 <= i < |members|
      ensures Some(listed[i].0) == members[i].source.cameraStreamId && Some(listed[i].1) == members[i].source.sessionId
    {
      assert Whole(members[i]);
      assert listed[i] == (OrEmpty(members[i].source.cameraStreamId), OrEmpty(members[i].source.sessionId));
    }
    assert |listed| == |members|;
  }

  /** Members without any scope: the session is derived from their streams and sessions. */
  lemma {:induction false} UnscopedIdentity(members: seq<SyncFrame>)
    requires members != [] && AllWhole(members) && NoneScoped(members)
    ensures var resolution := Resolve(members);
            && resolution.Resolved? && resolution.identity.mode == V2
            && resolution.identity.sessionId.Some? && resolution.identity.sessionId.value.Derived?
            && StreamSessions(members, resolution.identity.sessionId.value.sources)
            && resolution.identity.configKey.Some?
            && StreamConfigs(members, resolution.identity.configKey.value)
            && resolution.identity.authorization.None?
  {
    WholeIsComplete(members);
    ScopesAre(members);
    ConfigsAre(members);
    SessionsAre(members);
    hide AllWhole, NoneScoped, Scoped, StreamSessions, StreamConfigs, SyncFrame.IdentityComplete, ConfigKey,
      SourceSessions;
  }

  /** All members show the same credentials, and none of them a claim on its camera. */
  predicate ShareCredentials(members: seq<SyncFrame>)
  {
    && (forall i | 0 <= i < |members| :: !Given(members[i].scope.cameraClaimId))
    && (forall i, j | 0 <= i < |members| && 0 <= j < |members| ::
          && members[i].scope.authorizedSubject == members[j].scope.authorizedSubject
          && members[i].scope.sessionTokenJti == members[j].scope.sessionTokenJti)
  }

  lemma CredentialsAre(members: seq<SyncFrame>)
    requires members != []
    ensures ShareCredentials(members) <==> OneParticipant(members) && !AnyClaim(members)
  {
  }

  /** Scoped members that form a set: the session is the declared one, the authorization theirs,
      with credentials only if all members share them. */
  lemma {:induction false} ScopedIdentity(members: seq<SyncFrame>, i: nat)
    requires i < |members| && AllWhole(members) && !NoneScoped(members) && Resolve(members).Resolved?
    ensures var identity, scope := Resolve(members).identity, members[i].scope;
            && identity.mode == V2 && scope.captureSessionId.Some?
            && identity.sessionId == Some(Declared(scope.captureSessionId.value))
            && identity.configKey.Some? && StreamConfigs(members, identity.configKey.value)
            && identity.authorization
               == Some(AuthorizationKey(
                    scope.tenantId, scope.siteId, scope.captureSessionId, scope.processingJobId, scope.profileDigest,
                    if ShareCredentials(members) then scope.authorizedSubject else None,
                    if ShareCredentials(members) then scope.sessionTokenJti else None))
  {
    ConflictExactly(members);
    assert FullyScoped(members[i].scope) && SameGroup(members[i].scope, members[0].scope);
    WholeIsComplete(members);
    ScopesAre(members);
    ConfigsAre(members);
    CredentialsAre(members);
    assert ShareCredentials(members) ==>
        members[i].scope.authorizedSubject == members[0].scope.authorizedSubject
        && members[i].scope.sessionTokenJti == members[0].scope.sessionTokenJti;
    hide AllWhole, NoneScoped, Scoped, Grouped, OneGroup, CamerasReused, CamerasDiffer, ClaimsMixed, AnyClaim, AllClaim,
      SyncFrame.IdentityComplete, ConfigKey, SourceSessions, StreamConfigs, ShareCredentials, OneParticipant;
  }
}
