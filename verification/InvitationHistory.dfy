/**
 Who may open an invitation, and what its link's row says about the requests that led to it, over every
 run from an empty table.
 */
module InvitationHistory {
  import opened Wrappers
  import Slugs
  import opened Invitations
  import opened InvitationRuns

  // ---- Who may open a link --------------------------------------------------------------------------

  /** The visitor gave the address the link was mailed to, up to case and surrounding space. */
  predicate GivesAddress(email: Option<string>, address: string) {
    email.Some? && Slugs.Lower(Slugs.Trim(email.value)) == Slugs.Lower(address)
  }

  predicate Addressed(link: Link) {
    link.recipientEmail.Some? && link.recipientEmail.value != ""
  }

  lemma {:induction false} LowerOfNothing(s: string)
    ensures Slugs.Lower(s) == "" <==> s == ""
  {
  }

  /**
   When a token opens a link: one that has this token, is for this recipient, is neither revoked nor
   past its expiry, and, unless it was mailed to nobody, for a visitor who gives its address.
   */
  lemma OpensExactlyWhen(links: seq<Link>, i: nat, now: int, email: Option<string>, recipient: Recipient)
    requires TokensSound(links) && i < |links|
    ensures var link := links[i];
            Resolve(links, now, link.secret, email, recipient) == Ok(i) <==>
              && link.linkType == recipient && link.status != Revoked && now <= link.expiresAt
              && (Addressed(link) ==> GivesAddress(email, link.recipientEmail.value))
  {
    TokenFindsItsLink(links, i);
    if Addressed(links[i]) {
      LowerOfNothing(links[i].recipientEmail.value);
    }
  }

  /** A token opens nothing but the link it was mailed in. */
  lemma OpensOnlyItsLink(links: seq<Link>, i: nat, now: int, rawToken: nat, email: Option<string>, recipient: Recipient)
    requires TokensSound(links) && Resolve(links, now, rawToken, email, recipient) == Ok(i)
    ensures i < |links| && rawToken == links[i].secret
  {
    assert Columns(links[i]);
  }

  /** On a link that is otherwise open, a mismatch is answered exactly to those who do not give its address. */
  lemma MismatchExactlyWhen(links: seq<Link>, i: nat, now: int, email: Option<string>)
    requires TokensSound(links) && i < |links| && Addressed(links[i])
    requires links[i].status != Revoked && now <= links[i].expiresAt
    ensures Resolve(links, now, links[i].secret, email, links[i].linkType) == Err(EmailMismatch)
       <==> !GivesAddress(email, links[i].recipientEmail.value)
  {
    TokenFindsItsLink(links, i);
    LowerOfNothing(links[i].recipientEmail.value);
  }

  /** The other refusals, in the order of the code. */
  lemma RefusalsExactlyWhen(links: seq<Link>, i: nat, now: int, email: Option<string>, recipient: Recipient)
    requires TokensSound(links) && i < |links|
    ensures var link, found := links[i], Resolve(links, now, links[i].secret, email, recipient);
            && (found == Err(InvalidLink) <==> link.linkType != recipient || (link.tokenHash.None? && link.status == Revoked))
            && (found == Err(LinkRevoked) <==> link.linkType == recipient && link.tokenHash.Some? && link.status == Revoked)
            && (found == Err(LinkExpired) <==> link.linkType == recipient && link.status != Revoked && link.expiresAt < now)
  {
    TokenFindsItsLink(links, i);
  }

  predicate Enters(r: Request) {
    r.Visit? || r.Submit?
  }

  /** Whoever does not give its address changes nothing on an addressed link, nor on any other. */
  lemma StrangersChangeNothing(env: Environment, links: seq<Link>, now: int, r: Request, i: nat)
    requires TokensSound(links) && i < |links| && Addressed(links[i]) && Enters(r) && r.rawToken == links[i].secret
    requires !GivesAddress(r.email, links[i].recipientEmail.value)
    ensures Apply(env, links, now, r).links == links && Apply(env, links, now, r).error.Some?
  {
    OpensExactlyWhen(links, i, now, r.email, r.recipient);
    if Resolve(links, now, r.rawToken, r.email, r.recipient).Ok? {
      var j := Resolve(links, now, r.rawToken, r.email, r.recipient).value;
      OpensOnlyItsLink(links, j, now, r.rawToken, r.email, r.recipient);
      assert false;
    }
  }

  /** What the initiator is shown against what the recipient meets: pending and opened links open. */
  lemma ViewTellsWhetherItOpens(links: seq<Link>, i: nat, now: int, email: Option<string>)
    requires TokensSound(links) && i < |links|
    requires Addressed(links[i]) ==> GivesAddress(email, links[i].recipientEmail.value)
    ensures var view, found := ViewOf(links[i], now), Resolve(links, now, links[i].secret, email, links[i].linkType);
            && (view in {PendingView, OpenedView} ==> found == Ok(i))
            && (view == ExpiredView ==> found == Err(LinkExpired))
            && (view == RevokedView ==> found.Err?)
            && (view in {VerifiedView, FailedView} ==> (found == Ok(i) <==> now <= links[i].expiresAt))
            && (view == PendingView ==> links[i].status == Sent) && (view == OpenedView ==> links[i].status == Opened)
            && (view == VerifiedView <==> links[i].status == Verified) && (view == FailedView <==> links[i].status == Failed)
  {
    OpensExactlyWhen(links, i, now, email, links[i].linkType);
    TokenFindsItsLink(links, i);
  }

  // ---- When something is sent ------------------------------------------------------------------------

  predicate IsOwner(env: Environment, applicationId: nat, userId: nat) {
    applicationId in env.owners && env.owners[applicationId] == userId
  }

  ghost predicate HasActive(links: seq<Link>, applicationId: nat, recipient: Recipient, address: string, now: int) {
    exists i :: 0 <= i < |links| && IsActiveFor(links[i], applicationId, recipient, address, now)
  }

  predicate IsActiveFor(link: Link, applicationId: nat, recipient: Recipient, address: string, now: int) {
    && For(link, applicationId, recipient) && link.status in {Sent, Opened} && now < link.expiresAt
    && link.recipientEmail.Some? && Slugs.Lower(link.recipientEmail.value) == address
  }

  /** Sending succeeds for the owner, if nothing is pending for the address and one of the drawn codes is free. */
  lemma SendSucceedsExactlyWhen(env: Environment, links: seq<Link>, now: int, r: Request)
    requires r.Send? && Sound(links, now)
    ensures var address := Slugs.Lower(Slugs.Trim(r.rawEmail));
            Apply(env, links, now, r).error.None? <==>
              && IsOwner(env, r.applicationId, r.userId)
              && !HasActive(links, r.applicationId, r.recipient, address, now)
              && exists c :: c in r.fortune.codes && !CodeTaken(links, c)
  {
    var address := Slugs.Lower(Slugs.Trim(r.rawEmail));
    var active := FindActive(links, r.applicationId, r.recipient, now);
    if active.Some? {
      ActiveIsTheOnlyOne(links, r.applicationId, r.recipient, address, now, active.value);
      CodesStayTaken(links, Revoke(links, active.value, now));
    } else {
      assert !HasActive(links, r.applicationId, r.recipient, address, now);
    }
  }

  lemma ActiveIsTheOnlyOne(links: seq<Link>, applicationId: nat, recipient: Recipient, address: string, now: int, i: nat)
    requires Sound(links, now) && FindActive(links, applicationId, recipient, now) == Some(i)
    ensures HasActive(links, applicationId, recipient, address, now)
       <==> links[i].recipientEmail.Some? && Slugs.Lower(links[i].recipientEmail.value) == address
  {
    if HasActive(links, applicationId, recipient, address, now) {
      var j :| 0 <= j < |links| && IsActiveFor(links[j], applicationId, recipient, address, now);
      assert For(links[j], applicationId, recipient) && Active(links[j], now);
      assert j < i ==> Same(links[j], links[i]);
    }
    if links[i].recipientEmail.Some? && Slugs.Lower(links[i].recipientEmail.value) == address {
      assert IsActiveFor(links[i], applicationId, recipient, address, now);
    }
  }

  lemma CodesStayTaken(links: seq<Link>, after: seq<Link>)
    requires |after| == |links| && forall i :: 0 <= i < |links| ==> after[i].code == links[i].code
    ensures forall c: nat :: CodeTaken(after, c) <==> CodeTaken(links, c)
  {
    forall c: nat ensures CodeTaken(after, c) <==> CodeTaken(links, c) {
      if CodeTaken(links, c) {
        var i :| 0 <= i < |links| && links[i].code == Some(c);
        assert after[i].code == Some(c);
      }
    }
  }

  /** The last link made for the application and recipient, whatever became of it. */
  predicate IsNewest(links: seq<Link>, i: nat, applicationId: nat, recipient: Recipient) {
    && i < |links| && links[i].applicationId == applicationId && links[i].linkType == recipient
    && forall j :: i < j < |links| ==> links[j].applicationId != applicationId || links[j].linkType != recipient
  }

  lemma LatestIsNewest(links: seq<Link>, applicationId: nat, recipient: Recipient, i: nat)
    ensures FindLatest(links, applicationId, recipient) == Some(i) <==> IsNewest(links, i, applicationId, recipient)
  {
  }

  /** Resending succeeds for the owner, if the newest link was sent to an address and a drawn code is free. */
  lemma ResendSucceedsExactlyWhen(env: Environment, links: seq<Link>, now: int, r: Request)
    requires r.Resend?
    ensures Apply(env, links, now, r).error.None? <==>
              && IsOwner(env, r.applicationId, r.userId)
              && (exists i: nat :: IsNewest(links, i, r.applicationId, r.recipient) && Addressed(links[i]))
              && exists c :: c in r.fortune.codes && !CodeTaken(links, c)
  {
    var latest := FindLatest(links, r.applicationId, r.recipient);
    forall i: nat ensures latest == Some(i) <==> IsNewest(links, i, r.applicationId, r.recipient) {
      LatestIsNewest(links, r.applicationId, r.recipient, i);
    }
    if latest.Some? {
      CodesStayTaken(links, Revoke(links, latest.value, now));
    }
  }

  /** Others than the owner change nothing. */
  lemma OnlyOwnersSend(env: Environment, links: seq<Link>, now: int, r: Request)
    requires Mails(r) && !IsOwner(env, r.applicationId, r.userId)
    ensures Apply(env, links, now, r) ==
              Outcome(links, Some(if r.applicationId in env.owners then AccessDenied else ApplicationNotFound))
  {
  }

  // ---- Where a link comes from --------------------------------------------------------------------------

  /** The code is the first of those drawn that no link in the table has. */
  ghost predicate FirstFree(links: seq<Link>, codes: seq<nat>, code: Option<nat>) {
    exists j :: 0 <= j < |codes| && code == Some(codes[j]) && !CodeTaken(links, codes[j])
                && forall h :: 0 <= h < j ==> CodeTaken(links, codes[h])
  }

  lemma {:induction false} UniqueCodeIsFirstFree(links: seq<Link>, codes: seq<nat>)
    ensures UniqueCode(links, codes).Some? ==> FirstFree(links, codes, UniqueCode(links, codes))
  {
    if codes != [] && CodeTaken(links, codes[0]) && UniqueCode(links, codes).Some? {
      UniqueCodeIsFirstFree(links, codes[1..]);
      var code := UniqueCode(links, codes);
      var j :| 0 <= j < |codes| - 1 && code == Some(codes[1..][j]) && !CodeTaken(links, codes[1..][j])
               && forall h :: 0 <= h < j ==> CodeTaken(links, codes[1..][h]);
      assert codes[1..][j] == codes[j + 1];
      forall h | 0 <= h < j + 1 ensures CodeTaken(links, codes[h]) {
        assert h > 0 ==> codes[h] == codes[1..][h - 1];
      }
    }
  }

  lemma FirstFreeAmongTheSame(links: seq<Link>, left: seq<Link>, codes: seq<nat>, code: Option<nat>)
    requires |left| == |links| && forall i :: 0 <= i < |links| ==> left[i].code == links[i].code
    requires FirstFree(left, codes, code)
    ensures FirstFree(links, codes, code)
  {
    CodesStayTaken(links, left);
    var j :| 0 <= j < |codes| && code == Some(codes[j]) && !CodeTaken(left, codes[j])
             && forall h :: 0 <= h < j ==> CodeTaken(left, codes[h]);
    assert !CodeTaken(links, codes[j]) && forall h :: 0 <= h < j ==> CodeTaken(links, codes[h]);
  }

  /** What a link carries for good from the moment it is mailed. */
  ghost predicate IsMailed(link: Link, links: seq<Link>, applicationId: nat, recipient: Recipient, address: string, now: int,
                           ttl: nat, fortune: Fortune)
  {
    && link.applicationId == applicationId && link.linkType == recipient && link.recipientEmail == Some(address)
    && link.secret == fortune.token && link.tokenHash == Some(Digest(fortune.token))
    && FirstFree(links, fortune.codes, link.code)
    && link.createdAt == now && link.expiresAt == now + ttl
  }

  /** Nobody has been there yet. */
  predicate IsUntouched(link: Link, fortune: Fortune) {
    && link.status == (if fortune.delivered then Sent else Failed)
    && link.accessedAt.None? && link.verifiedAt.None? && link.revokedAt.None?
  }

  /** Request k mailed link i: to the address given, or on resending to the address of the newest link. */
  ghost predicate MailedAt(env: Environment, states: seq<seq<Link>>, events: seq<Event>, k: nat, i: nat, link: Link)
    requires k < |events| && |states| == |events| + 1
  {
    var r, now := events[k].request, events[k].now;
    && Mails(r) && i == |states[k]| && Apply(env, states[k], now, r).error.None?
    && IsOwner(env, r.applicationId, r.userId)
    && IsMailed(link, states[k], r.applicationId, r.recipient, AddressFor(states[k], r), now, env.linkTtl, r.fortune)
  }

  ghost function AddressFor(links: seq<Link>, r: Request): string
    requires Mails(r)
  {
    if r.Send? then Slugs.Lower(Slugs.Trim(r.rawEmail))
    else if i: nat :| IsNewest(links, i, r.applicationId, r.recipient) then links[i].recipientEmail.GetOr("")
    else ""
  }

  predicate DeliveredAt(events: seq<Event>, k: nat)
    requires k < |events| && Mails(events[k].request)
  {
    events[k].request.fortune.delivered
  }

  /** A mailing that succeeds appends its link; one that fails adds none. */
  ghost predicate Mailing(env: Environment, links: seq<Link>, now: int, r: Request, o: Outcome)
    requires Mails(r)
  {
    && (|o.links| > |links| <==> o.error.None?)
    && (o.error.None? ==>
          && |o.links| == |links| + 1 && IsOwner(env, r.applicationId, r.userId)
          && IsMailed(o.links[|links|], links, r.applicationId, r.recipient, AddressFor(links, r), now, env.linkTtl, r.fortune)
          && IsUntouched(o.links[|links|], r.fortune))
  }

  /** A request that grows the table appends the link it mails; a successful one always does. */
  lemma StepMails(env: Environment, links: seq<Link>, now: int, r: Request)
    ensures var o := Apply(env, links, now, r);
            && (|o.links| > |links| <==> Mails(r) && o.error.None?)
            && (Mails(r) ==> Mailing(env, links, now, r, o))
  {
    match r
    case Send(_, _, _, _, _) => SendMails(env, links, now, r);
    case Resend(_, _, _, _) => ResendMails(env, links, now, r);
    case _ =>
  }

  /** A link made after the same codes were in the table, whatever else has changed in it. */
  lemma CreateMails(links: seq<Link>, left: seq<Link>, applicationId: nat, recipient: Recipient, email: string, now: int,
                    ttl: nat, fortune: Fortune)
    requires |left| == |links| && forall i :: 0 <= i < |links| ==> left[i].code == links[i].code
    ensures var o := CreateAndSend(left, applicationId, recipient, email, now, ttl, fortune);
            && (o.error.Some? ==> o.links == left)
            && (o.error.None? ==>
                  && |o.links| == |links| + 1
                  && IsMailed(o.links[|links|], links, applicationId, recipient, email, now, ttl, fortune)
                  && IsUntouched(o.links[|links|], fortune))
  {
    var code := UniqueCode(left, fortune.codes);
    if code.Some? {
      UniqueCodeIsFirstFree(left, fortune.codes);
      FirstFreeAmongTheSame(links, left, fortune.codes, code);
    }
  }

  lemma SendMails(env: Environment, links: seq<Link>, now: int, r: Request)
    requires r.Send?
    ensures Mailing(env, links, now, r, DoSend(env, links, now, r))
  {
    var email := Normalize(r.rawEmail);
    var active := FindActive(links, r.applicationId, r.recipient, now);
    var left := if active.Some? then Revoke(links, active.value, now) else links;
    CreateMails(links, left, r.applicationId, r.recipient, email, now, env.linkTtl, r.fortune);
  }

  lemma ResendMails(env: Environment, links: seq<Link>, now: int, r: Request)
    requires r.Resend?
    ensures Mailing(env, links, now, r, DoResend(env, links, now, r))
  {
    var latest := FindLatest(links, r.applicationId, r.recipient);
    if latest.Some? && HasEmail(links[latest.value]) {
      var link := links[latest.value];
      var left := if link.status in {Sent, Opened} then Revoke(links, latest.value, now) else links;
      AddressOfLatest(links, r, latest.value);
      CreateMails(links, left, r.applicationId, r.recipient, link.recipientEmail.value, now, env.linkTtl, r.fortune);
    }
  }

  lemma AddressOfLatest(links: seq<Link>, r: Request, i: nat)
    requires r.Resend? && FindLatest(links, r.applicationId, r.recipient) == Some(i)
    ensures i < |links| && AddressFor(links, r) == links[i].recipientEmail.GetOr("")
  {
    LatestIsNewest(links, r.applicationId, r.recipient, i);
  }

  /** In any run every link was mailed by a request of the application's owner, and carries what that says. */
  lemma {:induction false} EveryLinkWasMailed(env: Environment, states: seq<seq<Link>>, events: seq<Event>, m: nat, i: nat)
    returns (k: nat)
    requires Run(env, states, events) && states[0] == [] && m <= |events| && i < |states[m]|
    ensures k < m && MailedAt(env, states, events, k, i, states[m][i])
    decreases m
  {
    assert m > 0;
    assert Follows(env, states, events, m - 1);
    var e := events[m - 1];
    ApplyEvolves(env, states[m - 1], e.now, e.request);
    StepMails(env, states[m - 1], e.now, e.request);
    if i < |states[m - 1]| {
      k := EveryLinkWasMailed(env, states, events, m - 1, i);
      assert Evolves(states[m - 1][i], states[m][i]);
    } else {
      k := m - 1;
    }
  }

  // ---- What became of a link ------------------------------------------------------------------------------

  /** Request k got in with link i: it visited, or submitted its form. */
  predicate EntersAt(states: seq<seq<Link>>, events: seq<Event>, k: nat, i: nat)
    requires k < |events| && |states| == |events| + 1
  {
    var r := events[k].request;
    Enters(r) && Resolve(states[k], events[k].now, r.rawToken, r.email, r.recipient) == Ok(i)
  }

  predicate SubmitsAt(states: seq<seq<Link>>, events: seq<Event>, k: nat, i: nat)
    requires k < |events| && |states| == |events| + 1
  {
    events[k].request.Submit? && EntersAt(states, events, k, i)
  }

  predicate ReplacesAt(env: Environment, states: seq<seq<Link>>, events: seq<Event>, k: nat, i: nat)
    requires k < |events| && |states| == |events| + 1
  {
    i < |states[k]| && Mails(events[k].request) && Replaces(env, states[k], events[k], i)
  }

  /** A link's status, told by the requests: what happened to it last of what is final, then of what is not. */
  function StatusTold(env: Environment, states: seq<seq<Link>>, events: seq<Event>, m: nat, i: nat): Status
    requires m <= |events| && |states| == |events| + 1
  {
    if m == 0 then Sent
    else if i >= |states[m - 1]| then
      (if Mails(events[m - 1].request) && DeliveredAt(events, m - 1) then Sent else Failed)
    else if SubmitsAt(states, events, m - 1, i) then Verified
    else if ReplacesAt(env, states, events, m - 1, i) then Revoked
    else if EntersAt(states, events, m - 1, i) && StatusTold(env, states, events, m - 1, i) == Sent then Opened
    else StatusTold(env, states, events, m - 1, i)
  }

  /** A link that was not in the table before this request has just been mailed by it. */
  lemma NewLinkIsUntouched(env: Environment, links: seq<Link>, e: Event, i: nat)
    requires |links| <= i < |Apply(env, links, e.now, e.request).links|
    ensures Mails(e.request) && IsUntouched(Apply(env, links, e.now, e.request).links[i], e.request.fortune)
  {
    StepMails(env, links, e.now, e.request);
  }

  lemma {:induction false} OpenedMeansAccessed(env: Environment, states: seq<seq<Link>>, events: seq<Event>, m: nat, i: nat)
    requires Run(env, states, events) && states[0] == [] && m <= |events| && i < |states[m]|
    ensures states[m][i].status == Sent ==> states[m][i].accessedAt.None?
    decreases m
  {
    assert m > 0;
    assert Follows(env, states, events, m - 1);
    var links, e := states[m - 1], events[m - 1];
    if i < |links| {
      OpenedMeansAccessed(env, states, events, m - 1, i);
      ApplyEvolves(env, links, e.now, e.request);
      assert Evolves(links[i], states[m][i]);
      StepOnAccess(env, links, e, i);
    } else {
      NewLinkIsUntouched(env, links, e, i);
    }
  }

  lemma StepOnAccess(env: Environment, links: seq<Link>, e: Event, i: nat)
    requires i < |links|
    ensures var after, r := Apply(env, links, e.now, e.request).links, e.request;
            && i < |after|
            && (after[i].accessedAt != links[i].accessedAt ==>
                  Enters(r) && Resolve(links, e.now, r.rawToken, r.email, r.recipient) == Ok(i))
            && (Enters(r) && Resolve(links, e.now, r.rawToken, r.email, r.recipient) == Ok(i) ==>
                  && after[i].accessedAt == Some(links[i].accessedAt.GetOr(e.now))
                  && after[i].status ==
                       (if r.Submit? then Verified
                        else if links[i].accessedAt.None? && links[i].status == Sent then Opened
                        else links[i].status))
            && (Enters(r) && Resolve(links, e.now, r.rawToken, r.email, r.recipient) != Ok(i) ==> after[i] == links[i])
            && (Mails(r) ==> after[i].accessedAt == links[i].accessedAt)
  {
    if Mails(e.request) {
      MailingKeepsAccess(env, links, e, i);
    }
  }

  lemma MailingKeepsAccess(env: Environment, links: seq<Link>, e: Event, i: nat)
    requires i < |links| && Mails(e.request)
    ensures var after := Apply(env, links, e.now, e.request).links;
            && i < |after| && after[i].accessedAt == links[i].accessedAt
            && (after[i].status == links[i].status || after[i].status == Revoked)
  {
    match e.request
    case Send(applicationId, _, recipient, rawEmail, fortune) =>
      var active := FindActive(links, applicationId, recipient, e.now);
      if active.Some? {
        CreateKeeps(Revoke(links, active.value, e.now), applicationId, recipient, Normalize(rawEmail), e.now, env.linkTtl, fortune, i);
      }
      CreateKeeps(links, applicationId, recipient, Normalize(rawEmail), e.now, env.linkTtl, fortune, i);
    case Resend(applicationId, _, recipient, fortune) =>
      var latest := FindLatest(links, applicationId, recipient);
      if latest.Some? && HasEmail(links[latest.value]) {
        var email := links[latest.value].recipientEmail.value;
        CreateKeeps(Revoke(links, latest.value, e.now), applicationId, recipient, email, e.now, env.linkTtl, fortune, i);
        CreateKeeps(links, applicationId, recipient, email, e.now, env.linkTtl, fortune, i);
      }
    case _ =>
  }

  lemma CreateKeeps(links: seq<Link>, applicationId: nat, recipient: Recipient, email: string, now: int, ttl: nat,
                    fortune: Fortune, i: nat)
    requires i < |links|
    ensures var after := CreateAndSend(links, applicationId, recipient, email, now, ttl, fortune).links;
            i < |after| && after[i] == links[i]
  {
  }

  /**
   In any run a link is VERIFIED exactly if its form was submitted by someone the link let in, REVOKED
   exactly if it was replaced while pending, FAILED if its mail was not delivered and none of this
   happened, and of the others OPENED exactly if someone it let in visited.
   */
  lemma {:induction false} StatusIsAsTold(env: Environment, states: seq<seq<Link>>, events: seq<Event>, m: nat, i: nat)
    requires Run(env, states, events) && states[0] == [] && m <= |events| && i < |states[m]|
    ensures states[m][i].status == StatusTold(env, states, events, m, i)
    decreases m
  {
    assert m > 0;
    assert Follows(env, states, events, m - 1);
    var links, e := states[m - 1], events[m - 1];
    if i < |links| {
      StatusIsAsTold(env, states, events, m - 1, i);
      OpenedMeansAccessed(env, states, events, m - 1, i);
      NextStatus(env, states, events, m, i);
    } else {
      NewLinkIsUntouched(env, links, e, i);
    }
  }

  lemma NextStatus(env: Environment, states: seq<seq<Link>>, events: seq<Event>, m: nat, i: nat)
    requires 0 < m <= |events| && |states| == |events| + 1 && Follows(env, states, events, m - 1) && i < |states[m - 1]|
    requires states[m - 1][i].status == StatusTold(env, states, events, m - 1, i)
    requires states[m - 1][i].status == Sent ==> states[m - 1][i].accessedAt.None?
    ensures i < |states[m]| && states[m][i].status == StatusTold(env, states, events, m, i)
  {
    var links, e := states[m - 1], events[m - 1];
    StepOnAccess(env, links, e, i);
    if Mails(e.request) {
      MailingKeepsAccess(env, links, e, i);
      if links[i].status == Revoked {
        RevokedIsNotReplaced(env, links, e, i);
      } else {
        ReplacementRevokesExactly(env, links, e, i);
      }
    }
  }

  lemma RevokedIsNotReplaced(env: Environment, links: seq<Link>, e: Event, i: nat)
    requires i < |links| && links[i].status == Revoked && Mails(e.request)
    ensures !Replaces(env, links, e, i)
  {
  }

  /** So a verified link was submitted with its own token, by someone who gave the address it was mailed to. */
  lemma {:induction false} VerifiedByItsAddressee(env: Environment, states: seq<seq<Link>>, events: seq<Event>, m: nat, i: nat)
    returns (k: nat)
    requires Run(env, states, events) && states[0] == [] && m <= |events| && i < |states[m]|
    requires states[m][i].status == Verified
    ensures k < m && events[k].request.Submit? && events[k].request.rawToken == states[m][i].secret
    ensures events[k].request.recipient == states[m][i].linkType && events[k].now <= states[m][i].expiresAt
    ensures Addressed(states[m][i]) ==> GivesAddress(events[k].request.email, states[m][i].recipientEmail.value)
    decreases m
  {
    assert m > 0;
    StatusIsAsTold(env, states, events, m, i);
    assert Follows(env, states, events, m - 1);
    var links, e := states[m - 1], events[m - 1];
    if i >= |links| {
      NewLinkIsUntouched(env, links, e, i);
    }
    ApplyEvolves(env, links, e.now, e.request);
    assert Evolves(links[i], states[m][i]);
    if SubmitsAt(states, events, m - 1, i) {
      k := m - 1;
      RunStaysSound(env, states, events, events[0].now, m - 1, e.now);
      OpensOnlyItsLink(links, i, e.now, e.request.rawToken, e.request.email, e.request.recipient);
      OpensExactlyWhen(links, i, e.now, e.request.email, e.request.recipient);
    } else {
      StatusIsAsTold(env, states, events, m - 1, i);
      k := VerifiedByItsAddressee(env, states, events, m - 1, i);
    }
  }
}
