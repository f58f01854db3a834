/**
 The verification invitations sent to a student's parent and college
 (src/modules/verification/verification-invitation.service.ts): each request as a step on the
 stored links. Links are listed in order of creation.
 */
module Invitations {
  import opened Wrappers
  import Slugs

  datatype Recipient = Parent | College
  datatype Status = Sent | Failed | Opened | Verified | Revoked
  datatype Digest = Digest(of: nat) // no two tokens share a digest

  datatype Link = Link(
    secret: nat, // the token in the mailed link; not a column
    token: Option<nat>,
    tokenHash: Option<Digest>, // links from before this column was added have none
    code: Option<nat>,
    applicationId: nat,
    linkType: Recipient,
    recipientEmail: Option<string>,
    status: Status,
    createdAt: int,
    expiresAt: int,
    accessedAt: Option<int>,
    verifiedAt: Option<int>,
    revokedAt: Option<int>)

  /** The owner of each application, and how long a link lives. */
  datatype Environment = Environment(owners: map<nat, nat>, linkTtl: nat)

  const ATTEMPTS: nat := 5

  type Draws = s: seq<nat> | |s| == ATTEMPTS witness [0, 0, 0, 0, 0]

  /** What chance and the mail server contribute to one request. */
  datatype Fortune = Fortune(token: nat, codes: Draws, delivered: bool)

  datatype Request =
    | Send(applicationId: nat, userId: nat, recipient: Recipient, rawEmail: string, fortune: Fortune)
    | Resend(applicationId: nat, userId: nat, recipient: Recipient, fortune: Fortune)
    | Visit(rawToken: nat, email: Option<string>, recipient: Recipient)
    | Submit(rawToken: nat, email: Option<string>, recipient: Recipient)

  datatype Error =
    | ApplicationNotFound | AccessDenied | AlreadyPending | NothingToResend | NoUniqueCode
    | InvalidLink | LinkRevoked | LinkExpired | EmailMismatch

  datatype Outcome = Outcome(links: seq<Link>, error: Option<Error>)

  // ---- Queries --------------------------------------------------------------------------------

  function Last(links: seq<Link>, p: Link -> bool): (r: Option<nat>)
    ensures match r
            case None => forall i :: 0 <= i < |links| ==> !p(links[i])
            case Some(k) => k < |links| && p(links[k]) && forall i :: k < i < |links| ==> !p(links[i])
  {
    if links == [] then None
    else if p(links[|links| - 1]) then Some(|links| - 1)
    else Last(links[..|links| - 1], p)
  }

  predicate For(link: Link, applicationId: nat, recipient: Recipient) {
    link.applicationId == applicationId && link.linkType == recipient
  }

  predicate Active(link: Link, now: int) {
    link.status in {Sent, Opened} && link.expiresAt > now
  }

  function FindActive(links: seq<Link>, applicationId: nat, recipient: Recipient, now: int): Option<nat> {
    Last(links, (link: Link) => For(link, applicationId, recipient) && Active(link, now))
  }

  function FindLatest(links: seq<Link>, applicationId: nat, recipient: Recipient): Option<nat> {
    Last(links, (link: Link) => For(link, applicationId, recipient))
  }

  /** By digest, and failing that by the raw token, for links from before digests. */
  function FindByToken(links: seq<Link>, rawToken: nat): Option<nat> {
    Last(links, (link: Link) => link.tokenHash == Some(Digest(rawToken)))
      .Or(Last(links, (link: Link) => link.token == Some(rawToken)))
  }

  function Normalize(email: string): string {
    Slugs.Lower(Slugs.Trim(email))
  }

  predicate HasEmail(link: Link) {
    link.recipientEmail.Some? && link.recipientEmail.value != ""
  }

  datatype ViewStatus = PendingView | OpenedView | VerifiedView | ExpiredView | RevokedView | FailedView

  /** The status shown to the initiator. */
  function ViewOf(link: Link, now: int): ViewStatus {
    match link.status
    case Verified => VerifiedView
    case Revoked => RevokedView
    case Failed => FailedView
    case _ =>
      if link.expiresAt < now then ExpiredView
      else if link.status == Opened then OpenedView
      else PendingView
  }

  // ---- Requests ---------------------------------------------------------------------------------

  predicate CodeTaken(links: seq<Link>, code: nat) {
    exists i :: 0 <= i < |links| && links[i].code == Some(code)
  }

  /** The first drawn code that is not taken. */
  function UniqueCode(links: seq<Link>, codes: seq<nat>): (code: Option<nat>)
    ensures code.Some? ==> !CodeTaken(links, code.value) && code.value in codes
    ensures code.None? <==> forall c :: c in codes ==> CodeTaken(links, c)
  {
    if codes == [] then None
    else if !CodeTaken(links, codes[0]) then Some(codes[0])
    else UniqueCode(links, codes[1..])
  }

  function Revoke(links: seq<Link>, i: nat, now: int): seq<Link>
    requires i < |links|
  {
    links[i := links[i].(status := Revoked, revokedAt := Some(now), token := None)]
  }

  function NewLink(applicationId: nat, recipient: Recipient, email: string, now: int, ttl: nat, token: nat, code: nat,
                   status: Status): Link
  {
    Link(token, Some(token), Some(Digest(token)), Some(code), applicationId, recipient, Some(email), status,
         now, now + ttl, None, None, None)
  }

  function CreateAndSend(links: seq<Link>, applicationId: nat, recipient: Recipient, email: string, now: int, ttl: nat,
                         fortune: Fortune): Outcome
  {
    match UniqueCode(links, fortune.codes)
    case None => Outcome(links, Some(NoUniqueCode))
    case Some(code) =>
      var status := if fortune.delivered then Sent else Failed;
      Outcome(links + [NewLink(applicationId, recipient, email, now, ttl, fortune.token, code, status)], None)
  }

  function OwnershipError(env: Environment, applicationId: nat, userId: nat): Option<Error> {
    if applicationId !in env.owners then Some(ApplicationNotFound)
    else if env.owners[applicationId] != userId then Some(AccessDenied)
    else None
  }

  function DoSend(env: Environment, links: seq<Link>, now: int, r: Request): Outcome
    requires r.Send?
  {
    var denied := OwnershipError(env, r.applicationId, r.userId);
    if denied.Some? then Outcome(links, denied)
    else
      var email := Normalize(r.rawEmail);
      match FindActive(links, r.applicationId, r.recipient, now)
      case None => CreateAndSend(links, r.applicationId, r.recipient, email, now, env.linkTtl, r.fortune)
      case Some(i) =>
        if links[i].recipientEmail.Some? && Slugs.Lower(links[i].recipientEmail.value) == email
        then Outcome(links, Some(AlreadyPending))
        else CreateAndSend(Revoke(links, i, now), r.applicationId, r.recipient, email, now, env.linkTtl, r.fortune)
  }

  function DoResend(env: Environment, links: seq<Link>, now: int, r: Request): Outcome
    requires r.Resend?
  {
    var denied := OwnershipError(env, r.applicationId, r.userId);
    if denied.Some? then Outcome(links, denied)
    else
      var latest := FindLatest(links, r.applicationId, r.recipient);
      if latest.None? || !HasEmail(links[latest.value]) then Outcome(links, Some(NothingToResend))
      else
        var link := links[latest.value];
        var left := if link.status in {Sent, Opened} then Revoke(links, latest.value, now) else links;
        CreateAndSend(left, r.applicationId, r.recipient, link.recipientEmail.value, now, env.linkTtl, r.fortune)
  }

  predicate EmailMatches(link: Link, email: Option<string>) {
    HasEmail(link) ==>
      email.Some? && Normalize(email.value) != "" && Normalize(email.value) == Slugs.Lower(link.recipientEmail.value)
  }

  /** Which link a token opens for a recipient. */
  function Resolve(links: seq<Link>, now: int, rawToken: nat, email: Option<string>, recipient: Recipient)
    : (r: Result<nat, Error>)
    ensures r.Ok? ==> r.value < |links|
  {
    match FindByToken(links, rawToken)
    case None => Err(InvalidLink)
    case Some(i) =>
      if links[i].linkType != recipient then Err(InvalidLink)
      else if links[i].status == Revoked then Err(LinkRevoked)
      else if links[i].expiresAt < now then Err(LinkExpired)
      else if !EmailMatches(links[i], email) then Err(EmailMismatch)
      else Ok(i)
  }

  function Accessed(link: Link, now: int): Link {
    if link.accessedAt.None?
    then link.(accessedAt := Some(now), status := if link.status == Sent then Opened else link.status)
    else link
  }

  function MarkedVerified(link: Link, now: int): Link {
    link.(status := Verified, verifiedAt := Some(now))
  }

  function Apply(env: Environment, links: seq<Link>, now: int, request: Request): Outcome {
    match request
    case Send(_, _, _, _, _) => DoSend(env, links, now, request)
    case Resend(_, _, _, _) => DoResend(env, links, now, request)
    case Visit(rawToken, email, recipient) =>
      (match Resolve(links, now, rawToken, email, recipient)
       case Err(e) => Outcome(links, Some(e))
       case Ok(i) => Outcome(links[i := Accessed(links[i], now)], None))
    case Submit(rawToken, email, recipient) =>
      (match Resolve(links, now, rawToken, email, recipient)
       case Err(e) => Outcome(links, Some(e))
       case Ok(i) => Outcome(links[i := MarkedVerified(Accessed(links[i], now), now)], None))
  }

  // ---- The service ---------------------------------------------------------------------------------

  class Service {
    const env: Environment
    var links: seq<Link>

    constructor (env: Environment)
      ensures this.env == env && links == []
    {
      this.env := env;
      links := [];
    }

    method GenerateUniqueCode(codes: Draws) returns (code: Option<nat>)
      ensures code == UniqueCode(links, codes)
    {
      var attempt := 0;
      while attempt < ATTEMPTS
        invariant attempt <= ATTEMPTS && UniqueCode(links, codes) == UniqueCode(links, codes[attempt..])
      {
        assert codes[attempt..][1..] == codes[attempt + 1..];
        if !CodeTaken(links, codes[attempt]) {
          return Some(codes[attempt]);
        }
        attempt := attempt + 1;
      }
      return None;
    }

    method RevokeLink(i: nat, now: int)
      requires i < |links|
      modifies `links
      ensures links == Revoke(old(links), i, now)
    {
      links := links[i := links[i].(status := Revoked, revokedAt := Some(now), token := None)];
    }

    method CreateAndSendLink(applicationId: nat, recipient: Recipient, email: string, now: int, fortune: Fortune)
      returns (error: Option<Error>)
      modifies `links
      ensures Outcome(links, error)
           == CreateAndSend(old(links), applicationId, recipient, email, now, env.linkTtl, fortune)
    {
      var code := GenerateUniqueCode(fortune.codes);
      if code.None? {
        return Some(NoUniqueCode);
      }
      var link := NewLink(applicationId, recipient, email, now, env.linkTtl, fortune.token, code.value, Sent);
      var i := |links|;
      links := links + [link];
      if !fortune.delivered {
        links := links[i := link.(status := Failed)];
        assert links[..i] == old(links);
      }
      return None;
    }

    method Send(applicationId: nat, userId: nat, recipient: Recipient, rawEmail: string, now: int, fortune: Fortune)
      returns (error: Option<Error>)
      modifies `links
      ensures Outcome(links, error)
           == Apply(env, old(links), now, Request.Send(applicationId, userId, recipient, rawEmail, fortune))
    {
      error := OwnershipError(env, applicationId, userId);
      if error.Some? {
        return;
      }
      var email := Normalize(rawEmail);
      var active := FindActive(links, applicationId, recipient, now);
      if active.Some? {
        var link := links[active.value];
        if link.recipientEmail.Some? && Slugs.Lower(link.recipientEmail.value) == email {
          return Some(AlreadyPending);
        }
        RevokeLink(active.value, now);
      }
      error := CreateAndSendLink(applicationId, recipient, email, now, fortune);
    }

    method Resend(applicationId: nat, userId: nat, recipient: Recipient, now: int, fortune: Fortune)
      returns (error: Option<Error>)
      modifies `links
      ensures Outcome(links, error)
           == Apply(env, old(links), now, Request.Resend(applicationId, userId, recipient, fortune))
    {
      error := OwnershipError(env, applicationId, userId);
      if error.Some? {
        return;
      }
      var latest := FindLatest(links, applicationId, recipient);
      if latest.None? || !HasEmail(links[latest.value]) {
        return Some(NothingToResend);
      }
      var link := links[latest.value];
      if link.status == Sent || link.status == Opened {
        RevokeLink(latest.value, now);
      }
      error := CreateAndSendLink(applicationId, recipient, link.recipientEmail.value, now, fortune);
    }

    method ResolveInvitation(rawToken: nat, email: Option<string>, recipient: Recipient, now: int)
      returns (found: Result<nat, Error>)
      modifies `links
      ensures found == Resolve(old(links), now, rawToken, email, recipient)
      ensures Outcome(links, if found.Ok? then None else Some(found.error))
           == Apply(env, old(links), now, Request.Visit(rawToken, email, recipient))
    {
      var byHash := Last(links, (link: Link) => link.tokenHash == Some(Digest(rawToken)));
      var found' := byHash;
      if byHash.None? {
        found' := Last(links, (link: Link) => link.token == Some(rawToken));
      }
      if found'.None? || links[found'.value].linkType != recipient {
        return Err(InvalidLink);
      }
      var i := found'.value;
      if links[i].status == Revoked {
        return Err(LinkRevoked);
      }
      if links[i].expiresAt < now {
        return Err(LinkExpired);
      }
      if !EmailMatches(links[i], email) {
        return Err(EmailMismatch);
      }
      if links[i].accessedAt.None? {
        var status := if links[i].status == Sent then Opened else links[i].status;
        links := links[i := links[i].(accessedAt := Some(now), status := status)];
      }
      return Ok(i);
    }

    method MarkVerified(i: nat, now: int)
      requires i < |links|
      modifies `links
      ensures links == old(links)[i := MarkedVerified(old(links)[i], now)]
    {
      links := links[i := links[i].(status := Verified, verifiedAt := Some(now))];
    }

    /** What submitting the parent's or the college's form does to the links. */
    method SubmitForm(rawToken: nat, email: Option<string>, recipient: Recipient, now: int)
      returns (error: Option<Error>)
      modifies `links
      ensures Outcome(links, error) == Apply(env, old(links), now, Request.Submit(rawToken, email, recipient))
    {
      var found := ResolveInvitation(rawToken, email, recipient, now);
      if found.Err? {
        return Some(found.error);
      }
      MarkVerified(found.value, now);
      return None;
    }
  }
}
