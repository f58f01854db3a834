/**
 What holds of the stored invitations over every run of requests, whoever sends them and in
 whatever order, with a clock that never goes back and tokens that never repeat.
 */
module InvitationRuns {
  import opened Wrappers
  import Slugs
  import opened Invitations

  datatype Event = Event(now: int, request: Request)

  predicate Mails(r: Request) {
    r.Send? || r.Resend?
  }

  predicate UnusedToken(links: seq<Link>, token: nat) {
    forall i :: 0 <= i < |links| ==> links[i].secret != token
  }

  /** A request finds the links as the one before left them. */
  predicate Follows(env: Environment, states: seq<seq<Link>>, events: seq<Event>, k: nat)
    requires k < |events| && |states| == |events| + 1
  {
    && states[k + 1] == Apply(env, states[k], events[k].now, events[k].request).links
    && (Mails(events[k].request) ==> UnusedToken(states[k], events[k].request.fortune.token))
  }

  predicate Run(env: Environment, states: seq<seq<Link>>, events: seq<Event>) {
    && |states| == |events| + 1
    && (forall k :: 0 <= k < |events| ==> Follows(env, states, events, k))
    && (forall j, k :: 0 <= j < k < |events| ==> events[j].now <= events[k].now)
  }

  // ---- The life of one link -----------------------------------------------------------------

  predicate Moves(a: Status, b: Status) {
    || a == b
    || (a == Sent && b == Opened)
    || (a != Revoked && b == Verified)
    || (a in {Sent, Opened} && b == Revoked)
  }

  /** How a request may change a stored link. */
  predicate Evolves(a: Link, b: Link) {
    && b.secret == a.secret && b.tokenHash == a.tokenHash && b.code == a.code
    && b.applicationId == a.applicationId && b.linkType == a.linkType && b.recipientEmail == a.recipientEmail
    && b.createdAt == a.createdAt && b.expiresAt == a.expiresAt
    && Moves(a.status, b.status)
    && b.token == (if b.status == Revoked && a.status != Revoked then None else a.token)
  }

  predicate AllEvolve(before: seq<Link>, after: seq<Link>) {
    |before| <= |after| <= |before| + 1 && forall i :: 0 <= i < |before| ==> Evolves(before[i], after[i])
  }

  lemma RevokeEvolves(links: seq<Link>, i: nat, now: int)
    requires i < |links| && links[i].status in {Sent, Opened}
    ensures AllEvolve(links, Revoke(links, i, now)) && |Revoke(links, i, now)| == |links|
  {
  }

  lemma CreateEvolves(links: seq<Link>, left: seq<Link>, applicationId: nat, recipient: Recipient, email: string,
                      now: int, ttl: nat, fortune: Fortune)
    requires AllEvolve(links, left) && |left| == |links|
    ensures AllEvolve(links, CreateAndSend(left, applicationId, recipient, email, now, ttl, fortune).links)
  {
    var after := CreateAndSend(left, applicationId, recipient, email, now, ttl, fortune).links;
    assert |left| <= |after| <= |left| + 1 && after[..|left|] == left;
    forall j | 0 <= j < |links| ensures Evolves(links[j], after[j]) {
      assert Evolves(links[j], left[j]);
    }
  }

  lemma SendEvolves(env: Environment, links: seq<Link>, now: int, r: Request)
    requires r.Send?
    ensures AllEvolve(links, DoSend(env, links, now, r).links)
  {
    var active := FindActive(links, r.applicationId, r.recipient, now);
    var left := if active.Some? then Revoke(links, active.value, now) else links;
    if active.Some? {
      RevokeEvolves(links, active.value, now);
    }
    CreateEvolves(links, left, r.applicationId, r.recipient, Normalize(r.rawEmail), now, env.linkTtl, r.fortune);
  }

  lemma ResendEvolves(env: Environment, links: seq<Link>, now: int, r: Request)
    requires r.Resend?
    ensures AllEvolve(links, DoResend(env, links, now, r).links)
  {
    var latest := FindLatest(links, r.applicationId, r.recipient);
    if latest.Some? && HasEmail(links[latest.value]) {
      var link := links[latest.value];
      var left := if link.status in {Sent, Opened} then Revoke(links, latest.value, now) else links;
      if link.status in {Sent, Opened} {
        RevokeEvolves(links, latest.value, now);
      }
      CreateEvolves(links, left, r.applicationId, r.recipient, link.recipientEmail.value, now, env.linkTtl, r.fortune);
    }
  }

  lemma ReplaceEvolves(links: seq<Link>, i: nat, link: Link)
    requires i < |links| && Evolves(links[i], link)
    ensures AllEvolve(links, links[i := link])
  {
  }

  lemma ApplyEvolves(env: Environment, links: seq<Link>, now: int, request: Request)
    ensures AllEvolve(links, Apply(env, links, now, request).links)
  {
    match request
    case Send(_, _, _, _, _) => SendEvolves(env, links, now, request);
    case Resend(_, _, _, _) => ResendEvolves(env, links, now, request);
    case Visit(rawToken, email, recipient) =>
      var found := Resolve(links, now, rawToken, email, recipient);
      if found.Ok? {
        ReplaceEvolves(links, found.value, Accessed(links[found.value], now));
      }
    case Submit(rawToken, email, recipient) =>
      var found := Resolve(links, now, rawToken, email, recipient);
      if found.Ok? {
        ReplaceEvolves(links, found.value, MarkedVerified(Accessed(links[found.value], now), now));
      }
  }

  lemma {:induction false} RunEvolves(env: Environment, states: seq<seq<Link>>, events: seq<Event>, k: nat, m: nat, i: nat)
    requires Run(env, states, events) && k <= m <= |events| && i < |states[k]|
    ensures i < |states[m]| && Reaches(states[k][i], states[m][i])
    decreases m
  {
    if k < m {
      RunEvolves(env, states, events, k, m - 1, i);
      assert Follows(env, states, events, m - 1);
      ApplyEvolves(env, states[m - 1], events[m - 1].now, events[m - 1].request);
      assert Evolves(states[m - 1][i], states[m][i]);
    }
  }

  /** What any number of requests leave of a link: its identity, and a final status for good. */
  predicate Reaches(a: Link, b: Link) {
    && b.secret == a.secret && b.tokenHash == a.tokenHash && b.code == a.code
    && b.applicationId == a.applicationId && b.linkType == a.linkType && b.recipientEmail == a.recipientEmail
    && b.createdAt == a.createdAt && b.expiresAt == a.expiresAt
    && (a.status in {Verified, Revoked} ==> b.status == a.status)
    && (a.status == Failed ==> b.status in {Failed, Verified})
    && (a.status == Opened ==> b.status != Sent && b.status != Failed)
    && (a.status == Sent ==> b.status != Failed)
  }

  // ---- What every request keeps ------------------------------------------------------------------

  predicate Same(a: Link, b: Link) {
    a.applicationId == b.applicationId && a.linkType == b.linkType
  }

  /** Only the newest link of an application and recipient may still be acted upon. */
  predicate OnlyNewestActive(links: seq<Link>, now: int) {
    forall i, j :: 0 <= i < j < |links| && Same(links[i], links[j]) ==> !Active(links[i], now)
  }

  /** A revoked link has lost its token; no link has another's. */
  predicate TokensSound(links: seq<Link>) {
    && (forall i :: 0 <= i < |links| ==> Columns(links[i]))
    && (forall i, j :: 0 <= i < j < |links| ==> links[i].secret != links[j].secret)
  }

  predicate Columns(l: Link) {
    && (l.tokenHash == None || l.tokenHash == Some(Digest(l.secret)))
    && l.token == (if l.status == Revoked then None else Some(l.secret))
  }

  predicate CodesDistinct(links: seq<Link>) {
    forall i, j :: 0 <= i < j < |links| ==> links[i].code.None? || links[i].code != links[j].code
  }

  predicate Sound(links: seq<Link>, now: int) {
    OnlyNewestActive(links, now) && TokensSound(links) && CodesDistinct(links)
  }

  lemma ActiveUntilExpiry(links: seq<Link>, now: int, later: int)
    requires OnlyNewestActive(links, now) && now <= later
    ensures OnlyNewestActive(links, later)
  {
    forall i, j | 0 <= i < j < |links| && Same(links[i], links[j]) ensures !Active(links[i], later) {
      assert !Active(links[i], now);
    }
  }

  lemma ReplaceKeepsSound(links: seq<Link>, now: int, i: nat, link: Link)
    requires Sound(links, now) && i < |links| && Evolves(links[i], link)
    ensures Sound(links[i := link], now)
  {
  }

  lemma AppendKeepsSound(links: seq<Link>, now: int, link: Link)
    requires Sound(links, now) && Columns(link) && UnusedToken(links, link.secret)
    requires link.code.Some? ==> !CodeTaken(links, link.code.value)
    requires forall i :: 0 <= i < |links| && Same(links[i], link) ==> !Active(links[i], now)
    ensures Sound(links + [link], now)
  {
  }

  lemma CreateKeepsSound(links: seq<Link>, applicationId: nat, recipient: Recipient, email: string, now: int, ttl: nat,
                         fortune: Fortune)
    requires Sound(links, now) && UnusedToken(links, fortune.token)
    requires forall i :: 0 <= i < |links| && For(links[i], applicationId, recipient) ==> !Active(links[i], now)
    ensures Sound(CreateAndSend(links, applicationId, recipient, email, now, ttl, fortune).links, now)
  {
    var code := UniqueCode(links, fortune.codes);
    if code.Some? {
      var status := if fortune.delivered then Sent else Failed;
      AppendKeepsSound(links, now, NewLink(applicationId, recipient, email, now, ttl, fortune.token, code.value, status));
    }
  }

  /** Once the newest link is revoked or past, none is active. */
  lemma NoneActiveAfterRevoke(links: seq<Link>, now: int, i: nat, applicationId: nat, recipient: Recipient)
    requires Sound(links, now) && i < |links| && For(links[i], applicationId, recipient)
    requires links[i].status in {Sent, Opened}
    requires forall j :: i < j < |links| && For(links[j], applicationId, recipient) ==> !Active(links[j], now)
    ensures var left := Revoke(links, i, now);
            && Sound(left, now) && |left| == |links|
            && (forall j :: 0 <= j < |left| ==> left[j].secret == links[j].secret)
            && forall j :: 0 <= j < |left| && For(left[j], applicationId, recipient) ==> !Active(left[j], now)
  {
    var left := Revoke(links, i, now);
    ReplaceKeepsSound(links, now, i, left[i]);
    forall j | 0 <= j < |left| && For(left[j], applicationId, recipient) ensures !Active(left[j], now) {
      if j < i {
        assert Same(links[j], links[i]);
      }
    }
  }

  lemma SendKeepsSound(env: Environment, links: seq<Link>, now: int, r: Request)
    requires Sound(links, now) && r.Send? && UnusedToken(links, r.fortune.token)
    ensures Sound(DoSend(env, links, now, r).links, now)
  {
    var active := FindActive(links, r.applicationId, r.recipient, now);
    if active.Some? {
      var left := Revoke(links, active.value, now);
      NoneActiveAfterRevoke(links, now, active.value, r.applicationId, r.recipient);
      CreateKeepsSound(left, r.applicationId, r.recipient, Normalize(r.rawEmail), now, env.linkTtl, r.fortune);
    } else {
      CreateKeepsSound(links, r.applicationId, r.recipient, Normalize(r.rawEmail), now, env.linkTtl, r.fortune);
    }
  }

  lemma ResendKeepsSound(env: Environment, links: seq<Link>, now: int, r: Request)
    requires Sound(links, now) && r.Resend? && UnusedToken(links, r.fortune.token)
    ensures Sound(DoResend(env, links, now, r).links, now)
  {
    var latest := FindLatest(links, r.applicationId, r.recipient);
    if latest.Some? && HasEmail(links[latest.value]) {
      var link := links[latest.value];
      if link.status in {Sent, Opened} {
        NoneActiveAfterRevoke(links, now, latest.value, r.applicationId, r.recipient);
        var left := Revoke(links, latest.value, now);
        CreateKeepsSound(left, r.applicationId, r.recipient, link.recipientEmail.value, now, env.linkTtl, r.fortune);
      } else {
        forall i | 0 <= i < |links| && For(links[i], r.applicationId, r.recipient) ensures !Active(links[i], now) {
          assert i < latest.value ==> Same(links[i], link);
        }
        CreateKeepsSound(links, r.applicationId, r.recipient, link.recipientEmail.value, now, env.linkTtl, r.fortune);
      }
    }
  }

  lemma RequestKeepsSound(env: Environment, links: seq<Link>, now: int, request: Request)
    requires Sound(links, now)
    requires Mails(request) ==> UnusedToken(links, request.fortune.token)
    ensures Sound(Apply(env, links, now, request).links, now)
  {
    match request
    case Send(_, _, _, _, _) => SendKeepsSound(env, links, now, request);
    case Resend(_, _, _, _) => ResendKeepsSound(env, links, now, request);
    case Visit(rawToken, email, recipient) =>
      var found := Resolve(links, now, rawToken, email, recipient);
      if found.Ok? {
        ReplaceKeepsSound(links, now, found.value, Accessed(links[found.value], now));
      }
    case Submit(rawToken, email, recipient) =>
      var found := Resolve(links, now, rawToken, email, recipient);
      if found.Ok? {
        ReplaceKeepsSound(links, now, found.value, MarkedVerified(Accessed(links[found.value], now), now));
      }
  }

  lemma {:induction false} RunStaysSound(env: Environment, states: seq<seq<Link>>, events: seq<Event>, start: int, k: nat, now: int)
    requires Run(env, states, events) && k <= |events| && Sound(states[0], start) && start <= now
    requires forall j :: 0 <= j < |events| ==> start <= events[j].now
    requires k > 0 ==> events[k - 1].now <= now
    ensures Sound(states[k], now)
    decreases k
  {
    if k == 0 {
      ActiveUntilExpiry(states[0], start, now);
    } else {
      var e := events[k - 1];
      RunStaysSound(env, states, events, start, k - 1, e.now);
      assert Follows(env, states, events, k - 1);
      RequestKeepsSound(env, states[k - 1], e.now, e.request);
      ActiveUntilExpiry(states[k], e.now, now);
    }
  }

  // ---- Main results ----------------------------------------------------------------------------------

  /**
   In every run from a sound table, and at every time from its last request on, an application has at
   most one active link for each recipient, the newest.
   */
  lemma AtMostOneActive(env: Environment, states: seq<seq<Link>>, events: seq<Event>, start: int, now: int, i: nat, j: nat)
    requires Run(env, states, events) && Sound(states[0], start) && start <= now
    requires forall k :: 0 <= k < |events| ==> start <= events[k].now <= now
    requires i < |states[|events|]| && Active(states[|events|][i], now)
    requires j < |states[|events|]| && Same(states[|events|][i], states[|events|][j])
    ensures j <= i && (Active(states[|events|][j], now) ==> j == i)
  {
    RunStaysSound(env, states, events, start, |events|, now);
    var links := states[|events|];
    assert Active(links[i], now) && Same(links[i], links[j]) && Same(links[j], links[i]);
  }

  /** The token in the mail of link i leads to link i and no other. */
  lemma TokenFindsItsLink(links: seq<Link>, i: nat)
    requires TokensSound(links) && i < |links|
    ensures var found := FindByToken(links, links[i].secret);
            found == if links[i].tokenHash.None? && links[i].status == Revoked then None else Some(i)
  {
    forall j | 0 <= j < |links| && j != i
      ensures links[j].tokenHash != Some(Digest(links[i].secret)) && links[j].token != Some(links[i].secret)
    {
      assert Columns(links[j]);
    }
    assert Columns(links[i]);
  }

  /** Once revoked, a link stays revoked and its token never works again, for anyone. */
  lemma RevokedForGood(env: Environment, states: seq<seq<Link>>, events: seq<Event>, start: int, k: nat, m: nat, i: nat,
                       now: int, email: Option<string>, recipient: Recipient)
    requires Run(env, states, events) && Sound(states[0], start) && k <= m <= |events|
    requires forall j :: 0 <= j < |events| ==> start <= events[j].now <= now
    requires start <= now
    requires i < |states[k]| && states[k][i].status == Revoked
    ensures i < |states[m]| && states[m][i].status == Revoked
    ensures Resolve(states[m], now, states[k][i].secret, email, recipient).Err?
  {
    RunEvolves(env, states, events, k, m, i);
    RunStaysSound(env, states, events, start, m, now);
    TokenFindsItsLink(states[m], i);
  }

  /** Replacing an invitation, by resending it or by sending to another address, kills its token
      for the rest of the run, whether or not the new mail goes out. */
  lemma SupersededNeverWorks(env: Environment, states: seq<seq<Link>>, events: seq<Event>, start: int, k: nat, m: nat,
                             i: nat, now: int, email: Option<string>, recipient: Recipient)
    requires Run(env, states, events) && Sound(states[0], start) && k < m <= |events| && start <= now
    requires forall j :: 0 <= j < |events| ==> start <= events[j].now <= now
    requires i < |states[k]| && Replaces(env, states[k], events[k], i)
    ensures Resolve(states[m], now, states[k][i].secret, email, recipient).Err?
  {
    assert Follows(env, states, events, k);
    RunEvolves(env, states, events, k, k + 1, i);
    assert states[k + 1][i].status == Revoked;
    RevokedForGood(env, states, events, start, k + 1, m, i, now, email, recipient);
  }

  /** The event sends anew to the recipient of link i, which is pending there. */
  predicate Replaces(env: Environment, links: seq<Link>, e: Event, i: nat)
    requires i < |links|
  {
    var r, link := e.request, links[i];
    && Mails(r) && For(link, r.applicationId, r.recipient) && OwnershipError(env, r.applicationId, r.userId).None?
    && match r
       case Send(_, _, _, rawEmail, _) =>
         FindActive(links, r.applicationId, r.recipient, e.now) == Some(i)
         && (link.recipientEmail.None? || Slugs.Lower(link.recipientEmail.value) != Normalize(rawEmail))
       case Resend(_, _, _, _) =>
         FindLatest(links, r.applicationId, r.recipient) == Some(i) && HasEmail(link) && link.status in {Sent, Opened}
       case _ => false
  }

  /** Only a replaced invitation is revoked: whatever is sent, a link is revoked by it exactly if it
      was pending and the newest, and for a new address also unexpired. */
  lemma ReplacementRevokesExactly(env: Environment, links: seq<Link>, e: Event, i: nat)
    requires i < |links| && links[i].status != Revoked && Mails(e.request)
    ensures var after := Apply(env, links, e.now, e.request).links;
            i < |after| && (after[i].status == Revoked <==> Replaces(env, links, e, i))
  {
    ApplyEvolves(env, links, e.now, e.request);
    match e.request
    case Send(_, _, _, _, _) => SendRevokes(env, links, e, i);
    case Resend(_, _, _, _) => ResendRevokes(env, links, e, i);
    case _ =>
  }

  lemma SendRevokes(env: Environment, links: seq<Link>, e: Event, i: nat)
    requires i < |links| && links[i].status != Revoked && e.request.Send?
    ensures var after := DoSend(env, links, e.now, e.request).links;
            i < |after| && (after[i].status == Revoked <==> Replaces(env, links, e, i))
  {
  }

  lemma ResendRevokes(env: Environment, links: seq<Link>, e: Event, i: nat)
    requires i < |links| && links[i].status != Revoked && e.request.Resend?
    ensures var after := DoResend(env, links, e.now, e.request).links;
            i < |after| && (after[i].status == Revoked <==> Replaces(env, links, e, i))
  {
  }

  /** So a token that works when something new is sent stops working exactly if its link is replaced. */
  lemma TokenDiesExactlyWhenReplaced(env: Environment, links: seq<Link>, e: Event, i: nat, email: Option<string>)
    requires Sound(links, e.now) && i < |links| && Mails(e.request) && UnusedToken(links, e.request.fortune.token)
    requires Resolve(links, e.now, links[i].secret, email, links[i].linkType) == Ok(i)
    ensures var after := Apply(env, links, e.now, e.request).links;
            && (Replaces(env, links, e, i) ==> Resolve(after, e.now, links[i].secret, email, links[i].linkType).Err?)
            && (!Replaces(env, links, e, i) ==> Resolve(after, e.now, links[i].secret, email, links[i].linkType) == Ok(i))
  {
    var after := Apply(env, links, e.now, e.request).links;
    ReplacementRevokesExactly(env, links, e, i);
    RequestKeepsSound(env, links, e.now, e.request);
    ApplyEvolves(env, links, e.now, e.request);
    assert Evolves(links[i], after[i]);
    TokenFindsItsLink(links, i);
    WorksUnlessRevoked(links[i], after, i, e.now, email);
  }

  lemma WorksUnlessRevoked(before: Link, after: seq<Link>, i: nat, now: int, email: Option<string>)
    requires TokensSound(after) && i < |after| && Evolves(before, after[i])
    requires now <= before.expiresAt && EmailMatches(before, email)
    ensures var found := Resolve(after, now, before.secret, email, before.linkType);
            if after[i].status == Revoked then found.Err? else found == Ok(i)
  {
    TokenFindsItsLink(after, i);
  }

  /** A verified link, and one whose mail failed, is never replaced: its token works until it expires,
      whatever is sent anew. */
  lemma VerifiedKeepsWorking(env: Environment, states: seq<seq<Link>>, events: seq<Event>, start: int, k: nat, m: nat, i: nat,
                             now: int, email: Option<string>)
    requires Run(env, states, events) && Sound(states[0], start) && k <= m <= |events| && start <= now
    requires forall j :: 0 <= j < |events| ==> start <= events[j].now
    requires m > 0 ==> events[m - 1].now <= now
    requires i < |states[k]| && states[k][i].status in {Verified, Failed}
    requires now <= states[k][i].expiresAt && EmailMatches(states[k][i], email)
    ensures Resolve(states[m], now, states[k][i].secret, email, states[k][i].linkType) == Ok(i)
  {
    RunEvolves(env, states, events, k, m, i);
    RunStaysSound(env, states, events, start, m, now);
    TokenFindsItsLink(states[m], i);
  }

  /** A token that still opens a pending invitation is the newest one's, but for the very instant
      in which an older link expires. */
  lemma OnlyNewestOpens(links: seq<Link>, now: int, rawToken: nat, email: Option<string>, recipient: Recipient)
    requires Sound(links, now)
    requires var found := Resolve(links, now, rawToken, email, recipient);
             found.Ok? && links[found.value].status in {Sent, Opened}
    ensures var i := Resolve(links, now, rawToken, email, recipient).value;
            links[i].expiresAt == now || FindLatest(links, links[i].applicationId, recipient) == Some(i)
  {
    var i := Resolve(links, now, rawToken, email, recipient).value;
    var latest := FindLatest(links, links[i].applicationId, recipient);
    assert latest.Some?;
    if i < latest.value {
      assert Same(links[i], links[latest.value]);
    }
  }

  /** In that instant the link is shown as pending and opens, yet a new one may be sent beside it. */
  lemma PendingButNotActive(link: Link, now: int)
    ensures ViewOf(link, now) in {PendingView, OpenedView} && !Active(link, now)
       <==> link.status in {Sent, Opened} && link.expiresAt == now
  {
  }

  lemma {:induction false} LowerIsIdempotent(s: string)
    ensures Slugs.Lower(Slugs.Lower(s)) == Slugs.Lower(s)
  {
    if s != "" {
      LowerIsIdempotent(s[1..]);
      LowerConcat(Slugs.LowerChar(s[0]), Slugs.Lower(s[1..]));
      LowerCharTwice(s[0]);
    }
  }

  lemma {:induction false} LowerConcat(a: string, b: string)
    ensures Slugs.Lower(a + b) == Slugs.Lower(a) + Slugs.Lower(b)
  {
    if a == "" {
      assert a + b == b;
    } else {
      assert (a + b)[1..] == a[1..] + b;
      LowerConcat(a[1..], b);
      Slugs.Associate(Slugs.LowerChar(a[0]), Slugs.Lower(a[1..]), Slugs.Lower(b));
    }
  }

  lemma LowerCharTwice(c: char)
    ensures Slugs.Lower(Slugs.LowerChar(c)) == Slugs.LowerChar(c)
  {
    var t := Slugs.LowerChar(c);
    if c == '\U{0130}' {
      assert t[1..] == ['\U{0307}'] && t[1..][1..] == "";
      assert Slugs.Lower(t) == ['i'] + Slugs.Lower(['\U{0307}']);
      assert Slugs.Lower(['\U{0307}']) == ['\U{0307}'];
    } else {
      assert |t| == 1 && t[1..] == "";
    }
  }

  lemma NoneActiveAtExpiry(links: seq<Link>, now: int, i: nat, applicationId: nat, recipient: Recipient)
    requires OnlyNewestActive(links, now) && i < |links| && links[i].expiresAt == now
    requires FindLatest(links, applicationId, recipient) == Some(i)
    ensures FindActive(links, applicationId, recipient, now) == None
  {
    forall j | 0 <= j < |links| && For(links[j], applicationId, recipient) ensures !Active(links[j], now) {
      assert j < i ==> Same(links[j], links[i]);
    }
  }

  /** With nothing active, a successful send only appends. */
  lemma SendOverNothing(env: Environment, links: seq<Link>, now: int, r: Request)
    requires r.Send? && DoSend(env, links, now, r).error.None?
    requires FindActive(links, r.applicationId, r.recipient, now) == None
    ensures var after := DoSend(env, links, now, r).links;
            && |after| == |links| + 1 && (forall j :: 0 <= j < |links| ==> after[j] == links[j])
            && var link := after[|links|];
               && link.secret == r.fortune.token && link.recipientEmail == Some(Normalize(r.rawEmail))
               && link.tokenHash == Some(Digest(link.secret)) && link.status in {Sent, Failed}
               && link.linkType == r.recipient && link.expiresAt == now + env.linkTtl
  {
  }

  /** So when an invitation is replaced in the instant it expires, both tokens open, whatever
      address the new one is for. */
  lemma BothOpenAtExpiry(env: Environment, links: seq<Link>, now: int, i: nat, email: Option<string>, request: Request)
    requires Sound(links, now) && i < |links| && links[i].status in {Sent, Opened} && links[i].expiresAt == now
    requires EmailMatches(links[i], email)
    requires request.Send? && For(links[i], request.applicationId, request.recipient)
    requires FindLatest(links, request.applicationId, request.recipient) == Some(i)
    requires UnusedToken(links, request.fortune.token) && Apply(env, links, now, request).error.None?
    ensures var after := Apply(env, links, now, request).links;
            && Resolve(after, now, links[i].secret, email, request.recipient) == Ok(i)
            && Resolve(after, now, request.fortune.token, Some(request.rawEmail), request.recipient) == Ok(|links|)
  {
    NoneActiveAtExpiry(links, now, i, request.applicationId, request.recipient);
    SendOverNothing(env, links, now, request);
    var after := Apply(env, links, now, request).links;
    SendKeepsSound(env, links, now, request);
    TokenFindsItsLink(after, i);
    TokenFindsItsLink(after, |links|);
    LowerIsIdempotent(Slugs.Trim(request.rawEmail));
  }

  // ---- Sending twice -------------------------------------------------------------------------------

  /** A delivered invitation is the active one until it expires. */
  lemma ActiveAfterSend(env: Environment, links: seq<Link>, now: int, later: int, r: Request)
    requires r.Send? && r.fortune.delivered && now <= later
    requires Sound(links, now) && UnusedToken(links, r.fortune.token) && DoSend(env, links, now, r).error.None?
    ensures var after := DoSend(env, links, now, r).links;
            && after != [] && after[|after| - 1].recipientEmail == Some(Normalize(r.rawEmail))
            && FindActive(after, r.applicationId, r.recipient, later)
               == if later < now + env.linkTtl then Some(|after| - 1) else None
  {
    var after := DoSend(env, links, now, r).links;
    var n := |after| - 1;
    SendKeepsSound(env, links, now, r);
    ActiveUntilExpiry(after, now, later);
    assert For(after[n], r.applicationId, r.recipient);
    forall j | 0 <= j < n && For(after[j], r.applicationId, r.recipient) ensures !Active(after[j], later) {
      assert Same(after[j], after[n]);
    }
  }

  /** It blocks a second one to the same address for exactly as long. */
  lemma SendingTwice(env: Environment, links: seq<Link>, now: int, later: int, first: Request, second: Request)
    requires first.Send? && second.Send? && now <= later
    requires first.applicationId == second.applicationId && first.recipient == second.recipient
    requires first.userId == second.userId && Normalize(first.rawEmail) == Normalize(second.rawEmail)
    requires first.fortune.delivered && Sound(links, now) && UnusedToken(links, first.fortune.token)
    requires Apply(env, links, now, first).error.None?
    ensures Apply(env, Apply(env, links, now, first).links, later, second).error == Some(AlreadyPending)
       <==> later < now + env.linkTtl
  {
    ActiveAfterSend(env, links, now, later, first);
    LowerIsIdempotent(Slugs.Trim(first.rawEmail));
  }

  // ---- Verification ------------------------------------------------------------------------------------

  /** A verified link was opened before, or as, it was verified, and after it was created; a revoked one
      has the time it was revoked. */
  predicate VerifiedInOrder(links: seq<Link>, now: int) {
    forall i :: 0 <= i < |links| ==> InOrder(links[i], now)
  }

  predicate InOrder(l: Link, now: int) {
    && l.createdAt <= now
    && (l.accessedAt.Some? ==> l.createdAt <= l.accessedAt.value <= now)
    && (l.status in {Opened, Verified} ==> l.accessedAt.Some?)
    && (l.status == Verified ==> l.verifiedAt.Some? && l.accessedAt.value <= l.verifiedAt.value <= now)
    && (l.status == Revoked <==> l.revokedAt.Some?)
    && (l.revokedAt.Some? ==> l.createdAt <= l.revokedAt.value <= now)
  }

  lemma {:induction false} VerifiedOnlyAfterOpening(env: Environment, states: seq<seq<Link>>, events: seq<Event>, k: nat, now: int)
    requires Run(env, states, events) && states[0] == [] && k <= |events|
    requires k > 0 ==> events[k - 1].now <= now
    ensures VerifiedInOrder(states[k], now)
    decreases k
  {
    if k > 0 {
      var e := events[k - 1];
      VerifiedOnlyAfterOpening(env, states, events, k - 1, e.now);
      assert Follows(env, states, events, k - 1);
      RequestKeepsOrder(env, states[k - 1], e.now, e.request);
      forall i | 0 <= i < |states[k]| ensures InOrder(states[k][i], now) {
        assert InOrder(states[k][i], e.now);
      }
    }
  }

  lemma ReplaceKeepsOrder(links: seq<Link>, now: int, i: nat, link: Link)
    requires VerifiedInOrder(links, now) && i < |links| && InOrder(link, now)
    ensures VerifiedInOrder(links[i := link], now)
  {
  }

  lemma CreateKeepsOrder(links: seq<Link>, applicationId: nat, recipient: Recipient, email: string, now: int, ttl: nat,
                         fortune: Fortune)
    requires VerifiedInOrder(links, now)
    ensures VerifiedInOrder(CreateAndSend(links, applicationId, recipient, email, now, ttl, fortune).links, now)
  {
  }

  lemma RequestKeepsOrder(env: Environment, links: seq<Link>, now: int, request: Request)
    requires VerifiedInOrder(links, now)
    ensures VerifiedInOrder(Apply(env, links, now, request).links, now)
  {
    match request
    case Send(applicationId, _, recipient, rawEmail, fortune) =>
      var active := FindActive(links, applicationId, recipient, now);
      var left := if active.Some? then Revoke(links, active.value, now) else links;
      if active.Some? {
        assert InOrder(links[active.value], now);
        ReplaceKeepsOrder(links, now, active.value, left[active.value]);
      }
      CreateKeepsOrder(left, applicationId, recipient, Normalize(rawEmail), now, env.linkTtl, fortune);
    case Resend(applicationId, _, recipient, fortune) =>
      var latest := FindLatest(links, applicationId, recipient);
      if latest.Some? && HasEmail(links[latest.value]) {
        var link := links[latest.value];
        assert InOrder(link, now);
        var left := if link.status in {Sent, Opened} then Revoke(links, latest.value, now) else links;
        ReplaceKeepsOrder(links, now, latest.value, left[latest.value]);
        CreateKeepsOrder(left, applicationId, recipient, link.recipientEmail.value, now, env.linkTtl, fortune);
      }
    case Visit(rawToken, email, recipient) =>
      var found := Resolve(links, now, rawToken, email, recipient);
      if found.Ok? {
        assert InOrder(links[found.value], now);
        ReplaceKeepsOrder(links, now, found.value, Accessed(links[found.value], now));
      }
    case Submit(rawToken, email, recipient) =>
      var found := Resolve(links, now, rawToken, email, recipient);
      if found.Ok? {
        assert InOrder(links[found.value], now);
        ReplaceKeepsOrder(links, now, found.value, MarkedVerified(Accessed(links[found.value], now), now));
      }
  }
}
