/**
 * The contact endpoint of src/app/api/contact/route.ts: a per-client
 * fixed-window limiter kept in a mutable map, a periodic sweep of that
 * map, and the ordered checks on the submitted fields. The clock and the
 * e-mail service are parameters.
 */
module ContactRoute {
  import opened Wrappers
  import opened Text

  const MaxRequests: nat := 5
  /** One hour in milliseconds. */
  const Window: nat := 3600000
  const UnknownClient: string := "unknown"

  const TooManyMessage: string := "Too many requests. Please try again later."
  const RequiredMessage: string := "All fields are required"
  const InvalidEmailMessage: string := "Invalid email address"
  const LengthMessage: string := "Field length exceeded"
  const ThankYouMessage: string := "Thank you for your message! We'll be in touch soon."
  const NotConfiguredMessage: string := "Email service is not configured. Please try again later."
  const SendFailedMessage: string := "Failed to send message. Please try again later."

  /** `x-forwarded-for || x-real-ip || 'unknown'`. */
  function ClientKey(forwardedFor: Option<string>, realIp: Option<string>): (key: string)
    ensures forwardedFor.Some? && forwardedFor.value != "" ==> key == forwardedFor.value
    ensures (forwardedFor.None? || forwardedFor.value == "") && realIp.Some? && realIp.value != "" ==> key == realIp.value
    ensures (forwardedFor.None? || forwardedFor.value == "") && (realIp.None? || realIp.value == "") ==> key == UnknownClient
    ensures key != ""
  {
    if forwardedFor.Some? && forwardedFor.value != "" then forwardedFor.value
    else if realIp.Some? && realIp.value != "" then realIp.value
    else UnknownClient
  }

  datatype Entry = Entry(count: nat, resetTime: int)

  datatype Decision = Allowed | Limited

  /** Lines 32-49 as written: the decision and the map afterwards. */
  function Step(m: map<string, Entry>, key: string, now: int): (r: (Decision, map<string, Entry>))
    ensures key !in m ==> r == (Allowed, m[key := Entry(1, now + Window)])
    ensures key in m && m[key].resetTime > now && m[key].count >= MaxRequests ==> r == (Limited, m)
    ensures key in m && !(m[key].resetTime > now && m[key].count >= MaxRequests) && m[key].resetTime < now ==>
              r == (Allowed, m[key := Entry(1, now + Window)])
    ensures key in m && !(m[key].resetTime > now && m[key].count >= MaxRequests) && m[key].resetTime >= now ==>
              r == (Allowed, m[key := m[key].(count := m[key].count + 1)])
    ensures r.1.Keys == m.Keys + {key}
    ensures forall k :: k in m && k != key ==> r.1[k] == m[k]
  {
    if key in m then
      var e := m[key];
      if e.resetTime > now && e.count >= MaxRequests then (Limited, m)
      else if e.resetTime < now then (Allowed, m[key := Entry(1, now + Window)])
      else (Allowed, m[key := e.(count := e.count + 1)])
    else (Allowed, m[key := Entry(1, now + Window)])
  }

  /** The map after the sweep at time `now`: exactly the entries with resetTime < now are gone. */
  function Swept(m: map<string, Entry>, now: int): (r: map<string, Entry>)
    ensures forall k :: k in r <==> k in m && m[k].resetTime >= now
    ensures forall k :: k in r ==> r[k] == m[k]
  {
    map k | k in m && m[k].resetTime >= now :: m[k]
  }

  /** A sweep at or before a request's time never changes what that request gets. */
  lemma SweepPreservesDecisions(m: map<string, Entry>, key: string, sweepTime: int, now: int)
    requires sweepTime <= now
    ensures Step(Swept(m, sweepTime), key, now).0 == Step(m, key, now).0
    ensures key in Step(m, key, now).1 && key in Step(Swept(m, sweepTime), key, now).1
    ensures Step(Swept(m, sweepTime), key, now).1[key] == Step(m, key, now).1[key]
  {
  }

  /** The decisions for a run of requests from one client. */
  function Replay(m: map<string, Entry>, key: string, times: seq<int>): (ds: seq<Decision>)
    ensures |ds| == |times|
    decreases |times|
  {
    if times == [] then []
    else
      var r := Step(m, key, times[0]);
      [r.0] + Replay(r.1, key, times[1..])
  }

  /** While the window is live, a client with `c` requests counted gets exactly 5 - c more. */
  lemma {:induction false} LiveWindowAdmitsUpToFive(m: map<string, Entry>, key: string, times: seq<int>)
    requires key in m && 1 <= m[key].count <= MaxRequests
    requires forall k :: 0 <= k < |times| ==> times[k] < m[key].resetTime
    ensures forall k :: 0 <= k < |times| ==> (Replay(m, key, times)[k] == Allowed <==> m[key].count + k < MaxRequests)
    decreases |times|
  {
    if times != [] {
      var r := Step(m, key, times[0]);
      var e := m[key];
      var ds := Replay(m, key, times);
      var rest := Replay(r.1, key, times[1..]);
      assert ds == [r.0] + rest;
      if e.count < MaxRequests {
        assert r.0 == Allowed && r.1[key] == Entry(e.count + 1, e.resetTime);
        LiveWindowAdmitsUpToFive(r.1, key, times[1..]);
        forall k | 0 < k < |ds| ensures ds[k] == Allowed <==> e.count + k < MaxRequests {
          assert ds[k] == rest[k - 1];
          assert rest[k - 1] == Allowed <==> r.1[key].count + (k - 1) < MaxRequests;
        }
      } else {
        assert r == (Limited, m);
        LiveWindowAdmitsUpToFive(m, key, times[1..]);
        forall k | 0 < k < |ds| ensures ds[k] == Limited {
          assert ds[k] == rest[k - 1];
          assert rest[k - 1] == Allowed <==> m[key].count + (k - 1) < MaxRequests;
        }
      }
    }
  }

  /**
   * A new client gets five requests through within the hour after its
   * first one: the sixth and later get 429.
   */
  lemma AtMostFivePerWindow(m: map<string, Entry>, key: string, times: seq<int>)
    requires key !in m && times != []
    requires forall k :: 0 <= k < |times| ==> times[k] < times[0] + Window
    ensures forall k :: 0 <= k < |times| ==> (Replay(m, key, times)[k] == Allowed <==> k < MaxRequests)
  {
    var r := Step(m, key, times[0]);
    var ds := Replay(m, key, times);
    var rest := Replay(r.1, key, times[1..]);
    assert ds == [r.0] + rest;
    assert r.1[key] == Entry(1, times[0] + Window);
    LiveWindowAdmitsUpToFive(r.1, key, times[1..]);
    forall k | 0 < k < |ds| ensures ds[k] == Allowed <==> k < MaxRequests {
      assert ds[k] == rest[k - 1];
      assert rest[k - 1] == Allowed <==> r.1[key].count + (k - 1) < MaxRequests;
    }
  }

  /**
   * At the very millisecond an entry's window ends it is neither live nor
   * expired: every request at that instant passes and is added to the old
   * count, however large.
   */
  lemma ResetInstantNeverLimits(m: map<string, Entry>, key: string, now: int)
    requires key in m && m[key].resetTime == now
    ensures Step(m, key, now).0 == Allowed
    ensures Step(m, key, now).1[key] == Entry(m[key].count + 1, now)
  {
  }

  /** The evidently intended step: an entry whose reset time has come starts a new window. */
  function StepFixed(m: map<string, Entry>, key: string, now: int): (r: (Decision, map<string, Entry>))
    ensures key in m && m[key].resetTime > now && m[key].count >= MaxRequests ==> r == (Limited, m)
    ensures !(key in m && m[key].resetTime > now) ==> r == (Allowed, m[key := Entry(1, now + Window)])
    ensures key in m && m[key].resetTime > now && m[key].count < MaxRequests ==>
              r == (Allowed, m[key := m[key].(count := m[key].count + 1)])
  {
    if key in m && m[key].resetTime > now then
      var e := m[key];
      if e.count >= MaxRequests then (Limited, m) else (Allowed, m[key := e.(count := e.count + 1)])
    else (Allowed, m[key := Entry(1, now + Window)])
  }

  /** With the fixed step no counted entry ever exceeds five, and a window that has ended starts afresh. */
  lemma StepFixedKeepsCountBounded(m: map<string, Entry>, key: string, now: int)
    requires forall k :: k in m ==> 1 <= m[k].count <= MaxRequests
    ensures var r := StepFixed(m, key, now);
            && (forall k :: k in r.1 ==> 1 <= r.1[k].count <= MaxRequests)
            && (key in m && m[key].resetTime <= now ==> r.0 == Allowed && r.1[key] == Entry(1, now + Window))
  {
  }

  predicate NoSpaceOrAt(s: string) {
    forall i :: 0 <= i < |s| ==> !IsSpace(s[i]) && s[i] != '@'
  }

  /**
   * `/^[^\s@]+@[^\s@]+\.[^\s@]+$/`: three non-empty runs free of blanks
   * and '@', joined by '@' and '.'.
   */
  ghost predicate MatchesEmailPattern(s: string) {
    exists i, j :: 0 < i && i + 1 < j && j + 1 < |s| && s[i] == '@' && s[j] == '.' &&
                   NoSpaceOrAt(s[..i]) && NoSpaceOrAt(s[i + 1..j]) && NoSpaceOrAt(s[j + 1..])
  }

  function IndexOf(s: string, c: char): (k: Option<nat>)
    ensures k.Some? ==> k.value < |s| && s[k.value] == c && c !in s[..k.value]
    ensures k.None? ==> c !in s
  {
    if s == [] then None
    else if s[0] == c then Some(0)
    else
      var k := IndexOf(s[1..], c);
      if k.Some? then (assert s[..k.value + 1] == [s[0]] + s[1..][..k.value]; Some(k.value + 1)) else None
  }

  predicate NoBlank(s: string) {
    forall i :: 0 <= i < |s| ==> !IsSpace(s[i])
  }

  /** A domain part: no '@', and a '.' that is neither its first nor its last character. */
  predicate IsDomain(d: string) {
    '@' !in d && exists p :: 0 < p < |d| - 1 && d[p] == '.'
  }

  /**
   * The pattern's test written out: no blank anywhere, a first '@' with
   * something before it, and a domain after it.
   */
  predicate IsValidEmail(s: string) {
    NoBlank(s) && IndexOf(s, '@').Some? && IndexOf(s, '@').value > 0 &&
    IsDomain(s[IndexOf(s, '@').value + 1..])
  }

  lemma ValidEmailMatchesPattern(s: string)
    requires IsValidEmail(s)
    ensures MatchesEmailPattern(s)
  {
    var i := IndexOf(s, '@').value;
    var domain := s[i + 1..];
    var p :| 0 < p < |domain| - 1 && domain[p] == '.';
    var j := i + 1 + p;
    assert s[j] == '.';
    assert NoSpaceOrAt(s[..i]) by {
      forall k | 0 <= k < i ensures !IsSpace(s[..i][k]) && s[..i][k] != '@' {
        assert s[..i][k] == s[k];
        assert s[k] in s[..i];
      }
    }
    var mid, tail := s[i + 1..j], s[j + 1..];
    assert NoSpaceOrAt(mid) by {
      forall k | 0 <= k < |mid| ensures !IsSpace(mid[k]) && mid[k] != '@' {
        assert mid[k] == s[i + 1 + k] == domain[k];
      }
    }
    assert NoSpaceOrAt(tail) by {
      forall k | 0 <= k < |tail| ensures !IsSpace(tail[k]) && tail[k] != '@' {
        assert tail[k] == s[j + 1 + k] == domain[p + 1 + k];
      }
    }
  }

  lemma PatternFirstAt(s: string, i: nat)
    requires i < |s| && s[i] == '@' && NoSpaceOrAt(s[..i])
    ensures IndexOf(s, '@') == Some(i)
  {
  }

  /** A string split by two separators into blank-free pieces has no blank. */
  lemma PiecesHaveNoBlank(s: string, i: nat, j: nat)
    requires i < j < |s| && !IsSpace(s[i]) && !IsSpace(s[j])
    requires NoSpaceOrAt(s[..i]) && NoSpaceOrAt(s[i + 1..j]) && NoSpaceOrAt(s[j + 1..])
    ensures NoBlank(s)
  {
    var head, mid, tail := s[..i], s[i + 1..j], s[j + 1..];
    forall k | 0 <= k < |s| ensures !IsSpace(s[k]) {
      if k < i {
        assert s[k] == head[k];
      } else if i < k < j {
        assert s[k] == mid[k - i - 1];
      } else if j < k {
        assert s[k] == tail[k - j - 1];
      }
    }
  }

  /** The text after the '@' of the pattern is a domain. */
  lemma PiecesFormDomain(d: string, p: nat)
    requires 0 < p < |d| - 1 && d[p] == '.'
    requires NoSpaceOrAt(d[..p]) && NoSpaceOrAt(d[p + 1..])
    ensures IsDomain(d)
  {
    var mid, tail := d[..p], d[p + 1..];
    forall k | 0 <= k < |d| ensures d[k] != '@' {
      if k < p {
        assert d[k] == mid[k];
      } else if k > p {
        assert d[k] == tail[k - p - 1];
      }
    }
  }

  lemma PiecesMakeValidEmail(s: string, i: nat, j: nat)
    requires 0 < i && i + 1 < j && j + 1 < |s| && s[i] == '@' && s[j] == '.'
    requires NoSpaceOrAt(s[..i]) && NoSpaceOrAt(s[i + 1..j]) && NoSpaceOrAt(s[j + 1..])
    ensures IsValidEmail(s)
  {
    PiecesHaveNoBlank(s, i, j);
    PatternFirstAt(s, i);
    var domain := s[i + 1..];
    var p := j - i - 1;
    assert domain[..p] == s[i + 1..j];
    assert domain[p + 1..] == s[j + 1..];
    PiecesFormDomain(domain, p);
  }

  lemma PatternIsValidEmail(s: string)
    requires MatchesEmailPattern(s)
    ensures IsValidEmail(s)
  {
    var i, j :| 0 < i && i + 1 < j && j + 1 < |s| && s[i] == '@' && s[j] == '.' &&
                NoSpaceOrAt(s[..i]) && NoSpaceOrAt(s[i + 1..j]) && NoSpaceOrAt(s[j + 1..]);
    PiecesMakeValidEmail(s, i, j);
  }

  /** The written-out test and the pattern accept the same strings. */
  lemma EmailTestMatchesPattern(s: string)
    ensures IsValidEmail(s) <==> MatchesEmailPattern(s)
  {
    if IsValidEmail(s) {
      ValidEmailMatchesPattern(s);
    }
    if MatchesEmailPattern(s) {
      PatternIsValidEmail(s);
    }
  }

  lemma EmailExamples()
    ensures IsValidEmail("a@b.co")
    ensures !IsValidEmail("a@b") && !IsValidEmail("@b.co") && !IsValidEmail("a b@c.de")
  {
    assert IndexOf("a@b.co", '@') == Some(1);
    assert "a@b.co"[2..][1] == '.';
    assert IndexOf("a@b", '@') == Some(1);
    assert "a@b"[2..] == "b";
    assert IndexOf("@b.co", '@') == Some(0);
    assert IsSpace("a b@c.de"[1]);
  }

  /** The submitted JSON members; None is a member that is absent or not a string. */
  datatype Submission = Submission(
    name: Option<string>, email: Option<string>, subject: Option<string>,
    message: Option<string>, website: Option<string>)

  predicate Given(v: Option<string>) {
    v.Some? && v.value != ""
  }

  datatype Verdict =
    | SilentlyDropped // the honeypot is filled: 200 success, nothing sent
    | Rejected(error: string) // 400
    | Valid

  /** Lines 56-84, in order. */
  function ValidateSubmission(s: Submission): (v: Verdict)
    ensures Given(s.website) ==> v == SilentlyDropped
    ensures !Given(s.website) && !(Given(s.name) && Given(s.email) && Given(s.subject) && Given(s.message)) ==>
              v == Rejected(RequiredMessage)
    ensures v == Rejected(InvalidEmailMessage) <==>
              !Given(s.website) && Given(s.name) && Given(s.email) && Given(s.subject) && Given(s.message) &&
              !IsValidEmail(s.email.value)
    ensures v == Valid <==>
              && !Given(s.website)
              && Given(s.name) && Given(s.email) && Given(s.subject) && Given(s.message)
              && IsValidEmail(s.email.value)
              && |s.name.value| <= 100 && |s.subject.value| <= 200 && |s.message.value| <= 5000
  {
    if Given(s.website) then SilentlyDropped
    else if !(Given(s.name) && Given(s.email) && Given(s.subject) && Given(s.message)) then Rejected(RequiredMessage)
    else if !IsValidEmail(s.email.value) then Rejected(InvalidEmailMessage)
    else if |s.name.value| > 100 || |s.subject.value| > 200 || |s.message.value| > 5000 then Rejected(LengthMessage)
    else Valid
  }

  /**
   * How one call to the e-mail service ends. The route never reads what the
   * call returns, so `Sent` means only that the call returned, whatever it
   * answered; `Threw` carries the message of the error it threw.
   */
  datatype SendOutcome = Sent | Threw(message: string)

  datatype Mail = Notification(to: string, replyTo: string, subject: string) | AutoReply(to: string)

  const DefaultContactEmail: string := "info@tonalfocus.com"

  /** `process.env.CONTACT_EMAIL || 'info@tonalfocus.com'`. */
  function NotificationRecipient(contactEmail: Option<string>): (to: string)
    ensures contactEmail.Some? && contactEmail.value != "" ==> to == contactEmail.value
    ensures contactEmail.None? || contactEmail == Some("") ==> to == DefaultContactEmail
  {
    if contactEmail.Some? && contactEmail.value != "" then contactEmail.value else DefaultContactEmail
  }

  datatype Response = Response(status: nat, success: bool, message: string)

  /** The catch block: an error mentioning "API key" is a configuration problem. */
  function ErrorResponse(message: string): (r: Response)
    ensures Contains(message, "API key") ==> r == Response(503, false, NotConfiguredMessage)
    ensures !Contains(message, "API key") ==> r == Response(500, false, SendFailedMessage)
  {
    if Contains(message, "API key") then Response(503, false, NotConfiguredMessage)
    else Response(500, false, SendFailedMessage)
  }

  /**
   * Everything after the limiter. `body` is `Err(message)` when
   * `request.json()` throws or the body is null (destructuring it throws),
   * with the message of that error; the catch block answers it like any
   * other error, so a parse message that quotes "API key" answers 503.
   * `contactEmail` is the CONTACT_EMAIL variable. Returns the response and
   * the mails sent.
   */
  function HandleBody(contactEmail: Option<string>, body: Result<Submission, string>, notify: SendOutcome,
                      reply: SendOutcome): (r: (Response, seq<Mail>))
    ensures body.Err? ==> r == (ErrorResponse(body.error), [])
    ensures body.Err? ==> (r.0.status == 503 <==> Contains(body.error, "API key"))
    ensures body.Ok? && ValidateSubmission(body.value) == SilentlyDropped ==> r == (Response(200, true, ""), [])
    ensures body.Ok? && ValidateSubmission(body.value).Rejected? ==>
              r == (Response(400, false, ValidateSubmission(body.value).error), [])
    ensures r.1 != [] ==> body.Ok? && ValidateSubmission(body.value) == Valid
    ensures r.0.status == 200 && r.0.message == ThankYouMessage <==>
              body.Ok? && ValidateSubmission(body.value) == Valid && notify == Sent && reply == Sent
    ensures r.1 != [] ==>
              r.1[0] == Notification(NotificationRecipient(contactEmail), body.value.email.value,
                                     "[Contact Form] " + body.value.subject.value)
    ensures |r.1| == 2 ==> notify == Sent && reply == Sent && r.1[1] == AutoReply(body.value.email.value)
    ensures |r.1| <= 2 && (|r.1| == 1 ==> notify == Sent && reply.Threw?)
  {
    if body.Err? then (ErrorResponse(body.error), [])
    else
      var s := body.value;
      match ValidateSubmission(s)
      case SilentlyDropped => (Response(200, true, ""), [])
      case Rejected(msg) => (Response(400, false, msg), [])
      case Valid =>
        var first := Notification(NotificationRecipient(contactEmail), s.email.value, "[Contact Form] " + s.subject.value);
        match notify
        case Threw(msg) => (ErrorResponse(msg), [])
        case Sent =>
          match reply
          case Threw(msg) => (ErrorResponse(msg), [first])
          case Sent => (Response(200, true, ThankYouMessage), [first, AutoReply(s.email.value)])
  }

  class RateLimiter {
    /** The module-level `rateLimitMap`. */
    var entries: map<string, Entry>

    constructor ()
      ensures entries == map[]
    {
      entries := map[];
    }

    /** The `setInterval` callback: delete every entry whose reset time is before `now`. */
    method Sweep(now: int)
      modifies this
      ensures entries == Swept(old(entries), now)
    {
      ghost var initial := entries;
      var pending := entries.Keys;
      while pending != {}
        invariant pending <= initial.Keys
        invariant entries == map k | k in initial && (k in pending || initial[k].resetTime >= now) :: initial[k]
        decreases |pending|
      {
        var ip :| ip in pending;
        if entries[ip].resetTime < now {
          entries := entries - {ip};
        }
        pending := pending - {ip};
      }
    }

    /**
     * `POST /api/contact` at time `now`. The limiter counts the request
     * before the body is read, so dropped and rejected submissions use up
     * quota too.
     */
    method Post(contactEmail: Option<string>, forwardedFor: Option<string>, realIp: Option<string>, now: int,
                body: Result<Submission, string>, notify: SendOutcome, reply: SendOutcome)
      returns (response: Response, mails: seq<Mail>)
      modifies this
      ensures var step := Step(old(entries), ClientKey(forwardedFor, realIp), now);
              && entries == step.1
              && (step.0 == Limited ==> response == Response(429, false, TooManyMessage) && mails == [])
              && (step.0 == Allowed ==> (response, mails) == HandleBody(contactEmail, body, notify, reply))
    {
      var key := ClientKey(forwardedFor, realIp);
      var step := Step(entries, key, now);
      entries := step.1;
      if step.0 == Limited {
        return Response(429, false, TooManyMessage), [];
      }
      var handled := HandleBody(contactEmail, body, notify, reply);
      response, mails := handled.0, handled.1;
    }
  }
}
