/**
 The bounded retry loops, over whatever the remote side answers: attempt i of a call gets the i-th
 reply. Sleeps are counted in seconds.
 */
module Retry {
  import opened Strings
  import opened Wrappers

  predicate Contains(text: string, part: string) {
    part <= text || (text != "" && Contains(text[1..], part))
  }

  ghost predicate MentionsAt(text: string, part: string, i: int) {
    0 <= i <= |text| - |part| && text[i..i + |part|] == part
  }

  lemma {:induction false} ContainsExactly(text: string, part: string)
    ensures Contains(text, part) <==> exists i :: MentionsAt(text, part, i)
  {
    if part <= text {
      assert MentionsAt(text, part, 0);
    } else if text != "" {
      ContainsExactly(text[1..], part);
      if i :| MentionsAt(text, part, i) {
        assert i > 0 && MentionsAt(text[1..], part, i - 1);
      }
      if i :| MentionsAt(text[1..], part, i) {
        assert MentionsAt(text, part, i + 1);
      }
    }
  }

  // ---- Azure Resource Manager ----

  /** A send that fails on the network, or a response; `readable` says whether a success parses. */
  datatype Reply = NoResponse | Response(status: nat, body: string, readable: bool)

  /** A client may have no way to refresh its token; asking may fail. */
  datatype Refresh = Unavailable | Broken | Fresh(token: string)

  datatype Failure = SendFailed | Unreadable | RefreshFailed | Rejected(status: nat, body: string) | AttemptsUsedUp

  const MAX_ATTEMPTS: nat := 6

  predicate IsSuccess(r: Reply) {
    r.Response? && 200 <= r.status < 300
  }

  predicate IsExpired(r: Reply) {
    && r.Response? && r.status == 401
    && (Contains(r.body, "ExpiredAuthenticationToken") || Contains(r.body, "ExpiredToken")
        || Contains(r.body, "InvalidAuthenticationToken"))
  }

  /** Where a text mentions one of three codes of Azure, the token of a refused request has expired. */
  lemma ExpiredExactly(r: Reply)
    ensures IsExpired(r) <==>
            && r.Response? && r.status == 401
            && exists code, i :: code in {"ExpiredAuthenticationToken", "ExpiredToken", "InvalidAuthenticationToken"}
                                 && MentionsAt(r.body, code, i)
  {
    hide Contains;
    if r.Response? {
      forall code { ContainsExactly(r.body, code); }
    }
  }

  /** Worth another attempt after a pause: the network, throttling, or the server. */
  predicate IsTransient(r: Reply) {
    r.NoResponse? || r.status == 429 || 500 <= r.status < 600
  }

  /** What a client does that the outside can notice. */
  datatype Event = Sent(token: string) | Renewed(token: string) | Slept(seconds: nat)

  datatype Run = Run(result: Result<string, Failure>, events: seq<Event>)

  class ArmClient {
    var token: string
    var events: seq<Event>

    constructor (token: string)
      ensures this.token == token && events == []
    {
      this.token, events := token, [];
    }

    method Send(reply: Reply) returns (r: Reply)
      modifies this`events
      ensures r == reply && events == old(events) + [Sent(token)]
    {
      events := events + [Sent(token)];
      return reply;
    }

    method Sleep(seconds: nat)
      modifies this`events
      ensures events == old(events) + [Slept(seconds)]
    {
      events := events + [Slept(seconds)];
    }

    method TryRefreshToken(answer: Refresh) returns (r: Result<bool, Failure>)
      modifies this
      ensures r ==
                (match answer case Unavailable => Ok(false) case Broken => Err(RefreshFailed) case Fresh(_) => Ok(true))
      ensures if answer.Fresh? then token == answer.token && events == old(events) + [Renewed(token)]
              else token == old(token) && events == old(events)
    {
      match answer {
        case Unavailable => return Ok(false);
        case Broken => return Err(RefreshFailed);
        case Fresh(t) =>
          token, events := t, events + [Renewed(t)];
          return Ok(true);
      }
    }

    method Get(replies: nat -> Reply, answers: nat -> Refresh) returns (r: Result<string, Failure>)
      modifies this
      ensures var run := GetRun(replies, answers, old(token), 0, false);
              r == run.result && events == old(events) + run.events
    {
      hide IsExpired, IsSuccess, GetRun;
      var refreshed := false;
      ghost var run := GetRun(replies, answers, token, 0, false);
      ghost var left := run;
      for attempt := 0 to MAX_ATTEMPTS
        invariant left == GetRun(replies, answers, token, attempt, refreshed) && run.result == left.result
        invariant old(events) + run.events == events + left.events
      {
        FinalReplies(replies(attempt));
        GetStep(replies, answers, token, attempt, refreshed);
        var last := attempt + 1 == MAX_ATTEMPTS;
        var reply := Send(replies(attempt));
        if reply.NoResponse? {
          if last {
            return Err(SendFailed);
          }
          Sleep(2 * (attempt + 1));
          left := GetRun(replies, answers, token, attempt + 1, refreshed);
          continue;
        }
        if IsSuccess(reply) {
          return if reply.readable then Ok(reply.body) else Err(Unreadable);
        }
        if !refreshed && IsExpired(reply) {
          var renewed := TryRefreshToken(answers(attempt));
          if renewed.Err? {
            return Err(renewed.error);
          }
          if renewed.value {
            refreshed := true;
            left := GetRun(replies, answers, token, attempt + 1, true);
            continue;
          }
        }
        if !last && (reply.status == 429 || 500 <= reply.status < 600) {
          Sleep(2 * (attempt + 1));
          left := GetRun(replies, answers, token, attempt + 1, refreshed);
          continue;
        }
        return Err(Rejected(reply.status, reply.body));
      }
      NoAttemptLeft(replies, answers, token, refreshed);
      return Err(AttemptsUsedUp);
    }

    method PostEmpty(replies: nat -> Reply, answers: nat -> Refresh) returns (r: Result<string, Failure>)
      modifies this
      ensures var run := PostRun(replies, answers, old(token));
              r == run.result && events == old(events) + run.events
    {
      for attempt := 0 to 2
        invariant attempt <= 1
        invariant attempt == 0 ==> token == old(token) && events == old(events)
        invariant attempt == 1 ==> Renews(replies, answers, 0) && token == answers(0).token
                                   && events == old(events) + [Sent(old(token)), Renewed(token)]
      {
        hide IsExpired;
        var reply := Send(replies(attempt));
        if reply.NoResponse? {
          return Err(SendFailed);
        }
        if IsSuccess(reply) {
          return if reply.readable then Ok(reply.body) else Err(Unreadable);
        }
        if attempt == 0 && IsExpired(reply) {
          var renewed := TryRefreshToken(answers(attempt));
          if renewed.Err? {
            return Err(renewed.error);
          }
          if renewed.value {
            continue;
          }
        }
        return Err(Rejected(reply.status, reply.body));
      }
      // Never reached: the second attempt always returns.
      assert false;
    }
  }

  /** The token expired, and a new one could be had. */
  predicate Renews(replies: nat -> Reply, answers: nat -> Refresh, i: nat) {
    IsExpired(replies(i)) && answers(i).Fresh?
  }

  /** What one attempt that is not repeated ends with. */
  function Verdict(reply: Reply, answer: Refresh, mayRefresh: bool): Result<string, Failure> {
    if reply.NoResponse? then Err(SendFailed)
    else if IsSuccess(reply) then (if reply.readable then Ok(reply.body) else Err(Unreadable))
    else if mayRefresh && IsExpired(reply) && answer.Broken? then Err(RefreshFailed)
    else Err(Rejected(reply.status, reply.body))
  }

  /** A read from attempt `i` on: renew once, pause on transient trouble, otherwise the reply decides. */
  function GetRun(replies: nat -> Reply, answers: nat -> Refresh, token: string, i: nat, refreshed: bool): Run
    requires i <= MAX_ATTEMPTS
    decreases MAX_ATTEMPTS - i
  {
    if i == MAX_ATTEMPTS then Run(Err(AttemptsUsedUp), [])
    else if !refreshed && Renews(replies, answers, i) then
      var rest := GetRun(replies, answers, answers(i).token, i + 1, true);
      Run(rest.result, [Sent(token), Renewed(answers(i).token)] + rest.events)
    else if i + 1 < MAX_ATTEMPTS && IsTransient(replies(i)) then
      var rest := GetRun(replies, answers, token, i + 1, refreshed);
      Run(rest.result, [Sent(token), Slept(2 * (i + 1))] + rest.events)
    else Run(Verdict(replies(i), answers(i), !refreshed), [Sent(token)])
  }

  lemma GetStep(replies: nat -> Reply, answers: nat -> Refresh, token: string, i: nat, refreshed: bool)
    requires i < MAX_ATTEMPTS
    ensures var run := GetRun(replies, answers, token, i, refreshed);
            if !refreshed && Renews(replies, answers, i) then
              var rest := GetRun(replies, answers, answers(i).token, i + 1, true);
              run == Run(rest.result, [Sent(token), Renewed(answers(i).token)] + rest.events)
            else if i + 1 < MAX_ATTEMPTS && IsTransient(replies(i)) then
              var rest := GetRun(replies, answers, token, i + 1, refreshed);
              run == Run(rest.result, [Sent(token), Slept(2 * (i + 1))] + rest.events)
            else run == Run(Verdict(replies(i), answers(i), !refreshed), [Sent(token)])
  {
    hide IsExpired, IsTransient, IsSuccess;
  }

  lemma NoAttemptLeft(replies: nat -> Reply, answers: nat -> Refresh, token: string, refreshed: bool)
    ensures GetRun(replies, answers, token, MAX_ATTEMPTS, refreshed) == Run(Err(AttemptsUsedUp), [])
  {
  }

  lemma FinalReplies(r: Reply)
    ensures IsSuccess(r) ==> !IsExpired(r) && !IsTransient(r)
    ensures IsExpired(r) ==> r.Response? && !IsTransient(r)
  {
  }

  function PostRun(replies: nat -> Reply, answers: nat -> Refresh, token: string): Run {
    if Renews(replies, answers, 0) then
      Run(Verdict(replies(1), answers(1), false), [Sent(token), Renewed(answers(0).token), Sent(answers(0).token)])
    else Run(Verdict(replies(0), answers(0), true), [Sent(token)])
  }

  // ---- What a read does at most, and how it ends ----

  function Sends(events: seq<Event>): nat {
    if events == [] then 0 else (if events[0].Sent? then 1 else 0) + Sends(events[1..])
  }

  function Renewals(events: seq<Event>): nat {
    if events == [] then 0 else (if events[0].Renewed? then 1 else 0) + Renewals(events[1..])
  }

  function TimeSlept(events: seq<Event>): nat {
    if events == [] then 0 else (if events[0].Slept? then events[0].seconds else 0) + TimeSlept(events[1..])
  }

  /** Every send carries the token in force: the latest renewed one, or `token` before the first. */
  predicate TokensCurrent(events: seq<Event>, token: string) {
    events == []
    || match events[0]
       case Sent(t) => t == token && TokensCurrent(events[1..], token)
       case Renewed(t) => TokensCurrent(events[1..], t)
       case Slept(_) => TokensCurrent(events[1..], token)
  }

  /** Seconds of pause that attempts from `i` on can add up to. */
  function Pauses(i: nat): nat
    requires i <= MAX_ATTEMPTS
    decreases MAX_ATTEMPTS - i
  {
    if i + 1 >= MAX_ATTEMPTS then 0 else 2 * (i + 1) + Pauses(i + 1)
  }

  function TokenAfter(e: Event, token: string): string {
    if e.Renewed? then e.token else token
  }

  lemma OneMore(e: Event, rest: seq<Event>, token: string)
    ensures var events := [e] + rest;
            && Sends(events) == (if e.Sent? then 1 else 0) + Sends(rest)
            && Renewals(events) == (if e.Renewed? then 1 else 0) + Renewals(rest)
            && TimeSlept(events) == (if e.Slept? then e.seconds else 0) + TimeSlept(rest)
            && (TokensCurrent(events, token) <==>
                (e.Sent? ==> e.token == token) && TokensCurrent(rest, TokenAfter(e, token)))
  {
    assert ([e] + rest)[1..] == rest;
  }

  lemma TwoMore(e: Event, rest: seq<Event>, token: string)
    requires !e.Sent?
    ensures var events := [Sent(token), e] + rest;
            && Sends(events) == 1 + Sends(rest)
            && Renewals(events) == (if e.Renewed? then 1 else 0) + Renewals(rest)
            && TimeSlept(events) == (if e.Slept? then e.seconds else 0) + TimeSlept(rest)
            && (TokensCurrent(events, token) <==> TokensCurrent(rest, TokenAfter(e, token)))
  {
    hide Sends, Renewals, TimeSlept, TokensCurrent;
    OneMore(e, rest, token);
    OneMore(Sent(token), [e] + rest, token);
    assert [Sent(token), e] + rest == [Sent(token)] + ([e] + rest);
  }

  lemma {:induction false} GetBoundedFrom(replies: nat -> Reply, answers: nat -> Refresh, token: string, i: nat,
                                          refreshed: bool)
    requires i <= MAX_ATTEMPTS
    ensures var events := GetRun(replies, answers, token, i, refreshed).events;
            && Sends(events) <= MAX_ATTEMPTS - i && Renewals(events) <= (if refreshed then 0 else 1)
            && TimeSlept(events) <= Pauses(i) && TokensCurrent(events, token)
    decreases MAX_ATTEMPTS - i
  {
    hide IsExpired, IsTransient, IsSuccess, Verdict, GetRun;
    if i == MAX_ATTEMPTS {
      NoAttemptLeft(replies, answers, token, refreshed);
    } else {
      GetStep(replies, answers, token, i, refreshed);
      if !refreshed && Renews(replies, answers, i) {
        var renewed := answers(i).token;
        GetBoundedFrom(replies, answers, renewed, i + 1, true);
        TwoMore(Renewed(renewed), GetRun(replies, answers, renewed, i + 1, true).events, token);
      } else if i + 1 < MAX_ATTEMPTS && IsTransient(replies(i)) {
        GetBoundedFrom(replies, answers, token, i + 1, refreshed);
        TwoMore(Slept(2 * (i + 1)), GetRun(replies, answers, token, i + 1, refreshed).events, token);
      }
    }
  }

  /**
   At most six sends, one refresh and thirty seconds of sleep, whatever the replies; every send carries
   the token in force.
   */
  lemma GetIsBounded(replies: nat -> Reply, answers: nat -> Refresh, token: string)
    ensures var events := GetRun(replies, answers, token, 0, false).events;
            && Sends(events) <= 6 && Renewals(events) <= 1 && TimeSlept(events) <= 30 && TokensCurrent(events, token)
  {
    GetBoundedFrom(replies, answers, token, 0, false);
    assert Pauses(4) == 10 && Pauses(3) == 18;
    assert Pauses(2) == 24 && Pauses(1) == 28;
  }

  lemma {:induction false} BailFrom(replies: nat -> Reply, answers: nat -> Refresh, token: string, i: nat,
                                    refreshed: bool)
    requires i < MAX_ATTEMPTS
    ensures GetRun(replies, answers, token, i, refreshed).result == Err(AttemptsUsedUp)
            <==> !refreshed && Renews(replies, answers, 5) && forall j :: i <= j < 5 ==> IsTransient(replies(j))
    decreases MAX_ATTEMPTS - i
  {
    hide IsExpired, IsTransient, IsSuccess, GetRun;
    FinalReplies(replies(i));
    GetStep(replies, answers, token, i, refreshed);
    NoAttemptLeft(replies, answers, if Renews(replies, answers, i) then answers(i).token else token, true);
    if i < 5 {
      BailFrom(replies, answers, token, i + 1, refreshed);
      if !refreshed && Renews(replies, answers, i) {
        BailFrom(replies, answers, answers(i).token, i + 1, true);
      }
    }
  }

  /** The last resort of the loop is reached exactly when the first token to be renewed is that of the sixth attempt. */
  lemma BailExactly(replies: nat -> Reply, answers: nat -> Refresh, token: string)
    ensures GetRun(replies, answers, token, 0, false).result == Err(AttemptsUsedUp)
            <==> Renews(replies, answers, 5) && forall j :: 0 <= j < 5 ==> IsTransient(replies(j))
  {
    BailFrom(replies, answers, token, 0, false);
  }

  /** Attempt `k` brings a readable success, after nothing but pauses and at most one renewal since attempt `i`. */
  ghost predicate SucceedsAt(replies: nat -> Reply, answers: nat -> Refresh, i: nat, refreshed: bool, k: nat) {
    && i <= k < MAX_ATTEMPTS && IsSuccess(replies(k)) && replies(k).readable
    && (forall j :: i <= j < k ==> IsTransient(replies(j)) || Renews(replies, answers, j))
    && (refreshed ==> forall j :: i <= j < k ==> !Renews(replies, answers, j))
    && (forall a, b :: i <= a < b < k ==> !(Renews(replies, answers, a) && Renews(replies, answers, b)))
  }

  lemma StepOfSuccess(replies: nat -> Reply, answers: nat -> Refresh, i: nat, refreshed: bool, k: nat)
    requires i < k && (IsTransient(replies(i)) || (!refreshed && Renews(replies, answers, i)))
    requires IsTransient(replies(i)) ==> !Renews(replies, answers, i)
    ensures SucceedsAt(replies, answers, i, refreshed, k)
            <==> SucceedsAt(replies, answers, i + 1, refreshed || Renews(replies, answers, i), k)
  {
    hide IsTransient, Renews, IsSuccess;
  }

  lemma {:induction false} SucceedsFrom(replies: nat -> Reply, answers: nat -> Refresh, token: string, i: nat,
                                        refreshed: bool, k: nat)
    requires i <= k < MAX_ATTEMPTS
    ensures SucceedsAt(replies, answers, i, refreshed, k) ==>
              GetRun(replies, answers, token, i, refreshed).result == Ok(replies(k).body)
    decreases MAX_ATTEMPTS - i
  {
    hide Contains;
    if i < k && SucceedsAt(replies, answers, i, refreshed, k) {
      var renewed := refreshed || Renews(replies, answers, i);
      StepOfSuccess(replies, answers, i, refreshed, k);
      SucceedsFrom(replies, answers, if renewed && !refreshed then answers(i).token else token, i + 1, renewed, k);
    }
  }

  lemma {:induction false} SuccessHasAttempt(replies: nat -> Reply, answers: nat -> Refresh, token: string, i: nat,
                                             refreshed: bool)
    returns (k: nat)
    requires i <= MAX_ATTEMPTS && GetRun(replies, answers, token, i, refreshed).result.Ok?
    ensures SucceedsAt(replies, answers, i, refreshed, k)
    decreases MAX_ATTEMPTS - i
  {
    hide Contains;
    if !refreshed && Renews(replies, answers, i) {
      k := SuccessHasAttempt(replies, answers, answers(i).token, i + 1, true);
      StepOfSuccess(replies, answers, i, refreshed, k);
    } else if i + 1 < MAX_ATTEMPTS && IsTransient(replies(i)) {
      k := SuccessHasAttempt(replies, answers, token, i + 1, refreshed);
      StepOfSuccess(replies, answers, i, refreshed, k);
    } else {
      k := i;
    }
  }

  /** A read succeeds exactly when one of the first six replies does, after only pauses and at most one renewal. */
  lemma SucceedsExactly(replies: nat -> Reply, answers: nat -> Refresh, token: string)
    ensures GetRun(replies, answers, token, 0, false).result.Ok?
            <==> exists k :: SucceedsAt(replies, answers, 0, false, k)
  {
    if GetRun(replies, answers, token, 0, false).result.Ok? {
      var k := SuccessHasAttempt(replies, answers, token, 0, false);
    }
    if k: nat :| SucceedsAt(replies, answers, 0, false, k) {
      SucceedsFrom(replies, answers, token, 0, false, k);
    }
  }

  // ---- What the last reply makes of a call ----

  /** A call that ends with `reply`; `asked` says that the reply made the client ask for a new token. */
  ghost predicate EndsWith(result: Result<string, Failure>, reply: Reply, asked: bool, answer: Refresh) {
    match reply
    case NoResponse => result == Err(SendFailed)
    case Response(status, body, readable) =>
      if 200 <= status < 300 then result == if readable then Ok(body) else Err(Unreadable)
      else if asked && IsExpired(reply) && answer == Broken then result == Err(RefreshFailed)
      else result == Err(Rejected(status, body))
  }

  /**
   A post is sent once, and once more exactly when the token expired and was renewed; it never pauses, and
   the last reply decides.
   */
  lemma PostEnds(replies: nat -> Reply, answers: nat -> Refresh, token: string)
    ensures var run := PostRun(replies, answers, token);
            var k := if IsExpired(replies(0)) && answers(0).Fresh? then 1 else 0;
            && EndsWith(run.result, replies(k), k == 0, answers(0))
            && (run.result.Ok? <==> IsSuccess(replies(k)) && replies(k).readable)
            && Sends(run.events) == k + 1 && Renewals(run.events) == k && TimeSlept(run.events) == 0
            && TokensCurrent(run.events, token)
  {
    hide Contains;
    FinalReplies(replies(0));
    var first := Sent(token);
    NoEvents(token);
    if Renews(replies, answers, 0) {
      var renewed := answers(0).token;
      NoEvents(renewed);
      OneMore(Sent(renewed), [], renewed);
      TwoMore(Renewed(renewed), [Sent(renewed)], token);
      assert [Sent(renewed)] + [] == [Sent(renewed)];
      assert [first, Renewed(renewed)] + [Sent(renewed)] == [first, Renewed(renewed), Sent(renewed)];
    } else {
      OneMore(first, [], token);
      assert [first] + [] == [first];
    }
  }

  lemma NoEvents(token: string)
    ensures Sends([]) == Renewals([]) == TimeSlept([]) == 0 && TokensCurrent([], token)
  {
  }

  ghost predicate RenewedIn(replies: nat -> Reply, answers: nat -> Refresh, i: nat, k: nat) {
    exists j :: i <= j < k && Renews(replies, answers, j)
  }

  /** From attempt `i` on nothing but pauses and at most one renewal, and attempt `k` is not repeated. */
  ghost predicate EndsAt(replies: nat -> Reply, answers: nat -> Refresh, i: nat, refreshed: bool, k: nat) {
    && i <= k < MAX_ATTEMPTS
    && (forall j :: i <= j < k ==> IsTransient(replies(j)) || Renews(replies, answers, j))
    && (refreshed ==> !RenewedIn(replies, answers, i, k))
    && (forall a, b :: i <= a < b < k ==> !(Renews(replies, answers, a) && Renews(replies, answers, b)))
    && (k == 5 || !IsTransient(replies(k)))
    && (Renews(replies, answers, k) ==> refreshed || RenewedIn(replies, answers, i, k))
  }

  /** Two seconds more of pause after each transient reply. */
  function PauseSum(replies: nat -> Reply, i: nat, k: nat): nat
    requires i <= k
  {
    if i == k then 0 else PauseSum(replies, i, k - 1) + if IsTransient(replies(k - 1)) then 2 * k else 0
  }

  lemma {:induction false} PauseFirst(replies: nat -> Reply, i: nat, k: nat)
    requires i < k
    ensures PauseSum(replies, i, k) ==
            (if IsTransient(replies(i)) then 2 * (i + 1) else 0) + PauseSum(replies, i + 1, k)
  {
    hide IsTransient;
    if i + 1 < k {
      PauseFirst(replies, i, k - 1);
    }
  }

  lemma StepOfEnd(replies: nat -> Reply, answers: nat -> Refresh, i: nat, refreshed: bool, k: nat)
    requires i < k && (IsTransient(replies(i)) || (!refreshed && Renews(replies, answers, i)))
    requires IsTransient(replies(i)) ==> !Renews(replies, answers, i)
    ensures EndsAt(replies, answers, i, refreshed, k)
            <==> EndsAt(replies, answers, i + 1, refreshed || Renews(replies, answers, i), k)
    ensures RenewedIn(replies, answers, i, k) <==> Renews(replies, answers, i) || RenewedIn(replies, answers, i + 1, k)
  {
    hide IsTransient, Renews;
  }

  /** How a call goes that ends at attempt `k`. */
  ghost predicate GoesTo(run: Run, replies: nat -> Reply, answers: nat -> Refresh, i: nat, refreshed: bool, k: nat)
    requires i <= k
  {
    && EndsWith(run.result, replies(k), !refreshed && !RenewedIn(replies, answers, i, k), answers(k))
    && Sends(run.events) == k - i + 1 && TimeSlept(run.events) == PauseSum(replies, i, k)
    && (Renewals(run.events) == if RenewedIn(replies, answers, i, k) then 1 else 0)
  }

  lemma VerdictEnds(reply: Reply, answer: Refresh, mayRefresh: bool)
    ensures EndsWith(Verdict(reply, answer, mayRefresh), reply, mayRefresh, answer)
  {
    hide Contains;
  }

  lemma {:induction false} EndsFrom(replies: nat -> Reply, answers: nat -> Refresh, token: string, i: nat,
                                    refreshed: bool, k: nat)
    requires EndsAt(replies, answers, i, refreshed, k)
    ensures GoesTo(GetRun(replies, answers, token, i, refreshed), replies, answers, i, refreshed, k)
    decreases k - i
  {
    hide IsExpired, IsTransient, IsSuccess, Verdict, GetRun, EndsWith, Sends, Renewals, TimeSlept, TokensCurrent;
    FinalReplies(replies(i));
    GetStep(replies, answers, token, i, refreshed);
    if i == k {
      VerdictEnds(replies(k), answers(k), !refreshed);
      NoEvents(token);
      OneMore(Sent(token), [], token);
      assert [Sent(token)] + [] == [Sent(token)];
    } else {
      var renews := !refreshed && Renews(replies, answers, i);
      var next := if renews then answers(i).token else token;
      assert refreshed ==> !Renews(replies, answers, i);
      StepOfEnd(replies, answers, i, refreshed, k);
      EndsFrom(replies, answers, next, i + 1, refreshed || renews, k);
      PauseFirst(replies, i, k);
      var rest := GetRun(replies, answers, next, i + 1, refreshed || renews);
      TwoMore(if renews then Renewed(next) else Slept(2 * (i + 1)), rest.events, token);
    }
  }

  /**
   A read that ends at attempt `k` sends once for each attempt, pauses for two seconds more after each
   transient reply before it, and its last reply decides.
   */
  lemma GetEnds(replies: nat -> Reply, answers: nat -> Refresh, token: string, k: nat)
    requires EndsAt(replies, answers, 0, false, k)
    ensures var run := GetRun(replies, answers, token, 0, false);
            && EndsWith(run.result, replies(k), !RenewedIn(replies, answers, 0, k), answers(k))
            && Sends(run.events) == k + 1 && TimeSlept(run.events) == PauseSum(replies, 0, k)
            && (Renewals(run.events) == if RenewedIn(replies, answers, 0, k) then 1 else 0)
  {
    EndsFrom(replies, answers, token, 0, false, k);
  }

  /** Every read ends so at one of the six attempts, but for the one whose sixth attempt renews the token. */
  lemma EveryReadEnds(replies: nat -> Reply, answers: nat -> Refresh)
    ensures (exists k :: EndsAt(replies, answers, 0, false, k)) <==>
            !(Renews(replies, answers, 5) && forall j :: 0 <= j < 5 ==> IsTransient(replies(j)))
  {
    hide IsTransient, IsExpired, Renews;
    var token := "";
    if k :| EndsAt(replies, answers, 0, false, k) {
      GetEnds(replies, answers, token, k);
      BailExactly(replies, answers, token);
    }
    if GetRun(replies, answers, token, 0, false).result != Err(AttemptsUsedUp) {
      var k := SomeEnd(replies, answers, token, 0, false);
    }
    BailExactly(replies, answers, token);
  }

  lemma {:induction false} SomeEnd(replies: nat -> Reply, answers: nat -> Refresh, token: string, i: nat,
                                   refreshed: bool) returns (k: nat)
    requires i <= MAX_ATTEMPTS && GetRun(replies, answers, token, i, refreshed).result != Err(AttemptsUsedUp)
    ensures EndsAt(replies, answers, i, refreshed, k)
    decreases MAX_ATTEMPTS - i
  {
    hide IsExpired, IsTransient, IsSuccess, GetRun, EndsAt;
    NoAttemptLeft(replies, answers, token, refreshed);
    FinalReplies(replies(i));
    GetStep(replies, answers, token, i, refreshed);
    if !refreshed && Renews(replies, answers, i) {
      k := SomeEnd(replies, answers, answers(i).token, i + 1, true);
      EndIsLater(replies, answers, i + 1, true, k);
      StepOfEnd(replies, answers, i, refreshed, k);
    } else if i + 1 < MAX_ATTEMPTS && IsTransient(replies(i)) {
      k := SomeEnd(replies, answers, token, i + 1, refreshed);
      EndIsLater(replies, answers, i + 1, refreshed, k);
      StepOfEnd(replies, answers, i, refreshed, k);
    } else {
      k := i;
      EndHere(replies, answers, i, refreshed);
    }
  }

  lemma EndIsLater(replies: nat -> Reply, answers: nat -> Refresh, i: nat, refreshed: bool, k: nat)
    requires EndsAt(replies, answers, i, refreshed, k)
    ensures i <= k
  {
  }

  lemma EndHere(replies: nat -> Reply, answers: nat -> Refresh, i: nat, refreshed: bool)
    requires i < MAX_ATTEMPTS && (i == 5 || !IsTransient(replies(i))) && (Renews(replies, answers, i) ==> refreshed)
    ensures EndsAt(replies, answers, i, refreshed, i)
  {
    hide IsTransient, Renews;
  }

  // ---- Key Vault ----

  const RBAC_RETRY_MAX_ATTEMPTS: nat := 10
  const RBAC_RETRY_DELAY: nat := 30

  function LowerCase(text: string): string {
    seq(|text|, i requires 0 <= i < |text| => Lower(text[i]))
  }

  /** A denial that may only mean that a new role has not reached the vault yet. */
  predicate IsRbacPropagationError(message: string) {
    var lower := LowerCase(message);
    && !Contains(lower, "forbiddenbyconnection") && !Contains(lower, "public network access is disabled")
    && (Contains(lower, "403") || Contains(lower, "401"))
    && (Contains(lower, "forbidden") || Contains(lower, "does not have secrets")
        || Contains(lower, "does not have permission")
        || Contains(lower, "accessdenied") || Contains(lower, "unauthorized"))
  }

  /** The message has the lower-case words in it, in any case. */
  ghost predicate Says(message: string, words: string) {
    exists i :: SaysAt(message, words, i)
  }

  ghost predicate SaysAt(message: string, words: string, i: int) {
    0 <= i <= |message| - |words| && SameButCase(message[i..i + |words|], words)
  }

  predicate IsLower(s: string) {
    forall i :: 0 <= i < |s| ==> !('A' <= s[i] <= 'Z')
  }

  lemma SaysExactly(message: string, words: string)
    requires IsLower(words)
    ensures Contains(LowerCase(message), words) <==> Says(message, words)
  {
    hide Contains, SameButCase, IsLower;
    var lower := LowerCase(message);
    ContainsExactly(lower, words);
    forall i ensures MentionsAt(lower, words, i) <==> SaysAt(message, words, i) {
      if 0 <= i <= |message| - |words| {
        LoweredSame(message[i..i + |words|], words);
        assert lower[i..i + |words|] == LowerCase(message[i..i + |words|]);
      }
    }
    assert Says(message, words) <==> exists i :: MentionsAt(lower, words, i);
  }

  lemma LoweredSame(part: string, words: string)
    requires IsLower(words)
    ensures LowerCase(part) == words <==> SameButCase(part, words)
  {
    if SameButCase(part, words) {
      assert forall i :: 0 <= i < |part| ==> LowerCase(part)[i] == words[i];
    }
    if LowerCase(part) == words {
      assert forall i :: 0 <= i < |part| ==> LowerCase(part)[i] == Lower(part[i]);
    }
  }

  lemma NetworkWords()
    ensures IsLower("forbiddenbyconnection") && IsLower("public network access is disabled")
    ensures IsLower("403") && IsLower("401")
  {
  }

  lemma DenialWords()
    ensures IsLower("forbidden") && IsLower("does not have secrets") && IsLower("does not have permission")
    ensures IsLower("accessdenied") && IsLower("unauthorized")
  {
  }

  /** Which denials are waited out, told by what the message says. */
  lemma PropagationExactly(message: string)
    ensures IsRbacPropagationError(message) <==>
            && !Says(message, "forbiddenbyconnection") && !Says(message, "public network access is disabled")
            && (Says(message, "403") || Says(message, "401"))
            && (Says(message, "forbidden") || Says(message, "does not have secrets")
                || Says(message, "does not have permission") || Says(message, "accessdenied")
                || Says(message, "unauthorized"))
  {
    hide Contains, Says, IsLower, LowerCase;
    NetworkWords();
    DenialWords();
    SaysExactly(message, "forbiddenbyconnection");
    SaysExactly(message, "public network access is disabled");
    SaysExactly(message, "403");
    SaysExactly(message, "401");
    SaysExactly(message, "forbidden");
    SaysExactly(message, "does not have secrets");
    SaysExactly(message, "does not have permission");
    SaysExactly(message, "accessdenied");
    SaysExactly(message, "unauthorized");
  }

  /** Neither a success nor a denial worth waiting out. */
  predicate Pending<T>(r: Result<T, string>) {
    r.Err? && IsRbacPropagationError(r.error)
  }

  /** The attempt whose result is the call's: the first that is not pending, or the tenth. */
  ghost predicate Decisive<T>(op: nat -> Result<T, string>, k: nat) {
    && 1 <= k <= 10
    && (forall j :: 1 <= j < k ==> Pending(op(j)))
    && (k < 10 ==> !Pending(op(k)))
  }

  method WithRbacRetry<T>(op: nat -> Result<T, string>) returns (r: Result<T, string>, attempts: nat, slept: nat)
    ensures Decisive(op, attempts) && r == op(attempts)
    ensures slept == 30 * (attempts - 1) <= 270
  {
    hide IsRbacPropagationError;
    slept := 0;
    var lastError := None;
    for attempt := 1 to RBAC_RETRY_MAX_ATTEMPTS + 1
      invariant attempt <= RBAC_RETRY_MAX_ATTEMPTS
      invariant forall j :: 1 <= j < attempt ==> Pending(op(j))
      invariant slept == RBAC_RETRY_DELAY * (attempt - 1)
    {
      var result := op(attempt);
      if result.Ok? {
        return result, attempt, slept;
      }
      if IsRbacPropagationError(result.error) && attempt < RBAC_RETRY_MAX_ATTEMPTS {
        slept := slept + RBAC_RETRY_DELAY;
        lastError := Some(result.error);
      } else {
        return result, attempt, slept;
      }
    }
    // Never reached: the tenth attempt returns.
    assert false;
  }
}
