// The session protocol of the ubus client: any number of concurrent calls share one
// session id under a mutex, log in lazily, and retry once after a refusal.
module UbusSession {
  import opened Text
  import opened Wnet

  type Tid = nat

  // Where a call stands. A request or a login has been sent but not yet answered in
  // Calling, Retrying, LoggingIn and Relogging; the last two hold the mutex.
  datatype Pc =
    | Starting
    | LoggingIn
    | Calling(session: string)
    | Denied(stale: string)
    | Relogging(stale: string)
    | Retrying(session: string)
    | Finished(ok: bool)

  // A call with the object requests and logins it has sent so far.
  datatype Thread = Thread(pc: Pc, requests: nat, logins: nat)

  // The shared client and, as history: the ids that the server issued, the ids under
  // which a request was refused, the stale ids for which a relogin was attempted,
  // and the logins that succeeded and failed.
  datatype State = State(session: string, holder: Option<Tid>, threads: map<Tid, Thread>, sent: nat,
                         issued: set<string>, refused: set<string>, relogins: seq<string>,
                         successes: nat, failures: nat)

  const INITIAL := State("", None, map[], 0, {}, {}, [], 0, 0)

  datatype LoginReply = Session(id: string) | LoginError

  datatype CallReply = Answered(ok: bool) | PermissionDenied

  // ---- the two critical sections and the login, as the client computes them ------------

  // A login without a session id in its reply is an error.
  function LoginResult(reply: LoginReply): Option<string> {
    match reply
    case Session(id) => if id == "" then None else Some(id)
    case LoginError => None
  }

  // ---- steps ------------------------------------------------------------------------------

  datatype Event =
    | Begin(t: Tid)
    | EnterSession(t: Tid)
    | EnterRelogin(t: Tid)
    | LoginReplied(t: Tid, login: LoginReply)
    | CallReplied(t: Tid, reply: CallReply)

  predicate IsLogin(pc: Pc) {
    pc.LoggingIn? || pc.Relogging?
  }

  predicate Enabled(s: State, e: Event) {
    match e
    case Begin(t) => t !in s.threads
    case EnterSession(t) => t in s.threads && s.threads[t].pc.Starting? && s.holder == None
    case EnterRelogin(t) => t in s.threads && s.threads[t].pc.Denied? && s.holder == None
    case LoginReplied(t, login) =>
      && t in s.threads && IsLogin(s.threads[t].pc)
      // The server never issues a session id twice.
      && (LoginResult(login).Some? ==> LoginResult(login).value !in s.issued)
    case CallReplied(t, reply) => t in s.threads && (s.threads[t].pc.Calling? || s.threads[t].pc.Retrying?)
  }

  function Move(s: State, t: Tid, th: Thread): State {
    s.(threads := s.threads[t := th])
  }

  function Apply(s: State, e: Event): State
    requires Enabled(s, e)
  {
    match e
    case Begin(t) => Move(s, t, Thread(Starting, 0, 0))
    case EnterSession(t) =>
      var th := s.threads[t];
      if s.session == "" then
        Move(s, t, th.(pc := LoggingIn, logins := th.logins + 1)).(holder := Some(t), sent := s.sent + 1)
      else
        Move(s, t, th.(pc := Calling(s.session), requests := th.requests + 1)).(sent := s.sent + 1)
    case EnterRelogin(t) =>
      var th := s.threads[t];
      if s.session != th.pc.stale then
        // Another call has replaced the session already.
        Move(s, t, th.(pc := Retrying(s.session), requests := th.requests + 1)).(sent := s.sent + 1)
      else
        Move(s, t, th.(pc := Relogging(th.pc.stale), logins := th.logins + 1))
          .(session := "", holder := Some(t), sent := s.sent + 1, relogins := s.relogins + [th.pc.stale])
    case LoginReplied(t, login) =>
      var th := s.threads[t];
      (match LoginResult(login)
       case None => Move(s, t, th.(pc := Finished(false))).(holder := None, failures := s.failures + 1)
       case Some(id) =>
         var next := if th.pc.LoggingIn? then Calling(id) else Retrying(id);
         Move(s, t, th.(pc := next, requests := th.requests + 1))
           .(session := id, holder := None, sent := s.sent + 1,
             issued := s.issued + {id}, successes := s.successes + 1))
    case CallReplied(t, reply) =>
      var th := s.threads[t];
      (match reply
       case Answered(ok) => Move(s, t, th.(pc := Finished(ok)))
       case PermissionDenied =>
         var next := if th.pc.Calling? then Denied(th.pc.session) else Finished(false);
         Move(s, t, th.(pc := next)).(refused := s.refused + {th.pc.session}))
  }

  // ---- the invariant -----------------------------------------------------------------------

  ghost predicate ThreadOk(s: State, t: Tid, th: Thread) {
    && (IsLogin(th.pc) <==> s.holder == Some(t))
    && match th.pc
       case Starting => th.requests == 0 && th.logins == 0
       case LoggingIn => th.requests == 0 && th.logins == 1
       case Calling(x) => th.requests == 1 && th.logins <= 1 && x != "" && x in s.issued
       case Denied(x) => th.requests == 1 && th.logins <= 1 && x != "" && x in s.issued && x in s.refused
       case Relogging(x) => th.requests == 1 && th.logins <= 2 && x in s.relogins
       case Retrying(x) => th.requests == 2 && th.logins <= 2 && (x in s.issued || (x == "" && s.failures > 0))
       case Finished(_) => th.requests <= 2 && th.logins <= 2
  }

  ghost predicate Inv(s: State) {
    && (s.session != "" ==> s.session in s.issued && s.holder == None)
    && (s.holder.Some? ==> s.holder.value in s.threads)
    && "" !in s.issued
    // A stale id is retired for good: it is never the session again.
    && (forall i :: 0 <= i < |s.relogins| ==>
          s.relogins[i] in s.issued && s.relogins[i] in s.refused && s.relogins[i] != s.session)
    && (forall i, j :: 0 <= i < j < |s.relogins| ==> s.relogins[i] != s.relogins[j])
    && s.successes == |s.relogins| + (if s.session != "" then 1 else 0)
    && s.successes == |s.issued|
    // Without a session, either nobody has logged in yet, or a login is under way,
    // or one has failed.
    && (s.session == "" && s.holder == None && s.issued != {} ==> s.failures > 0)
    && (forall t :: t in s.threads ==> ThreadOk(s, t, s.threads[t]))
  }

  lemma InitialInv()
    ensures Inv(INITIAL)
  {
  }

  lemma BeginKeepsInv(s: State, t: Tid)
    requires Inv(s) && Enabled(s, Begin(t))
    ensures Inv(Apply(s, Begin(t)))
  {
  }

  lemma EnterSessionKeepsInv(s: State, t: Tid)
    requires Inv(s) && Enabled(s, EnterSession(t))
    ensures Inv(Apply(s, EnterSession(t)))
  {
  }

  lemma EnterReloginKeepsInv(s: State, t: Tid)
    requires Inv(s) && Enabled(s, EnterRelogin(t))
    ensures Inv(Apply(s, EnterRelogin(t)))
  {
    var s' := Apply(s, EnterRelogin(t));
    assert forall x :: x in s.relogins ==> x in s'.relogins;
    assert ThreadOk(s, t, s.threads[t]);
  }

  lemma LoginRepliedKeepsInv(s: State, t: Tid, login: LoginReply)
    requires Inv(s) && Enabled(s, LoginReplied(t, login))
    ensures Inv(Apply(s, LoginReplied(t, login)))
  {
    assert ThreadOk(s, t, s.threads[t]);
  }

  lemma CallRepliedKeepsInv(s: State, t: Tid, reply: CallReply)
    requires Inv(s) && Enabled(s, CallReplied(t, reply))
    ensures Inv(Apply(s, CallReplied(t, reply)))
  {
    assert ThreadOk(s, t, s.threads[t]);
  }

  lemma StepKeepsInv(s: State, e: Event)
    requires Inv(s) && Enabled(s, e)
    ensures Inv(Apply(s, e))
  {
    match e
    case Begin(t) => BeginKeepsInv(s, t);
    case EnterSession(t) => EnterSessionKeepsInv(s, t);
    case EnterRelogin(t) => EnterReloginKeepsInv(s, t);
    case LoginReplied(t, login) => LoginRepliedKeepsInv(s, t, login);
    case CallReplied(t, reply) => CallRepliedKeepsInv(s, t, reply);
  }

  // ---- runs ---------------------------------------------------------------------------------

  ghost predicate IsRun(states: seq<State>, events: seq<Event>) {
    && |states| == |events| + 1
    && forall i :: 0 <= i < |events| ==> Enabled(states[i], events[i]) && states[i + 1] == Apply(states[i], events[i])
  }

  lemma RunsKeepInv(states: seq<State>, events: seq<Event>)
    requires IsRun(states, events) && Inv(states[0])
    ensures forall i :: 0 <= i < |states| ==> Inv(states[i])
  {
    for i := 0 to |events|
      invariant forall j :: 0 <= j <= i ==> Inv(states[j])
    {
      StepKeepsInv(states[i], events[i]);
    }
  }

  lemma {:induction false} DistinctBound(xs: seq<string>, bound: set<string>)
    requires forall i, j :: 0 <= i < j < |xs| ==> xs[i] != xs[j]
    requires forall i :: 0 <= i < |xs| ==> xs[i] in bound
    ensures |xs| <= |bound|
    ensures forall x :: multiset(xs)[x] <= 1
  {
    if xs != [] {
      var init, last := xs[..|xs| - 1], xs[|xs| - 1];
      assert xs == init + [last];
      assert last !in init;
      DistinctBound(init, bound - {last});
    }
  }

  // In every interleaving of any number of calls: no session id is given to more
  // than one relogin attempt; successful logins never exceed one plus the number of
  // refused ids; only one call at a time is logging in; every call sends at most two
  // object requests and two logins, and the first request never lacks a session.
  lemma SessionSafety(states: seq<State>, events: seq<Event>, i: nat)
    requires IsRun(states, events) && states[0] == INITIAL && i < |states|
    ensures var s := states[i];
            && (forall x :: multiset(s.relogins)[x] <= 1)
            && s.successes <= 1 + |s.refused|
            && (forall t, u ::
                  (t in s.threads && u in s.threads && IsLogin(s.threads[t].pc) && IsLogin(s.threads[u].pc)) ==> t == u)
            && (forall t :: t in s.threads ==>
                  && s.threads[t].requests <= 2 && s.threads[t].logins <= 2
                  && (s.threads[t].pc.Calling? ==> s.threads[t].pc.session != ""))
  {
    InitialInv();
    RunsKeepInv(states, events);
    var s := states[i];
    DistinctBound(s.relogins, s.refused);
    forall t | t in s.threads
      ensures ThreadOk(s, t, s.threads[t])
      ensures s.threads[t].requests <= 2 && s.threads[t].logins <= 2
    {
    }
  }

  // A relogin only ever replaces the very session that was refused: a session that
  // another call has refreshed meanwhile is left alone.
  lemma RefreshedSessionIsKept(s: State, e: Event)
    requires Inv(s) && Enabled(s, e)
    ensures Apply(s, e).session != s.session && s.session != "" ==>
              && Apply(s, e).session == ""
              && e.EnterRelogin? && s.threads[e.t].pc == Denied(s.session)
              && s.session in s.refused && s.session !in s.relogins
  {
    if e.EnterRelogin? {
      assert ThreadOk(s, e.t, s.threads[e.t]);
    } else if e.LoginReplied? {
      assert ThreadOk(s, e.t, s.threads[e.t]);
    }
  }

  // The reply to the last login that was answered.
  ghost function LastLogin(events: seq<Event>): Option<LoginReply> {
    if events == [] then None
    else
      var init, last := events[..|events| - 1], events[|events| - 1];
      if last.LoginReplied? then Some(last.login) else LastLogin(init)
  }

  // Some login has been answered, and the last one failed.
  ghost predicate LastLoginFailed(events: seq<Event>) {
    LastLogin(events).Some? && LoginResult(LastLogin(events).value).None?
  }

  lemma LastLoginNext(events: seq<Event>, i: nat)
    requires i < |events|
    ensures LastLogin(events[..i + 1])
            == if events[i].LoginReplied? then Some(events[i].login) else LastLogin(events[..i])
  {
    assert events[..i + 1][..i] == events[..i];
  }

  function SessionAfter(login: LoginReply): string {
    match LoginResult(login)
    case Some(id) => id
    case None => ""
  }

  // The session is what the last answered login left, unless one is under way.
  ghost predicate FollowsLogin(s: State, last: Option<LoginReply>) {
    match last
    case None => s.session == "" && s.issued == {}
    case Some(login) => s.holder == None ==> s.session == SessionAfter(login)
  }

  lemma StepFollowsLogin(s: State, e: Event, last: Option<LoginReply>)
    requires Inv(s) && Enabled(s, e) && FollowsLogin(s, last)
    ensures FollowsLogin(Apply(s, e), if e.LoginReplied? then Some(e.login) else last)
  {
    if e.EnterRelogin? {
      assert ThreadOk(s, e.t, s.threads[e.t]);
    }
  }

  // As long as no login is under way, the shared session is what the last answered
  // login left: the id it brought, or nothing if it failed or there was none.
  lemma {:induction false} SessionIsLastLogin(states: seq<State>, events: seq<Event>, i: nat)
    requires IsRun(states, events) && states[0] == INITIAL && i < |states|
    ensures FollowsLogin(states[i], LastLogin(events[..i]))
  {
    InitialInv();
    RunsKeepInv(states, events);
    if i == 0 {
      assert events[..0] == [];
    } else {
      SessionIsLastLogin(states, events, i - 1);
      LastLoginNext(events, i - 1);
      StepFollowsLogin(states[i - 1], events[i - 1], LastLogin(events[..i - 1]));
    }
  }

  // Between logins there is no session exactly if there was no login yet or the last
  // one failed.
  lemma NoSessionIff(states: seq<State>, events: seq<Event>, i: nat)
    requires IsRun(states, events) && states[0] == INITIAL && i < |states| && states[i].holder == None
    ensures states[i].session == "" <==> LastLogin(events[..i]).None? || LastLoginFailed(events[..i])
  {
    SessionIsLastLogin(states, events, i);
  }

  lemma RetryEntry(s: State, e: Event, t: Tid, last: Option<LoginReply>)
    requires Inv(s) && Enabled(s, e) && FollowsLogin(s, last)
    requires t in Apply(s, e).threads && (t in s.threads ==> !s.threads[t].pc.Retrying?)
    ensures Apply(s, e).threads[t].pc == Retrying("") <==>
              e == EnterRelogin(t) && last.Some? && LoginResult(last.value).None?
  {
    if e == EnterRelogin(t) {
      assert ThreadOk(s, t, s.threads[t]);
    }
  }

  // A step puts a call into its retry without a session exactly if it is a relogin
  // entered when the last answered login had failed.
  lemma EmptyRetryEntered(states: seq<State>, events: seq<Event>, i: nat, t: Tid)
    requires IsRun(states, events) && states[0] == INITIAL && i < |events|
    requires t in states[i + 1].threads && (t in states[i].threads ==> !states[i].threads[t].pc.Retrying?)
    ensures states[i + 1].threads[t].pc == Retrying("") <==>
              events[i] == EnterRelogin(t) && LastLoginFailed(events[..i])
  {
    InitialInv();
    RunsKeepInv(states, events);
    SessionIsLastLogin(states, events, i);
    RetryEntry(states[i], events[i], t, LastLogin(events[..i]));
  }

  // ---- what becomes of a call ---------------------------------------------------------------

  // The reply to the last object request of a call that was answered.
  ghost function LastReply(events: seq<Event>, t: Tid): Option<CallReply> {
    if events == [] then None
    else
      var init, last := events[..|events| - 1], events[|events| - 1];
      if last.CallReplied? && last.t == t then Some(last.reply) else LastReply(init, t)
  }

  lemma LastReplyNext(events: seq<Event>, i: nat, t: Tid)
    requires i < |events|
    ensures LastReply(events[..i + 1], t)
            == if events[i].CallReplied? && events[i].t == t then Some(events[i].reply) else LastReply(events[..i], t)
  {
    assert events[..i + 1][..i] == events[..i];
  }

  // Where a call stands follows from the last reply to it.
  ghost predicate FollowsReply(pc: Pc, last: Option<CallReply>) {
    match pc
    case Finished(ok) => ok <==> last == Some(Answered(true))
    case Denied(_) => last == Some(PermissionDenied)
    case Relogging(_) => last == Some(PermissionDenied)
    case Retrying(_) => last == Some(PermissionDenied)
    case _ => last == None
  }

  ghost predicate AllFollow(s: State, events: seq<Event>) {
    forall t ::
      if t in s.threads then FollowsReply(s.threads[t].pc, LastReply(events, t)) else LastReply(events, t) == None
  }

  lemma StepFollowsReply(s: State, e: Event, t: Tid, last: Option<CallReply>)
    requires Enabled(s, e)
    requires if t in s.threads then FollowsReply(s.threads[t].pc, last) else last == None
    ensures var s' := Apply(s, e);
            var last' := if e.CallReplied? && e.t == t then Some(e.reply) else last;
            if t in s'.threads then FollowsReply(s'.threads[t].pc, last') else last' == None
  {
  }

  lemma {:induction false} RunsFollowReplies(states: seq<State>, events: seq<Event>, i: nat)
    requires IsRun(states, events) && states[0] == INITIAL && i < |states|
    ensures AllFollow(states[i], events[..i])
  {
    if i == 0 {
      assert events[..0] == [];
    } else {
      RunsFollowReplies(states, events, i - 1);
      forall t
        ensures var s, last := states[i], LastReply(events[..i], t);
                if t in s.threads then FollowsReply(s.threads[t].pc, last) else last == None
      {
        LastReplyNext(events, i - 1, t);
        StepFollowsReply(states[i - 1], events[i - 1], t, LastReply(events[..i - 1], t));
      }
    }
  }

  // In every run, a call that has ended has succeeded exactly if the last request of
  // its that was answered was answered well.
  lemma SucceedsIffAnswered(states: seq<State>, events: seq<Event>, i: nat, t: Tid)
    requires IsRun(states, events) && states[0] == INITIAL && i < |states|
    requires t in states[i].threads && states[i].threads[t].pc.Finished?
    ensures states[i].threads[t].pc.ok <==> LastReply(events[..i], t) == Some(Answered(true))
  {
    RunsFollowReplies(states, events, i);
  }

  // What ends a call: an answer, a second refusal, or a login of its own that fails. A
  // first refusal does not.
  lemma EndsIff(s: State, e: Event, t: Tid)
    requires Enabled(s, e) && t in s.threads && !s.threads[t].pc.Finished?
    ensures Apply(s, e).threads[t].pc.Finished? <==>
              || (exists ok :: e == CallReplied(t, Answered(ok)))
              || (e == CallReplied(t, PermissionDenied) && s.threads[t].pc.Retrying?)
              || (e.LoginReplied? && e.t == t && LoginResult(e.login).None?)
  {
    if e.CallReplied? && e.reply.Answered? {
      assert e == CallReplied(e.t, Answered(e.reply.ok));
    }
  }

  // Every request goes out under the session that the client then has, and a retry
  // never under the one that was refused.
  lemma RequestUsesSession(s: State, e: Event, t: Tid)
    requires Inv(s) && Enabled(s, e) && t in s.threads
    ensures var th, th' := s.threads[t], Apply(s, e).threads[t];
            && (th'.requests > th.requests ==>
                  && (th'.pc == Calling(Apply(s, e).session) || th'.pc == Retrying(Apply(s, e).session))
                  && (th.pc.Denied? || th.pc.Relogging? ==> th'.pc.session != th.pc.stale))
            && (th'.requests > th.requests <==> th' != th && (th'.pc.Calling? || th'.pc.Retrying?))
  {
    assert ThreadOk(s, t, s.threads[t]);
  }

  // ---- retries without a session ------------------------------------------------------------

  // The step by which a call that is in its retry got there.
  ghost predicate EnteredRetry(states: seq<State>, t: Tid, k: nat, i: nat)
    requires i < |states|
  {
    && k < i && (t in states[k].threads ==> !states[k].threads[t].pc.Retrying?)
    && t in states[i].threads
    && forall j :: k < j <= i ==> t in states[j].threads && states[j].threads[t].pc == states[i].threads[t].pc
  }

  lemma {:induction false} RetryWasEntered(states: seq<State>, events: seq<Event>, i: nat, t: Tid) returns (k: nat)
    requires IsRun(states, events) && states[0] == INITIAL && i < |states|
    requires t in states[i].threads && states[i].threads[t].pc.Retrying?
    ensures EnteredRetry(states, t, k, i)
    decreases i
  {
    var s, e := states[i - 1], events[i - 1];
    assert states[i] == Apply(s, e);
    if t in s.threads && s.threads[t].pc.Retrying? {
      k := RetryWasEntered(states, events, i - 1, t);
    } else {
      k := i - 1;
    }
  }

  // A retry goes out without a session exactly if the call entered its relogin when
  // the last answered login had failed; otherwise it carries an id that was issued.
  lemma EmptyRetryIff(states: seq<State>, events: seq<Event>, i: nat, t: Tid) returns (k: nat)
    requires IsRun(states, events) && states[0] == INITIAL && i < |states|
    requires t in states[i].threads && states[i].threads[t].pc.Retrying?
    ensures EnteredRetry(states, t, k, i)
    ensures states[i].threads[t].pc.session == "" <==> events[k] == EnterRelogin(t) && LastLoginFailed(events[..k])
    ensures states[i].threads[t].pc.session != "" ==> states[i].threads[t].pc.session in states[i].issued
  {
    k := RetryWasEntered(states, events, i, t);
    EmptyRetryEntered(states, events, k, t);
    InitialInv();
    RunsKeepInv(states, events);
    assert ThreadOk(states[i], t, states[i].threads[t]);
  }

  lemma Extend(states: seq<State>, events: seq<Event>, e: Event) returns (states': seq<State>, events': seq<Event>)
    requires IsRun(states, events) && Enabled(states[|events|], e)
    ensures IsRun(states', events') && states'[0] == states[0] && |events'| == |events| + 1
    ensures states'[|events'|] == Apply(states[|events|], e)
  {
    events' := events + [e];
    states' := states + [Apply(states[|events|], e)];
  }

  // Two calls under one session, both refused.
  lemma BothRefused() returns (states: seq<State>, events: seq<Event>)
    ensures IsRun(states, events) && states[0] == INITIAL
    ensures var s := states[|events|];
            && 0 in s.threads && 1 in s.threads && s.threads[0].pc == s.threads[1].pc == Denied("a")
            && s.session == "a" && s.holder == None
  {
    states, events := [INITIAL], [];
    states, events := Extend(states, events, Begin(0));
    states, events := Extend(states, events, EnterSession(0));
    states, events := Extend(states, events, LoginReplied(0, Session("a")));
    states, events := Extend(states, events, Begin(1));
    states, events := Extend(states, events, EnterSession(1));
    states, events := Extend(states, events, CallReplied(0, PermissionDenied));
    states, events := Extend(states, events, CallReplied(1, PermissionDenied));
  }

  // And it does happen: two calls are refused, the first one fails to log in again,
  // and the second finds the session replaced by nothing.
  lemma EmptyRetryHappens() returns (states: seq<State>, events: seq<Event>)
    ensures IsRun(states, events) && states[0] == INITIAL
    ensures 1 in states[|events|].threads && states[|events|].threads[1].pc == Retrying("")
  {
    states, events := BothRefused();
    states, events := Extend(states, events, EnterRelogin(0));
    states, events := Extend(states, events, LoginReplied(0, LoginError));
    states, events := Extend(states, events, EnterRelogin(1));
  }

  // ---- the client ----------------------------------------------------------------------------

  // One call at a time runs as these methods; m is the protocol state they act on,
  // and each of them takes the call through its steps of the protocol.
  class Client {
    var session: string
    var id: nat

    constructor ()
      ensures session == "" && id == 0
    {
      session, id := "", 0;
    }

    ghost predicate Matches(m: State)
      reads this
    {
      session == m.session && id == m.sent
    }

    method Login(reply: LoginReply) returns (ok: bool)
      modifies this
      ensures ok <==> LoginResult(reply).Some?
      ensures session == (if ok then LoginResult(reply).value else old(session))
      ensures id == old(id) + 1
    {
      id := id + 1;
      match reply
      case LoginError => return false;
      case Session(s) =>
        if s == "" {
          return false;
        }
        session := s;
        return true;
    }

    method SessionID(reply: LoginReply, t: Tid, ghost m: State) returns (r: Result<string>, ghost m': State)
      requires Matches(m) && Enabled(m, EnterSession(t))
      requires LoginResult(reply).Some? ==> LoginResult(reply).value !in m.issued
      modifies this
      ensures r.Ok? ==> m' == SessionSteps(m, t, reply) && m'.threads[t].pc == Calling(r.value) && session == r.value
      ensures r.Err? ==> m' == SessionSteps(m, t, reply) && m'.threads[t].pc == Finished(false)
      ensures session == m'.session && id + (if r.Ok? then 1 else 0) == m'.sent
      ensures r.Ok? <==> old(session) != "" || LoginResult(reply).Some?
      ensures r.Ok? ==> r.value == if old(session) != "" then old(session) else LoginResult(reply).value
    {
      if session == "" {
        var ok := Login(reply);
        m' := SessionSteps(m, t, reply);
        if !ok {
          return Err(Remote), m';
        }
      }
      m' := SessionSteps(m, t, reply);
      return Ok(session), m';
    }

    method Relogin(stale: string, reply: LoginReply, t: Tid, ghost m: State)
      returns (r: Result<string>, ghost m': State)
      requires Matches(m) && Enabled(m, EnterRelogin(t)) && m.threads[t].pc == Denied(stale)
      requires LoginResult(reply).Some? ==> LoginResult(reply).value !in m.issued
      modifies this
      ensures r.Ok? ==> m' == ReloginSteps(m, t, reply) && m'.threads[t].pc == Retrying(r.value) && session == r.value
      ensures r.Err? ==> m' == ReloginSteps(m, t, reply) && m'.threads[t].pc == Finished(false)
      ensures session == m'.session && id + (if r.Ok? then 1 else 0) == m'.sent
      ensures r.Ok? <==> old(session) != stale || LoginResult(reply).Some?
      ensures r.Ok? ==> r.value == if old(session) != stale then old(session) else LoginResult(reply).value
    {
      m' := ReloginSteps(m, t, reply);
      if session != stale {
        return Ok(session), m';
      }
      session := "";
      var ok := Login(reply);
      if !ok {
        return Err(Remote), m';
      }
      return Ok(session), m';
    }

    // The one retry after a refusal.
    method Retry(t: Tid, stale: string, login: LoginReply, reply: CallReply, ghost w: World, ghost m: State)
      returns (ok: bool, ghost m': State, ghost trace: seq<Event>)
      requires w.t == t && w.login2 == login && w.reply2 == reply
      requires Matches(m) && Enabled(m, EnterRelogin(t)) && m.threads[t].pc == Denied(stale)
      requires LoginResult(login).Some? ==> LoginResult(login).value !in m.issued
      modifies this
      ensures Runs(m, w, trace, m') && Matches(m') && m'.holder == None
      ensures t in m'.threads && m'.threads == m.threads[t := m'.threads[t]] && m'.threads[t].pc == Finished(ok)
      ensures ok <==> (old(session) != stale || LoginResult(login).Some?) && reply == Answered(true)
      ensures session == if old(session) != stale then old(session) else SessionAfter(login)
    {
      var s;
      s, m' := Relogin(stale, login, t, m);
      trace := ReloginTrace(m, t, login);
      ReloginRuns(m, w);
      if s.Err? {
        return false, m', trace;
      }
      id := id + 1;
      ghost var e := CallReplied(t, reply);
      RunsExtend(m, w, trace, m', e);
      return reply == Answered(true), Apply(m', e), trace + [e];
    }

    // The first attempt of a call, up to its reply.
    method Attempt(t: Tid, login: LoginReply, reply: CallReply, ghost w: World, ghost m: State)
      returns (s: Result<string>, ghost m': State, ghost trace: seq<Event>)
      requires w.t == t && w.login1 == login && w.reply1 == reply
      requires Matches(m) && m.holder == None && t !in m.threads
      requires LoginResult(login).Some? ==> LoginResult(login).value !in m.issued
      modifies this
      ensures Runs(m, w, trace, m') && Matches(m') && m'.holder == None
      ensures t in m'.threads && m'.threads == m.threads[t := m'.threads[t]]
      ensures m'.threads[t].pc == (if s.Err? then Finished(false)
                                   else match reply
                                        case Answered(ok) => Finished(ok)
                                        case PermissionDenied => Denied(s.value))
      ensures m'.issued == m.issued + (if m.session == "" && LoginResult(login).Some?
                                       then {LoginResult(login).value} else {})
      ensures s.Ok? <==> old(session) != "" || LoginResult(login).Some?
      ensures session == if old(session) != "" then old(session) else SessionAfter(login)
      ensures s.Ok? ==> session == s.value
    {
      ghost var before := Apply(m, Begin(t));
      s, m' := SessionID(login, t, before);
      trace := [Begin(t)] + SessionTrace(before, t, login);
      SessionRuns(m, before, w);
      if s.Err? {
        return s, m', trace;
      }
      id := id + 1;
      ghost var e := CallReplied(t, reply);
      RunsExtend(m, w, trace, m', e);
      return s, Apply(m', e), trace + [e];
    }

    // A whole call: the trace is the run of the protocol that it makes when the server
    // replies as given. It succeeds exactly if it gets a session and its request is
    // answered well, at once or, after a refusal, under the session of a new login.
    method Call(t: Tid, login1: LoginReply, reply1: CallReply, login2: LoginReply, reply2: CallReply, ghost m: State)
      returns (ok: bool, ghost m': State, ghost trace: seq<Event>)
      requires Matches(m) && m.holder == None && t !in m.threads
      requires LoginResult(login1).Some? ==> LoginResult(login1).value !in m.issued
      requires LoginResult(login2).Some? ==> LoginResult(login2).value !in m.issued && login2 != login1
      modifies this
      ensures Runs(m, World(t, login1, reply1, login2, reply2), trace, m') && Matches(m') && m'.holder == None
      ensures t in m'.threads && m'.threads == m.threads[t := m'.threads[t]] && m'.threads[t].pc == Finished(ok)
      ensures ok <==> && (old(session) != "" || LoginResult(login1).Some?)
                      && (|| reply1 == Answered(true)
                          || (reply1 == PermissionDenied && LoginResult(login2).Some? && reply2 == Answered(true)))
      // What the call leaves: the last session it used, or none if its login failed.
      ensures var first := if old(session) != "" then old(session) else SessionAfter(login1);
              session == if first != "" && reply1 == PermissionDenied then SessionAfter(login2) else first
    {
      ghost var w := World(t, login1, reply1, login2, reply2);
      var s;
      s, m', trace := Attempt(t, login1, reply1, w, m);
      if s.Err? {
        return false, m', trace;
      }
      if reply1.Answered? {
        return reply1.ok, m', trace;
      }
      ghost var mid, more := m', [];
      ok, m', more := Retry(t, s.value, login2, reply2, w, mid);
      RunsAppend(m, w, trace, mid, more, m');
      trace := trace + more;
    }
  }

  // The steps of one call through the first critical section, with nobody else moving.
  ghost function SessionSteps(m: State, t: Tid, reply: LoginReply): State
    requires Enabled(m, EnterSession(t))
    requires LoginResult(reply).Some? ==> LoginResult(reply).value !in m.issued
  {
    var m1 := Apply(m, EnterSession(t));
    if m.session == "" then Apply(m1, LoginReplied(t, reply)) else m1
  }

  ghost function ReloginSteps(m: State, t: Tid, reply: LoginReply): State
    requires Enabled(m, EnterRelogin(t))
    requires LoginResult(reply).Some? ==> LoginResult(reply).value !in m.issued
  {
    var m1 := Apply(m, EnterRelogin(t));
    if m1.threads[t].pc.Relogging? then Apply(m1, LoginReplied(t, reply)) else m1
  }

  ghost function SessionTrace(m: State, t: Tid, reply: LoginReply): seq<Event> {
    if m.session == "" then [EnterSession(t), LoginReplied(t, reply)] else [EnterSession(t)]
  }

  ghost function ReloginTrace(m: State, t: Tid, reply: LoginReply): seq<Event>
    requires Enabled(m, EnterRelogin(t))
  {
    if m.session == m.threads[t].pc.stale then [EnterRelogin(t), LoginReplied(t, reply)] else [EnterRelogin(t)]
  }

  // What the server replies to one call: to its first login and request, if it sends
  // them, and to those of its retry.
  datatype World = World(t: Tid, login1: LoginReply, reply1: CallReply, login2: LoginReply, reply2: CallReply)

  // The next step of the call in that world.
  function NextEvent(m: State, w: World): Option<Event> {
    if w.t !in m.threads then Some(Begin(w.t))
    else match m.threads[w.t].pc
      case Starting => Some(EnterSession(w.t))
      case LoggingIn => Some(LoginReplied(w.t, w.login1))
      case Calling(_) => Some(CallReplied(w.t, w.reply1))
      case Denied(_) => Some(EnterRelogin(w.t))
      case Relogging(_) => Some(LoginReplied(w.t, w.login2))
      case Retrying(_) => Some(CallReplied(w.t, w.reply2))
      case Finished(_) => None
  }

  ghost predicate Runs(m: State, w: World, trace: seq<Event>, m': State)
    decreases |trace|
  {
    if trace == [] then m' == m
    else NextEvent(m, w) == Some(trace[0]) && Enabled(m, trace[0]) && Runs(Apply(m, trace[0]), w, trace[1..], m')
  }

  lemma {:induction false} RunsAppend(m: State, w: World, a: seq<Event>, mid: State, b: seq<Event>, m': State)
    requires Runs(m, w, a, mid) && Runs(mid, w, b, m')
    ensures Runs(m, w, a + b, m')
    decreases |a|
  {
    if a == [] {
      assert a + b == b;
    } else {
      assert (a + b)[1..] == a[1..] + b;
      RunsAppend(Apply(m, a[0]), w, a[1..], mid, b, m');
    }
  }

  lemma RunsOne(m: State, w: World, e: Event)
    requires Enabled(m, e) && NextEvent(m, w) == Some(e)
    ensures Runs(m, w, [e], Apply(m, e))
  {
    assert [e][1..] == [];
  }

  lemma RunsExtend(m: State, w: World, trace: seq<Event>, mid: State, e: Event)
    requires Runs(m, w, trace, mid) && Enabled(mid, e) && NextEvent(mid, w) == Some(e)
    ensures Runs(m, w, trace + [e], Apply(mid, e))
  {
    RunsOne(mid, w, e);
    RunsAppend(m, w, trace, mid, [e], Apply(mid, e));
  }

  lemma ReloginRuns(m: State, w: World)
    requires Enabled(m, EnterRelogin(w.t))
    requires LoginResult(w.login2).Some? ==> LoginResult(w.login2).value !in m.issued
    ensures Runs(m, w, ReloginTrace(m, w.t, w.login2), ReloginSteps(m, w.t, w.login2))
  {
    var m1 := Apply(m, EnterRelogin(w.t));
    RunsOne(m, w, EnterRelogin(w.t));
    if m1.threads[w.t].pc.Relogging? {
      RunsExtend(m, w, [EnterRelogin(w.t)], m1, LoginReplied(w.t, w.login2));
    }
  }

  lemma SessionRuns(m: State, before: State, w: World)
    requires w.t !in m.threads && before == Apply(m, Begin(w.t)) && m.holder == None
    requires LoginResult(w.login1).Some? ==> LoginResult(w.login1).value !in m.issued
    ensures Runs(m, w, [Begin(w.t)] + SessionTrace(before, w.t, w.login1), SessionSteps(before, w.t, w.login1))
  {
    var m1 := Apply(before, EnterSession(w.t));
    RunsOne(m, w, Begin(w.t));
    RunsOne(before, w, EnterSession(w.t));
    if before.session == "" {
      RunsExtend(before, w, [EnterSession(w.t)], m1, LoginReplied(w.t, w.login1));
    }
    RunsAppend(m, w, [Begin(w.t)], before, SessionTrace(before, w.t, w.login1), SessionSteps(before, w.t, w.login1));
  }
}
