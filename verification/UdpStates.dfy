/** The life of one UDP tracker as a state machine, and what every run of it keeps. */
module UdpStates {
  import opened Geometry
  import opened UdpMessages

  const ADDR_TTL := 3600

  /** struct tau_tracker, with what can be seen of it: requests finished, datagrams sent,
      connection ids received (and when), and who waited for each request submitted. */
  datatype TrackerState = TrackerState(
    dnsRequest: bool, addr: bool, addrExpires: int,
    connectingAt: int, connExpires: int, connId: nat, connTid: nat, closeAt: int,
    announces: seq<TauRequest>, scrapes: seq<TauRequest>,
    finished: seq<Finished>, sent: seq<Datagram>, received: seq<(nat, int)>, submitted: seq<bool>, clock: int)

  /** What happens to a tracker.  `now` is tr_time(), `wall` is time(NULL), and `newTid` the
      transaction id drawn if a connection is tried. */
  datatype Event =
    | Upkeep
    | Announce(hasCallback: bool, tid: nat)
    | Scrape(hasCallback: bool, tid: nat, rows: nat)
    | DnsAnswer(ok: bool)
    | Message(action: nat, tid: nat, body: seq<byte>)
    | Shutdown

  datatype Times = Times(now: int, wall: int, newTid: nat)

  function Fresh(): TrackerState
  {
    TrackerState(false, false, 0, 0, 0, 0, 0, 0, [], [], [], [], [], [], 0)
  }

  predicate Idle(s: TrackerState)
  {
    s.announces == [] && s.scrapes == []
  }

  // ----- the steps -----

  /** tau_tracker_fail_all */
  function FailedAll(s: TrackerState, o: Outcome): TrackerState
  {
    s.(announces := [], scrapes := [], finished := s.finished + Failures(s.scrapes, o) + Failures(s.announces, o))
  }

  /** tau_tracker_send_reqs */
  function AllSent(s: TrackerState, now: int): TrackerState
  {
    s.(announces := SentList(s.announces, now), scrapes := SentList(s.scrapes, now),
       sent := s.sent + SentQueries(s.announces, s.connId, now) + SentQueries(s.scrapes, s.connId, now),
       finished := s.finished + SentSilently(s.announces) + SentSilently(s.scrapes))
  }

  function ConnectionFailed(s: TrackerState, reason: Reason): TrackerState
  {
    FailedAll(s.(connectingAt := 0, connTid := 0), Failed(true, false, reason))
  }

  predicate CancelAll(s: TrackerState, wall: int)
  {
    s.closeAt != 0 && s.closeAt <= wall
  }

  /** tau_tracker_timeout_reqs */
  function TimedOut(s: TrackerState, wall: int): TrackerState
  {
    var c := CancelAll(s, wall);
    var t := if s.connectingAt != 0 && s.connectingAt + TAU_REQUEST_TTL < wall then ConnectionFailed(s, ConnectFailed) else s;
    t.(announces := Sift(t.announces, wall, c, false), scrapes := Sift(t.scrapes, wall, c, false),
       finished := t.finished
         + Failures(Sift(t.announces, wall, c, true), Failed(false, true, NoReason))
         + Failures(Sift(t.scrapes, wall, c, true), Failed(false, true, NoReason)))
  }

  function Expired(s: TrackerState, now: int): TrackerState
  {
    s.(addr := s.addr && now < s.addrExpires)
  }

  predicate NeedsDns(s: TrackerState)
  {
    !s.addr && !s.dnsRequest
  }

  predicate NeedsConnection(s: TrackerState, now: int)
  {
    s.addr && s.connExpires <= now && s.connectingAt == 0
  }

  /** tau_tracker_upkeep */
  function Kept(s: TrackerState, at: Times): TrackerState
  {
    var e := Expired(s, at.now).(clock := at.now);
    if Idle(e) then e
    else if NeedsDns(e) then e.(dnsRequest := true)
    else if NeedsConnection(e, at.now) then
      e.(connectingAt := at.now, connTid := at.newTid, sent := e.sent + [Connect(at.newTid, at.now)])
    else
      var t := TimedOut(e, at.wall);
      if t.addr && at.now < t.connExpires then AllSent(t, at.now) else t
  }

  /** An unsigned integer in network order. */
  function Big(s: seq<byte>): nat
  {
    if s == [] then 0 else Big(s[..|s| - 1]) * 256 + s[|s| - 1]
  }

  /** on_tracker_connection_response */
  function Answered(s: TrackerState, action: nat, body: seq<byte>, at: Times): TrackerState
    requires action == TAU_ACTION_CONNECT ==> |body| == 8
  {
    var t := s.(connectingAt := 0, connTid := 0);
    if action == TAU_ACTION_CONNECT then
      var id := Big(body);
      Kept(t.(connId := id, connExpires := at.now + TAU_CONNECTION_TTL_SECS, received := t.received + [(id, at.now)]), at)
    else
      Kept(ConnectionFailed(s, ErrorText(action, body, ConnectFailed)), at)
  }

  predicate Matches(s: TrackerState, tid: nat)
  {
    || (s.connectingAt != 0 && tid == s.connTid)
    || 0 <= FirstSent(s.announces, tid)
    || 0 <= FirstSent(s.scrapes, tid)
  }

  /** A request leaves its list for its outcome. */
  function AnnounceDone(s: TrackerState, j: nat, o: Outcome, now: int): TrackerState
    requires j < |s.announces|
  {
    s.(announces := s.announces[..j] + s.announces[j + 1..],
       finished := s.finished + [Finished(s.announces[j].id, s.announces[j].hasCallback, o)], clock := now)
  }

  function ScrapeDone(s: TrackerState, j: nat, o: Outcome, now: int): TrackerState
    requires j < |s.scrapes|
  {
    s.(scrapes := s.scrapes[..j] + s.scrapes[j + 1..],
       finished := s.finished + [Finished(s.scrapes[j].id, s.scrapes[j].hasCallback, o)], clock := now)
  }

  /** What tau_handle_message does to the tracker it matches. */
  function Handled(s: TrackerState, action: nat, tid: nat, body: seq<byte>, at: Times): TrackerState
    requires action == TAU_ACTION_CONNECT ==> |body| == 8
  {
    var a, b := FirstSent(s.announces, tid), FirstSent(s.scrapes, tid);
    if s.connectingAt != 0 && tid == s.connTid then
      Answered(s, action, body, at)
    else if 0 <= a then AnnounceDone(s, a, AnnounceOutcome(action, body), at.now)
    else if 0 <= b then ScrapeDone(s, b, ScrapeOutcome(s.scrapes[b], action, body), at.now)
    else s
  }

  predicate Legal(s: TrackerState, e: Event, at: Times)
  {
    && 0 < at.now && s.clock <= at.now
    && (e.DnsAnswer? ==> s.dnsRequest)
    && (e.Message? ==> IsResponse(e.action, |e.body| + 8))
  }

  function Submitted(s: TrackerState, hasCallback: bool, tid: nat, now: int, rows: nat): TauRequest
  {
    TauRequest(|s.submitted|, hasCallback, tid, now, 0, rows)
  }

  function Step(s: TrackerState, e: Event, at: Times): TrackerState
    requires Legal(s, e, at)
  {
    match e
    case Upkeep => Kept(s, at)
    case Announce(cb, tid) =>
      Kept(s.(announces := s.announces + [Submitted(s, cb, tid, at.now, 0)], submitted := s.submitted + [cb]), at)
    case Scrape(cb, tid, rows) =>
      Kept(s.(scrapes := s.scrapes + [Submitted(s, cb, tid, at.now, rows)], submitted := s.submitted + [cb]), at)
    case DnsAnswer(ok) =>
      var t := s.(dnsRequest := false, clock := at.now);
      if ok then Kept(t.(addr := true, addrExpires := at.now + ADDR_TTL), at)
      else FailedAll(t, Failed(false, false, LookupFailed))
    case Message(action, tid, body) => Handled(s, action, tid, body, at)
    case Shutdown => Kept(s.(closeAt := at.wall + 3), at)
  }

  // ----- what every step keeps -----

  ghost predicate Received(ids: seq<(nat, int)>, id: nat, at: int)
  {
    exists k :: 0 <= k < |ids| && ids[k].0 == id && ids[k].1 == at
  }

  /** A query carries a connection id received less than 60 seconds before. */
  ghost predicate UsesLiveId(d: Datagram, ids: seq<(nat, int)>)
  {
    d.Query? ==> exists k :: 0 <= k < |ids| && ids[k].0 == d.connId && ids[k].1 <= d.at < ids[k].1 + TAU_CONNECTION_TTL_SECS
  }

  /** Every request submitted is pending or finished, and only once. */
  ghost predicate Conserved(s: TrackerState)
  {
    Keys(s.announces) + Keys(s.scrapes) + FinishedKeys(s.finished) == SubmittedKeys(s.submitted)
  }

  ghost predicate ListOk(rs: seq<TauRequest>, clock: int)
  {
    forall i | 0 <= i < |rs| :: rs[i].createdAt <= clock && rs[i].sentAt <= clock && (rs[i].sentAt != 0 ==> rs[i].hasCallback)
  }

  ghost predicate SentOk(sent: seq<Datagram>, ids: seq<(nat, int)>)
  {
    forall i | 0 <= i < |sent| :: UsesLiveId(sent[i], ids)
  }

  ghost predicate Phases(s: TrackerState)
  {
    && (s.addr ==> !s.dnsRequest)
    && (s.connectingAt != 0 ==> s.connExpires <= s.connectingAt)
    && s.connectingAt <= s.clock
    && (s.connExpires != 0 ==> Received(s.received, s.connId, s.connExpires - TAU_CONNECTION_TTL_SECS) && s.connExpires <= s.clock + TAU_CONNECTION_TTL_SECS)
    && 0 <= s.clock
  }

  ghost predicate Invariant(s: TrackerState)
  {
    && Phases(s) && Conserved(s) && SentOk(s.sent, s.received)
    && ListOk(s.announces, s.clock) && ListOk(s.scrapes, s.clock)
  }

  // ----- conservation -----

  lemma FailedAllConserves(s: TrackerState, o: Outcome)
    ensures Conserved(FailedAll(s, o)) <==> Conserved(s)
  {
    hide Keys, FinishedKeys, SubmittedKeys;
    NoKeys();
    FailuresKeepKeys(s.scrapes, o);
    FailuresKeepKeys(s.announces, o);
    FinishedKeysAppend(s.finished, Failures(s.scrapes, o));
    FinishedKeysAppend(s.finished + Failures(s.scrapes, o), Failures(s.announces, o));
  }

  lemma NoKeys()
    ensures Keys([]) == multiset{} && FinishedKeys([]) == multiset{} && SubmittedKeys([]) == multiset{}
  {
  }

  lemma AllSentConserves(s: TrackerState, now: int)
    ensures Conserved(AllSent(s, now)) <==> Conserved(s)
  {
    hide Keys, FinishedKeys, SubmittedKeys, SentList, SentQueries, SentSilently;
    SentKeys(s.announces, now);
    SentKeys(s.scrapes, now);
    FinishedKeysAppend(s.finished, SentSilently(s.announces));
    FinishedKeysAppend(s.finished + SentSilently(s.announces), SentSilently(s.scrapes));
  }

  lemma SiftConserves(s: TrackerState, wall: int, c: bool, o: Outcome)
    ensures Conserved(s.(announces := Sift(s.announces, wall, c, false), scrapes := Sift(s.scrapes, wall, c, false),
      finished := s.finished + Failures(Sift(s.announces, wall, c, true), o) + Failures(Sift(s.scrapes, wall, c, true), o)))
      <==> Conserved(s)
  {
    hide Keys, FinishedKeys, SubmittedKeys, Sift, Failures;
    var a, b := Sift(s.announces, wall, c, true), Sift(s.scrapes, wall, c, true);
    SiftKeys(s.announces, wall, c);
    SiftKeys(s.scrapes, wall, c);
    FailuresKeepKeys(a, o);
    FailuresKeepKeys(b, o);
    FinishedKeysAppend(s.finished, Failures(a, o));
    FinishedKeysAppend(s.finished + Failures(a, o), Failures(b, o));
  }

  lemma TimedOutConserves(s: TrackerState, wall: int)
    ensures Conserved(TimedOut(s, wall)) <==> Conserved(s)
  {
    hide Conserved, Sift, Failures, CancelAll;
    var t := if s.connectingAt != 0 && s.connectingAt + TAU_REQUEST_TTL < wall then ConnectionFailed(s, ConnectFailed) else s;
    ConnectionFailedConserves(s, ConnectFailed);
    SiftConserves(t, wall, CancelAll(s, wall), Failed(false, true, NoReason));
  }

  lemma ConnectionFailedConserves(s: TrackerState, reason: Reason)
    ensures Conserved(ConnectionFailed(s, reason)) <==> Conserved(s)
  {
    FailedAllConserves(s.(connectingAt := 0, connTid := 0), Failed(true, false, reason));
  }

  lemma KeptConserves(s: TrackerState, at: Times)
    ensures Conserved(Kept(s, at)) <==> Conserved(s)
  {
    hide Keys, FinishedKeys, SubmittedKeys, TimedOut, AllSent;
    var e := Expired(s, at.now).(clock := at.now);
    TimedOutConserves(e, at.wall);
    AllSentConserves(TimedOut(e, at.wall), at.now);
  }

  lemma SubmitConserves(s: TrackerState, cb: bool, tid: nat, now: int, rows: nat)
    requires Conserved(s)
    ensures Conserved(s.(announces := s.announces + [Submitted(s, cb, tid, now, rows)], submitted := s.submitted + [cb]))
    ensures Conserved(s.(scrapes := s.scrapes + [Submitted(s, cb, tid, now, rows)], submitted := s.submitted + [cb]))
  {
    hide Keys, FinishedKeys;
    KeysSnoc(s.announces, Submitted(s, cb, tid, now, rows));
    KeysSnoc(s.scrapes, Submitted(s, cb, tid, now, rows));
    assert (s.submitted + [cb])[..|s.submitted|] == s.submitted;
  }

  lemma ReplyConserves(s: TrackerState, j: nat, o: Outcome, now: int)
    ensures j < |s.announces| ==>
      (Conserved(AnnounceDone(s, j, o, now)) <==> Conserved(s))
    ensures j < |s.scrapes| ==>
      (Conserved(ScrapeDone(s, j, o, now)) <==> Conserved(s))
  {
    hide Keys, FinishedKeys, SubmittedKeys;
    if j < |s.announces| {
      RemoveKeys(s.announces, j, o);
      FinishedKeysAppend(s.finished, [Finished(s.announces[j].id, s.announces[j].hasCallback, o)]);
    }
    if j < |s.scrapes| {
      RemoveKeys(s.scrapes, j, o);
      FinishedKeysAppend(s.finished, [Finished(s.scrapes[j].id, s.scrapes[j].hasCallback, o)]);
    }
  }

  lemma HandledConserves(s: TrackerState, action: nat, tid: nat, body: seq<byte>, at: Times)
    requires action == TAU_ACTION_CONNECT ==> |body| == 8
    ensures Conserved(Handled(s, action, tid, body, at)) <==> Conserved(s)
  {
    hide Conserved, FirstSent, Kept, AnnounceOutcome, ScrapeOutcome, Answered, AnnounceDone, ScrapeDone;
    var a, b := FirstSent(s.announces, tid), FirstSent(s.scrapes, tid);
    if s.connectingAt != 0 && tid == s.connTid {
      AnsweredConserves(s, action, body, at);
    } else if 0 <= a {
      ReplyConserves(s, a, AnnounceOutcome(action, body), at.now);
    } else if 0 <= b {
      ReplyConserves(s, b, ScrapeOutcome(s.scrapes[b], action, body), at.now);
    }
  }

  lemma AnsweredConserves(s: TrackerState, action: nat, body: seq<byte>, at: Times)
    requires action == TAU_ACTION_CONNECT ==> |body| == 8
    ensures Conserved(Answered(s, action, body, at)) <==> Conserved(s)
  {
    hide Keys, FinishedKeys, SubmittedKeys, Kept, Big, ConnectionFailed, ErrorText;
    var t := s.(connectingAt := 0, connTid := 0);
    if action == TAU_ACTION_CONNECT {
      var id := Big(body);
      KeptConserves(t.(connId := id, connExpires := at.now + TAU_CONNECTION_TTL_SECS, received := t.received + [(id, at.now)]), at);
    } else {
      ConnectionFailedConserves(s, ErrorText(action, body, ConnectFailed));
      KeptConserves(ConnectionFailed(s, ErrorText(action, body, ConnectFailed)), at);
    }
  }

  // ----- the rest of the invariant -----

  lemma KeptKeepsRest(s: TrackerState, at: Times)
    requires 0 < at.now && s.clock <= at.now
    requires Phases(s) && SentOk(s.sent, s.received) && ListOk(s.announces, at.now) && ListOk(s.scrapes, at.now)
    ensures var k := Kept(s, at); Phases(k) && SentOk(k.sent, k.received) && ListOk(k.announces, at.now) && ListOk(k.scrapes, at.now)
  {
    hide Keys, FinishedKeys, SubmittedKeys, Sift, Failures, SentList, SentQueries, SentSilently, ListOk, Received,
      SentOk;
    var e := Expired(s, at.now).(clock := at.now);
    var t := TimedOut(e, at.wall);
    TimedOutLists(e, at.wall, at.now);
    if t.addr && at.now < t.connExpires {
      SentLists(t.announces, at.now);
      SentLists(t.scrapes, at.now);
      QueriesAreLive(t.announces, t.connId, at.now, t.received, t.connExpires);
      QueriesAreLive(t.scrapes, t.connId, at.now, t.received, t.connExpires);
      SentOkJoins(t.sent, SentQueries(t.announces, t.connId, at.now), t.received);
      SentOkJoins(t.sent + SentQueries(t.announces, t.connId, at.now), SentQueries(t.scrapes, t.connId, at.now), t.received);
    }
    ConnectOk(at.newTid, at.now, e.received);
    SentOkJoins(e.sent, [Connect(at.newTid, at.now)], e.received);
  }

  lemma ConnectOk(tid: nat, at: int, ids: seq<(nat, int)>)
    ensures SentOk([Connect(tid, at)], ids)
  {
  }

  lemma TimedOutLists(e: TrackerState, wall: int, clock: int)
    requires ListOk(e.announces, clock) && ListOk(e.scrapes, clock)
    ensures ListOk(TimedOut(e, wall).announces, clock) && ListOk(TimedOut(e, wall).scrapes, clock)
  {
    hide Late, Failures, Keys, FinishedKeys;
    SiftedList(e.announces, wall, CancelAll(e, wall), clock);
    SiftedList(e.scrapes, wall, CancelAll(e, wall), clock);
    SiftedList([], wall, CancelAll(e, wall), clock);
  }

  lemma SiftedList(rs: seq<TauRequest>, wall: int, c: bool, clock: int)
    requires ListOk(rs, clock)
    ensures ListOk(Sift(rs, wall, c, false), clock)
  {
    hide Late, Sift;
    var ks := Sift(rs, wall, c, false);
    forall i | 0 <= i < |ks|
      ensures ks[i] in rs
    {
      SiftMembers(rs, wall, c, false, ks[i]);
    }
  }

  lemma SentLists(rs: seq<TauRequest>, now: int)
    requires ListOk(rs, now) && 0 < now
    ensures ListOk(SentList(rs, now), now)
  {
    hide SentList;
    var ks := SentList(rs, now);
    forall i | 0 <= i < |ks|
      ensures ks[i].createdAt <= now && ks[i].sentAt <= now && (ks[i].sentAt != 0 ==> ks[i].hasCallback)
    {
      SentMembers(rs, now, ks[i]);
    }
  }

  lemma QueriesAreLive(rs: seq<TauRequest>, connId: nat, now: int, ids: seq<(nat, int)>, expires: int)
    requires Received(ids, connId, expires - TAU_CONNECTION_TTL_SECS) && now < expires <= now + TAU_CONNECTION_TTL_SECS
    ensures SentOk(SentQueries(rs, connId, now), ids)
  {
    hide SentQueries;
    var ds := SentQueries(rs, connId, now);
    forall i | 0 <= i < |ds|
      ensures UsesLiveId(ds[i], ids)
    {
      QueriesAreNew(rs, connId, now, ds[i]);
    }
  }

  lemma SentOkJoins(a: seq<Datagram>, b: seq<Datagram>, ids: seq<(nat, int)>)
    ensures SentOk(a + b, ids) <==> SentOk(a, ids) && SentOk(b, ids)
  {
    hide UsesLiveId;
    if SentOk(a + b, ids) {
      assert forall i | 0 <= i < |a| :: (a + b)[i] == a[i];
      assert forall i | 0 <= i < |b| :: (a + b)[|a| + i] == b[i];
    }
  }

  lemma MoreIds(sent: seq<Datagram>, ids: seq<(nat, int)>, more: (nat, int))
    requires SentOk(sent, ids)
    ensures SentOk(sent, ids + [more]) && Received(ids + [more], more.0, more.1)
  {
    assert (ids + [more])[|ids|] == more;
    forall i | 0 <= i < |sent|
      ensures UsesLiveId(sent[i], ids + [more])
    {
      assert UsesLiveId(sent[i], ids);
      if sent[i].Query? {
        var k :| 0 <= k < |ids| && ids[k].0 == sent[i].connId && ids[k].1 <= sent[i].at < ids[k].1 + TAU_CONNECTION_TTL_SECS;
        assert (ids + [more])[k] == ids[k];
      }
    }
  }

  lemma LaterList(rs: seq<TauRequest>, clock: int, later: int)
    requires ListOk(rs, clock) && clock <= later
    ensures ListOk(rs, later)
  {
  }

  lemma KeptInvariant(s: TrackerState, at: Times)
    requires 0 < at.now && s.clock <= at.now && Phases(s) && Conserved(s) && SentOk(s.sent, s.received)
    requires ListOk(s.announces, at.now) && ListOk(s.scrapes, at.now)
    ensures Invariant(Kept(s, at)) && Kept(s, at).clock == at.now
  {
    KeptKeepsRest(s, at);
    KeptConserves(s, at);
    KeptClock(s, at);
    hide Kept, Phases, Conserved, SentOk, ListOk;
  }

  lemma KeptClock(s: TrackerState, at: Times)
    ensures Kept(s, at).clock == at.now
  {
    hide Sift, Failures, SentList, SentQueries, SentSilently;
  }

  lemma KeptSubmitted(s: TrackerState, at: Times)
    ensures Kept(s, at).submitted == s.submitted
  {
    hide Sift, Failures, SentList, SentQueries, SentSilently;
  }

  lemma AnsweredInvariant(s: TrackerState, action: nat, body: seq<byte>, at: Times)
    requires action == TAU_ACTION_CONNECT ==> |body| == 8
    requires 0 < at.now && s.clock <= at.now && Invariant(s)
    ensures Invariant(Answered(s, action, body, at))
  {
    hide Kept, Keys, FinishedKeys, SubmittedKeys, Big, ErrorText, SentOk, ListOk, Failures, Received;
    LaterList(s.announces, s.clock, at.now);
    LaterList(s.scrapes, s.clock, at.now);
    LaterList([], s.clock, at.now) by { EmptyList(s.clock); }
    var t := s.(connectingAt := 0, connTid := 0);
    if action == TAU_ACTION_CONNECT {
      var id := Big(body);
      MoreIds(s.sent, s.received, (id, at.now));
      var u := t.(connId := id, connExpires := at.now + TAU_CONNECTION_TTL_SECS, received := t.received + [(id, at.now)], clock := at.now);
      KeptInvariant(u, at);
      KeptIgnoresClock(u, s.clock, at);
    } else {
      var reason := ErrorText(action, body, ConnectFailed);
      ConnectionFailedConserves(s, reason);
      KeptInvariant(ConnectionFailed(s, reason), at);
    }
  }

  lemma KeptIgnoresClock(s: TrackerState, clock: int, at: Times)
    ensures Kept(s.(clock := clock), at) == Kept(s, at)
  {
    hide TimedOut, AllSent;
    assert Expired(s.(clock := clock), at.now).(clock := at.now) == Expired(s, at.now).(clock := at.now);
  }

  lemma EmptyList(clock: int)
    ensures ListOk([], clock)
  {
  }

  lemma HandledInvariant(s: TrackerState, action: nat, tid: nat, body: seq<byte>, at: Times)
    requires action == TAU_ACTION_CONNECT ==> |body| == 8
    requires 0 < at.now && s.clock <= at.now && Invariant(s)
    ensures Invariant(Handled(s, action, tid, body, at))
  {
    hide Conserved, FirstSent, AnnounceOutcome, ScrapeOutcome, Answered, SentOk, Received, ListOk;
    HandledConserves(s, action, tid, body, at);
    var a, b := FirstSent(s.announces, tid), FirstSent(s.scrapes, tid);
    if s.connectingAt != 0 && tid == s.connTid {
      AnsweredInvariant(s, action, body, at);
    } else {
      LaterList(s.announces, s.clock, at.now);
      LaterList(s.scrapes, s.clock, at.now);
      ShorterList(s.announces, a, at.now);
      ShorterList(s.scrapes, b, at.now);
    }
  }

  lemma ShorterList(rs: seq<TauRequest>, j: int, clock: int)
    requires ListOk(rs, clock) && j < |rs|
    ensures 0 <= j ==> ListOk(rs[..j] + rs[j + 1..], clock)
  {
  }

  /** Every step of a tracker keeps the invariant. */
  lemma StepInvariant(s: TrackerState, e: Event, at: Times)
    requires Legal(s, e, at) && Invariant(s)
    ensures Invariant(Step(s, e, at))
  {
    hide Conserved, Kept, Handled, SentOk, Received, FailedAll;
    LaterList(s.announces, s.clock, at.now);
    LaterList(s.scrapes, s.clock, at.now);
    match e
    case Upkeep => KeptInvariant(s, at);
    case Announce(cb, tid) =>
      SubmitConserves(s, cb, tid, at.now, 0);
      KeptInvariant(s.(announces := s.announces + [Submitted(s, cb, tid, at.now, 0)], submitted := s.submitted + [cb]), at);
    case Scrape(cb, tid, rows) =>
      SubmitConserves(s, cb, tid, at.now, rows);
      KeptInvariant(s.(scrapes := s.scrapes + [Submitted(s, cb, tid, at.now, rows)], submitted := s.submitted + [cb]), at);
    case DnsAnswer(ok) =>
      DnsInvariant(s, ok, at);
    case Message(action, tid, body) => HandledInvariant(s, action, tid, body, at);
    case Shutdown =>
      ClosingConserves(s, at.wall + 3);
      KeptInvariant(s.(closeAt := at.wall + 3), at);
  }

  lemma ClosingConserves(s: TrackerState, closeAt: int)
    ensures Conserved(s.(closeAt := closeAt)) <==> Conserved(s)
  {
  }

  lemma DnsInvariant(s: TrackerState, ok: bool, at: Times)
    requires Legal(s, DnsAnswer(ok), at) && Invariant(s)
    ensures Invariant(Step(s, DnsAnswer(ok), at))
  {
    hide Keys, FinishedKeys, SubmittedKeys, Kept, SentOk, Received, Failures;
    LaterList(s.announces, s.clock, at.now);
    LaterList(s.scrapes, s.clock, at.now);
    var t := s.(dnsRequest := false, clock := at.now);
    if ok {
      KeptInvariant(t.(addr := true, addrExpires := at.now + ADDR_TTL), at);
    } else {
      FailedAllConserves(t, Failed(false, false, LookupFailed));
    }
  }
}
