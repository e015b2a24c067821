/** struct tau_tracker and struct tr_announcer_udp as objects, updated in place.  Each method is
    proved to be a step of the state machine. */
module UdpTrackers {
  import opened Geometry
  import opened WireMessages
  import opened UdpMessages
  import opened UdpStates
  import opened UdpAnswers

  class Tracker {
    var dnsRequest: bool
    var addr: bool
    var addrExpires: int
    var connectingAt: int
    var connExpires: int
    var connId: nat
    var connTid: nat
    var closeAt: int
    var announces: seq<TauRequest>
    var scrapes: seq<TauRequest>
    /** what can be seen from outside: callbacks and datagrams */
    var finished: seq<Finished>
    var sent: seq<Datagram>
    ghost var received: seq<(nat, int)>
    /** who waits for each request submitted; requests are numbered */
    var submitted: seq<bool>
    ghost var clock: int

    ghost function State(): TrackerState
      reads this
    {
      TrackerState(dnsRequest, addr, addrExpires, connectingAt, connExpires, connId, connTid, closeAt,
                   announces, scrapes, finished, sent, received, submitted, clock)
    }

    ghost predicate Valid()
      reads this
    {
      Invariant(State())
    }

    constructor ()
      ensures Valid() && State() == Fresh()
    {
      dnsRequest, addr, addrExpires, connectingAt, connExpires, connId, connTid, closeAt := false, false, 0, 0, 0, 0, 0, 0;
      announces, scrapes, finished, sent := [], [], [], [];
      received, submitted, clock := [], [], 0;
      new;
      NoKeys();
    }

    /** tau_tracker_fail_all */
    method FailAll(o: Outcome)
      modifies this
      ensures State() == FailedAll(old(State()), o)
    {
      hide Failures;
      var done := FailEach(scrapes, o);
      finished, scrapes := finished + done, [];
      done := FailEach(announces, o);
      finished, announces := finished + done, [];
    }

    /** tau_tracker_send_reqs; what it requires is what it asserts. */
    method SendReqs(now: int)
      requires !dnsRequest && connectingAt == 0 && addr && now < connExpires
      modifies this
      ensures State() == AllSent(old(State()), now)
    {
      hide SentList, SentQueries, SentSilently;
      var out, done;
      announces, out, done := SendUnsent(announces, connId, now);
      sent, finished := sent + out, finished + done;
      scrapes, out, done := SendUnsent(scrapes, connId, now);
      sent, finished := sent + out, finished + done;
    }

    /** on_tracker_connection_response */
    method OnConnectionResponse(action: nat, body: seq<byte>, at: Times)
      requires action == TAU_ACTION_CONNECT ==> |body| == 8
      requires 0 < at.now && clock <= at.now && Phases(State())
      modifies this
      ensures State() == Answered(old(State()), action, body, at)
      decreases if action == TAU_ACTION_CONNECT then |announces| + |scrapes| else 0, 3
    {
      hide Kept, Failures, Big;
      connectingAt := 0;
      connTid := 0;
      if action == TAU_ACTION_CONNECT {
        connId := Big(body);
        connExpires := at.now + TAU_CONNECTION_TTL_SECS;
        ReceivedNow(received, connId, at.now);
        received := received + [(connId, at.now)];
        KeptIgnoresClock(State(), at.now, at);
        clock := at.now;
      } else {
        FailAll(Failed(true, false, ErrorText(action, body, ConnectFailed)));
      }
      Upkeep(at);
    }

    /** tau_tracker_timeout_reqs */
    method TimeoutReqs(at: Times)
      requires 0 < at.now && clock == at.now && Phases(State()) && (addr ==> at.now < addrExpires)
      requires !Idle(State())
      modifies this
      ensures State() == TimedOut(old(State()), at.wall)
      decreases |announces| + |scrapes|, 1
    {
      hide Sift, Failures, Kept;
      var cancelAll := closeAt != 0 && closeAt <= at.wall;
      if connectingAt != 0 && connectingAt + TAU_REQUEST_TTL < at.wall {
        KeptIdle(ConnectionFailed(State(), ConnectFailed), at);
        OnConnectionResponse(TAU_ACTION_ERROR, [], at);
      }
      var done;
      announces, done := TimeOut(announces, at.wall, cancelAll);
      finished := finished + done;
      scrapes, done := TimeOut(scrapes, at.wall, cancelAll);
      finished := finished + done;
    }

    /** tau_tracker_upkeep */
    method Upkeep(at: Times)
      requires 0 < at.now && clock <= at.now && Phases(State())
      modifies this
      ensures State() == Kept(old(State()), at)
      decreases |announces| + |scrapes|, 2
    {
      hide TimedOut, AllSent, Received;
      clock := at.now;
      if addr && addrExpires <= at.now {
        addr := false;
      }
      if announces == [] && scrapes == [] {
        return;
      }
      if !addr && !dnsRequest {
        dnsRequest := true;
        return;
      }
      if addr && connExpires <= at.now && connectingAt == 0 {
        connectingAt := at.now;
        connTid := at.newTid;
        sent := sent + [Connect(at.newTid, at.now)];
        return;
      }
      TimedOutPhases(State(), at.wall);
      TimeoutReqs(at);
      if addr && connExpires > at.now {
        SendReqs(at.now);
      }
    }

    // ----- what happens to a tracker -----

    /** tr_tracker_udp_upkeep, for this tracker */
    method UpkeepEvent(at: Times)
      requires Valid() && Legal(State(), Event.Upkeep, at)
      modifies this
      ensures Valid() && State() == Step(old(State()), Event.Upkeep, at)
    {
      hide Kept, Conserved, SentOk, ListOk;
      StepInvariant(State(), Event.Upkeep, at);
      Upkeep(at);
    }

    /** tr_tracker_udp_announce */
    method AnnounceEvent(hasCallback: bool, tid: nat, at: Times)
      requires Valid() && Legal(State(), Announce(hasCallback, tid), at)
      modifies this
      ensures Valid() && State() == Step(old(State()), Announce(hasCallback, tid), at)
    {
      hide Kept, Conserved, SentOk, ListOk;
      StepInvariant(State(), Announce(hasCallback, tid), at);
      announces := announces + [TauRequest(|submitted|, hasCallback, tid, at.now, 0, 0)];
      submitted := submitted + [hasCallback];
      Upkeep(at);
    }

    /** tr_tracker_udp_scrape */
    method ScrapeEvent(hasCallback: bool, tid: nat, rows: nat, at: Times)
      requires Valid() && Legal(State(), Scrape(hasCallback, tid, rows), at)
      modifies this
      ensures Valid() && State() == Step(old(State()), Scrape(hasCallback, tid, rows), at)
    {
      hide Kept, Conserved, SentOk, ListOk;
      StepInvariant(State(), Scrape(hasCallback, tid, rows), at);
      scrapes := scrapes + [TauRequest(|submitted|, hasCallback, tid, at.now, 0, rows)];
      submitted := submitted + [hasCallback];
      Upkeep(at);
    }

    /** tau_tracker_on_dns */
    method OnDns(ok: bool, at: Times)
      requires Valid() && Legal(State(), DnsAnswer(ok), at)
      modifies this
      ensures Valid() && State() == Step(old(State()), DnsAnswer(ok), at)
    {
      hide Kept, Conserved, SentOk, ListOk, FailedAll, Received;
      StepInvariant(State(), DnsAnswer(ok), at);
      dnsRequest := false;
      clock := at.now;
      if !ok {
        FailAll(Failed(false, false, LookupFailed));
      } else {
        addr := true;
        addrExpires := at.now + ADDR_TTL;
        Upkeep(at);
      }
    }

    /** tr_tracker_udp_start_shutdown, for this tracker */
    method StartShutdown(at: Times)
      requires Valid() && Legal(State(), Shutdown, at)
      modifies this
      ensures Valid() && State() == Step(old(State()), Shutdown, at)
    {
      hide Kept, Conserved, SentOk, ListOk;
      StepInvariant(State(), Shutdown, at);
      closeAt := at.wall + 3;
      Upkeep(at);
    }

    /** The body of the tracker loop of tau_handle_message. */
    method OfferMessage(action: nat, tid: nat, body: seq<byte>, at: Times) returns (mine: bool)
      requires Valid() && 0 < at.now && State().clock <= at.now && IsResponse(action, |body| + 8)
      modifies this
      ensures Valid() && mine == Matches(old(State()), tid)
      ensures State() == Step(old(State()), Message(action, tid, body), at)
      ensures Answers(old(State()), State(), action, tid, body, at)
    {
      hide Answers, Answered, Invariant, Phases, FirstSent, AnnounceOutcome, ScrapeOutcome, AnnounceDone, ScrapeDone;
      StepInvariant(State(), Message(action, tid, body), at);
      MessageAnswers(State(), action, tid, body, at);
      PhasesHold(State());
      if connectingAt != 0 && tid == connTid {
        OnConnectionResponse(action, body, at);
        return true;
      }
      var j := FindSent(announces, tid);
      if 0 <= j {
        EndAnnounce(j, AnnounceOutcome(action, body), at.now);
        return true;
      }
      j := FindSent(scrapes, tid);
      if 0 <= j {
        EndScrape(j, ScrapeOutcome(scrapes[j], action, body), at.now);
        return true;
      }
      return false;
    }

    method EndAnnounce(j: nat, o: Outcome, now: int)
      requires j < |announces|
      modifies this
      ensures State() == AnnounceDone(old(State()), j, o, now)
    {
      var req := announces[j];
      announces := announces[..j] + announces[j + 1..];
      finished := finished + [Finished(req.id, req.hasCallback, o)];
      clock := now;
    }

    method EndScrape(j: nat, o: Outcome, now: int)
      requires j < |scrapes|
      modifies this
      ensures State() == ScrapeDone(old(State()), j, o, now)
    {
      var req := scrapes[j];
      scrapes := scrapes[..j] + scrapes[j + 1..];
      finished := finished + [Finished(req.id, req.hasCallback, o)];
      clock := now;
    }
  }

  lemma ReceivedNow(ids: seq<(nat, int)>, id: nat, at: int)
    ensures Received(ids + [(id, at)], id, at)
  {
    assert (ids + [(id, at)])[|ids|] == (id, at);
  }

  /** An idle tracker whose address is current needs no upkeep. */
  lemma KeptIdle(s: TrackerState, at: Times)
    requires Idle(s) && s.clock == at.now && (s.addr ==> at.now < s.addrExpires)
    ensures Kept(s, at) == s
  {
  }

  lemma PhasesHold(s: TrackerState)
    requires Invariant(s)
    ensures Phases(s)
  {
  }

  /** A message that is not for this tracker leaves it alone. */
  lemma NotMatched(s: TrackerState, action: nat, tid: nat, body: seq<byte>, at: Times)
    requires action == TAU_ACTION_CONNECT ==> |body| == 8
    ensures !Matches(s, tid) ==> Handled(s, action, tid, body, at) == s
  {
  }

  /** A connection id that is still good is not being asked for. */
  lemma TimedOutPhases(e: TrackerState, wall: int)
    requires Phases(e)
    ensures var t := TimedOut(e, wall); t.addr && e.clock < t.connExpires ==> !t.dnsRequest && t.connectingAt == 0
    ensures var t := TimedOut(e, wall); t.clock == e.clock && t.addr == e.addr
  {
    hide Sift, Failures;
  }

  /** struct tr_announcer_udp */
  class Announcer {
    var trackers: seq<Tracker>

    ghost predicate Valid()
      reads this, trackers
    {
      && (forall i | 0 <= i < |trackers| :: trackers[i].Valid())
      && (forall i, j | 0 <= i < j < |trackers| :: trackers[i] != trackers[j])
    }

    /** tau_handle_message: the first tracker that knows the transaction id gets the message. */
    method HandleMessage(msg: seq<byte>, at: Times) returns (handled: bool)
      requires Valid() && 0 < at.now && forall i | 0 <= i < |trackers| :: trackers[i].State().clock <= at.now
      modifies trackers
      ensures Valid()
      ensures |msg| < 8 || !IsResponse(ReadU32(msg), |msg|) ==> !handled
      ensures !handled ==> forall i | 0 <= i < |trackers| :: trackers[i].State() == old(trackers[i].State())
      ensures 8 <= |msg| && IsResponse(ReadU32(msg), |msg|) ==>
        (handled <==> exists i :: 0 <= i < |trackers| && Matches(old(trackers[i].State()), ReadU32(msg[4..])))
      ensures handled ==> exists i :: 0 <= i < |trackers| && OneHandled(old(States()), States(), i, msg, at)
    {
      hide Invariant, Handled, Matches, Answers, ReadU32, Tracker.State;
      if |msg| < 8 {
        return false;
      }
      var action := ReadU32(msg);
      if !IsResponse(action, |msg|) {
        return false;
      }
      var tid, body := ReadU32(msg[4..]), msg[8..];
      ghost var before := States();
      assert forall k | 0 <= k < |trackers| :: before[k].clock <= at.now && Invariant(before[k]);
      for i := 0 to |trackers|
        invariant forall k | 0 <= k < |trackers| :: trackers[k].State() == before[k]
        invariant forall k | 0 <= k < i :: !Matches(before[k], tid)
      {
        assert trackers[i].State() == before[i] && before[i].clock <= at.now;
        var mine := trackers[i].OfferMessage(action, tid, body, at);
        if mine {
          assert forall k | 0 <= k < |trackers| && k != i :: trackers[k].State() == before[k];
          assert States() == before[i := trackers[i].State()];
          assert OneHandled(before, States(), i, msg, at);
          return true;
        }
        NotMatched(before[i], action, tid, body, at);
      }
      return false;
    }

    ghost function States(): (ss: seq<TrackerState>)
      reads this, trackers
      ensures |ss| == |trackers|
    {
      seq(|trackers|, i requires 0 <= i < |trackers| reads this, trackers => trackers[i].State())
    }
  }

  /** The message went to tracker i, the first that knows its transaction id, and to no other. */
  ghost predicate OneHandled(before: seq<TrackerState>, after: seq<TrackerState>, i: nat, msg: seq<byte>, at: Times)
    requires i < |before| == |after|
  {
    && 8 <= |msg| && IsResponse(ReadU32(msg), |msg|)
    && Matches(before[i], ReadU32(msg[4..]))
    && (forall k | 0 <= k < i :: !Matches(before[k], ReadU32(msg[4..])))
    && Answers(before[i], after[i], ReadU32(msg), ReadU32(msg[4..]), msg[8..], at)
    && after == before[i := after[i]]
  }
}
