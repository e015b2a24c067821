/** What a message or an upkeep does to the requests of a UDP tracker, told of the requests
    themselves: which one an answer ends and how, which ones time out, and which ones are sent. */
module UdpAnswers {
  import opened Geometry
  import opened WireMessages
  import opened UdpMessages
  import opened UdpStates

  // ----- what an answer says -----

  lemma BigOfFour(s: seq<byte>)
    requires 4 <= |s|
    ensures ReadU32(s) == Big(s[..4])
  {
    BigNext(s, 0);
    BigNext(s, 1);
    BigNext(s, 2);
    BigNext(s, 3);
    assert s[..0] == [];
  }

  lemma BigNext(s: seq<byte>, k: nat)
    requires k < |s|
    ensures Big(s[..k + 1]) == Big(s[..k]) * 256 + s[k]
  {
    assert s[..k + 1][..k] == s[..k];
  }

  /** The text an error message carries, if any. */
  ghost predicate Refused(o: Outcome, action: nat, body: seq<byte>)
  {
    o == Failed(true, false, if action == 3 && body != [] then TrackerSaid(body) else UnknownError)
  }

  /** What an announce is told by a response of BEP 15: its fields in network order and the peers
      after them, or else that it failed. */
  ghost predicate AnnounceTold(o: Outcome, action: nat, body: seq<byte>)
  {
    if action == 1 && 12 <= |body| then
      o == Announced(Big(body[..4]), Big(body[4..8]), Big(body[8..12]), body[12..])
    else Refused(o, action, body)
  }

  /** What a scrape of n torrents is told: a row of twelve bytes for each, unknown past the end. */
  ghost predicate ScrapeTold(o: Outcome, n: nat, action: nat, body: seq<byte>)
  {
    if action == 2 then o.Scraped? && |o.rows| == n && forall k | 0 <= k < n :: RowTold(o.rows[k], body, k)
    else Refused(o, action, body)
  }

  ghost predicate RowTold(row: Row, body: seq<byte>, k: nat)
  {
    if 12 * k + 12 <= |body| then
      row == Row(Big(body[12 * k..12 * k + 4]), Big(body[12 * k + 4..12 * k + 8]), Big(body[12 * k + 8..12 * k + 12]))
    else row == Row(-1, -1, -1)
  }

  lemma AnnounceIsTold(action: nat, body: seq<byte>)
    ensures AnnounceTold(AnnounceOutcome(action, body), action, body)
  {
    hide Big, ReadU32;
    if 12 <= |body| {
      BigOfFour(body);
      BigOfFour(body[4..]);
      BigOfFour(body[8..]);
      assert body[4..][..4] == body[4..8] && body[8..][..4] == body[8..12];
    }
  }

  lemma FirstRowTold(body: seq<byte>)
    requires 12 <= |body|
    ensures RowTold(Row(ReadU32(body), ReadU32(body[4..]), ReadU32(body[8..])), body, 0)
  {
    hide Big, ReadU32;
    BigOfFour(body);
    BigOfFour(body[4..]);
    BigOfFour(body[8..]);
    assert body[4..][..4] == body[4..8] && body[8..][..4] == body[8..12];
  }

  lemma NextRowTold(row: Row, body: seq<byte>, k: nat)
    requires 12 <= |body|
    ensures RowTold(row, body[12..], k) <==> RowTold(row, body, k + 1)
  {
    hide Big;
    if 12 * k + 24 <= |body| {
      var rest := body[12..];
      assert rest[12 * k..12 * k + 4] == body[12 * k + 12..12 * k + 16];
      assert rest[12 * k + 4..12 * k + 8] == body[12 * k + 16..12 * k + 20];
      assert rest[12 * k + 8..12 * k + 12] == body[12 * k + 20..12 * k + 24];
    }
  }

  lemma {:induction false} RowsAreTold(n: nat, body: seq<byte>, k: nat)
    requires k < n
    ensures RowTold(ScrapeRows(n, body)[k], body, k)
  {
    hide RowTold, Big, ReadU32;
    if |body| < 12 {
      NothingTold(body, k);
    } else if k == 0 {
      FirstRowTold(body);
    } else {
      RowsAreTold(n - 1, body[12..], k - 1);
      NextRowTold(ScrapeRows(n, body)[k], body, k - 1);
    }
  }

  lemma NothingTold(body: seq<byte>, k: nat)
    requires |body| < 12
    ensures RowTold(Row(-1, -1, -1), body, k)
  {
  }

  lemma ScrapeIsTold(r: TauRequest, action: nat, body: seq<byte>)
    ensures ScrapeTold(ScrapeOutcome(r, action, body), r.rows, action, body)
  {
    hide RowTold, ScrapeRows;
    forall k: nat | k < r.rows
      ensures RowTold(ScrapeRows(r.rows, body)[k], body, k)
    {
      RowsAreTold(r.rows, body, k);
    }
  }

  // ----- whose answer it is -----

  /** The request was sent with this transaction id. */
  predicate Fits(r: TauRequest, tid: nat)
  {
    r.sentAt != 0 && r.tid == tid
  }

  predicate IsFirst(rs: seq<TauRequest>, j: nat, tid: nat)
  {
    j < |rs| && Fits(rs[j], tid) && forall i | 0 <= i < j :: !Fits(rs[i], tid)
  }

  predicate NoneFits(rs: seq<TauRequest>, tid: nat)
  {
    forall i | 0 <= i < |rs| :: !Fits(rs[i], tid)
  }

  predicate IsConnecting(s: TrackerState, tid: nat)
  {
    s.connectingAt != 0 && s.connTid == tid
  }

  /** `qs` is `rs` without its j-th request. */
  ghost predicate LeftOut(rs: seq<TauRequest>, qs: seq<TauRequest>, j: nat)
  {
    && j < |rs| && |qs| == |rs| - 1
    && (forall k | 0 <= k < j :: qs[k] == rs[k])
    && (forall k | j <= k < |qs| :: qs[k] == rs[k + 1])
  }

  /** Apart from its requests and its clock the tracker is as it was, and one more request is
      finished. */
  ghost predicate OneFinished(s: TrackerState, t: TrackerState, f: Finished)
  {
    && t.finished == s.finished + [f]
    && t == s.(announces := t.announces, scrapes := t.scrapes, finished := t.finished, clock := t.clock)
  }

  ghost predicate AnnounceEnded(s: TrackerState, t: TrackerState, j: nat, action: nat, body: seq<byte>)
  {
    && LeftOut(s.announces, t.announces, j) && t.scrapes == s.scrapes
    && exists o :: AnnounceTold(o, action, body) && OneFinished(s, t, Finished(s.announces[j].id, s.announces[j].hasCallback, o))
  }

  ghost predicate ScrapeEnded(s: TrackerState, t: TrackerState, j: nat, action: nat, body: seq<byte>)
  {
    && LeftOut(s.scrapes, t.scrapes, j) && t.announces == s.announces
    && exists o ::
         ScrapeTold(o, s.scrapes[j].rows, action, body) && OneFinished(s, t, Finished(s.scrapes[j].id, s.scrapes[j].hasCallback, o))
  }

  /** Every request fails this way, scrapes first, each list in order. */
  ghost predicate AllFailed(s: TrackerState, t: TrackerState, o: Outcome)
  {
    && t.announces == [] && t.scrapes == [] && t.sent == s.sent
    && |t.finished| == |s.finished| + |s.scrapes| + |s.announces| && s.finished <= t.finished
    && (forall k | 0 <= k < |s.scrapes| ::
          t.finished[|s.finished| + k] == Finished(s.scrapes[k].id, s.scrapes[k].hasCallback, o))
    && (forall k | 0 <= k < |s.announces| ::
          t.finished[|s.finished| + |s.scrapes| + k] == Finished(s.announces[k].id, s.announces[k].hasCallback, o))
  }

  /** What a message with this transaction id has done to a tracker: a connection response is
      heeded first, then the first announce it fits, then the first scrape. */
  ghost predicate Answers(s: TrackerState, t: TrackerState, action: nat, tid: nat, body: seq<byte>, at: Times)
  {
    if IsConnecting(s, tid) then
      if action == 0 then
        t.connectingAt == 0 && t.connId == Big(body) && t.connExpires == at.now + 60 && t.received == s.received + [(Big(body), at.now)]
      else
        t.connectingAt == 0 && AllFailed(s, t, Failed(true, false, if action == 3 && body != [] then TrackerSaid(body) else ConnectFailed))
    else if !NoneFits(s.announces, tid) then
      exists j :: IsFirst(s.announces, j, tid) && AnnounceEnded(s, t, j, action, body)
    else if !NoneFits(s.scrapes, tid) then
      exists j :: IsFirst(s.scrapes, j, tid) && ScrapeEnded(s, t, j, action, body)
    else t == s
  }

  lemma FirstFits(rs: seq<TauRequest>, tid: nat)
    ensures FirstSent(rs, tid) < 0 <==> NoneFits(rs, tid)
    ensures 0 <= FirstSent(rs, tid) ==> IsFirst(rs, FirstSent(rs, tid), tid)
  {
    hide FirstSent;
  }

  lemma EndedAnnounce(s: TrackerState, j: nat, action: nat, body: seq<byte>, now: int)
    requires j < |s.announces|
    ensures AnnounceEnded(s, AnnounceDone(s, j, AnnounceOutcome(action, body), now), j, action, body)
  {
    hide AnnounceTold, AnnounceOutcome;
    var o := AnnounceOutcome(action, body);
    AnnounceIsTold(action, body);
    assert OneFinished(s, AnnounceDone(s, j, o, now), Finished(s.announces[j].id, s.announces[j].hasCallback, o));
  }

  lemma EndedScrape(s: TrackerState, j: nat, action: nat, body: seq<byte>, now: int)
    requires j < |s.scrapes|
    ensures ScrapeEnded(s, ScrapeDone(s, j, ScrapeOutcome(s.scrapes[j], action, body), now), j, action, body)
  {
    hide ScrapeTold, ScrapeOutcome;
    var o := ScrapeOutcome(s.scrapes[j], action, body);
    ScrapeIsTold(s.scrapes[j], action, body);
    assert OneFinished(s, ScrapeDone(s, j, o, now), Finished(s.scrapes[j].id, s.scrapes[j].hasCallback, o));
  }

  lemma RefusedAll(s: TrackerState, reason: Reason, at: Times)
    ensures Kept(ConnectionFailed(s, reason), at).connectingAt == 0
    ensures AllFailed(s, Kept(ConnectionFailed(s, reason), at), Failed(true, false, reason))
  {
  }

  /** A lookup that fails fails every request. */
  lemma LookupFails(s: TrackerState, at: Times)
    requires Legal(s, DnsAnswer(false), at)
    ensures AllFailed(s, Step(s, DnsAnswer(false), at), Failed(false, false, LookupFailed))
  {
  }

  lemma KeptConnection(s: TrackerState, at: Times)
    requires s.connectingAt == 0 && at.now < s.connExpires
    ensures var k := Kept(s, at);
      k.connectingAt == 0 && k.connId == s.connId && k.connExpires == s.connExpires && k.received == s.received
  {
    hide Sift, Failures, SentList, SentQueries, SentSilently;
  }

  /** A message goes to the request that has its transaction id, and to no other. */
  lemma MessageAnswers(s: TrackerState, action: nat, tid: nat, body: seq<byte>, at: Times)
    requires Legal(s, Message(action, tid, body), at)
    ensures Answers(s, Step(s, Message(action, tid, body), at), action, tid, body, at)
  {
    hide FirstSent, Kept, AnnounceOutcome, ScrapeOutcome, AnnounceDone, ScrapeDone, AnnounceEnded, ScrapeEnded, IsFirst, NoneFits,
      AllFailed, Big, ConnectionFailed;
    FirstFits(s.announces, tid);
    FirstFits(s.scrapes, tid);
    var a, b := FirstSent(s.announces, tid), FirstSent(s.scrapes, tid);
    if IsConnecting(s, tid) {
      if action == TAU_ACTION_CONNECT {
        var t := s.(connectingAt := 0, connTid := 0);
        KeptConnection(t.(connId := Big(body), connExpires := at.now + TAU_CONNECTION_TTL_SECS,
                          received := t.received + [(Big(body), at.now)]), at);
      } else {
        RefusedAll(s, ErrorText(action, body, ConnectFailed), at);
      }
    } else if 0 <= a {
      EndedAnnounce(s, a, action, body, at.now);
    } else if 0 <= b {
      EndedScrape(s, b, action, body, at.now);
    }
  }

  // ----- what an upkeep does to one request -----

  lemma {:induction false} SentEach(rs: seq<TauRequest>, connId: nat, now: int, r: TauRequest)
    requires r in rs
    ensures r.sentAt != 0 ==> r in SentList(rs, now)
    ensures r.sentAt == 0 ==> Query(connId, r.tid, now) in SentQueries(rs, connId, now)
    ensures r.sentAt == 0 && r.hasCallback ==> r.(sentAt := now) in SentList(rs, now)
    ensures r.sentAt == 0 && !r.hasCallback ==> Finished(r.id, false, Dropped) in SentSilently(rs)
  {
    var init, last := rs[..|rs| - 1], rs[|rs| - 1];
    assert rs == init + [last];
    if r in init {
      SentEach(init, connId, now, r);
    }
  }

  /** The request still waits in its list, or was sent just now, which ends it if nobody waits. */
  ghost predicate StillThere(k: TrackerState, list: seq<TauRequest>, r: TauRequest, now: int)
  {
    || r in list
    || (r.sentAt == 0 && r.hasCallback && r.(sentAt := now) in list)
    || (r.sentAt == 0 && !r.hasCallback && Finished(r.id, false, Dropped) in k.finished)
  }

  /** A connection attempt more than 60 seconds old. */
  predicate AttemptIsOld(s: TrackerState, wall: int)
  {
    s.connectingAt != 0 && s.connectingAt + 60 < wall
  }

  predicate Closing(s: TrackerState, wall: int)
  {
    s.closeAt != 0 && s.closeAt <= wall
  }

  lemma YoungStays(rs: seq<TauRequest>, wall: int, r: TauRequest)
    requires r in rs && wall <= r.createdAt + 60
    ensures r in Sift(rs, wall, false, false)
  {
    SiftMembers(rs, wall, false, false, r);
  }

  /** A request at most 60 seconds old is not timed out by an upkeep, unless the tracker's
      shutdown deadline has passed or its connection attempt is over 60 seconds old. */
  lemma YoungIsKept(s: TrackerState, r: TauRequest, at: Times)
    requires at.wall <= r.createdAt + 60 && !Closing(s, at.wall) && !AttemptIsOld(s, at.wall)
    ensures r in s.announces ==> StillThere(Kept(s, at), Kept(s, at).announces, r, at.now)
    ensures r in s.scrapes ==> StillThere(Kept(s, at), Kept(s, at).scrapes, r, at.now)
  {
    hide Sift, Late, Failures, SentList, SentQueries, SentSilently;
    var e := Expired(s, at.now).(clock := at.now);
    var t := TimedOut(e, at.wall);
    if r in s.announces {
      YoungStays(s.announces, at.wall, r);
      SentEach(Sift(s.announces, at.wall, false, false), t.connId, at.now, r);
    }
    if r in s.scrapes {
      YoungStays(s.scrapes, at.wall, r);
      SentEach(Sift(s.scrapes, at.wall, false, false), t.connId, at.now, r);
    }
  }

  /** The tracker's address is good, and its connection is good or being made. */
  predicate IsReady(s: TrackerState, at: Times)
  {
    s.addr && at.now < s.addrExpires && (at.now < s.connExpires || s.connectingAt != 0)
  }

  lemma OldGoes(rs: seq<TauRequest>, wall: int, c: bool, o: Outcome, r: TauRequest)
    requires r in rs && (c || r.createdAt + 60 < wall)
    ensures Finished(r.id, r.hasCallback, o) in Failures(Sift(rs, wall, c, true), o)
  {
    SiftMembers(rs, wall, c, true, r);
    var late := Sift(rs, wall, c, true);
    var i :| 0 <= i < |late| && late[i] == r;
    assert Failures(late, o)[i] == Finished(r.id, r.hasCallback, o);
  }

  lemma NewlyFinished(a: seq<Finished>, b: seq<Finished>, c: seq<Finished>, d: seq<Finished>, f: Finished)
    requires f in b || f in c
    ensures f in (a + b + c)[|a|..] && f in (a + b + c + d)[|a|..]
  {
    assert (a + b + c)[|a|..] == b + c && (a + b + c + d)[|a|..] == b + c + d;
  }

  /** A ready tracker times out every request over 60 seconds old, and all of them past its
      shutdown deadline. */
  lemma OldTimesOut(s: TrackerState, r: TauRequest, at: Times)
    requires (r in s.announces || r in s.scrapes) && (Closing(s, at.wall) || r.createdAt + 60 < at.wall)
    requires IsReady(s, at) && !AttemptIsOld(s, at.wall)
    ensures |s.finished| <= |Kept(s, at).finished|
    ensures Finished(r.id, r.hasCallback, Failed(false, true, NoReason)) in Kept(s, at).finished[|s.finished|..]
  {
    hide Sift, Late, Failures, SentList, SentQueries, SentSilently;
    var c, o := Closing(s, at.wall), Failed(false, true, NoReason);
    var f := Finished(r.id, r.hasCallback, o);
    var t := TimedOut(Expired(s, at.now).(clock := at.now), at.wall);
    var a, b := Failures(Sift(s.announces, at.wall, c, true), o), Failures(Sift(s.scrapes, at.wall, c, true), o);
    if r in s.announces {
      OldGoes(s.announces, at.wall, c, o, r);
    } else {
      OldGoes(s.scrapes, at.wall, c, o, r);
    }
    assert t.finished == s.finished + a + b;
    NewlyFinished(s.finished, a, b, SentSilently(t.announces) + SentSilently(t.scrapes), f);
    assert s.finished + a + b + SentSilently(t.announces) + SentSilently(t.scrapes)
      == s.finished + a + b + (SentSilently(t.announces) + SentSilently(t.scrapes));
  }

  /** With a good connection every unsent request that is not timed out goes out, under the
      connection's id and its own transaction id. */
  lemma UnsentIsSent(s: TrackerState, r: TauRequest, at: Times)
    requires (r in s.announces || r in s.scrapes) && r.sentAt == 0 && at.wall <= r.createdAt + 60
    requires IsReady(s, at) && at.now < s.connExpires && !Closing(s, at.wall) && !AttemptIsOld(s, at.wall)
    ensures |s.sent| <= |Kept(s, at).sent| && Query(s.connId, r.tid, at.now) in Kept(s, at).sent[|s.sent|..]
  {
    hide Sift, Late, Failures, SentList, SentQueries, SentSilently;
    var t := TimedOut(Expired(s, at.now).(clock := at.now), at.wall);
    var a, b := SentQueries(t.announces, s.connId, at.now), SentQueries(t.scrapes, s.connId, at.now);
    if r in s.announces {
      YoungStays(s.announces, at.wall, r);
      SentEach(t.announces, s.connId, at.now, r);
    } else {
      YoungStays(s.scrapes, at.wall, r);
      SentEach(t.scrapes, s.connId, at.now, r);
    }
    assert Kept(s, at).sent == s.sent + a + b;
    assert (s.sent + a + b)[|s.sent|..] == a + b;
  }

  /** What an upkeep does for the tracker: an address is good for its hour; with requests waiting
      and none, one is looked up; with one but no good connection, one connection is tried at a
      time; and all other datagrams are queries under a connection id that is still good. */
  lemma UpkeepExactly(s: TrackerState, at: Times)
    ensures var k := Kept(s, at);
      var waiting, good := s.announces != [] || s.scrapes != [], s.addr && at.now < s.addrExpires;
      && k.addr == good
      && (k.dnsRequest <==> s.dnsRequest || (waiting && !good))
      && (if waiting && good && s.connExpires <= at.now && s.connectingAt == 0 then
            k.connectingAt == at.now && k.connTid == at.newTid && k.sent == s.sent + [Connect(at.newTid, at.now)]
          else
            s.sent <= k.sent && forall d | d in k.sent[|s.sent|..] :: d.Query? && d.connId == s.connId && d.at == at.now && good && at.now < s.connExpires)
  {
    hide Sift, Failures, SentList, SentSilently, SentQueries;
    var t := TimedOut(Expired(s, at.now).(clock := at.now), at.wall);
    var a, b := SentQueries(t.announces, s.connId, at.now), SentQueries(t.scrapes, s.connId, at.now);
    assert (s.sent + a + b)[|s.sent|..] == a + b;
    forall d: Datagram | d in a + b
      ensures d.Query? && d.connId == s.connId && d.at == at.now
    {
      if d in a {
        QueriesAreNew(t.announces, s.connId, at.now, d);
      } else {
        QueriesAreNew(t.scrapes, s.connId, at.now, d);
      }
    }
  }

  /** An address found is good for an hour from then. */
  lemma AddressIsGood(s: TrackerState, at: Times)
    requires Legal(s, DnsAnswer(true), at)
    ensures Step(s, DnsAnswer(true), at).addr && Step(s, DnsAnswer(true), at).addrExpires == at.now + 3600
    ensures !Step(s, DnsAnswer(true), at).dnsRequest
  {
    hide Sift, Failures, SentList, SentSilently, SentQueries;
  }

  /** The responses of BEP 15 by action and length: a connection response of just its 16 bytes, an
      announce response of 20 and the peers, a scrape response with at least one row, an error
      with its 8-byte head. */
  lemma ResponsesOfLength(peers: nat, rows: nat, text: nat)
    ensures forall n: nat :: IsResponse(0, n) <==> n == 16
    ensures IsResponse(1, 20 + peers) && forall n: nat | n < 20 :: !IsResponse(1, n)
    ensures IsResponse(2, 8 + 12 * rows) <==> 0 < rows
    ensures IsResponse(3, 8 + text) && forall n: nat | n < 8 :: !IsResponse(3, n)
    ensures forall action: nat, n: nat | 3 < action :: !IsResponse(action, n)
  {
  }

  /** A shutdown gives the tracker three seconds more. */
  lemma ShutdownDeadline(s: TrackerState, at: Times)
    requires Legal(s, Shutdown, at)
    ensures Step(s, Shutdown, at).closeAt == at.wall + 3
  {
    hide Sift, Failures, SentList, SentSilently, SentQueries;
  }

  /** A request just submitted gets the next number and waits with what was asked, unless the
      tracker is closing, its attempt is old, or the two clocks are over 60 seconds apart. */
  lemma NewcomerWaits(s: TrackerState, cb: bool, tid: nat, rows: nat, at: Times)
    requires 0 < at.now && s.clock <= at.now
    requires at.wall <= at.now + 60 && !Closing(s, at.wall) && !AttemptIsOld(s, at.wall)
    ensures var t := Step(s, Announce(cb, tid), at);
      StillThere(t, t.announces, TauRequest(|s.submitted|, cb, tid, at.now, 0, 0), at.now) && t.submitted == s.submitted + [cb]
    ensures var t := Step(s, Scrape(cb, tid, rows), at);
      StillThere(t, t.scrapes, TauRequest(|s.submitted|, cb, tid, at.now, 0, rows), at.now) && t.submitted == s.submitted + [cb]
  {
    hide Kept, StillThere;
    var r, q := TauRequest(|s.submitted|, cb, tid, at.now, 0, 0), TauRequest(|s.submitted|, cb, tid, at.now, 0, rows);
    var a := s.(announces := s.announces + [r], submitted := s.submitted + [cb]);
    var b := s.(scrapes := s.scrapes + [q], submitted := s.submitted + [cb]);
    YoungIsKept(a, r, at);
    YoungIsKept(b, q, at);
    KeptSubmitted(a, at);
    KeptSubmitted(b, at);
  }
}
