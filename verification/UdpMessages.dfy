/** The requests of announcer-udp.c, and what becomes of them: BEP 15, "UDP tracker protocol". */
module UdpMessages {
  import opened Geometry
  import opened WireMessages

  const TAU_CONNECTION_TTL_SECS := 60
  const TAU_REQUEST_TTL := 60
  const TAU_ACTION_CONNECT := 0
  const TAU_ACTION_ANNOUNCE := 1
  const TAU_ACTION_SCRAPE := 2
  const TAU_ACTION_ERROR := 3

  /** is_tau_response_message */
  predicate IsResponse(action: nat, msglen: nat)
  {
    if action == TAU_ACTION_CONNECT then msglen == 16
    else if action == TAU_ACTION_ANNOUNCE then msglen >= 20
    else if action == TAU_ACTION_SCRAPE then msglen >= 20
    else if action == TAU_ACTION_ERROR then msglen >= 8
    else false
  }

  /** struct tau_announce_request or tau_scrape_request; `sentAt` is zero until it is sent.
      `rows` is the number of torrents a scrape asks about. */
  datatype TauRequest = TauRequest(id: nat, hasCallback: bool, tid: nat, createdAt: int, sentAt: int, rows: nat)

  datatype Row = Row(seeders: int, downloads: int, leechers: int)

  datatype Reason = NoReason | LookupFailed | ConnectFailed | UnknownError | TrackerSaid(text: seq<byte>)

  /** What the callback is told, if there is one; a request without one is dropped once sent. */
  datatype Outcome =
    | Dropped
    | Announced(interval: nat, leechers: nat, seeders: nat, peers: seq<byte>)
    | Scraped(rows: seq<Row>)
    | Failed(didConnect: bool, didTimeout: bool, reason: Reason)

  datatype Finished = Finished(id: nat, hasCallback: bool, outcome: Outcome)

  datatype Datagram = Connect(tid: nat, at: int) | Query(connId: nat, tid: nat, at: int)

  /** The text of an error message, or a stock one. */
  function ErrorText(action: nat, body: seq<byte>, stock: Reason): Reason
  {
    if action == TAU_ACTION_ERROR && body != [] then TrackerSaid(body) else stock
  }

  /** on_announce_response */
  function AnnounceOutcome(action: nat, body: seq<byte>): Outcome
  {
    if action == TAU_ACTION_ANNOUNCE && 12 <= |body| then
      Announced(ReadU32(body), ReadU32(body[4..]), ReadU32(body[8..]), body[12..])
    else
      Failed(true, false, ErrorText(action, body, UnknownError))
  }

  /** The rows of a scrape response; those it does not cover stay unknown. */
  function ScrapeRows(n: nat, body: seq<byte>): (rows: seq<Row>)
    ensures |rows| == n
  {
    if n == 0 then []
    else if |body| < 12 then seq(n, _ => Row(-1, -1, -1))
    else [Row(ReadU32(body), ReadU32(body[4..]), ReadU32(body[8..]))] + ScrapeRows(n - 1, body[12..])
  }

  /** on_scrape_response */
  function ScrapeOutcome(r: TauRequest, action: nat, body: seq<byte>): Outcome
  {
    if action == TAU_ACTION_SCRAPE then Scraped(ScrapeRows(r.rows, body))
    else Failed(true, false, ErrorText(action, body, UnknownError))
  }

  // ----- keeping track of requests -----

  /** A request's identity: its number, and whether someone waits for it. */
  type Key = (nat, bool)

  function KeyOf(r: TauRequest): Key
  {
    (r.id, r.hasCallback)
  }

  function Keys(rs: seq<TauRequest>): multiset<Key>
  {
    if rs == [] then multiset{} else Keys(rs[..|rs| - 1]) + multiset{KeyOf(rs[|rs| - 1])}
  }

  function FinishedKeys(fs: seq<Finished>): multiset<Key>
  {
    if fs == [] then multiset{}
    else FinishedKeys(fs[..|fs| - 1]) + multiset{(fs[|fs| - 1].id, fs[|fs| - 1].hasCallback)}
  }

  /** The identities of all requests ever submitted, given who waits for each. */
  function SubmittedKeys(submitted: seq<bool>): multiset<Key>
  {
    if submitted == [] then multiset{}
    else SubmittedKeys(submitted[..|submitted| - 1]) + multiset{(|submitted| - 1, submitted[|submitted| - 1])}
  }

  lemma {:induction false} KeysAppend(rs: seq<TauRequest>, qs: seq<TauRequest>)
    ensures Keys(rs + qs) == Keys(rs) + Keys(qs)
  {
    if qs == [] {
      assert rs + qs == rs;
    } else {
      assert (rs + qs)[..|rs + qs| - 1] == rs + qs[..|qs| - 1];
      KeysAppend(rs, qs[..|qs| - 1]);
    }
  }

  lemma {:induction false} FinishedKeysAppend(fs: seq<Finished>, gs: seq<Finished>)
    ensures FinishedKeys(fs + gs) == FinishedKeys(fs) + FinishedKeys(gs)
  {
    if gs == [] {
      assert fs + gs == fs;
    } else {
      assert (fs + gs)[..|fs + gs| - 1] == fs + gs[..|gs| - 1];
      FinishedKeysAppend(fs, gs[..|gs| - 1]);
    }
  }

  lemma KeysSnoc(rs: seq<TauRequest>, r: TauRequest)
    ensures Keys(rs + [r]) == Keys(rs) + multiset{KeyOf(r)}
  {
    KeysAppend(rs, [r]);
    KeysOfOne(r, Dropped);
  }

  lemma FinishedKeysSnoc(fs: seq<Finished>, f: Finished)
    ensures FinishedKeys(fs + [f]) == FinishedKeys(fs) + multiset{(f.id, f.hasCallback)}
  {
    assert (fs + [f])[..|fs|] == fs;
  }

  lemma KeysOfOne(r: TauRequest, o: Outcome)
    ensures Keys([r]) == multiset{KeyOf(r)} && FinishedKeys([Finished(r.id, r.hasCallback, o)]) == multiset{KeyOf(r)}
  {
    assert [r][..0] == [] && [Finished(r.id, r.hasCallback, o)][..0] == [];
  }

  /** Each number was given to one request. */
  lemma {:induction false} SubmittedOnce(submitted: seq<bool>, id: nat, cb: bool)
    ensures SubmittedKeys(submitted)[(id, cb)] == if id < |submitted| && submitted[id] == cb then 1 else 0
  {
    if submitted != [] {
      SubmittedOnce(submitted[..|submitted| - 1], id, cb);
    }
  }

  /** Every one of these requests fails the same way. */
  function Failures(rs: seq<TauRequest>, o: Outcome): seq<Finished>
  {
    seq(|rs|, i requires 0 <= i < |rs| => Finished(rs[i].id, rs[i].hasCallback, o))
  }

  lemma {:induction false} FailuresKeepKeys(rs: seq<TauRequest>, o: Outcome)
    ensures FinishedKeys(Failures(rs, o)) == Keys(rs)
  {
    if rs != [] {
      FailuresKeepKeys(rs[..|rs| - 1], o);
      assert Failures(rs, o)[..|rs| - 1] == Failures(rs[..|rs| - 1], o);
    }
  }

  /** One of the two loops of tau_tracker_fail_all. */
  method FailEach(rs: seq<TauRequest>, o: Outcome) returns (done: seq<Finished>)
    ensures done == Failures(rs, o)
  {
    done := [];
    for i := 0 to |rs|
      invariant done == Failures(rs[..i], o)
    {
      done := done + [Finished(rs[i].id, rs[i].hasCallback, o)];
    }
    assert rs[..|rs|] == rs;
  }

  // ----- timing out -----

  predicate Late(r: TauRequest, wall: int, cancelAll: bool)
  {
    cancelAll || r.createdAt + TAU_REQUEST_TTL < wall
  }

  /** The requests that are late, or that are not, in order. */
  function Sift(rs: seq<TauRequest>, wall: int, cancelAll: bool, late: bool): seq<TauRequest>
  {
    if rs == [] then []
    else Sift(rs[..|rs| - 1], wall, cancelAll, late) + if Late(rs[|rs| - 1], wall, cancelAll) == late then [rs[|rs| - 1]] else []
  }

  lemma {:induction false} SiftMembers(rs: seq<TauRequest>, wall: int, cancelAll: bool, late: bool, r: TauRequest)
    ensures r in Sift(rs, wall, cancelAll, late) <==> r in rs && Late(r, wall, cancelAll) == late
  {
    hide Late;
    if rs != [] {
      assert rs == rs[..|rs| - 1] + [rs[|rs| - 1]];
      SiftMembers(rs[..|rs| - 1], wall, cancelAll, late, r);
    }
  }

  lemma {:induction false} SiftKeys(rs: seq<TauRequest>, wall: int, cancelAll: bool)
    ensures Keys(rs) == Keys(Sift(rs, wall, cancelAll, false)) + Keys(Sift(rs, wall, cancelAll, true))
  {
    hide Keys, Sift;
    NothingSifted(wall, cancelAll);
    if rs != [] {
      var init, last := rs[..|rs| - 1], rs[|rs| - 1];
      SiftKeys(init, wall, cancelAll);
      SiftOne(init, last, wall, cancelAll);
      assert rs == init + [last];
      KeysSnoc(init, last);
    }
  }

  lemma NothingSifted(wall: int, cancelAll: bool)
    ensures Keys([]) == Keys(Sift([], wall, cancelAll, false)) + Keys(Sift([], wall, cancelAll, true))
  {
  }

  lemma SiftOne(init: seq<TauRequest>, last: TauRequest, wall: int, cancelAll: bool)
    ensures Keys(Sift(init + [last], wall, cancelAll, false)) + Keys(Sift(init + [last], wall, cancelAll, true))
      == Keys(Sift(init, wall, cancelAll, false)) + Keys(Sift(init, wall, cancelAll, true)) + multiset{KeyOf(last)}
  {
    hide Late, Keys;
    assert (init + [last])[..|init|] == init;
    var which := Late(last, wall, cancelAll);
    KeysSnoc(Sift(init, wall, cancelAll, which), last);
    assert Sift(init + [last], wall, cancelAll, which) == Sift(init, wall, cancelAll, which) + [last];
    assert Sift(init + [last], wall, cancelAll, !which) == Sift(init, wall, cancelAll, !which);
  }

  /** One of the two loops of tau_tracker_timeout_reqs: late requests are failed and removed
      from the list as it is walked. */
  method TimeOut(rs: seq<TauRequest>, wall: int, cancelAll: bool) returns (reqs: seq<TauRequest>, done: seq<Finished>)
    ensures reqs == Sift(rs, wall, cancelAll, false)
    ensures done == Failures(Sift(rs, wall, cancelAll, true), Failed(false, true, NoReason))
  {
    hide Late;
    reqs, done := rs, [];
    var i, n := 0, |rs|;
    ghost var seen := 0;
    while i < n
      invariant 0 <= i <= n == |reqs| && 0 <= seen && seen - i == |rs| - n
      invariant reqs[..i] == Sift(rs[..seen], wall, cancelAll, false) && reqs[i..] == rs[seen..]
      invariant done == Failures(Sift(rs[..seen], wall, cancelAll, true), Failed(false, true, NoReason))
      decreases n - i
    {
      var req := reqs[i];
      assert req == rs[seen] by { assert reqs[i..][0] == rs[seen..][0]; }
      assert rs[..seen + 1][..seen] == rs[..seen];
      ghost var head, tail := reqs[..i], reqs[i..];
      if Late(req, wall, cancelAll) {
        done := done + [Finished(req.id, req.hasCallback, Failed(false, true, NoReason))];
        reqs := reqs[..i] + reqs[i + 1..];
        i, n := i - 1, n - 1;
        assert reqs[..i + 1] == head && reqs[i + 1..] == tail[1..];
      } else {
        assert reqs[..i + 1] == head + [req] && reqs[i + 1..] == tail[1..];
      }
      i, seen := i + 1, seen + 1;
    }
    assert rs[..|rs|] == rs && reqs[..|reqs|] == reqs;
  }

  // ----- sending -----

  /** What is left of a list after sending: all marked as sent, without those nobody waits for. */
  function SentList(rs: seq<TauRequest>, now: int): seq<TauRequest>
  {
    if rs == [] then []
    else
      var r := rs[|rs| - 1];
      SentList(rs[..|rs| - 1], now) +
        if r.sentAt != 0 then [r] else if r.hasCallback then [r.(sentAt := now)] else []
  }

  function SentQueries(rs: seq<TauRequest>, connId: nat, now: int): seq<Datagram>
  {
    if rs == [] then []
    else SentQueries(rs[..|rs| - 1], connId, now) + if rs[|rs| - 1].sentAt == 0 then [Query(connId, rs[|rs| - 1].tid, now)] else []
  }

  function SentSilently(rs: seq<TauRequest>): seq<Finished>
  {
    if rs == [] then []
    else
      var r := rs[|rs| - 1];
      SentSilently(rs[..|rs| - 1]) + if r.sentAt == 0 && !r.hasCallback then [Finished(r.id, false, Dropped)] else []
  }

  /** One of the two loops of tau_tracker_send_reqs. */
  method SendUnsent(rs: seq<TauRequest>, connId: nat, now: int) returns (reqs: seq<TauRequest>, out: seq<Datagram>, done: seq<Finished>)
    ensures reqs == SentList(rs, now) && out == SentQueries(rs, connId, now) && done == SentSilently(rs)
  {
    reqs, out, done := rs, [], [];
    var i, n := 0, |rs|;
    ghost var seen := 0;
    while i < n
      invariant 0 <= i <= n == |reqs| && 0 <= seen && seen - i == |rs| - n
      invariant reqs[..i] == SentList(rs[..seen], now) && reqs[i..] == rs[seen..]
      invariant out == SentQueries(rs[..seen], connId, now) && done == SentSilently(rs[..seen])
      decreases n - i
    {
      assert reqs[i] == rs[seen] by { assert reqs[i..][0] == rs[seen..][0]; }
      assert rs[..seen + 1][..seen] == rs[..seen];
      ghost var head, tail := reqs[..i], reqs[i..];
      if reqs[i].sentAt == 0 {
        var req := reqs[i];
        reqs := reqs[i := req.(sentAt := now)];
        out := out + [Query(connId, req.tid, now)];
        if !req.hasCallback {
          done := done + [Finished(req.id, false, Dropped)];
          reqs := reqs[..i] + reqs[i + 1..];
          i, n := i - 1, n - 1;
          assert reqs[..i + 1] == head && reqs[i + 1..] == tail[1..];
        } else {
          assert reqs[..i + 1] == head + [req.(sentAt := now)] && reqs[i + 1..] == tail[1..];
        }
      } else {
        assert reqs[..i + 1] == head + [reqs[i]] && reqs[i + 1..] == tail[1..];
      }
      i, seen := i + 1, seen + 1;
    }
    assert rs[..|rs|] == rs && reqs[..|reqs|] == reqs;
  }

  /** Sending neither loses a request nor answers one that is waited for. */
  lemma {:induction false} SentKeys(rs: seq<TauRequest>, now: int)
    ensures Keys(rs) == Keys(SentList(rs, now)) + FinishedKeys(SentSilently(rs))
  {
    hide Keys, FinishedKeys, SentList, SentSilently;
    NothingKeyed(now);
    if rs != [] {
      var init, last := rs[..|rs| - 1], rs[|rs| - 1];
      SentKeys(init, now);
      SentOne(init, last, now);
      assert rs == init + [last];
      KeysSnoc(init, last);
    }
  }

  lemma NothingKeyed(now: int)
    ensures Keys([]) == Keys(SentList([], now)) + FinishedKeys(SentSilently([]))
  {
  }

  lemma SentOne(init: seq<TauRequest>, last: TauRequest, now: int)
    ensures Keys(SentList(init + [last], now)) + FinishedKeys(SentSilently(init + [last]))
      == Keys(SentList(init, now)) + FinishedKeys(SentSilently(init)) + multiset{KeyOf(last)}
  {
    hide Keys, FinishedKeys;
    assert (init + [last])[..|init|] == init;
    var kept, dropped := SentList(init, now), SentSilently(init);
    KeysSnoc(kept, last);
    KeysSnoc(kept, last.(sentAt := now));
    FinishedKeysSnoc(dropped, Finished(last.id, false, Dropped));
    assert kept + [] == kept && dropped + [] == dropped;
  }

  /** Everything in the list has been sent, at a time no later than now; nothing is new to it. */
  lemma {:induction false} SentMembers(rs: seq<TauRequest>, now: int, r: TauRequest)
    requires r in SentList(rs, now) && now != 0
    ensures r.sentAt != 0 && (r in rs || (r.sentAt == now && r.hasCallback && r.(sentAt := 0) in rs))
  {
    var init, last := rs[..|rs| - 1], rs[|rs| - 1];
    assert rs == init + [last];
    if r in SentList(init, now) {
      SentMembers(init, now, r);
    }
  }

  lemma {:induction false} QueriesAreNew(rs: seq<TauRequest>, connId: nat, now: int, d: Datagram)
    requires d in SentQueries(rs, connId, now)
    ensures d.Query? && d.connId == connId && d.at == now
  {
    if d in SentQueries(rs[..|rs| - 1], connId, now) {
      QueriesAreNew(rs[..|rs| - 1], connId, now, d);
    }
  }

  // ----- answering -----

  /** The first request that was sent with this transaction id, or -1. */
  function FirstSent(rs: seq<TauRequest>, tid: nat): (j: int)
    ensures -1 <= j < |rs|
    ensures 0 <= j ==> rs[j].sentAt != 0 && rs[j].tid == tid
    ensures forall i | 0 <= i < (if j < 0 then |rs| else j) :: !(rs[i].sentAt != 0 && rs[i].tid == tid)
  {
    if rs == [] then -1
    else
      var j := FirstSent(rs[..|rs| - 1], tid);
      if 0 <= j then j
      else if rs[|rs| - 1].sentAt != 0 && rs[|rs| - 1].tid == tid then |rs| - 1
      else -1
  }

  method FindSent(rs: seq<TauRequest>, tid: nat) returns (j: int)
    ensures j == FirstSent(rs, tid)
  {
    for i := 0 to |rs|
      invariant FirstSent(rs[..i], tid) < 0
    {
      assert rs[..i + 1][..i] == rs[..i];
      if rs[i].sentAt != 0 && tid == rs[i].tid {
        FirstIsFirst(rs, tid, i);
        return i;
      }
    }
    assert rs[..|rs|] == rs;
    return -1;
  }

  lemma FirstIsFirst(rs: seq<TauRequest>, tid: nat, i: nat)
    requires i < |rs| && rs[i].sentAt != 0 && rs[i].tid == tid && FirstSent(rs[..i], tid) < 0
    ensures FirstSent(rs, tid) == i
  {
    forall k | 0 <= k < i
      ensures !(rs[k].sentAt != 0 && rs[k].tid == tid)
    {
      assert rs[..i][k] == rs[k];
    }
  }

  lemma RemoveKeys(rs: seq<TauRequest>, j: nat, o: Outcome)
    requires j < |rs|
    ensures Keys(rs) == Keys(rs[..j] + rs[j + 1..]) + FinishedKeys([Finished(rs[j].id, rs[j].hasCallback, o)])
  {
    hide Keys, FinishedKeys;
    assert rs == rs[..j] + ([rs[j]] + rs[j + 1..]);
    KeysAppend(rs[..j], [rs[j]] + rs[j + 1..]);
    KeysAppend([rs[j]], rs[j + 1..]);
    KeysAppend(rs[..j], rs[j + 1..]);
    KeysOfOne(rs[j], o);
  }
}
