/** What holds of a UDP tracker after any run of events. */
module UdpRuns {
  import opened Geometry
  import opened WireMessages
  import opened UdpMessages
  import opened UdpStates

  datatype Timed = Timed(event: Event, at: Times)

  function Run(es: seq<Timed>): TrackerState
    requires LegalRun(es)
    decreases |es|, 1
  {
    if es == [] then Fresh() else Step(Run(es[..|es| - 1]), es[|es| - 1].event, es[|es| - 1].at)
  }

  /** The clock never goes back, and only what can happen does. */
  predicate LegalRun(es: seq<Timed>)
    decreases |es|, 0
  {
    es != [] ==> LegalRun(es[..|es| - 1]) && Legal(Run(es[..|es| - 1]), es[|es| - 1].event, es[|es| - 1].at)
  }

  lemma {:induction false} EveryRun(es: seq<Timed>)
    requires LegalRun(es)
    ensures Invariant(Run(es))
  {
    if es == [] {
      NoKeys();
    } else {
      EveryRun(es[..|es| - 1]);
      hide Invariant, Step, Legal;
      StepInvariant(Run(es[..|es| - 1]), es[|es| - 1].event, es[|es| - 1].at);
    }
  }

  // ----- exactly once -----

  ghost predicate Pending(s: TrackerState, id: nat)
  {
    exists r :: (r in s.announces || r in s.scrapes) && r.id == id
  }

  /** How often the request was finished; its callback, if it has one, was called as often. */
  function TimesFinished(fs: seq<Finished>, id: nat): nat
  {
    if fs == [] then 0 else TimesFinished(fs[..|fs| - 1], id) + if fs[|fs| - 1].id == id then 1 else 0
  }

  lemma {:induction false} TimesFinishedIsCount(fs: seq<Finished>, id: nat)
    ensures TimesFinished(fs, id) == FinishedKeys(fs)[(id, true)] + FinishedKeys(fs)[(id, false)]
  {
    if fs != [] {
      TimesFinishedIsCount(fs[..|fs| - 1], id);
    }
  }

  lemma {:induction false} InKeys(rs: seq<TauRequest>, id: nat)
    ensures (exists r :: r in rs && r.id == id) <==> 0 < Keys(rs)[(id, true)] + Keys(rs)[(id, false)]
  {
    if rs != [] {
      var init, last := rs[..|rs| - 1], rs[|rs| - 1];
      assert rs == init + [last];
      InKeys(init, id);
      assert last in rs;
      assert forall r :: r in init ==> r in rs;
    }
  }

  /** After any run each request submitted is either pending, or finished exactly once; and if
      it has a callback, that was called then, with an outcome. */
  lemma ExactlyOnce(es: seq<Timed>, id: nat)
    requires LegalRun(es) && id < |Run(es).submitted|
    ensures TimesFinished(Run(es).finished, id) == if Pending(Run(es), id) then 0 else 1
    ensures forall f | f in Run(es).finished && f.id == id :: f.hasCallback == Run(es).submitted[id] && (f.hasCallback ==> !f.outcome.Dropped?)
  {
    EveryRun(es);
    EveryRunHeard(es);
    Accounted(Run(es), id);
    SubmittedAsFinished(Run(es), id);
  }

  lemma {:induction false} InFinishedKeys(fs: seq<Finished>, f: Finished)
    requires f in fs
    ensures 0 < FinishedKeys(fs)[(f.id, f.hasCallback)]
  {
    var init, last := fs[..|fs| - 1], fs[|fs| - 1];
    assert fs == init + [last];
    if f in init {
      InFinishedKeys(init, f);
    }
  }

  lemma SubmittedAsFinished(s: TrackerState, id: nat)
    requires Conserved(s) && id < |s.submitted|
    ensures forall f | f in s.finished && f.id == id :: f.hasCallback == s.submitted[id]
  {
    hide Keys, FinishedKeys, SubmittedKeys;
    forall f | f in s.finished && f.id == id
      ensures f.hasCallback == s.submitted[id]
    {
      InFinishedKeys(s.finished, f);
      SubmittedOnce(s.submitted, id, f.hasCallback);
      CountOf(Keys(s.announces), Keys(s.scrapes), FinishedKeys(s.finished), (id, f.hasCallback));
    }
  }

  /** Only requests that nobody waits for are dropped without an outcome. */
  ghost predicate Heard(fs: seq<Finished>)
  {
    forall i | 0 <= i < |fs| :: fs[i].hasCallback ==> !fs[i].outcome.Dropped?
  }

  lemma HeardJoins(a: seq<Finished>, b: seq<Finished>)
    requires Heard(a) && Heard(b)
    ensures Heard(a + b)
  {
  }

  lemma FailuresHeard(rs: seq<TauRequest>, o: Outcome)
    requires !o.Dropped?
    ensures Heard(Failures(rs, o))
  {
  }

  lemma {:induction false} SilentHeard(rs: seq<TauRequest>)
    ensures Heard(SentSilently(rs))
  {
    if rs != [] {
      SilentHeard(rs[..|rs| - 1]);
    }
  }

  lemma FailedAllHeard(s: TrackerState, o: Outcome)
    requires Heard(s.finished) && !o.Dropped?
    ensures Heard(FailedAll(s, o).finished)
  {
    hide Failures, Heard;
    FailuresHeard(s.scrapes, o);
    FailuresHeard(s.announces, o);
    HeardJoins(s.finished, Failures(s.scrapes, o));
    HeardJoins(s.finished + Failures(s.scrapes, o), Failures(s.announces, o));
  }

  lemma TimedOutHeard(s: TrackerState, wall: int)
    requires Heard(s.finished)
    ensures Heard(TimedOut(s, wall).finished)
  {
    hide Failures, Heard, FailedAll, Sift;
    FailedAllHeard(s.(connectingAt := 0, connTid := 0), Failed(true, false, ConnectFailed));
    var c, o := CancelAll(s, wall), Failed(false, true, NoReason);
    var t := if s.connectingAt != 0 && s.connectingAt + TAU_REQUEST_TTL < wall then ConnectionFailed(s, ConnectFailed) else s;
    FailuresHeard(Sift(t.announces, wall, c, true), o);
    FailuresHeard(Sift(t.scrapes, wall, c, true), o);
    HeardJoins(t.finished, Failures(Sift(t.announces, wall, c, true), o));
    HeardJoins(t.finished + Failures(Sift(t.announces, wall, c, true), o), Failures(Sift(t.scrapes, wall, c, true), o));
  }

  lemma KeptHeard(s: TrackerState, at: Times)
    requires Heard(s.finished)
    ensures Heard(Kept(s, at).finished)
  {
    hide Heard, TimedOut, SentList, SentQueries, SentSilently;
    var e := Expired(s, at.now).(clock := at.now);
    TimedOutHeard(e, at.wall);
    var t := TimedOut(e, at.wall);
    SilentHeard(t.announces);
    SilentHeard(t.scrapes);
    HeardJoins(t.finished, SentSilently(t.announces));
    HeardJoins(t.finished + SentSilently(t.announces), SentSilently(t.scrapes));
  }

  lemma OneHeard(fs: seq<Finished>, f: Finished)
    requires Heard(fs) && !f.outcome.Dropped?
    ensures Heard(fs + [f])
  {
  }

  lemma HandledHeard(s: TrackerState, action: nat, tid: nat, body: seq<byte>, at: Times)
    requires (action == TAU_ACTION_CONNECT ==> |body| == 8) && Heard(s.finished)
    ensures Heard(Handled(s, action, tid, body, at).finished)
  {
    hide Heard, Kept, FailedAll, FirstSent, Big, AnnounceOutcome, ScrapeOutcome, ErrorText;
    var t, a, b := s.(connectingAt := 0, connTid := 0), FirstSent(s.announces, tid), FirstSent(s.scrapes, tid);
    if s.connectingAt != 0 && tid == s.connTid {
      FailedAllHeard(t, Failed(true, false, ErrorText(action, body, ConnectFailed)));
      if action == TAU_ACTION_CONNECT {
        var id := Big(body);
        KeptHeard(t.(connId := id, connExpires := at.now + TAU_CONNECTION_TTL_SECS, received := t.received + [(id, at.now)]), at);
      } else {
        KeptHeard(ConnectionFailed(s, ErrorText(action, body, ConnectFailed)), at);
      }
    } else if 0 <= a {
      RepliesAreHeard(s.announces[a], action, body);
      OneHeard(s.finished, Finished(s.announces[a].id, s.announces[a].hasCallback, AnnounceOutcome(action, body)));
    } else if 0 <= b {
      RepliesAreHeard(s.scrapes[b], action, body);
      OneHeard(s.finished, Finished(s.scrapes[b].id, s.scrapes[b].hasCallback, ScrapeOutcome(s.scrapes[b], action, body)));
    }
  }

  lemma RepliesAreHeard(r: TauRequest, action: nat, body: seq<byte>)
    ensures !AnnounceOutcome(action, body).Dropped? && !ScrapeOutcome(r, action, body).Dropped?
  {
  }

  lemma StepHeard(s: TrackerState, e: Event, at: Times)
    requires Legal(s, e, at) && Heard(s.finished)
    ensures Heard(Step(s, e, at).finished)
  {
    hide Heard, Kept, FailedAll, Handled;
    match e
    case Upkeep => KeptHeard(s, at);
    case Announce(cb, tid) =>
      KeptHeard(s.(announces := s.announces + [Submitted(s, cb, tid, at.now, 0)], submitted := s.submitted + [cb]), at);
    case Scrape(cb, tid, rows) =>
      KeptHeard(s.(scrapes := s.scrapes + [Submitted(s, cb, tid, at.now, rows)], submitted := s.submitted + [cb]), at);
    case DnsAnswer(ok) =>
      var t := s.(dnsRequest := false, clock := at.now);
      FailedAllHeard(t, Failed(false, false, LookupFailed));
      KeptHeard(t.(addr := true, addrExpires := at.now + ADDR_TTL), at);
    case Message(action, tid, body) => HandledHeard(s, action, tid, body, at);
    case Shutdown => KeptHeard(s.(closeAt := at.wall + 3), at);
  }

  lemma {:induction false} EveryRunHeard(es: seq<Timed>)
    requires LegalRun(es)
    ensures Heard(Run(es).finished)
  {
    if es != [] {
      EveryRunHeard(es[..|es| - 1]);
      StepHeard(Run(es[..|es| - 1]), es[|es| - 1].event, es[|es| - 1].at);
    }
  }

  lemma Accounted(s: TrackerState, id: nat)
    requires Conserved(s) && id < |s.submitted|
    ensures TimesFinished(s.finished, id) == if Pending(s, id) then 0 else 1
    ensures Keys(s.announces)[(id, true)] + Keys(s.announces)[(id, false)] + Keys(s.scrapes)[(id, true)] + Keys(s.scrapes)[(id, false)] <= 1
  {
    hide Keys, FinishedKeys, SubmittedKeys, TimesFinished;
    SubmittedOnce(s.submitted, id, true);
    SubmittedOnce(s.submitted, id, false);
    TimesFinishedIsCount(s.finished, id);
    InKeys(s.announces, id);
    InKeys(s.scrapes, id);
    CountOf(Keys(s.announces), Keys(s.scrapes), FinishedKeys(s.finished), (id, true));
    CountOf(Keys(s.announces), Keys(s.scrapes), FinishedKeys(s.finished), (id, false));
  }

  lemma CountOf(a: multiset<Key>, b: multiset<Key>, c: multiset<Key>, k: Key)
    ensures (a + b + c)[k] == a[k] + b[k] + c[k]
  {
  }

  /** What is finished stays finished, in the order it was. */
  lemma FinishedStays(s: TrackerState, e: Event, at: Times)
    requires Legal(s, e, at)
    ensures s.finished <= Step(s, e, at).finished
  {
    hide Kept, FailedAll, FirstSent, Big, AnnounceOutcome, ScrapeOutcome, ErrorText;
    match e
    case Upkeep => KeptFinished(s, at);
    case Announce(cb, tid) =>
      KeptFinished(s.(announces := s.announces + [Submitted(s, cb, tid, at.now, 0)], submitted := s.submitted + [cb]), at);
    case Scrape(cb, tid, rows) =>
      KeptFinished(s.(scrapes := s.scrapes + [Submitted(s, cb, tid, at.now, rows)], submitted := s.submitted + [cb]), at);
    case DnsAnswer(ok) =>
      var t := s.(dnsRequest := false, clock := at.now);
      FailedAllFinished(t, Failed(false, false, LookupFailed));
      KeptFinished(t.(addr := true, addrExpires := at.now + ADDR_TTL), at);
    case Message(action, tid, body) =>
      var t := s.(connectingAt := 0, connTid := 0);
      FailedAllFinished(t, Failed(true, false, ErrorText(action, body, ConnectFailed)));
      KeptFinished(ConnectionFailed(s, ErrorText(action, body, ConnectFailed)), at);
      if action == TAU_ACTION_CONNECT {
        var id := Big(body);
        KeptFinished(t.(connId := id, connExpires := at.now + TAU_CONNECTION_TTL_SECS, received := t.received + [(id, at.now)]), at);
      }
    case Shutdown => KeptFinished(s.(closeAt := at.wall + 3), at);
  }

  lemma FailedAllFinished(s: TrackerState, o: Outcome)
    ensures s.finished <= FailedAll(s, o).finished
  {
  }

  lemma KeptFinished(s: TrackerState, at: Times)
    ensures s.finished <= Kept(s, at).finished
  {
    hide Failures, Sift, SentList, SentQueries, SentSilently;
  }

  // ----- nothing waits for ever -----

  /** The same request, apart from when it was sent. */
  ghost predicate Same(q: TauRequest, r: TauRequest)
  {
    q.id == r.id && q.hasCallback == r.hasCallback && q.tid == r.tid && q.createdAt == r.createdAt && q.rows == r.rows
  }

  ghost predicate From(rs: seq<TauRequest>, was: seq<TauRequest>)
  {
    forall r | r in rs :: exists q :: q in was && Same(q, r)
  }

  lemma FromSift(rs: seq<TauRequest>, wall: int, c: bool)
    ensures From(Sift(rs, wall, c, false), rs)
    ensures forall r | r in Sift(rs, wall, c, false) :: !Late(r, wall, c)
  {
    hide Sift, Late;
    forall r | r in Sift(rs, wall, c, false)
      ensures r in rs && !Late(r, wall, c)
    {
      SiftMembers(rs, wall, c, false, r);
      assert Same(r, r);
    }
  }

  lemma FromSent(rs: seq<TauRequest>, now: int)
    requires now != 0
    ensures From(SentList(rs, now), rs)
  {
    hide SentList;
    forall r | r in SentList(rs, now)
      ensures exists q :: q in rs && Same(q, r)
    {
      SentMembers(rs, now, r);
      assert Same(r, r) && Same(r.(sentAt := 0), r);
    }
  }

  lemma FromFrom(a: seq<TauRequest>, b: seq<TauRequest>, c: seq<TauRequest>)
    requires From(a, b) && From(b, c)
    ensures From(a, c)
  {
    forall r | r in a
      ensures exists q :: q in c && Same(q, r)
    {
      var m :| m in b && Same(m, r);
      var q :| q in c && Same(q, m);
      assert Same(q, r);
    }
  }

  lemma FromSelf(a: seq<TauRequest>)
    ensures From(a, a) && From([], a)
  {
    assert forall r: TauRequest :: Same(r, r);
  }

  ghost predicate NoneLate(rs: seq<TauRequest>, wall: int, c: bool)
  {
    forall r | r in rs :: !Late(r, wall, c)
  }

  lemma FromNotLate(a: seq<TauRequest>, b: seq<TauRequest>, wall: int, c: bool)
    requires From(a, b) && NoneLate(b, wall, c)
    ensures NoneLate(a, wall, c)
  {
  }

  /** An upkeep that neither looks up nor connects leaves no late request. */
  lemma UpkeepClears(s: TrackerState, at: Times)
    requires at.now != 0 && !NeedsDns(Expired(s, at.now)) && !NeedsConnection(Expired(s, at.now), at.now)
    ensures NoneLate(Kept(s, at).announces, at.wall, CancelAll(s, at.wall)) && NoneLate(Kept(s, at).scrapes, at.wall, CancelAll(s, at.wall))
  {
    hide Sift, Late, Failures, SentList, SentQueries, SentSilently, From;
    var e := Expired(s, at.now).(clock := at.now);
    var c, t := CancelAll(e, at.wall), TimedOut(e, at.wall);
    FromSift(e.announces, at.wall, c);
    FromSift(e.scrapes, at.wall, c);
    FromSift([], at.wall, c);
    FromSent(t.announces, at.now);
    FromSent(t.scrapes, at.now);
    FromNotLate(SentList(t.announces, at.now), t.announces, at.wall, c);
    FromNotLate(SentList(t.scrapes, at.now), t.scrapes, at.wall, c);
  }

  lemma UpkeepFrom(s: TrackerState, at: Times)
    requires at.now != 0
    ensures From(Kept(s, at).announces, s.announces) && From(Kept(s, at).scrapes, s.scrapes)
  {
    hide Sift, Late, Failures, SentList, SentQueries, SentSilently, From;
    var e := Expired(s, at.now).(clock := at.now);
    var c, t := CancelAll(e, at.wall), TimedOut(e, at.wall);
    FromSelf(s.announces);
    FromSelf(s.scrapes);
    FromSift(e.announces, at.wall, c);
    FromSift(e.scrapes, at.wall, c);
    FromSift([], at.wall, c);
    FromFrom(Sift([], at.wall, c, false), [], s.announces);
    FromFrom(Sift([], at.wall, c, false), [], s.scrapes);
    FromSent(t.announces, at.now);
    FromSent(t.scrapes, at.now);
    FromFrom(SentList(t.announces, at.now), t.announces, s.announces);
    FromFrom(SentList(t.scrapes, at.now), t.scrapes, s.scrapes);
  }

  /** The first upkeep may look up or connect instead, but then the second one does not. */
  lemma SecondUpkeepClears(s: TrackerState, at: Times, tid: nat)
    requires 0 < at.now && s.clock <= at.now
    ensures var k := Kept(Kept(s, at), at.(newTid := tid)); var c := CancelAll(s, at.wall);
      NoneLate(k.announces, at.wall, c) && NoneLate(k.scrapes, at.wall, c)
  {
    var k, again := Kept(s, at), at.(newTid := tid);
    FirstUpkeepPrepares(s, at);
    hide Kept, NoneLate, From;
    if NeedsDns(Expired(k, at.now)) || NeedsConnection(Expired(k, at.now), at.now) {
      UpkeepFrom(k, again);
      FromNotLate(Kept(k, again).announces, k.announces, at.wall, CancelAll(s, at.wall));
      FromNotLate(Kept(k, again).scrapes, k.scrapes, at.wall, CancelAll(s, at.wall));
    } else {
      UpkeepClears(k, again);
    }
  }

  lemma FirstUpkeepPrepares(s: TrackerState, at: Times)
    requires 0 < at.now
    ensures var k := Kept(s, at); var c := CancelAll(s, at.wall);
      && CancelAll(k, at.wall) == c
      && (NeedsDns(Expired(k, at.now)) || NeedsConnection(Expired(k, at.now), at.now) ==> NoneLate(k.announces, at.wall, c) && NoneLate(k.scrapes, at.wall, c))
  {
    var e := Expired(s, at.now);
    if !NeedsDns(e) && !NeedsConnection(e, at.now) {
      UpkeepClears(s, at);
    }
    hide Sift, Late, Failures, SentList, SentQueries, SentSilently;
  }

  /** After any run, a request more than 60 seconds old is finished once the tracker had two
      upkeeps at one time with nothing between. */
  lemma LateIsFinished(es: seq<Timed>, r: TauRequest, at: Times, tid: nat)
    requires LegalRun(es) && 0 < at.now && Run(es).clock <= at.now
    requires r in Run(es).announces || r in Run(es).scrapes
    requires r.createdAt + TAU_REQUEST_TTL < at.wall
    ensures TimesFinished(Kept(Kept(Run(es), at), at.(newTid := tid)).finished, r.id) == 1
  {
    EveryRun(es);
    var s := Run(es);
    var k, again := Kept(s, at), at.(newTid := tid);
    var z := Kept(k, again);
    KeptTwice(s, at, tid);
    RequestIsSubmitted(s, r);
    Accounted(z, r.id);
    SecondUpkeepClears(s, at, tid);
    UpkeepFrom(s, at);
    UpkeepFrom(k, again);
    FromFrom(z.announces, k.announces, s.announces);
    FromFrom(z.scrapes, k.scrapes, s.scrapes);
    if Pending(z, r.id) {
      StillThere(s, z, r, at.wall);
    }
  }

  lemma KeptTwice(s: TrackerState, at: Times, tid: nat)
    requires Invariant(s) && 0 < at.now && s.clock <= at.now
    ensures Conserved(Kept(Kept(s, at), at.(newTid := tid)))
    ensures Kept(Kept(s, at), at.(newTid := tid)).submitted == s.submitted
  {
    KeptConserves(s, at);
    KeptConserves(Kept(s, at), at.(newTid := tid));
    KeptSubmitted(s, at);
    KeptSubmitted(Kept(s, at), at.(newTid := tid));
    hide Kept, Conserved;
  }

  lemma RequestIsSubmitted(s: TrackerState, r: TauRequest)
    requires Conserved(s) && (r in s.announces || r in s.scrapes)
    ensures r.id < |s.submitted|
  {
    hide Keys, FinishedKeys, SubmittedKeys;
    InKeys(s.announces, r.id);
    InKeys(s.scrapes, r.id);
    SubmittedOnce(s.submitted, r.id, true);
    SubmittedOnce(s.submitted, r.id, false);
    CountOf(Keys(s.announces), Keys(s.scrapes), FinishedKeys(s.finished), (r.id, true));
    CountOf(Keys(s.announces), Keys(s.scrapes), FinishedKeys(s.finished), (r.id, false));
  }

  /** Two requests with one number are one request. */
  lemma {:induction false} SameIdInList(rs: seq<TauRequest>, q: TauRequest, r: TauRequest)
    requires q in rs && r in rs && q.id == r.id && Keys(rs)[(r.id, true)] + Keys(rs)[(r.id, false)] <= 1
    ensures q == r
  {
    var init, last := rs[..|rs| - 1], rs[|rs| - 1];
    assert rs == init + [last];
    InKeys(init, r.id);
    if q in init && r in init {
      SameIdInList(init, q, r);
    }
  }

  lemma SameId(s: TrackerState, q: TauRequest, r: TauRequest)
    requires Conserved(s) && (q in s.announces || q in s.scrapes) && (r in s.announces || r in s.scrapes) && q.id == r.id
    ensures q == r
  {
    hide Keys, FinishedKeys, SubmittedKeys;
    RequestIsSubmitted(s, r);
    Accounted(s, r.id);
    InKeys(s.announces, r.id);
    InKeys(s.scrapes, r.id);
    if q in s.announces && r in s.announces {
      SameIdInList(s.announces, q, r);
    }
    if q in s.scrapes && r in s.scrapes {
      SameIdInList(s.scrapes, q, r);
    }
  }

  /** A request with the number of a late one is late. */
  lemma StillThere(s: TrackerState, z: TrackerState, r: TauRequest, wall: int)
    requires Conserved(s) && (r in s.announces || r in s.scrapes) && r.createdAt + TAU_REQUEST_TTL < wall
    requires From(z.announces, s.announces) && From(z.scrapes, s.scrapes) && Pending(z, r.id)
    ensures exists p :: (p in z.announces || p in z.scrapes) && Late(p, wall, false)
  {
    var p :| (p in z.announces || p in z.scrapes) && p.id == r.id;
    var q :| (q in s.announces || q in s.scrapes) && Same(q, p);
    assert Same(q, p);
    SameId(s, q, r);
  }

  // ----- reading answers -----

  /** A connection id is its two halves in network order. */
  lemma ConnectionIdIsRead(hi: u32, lo: u32)
    ensures Big(U32(hi) + U32(lo)) == hi * U32_MOD + lo
  {
    BigOfWord([], hi);
    BigOfWord(U32(hi), lo);
    assert [] + U32(hi) == U32(hi);
  }

  lemma BigOfWord(s: seq<byte>, n: u32)
    ensures Big(s + U32(n)) == Big(s) * U32_MOD + n
  {
    var a, b, c, d := n / 0x100_0000, n / 0x1_0000 % 0x100, n / 0x100 % 0x100, n % 0x100;
    BigMore(s, a);
    BigMore(s + [a], b);
    BigMore(s + [a] + [b], c);
    BigMore(s + [a] + [b] + [c], d);
    assert s + U32(n) == s + [a] + [b] + [c] + [d];
    U32RoundTrip(n, []);
    assert U32(n) + [] == U32(n);
  }

  lemma BigMore(s: seq<byte>, b: byte)
    ensures Big(s + [b]) == Big(s) * 256 + b
  {
    assert (s + [b])[..|s|] == s;
  }

  /** An announce response laid out as BEP 15 does is read back as it was meant. */
  lemma AnnounceIsRead(interval: u32, leechers: u32, seeders: u32, peers: seq<byte>)
    ensures AnnounceOutcome(TAU_ACTION_ANNOUNCE, U32(interval) + U32(leechers) + U32(seeders) + peers)
      == Announced(interval, leechers, seeders, peers)
  {
    hide U32, ReadU32;
    var body := U32(interval) + U32(leechers) + U32(seeders) + peers;
    assert body == U32(interval) + body[4..] && body[4..] == U32(leechers) + body[8..] && body[8..] == U32(seeders) + peers;
    U32RoundTrip(interval, body[4..]);
    U32RoundTrip(leechers, body[8..]);
    U32RoundTrip(seeders, peers);
    assert body[12..] == peers;
  }

  datatype Counts = Counts(seeders: u32, downloads: u32, leechers: u32)

  function ScrapeBody(rows: seq<Counts>): seq<byte>
  {
    if rows == [] then []
    else U32(rows[0].seeders) + U32(rows[0].downloads) + U32(rows[0].leechers) + ScrapeBody(rows[1..])
  }

  /** A scrape response that covers the first torrents asked about tells just those. */
  lemma {:induction false} ScrapeIsRead(rows: seq<Counts>, n: nat)
    requires |rows| <= n
    ensures ScrapeRows(n, ScrapeBody(rows)) ==
      seq(n, i requires 0 <= i < n => if i < |rows| then Row(rows[i].seeders, rows[i].downloads, rows[i].leechers) else Row(-1, -1, -1))
  {
    if rows != [] {
      var body, r, rest := ScrapeBody(rows), rows[0], ScrapeBody(rows[1..]);
      RowIsRead(r, rest);
      ScrapeIsRead(rows[1..], n - 1);
      hide U32, ReadU32;
      assert body[12..] == rest;
    }
  }

  lemma RowIsRead(r: Counts, rest: seq<byte>)
    ensures var body := U32(r.seeders) + U32(r.downloads) + U32(r.leechers) + rest;
      ReadU32(body) == r.seeders && ReadU32(body[4..]) == r.downloads && ReadU32(body[8..]) == r.leechers
  {
    hide U32, ReadU32;
    var body := U32(r.seeders) + U32(r.downloads) + U32(r.leechers) + rest;
    assert body == U32(r.seeders) + body[4..] && body[4..] == U32(r.downloads) + body[8..] && body[8..] == U32(r.leechers) + rest;
    U32RoundTrip(r.seeders, body[4..]);
    U32RoundTrip(r.downloads, body[8..]);
    U32RoundTrip(r.leechers, rest);
  }
}
