/** The event bus as a protocol: publishers number an event, append it to the ring
    and fan it out, each as a step of its own, while clients subscribe, replay,
    receive, change filters and leave. The theorems hold in every interleaving. */
module EventBus {
  import opened Text

  datatype Event = Event(seqNo: nat, typ: string, configId: string)

  /** Empty lists accept everything. */
  datatype Filter = Filter(types: seq<string>, configIds: seq<string>)

  predicate Accepts(f: Option<Filter>, e: Event) {
    f.None? ||
    ((f.value.types == [] || e.typ in f.value.types) && (f.value.configIds == [] || e.configId in f.value.configIds))
  }

  /** A subscription's channel; `got` is what the client has taken from it. */
  datatype Chan = Chan(room: nat, queue: seq<Event>, open: bool, got: seq<Event>) {
    function Stream(): seq<Event> { got + queue }
  }

  /** What became of an event at a subscription. */
  datatype Fate = Enqueued | Dropped | Filtered

  datatype Delivery = Delivery(sub: nat, seqNo: nat)

  /** Where a publisher stands. */
  datatype Pub = Numbered(e: Event) | Appended(e: Event) | Fanning(e: Event, todo: set<nat>)

  /** What a client read from the ring, and how many events had been appended then. */
  datatype Replay = Replay(since: nat, events: seq<Event>, at: nat)

  /** The bus, its channels and publishers, and a history: everything ever appended,
      the publishes that completed, what became of each event, how many events had been
      appended when each subscription began, which publishes had completed when it left,
      and the clients' replays. `panicked` is set by sending to or closing a closed
      channel. */
  datatype State = State(
    ringCap: nat, lastSeq: nat, ring: seq<Event>, subs: set<nat>, lastSub: nat, chans: map<nat, Chan>,
    filters: map<nat, Option<Filter>>, dropped: nat, pubs: map<nat, Pub>, panicked: bool,
    log: seq<Event>, done: set<Event>, fates: map<Delivery, Fate>, born: map<nat, nat>, left: map<nat, set<Event>>,
    replays: map<nat, Replay>)

  function Initial(ringCap: nat): State
    requires ringCap > 0
  {
    State(ringCap, 0, [], {}, 0, map[], map[], 0, map[], false, [], {}, map[], map[], map[], map[])
  }

  datatype Action =
    | Number(p: nat, typ: string, configId: string)
    | Append(p: nat)
    | Lock(p: nat)
    | Offer(p: nat, sub: nat)
    | Unlock(p: nat)
    | Subscribe(filter: Option<Filter>, size: nat)
    | Remove(sub: nat)
    | Stop
    | SetFilter(sub: nat, filter: Option<Filter>)
    | Receive(sub: nat)
    | ReadSince(sub: nat, since: nat)

  /** The subscription map is locked for writing only while nobody fans out. */
  predicate NobodyFans(s: State) {
    forall p :: p in s.pubs ==> !s.pubs[p].Fanning?
  }

  predicate Enabled(s: State, a: Action) {
    match a
    case Number(p, _, _) => p !in s.pubs
    case Append(p) => p in s.pubs && s.pubs[p].Numbered?
    case Lock(p) => p in s.pubs && s.pubs[p].Appended?
    case Offer(p, sub) => p in s.pubs && s.pubs[p].Fanning? && sub in s.pubs[p].todo && sub in s.chans && sub in s.filters
    case Unlock(p) => p in s.pubs && s.pubs[p].Fanning? && s.pubs[p].todo == {}
    case Subscribe(_, size) => size > 0 && NobodyFans(s)
    case Remove(_) => NobodyFans(s)
    case Stop => NobodyFans(s)
    case SetFilter(sub, _) => sub in s.filters
    case Receive(sub) => sub in s.chans && s.chans[sub].queue != []
    case ReadSince(sub, _) => sub in s.born
  }

  function Last(es: seq<Event>, n: nat): seq<Event> {
    if |es| <= n then es else es[|es| - n..]
  }

  /** `appendRing`. */
  function Pushed(ring: seq<Event>, cap: nat, e: Event): seq<Event> {
    if |ring| < cap || ring == [] then ring + [e] else ring[1..] + [e]
  }

  /** `Since`. */
  function Newer(es: seq<Event>, since: nat): seq<Event> {
    if es == [] then []
    else Newer(es[..|es| - 1], since) + (if es[|es| - 1].seqNo > since then [es[|es| - 1]] else [])
  }

  function Sent(c: Chan, e: Event): Chan {
    if |c.queue| < c.room then c.(queue := c.queue + [e]) else c
  }

  /** One subscription's channel after the event has been offered to it. */
  function Told(c: Chan, f: Option<Filter>, e: Event): Chan {
    if Accepts(f, e) then Sent(c, e) else c
  }

  function FateAt(s: State, sub: nat, e: Event): Fate
    requires sub in s.chans && sub in s.filters
  {
    if !Accepts(s.filters[sub], e) then Filtered
    else if |s.chans[sub].queue| < s.chans[sub].room then Enqueued
    else Dropped
  }

  function DoOffer(s: State, p: nat, sub: nat): State
    requires Enabled(s, Offer(p, sub))
  {
    var e := s.pubs[p].e;
    var fate := FateAt(s, sub, e);
    s.(pubs := s.pubs[p := Fanning(e, s.pubs[p].todo - {sub})],
       chans := if fate.Enqueued? then s.chans[sub := Sent(s.chans[sub], e)] else s.chans,
       dropped := if fate.Dropped? then s.dropped + 1 else s.dropped,
       panicked := s.panicked || (!fate.Filtered? && !s.chans[sub].open),
       fates := s.fates[Delivery(sub, e.seqNo) := fate])
  }

  function DoSubscribe(s: State, filter: Option<Filter>, size: nat): State {
    var id := s.lastSub + 1;
    s.(lastSub := id, subs := s.subs + {id}, chans := s.chans[id := Chan(size, [], true, [])],
       filters := s.filters[id := filter], born := s.born[id := |s.log|])
  }

  function Closed(s: State, ids: set<nat>): State {
    s.(subs := s.subs - ids,
       left := s.left + map c | c in ids :: s.done,
       chans := map c | c in s.chans :: if c in ids then s.chans[c].(open := false) else s.chans[c],
       panicked := s.panicked || exists c :: c in ids && c in s.chans && !s.chans[c].open)
  }

  function Do(s: State, a: Action): State
    requires Enabled(s, a)
  {
    match a
    case Number(p, typ, configId) =>
      s.(lastSeq := s.lastSeq + 1, pubs := s.pubs[p := Numbered(Event(s.lastSeq + 1, typ, configId))])
    case Append(p) =>
      var e := s.pubs[p].e;
      s.(ring := Pushed(s.ring, s.ringCap, e), log := s.log + [e], pubs := s.pubs[p := Appended(e)])
    case Lock(p) => s.(pubs := s.pubs[p := Fanning(s.pubs[p].e, s.subs)])
    case Offer(p, sub) => DoOffer(s, p, sub)
    case Unlock(p) => s.(pubs := s.pubs - {p}, done := s.done + {s.pubs[p].e})
    case Subscribe(f, size) => DoSubscribe(s, f, size)
    case Remove(sub) => if sub in s.subs then Closed(s, {sub}) else s
    case Stop => Closed(s, s.subs)
    case SetFilter(sub, f) => s.(filters := s.filters[sub := f])
    case Receive(sub) => 
      var c := s.chans[sub];
      s.(chans := s.chans[sub := c.(queue := c.queue[1..], got := c.got + [c.queue[0]])])
    case ReadSince(sub, since) => s.(replays := s.replays[sub := Replay(since, Newer(s.ring, since), |s.log|)])
  }

  ghost predicate Reaches(s: State, acts: seq<Action>, t: State)
    decreases |acts|
  {
    if acts == [] then t == s
    else Enabled(s, acts[0]) && Reaches(Do(s, acts[0]), acts[1..], t)
  }

  // ---- the ring ----

  lemma PushedIsLast(log: seq<Event>, cap: nat, e: Event)
    requires cap > 0
    ensures Pushed(Last(log, cap), cap, e) == Last(log + [e], cap)
  {
    if |log| < cap {
    } else {
      assert (log + [e])[|log| + 1 - cap..] == log[|log| - cap..][1..] + [e];
    }
  }

  lemma {:induction false} NewerMembers(es: seq<Event>, since: nat)
    ensures forall e :: e in Newer(es, since) <==> e in es && e.seqNo > since
  {
    if es != [] {
      NewerMembers(es[..|es| - 1], since);
      assert es == es[..|es| - 1] + [es[|es| - 1]];
    }
  }

  // ---- what every step keeps ----

  /** The ring is the last ringCap appended events. */
  ghost predicate RingInv(s: State) {
    s.ringCap > 0 && s.ring == Last(s.log, s.ringCap)
  }

  /** Live subscriptions have open channels, and subscription ids are not reused. */
  ghost predicate ChanInv(s: State) {
    && !s.panicked
    && (forall c :: c in s.subs ==> c in s.chans && s.chans[c].open && c in s.filters && c in s.born)
    && (forall c :: c in s.chans ==> c <= s.lastSub)
    && (forall c :: c in s.chans ==> |s.chans[c].queue| <= s.chans[c].room)
  }

  /** A publisher inside the fan-out has told every live subscription that is not
      still on its list. */
  ghost predicate FanInv(s: State) {
    forall p :: p in s.pubs ==> PubInv(s, s.pubs[p])
  }

  ghost predicate PubInv(s: State, pub: Pub) {
    && (!pub.Numbered? ==> pub.e in s.log)
    && (pub.Fanning? ==> pub.todo <= s.subs && forall c :: c in s.subs - pub.todo ==> Delivery(c, pub.e.seqNo) in s.fates)
  }

  /** A completed publish was offered to each live subscription, or had been appended
      before that subscription began. */
  ghost predicate DoneInv(s: State) {
    forall e :: e in s.done ==> e in s.log && forall c :: c in s.subs ==> Accounted(s, c, e)
  }

  ghost predicate Accounted(s: State, c: nat, e: Event) {
    Delivery(c, e.seqNo) in s.fates || (c in s.born && s.born[c] <= |s.log| && e in s.log[..s.born[c]])
  }

  /** Every subscription began at some time, and is live or has left. */
  ghost predicate BornInv(s: State) {
    && (forall c :: c in s.born ==> s.born[c] <= |s.log| && c <= s.lastSub && (c in s.subs || c in s.left))
    && (forall c :: c in s.left ==> c in s.born && c !in s.subs)
    && (forall c :: c in s.subs ==> c in s.born)
  }

  /** So it was with the publishes completed when a subscription left. */
  ghost predicate LeftInv(s: State) {
    forall c, e :: c in s.left && e in s.left[c] ==> Accounted(s, c, e)
  }

  /** A replay read the ring as it stood, at some time after the subscription began. */
  ghost predicate ReplayInv(s: State) {
    forall c :: c in s.replays ==>
      c in s.born && s.born[c] <= s.replays[c].at <= |s.log| &&
      s.replays[c].events == Newer(Last(s.log[..s.replays[c].at], s.ringCap), s.replays[c].since)
  }

  ghost predicate Inv(s: State) {
    RingInv(s) && ChanInv(s) && BornInv(s) && FanInv(s) && DoneInv(s) && LeftInv(s) && ReplayInv(s)
  }

  lemma RingStep(s: State, a: Action)
    requires Enabled(s, a) && RingInv(s)
    ensures RingInv(Do(s, a))
  {
    hide Newer, Pushed, Last;
    if a.Append? {
      PushedIsLast(s.log, s.ringCap, s.pubs[a.p].e);
    }
  }

  lemma ChanStep(s: State, a: Action)
    requires Enabled(s, a) && ChanInv(s) && FanInv(s)
    ensures ChanInv(Do(s, a))
  {
    hide Newer, Pushed, Accepts;
  }

  lemma BornStep(s: State, a: Action)
    requires Enabled(s, a) && BornInv(s) && ChanInv(s)
    ensures BornInv(Do(s, a))
  {
    hide Newer, Pushed, Accepts;
  }

  lemma FanStep(s: State, a: Action)
    requires Enabled(s, a) && FanInv(s) && ChanInv(s)
    ensures FanInv(Do(s, a))
  {
    hide Newer, Pushed, Accepts, Last, ChanInv;
    var t := Do(s, a);
    forall p | p in t.pubs ensures PubInv(t, t.pubs[p]) {
      if p in s.pubs {
        assert PubInv(s, s.pubs[p]);
      }
    }
  }

  lemma DoneStep(s: State, a: Action)
    requires Enabled(s, a) && FanInv(s) && DoneInv(s) && BornInv(s) && ChanInv(s)
    ensures DoneInv(Do(s, a))
  {
    hide Newer, Pushed, Accepts, Last, ChanInv;
    var t := Do(s, a);
    forall e, c | e in t.done && c in t.subs ensures Accounted(t, c, e) {
      if e !in s.done {
        assert PubInv(s, s.pubs[a.p]);
        assert c in s.subs - s.pubs[a.p].todo;
      } else if c !in s.subs {
        assert t.log[..|t.log|] == t.log;
      } else {
        assert Accounted(s, c, e);
        LaterLog(s, a, c);
      }
    }
    if a.Unlock? {
      assert PubInv(s, s.pubs[a.p]);
    }
  }

  lemma LaterLog(s: State, a: Action, c: nat)
    requires Enabled(s, a) && BornInv(s) && c in s.born
    ensures c in Do(s, a).born && Do(s, a).born[c] == s.born[c] <= |s.log| <= |Do(s, a).log|
    ensures Do(s, a).log[..s.born[c]] == s.log[..s.born[c]]
  {
    hide Newer, Pushed, Accepts, Last;
  }

  lemma LeftStep(s: State, a: Action)
    requires Enabled(s, a) && LeftInv(s) && DoneInv(s) && BornInv(s) && ChanInv(s)
    ensures LeftInv(Do(s, a))
  {
    hide Newer, Pushed, Accepts, Last;
    var t := Do(s, a);
    forall c, e | c in t.left && e in t.left[c] ensures Accounted(t, c, e) {
      assert Accounted(s, c, e);
      LaterLog(s, a, c);
    }
  }

  lemma ReplayStep(s: State, a: Action)
    requires Enabled(s, a) && ReplayInv(s) && RingInv(s) && ChanInv(s) && BornInv(s)
    ensures ReplayInv(Do(s, a))
  {
    hide Newer, Pushed, Accepts, Last;
    if a.Append? {
      var e := s.pubs[a.p].e;
      forall c | c in s.replays ensures (s.log + [e])[..s.replays[c].at] == s.log[..s.replays[c].at] {
      }
    } else if a.ReadSince? {
      assert s.log[..|s.log|] == s.log;
    }
  }

  lemma InvStep(s: State, a: Action)
    requires Inv(s) && Enabled(s, a)
    ensures Inv(Do(s, a))
  {
    hide RingInv, ChanInv, BornInv, FanInv, DoneInv, LeftInv, ReplayInv, Do, Enabled;
    RingStep(s, a);
    ChanStep(s, a);
    BornStep(s, a);
    FanStep(s, a);
    DoneStep(s, a);
    LeftStep(s, a);
    ReplayStep(s, a);
  }

  lemma {:induction false} InvRun(s: State, acts: seq<Action>, t: State)
    requires Inv(s) && Reaches(s, acts, t)
    ensures Inv(t)
    decreases |acts|
  {
    hide Inv, Do, Enabled;
    if acts != [] {
      InvStep(s, acts[0]);
      InvRun(Do(s, acts[0]), acts[1..], t);
    }
  }

  lemma InvInitial(cap: nat)
    requires cap > 0
    ensures Inv(Initial(cap))
  {
  }

  // ---- no replay gap ----

  /** The event had been appended when the client replayed, and had left the ring. */
  ghost predicate Evicted(s: State, e: Event, at: nat)
    requires at <= |s.log|
  {
    e in s.log[..at] && e !in Last(s.log[..at], s.ringCap)
  }

  /** The publishes that completed while a subscription was there: up to now, or until
      it left. */
  function CompletedFor(s: State, c: nat): set<Event> {
    if c in s.left then s.left[c] else s.done
  }

  /** A client that subscribes and then replays misses nothing: each publish completed
      before it left was replayed, is at or below the requested number, was offered to
      the client's channel (and enqueued, dropped for want of room, or filtered out), or
      had left the ring before the replay. */
  lemma NoReplayGap(cap: nat, acts: seq<Action>, t: State, c: nat, e: Event)
    requires cap > 0 && Reaches(Initial(cap), acts, t)
    requires c in t.replays && e in CompletedFor(t, c)
    ensures t.replays[c].at <= |t.log|
    ensures e in t.replays[c].events || e.seqNo <= t.replays[c].since
      || Delivery(c, e.seqNo) in t.fates || Evicted(t, e, t.replays[c].at)
  {
    hide Reaches, RingInv, FanInv, Last, Newer;
    InvInitial(cap);
    InvRun(Initial(cap), acts, t);
    var r := t.replays[c];
    assert Accounted(t, c, e);
    NewerMembers(Last(t.log[..r.at], t.ringCap), r.since);
    if Delivery(c, e.seqNo) !in t.fates {
      var i :| 0 <= i < t.born[c] && t.log[i] == e;
      assert t.log[..r.at][i] == e;
    }
  }

  /** The ring holds the last ringCap appended events, a closed channel is never sent
      to nor closed again, and no channel overflows. */
  lemma RingAndChannelsAreSafe(cap: nat, acts: seq<Action>, t: State)
    requires cap > 0 && Reaches(Initial(cap), acts, t)
    ensures t.ring == Last(t.log, t.ringCap) && !t.panicked
    ensures forall c :: c in t.subs ==> c in t.chans && t.chans[c].open
    ensures forall c :: c in t.chans ==> |t.chans[c].queue| <= t.chans[c].room
  {
    hide Reaches, FanInv, DoneInv, LeftInv, ReplayInv, BornInv;
    InvInitial(cap);
    InvRun(Initial(cap), acts, t);
  }

  // ---- each event reaches each channel once ----

  /** A publisher has told exactly the subscriptions that are off its list. */
  ghost predicate Untold(s: State, pub: Pub) {
    forall c :: Delivery(c, pub.e.seqNo) in s.fates ==> pub.Fanning? && c !in pub.todo
  }

  ghost predicate UntoldInv(s: State) {
    forall p :: p in s.pubs ==> Untold(s, s.pubs[p])
  }

  /** Publishers work on different events. */
  ghost predicate PairInv(s: State) {
    && (forall p :: p in s.pubs ==> s.pubs[p].e.seqNo <= s.lastSeq)
    && (forall p, q :: p in s.pubs && q in s.pubs && p != q ==> s.pubs[p].e.seqNo != s.pubs[q].e.seqNo)
  }

  ghost predicate BoundInv(s: State) {
    && (forall d :: d in s.fates ==> d.seqNo <= s.lastSeq && d.sub <= s.lastSub)
    && (forall c :: c in s.chans ==> c <= s.lastSub)
  }

  ghost function Losses(fates: map<Delivery, Fate>): set<Delivery> {
    set d | d in fates && fates[d].Dropped?
  }

  ghost predicate CountInv(s: State) {
    s.dropped == |set d | d in s.fates && s.fates[d].Dropped?|
  }

  ghost predicate Once(es: seq<Event>) {
    forall i, j :: 0 <= i < j < |es| ==> es[i].seqNo != es[j].seqNo
  }

  ghost predicate Carries(es: seq<Event>, n: nat) {
    exists e :: e in es && e.seqNo == n
  }

  /** A channel carries exactly the events recorded as enqueued, each once. */
  ghost predicate StreamInv(s: State, c: nat)
    requires c in s.chans
  {
    var es := s.chans[c].Stream();
    Once(es) &&
    forall n :: Carries(es, n) <==> (Delivery(c, n) in s.fates && s.fates[Delivery(c, n)].Enqueued?)
  }

  ghost predicate TellInv(s: State) {
    UntoldInv(s) && PairInv(s) && BoundInv(s) && CountInv(s) && forall c :: c in s.chans ==> StreamInv(s, c)
  }

  lemma PairStep(s: State, a: Action)
    requires Enabled(s, a) && PairInv(s)
    ensures PairInv(Do(s, a))
  {
    hide Newer, Pushed, Accepts, Last, FateAt;
  }

  lemma BoundStep(s: State, a: Action)
    requires Enabled(s, a) && BoundInv(s) && PairInv(s)
    ensures BoundInv(Do(s, a))
  {
    hide Newer, Pushed, Accepts, Last, FateAt;
  }

  lemma UntoldStep(s: State, a: Action)
    requires Enabled(s, a) && UntoldInv(s) && PairInv(s) && BoundInv(s)
    ensures UntoldInv(Do(s, a))
  {
    hide Newer, Pushed, Accepts, Last, FateAt;
    var t := Do(s, a);
    forall p | p in t.pubs ensures Untold(t, t.pubs[p]) {
      if p in s.pubs {
        assert Untold(s, s.pubs[p]);
      }
    }
  }

  lemma CountStep(s: State, a: Action)
    requires Enabled(s, a) && UntoldInv(s) && CountInv(s)
    ensures CountInv(Do(s, a))
  {
    hide Newer, Pushed, Accepts, Last, FateAt;
    if a.Offer? {
      var d := Delivery(a.sub, s.pubs[a.p].e.seqNo);
      assert Untold(s, s.pubs[a.p]);
      OneMoreFate(s.fates, d, FateAt(s, a.sub, s.pubs[a.p].e));
    }
  }

  lemma OneMoreFate(fates: map<Delivery, Fate>, d: Delivery, f: Fate)
    requires d !in fates
    ensures Losses(fates[d := f]) == Losses(fates) + if f.Dropped? then {d} else {}
    ensures d !in Losses(fates)
  {
  }

  lemma SnocOnce(es: seq<Event>, e: Event)
    requires Once(es) && !Carries(es, e.seqNo)
    ensures Once(es + [e])
  {
    assert forall i :: 0 <= i < |es| ==> es[i] in es;
  }

  lemma CarriesSnoc(es: seq<Event>, e: Event)
    ensures forall n :: Carries(es + [e], n) <==> Carries(es, n) || n == e.seqNo
  {
    assert e in es + [e];
    assert forall x :: x in es ==> x in es + [e];
  }

  /** The one step that adds to a stream. */
  lemma OfferStream(s: State, a: Action, c: nat)
    requires a.Offer? && Enabled(s, a) && UntoldInv(s) && c in s.chans && StreamInv(s, c)
    ensures StreamInv(Do(s, a), c)
  {
    hide Newer, Pushed, Accepts, Last, Once, Carries;
    var t, e := Do(s, a), s.pubs[a.p].e;
    var d := Delivery(a.sub, e.seqNo);
    assert Untold(s, s.pubs[a.p]);
    var es := s.chans[c].Stream();
    if c == a.sub && FateAt(s, c, e).Enqueued? {
      assert t.chans[c].Stream() == es + [e];
      assert !Carries(es, e.seqNo);
      SnocOnce(es, e);
      CarriesSnoc(es, e);
    } else {
      assert t.chans[c].Stream() == es;
    }
  }

  lemma StreamStep(s: State, a: Action, c: nat)
    requires Enabled(s, a) && !a.Offer? && BoundInv(s) && c in Do(s, a).chans && (c in s.chans ==> StreamInv(s, c))
    ensures StreamInv(Do(s, a), c)
  {
    hide Newer, Pushed, Accepts, Last, Once, Carries, FateAt;
    var t := Do(s, a);
    assert t.fates == s.fates;
    if c !in s.chans {
      NothingCarried();
      assert t.chans[c].Stream() == [];
    } else {
      assert t.chans[c].Stream() == s.chans[c].Stream();
    }
  }

  lemma NothingCarried()
    ensures Once([]) && forall n :: !Carries([], n)
  {
  }

  lemma TellInitial(cap: nat)
    requires cap > 0
    ensures TellInv(Initial(cap))
  {
    assert (set d | d in Initial(cap).fates && Initial(cap).fates[d].Dropped?) == {};
  }

  lemma TellStep(s: State, a: Action)
    requires Enabled(s, a) && TellInv(s)
    ensures TellInv(Do(s, a))
  {
    hide Do, Enabled, UntoldInv, PairInv, BoundInv, CountInv, StreamInv;
    PairStep(s, a);
    BoundStep(s, a);
    UntoldStep(s, a);
    CountStep(s, a);
    forall c | c in Do(s, a).chans ensures StreamInv(Do(s, a), c) {
      if a.Offer? {
        OfferKeepsChans(s, a);
        OfferStream(s, a, c);
      } else {
        StreamStep(s, a, c);
      }
    }
  }

  lemma OfferKeepsChans(s: State, a: Action)
    requires a.Offer? && Enabled(s, a)
    ensures Do(s, a).chans.Keys == s.chans.Keys
  {
    hide Accepts;
  }

  lemma {:induction false} TellRun(s: State, acts: seq<Action>, t: State)
    requires TellInv(s) && Reaches(s, acts, t)
    ensures TellInv(t)
    decreases |acts|
  {
    hide TellInv, Do, Enabled;
    if acts != [] {
      TellStep(s, acts[0]);
      TellRun(Do(s, acts[0]), acts[1..], t);
    }
  }

  /** At-most-once delivery and honest counting, in every interleaving: what a client has
      taken and what waits in its channel are exactly the events recorded as enqueued for
      it, each once; and the drop counter is the number of deliveries recorded as dropped. */
  lemma DeliveredOnce(cap: nat, acts: seq<Action>, t: State, c: nat, n: nat)
    requires cap > 0 && Reaches(Initial(cap), acts, t) && c in t.chans
    ensures Once(t.chans[c].Stream())
    ensures Carries(t.chans[c].Stream(), n)
      <==> (Delivery(c, n) in t.fates && t.fates[Delivery(c, n)].Enqueued?)
    ensures t.dropped == |Losses(t.fates)|
  {
    hide Reaches, UntoldInv, PairInv, BoundInv;
    TellInitial(cap);
    TellRun(Initial(cap), acts, t);
    assert StreamInv(t, c);
  }

  // ---- what a filter lets through ----

  /** The event is of one of the wanted types, and about one of the wanted configurations;
      an empty list stands for all. */
  ghost predicate Fits(f: Option<Filter>, e: Event) {
    f.Some? ==>
      (f.value.types == [] || exists i :: 0 <= i < |f.value.types| && f.value.types[i] == e.typ)
      && (f.value.configIds == [] || exists i :: 0 <= i < |f.value.configIds| && f.value.configIds[i] == e.configId)
  }

  lemma FitsIs(f: Option<Filter>, e: Event)
    ensures Fits(f, e) <==> Accepts(f, e)
  {
  }

  /** What one offer does: an event that fits is put at the end of the channel, or counted
      as lost if there is no room; one that does not fit is passed over. */
  lemma OfferTells(s: State, p: nat, sub: nat)
    requires Enabled(s, Offer(p, sub))
    ensures var t, e := Do(s, Offer(p, sub)), s.pubs[p].e;
      sub in t.chans && Delivery(sub, e.seqNo) in t.fates &&
      if !Fits(s.filters[sub], e) then
        t.chans[sub] == s.chans[sub] && t.dropped == s.dropped && t.fates[Delivery(sub, e.seqNo)] == Filtered
      else if |s.chans[sub].queue| < s.chans[sub].room then
        t.chans[sub].queue == s.chans[sub].queue + [e] && t.dropped == s.dropped && t.fates[Delivery(sub, e.seqNo)] == Enqueued
      else
        t.chans[sub] == s.chans[sub] && t.dropped == s.dropped + 1 && t.fates[Delivery(sub, e.seqNo)] == Dropped
  {
    hide Accepts;
    FitsIs(s.filters[sub], s.pubs[p].e);
  }

  ghost predicate AllFit(es: seq<Event>, f: Option<Filter>) {
    forall e :: e in es ==> Fits(f, e)
  }

  ghost predicate Screened(s: State, c: nat, f: Option<Filter>) {
    c in s.chans && c <= s.lastSub && c in s.filters && s.filters[c] == f && AllFit(s.chans[c].Stream(), f)
  }

  lemma StreamGrows(s: State, a: Action, c: nat)
    requires Enabled(s, a) && c in s.chans && c <= s.lastSub
    ensures c in Do(s, a).chans
    ensures var before, after := s.chans[c].Stream(), Do(s, a).chans[c].Stream();
      after == before || (a.Offer? && a.sub == c && Accepts(s.filters[c], s.pubs[a.p].e) && after == before + [s.pubs[a.p].e])
  {
    hide Newer, Pushed, Accepts, Last;
    var before, after := s.chans[c].Stream(), Do(s, a).chans[c].Stream();
    if a.Receive? && a.sub == c {
      var q := s.chans[c].queue;
      assert q == [q[0]] + q[1..];
      assert after == before;
    } else if a.Offer? && a.sub == c {
      assert after == before || after == before + [s.pubs[a.p].e];
    }
  }

  lemma FilterStays(s: State, a: Action, c: nat)
    requires Enabled(s, a) && c in s.filters && c <= s.lastSub && !(a.SetFilter? && a.sub == c)
    ensures c in Do(s, a).filters && Do(s, a).filters[c] == s.filters[c] && c <= Do(s, a).lastSub
  {
    hide Newer, Pushed, Accepts, Last, FateAt;
  }

  lemma ScreenedStep(s: State, a: Action, c: nat, f: Option<Filter>)
    requires Enabled(s, a) && Screened(s, c, f) && !(a.SetFilter? && a.sub == c)
    ensures Screened(Do(s, a), c, f)
  {
    hide Do, Enabled, Accepts, Fits;
    StreamGrows(s, a, c);
    FilterStays(s, a, c);
    forall e ensures Fits(f, e) <==> Accepts(f, e) {
      FitsIs(f, e);
    }
  }

  /** As long as its filter is not changed, a subscription is sent nothing that does not
      fit it, in any interleaving. */
  lemma {:induction false} OnlyFittingEvents(s: State, acts: seq<Action>, t: State, c: nat, f: Option<Filter>)
    requires Reaches(s, acts, t) && Screened(s, c, f)
    requires forall a :: a in acts && a.SetFilter? ==> a.sub != c
    ensures Screened(t, c, f)
    decreases |acts|
  {
    hide Screened, Do, Enabled;
    if acts != [] {
      assert acts[0] in acts && forall a :: a in acts[1..] ==> a in acts;
      ScreenedStep(s, acts[0], c, f);
      OnlyFittingEvents(Do(s, acts[0]), acts[1..], t, c, f);
    }
  }

  lemma SubscribedIsScreened(s: State, f: Option<Filter>, size: nat)
    requires Enabled(s, Subscribe(f, size))
    ensures Screened(Do(s, Subscribe(f, size)), s.lastSub + 1, f)
  {
  }
}
