/** The bus itself: a fixed ring that shifts in place, the subscriptions, and the
    counters. Run one call at a time it makes exactly the steps of the protocol. */
module Bus {
  import opened Text
  import opened EventBus

  const DEFAULT_RING := 1024
  const DEFAULT_BUFFER := 64

  /** Something is in the list, or the list is empty. */
  predicate In(list: seq<string>, x: string) {
    |list| == 0 || exists i :: 0 <= i < |list| && list[i] == x
  }

  /** `Filter.accepts`. */
  method Accept(f: Option<Filter>, e: Event) returns (ok: bool)
    ensures ok <==> Accepts(f, e)
    ensures ok <==> f.None? || (In(f.value.types, e.typ) && In(f.value.configIds, e.configId))
  {
    if f.None? {
      return true;
    }
    if |f.value.types| > 0 {
      ok := false;
      for i := 0 to |f.value.types|
        invariant !ok && e.typ !in f.value.types[..i]
      {
        if f.value.types[i] == e.typ {
          ok := true;
          break;
        }
      }
      if !ok {
        return;
      }
    }
    if |f.value.configIds| > 0 {
      ok := false;
      for i := 0 to |f.value.configIds|
        invariant !ok && e.configId !in f.value.configIds[..i]
      {
        if f.value.configIds[i] == e.configId {
          ok := true;
          break;
        }
      }
      if !ok {
        return;
      }
    }
    ok := true;
  }

  class Bus {
    const ring: array<Event>
    var len: nat
    var lastSeq: nat
    var subs: set<nat>
    var lastSub: nat
    var chans: map<nat, Chan>
    var filters: map<nat, Option<Filter>>
    var dropped: nat
    /** The protocol state that this object implements. */
    ghost var spec: State

    ghost predicate Valid() reads this, ring {
      && 0 < ring.Length && len <= ring.Length
      && spec.ringCap == ring.Length && spec.ring == ring[..len]
      && Shares()
      && Inv(spec) && NobodyFans(spec)
    }

    ghost predicate Shares() reads this {
      && spec.lastSeq == lastSeq && spec.subs == subs && spec.lastSub == lastSub
      && spec.chans == chans && spec.filters == filters && spec.dropped == dropped
    }

    constructor (ringCap: int)
      ensures Valid() && fresh(ring)
      ensures spec == Initial(if ringCap <= 0 then DEFAULT_RING else ringCap)
    {
      var cap: nat := if ringCap <= 0 then DEFAULT_RING else ringCap;
      ring := new Event[cap];
      len, lastSeq, lastSub, dropped := 0, 0, 0, 0;
      subs, chans, filters := {}, map[], map[];
      spec := Initial(cap);
    }

    /** The ring as `appendRing` leaves it; when full it moves down by one. */
    method AppendRing(e: Event)
      requires 0 < ring.Length && len <= ring.Length
      modifies this`len, ring
      ensures len <= ring.Length && ring[..len] == Pushed(old(ring[..len]), ring.Length, e)
    {
      ghost var was := ring[..len];
      if len < ring.Length {
        ring[len] := e;
        len := len + 1;
        assert ring[..len] == was + [e];
      } else {
        ShiftDown();
        ring[ring.Length - 1] := e;
        assert ring[..len] == was[1..] + [e];
      }
    }

    /** `copy(ring, ring[1:])` */
    method ShiftDown()
      requires 0 < ring.Length
      modifies ring
      ensures forall k :: 0 <= k < ring.Length - 1 ==> ring[k] == old(ring[k + 1])
    {
      for i := 0 to ring.Length - 1
        invariant forall k :: 0 <= k < i ==> ring[k] == old(ring[k + 1])
        invariant forall k :: i <= k < ring.Length ==> ring[k] == old(ring[k])
      {
        ring[i] := ring[i + 1];
      }
    }

    ghost method Take(a: Action)
      requires Inv(spec) && Enabled(spec, a)
      modifies this`spec
      ensures spec == Do(old(spec), a) && Inv(spec)
    {
      InvStep(spec, a);
      spec := Do(spec, a);
    }

    /** Hand the event to one subscription without waiting. */
    method Offer(sub: nat, e: Event, ghost p: nat)
      requires Shares() && Inv(spec) && Enabled(spec, Action.Offer(p, sub)) && spec.pubs[p].e == e
      modifies this`chans, this`dropped, this`spec
      ensures Shares() && Inv(spec) && spec == DoOffer(old(spec), p, sub)
      ensures chans == old(chans)[sub := Told(old(chans)[sub], filters[sub], e)]
    {
      hide Inv, Accepts;
      var ok := Accept(filters[sub], e);
      Take(Action.Offer(p, sub));
      if ok {
        var c := chans[sub];
        if |c.queue| < c.room {
          chans := chans[sub := Sent(c, e)];
        } else {
          dropped := dropped + 1;
        }
      }
    }

    /** Offer the event to every subscription, in any order. */
    method FanOut(e: Event, ghost p: nat)
      requires Shares() && Inv(spec) && p in spec.pubs && spec.pubs[p] == Fanning(e, subs)
      modifies this`chans, this`dropped, this`spec
      ensures Shares() && Inv(spec) && FannedOut(old(spec), spec, p, e, {})
      ensures chans == ToldAll(old(chans), filters, subs, e)
    {
      hide Inv, Told, Accepts, ToldAll, FannedOut, DoOffer;
      var todo := subs;
      LiveInv(spec);
      FanBegins(spec, p, e);
      NobodyTold(chans, filters, e);
      assert subs - todo == {};
      while todo != {}
        invariant todo <= subs && Shares() && Inv(spec)
        invariant FannedOut(old(spec), spec, p, e, todo)
        invariant chans == ToldAll(old(chans), filters, subs - todo, e)
        decreases |todo|
      {
        var c :| c in todo;
        LiveInv(spec);
        FanEnabled(old(spec), spec, p, e, todo, c);
        ToldMore(old(chans), filters, subs - todo, e, c);
        Offer(c, e, p);
        assert subs - (todo - {c}) == subs - todo + {c};
        todo := todo - {c};
      }
      assert subs - todo == subs;
    }

    /** Number the event and put it in the ring. */
    method Enter(typ: string, configId: string, ghost p: nat) returns (e: Event)
      requires Valid() && p !in spec.pubs
      modifies this`lastSeq, this`len, this`spec, ring
      ensures e == Event(old(lastSeq) + 1, typ, configId) && lastSeq == old(lastSeq) + 1
      ensures len <= ring.Length && ring[..len] == Pushed(old(ring[..len]), ring.Length, e)
      ensures Shares() && Inv(spec) && spec == Entered(old(spec), p, e)
    {
      hide Inv, Pushed;
      lastSeq := lastSeq + 1;
      e := Event(lastSeq, typ, configId);
      Take(Number(p, typ, configId));
      AppendRing(e);
      Take(Action.Append(p));
      Take(Lock(p));
    }

    /** Number the event, put it in the ring, offer it to every subscription. */
    method Publish(typ: string, configId: string, ghost p: nat)
      requires Valid() && p !in spec.pubs
      modifies this, ring
      ensures Valid() && subs == old(subs) && filters == old(filters) && lastSeq == old(lastSeq) + 1
      ensures ring[..len] == Pushed(old(ring[..len]), ring.Length, Event(lastSeq, typ, configId))
      ensures chans == ToldAll(old(chans), filters, subs, Event(lastSeq, typ, configId))
      ensures spec.done == old(spec).done + {Event(lastSeq, typ, configId)}
    {
      hide Inv, Pushed, ToldAll;
      var e := Enter(typ, configId, p);
      FanOut(e, p);
      Take(Unlock(p));
    }

    method Subscribe(filter: Option<Filter>, bufSize: int) returns (id: nat)
      requires Valid()
      modifies this`lastSub, this`subs, this`chans, this`filters, this`spec
      ensures Valid() && id == old(lastSub) + 1 && subs == old(subs) + {id}
      ensures spec == DoSubscribe(old(spec), filter, if bufSize <= 0 then DEFAULT_BUFFER else bufSize)
    {
      hide Inv;
      var size: nat := if bufSize <= 0 then DEFAULT_BUFFER else bufSize;
      Take(Action.Subscribe(filter, size));
      lastSub := lastSub + 1;
      id := lastSub;
      chans := chans[id := Chan(size, [], true, [])];
      filters := filters[id := filter];
      subs := subs + {id};
    }

    /** Close the channel of a live subscription; an unknown one is ignored. */
    method Remove(id: nat)
      requires Valid()
      modifies this`subs, this`chans, this`spec
      ensures Valid() && subs == old(subs) - {id}
      ensures spec == Do(old(spec), Action.Remove(id))
    {
      hide Inv;
      LiveInv(spec);
      Take(Action.Remove(id));
      if id in subs {
        subs := subs - {id};
        chans := chans[id := chans[id].(open := false)];
      }
    }

    method Stop()
      requires Valid()
      modifies this`subs, this`chans, this`spec
      ensures Valid() && subs == {} && spec == Closed(old(spec), old(subs))
    {
      hide Inv, Closed;
      LiveInv(spec);
      ghost var before := spec;
      NothingClosed(before);
      assert before.subs - subs == {};
      while subs != {}
        invariant subs <= before.subs && spec == before
        invariant chans == Closed(before, before.subs - subs).chans
        decreases |subs|
      {
        var id :| id in subs;
        ClosedMore(before, before.subs - subs, id);
        assert before.subs - (subs - {id}) == before.subs - subs + {id};
        subs := subs - {id};
        chans := chans[id := chans[id].(open := false)];
      }
      assert before.subs - {} == before.subs;
      ClosedRest(before, before.subs);
      Take(Action.Stop);
    }

    /** The recent events after `since`, oldest first. */
    method Since(since: nat) returns (out: seq<Event>)
      requires Valid()
      ensures out == Newer(spec.ring, since)
    {
      hide Inv;
      out := [];
      for i := 0 to len
        invariant out == Newer(ring[..i], since)
      {
        assert ring[..i + 1][..i] == ring[..i];
        if ring[i].seqNo > since {
          out := out + [ring[i]];
        }
      }
    }

    method SetFilter(id: nat, filter: Option<Filter>)
      requires Valid() && id in filters
      modifies this`filters, this`spec
      ensures Valid() && spec == Do(old(spec), Action.SetFilter(id, filter))
    {
      hide Inv;
      Take(Action.SetFilter(id, filter));
      filters := filters[id := filter];
    }
  }

  // ---- the protocol during a fan-out ----

  function ToldAll(chans: map<nat, Chan>, filters: map<nat, Option<Filter>>, ids: set<nat>, e: Event): map<nat, Chan> {
    map c | c in chans :: if c in ids && c in filters then Told(chans[c], filters[c], e) else chans[c]
  }

  lemma NobodyTold(chans: map<nat, Chan>, filters: map<nat, Option<Filter>>, e: Event)
    ensures ToldAll(chans, filters, {}, e) == chans
  {
  }

  lemma ToldMore(chans: map<nat, Chan>, filters: map<nat, Option<Filter>>, ids: set<nat>, e: Event, c: nat)
    requires c in chans && c in filters && c !in ids
    ensures ToldAll(chans, filters, ids + {c}, e) == ToldAll(chans, filters, ids, e)[c := Told(chans[c], filters[c], e)]
    ensures c in ToldAll(chans, filters, ids, e) && ToldAll(chans, filters, ids, e)[c] == chans[c]
  {
    hide Told;
  }

  ghost predicate FannedOut(before: State, now: State, p: nat, e: Event, todo: set<nat>) {
    now == before.(chans := now.chans, dropped := now.dropped, fates := now.fates, panicked := now.panicked,
                   pubs := before.pubs[p := Fanning(e, todo)])
  }

  lemma FanBegins(s: State, p: nat, e: Event)
    requires p in s.pubs && s.pubs[p] == Fanning(e, s.subs)
    ensures FannedOut(s, s, p, e, s.subs)
  {
    assert s.pubs == s.pubs[p := Fanning(e, s.subs)];
  }

  lemma FanEnabled(before: State, now: State, p: nat, e: Event, todo: set<nat>, c: nat)
    requires FannedOut(before, now, p, e, todo) && c in todo && c in now.chans && c in now.filters
    ensures Enabled(now, Action.Offer(p, c)) && now.pubs[p].e == e
    ensures FannedOut(before, DoOffer(now, p, c), p, e, todo - {c})
  {
    hide Accepts, FateAt, Sent;
    assert before.pubs[p := Fanning(e, todo)][p := Fanning(e, todo - {c})] == before.pubs[p := Fanning(e, todo - {c})];
  }

  ghost function Entered(s: State, p: nat, e: Event): State {
    s.(lastSeq := s.lastSeq + 1, ring := Pushed(s.ring, s.ringCap, e), log := s.log + [e],
       pubs := s.pubs[p := Fanning(e, s.subs)])
  }

  lemma NothingClosed(s: State)
    ensures Closed(s, {}).chans == s.chans
  {
  }

  lemma ClosedRest(s: State, ids: set<nat>)
    ensures var t := Closed(s, ids); t == s.(subs := s.subs - ids, left := t.left, chans := t.chans, panicked := t.panicked)
    ensures s.subs - s.subs == {}
  {
  }

  lemma ClosedMore(s: State, ids: set<nat>, c: nat)
    requires c in s.chans && c !in ids
    ensures c in Closed(s, ids).chans
    ensures Closed(s, ids + {c}).chans == Closed(s, ids).chans[c := Closed(s, ids).chans[c].(open := false)]
  {
  }

  /** Live subscriptions have a channel and a filter. */
  lemma LiveInv(s: State)
    requires Inv(s)
    ensures forall c :: c in s.subs ==> c in s.chans && c in s.filters && s.chans[c].open
    ensures !s.panicked
  {
  }
}
