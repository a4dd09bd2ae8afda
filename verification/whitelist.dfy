/** The white list: every listed MAC is reserved an address of its own in the first
    enabled pool, as long as free addresses last. */
module Whitelist {
  import opened Text
  import opened Uci
  import opened Projection
  import opened Sidecar
  import opened NetUtil
  import opened Addresses
  import opened DhcpSpec

  /** The entries that ask for an address. */
  function ListedOf(es: seq<AclEntry>): seq<AclEntry> {
    if es == [] then [] else (if Listed(es[0]) then [es[0]] else []) + ListedOf(es[1..])
  }

  /** How many addresses of cur..end are not used. */
  function FreeCount(cur: nat, end: int, used: set<string>): nat
    requires end < TWO32
    decreases end + 1 - cur
  {
    if cur > end then 0 else (if Render(cur) in used then 0 else 1) + FreeCount(cur + 1, end, used)
  }

  /** The addresses handed out, in order. */
  function Granted(es: seq<AclEntry>, pool: Alloc): seq<u32>
    decreases |es|
  {
    if es == [] then []
    else if !Listed(es[0]) then Granted(es[1..], pool)
    else
      match pool.Next()
      case (None, _) => []
      case (Some(u), after) => [u] + Granted(es[1..], after)
  }

  function GrantWrite(e: AclEntry, u: u32): Write {
    Write(UciName(e.id), "host", HostPatch(e.mac, Render(u)))
  }

  /** The hosts written for the list are those of its first entries, one for each
      address handed out and in that order, and no others. */
  lemma {:induction false} WritesGranted(es: seq<AclEntry>, pool: Alloc)
    ensures var ws, us, ls := AllowWrites(es, pool), Granted(es, pool), ListedOf(es);
      |ws| == |us| <= |ls| && forall k :: 0 <= k < |us| ==> ws[k] == GrantWrite(ls[k], us[k])
    decreases |es|
  {
    hide Render, Scan, HostPatch, UciName;
    if es != [] {
      if !Listed(es[0]) {
        WritesGranted(es[1..], pool);
      } else {
        var (ip, after) := pool.Next();
        if ip.Some? {
          WritesGranted(es[1..], after);
        }
      }
    }
  }

  lemma {:induction false} FreeSkip(cur: nat, a: nat, end: int, used: set<string>)
    requires cur <= a <= end + 1 <= TWO32 && forall u: u32 :: cur <= u < a ==> Render(u) in used
    ensures FreeCount(cur, end, used) == FreeCount(a, end, used)
    decreases a - cur
  {
    hide Render;
    if cur < a {
      FreeSkip(cur + 1, a, end, used);
    }
  }

  /** Taking a free address leaves one less in the ranges that have it. */
  lemma {:induction false} FreeAfterGrant(cur: nat, end: int, used: set<string>, a: u32)
    requires end < TWO32 && Render(a) !in used
    ensures FreeCount(cur, end, used + {Render(a)}) == FreeCount(cur, end, used) - if cur <= a <= end then 1 else 0
    decreases end + 1 - cur
  {
    hide Render;
    if cur <= end {
      FreeAfterGrant(cur + 1, end, used, a);
      if Render(cur) == Render(a) {
        RenderInjective(cur, a);
      }
    }
  }

  lemma {:induction false} FreeCounted(cur: nat, end: int, used: set<string>, u: u32)
    requires cur <= u <= end < TWO32 && Render(u) !in used
    ensures FreeCount(cur, end, used) > 0
    decreases end + 1 - cur
  {
    hide Render;
    if cur < u {
      FreeCounted(cur + 1, end, used, u);
    }
  }

  lemma {:induction false} FreeWitness(cur: nat, end: u32, used: set<string>)
    requires FreeCount(cur, end, used) > 0
    ensures exists f: u32 :: cur <= f && f <= end && Render(f) !in used
    decreases end + 1 - cur
  {
    hide Render;
    if Render(cur) in used {
      FreeWitness(cur + 1, end, used);
      var f: u32 :| cur + 1 <= f && f <= end && Render(f) !in used;
      assert cur <= f;
    }
  }

  lemma FreeStep(a: nat, end: int, used: set<string>)
    requires end < TWO32
    ensures a > end ==> FreeCount(a, end, used) == 0
    ensures a <= end && Render(a) !in used ==> FreeCount(a, end, used) == 1 + FreeCount(a + 1, end, used)
  {
    hide Render;
  }

  lemma DifferentRender(u: u32, v: u32)
    requires u != v
    ensures Render(u) != Render(v)
  {
    if Render(u) == Render(v) {
      RenderInjective(u, v);
    }
  }

  // ---- one step ----

  /** Whatever is handed out is free and not past the end of the pool. */
  lemma NextTakesFree(pool: Alloc)
    ensures var (ip, after) := pool.Next();
      after.have == pool.have && after.end == pool.end &&
      match ip {
        case None => after.used == pool.used
        case Some(a) => pool.have && a <= pool.end && Render(a) !in pool.used && after.used == pool.used + {Render(a)}
      }
  {
    hide Render, Scan;
    ScanFindsFree(pool.cur, pool.end, pool.used, TWO32);
  }

  /** While the pool has a free address, the least one is taken. */
  lemma NextTakesLeast(pool: Alloc)
    requires pool.have && FreeCount(pool.cur, pool.end, pool.used) > 0
    ensures var (ip, after) := pool.Next();
      ip.Some? && pool.cur <= ip.value <= pool.end && after.cur == ToU32(ip.value + 1)
      && (forall u: u32 :: pool.cur <= u < ip.value ==> Render(u) in pool.used)
      && FreeCount(pool.cur, pool.end, pool.used) == 1 + FreeCount(ip.value + 1, pool.end, after.used)
  {
    hide Render, Scan;
    FreeWitness(pool.cur, pool.end, pool.used);
    var f: u32 :| pool.cur <= f && f <= pool.end && Render(f) !in pool.used;
    assert f < pool.cur + TWO32;
    assert SomeFreeIn(pool.cur, pool.end, pool.used, TWO32);
    ScanFindsLeast(pool.cur, pool.end, pool.used, TWO32);
    var a: nat := pool.Next().0.value;
    FreeSkip(pool.cur, a, pool.end, pool.used);
    FreeAfterGrant(a + 1, pool.end, pool.used, a);
  }

  /** An exhausted pool hands out nothing more, if it ends before the last address. */
  lemma NextFindsNone(pool: Alloc)
    requires pool.have && pool.end < TWO32 - 1 && pool.cur <= pool.end + 1 && FreeCount(pool.cur, pool.end, pool.used) == 0
    ensures pool.Next().0.None?
  {
    hide Render, Scan, FreeCount;
    ScanFindsLeast(pool.cur, pool.end, pool.used, TWO32);
    var ip := pool.Next().0;
    if ip.Some? {
      FreeCounted(pool.cur, pool.end, pool.used, ip.value);
      assert false;
    }
  }

  /** Up to the last address there is always one more. */
  lemma NextGoesRound(pool: Alloc)
    requires pool.have && pool.end == TWO32 - 1 && |pool.used| < TWO32
    ensures pool.Next().0.Some?
  {
    hide Render, Scan;
    SomeFree(pool.used);
    var f: u32 :| Render(f) !in pool.used;
    ScanGoesRound(pool.cur, pool.used, f, TWO32);
  }

  lemma NoneFree(cur: u32, used: set<string>)
    requires FreeCount(cur, TWO32 - 1, used) == 0
    ensures AllUsed(cur, TWO32, used)
  {
    hide Render, FreeCount;
    forall v: u32 | cur <= v < TWO32 ensures Render(v) in used {
      if Render(v) !in used {
        FreeCounted(cur, TWO32 - 1, used, v);
      }
    }
  }

  /** When nothing is left up to the last address, the search begins anew. */
  lemma NextFromZero(pool: Alloc, u: u32)
    requires pool.have && pool.end == TWO32 - 1 && FreeCount(pool.cur, TWO32 - 1, pool.used) == 0
    requires u < pool.cur && Render(u) !in pool.used
    ensures pool.Next() == pool.(cur := 0).Next()
  {
    hide Render, Scan, FreeCount, AllUsed;
    NoneFree(pool.cur, pool.used);
    ScanWraps(pool.cur, pool.used, TWO32);
    assert SomeFreeIn(0, TWO32 - 1, pool.used, pool.cur);
    assert SomeFreeIn(0, TWO32 - 1, pool.used, TWO32);
    ScanFindsLeast(0, TWO32 - 1, pool.used, pool.cur);
    ScanFindsLeast(0, TWO32 - 1, pool.used, TWO32);
    SameLeast(Scan(0, TWO32 - 1, pool.used, pool.cur).0.value, Scan(0, TWO32 - 1, pool.used, TWO32).0.value, pool.used);
  }

  lemma SameLeast(a: u32, b: u32, used: set<string>)
    requires AllUsed(0, a, used) && AllUsed(0, b, used) && Render(a) !in used && Render(b) !in used
    ensures a == b
  {
    hide Render;
  }

  // ---- the whole list ----

  lemma HeadServed(es: seq<AclEntry>, pool: Alloc)
    requires es != [] && Listed(es[0]) && pool.Next().0.Some?
    ensures Granted(es, pool) == [pool.Next().0.value] + Granted(es[1..], pool.Next().1)
    ensures |ListedOf(es)| == 1 + |ListedOf(es[1..])|
  {
    hide Alloc.Next, Scan;
  }

  ghost predicate NoRepeats(us: seq<u32>) {
    forall j, k :: 0 <= j < k < |us| ==> us[j] != us[k]
  }

  lemma NoRepeatsCons(a: u32, us: seq<u32>)
    requires NoRepeats(us) && a !in us
    ensures NoRepeats([a] + us)
  {
  }

  lemma NoRepeatsNil()
    ensures NoRepeats([])
  {
  }

  /** Granted addresses are pairwise different, free, and not past the end of the pool,
      whatever the pool. */
  lemma {:induction false} GrantsAreFree(es: seq<AclEntry>, pool: Alloc)
    ensures forall u :: u in Granted(es, pool) ==> u <= pool.end && Render(u) !in pool.used
    ensures NoRepeats(Granted(es, pool))
    decreases |es|
  {
    hide Render, Scan, Alloc.Next, NoRepeats;
    NoRepeatsNil();
    if es != [] {
      if !Listed(es[0]) {
        GrantsAreFree(es[1..], pool);
      } else {
        NextTakesFree(pool);
        var (ip, after) := pool.Next();
        if ip.Some? {
          GrantsAreFree(es[1..], after);
          NoRepeatsCons(ip.value, Granted(es[1..], after));
        }
      }
    }
  }

  /** An address from `cur` on is granted exactly if it is free and there are more
      entries than free addresses before it. */
  lemma {:induction false} GrantedExactly(es: seq<AclEntry>, pool: Alloc, u: u32)
    requires pool.have && pool.cur <= u <= pool.end
    ensures u in Granted(es, pool) <==> Render(u) !in pool.used && FreeCount(pool.cur, u - 1, pool.used) < |ListedOf(es)|
    decreases |es|
  {
    hide Render, FreeCount, Scan;
    GrantsAreFree(es, pool);
    if es != [] && Render(u) !in pool.used {
      if !Listed(es[0]) {
        GrantedExactly(es[1..], pool, u);
      } else {
        FreeCounted(pool.cur, pool.end, pool.used, u);
        NextTakesLeast(pool);
        NextTakesFree(pool);
        GrantedAfter(es, pool, u);
      }
    }
  }

  lemma GrantedAfter(es: seq<AclEntry>, pool: Alloc, u: u32)
    requires pool.have && pool.cur <= u <= pool.end && es != [] && Listed(es[0]) && Render(u) !in pool.used
    requires FreeCount(pool.cur, pool.end, pool.used) > 0
    ensures u in Granted(es, pool) <==> FreeCount(pool.cur, u - 1, pool.used) < |ListedOf(es)|
    decreases |es|, 0
  {
    hide Render, FreeCount, Scan, Alloc.Next, Granted, ListedOf, Listed;
    NextTakesLeast(pool);
    NextTakesFree(pool);
    HeadServed(es, pool);
    var (ip, after) := pool.Next();
    var a := ip.value;
    FreeUpTo(pool, a, u);
    if u != a {
      DifferentRender(u, a);
      GrantedExactly(es[1..], after, u);
    }
  }

  lemma {:induction false} GrantedFromZero(es: seq<AclEntry>, pool: Alloc, u: u32)
    requires pool.have && pool.end == TWO32 - 1 && FreeCount(pool.cur, TWO32 - 1, pool.used) == 0
    requires u < pool.cur && Render(u) !in pool.used
    ensures Granted(es, pool) == Granted(es, pool.(cur := 0))
    decreases |es|
  {
    hide Render, FreeCount, Alloc.Next;
    if es != [] {
      if Listed(es[0]) {
        NextFromZero(pool, u);
      } else {
        GrantedFromZero(es[1..], pool, u);
      }
    }
  }

  /** In a pool that ends at the last address, one below `cur` is granted exactly if it is
      free and there are more entries than free addresses from `cur` on and before it. */
  lemma {:induction false} GrantedBelow(es: seq<AclEntry>, pool: Alloc, u: u32)
    requires pool.have && pool.end == TWO32 - 1 && u < pool.cur && Render(u) !in pool.used
    ensures u in Granted(es, pool) <==>
      FreeCount(pool.cur, TWO32 - 1, pool.used) + FreeCount(0, u - 1, pool.used) < |ListedOf(es)|
    decreases |es|
  {
    hide Render, FreeCount, Scan, Alloc.Next;
    if FreeCount(pool.cur, TWO32 - 1, pool.used) == 0 {
      GrantedFromZero(es, pool, u);
      GrantedExactly(es, pool.(cur := 0), u);
    } else if es != [] {
      if Listed(es[0]) {
        GrantedBelowStep(es, pool, u);
      } else {
        GrantedBelow(es[1..], pool, u);
      }
    }
  }

  lemma GrantedBelowStep(es: seq<AclEntry>, pool: Alloc, u: u32)
    requires pool.have && pool.end == TWO32 - 1 && u < pool.cur && Render(u) !in pool.used
    requires es != [] && Listed(es[0]) && FreeCount(pool.cur, TWO32 - 1, pool.used) > 0
    ensures u in Granted(es, pool) <==>
      FreeCount(pool.cur, TWO32 - 1, pool.used) + FreeCount(0, u - 1, pool.used) < |ListedOf(es)|
    decreases |es|, 0
  {
    hide Render, FreeCount, Scan, Alloc.Next, Granted, ListedOf, Listed;
    NextTakesLeast(pool);
    NextTakesFree(pool);
    HeadServed(es, pool);
    var (ip, after) := pool.Next();
    DifferentRender(u, ip.value);
    FreeAfterGrant(0, u - 1, pool.used, ip.value);
    if ip.value == TWO32 - 1 {
      NoneAbove(TWO32 - 1, after.used);
      GrantedExactly(es[1..], after, u);
    } else {
      GrantedBelow(es[1..], after, u);
    }
  }

  /** The addresses that a pool can come to. */
  predicate InReach(pool: Alloc, u: u32) {
    u <= pool.end && (pool.cur <= u || pool.end == TWO32 - 1)
  }

  /** How many free addresses it comes to before u. */
  function FreeBefore(pool: Alloc, u: u32): nat {
    if pool.cur <= u then FreeCount(pool.cur, u - 1, pool.used)
    else FreeCount(pool.cur, pool.end, pool.used) + FreeCount(0, u - 1, pool.used)
  }

  /** What any pool grants: the free addresses it comes to, as far as the list goes. */
  lemma GrantedWhen(es: seq<AclEntry>, pool: Alloc, u: u32)
    requires pool.have && pool.cur <= pool.end + 1
    ensures u in Granted(es, pool) <==> Render(u) !in pool.used && InReach(pool, u) && FreeBefore(pool, u) < |ListedOf(es)|
  {
    hide Render, FreeCount, Granted, ListedOf;
    GrantsAreFree(es, pool);
    if pool.cur <= u <= pool.end {
      GrantedExactly(es, pool, u);
    } else if pool.end < TWO32 - 1 {
      GrantsGoUp(es, pool);
    } else if u < pool.cur && Render(u) !in pool.used {
      GrantedBelow(es, pool, u);
    }
  }

  lemma FreeUpTo(pool: Alloc, a: u32, u: u32)
    requires pool.cur <= a <= u && Render(a) !in pool.used && forall v: u32 :: pool.cur <= v < a ==> Render(v) in pool.used
    ensures FreeCount(pool.cur, u - 1, pool.used) ==
      if u == a then 0 else 1 + FreeCount(a + 1, u - 1, pool.used + {Render(a)})
  {
    hide Render, FreeCount;
    FreeSkip(pool.cur, a, u - 1, pool.used);
    FreeStep(a, u - 1, pool.used);
    if u != a {
      FreeAfterGrant(a + 1, u - 1, pool.used, a);
    }
  }

  lemma {:induction false} NothingListed(es: seq<AclEntry>, pool: Alloc)
    requires ListedOf(es) == []
    ensures Granted(es, pool) == []
    decreases |es|
  {
    hide Scan;
    if es != [] {
      NothingListed(es[1..], pool);
    }
  }

  ghost predicate Increasing(us: seq<u32>) {
    forall j, k :: 0 <= j < k < |us| ==> us[j] < us[k]
  }

  /** With enough free addresses, or away from the last address, the grants go up
      through the pool, and there are as many as the list and the pool allow. */
  lemma {:induction false} GrantsGoUp(es: seq<AclEntry>, pool: Alloc)
    requires pool.have && pool.cur <= pool.end + 1
    requires pool.end < TWO32 - 1 || |ListedOf(es)| <= FreeCount(pool.cur, pool.end, pool.used)
    ensures Increasing(Granted(es, pool)) && forall u :: u in Granted(es, pool) ==> pool.cur <= u
    ensures var free, want := FreeCount(pool.cur, pool.end, pool.used), |ListedOf(es)|;
      |Granted(es, pool)| == if want <= free then want else free
    decreases |es|
  {
    hide Render, FreeCount, Scan;
    if es != [] {
      if !Listed(es[0]) {
        GrantsGoUp(es[1..], pool);
      } else if FreeCount(pool.cur, pool.end, pool.used) == 0 {
        NextFindsNone(pool);
      } else {
        GrantsGoUpStep(es, pool);
      }
    }
  }

  lemma GrantsGoUpStep(es: seq<AclEntry>, pool: Alloc)
    requires pool.have && es != [] && Listed(es[0]) && FreeCount(pool.cur, pool.end, pool.used) > 0
    requires pool.end < TWO32 - 1 || |ListedOf(es)| <= FreeCount(pool.cur, pool.end, pool.used)
    ensures Increasing(Granted(es, pool)) && forall u :: u in Granted(es, pool) ==> pool.cur <= u
    ensures var free, want := FreeCount(pool.cur, pool.end, pool.used), |ListedOf(es)|;
      |Granted(es, pool)| == if want <= free then want else free
    decreases |es|, 0
  {
    hide Render, FreeCount, Scan, Alloc.Next, Granted, ListedOf, Listed;
    NextTakesLeast(pool);
    NextTakesFree(pool);
    HeadServed(es, pool);
    var (ip, after) := pool.Next();
    var rest := Granted(es[1..], after);
    if ip.value == TWO32 - 1 {
      NoneAbove(pool.end, after.used);
      NothingListed(es[1..], after);
    } else {
      GrantsGoUp(es[1..], after);
      assert forall k :: 0 <= k < |rest| ==> rest[k] in rest;
    }
  }

  lemma NoneAbove(end: u32, used: set<string>)
    ensures FreeCount(TWO32, end, used) == 0
  {
  }

  /** A pool that ends at the last address always has another one to hand out. */
  lemma {:induction false} TopNeverEnds(es: seq<AclEntry>, pool: Alloc)
    requires pool.have && pool.end == TWO32 - 1 && |pool.used| + |ListedOf(es)| <= TWO32
    ensures |Granted(es, pool)| == |ListedOf(es)|
    decreases |es|
  {
    hide Render, Scan;
    if es != [] {
      if Listed(es[0]) {
        NextGoesRound(pool);
        NextTakesFree(pool);
        TopNeverEnds(es[1..], pool.Next().1);
      } else {
        TopNeverEnds(es[1..], pool);
      }
    }
  }

  /** So one of them is below `lo` when there are more entries than free addresses from
      there on. */
  lemma {:induction false} TopOverflows(es: seq<AclEntry>, pool: Alloc, lo: u32)
    requires pool.have && pool.end == TWO32 - 1 && |pool.used| + |ListedOf(es)| <= TWO32
    requires |ListedOf(es)| > FreeCount(lo, TWO32 - 1, pool.used)
    ensures exists u: u32 :: u in Granted(es, pool) && u < lo
    decreases |es|
  {
    hide Render, Scan, FreeCount;
    assert es != [];
    if !Listed(es[0]) {
      TopOverflows(es[1..], pool, lo);
      assert Granted(es, pool) == Granted(es[1..], pool);
    } else {
      NextGoesRound(pool);
      NextTakesFree(pool);
      var (ip, after) := pool.Next();
      assert Granted(es, pool) == [ip.value] + Granted(es[1..], after);
      if ip.value >= lo {
        FreeAfterGrant(lo, TWO32 - 1, pool.used, ip.value);
        TopOverflows(es[1..], after, lo);
        var u: u32 :| u in Granted(es[1..], after) && u < lo;
        assert u in Granted(es, pool);
      } else {
        assert ip.value in Granted(es, pool);
      }
    }
  }

  /** The entries fit into the address space, so that the search for an address ends. */
  predicate Fits(es: seq<AclEntry>, pool: Alloc) {
    pool.end == TWO32 - 1 ==> |pool.used| + |ListedOf(es)| <= TWO32
  }

  /** The grants stay in the pool exactly if it ends before the last address, or begins
      with the first, or has an address for every entry. */
  lemma GrantsStayInPool(es: seq<AclEntry>, pool: Alloc)
    requires pool.have && pool.cur <= pool.end && Fits(es, pool)
    ensures (forall u :: u in Granted(es, pool) ==> pool.cur <= u <= pool.end) <==>
      pool.end < TWO32 - 1 || pool.cur == 0 || |ListedOf(es)| <= FreeCount(pool.cur, pool.end, pool.used)
  {
    hide Granted, FreeCount, ListedOf;
    GrantsAreFree(es, pool);
    if pool.end < TWO32 - 1 || |ListedOf(es)| <= FreeCount(pool.cur, pool.end, pool.used) {
      GrantsGoUp(es, pool);
    } else if pool.cur > 0 {
      TopOverflows(es, pool, pool.cur);
    }
  }

  /** There are as many grants as the list and the pool allow; past the last address the
      pool does not count any more. */
  lemma GrantsCounted(es: seq<AclEntry>, pool: Alloc)
    requires pool.have && pool.cur <= pool.end && Fits(es, pool)
    ensures var free, want := FreeCount(pool.cur, pool.end, pool.used), |ListedOf(es)|;
      |Granted(es, pool)| == if want <= free || pool.end == TWO32 - 1 then want else free
  {
    hide Granted, FreeCount, ListedOf;
    if pool.end < TWO32 - 1 {
      GrantsGoUp(es, pool);
    } else {
      TopNeverEnds(es, pool);
    }
  }

  // ---- the white list of a configuration ----

  function FirstUsable(servers: seq<DhcpServer>): Option<DhcpServer> {
    if servers == [] then None
    else if UsablePool(servers[0]) then Some(servers[0])
    else FirstUsable(servers[1..])
  }

  function PoolOf(p: DhcpServer, used: set<string>): Alloc
    requires UsablePool(p)
  {
    Alloc(true, ParseIp(p.ipStart).value, ParseIp(p.ipEnd).value, used)
  }

  lemma {:induction false} InitialAllocIs(servers: seq<DhcpServer>, used: set<string>)
    ensures match FirstUsable(servers) {
        case None => InitialAlloc(servers, used) == Alloc(false, 0, 0, used)
        case Some(p) =>
          UsablePool(p) && InitialAlloc(servers, used) == PoolOf(p, used) && PoolOf(p, used).cur <= PoolOf(p, used).end
      }
  {
    hide ParseIp;
    if servers != [] && !UsablePool(servers[0]) {
      InitialAllocIs(servers[1..], used);
    }
  }

  /** The addresses that a configuration hands out. */
  function Grants(st: Dhcp): seq<u32> {
    Granted(st.acl.entries, InitialAlloc(st.servers, UsedIps(st)))
  }

  /** The white list as a whole: the first entries get an address each, no two the same
      and none of them taken; a MAC is left without one only when none is free; and the
      addresses are those of the first usable pool, unless that ends at the last address
      of all, does not begin with the first, and has too few. */
  lemma AllocationIsSound(st: Dhcp, p: DhcpServer)
    requires st.acl.mode == ACL_WHITELIST && FirstUsable(st.servers) == Some(p) && UsablePool(p)
    requires Fits(st.acl.entries, PoolOf(p, UsedIps(st)))
    ensures var pool, us, ls, ws := PoolOf(p, UsedIps(st)), Grants(st), ListedOf(st.acl.entries), AclWrites(st);
      (|ws| == |us| <= |ls| && forall k :: 0 <= k < |us| ==> ws[k] == GrantWrite(ls[k], us[k]))
      && NoRepeats(us)
      && (forall u :: u in us ==> FreeAddress(st, u))
      && (var free := FreeCount(pool.cur, pool.end, pool.used);
          |us| == if |ls| <= free || pool.end == TWO32 - 1 then |ls| else free)
      && ((forall u :: u in us ==> pool.cur <= u <= pool.end) <==>
          pool.end < TWO32 - 1 || pool.cur == 0 || |ls| <= FreeCount(pool.cur, pool.end, pool.used))
  {
    hide ParseIp, Render, Scan, FreeCount, ListedOf, UsedIps, FreeAddress, Expanded, AllowWrites, Granted, UsablePool, GrantWrite, NoRepeats;
    var pool := PoolOf(p, UsedIps(st));
    InitialAllocIs(st.servers, UsedIps(st));
    WritesGranted(st.acl.entries, pool);
    GrantsAreFree(st.acl.entries, pool);
    GrantsCounted(st.acl.entries, pool);
    GrantsStayInPool(st.acl.entries, pool);
    forall u | u in Grants(st) ensures FreeAddress(st, u) {
      UsedExactly(st, u);
    }
  }

  // ---- what counts as taken ----

  /** Somebody's address. */
  predicate Reserves(l: StaticLease, u: u32) {
    l.enabled && l.managed && ParseIp(l.ip) == Some(u)
  }

  /** A text without white space around it and without colons. */
  predicate PlainText(s: string) {
    Trimmed(s) && ':' !in s
  }

  /** A reservation counts only as the router itself would write it. */
  lemma SpelledPlainly(l: StaticLease, u: u32)
    requires ParseIp(l.ip) == Some(u)
    ensures l.ip == Render(u) <==> PlainText(l.ip)
  {
    hide Render, ParseIp, TrimSpace, Trimmed;
    ParseRender(l.ip, u);
    RenderTrimmed(u);
    RenderLacks(u, ':');
    TrimmedIsFixed(l.ip);
  }

  /** Nobody else's address: reserved at most by a text with blanks around it or with
      colons, and in no expanded exclude list. */
  ghost predicate FreeAddress(st: Dhcp, u: u32) {
    && (forall l :: l in st.statics && Reserves(l, u) ==> !PlainText(l.ip))
    && (forall s :: s in st.servers ==> Render(u) !in Expanded(s.exclude))
  }

  lemma UsedExactly(st: Dhcp, u: u32)
    ensures Render(u) !in UsedIps(st) <==> FreeAddress(st, u)
    ensures forall s :: s in st.servers && EndsEarly(s.exclude) && TotalSize(s.exclude) <= EXCLUDE_CAP ==>
      (Render(u) in Expanded(s.exclude) <==> Excludes(s.exclude, u))
  {
    hide Render, ParseIp, Expanded, PlainText, EndsEarly, TotalSize, Excludes;
    RenderNonEmpty(u);
    ParseOfRender(u);
    forall l | l in st.statics && Reserves(l, u) ensures l.ip == Render(u) <==> PlainText(l.ip) {
      SpelledPlainly(l, u);
    }
    if Render(u) in ReservedIps(st.statics) {
      var l :| l in st.statics && l.enabled && l.managed && l.ip == Render(u);
      assert Reserves(l, u);
    }
    if l :| l in st.statics && Reserves(l, u) && PlainText(l.ip) {
      assert Render(u) in ReservedIps(st.statics);
    }
    forall s | s in st.servers && EndsEarly(s.exclude) && TotalSize(s.exclude) <= EXCLUDE_CAP
      ensures Render(u) in Expanded(s.exclude) <==> Excludes(s.exclude, u)
    {
      ExpandedIsUnion(s.exclude, u);
    }
  }

  /** The white list comes to the address before it is at its end. */
  ghost predicate ListComesTo(st: Dhcp, p: DhcpServer, u: u32)
    requires UsablePool(p)
  {
    var pool := PoolOf(p, UsedIps(st));
    InReach(pool, u) && FreeBefore(pool, u) < |ListedOf(st.acl.entries)|
  }

  /** What is handed out: the free addresses that the list comes to. */
  lemma PoolGrants(st: Dhcp, p: DhcpServer, u: u32)
    requires FirstUsable(st.servers) == Some(p) && UsablePool(p)
    ensures u in Grants(st) <==> FreeAddress(st, u) && ListComesTo(st, p, u)
  {
    hide ParseIp, Render, FreeBefore, InReach, ListedOf, UsedIps, FreeAddress, Granted, UsablePool;
    InitialAllocIs(st.servers, UsedIps(st));
    GrantedWhen(st.acl.entries, PoolOf(p, UsedIps(st)), u);
    UsedExactly(st, u);
  }

  /** A reserved address is handed out once more exactly if no reservation of it is
      written as the router would, no pool excludes it, and the list comes to it. */
  lemma ReservedAndGranted(st: Dhcp, p: DhcpServer, l: StaticLease, u: u32)
    requires FirstUsable(st.servers) == Some(p) && UsablePool(p) && l in st.statics && Reserves(l, u)
    ensures u in Grants(st) <==>
      (forall m :: m in st.statics && Reserves(m, u) ==> !PlainText(m.ip))
      && (forall s :: s in st.servers ==> Render(u) !in Expanded(s.exclude))
      && ListComesTo(st, p, u)
    ensures PlainText(l.ip) ==> u !in Grants(st)
  {
    hide ParseIp, Render, UsedIps, Granted, UsablePool, Expanded, PlainText, ListComesTo;
    PoolGrants(st, p, u);
  }

  /** Some reserved address is handed out exactly if there is a reservation of an
      address that no reservation writes as the router would, that no pool excludes,
      and that the list comes to. */
  lemma ReservationsRespected(st: Dhcp, p: DhcpServer)
    requires FirstUsable(st.servers) == Some(p) && UsablePool(p)
    ensures (exists l, u :: l in st.statics && Reserves(l, u) && u in Grants(st)) <==>
      (exists l, u :: l in st.statics && Reserves(l, u) && FreeAddress(st, u) && ListComesTo(st, p, u))
  {
    hide Reserves, Grants, UsablePool, FreeAddress, ListComesTo;
    forall u ensures u in Grants(st) <==> FreeAddress(st, u) && ListComesTo(st, p, u) {
      PoolGrants(st, p, u);
    }
  }

  // ---- inputs that show the failures ----

  /** A pool of one address, reserved in a text that is not the router's: a listed MAC
      gets it too. */
  lemma OddReservationIsGranted(st: Dhcp, p: DhcpServer, l: StaticLease, e: AclEntry, u: u32)
    requires st.acl.mode == ACL_WHITELIST && st.acl.entries == [e] && Listed(e)
    requires st.servers == [p] && p.enabled && p.managed && p.ipStart == Render(u) && p.ipEnd == Render(u) && p.exclude == []
    requires st.statics == [l] && Reserves(l, u) && !PlainText(l.ip)
    ensures AclWrites(st) == [GrantWrite(e, u)]
  {
    hide Render, ParseIp, UsedIps, FreeCount, Granted, PlainText, AllowWrites;
    ParseOfRender(u);
    assert UsablePool(p);
    assert [p][1..] == [];
    WritesGranted([e], PoolOf(p, UsedIps(st)));
    OnlyListed(e);
    FreeStep(u, u - 1, UsedIps(st));
    PoolGrants(st, p, u);
  }

  /** Two such texts: with a blank behind the address, and in the notation with colons. */
  lemma OddTexts(l: StaticLease, u: u32)
    requires l.enabled && l.managed && (l.ip == Render(u) + " " || l.ip == MappedText(u))
    ensures Reserves(l, u) && !PlainText(l.ip)
  {
    hide Render, ParseIp, TrimSpace;
    if l.ip == MappedText(u) {
      ParseMapped(u);
      MappedTrimmed(u);
    } else {
      RenderNonEmpty(u);
      RenderTrimmed(u);
      TrailingBlank(Render(u));
      ParseWhenRendered(l.ip, u);
    }
  }

  /** A pool of the last address alone, with two clients: the second gets the first
      address of all. */
  lemma LastAddressWraps(e: AclEntry)
    requires Listed(e)
    ensures 0 in Granted([e, e], Alloc(true, TWO32 - 1, TWO32 - 1, {}))
  {
    hide Render, Granted;
    var pool := Alloc(true, TWO32 - 1, TWO32 - 1, {});
    assert [e, e][1..] == [e];
    OnlyListed(e);
    FreeStep(TWO32 - 1, TWO32 - 1, {});
    NoneAbove(TWO32 - 1, {});
    FreeStep(0, -1, {});
    GrantedWhen([e, e], pool, 0);
  }

  lemma OnlyListed(e: AclEntry)
    requires Listed(e)
    ensures ListedOf([e]) == [e]
  {
  }

  lemma TrailingBlank(s: string)
    requires s != "" && TrimSpace(s) == s
    ensures TrimSpace(s + " ") == s
  {
    TrimmedIsFixed(s);
    assert TrimLeft(s + " ") == s + " ";
    assert (s + " ")[..|s|] == s;
  }

  /** Without a usable pool nobody is served. */
  lemma NoPoolNoGrant(st: Dhcp)
    requires st.acl.mode == ACL_WHITELIST && FirstUsable(st.servers).None?
    ensures AclWrites(st) == []
  {
    hide UsedIps;
    InitialAllocIs(st.servers, UsedIps(st));
    NothingGranted(st.acl.entries, UsedIps(st));
  }

  lemma {:induction false} NothingGranted(es: seq<AclEntry>, used: set<string>)
    ensures AllowWrites(es, Alloc(false, 0, 0, used)) == []
  {
    if es != [] {
      NothingGranted(es[1..], used);
    }
  }
}
