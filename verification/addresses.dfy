/** Excluded addresses and the addresses that a white list hands out. The loops
    count in 32-bit unsigned integers, so an increment past 255.255.255.255
    wraps around to 0.0.0.0. */
module Addresses {
  import opened Text
  import opened NetUtil
  import opened Numbers

  // ---- excluded ranges ----

  datatype Range = Range(lo: u32, hi: u32)

  /** One exclude line: "ip" or "ip-ip". */
  function ParseExcludeLine(line: string): (r: Option<Range>)
    ensures r.Some? ==> r.value.lo <= r.value.hi
  {
    var t := TrimSpace(line);
    var i := IndexOf(t, '-');
    if t == "" then None
    else if i < |t| then
      var a, b := ParseIp(TrimSpace(t[..i])), ParseIp(TrimSpace(t[i + 1..]));
      if a.Some? && b.Some? && a.value <= b.value then Some(Range(a.value, b.value)) else None
    else if ParseIp(t).Some? then Some(Range(ParseIp(t).value, ParseIp(t).value))
    else None
  }

  lemma RenderLine(a: string)
    requires a != "" && Trimmed(a) && '-' !in a
    ensures TrimSpace(a) == a && IndexOf(a, '-') == |a|
  {
    TrimmedIsFixed(a);
    IndexOfNone(a, '-');
  }

  /** A line is one address or two with a dash between them, the lower one first. */
  lemma ExcludeLineReads(a: string, b: string)
    requires a != "" && b != "" && Trimmed(a) && Trimmed(b) && '-' !in a
    ensures ParseExcludeLine(a) == if ParseIp(a).Some? then Some(Range(ParseIp(a).value, ParseIp(a).value)) else None
    ensures ParseExcludeLine(a + "-" + b) ==
      if ParseIp(a).Some? && ParseIp(b).Some? && ParseIp(a).value <= ParseIp(b).value
      then Some(Range(ParseIp(a).value, ParseIp(b).value)) else None
  {
    hide ParseIp, TrimSpace, IndexOf;
    RenderLine(a);
    TrimmedIsFixed(b);
    TrimmedIsFixed(a + "-" + b);
    IndexOfHead(a, '-', b);
    var t := a + ['-'] + b;
    assert t == a + "-" + b && t[..|a|] == a && t[|a| + 1..] == b;
  }

  const EXCLUDE_CAP := 1024

  /** `for u := lo; u <= hi && room > 0; u++` */
  function Walk(u: u32, hi: u32, room: nat): (us: seq<u32>)
    ensures |us| <= room
    decreases room
  {
    if room == 0 || u > hi then [] else [u] + Walk(ToU32(u + 1), hi, room - 1)
  }

  function RenderAll(us: seq<u32>): (ss: seq<string>)
    ensures |ss| == |us|
    ensures forall k :: 0 <= k < |us| ==> ss[k] == Render(us[k])
  {
    if us == [] then [] else [Render(us[0])] + RenderAll(us[1..])
  }

  /** The excluded addresses of all lines together, at most EXCLUDE_CAP of them. */
  function Expanded(lines: seq<string>): (out: seq<string>)
    ensures |out| <= EXCLUDE_CAP
  {
    if lines == [] then []
    else
      var out := Expanded(lines[..|lines| - 1]);
      match ParseExcludeLine(lines[|lines| - 1])
      case None => out
      case Some(r) => out + RenderAll(Walk(r.lo, r.hi, EXCLUDE_CAP - |out|))
  }

  method ExpandExclude(lines: seq<string>) returns (out: seq<string>)
    ensures out == Expanded(lines)
  {
    hide Render, ParseExcludeLine, Walk, RenderAll;
    out := [];
    for i := 0 to |lines|
      invariant out == Expanded(lines[..i])
    {
      assert lines[..i + 1][..i] == lines[..i];
      var r := ParseExcludeLine(lines[i]);
      if r.Some? {
        out := ExpandRange(out, r.value.lo, r.value.hi);
      }
    }
    assert lines[..|lines|] == lines;
  }

  lemma WalkDrop(us: seq<u32>, k: nat, u: u32, hi: u32, room: nat)
    requires k <= |us| && us[k..] == Walk(u, hi, room)
    ensures room == 0 || u > hi ==> k == |us|
    ensures room > 0 && u <= hi ==> k < |us| && us[k] == u && us[k + 1..] == Walk(ToU32(u + 1), hi, room - 1)
  {
    if room > 0 && u <= hi {
      assert us[k..][0] == us[k];
      assert us[k..][1..] == us[k + 1..];
    }
  }

  /** The inner loop over one range. */
  method ExpandRange(before: seq<string>, lo: u32, hi: u32) returns (out: seq<string>)
    requires |before| <= EXCLUDE_CAP
    ensures out == before + RenderAll(Walk(lo, hi, EXCLUDE_CAP - |before|))
  {
    hide Render, Walk, RenderAll;
    out := before;
    ghost var us := Walk(lo, hi, EXCLUDE_CAP - |before|);
    ghost var ss := RenderAll(us);
    var u: u32 := lo;
    ghost var k := 0;
    while u <= hi && |out| < EXCLUDE_CAP
      invariant 0 <= k <= |us| && |out| == |before| + k <= EXCLUDE_CAP
      invariant us[k..] == Walk(u, hi, EXCLUDE_CAP - |out|)
      invariant out == before + ss[..k]
      decreases EXCLUDE_CAP - |out|
    {
      WalkDrop(us, k, u, hi, EXCLUDE_CAP - |out|);
      out := out + [Render(u)];
      assert ss[..k + 1] == ss[..k] + [ss[k]];
      u := ToU32(u + 1);
      k := k + 1;
    }
    WalkDrop(us, k, u, hi, EXCLUDE_CAP - |out|);
    assert ss[..k] == ss;
  }

  /** A walk that cannot wrap lists the range in order, cut off at the room left. */
  lemma {:induction false} WalkExact(u: u32, hi: u32, room: nat)
    requires u <= hi + 1
    requires hi < TWO32 - 1 || room <= TWO32 - u
    ensures var n := if room <= hi + 1 - u then room else hi + 1 - u;
      |Walk(u, hi, room)| == n && forall k :: 0 <= k < n ==> Walk(u, hi, room)[k] == u + k
    decreases room
  {
    if room > 0 && u <= hi && u + 1 < TWO32 {
      WalkExact(u + 1, hi, room - 1);
    }
  }

  /** A walk stays inside its range exactly when the range ends before the last
      address or the room runs out before the counter wraps. */
  lemma WalkStaysInside(lo: u32, hi: u32, room: nat)
    requires lo <= hi
    ensures (forall u :: u in Walk(lo, hi, room) ==> lo <= u <= hi) <==>
      (hi < TWO32 - 1 || room <= TWO32 - lo || lo == 0)
  {
    if hi < TWO32 - 1 || room <= TWO32 - lo {
      WalkExact(lo, hi, room);
    } else if lo > 0 {
      WalkReaches(lo, room);
    }
  }

  lemma {:induction false} WalkReaches(lo: u32, room: nat)
    requires room > TWO32 - lo || (lo == 0 && room > 0)
    ensures 0 in Walk(lo, TWO32 - 1, room)
    decreases room
  {
    if 0 < lo < TWO32 - 1 {
      WalkReaches(lo + 1, room - 1);
    } else if lo > 0 {
      assert Walk(0, TWO32 - 1, room - 1)[0] == 0;
    }
  }

  /** Excluding 255.255.255.254-255.255.255.255 also excludes 0.0.0.0. */
  lemma WalkWrapsExample(room: nat)
    requires room >= 3
    ensures [TWO32 - 2, TWO32 - 1, 0] <= Walk(TWO32 - 2, TWO32 - 1, room)
  {
    var after := Walk(0, TWO32 - 1, room - 2);
    assert after[0] == 0;
    assert Walk(TWO32 - 1, TWO32 - 1, room - 1) == [TWO32 - 1] + after;
  }

  function LineSize(line: string): nat {
    match ParseExcludeLine(line)
    case None => 0
    case Some(r) => r.hi - r.lo + 1
  }

  function TotalSize(lines: seq<string>): nat {
    if lines == [] then 0 else TotalSize(lines[..|lines| - 1]) + LineSize(lines[|lines| - 1])
  }

  ghost predicate Excludes(lines: seq<string>, u: u32) {
    exists l :: l in lines && ParseExcludeLine(l).Some? && ParseExcludeLine(l).value.lo <= u <= ParseExcludeLine(l).value.hi
  }

  ghost predicate EndsEarly(lines: seq<string>) {
    forall l :: l in lines && ParseExcludeLine(l).Some? ==> ParseExcludeLine(l).value.hi < TWO32 - 1
  }

  /** Below the cap and away from the last address, the expansion is exactly the
      union of the lines' ranges. */
  lemma {:induction false} ExpandedIsUnion(lines: seq<string>, u: u32)
    requires EndsEarly(lines) && TotalSize(lines) <= EXCLUDE_CAP
    ensures |Expanded(lines)| == TotalSize(lines)
    ensures Render(u) in Expanded(lines) <==> Excludes(lines, u)
  {
    hide Render, ParseExcludeLine, RenderAll, Walk, EndsEarly, Excludes;
    if lines == [] {
      NothingExcluded(u);
    } else {
      var init, l := lines[..|lines| - 1], lines[|lines| - 1];
      ExcludesSnoc(init, l, u);
      assert lines == init + [l];
      ExpandedIsUnion(init, u);
      if ParseExcludeLine(l).Some? {
        var r := ParseExcludeLine(l).value;
        RangeExpanded(r.lo, r.hi, EXCLUDE_CAP - |Expanded(init)|, u);
      }
    }
  }

  lemma NothingExcluded(u: u32)
    ensures !Excludes([], u)
  {
  }

  lemma ExcludesSnoc(init: seq<string>, l: string, u: u32)
    ensures Excludes(init + [l], u) <==>
      Excludes(init, u) || (ParseExcludeLine(l).Some? && ParseExcludeLine(l).value.lo <= u <= ParseExcludeLine(l).value.hi)
    ensures EndsEarly(init + [l]) ==> EndsEarly(init) && (ParseExcludeLine(l).Some? ==> ParseExcludeLine(l).value.hi < TWO32 - 1)
  {
    hide ParseExcludeLine;
    assert forall x :: x in init + [l] <==> x in init || x == l;
  }

  lemma RangeExpanded(lo: u32, hi: u32, room: nat, u: u32)
    requires lo <= hi < TWO32 - 1 && hi - lo < room
    ensures |RenderAll(Walk(lo, hi, room))| == hi - lo + 1
    ensures Render(u) in RenderAll(Walk(lo, hi, room)) <==> lo <= u <= hi
  {
    hide Render;
    var w := Walk(lo, hi, room);
    WalkExact(lo, hi, room);
    RenderedMember(w, u);
    if lo <= u <= hi {
      assert w[u - lo] == u;
    }
  }

  lemma RenderedMember(us: seq<u32>, u: u32)
    ensures Render(u) in RenderAll(us) <==> u in us
  {
    if Render(u) in RenderAll(us) {
      var k :| 0 <= k < |us| && RenderAll(us)[k] == Render(u);
      RenderInjective(us[k], u);
    }
    if u in us {
      var k :| 0 <= k < |us| && us[k] == u;
      assert RenderAll(us)[k] == Render(u);
    }
  }

  // ---- the white list allocator ----

  /** `for cur <= end { ip := cur; cur++; if !used[ip] { return ip } }`, stopped
      after `steps` rounds. */
  function Scan(cur: u32, end: u32, used: set<string>, steps: nat): (r: (Option<u32>, u32))
    decreases steps
  {
    if steps == 0 || cur > end then (None, cur)
    else if Render(cur) in used then Scan(ToU32(cur + 1), end, used, steps - 1)
    else (Some(cur), ToU32(cur + 1))
  }

  lemma ScanStep(cur: u32, end: u32, used: set<string>, steps: nat)
    ensures steps == 0 || cur > end ==> Scan(cur, end, used, steps) == (None, cur)
    ensures steps > 0 && cur <= end && Render(cur) in used ==>
      Scan(cur, end, used, steps) == Scan(ToU32(cur + 1), end, used, steps - 1)
    ensures steps > 0 && cur <= end && Render(cur) !in used ==>
      Scan(cur, end, used, steps) == (Some(cur), ToU32(cur + 1))
  {
    hide Render;
  }

  datatype Alloc = Alloc(have: bool, cur: u32, end: u32, used: set<string>) {
    /** The next free address, if any, and the allocator afterwards. */
    function Next(): (Option<u32>, Alloc) {
      if !have then (None, this)
      else
        var (ip, cur') := Scan(cur, end, used, TWO32);
        (ip, Alloc(have, cur', end, if ip.Some? then used + {Render(ip.value)} else used))
    }
  }

  /** One of the next `steps` addresses is in the range and free. */
  ghost predicate SomeFreeIn(cur: nat, end: u32, used: set<string>, steps: nat) {
    exists f: u32 :: cur <= f && f <= end && f < cur + steps && Render(f) !in used
  }

  /** The addresses from lo to before hi are used. */
  ghost predicate AllUsed(lo: nat, hi: nat, used: set<string>) {
    forall u: u32 :: lo <= u < hi ==> Render(u) in used
  }

  lemma AllUsedCons(lo: u32, hi: nat, used: set<string>)
    requires Render(lo) in used && AllUsed(lo + 1, hi, used)
    ensures AllUsed(lo, hi, used)
  {
    hide Render;
  }

  lemma NoneUsed(lo: nat, used: set<string>)
    ensures AllUsed(lo, lo, used)
  {
  }

  /** The scan finds the least free address of cur..end; when there is none it ends, if
      the range does not reach the last address. */
  lemma {:induction false} ScanFindsLeast(cur: u32, end: u32, used: set<string>, steps: nat)
    requires cur <= end + 1
    requires (end < TWO32 - 1 && steps >= end + 1 - cur) || SomeFreeIn(cur, end, used, steps)
    ensures var (ip, cur') := Scan(cur, end, used, steps);
      match ip {
        case None => cur' == end + 1 && AllUsed(cur, end + 1, used)
        case Some(a) => cur <= a <= end && cur' == ToU32(a + 1) && Render(a) !in used && AllUsed(cur, a, used)
      }
    decreases steps
  {
    hide Render, AllUsed, Scan;
    ScanStep(cur, end, used, steps);
    NoneUsed(cur, used);
    if steps > 0 && cur <= end && Render(cur) in used {
      ScanFindsLeast(cur + 1, end, used, steps - 1);
      var ip := Scan(cur + 1, end, used, steps - 1).0;
      AllUsedCons(cur, if ip.Some? then ip.value else end + 1, used);
    }
  }

  /** From a used-up end of the address space the scan goes on at the first address. */
  lemma {:induction false} ScanWraps(cur: u32, used: set<string>, steps: nat)
    requires AllUsed(cur, TWO32, used) && steps >= TWO32 - cur
    ensures Scan(cur, TWO32 - 1, used, steps) == Scan(0, TWO32 - 1, used, steps - (TWO32 - cur))
    decreases steps
  {
    hide Render, Scan;
    ScanStep(cur, TWO32 - 1, used, steps);
    if cur < TWO32 - 1 {
      ScanWraps(cur + 1, used, steps - 1);
    }
  }

  /** Whatever is found is free and not past the end, wrapped round or not. */
  lemma {:induction false} ScanFindsFree(cur: u32, end: u32, used: set<string>, steps: nat)
    ensures var ip := Scan(cur, end, used, steps).0;
      ip.Some? ==> ip.value <= end && Render(ip.value) !in used
    decreases steps
  {
    hide Render;
    if steps > 0 && cur <= end && Render(cur) in used {
      ScanFindsFree(ToU32(cur + 1), end, used, steps - 1);
    }
  }

  /** Up to the last address the scan goes round until it meets a free one. */
  lemma {:induction false} ScanGoesRound(cur: u32, used: set<string>, f: u32, steps: nat)
    requires Render(f) !in used && steps > Distance(cur, f)
    ensures Scan(cur, TWO32 - 1, used, steps).0.Some?
    decreases steps
  {
    hide Render;
    if Render(cur) in used {
      assert cur != f;
      ScanGoesRound(ToU32(cur + 1), used, f, steps - 1);
    }
  }

  /** Some address is free as long as fewer than 2^32 are used. */
  lemma SomeFree(used: set<string>)
    requires |used| < TWO32
    ensures exists f: u32 :: Render(f) !in used
  {
    hide Render;
    if forall f: u32 :: Render(f) in used {
      forall s | s in AllBelow(TWO32) ensures s in used {
        AllBelowMember(TWO32, s);
      }
      AllBelowSize(TWO32);
      SubsetSize(AllBelow(TWO32), used);
    }
  }

  ghost function AllBelow(n: nat): set<string>
    requires n <= TWO32
  {
    if n == 0 then {} else AllBelow(n - 1) + {Render(n - 1)}
  }

  lemma {:induction false} AllBelowMember(n: nat, s: string)
    requires n <= TWO32
    ensures s in AllBelow(n) <==> exists f: u32 :: f < n && s == Render(f)
  {
    hide Render;
    if n > 0 {
      AllBelowMember(n - 1, s);
    }
  }

  lemma {:induction false} AllBelowSize(n: nat)
    requires n <= TWO32
    ensures |AllBelow(n)| == n
  {
    hide Render;
    if n > 0 {
      AllBelowSize(n - 1);
      if Render(n - 1) in AllBelow(n - 1) {
        AllBelowMember(n - 1, Render(n - 1));
        var f: u32 :| f < n - 1 && Render(n - 1) == Render(f);
        RenderInjective(f, n - 1);
      }
    }
  }

  /** How far ahead of `cur` the address f lies, going round. */
  function Distance(cur: u32, f: u32): nat {
    if f >= cur then f - cur else f + TWO32 - cur
  }

  /** The closure that hands out addresses. */
  class Allocator {
    var have: bool
    var cur: u32
    var end: u32
    var used: set<string>

    ghost function State(): Alloc reads this {
      Alloc(have, cur, end, used)
    }

    constructor (have: bool, cur: u32, end: u32, used: set<string>)
      ensures State() == Alloc(have, cur, end, used)
    {
      this.have := have;
      this.cur := cur;
      this.end := end;
      this.used := used;
    }

    method Next() returns (ip: string)
      requires |used| < TWO32
      modifies this
      ensures State() == old(State()).Next().1
      ensures ip == (match old(State()).Next().0 case None => "" case Some(u) => Render(u))
      ensures |used| <= |old(used)| + 1
    {
      hide Render, Scan;
      if !have {
        return "";
      }
      ghost var start := cur;
      SomeFree(used);
      ghost var f: u32 :| Render(f) !in used;
      ghost var steps: nat := 0;
      while cur <= end
        invariant steps + Distance(cur, f) == Distance(start, f)
        invariant used == old(used) && end == old(end) && have
        invariant Scan(start, end, used, TWO32) == Scan(cur, end, used, TWO32 - steps)
        decreases Distance(cur, f)
      {
        ip := Render(cur);
        ghost var c := cur;
        ScanStep(cur, end, used, TWO32 - steps);
        cur := ToU32(cur + 1);
        if ip !in used {
          used := used + {ip};
          return;
        }
        assert c != f;
        steps := steps + 1;
      }
      ScanStep(cur, end, used, TWO32 - steps);
      ip := "";
    }
  }
}
