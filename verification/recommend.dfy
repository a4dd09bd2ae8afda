/** Which speed test nodes are ticked by default: the nearest one of each big carrier,
    then the quickest of the home country, then the quickest of the rest. */
module Recommend {
  import opened Text

  datatype Server = Server(id: string, name: string, sponsor: string, distance: real, ping: real, reachable: bool, recommended: bool)

  // ---- carriers and countries ----

  function Lower(s: string): string {
    if s == "" then ""
    else [if 'A' <= s[0] <= 'Z' then (s[0] as int + 32) as char else s[0]] + Lower(s[1..])
  }

  predicate Contains(s: string, p: string) {
    exists i :: 0 <= i <= |s| && HasPrefix(s[i..], p)
  }

  /** The carrier a sponsor belongs to. Chinese names are matched as they are written. */
  function Carrier(sponsor: string): string {
    var s := Lower(sponsor);
    if Contains(s, "unicom") || Contains(sponsor, "\U{8054}\U{901A}") then "unicom"
    else if Contains(s, "telecom") || Contains(sponsor, "\U{7535}\U{4FE1}") then "telecom"
    else if Contains(s, "mobile") || Contains(s, "cmcc") || Contains(sponsor, "\U{79FB}\U{52A8}") then "mobile"
    else "other:" + s
  }

  const CARRIERS: seq<string> := ["unicom", "telecom", "mobile"]

  function LastOf(s: string, c: char): (j: int)
    ensures -1 <= j < |s|
  {
    if s == "" then -1
    else if s[|s| - 1] == c then |s| - 1
    else LastOf(s[..|s| - 1], c)
  }

  /** What stands in the last parentheses of a node's name. */
  function Country(name: string): string {
    var l, r := LastOf(name, '('), LastOf(name, ')');
    if l >= 0 && r > l then TrimSpace(name[l + 1..r]) else ""
  }

  /** The letter, in either case. */
  predicate SameLetter(c: char, small: char) {
    c == small || ('a' <= small <= 'z' && c as int == small as int - 32)
  }

  /** The word stands in the text, in whatever case. */
  ghost predicate Mentions(s: string, word: string) {
    exists i :: MentionsAt(s, word, i)
  }

  predicate MentionsAt(s: string, word: string, i: int) {
    0 <= i <= |s| - |word| && forall k :: 0 <= k < |word| ==> SameLetter(s[i + k], word[k])
  }

  lemma {:induction false} LowerIs(s: string)
    ensures |Lower(s)| == |s|
    ensures forall k :: 0 <= k < |s| ==>
      Lower(s)[k] == if 'A' <= s[k] <= 'Z' then (s[k] as int + 32) as char else s[k]
  {
    if s != "" {
      LowerIs(s[1..]);
      forall k | 0 <= k < |s|
        ensures Lower(s)[k] == if 'A' <= s[k] <= 'Z' then (s[k] as int + 32) as char else s[k]
      {
        assert k > 0 ==> Lower(s)[k] == Lower(s[1..])[k - 1] && s[k] == s[1..][k - 1];
      }
    }
  }

  /** Words of small letters. */
  predicate Small(word: string) {
    forall c :: c in word ==> 'a' <= c <= 'z'
  }

  lemma MentionsIs(s: string, word: string)
    requires Small(word)
    ensures Contains(Lower(s), word) <==> Mentions(s, word)
  {
    hide Lower;
    LowerIs(s);
    var low := Lower(s);
    forall i | 0 <= i <= |s| ensures HasPrefix(low[i..], word) <==> MentionsAt(s, word, i) {
      if HasPrefix(low[i..], word) {
        forall k | 0 <= k < |word| ensures SameLetter(s[i + k], word[k]) {
          assert word[k] == low[i..][..|word|][k] == low[i + k];
        }
      }
      if MentionsAt(s, word, i) {
        forall k | 0 <= k < |word| ensures low[i..][k] == word[k] {
          assert word[k] in word && SameLetter(s[i + k], word[k]);
        }
        assert low[i..][..|word|] == word;
      }
    }
  }

  lemma ContainsIs(s: string, p: string)
    ensures Contains(s, p) <==> exists a, b :: s == a + p + b
  {
    if Contains(s, p) {
      var i :| 0 <= i <= |s| && HasPrefix(s[i..], p);
      assert s == s[..i] + p + s[i..][|p|..];
    }
    if a, b :| s == a + p + b {
      assert s[|a|..] == p + b && HasPrefix(s[|a|..], p);
    }
  }

  lemma SmallWords()
    ensures Small("unicom") && Small("telecom") && Small("mobile") && Small("cmcc")
  {
  }

  /** Which carrier a sponsor is taken for, by the words in its name, the first of the
      three that fits. */
  lemma CarrierIs(sponsor: string)
    ensures var u := Mentions(sponsor, "unicom") || exists a, b :: sponsor == a + "\U{8054}\U{901A}" + b;
      Carrier(sponsor) == "unicom" <==> u
    ensures var u := Mentions(sponsor, "unicom") || exists a, b :: sponsor == a + "\U{8054}\U{901A}" + b;
      var t := Mentions(sponsor, "telecom") || exists a, b :: sponsor == a + "\U{7535}\U{4FE1}" + b;
      Carrier(sponsor) == "telecom" <==> t && !u
    ensures var u := Mentions(sponsor, "unicom") || exists a, b :: sponsor == a + "\U{8054}\U{901A}" + b;
      var t := Mentions(sponsor, "telecom") || exists a, b :: sponsor == a + "\U{7535}\U{4FE1}" + b;
      var m := Mentions(sponsor, "mobile") || Mentions(sponsor, "cmcc") || exists a, b :: sponsor == a + "\U{79FB}\U{52A8}" + b;
      Carrier(sponsor) == "mobile" <==> m && !t && !u
  {
    hide Lower, Contains, Mentions;
    SmallWords();
    MentionsIs(sponsor, "unicom");
    MentionsIs(sponsor, "telecom");
    MentionsIs(sponsor, "mobile");
    MentionsIs(sponsor, "cmcc");
    ContainsIs(sponsor, "\U{8054}\U{901A}");
    ContainsIs(sponsor, "\U{7535}\U{4FE1}");
    ContainsIs(sponsor, "\U{79FB}\U{52A8}");
    assert ("other:" + Lower(sponsor))[0] == 'o';
  }

  /** Where the last parentheses are. */
  predicate LastParentheses(name: string, l: int, r: int) {
    0 <= l < r < |name| && name[l] == '(' && name[r] == ')'
    && (forall k :: l < k < |name| ==> name[k] != '(') && (forall k :: r < k < |name| ==> name[k] != ')')
  }

  lemma {:induction false} LastOfIs(s: string, c: char)
    ensures LastOf(s, c) >= 0 ==> s[LastOf(s, c)] == c
    ensures forall k :: LastOf(s, c) < k < |s| ==> s[k] != c
  {
    if s != "" && s[|s| - 1] != c {
      LastOfIs(s[..|s| - 1], c);
    }
  }

  /** The country is what stands between them, without blanks around it; where the last
      opening one is not closed there is none. */
  lemma CountryIs(name: string)
    ensures forall l, r :: LastParentheses(name, l, r) ==> Country(name) == TrimSpace(name[l + 1..r])
    ensures (forall l, r :: !LastParentheses(name, l, r)) ==> Country(name) == ""
  {
    hide TrimSpace;
    LastOfIs(name, '(');
    LastOfIs(name, ')');
    var l, r := LastOf(name, '('), LastOf(name, ')');
    if l >= 0 && r > l {
      assert LastParentheses(name, l, r);
    }
  }

  // ---- sorting indices ----

  /** Sorted by group, then by weight. */
  datatype Key = Key(group: nat, weight: real)

  predicate AtMost(a: Key, b: Key) {
    a.group < b.group || (a.group == b.group && a.weight <= b.weight)
  }

  ghost predicate Sorted(idx: seq<nat>, keys: seq<Key>) {
    && (forall k :: 0 <= k < |idx| ==> idx[k] < |keys|)
    && (forall j, k :: 0 <= j < k < |idx| ==> AtMost(keys[idx[j]], keys[idx[k]]))
  }

  /** Behind everything that is not greater. */
  method Slot(idx: seq<nat>, i: nat, keys: seq<Key>) returns (at: nat)
    requires Sorted(idx, keys) && i < |keys|
    ensures at <= |idx|
    ensures at > 0 ==> AtMost(keys[idx[at - 1]], keys[i])
    ensures forall k :: at <= k < |idx| ==> !AtMost(keys[idx[k]], keys[i])
  {
    hide AtMost;
    at := |idx|;
    while at > 0 && !AtMost(keys[idx[at - 1]], keys[i])
      invariant 0 <= at <= |idx|
      invariant forall k :: at <= k < |idx| ==> !AtMost(keys[idx[k]], keys[i])
    {
      at := at - 1;
    }
  }

  /** idx with i put at position at. */
  function Inserted(idx: seq<nat>, i: nat, at: nat): seq<nat>
    requires at <= |idx|
  {
    idx[..at] + [i] + idx[at..]
  }

  lemma InsertedElements(idx: seq<nat>, i: nat, at: nat)
    requires at <= |idx|
    ensures multiset(Inserted(idx, i, at)) == multiset(idx) + multiset{i}
  {
    assert idx == idx[..at] + idx[at..];
  }

  lemma InsertedAt(idx: seq<nat>, i: nat, at: nat, k: nat)
    requires at <= |idx| && k <= |idx|
    ensures |Inserted(idx, i, at)| == |idx| + 1
    ensures Inserted(idx, i, at)[k] == if k < at then idx[k] else if k == at then i else idx[k - 1]
  {
  }

  lemma InsertSorted(idx: seq<nat>, i: nat, keys: seq<Key>, at: nat)
    requires Sorted(idx, keys) && i < |keys| && at <= |idx|
    requires at > 0 ==> AtMost(keys[idx[at - 1]], keys[i])
    requires forall k :: at <= k < |idx| ==> !AtMost(keys[idx[k]], keys[i])
    ensures Sorted(Inserted(idx, i, at), keys)
  {
    hide Inserted;
    var out := Inserted(idx, i, at);
    InsertedAt(idx, i, at, 0);
    forall k | 0 <= k < |out| ensures out[k] < |keys| {
      InsertedAt(idx, i, at, k);
    }
    forall j, k | 0 <= j < k < |out| ensures AtMost(keys[out[j]], keys[out[k]]) {
      InsertedAt(idx, i, at, j);
      InsertedAt(idx, i, at, k);
      if k == at && j < at - 1 {
        assert AtMost(keys[idx[j]], keys[idx[at - 1]]);
      }
    }
  }

  method Insert(idx: seq<nat>, i: nat, keys: seq<Key>) returns (out: seq<nat>)
    requires Sorted(idx, keys) && i < |keys|
    ensures Sorted(out, keys) && multiset(out) == multiset(idx) + multiset{i}
  {
    hide Sorted, AtMost, Inserted;
    var at := Slot(idx, i, keys);
    InsertSorted(idx, i, keys, at);
    InsertedElements(idx, i, at);
    out := Inserted(idx, i, at);
  }

  method SortStable(idx: seq<nat>, keys: seq<Key>) returns (out: seq<nat>)
    requires forall k :: 0 <= k < |idx| ==> idx[k] < |keys|
    ensures Sorted(out, keys) && multiset(out) == multiset(idx)
  {
    hide Sorted;
    out := [];
    NothingSorted(keys);
    for k := 0 to |idx|
      invariant Sorted(out, keys) && multiset(out) == multiset(idx[..k])
    {
      assert idx[..k + 1] == idx[..k] + [idx[k]];
      out := Insert(out, idx[k], keys);
    }
    assert idx[..|idx|] == idx;
  }

  lemma NothingSorted(keys: seq<Key>)
    ensures Sorted([], keys)
  {
  }

  // ---- picking ----

  function ReachableSet(ss: seq<Server>): set<nat> {
    set i | 0 <= i < |ss| && ss[i].reachable
  }

  /** i is a nearest reachable node of the carrier. */
  ghost predicate Nearest(ss: seq<Server>, i: nat, carrier: string) {
    && i in ReachableSet(ss) && Carrier(ss[i].sponsor) == carrier
    && forall j :: j in ReachableSet(ss) && Carrier(ss[j].sponsor) == carrier ==> ss[i].distance <= ss[j].distance
  }

  ghost predicate Served(ss: seq<Server>, carrier: string) {
    exists j :: j in ReachableSet(ss) && Carrier(ss[j].sponsor) == carrier
  }

  /** All reachable nodes, each once, nearest first. */
  ghost predicate ByDistance(ss: seq<Server>, idx: seq<nat>) {
    && (forall k :: 0 <= k < |idx| ==> idx[k] in ReachableSet(ss))
    && (forall i :: i in ReachableSet(ss) ==> i in idx)
    && (forall j, k :: 0 <= j < k < |idx| ==> idx[j] != idx[k] && ss[idx[j]].distance <= ss[idx[k]].distance)
  }

  /** The nearest unused node of one carrier, if any; the used ones are of others. */
  method PickCarrier(ss: seq<Server>, byDist: seq<nat>, used: set<nat>, carrier: string) returns (pick: Option<nat>)
    requires ByDistance(ss, byDist)
    requires forall i :: i in used ==> i < |ss| && Carrier(ss[i].sponsor) != carrier
    ensures pick.Some? <==> Served(ss, carrier)
    ensures pick.Some? ==> Nearest(ss, pick.value, carrier)
  {
    hide Carrier;
    for k := 0 to |byDist|
      invariant forall l :: 0 <= l < k ==> Carrier(ss[byDist[l]].sponsor) != carrier
    {
      assert byDist[k] in ReachableSet(ss);
      if byDist[k] !in used && Carrier(ss[byDist[k]].sponsor) == carrier {
        forall j | j in ReachableSet(ss) && Carrier(ss[j].sponsor) == carrier ensures ss[byDist[k]].distance <= ss[j].distance {
          var l :| 0 <= l < |byDist| && byDist[l] == j;
        }
        return Some(byDist[k]);
      }
    }
    pick := None;
  }

  ghost predicate PickedFor(ss: seq<Server>, used: set<nat>, carrier: string) {
    exists i :: i in used && Nearest(ss, i, carrier)
  }

  /** One nearest node for each of the carriers, as long as there is room. */
  ghost predicate CarrierPicks(ss: seq<Server>, carriers: seq<string>, n: nat, used: set<nat>) {
    && used <= ReachableSet(ss) && |used| <= n && |used| <= |carriers|
    && (forall i :: i in used ==> exists c :: c in carriers && Nearest(ss, i, c))
    && (forall k :: 0 <= k < |carriers| && k < n && Served(ss, carriers[k]) ==> PickedFor(ss, used, carriers[k]))
  }

  ghost predicate Distinct(cs: seq<string>) {
    forall j, k :: 0 <= j < k < |cs| ==> cs[j] != cs[k]
  }

  lemma OtherCarriers(ss: seq<Server>, carriers: seq<string>, k: nat, n: nat, used: set<nat>)
    requires k < |carriers| && Distinct(carriers) && CarrierPicks(ss, carriers[..k], n, used)
    ensures forall i :: i in used ==> i < |ss| && Carrier(ss[i].sponsor) != carriers[k]
  {
    hide Carrier;
    forall i | i in used ensures i < |ss| && Carrier(ss[i].sponsor) != carriers[k] {
      var c :| c in carriers[..k] && Nearest(ss, i, c);
      var j :| 0 <= j < k && carriers[j] == c;
    }
  }

  lemma OneMorePick(ss: seq<Server>, carriers: seq<string>, k: nat, n: nat, used: set<nat>, pick: Option<nat>)
    requires k < |carriers| && CarrierPicks(ss, carriers[..k], n, used) && |used| < n
    requires pick.Some? <==> Served(ss, carriers[k])
    requires pick.Some? ==> Nearest(ss, pick.value, carriers[k])
    ensures CarrierPicks(ss, carriers[..k + 1], n, if pick.Some? then used + {pick.value} else used)
  {
    hide Carrier, Nearest, Served;
    var now := if pick.Some? then used + {pick.value} else used;
    assert carriers[..k + 1] == carriers[..k] + [carriers[k]];
    assert pick.Some? ==> pick.value in ReachableSet(ss) by {
      if pick.Some? {
        NearestReachable(ss, pick.value, carriers[k]);
      }
    }
    forall i | i in now ensures exists c :: c in carriers[..k + 1] && Nearest(ss, i, c) {
      if i in used {
        var c :| c in carriers[..k] && Nearest(ss, i, c);
        assert c in carriers[..k + 1];
      } else {
        assert carriers[k] in carriers[..k + 1];
      }
    }
    forall j | 0 <= j < k + 1 && j < n && Served(ss, carriers[j]) ensures PickedFor(ss, now, carriers[..k + 1][j]) {
      if j < k {
        assert carriers[..k][j] == carriers[j] && PickedFor(ss, used, carriers[j]);
        var i :| i in used && Nearest(ss, i, carriers[j]);
        assert i in now;
      } else {
        assert pick.value in now;
      }
    }
  }

  lemma NearestReachable(ss: seq<Server>, i: nat, carrier: string)
    requires Nearest(ss, i, carrier)
    ensures i in ReachableSet(ss)
  {
  }

  /** The first pass. */
  method PickCarriers(ss: seq<Server>, byDist: seq<nat>, carriers: seq<string>, n: nat) returns (used: set<nat>)
    requires ByDistance(ss, byDist) && Distinct(carriers)
    ensures CarrierPicks(ss, carriers, n, used)
  {
    hide CarrierPicks, ByDistance, Distinct, Nearest, Served;
    used := {};
    NoPicks(ss, n);
    for k := 0 to |carriers|
      invariant CarrierPicks(ss, carriers[..k], n, used)
    {
      if |used| >= n {
        NoRoom(ss, carriers, k, n, used);
        return;
      }
      OtherCarriers(ss, carriers, k, n, used);
      var pick := PickCarrier(ss, byDist, used, carriers[k]);
      OneMorePick(ss, carriers, k, n, used, pick);
      if pick.Some? {
        used := used + {pick.value};
      }
    }
    assert carriers[..|carriers|] == carriers;
  }

  lemma NoPicks(ss: seq<Server>, n: nat)
    ensures CarrierPicks(ss, [], n, {})
  {
  }

  /** Running out of room early means that there are more carriers than places. */
  lemma NoRoom(ss: seq<Server>, carriers: seq<string>, k: nat, n: nat, used: set<nat>)
    requires k < |carriers| && CarrierPicks(ss, carriers[..k], n, used) && |used| >= n
    ensures CarrierPicks(ss, carriers, n, used)
  {
    hide Nearest, Served;
    forall i | i in used ensures exists c :: c in carriers && Nearest(ss, i, c) {
      var c :| c in carriers[..k] && Nearest(ss, i, c);
      assert c in carriers;
    }
    forall j | 0 <= j < |carriers| && j < n && Served(ss, carriers[j]) ensures PickedFor(ss, used, carriers[j]) {
      assert carriers[..k][j] == carriers[j];
    }
  }

  // ---- filling up ----

  /** Home country first, then by latency. */
  function RestKeys(ss: seq<Server>, home: string): (keys: seq<Key>)
    ensures |keys| == |ss|
    ensures forall i :: 0 <= i < |ss| ==>
      keys[i] == Key(if home != "" && Country(ss[i].name) == home then 0 else 1, ss[i].ping)
  {
    seq(|ss|, i requires 0 <= i < |ss| => Key(if home != "" && Country(ss[i].name) == home then 0 else 1, ss[i].ping))
  }

  function DistanceKeys(ss: seq<Server>): (keys: seq<Key>)
    ensures |keys| == |ss| && forall i :: 0 <= i < |ss| ==> keys[i] == Key(0, ss[i].distance)
  {
    seq(|ss|, i requires 0 <= i < |ss| => Key(0, ss[i].distance))
  }

  predicate AtHome(s: Server, home: string) {
    home != "" && Country(s.name) == home
  }

  /** At home while the other is not, or as much at home and not slower. */
  predicate Better(ss: seq<Server>, home: string, x: nat, y: nat)
    requires x < |ss| && y < |ss|
  {
    (AtHome(ss[x], home) && !AtHome(ss[y], home))
    || (AtHome(ss[x], home) == AtHome(ss[y], home) && ss[x].ping <= ss[y].ping)
  }

  lemma BetterIs(ss: seq<Server>, home: string, x: nat, y: nat)
    requires x < |ss| && y < |ss|
    ensures AtMost(RestKeys(ss, home)[x], RestKeys(ss, home)[y]) <==> Better(ss, home, x, y)
  {
    hide Country;
  }

  /** Whoever was taken to fill up comes before whoever was left out. */
  ghost predicate Fills(ss: seq<Server>, home: string, first: set<nat>, ticked: set<nat>) {
    forall x, y :: x in ticked - first && x < |ss| && y in ReachableSet(ss) - ticked ==> Better(ss, home, x, y)
  }

  /** The country of a nearest reachable node. */
  ghost predicate IsHome(ss: seq<Server>, home: string) {
    if ReachableSet(ss) == {} then home == "" else exists i: nat :: NearestOfAll(ss, i) && home == Country(ss[i].name)
  }

  ghost predicate NearestOfAll(ss: seq<Server>, i: nat) {
    i in ReachableSet(ss) && forall j :: j in ReachableSet(ss) ==> ss[i].distance <= ss[j].distance
  }

  /** The recommendation: the carriers' nearest nodes, then the best of the others, as
      many as there is room and nodes for. */
  ghost predicate Recommendation(ss: seq<Server>, n: nat, first: set<nat>, home: string, ticked: set<nat>) {
    && CarrierPicks(ss, CARRIERS, n, first)
    && IsHome(ss, home)
    && first <= ticked <= ReachableSet(ss)
    && |ticked| == (if |ReachableSet(ss)| <= n then |ReachableSet(ss)| else n)
    && Fills(ss, home, first, ticked)
  }

  ghost predicate NoRepeats(s: seq<nat>) {
    forall i, j :: 0 <= i < j < |s| ==> s[i] != s[j]
  }

  lemma {:induction false} RepeatFreeCounts(s: seq<nat>)
    requires NoRepeats(s)
    ensures forall x :: multiset(s)[x] <= 1
  {
    if s != [] {
      var init, last := s[..|s| - 1], s[|s| - 1];
      RepeatFreeCounts(init);
      assert s == init + [last];
      assert last !in init;
    }
  }

  lemma SingleCounts(s: seq<nat>)
    requires forall x :: multiset(s)[x] <= 1
    ensures NoRepeats(s)
  {
    forall i, j | 0 <= i < j < |s| ensures s[i] != s[j] {
      assert s == s[..j] + s[j..];
      assert multiset(s)[s[i]] == multiset(s[..j])[s[i]] + multiset(s[j..])[s[i]];
      assert s[..j][i] == s[i] && s[j..][0] == s[j];
      assert s[i] in multiset(s[..j]) && s[j] in multiset(s[j..]);
    }
  }

  /** Reordering keeps the elements and keeps them different. */
  lemma Reordered(a: seq<nat>, b: seq<nat>)
    requires NoRepeats(a) && multiset(a) == multiset(b)
    ensures NoRepeats(b) && |a| == |b| && forall x :: x in a <==> x in b
  {
    RepeatFreeCounts(a);
    SingleCounts(b);
    forall x ensures x in a <==> x in b {
      assert x in multiset(a) <==> x in multiset(b);
    }
    assert |multiset(a)| == |a| && |multiset(b)| == |b|;
  }

  function Elems(s: seq<nat>): set<nat> {
    set x | x in s
  }

  lemma ElemsSnoc(s: seq<nat>, x: nat)
    ensures Elems(s + [x]) == Elems(s) + {x}
  {
  }

  lemma {:induction false} ElemsSize(s: seq<nat>)
    requires NoRepeats(s)
    ensures |Elems(s)| == |s|
  {
    if s == [] {
      assert Elems(s) == {};
    } else {
      var init, last := s[..|s| - 1], s[|s| - 1];
      ElemsSize(init);
      assert last !in init;
      assert s == init + [last];
      hide NoRepeats;
      ElemsSnoc(init, last);
    }
  }

  /** Reachable nodes that are not used, in index order. */
  method Remaining(ss: seq<Server>, used: set<nat>) returns (rem: seq<nat>)
    ensures NoRepeats(rem) && forall i :: i in rem <==> i in ReachableSet(ss) && i !in used
  {
    rem := [];
    for i := 0 to |ss|
      invariant NoRepeats(rem)
      invariant forall k :: k in rem <==> 0 <= k < i && ss[k].reachable && k !in used
    {
      if ss[i].reachable && i !in used {
        rem := rem + [i];
      }
    }
  }

  method SortByDistance(ss: seq<Server>, reach: seq<nat>) returns (byDist: seq<nat>)
    requires NoRepeats(reach) && forall i :: i in reach <==> i in ReachableSet(ss)
    ensures ByDistance(ss, byDist) && |byDist| == |reach|
  {
    assert forall k :: 0 <= k < |reach| ==> reach[k] in reach;
    byDist := SortStable(reach, DistanceKeys(ss));
    Reordered(reach, byDist);
    assert forall k :: 0 <= k < |byDist| ==> byDist[k] in byDist;
  }

  method SortRemaining(ss: seq<Server>, rem: seq<nat>, home: string) returns (sorted: seq<nat>)
    requires NoRepeats(rem) && forall i :: i in rem ==> i < |ss|
    ensures Sorted(sorted, RestKeys(ss, home)) && NoRepeats(sorted) && forall i :: i in sorted <==> i in rem
  {
    hide Country, NoRepeats;
    assert forall k :: 0 <= k < |rem| ==> rem[k] in rem;
    sorted := SortStable(rem, RestKeys(ss, home));
    Reordered(rem, sorted);
  }

  /** The second pass: the best of the remaining nodes, while there is room. */
  method FillUp(ss: seq<Server>, n: nat, used: set<nat>, home: string) returns (ticked: set<nat>)
    requires used <= ReachableSet(ss) && |used| <= n
    ensures used <= ticked <= ReachableSet(ss)
    ensures |ticked| == if |ReachableSet(ss)| <= n then |ReachableSet(ss)| else n
    ensures Fills(ss, home, used, ticked)
  {
    hide Country, Sorted, NoRepeats, Fills, Elems;
    var rem := Remaining(ss, used);
    var sorted := SortRemaining(ss, rem, home);
    var m := if |sorted| <= n - |used| then |sorted| else n - |used|;
    ticked := used;
    NoElems();
    for k := 0 to m
      invariant ticked == used + Elems(sorted[..k])
    {
      assert sorted[..k + 1] == sorted[..k] + [sorted[k]];
      ElemsSnoc(sorted[..k], sorted[k]);
      ticked := ticked + {sorted[k]};
    }
    TakenSize(ReachableSet(ss), used, sorted, m);
    TakenFills(ss, home, used, sorted, m);
  }

  lemma NoElems()
    ensures Elems([]) == {}
  {
  }

  lemma TakenSize(all: set<nat>, used: set<nat>, sorted: seq<nat>, m: nat)
    requires used <= all && NoRepeats(sorted) && m <= |sorted|
    requires forall i :: i in sorted <==> i in all && i !in used
    ensures |all| == |used| + |sorted|
    ensures |used + Elems(sorted[..m])| == |used| + m
    ensures used + Elems(sorted[..m]) <= all
  {
    ElemsSize(sorted);
    ElemsSize(sorted[..m]);
    hide NoRepeats;
    assert forall x :: x in sorted[..m] ==> x in sorted;
    assert all == used + Elems(sorted) && used !! Elems(sorted);
    assert used !! Elems(sorted[..m]);
  }

  lemma TakenFills(ss: seq<Server>, home: string, used: set<nat>, sorted: seq<nat>, m: nat)
    requires Sorted(sorted, RestKeys(ss, home)) && m <= |sorted|
    requires forall i :: i in sorted <==> i in ReachableSet(ss) && i !in used
    ensures Fills(ss, home, used, used + Elems(sorted[..m]))
  {
    hide Country, AtMost, Better;
    var ticked := used + Elems(sorted[..m]);
    forall x, y | x in ticked - used && x < |ss| && y in ReachableSet(ss) - ticked
      ensures Better(ss, home, x, y)
    {
      BetterIs(ss, home, x, y);
      var i :| 0 <= i < m && sorted[i] == x;
      var j :| 0 <= j < |sorted| && sorted[j] == y;
      forall k | 0 <= k < m ensures sorted[k] != y {
        assert sorted[k] in sorted[..m];
      }
    }
  }

  function Ticked(ss: seq<Server>): set<nat> {
    set i | 0 <= i < |ss| && ss[i].recommended
  }

  /** The nodes to tick. */
  method Choose(ss: seq<Server>, n: nat) returns (ticked: set<nat>)
    ensures exists first, home :: Recommendation(ss, n, first, home, ticked)
  {
    hide Fills, CarrierPicks, ByDistance, Country, IsHome, NoRepeats;
    var reach := Remaining(ss, {});
    var byDist := SortByDistance(ss, reach);
    CarriersDistinct();
    var used := PickCarriers(ss, byDist, CARRIERS, n);
    PicksBound(ss, n, used);
    var home := "";
    if |byDist| > 0 {
      FirstIsNode(ss, byDist);
      home := Country(ss[byDist[0]].name);
    }
    HomeIs(ss, byDist, reach, home);
    ticked := FillUp(ss, n, used, home);
    assert Recommendation(ss, n, used, home, ticked);
  }

  lemma FirstIsNode(ss: seq<Server>, byDist: seq<nat>)
    requires ByDistance(ss, byDist) && |byDist| > 0
    ensures byDist[0] < |ss|
  {
  }

  /** `pickRecommended`: only the recommendation marks change, and they are set on a
      recommendation. */
  method PickRecommended(servers: array<Server>, n: nat)
    modifies servers
    ensures forall i :: 0 <= i < servers.Length ==> servers[i] == old(servers[i]).(recommended := servers[i].recommended)
    ensures exists first, home :: Recommendation(old(servers[..]), n, first, home, Ticked(servers[..]))
  {
    hide Recommendation, Ticked;
    var ss := servers[..];
    var ticked := Choose(ss, n);
    ghost var first, home :| Recommendation(ss, n, first, home, ticked);
    TickedAreNodes(ss, n, first, home, ticked);
    Tick(servers, ticked);
  }

  lemma TickedAreNodes(ss: seq<Server>, n: nat, first: set<nat>, home: string, ticked: set<nat>)
    requires Recommendation(ss, n, first, home, ticked)
    ensures forall i :: i in ticked ==> i < |ss|
  {
    hide CarrierPicks, IsHome, Fills;
  }

  /** Tick the given nodes and no others. */
  method Tick(servers: array<Server>, ticked: set<nat>)
    requires forall i :: i in ticked ==> i < servers.Length
    modifies servers
    ensures forall i :: 0 <= i < servers.Length ==> servers[i] == old(servers[i]).(recommended := servers[i].recommended)
    ensures Ticked(servers[..]) == ticked
  {
    for i := 0 to servers.Length
      invariant forall k :: 0 <= k < i ==> servers[k] == old(servers[k]).(recommended := k in ticked)
      invariant forall k :: i <= k < servers.Length ==> servers[k] == old(servers[k])
    {
      servers[i] := servers[i].(recommended := i in ticked);
    }
  }

  lemma CarriersDistinct()
    ensures Distinct(CARRIERS)
  {
    assert CARRIERS[0] != CARRIERS[1] && CARRIERS[0] != CARRIERS[2] && CARRIERS[1] != CARRIERS[2];
  }

  lemma PicksBound(ss: seq<Server>, n: nat, used: set<nat>)
    requires CarrierPicks(ss, CARRIERS, n, used)
    ensures used <= ReachableSet(ss) && |used| <= n
  {
  }

  lemma HomeIs(ss: seq<Server>, byDist: seq<nat>, reach: seq<nat>, home: string)
    requires ByDistance(ss, byDist) && |byDist| == |reach|
    requires forall i :: i in reach <==> i in ReachableSet(ss)
    requires home == if |byDist| > 0 && byDist[0] < |ss| then Country(ss[byDist[0]].name) else ""
    ensures IsHome(ss, home)
  {
    hide Country;
    if |byDist| > 0 {
      assert byDist[0] in ReachableSet(ss);
      forall j | j in ReachableSet(ss) ensures ss[byDist[0]].distance <= ss[j].distance {
        var l :| 0 <= l < |byDist| && byDist[l] == j;
      }
      assert NearestOfAll(ss, byDist[0]);
    } else {
      assert ReachableSet(ss) == {} by {
        forall i ensures i !in ReachableSet(ss) {
          assert i in reach <==> i in ReachableSet(ss);
        }
      }
    }
  }

  /** A nearest reachable node of each big carrier that has one is recommended: of Unicom
      with room for one, of Telecom with room for two, of Mobile with room for three; and
      exactly min(n, reachable) nodes are, all of them reachable. */
  lemma RecommendationCovers(ss: seq<Server>, n: nat, first: set<nat>, home: string, ticked: set<nat>)
    requires Recommendation(ss, n, first, home, ticked)
    ensures n >= 1 && Served(ss, "unicom") ==> exists i :: i in ticked && Nearest(ss, i, "unicom")
    ensures n >= 2 && Served(ss, "telecom") ==> exists i :: i in ticked && Nearest(ss, i, "telecom")
    ensures n >= 3 && Served(ss, "mobile") ==> exists i :: i in ticked && Nearest(ss, i, "mobile")
    ensures ticked <= ReachableSet(ss) && |ticked| == if |ReachableSet(ss)| <= n then |ReachableSet(ss)| else n
  {
    hide Nearest, Served, Fills, IsHome;
    assert CARRIERS[0] == "unicom" && CARRIERS[1] == "telecom" && CARRIERS[2] == "mobile";
    forall k | 0 <= k < 3 && k < n && Served(ss, CARRIERS[k]) ensures exists i :: i in ticked && Nearest(ss, i, CARRIERS[k]) {
      assert PickedFor(ss, first, CARRIERS[k]);
      var i :| i in first && Nearest(ss, i, CARRIERS[k]);
      assert i in ticked;
    }
  }
}
