/** Deleting old backups: of the listed objects those the schedule itself produced are
    kept in place at the front of the listing, sorted oldest first, and all but the
    newest are deleted. */
module Retention {
  import opened Text
  import opened BackupPath
  import opened BackupPrefix

  /** An object in the storage channel. */
  datatype Obj = Obj(key: string, modified: int)

  // ---- the order ----

  /** Byte-wise comparison of keys. */
  predicate KeyBefore(a: string, b: string)
    decreases |a|
  {
    b != "" && (a == "" || a[0] < b[0] || (a[0] == b[0] && KeyBefore(a[1..], b[1..])))
  }

  predicate Before(a: Obj, b: Obj) {
    a.modified < b.modified || (a.modified == b.modified && KeyBefore(a.key, b.key))
  }

  lemma {:induction false} KeyTotal(a: string, b: string)
    ensures !KeyBefore(a, b) && !KeyBefore(b, a) ==> a == b
    ensures !(KeyBefore(a, b) && KeyBefore(b, a))
    decreases |a|
  {
    if a != "" && b != "" {
      KeyTotal(a[1..], b[1..]);
      assert a == [a[0]] + a[1..] && b == [b[0]] + b[1..];
    }
  }

  lemma {:induction false} KeyTransitive(a: string, b: string, c: string)
    requires !KeyBefore(b, a) && !KeyBefore(c, b)
    ensures !KeyBefore(c, a)
    decreases |a|
  {
    if a != "" && b != "" && c != "" && a[0] == b[0] == c[0] {
      KeyTransitive(a[1..], b[1..], c[1..]);
    }
  }

  predicate DiffersAt(a: string, b: string, k: nat) {
    k < |a| && k < |b| && a[k] < b[k] && forall i :: 0 <= i < k ==> a[i] == b[i]
  }

  /** The key comes first in lexicographic order: by the first byte that differs, or
      because the other one goes on. */
  ghost predicate KeyFirst(a: string, b: string) {
    (exists k :: DiffersAt(a, b, k)) || (|a| < |b| && forall i :: 0 <= i < |a| ==> a[i] == b[i])
  }

  lemma {:induction false} KeyBeforeIsFirst(a: string, b: string)
    ensures KeyBefore(a, b) <==> KeyFirst(a, b)
    decreases |a|
  {
    hide DiffersAt;
    if a != "" && b != "" {
      DiffersFirst(a, b);
      if a[0] == b[0] {
        KeyBeforeIsFirst(a[1..], b[1..]);
        FirstCons(a, b);
      }
    } else {
      NothingDiffers(a, b);
    }
  }

  lemma NothingDiffers(a: string, b: string)
    requires a == "" || b == ""
    ensures forall k :: !DiffersAt(a, b, k)
  {
  }

  lemma DiffersFirst(a: string, b: string)
    requires a != "" && b != ""
    ensures a[0] < b[0] ==> DiffersAt(a, b, 0)
    ensures a[0] > b[0] ==> forall k :: !DiffersAt(a, b, k)
  {
  }

  lemma DiffersCons(a: string, b: string, k: nat)
    requires a != "" && b != "" && a[0] == b[0]
    ensures DiffersAt(a, b, k + 1) <==> DiffersAt(a[1..], b[1..], k)
    ensures !DiffersAt(a, b, 0)
  {
    if DiffersAt(a[1..], b[1..], k) {
      forall i | 0 <= i < k + 1 ensures a[i] == b[i] {
        assert i > 0 ==> a[1..][i - 1] == b[1..][i - 1];
      }
    }
  }

  lemma FirstCons(a: string, b: string)
    requires a != "" && b != "" && a[0] == b[0]
    ensures KeyFirst(a, b) <==> KeyFirst(a[1..], b[1..])
  {
    hide DiffersAt;
    if k: nat :| DiffersAt(a[1..], b[1..], k) {
      DiffersCons(a, b, k);
    }
    if k: nat :| DiffersAt(a, b, k) {
      DiffersCons(a, b, 0);
      DiffersCons(a, b, k - 1);
    }
    if |a| < |b| {
      PrefixCons(a, b);
    }
  }

  lemma PrefixCons(a: string, b: string)
    requires a != "" && b != "" && a[0] == b[0] && |a| < |b|
    ensures (forall i :: 0 <= i < |a| ==> a[i] == b[i]) <==> (forall i :: 0 <= i < |a[1..]| ==> a[1..][i] == b[1..][i])
  {
    if forall i :: 0 <= i < |a[1..]| ==> a[1..][i] == b[1..][i] {
      forall i | 0 <= i < |a| ensures a[i] == b[i] {
        assert i > 0 ==> a[1..][i - 1] == b[1..][i - 1];
      }
    }
  }

  /** Older, or as old and with the first key, or the same in both. */
  ghost predicate AtMost(a: Obj, b: Obj) {
    a.modified < b.modified || (a.modified == b.modified && (a.key == b.key || KeyFirst(a.key, b.key)))
  }

  /** What the comparison of the sort says. */
  lemma AtMostIs(a: Obj, b: Obj)
    ensures AtMost(a, b) <==> !Before(b, a)
  {
    hide KeyBefore, KeyFirst;
    KeyTotal(a.key, b.key);
    KeyTotal(a.key, a.key);
    KeyBeforeIsFirst(a.key, b.key);
  }

  lemma AtMostTransitive(a: Obj, b: Obj, c: Obj)
    requires AtMost(a, b) && AtMost(b, c)
    ensures AtMost(a, c)
  {
    hide KeyBefore, KeyFirst, AtMost;
    AtMostIs(a, b);
    AtMostIs(b, c);
    AtMostIs(a, c);
    KeyTotal(a.key, b.key);
    KeyTotal(b.key, c.key);
    if a.modified == b.modified == c.modified {
      KeyTransitive(a.key, b.key, c.key);
    }
  }

  ghost predicate Sorted(s: seq<Obj>) {
    forall i, j :: 0 <= i < j < |s| ==> AtMost(s[i], s[j])
  }

  /** Nothing in a is newer than anything in b. */
  ghost predicate AllAtMost(a: seq<Obj>, b: seq<Obj>) {
    forall x, y :: x in a && y in b ==>
      x.modified <= y.modified && (x.modified == y.modified && x.key != y.key ==> KeyFirst(x.key, y.key))
  }

  // ---- the in-place filter ----

  /** The objects that the schedule's matcher recognises, in listing order. */
  function Mine(s: seq<Obj>, pattern: seq<Atom>): seq<Obj> {
    if s == [] then []
    else Mine(s[..|s| - 1], pattern) + (if Matches(pattern, s[|s| - 1].key) then [s[|s| - 1]] else [])
  }

  lemma {:induction false} MineMembers(s: seq<Obj>, pattern: seq<Atom>)
    ensures forall o :: o in Mine(s, pattern) <==> o in s && Matches(pattern, o.key)
    ensures |Mine(s, pattern)| <= |s|
  {
    if s != [] {
      MineMembers(s[..|s| - 1], pattern);
      assert s == s[..|s| - 1] + [s[|s| - 1]];
    }
  }

  /** `mine := objs[:0]`, appended to while `objs` is being read. */
  method FilterInPlace(objs: array<Obj>, pattern: seq<Atom>) returns (n: nat)
    modifies objs
    ensures n <= objs.Length && objs[..n] == Mine(old(objs[..]), pattern)
  {
    hide Matches;
    n := 0;
    ghost var was := objs[..];
    for i := 0 to objs.Length
      invariant n <= i && objs[..n] == Mine(was[..i], pattern)
      invariant objs[i..] == was[i..]
    {
      assert objs[i] == objs[i..][0] == was[i];
      assert was[..i + 1][..i] == was[..i];
      assert objs[i + 1..] == objs[i..][1..] == was[i + 1..];
      if Matches(pattern, objs[i].key) {
        objs[n] := objs[i];
        assert objs[..n + 1] == objs[..n] + [was[i]];
        n := n + 1;
      }
    }
    assert was[..objs.Length] == was;
  }

  // ---- sorting ----

  /** The first i objects are in place among the first n. */
  ghost predicate SortedTo(s: seq<Obj>, i: nat, n: nat) {
    n <= |s| && forall j, k :: 0 <= j < i && j < k < n ==> AtMost(s[j], s[k])
  }

  function Swapped(s: seq<Obj>, i: nat, m: nat): (t: seq<Obj>)
    requires i < |s| && m < |s|
    ensures |t| == |s|
  {
    s[i := s[m]][m := s[i]]
  }

  /** Swapping an oldest of the rest to its place. */
  lemma SwapSorts(s: seq<Obj>, i: nat, m: nat, n: nat)
    requires i <= m < n <= |s| && SortedTo(s, i, n) && forall k :: i <= k < n ==> AtMost(s[m], s[k])
    ensures SortedTo(Swapped(s, i, m), i + 1, n)
  {
    hide AtMost;
  }

  lemma SwapPermutes(s: seq<Obj>, i: nat, m: nat, n: nat)
    requires i <= m < n <= |s|
    ensures multiset(Swapped(s, i, m)[..n]) == multiset(s[..n]) && Swapped(s, i, m)[n..] == s[n..]
  {
    assert Swapped(s, i, m)[..n] == Swapped(s[..n], i, m);
  }

  /** The index of an oldest object in a[i..n]. */
  method Oldest(a: array<Obj>, i: nat, n: nat) returns (m: nat)
    requires i < n <= a.Length
    ensures i <= m < n && forall k :: i <= k < n ==> AtMost(a[m], a[k])
  {
    hide Before, AtMost;
    m := i;
    SelfAtMost(a[i]);
    for k := i + 1 to n
      invariant i <= m < k && forall l :: i <= l < k ==> AtMost(a[m], a[l])
    {
      SelfAtMost(a[k]);
      AtMostIs(a[m], a[k]);
      if Before(a[k], a[m]) {
        BeforeAtMost(a[k], a[m]);
        forall l | i <= l < k ensures AtMost(a[k], a[l]) {
          AtMostTransitive(a[k], a[m], a[l]);
        }
        m := k;
      }
    }
  }

  lemma SelfAtMost(a: Obj)
    ensures AtMost(a, a)
  {
  }

  lemma BeforeAtMost(a: Obj, b: Obj)
    requires Before(a, b)
    ensures AtMost(a, b)
  {
    hide KeyBefore, KeyFirst, AtMost;
    AtMostIs(a, b);
    KeyTotal(a.key, b.key);
  }

  /** The first n objects sorted, the rest untouched. */
  method SortFront(a: array<Obj>, n: nat)
    requires n <= a.Length
    modifies a
    ensures Sorted(a[..n]) && multiset(a[..n]) == multiset(old(a[..n]))
    ensures a[n..] == old(a[n..])
  {
    hide AtMost, Sorted, SortedTo;
    NothingSorted(a[..], n);
    for i := 0 to n
      invariant multiset(a[..n]) == multiset(old(a[..n])) && a[n..] == old(a[n..])
      invariant SortedTo(a[..], i, n)
    {
      var m := Oldest(a, i, n);
      ghost var s := a[..];
      assert s[..n] == a[..n] && s[n..] == a[n..];
      a[i], a[m] := a[m], a[i];
      assert a[..] == Swapped(s, i, m);
      assert a[..n] == a[..][..n] && a[n..] == a[..][n..];
      SwapSorts(s, i, m, n);
      SwapPermutes(s, i, m, n);
    }
    SortedAll(a[..], n);
    assert a[..n] == a[..][..n];
  }

  lemma NothingSorted(s: seq<Obj>, n: nat)
    requires n <= |s|
    ensures SortedTo(s, 0, n)
  {
  }

  lemma SortedAll(s: seq<Obj>, n: nat)
    requires SortedTo(s, n, n)
    ensures Sorted(s[..n])
  {
    hide AtMost;
  }

  // ---- retention ----

  /** The deletions requested, oldest first. Of the objects the schedule produced,
      exactly max(0, matched - retention) go, and none of them is newer than one that
      stays. */
  method ApplyRetention(objs: array<Obj>, prefix: string, pattern: Option<seq<Atom>>, retention: int) returns (gone: seq<Obj>)
    modifies objs
    ensures retention <= 0 || prefix == "" || pattern.None? ==> gone == [] && objs[..] == old(objs[..])
    ensures retention > 0 && prefix != "" && pattern.Some? ==>
      exists kept: seq<Obj> :: RetainsNewest(Mine(old(objs[..]), pattern.value), retention, gone, kept)
  {
    hide Mine, Matches, Sorted, RetainsNewest;
    gone := [];
    if retention <= 0 || prefix == "" || pattern.None? {
      return;
    }
    ghost var mine := Mine(objs[..], pattern.value);
    var n := FilterInPlace(objs, pattern.value);
    if n <= retention {
      NothingGone(mine, retention);
      return;
    }
    SortFront(objs, n);
    ghost var sorted := objs[..n];
    for k := 0 to n - retention
      invariant gone == sorted[..k] && objs[..n] == sorted
    {
      assert sorted[..k + 1] == sorted[..k] + [objs[k]];
      gone := gone + [objs[k]];
    }
    SplitSorted(mine, sorted, retention);
  }

  ghost predicate RetainsNewest(mine: seq<Obj>, retention: nat, gone: seq<Obj>, kept: seq<Obj>) {
    && multiset(gone) + multiset(kept) == multiset(mine)
    && |gone| == (if |mine| > retention then |mine| - retention else 0)
    && Sorted(gone) && AllAtMost(gone, kept)
  }

  lemma NothingGone(mine: seq<Obj>, retention: nat)
    requires |mine| <= retention
    ensures RetainsNewest(mine, retention, [], mine)
  {
  }

  lemma SplitSorted(mine: seq<Obj>, sorted: seq<Obj>, retention: nat)
    requires Sorted(sorted) && multiset(sorted) == multiset(mine) && |sorted| == |mine| > retention
    ensures RetainsNewest(mine, retention, sorted[..|sorted| - retention], sorted[|sorted| - retention..])
  {
    var cut := |sorted| - retention;
    assert sorted == sorted[..cut] + sorted[cut..];
    forall x, y | x in sorted[..cut] && y in sorted[cut..] ensures AtMost(x, y) {
      var i :| 0 <= i < cut && sorted[i] == x;
      var j :| cut <= j < |sorted| && sorted[j] == y;
    }
  }

  /** Deletion and naming fit together: every key the schedule ever rendered is listed
      under its prefix; and it is recognised by its matcher, so that it takes part in
      retention, if and only if the template is ASCII outside the braces and no chunk
      hides a placeholder. */
  lemma OwnKeysTakePart(template: string, c: Context, objs: seq<Obj>, o: Obj)
    requires PlainNames(c) || HiddenTokens(Pieces(Clean(template))) == 0
    requires RetentionPrefix(template, c.schedule, c.host) != ""
    requires o.key == RenderPath(template, c) && o in objs
    ensures HasPrefix(o.key, RetentionPrefix(template, c.schedule, c.host))
    ensures o in Mine(objs, Matcher(template, c.schedule, c.host))
      <==> LooseBytes(Pieces(Clean(template))) == 0 && HiddenTokens(Pieces(Clean(template))) == 0
  {
    hide Expand, Collapse, Matches, Atoms, RetentionPrefix;
    PrefixIsSound(template, c);
    MatcherAcceptsRendered(template, c);
    MineMembers(objs, Matcher(template, c.schedule, c.host));
  }

  /** An object that the matcher does not recognise is never deleted. */
  lemma OthersStay(objs: seq<Obj>, pattern: seq<Atom>, retention: nat, gone: seq<Obj>, kept: seq<Obj>, o: Obj)
    requires RetainsNewest(Mine(objs, pattern), retention, gone, kept)
    requires !Matches(pattern, o.key)
    ensures o !in gone
  {
    hide Matches, Sorted, AllAtMost;
    MineMembers(objs, pattern);
    assert o !in multiset(Mine(objs, pattern));
    assert multiset(gone)[o] <= (multiset(gone) + multiset(kept))[o];
  }

  lemma RenderedKey(template: string, c: Context)
    requires RetentionPrefix(template, c.schedule, c.host) != ""
    ensures HasPrefix(RenderPath(template, c), RetentionPrefix(template, c.schedule, c.host))
    ensures Canonical(RenderPath(template, c)) && RenderPath(template, c) != ""
  {
    hide Expand, Collapse, RetentionPrefix, Doubled;
    PrefixIsSound(template, c);
    CollapsedIsSingle(true, Expand(template, c, false));
  }

  /** A key of the right form is no longer one with something in front of it. */
  lemma LongerIsNoMatch(pattern: seq<Atom>, front: string, k: string)
    requires Matches(pattern, k) && front != ""
    ensures !Matches(pattern, front + k)
  {
    hide Matches;
    MatchedWidth(pattern, k);
    if Matches(pattern, front + k) {
      MatchedWidth(pattern, front + k);
    }
  }

  /** The same through the storage, which puts a base prefix in front of every key and
      takes it off every listed one: the schedule's own backups are listed, and a template
      that is fit to recognise them does so exactly if the base prefix has no doubled
      slash inside. */
  lemma OwnListingTakesPart(prefix: string, template: string, c: Context, objs: seq<Obj>, o: Obj)
    requires PlainNames(c) || HiddenTokens(Pieces(Clean(template))) == 0
    requires RetentionPrefix(template, c.schedule, c.host) != ""
    requires o in objs && o.key == Strip(JoinKey(prefix, RenderPath(template, c)), JoinKey(prefix, ""))
    ensures HasPrefix(JoinKey(prefix, RenderPath(template, c)), JoinKey(prefix, RetentionPrefix(template, c.schedule, c.host)))
    ensures LooseBytes(Pieces(Clean(template))) == 0 && HiddenTokens(Pieces(Clean(template))) == 0 ==>
      (o in Mine(objs, Matcher(template, c.schedule, c.host)) <==> !Doubled(BasePrefix(prefix)))
    ensures !Doubled(BasePrefix(prefix)) ==>
      (o in Mine(objs, Matcher(template, c.schedule, c.host))
       <==> LooseBytes(Pieces(Clean(template))) == 0 && HiddenTokens(Pieces(Clean(template))) == 0)
  {
    hide Matches, Matcher, RenderPath, RetentionPrefix, Collapse, Doubled, BasePrefix, JoinKey, Strip, Canonical, PlainNames,
      Pieces, LooseBytes, HiddenTokens;
    var k := RenderPath(template, c);
    RenderedKey(template, c);
    JoinKeepsPrefix(prefix, k, RetentionPrefix(template, c.schedule, c.host));
    StripOfJoined(prefix, k);
    MatcherAcceptsRendered(template, c);
    MineMembers(objs, Matcher(template, c.schedule, c.host));
    if Doubled(BasePrefix(prefix)) && Matches(Matcher(template, c.schedule, c.host), k) {
      LongerIsNoMatch(Matcher(template, c.schedule, c.host), Clean(BasePrefix(prefix)) + "/", k);
    }
  }

  /** A schedule that never recognises its own backups. */
  lemma OwnKeyForgotten(c: Context, objs: seq<Obj>, o: Obj)
    requires PlainNames(c) && o.key == RenderPath("{a{year}", c)
    ensures o !in Mine(objs, Matcher("{a{year}", c.schedule, c.host))
  {
    hide Matches, Matcher, RenderPath, PlainNames;
    HiddenYearRejected(c);
    MineMembers(objs, Matcher("{a{year}", c.schedule, c.host));
  }
}
