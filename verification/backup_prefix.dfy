/** The directory that is listed before old backups are deleted: the template cut
    just before its first time placeholder and back to a slash. */
module BackupPrefix {
  import opened Text
  import opened BackupPath

  const NUL: char := 0 as char
  const TIME_TOKENS: seq<string> := ["{year}", "{YYYY}", "{month}", "{MM}", "{day}", "{DD}",
                                     "{date}", "{time}", "{datetime}", "{ts}"]
  const EPOCH: Instant := Clock(0, 1, 1, 0, 0, 0)

  /** `ReplaceAll(s, tk, "\x00")` */
  function Blank(s: string, tk: string): string
    decreases |s|
  {
    if s == "" || tk == "" then s
    else if HasPrefix(s, tk) then [NUL] + Blank(s[|tk|..], tk)
    else [s[0]] + Blank(s[1..], tk)
  }

  /** What the text of a time placeholder looks like: one brace, at the front. */
  predicate IsTimeText(tk: string) {
    |tk| >= 2 && tk[0] == '{' && forall k :: 0 < k < |tk| ==> tk[k] != '{' && tk[k] != NUL
  }

  lemma TimeTextShape(tk: string)
    requires tk in TIME_TOKENS
    ensures IsTimeText(tk) && Known(tk).Some? && IsTime(Known(tk).value)
  {
  }

  function BlankAll(s: string, tks: seq<string>): string
  {
    if tks == [] then s else Blank(BlankAll(s, tks[..|tks| - 1]), tks[|tks| - 1])
  }

  function LastSlash(s: string): (j: int)
    ensures -1 <= j < |s|
    ensures j >= 0 ==> s[j] == '/'
    ensures forall k :: j < k < |s| ==> s[k] != '/'
  {
    if s == "" then -1
    else if s[|s| - 1] == '/' then |s| - 1
    else LastSlash(s[..|s| - 1])
  }

  function Stable(template: string, schedule: string, host: string): string {
    Expand(template, Context(schedule, host, EPOCH), true)
  }

  function CutBack(s: string): string {
    var t := s[..IndexOf(s, NUL)];
    var j := LastSlash(t);
    if j >= 0 then Clean(t[..j + 1]) else ""
  }

  function RetentionPrefix(template: string, schedule: string, host: string): string {
    CutBack(BlankAll(Stable(template, schedule, host), TIME_TOKENS))
  }

  method BuildPrefix(template: string, schedule: string, host: string) returns (prefix: string)
    ensures prefix == RetentionPrefix(template, schedule, host)
  {
    hide Blank, Expand, LastSlash, Collapse;
    var s := Stable(template, schedule, host);
    s := BlankEach(s, TIME_TOKENS);
    var i := IndexOf(s, NUL);
    if i < |s| {
      s := s[..i];
    } else {
      assert s[..i] == s;
    }
    var j := LastSlash(s);
    if j >= 0 {
      prefix := CleanKey(s[..j + 1]);
    } else {
      prefix := "";
    }
  }

  method BlankEach(text: string, tks: seq<string>) returns (s: string)
    ensures s == BlankAll(text, tks)
  {
    hide Blank;
    s := text;
    for k := 0 to |tks|
      invariant s == BlankAll(text, tks[..k])
    {
      assert tks[..k + 1][..k] == tks[..k];
      s := Blank(s, tks[k]);
    }
    assert tks[..|tks|] == tks;
  }

  // ---- where blanking first strikes ----

  /** Occurrence of tk at position w. */
  predicate Occurs(s: string, tk: string, w: nat) {
    w <= |s| && HasPrefix(s[w..], tk)
  }

  /** Up to the first NUL the blanked text is the original, and no placeholder
      occurs before it. */
  ghost predicate CutAt(s: string, blanked: string, done: seq<string>, cut: nat) {
    && cut <= |s| && cut <= |blanked| && IndexOf(blanked, NUL) == cut
    && blanked[..cut] == s[..cut]
    && (cut < |s| ==> s[cut] == NUL || s[cut] == '{')
    && (cut == |blanked| ==> cut == |s|)
    && (cut < |s| ==> s[cut] == NUL || exists tk :: tk in done && Occurs(s, tk, cut))
    && forall tk, w :: tk in done && Occurs(s, tk, w) ==> cut <= w
  }

  /** The first position from which blanking changes the text. */
  function FirstHit(s: string, tk: string): (p: nat)
    ensures p <= |s|
    ensures p < |s| ==> Occurs(s, tk, p)
    decreases |s|
  {
    if s == "" || HasPrefix(s, tk) then 0
    else
      assert s[1..][FirstHit(s[1..], tk)..] == s[1 + FirstHit(s[1..], tk)..];
      1 + FirstHit(s[1..], tk)
  }

  lemma {:induction false} FirstHitIsFirst(s: string, tk: string, w: nat)
    requires Occurs(s, tk, w)
    ensures FirstHit(s, tk) <= w
    decreases |s|
  {
    if s != "" && !HasPrefix(s, tk) {
      assert w > 0 by {
        assert s[0..] == s;
      }
      assert s[1..][w - 1..] == s[w..];
      FirstHitIsFirst(s[1..], tk, w - 1);
    }
  }

  lemma {:induction false} BlankPrefix(s: string, tk: string)
    requires tk != ""
    ensures var p := FirstHit(s, tk);
      p <= |Blank(s, tk)| && Blank(s, tk)[..p] == s[..p] &&
      if p < |s| then p < |Blank(s, tk)| && Blank(s, tk)[p] == NUL else Blank(s, tk) == s
    decreases |s|
  {
    if s != "" && !HasPrefix(s, tk) {
      BlankPrefix(s[1..], tk);
      var p := FirstHit(s[1..], tk);
      assert s[..1 + p] == [s[0]] + s[1..][..p];
      assert Blank(s, tk)[..1 + p] == [s[0]] + Blank(s[1..], tk)[..p];
    }
  }

  /** A placeholder that begins before the cut also ends before it. */
  lemma NoStraddle(s: string, b: string, cut: nat, tk: string, w: nat)
    requires cut <= |s| && cut <= |b| && b[..cut] == s[..cut]
    requires cut < |s| ==> s[cut] == NUL || s[cut] == '{'
    requires IsTimeText(tk) && Occurs(s, tk, w) && w < cut
    ensures Occurs(b, tk, w)
  {
    var n := |tk|;
    assert s[w..][..n] == tk;
    assert forall k :: 0 <= k < n ==> tk[k] == s[w..][k] == s[w + k];
    forall q | w < q < w + n ensures s[q] != '{' && s[q] != NUL {
      assert tk[q - w] == s[w + (q - w)];
    }
    assert w + n <= cut;
    assert forall k :: 0 <= k < n ==> b[w..][k] == b[..cut][w + k] == s[..cut][w + k] == tk[k];
    assert b[w..][..n] == tk;
  }

  lemma IndexIs(s: string, i: nat)
    requires i <= |s| && (forall k :: 0 <= k < i ==> s[k] != NUL) && (i < |s| ==> s[i] == NUL)
    ensures IndexOf(s, NUL) == i
  {
  }

  /** What is found before the cut stands there in the original, too. */
  lemma OccursBeforeCut(s: string, b: string, cut: nat, tk: string, p: nat)
    requires cut <= |s| && cut <= |b| && b[..cut] == s[..cut] && (cut < |b| ==> b[cut] == NUL)
    requires IsTimeText(tk) && Occurs(b, tk, p) && p < cut
    ensures Occurs(s, tk, p)
  {
    var n := |tk|;
    assert forall k :: 0 <= k < n ==> tk[k] == b[p..][..n][k] == b[p + k];
    assert forall q :: p < q < p + n ==> b[q] == tk[q - p] != NUL;
    assert p + n <= cut;
    assert forall k :: 0 <= k < n ==> s[p + k] == s[..cut][p + k] == b[..cut][p + k] == tk[k];
    assert s[p..][..n] == tk;
  }

  lemma CutMoves(s: string, b: string, done: seq<string>, cut: nat, tk: string)
    requires CutAt(s, b, done, cut) && IsTimeText(tk) && FirstHit(b, tk) < cut
    ensures CutAt(s, Blank(b, tk), done + [tk], FirstHit(b, tk))
  {
    hide Blank, FirstHit, IndexOf;
    var p, n := FirstHit(b, tk), Blank(b, tk);
    BlankPrefix(b, tk);
    assert forall k :: 0 <= k < p ==> n[k] == n[..p][k] == b[..p][k] == b[k];
    IndexIs(n, p);
    assert n[..p] == s[..p] by {
      assert b[..p] == b[..cut][..p] && s[..p] == s[..cut][..p];
    }
    assert s[p] == s[..cut][p] == b[..cut][p] == b[p];
    assert b[p..][0] == tk[0];
    OccursBeforeCut(s, b, cut, tk, p);
    assert tk in done + [tk];
    forall t, w: nat | t in done + [tk] && Occurs(s, t, w) ensures p <= w {
      if t == tk && w < cut {
        NoStraddle(s, b, cut, tk, w);
        FirstHitIsFirst(b, tk, w);
      }
    }
  }

  lemma CutStays(s: string, b: string, done: seq<string>, cut: nat, tk: string)
    requires CutAt(s, b, done, cut) && IsTimeText(tk) && FirstHit(b, tk) >= cut
    ensures CutAt(s, Blank(b, tk), done + [tk], cut)
  {
    hide Blank, FirstHit, IndexOf;
    var p, n := FirstHit(b, tk), Blank(b, tk);
    BlankPrefix(b, tk);
    assert forall k :: 0 <= k < p ==> n[k] == n[..p][k] == b[..p][k] == b[k];
    if p < |b| {
      assert b[p..][0] == tk[0];
    }
    IndexIs(n, cut);
    assert n[..cut] == b[..cut];
    forall t, w: nat | t in done + [tk] && Occurs(s, t, w) ensures cut <= w {
      if t == tk && w < cut {
        NoStraddle(s, b, cut, tk, w);
        FirstHitIsFirst(b, tk, w);
      }
    }
  }

  lemma CutBegins(s: string)
    ensures CutAt(s, s, [], IndexOf(s, NUL))
  {
  }

  /** Blanking everything cuts the text at the first placeholder or NUL in it. */
  lemma {:induction false} BlankAllCuts(s: string, tks: seq<string>) returns (cut: nat)
    requires forall tk :: tk in tks ==> IsTimeText(tk)
    ensures CutAt(s, BlankAll(s, tks), tks, cut)
  {
    hide CutAt, Blank, FirstHit, IndexOf;
    if tks == [] {
      cut := IndexOf(s, NUL);
      CutBegins(s);
    } else {
      var init, tk := tks[..|tks| - 1], tks[|tks| - 1];
      assert tk in tks && tks == init + [tk];
      var before := BlankAllCuts(s, init);
      var b := BlankAll(s, init);
      if FirstHit(b, tk) < before {
        CutMoves(s, b, init, before, tk);
        cut := FirstHit(b, tk);
      } else {
        CutStays(s, b, init, before, tk);
        cut := before;
      }
    }
  }

  // ---- the stable part of a rendered key ----

  lemma {:induction false} StableIgnoresTime(s: string, schedule: string, host: string, t: Instant)
    ensures Expand(s, Context(schedule, host, t), true) == Stable(s, schedule, host)
    decreases |s|
  {
    hide Known, IndexOf, Slug, Pad;
    if s != "" {
      var tok := AtHead(s);
      if tok.Some? && !IsTime(tok.value) {
        StableIgnoresTime(s[IndexOf(s, '}') + 1..], schedule, host, t);
      } else {
        StableIgnoresTime(s[1..], schedule, host, t);
      }
    }
  }

  lemma TimeTokenListed(tk: string)
    requires Known(tk).Some? && IsTime(Known(tk).value)
    ensures tk in TIME_TOKENS
  {
  }

  /** The stable text and the rendered one agree up to where a time placeholder stands
      in the stable one, or altogether. */
  lemma {:induction false} Agreement(s: string, c: Context) returns (w: nat)
    ensures w <= |Expand(s, c, true)| && w <= |Expand(s, c, false)|
    ensures Expand(s, c, true)[..w] == Expand(s, c, false)[..w]
    ensures w == |Expand(s, c, true)| || exists tk :: tk in TIME_TOKENS && Occurs(Expand(s, c, true), tk, w)
    decreases |s|
  {
    hide Known, IndexOf, Expand, AtHead, TokenText, IsTime;
    if s == "" {
      NothingExpands(true, c, true);
      NothingExpands(true, c, false);
      w := 0;
    } else if AtHead(s).Some? {
      HeadChunk(s);
      var chunk, rest := s[..IndexOf(s, '}') + 1], s[IndexOf(s, '}') + 1..];
      ExpandToken(chunk, rest, c, false);
      if IsTime(AtHead(s).value) {
        TimeStands(chunk, rest, c);
        w := 0;
      } else {
        ExpandToken(chunk, rest, c, true);
        var v := Agreement(rest, c);
        w := Shift(TokenText(Known(chunk).value, c), rest, c, v);
      }
    } else {
      assert s == [s[0]] + s[1..];
      ExpandByte(s[0], s[1..], c, true);
      ExpandByte(s[0], s[1..], c, false);
      var v := Agreement(s[1..], c);
      w := Shift([s[0]], s[1..], c, v);
    }
  }

  lemma TimeStands(chunk: string, rest: string, c: Context)
    requires Known(chunk).Some? && IsTime(Known(chunk).value)
    ensures chunk in TIME_TOKENS && Occurs(Expand(chunk + rest, c, true), chunk, 0)
  {
    hide Known, Expand, TokenText, AtHead, IsTime, IndexOf;
    TimeTokenListed(chunk);
    KnownIsSegment(chunk);
    ChunkEnds(chunk, rest);
    var tail := chunk[1..];
    assert '{' !in tail by {
      assert forall k :: 0 <= k < |tail| ==> tail[k] == chunk[k + 1];
    }
    assert chunk + rest == ['{'] + (tail + rest);
    ExpandByte('{', tail + rest, c, true);
    ExpandPlain(tail, rest, c, true);
    var st := Expand(chunk + rest, c, true);
    assert st == chunk + Expand(rest, c, true);
    assert st[0..] == st && st[..|chunk|] == chunk;
  }

  lemma Shift(a: string, rest: string, c: Context, v: nat) returns (w: nat)
    requires v <= |Expand(rest, c, true)| && v <= |Expand(rest, c, false)|
    requires Expand(rest, c, true)[..v] == Expand(rest, c, false)[..v]
    requires v == |Expand(rest, c, true)| || exists tk :: tk in TIME_TOKENS && Occurs(Expand(rest, c, true), tk, v)
    ensures var st, full := a + Expand(rest, c, true), a + Expand(rest, c, false);
      w <= |st| && w <= |full| && st[..w] == full[..w] &&
      (w == |st| || exists tk :: tk in TIME_TOKENS && Occurs(st, tk, w))
  {
    hide Expand;
    w := |a| + v;
    var x, y := Expand(rest, c, true), Expand(rest, c, false);
    assert (a + x)[..w] == a + x[..v] && (a + y)[..w] == a + y[..v];
    assert (a + x)[w..] == x[v..];
    if v != |x| {
      var tk :| tk in TIME_TOKENS && Occurs(x, tk, v);
      assert Occurs(a + x, tk, w);
    }
  }

  lemma CleanPrefix(p: string, full: string)
    requires HasPrefix(full, p)
    ensures HasPrefix(Clean(full), Clean(p))
  {
    assert full == p + full[|p|..];
    CollapseConcat(true, p, full[|p|..]);
  }

  /** The listed directory is sound: it is a prefix of every key the schedule renders,
      whatever the instant. */
  lemma PrefixIsSound(template: string, c: Context)
    requires RetentionPrefix(template, c.schedule, c.host) != ""
    ensures HasPrefix(RenderPath(template, c), RetentionPrefix(template, c.schedule, c.host))
  {
    hide Expand, Blank, IndexOf, Collapse, LastSlash, Stable;
    var st, full := Expand(template, c, true), Expand(template, c, false);
    StableIgnoresTime(template, c.schedule, c.host, c.at);
    forall tk | tk in TIME_TOKENS ensures IsTimeText(tk) {
      TimeTextShape(tk);
    }
    var cut := BlankAllCuts(st, TIME_TOKENS);
    var w := Agreement(template, c);
    assert cut <= w;
    var t := BlankAll(st, TIME_TOKENS)[..cut];
    var j := LastSlash(t);
    assert t[..j + 1] == st[..cut][..j + 1] == st[..w][..j + 1] == full[..w][..j + 1] == full[..j + 1];
    CleanPrefix(t[..j + 1], full);
  }

  /** Where the part of a text that does not change with time ends: before the first time
      placeholder or NUL, or at the end. */
  ghost predicate StableEnd(s: string, cut: nat) {
    && cut <= |s|
    && (forall k :: 0 <= k < cut ==> s[k] != NUL)
    && (forall tk, w :: tk in TIME_TOKENS && Occurs(s, tk, w) ==> cut <= w)
    && (cut < |s| ==> s[cut] == NUL || exists tk :: tk in TIME_TOKENS && Occurs(s, tk, cut))
  }

  lemma StableEndUnique(s: string, a: nat, b: nat)
    requires StableEnd(s, a) && StableEnd(s, b)
    ensures a == b
  {
    hide Occurs;
  }

  lemma CutIsStableEnd(s: string, cut: nat)
    requires CutAt(s, BlankAll(s, TIME_TOKENS), TIME_TOKENS, cut)
    ensures StableEnd(s, cut)
  {
    hide Occurs, BlankAll, IndexOf;
    var b := BlankAll(s, TIME_TOKENS);
    assert forall k :: 0 <= k < cut ==> s[k] == s[..cut][k] == b[..cut][k] == b[k];
  }

  lemma LastSlashIs(t: string, j: int)
    requires -1 <= j < |t| && (j >= 0 ==> t[j] == '/') && forall k :: j < k < |t| ==> t[k] != '/'
    ensures LastSlash(t) == j
  {
  }

  /** The listed directory is exactly the stable part of the rendered template up to its
      last slash, and there is none if that part has no slash. */
  lemma PrefixExactly(template: string, c: Context, cut: nat, j: int)
    requires var st := Expand(template, c, true);
      StableEnd(st, cut) && -1 <= j < cut && (j >= 0 ==> st[j] == '/') && forall k :: j < k < cut ==> st[k] != '/'
    ensures RetentionPrefix(template, c.schedule, c.host) == if j >= 0 then Clean(Expand(template, c, true)[..j + 1]) else ""
  {
    hide Expand, Blank, IndexOf, Collapse, LastSlash, Stable, StableEnd, CutAt;
    var st := Expand(template, c, true);
    StableIgnoresTime(template, c.schedule, c.host, c.at);
    forall tk | tk in TIME_TOKENS ensures IsTimeText(tk) {
      TimeTextShape(tk);
    }
    var at := BlankAllCuts(st, TIME_TOKENS);
    CutIsStableEnd(st, at);
    StableEndUnique(st, at, cut);
    CutReads(st, BlankAll(st, TIME_TOKENS), TIME_TOKENS, cut);
    var t := st[..cut];
    assert forall k :: 0 <= k < cut ==> t[k] == st[k];
    LastSlashIs(t, j);
    assert t[..j + 1] == st[..j + 1];
  }

  lemma CutReads(s: string, b: string, done: seq<string>, cut: nat)
    requires CutAt(s, b, done, cut)
    ensures cut <= |s| && IndexOf(b, NUL) == cut && b[..cut] == s[..cut]
  {
    hide Occurs;
  }
}
