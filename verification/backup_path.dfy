/** Naming of backup objects: a path template is rendered into an object key, turned
    into a matcher for the keys a schedule produces, and cut down to the directory
    that is listed before old objects are deleted. Strings are sequences of bytes. */
module BackupPath {
  import opened Text

  // ---- names as path segments ----

  predicate IsControl(c: char) {
    c as int < 0x20 || c as int == 0x7f
  }

  predicate BecomesDash(c: char) {
    c == '/' || c == '\\' || IsControl(c) || c == ' '
  }

  /** Separators, control characters and blanks become single dashes; `dashed` says
      that the last thing written was such a dash. */
  function Dashed(name: string, dashed: bool): string
    decreases |name|
  {
    if name == "" then ""
    else if BecomesDash(name[0]) then (if dashed then "" else "-") + Dashed(name[1..], true)
    else [name[0]] + Dashed(name[1..], false)
  }

  predicate IsEdge(c: char) {
    c == '-' || c == '.'
  }

  function TrimEdgesLeft(s: string): string {
    if s != "" && IsEdge(s[0]) then TrimEdgesLeft(s[1..]) else s
  }

  function TrimEdgesRight(s: string): string {
    if s != "" && IsEdge(s[|s| - 1]) then TrimEdgesRight(s[..|s| - 1]) else s
  }

  function Slug(name: string): string {
    var out := TrimEdgesRight(TrimEdgesLeft(Dashed(name, false)));
    if out == "" then "default" else out
  }

  /** What a value must be like not to disturb the slashes around it. */
  predicate Segment(s: string) {
    s != "" && '/' !in s
  }

  lemma {:induction false} DashedIsClean(name: string, dashed: bool)
    ensures forall c :: c in Dashed(name, dashed) ==> !BecomesDash(c)
    decreases |name|
  {
    if name != "" {
      DashedIsClean(name[1..], true);
      DashedIsClean(name[1..], false);
    }
  }

  lemma {:induction false} TrimLeftMembers(s: string)
    ensures forall c :: c in TrimEdgesLeft(s) ==> c in s
  {
    if s != "" && IsEdge(s[0]) {
      TrimLeftMembers(s[1..]);
    }
  }

  lemma {:induction false} TrimRightMembers(s: string)
    ensures forall c :: c in TrimEdgesRight(s) ==> c in s
  {
    if s != "" && IsEdge(s[|s| - 1]) {
      TrimRightMembers(s[..|s| - 1]);
    }
  }

  /** A slug is one path segment without separators, blanks or control characters. */
  lemma SlugIsSegment(name: string)
    ensures Segment(Slug(name)) && forall c :: c in Slug(name) ==> !BecomesDash(c)
  {
    hide Dashed, TrimEdgesLeft, TrimEdgesRight;
    var d := Dashed(name, false);
    DashedIsClean(name, false);
    TrimLeftMembers(d);
    TrimRightMembers(TrimEdgesLeft(d));
    assert forall c :: c in "default" ==> !BecomesDash(c);
  }

  /** A name of which nothing has to be replaced or taken off. */
  predicate CleanName(name: string) {
    name != "" && !IsEdge(name[0]) && !IsEdge(name[|name| - 1]) && forall c :: c in name ==> !BecomesDash(c)
  }

  lemma {:induction false} DashedKeeps(a: string, b: string, dashed: bool)
    requires a != "" && forall c :: c in a ==> !BecomesDash(c)
    ensures Dashed(a + b, dashed) == a + Dashed(b, false)
    decreases |a|
  {
    hide BecomesDash;
    assert a[0] in a && forall c :: c in a[1..] ==> c in a;
    assert (a + b)[1..] == a[1..] + b;
    if |a| == 1 {
      assert a[1..] + b == b && a == [a[0]];
    } else {
      DashedKeeps(a[1..], b, false);
      assert a == [a[0]] + a[1..];
    }
  }

  lemma {:induction false} DashedRun(s: string, b: string)
    requires forall c :: c in s ==> BecomesDash(c)
    ensures Dashed(s + b, true) == Dashed(b, true)
    decreases |s|
  {
    hide BecomesDash;
    if s == "" {
      assert s + b == b;
    } else {
      assert s[0] in s && forall c :: c in s[1..] ==> c in s;
      assert (s + b)[1..] == s[1..] + b;
      DashedRun(s[1..], b);
    }
  }

  /** Such a name is its own slug, and a run of separators, blanks and control characters
      between two of them becomes one dash. */
  lemma SlugOfClean(a: string, sep: string, b: string)
    requires CleanName(a) && CleanName(b) && sep != "" && forall c :: c in sep ==> BecomesDash(c)
    ensures Slug(a) == a
    ensures Slug(a + sep + b) == a + "-" + b
  {
    hide BecomesDash;
    assert a + "" == a && b + "" == b;
    assert Dashed("", false) == "";
    DashedKeeps(a, "", false);
    DashedKeeps(a, sep + b, false);
    assert a + sep + b == a + (sep + b);
    assert (sep + b)[1..] == sep[1..] + b && sep[0] in sep && forall c :: c in sep[1..] ==> c in sep;
    DashedRun(sep[1..], b);
    DashedKeeps(b, "", true);
    assert Dashed(sep + b, false) == "-" + b;
    assert a + ("-" + b) == a + "-" + b;
  }

  method BuildSlug(name: string) returns (out: string)
    ensures out == Slug(name)
  {
    out := "";
    var lastDash := false;
    assert name[0..] == name;
    for i := 0 to |name|
      invariant out + Dashed(name[i..], lastDash) == Dashed(name, false)
    {
      assert name[i..][1..] == name[i + 1..];
      ghost var rest := Dashed(name[i + 1..], true);
      if BecomesDash(name[i]) {
        assert "" + rest == rest && out + "-" + rest == out + ("-" + rest);
        if !lastDash {
          out := out + "-";
          lastDash := true;
        }
      } else {
        ghost var more := Dashed(name[i + 1..], false);
        assert out + [name[i]] + more == out + ([name[i]] + more);
        out := out + [name[i]];
        lastDash := false;
      }
    }
    assert out + "" == out;
    out := TrimEdgesRight(TrimEdgesLeft(out));
    if out == "" {
      out := "default";
    }
  }

  // ---- canonical keys ----

  /** Slash runs become one slash; `slash` says that one was just written. */
  function Collapse(slash: bool, k: string): string
    decreases |k|
  {
    if k == "" then ""
    else if k[0] == '/' && slash then Collapse(true, k[1..])
    else [k[0]] + Collapse(k[0] == '/', k[1..])
  }

  /** The canonical key: no duplicate slashes, no leading one. */
  function Clean(k: string): string {
    Collapse(true, k)
  }

  predicate DoubleAt(k: string, i: nat) {
    i + 1 < |k| && k[i] == '/' && k[i + 1] == '/'
  }

  predicate Doubled(k: string) {
    exists i :: 0 <= i < |k| && DoubleAt(k, i)
  }

  lemma DoubledTail(k: string)
    requires k != ""
    ensures Doubled(k[1..]) ==> Doubled(k)
    ensures Doubled(k) && !DoubleAt(k, 0) ==> Doubled(k[1..])
  {
    if Doubled(k[1..]) {
      var i :| 0 <= i < |k[1..]| && DoubleAt(k[1..], i);
      assert DoubleAt(k, i + 1);
    }
    if Doubled(k) && !DoubleAt(k, 0) {
      var i :| 0 <= i < |k| && DoubleAt(k, i);
      assert DoubleAt(k[1..], i - 1);
    }
  }

  /** `ReplaceAll(k, "//", "/")` */
  function Halve(k: string): (r: string)
    ensures |r| <= |k|
    ensures Doubled(k) ==> |r| < |k|
    decreases |k|
  {
    if |k| >= 2 && k[0] == '/' && k[1] == '/' then "/" + Halve(k[2..])
    else if k == "" then ""
    else
      DoubledTail(k);
      [k[0]] + Halve(k[1..])
  }

  lemma {:induction false} HalveCollapses(slash: bool, k: string)
    ensures Collapse(slash, Halve(k)) == Collapse(slash, k)
    decreases |k|
  {
    if |k| >= 2 && k[0] == '/' && k[1] == '/' {
      HalveCollapses(true, k[2..]);
      assert ("/" + Halve(k[2..]))[1..] == Halve(k[2..]);
      assert k[1..][1..] == k[2..];
    } else if k != "" {
      HalveCollapses(true, k[1..]);
      HalveCollapses(false, k[1..]);
      assert ([k[0]] + Halve(k[1..]))[1..] == Halve(k[1..]);
    }
  }

  lemma {:induction false} NothingToCollapse(slash: bool, k: string)
    requires !Doubled(k) && (slash ==> k == "" || k[0] != '/')
    ensures Collapse(slash, k) == k
    decreases |k|
  {
    if k != "" {
      DoubledTail(k);
      assert !DoubleAt(k, 0);
      NothingToCollapse(k[0] == '/', k[1..]);
    }
  }

  lemma CleanOfUndoubled(k: string)
    requires !Doubled(k)
    ensures Clean(k) == if k != "" && k[0] == '/' then k[1..] else k
  {
    if k != "" && k[0] == '/' {
      DoubledTail(k);
      assert !DoubleAt(k, 0);
      NothingToCollapse(true, k[1..]);
    } else {
      NothingToCollapse(true, k);
    }
  }

  /** `cleanKey`: the loop ends, and its result is canonical. */
  method CleanKey(key: string) returns (k: string)
    ensures k == Clean(key)
  {
    hide Halve, Collapse;
    k := key;
    while Doubled(k)
      invariant Clean(k) == Clean(key)
      decreases |k|
    {
      HalveCollapses(true, k);
      k := Halve(k);
    }
    CleanOfUndoubled(k);
    if k != "" && k[0] == '/' {
      k := k[1..];
    }
  }

  lemma CleanOfNothing(slash: bool)
    ensures Collapse(slash, "") == ""
  {
  }

  lemma {:induction false} CollapseConcat(slash: bool, a: string, b: string)
    ensures Collapse(slash, a + b) == Collapse(slash, a) + Collapse(if a == "" then slash else a[|a| - 1] == '/', b)
    decreases |a|
  {
    hide Collapse;
    if a == "" {
      CleanOfNothing(slash);
      assert a + b == b;
    } else {
      var ch, rest := a[0], a[1..];
      assert a == [ch] + rest && a + b == [ch] + (rest + b);
      CollapseByte(slash, ch, rest + b);
      CollapseByte(slash, ch, rest);
      CollapseConcat(ch == '/', rest, b);
    }
  }

  lemma {:induction false} CollapseSegment(slash: bool, a: string)
    requires '/' !in a
    ensures Collapse(slash, a) == a
    decreases |a|
  {
    if a != "" {
      CollapseSegment(false, a[1..]);
    }
  }

  lemma CollapseAfter(slash: bool, a: string, b: string)
    requires Segment(a)
    ensures Collapse(slash, a + b) == a + Collapse(false, b)
  {
    CollapseConcat(slash, a, b);
    CollapseSegment(slash, a);
    assert a[|a| - 1] in a;
  }

  lemma {:induction false} CollapsedIsSingle(slash: bool, k: string)
    ensures !Doubled(Collapse(slash, k))
    ensures slash && Collapse(slash, k) != "" ==> Collapse(slash, k)[0] != '/'
    decreases |k|
  {
    if k != "" {
      CollapsedIsSingle(true, k[1..]);
      CollapsedIsSingle(false, k[1..]);
      if !(k[0] == '/' && slash) {
        var rest, r := Collapse(k[0] == '/', k[1..]), Collapse(slash, k);
        assert r[1..] == rest && !DoubleAt(r, 0);
        DoubledTail(r);
      }
    }
  }

  // ---- joining ----

  predicate Canonical(k: string) {
    !Doubled(k) && (k == "" || k[0] != '/')
  }

  function TrimSlashesLeft(s: string): (r: string)
    ensures r != "" ==> r[0] != '/'
  {
    if s != "" && s[0] == '/' then TrimSlashesLeft(s[1..]) else s
  }

  function TrimSlashesRight(s: string): (r: string)
    ensures r != "" ==> s != "" && r[0] == s[0]
  {
    if s != "" && s[|s| - 1] == '/' then TrimSlashesRight(s[..|s| - 1]) else s
  }

  function BasePrefix(prefix: string): string {
    TrimSlashesRight(TrimSlashesLeft(TrimSpace(prefix)))
  }

  /** `joinKey` */
  function JoinKey(prefix: string, key: string): string {
    var base, k := BasePrefix(prefix), Clean(key);
    if base == "" then k
    else if k == "" then base
    else Clean(base + "/" + k)
  }

  /** A joined key is canonical, except that a base prefix joined with nothing keeps the
      doubled slashes it has inside. */
  lemma JoinedIsCanonical(prefix: string, key: string)
    ensures Canonical(JoinKey(prefix, key)) <==> Clean(key) != "" || !Doubled(BasePrefix(prefix))
  {
    hide Collapse, TrimSpace, TrimSlashesLeft, TrimSlashesRight, Doubled;
    var base, k := BasePrefix(prefix), Clean(key);
    CollapsedIsSingle(true, key);
    CollapsedIsSingle(true, base + "/" + k);
    NothingDoubled();
  }

  lemma NothingDoubled()
    ensures !Doubled("")
  {
  }

  /** `stripPrefix`: the key of a listed object, without the base prefix. */
  function Strip(full: string, base: string): string {
    if base == "" then full
    else
      var rel := if HasPrefix(full, base) then full[|base|..] else full;
      if rel != "" && rel[0] == '/' then rel[1..] else rel
  }

  lemma {:induction false} TrimSlashesRightEnds(s: string)
    ensures TrimSlashesRight(s) != "" ==> TrimSlashesRight(s)[|TrimSlashesRight(s)| - 1] != '/'
  {
    if s != "" && s[|s| - 1] == '/' {
      TrimSlashesRightEnds(s[..|s| - 1]);
    }
  }

  /** A base prefix neither begins nor ends with a slash. */
  lemma BaseEnds(prefix: string)
    ensures var b := BasePrefix(prefix); b != "" ==> b[0] != '/' && b[|b| - 1] != '/'
  {
    hide TrimSpace, TrimSlashesLeft, TrimSlashesRight;
    TrimSlashesRightEnds(TrimSlashesLeft(TrimSpace(prefix)));
  }

  lemma CanonicalIsClean(k: string)
    requires Canonical(k)
    ensures Clean(k) == k
  {
    hide Collapse, Doubled;
    NothingToCollapse(true, k);
  }

  lemma CleanJoined(b: string, k: string)
    requires b != "" && b[|b| - 1] != '/' && Canonical(k)
    ensures Clean(b + "/" + k) == Clean(b) + "/" + k
  {
    hide Doubled;
    CollapseConcat(true, b, "/" + k);
    assert b + ("/" + k) == b + "/" + k;
    assert ("/" + k)[1..] == k;
    CanonicalIsClean(k);
    assert Clean(b) + ("/" + k) == Clean(b) + "/" + k;
  }

  /** What a key is stored under. */
  lemma JoinedKey(prefix: string, k: string)
    requires Canonical(k) && k != ""
    ensures JoinKey(prefix, k) == if BasePrefix(prefix) == "" then k else Clean(BasePrefix(prefix)) + "/" + k
    ensures JoinKey(prefix, "") == BasePrefix(prefix)
  {
    hide Collapse, Doubled, BasePrefix, Canonical;
    BaseEnds(prefix);
    CanonicalIsClean(k);
    CleanOfNothing(true);
    if BasePrefix(prefix) != "" {
      CleanJoined(BasePrefix(prefix), k);
    }
  }

  lemma DoubledInside(a: string, s: string)
    requires HasPrefix(s, a) && Doubled(a)
    ensures Doubled(s)
  {
    var i :| 0 <= i < |a| && DoubleAt(a, i);
    assert s[..|a|] == a;
    assert s[i] == a[i] && s[i + 1] == a[i + 1];
    assert DoubleAt(s, i);
  }

  lemma {:induction false} CleanStarts(b: string)
    requires b != "" && b[0] != '/'
    ensures Clean(b) != "" && Clean(b)[0] == b[0]
  {
  }

  /** A listed key is the one that was stored, exactly if the base prefix has no doubled
      slash inside; otherwise it keeps the cleaned prefix. */
  lemma StripOfJoined(prefix: string, k: string)
    requires Canonical(k) && k != ""
    ensures var rel := Strip(JoinKey(prefix, k), JoinKey(prefix, ""));
      if Doubled(BasePrefix(prefix)) then rel == Clean(BasePrefix(prefix)) + "/" + k else rel == k
  {
    hide Collapse, Doubled, BasePrefix, JoinKey, Canonical;
    var b, full := BasePrefix(prefix), JoinKey(prefix, k);
    BaseEnds(prefix);
    JoinedKey(prefix, k);
    NothingDoubled();
    if b != "" {
      CleanStarts(b);
      if Doubled(b) {
        JoinedIsCanonical(prefix, k);
        CanonicalIsClean(k);
        if HasPrefix(full, b) {
          DoubledInside(b, full);
          assert false by { assert Canonical(full); CanonicalIsSingle(full); }
        }
      } else {
        CleanOfUndoubled(b);
        assert full == b + ("/" + k);
        assert full[..|b|] == b && full[|b|..] == "/" + k && ("/" + k)[1..] == k;
      }
    }
  }

  lemma CanonicalIsSingle(k: string)
    requires Canonical(k)
    ensures !Doubled(k)
  {
  }

  lemma CanonicalPrefix(k: string, p: string)
    requires Canonical(k) && HasPrefix(k, p)
    ensures Canonical(p)
  {
    if Doubled(p) {
      DoubledInside(p, k);
    }
    assert p != "" ==> p[0] == k[0];
  }

  /** A listing by a prefix of a key finds what is stored under the key. */
  lemma JoinKeepsPrefix(prefix: string, k: string, p: string)
    requires Canonical(k) && HasPrefix(k, p) && p != ""
    ensures HasPrefix(JoinKey(prefix, k), JoinKey(prefix, p))
  {
    hide Collapse, Doubled, BasePrefix, JoinKey, Canonical;
    CanonicalPrefix(k, p);
    JoinedKey(prefix, k);
    JoinedKey(prefix, p);
    var b := Clean(BasePrefix(prefix)) + "/";
    assert k == p + k[|p|..];
    assert b + k == (b + p) + k[|p|..];
  }

  // ---- rendering ----

  /** An instant in UTC, in the years that print with four digits. */
  type Instant = t: Clock | t.year <= 9999 && 1 <= t.month <= 12 && 1 <= t.day <= 31 && t.hour < 24 && t.minute < 60 && t.second < 60
    witness Clock(0, 1, 1, 0, 0, 0)

  datatype Clock = Clock(year: nat, month: nat, day: nat, hour: nat, minute: nat, second: nat)

  function Pad(n: nat, w: nat): (s: string)
    ensures |s| == w && AllDigits(s)
  {
    if w == 0 then "" else Pad(n / 10, w - 1) + [Digit(n % 10)]
  }

  datatype Token = Schedule | Host | Year | Month | Day | Date | Time | Stamp

  /** The placeholder that a `{...}` chunk is, if any. */
  function Known(chunk: string): Option<Token> {
    if chunk == "{schedule}" then Some(Schedule)
    else if chunk == "{host}" then Some(Host)
    else if chunk == "{year}" || chunk == "{YYYY}" then Some(Year)
    else if chunk == "{month}" || chunk == "{MM}" then Some(Month)
    else if chunk == "{day}" || chunk == "{DD}" then Some(Day)
    else if chunk == "{date}" then Some(Date)
    else if chunk == "{time}" then Some(Time)
    else if chunk == "{datetime}" || chunk == "{ts}" then Some(Stamp)
    else None
  }

  /** Who backs up, and when. */
  datatype Context = Context(schedule: string, host: string, at: Instant)

  function DateText(t: Instant): string {
    Pad(t.year, 4) + Pad(t.month, 2) + Pad(t.day, 2)
  }

  function TimeText(t: Instant): string {
    Pad(t.hour, 2) + Pad(t.minute, 2) + Pad(t.second, 2)
  }

  function TokenText(t: Token, c: Context): string {
    match t
    case Schedule => Slug(c.schedule)
    case Host => Slug(c.host)
    case Year => Pad(c.at.year, 4)
    case Month => Pad(c.at.month, 2)
    case Day => Pad(c.at.day, 2)
    case Date => DateText(c.at)
    case Time => TimeText(c.at)
    case Stamp => DateText(c.at) + "-" + TimeText(c.at)
  }

  predicate IsTime(t: Token) {
    !t.Schedule? && !t.Host?
  }

  /** The placeholder at the head of s: its text ends at the first closing brace. */
  function AtHead(s: string): Option<Token> {
    var j := IndexOf(s, '}');
    if s != "" && s[0] == '{' && j < |s| then Known(s[..j + 1]) else None
  }

  /** Left to right replacement; with `stable` the time placeholders stay. */
  function Expand(s: string, c: Context, stable: bool): string
    decreases |s|
  {
    if s == "" then ""
    else
      var t := AtHead(s);
      if t.Some? && !(stable && IsTime(t.value)) then
        TokenText(t.value, c) + Expand(s[IndexOf(s, '}') + 1..], c, stable)
      else [s[0]] + Expand(s[1..], c, stable)
  }

  function RenderPath(template: string, c: Context): string {
    Clean(Expand(template, c, false))
  }

  lemma TextIsSegment(t: Token, c: Context)
    ensures Segment(TokenText(t, c))
  {
    hide Slug, Pad;
    SlugIsSegment(c.schedule);
    SlugIsSegment(c.host);
  }

  lemma KnownIsSegment(chunk: string)
    requires Known(chunk).Some?
    ensures Segment(chunk) && |chunk| >= 4 && chunk[0] == '{' && chunk[|chunk| - 1] == '}'
    ensures forall k :: 0 < k < |chunk| - 1 ==> chunk[k] != '{' && chunk[k] != '}' && chunk[k] as int != 0
  {
  }

  // ---- cleaning before or after rendering ----

  lemma {:induction false} CollapseKeepsHead(s: string, n: nat)
    requires n <= |Collapse(false, s)| && '/' !in Collapse(false, s)[..n]
    ensures n <= |s| && s[..n] == Collapse(false, s)[..n]
    decreases |s|
  {
    var k := Collapse(false, s);
    if n > 0 {
      assert k[0] in k[..n];
      assert k[1..][..n - 1] == k[..n][1..];
      CollapseKeepsHead(s[1..], n - 1);
      assert s[..n] == [s[0]] + s[1..][..n - 1];
    }
  }

  lemma ChunkEnds(chunk: string, rest: string)
    requires Known(chunk).Some?
    ensures IndexOf(chunk + rest, '}') == |chunk| - 1 && (chunk + rest)[..|chunk|] == chunk
    ensures AtHead(chunk + rest) == Known(chunk)
  {
    hide Known;
    KnownIsSegment(chunk);
    var s := chunk + rest;
    assert s[|chunk| - 1] == '}' && forall k :: 0 <= k < |chunk| - 1 ==> s[k] == chunk[k];
    assert s[..|chunk|] == chunk;
  }

  lemma HeadKept(s: string)
    requires AtHead("{" + s).Some?
    ensures AtHead("{" + Collapse(false, s)) == AtHead("{" + s)
  {
    hide Known, Collapse, IndexOf, AtHead;
    var a := "{" + s;
    HeadChunk(a);
    var chunk, rest := a[..IndexOf(a, '}') + 1], a[IndexOf(a, '}') + 1..];
    KnownIsSegment(chunk);
    assert s == a[1..] == chunk[1..] + rest;
    CollapseAfter(false, chunk[1..], rest);
    assert "{" + (chunk[1..] + Collapse(false, rest)) == chunk + Collapse(false, rest);
    ChunkEnds(chunk, Collapse(false, rest));
  }

  lemma HeadNotMade(s: string)
    requires AtHead("{" + Collapse(false, s)).Some?
    ensures AtHead("{" + Collapse(false, s)) == AtHead("{" + s)
  {
    hide Known, Collapse, IndexOf, AtHead;
    var b := "{" + Collapse(false, s);
    HeadChunk(b);
    var j := IndexOf(b, '}');
    var chunk := b[..j + 1];
    KnownIsSegment(chunk);
    assert Collapse(false, s)[..j] == b[1..j + 1] == chunk[1..];
    CollapseKeepsHead(s, j);
    assert "{" + s == chunk + s[j..];
    ChunkEnds(chunk, s[j..]);
  }

  /** A placeholder at the head is neither made nor broken by cleaning what follows. */
  lemma HeadSurvives(s: string)
    ensures AtHead("{" + Collapse(false, s)) == AtHead("{" + s)
  {
    hide AtHead, Collapse;
    if AtHead("{" + s).Some? {
      HeadKept(s);
    } else if AtHead("{" + Collapse(false, s)).Some? {
      HeadNotMade(s);
    }
  }

  lemma ExpandByte(ch: char, s: string, c: Context, stable: bool)
    requires ch == '{' ==> AtHead([ch] + s).None? || (stable && IsTime(AtHead([ch] + s).value))
    ensures Expand([ch] + s, c, stable) == [ch] + Expand(s, c, stable)
  {
    hide TokenText, Known;
    assert ([ch] + s)[1..] == s;
  }

  lemma ExpandToken(chunk: string, rest: string, c: Context, stable: bool)
    requires Known(chunk).Some? && !(stable && IsTime(Known(chunk).value))
    ensures Expand(chunk + rest, c, stable) == TokenText(Known(chunk).value, c) + Expand(rest, c, stable)
  {
    hide TokenText, Known, IndexOf;
    ChunkEnds(chunk, rest);
    KnownIsSegment(chunk);
    assert (chunk + rest)[|chunk|..] == rest;
  }

  /** Cleaning the rendered template is rendering the cleaned template: no value is
      empty or has a slash. */
  lemma {:induction false} CleanCommutes(slash: bool, s: string, c: Context, stable: bool)
    ensures Collapse(slash, Expand(s, c, stable)) == Expand(Collapse(slash, s), c, stable)
    decreases |s|
  {
    hide TokenText, Known, IndexOf, Collapse, AtHead, Expand;
    if s == "" {
      NothingExpands(slash, c, stable);
    } else {
      var t := AtHead(s);
      if t.Some? && !(stable && IsTime(t.value)) {
        CleanCommutesToken(slash, s, c, stable);
      } else {
        CleanCommutesByte(slash, s, c, stable);
      }
    }
  }

  lemma NothingExpands(slash: bool, c: Context, stable: bool)
    ensures Expand("", c, stable) == "" && Collapse(slash, "") == ""
  {
  }

  lemma HeadChunk(s: string)
    requires AtHead(s).Some?
    ensures var j := IndexOf(s, '}'); j < |s| && Known(s[..j + 1]) == AtHead(s) && s == s[..j + 1] + s[j + 1..]
  {
    hide Known, IndexOf;
  }

  lemma CleanCommutesToken(slash: bool, s: string, c: Context, stable: bool)
    requires AtHead(s).Some? && !(stable && IsTime(AtHead(s).value))
    ensures Collapse(slash, Expand(s, c, stable)) == Expand(Collapse(slash, s), c, stable)
    decreases |s|, 0
  {
    hide TokenText, Known, IndexOf, Collapse, AtHead, Expand;
    HeadChunk(s);
    var j := IndexOf(s, '}');
    var chunk, rest := s[..j + 1], s[j + 1..];
    var text := TokenText(Known(chunk).value, c);
    KnownIsSegment(chunk);
    TextIsSegment(Known(chunk).value, c);
    ExpandToken(chunk, rest, c, stable);
    CollapseAfter(slash, text, Expand(rest, c, stable));
    CollapseAfter(slash, chunk, rest);
    ExpandToken(chunk, Collapse(false, rest), c, stable);
    CleanCommutes(false, rest, c, stable);
  }

  lemma CollapseByte(slash: bool, ch: char, s: string)
    ensures Collapse(slash, [ch] + s) == if ch == '/' && slash then Collapse(true, s) else [ch] + Collapse(ch == '/', s)
  {
    assert ([ch] + s)[1..] == s;
  }

  lemma CleanCommutesByte(slash: bool, s: string, c: Context, stable: bool)
    requires s != "" && (AtHead(s).None? || (stable && IsTime(AtHead(s).value)))
    ensures Collapse(slash, Expand(s, c, stable)) == Expand(Collapse(slash, s), c, stable)
    decreases |s|, 0
  {
    hide TokenText, Known, IndexOf, Collapse, AtHead, Expand;
    var ch, rest := s[0], s[1..];
    assert s == [ch] + rest;
    ExpandByte(ch, rest, c, stable);
    CollapseByte(slash, ch, Expand(rest, c, stable));
    CollapseByte(slash, ch, rest);
    CleanCommutes(ch == '/', rest, c, stable);
    if ch == '{' {
      HeadSurvives(rest);
      assert "{" + rest == s;
    }
    ExpandByte(ch, Collapse(ch == '/', rest), c, stable);
  }

  // ---- the matcher ----

  /** A template cut up: everything from a brace to the next closing one, and the
      bytes in between. */
  datatype Piece = Chunk(text: string) | Byte(c: char)

  function HeadPiece(s: string): Piece
    requires s != ""
  {
    var j := IndexOf(s, '}');
    if s[0] == '{' && j < |s| then Chunk(s[..j + 1]) else Byte(s[0])
  }

  function AfterHead(s: string): (rest: string)
    requires s != ""
    ensures |rest| < |s|
  {
    var j := IndexOf(s, '}');
    if s[0] == '{' && j < |s| then s[j + 1..] else s[1..]
  }

  function Pieces(s: string): seq<Piece>
    decreases |s|
  {
    if s == "" then [] else [HeadPiece(s)] + Pieces(AfterHead(s))
  }

  /** What a regular expression is built from here. */
  datatype Atom = Literal(text: string) | Digits(n: nat)

  /** A single byte put into the expression as the character of that number: from 128
      on that character is two bytes long. */
  function AsCharacter(b: char): string {
    if b as int < 128 then [b] else [(0xC0 + b as int / 64) as char, (0x80 + b as int % 64) as char]
  }

  function TokenAtoms(t: Token, schedule: string, host: string): seq<Atom> {
    match t
    case Schedule => [Literal(Slug(schedule))]
    case Host => [Literal(Slug(host))]
    case Year => [Digits(4)]
    case Month => [Digits(2)]
    case Day => [Digits(2)]
    case Date => [Digits(8)]
    case Time => [Digits(6)]
    case Stamp => [Digits(8), Literal("-"), Digits(6)]
  }

  function ChunkAtoms(text: string, schedule: string, host: string): seq<Atom> {
    match Known(text)
    case Some(t) => TokenAtoms(t, schedule, host)
    case None => [Literal(text)]
  }

  function PieceAtoms(p: Piece, schedule: string, host: string): seq<Atom> {
    match p
    case Chunk(text) => ChunkAtoms(text, schedule, host)
    case Byte(c) => [Literal(AsCharacter(c))]
  }

  function Atoms(ps: seq<Piece>, schedule: string, host: string): seq<Atom> {
    if ps == [] then [] else PieceAtoms(ps[0], schedule, host) + Atoms(ps[1..], schedule, host)
  }

  /** The anchored expression for the keys that a schedule produces. */
  function Matcher(template: string, schedule: string, host: string): seq<Atom> {
    Atoms(Pieces(Clean(template)), schedule, host)
  }

  method MatcherPattern(template: string, schedule: string, host: string) returns (pattern: seq<Atom>)
    ensures pattern == Matcher(template, schedule, host)
  {
    hide Clean, ChunkAtoms, AsCharacter, IndexOf, Pieces, Atoms;
    var tpl := CleanKey(template);
    ghost var all := Matcher(template, schedule, host);
    NoAtoms(schedule, host);
    pattern := [];
    var i := 0;
    assert tpl[0..] == tpl;
    while i < |tpl|
      invariant 0 <= i <= |tpl|
      invariant pattern + Atoms(Pieces(tpl[i..]), schedule, host) == all
      decreases |tpl| - i
    {
      var rest := tpl[i..];
      var j := IndexOf(rest, '}');
      if rest[0] == '{' && j < |rest| {
        ChunkFirst(rest, schedule, host);
        assert rest[j + 1..] == tpl[i + j + 1..];
        pattern := pattern + ChunkAtoms(rest[..j + 1], schedule, host);
        i := i + j + 1;
      } else {
        ByteFirst(rest, schedule, host);
        assert rest[1..] == tpl[i + 1..];
        pattern := pattern + [Literal(AsCharacter(rest[0]))];
        i := i + 1;
      }
    }
    assert tpl[i..] == "" && pattern + [] == pattern;
  }

  lemma NoAtoms(schedule: string, host: string)
    ensures Atoms(Pieces(""), schedule, host) == []
  {
  }

  lemma ChunkFirst(s: string, schedule: string, host: string)
    requires s != "" && s[0] == '{' && IndexOf(s, '}') < |s|
    ensures var j := IndexOf(s, '}');
      Atoms(Pieces(s), schedule, host) == ChunkAtoms(s[..j + 1], schedule, host) + Atoms(Pieces(s[j + 1..]), schedule, host)
  {
    hide IndexOf, ChunkAtoms, AsCharacter, Pieces;
    PiecesTail(s);
  }

  lemma ByteFirst(s: string, schedule: string, host: string)
    requires s != "" && !(s[0] == '{' && IndexOf(s, '}') < |s|)
    ensures Atoms(Pieces(s), schedule, host) == [Literal(AsCharacter(s[0]))] + Atoms(Pieces(s[1..]), schedule, host)
  {
    hide IndexOf, ChunkAtoms, AsCharacter, Pieces;
    PiecesTail(s);
  }

  // ---- matching ----

  function Width(a: Atom): nat {
    match a
    case Literal(text) => |text|
    case Digits(n) => n
  }

  predicate Fits(a: Atom, s: string) {
    match a
    case Literal(text) => s == text
    case Digits(n) => |s| == n && AllDigits(s)
  }

  /** The expression matches the whole of s. */
  predicate Matches(pattern: seq<Atom>, s: string) {
    if pattern == [] then s == ""
    else
      var w := Width(pattern[0]);
      w <= |s| && Fits(pattern[0], s[..w]) && Matches(pattern[1..], s[w..])
  }

  function TotalWidth(pattern: seq<Atom>): nat {
    if pattern == [] then 0 else Width(pattern[0]) + TotalWidth(pattern[1..])
  }

  lemma {:induction false} MatchedWidth(pattern: seq<Atom>, s: string)
    requires Matches(pattern, s)
    ensures |s| == TotalWidth(pattern)
    decreases |pattern|
  {
    if pattern != [] {
      MatchedWidth(pattern[1..], s[Width(pattern[0])..]);
    }
  }

  lemma {:induction false} WidthConcat(a: seq<Atom>, b: seq<Atom>)
    ensures TotalWidth(a + b) == TotalWidth(a) + TotalWidth(b)
    decreases |a|
  {
    if a == [] {
      assert a + b == b;
    } else {
      assert (a + b)[1..] == a[1..] + b;
      WidthConcat(a[1..], b);
    }
  }

  lemma {:induction false} MatchConcat(a: seq<Atom>, b: seq<Atom>, s: string, t: string)
    requires Matches(a, s) && Matches(b, t)
    ensures Matches(a + b, s + t)
    decreases |a|
  {
    hide Fits;
    if a == [] {
      assert a + b == b && s + t == t;
    } else {
      var w := Width(a[0]);
      assert (a + b)[1..] == a[1..] + b;
      assert (s + t)[..w] == s[..w] && (s + t)[w..] == s[w..] + t;
      MatchConcat(a[1..], b, s[w..], t);
    }
  }

  lemma MatchOne(a: Atom, s: string)
    requires Fits(a, s)
    ensures Matches([a], s)
  {
    assert s[..|s|] == s && s[|s|..] == "";
    assert [a][1..] == [];
  }

  lemma DigitsConcat(a: string, b: string)
    requires AllDigits(a) && AllDigits(b)
    ensures AllDigits(a + b)
  {
  }

  lemma ClockDigits(t: Instant)
    ensures AllDigits(DateText(t)) && |DateText(t)| == 8
    ensures AllDigits(TimeText(t)) && |TimeText(t)| == 6
  {
    hide Pad;
    DigitsConcat(Pad(t.year, 4), Pad(t.month, 2));
    DigitsConcat(Pad(t.year, 4) + Pad(t.month, 2), Pad(t.day, 2));
    DigitsConcat(Pad(t.hour, 2), Pad(t.minute, 2));
    DigitsConcat(Pad(t.hour, 2) + Pad(t.minute, 2), Pad(t.second, 2));
  }

  /** Every placeholder's pattern matches its text, whenever it is rendered. */
  lemma TokenMatches(t: Token, c: Context)
    ensures Matches(TokenAtoms(t, c.schedule, c.host), TokenText(t, c))
  {
    hide Matches, Slug, DateText, TimeText, Pad;
    ClockDigits(c.at);
    if t.Stamp? {
      StampMatches(c);
    } else {
      MatchOne(TokenAtoms(t, c.schedule, c.host)[0], TokenText(t, c));
    }
  }

  lemma StampMatches(c: Context)
    ensures Matches([Digits(8), Literal("-"), Digits(6)], DateText(c.at) + "-" + TimeText(c.at))
  {
    hide Matches, DateText, TimeText;
    ClockDigits(c.at);
    MatchOne(Digits(8), DateText(c.at));
    MatchOne(Literal("-"), "-");
    MatchOne(Digits(6), TimeText(c.at));
    MatchConcat([Digits(8)], [Literal("-")], DateText(c.at), "-");
    MatchConcat([Digits(8)] + [Literal("-")], [Digits(6)], DateText(c.at) + "-", TimeText(c.at));
    assert [Digits(8)] + [Literal("-")] + [Digits(6)] == [Digits(8), Literal("-"), Digits(6)];
  }

  // ---- rendering and matching the same template ----

  /** A chunk of a template: an opening brace and everything to the next closing one. */
  predicate IsChunk(text: string) {
    text != "" && text[0] == '{' && IndexOf(text, '}') == |text| - 1
  }

  function RenderPiece(p: Piece, c: Context): string {
    match p
    case Chunk(text) => Expand(text, c, false)
    case Byte(b) => [b]
  }

  function RenderPieces(ps: seq<Piece>, c: Context): string {
    if ps == [] then "" else RenderPiece(ps[0], c) + RenderPieces(ps[1..], c)
  }

  predicate WellCut(ps: seq<Piece>) {
    forall p :: p in ps && p.Chunk? ==> IsChunk(p.text)
  }

  lemma PiecesTail(s: string)
    requires s != ""
    ensures Pieces(s) == [HeadPiece(s)] + Pieces(AfterHead(s))
    ensures Pieces(s)[0] == HeadPiece(s) && Pieces(s)[1..] == Pieces(AfterHead(s))
  {
    hide HeadPiece, AfterHead;
  }

  lemma HeadWellCut(s: string)
    requires s != ""
    ensures HeadPiece(s).Chunk? ==> IsChunk(HeadPiece(s).text)
  {
    hide IndexOf;
    var j := IndexOf(s, '}');
    if s[0] == '{' && j < |s| {
      FirstStays(s[..j + 1], s[j + 1..]);
      assert s == s[..j + 1] + s[j + 1..];
    }
  }

  /** The first closing brace is the same whatever follows it. */
  lemma FirstStays(a: string, rest: string)
    requires a != "" && a[|a| - 1] == '}' && (IndexOf(a, '}') == |a| - 1 || IndexOf(a + rest, '}') == |a| - 1)
    ensures IndexOf(a, '}') == |a| - 1 && IndexOf(a + rest, '}') == |a| - 1
  {
    hide IndexOf;
    assert forall k :: 0 <= k < |a| ==> (a + rest)[k] == a[k];
  }

  lemma {:induction false} PiecesAreWellCut(s: string)
    ensures WellCut(Pieces(s))
    decreases |s|
  {
    hide HeadPiece, AfterHead, IsChunk;
    if s != "" {
      PiecesTail(s);
      HeadWellCut(s);
      PiecesAreWellCut(AfterHead(s));
    }
  }

  lemma ChunkTail(a: string)
    requires |a| > 1 && IndexOf(a, '}') == |a| - 1
    ensures IndexOf(a[1..], '}') == |a[1..]| - 1
  {
    hide IndexOf;
    assert forall k :: 0 <= k < |a| - 1 ==> a[1..][k] == a[k + 1];
  }

  lemma WholeHead(a: string, rest: string)
    requires a != "" && IndexOf(a, '}') == |a| - 1
    ensures AtHead(a + rest) == if a[0] == '{' then Known(a) else None
  {
    hide IndexOf, Known;
    FirstStays(a, rest);
    assert (a + rest)[..|a|] == a;
  }

  /** A chunk is rendered on its own, whatever follows it. */
  lemma {:induction false} ExpandChunk(a: string, rest: string, c: Context)
    requires a != "" && IndexOf(a, '}') == |a| - 1
    ensures Expand(a + rest, c, false) == Expand(a, c, false) + Expand(rest, c, false)
    decreases |a|
  {
    hide TokenText, Known, Expand, IndexOf, AtHead;
    WholeHead(a, rest);
    WholeHead(a, "");
    assert a + "" == a;
    NothingExpands(false, c, false);
    if a[0] == '{' && Known(a).Some? {
      ExpandToken(a, rest, c, false);
      ExpandToken(a, "", c, false);
    } else {
      var tail := a[1..];
      assert a == [a[0]] + tail && a + rest == [a[0]] + (tail + rest);
      ExpandByte(a[0], tail, c, false);
      ExpandByte(a[0], tail + rest, c, false);
      if tail == "" {
        assert tail + rest == rest;
      } else {
        ChunkTail(a);
        ExpandChunk(tail, rest, c);
      }
    }
  }

  lemma ExpandHead(s: string, c: Context)
    requires s != ""
    ensures Expand(s, c, false) == RenderPiece(HeadPiece(s), c) + Expand(AfterHead(s), c, false)
  {
    hide TokenText, Known, Expand, IndexOf, AtHead;
    var j := IndexOf(s, '}');
    if s[0] == '{' && j < |s| {
      assert s == s[..j + 1] + s[j + 1..];
      FirstStays(s[..j + 1], s[j + 1..]);
      ExpandChunk(s[..j + 1], s[j + 1..], c);
    } else {
      NoHead(s);
      assert s == [s[0]] + s[1..];
      ExpandByte(s[0], s[1..], c, false);
    }
  }

  /** Every template is rendered piece by piece. */
  lemma {:induction false} ExpandIsPieces(s: string, c: Context)
    ensures Expand(s, c, false) == RenderPieces(Pieces(s), c)
    decreases |s|
  {
    hide Expand, HeadPiece, AfterHead, RenderPiece;
    if s == "" {
      NothingExpands(false, c, false);
    } else {
      PiecesTail(s);
      ExpandHead(s, c);
      ExpandIsPieces(AfterHead(s), c);
    }
  }

  lemma NoHead(s: string)
    requires s != "" && !(s[0] == '{' && IndexOf(s, '}') < |s|)
    ensures AtHead(s).None?
  {
    hide IndexOf, Known;
  }

  lemma {:induction false} ExpandPlain(a: string, b: string, c: Context, stable: bool)
    requires '{' !in a
    ensures Expand(a + b, c, stable) == a + Expand(b, c, stable)
    decreases |a|
  {
    hide TokenText, Known, Expand, AtHead;
    if a == "" {
      assert a + b == b;
    } else {
      assert a + b == [a[0]] + (a[1..] + b);
      ExpandByte(a[0], a[1..] + b, c, stable);
      ExpandPlain(a[1..], b, c, stable);
    }
  }

  // ---- what the placeholders stand for ----

  lemma {:induction false} PadValue(n: nat, w: nat, bound: nat)
    requires n < bound && (w == 2 ==> bound == 100) && (w == 4 ==> bound == 10000) && (w == 1 ==> bound == 10) && (w == 3 ==> bound == 1000)
    requires 1 <= w <= 4
    ensures Value(Pad(n, w)) == n
  {
    hide Digit;
    var init := Pad(n / 10, w - 1);
    assert Pad(n, w)[..w - 1] == init;
    if w == 1 {
      assert init == "";
    } else {
      PadValue(n / 10, w - 1, bound / 10);
    }
  }

  /** A number of that many digits. */
  predicate Reads(s: string, w: nat, n: nat) {
    |s| == w && AllDigits(s) && Value(s) == n
  }

  lemma PadReads(t: Instant)
    ensures Reads(Pad(t.year, 4), 4, t.year) && Reads(Pad(t.month, 2), 2, t.month) && Reads(Pad(t.day, 2), 2, t.day)
    ensures Reads(Pad(t.hour, 2), 2, t.hour) && Reads(Pad(t.minute, 2), 2, t.minute) && Reads(Pad(t.second, 2), 2, t.second)
  {
    hide Pad, Value;
    PadValue(t.year, 4, 10000);
    PadValue(t.month, 2, 100);
    PadValue(t.day, 2, 100);
    PadValue(t.hour, 2, 100);
    PadValue(t.minute, 2, 100);
    PadValue(t.second, 2, 100);
  }

  /** Year, month and day in eight digits; hour, minute and second in six. */
  predicate ReadsDate(s: string, t: Instant) {
    |s| == 8 && Reads(s[..4], 4, t.year) && Reads(s[4..6], 2, t.month) && Reads(s[6..], 2, t.day)
  }

  predicate ReadsTime(s: string, t: Instant) {
    |s| == 6 && Reads(s[..2], 2, t.hour) && Reads(s[2..4], 2, t.minute) && Reads(s[4..], 2, t.second)
  }

  lemma ClockReads(t: Instant)
    ensures ReadsDate(DateText(t), t) && ReadsTime(TimeText(t), t)
  {
    hide Pad, Value;
    PadReads(t);
    assert DateText(t)[..4] == Pad(t.year, 4) && DateText(t)[4..6] == Pad(t.month, 2) && DateText(t)[6..] == Pad(t.day, 2);
    assert TimeText(t)[..2] == Pad(t.hour, 2) && TimeText(t)[2..4] == Pad(t.minute, 2) && TimeText(t)[4..] == Pad(t.second, 2);
  }

  lemma RenderedToken(chunk: string, c: Context)
    requires Known(chunk).Some?
    ensures RenderPath(chunk, c) == TokenText(Known(chunk).value, c)
  {
    hide Known, Expand, TokenText, Collapse;
    NothingExpands(false, c, false);
    ExpandToken(chunk, "", c, false);
    assert chunk + "" == chunk && TokenText(Known(chunk).value, c) + "" == TokenText(Known(chunk).value, c);
    TextIsSegment(Known(chunk).value, c);
    CollapseSegment(true, TokenText(Known(chunk).value, c));
  }

  /** Each placeholder is rendered as what it is called. */
  lemma PlaceholdersMean(c: Context)
    ensures RenderPath("{schedule}", c) == Slug(c.schedule) && RenderPath("{host}", c) == Slug(c.host)
    ensures Reads(RenderPath("{year}", c), 4, c.at.year) && Reads(RenderPath("{YYYY}", c), 4, c.at.year)
    ensures Reads(RenderPath("{month}", c), 2, c.at.month) && Reads(RenderPath("{MM}", c), 2, c.at.month)
    ensures Reads(RenderPath("{day}", c), 2, c.at.day) && Reads(RenderPath("{DD}", c), 2, c.at.day)
    ensures ReadsDate(RenderPath("{date}", c), c.at) && ReadsTime(RenderPath("{time}", c), c.at)
    ensures RenderPath("{datetime}", c) == RenderPath("{ts}", c) == RenderPath("{date}", c) + "-" + RenderPath("{time}", c)
  {
    hide RenderPath, Reads, ReadsDate, ReadsTime, Slug, Pad, DateText, TimeText, Known;
    KnownNames();
    PadReads(c.at);
    ClockReads(c.at);
    RenderedToken("{schedule}", c);
    RenderedToken("{host}", c);
    RenderedToken("{year}", c);
    RenderedToken("{YYYY}", c);
    RenderedToken("{month}", c);
    RenderedToken("{MM}", c);
    RenderedToken("{day}", c);
    RenderedToken("{DD}", c);
    RenderedToken("{date}", c);
    RenderedToken("{time}", c);
    RenderedToken("{datetime}", c);
    RenderedToken("{ts}", c);
  }

  lemma KnownNames()
    ensures Known("{schedule}") == Some(Schedule) && Known("{host}") == Some(Host)
    ensures Known("{year}") == Known("{YYYY}") == Some(Year) && Known("{month}") == Known("{MM}") == Some(Month)
    ensures Known("{day}") == Known("{DD}") == Some(Day) && Known("{date}") == Some(Date) && Known("{time}") == Some(Time)
    ensures Known("{datetime}") == Known("{ts}") == Some(Stamp)
  {
  }

  // ---- what the two do with the pieces ----

  /** Bytes outside `{...}` that are not ASCII. */
  function LooseBytes(ps: seq<Piece>): nat {
    if ps == [] then 0
    else (match ps[0] case Byte(c) => (if c as int < 128 then 0 else 1) case Chunk(_) => 0) + LooseBytes(ps[1..])
  }

  /** A chunk that is no placeholder but ends in one. */
  predicate Hides(text: string) {
    Known(text).None? && EndsInToken(text)
  }

  predicate EndsInToken(text: string) {
    exists k :: 0 <= k < |text| && Known(text[k..]).Some?
  }

  function HiddenTokens(ps: seq<Piece>): nat {
    if ps == [] then 0
    else (if ps[0].Chunk? && Hides(ps[0].text) then 1 else 0) + HiddenTokens(ps[1..])
  }

  function Braces(s: string): nat {
    if s == "" then 0 else (if s[0] == '{' then 1 else 0) + Braces(s[1..])
  }

  function AtomBraces(pattern: seq<Atom>): nat {
    if pattern == [] then 0
    else (match pattern[0] case Literal(text) => Braces(text) case Digits(_) => 0) + AtomBraces(pattern[1..])
  }

  lemma {:induction false} BracesConcat(a: string, b: string)
    ensures Braces(a + b) == Braces(a) + Braces(b)
    decreases |a|
  {
    if a == "" {
      assert a + b == b;
    } else {
      assert (a + b)[1..] == a[1..] + b;
      BracesConcat(a[1..], b);
    }
  }

  lemma {:induction false} NoBraces(s: string)
    requires '{' !in s
    ensures Braces(s) == 0
  {
    if s != "" {
      NoBraces(s[1..]);
    }
  }

  lemma {:induction false} AtomBracesConcat(a: seq<Atom>, b: seq<Atom>)
    ensures AtomBraces(a + b) == AtomBraces(a) + AtomBraces(b)
    decreases |a|
  {
    hide Braces;
    if a == [] {
      assert a + b == b;
    } else {
      assert (a + b)[1..] == a[1..] + b;
      AtomBracesConcat(a[1..], b);
    }
  }

  lemma OneAtom(a: Atom)
    ensures TotalWidth([a]) == Width(a)
    ensures AtomBraces([a]) == match a case Literal(text) => Braces(text) case Digits(_) => 0
  {
    assert [a][1..] == [];
  }

  /** What matches has as many opening braces as the pattern. */
  lemma {:induction false} MatchedBraces(pattern: seq<Atom>, s: string)
    requires Matches(pattern, s)
    ensures Braces(s) == AtomBraces(pattern)
    decreases |pattern|
  {
    hide Braces;
    if pattern == [] {
      NoBraces(s);
    } else {
      var w := Width(pattern[0]);
      MatchedBraces(pattern[1..], s[w..]);
      BracesConcat(s[..w], s[w..]);
      assert s == s[..w] + s[w..];
      if pattern[0].Digits? {
        NoBraces(s[..w]);
      }
    }
  }

  predicate PlainNames(c: Context) {
    '{' !in Slug(c.schedule) && '{' !in Slug(c.host)
  }

  lemma TokenBraces(t: Token, c: Context)
    requires PlainNames(c)
    ensures Braces(TokenText(t, c)) == 0 && AtomBraces(TokenAtoms(t, c.schedule, c.host)) == 0
  {
    hide Slug, Matches, TokenAtoms, TokenText, Braces;
    TokenLiterals(t, c);
    TokenMatches(t, c);
    MatchedBraces(TokenAtoms(t, c.schedule, c.host), TokenText(t, c));
  }

  lemma TokenLiterals(t: Token, c: Context)
    requires PlainNames(c)
    ensures AtomBraces(TokenAtoms(t, c.schedule, c.host)) == 0
  {
    hide Slug, Braces;
    NoBraces(Slug(c.schedule));
    NoBraces(Slug(c.host));
    NoBraces("-");
    if t.Stamp? {
      assert [Digits(8), Literal("-"), Digits(6)][1..] == [Literal("-"), Digits(6)];
      assert [Literal("-"), Digits(6)][1..] == [Digits(6)];
      OneAtom(Digits(6));
    } else {
      OneAtom(TokenAtoms(t, c.schedule, c.host)[0]);
    }
  }

  /** A text up to its closing brace is rendered as it is unless it ends in a
      placeholder; that one loses its opening brace. */
  lemma {:induction false} TextExpands(a: string, c: Context)
    requires a != "" && IndexOf(a, '}') == |a| - 1
    ensures !EndsInToken(a) ==> Expand(a, c, false) == a
    ensures PlainNames(c) ==> Braces(a) == Braces(Expand(a, c, false)) + if EndsInToken(a) then 1 else 0
    decreases |a|
  {
    hide TokenText, Known, Expand, IndexOf, AtHead, EndsInToken, Braces, PlainNames;
    WholeHead(a, "");
    assert a + "" == a;
    NothingExpands(false, c, false);
    EndsHead(a);
    if Known(a).Some? {
      ExpandToken(a, "", c, false);
      KnownBraces(a);
      if PlainNames(c) {
        TokenBraces(Known(a).value, c);
        assert TokenText(Known(a).value, c) + "" == TokenText(Known(a).value, c);
      }
    } else {
      var tail := a[1..];
      assert a == [a[0]] + tail;
      ExpandByte(a[0], tail, c, false);
      BracesConcat([a[0]], tail);
      BracesConcat([a[0]], Expand(tail, c, false));
      if tail != "" {
        ChunkTail(a);
        TextExpands(tail, c);
      }
    }
  }

  lemma EndsHead(a: string)
    requires a != ""
    ensures EndsInToken(a) <==> Known(a).Some? || EndsInToken(a[1..])
    ensures !EndsInToken("")
  {
    hide Known;
    assert a[0..] == a;
    if EndsInToken(a) && Known(a).None? {
      var k :| 0 <= k < |a| && Known(a[k..]).Some?;
      assert a[1..][k - 1..] == a[k..];
    }
    if k :| 0 <= k < |a[1..]| && Known(a[1..][k..]).Some? {
      assert a[k + 1..] == a[1..][k..];
    }
  }

  lemma KnownBraces(chunk: string)
    requires Known(chunk).Some?
    ensures Braces(chunk) == 1
  {
    hide Known, Braces;
    KnownIsSegment(chunk);
    assert chunk == "{" + chunk[1..];
    BracesConcat("{", chunk[1..]);
    NoBraces(chunk[1..]);
    OneBrace();
  }

  lemma OneBrace()
    ensures Braces("{") == 1
  {
  }

  // ---- piece by piece ----

  lemma CharacterBraces(b: char)
    ensures Braces(AsCharacter(b)) == Braces([b])
  {
    if b as int >= 128 {
      NoBraces(AsCharacter(b));
      NoBraces([b]);
    }
  }

  lemma KnownExpands(text: string, c: Context)
    requires Known(text).Some?
    ensures Expand(text, c, false) == TokenText(Known(text).value, c)
  {
    hide Known, Expand, TokenText;
    NothingExpands(false, c, false);
    ExpandToken(text, "", c, false);
    assert text + "" == text;
  }

  lemma PieceWidth(p: Piece, c: Context)
    requires p.Chunk? ==> IsChunk(p.text) && !Hides(p.text)
    ensures TotalWidth(PieceAtoms(p, c.schedule, c.host)) == |RenderPiece(p, c)| + LooseBytes([p])
    ensures LooseBytes([p]) == 0 ==> Matches(PieceAtoms(p, c.schedule, c.host), RenderPiece(p, c))
  {
    hide Known, TokenAtoms, TokenText, Matches, Expand, IndexOf, EndsInToken, TotalWidth;
    match p
    case Byte(b) =>
      OneAtom(Literal(AsCharacter(b)));
      if b as int < 128 {
        MatchOne(Literal([b]), [b]);
      }
    case Chunk(text) =>
      match Known(text) {
        case Some(t) =>
          KnownExpands(text, c);
          TokenMatches(t, c);
          MatchedWidth(TokenAtoms(t, c.schedule, c.host), TokenText(t, c));
        case None =>
          TextExpands(text, c);
          OneAtom(Literal(text));
          MatchOne(Literal(text), text);
      }
  }

  lemma PieceBraces(p: Piece, c: Context)
    requires PlainNames(c) && (p.Chunk? ==> IsChunk(p.text))
    ensures AtomBraces(PieceAtoms(p, c.schedule, c.host)) == Braces(RenderPiece(p, c)) + HiddenTokens([p])
  {
    hide Known, TokenAtoms, TokenText, Expand, IndexOf, EndsInToken, AtomBraces, Braces, PlainNames;
    match p
    case Byte(b) =>
      OneAtom(Literal(AsCharacter(b)));
      CharacterBraces(b);
    case Chunk(text) =>
      match Known(text) {
        case Some(t) =>
          KnownExpands(text, c);
          TokenBraces(t, c);
        case None =>
          TextExpands(text, c);
          OneAtom(Literal(text));
      }
  }

  lemma LooseHead(ps: seq<Piece>)
    requires ps != []
    ensures LooseBytes(ps) == LooseBytes([ps[0]]) + LooseBytes(ps[1..])
    ensures HiddenTokens(ps) == HiddenTokens([ps[0]]) + HiddenTokens(ps[1..])
  {
    hide Hides;
    assert [ps[0]][1..] == [];
  }

  lemma {:induction false} PiecesWidth(ps: seq<Piece>, c: Context)
    requires WellCut(ps) && HiddenTokens(ps) == 0
    ensures TotalWidth(Atoms(ps, c.schedule, c.host)) == |RenderPieces(ps, c)| + LooseBytes(ps)
    ensures LooseBytes(ps) == 0 ==> Matches(Atoms(ps, c.schedule, c.host), RenderPieces(ps, c))
    decreases |ps|
  {
    hide PieceAtoms, RenderPiece, LooseBytes, Hides, IsChunk;
    if ps == [] {
      hide *;
      NoPieces(c);
    } else {
      hide Matches, TotalWidth;
      var rest := ps[1..];
      assert ps[0] in ps;
      PieceWidth(ps[0], c);
      PiecesWidth(rest, c);
      LooseHead(ps);
      WidthConcat(PieceAtoms(ps[0], c.schedule, c.host), Atoms(rest, c.schedule, c.host));
      if LooseBytes(ps) == 0 {
        MatchConcat(PieceAtoms(ps[0], c.schedule, c.host), Atoms(rest, c.schedule, c.host), RenderPiece(ps[0], c), RenderPieces(rest, c));
      }
    }
  }

  lemma {:induction false} PiecesBraces(ps: seq<Piece>, c: Context)
    requires WellCut(ps) && PlainNames(c)
    ensures AtomBraces(Atoms(ps, c.schedule, c.host)) == Braces(RenderPieces(ps, c)) + HiddenTokens(ps)
    decreases |ps|
  {
    hide PieceAtoms, RenderPiece, Hides, IsChunk, PlainNames;
    if ps != [] {
      hide Braces, AtomBraces, HiddenTokens;
      assert ps[0] in ps;
      PieceBraces(ps[0], c);
      PiecesBraces(ps[1..], c);
      LooseHead(ps);
      AtomBracesConcat(PieceAtoms(ps[0], c.schedule, c.host), Atoms(ps[1..], c.schedule, c.host));
      BracesConcat(RenderPiece(ps[0], c), RenderPieces(ps[1..], c));
    }
  }

  lemma NoPieces(c: Context)
    ensures TotalWidth(Atoms([], c.schedule, c.host)) == |RenderPieces([], c)| + LooseBytes([])
    ensures Matches(Atoms([], c.schedule, c.host), RenderPieces([], c))
  {
  }

  /** The renderer fills in a placeholder wherever one stands, the matcher only where a
      chunk is one. So the matcher accepts what the renderer writes, at any instant, if
      and only if every byte outside the braces is ASCII and no other chunk ends in a
      placeholder, provided that the names put in have no opening brace. Where no chunk
      hides a placeholder, the names do not matter. */
  lemma MatcherAcceptsRendered(template: string, c: Context)
    requires PlainNames(c) || HiddenTokens(Pieces(Clean(template))) == 0
    ensures Matches(Matcher(template, c.schedule, c.host), RenderPath(template, c))
      <==> LooseBytes(Pieces(Clean(template))) == 0 && HiddenTokens(Pieces(Clean(template))) == 0
  {
    hide Collapse, Expand, Atoms, RenderPieces, LooseBytes, HiddenTokens, Matches, TotalWidth, Pieces, WellCut, PlainNames, Braces, AtomBraces;
    var ps := Pieces(Clean(template));
    CleanCommutes(true, template, c, false);
    ExpandIsPieces(Clean(template), c);
    PiecesAreWellCut(Clean(template));
    if HiddenTokens(ps) == 0 {
      PiecesWidth(ps, c);
      if Matches(Matcher(template, c.schedule, c.host), RenderPath(template, c)) {
        MatchedWidth(Matcher(template, c.schedule, c.host), RenderPath(template, c));
      }
    } else {
      PiecesBraces(ps, c);
      if Matches(Matcher(template, c.schedule, c.host), RenderPath(template, c)) {
        MatchedBraces(Matcher(template, c.schedule, c.host), RenderPath(template, c));
      }
    }
  }

  // ---- inputs that show the failures ----

  lemma HiddenYear()
    ensures Clean("{a{year}") == "{a{year}" && HiddenTokens(Pieces("{a{year}")) == 1
  {
    hide Known, IndexOf, Collapse;
    var t := "{a{year}";
    CollapseSegment(true, t);
    IndexOfHead("{a{year", '}', "");
    assert "{a{year" + ['}'] + "" == t && t[..8] == t && t[8..] == "";
    PiecesTail(t);
    assert Pieces("") == [];
    assert t[2..] == "{year}" && Known("{year}") == Some(Year) && Known(t).None? by { YearKnown(); }
    assert Hides(t);
    assert HiddenTokens([]) == 0;
  }

  lemma YearKnown()
    ensures Known("{year}") == Some(Year) && Known("{a{year}").None?
  {
  }

  /** A chunk that ends in a placeholder: the matcher rejects the schedule's own key. */
  lemma HiddenYearRejected(c: Context)
    requires PlainNames(c)
    ensures !Matches(Matcher("{a{year}", c.schedule, c.host), RenderPath("{a{year}", c))
  {
    hide Matches, Matcher, RenderPath, Collapse, Pieces, HiddenTokens, LooseBytes, PlainNames;
    HiddenYear();
    MatcherAcceptsRendered("{a{year}", c);
  }

  /** A byte from 128 on, whatever the names. */
  lemma LooseByteRejected(b: char, c: Context)
    requires b as int >= 128
    ensures !Matches(Matcher([b], c.schedule, c.host), RenderPath([b], c))
  {
    hide Matches, Matcher, RenderPath, Collapse, Hides, PlainNames;
    CollapseSegment(true, [b]);
    PiecesTail([b]);
    assert [b][1..] == "" && Pieces("") == [];
    assert Pieces([b]) == [Byte(b)] && [Byte(b)][1..] == [];
    assert LooseBytes([]) == 0 && HiddenTokens([]) == 0;
    MatcherAcceptsRendered([b], c);
  }
}
