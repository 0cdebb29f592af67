/** Origin lists: getEnvCSV, buildCORSConfig, expandWWWOrigins and deriveRPOrigins of backend/main.go. */
module Origins {
  import opened Outcomes

  // ---------------------------------------------------------------- strings

  predicate IsSpace(c: char) {
    || c == ' ' || '\U{0009}' <= c <= '\U{000D}' || c == '\U{0085}' || c == '\U{00A0}' || c == '\U{1680}'
    || '\U{2000}' <= c <= '\U{200A}' || c == '\U{2028}' || c == '\U{2029}' || c == '\U{202F}' || c == '\U{205F}' || c == '\U{3000}'
  }

  /** White space as unicode.IsSpace has it, at the characters that occur in lists of origins. */
  lemma {:induction false} SpaceExamples(c: char)
    ensures c in " \t\n\r" ==> IsSpace(c)
    ensures c == ',' || c == '.' || c == ':' || c == '/' || '0' <= c <= '9' || 'a' <= c <= 'z' || 'A' <= c <= 'Z' ==> !IsSpace(c)
  {}

  function TrimLeft(s: string): string {
    if s != "" && IsSpace(s[0]) then TrimLeft(s[1..]) else s
  }

  function TrimRight(s: string): string {
    if s != "" && IsSpace(s[|s| - 1]) then TrimRight(s[..|s| - 1]) else s
  }

  /** strings.TrimSpace. */
  function Trim(s: string): string {
    TrimRight(TrimLeft(s))
  }

  predicate Trimmed(s: string) {
    s != "" ==> !IsSpace(s[0]) && !IsSpace(s[|s| - 1])
  }

  predicate AllIn(s: string, ok: char -> bool) {
    forall k :: 0 <= k < |s| ==> ok(s[k])
  }

  /** s is core between white space. */
  ghost predicate Padded(s: string, lead: string, core: string, trail: string) {
    s == lead + core + trail && AllIn(lead, IsSpace) && AllIn(trail, IsSpace)
  }

  /** core is what is left of s without the white space around it. */
  ghost predicate CoreOf(core: string, s: string) {
    Trimmed(core) && exists lead, trail :: Padded(s, lead, core, trail)
  }

  lemma {:induction false} TrimLeftFacts(s: string) returns (lead: string)
    ensures s == lead + TrimLeft(s) && AllIn(lead, IsSpace)
    ensures TrimLeft(s) != "" ==> !IsSpace(TrimLeft(s)[0])
  {
    lead := "";
    if s != "" && IsSpace(s[0]) {
      var l := TrimLeftFacts(s[1..]);
      lead := [s[0]] + l;
    }
  }

  lemma {:induction false} TrimRightFacts(s: string) returns (trail: string)
    ensures s == TrimRight(s) + trail && AllIn(trail, IsSpace)
    ensures TrimRight(s) != "" ==> !IsSpace(TrimRight(s)[|TrimRight(s)| - 1])
  {
    trail := "";
    if s != "" && IsSpace(s[|s| - 1]) {
      var t := TrimRightFacts(s[..|s| - 1]);
      trail := t + [s[|s| - 1]];
    }
  }

  lemma {:induction false} TrimIsCore(s: string)
    ensures CoreOf(Trim(s), s)
  {
    var lead := TrimLeftFacts(s);
    var trail := TrimRightFacts(TrimLeft(s));
    assert Padded(s, lead, Trim(s), trail);
    if Trim(s) != "" { assert Trim(s)[0] == TrimLeft(s)[0]; }
  }

  /** Padding can be taken off in only one way. */
  lemma {:induction false} CoreIsUnique(s: string, a: string, b: string)
    requires CoreOf(a, s) && CoreOf(b, s)
    ensures a == b
  {
    var l, t :| Padded(s, l, a, t);
    var l', t' :| Padded(s, l', b, t');
    if a == "" {
      AllSpace(s, l, t);
      if b != "" { SomethingLeft(s, l', b, t'); }
    } else if b == "" {
      AllSpace(s, l', t');
      SomethingLeft(s, l, a, t);
    } else {
      LeadNotLonger(s, l, a, t, l', b, t');
      LeadNotLonger(s, l', b, t', l, a, t);
      TrailNotLonger(s, l, a, t, l', b, t');
      TrailNotLonger(s, l', b, t', l, a, t);
      assert a == s[|l|..|s| - |t|] && b == s[|l'|..|s| - |t'|];
    }
  }

  lemma {:induction false} AllSpace(s: string, lead: string, trail: string)
    requires Padded(s, lead, "", trail)
    ensures AllIn(s, IsSpace)
  {
    forall k | 0 <= k < |s| ensures IsSpace(s[k]) {
      if k < |lead| { assert s[k] == lead[k]; } else { assert s[k] == trail[k - |lead|]; }
    }
  }

  lemma {:induction false} SomethingLeft(s: string, lead: string, core: string, trail: string)
    requires Padded(s, lead, core, trail) && Trimmed(core) && core != ""
    ensures !AllIn(s, IsSpace)
  {
    assert s[|lead|] == core[0];
  }

  lemma {:induction false} LeadNotLonger(s: string, l: string, a: string, t: string, l': string, b: string, t': string)
    requires Padded(s, l, a, t) && Padded(s, l', b, t') && Trimmed(b) && b != ""
    ensures |l| <= |l'|
  {
    assert s[|l'|] == b[0];
    forall k | 0 <= k < |l| ensures IsSpace(s[k]) { assert s[k] == l[k]; }
  }

  lemma {:induction false} TrailNotLonger(s: string, l: string, a: string, t: string, l': string, b: string, t': string)
    requires Padded(s, l, a, t) && Padded(s, l', b, t') && Trimmed(b) && b != ""
    ensures |t| <= |t'|
  {
    var k := |s| - |t'| - 1;
    assert s[k] == b[|b| - 1];
    forall j | |s| - |t| <= j < |s| ensures IsSpace(s[j]) { assert s[j] == t[j - |l| - |a|]; }
  }

  /** strings.TrimSpace: exactly the white space around s is taken off. */
  lemma {:induction false} TrimMeans(s: string, core: string)
    ensures core == Trim(s) <==> CoreOf(core, s)
  {
    TrimIsCore(s);
    if CoreOf(core, s) { CoreIsUnique(s, core, Trim(s)); }
  }

  lemma {:induction false} TrimFacts(s: string)
    ensures Trimmed(Trim(s)) && (forall c :: c in Trim(s) ==> c in s)
    ensures Trimmed(s) ==> Trim(s) == s
  {
    TrimMeans(s, Trim(s));
    TrimMeans(s, s);
    assert Padded(s, "", s, "");
  }

  function IndexOf(s: string, c: char): (k: nat)
    ensures k <= |s| && c !in s[..k] && (k < |s| ==> s[k] == c)
  {
    if s == "" || s[0] == c then 0 else
      var k := 1 + IndexOf(s[1..], c);
      assert s[..k] == [s[0]] + s[1..][..k - 1];
      k
  }

  lemma {:induction false} IndexOfIs(s: string, c: char, k: nat)
    requires k <= |s| && c !in s[..k] && (k < |s| ==> s[k] == c)
    ensures IndexOf(s, c) == k
  {
    var j := IndexOf(s, c);
    forall i | 0 <= i < k ensures s[i] != c { assert s[i] in s[..k]; }
    forall i | 0 <= i < j ensures s[i] != c { assert s[i] in s[..j]; }
  }

  /** strings.Split: always at least one part. */
  function Split(s: string, c: char): (r: seq<string>)
    ensures |r| > 0
    decreases |s|
  {
    var k := IndexOf(s, c);
    if k == |s| then [s] else [s[..k]] + Split(s[k + 1..], c)
  }

  function Join(xs: seq<string>, c: char): string {
    if xs == [] then "" else if |xs| == 1 then xs[0] else xs[0] + [c] + Join(xs[1..], c)
  }

  lemma {:induction false} SplitParts(s: string, c: char)
    ensures forall p :: p in Split(s, c) ==> c !in p && forall x :: x in p ==> x in s
    decreases |s|
  {
    var k := IndexOf(s, c);
    if k < |s| { SplitParts(s[k + 1..], c); }
  }

  lemma {:induction false} SplitJoin(xs: seq<string>, c: char)
    requires xs != [] && forall x :: x in xs ==> c !in x
    ensures Split(Join(xs, c), c) == xs
  {
    if |xs| == 1 {
      assert xs[0] in xs && xs[0][..|xs[0]|] == xs[0];
      IndexOfIs(xs[0], c, |xs[0]|);
      assert xs == [xs[0]];
    } else {
      var first, rest := xs[0], xs[1..];
      var s, tail, k := Join(xs, c), Join(rest, c), |first|;
      assert first in xs && forall x :: x in rest ==> x in xs;
      assert s == first + [c] + tail;
      assert s[..k] == first && s[k] == c && s[k + 1..] == tail;
      IndexOfIs(s, c, k);
      SplitJoin(rest, c);
      assert xs == [first] + rest;
    }
  }

  lemma {:induction false} JoinCons(first: string, rest: seq<string>, c: char)
    requires rest != []
    ensures Join([first] + rest, c) == first + [c] + Join(rest, c)
  {
    assert ([first] + rest)[1..] == rest;
  }

  lemma {:induction false} CutAt(s: string, k: nat)
    requires k < |s|
    ensures s == s[..k] + [s[k]] + s[k + 1..]
  {}

  /** And the other way round: the parts, joined again, are the string. */
  lemma {:induction false} JoinSplit(s: string, c: char)
    ensures Join(Split(s, c), c) == s
    decreases |s|
  {
    var k := IndexOf(s, c);
    if k < |s| {
      var tail := s[k + 1..];
      JoinSplit(tail, c);
      JoinCons(s[..k], Split(tail, c), c);
      CutAt(s, k);
    }
  }

  // ---------------------------------------------------------------- the list and the set, kept in step

  /** Non-empty strings, each where it first appears. */
  function Distinct(xs: seq<string>): (r: seq<string>) {
    if xs == [] then [] else
      var r := Distinct(xs[..|xs| - 1]);
      var x := xs[|xs| - 1];
      if x == "" || x in r then r else r + [x]
  }

  lemma {:induction false} DistinctStep(xs: seq<string>, x: string)
    ensures Distinct(xs + [x]) == if x == "" || x in Distinct(xs) then Distinct(xs) else Distinct(xs) + [x]
  {
    assert (xs + [x])[..|xs|] == xs;
  }

  ghost predicate NoDuplicates(xs: seq<string>) {
    forall i, j :: 0 <= i < j < |xs| ==> xs[i] != xs[j]
  }

  function FirstIndex(xs: seq<string>, x: string): nat {
    if xs == [] || xs[0] == x then 0 else 1 + FirstIndex(xs[1..], x)
  }

  lemma {:induction false} FirstIndexPrefix(xs: seq<string>, y: string, x: string)
    ensures x in xs ==> FirstIndex(xs + [y], x) == FirstIndex(xs, x) < |xs|
    ensures x !in xs ==> FirstIndex(xs + [y], x) >= |xs|
  {
    if xs != [] && xs[0] != x {
      assert (xs + [y])[1..] == xs[1..] + [y];
      FirstIndexPrefix(xs[1..], y, x);
    }
  }

  /** Exactly the non-empty inputs survive, once each, in the order of first appearance. */
  lemma {:induction false} DistinctFacts(xs: seq<string>)
    ensures forall x :: x in Distinct(xs) <==> x in xs && x != ""
    ensures NoDuplicates(Distinct(xs))
    ensures forall i, j :: 0 <= i < j < |Distinct(xs)| ==> FirstIndex(xs, Distinct(xs)[i]) < FirstIndex(xs, Distinct(xs)[j])
  {
    if xs != [] {
      var k := |xs| - 1;
      assert xs == xs[..k] + [xs[k]];
      DistinctFacts(xs[..k]);
      forall x { FirstIndexPrefix(xs[..k], xs[k], x); }
      var r, r' := Distinct(xs[..k]), Distinct(xs);
      forall i, j | 0 <= i < j < |r'| ensures FirstIndex(xs, r'[i]) < FirstIndex(xs, r'[j]) {
        assert i < |r| && r'[i] == r[i] && r[i] in r;
        if j < |r| { assert r[j] in r; }
      }
    }
  }

  lemma {:induction false} DistinctStable(xs: seq<string>)
    requires NoDuplicates(xs) && "" !in xs
    ensures Distinct(xs) == xs
  {
    if xs != [] {
      var k := |xs| - 1;
      assert xs == xs[..k] + [xs[k]];
      DistinctStable(xs[..k]);
    }
  }

  function TrimAll(xs: seq<string>): (r: seq<string>)
    ensures |r| == |xs| && forall k :: 0 <= k < |xs| ==> r[k] == Trim(xs[k])
  {
    seq(|xs|, k requires 0 <= k < |xs| => Trim(xs[k]))
  }

  method CollectClean(parts: seq<string>) returns (out: seq<string>, seen: set<string>)
    ensures out == Distinct(TrimAll(parts))
    ensures forall x :: x in seen <==> x in out
  {
    out, seen := [], {};
    for i := 0 to |parts|
      invariant out == Distinct(TrimAll(parts[..i]))
      invariant forall x :: x in seen <==> x in out
    {
      assert TrimAll(parts[..i + 1])[..i] == TrimAll(parts[..i]);
      var clean := Trim(parts[i]);
      if clean == "" { continue; }
      if clean in seen { continue; }
      seen := seen + {clean};
      out := out + [clean];
    }
    assert parts[..|parts|] == parts;
  }

  // ---------------------------------------------------------------- getEnvCSV

  function ParseCSV(env: string): seq<string> {
    var raw := Trim(env);
    if raw == "" then [] else Distinct(TrimAll(Split(raw, ',')))
  }

  method GetEnvCSV(env: string) returns (out: seq<string>)
    ensures out == ParseCSV(env) && NoDuplicates(out)
    ensures forall raw :: CoreOf(raw, env) ==> forall x :: x in out <==> Listed(x, Split(raw, ','))
  {
    forall raw | CoreOf(raw, env) ensures NoDuplicates(ParseCSV(env)) && forall x :: x in ParseCSV(env) <==> Listed(x, Split(raw, ',')) {
      EntriesAreCores(env, raw);
    }
    TrimIsCore(env);
    var raw := Trim(env);
    if raw == "" { return []; }
    var seen;
    out, seen := CollectClean(Split(raw, ','));
  }

  /** x is the core of one of the parts, and not empty. */
  ghost predicate Listed(x: string, parts: seq<string>) {
    x != "" && exists k :: 0 <= k < |parts| && CoreOf(x, parts[k])
  }

  lemma {:induction false} DistinctCores(parts: seq<string>, x: string)
    ensures x in Distinct(TrimAll(parts)) <==> Listed(x, parts)
  {
    DistinctFacts(TrimAll(parts));
    if k :| 0 <= k < |parts| && CoreOf(x, parts[k]) {
      TrimMeans(parts[k], x);
      assert TrimAll(parts)[k] == x;
    }
    if x in TrimAll(parts) {
      var k :| 0 <= k < |parts| && TrimAll(parts)[k] == x;
      TrimMeans(parts[k], x);
    }
  }

  /** The entries are the non-empty cores of the comma-separated parts of the variable's core, once each. */
  lemma {:induction false} EntriesAreCores(env: string, raw: string)
    requires CoreOf(raw, env)
    ensures forall x :: x in ParseCSV(env) <==> Listed(x, Split(raw, ','))
    ensures NoDuplicates(ParseCSV(env))
  {
    TrimMeans(env, raw);
    DistinctFacts(TrimAll(Split(raw, ',')));
    if raw == "" {
      forall x ensures !Listed(x, Split(raw, ',')) { DistinctCores(Split(raw, ','), x); OnlyBlank(x); }
    } else {
      forall x ensures x in ParseCSV(env) <==> Listed(x, Split(raw, ',')) { DistinctCores(Split(raw, ','), x); }
    }
  }

  lemma {:induction false} OnlyBlank(x: string)
    ensures x !in Distinct(TrimAll(Split("", ',')))
  {
    assert Split("", ',') == [""] && Trim("") == "";
    DistinctFacts(TrimAll([""]));
  }

  ghost predicate Canonical(xs: seq<string>) {
    NoDuplicates(xs) && forall x :: x in xs ==> x != "" && Trimmed(x) && ',' !in x
  }

  lemma {:induction false} ParseIsCanonical(env: string)
    ensures Canonical(ParseCSV(env))
  {
    var raw := Trim(env);
    var parts := Split(raw, ',');
    SplitParts(raw, ',');
    DistinctFacts(TrimAll(parts));
    forall x | x in TrimAll(parts) ensures Trimmed(x) && ',' !in x {
      var k :| 0 <= k < |parts| && TrimAll(parts)[k] == x;
      assert parts[k] in parts;
      TrimFacts(parts[k]);
    }
  }

  lemma {:induction false} JoinEnds(xs: seq<string>)
    requires xs != [] && forall k :: 0 <= k < |xs| ==> xs[k] != ""
    ensures Join(xs, ',') != "" && Join(xs, ',')[0] == xs[0][0]
    ensures var s, last := Join(xs, ','), xs[|xs| - 1]; s[|s| - 1] == last[|last| - 1]
  {
    if |xs| > 1 {
      var rest := xs[1..];
      forall k | 0 <= k < |rest| ensures rest[k] != "" { assert rest[k] == xs[k + 1]; }
      JoinEnds(rest);
      var tail, s := Join(rest, ','), Join(xs, ',');
      assert rest[|rest| - 1] == xs[|xs| - 1];
      assert s == xs[0] + [','] + tail;
      assert s[|s| - 1] == tail[|tail| - 1];
    }
  }

  /** Parsing is the inverse of joining on canonical lists, so joining and parsing again changes nothing. */
  lemma {:induction false} ParseOfJoin(xs: seq<string>)
    requires Canonical(xs)
    ensures ParseCSV(Join(xs, ',')) == xs
  {
    var s := Join(xs, ',');
    if xs == [] {
      assert s == "" && Trim(s) == "";
    } else {
      forall k | 0 <= k < |xs| ensures xs[k] != "" { assert xs[k] in xs; }
      JoinEnds(xs);
      assert xs[0] in xs && xs[|xs| - 1] in xs;
      TrimFacts(s);
      SplitJoin(xs, ',');
      forall k | 0 <= k < |xs| ensures TrimAll(xs)[k] == xs[k] { assert xs[k] in xs; TrimFacts(xs[k]); }
      assert TrimAll(xs) == xs;
      DistinctStable(xs);
    }
  }

  lemma {:induction false} ParseIsFixpoint(env: string)
    ensures ParseCSV(Join(ParseCSV(env), ',')) == ParseCSV(env)
  {
    ParseIsCanonical(env);
    ParseOfJoin(ParseCSV(env));
  }

  // ---------------------------------------------------------------- buildCORSConfig

  const DEFAULT_FRONTEND := "https://aivalid.id"

  /** AllowOrigins, and the set behind AllowOriginFunc.  A non-empty CORS_ALLOWED_ORIGINS decides alone; else there is one
      origin, the core of FRONTEND_BASE_URL or the default. */
  method BuildCORSConfig(frontendEnv: string, allowedEnv: string) returns (allowed: seq<string>, allowedSet: set<string>)
    ensures NoDuplicates(allowed)
    ensures forall origin :: AllowOrigin(allowedSet, origin) <==> origin == "" || origin in allowed
    ensures allowedEnv != "" ==> forall origin :: origin in allowed <==> Listed(origin, Split(allowedEnv, ','))
    ensures allowedEnv == "" ==> forall core :: CoreOf(core, frontendEnv) ==> allowed == [if core == "" then "https://aivalid.id" else core]
  {
    var frontend := Trim(frontendEnv);
    forall core | CoreOf(core, frontendEnv) ensures core == frontend { TrimMeans(frontendEnv, core); }
    TrimFacts(frontendEnv);
    if frontend == "" { frontend := DEFAULT_FRONTEND; }
    var raw;
    if allowedEnv != "" { raw := Split(allowedEnv, ','); } else { raw := [frontend]; }
    allowed, allowedSet := CollectClean(raw);
    DistinctFacts(TrimAll(raw));
    forall origin ensures origin in allowed <==> Listed(origin, raw) { DistinctCores(raw, origin); }
    if allowedEnv == "" {
      TrimFacts(frontend);
      assert TrimAll(raw) == [frontend];
      DistinctStep([], frontend);
      assert [] + [frontend] == [frontend];
    }
  }

  predicate AllowOrigin(allowedSet: set<string>, origin: string) {
    origin == "" || origin in allowedSet
  }

  // ---------------------------------------------------------------- expandWWWOrigins

  /** An origin as url.Parse takes it apart, for the strings that print back to themselves.  A query stays with the path. */
  datatype Url = Url(scheme: string, host: string, port: string, path: string)

  function Render(u: Url): string {
    u.scheme + "://" + u.host + (if u.port == "" then "" else ":" + u.port) + u.path
  }

  predicate Lower(c: char) { 'a' <= c <= 'z' }
  predicate Digit(c: char) { '0' <= c <= '9' }
  predicate HostChar(c: char) { Lower(c) || 'A' <= c <= 'Z' || Digit(c) || c == '.' || c == '-' || c == '_' || c == '~' }
  predicate PathChar(c: char) { HostChar(c) || c == '/' || c == '?' || c == '=' || c == '&' }

  predicate WellFormed(u: Url) {
    && u.scheme != "" && AllIn(u.scheme, Lower)
    && u.host != "" && AllIn(u.host, HostChar)
    && AllIn(u.port, Digit)
    && (u.path != "" ==> u.path[0] == '/' && AllIn(u.path, PathChar))
  }

  /** The authority part: host, and port after a colon. */
  function ParseAuthority(scheme: string, authority: string, path: string): Option<Url> {
    var k := IndexOf(authority, ':');
    var u := Url(scheme, authority[..k], if k < |authority| then authority[k + 1..] else "", path);
    if WellFormed(u) && (k < |authority| ==> u.port != "") then Some(u) else None
  }

  function ParseUrl(s: string): Option<Url> {
    var k := IndexOf(s, ':');
    if k + 3 > |s| || s[k..k + 3] != "://" then None else
      var rest := s[k + 3..];
      var j := IndexOf(rest, '/');
      ParseAuthority(s[..k], rest[..j], rest[j..])
  }

  function Authority(u: Url): string {
    u.host + if u.port == "" then "" else ":" + u.port
  }

  lemma {:induction false} ParseAuthorityOfRender(u: Url)
    requires WellFormed(u)
    ensures ParseAuthority(u.scheme, Authority(u), u.path) == Some(u)
  {
    var a := Authority(u);
    assert a[..|u.host|] == u.host;
    forall c | c in u.host ensures c != ':' { var k :| 0 <= k < |u.host| && u.host[k] == c; assert HostChar(u.host[k]); }
    IndexOfIs(a, ':', |u.host|);
    if u.port != "" { assert a[|u.host| + 1..] == u.port; }
  }

  lemma {:induction false} SplitScheme(scheme: string, tail: string)
    requires AllIn(scheme, Lower)
    ensures
      var s := scheme + "://" + tail;
      IndexOf(s, ':') == |scheme| && s[..|scheme|] == scheme && s[|scheme|..|scheme| + 3] == "://" && s[|scheme| + 3..] == tail
  {
    var s := scheme + "://" + tail;
    var k := |scheme|;
    assert s[..k] == scheme && s[k] == ':';
    forall c | c in scheme ensures c != ':' { var i :| 0 <= i < k && scheme[i] == c; assert Lower(scheme[i]); }
    IndexOfIs(s, ':', k);
  }

  lemma {:induction false} SplitPath(a: string, path: string)
    requires '/' !in a && (path != "" ==> path[0] == '/')
    ensures IndexOf(a + path, '/') == |a| && (a + path)[..|a|] == a && (a + path)[|a|..] == path
  {
    assert (a + path)[..|a|] == a;
    IndexOfIs(a + path, '/', |a|);
  }

  /** Parsing inverts printing. */
  lemma {:induction false} ParseOfRender(u: Url)
    requires WellFormed(u)
    ensures ParseUrl(Render(u)) == Some(u)
  {
    RenderSplits(u);
    AuthorityHasNoSlash(u);
    SplitScheme(u.scheme, Authority(u) + u.path);
    SplitPath(Authority(u), u.path);
    ParseAuthorityOfRender(u);
  }

  lemma {:induction false} AuthorityHasNoSlash(u: Url)
    requires WellFormed(u)
    ensures '/' !in Authority(u)
  {
    forall k | 0 <= k < |u.host| ensures u.host[k] != '/' { assert HostChar(u.host[k]); }
    forall k | 0 <= k < |u.port| ensures u.port[k] != '/' { assert Digit(u.port[k]); }
  }

  lemma {:induction false} AuthorityOfParse(scheme: string, a: string, path: string)
    requires ParseAuthority(scheme, a, path).Some?
    ensures
      var u := ParseAuthority(scheme, a, path).value;
      WellFormed(u) && u.scheme == scheme && u.path == path && Authority(u) == a
  {
    var k := IndexOf(a, ':');
    var host, u := a[..k], ParseAuthority(scheme, a, path).value;
    if k < |a| {
      var port := a[k + 1..];
      CutAt(a, k);
      assert u == Url(scheme, host, port, path) && port != "";
      assert host + ":" + port == host + (":" + port);
    } else {
      assert host == a && u == Url(scheme, a, "", path);
    }
  }

  /** Printing inverts parsing: whatever parses prints back to itself. */
  lemma {:induction false} RenderOfParse(s: string)
    requires ParseUrl(s).Some?
    ensures WellFormed(ParseUrl(s).value) && Render(ParseUrl(s).value) == s
  {
    var k := IndexOf(s, ':');
    var rest := s[k + 3..];
    var j := IndexOf(rest, '/');
    var scheme, authority, path := s[..k], rest[..j], rest[j..];
    var u := ParseUrl(s).value;
    assert ParseAuthority(scheme, authority, path) == Some(u);
    AuthorityOfParse(scheme, authority, path);
    RenderSplits(u);
    Pieces(s, k, j);
  }

  lemma {:induction false} Pieces(s: string, k: nat, j: nat)
    requires k + 3 <= |s| && k + 3 + j <= |s| && s[k..k + 3] == "://"
    ensures s[..k] + "://" + (s[k + 3..][..j] + s[k + 3..][j..]) == s
  {
    var rest := s[k + 3..];
    assert rest[..j] + rest[j..] == rest;
    assert s[..k] + s[k..k + 3] == s[..k + 3];
    assert s[..k + 3] + rest == s;
  }

  lemma {:induction false} RenderSplits(u: Url)
    ensures Render(u) == u.scheme + "://" + (Authority(u) + u.path)
  {}

  const WWW := "www."

  predicate HasWWW(host: string) {
    WWW <= host
  }

  function Labels(host: string): nat {
    |Split(host, '.')|
  }

  /** The other form of a host, if the code adds one. */
  function Variant(u: Url): Option<Url> {
    if HasWWW(u.host) then (if u.host[4..] != "" then Some(u.(host := u.host[4..])) else None)
    else if Labels(u.host) == 2 then Some(u.(host := WWW + u.host)) else None
  }

  method ExpandWWWOrigins(origin: string) returns (variants: seq<string>)
    ensures variants == Expand(origin)
  {
    var parsed := ParseUrl(origin);
    if parsed.None? { return [origin]; }
    var u := parsed.value;
    variants := [origin];
    if HasWWW(u.host) {
      var bare := u.host[4..];
      if bare != "" { variants := variants + [Render(u.(host := bare))]; }
    } else if Labels(u.host) == 2 {
      variants := variants + [Render(u.(host := WWW + u.host))];
    }
  }

  function Expand(origin: string): (r: seq<string>)
    ensures |r| > 0 && r[0] == origin
  {
    var u := ParseUrl(origin);
    if u.None? || Variant(u.value).None? then [origin] else [origin, Render(Variant(u.value).value)]
  }

  function SetOf(xs: seq<string>): set<string> {
    set x | x in xs
  }

  lemma {:induction false} WithWWWIsWellFormed(u: Url)
    requires WellFormed(u)
    ensures WellFormed(u.(host := WWW + u.host))
  {
    var h := WWW + u.host;
    forall k | 0 <= k < |h| ensures HostChar(h[k]) {
      if k < 4 { assert h[k] == WWW[k]; } else { assert h[k] == u.host[k - 4]; }
    }
  }

  lemma {:induction false} ExpansionsOf(u: Url)
    requires WellFormed(u) && !HasWWW(u.host)
    ensures
      var w := u.(host := WWW + u.host);
      && Render(u) != Render(w)
      && Expand(Render(w)) == [Render(w), Render(u)]
      && Expand(Render(u)) == if Labels(u.host) == 2 then [Render(u), Render(w)] else [Render(u)]
  {
    var w := u.(host := WWW + u.host);
    WithWWWIsWellFormed(u);
    ParseOfRender(u);
    ParseOfRender(w);
    assert |w.host| == |u.host| + 4 && w.host[..4] == WWW && w.host[4..] == u.host;
    assert Variant(w) == Some(u);
  }

  /** Giving a host bare or with www makes no difference to the expanded set exactly when it has two labels. */
  lemma {:induction false} WWWIsInterchangeableIff(u: Url)
    requires WellFormed(u) && !HasWWW(u.host)
    ensures
      SetOf(Expand(Render(u))) == SetOf(Expand(Render(u.(host := WWW + u.host)))) <==> Labels(u.host) == 2
  {
    var a, b := Render(u), Render(u.(host := WWW + u.host));
    ExpansionsOf(u);
    PairSets(a, b);
  }

  lemma {:induction false} PairSets(a: string, b: string)
    requires a != b
    ensures SetOf([a, b]) == SetOf([b, a]) && SetOf([a]) != SetOf([b, a])
  {
    assert b in SetOf([b, a]) && b !in SetOf([a]);
  }

  /** host is a.b, without any other dot. */
  ghost predicate Dotted(host: string, a: string, b: string) {
    host == a + "." + b && '.' !in a && '.' !in b
  }

  lemma {:induction false} TwoLabels(host: string)
    ensures Labels(host) == 2 <==> exists a, b :: Dotted(host, a, b)
  {
    if Labels(host) == 2 {
      var parts := Split(host, '.');
      JoinSplit(host, '.');
      SplitParts(host, '.');
      assert parts[1..] == [parts[1]] && parts[0] in parts && parts[1] in parts;
      assert Dotted(host, parts[0], parts[1]);
    }
    if a, b :| Dotted(host, a, b) {
      assert [a, b][1..] == [b];
      assert Join([a, b], '.') == host;
      SplitJoin([a, b], '.');
    }
  }

  lemma {:induction false} ExpandFrom(u: Url)
    requires WellFormed(u)
    ensures Expand(Render(u)) == if Variant(u).None? then [Render(u)] else [Render(u), Render(Variant(u).value)]
  {
    ParseOfRender(u);
  }

  lemma {:induction false} VariantMeans(u: Url, h: string)
    ensures u.host == "www." + h ==> Variant(u) == if h == "" then None else Some(u.(host := h))
    ensures !("www." <= u.host) ==>
              Variant(u) == if exists a, b :: Dotted(u.host, a, b) then Some(u.(host := "www." + u.host)) else None
  {
    TwoLabels(u.host);
    if u.host == "www." + h { assert u.host[..4] == "www." && u.host[4..] == h; }
  }

  /** What an origin expands to: with www. also without it, with exactly one dot in the host also with www., and in all
      other cases, as when it does not parse, only to itself. */
  lemma {:induction false} ExpandMeans(u: Url, h: string)
    requires WellFormed(u)
    ensures u.host == "www." + h && h != "" ==> Expand(Render(u)) == [Render(u), Render(u.(host := h))]
    ensures u.host == "www." ==> Expand(Render(u)) == [Render(u)]
    ensures !("www." <= u.host) && (exists a, b :: Dotted(u.host, a, b)) ==> Expand(Render(u)) == [Render(u), Render(u.(host := "www." + u.host))]
    ensures !("www." <= u.host) && !(exists a, b :: Dotted(u.host, a, b)) ==> Expand(Render(u)) == [Render(u)]
  {
    ExpandFrom(u);
    VariantMeans(u, h);
    VariantMeans(u, "");
  }

  /** How an origin is printed. */
  lemma {:induction false} RenderExamples()
    ensures Render(Url("https", "a.id", "", "")) == "https://a.id"
    ensures Render(Url("http", "a.id", "80", "/x")) == "http://a.id:80/x"
  {}

  // ---------------------------------------------------------------- deriveRPOrigins

  const LOCAL := "http://localhost:3000"

  function RPSources(originsEnv: string, originEnv: string, frontendEnv: string): seq<string> {
    if Trim(originsEnv) != "" then Split(Trim(originsEnv), ',')
    else if Trim(originEnv) != "" then [Trim(originEnv)]
    else if Trim(frontendEnv) != "" then [Trim(frontendEnv)]
    else [LOCAL]
  }

  /** All candidates, source by source. */
  function Candidates(raw: seq<string>): seq<string> {
    if raw == [] then [] else
      Candidates(raw[..|raw| - 1]) + CandidatesOf(raw[|raw| - 1])
  }

  function CandidatesOf(source: string): seq<string> {
    var clean := Trim(source);
    if clean == "" then [] else Expand(clean)
  }

  function RPOrigins(raw: seq<string>): seq<string> {
    var origins := Distinct(Candidates(raw));
    if origins == [] then [LOCAL] else origins
  }

  method AddCandidates(candidates: seq<string>, origins: seq<string>, originSet: set<string>, ghost before: seq<string>)
    returns (out: seq<string>, outSet: set<string>)
    requires origins == Distinct(before) && forall x :: x in originSet <==> x in origins
    ensures out == Distinct(before + candidates) && forall x :: x in outSet <==> x in out
  {
    out, outSet := origins, originSet;
    assert before + candidates[..0] == before;
    for i := 0 to |candidates|
      invariant out == Distinct(before + candidates[..i])
      invariant forall x :: x in outSet <==> x in out
    {
      var c := candidates[i];
      assert before + candidates[..i + 1] == before + candidates[..i] + [c];
      DistinctStep(before + candidates[..i], c);
      if c == "" { continue; }
      if c in outSet { continue; }
      outSet := outSet + {c};
      out := out + [c];
    }
    assert candidates[..|candidates|] == candidates;
  }

  lemma {:induction false} CandidatesStep(raw: seq<string>, i: nat)
    requires i < |raw|
    ensures Candidates(raw[..i + 1]) == if Trim(raw[i]) == "" then Candidates(raw[..i]) else Candidates(raw[..i]) + Expand(Trim(raw[i]))
  {
    assert raw[..i + 1][..i] == raw[..i];
    assert Candidates(raw[..i]) + [] == Candidates(raw[..i]);
  }

  method CollectOrigins(raw: seq<string>) returns (origins: seq<string>)
    ensures origins == Distinct(Candidates(raw))
  {
    origins := [];
    var originSet := {};
    for i := 0 to |raw|
      invariant origins == Distinct(Candidates(raw[..i]))
      invariant forall x :: x in originSet <==> x in origins
    {
      CandidatesStep(raw, i);
      var clean := Trim(raw[i]);
      if clean == "" { continue; }
      var candidates := ExpandWWWOrigins(clean);
      origins, originSet := AddCandidates(candidates, origins, originSet, Candidates(raw[..i]));
    }
    assert raw[..|raw|] == raw;
  }

  method DeriveRPOrigins(originsEnv: string, originEnv: string, frontendEnv: string) returns (origins: seq<string>)
    ensures origins == RPOrigins(RPSources(originsEnv, originEnv, frontendEnv))
  {
    var raw;
    var trimmed := Trim(originsEnv);
    if trimmed != "" {
      raw := Split(trimmed, ',');
    } else {
      var rpOrigin := Trim(originEnv);
      if rpOrigin == "" {
        rpOrigin := Trim(frontendEnv);
        if rpOrigin == "" { rpOrigin := LOCAL; }
      }
      raw := [rpOrigin];
    }
    origins := CollectOrigins(raw);
    if |origins| == 0 { return [LOCAL]; }
  }

  /** The first source that is not blank. */
  function FirstNonBlank(raw: seq<string>): Option<string> {
    if raw == [] then None else
      var r := FirstNonBlank(raw[..|raw| - 1]);
      if r.Some? then r else if Trim(raw[|raw| - 1]) == "" then None else Some(Trim(raw[|raw| - 1]))
  }

  lemma {:induction false} DistinctAppends(xs: seq<string>, ys: seq<string>)
    ensures Distinct(xs) <= Distinct(xs + ys)
    decreases |ys|
  {
    if ys == [] {
      assert xs + ys == xs;
    } else {
      assert (xs + ys)[..|xs + ys| - 1] == xs + ys[..|ys| - 1];
      DistinctAppends(xs, ys[..|ys| - 1]);
    }
  }

  lemma {:induction false} CandidatesStartRight(raw: seq<string>)
    ensures FirstNonBlank(raw).Some? ==> Candidates(raw) != [] && Candidates(raw)[0] == FirstNonBlank(raw).value != ""
    ensures FirstNonBlank(raw).None? ==> Candidates(raw) == []
  {
    if raw != [] { CandidatesStartRight(raw[..|raw| - 1]); }
  }

  /** The origins are never empty, have no duplicates and no empty string, and start with the first configured one. */
  lemma {:induction false} RPOriginsFacts(raw: seq<string>)
    ensures RPOrigins(raw) != [] && NoDuplicates(RPOrigins(raw)) && "" !in RPOrigins(raw)
    ensures RPOrigins(raw)[0] == if FirstNonBlank(raw).Some? then FirstNonBlank(raw).value else LOCAL
  {
    var cs := Candidates(raw);
    CandidatesStartRight(raw);
    DistinctFacts(cs);
    if cs != [] { DistinctKeepsHead(cs); }
  }

  lemma {:induction false} DistinctKeepsHead(cs: seq<string>)
    requires cs != [] && cs[0] != ""
    ensures Distinct(cs) != [] && Distinct(cs)[0] == cs[0]
  {
    assert cs == [cs[0]] + cs[1..];
    DistinctAppends([cs[0]], cs[1..]);
    assert [cs[0]][..0] == [];
    assert Distinct([cs[0]]) == [cs[0]];
  }

  /** Two sources that differ at most by www on a two-label host. */
  ghost predicate Interchangeable(a: string, b: string) {
    || a == b
    || (exists u :: WellFormed(u) && !HasWWW(u.host) && Labels(u.host) == 2
          && {a, b} == {Render(u), Render(u.(host := WWW + u.host))})
  }

  lemma {:induction false} InterchangeableExpandAlike(a: string, b: string)
    requires Interchangeable(a, b)
    ensures SetOf(Expand(a)) == SetOf(Expand(b)) && (a == "" <==> b == "")
  {
    if a != b {
      var u :| WellFormed(u) && !HasWWW(u.host) && Labels(u.host) == 2 && {a, b} == {Render(u), Render(u.(host := WWW + u.host))};
      WWWIsInterchangeableIff(u);
      var x, y := Render(u), Render(u.(host := WWW + u.host));
      assert a in {x, y} && b in {x, y};
    }
  }

  lemma {:induction false} SetOfAppend(xs: seq<string>, ys: seq<string>)
    ensures SetOf(xs + ys) == SetOf(xs) + SetOf(ys)
  {}

  lemma {:induction false} CandidatesAlike(raw: seq<string>, raw': seq<string>)
    requires |raw| == |raw'| && forall k :: 0 <= k < |raw| ==> Interchangeable(Trim(raw[k]), Trim(raw'[k]))
    ensures SetOf(Candidates(raw)) == SetOf(Candidates(raw'))
  {
    if raw != [] {
      var k := |raw| - 1;
      CandidatesAlike(raw[..k], raw'[..k]);
      InterchangeableExpandAlike(Trim(raw[k]), Trim(raw'[k]));
      SetOfAppend(Candidates(raw[..k]), if Trim(raw[k]) == "" then [] else Expand(Trim(raw[k])));
      SetOfAppend(Candidates(raw'[..k]), if Trim(raw'[k]) == "" then [] else Expand(Trim(raw'[k])));
    }
  }

  /** As a set the origins do not depend on whether two-label hosts are configured bare or with www. */
  lemma {:induction false} RPOriginsIgnoreWWW(raw: seq<string>, raw': seq<string>)
    requires |raw| == |raw'| && forall k :: 0 <= k < |raw| ==> Interchangeable(Trim(raw[k]), Trim(raw'[k]))
    ensures SetOf(RPOrigins(raw)) == SetOf(RPOrigins(raw'))
  {
    CandidatesAlike(raw, raw');
    DistinctFacts(Candidates(raw));
    DistinctFacts(Candidates(raw'));
    var a, b := Distinct(Candidates(raw)), Distinct(Candidates(raw'));
    forall x ensures x in a <==> x in b {
      assert x in Candidates(raw) <==> x in SetOf(Candidates(raw));
      assert x in Candidates(raw') <==> x in SetOf(Candidates(raw'));
    }
    assert a == [] <==> b == [] by {
      if a != [] { assert a[0] in b; }
      if b != [] { assert b[0] in a; }
    }
  }

  // ---------------------------------------------------------------- which variable decides

  ghost function ConcatMap(raw: seq<string>, f: string -> seq<string>): seq<string> {
    if raw == [] then [] else ConcatMap(raw[..|raw| - 1], f) + f(raw[|raw| - 1])
  }

  lemma {:induction false} ConcatMapHas(raw: seq<string>, f: string -> seq<string>, k: nat, y: string)
    requires k < |raw| && y in f(raw[k])
    ensures y in ConcatMap(raw, f)
    decreases |raw|
  {
    var n := |raw| - 1;
    if k < n {
      assert raw[..n][k] == raw[k];
      ConcatMapHas(raw[..n], f, k, y);
    }
  }

  lemma {:induction false} ConcatMapFrom(raw: seq<string>, f: string -> seq<string>, y: string) returns (k: nat)
    requires y in ConcatMap(raw, f)
    ensures k < |raw| && y in f(raw[k])
    decreases |raw|
  {
    var n := |raw| - 1;
    if y in f(raw[n]) {
      k := n;
    } else {
      k := ConcatMapFrom(raw[..n], f, y);
      assert raw[..n][k] == raw[k];
    }
  }

  lemma {:induction false} CandidatesAreMapped(raw: seq<string>)
    ensures Candidates(raw) == ConcatMap(raw, CandidatesOf)
  {
    if raw != [] { CandidatesAreMapped(raw[..|raw| - 1]); }
  }

  /** y is one of the expansions of a listed origin. */
  ghost predicate Derived(y: string, parts: seq<string>) {
    exists x :: Listed(x, parts) && y in Expand(x)
  }

  lemma {:induction false} OriginsAreDerived(raw: seq<string>, y: string)
    ensures y in Distinct(Candidates(raw)) <==> y != "" && Derived(y, raw)
  {
    DistinctFacts(Candidates(raw));
    CandidatesAreMapped(raw);
    if y in Candidates(raw) {
      var k := ConcatMapFrom(raw, CandidatesOf, y);
      TrimIsCore(raw[k]);
      assert Listed(Trim(raw[k]), raw);
    }
    if x :| Listed(x, raw) && y in Expand(x) {
      var k :| 0 <= k < |raw| && CoreOf(x, raw[k]);
      TrimMeans(raw[k], x);
      ConcatMapHas(raw, CandidatesOf, k, y);
    }
  }

  lemma {:induction false} OneSource(x: string)
    requires x != "" && Trimmed(x)
    ensures RPOrigins([x]) == Distinct(Expand(x)) && RPOrigins([x])[0] == x
  {
    TrimFacts(x);
    assert [x][..0] == [];
    assert Candidates([x]) == Expand(x);
    DistinctKeepsHead(Expand(x));
  }

  const LOCAL_URL := Url("http", "localhost", "3000", "")

  lemma {:induction false} LocalScheme()
    ensures AllIn("http", Lower)
  {}

  lemma {:induction false} LocalHost()
    ensures AllIn("localhost", HostChar) && '.' !in "localhost" && "localhost"[0] == 'l'
  {}

  lemma {:induction false} LocalPort()
    ensures AllIn("3000", Digit)
  {}

  lemma {:induction false} LocalIsWellFormed()
    ensures WellFormed(LOCAL_URL) && '.' !in LOCAL_URL.host && LOCAL_URL.host[0] == 'l'
  {
    LocalScheme();
    LocalHost();
    LocalPort();
  }

  lemma {:induction false} LocalIsPrinted()
    ensures Render(LOCAL_URL) == LOCAL && LOCAL == "http://localhost:3000" && Trimmed(LOCAL) && LOCAL != ""
  {}

  lemma {:induction false} PlainHostExpandsToItself(u: Url, s: string)
    requires WellFormed(u) && '.' !in u.host && u.host[0] != 'w' && s == Render(u)
    ensures Expand(s) == [s]
  {
    ExpandMeans(u, "");
    forall a, b ensures !Dotted(u.host, a, b) { assert '.' in a + "." + b; }
  }

  lemma {:induction false} LocalAlone()
    ensures RPOrigins([LOCAL]) == [LOCAL]
  {
    LocalIsWellFormed();
    LocalIsPrinted();
    PlainHostExpandsToItself(LOCAL_URL, LOCAL);
    OneSource(LOCAL);
    DistinctStable([LOCAL]);
  }

  /** The three variables in order.  WEBAUTHN_RP_ORIGINS, unless blank, decides alone and all its entries count; then
      WEBAUTHN_RP_ORIGIN, then FRONTEND_BASE_URL, each as one origin; and without any of them the local default. */
  lemma {:induction false} WhichVariableDecides(originsEnv: string, originEnv: string, frontendEnv: string, a: string, b: string, c: string)
    requires CoreOf(a, originsEnv) && CoreOf(b, originEnv) && CoreOf(c, frontendEnv)
    ensures
      var r := RPOrigins(RPSources(originsEnv, originEnv, frontendEnv));
      && (a != "" && (exists x :: Listed(x, Split(a, ','))) ==> forall y :: y in r <==> y != "" && Derived(y, Split(a, ',')))
      && (a != "" && !(exists x :: Listed(x, Split(a, ','))) ==> r == ["http://localhost:3000"])
      && (a == "" && b != "" ==> r == Distinct(Expand(b)) && r[0] == b)
      && (a == "" && b == "" && c != "" ==> r == Distinct(Expand(c)) && r[0] == c)
      && (a == "" && b == "" && c == "" ==> r == ["http://localhost:3000"])
  {
    TrimMeans(originsEnv, a);
    TrimMeans(originEnv, b);
    TrimMeans(frontendEnv, c);
    if a != "" {
      ListDecides(Split(a, ','));
    } else if b != "" {
      OneSource(b);
    } else if c != "" {
      OneSource(c);
    } else {
      LocalAlone();
    }
  }

  lemma {:induction false} ListDecides(raw: seq<string>)
    ensures (exists x :: Listed(x, raw)) ==> forall y :: y in RPOrigins(raw) <==> y != "" && Derived(y, raw)
    ensures !(exists x :: Listed(x, raw)) ==> RPOrigins(raw) == [LOCAL]
  {
    var origins := Distinct(Candidates(raw));
    forall y ensures y in origins <==> y != "" && Derived(y, raw) { OriginsAreDerived(raw, y); }
    assert origins != [] ==> origins[0] in origins;
    if x :| Listed(x, raw) {
      assert Expand(x)[0] == x && Derived(x, raw);
      assert x in origins;
    }
  }
}
