/** The two-pass log scrubber: URL query strings first, then token-like runs. */
module LogFilters {
  import opened Prelude

  // ---------------------------------------------------------------------
  // Character classes of the two regular expressions
  // ---------------------------------------------------------------------

  /** `\s` on text: the characters for which Python's str.isspace holds. */
  predicate IsSpace(c: char) {
    var n := c as int;
    || 9 <= n <= 13 || 28 <= n <= 32 || n == 0x85 || n == 0xA0 || n == 0x1680 || 0x2000 <= n <= 0x200A
    || n == 0x2028 || n == 0x2029 || n == 0x202F || n == 0x205F || n == 0x3000
  }

  /** `[^\s?]`: host and path. */
  predicate IsPath(c: char) { !IsSpace(c) && c != '?' }

  /** `[^\s)\]>\"'\[]`: query text. */
  predicate IsQuery(c: char) { !IsSpace(c) && c !in {')', ']', '>', '"', '\'', '['} }

  /** `[A-Za-z0-9+/=_-]`: the token alphabet. */
  predicate IsToken(c: char) {
    'A' <= c <= 'Z' || 'a' <= c <= 'z' || '0' <= c <= '9' || c in {'+', '/', '=', '_', '-'}
  }

  /** The classes spelled out: the token alphabet, and what else ends a path or a query. */
  lemma Classes(c: char)
    ensures IsToken(c) <==> c in {
        'A', 'B', 'C', 'D', 'E', 'F', 'G', 'H', 'I', 'J', 'K', 'L', 'M', 'N', 'O', 'P', 'Q', 'R', 'S', 'T',
        'U', 'V', 'W', 'X', 'Y', 'Z', 'a', 'b', 'c', 'd', 'e', 'f', 'g', 'h', 'i', 'j', 'k', 'l', 'm', 'n',
        'o', 'p', 'q', 'r', 's', 't', 'u', 'v', 'w', 'x', 'y', 'z', '0', '1', '2', '3', '4', '5', '6', '7',
        '8', '9', '+', '/', '=', '_', '-'}
    ensures c < '\U{80}' ==> (IsSpace(c) <==> c in {'\t', '\n', '\U{0b}', '\U{0c}', '\r', '\U{1c}', '\U{1d}', '\U{1e}', '\U{1f}', ' '})
    ensures !IsPath(c) <==> IsSpace(c) || c == '?'
    ensures !IsQuery(c) <==> IsSpace(c) || c == ')' || c == ']' || c == '>' || c == '"' || c == '\'' || c == '['
  {
  }

  const URL_MARK := "?[scrubbed]"
  const TOKEN_MARK := "[token-scrubbed]"
  const MIN_TOKEN: nat := 24

  // ---------------------------------------------------------------------
  // What the patterns match, declaratively
  // ---------------------------------------------------------------------

  function SchemeLen(t: string): (n: nat)
    ensures n <= |t| && (n == 0 || n == 7 || n == 8)
    ensures (n == 7 <==> "http://" <= t) && (n == 0 <==> !("http://" <= t) && !("https://" <= t))
  {
    if "http://" <= t then 7 else if "https://" <= t then 8 else 0
  }

  /** t[..query] is group 1 and t[query..end] the `?` with some query text after it. */
  ghost predicate UrlMatch(t: string, query: nat, end: nat) {
    && 0 < SchemeLen(t) < query < end - 1 < |t|
    && (forall i :: SchemeLen(t) <= i < query ==> IsPath(t[i]))
    && t[query] == '?'
    && (forall i :: query < i < end ==> IsQuery(t[i]))
  }

  ghost predicate NoUrlMatch(t: string) {
    forall start, query, end | 0 <= start <= |t| :: !UrlMatch(t[start..], query, end)
  }

  /** A token match is a whole run of the alphabet: both lookarounds fail inside it. */
  ghost predicate TokenMatch(t: string, start: nat, end: nat) {
    && start + 24 <= end <= |t|
    && (forall i :: start <= i < end ==> IsToken(t[i]))
    && (start > 0 ==> !IsToken(t[start - 1]))
    && (end < |t| ==> !IsToken(t[end]))
  }

  ghost predicate NoTokenMatch(t: string) {
    forall start, end :: !TokenMatch(t, start, end)
  }

  // ---------------------------------------------------------------------
  // The substitutions
  // ---------------------------------------------------------------------

  function PathLen(t: string): (n: nat)
    ensures n <= |t| && (forall i :: 0 <= i < n ==> IsPath(t[i])) && (n < |t| ==> !IsPath(t[n]))
  {
    if t == "" || !IsPath(t[0]) then 0 else 1 + PathLen(t[1..])
  }

  function QueryLen(t: string): (n: nat)
    ensures n <= |t| && (forall i :: 0 <= i < n ==> IsQuery(t[i])) && (n < |t| ==> !IsQuery(t[n]))
  {
    if t == "" || !IsQuery(t[0]) then 0 else 1 + QueryLen(t[1..])
  }

  function TokenLen(t: string): (n: nat)
    ensures n <= |t| && (forall i :: 0 <= i < n ==> IsToken(t[i])) && (n < |t| ==> !IsToken(t[n]))
  {
    if t == "" || !IsToken(t[0]) then 0 else 1 + TokenLen(t[1..])
  }

  /** Where the greedy match at the front of t puts its `?`, if there is a match. */
  function QueryAt(t: string): nat { SchemeLen(t) + PathLen(t[SchemeLen(t)..]) }

  predicate UrlHere(t: string) {
    && SchemeLen(t) > 0
    && PathLen(t[SchemeLen(t)..]) > 0
    && QueryAt(t) < |t| && t[QueryAt(t)] == '?'
    && QueryLen(t[QueryAt(t) + 1..]) > 0
  }

  function UrlEnd(t: string): (end: nat)
    requires UrlHere(t)
    ensures QueryAt(t) + 1 < end <= |t|
  {
    QueryAt(t) + 1 + QueryLen(t[QueryAt(t) + 1..])
  }

  /** re.sub with URL_QUERY_RE: leftmost, non-overlapping, greedy. */
  function ScrubUrl(t: string): string
    decreases |t|
  {
    if t == "" then ""
    else if UrlHere(t) then
      t[..QueryAt(t)] + URL_MARK + ScrubUrl(t[UrlEnd(t)..])
    else [t[0]] + ScrubUrl(t[1..])
  }

  /** re.sub with TOKEN_RE: every maximal run is kept or replaced as a whole. */
  function ScrubTokens(t: string): string
    decreases |t|
  {
    if t == "" then ""
    else
      var n := TokenLen(t);
      if n == 0 then [t[0]] + ScrubTokens(t[1..])
      else (if n >= MIN_TOKEN then TOKEN_MARK else t[..n]) + ScrubTokens(t[n..])
  }

  function Scrub(t: string): string { ScrubTokens(ScrubUrl(t)) }

  // ---------------------------------------------------------------------
  // The greedy search is the declarative match
  // ---------------------------------------------------------------------

  lemma HereMatches(t: string)
    requires UrlHere(t)
    ensures UrlMatch(t, QueryAt(t), QueryAt(t) + 1 + QueryLen(t[QueryAt(t) + 1..]))
  {
    hide SchemeLen, IsPath, IsQuery;
    var n, q := SchemeLen(t), QueryAt(t);
    forall i | n <= i < q ensures IsPath(t[i]) { assert t[i] == t[n..][i - n]; }
    forall i | q < i < q + 1 + QueryLen(t[q + 1..]) ensures IsQuery(t[i]) { assert t[i] == t[q + 1..][i - q - 1]; }
  }

  lemma MatchIsHere(t: string, query: nat, end: nat)
    requires UrlMatch(t, query, end)
    ensures UrlHere(t)
  {
    hide SchemeLen;
    var n := SchemeLen(t);
    assert t[n..][query - n] == '?';
    forall i | 0 <= i < query - n ensures IsPath(t[n..][i]) { assert t[n..][i] == t[n + i]; }
    assert IsQuery(t[query + 1]) && t[query + 1..][0] == t[query + 1];
  }

  lemma UrlHereIffMatch(t: string)
    ensures UrlHere(t) <==> exists query, end :: UrlMatch(t, query, end)
  {
    hide UrlHere, UrlMatch;
    if UrlHere(t) { HereMatches(t); }
    if query: nat, end: nat :| UrlMatch(t, query, end) { MatchIsHere(t, query, end); }
  }

  /** A run at the front is long enough exactly when TOKEN_RE matches there. */
  lemma LongRunIffMatch(t: string)
    ensures TokenLen(t) >= MIN_TOKEN <==> exists end: nat :: TokenMatch(t, 0, end)
  {
    if TokenLen(t) >= MIN_TOKEN {
      assert TokenMatch(t, 0, TokenLen(t));
    }
    if end: nat :| TokenMatch(t, 0, end) {
      TokenLenIs(t, end);
    }
  }

  ghost predicate NoUrlHere(t: string) {
    forall start | 0 <= start <= |t| :: !UrlHere(t[start..])
  }

  lemma NoUrlHereIsNoMatch(t: string)
    ensures NoUrlHere(t) <==> NoUrlMatch(t)
  {
    forall start | 0 <= start <= |t|
      ensures UrlHere(t[start..]) <==> exists query, end :: UrlMatch(t[start..], query, end)
    {
      UrlHereIffMatch(t[start..]);
    }
  }

  /** Peeling one character off the front. */
  lemma NoUrlCons(t: string)
    requires t != "" && NoUrlHere(t[1..]) && !UrlHere(t)
    ensures NoUrlHere(t)
  {
    forall start | 0 <= start <= |t| ensures !UrlHere(t[start..]) {
      if start == 0 { assert t[0..] == t; } else { assert t[1..][start - 1..] == t[start..]; }
    }
  }

  /** A piece in front, none of whose positions can start a match, changes nothing. */
  lemma {:induction false} NoUrlPrepend(p: string, t: string)
    requires NoUrlHere(t)
    requires forall i | 0 <= i < |p| :: !UrlHere(p[i..] + t)
    ensures NoUrlHere(p + t)
  {
    forall start | 0 <= start <= |p + t| ensures !UrlHere((p + t)[start..]) {
      if start < |p| {
        assert (p + t)[start..] == p[start..] + t;
      } else {
        assert (p + t)[start..] == t[start - |p|..];
      }
    }
  }

  /** Path text up to a `?` that some query text follows. */
  predicate Leads(t: string) {
    t != "" && if t[0] == '?' then |t| > 1 && IsQuery(t[1]) else IsPath(t[0]) && Leads(t[1..])
  }

  lemma {:induction false} LeadsPast(p: string, t: string)
    requires forall i :: 0 <= i < |p| ==> IsPath(p[i])
    ensures Leads(p + t) <==> Leads(t)
  {
    if p == "" {
      assert p + t == t;
    } else {
      assert (p + t)[1..] == p[1..] + t;
      LeadsPast(p[1..], t);
    }
  }

  lemma {:induction false} LeadsIff(t: string)
    ensures Leads(t) <==> PathLen(t) < |t| && t[PathLen(t)] == '?' && QueryLen(t[PathLen(t) + 1..]) > 0
  {
    if t != "" && IsPath(t[0]) {
      LeadsIff(t[1..]);
      if PathLen(t) < |t| { assert t[1..][PathLen(t[1..]) + 1..] == t[PathLen(t) + 1..]; }
    }
  }

  lemma SchemeIsPath(t: string)
    ensures forall i :: 0 <= i < SchemeLen(t) ==> IsPath(t[i])
  {
  }

  lemma TailOfTail(t: string, n: nat, m: nat)
    requires n + m <= |t|
    ensures m < |t[n..]| ==> t[n + m] == t[n..][m] && t[n + m + 1..] == t[n..][m + 1..]
  {
  }

  /** A match at the front, seen from behind the scheme. */
  lemma UrlHereIs(t: string)
    ensures var rest := t[SchemeLen(t)..]; var m := PathLen(rest);
      UrlHere(t) <==> SchemeLen(t) > 0 && 0 < m < |rest| && rest[m] == '?' && QueryLen(rest[m + 1..]) > 0
  {
    hide SchemeLen, PathLen, QueryLen;
    TailOfTail(t, SchemeLen(t), PathLen(t[SchemeLen(t)..]));
  }

  lemma PathStarts(t: string)
    ensures PathLen(t) > 0 <==> t != "" && IsPath(t[0])
  {
  }

  lemma UrlHereLeads(t: string)
    ensures UrlHere(t) <==> SchemeLen(t) > 0 && |t| > SchemeLen(t) && IsPath(t[SchemeLen(t)]) && Leads(t)
  {
    hide UrlHere, SchemeLen, PathLen, QueryLen, Leads, IsPath;
    var n := SchemeLen(t);
    var rest := t[n..];
    SchemeIsPath(t);
    UrlHereIs(t);
    LeadsIff(rest);
    PathStarts(rest);
    LeadsPast(t[..n], rest);
    assert t[..n] + rest == t;
  }

  // ---------------------------------------------------------------------
  // The URL pass leaves no URL match
  // ---------------------------------------------------------------------

  lemma {:induction false} UrlPassPrefix(t: string, p: string)
    requires p <= ScrubUrl(t) && forall i :: 0 <= i < |p| ==> IsPath(p[i])
    ensures p <= t
    decreases |t|
  {
    if p != "" {
      if UrlHere(t) {
        assert ScrubUrl(t)[QueryAt(t)] == '?';
      } else {
        assert p[1..] <= ScrubUrl(t)[1..] == ScrubUrl(t[1..]);
        UrlPassPrefix(t[1..], p[1..]);
      }
    }
  }

  /** A scrubbed query does not lead anywhere: its `?` is followed by a bracket. */
  lemma ScrubbedDoesNotLead(p: string, rest: string)
    requires forall i :: 0 <= i < |p| ==> IsPath(p[i])
    ensures !Leads(p + URL_MARK + rest)
  {
    assert p + URL_MARK + rest == p + (URL_MARK + rest);
    LeadsPast(p, URL_MARK + rest);
  }

  lemma UrlPathChars(t: string)
    requires UrlHere(t)
    ensures forall i :: 0 <= i < QueryAt(t) ==> IsPath(t[i])
  {
    var n := SchemeLen(t);
    forall i | n <= i < QueryAt(t) ensures IsPath(t[i]) { assert t[i] == t[n..][i - n]; }
  }

  lemma {:induction false} UrlPassLeads(t: string)
    ensures Leads(ScrubUrl(t)) ==> Leads(t)
    ensures t != "" ==> ScrubUrl(t) != "" && ScrubUrl(t)[0] == t[0]
    decreases |t|
  {
    if UrlHere(t) {
      var q := QueryAt(t);
      UrlPathChars(t);
      ScrubbedDoesNotLead(t[..q], ScrubUrl(t[UrlEnd(t)..]));
    } else if t != "" {
      UrlPassLeads(t[1..]);
    }
  }

  lemma ScrubbedPieceClean(p: string, rest: string)
    requires NoUrlHere(rest) && forall i :: 0 <= i < |p| ==> IsPath(p[i])
    ensures NoUrlHere(p + URL_MARK + rest)
  {
    hide UrlHere, SchemeLen, QueryAt, IsPath;
    var piece := p + URL_MARK;
    forall i | 0 <= i < |piece| ensures !UrlHere(piece[i..] + rest) {
      if i <= |p| {
        assert piece[i..] + rest == p[i..] + URL_MARK + rest;
        ScrubbedDoesNotLead(p[i..], rest);
        UrlHereLeads(piece[i..] + rest);
      } else {
        MarkNoScheme(i - |p|, piece[i..] + rest);
      }
    }
    NoUrlPrepend(piece, rest);
  }

  lemma MarkNoScheme(j: nat, t: string)
    requires j < |URL_MARK| && t != "" && t[0] == URL_MARK[j]
    ensures !UrlHere(t)
  {
    assert URL_MARK[j] != 'h';
  }

  lemma UrlPassFront(t: string)
    requires !UrlHere(t)
    ensures !UrlHere(ScrubUrl(t))
  {
    var out := ScrubUrl(t);
    UrlHereLeads(out);
    UrlHereLeads(t);
    if UrlHere(out) {
      SchemeIsPath(out);
      UrlPassPrefix(t, out[..SchemeLen(out) + 1]);
      UrlPassLeads(t);
    }
  }

  lemma UrlPassCons(t: string)
    requires t != "" && !UrlHere(t) && NoUrlHere(ScrubUrl(t[1..]))
    ensures NoUrlHere(ScrubUrl(t))
  {
    UrlPassFront(t);
    var out := ScrubUrl(t);
    assert out == [t[0]] + ScrubUrl(t[1..]);
    assert out[1..] == ScrubUrl(t[1..]);
    NoUrlCons(out);
  }

  lemma UrlPassMatch(t: string)
    requires UrlHere(t) && NoUrlHere(ScrubUrl(t[UrlEnd(t)..]))
    ensures NoUrlHere(ScrubUrl(t))
  {
    UrlPathChars(t);
    ScrubbedPieceClean(t[..QueryAt(t)], ScrubUrl(t[UrlEnd(t)..]));
  }

  lemma {:induction false} UrlPassClean(t: string)
    ensures NoUrlHere(ScrubUrl(t))
    decreases |t|
  {
    if t == "" {
    } else if UrlHere(t) {
      UrlPassClean(t[UrlEnd(t)..]);
      UrlPassMatch(t);
    } else {
      UrlPassClean(t[1..]);
      UrlPassCons(t);
    }
  }

  lemma {:induction false} UrlPassIdentity(t: string)
    requires NoUrlHere(t)
    ensures ScrubUrl(t) == t
    decreases |t|
  {
    if t != "" {
      assert t[0..] == t;
      forall start | 0 <= start <= |t[1..]| ensures !UrlHere(t[1..][start..]) {
        assert t[1..][start..] == t[start + 1..];
      }
      UrlPassIdentity(t[1..]);
    }
  }

  // ---------------------------------------------------------------------
  // The token pass leaves no token, and makes no new URL match
  // ---------------------------------------------------------------------

  /** Every maximal run of the token alphabet is shorter than MIN_TOKEN. */
  predicate RunsShort(t: string)
    decreases |t|
  {
    t != "" ==>
      var n := TokenLen(t);
      n < MIN_TOKEN && RunsShort(t[if n == 0 then 1 else n..])
  }

  lemma TokenLenIs(t: string, n: nat)
    requires n <= |t| && (forall i :: 0 <= i < n ==> IsToken(t[i])) && (n < |t| ==> !IsToken(t[n]))
    ensures TokenLen(t) == n
  {
  }

  lemma {:induction false} TokenPassStart(t: string)
    requires t != ""
    ensures ScrubTokens(t) != "" && (ScrubTokens(t)[0] == t[0] || ScrubTokens(t)[0] == '[')
    ensures !IsToken(t[0]) ==> ScrubTokens(t) == [t[0]] + ScrubTokens(t[1..])
    ensures TokenLen(t) < MIN_TOKEN ==>
              var n := TokenLen(t);
              ScrubTokens(t) == t[..n] + ScrubTokens(t[n..]) && (n < |t| ==> ScrubTokens(t[n..]) == [t[n]] + ScrubTokens(t[n + 1..]))
  {
    var n := TokenLen(t);
    if n < |t| {
      assert t[n..][0] == t[n] && t[n..][1..] == t[n + 1..];
      assert TokenLen(t[n..]) == 0;
    }
    if n == 0 { assert t[..0] + ScrubTokens(t[0..]) == ScrubTokens(t) by { assert t[0..] == t; } }
  }

  lemma ShortBehind(t: string, n: nat)
    requires n <= |t| && t != "" && TokenLen(t) == n < MIN_TOKEN && RunsShort(t[if n == 0 then 1 else n..])
    ensures RunsShort(t)
  {
  }

  /** The mark is one short run between two brackets. */
  lemma MarkShort(rest: string)
    requires RunsShort(rest)
    ensures RunsShort(TOKEN_MARK + rest)
  {
    hide RunsShort, TokenLen;
    var out, closed := TOKEN_MARK + rest, "]" + rest;
    TokenLenIs(closed, 0);
    assert closed[1..] == rest;
    ShortBehind(closed, 0);
    var inner := out[1..];
    TokenLenIs(inner, 14);
    assert inner[14..] == closed;
    ShortBehind(inner, 14);
    TokenLenIs(out, 0);
    ShortBehind(out, 0);
  }

  lemma {:induction false} TokenPassShort(t: string)
    ensures RunsShort(ScrubTokens(t))
    decreases |t|
  {
    hide RunsShort, TokenLen;
    if t == "" {
      NothingShort();
    } else {
      var n := TokenLen(t);
      var out := ScrubTokens(t);
      TokenPassStart(t);
      var rest := ScrubTokens(t[if n == 0 then 1 else n..]);
      TokenPassShort(t[if n == 0 then 1 else n..]);
      if n >= MIN_TOKEN {
        MarkShort(rest);
      } else {
        assert out[if n == 0 then 1 else n..] == rest;
        TokenLenIs(out, n);
        ShortBehind(out, n);
      }
    }
  }

  lemma NothingShort()
    ensures RunsShort("")
  {
  }

  /** A match within the first run is that run. */
  lemma MatchInFront(t: string, start: nat, end: nat)
    requires TokenMatch(t, start, end)
    ensures t != "" && (start < (if TokenLen(t) == 0 then 1 else TokenLen(t)) ==> TokenLen(t) >= MIN_TOKEN)
  {
    if start == 0 { TokenLenIs(t, end); }
  }

  lemma MatchShifts(t: string, step: nat, start: nat, end: nat)
    requires step <= start && TokenMatch(t, start, end)
    ensures TokenMatch(t[step..], start - step, end - step)
  {
  }

  lemma {:induction false} RunsShortNoMatch(t: string, start: nat, end: nat)
    requires RunsShort(t)
    ensures !TokenMatch(t, start, end)
    decreases |t|
  {
    hide TokenLen, TokenMatch, RunsShort;
    if TokenMatch(t, start, end) {
      MatchInFront(t, start, end);
      var step := RestShort(t);
      MatchShifts(t, step, start, end);
      RunsShortNoMatch(t[step..], start - step, end - step);
    }
  }

  /** Behind the first run, or the character that stands for one, runs are short as well. */
  lemma RestShort(t: string) returns (step: nat)
    requires t != "" && RunsShort(t)
    ensures TokenLen(t) < MIN_TOKEN && 1 <= step <= |t| && RunsShort(t[step..])
    ensures step == if TokenLen(t) == 0 then 1 else TokenLen(t)
  {
    step := if TokenLen(t) == 0 then 1 else TokenLen(t);
  }

  lemma {:induction false} TokenPassIdentity(t: string)
    requires RunsShort(t)
    ensures ScrubTokens(t) == t
    decreases |t|
  {
    if t != "" {
      TokenPassIdentity(t[if TokenLen(t) == 0 then 1 else TokenLen(t)..]);
    }
  }

  /** Neither a run of token characters nor the mark put in its place matters to what leads. */
  lemma LeadsPastRun(t: string, n: nat)
    requires n <= |t| && forall i :: 0 <= i < n ==> IsToken(t[i])
    ensures Leads(t) <==> Leads(t[n..])
    ensures forall rest :: Leads(TOKEN_MARK + rest) <==> Leads(rest)
    ensures forall rest :: Leads(t[..n] + rest) <==> Leads(rest)
  {
    hide Leads;
    assert t == t[..n] + t[n..];
    assert forall i :: 0 <= i < |TOKEN_MARK| ==> IsPath(TOKEN_MARK[i]);
    forall rest ensures (Leads(TOKEN_MARK + rest) <==> Leads(rest)) && (Leads(t[..n] + rest) <==> Leads(rest)) {
      LeadsPast(TOKEN_MARK, rest);
      LeadsPast(t[..n], rest);
    }
    LeadsPast(t[..n], t[n..]);
  }

  lemma {:induction false} TokenPassLeads(t: string)
    ensures Leads(ScrubTokens(t)) ==> Leads(t)
    decreases |t|
  {
    if t != "" {
      var n := TokenLen(t);
      if n == 0 {
        TokenPassLeads(t[1..]);
        if |t| > 1 { TokenPassStart(t[1..]); }
        assert ScrubTokens(t)[1..] == ScrubTokens(t[1..]);
      } else {
        TokenPassLeads(t[n..]);
        LeadsPastRun(t, n);
      }
    }
  }

  /** Two slashes and another character, once in the output, were in the input. */
  lemma TokenPassSlashes(u: string)
    requires |ScrubTokens(u)| > 2 && ScrubTokens(u)[0] == '/' && ScrubTokens(u)[1] == '/'
    ensures |u| > 2 && u[..3] == ScrubTokens(u)[..3]
  {
    TokenPassStart(u);
    var k := TokenLen(u);
    var y := ScrubTokens(u);
    assert 1 <= k < MIN_TOKEN;
    assert forall i :: 0 <= i < k ==> y[i] == u[i];
    if k < |u| { assert y[k] == u[k]; } else { assert y == u; }
  }

  /** The run in front of the first other character survives the pass. */
  lemma TokenPassRun(t: string, n: nat)
    requires n < |ScrubTokens(t)| && !IsToken(ScrubTokens(t)[n]) && ScrubTokens(t)[n] != '['
    requires forall i :: 0 <= i < n ==> IsToken(ScrubTokens(t)[i])
    ensures n < |t| && t[..n + 1] == ScrubTokens(t)[..n + 1]
    ensures ScrubTokens(t) == t[..n + 1] + ScrubTokens(t[n + 1..])
  {
    TokenPassStart(t);
    var m := TokenLen(t);
    var tail := if m < |t| then ScrubTokens(t[m + 1..]) else "";
    assert ScrubTokens(t) == t[..m] + (if m < |t| then [t[m]] + tail else "");
    RunsAgree(t, ScrubTokens(t), tail, m, n);
  }

  lemma RunsAgree(t: string, out: string, tail: string, m: nat, n: nat)
    requires m <= |t| && (forall i :: 0 <= i < m ==> IsToken(t[i])) && (m < |t| ==> !IsToken(t[m]))
    requires out == t[..m] + (if m < |t| then [t[m]] + tail else "")
    requires n < |out| && (forall i :: 0 <= i < n ==> IsToken(out[i])) && !IsToken(out[n])
    ensures m == n < |t| && t[..n + 1] == out[..n + 1] && out == t[..n + 1] + tail
  {
    assert forall i :: 0 <= i < m ==> out[i] == t[i];
    if m < |t| { assert out[m] == t[m]; }
    assert m == n;
    assert t[..n + 1] == t[..n] + [t[n]];
  }

  lemma SchemeShape(t: string)
    requires SchemeLen(t) > 0
    ensures var s := SchemeLen(t);
      s >= 7 && t[s - 3] == ':' && t[s - 2] == '/' && t[s - 1] == '/' && forall i :: 0 <= i < s - 3 ==> IsToken(t[i])
  {
  }

  lemma SchemeOfPrefix(a: string, b: string, n: nat)
    requires n <= |a| && n <= |b| && a[..n] == b[..n] && 0 < SchemeLen(a) < n
    ensures SchemeLen(b) == SchemeLen(a) && a[SchemeLen(a)] == b[SchemeLen(a)]
  {
    assert forall i :: 0 <= i < n ==> a[i] == a[..n][i] && b[i] == b[..n][i];
  }

  /** The scheme and the first host character of a match in the output were there before. */
  lemma TokenPassScheme(t: string)
    requires var out := ScrubTokens(t);
      SchemeLen(out) > 0 && |out| > SchemeLen(out)
    ensures SchemeLen(t) == SchemeLen(ScrubTokens(t)) && |t| > SchemeLen(t) && t[SchemeLen(t)] == ScrubTokens(t)[SchemeLen(t)]
  {
    hide ScrubTokens, SchemeLen;
    var out := ScrubTokens(t);
    var s := SchemeLen(out);
    SchemeShape(out);
    TokenPassRun(t, s - 3);
    var u := t[s - 2..];
    var y := ScrubTokens(u);
    assert y == out[s - 2..];
    TokenPassSlashes(u);
    assert t[..s + 1] == t[..s - 2] + u[..3];
    assert out[..s + 1] == t[..s - 2] + y[..3];
    SchemeOfPrefix(out, t, s + 1);
  }

  lemma TokenPassFront(t: string)
    requires !UrlHere(t)
    ensures !UrlHere(ScrubTokens(t))
  {
    UrlHereLeads(t);
    UrlHereLeads(ScrubTokens(t));
    TokenPassLeads(t);
    if UrlHere(ScrubTokens(t)) { TokenPassScheme(t); }
  }

  lemma TokenMarkClean(rest: string)
    requires NoUrlHere(rest)
    ensures NoUrlHere(TOKEN_MARK + rest)
  {
    forall i | 0 <= i < |TOKEN_MARK| ensures !UrlHere(TOKEN_MARK[i..] + rest) {
      assert (TOKEN_MARK[i..] + rest)[0] == TOKEN_MARK[i] != 'h';
    }
    NoUrlPrepend(TOKEN_MARK, rest);
  }

  lemma CutTwice(t: string, i: nat, n: nat)
    requires i <= n <= |t|
    ensures t[i..][n - i..] == t[n..] && t[i..][..n - i] == t[i..n]
  {
  }

  lemma KeptSuffix(t: string, i: nat)
    requires i < TokenLen(t) < MIN_TOKEN
    ensures ScrubTokens(t[i..]) == t[i..TokenLen(t)] + ScrubTokens(t[TokenLen(t)..])
  {
    hide TokenLen;
    var n := TokenLen(t);
    TokenLenIs(t[i..], n - i);
    CutTwice(t, i, n);
  }

  lemma KeptRunClean(t: string)
    requires NoUrlHere(t) && 0 < TokenLen(t) < MIN_TOKEN && NoUrlHere(ScrubTokens(t[TokenLen(t)..]))
    ensures NoUrlHere(ScrubTokens(t))
  {
    var n := TokenLen(t);
    var run, rest := t[..n], ScrubTokens(t[n..]);
    forall i | 0 <= i < n ensures !UrlHere(run[i..] + rest) {
      KeptSuffix(t, i);
      TokenPassFront(t[i..]);
      assert run[i..] == t[i..n];
    }
    NoUrlPrepend(run, rest);
  }

  lemma {:induction false} TokenPassKeepsClean(t: string)
    requires NoUrlHere(t)
    ensures NoUrlHere(ScrubTokens(t))
    decreases |t|
  {
    if t != "" {
      var n := TokenLen(t);
      var step := if n == 0 then 1 else n;
      forall start | 0 <= start <= |t[step..]| ensures !UrlHere(t[step..][start..]) {
        assert t[step..][start..] == t[start + step..];
      }
      TokenPassKeepsClean(t[step..]);
      if n == 0 {
        assert t[0..] == t;
        TokenPassFront(t);
        assert ScrubTokens(t)[1..] == ScrubTokens(t[1..]);
        NoUrlCons(ScrubTokens(t));
      } else if n >= MIN_TOKEN {
        TokenMarkClean(ScrubTokens(t[n..]));
      } else {
        KeptRunClean(t);
      }
    }
  }

  // ---------------------------------------------------------------------
  // Scrubbing as a whole
  // ---------------------------------------------------------------------

  /** Whatever goes in, no URL query and no token-like run comes out. */
  lemma ScrubLeavesNoMatch(t: string)
    ensures NoUrlMatch(Scrub(t))
    ensures NoTokenMatch(Scrub(t))
  {
    UrlPassClean(t);
    TokenPassKeepsClean(ScrubUrl(t));
    NoUrlHereIsNoMatch(Scrub(t));
    TokenPassShort(ScrubUrl(t));
    forall start, end ensures !TokenMatch(Scrub(t), start, end) {
      RunsShortNoMatch(Scrub(t), start, end);
    }
  }

  /** A match in what follows a first run, or a first other character, is a match of the whole. */
  lemma MatchLater(a: string, b: string, start: nat, end: nat)
    requires a != "" && (b == "" || !IsToken(b[0]) || !IsToken(a[|a| - 1]))
    requires TokenMatch(b, start, end)
    ensures TokenMatch(a + b, start + |a|, end + |a|)
  {
    var t := a + b;
    forall i | start + |a| <= i < end + |a| ensures IsToken(t[i]) {
      assert t[i] == b[i - |a|];
    }
    if start > 0 {
      assert t[start + |a| - 1] == b[start - 1];
    } else {
      assert IsToken(b[0]) && t[|a| - 1] == a[|a| - 1];
    }
  }

  /** No match of the token pattern, no long run. */
  lemma {:induction false} NoMatchRunsShort(t: string)
    requires NoTokenMatch(t)
    ensures RunsShort(t)
    decreases |t|
  {
    if t != "" {
      LongRunIffMatch(t);
      var step := if TokenLen(t) == 0 then 1 else TokenLen(t);
      assert t == t[..step] + t[step..];
      forall start, end ensures !TokenMatch(t[step..], start, end) {
        if TokenMatch(t[step..], start, end) { MatchLater(t[..step], t[step..], start, end); }
      }
      NoMatchRunsShort(t[step..]);
    }
  }

  /** Text without a match of either pattern passes through unchanged. */
  lemma ScrubKeepsCleanText(t: string)
    requires NoUrlMatch(t) && NoTokenMatch(t)
    ensures Scrub(t) == t
  {
    NoMatchRunsShort(t);
    NoUrlHereIsNoMatch(t);
    UrlPassIdentity(t);
    TokenPassIdentity(t);
  }

  /** A second filter pass is a no-op on every string. */
  lemma ScrubIdempotent(t: string)
    ensures Scrub(Scrub(t)) == Scrub(t)
  {
    ScrubLeavesNoMatch(t);
    ScrubKeepsCleanText(Scrub(t));
  }

  // ---------------------------------------------------------------------
  // The log record
  // ---------------------------------------------------------------------

  // ---------------------------------------------------------------------
  // What a substitution does, without its scanner
  // ---------------------------------------------------------------------

  /** A text taken apart: characters that stay, and matches of either pattern. */
  datatype Piece = Kept(c: char) | Url(head: string, query: string) | Token(run: string)

  function TextOf(p: Piece): string {
    match p
    case Kept(c) => [c]
    case Url(head, query) => head + query
    case Token(run) => run
  }

  function ScrubbedOf(p: Piece): string {
    match p
    case Kept(c) => [c]
    case Url(head, _) => head + "?[scrubbed]"
    case Token(_) => "[token-scrubbed]"
  }

  function Output(ps: seq<Piece>): string {
    if ps == [] then "" else ScrubbedOf(ps[0]) + Output(ps[1..])
  }

  /** A URL piece is a match as long as any from there; at a kept character there is none. */
  ghost predicate UrlPiece(t: string, p: Piece) {
    match p
    case Kept(_) => forall q: nat, end: nat :: !UrlMatch(t, q, end)
    case Url(head, query) =>
      UrlMatch(t, |head|, |head + query|) && forall q: nat, end: nat :: UrlMatch(t, q, end) ==> end <= |head + query|
    case Token(_) => false
  }

  ghost predicate TokenPiece(t: string, at: nat, p: Piece) {
    match p
    case Kept(_) => forall end: nat :: !TokenMatch(t, at, end)
    case Url(_, _) => false
    case Token(run) => TokenMatch(t, at, at + |run|)
  }

  /** From `at` on the text is these pieces, one behind the other. */
  ghost predicate UrlCut(t: string, at: nat, ps: seq<Piece>)
    decreases |ps|
  {
    at <= |t| &&
    if ps == [] then at == |t|
    else TextOf(ps[0]) <= t[at..] && UrlPiece(t[at..], ps[0]) && UrlCut(t, at + |TextOf(ps[0])|, ps[1..])
  }

  ghost predicate TokenCut(t: string, at: nat, ps: seq<Piece>)
    decreases |ps|
  {
    at <= |t| &&
    if ps == [] then at == |t|
    else TextOf(ps[0]) <= t[at..] && TokenPiece(t, at, ps[0]) && TokenCut(t, at + |TextOf(ps[0])|, ps[1..])
  }

  /** The whole text is kept characters and leftmost, greedy, non-overlapping URL matches, and
      `out` is the same with every match's query replaced. */
  ghost predicate UrlScrubs(t: string, out: string) { exists ps :: UrlCut(t, 0, ps) && out == Output(ps) }

  ghost predicate TokenScrubs(t: string, out: string) { exists ps :: TokenCut(t, 0, ps) && out == Output(ps) }

  ghost predicate Scrubs(t: string, out: string) { exists mid :: UrlScrubs(t, mid) && TokenScrubs(mid, out) }

  lemma UrlMatchesAgree(t: string, q: nat, end: nat, q': nat, end': nat)
    requires UrlMatch(t, q, end) && UrlMatch(t, q', end')
    ensures q == q'
  {
    hide SchemeLen;
    assert IsPath(t[if q < q' then q else q']) || q == q';
  }

  lemma UrlPieceUnique(t: string, p: Piece, q: Piece)
    requires UrlPiece(t, p) && TextOf(p) <= t && UrlPiece(t, q) && TextOf(q) <= t
    ensures p == q && t != ""
  {
    hide UrlMatch;
    if p.Url? { PieceMatches(t, p); }
    if q.Url? { PieceMatches(t, q); }
    if p.Url? && q.Url? { UrlMatchesAgree(t, |p.head|, |p.head + p.query|, |q.head|, |q.head + q.query|); }
    PieceByLength(t, p, q);
  }

  lemma PieceMatches(t: string, p: Piece)
    requires UrlPiece(t, p) && p.Url?
    ensures UrlMatch(t, |p.head|, |p.head + p.query|) && t != ""
  {
  }

  /** There is only one way to take a text apart, for either pattern. */
  lemma {:induction false} UrlCutUnique(t: string, at: nat, ps: seq<Piece>, qs: seq<Piece>)
    requires UrlCut(t, at, ps) && UrlCut(t, at, qs)
    ensures ps == qs
    decreases |ps|
  {
    hide UrlPiece, TextOf;
    if ps != [] && qs != [] {
      UrlPieceUnique(t[at..], ps[0], qs[0]);
      UrlCutUnique(t, at + |TextOf(ps[0])|, ps[1..], qs[1..]);
      assert ps == [ps[0]] + ps[1..] && qs == [qs[0]] + qs[1..];
    } else {
      UrlCutEnds(t, at, if ps == [] then qs else ps);
    }
  }

  lemma UrlCutEnds(t: string, at: nat, ps: seq<Piece>)
    requires UrlCut(t, at, ps)
    ensures ps == [] <==> at == |t|
  {
    if ps != [] && ps[0].Url? { PieceMatches(t[at..], ps[0]); }
  }

  lemma PieceByLength(t: string, p: Piece, q: Piece)
    requires TextOf(p) <= t && TextOf(q) <= t && |TextOf(p)| == |TextOf(q)|
    requires (p.Kept? && q.Kept?) || (p.Token? && q.Token?) || (p.Url? && q.Url? && |p.head| == |q.head|)
    ensures p == q
  {
    assert TextOf(p) == t[..|TextOf(p)|] == TextOf(q);
    if p.Url? {
      assert p.head == TextOf(p)[..|p.head|] && p.query == TextOf(p)[|p.head|..];
      assert q.head == TextOf(q)[..|q.head|] && q.query == TextOf(q)[|q.head|..];
    }
  }

  lemma TokenPieceUnique(t: string, at: nat, p: Piece, q: Piece)
    requires at <= |t| && TokenPiece(t, at, p) && TextOf(p) <= t[at..] && TokenPiece(t, at, q) && TextOf(q) <= t[at..]
    ensures p == q && at < |t|
  {
    if p.Token? && q.Token? { TokenMatchesAgree(t, at, at + |p.run|, at + |q.run|); }
    PieceByLength(t[at..], p, q);
  }

  lemma {:induction false} TokenCutUnique(t: string, at: nat, ps: seq<Piece>, qs: seq<Piece>)
    requires TokenCut(t, at, ps) && TokenCut(t, at, qs)
    ensures ps == qs
    decreases |ps|
  {
    hide TokenPiece, TextOf;
    if ps != [] && qs != [] {
      TokenPieceUnique(t, at, ps[0], qs[0]);
      TokenCutUnique(t, at + |TextOf(ps[0])|, ps[1..], qs[1..]);
      assert ps == [ps[0]] + ps[1..] && qs == [qs[0]] + qs[1..];
    } else {
      TokenCutEnds(t, at, if ps == [] then qs else ps);
    }
  }

  lemma TokenCutEnds(t: string, at: nat, ps: seq<Piece>)
    requires TokenCut(t, at, ps)
    ensures ps == [] <==> at == |t|
  {
  }

  lemma TokenMatchesAgree(t: string, at: nat, end: nat, end': nat)
    requires TokenMatch(t, at, end) && TokenMatch(t, at, end')
    ensures end == end'
  {
  }

  /** So each substitution has one result. */
  lemma ScrubsOnce(t: string, a: string, b: string)
    requires Scrubs(t, a) && Scrubs(t, b)
    ensures a == b
  {
    var m: string :| UrlScrubs(t, m) && TokenScrubs(m, a);
    var n: string :| UrlScrubs(t, n) && TokenScrubs(n, b);
    var ps :| UrlCut(t, 0, ps) && m == Output(ps);
    var qs :| UrlCut(t, 0, qs) && n == Output(qs);
    UrlCutUnique(t, 0, ps, qs);
    var us :| TokenCut(m, 0, us) && a == Output(us);
    var vs :| TokenCut(n, 0, vs) && b == Output(vs);
    TokenCutUnique(m, 0, us, vs);
  }

  lemma QueryAtLeast(t: string, n: nat)
    requires n <= |t| && forall i :: 0 <= i < n ==> IsQuery(t[i])
    ensures QueryLen(t) >= n
  {
  }

  /** The match found at the front is as long as any. */
  lemma HereIsLongest(t: string, query: nat, end: nat)
    requires UrlHere(t) && UrlMatch(t, query, end)
    ensures end <= UrlEnd(t)
  {
    hide SchemeLen, IsPath, IsQuery;
    HereMatches(t);
    UrlMatchesAgree(t, QueryAt(t), UrlEnd(t), query, end);
    var tail := t[query + 1..];
    forall i | 0 <= i < end - query - 1 ensures IsQuery(tail[i]) { assert tail[i] == t[query + 1 + i]; }
    QueryAtLeast(tail, end - query - 1);
  }

  lemma UrlCutCons(t: string, at: nat, p: Piece, rest: seq<Piece>)
    requires at <= |t| && TextOf(p) <= t[at..] && UrlPiece(t[at..], p) && UrlCut(t, at + |TextOf(p)|, rest)
    ensures UrlCut(t, at, [p] + rest) && Output([p] + rest) == ScrubbedOf(p) + Output(rest)
  {
    hide UrlPiece, TextOf, ScrubbedOf;
    var ps := [p] + rest;
    assert ps[0] == p && ps[1..] == rest;
  }

  lemma UrlCutNil(t: string)
    ensures UrlCut(t, |t|, []) && Output([]) == "" && t[|t|..] == "" && ScrubUrl("") == ""
  {
  }

  /** One step of the scanner at `at`, as a piece. */
  lemma UrlStep(t: string, at: nat) returns (p: Piece)
    requires at < |t|
    ensures 0 < |TextOf(p)| && TextOf(p) <= t[at..] && UrlPiece(t[at..], p)
    ensures ScrubUrl(t[at..]) == ScrubbedOf(p) + ScrubUrl(t[at + |TextOf(p)|..])
  {
    hide UrlMatch, UrlHere, UrlEnd, QueryAt;
    var s := t[at..];
    UrlHereIffMatch(s);
    if UrlHere(s) {
      UrlPieceHere(s);
      p := Url(s[..QueryAt(s)], s[QueryAt(s)..UrlEnd(s)]);
      assert t[at + UrlEnd(s)..] == s[UrlEnd(s)..];
    } else {
      p := Kept(s[0]);
      assert t[at + 1..] == s[1..];
    }
  }

  /** The scanner takes the text apart in that way. */
  lemma {:induction false} UrlPieces(t: string, at: nat) returns (ps: seq<Piece>)
    requires at <= |t|
    ensures UrlCut(t, at, ps) && Output(ps) == ScrubUrl(t[at..])
    decreases |t| - at
  {
    hide UrlCut, Output, UrlPiece, ScrubUrl, TextOf, ScrubbedOf;
    if at == |t| {
      UrlCutNil(t);
      ps := [];
    } else {
      var p := UrlStep(t, at);
      var rest := UrlPieces(t, at + |TextOf(p)|);
      UrlCutCons(t, at, p, rest);
      ps := [p] + rest;
    }
  }

  lemma UrlPieceHere(s: string)
    requires UrlHere(s)
    ensures QueryAt(s) < UrlEnd(s) <= |s|
    ensures var p := Url(s[..QueryAt(s)], s[QueryAt(s)..UrlEnd(s)]);
      UrlPiece(s, p) && TextOf(p) == s[..UrlEnd(s)] && ScrubbedOf(p) == s[..QueryAt(s)] + URL_MARK
  {
    HereMatches(s);
    hide UrlMatch, UrlHere;
    forall q: nat, end: nat | UrlMatch(s, q, end) ensures end <= UrlEnd(s) { HereIsLongest(s, q, end); }
    assert s[..QueryAt(s)] + s[QueryAt(s)..UrlEnd(s)] == s[..UrlEnd(s)];
  }

  lemma TokenCutCons(t: string, at: nat, p: Piece, rest: seq<Piece>)
    requires at <= |t| && TextOf(p) <= t[at..] && TokenPiece(t, at, p) && TokenCut(t, at + |TextOf(p)|, rest)
    ensures TokenCut(t, at, [p] + rest) && Output([p] + rest) == ScrubbedOf(p) + Output(rest)
  {
    hide TokenPiece, TextOf, ScrubbedOf;
    var ps := [p] + rest;
    assert ps[0] == p && ps[1..] == rest;
  }

  lemma TokenCutNil(t: string)
    ensures TokenCut(t, |t|, []) && Output([]) == "" && t[|t|..] == "" && ScrubTokens("") == ""
  {
  }

  /** Characters at which no run can be matched, in front of pieces. */
  lemma {:induction false} KeptInFront(t: string, at: nat, end: nat, rest: seq<Piece>) returns (ps: seq<Piece>)
    requires at <= end <= |t| && TokenCut(t, end, rest)
    requires forall i: nat, e: nat :: at <= i < end ==> !TokenMatch(t, i, e)
    ensures TokenCut(t, at, ps) && Output(ps) == t[at..end] + Output(rest)
    decreases end - at
  {
    hide TokenMatch, TokenCut, Output;
    if at == end {
      ps := rest;
    } else {
      var more := KeptInFront(t, at + 1, end, rest);
      TokenCutCons(t, at, Kept(t[at]), more);
      ps := [Kept(t[at])] + more;
      assert t[at..end] == [t[at]] + t[at + 1..end];
    }
  }

  lemma NoneInShortRun(t: string, at: nat, i: nat, e: nat)
    requires at <= |t| && TokenLen(t[at..]) < MIN_TOKEN && at <= i < at + TokenLen(t[at..])
    ensures !TokenMatch(t, i, e)
  {
    var s, n := t[at..], TokenLen(t[at..]);
    if i > at { assert IsToken(s[i - 1 - at]); }
    if at + n < |t| { assert s[n] == t[at + n]; }
  }

  lemma ScrubTokensOpens(s: string)
    requires s != ""
    ensures var n := TokenLen(s);
      ScrubTokens(s) == (if n >= MIN_TOKEN then "[token-scrubbed]" else s[..if n == 0 then 1 else n]) + ScrubTokens(s[if n == 0 then 1 else n..])
  {
    assert s[..1] == [s[0]];
  }

  /** One step of the second scanner, in front of the pieces of what follows. */
  lemma TokenStep(t: string, at: nat, next: nat, rest: seq<Piece>) returns (ps: seq<Piece>)
    requires at < |t| && (at > 0 && IsToken(t[at]) ==> !IsToken(t[at - 1]))
    requires next == at + (if TokenLen(t[at..]) == 0 then 1 else TokenLen(t[at..])) <= |t|
    requires TokenCut(t, next, rest) && Output(rest) == ScrubTokens(t[next..])
    ensures TokenCut(t, at, ps) && Output(ps) == ScrubTokens(t[at..])
  {
    hide TokenMatch, IsToken, TokenLen, TokenCut, Output, ScrubTokens;
    var s := t[at..];
    var n := TokenLen(s);
    ScrubTokensOpens(s);
    assert t[next..] == s[next - at..];
    if n >= MIN_TOKEN {
      RunMatches(t, at);
      TokenCutCons(t, at, Token(s[..n]), rest);
      ps := [Token(s[..n])] + rest;
    } else {
      forall i: nat, e: nat | at <= i < next ensures !TokenMatch(t, i, e) {
        if n == 0 { NoTokenNoMatch(t, at, e); } else { NoneInShortRun(t, at, i, e); }
      }
      ps := KeptInFront(t, at, next, rest);
      assert t[at..next] == s[..next - at];
      assert n == 0 ==> s[..1] == [s[0]];
    }
  }

  /** And so does the second scanner, from any place where a run can begin. */
  lemma {:induction false} TokenPieces(t: string, at: nat) returns (ps: seq<Piece>)
    requires at <= |t| && (0 < at < |t| && IsToken(t[at]) ==> !IsToken(t[at - 1]))
    ensures TokenCut(t, at, ps) && Output(ps) == ScrubTokens(t[at..])
    decreases |t| - at
  {
    hide TokenCut, Output, ScrubTokens, IsToken;
    if at == |t| {
      TokenCutNil(t);
      ps := [];
    } else {
      var next := at + if TokenLen(t[at..]) == 0 then 1 else TokenLen(t[at..]);
      AfterRun(t, at);
      var rest := TokenPieces(t, next);
      ps := TokenStep(t, at, next, rest);
    }
  }

  lemma NoTokenNoMatch(t: string, at: nat, e: nat)
    requires at < |t| && TokenLen(t[at..]) == 0
    ensures !TokenMatch(t, at, e)
  {
    assert t[at..][0] == t[at];
  }

  lemma AfterRun(t: string, at: nat)
    requires at < |t|
    ensures var n := TokenLen(t[at..]); var next := at + if n == 0 then 1 else n;
      next <= |t| && (0 < next < |t| && IsToken(t[next]) ==> !IsToken(t[next - 1]))
  {
    var s, n := t[at..], TokenLen(t[at..]);
    assert s[0] == t[at];
    if n < |s| { assert s[n] == t[at + n]; }
  }

  lemma RunMatches(t: string, at: nat)
    requires at < |t| && TokenLen(t[at..]) >= MIN_TOKEN && (at > 0 && IsToken(t[at]) ==> !IsToken(t[at - 1]))
    ensures TokenMatch(t, at, at + TokenLen(t[at..]))
  {
    var s, n := t[at..], TokenLen(t[at..]);
    forall i | at <= i < at + n ensures IsToken(t[i]) { assert t[i] == s[i - at]; }
    if at + n < |t| { assert s[n] == t[at + n]; }
  }

  /** The scrubber is that substitution, both passes of it. */
  lemma ScrubIsSubstitution(t: string)
    ensures UrlScrubs(t, ScrubUrl(t)) && TokenScrubs(ScrubUrl(t), Scrub(t)) && Scrubs(t, Scrub(t))
  {
    assert t[0..] == t;
    var ps := UrlPieces(t, 0);
    var mid := ScrubUrl(t);
    assert mid[0..] == mid;
    var qs := TokenPieces(mid, 0);
  }

  /** A field of a log record: text, or any other object. */
  datatype Field = Text(text: string) | Object(id: int)

  datatype Args = NoArgs | Named(byName: map<string, Field>) | Positional(list: seq<Field>) | OtherArgs(id: int)

  function ScrubField(f: Field): Field { if f.Text? then Text(Scrub(f.text)) else f }

  function ScrubArgs(a: Args): Args {
    match a
    case Named(m) => Named(map k | k in m :: ScrubField(m[k]))
    case Positional(l) => Positional(seq(|l|, i requires 0 <= i < |l| => ScrubField(l[i])))
    case _ => a
  }

  /** No text of this field holds a match of either pattern. */
  ghost predicate CleanField(f: Field) { f.Text? ==> NoUrlMatch(f.text) && NoTokenMatch(f.text) }

  ghost predicate CleanArgs(a: Args) {
    (a.Named? ==> forall k :: k in a.byName ==> CleanField(a.byName[k]))
    && (a.Positional? ==> forall i :: 0 <= i < |a.list| ==> CleanField(a.list[i]))
  }

  lemma ScrubbedFieldClean(f: Field)
    ensures CleanField(ScrubField(f)) && ScrubField(ScrubField(f)) == ScrubField(f)
  {
    if f.Text? {
      ScrubLeavesNoMatch(f.text);
      ScrubIdempotent(f.text);
    }
  }

  /** Scrubbed arguments are clean, keep their shape and every non-text, and do not change again. */
  lemma ScrubbedArgsClean(a: Args)
    ensures CleanArgs(ScrubArgs(a)) && ScrubArgs(ScrubArgs(a)) == ScrubArgs(a)
  {
    var b := ScrubArgs(a);
    if a.Named? {
      forall k | k in a.byName { ScrubbedFieldClean(a.byName[k]); }
      assert ScrubArgs(b).byName == b.byName;
    } else if a.Positional? {
      forall i | 0 <= i < |a.list| { ScrubbedFieldClean(a.list[i]); }
      assert ScrubArgs(b).list == b.list;
    }
  }

  /** A field after the substitution; anything but text stays the object it was. */
  ghost predicate FieldScrubbed(f: Field, g: Field) {
    if f.Text? then g.Text? && Scrubs(f.text, g.text) else g == f
  }

  ghost predicate ArgsScrubbed(a: Args, b: Args) {
    match a
    case Named(m) => b.Named? && b.byName.Keys == m.Keys && forall k :: k in m ==> FieldScrubbed(m[k], b.byName[k])
    case Positional(l) => b.Positional? && |b.list| == |l| && forall i :: 0 <= i < |l| ==> FieldScrubbed(l[i], b.list[i])
    case _ => b == a
  }

  lemma FieldIsScrubbed(f: Field)
    ensures FieldScrubbed(f, ScrubField(f))
  {
    if f.Text? { ScrubIsSubstitution(f.text); }
  }

  lemma ArgsAreScrubbed(a: Args)
    ensures ArgsScrubbed(a, ScrubArgs(a))
  {
    hide FieldScrubbed, ScrubField;
    if a.Named? {
      forall k | k in a.byName { FieldIsScrubbed(a.byName[k]); }
    } else if a.Positional? {
      forall i | 0 <= i < |a.list| { FieldIsScrubbed(a.list[i]); }
    }
  }

  class LogRecord {
    var msg: Field
    var args: Args
    var excText: Option<string>

    constructor (msg: Field, args: Args, excText: Option<string>)
      ensures this.msg == msg && this.args == args && this.excText == excText
    {
      this.msg, this.args, this.excText := msg, args, excText;
    }

    /** Rewrites every text of the record in place by the two substitutions and nothing else;
        afterwards neither pattern matches anywhere in it, and a record scrubbed before stays as it
        is. */
    method ScrubRecord()
      modifies this
      ensures FieldScrubbed(old(msg), msg) && ArgsScrubbed(old(args), args)
      ensures if old(excText).Some? then excText.Some? && Scrubs(old(excText).value, excText.value) else excText.None?
      ensures msg == ScrubField(old(msg)) && args == ScrubArgs(old(args))
      ensures excText == if old(excText).Some? then Some(Scrub(old(excText).value)) else None
      ensures CleanField(msg) && CleanArgs(args) && (excText.Some? ==> CleanField(Text(excText.value)))
      ensures ScrubField(msg) == msg && ScrubArgs(args) == args
    {
      ScrubbedFieldClean(msg);
      ScrubbedArgsClean(args);
      FieldIsScrubbed(msg);
      ArgsAreScrubbed(args);
      if msg.Text? {
        msg := Text(Scrub(msg.text));
      }
      if args.Named? {
        var named := args.byName;
        args := Named(map k | k in named :: ScrubField(named[k]));
      } else if args.Positional? {
        var list := args.list;
        args := Positional(seq(|list|, i requires 0 <= i < |list| => ScrubField(list[i])));
      }
      if excText.Some? {
        ScrubbedFieldClean(Text(excText.value));
        ScrubIsSubstitution(excText.value);
        excText := Some(Scrub(excText.value));
      }
    }
  }
}
