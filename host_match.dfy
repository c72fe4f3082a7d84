/**
 * Host matching against domain lists (`domainMatches`, `domainAllowed`,
 * `extractDomain`) and the comma-separated list parser (`parseBlocklist`).
 *
 * The URL parser is not modelled: a URL is represented by its parsed host,
 * `None` when `new URL(...)` throws.
 */
module HostMatch {
  import opened Wrappers
  import opened Text

  /** `host.replace(/^www\./, '')`: removes one leading "www." (case-sensitive). */
  function StripWww(host: string): (r: string)
    ensures StartsWith(host, "www.") ==> host == "www." + r
    ensures !StartsWith(host, "www.") ==> r == host
  {
    if StartsWith(host, "www.") then host[4..] else host
  }

  /** The host as compared: "www." stripped first, then lower-cased. */
  function NormalizeHost(host: string): string {
    ToLower(StripWww(host))
  }

  /** A list entry as compared: `domain.toLowerCase().trim()`. */
  function NormalizePattern(pattern: string): string {
    Trim(ToLower(pattern))
  }

  /** One entry of a list matches a normalised host: equal, or a proper subdomain. */
  predicate HostMatchesPattern(host: string, pattern: string) {
    var d := NormalizePattern(pattern);
    host == d || EndsWith(host, "." + d)
  }

  /** `list.some(...)`: some entry of the list matches the host. */
  function AnyMatches(host: string, list: seq<string>): (r: bool)
    ensures r <==> exists i :: 0 <= i < |list| && HostMatchesPattern(host, list[i])
  {
    if |list| == 0 then false
    else HostMatchesPattern(host, list[0]) || AnyMatches(host, list[1..])
  }

  /** `domainMatches(url, blocklist)`; a URL that does not parse matches nothing. */
  function DomainMatches(host: Option<string>, blocklist: seq<string>): (r: bool)
    ensures r <==> (host.Some? &&
      exists i :: 0 <= i < |blocklist| && HostMatchesPattern(NormalizeHost(host.value), blocklist[i]))
  {
    match host
    case None => false
    case Some(h) => AnyMatches(NormalizeHost(h), blocklist)
  }

  /**
   * `domainAllowed(url, allowlist)`: the source writes the same test out a
   * second time; here it is defined once, in `DomainMatches`.
   */
  function DomainAllowed(host: Option<string>, allowlist: seq<string>): (r: bool)
    ensures r <==> (host.Some? &&
      exists i :: 0 <= i < |allowlist| && HostMatchesPattern(NormalizeHost(host.value), allowlist[i]))
  {
    DomainMatches(host, allowlist)
  }

  /** `extractDomain(url)`: the normalised host, or "unknown" when the URL does not parse. */
  function ExtractDomain(host: Option<string>): (r: string)
    ensures host.Some? ==> r == NormalizeHost(host.value)
    ensures host.None? ==> r == "unknown"
  {
    match host
    case None => "unknown"
    case Some(h) => NormalizeHost(h)
  }

  /** One piece of the input, as `parseBlocklist` maps it: `s.trim().toLowerCase()`. */
  function CleanEntry(s: string): string {
    ToLower(Trim(s))
  }

  /** `.map(clean).filter(Boolean)` over the pieces. */
  function CleanEntries(pieces: seq<string>): (r: seq<string>)
    ensures |r| <= |pieces|
    ensures forall k :: 0 <= k < |r| ==> r[k] != ""
  {
    if |pieces| == 0 then []
    else
      var e := CleanEntry(pieces[0]);
      var rest := CleanEntries(pieces[1..]);
      if e == "" then rest else [e] + rest
  }

  /** `parseBlocklist(text)`: split on ',', trim and lower-case each piece, drop empty ones. */
  function ParseBlocklist(text: string): seq<string> {
    CleanEntries(Split(text, ','))
  }

  // ---------------------------------------------------------------------
  // Properties
  // ---------------------------------------------------------------------

  /** An unparseable URL, or an empty list, never matches. */
  lemma NoMatchWithoutHostOrList(host: Option<string>, list: seq<string>)
    ensures DomainMatches(None, list) == false
    ensures DomainMatches(host, []) == false
  {
  }

  /** Matching one list entry: by equality or by suffix "." + entry on the normalised host. */
  lemma MatchSingleEntry(host: string, pattern: string)
    ensures DomainMatches(Some(host), [pattern]) <==>
      (NormalizeHost(host) == Trim(ToLower(pattern)) ||
       EndsWith(NormalizeHost(host), "." + Trim(ToLower(pattern))))
  {
  }

  /** Matching a concatenation of lists is matching either list. */
  lemma {:induction false} MatchesConcat(host: Option<string>, a: seq<string>, b: seq<string>)
    ensures DomainMatches(host, a + b) == (DomainMatches(host, a) || DomainMatches(host, b))
  {
    if host.Some? {
      var h := NormalizeHost(host.value);
      if DomainMatches(host, a + b) {
        var i :| 0 <= i < |a + b| && HostMatchesPattern(h, (a + b)[i]);
        if i < |a| {
          assert a[i] == (a + b)[i];
        } else {
          assert b[i - |a|] == (a + b)[i];
        }
      }
      if DomainMatches(host, a) {
        var i :| 0 <= i < |a| && HostMatchesPattern(h, a[i]);
        assert (a + b)[i] == a[i];
      }
      if DomainMatches(host, b) {
        var i :| 0 <= i < |b| && HostMatchesPattern(h, b[i]);
        assert (a + b)[|a| + i] == b[i];
      }
    }
  }

  /** A pattern already in normal form: no outer whitespace, lower case. */
  predicate IsNormalPattern(p: string) {
    NormalizePattern(p) == p
  }

  lemma LowerIsIdempotent(s: string)
    ensures ToLower(ToLower(s)) == ToLower(s)
  {
  }

  lemma LowerOfLowerIsSame(s: string)
    requires IsLower(s)
    ensures ToLower(s) == s
  {
  }

  /** A normal pattern has no upper-case letter. */
  lemma NormalPatternIsLower(p: string)
    requires IsNormalPattern(p)
    ensures IsLower(p)
  {
    TrimKeepsCharacters(ToLower(p));
    forall i | 0 <= i < |p| ensures !('A' <= p[i] <= 'Z') {
      assert p[i] in Trim(ToLower(p));
    }
  }

  lemma {:induction false} TrimKeepsCharacters(s: string)
    ensures forall c :: c in Trim(s) ==> c in s
  {
    var t := TrimStart(s);
    TrimStartIsSuffix(s);
    TrimEndIsPrefix(t);
    forall c | c in Trim(s) ensures c in s {
      var i :| 0 <= i < |Trim(s)| && Trim(s)[i] == c;
      assert Trim(s) == t[..|Trim(s)|];
      assert t == s[|s| - |t|..];
      assert s[|s| - |t| + i] == c;
    }
  }

  /**
   * Every subdomain of a normal pattern matches it, with or without a
   * leading "www." on the subdomain.
   */
  lemma {:induction false} SubdomainMatches(sub: string, p: string)
    requires IsNormalPattern(p)
    ensures DomainMatches(Some(sub + "." + p), [p])
  {
    var host := sub + "." + p;
    NormalPatternIsLower(p);
    var s := StripWww(host);
    StrippedSubdomainEndsWithPattern(sub, p);
    var h := ToLower(s);
    if s == p {
      LowerOfLowerIsSame(p);
    } else {
      // lower-casing leaves the suffix "." + p as it is, since it has no upper-case letter
      var n := |s| - |p| - 1;
      assert h[n..] == "." + p by {
        forall i | 0 <= i < |p| + 1 ensures h[n..][i] == ("." + p)[i] {
          assert s[n + i] == ("." + p)[i];
        }
      }
    }
    MatchSingleEntry(host, p);
  }

  lemma StrippedSubdomainEndsWithPattern(sub: string, p: string)
    ensures StripWww(sub + "." + p) == p || EndsWith(StripWww(sub + "." + p), "." + p)
  {
    var host := sub + "." + p;
    var s := StripWww(host);
    if StartsWith(host, "www.") {
      if |sub| >= 4 {
        assert s == sub[4..] + "." + p;
        assert s[|s| - |"." + p|..] == "." + p;
      } else {
        // sub + "." begins "www.": the only '.' in "www." is its last character
        assert host[|sub|] == '.';
        assert |sub| == 3;
        assert s == p;
      }
    } else {
      assert host[|host| - |"." + p|..] == "." + p;
    }
  }

  /** A normal pattern not starting with "www." matches itself and "www." + itself. */
  lemma PatternMatchesItself(p: string)
    requires IsNormalPattern(p)
    requires !StartsWith(p, "www.")
    ensures DomainMatches(Some(p), [p])
    ensures DomainMatches(Some("www." + p), [p])
  {
    LowerIsIdempotent(Trim(p));
    assert StripWww("www." + p) == p;
    assert ToLower(p) == ToLower(Trim(ToLower(p)));
    LowerCommutesWithTrim(ToLower(p));
    TrimProperties(ToLower(p));
    assert ToLower(p) == p;
    MatchSingleEntry(p, p);
    MatchSingleEntry("www." + p, p);
  }

  /**
   * Only the host loses its "www.": a normal list entry written with "www."
   * (say "www.youtube.com") does not match that very host.
   */
  lemma WwwPatternMissesWwwHost(p: string)
    requires IsNormalPattern("www." + p)
    ensures !DomainMatches(Some("www." + p), ["www." + p])
  {
    var full := "www." + p;
    NormalPatternIsLower(full);
    assert StripWww(full) == p;
    assert IsLower(p) by {
      forall i | 0 <= i < |p| ensures !('A' <= p[i] <= 'Z') {
        assert p[i] == full[i + 4];
      }
    }
    LowerOfLowerIsSame(p);
    MatchSingleEntry(full, full);
  }

  /** Every entry `parseBlocklist` produces is non-empty, comma-free and already in normal form. */
  lemma ParsedEntriesAreNormal(text: string)
    ensures forall k :: 0 <= k < |ParseBlocklist(text)| ==>
      ParseBlocklist(text)[k] != "" && GoodEntry(ParseBlocklist(text)[k])
  {
    SplitPiecesHaveNoSeparator(text, ',');
    CleanEntriesAreNormal(Split(text, ','));
  }

  lemma {:induction false} CleanEntriesAreNormal(pieces: seq<string>)
    requires forall j :: 0 <= j < |pieces| ==> ',' !in pieces[j]
    ensures forall k :: 0 <= k < |CleanEntries(pieces)| ==> GoodEntry(CleanEntries(pieces)[k])
  {
    if |pieces| > 0 {
      CleanEntriesAreNormal(pieces[1..]);
      CleanEntryIsNormal(pieces[0]);
      CleanEntryKeepsCommaFree(pieces[0]);
    }
  }

  /** What `parseBlocklist` guarantees of each entry it returns. */
  predicate GoodEntry(e: string) {
    ',' !in e && IsNormalPattern(e) && IsTrimmed(e)
  }

  lemma CleanEntryKeepsCommaFree(p: string)
    requires ',' !in p
    ensures ',' !in CleanEntry(p)
  {
    TrimKeepsCharacters(p);
  }

  /** An entry is in the parsed list exactly when some comma-separated piece cleans to it. */
  lemma {:induction false} CleanEntriesMembership(pieces: seq<string>, x: string)
    ensures x in CleanEntries(pieces) <==>
      (x != "" && exists j :: 0 <= j < |pieces| && CleanEntry(pieces[j]) == x)
  {
    if |pieces| > 0 {
      CleanEntriesMembership(pieces[1..], x);
    }
  }

  lemma CleanEntryIsNormal(p: string)
    ensures IsNormalPattern(CleanEntry(p)) && IsTrimmed(CleanEntry(p))
  {
    var t := Trim(p);
    TrimProperties(p);
    LowerIsIdempotent(t);
    LowerCommutesWithTrim(t);
    TrimmedIsFixed(t);
    assert Trim(ToLower(t)) == ToLower(t);
    TrimProperties(ToLower(t));
  }
}
