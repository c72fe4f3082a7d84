/**
 * Daily block statistics: the record kept under the `statistics` storage key,
 * its lazy daily reset (`getStatistics`) and the update made for every block
 * (`recordBlockedSite`).
 */
module Stats {
  import opened Wrappers
  import opened Search

  datatype BlockedSite = BlockedSite(domain: string, count: int, lastBlocked: int, zoneId: Option<string>)

  datatype ZoneStatistics = ZoneStatistics(blockedCount: int, blockedSites: seq<BlockedSite>, timeInZone: int)

  datatype TimerStatistics = TimerStatistics(sessionsCompleted: int, totalFocusTime: int, blockedDuringFocus: int)

  datatype Statistics = Statistics(
    totalBlocked: int,
    blockedSites: seq<BlockedSite>,
    zoneStats: map<string, ZoneStatistics>,
    timerStats: TimerStatistics,
    sessionStart: int,
    lastUpdated: int)

  /** How many sites the global and the per-zone lists keep. */
  const MaxListedSites: nat := 10

  /** The record a new day starts with. */
  function FreshStatistics(now: int): (r: Statistics)
    ensures r.totalBlocked == 0 && r.blockedSites == [] && r.zoneStats == map[]
    ensures r.timerStats == TimerStatistics(0, 0, 0)
    ensures r.sessionStart == now && r.lastUpdated == now
  {
    Statistics(0, [], map[], TimerStatistics(0, 0, 0), now, now)
  }

  /**
   * Stored statistics are stale when their (non-zero) `sessionStart` falls on
   * another calendar day than `now`; `dayOf` stands for `toDateString()`.
   */
  predicate IsStale(s: Statistics, now: int, dayOf: int -> int) {
    s.sessionStart != 0 && dayOf(s.sessionStart) != dayOf(now)
  }

  /** The value `getStatistics` returns for what is stored (absent: `None`). */
  function ReadStatistics(stored: Option<Statistics>, now: int, dayOf: int -> int): (r: Statistics)
    ensures stored.None? ==> r == FreshStatistics(now)
    ensures stored.Some? && IsStale(stored.value, now, dayOf) ==> r == FreshStatistics(now)
    ensures stored.Some? && !IsStale(stored.value, now, dayOf) ==> r == stored.value
  {
    match stored
    case None => FreshStatistics(now)
    case Some(s) => if IsStale(s, now, dayOf) then FreshStatistics(now) else s
  }

  /** `sites.find(s => s.domain === domain)`, as the index of the first such site. */
  function FindSite(sites: seq<BlockedSite>, domain: string): (r: Option<nat>)
    ensures r.Some? ==> (r.value < |sites| && sites[r.value].domain == domain &&
      forall j :: 0 <= j < r.value ==> sites[j].domain != domain)
    ensures r.None? ==> forall j :: 0 <= j < |sites| ==> sites[j].domain != domain
  {
    var p := (b: BlockedSite) => b.domain == domain;
    assert forall j :: 0 <= j < |sites| ==> (p(sites[j]) <==> sites[j].domain == domain);
    FirstIndex(sites, p)
  }

  /**
   * Counts one more block of `domain` in a site list: the first entry for the
   * domain gets `count + 1` and `lastBlocked := now` (and the zone id when
   * `overwriteZone`), or a new entry with count 1 is appended.
   */
  function BumpSite(sites: seq<BlockedSite>, domain: string, zoneId: Option<string>, now: int, overwriteZone: bool)
    : (r: seq<BlockedSite>)
    ensures FindSite(sites, domain).Some? ==>
      var i := FindSite(sites, domain).value;
      |r| == |sites| &&
      r[i] == BlockedSite(domain, sites[i].count + 1, now, if overwriteZone then zoneId else sites[i].zoneId) &&
      forall j :: 0 <= j < |sites| && j != i ==> r[j] == sites[j]
    ensures FindSite(sites, domain).None? ==>
      r == sites + [BlockedSite(domain, 1, now, zoneId)]
  {
    match FindSite(sites, domain)
    case None => sites + [BlockedSite(domain, 1, now, zoneId)]
    case Some(i) =>
      var old_ := sites[i];
      sites[i := old_.(count := old_.count + 1, lastBlocked := now,
                       zoneId := if overwriteZone then zoneId else old_.zoneId)]
  }

  /** Non-increasing by count. */
  predicate SortedByCount(s: seq<BlockedSite>) {
    forall i, j :: 0 <= i < j < |s| ==> s[i].count >= s[j].count
  }

  /** Inserts `x` after every element whose count is at least its own. */
  function InsertByCount(s: seq<BlockedSite>, x: BlockedSite): (r: seq<BlockedSite>)
    ensures |r| == |s| + 1
  {
    if |s| == 0 then [x]
    else if s[0].count >= x.count then [s[0]] + InsertByCount(s[1..], x)
    else [x] + s
  }

  /** An insertion holds the elements of its input and the inserted element, nothing else. */
  lemma {:induction false} InsertIsPermutation(s: seq<BlockedSite>, x: BlockedSite)
    ensures multiset(InsertByCount(s, x)) == multiset(s) + multiset{x}
  {
    if |s| > 0 && s[0].count >= x.count {
      InsertIsPermutation(s[1..], x);
      assert s == [s[0]] + s[1..];
    }
  }

  /** Every element of an insertion is bounded by a bound of its inputs. */
  lemma {:induction false} InsertBounded(s: seq<BlockedSite>, x: BlockedSite, b: int)
    requires forall i :: 0 <= i < |s| ==> s[i].count <= b
    requires x.count <= b
    ensures forall i :: 0 <= i < |InsertByCount(s, x)| ==> InsertByCount(s, x)[i].count <= b
  {
    if |s| > 0 && s[0].count >= x.count {
      InsertBounded(s[1..], x, b);
      var rest := InsertByCount(s[1..], x);
      forall i | 0 < i < |rest| + 1 ensures InsertByCount(s, x)[i].count <= b {
        assert InsertByCount(s, x)[i] == rest[i - 1];
      }
    }
  }

  /** Inserting into a sorted list keeps it sorted. */
  lemma {:induction false} InsertKeepsSorted(s: seq<BlockedSite>, x: BlockedSite)
    requires SortedByCount(s)
    ensures SortedByCount(InsertByCount(s, x))
  {
    if |s| > 0 && s[0].count >= x.count {
      var rest := InsertByCount(s[1..], x);
      assert SortedByCount(s[1..]) by {
        forall i, j | 0 <= i < j < |s[1..]| ensures s[1..][i].count >= s[1..][j].count {
          assert s[1..][i] == s[i + 1] && s[1..][j] == s[j + 1];
        }
      }
      InsertKeepsSorted(s[1..], x);
      InsertBounded(s[1..], x, s[0].count);
      var r := [s[0]] + rest;
      forall i, j | 0 <= i < j < |r| ensures r[i].count >= r[j].count {
        assert r[j] == rest[j - 1];
        if i > 0 {
          assert r[i] == rest[i - 1];
        }
      }
    } else if |s| > 0 {
      var r := [x] + s;
      forall i, j | 0 <= i < j < |r| ensures r[i].count >= r[j].count {
        assert r[j] == s[j - 1];
        if i > 0 {
          assert r[i] == s[i - 1];
        }
      }
    }
  }

  /**
   * `sites.sort((a, b) => b.count - a.count)`: a stable sort by non-increasing
   * count, written as insertion of each element, left to right.
   */
  function SortByCount(s: seq<BlockedSite>): (r: seq<BlockedSite>)
    ensures |r| == |s|
  {
    if |s| == 0 then []
    else InsertByCount(SortByCount(s[..|s| - 1]), s[|s| - 1])
  }

  /** The sort returns its input's elements, each as often. */
  lemma {:induction false} SortIsPermutation(s: seq<BlockedSite>)
    ensures multiset(SortByCount(s)) == multiset(s)
  {
    if |s| > 0 {
      var init, last := s[..|s| - 1], s[|s| - 1];
      assert s == init + [last];
      assert multiset(s) == multiset(init) + multiset{last};
      SortIsPermutation(init);
      InsertIsPermutation(SortByCount(init), last);
    }
  }

  /** The sort returns a list by non-increasing count. */
  lemma {:induction false} SortIsSorted(s: seq<BlockedSite>)
    ensures SortedByCount(SortByCount(s))
  {
    if |s| > 0 {
      SortIsSorted(s[..|s| - 1]);
      InsertKeepsSorted(SortByCount(s[..|s| - 1]), s[|s| - 1]);
    }
  }

  /** `.sort(...)` then `.slice(0, 10)`. */
  function KeepTop(s: seq<BlockedSite>): seq<BlockedSite> {
    var sorted := SortByCount(s);
    sorted[..if |sorted| < MaxListedSites then |sorted| else MaxListedSites]
  }

  /** The per-zone record after one more block of `domain` in zone `z`. */
  function RecordInZone(zoneStats: map<string, ZoneStatistics>, z: string, domain: string, now: int)
    : (r: map<string, ZoneStatistics>)
    ensures r.Keys == zoneStats.Keys + {z}
    ensures r[z].blockedCount == (if z in zoneStats then zoneStats[z].blockedCount else 0) + 1
    ensures forall k :: k in zoneStats && k != z ==> r[k] == zoneStats[k]
  {
    var zs := if z in zoneStats then zoneStats[z] else ZoneStatistics(0, [], 0);
    zoneStats[z := zs.(blockedCount := zs.blockedCount + 1,
                       blockedSites := KeepTop(BumpSite(zs.blockedSites, domain, Some(z), now, false)))]
  }

  /** `recordBlockedSite(domain, zoneId, fromTimer)` applied to the statistics just read. */
  function RecordBlocked(s: Statistics, domain: string, zoneId: Option<string>, fromTimer: bool, now: int)
    : (r: Statistics)
    ensures r.totalBlocked == s.totalBlocked + 1
    ensures r.timerStats.blockedDuringFocus == s.timerStats.blockedDuringFocus + (if fromTimer then 1 else 0)
    ensures r.timerStats.sessionsCompleted == s.timerStats.sessionsCompleted
    ensures r.timerStats.totalFocusTime == s.timerStats.totalFocusTime
    ensures r.sessionStart == s.sessionStart && r.lastUpdated == now
  {
    var global := KeepTop(BumpSite(s.blockedSites, domain, zoneId, now, TruthyString(zoneId)));
    var zones := if TruthyString(zoneId) then RecordInZone(s.zoneStats, zoneId.value, domain, now)
                 else s.zoneStats;
    var timerStats :=
      if fromTimer then s.timerStats.(blockedDuringFocus := s.timerStats.blockedDuringFocus + 1)
      else s.timerStats;
    s.(totalBlocked := s.totalBlocked + 1, blockedSites := global, zoneStats := zones,
       timerStats := timerStats, lastUpdated := now)
  }

  /** The site list a zone has before a block: its stored list, or none for a zone not yet recorded. */
  function ZoneSites(s: Statistics, z: string): seq<BlockedSite> {
    if z in s.zoneStats then s.zoneStats[z].blockedSites else []
  }

  /**
   * Both site lists stay sorted and at most ten long, and hold only entries
   * of the list bumped for this block.
   */
  lemma RecordBlockedKeepsListsShort(s: Statistics, domain: string, zoneId: Option<string>, fromTimer: bool, now: int)
    ensures var r := RecordBlocked(s, domain, zoneId, fromTimer, now);
      |r.blockedSites| <= MaxListedSites && SortedByCount(r.blockedSites) &&
      multiset(r.blockedSites) <= multiset(BumpSite(s.blockedSites, domain, zoneId, now, TruthyString(zoneId))) &&
      (TruthyString(zoneId) ==>
        |r.zoneStats[zoneId.value].blockedSites| <= MaxListedSites &&
        SortedByCount(r.zoneStats[zoneId.value].blockedSites) &&
        multiset(r.zoneStats[zoneId.value].blockedSites) <=
          multiset(BumpSite(ZoneSites(s, zoneId.value), domain, Some(zoneId.value), now, false)))
  {
    KeepTopShape(BumpSite(s.blockedSites, domain, zoneId, now, TruthyString(zoneId)));
    if TruthyString(zoneId) {
      KeepTopShape(BumpSite(ZoneSites(s, zoneId.value), domain, Some(zoneId.value), now, false));
    }
  }

  /** Only the zone named by a (non-empty) zone id gains a block; every other zone is untouched. */
  lemma RecordBlockedZoneStats(s: Statistics, domain: string, zoneId: Option<string>, fromTimer: bool, now: int)
    ensures var r := RecordBlocked(s, domain, zoneId, fromTimer, now);
      r.zoneStats.Keys == s.zoneStats.Keys + (if TruthyString(zoneId) then {zoneId.value} else {}) &&
      (TruthyString(zoneId) ==>
        r.zoneStats[zoneId.value].blockedCount ==
          (if zoneId.value in s.zoneStats then s.zoneStats[zoneId.value].blockedCount else 0) + 1) &&
      (forall k :: k in s.zoneStats && !(TruthyString(zoneId) && k == zoneId.value) ==>
        r.zoneStats[k] == s.zoneStats[k])
  {
    var r := RecordBlocked(s, domain, zoneId, fromTimer, now);
    if TruthyString(zoneId) {
      assert r.zoneStats == RecordInZone(s.zoneStats, zoneId.value, domain, now);
    } else {
      assert r.zoneStats == s.zoneStats;
    }
  }

  /** No two entries of a site list are for the same domain. */
  predicate DistinctDomains(sites: seq<BlockedSite>) {
    forall i, j :: 0 <= i < j < |sites| ==> sites[i].domain != sites[j].domain
  }

  /** A site list as it is kept: at most ten entries, sorted by non-increasing count, one per domain. */
  predicate KeptList(sites: seq<BlockedSite>) {
    |sites| <= MaxListedSites && SortedByCount(sites) && DistinctDomains(sites)
  }

  /** The global list and every per-zone list are kept lists. */
  predicate WellFormed(s: Statistics) {
    KeptList(s.blockedSites) && forall k :: k in s.zoneStats ==> KeptList(s.zoneStats[k].blockedSites)
  }

  lemma FreshIsWellFormed(now: int)
    ensures WellFormed(FreshStatistics(now))
  {
  }

  /** Recording a block keeps the statistics well formed. */
  lemma RecordBlockedKeepsWellFormed(s: Statistics, domain: string, zoneId: Option<string>, fromTimer: bool, now: int)
    requires WellFormed(s)
    ensures WellFormed(RecordBlocked(s, domain, zoneId, fromTimer, now))
  {
    var r := RecordBlocked(s, domain, zoneId, fromTimer, now);
    BumpKeepsKeptList(s.blockedSites, domain, zoneId, now, TruthyString(zoneId));
    RecordBlockedZoneStats(s, domain, zoneId, fromTimer, now);
    if TruthyString(zoneId) {
      BumpKeepsKeptList(ZoneSites(s, zoneId.value), domain, Some(zoneId.value), now, false);
    }
    forall k | k in r.zoneStats ensures KeptList(r.zoneStats[k].blockedSites) {
      if !(TruthyString(zoneId) && k == zoneId.value) {
        assert r.zoneStats[k] == s.zoneStats[k];
      }
    }
  }

  /** How often `domain` was counted before this block: its first entry's count, or 0 when unlisted. */
  function PriorCount(sites: seq<BlockedSite>, domain: string): int {
    match FindSite(sites, domain)
    case None => 0
    case Some(i) => sites[i].count
  }

  /**
   * The point of `recordBlockedSite`: when the domain is already listed, or
   * the global list has room, the domain's entry afterwards counts one more
   * block and carries the time of this one.
   */
  lemma RecordBlockedCountsSite(s: Statistics, domain: string, zoneId: Option<string>, fromTimer: bool, now: int)
    requires WellFormed(s)
    requires FindSite(s.blockedSites, domain).Some? || |s.blockedSites| < MaxListedSites
    ensures var sites := RecordBlocked(s, domain, zoneId, fromTimer, now).blockedSites;
      FindSite(sites, domain).Some? &&
      sites[FindSite(sites, domain).value].count == PriorCount(s.blockedSites, domain) + 1 &&
      sites[FindSite(sites, domain).value].lastBlocked == now
  {
    BumpedSiteIsKept(s.blockedSites, domain, zoneId, now, TruthyString(zoneId));
  }

  /** The same for the zone's own list, when the block names a zone. */
  lemma RecordBlockedCountsZoneSite(s: Statistics, domain: string, zoneId: Option<string>, fromTimer: bool, now: int)
    requires WellFormed(s)
    requires TruthyString(zoneId)
    requires FindSite(ZoneSites(s, zoneId.value), domain).Some? || |ZoneSites(s, zoneId.value)| < MaxListedSites
    ensures var sites := RecordBlocked(s, domain, zoneId, fromTimer, now).zoneStats[zoneId.value].blockedSites;
      FindSite(sites, domain).Some? &&
      sites[FindSite(sites, domain).value].count == PriorCount(ZoneSites(s, zoneId.value), domain) + 1 &&
      sites[FindSite(sites, domain).value].lastBlocked == now
  {
    BumpedSiteIsKept(ZoneSites(s, zoneId.value), domain, Some(zoneId.value), now, false);
  }

  // ---------------------------------------------------------------------
  // One domain per entry
  // ---------------------------------------------------------------------

  /** Bumping a kept list and keeping its top gives a kept list. */
  lemma BumpKeepsKeptList(sites: seq<BlockedSite>, domain: string, zoneId: Option<string>, now: int, overwriteZone: bool)
    requires KeptList(sites)
    ensures KeptList(KeepTop(BumpSite(sites, domain, zoneId, now, overwriteZone)))
  {
    var b := BumpSite(sites, domain, zoneId, now, overwriteZone);
    KeepTopShape(b);
    BumpKeepsDistinct(sites, domain, zoneId, now, overwriteZone);
    KeepTopKeepsDistinct(b);
  }

  /**
   * When the bumped list still fits, nothing is cut: the kept list holds
   * exactly the bumped entries, and the domain's entry is the bumped one.
   */
  lemma BumpedSiteIsKept(sites: seq<BlockedSite>, domain: string, zoneId: Option<string>, now: int, overwriteZone: bool)
    requires KeptList(sites)
    requires FindSite(sites, domain).Some? || |sites| < MaxListedSites
    ensures var b := BumpSite(sites, domain, zoneId, now, overwriteZone);
      var r := KeepTop(b);
      multiset(r) == multiset(b) &&
      FindSite(r, domain).Some? &&
      r[FindSite(r, domain).value].count == PriorCount(sites, domain) + 1 &&
      r[FindSite(r, domain).value].lastBlocked == now
  {
    var b := BumpSite(sites, domain, zoneId, now, overwriteZone);
    var r := KeepTop(b);
    var sorted := SortByCount(b);
    assert r == sorted;
    SortIsPermutation(b);
    BumpKeepsDistinct(sites, domain, zoneId, now, overwriteZone);
    var p: nat := if FindSite(sites, domain).Some? then FindSite(sites, domain).value else |sites|;
    var e := b[p];
    assert e.domain == domain && e.count == PriorCount(sites, domain) + 1 && e.lastBlocked == now;
    assert e in multiset(r);
    var q :| 0 <= q < |r| && r[q] == e;
    assert r[q].domain == domain;
    var k := FindSite(r, domain).value;
    assert r[k] in multiset(b);
    var m :| 0 <= m < |b| && b[m] == r[k];
    assert m == p;
  }

  /** Bumping keeps one entry per domain. */
  lemma BumpKeepsDistinct(sites: seq<BlockedSite>, domain: string, zoneId: Option<string>, now: int, overwriteZone: bool)
    requires DistinctDomains(sites)
    ensures DistinctDomains(BumpSite(sites, domain, zoneId, now, overwriteZone))
  {
    var r := BumpSite(sites, domain, zoneId, now, overwriteZone);
    if FindSite(sites, domain).Some? {
      assert forall j :: 0 <= j < |r| ==> r[j].domain == sites[j].domain;
    } else {
      forall i, j | 0 <= i < j < |r| ensures r[i].domain != r[j].domain {
        assert r[i] == sites[i];
        if j < |sites| {
          assert r[j] == sites[j];
        }
      }
    }
  }

  /** Inserting a site whose domain is not yet listed keeps one entry per domain. */
  lemma {:induction false} InsertKeepsDistinct(s: seq<BlockedSite>, x: BlockedSite)
    requires DistinctDomains(s)
    requires forall i :: 0 <= i < |s| ==> s[i].domain != x.domain
    ensures DistinctDomains(InsertByCount(s, x))
  {
    if |s| > 0 && s[0].count >= x.count {
      var tail := s[1..];
      DistinctTail(s);
      InsertKeepsDistinct(tail, x);
      var rest := InsertByCount(tail, x);
      InsertIsPermutation(tail, x);
      forall k | 0 <= k < |rest| ensures rest[k].domain != s[0].domain {
        assert rest[k] in multiset(tail) + multiset{x};
        if rest[k] in tail {
          var m :| 0 <= m < |tail| && tail[m] == rest[k];
          assert tail[m] == s[m + 1];
        }
      }
      ConsKeepsDistinct(s[0], rest);
    } else if |s| > 0 {
      ConsKeepsDistinct(x, s);
    }
  }

  lemma DistinctTail(s: seq<BlockedSite>)
    requires |s| > 0 && DistinctDomains(s)
    ensures DistinctDomains(s[1..])
  {
    var tail := s[1..];
    forall i, j | 0 <= i < j < |tail| ensures tail[i].domain != tail[j].domain {
      assert tail[i] == s[i + 1] && tail[j] == s[j + 1];
    }
  }

  lemma ConsKeepsDistinct(h: BlockedSite, rest: seq<BlockedSite>)
    requires DistinctDomains(rest)
    requires forall k :: 0 <= k < |rest| ==> rest[k].domain != h.domain
    ensures DistinctDomains([h] + rest)
  {
    var r := [h] + rest;
    forall i, j | 0 <= i < j < |r| ensures r[i].domain != r[j].domain {
      assert r[j] == rest[j - 1];
      if i > 0 {
        assert r[i] == rest[i - 1];
      }
    }
  }

  /** Sorting keeps one entry per domain. */
  lemma {:induction false} SortKeepsDistinct(s: seq<BlockedSite>)
    requires DistinctDomains(s)
    ensures DistinctDomains(SortByCount(s))
  {
    if |s| > 0 {
      var init, last := s[..|s| - 1], s[|s| - 1];
      assert DistinctDomains(init) by {
        forall i, j | 0 <= i < j < |init| ensures init[i].domain != init[j].domain {
          assert init[i] == s[i] && init[j] == s[j];
        }
      }
      SortKeepsDistinct(init);
      SortIsPermutation(init);
      var sorted := SortByCount(init);
      forall i | 0 <= i < |sorted| ensures sorted[i].domain != last.domain {
        assert sorted[i] in multiset(init);
        var m :| 0 <= m < |init| && init[m] == sorted[i];
        assert init[m] == s[m];
      }
      InsertKeepsDistinct(sorted, last);
    }
  }

  /** Keeping the top of a list with one entry per domain keeps one entry per domain. */
  lemma KeepTopKeepsDistinct(s: seq<BlockedSite>)
    requires DistinctDomains(s)
    ensures DistinctDomains(KeepTop(s))
  {
    SortKeepsDistinct(s);
    var sorted := SortByCount(s);
    var top := KeepTop(s);
    forall i, j | 0 <= i < j < |top| ensures top[i].domain != top[j].domain {
      assert top[i] == sorted[i] && top[j] == sorted[j];
    }
  }

  // ---------------------------------------------------------------------
  // Properties of the kept list
  // ---------------------------------------------------------------------

  /** The kept list is sorted, at most ten long, and as long as it can be. */
  lemma KeepTopShape(s: seq<BlockedSite>)
    ensures SortedByCount(KeepTop(s))
    ensures |KeepTop(s)| == if |s| < MaxListedSites then |s| else MaxListedSites
    ensures multiset(KeepTop(s)) <= multiset(s)
  {
    KeepTopIsSorted(s);
    KeepTopLength(s);
    KeepTopIsSubMultiset(s);
  }

  lemma KeepTopIsSorted(s: seq<BlockedSite>)
    ensures SortedByCount(KeepTop(s))
  {
    var sorted := SortByCount(s);
    var top := KeepTop(s);
    SortIsSorted(s);
    forall i, j | 0 <= i < j < |top| ensures top[i].count >= top[j].count {
      assert top[i] == sorted[i] && top[j] == sorted[j];
    }
  }

  lemma KeepTopLength(s: seq<BlockedSite>)
    ensures |KeepTop(s)| == if |s| < MaxListedSites then |s| else MaxListedSites
  {
  }

  lemma KeepTopIsSubMultiset(s: seq<BlockedSite>)
    ensures multiset(KeepTop(s)) <= multiset(s)
  {
    var sorted := SortByCount(s);
    var k := |KeepTop(s)|;
    SortIsPermutation(s);
    assert sorted == KeepTop(s) + sorted[k..];
    assert multiset(sorted) == multiset(KeepTop(s)) + multiset(sorted[k..]);
  }

  /** Every site kept counts at least as much as every site dropped. */
  lemma KeptDominatesDropped(s: seq<BlockedSite>, kept: BlockedSite, dropped: BlockedSite)
    requires kept in KeepTop(s)
    requires dropped in multiset(s) - multiset(KeepTop(s))
    ensures kept.count >= dropped.count
  {
    SortIsPermutation(s);
    SortIsSorted(s);
    PrefixDominatesRest(SortByCount(s), |KeepTop(s)|, kept, dropped);
  }

  /** In a sorted list, an element of a prefix counts at least as much as one left after it. */
  lemma PrefixDominatesRest(sorted: seq<BlockedSite>, k: nat, kept: BlockedSite, dropped: BlockedSite)
    requires SortedByCount(sorted) && k <= |sorted|
    requires kept in sorted[..k]
    requires dropped in multiset(sorted) - multiset(sorted[..k])
    ensures kept.count >= dropped.count
  {
    assert sorted == sorted[..k] + sorted[k..];
    assert multiset(sorted) == multiset(sorted[..k]) + multiset(sorted[k..]);
    assert dropped in sorted[k..];
    var j :| 0 <= j < |sorted| - k && sorted[k..][j] == dropped;
    var i :| 0 <= i < k && sorted[..k][i] == kept;
    assert sorted[i] == kept && sorted[k + j] == dropped;
  }

  /** Inserting an element that counts no more than any element appends it. */
  lemma {:induction false} InsertSmallestAppends(s: seq<BlockedSite>, x: BlockedSite)
    requires forall i :: 0 <= i < |s| ==> s[i].count >= x.count
    ensures InsertByCount(s, x) == s + [x]
  {
    if |s| > 0 {
      InsertSmallestAppends(s[1..], x);
      assert s == [s[0]] + s[1..];
    }
  }

  /**
   * A consequence of the sort being stable: once ten sites with a count of
   * at least 1 are listed, a domain blocked for the first time is appended
   * with count 1 last and cut by the slice, so it never enters the list.
   */
  lemma NewDomainDroppedWhenListFull(sites: seq<BlockedSite>, domain: string, zoneId: Option<string>, now: int,
                                     overwriteZone: bool)
    requires |sites| >= MaxListedSites
    requires forall i :: 0 <= i < |sites| ==> sites[i].count >= 1
    requires FindSite(sites, domain).None?
    ensures forall e :: e in KeepTop(BumpSite(sites, domain, zoneId, now, overwriteZone)) ==>
      e in sites && e.domain != domain
  {
    var x := BlockedSite(domain, 1, now, zoneId);
    KeepTopIgnoresSmallestLast(sites, x);
    KeepTopShape(sites);
    forall e | e in KeepTop(sites) ensures e in sites {
      assert e in multiset(KeepTop(sites));
    }
  }

  /** On a full list, an element appended last with the least count does not change what is kept. */
  lemma KeepTopIgnoresSmallestLast(s: seq<BlockedSite>, x: BlockedSite)
    requires |s| >= MaxListedSites
    requires forall i :: 0 <= i < |s| ==> s[i].count >= x.count
    ensures KeepTop(s + [x]) == KeepTop(s)
  {
    var sorted := SortByCount(s);
    SortOfAppend(s, x);
    SortKeepsLowerBound(s, x.count);
    InsertSmallestAppends(sorted, x);
    assert (sorted + [x])[..MaxListedSites] == sorted[..MaxListedSites];
  }

  /** Sorting a list with one more element at the end inserts that element. */
  lemma SortOfAppend(s: seq<BlockedSite>, x: BlockedSite)
    ensures SortByCount(s + [x]) == InsertByCount(SortByCount(s), x)
  {
    assert (s + [x])[..|s|] == s;
  }

  /** A lower bound on every count survives sorting. */
  lemma SortKeepsLowerBound(s: seq<BlockedSite>, b: int)
    requires forall i :: 0 <= i < |s| ==> s[i].count >= b
    ensures forall i :: 0 <= i < |SortByCount(s)| ==> SortByCount(s)[i].count >= b
  {
    var sorted := SortByCount(s);
    SortIsPermutation(s);
    forall i | 0 <= i < |sorted| ensures sorted[i].count >= b {
      assert sorted[i] in multiset(s);
    }
  }
}
