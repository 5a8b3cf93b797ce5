/** Game snapshots ("payloads") and the activity deltas the stats module computes between
    two of them: `sanitizeStats`, `calculateKillsDifference`,
    `calculateSubBossKillsDifference` and `calculateActivityDifferences`. */
module Snapshot {
  import opened Wrappers

  /** One entry of `Stats.Enemies`: a type path such as "Foo/NimrodSubBossAvatar" and a
      cumulative kill count (a missing count reads as 0). */
  datatype Enemy = Enemy(enemyType: Option<string>, kills: int)

  /** `Stats`: cumulative counters. `timePlayedSec` is absent when the player is not in a
      game; the other counters read as 0 when absent. */
  datatype Stats = Stats(
    timePlayedSec: Option<int>,
    pickupCount: int,
    income: int,
    xp: int,
    enemies: seq<Enemy>)

  /** A payload received from the game; `stats` is its `Stats` sub-record, if any. */
  datatype Payload = Payload(stats: Option<Stats>)

  const NoStats := Stats(None, 0, 0, 0, [])

  /** `data?.Stats || {}`: the counters of a payload, all zero when it has none. */
  function StatsOf(p: Payload): Stats {
    p.stats.GetOr(NoStats)
  }

  /** `sanitizeStats`: always a Stats record, with TimePlayedSec defaulted to 0. */
  function Sanitize(p: Payload): (r: Payload)
    ensures r.stats.Some?
    ensures StatsOf(r) == StatsOf(p).(timePlayedSec := Some(StatsOf(p).timePlayedSec.GetOr(0)))
  {
    var s := StatsOf(p);
    Payload(Some(Stats(Some(s.timePlayedSec.GetOr(0)), s.pickupCount, s.income, s.xp, s.enemies)))
  }

  /** The ten enemy type names counted as sub-bosses. */
  const SubBossTypes: seq<string> := [
    "SpiderSubBossAvatar", "NimrodSubBossAvatar", "MendicantWazzardSubBossAvatar",
    "MockeryArmoredManSubBossAvatar", "MendicantKnightBellCleaverSubBossAvatar",
    "MeleeGreatSwordSubBossAvatar", "CorruptedSproutFolkSubBossAvatar",
    "RangedHunterSubBossAvatar", "MeleeMaceOfficerSubBossAvatar", "MendicantKingAvatar"
  ]

  /** `s.split('/').pop()`: the part after the last '/', or all of s when it has none. */
  function LastSegment(s: string): (r: string)
    ensures '/' !in r
    ensures |r| <= |s| && r == s[|s| - |r|..]
    ensures |r| < |s| ==> s[|s| - |r| - 1] == '/'
  {
    if s == [] then []
    else if s[|s| - 1] == '/' then []
    else LastSegment(s[..|s| - 1]) + [s[|s| - 1]]
  }

  /** The segment after a final '/' is what `split('/').pop()` returns. */
  lemma {:induction false} LastSegmentAfterSlash(prefix: string, segment: string)
    requires '/' !in segment
    ensures LastSegment(prefix + "/" + segment) == segment
    decreases |segment|
  {
    var s := prefix + "/" + segment;
    if segment != [] {
      var n := |segment|;
      assert s[..|s| - 1] == prefix + "/" + segment[..n - 1];
      assert segment[n - 1] in segment;
      LastSegmentAfterSlash(prefix, segment[..n - 1]);
      assert segment == segment[..n - 1] + [segment[n - 1]];
    }
  }

  /** The sub-boss filter: `enemy?.type && subBossTypes.includes(enemy.type.split('/').pop())`. */
  predicate IsSubBoss(e: Enemy) {
    e.enemyType.Some? && e.enemyType.value != "" && LastSegment(e.enemyType.value) in SubBossTypes
  }

  /** `reduce((sum, enemy) => sum + (enemy.kills || 0), 0)`. */
  function TotalKills(es: seq<Enemy>): int {
    if es == [] then 0 else es[0].kills + TotalKills(es[1..])
  }

  /** `filter(...)` with the sub-boss test: the sub-boss entries, in order. */
  function SubBosses(es: seq<Enemy>): (r: seq<Enemy>)
    ensures |r| <= |es|
    ensures forall e :: e in r ==> e in es && IsSubBoss(e)
    ensures forall e :: e in es && IsSubBoss(e) ==> e in r
    ensures forall e :: multiset(r)[e] == if IsSubBoss(e) then multiset(es)[e] else 0
  {
    assert es != [] ==> es == [es[0]] + es[1..];
    if es == [] then []
    else if IsSubBoss(es[0]) then [es[0]] + SubBosses(es[1..])
    else SubBosses(es[1..])
  }

  /** The entries the filter drops. */
  function Regulars(es: seq<Enemy>): seq<Enemy> {
    if es == [] then []
    else if IsSubBoss(es[0]) then Regulars(es[1..])
    else [es[0]] + Regulars(es[1..])
  }

  lemma {:induction false} TotalKillsAppend(a: seq<Enemy>, b: seq<Enemy>)
    ensures TotalKills(a + b) == TotalKills(a) + TotalKills(b)
  {
    if a == [] {
      assert a + b == b;
    } else {
      assert (a + b)[1..] == a[1..] + b;
      TotalKillsAppend(a[1..], b);
    }
  }

  /** Every kill is counted once, either as a sub-boss kill or as a regular one. */
  lemma {:induction false} KillsSplit(es: seq<Enemy>)
    ensures TotalKills(es) == TotalKills(SubBosses(es)) + TotalKills(Regulars(es))
  {
    if es != [] {
      KillsSplit(es[1..]);
    }
  }

  predicate NonNegativeKills(es: seq<Enemy>) {
    forall i :: 0 <= i < |es| ==> es[i].kills >= 0
  }

  lemma {:induction false} TotalKillsNonNegative(es: seq<Enemy>)
    requires NonNegativeKills(es)
    ensures TotalKills(es) >= 0
  {
    if es != [] {
      TotalKillsNonNegative(es[1..]);
    }
  }

  lemma {:induction false} RegularsNonNegative(es: seq<Enemy>)
    requires NonNegativeKills(es)
    ensures NonNegativeKills(Regulars(es))
  {
    if es != [] {
      RegularsNonNegative(es[1..]);
    }
  }

  /** With non-negative counters, sub-boss kills never exceed all kills. */
  lemma SubBossKillsAtMostKills(es: seq<Enemy>)
    requires NonNegativeKills(es)
    ensures TotalKills(SubBosses(es)) <= TotalKills(es)
  {
    KillsSplit(es);
    RegularsNonNegative(es);
    TotalKillsNonNegative(Regulars(es));
  }

  /** `Math.max(0, a - b)`: a cumulative counter's growth, never negative. */
  function Growth(newValue: int, oldValue: int): (d: int)
    ensures d >= 0 && d >= newValue - oldValue
    ensures d == 0 || d == newValue - oldValue
  {
    if newValue - oldValue > 0 then newValue - oldValue else 0
  }

  /** `calculateKillsDifference`. */
  function KillsDifference(newData: Payload, oldData: Payload): int {
    Growth(TotalKills(StatsOf(newData).enemies), TotalKills(StatsOf(oldData).enemies))
  }

  /** `calculateSubBossKillsDifference`. */
  function SubBossKillsDifference(newData: Payload, oldData: Payload): int {
    Growth(TotalKills(SubBosses(StatsOf(newData).enemies)), TotalKills(SubBosses(StatsOf(oldData).enemies)))
  }

  datatype ActivityDiffs = ActivityDiffs(kills: int, subBossKills: int, items: int, dracs: int, xp: int)

  predicate NonNegativeDiffs(d: ActivityDiffs) {
    d.kills >= 0 && d.subBossKills >= 0 && d.items >= 0 && d.dracs >= 0 && d.xp >= 0
  }

  /** `Object.values(activityDiffs).some(diff => diff > 0)`. */
  predicate HasActivity(d: ActivityDiffs) {
    d.kills > 0 || d.subBossKills > 0 || d.items > 0 || d.dracs > 0 || d.xp > 0
  }

  /** `calculateActivityDifferences`: items from PickupCount, dracs from Income, xp from XP. */
  function Diffs(newData: Payload, oldData: Payload): (d: ActivityDiffs)
    ensures NonNegativeDiffs(d)
    ensures var n, o := StatsOf(newData), StatsOf(oldData);
            && d.kills == Growth(TotalKills(n.enemies), TotalKills(o.enemies))
            && d.subBossKills == Growth(TotalKills(SubBosses(n.enemies)), TotalKills(SubBosses(o.enemies)))
            && d.items == Growth(n.pickupCount, o.pickupCount)
            && d.dracs == Growth(n.income, o.income)
            && d.xp == Growth(n.xp, o.xp)
  {
    var n, o := StatsOf(newData), StatsOf(oldData);
    ActivityDiffs(
      KillsDifference(newData, oldData),
      SubBossKillsDifference(newData, oldData),
      Growth(n.pickupCount, o.pickupCount),
      Growth(n.income, o.income),
      Growth(n.xp, o.xp))
  }

  /** Sanitizing both payloads does not change the deltas, so the deltas `trackActivity`
      tests and the ones `updatePeriodData` adds are the same. */
  lemma DiffsIgnoreSanitize(newData: Payload, oldData: Payload)
    ensures Diffs(Sanitize(newData), Sanitize(oldData)) == Diffs(newData, oldData)
  {
  }

  /** A payload compared with itself shows no activity. */
  lemma NoActivityAgainstItself(p: Payload)
    ensures Diffs(p, p) == ActivityDiffs(0, 0, 0, 0, 0)
    ensures !HasActivity(Diffs(p, p))
  {
  }

  /** Counters of `b` at least those of `a`. */
  predicate CountersGrew(a: Payload, b: Payload) {
    var sa, sb := StatsOf(a), StatsOf(b);
    && TotalKills(sa.enemies) <= TotalKills(sb.enemies)
    && TotalKills(SubBosses(sa.enemies)) <= TotalKills(SubBosses(sb.enemies))
    && sa.pickupCount <= sb.pickupCount && sa.income <= sb.income && sa.xp <= sb.xp
  }

  /** When no counter went backwards, nothing is clamped and the deltas of consecutive
      snapshots add up to the delta across both intervals. */
  lemma DiffsTelescope(a: Payload, b: Payload, c: Payload)
    requires CountersGrew(a, b) && CountersGrew(b, c)
    ensures var ab, bc, ac := Diffs(b, a), Diffs(c, b), Diffs(c, a);
            && ac.kills == ab.kills + bc.kills
            && ac.subBossKills == ab.subBossKills + bc.subBossKills
            && ac.items == ab.items + bc.items
            && ac.dracs == ab.dracs + bc.dracs
            && ac.xp == ab.xp + bc.xp
  {
  }

  const NimrodKills := Enemy(Some("Foo/NimrodSubBossAvatar"), 3)
  const GoonKills := Enemy(Some("Foo/RegularGoon"), 10)

  lemma NimrodSegment()
    ensures LastSegment("Foo/NimrodSubBossAvatar") == "NimrodSubBossAvatar"
  {
    LastSegmentAfterSlash("Foo", "NimrodSubBossAvatar");
    assert "Foo/NimrodSubBossAvatar" == "Foo" + "/" + "NimrodSubBossAvatar";
  }

  lemma NimrodIsSubBoss()
    ensures IsSubBoss(NimrodKills)
  {
    NimrodSegment();
    assert SubBossTypes[1] == "NimrodSubBossAvatar";
  }

  lemma GoonSegment()
    ensures LastSegment("Foo/RegularGoon") == "RegularGoon"
  {
    LastSegmentAfterSlash("Foo", "RegularGoon");
    assert "Foo/RegularGoon" == "Foo" + "/" + "RegularGoon";
  }

  lemma GoonIsRegular()
    ensures !IsSubBoss(GoonKills)
  {
    GoonSegment();
    assert "RegularGoon" !in SubBossTypes;
  }

  lemma ExampleSubBosses()
    ensures SubBosses([NimrodKills, GoonKills]) == [NimrodKills]
  {
    var es := [NimrodKills, GoonKills];
    NimrodIsSubBoss();
    GoonIsRegular();
    assert es[1..] == [GoonKills] && es[1..][1..] == [];
  }

  /** Against an all-zero baseline, { "Foo/NimrodSubBossAvatar": 3 } and
      { "Foo/RegularGoon": 10 } give 3 sub-boss kills out of 13 kills. */
  lemma SubBossExample()
    ensures var d := Diffs(Payload(Some(Stats(Some(60), 0, 0, 0, [NimrodKills, GoonKills]))),
                           Payload(Some(NoStats)));
            d.subBossKills == 3 && d.kills == 13
  {
    var es := [NimrodKills, GoonKills];
    ExampleSubBosses();
    assert TotalKills([NimrodKills]) == 3;
    assert es[1..] == [GoonKills];
    assert TotalKills(es) == 13;
  }
}
